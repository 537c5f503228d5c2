/**
  Flattening the GN target graph: a library takes over the list fields of everything it reaches
  without passing through another library.
 */
module ExportTargets {
  import opened Prelude
  import opened DagTraverse
  import StringOrder

  /** A field as the description gives it; a scalar cannot be made into a set. */
  datatype Value = Text(text: string) | Items(items: seq<string>) | Table(keys: set<string>) | Scalar

  /** A field while it is being flattened. */
  datatype Field = Own(value: Value) | Bag(bag: set<string>)

  datatype Target = Target(kind: string, deps: seq<string>, fields: map<string, Value>)

  type Graph = map<string, Target>
  type Flat = map<string, Field>

  predicate IsLibrary(t: Target) {
    t.kind in {"shared_library", "static_library"}
  }

  predicate Expected(t: Target) {
    IsLibrary(t) || t.kind in {"source_set", "group", "action", "action_foreach", "executable"}
  }

  predicate IsCopy(t: Target) {
    t.kind == "copy"
  }

  function Fields(t: Target): map<string, Value> {
    t.fields["type" := Text(t.kind)]["deps" := Items(t.deps)]
  }

  function Contents(v: Field): set<string> {
    match v
    case Bag(b) => b
    case Own(Text(t)) => {t}
    case Own(Items(s)) => SetOf(s)
    case Own(Table(keys)) => keys
    case Own(Scalar) => {}
  }

  function Base(flat: Flat, f: string): set<string> {
    if f in flat then Contents(flat[f]) else {}
  }

  predicate HasScalar(flat: Flat, f: string) {
    f in flat && flat[f] == Own(Scalar)
  }

  predicate Lists(fields: map<string, Value>, f: string) {
    f in fields && fields[f].Items?
  }

  /** Adding the list fields of one target; a scalar in the way is a type error. */
  function Absorb(flat: Flat, fields: map<string, Value>): Option<Flat> {
    if exists f :: f in fields && Lists(fields, f) && HasScalar(flat, f) then None
    else
      Some(map f | f in flat.Keys + fields.Keys && (f in flat || Lists(fields, f)) ::
        if Lists(fields, f) then Bag(Base(flat, f) + SetOf(fields[f].items)) else flat[f])
  }

  function Only(fields: map<string, Value>, keys: set<string>): map<string, Value> {
    map f | f in fields && f in keys :: fields[f]
  }

  predicate Absorbed(flat: Flat, fields: map<string, Value>, keys: set<string>, current: Flat) {
    var r := Absorb(flat, Only(fields, keys));
    r.Some? && r.value == current
  }

  method AbsorbFields(flat: Flat, fields: map<string, Value>) returns (r: Option<Flat>)
    ensures r == Absorb(flat, fields)
  {
    var current, rest := flat, fields.Keys;
    AbsorbedNone(flat, fields);
    assert fields.Keys - rest == {};
    while rest != {}
      invariant rest <= fields.Keys
      invariant Absorbed(flat, fields, fields.Keys - rest, current)
    {
      var f :| f in rest;
      ghost var done := fields.Keys - rest;
      AbsorbedUntouched(flat, fields, done, current, f);
      if fields[f].Items? && HasScalar(current, f) {
        assert Lists(fields, f) && HasScalar(flat, f);
        return None;
      }
      if fields[f].Items? {
        current := current[f := Bag(Base(current, f) + SetOf(fields[f].items))];
      }
      AbsorbStep(flat, fields, done, f);
      rest := rest - {f};
      assert fields.Keys - rest == done + {f};
    }
    assert fields.Keys - rest == fields.Keys && Only(fields, fields.Keys) == fields;
    r := Some(current);
  }

  lemma AbsorbedNone(flat: Flat, fields: map<string, Value>)
    ensures Absorbed(flat, fields, {}, flat)
  {
  }

  lemma AbsorbedUntouched(flat: Flat, fields: map<string, Value>, done: set<string>, current: Flat, f: string)
    requires Absorbed(flat, fields, done, current) && f !in done
    ensures (f in current <==> f in flat) && (f in flat ==> current[f] == flat[f])
  {
  }

  lemma AbsorbStep(flat: Flat, fields: map<string, Value>, done: set<string>, f: string)
    requires f in fields && f !in done && Absorb(flat, Only(fields, done)).Some?
    requires fields[f].Items? ==> !HasScalar(flat, f)
    ensures var before, after := Absorb(flat, Only(fields, done)), Absorb(flat, Only(fields, done + {f}));
            && after.Some?
            && after.value == if fields[f].Items? then
                                before.value[f := Bag(Base(before.value, f) + SetOf(fields[f].items))]
                              else before.value
  {
    var less, more := Only(fields, done), Only(fields, done + {f});
    ListsMore(fields, done, f);
    assert NoClash(flat, less);
    AbsorbMore(flat, less, more, f);
  }

  lemma ListsMore(fields: map<string, Value>, done: set<string>, f: string)
    requires f in fields && f !in done
    ensures Only(fields, done + {f}) == Only(fields, done)[f := fields[f]] && f !in Only(fields, done)
  {
  }

  predicate NoClash(flat: Flat, fields: map<string, Value>) {
    forall g :: g in fields && Lists(fields, g) ==> !HasScalar(flat, g)
  }

  lemma AbsorbAt(flat: Flat, fields: map<string, Value>, g: string)
    requires NoClash(flat, fields)
    ensures Absorb(flat, fields).Some?
    ensures var r := Absorb(flat, fields).value;
            && (g in r <==> g in flat || Lists(fields, g))
            && (g in r ==> r[g] == if Lists(fields, g) then Bag(Base(flat, g) + SetOf(fields[g].items)) else flat[g])
  {
  }

  lemma AbsorbMore(flat: Flat, less: map<string, Value>, more: map<string, Value>, f: string)
    requires f in more && f !in less && more == less[f := more[f]] && NoClash(flat, less)
    requires more[f].Items? ==> !HasScalar(flat, f)
    ensures Absorb(flat, less).Some? && Absorb(flat, more).Some?
    ensures var before := Absorb(flat, less).value;
            Absorb(flat, more).value == if more[f].Items? then before[f := Bag(Base(before, f) + SetOf(more[f].items))]
                                        else before
  {
    AbsorbAt(flat, less, f);
    AbsorbAt(flat, more, f);
    var before, after := Absorb(flat, less).value, Absorb(flat, more).value;
    forall g | g != f ensures (g in after <==> g in before) && (g in before ==> after[g] == before[g]) {
      AbsorbAt(flat, less, g);
      AbsorbAt(flat, more, g);
    }
    SameElsewhere(before, after, f);
  }

  lemma SameElsewhere(before: Flat, after: Flat, f: string)
    requires forall g :: g != f ==> (g in after <==> g in before) && (g in before ==> after[g] == before[g])
    ensures f in after ==> after == before[f := after[f]]
    ensures f !in after ==> after == before - {f}
  {
  }

  // ----- the callback of the flattening traversal

  function Next(descs: Graph, stop: bool): string -> seq<string> {
    k => if k in descs && !(stop && IsLibrary(descs[k])) then descs[k].deps else []
  }

  function Effect(descs: Graph, stop: bool): (Flat, string) -> Option<Flat> {
    (flat, k) =>
      if k !in descs then None
      else if stop && IsLibrary(descs[k]) then Some(flat)
      else if IsCopy(descs[k]) then if descs[k].deps == [] then Some(flat) else None
      else if Expected(descs[k]) then Absorb(flat, Fields(descs[k])) else None
  }

  /** The target's list field `f` is taken over. */
  predicate Gives(descs: Graph, stop: bool, k: string, f: string) {
    k in descs && !(stop && IsLibrary(descs[k])) && !IsCopy(descs[k]) && Lists(Fields(descs[k]), f)
  }

  function Given(descs: Graph, stop: bool, k: string, f: string): set<string> {
    if Gives(descs, stop, k, f) then SetOf(Fields(descs[k])[f].items) else {}
  }

  /** The target passes every check of the callback. */
  ghost predicate Fine(descs: Graph, stop: bool, own: Flat, k: string) {
    && k in descs
    && ((stop && IsLibrary(descs[k]))
        || (IsCopy(descs[k]) && descs[k].deps == [])
        || (!IsCopy(descs[k]) && Expected(descs[k])
            && forall f :: Gives(descs, stop, k, f) ==> !HasScalar(own, f)))
  }

  predicate AnyGives(descs: Graph, stop: bool, order: seq<string>, f: string) {
    exists k :: k in order && Gives(descs, stop, k, f)
  }

  predicate AnyGivesItem(descs: Graph, stop: bool, order: seq<string>, f: string, x: string) {
    exists k :: k in order && x in Given(descs, stop, k, f)
  }

  /** Field `f` after the callbacks of `order`. */
  ghost predicate FieldIs(descs: Graph, stop: bool, own: Flat, order: seq<string>, flat: Flat, f: string) {
    if AnyGives(descs, stop, order, f) then
      && f in flat && flat[f].Bag? && !HasScalar(own, f)
      && forall x :: x in flat[f].bag <==> x in Base(own, f) || AnyGivesItem(descs, stop, order, f, x)
    else
      if f in own then f in flat && flat[f] == own[f] else f !in flat
  }

  ghost predicate FlatIs(descs: Graph, stop: bool, own: Flat, order: seq<string>, flat: Flat) {
    forall f :: FieldIs(descs, stop, own, order, flat, f)
  }

  lemma AnyGivesStep(descs: Graph, stop: bool, order: seq<string>, k: string, f: string)
    ensures AnyGives(descs, stop, order + [k], f) <==> AnyGives(descs, stop, order, f) || Gives(descs, stop, k, f)
  {
    assert forall j :: j in order + [k] <==> j in order || j == k;
  }

  lemma AnyGivesItemStep(descs: Graph, stop: bool, order: seq<string>, k: string, f: string, x: string)
    ensures AnyGivesItem(descs, stop, order + [k], f, x)
       <==> AnyGivesItem(descs, stop, order, f, x) || x in Given(descs, stop, k, f)
  {
    assert forall j :: j in order + [k] <==> j in order || j == k;
  }

  lemma ItemGiven(descs: Graph, stop: bool, order: seq<string>, f: string, x: string)
    requires AnyGivesItem(descs, stop, order, f, x)
    ensures AnyGives(descs, stop, order, f)
  {
    var k :| k in order && x in Given(descs, stop, k, f);
    assert Gives(descs, stop, k, f);
  }

  /** One field over one callback that succeeds. */
  lemma FieldStep(descs: Graph, stop: bool, own: Flat, order: seq<string>, flat: Flat, k: string, after: Flat, f: string)
    requires FieldIs(descs, stop, own, order, flat, f)
    requires if Gives(descs, stop, k, f)
             then !HasScalar(flat, f) && f in after && after[f] == Bag(Base(flat, f) + Given(descs, stop, k, f))
             else (f in after <==> f in flat) && (f in flat ==> after[f] == flat[f])
    ensures FieldIs(descs, stop, own, order + [k], after, f)
  {
    AnyGivesStep(descs, stop, order, k, f);
    forall x ensures AnyGivesItem(descs, stop, order + [k], f, x)
                <==> AnyGivesItem(descs, stop, order, f, x) || x in Given(descs, stop, k, f) {
      AnyGivesItemStep(descs, stop, order, k, f, x);
    }
    if !AnyGives(descs, stop, order, f) {
      forall x ensures !AnyGivesItem(descs, stop, order, f, x) {
        if AnyGivesItem(descs, stop, order, f, x) {
          ItemGiven(descs, stop, order, f, x);
        }
      }
    }
  }

  lemma FlatStep(descs: Graph, stop: bool, own: Flat, order: seq<string>, flat: Flat, k: string)
    requires FlatIs(descs, stop, own, order, flat) && Fine(descs, stop, own, k)
    ensures Effect(descs, stop)(flat, k).Some?
    ensures FlatIs(descs, stop, own, order + [k], Effect(descs, stop)(flat, k).value)
  {
    assert Effect(descs, stop)(flat, k).Some? by {
      forall f | Gives(descs, stop, k, f) ensures !HasScalar(flat, f) {
        assert FieldIs(descs, stop, own, order, flat, f);
      }
    }
    var after := Effect(descs, stop)(flat, k).value;
    forall f ensures FieldIs(descs, stop, own, order + [k], after, f) {
      assert FieldIs(descs, stop, own, order, flat, f);
      FieldStep(descs, stop, own, order, flat, k, after, f);
    }
  }

  lemma FineStep(descs: Graph, stop: bool, own: Flat, order: seq<string>, flat: Flat, k: string)
    requires FlatIs(descs, stop, own, order, flat) && Effect(descs, stop)(flat, k).Some?
    requires forall f :: HasScalar(own, f) ==> !AnyGives(descs, stop, order, f)
    ensures Fine(descs, stop, own, k)
  {
    forall f | Gives(descs, stop, k, f) ensures !HasScalar(own, f) {
      assert FieldIs(descs, stop, own, order, flat, f);
    }
  }

  /** The callbacks of `order` all succeed exactly when every key is fine, and then they add up. */
  lemma {:induction false} FoldFlat(descs: Graph, stop: bool, own: Flat, order: seq<string>)
    ensures Fold(Effect(descs, stop), own, order).Some? <==> forall k :: k in order ==> Fine(descs, stop, own, k)
    ensures Fold(Effect(descs, stop), own, order).Some?
        ==> FlatIs(descs, stop, own, order, Fold(Effect(descs, stop), own, order).value)
  {
    if order != [] {
      var shorter, k := order[..|order| - 1], order[|order| - 1];
      assert order == shorter + [k];
      assert forall j :: j in order <==> j in shorter || j == k;
      FoldFlat(descs, stop, own, shorter);
      match Fold(Effect(descs, stop), own, shorter)
      case None =>
      case Some(flat) =>
        if Fine(descs, stop, own, k) {
          FlatStep(descs, stop, own, shorter, flat, k);
        } else if Effect(descs, stop)(flat, k).Some? {
          forall f | HasScalar(own, f) ensures !AnyGives(descs, stop, shorter, f) {
            assert FieldIs(descs, stop, own, shorter, flat, f);
          }
          FineStep(descs, stop, own, shorter, flat, k);
        }
    }
  }

  // ----- flattening one target

  function OwnFields(t: Target): Flat {
    map f | f in Fields(t) :: Own(Fields(t)[f])
  }

  /** From the dependencies of `root`, without passing through a library if `stop`. */
  ghost predicate Reaches(descs: Graph, stop: bool, root: string, k: string) {
    root in descs && Reachable(Next(descs, stop), descs[root].deps, k)
  }

  ghost predicate FieldTaken(descs: Graph, stop: bool, root: string, f: string) {
    exists k :: Reaches(descs, stop, root, k) && Gives(descs, stop, k, f)
  }

  ghost predicate ItemTaken(descs: Graph, stop: bool, root: string, f: string, x: string) {
    exists k :: Reaches(descs, stop, root, k) && x in Given(descs, stop, k, f)
  }

  /** The meaning of a flattened field. */
  ghost predicate FlattenedField(descs: Graph, stop: bool, root: string, r: map<string, Value>, f: string)
    requires root in descs
  {
    var own := Fields(descs[root]);
    if FieldTaken(descs, stop, root, f) then
      && f in r && r[f].Items? && StringOrder.Ordered(StringOrder.Lower, r[f].items)
      && forall x :: x in r[f].items
           <==> x in Base(OwnFields(descs[root]), f) || ItemTaken(descs, stop, root, f, x)
    else
      if f in own then f in r && r[f] == own[f] else f !in r
  }

  ghost predicate SortedField(flat: Flat, r: map<string, Value>, f: string) {
    if f !in flat then f !in r
    else
      && f in r
      && match flat[f]
         case Own(v) => r[f] == v
         case Bag(b) => r[f].Items? && StringOrder.Lists(StringOrder.Lower, r[f].items, b)
  }

  method SortFields(flat: Flat) returns (r: map<string, Value>)
    ensures forall f :: SortedField(flat, r, f)
  {
    var rest := flat.Keys;
    r := map[];
    while rest != {}
      invariant rest <= flat.Keys
      invariant forall f :: f in r <==> f in flat && f !in rest
      invariant forall f :: f in r ==> SortedField(flat, r, f)
    {
      var f :| f in rest;
      var v;
      match flat[f] {
        case Own(own) =>
          v := own;
        case Bag(b) =>
          var items := StringOrder.Sorted(StringOrder.Lower, b);
          v := Items(items);
      }
      ghost var before := r;
      r, rest := r[f := v], rest - {f};
      forall g | g in r ensures SortedField(flat, r, g) {
        if g != f {
          assert SortedField(flat, before, g);
        }
      }
    }
  }

  ghost predicate CanFlatten(descs: Graph, stop: bool, root: string) {
    root in descs && forall k :: Reaches(descs, stop, root, k) ==> Fine(descs, stop, OwnFields(descs[root]), k)
  }

  method FlattenedTarget(root: string, descs: Graph, stop: bool) returns (r: Option<map<string, Value>>)
    ensures r.Some? <==> CanFlatten(descs, stop, root)
    ensures r.Some? ==> forall f :: FlattenedField(descs, stop, root, r.value, f)
  {
    if root !in descs {
      return None;
    }
    var own := OwnFields(descs[root]);
    var t := new Traversal(descs[root].deps, Next(descs, stop), Effect(descs, stop), own, descs.Keys);
    var ok := t.Run();
    FoldFlat(descs, stop, own, t.order);
    assert forall k :: k in t.order ==> Reaches(descs, stop, root, k);
    if !ok {
      return None;
    }
    assert forall k :: k in t.order <==> Reaches(descs, stop, root, k);
    var fields := SortFields(t.state);
    forall f ensures FlattenedField(descs, stop, root, fields, f) {
      FieldSorted(descs, stop, root, t.order, t.state, fields, f);
    }
    r := Some(fields);
  }

  lemma FieldSorted(descs: Graph, stop: bool, root: string, order: seq<string>, flat: Flat, r: map<string, Value>, f: string)
    requires root in descs
    requires forall k :: k in order <==> Reaches(descs, stop, root, k)
    requires FieldIs(descs, stop, OwnFields(descs[root]), order, flat, f) && SortedField(flat, r, f)
    ensures FlattenedField(descs, stop, root, r, f)
  {
    assert AnyGives(descs, stop, order, f) <==> FieldTaken(descs, stop, root, f);
    assert forall x :: AnyGivesItem(descs, stop, order, f, x) <==> ItemTaken(descs, stop, root, f, x);
  }

  // ----- the libraries and what they link against

  function GatherEffect(descs: Graph, includesOk: string -> bool): (set<string>, string) -> Option<set<string>> {
    (libraries, k) =>
      if k !in descs || !includesOk(k) then None
      else if IsLibrary(descs[k]) then Some(libraries + {k}) else Some(libraries)
  }

  lemma {:induction false} FoldGather(descs: Graph, includesOk: string -> bool, order: seq<string>)
    ensures var r := Fold(GatherEffect(descs, includesOk), {}, order);
            && (r.Some? <==> forall k :: k in order ==> k in descs && includesOk(k))
            && (r.Some? ==> forall k :: k in r.value <==> k in order && IsLibrary(descs[k]))
  {
    if order != [] {
      var shorter, k := order[..|order| - 1], order[|order| - 1];
      assert order == shorter + [k];
      assert forall j :: j in order <==> j in shorter || j == k;
      FoldGather(descs, includesOk, shorter);
    }
  }

  /** Any failed inclusion check ends the gathering. */
  method GatherLibraries(roots: seq<string>, descs: Graph, includesOk: string -> bool) returns (r: Option<set<string>>)
    ensures r.Some? <==> forall k :: Reachable(Next(descs, false), roots, k) ==> k in descs && includesOk(k)
    ensures r.Some? ==> forall k ::
              k in r.value <==> Reachable(Next(descs, false), roots, k) && IsLibrary(descs[k])
  {
    var t := new Traversal(roots, Next(descs, false), GatherEffect(descs, includesOk), {}, descs.Keys);
    var ok := t.Run();
    FoldGather(descs, includesOk, t.order);
    if !ok {
      assert exists k :: k in t.order && !(k in descs && includesOk(k));
      return None;
    }
    r := Some(t.state);
  }

  lemma LastStep(next: string -> seq<string>, roots: seq<string>, x: string)
    requires Reachable(next, roots, x)
    ensures x in roots || exists k :: Reachable(next, roots, k) && x in next(k)
  {
    var path :| IsPath(next, roots, path) && path[|path| - 1] == x;
    if |path| > 1 {
      var k := path[|path| - 2];
      assert IsPath(next, roots, path[..|path| - 1]);
      assert Reachable(next, roots, k) && x in next(k);
    }
  }

  lemma TakenIsReached(descs: Graph, root: string, x: string)
    requires ItemTaken(descs, true, root, "deps", x)
    ensures Reaches(descs, true, root, x)
  {
    var k :| Reaches(descs, true, root, k) && x in Given(descs, true, k, "deps");
    ReachableNext(Next(descs, true), descs[root].deps, k, x);
  }

  lemma ReachedIsTaken(descs: Graph, root: string, x: string)
    requires CanFlatten(descs, true, root) && Reaches(descs, true, root, x) && x !in descs[root].deps
    ensures FieldTaken(descs, true, root, "deps") && ItemTaken(descs, true, root, "deps", x)
  {
    var next, roots := Next(descs, true), descs[root].deps;
    LastStep(next, roots, x);
    var k :| Reachable(next, roots, k) && x in next(k);
    assert Reaches(descs, true, root, k) && Fine(descs, true, OwnFields(descs[root]), k);
    assert x in Given(descs, true, k, "deps");
    assert Gives(descs, true, k, "deps");
  }

  /** The flattened dependencies are exactly the targets that were visited. */
  lemma FlatDeps(descs: Graph, root: string, r: map<string, Value>, x: string)
    requires CanFlatten(descs, true, root) && FlattenedField(descs, true, root, r, "deps")
    ensures "deps" in r && r["deps"].Items?
    ensures x in r["deps"].items <==> Reaches(descs, true, root, x)
  {
    var roots := descs[root].deps;
    assert Base(OwnFields(descs[root]), "deps") == SetOf(roots);
    if x in roots {
      ReachableRoot(Next(descs, true), roots, x);
    } else if Reaches(descs, true, root, x) {
      ReachedIsTaken(descs, root, x);
    } else if ItemTaken(descs, true, root, "deps", x) {
      TakenIsReached(descs, root, x);
    }
  }

  /** `lib` is a library that `root` links against directly. */
  ghost predicate Links(descs: Graph, root: string, lib: string) {
    Reaches(descs, true, root, lib) && lib in descs && IsLibrary(descs[lib])
  }

  method DepLibs(descs: Graph, root: string, flat: map<string, Value>) returns (libs: seq<string>)
    requires CanFlatten(descs, true, root) && forall f :: FlattenedField(descs, true, root, flat, f)
    ensures StringOrder.Ordered(StringOrder.Lower, libs)
    ensures forall lib :: lib in libs <==> Links(descs, root, lib)
  {
    assert FlattenedField(descs, true, root, flat, "deps");
    forall x ensures "deps" in flat && flat["deps"].Items?
             ensures x in flat["deps"].items <==> Reaches(descs, true, root, x) {
      FlatDeps(descs, root, flat, x);
    }
    var rest, found := SetOf(flat["deps"].items), {};
    while rest != {}
      invariant forall x :: x in rest ==> x in flat["deps"].items
      invariant forall x :: x in found <==> x in flat["deps"].items && x !in rest && IsLibrary(descs[x])
    {
      var dep :| dep in rest;
      if IsLibrary(descs[dep]) {
        found := found + {dep};
      }
      rest := rest - {dep};
    }
    libs := StringOrder.Sorted(StringOrder.Lower, found);
  }

  // ----- the whole export

  datatype Entry = Entry(fields: map<string, Value>, depLibs: seq<string>)

  ghost predicate EntryIs(descs: Graph, root: string, e: Entry) {
    && root in descs
    && (forall f :: FlattenedField(descs, true, root, e.fields, f))
    && StringOrder.Ordered(StringOrder.Lower, e.depLibs)
    && (forall lib :: lib in e.depLibs <==> Links(descs, root, lib))
  }

  ghost predicate Gathered(descs: Graph, roots: seq<string>, k: string) {
    Reachable(Next(descs, false), roots, k) && k in descs && IsLibrary(descs[k])
  }

  method Export(roots: seq<string>, descs: Graph, includesOk: string -> bool) returns (r: Option<map<string, Entry>>)
    ensures r.Some? <==>
      && (forall k :: Reachable(Next(descs, false), roots, k) ==> k in descs && includesOk(k))
      && (forall k :: Gathered(descs, roots, k) ==> CanFlatten(descs, true, k))
    ensures r.Some? ==> forall k :: k in r.value <==> Gathered(descs, roots, k)
    ensures r.Some? ==> forall k :: k in r.value ==> EntryIs(descs, k, r.value[k])
  {
    var gathered := GatherLibraries(roots, descs, includesOk);
    if gathered.None? {
      return None;
    }
    var rest, out := gathered.value, map[];
    while rest != {}
      invariant rest <= gathered.value
      invariant forall k :: k in out <==> k in gathered.value && k !in rest
      invariant forall k :: k in out ==> CanFlatten(descs, true, k) && EntryIs(descs, k, out[k])
    {
      var k :| k in rest;
      var flat := FlattenedTarget(k, descs, true);
      if flat.None? {
        assert Gathered(descs, roots, k);
        return None;
      }
      var libs := DepLibs(descs, k, flat.value);
      out, rest := out[k := Entry(flat.value, libs)], rest - {k};
    }
    r := Some(out);
  }

  /** A chain of libraries, each linking against the next. */
  ghost predicate IsChain(descs: Graph, chain: seq<string>) {
    && chain != []
    && forall i :: 0 < i < |chain| ==> Links(descs, chain[i - 1], chain[i])
  }

  /** The position of the first library on a path. */
  function FirstLibrary(descs: Graph, path: seq<string>): (i: nat)
    requires path != [] && forall k :: k in path ==> k in descs
    requires IsLibrary(descs[path[|path| - 1]])
    ensures i < |path| && IsLibrary(descs[path[i]]) && forall j :: 0 <= j < i ==> !IsLibrary(descs[path[j]])
  {
    if IsLibrary(descs[path[0]]) then 0 else 1 + FirstLibrary(descs, path[1..])
  }

  /** Up to the first library, the walk that stops at libraries takes the same steps. */
  lemma SameStep(descs: Graph, k: string, next: string)
    requires next in Next(descs, false)(k) && !(k in descs && IsLibrary(descs[k]))
    ensures next in Next(descs, true)(k)
  {
  }

  lemma PathToLibrary(descs: Graph, roots: seq<string>, path: seq<string>, i: nat)
    requires IsPath(Next(descs, false), roots, path) && i < |path|
    requires forall j :: 0 <= j < i ==> path[j] in descs && !IsLibrary(descs[path[j]])
    ensures IsPath(Next(descs, true), roots, path[..i + 1])
  {
    var prefix := path[..i + 1];
    forall j | 0 < j < |prefix| ensures prefix[j] in Next(descs, true)(prefix[j - 1]) {
      SameStep(descs, path[j - 1], path[j]);
    }
  }

  lemma FirstLink(descs: Graph, root: string, path: seq<string>, i: nat)
    requires root in descs && IsPath(Next(descs, false), descs[root].deps, path)
    requires i < |path| && path[i] in descs && IsLibrary(descs[path[i]])
    requires forall j :: 0 <= j < i ==> path[j] in descs && !IsLibrary(descs[path[j]])
    ensures Links(descs, root, path[i])
  {
    PathToLibrary(descs, descs[root].deps, path, i);
    var prefix := path[..i + 1];
    assert prefix[|prefix| - 1] == path[i];
  }

  lemma RestOfPath(descs: Graph, roots: seq<string>, path: seq<string>, i: nat)
    requires IsPath(Next(descs, false), roots, path) && i < |path| - 1 && path[i] in descs
    ensures IsPath(Next(descs, false), descs[path[i]].deps, path[i + 1..])
  {
    var rest := path[i + 1..];
    assert path[i + 1] in Next(descs, false)(path[i]);
    forall j | 0 < j < |rest| ensures rest[j] in Next(descs, false)(rest[j - 1]) {
      assert path[i + 1 + j] in Next(descs, false)(path[i + j]);
    }
  }

  lemma ChainExtends(descs: Graph, root: string, tail: seq<string>)
    requires IsChain(descs, tail) && Links(descs, root, tail[0])
    ensures IsChain(descs, [root] + tail)
  {
    var chain := [root] + tail;
    assert forall j :: 0 < j < |chain| ==> chain[j] == tail[j - 1];
  }

  /** Every library that a library depends on, however far away, is linked through a chain of direct links. */
  lemma {:induction false} LinkChain(descs: Graph, root: string, path: seq<string>) returns (chain: seq<string>)
    requires root in descs && IsPath(Next(descs, false), descs[root].deps, path)
    requires forall k :: k in path ==> k in descs
    requires IsLibrary(descs[path[|path| - 1]])
    ensures IsChain(descs, chain) && chain[0] == root && chain[|chain| - 1] == path[|path| - 1] && |chain| > 1
    decreases |path|
  {
    var i := FirstLibrary(descs, path);
    FirstLink(descs, root, path, i);
    var tail := [path[i]];
    if i < |path| - 1 {
      RestOfPath(descs, descs[root].deps, path, i);
      tail := LinkChain(descs, path[i], path[i + 1..]);
    }
    ChainExtends(descs, root, tail);
    chain := [root] + tail;
  }

  /** The export is closed: the libraries an entry links against have entries of their own. */
  lemma LinksGathered(descs: Graph, roots: seq<string>, root: string, lib: string)
    requires Gathered(descs, roots, root) && Links(descs, root, lib)
    ensures Gathered(descs, roots, lib)
  {
    var next, path :| next == Next(descs, true) && IsPath(next, descs[root].deps, path) && path[|path| - 1] == lib;
    LinkedPath(descs, roots, root, path);
  }

  lemma {:induction false} LinkedPath(descs: Graph, roots: seq<string>, root: string, path: seq<string>)
    requires root in descs && Reachable(Next(descs, false), roots, root)
    requires IsPath(Next(descs, true), descs[root].deps, path)
    ensures Reachable(Next(descs, false), roots, path[|path| - 1])
    decreases |path|
  {
    var next := Next(descs, false);
    if |path| == 1 {
      ReachableNext(next, roots, root, path[0]);
    } else {
      var shorter := path[..|path| - 1];
      assert IsPath(Next(descs, true), descs[root].deps, shorter);
      LinkedPath(descs, roots, root, shorter);
      assert path[|path| - 1] in Next(descs, true)(path[|path| - 2]);
      ReachableNext(next, roots, path[|path| - 2], path[|path| - 1]);
    }
  }
}
