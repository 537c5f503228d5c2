/**
  What one run does to one generator.  When nothing the generators write changes their lists, a run can
  be taken as one with the lists it starts with, and each generator can be followed through it.
 */
module CodeGenerationRuns {
  import opened Prelude
  import opened CodeGeneration

  // ----- a run with the lists it starts with

  function Visit(tools: Tools, g: Generator, verifyOnly: bool, store: Store, p: Progress): Progress {
    VisitAs(tools, g, g, verifyOnly, store, p)
  }

  function VisitAll(tools: Tools, gens: seq<Generator>, verifyOnly: bool, store: Store, p: Progress): Progress {
    if gens == [] then p
    else VisitAll(tools, gens[1..], verifyOnly, store, Visit(tools, gens[0], verifyOnly, store, p))
  }

  function Generated(tools: Tools, gens: seq<Generator>, single: bool, tree: Tree, store: Store): Outcome {
    Ending(tools, gens, single, store, VisitAll(tools, gens, false, store, Start(tree)))
  }

  predicate VerifyPasses(tools: Tools, gens: seq<Generator>, single: bool, tree: Tree, store: Store) {
    var p := VisitAll(tools, gens, true, store, Start(tree));
    !p.failed && !p.anyDirty && (single || !OldHashMissing(p.current, store))
  }

  /** Nothing is run while verifying, so only the lists from the start matter. */
  lemma {:induction false} VerifyLoop(tools: Tools, gens: seq<Generator>, store: Store, p: Progress)
    ensures Loop(tools, gens, true, store, p) == VisitAll(tools, gens, true, store, p)
  {
    if gens != [] {
      VerifyLoop(tools, gens[1..], store, Visit(tools, gens[0], true, store, p));
    }
  }

  lemma PassesIs(tools: Tools, rows: seq<Row>, single: bool, tree: Tree, store: Store)
    ensures Passes(tools, rows, single, tree, store) <==>
            rows != [] && VerifyPasses(tools, AskAll(tools, rows, tree), single, tree, store)
  {
    VerifyLoop(tools, AskAll(tools, rows, tree), store, Start(tree));
  }

  ghost predicate IsOutputOf(gens: seq<Generator>, f: Path) {
    exists g :: g in gens && f in g.outputs
  }

  /** The trees differ in nothing but the generators' outputs. */
  ghost predicate SameApart(gens: seq<Generator>, a: Tree, b: Tree) {
    forall f :: !IsOutputOf(gens, f) ==> (f in a <==> f in b) && (f in a ==> a[f] == b[f])
  }

  /** The generators have these lists, and nothing they write changes them. */
  ghost predicate Steady(tools: Tools, gens: seq<Generator>, tree: Tree) {
    forall g, t: Tree :: g in gens && SameApart(gens, tree, t) ==> Ask(tools, RowOf(g), t) == g
  }

  lemma VisitApart(tools: Tools, gens: seq<Generator>, g: Generator, store: Store, tree: Tree, p: Progress)
    requires g in gens && SameApart(gens, tree, p.tree) && forall f :: f in p.dirtyOutputs ==> IsOutputOf(gens, f)
    ensures var q := Visit(tools, g, false, store, p);
            SameApart(gens, tree, q.tree) && forall f :: f in q.dirtyOutputs ==> IsOutputOf(gens, f)
  {
  }

  lemma {:induction false} SteadyLoop(tools: Tools, gens: seq<Generator>, rest: seq<Generator>, store: Store, tree: Tree,
                                      p: Progress)
    requires Steady(tools, gens, tree) && SameApart(gens, tree, p.tree) && forall g :: g in rest ==> g in gens
    requires forall f :: f in p.dirtyOutputs ==> IsOutputOf(gens, f)
    ensures var q := VisitAll(tools, rest, false, store, p);
            && Loop(tools, rest, false, store, p) == q
            && SameApart(gens, tree, q.tree) && forall f :: f in q.dirtyOutputs ==> IsOutputOf(gens, f)
  {
    if rest != [] {
      var g := rest[0];
      assert g in rest && forall h :: h in rest[1..] ==> h in rest;
      assert Ask(tools, RowOf(g), p.tree) == g;
      VisitApart(tools, gens, g, store, tree, p);
      SteadyLoop(tools, gens, rest[1..], store, tree, Visit(tools, g, false, store, p));
    }
  }

  lemma SteadyAsk(tools: Tools, rows: seq<Row>, tree: Tree, t: Tree)
    requires var gens := AskAll(tools, rows, tree); Steady(tools, gens, tree) && SameApart(gens, tree, t)
    ensures AskAll(tools, rows, t) == AskAll(tools, rows, tree)
  {
    var gens := AskAll(tools, rows, tree);
    forall i | 0 <= i < |rows|
      ensures Ask(tools, rows[i], t) == gens[i]
    {
      assert gens[i] in gens && RowOf(gens[i]) == rows[i];
    }
  }

  lemma SteadyEnd(tools: Tools, rows: seq<Row>, tree: Tree, store: Store)
    requires Steady(tools, AskAll(tools, rows, tree), tree)
    ensures var gens := AskAll(tools, rows, tree);
            var p := VisitAll(tools, gens, false, store, Start(tree));
            var end := Formatted(tools, p.tree, p.dirtyOutputs);
            && Loop(tools, gens, false, store, Start(tree)) == p && AskAll(tools, rows, end) == gens
            && SameApart(gens, tree, p.tree) && SameApart(gens, tree, end)
  {
    var gens := AskAll(tools, rows, tree);
    SteadyLoop(tools, gens, gens, store, tree, Start(tree));
    var p := VisitAll(tools, gens, false, store, Start(tree));
    SteadyAsk(tools, rows, tree, Formatted(tools, p.tree, p.dirtyOutputs));
  }

  /** Lists that a run does not change can be asked once. */
  lemma SteadyRun(tools: Tools, rows: seq<Row>, single: bool, tree: Tree, store: Store)
    requires rows != [] && Steady(tools, AskAll(tools, rows, tree), tree)
    ensures var gens := AskAll(tools, rows, tree);
            var o := Generated(tools, gens, single, tree, store);
            Run(tools, rows, single, tree, store) == o && SameApart(gens, tree, o.tree)
  {
    SteadyEnd(tools, rows, tree, store);
  }

  // ----- following one generator through a run

  /** Every output is there and, if the generator wrote it, is what it wrote, formatted. */
  predicate Produced(tools: Tools, g: Generator, product: Product, tree: Tree) {
    product.ok && forall o :: o in g.outputs ==>
      o in tree && (o in product.files ==> tree[o] == tools.format(o, product.files[o]))
  }

  /**
    What the tables of the script have to satisfy: a hash file per generator, no generator reading or
    being one of its own outputs, and no two generators writing one file.
   */
  ghost predicate WellFormed(gens: seq<Generator>) {
    && (forall i, j :: 0 <= i < j < |gens| ==>
          && HashFile(gens[i].name) != HashFile(gens[j].name)
          && OutputSet(gens[i]) !! OutputSet(gens[j]))
    && (forall g, f :: g in gens && f in g.outputs ==> f !in Sources(g))
  }

  /** The generators of `others` leave the files, the hashes and the mark of `g` alone. */
  ghost predicate Apart(g: Generator, others: seq<Generator>) {
    forall h :: h in others ==> HashFile(h.name) != HashFile(g.name) && OutputSet(h) !! OutputSet(g)
  }

  ghost predicate Untouched(g: Generator, p: Progress, q: Progress) {
    && (p.failed ==> q.failed)
    && Stored(q.current, g) == Stored(p.current, g)
    && (HashFile(g.name) in q.current <==> HashFile(g.name) in p.current)
    && (forall o :: o in g.outputs ==>
          && (o in q.tree <==> o in p.tree) && (o in p.tree ==> q.tree[o] == p.tree[o])
          && (o in q.dirtyOutputs <==> o in p.dirtyOutputs))
  }

  lemma OtherKeeps(tools: Tools, g: Generator, h: Generator, store: Store, p: Progress)
    requires HashFile(h.name) != HashFile(g.name) && OutputSet(h) !! OutputSet(g)
    ensures Untouched(g, p, Visit(tools, h, false, store, p))
  {
    var q := Visit(tools, h, false, store, p);
    forall o | o in g.outputs
      ensures (o in q.tree <==> o in p.tree) && (o in p.tree ==> q.tree[o] == p.tree[o])
      ensures o in q.dirtyOutputs <==> o in p.dirtyOutputs
    {
      assert o in OutputSet(g);
    }
  }

  lemma {:induction false} OthersKeep(tools: Tools, g: Generator, others: seq<Generator>, store: Store, p: Progress)
    requires Apart(g, others)
    ensures Untouched(g, p, VisitAll(tools, others, false, store, p))
  {
    if others != [] {
      var h := others[0];
      assert h in others && forall k :: k in others[1..] ==> k in others;
      OtherKeeps(tools, g, h, store, p);
      OthersKeep(tools, g, others[1..], store, Visit(tools, h, false, store, p));
    }
  }

  lemma {:induction false} VisitSplit(tools: Tools, a: seq<Generator>, b: seq<Generator>, verifyOnly: bool, store: Store, p: Progress)
    ensures VisitAll(tools, a + b, verifyOnly, store, p) ==
            VisitAll(tools, b, verifyOnly, store, VisitAll(tools, a, verifyOnly, store, p))
  {
    if a == [] {
      assert a + b == b;
    } else {
      assert (a + b)[1..] == a[1..] + b;
      VisitSplit(tools, a[1..], b, verifyOnly, store, Visit(tools, a[0], verifyOnly, store, p));
    }
  }

  lemma {:induction false} RehashOthers(tools: Tools, g: Generator, others: seq<Generator>, tree: Tree, current: Store)
    requires Apart(g, others) && Rehashed(tools, others, tree, current).Some?
    ensures Stored(Rehashed(tools, others, tree, current).value, g) == Stored(current, g)
    ensures HashFile(g.name) in Rehashed(tools, others, tree, current).value <==> HashFile(g.name) in current
  {
    if others != [] {
      var h := others[0];
      assert h in others && forall k :: k in others[1..] ==> k in others;
      RehashOthers(tools, g, others[1..], tree,
                   current[HashFile(h.name) := Stored(current, h) + HashesOf(tools, h.outputs, tree)]);
    }
  }

  lemma {:induction false} RehashSplit(tools: Tools, a: seq<Generator>, b: seq<Generator>, tree: Tree, current: Store)
    requires Rehashed(tools, a + b, tree, current).Some?
    ensures Rehashed(tools, a, tree, current).Some?
    ensures Rehashed(tools, a + b, tree, current) == Rehashed(tools, b, tree, Rehashed(tools, a, tree, current).value)
  {
    if a == [] {
      assert a + b == b;
    } else {
      var g := a[0];
      assert (a + b)[1..] == a[1..] + b;
      RehashSplit(tools, a[1..], b, tree,
                  current[HashFile(g.name) := Stored(current, g) + HashesOf(tools, g.outputs, tree)]);
    }
  }

  lemma ApartFromOthers(gens: seq<Generator>, i: nat)
    requires WellFormed(gens) && i < |gens|
    ensures Apart(gens[i], gens[..i]) && Apart(gens[i], gens[i + 1..])
    ensures gens == gens[..i] + [gens[i]] + gens[i + 1..]
  {
  }

  /** The state in which the run reaches generator `i`. */
  function Reached(tools: Tools, gens: seq<Generator>, i: nat, store: Store, tree: Tree): Progress
    requires i < |gens|
  {
    VisitAll(tools, gens[..i], false, store, Start(tree))
  }

  lemma VisitInTurn(tools: Tools, gens: seq<Generator>, i: nat, tree: Tree, store: Store)
    requires i < |gens|
    ensures VisitAll(tools, gens, false, store, Start(tree)) ==
            VisitAll(tools, gens[i + 1..], false, store, Visit(tools, gens[i], false, store, Reached(tools, gens, i, store, tree)))
  {
    var g, pre, post, p := gens[i], gens[..i], gens[i + 1..], Start(tree);
    var was := VisitAll(tools, pre, false, store, p);
    assert gens == pre + ([g] + post);
    VisitSplit(tools, pre, [g] + post, false, store, p);
    assert ([g] + post)[1..] == post;
  }

  /** Nothing but the visit of a generator touches its outputs, its hashes and its mark. */
  lemma VisitedOnce(tools: Tools, gens: seq<Generator>, i: nat, tree: Tree, store: Store)
    requires WellFormed(gens) && i < |gens|
    requires !VisitAll(tools, gens, false, store, Start(tree)).failed
    ensures var p := VisitAll(tools, gens, false, store, Start(tree));
            var g, was := gens[i], Reached(tools, gens, i, store, tree);
            var here := Visit(tools, g, false, store, was);
            && !was.failed && !here.failed
            && HashFile(g.name) in p.current && Stored(p.current, g) == HashesOf(tools, Files(g), was.tree)
            && (forall o :: o in g.outputs ==>
                  && o !in was.dirtyOutputs
                  && (o in here.tree <==> o in p.tree) && (o in here.tree ==> p.tree[o] == here.tree[o])
                  && (o in here.dirtyOutputs <==> o in p.dirtyOutputs))
  {
    var g, was := gens[i], Reached(tools, gens, i, store, tree);
    ApartFromOthers(gens, i);
    VisitInTurn(tools, gens, i, tree, store);
    OthersKeep(tools, g, gens[..i], store, Start(tree));
    OthersKeep(tools, g, gens[i + 1..], store, Visit(tools, g, false, store, was));
  }

  /** A run gets as far as writing the hashes. */
  predicate Completes(tools: Tools, gens: seq<Generator>, store: Store, tree: Tree) {
    var p := VisitAll(tools, gens, false, store, Start(tree));
    !p.failed && Rehashed(tools, gens, Formatted(tools, p.tree, p.dirtyOutputs), p.current).Some?
  }

  function Ended(tools: Tools, gens: seq<Generator>, store: Store, tree: Tree): Tree {
    var p := VisitAll(tools, gens, false, store, Start(tree));
    Formatted(tools, p.tree, p.dirtyOutputs)
  }

  function Written(tools: Tools, gens: seq<Generator>, store: Store, tree: Tree): Store
    requires Completes(tools, gens, store, tree)
  {
    var p := VisitAll(tools, gens, false, store, Start(tree));
    Rehashed(tools, gens, Ended(tools, gens, store, tree), p.current).value
  }

  /**
    What a run writes for one generator: the hashes of its sources at the moment it was visited, and
    the hashes of its outputs at the end.
   */
  lemma HashesWritten(tools: Tools, gens: seq<Generator>, i: nat, tree: Tree, store: Store)
    requires WellFormed(gens) && i < |gens|
    requires Completes(tools, gens, store, tree)
    ensures var end, current := Ended(tools, gens, store, tree), Written(tools, gens, store, tree);
            var g, was := gens[i], Reached(tools, gens, i, store, tree).tree;
            && HashFile(g.name) in current
            && Stored(current, g) == HashesOf(tools, Files(g), was) + HashesOf(tools, g.outputs, end)
            && OutputSet(g) <= end.Keys
  {
    var g, pre, post := gens[i], gens[..i], gens[i + 1..];
    ApartFromOthers(gens, i);
    VisitedOnce(tools, gens, i, tree, store);
    var p := VisitAll(tools, gens, false, store, Start(tree));
    var end := Formatted(tools, p.tree, p.dirtyOutputs);
    RehashSplit(tools, pre + [g], post, end, p.current);
    RehashSplit(tools, pre, [g], end, p.current);
    RehashOthers(tools, g, pre, end, p.current);
    var before := Rehashed(tools, pre, end, p.current).value;
    var after := Rehashed(tools, [g], end, before).value;
    assert after == before[HashFile(g.name) := Stored(before, g) + HashesOf(tools, g.outputs, end)];
    RehashOthers(tools, g, post, end, after);
  }

  /** Where the outputs of one generator come from at the end of a run. */
  lemma OutputsWritten(tools: Tools, gens: seq<Generator>, i: nat, tree: Tree, store: Store)
    requires WellFormed(gens) && i < |gens|
    requires Completes(tools, gens, store, tree)
    ensures var end := Ended(tools, gens, store, tree);
            var g, was := gens[i], Reached(tools, gens, i, store, tree).tree;
            var product := tools.produce(g.name, View(g, was));
            if Clean(tools, Files(g), was, Stored(store, g)) then
              forall o :: o in g.outputs ==> o in end && o in was && end[o] == was[o]
            else
              Produced(tools, g, product, end)
  {
    var g, was := gens[i], Reached(tools, gens, i, store, tree);
    VisitedOnce(tools, gens, i, tree, store);
    HashesWritten(tools, gens, i, tree, store);
    forall o | o in g.outputs
      ensures o in OutputSet(g) && o in Files(g)
    {
    }
    if Clean(tools, Files(g), was.tree, Stored(store, g)) {
      forall o | o in g.outputs
        ensures o in was.tree
      {
        assert FileClean(tools, o, was.tree, Stored(store, g));
      }
    }
  }
}
