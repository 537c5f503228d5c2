/**
  Merging the four per-ABI descriptions of a blueprint target into one, with the list values that all
  ABIs share in front and the others under `arch`.
 */
module BlueprintMerge {
  import opened Prelude

  datatype Abi = Arm | Arm64 | X86 | X64

  const ABIS: seq<Abi> := [Arm, Arm64, X86, X64]

  datatype Value = ListValue(items: seq<string>) | Scalar(text: string)

  datatype Property = Property(key: string, value: Value)

  /** A dictionary in insertion order. */
  type Blueprint = seq<Property>

  type Lists = map<string, seq<string>>

  /** The merged target; `arch` is there only once something was put into it. */
  datatype Merged = Merged(common: map<string, Value>, arch: Option<map<Abi, Lists>>)

  const DEFAULTS := "defaults"

  predicate IsDictionary(bp: Blueprint) {
    forall i, j :: 0 <= i < j < |bp| ==> bp[i].key != bp[j].key
  }

  /** The list an ABI has for a property, or nothing. */
  function Items(bp: Blueprint, key: string): seq<string> {
    if bp == [] then []
    else
      var last := bp[|bp| - 1];
      if last.key == key && last.value.ListValue? then last.value.items else Items(bp[..|bp| - 1], key)
  }

  predicate HasScalar(bp: Blueprint, key: string) {
    exists p :: p in bp && p.key == key && p.value.Scalar?
  }

  type Build = map<Abi, Blueprint>

  /** What the script relies on: four dictionaries, and a property is a list in all of them or in none. */
  predicate WellFormed(bps: Build) {
    && (forall a: Abi :: a in bps && IsDictionary(bps[a]))
    && forall a, b, p, q :: a in bps && b in bps && p in bps[a] && q in bps[b] && p.key == q.key ==>
         (p.value.ListValue? <==> q.value.ListValue?)
  }

  /** The value occurs in the list of every ABI. */
  predicate InAll(bps: Build, key: string, v: string) {
    forall a :: a in ABIS ==> a in bps && v in Items(bps[a], key)
  }

  /** The values that go to the common part; ABI-specific defaults do not exist, so all of those do. */
  function Shared(bps: Build, key: string): set<string>
    requires forall a: Abi :: a in bps
  {
    var arm, arm64, x86, x64 := (set v | v in Items(bps[Arm], key)), (set v | v in Items(bps[Arm64], key)),
                                (set v | v in Items(bps[X86], key)), (set v | v in Items(bps[X64], key));
    if key == DEFAULTS then arm + arm64 + x86 + x64 else arm * arm64 * x86 * x64
  }

  /** The shared values of every property. */
  type Table = string -> set<string>

  function TableOf(bps: Build): Table
    requires forall a: Abi :: a in bps
  {
    key => Shared(bps, key)
  }

  lemma SharedMeaning(bps: Build, key: string, abi: Abi, v: string)
    requires (forall a: Abi :: a in bps) && v in Items(bps[abi], key)
    ensures v in Shared(bps, key) <==> key == DEFAULTS || InAll(bps, key, v)
  {
    AllAbis(Arm);
    AllAbis(Arm64);
    AllAbis(X86);
    AllAbis(X64);
  }

  // ----- the merge, one value at a time

  const EMPTY_ARCH: map<Abi, Lists> := map[Arm := map[], Arm64 := map[], X86 := map[], X64 := map[]]

  function Listed(m: Merged, key: string): seq<string> {
    if key in m.common && m.common[key].ListValue? then m.common[key].items else []
  }

  function ArchListed(m: Merged, abi: Abi, key: string): seq<string> {
    if m.arch.Some? && abi in m.arch.value && key in m.arch.value[abi] then m.arch.value[abi][key] else []
  }

  function PutCommon(m: Merged, key: string, v: string): Merged {
    m.(common := m.common[key := ListValue(Listed(m, key) + [v])])
  }

  function PutArch(m: Merged, abi: Abi, key: string, v: string): Merged {
    var arch := if m.arch.Some? then m.arch.value else EMPTY_ARCH;
    var lists := if abi in arch then arch[abi] else map[];
    m.(arch := Some(arch[abi := lists[key := ArchListed(m, abi, key) + [v]]]))
  }

  function Put(shared: set<string>, abi: Abi, key: string, v: string, m: Merged): Merged {
    if v in shared then PutCommon(m, key, v) else PutArch(m, abi, key, v)
  }

  function PutAll(shared: set<string>, abi: Abi, key: string, values: seq<string>, m: Merged): Merged {
    if values == [] then m
    else
      var n := |values| - 1;
      Put(shared, abi, key, values[n], PutAll(shared, abi, key, values[..n], m))
  }

  function MergeProperty(shared: Table, abi: Abi, p: Property, m: Merged): Merged {
    match p.value
    case Scalar(_) => m.(common := m.common[p.key := p.value])
    case ListValue(items) => PutAll(shared(p.key), abi, p.key, items, m)
  }

  function MergeBlueprint(shared: Table, abi: Abi, bp: Blueprint, m: Merged): Merged {
    if bp == [] then m
    else
      var n := |bp| - 1;
      MergeProperty(shared, abi, bp[n], MergeBlueprint(shared, abi, bp[..n], m))
  }

  function MergeAbis(shared: Table, bps: Build, abis: seq<Abi>, m: Merged): Merged
    requires forall a :: a in abis ==> a in bps
  {
    if abis == [] then m
    else
      var n := |abis| - 1;
      MergeBlueprint(shared, abis[n], bps[abis[n]], MergeAbis(shared, bps, abis[..n], m))
  }

  const NOTHING := Merged(map[], None)

  function MergedBlueprint(bps: Build): Merged
    requires forall a: Abi :: a in bps
  {
    MergeAbis(TableOf(bps), bps, ABIS, NOTHING)
  }

  /** The program: three nested loops over the ABIs, their properties and the list values. */
  method MergeBlueprints(bps: Build) returns (m: Merged)
    requires forall a: Abi :: a in bps
    ensures m == MergedBlueprint(bps)
  {
    ghost var table := TableOf(bps);
    m := NOTHING;
    for i := 0 to |ABIS|
      invariant m == MergeAbis(table, bps, ABIS[..i], NOTHING)
    {
      var abi := ABIS[i];
      var bp := bps[abi];
      ghost var before := m;
      assert ABIS[..i + 1][..i] == ABIS[..i];
      for j := 0 to |bp|
        invariant m == MergeBlueprint(table, abi, bp[..j], before)
      {
        assert bp[..j + 1][..j] == bp[..j];
        match bp[j].value {
          case Scalar(_) => m := m.(common := m.common[bp[j].key := bp[j].value]);
          case ListValue(items) =>
            ghost var start := m;
            var shared := Shared(bps, bp[j].key);
            for k := 0 to |items|
              invariant m == PutAll(shared, abi, bp[j].key, items[..k], start)
            {
              assert items[..k + 1][..k] == items[..k];
              m := Put(shared, abi, bp[j].key, items[k], m);
            }
            assert items[..|items|] == items;
        }
      }
      assert bp[..|bp|] == bp;
    }
    assert ABIS[..|ABIS|] == ABIS;
  }

  // ----- what the merge does to one property

  function CommonPart(shared: set<string>, values: seq<string>): seq<string> {
    if values == [] then []
    else
      var n := |values| - 1;
      CommonPart(shared, values[..n]) + if values[n] in shared then [values[n]] else []
  }

  function ArchPart(shared: set<string>, values: seq<string>): seq<string> {
    if values == [] then []
    else
      var n := |values| - 1;
      ArchPart(shared, values[..n]) + if values[n] in shared then [] else [values[n]]
  }

  lemma PutOne(shared: set<string>, abi: Abi, key: string, v: string, m: Merged, a: Abi, k: string)
    ensures Listed(Put(shared, abi, key, v, m), k) == Listed(m, k) + if k == key && v in shared then [v] else []
    ensures ArchListed(Put(shared, abi, key, v, m), a, k) ==
            ArchListed(m, a, k) + if a == abi && k == key && v !in shared then [v] else []
  {
  }

  lemma {:induction false} PutAllOne(shared: set<string>, abi: Abi, key: string, values: seq<string>, m: Merged, a: Abi, k: string)
    ensures Listed(PutAll(shared, abi, key, values, m), k) ==
            Listed(m, k) + if k == key then CommonPart(shared, values) else []
    ensures ArchListed(PutAll(shared, abi, key, values, m), a, k) ==
            ArchListed(m, a, k) + if a == abi && k == key then ArchPart(shared, values) else []
  {
    if values != [] {
      var n := |values| - 1;
      PutAllOne(shared, abi, key, values[..n], m, a, k);
      PutOne(shared, abi, key, values[n], PutAll(shared, abi, key, values[..n], m), a, k);
    }
  }

  lemma {:induction false} MergeBlueprintOne(shared: Table, abi: Abi, bp: Blueprint, m: Merged, a: Abi, k: string)
    requires IsDictionary(bp) && !HasScalar(bp, k)
    ensures Listed(MergeBlueprint(shared, abi, bp, m), k) == Listed(m, k) + CommonPart(shared(k), Items(bp, k))
    ensures ArchListed(MergeBlueprint(shared, abi, bp, m), a, k) ==
            ArchListed(m, a, k) + if a == abi then ArchPart(shared(k), Items(bp, k)) else []
  {
    if bp != [] {
      var n := |bp| - 1;
      var rest, p := bp[..n], bp[n];
      assert p in bp && forall q :: q in rest ==> q in bp;
      MergeBlueprintOne(shared, abi, rest, m, a, k);
      var m' := MergeBlueprint(shared, abi, rest, m);
      MergePropertyOne(shared, abi, p, m', a, k);
      if p.key == k {
        NoItems(rest, k);
        NothingAdded(Listed(m, k), CommonPart(shared(k), []));
        NothingAdded(ArchListed(m, a, k), ArchPart(shared(k), []));
        assert Items(bp, k) == p.value.items;
      } else {
        assert Items(bp, k) == Items(rest, k);
      }
    }
  }

  lemma NothingAdded(s: seq<string>, added: seq<string>)
    requires added == []
    ensures s + added == s
  {
  }

  lemma MergePropertyOne(shared: Table, abi: Abi, p: Property, m: Merged, a: Abi, k: string)
    requires p.value.ListValue? || p.key != k
    ensures p.key != k ==> Listed(MergeProperty(shared, abi, p, m), k) == Listed(m, k)
    ensures p.key != k ==> ArchListed(MergeProperty(shared, abi, p, m), a, k) == ArchListed(m, a, k)
    ensures p.key == k ==>
              Listed(MergeProperty(shared, abi, p, m), k) == Listed(m, k) + CommonPart(shared(k), p.value.items)
    ensures p.key == k ==>
              ArchListed(MergeProperty(shared, abi, p, m), a, k) ==
              ArchListed(m, a, k) + if a == abi then ArchPart(shared(k), p.value.items) else []
  {
    if p.value.ListValue? {
      PutAllOne(shared(p.key), abi, p.key, p.value.items, m, a, k);
    }
  }

  lemma {:induction false} NoItems(bp: Blueprint, k: string)
    requires forall p :: p in bp ==> p.key != k
    ensures Items(bp, k) == []
  {
    if bp != [] {
      assert bp[|bp| - 1] in bp;
      NoItems(bp[..|bp| - 1], k);
    }
  }

  function CommonOf(shared: set<string>, bps: Build, abis: seq<Abi>, k: string): seq<string>
    requires forall a :: a in abis ==> a in bps
  {
    if abis == [] then []
    else CommonOf(shared, bps, abis[..|abis| - 1], k) + CommonPart(shared, Items(bps[abis[|abis| - 1]], k))
  }

  lemma {:induction false} MergeAbisOne(shared: Table, bps: Build, abis: seq<Abi>, a: Abi, k: string)
    requires forall b: Abi :: b in bps && IsDictionary(bps[b]) && !HasScalar(bps[b], k)
    requires forall i, j :: 0 <= i < j < |abis| ==> abis[i] != abis[j]
    ensures Listed(MergeAbis(shared, bps, abis, NOTHING), k) == CommonOf(shared(k), bps, abis, k)
    ensures ArchListed(MergeAbis(shared, bps, abis, NOTHING), a, k) ==
            if a in abis then ArchPart(shared(k), Items(bps[a], k)) else []
  {
    if abis != [] {
      var n := |abis| - 1;
      MergeAbisOne(shared, bps, abis[..n], a, k);
      var m := MergeAbis(shared, bps, abis[..n], NOTHING);
      MergeBlueprintOne(shared, abis[n], bps[abis[n]], m, a, k);
      if a == abis[n] {
        assert a !in abis[..n] && ArchListed(m, a, k) == [];
      } else {
        assert a in abis <==> a in abis[..n];
      }
    }
  }

  // ----- the parts, as sets

  lemma {:induction false} PartsAreFilters(shared: set<string>, values: seq<string>, v: string)
    ensures v in CommonPart(shared, values) <==> v in values && v in shared
    ensures v in ArchPart(shared, values) <==> v in values && v !in shared
  {
    if values != [] {
      var n := |values| - 1;
      PartsAreFilters(shared, values[..n], v);
      assert values == values[..n] + [values[n]];
    }
  }

  lemma {:induction false} CommonOfMember(shared: set<string>, bps: Build, abis: seq<Abi>, k: string, v: string)
    requires forall a :: a in abis ==> a in bps
    ensures v in CommonOf(shared, bps, abis, k) <==> v in shared && exists a :: a in abis && v in Items(bps[a], k)
  {
    if abis != [] {
      var n := |abis| - 1;
      CommonOfMember(shared, bps, abis[..n], k, v);
      PartsAreFilters(shared, Items(bps[abis[n]], k), v);
      assert abis == abis[..n] + [abis[n]];
    }
  }

  lemma AllAbis(a: Abi)
    ensures a in ABIS
  {
    match a
    case Arm => assert ABIS[0] == a;
    case Arm64 => assert ABIS[1] == a;
    case X86 => assert ABIS[2] == a;
    case X64 => assert ABIS[3] == a;
  }

  /** One value of one list property, before the shared values are looked into. */
  lemma MergedMember(bps: Build, abi: Abi, key: string, v: string)
    requires forall a: Abi :: a in bps && IsDictionary(bps[a]) && !HasScalar(bps[a], key)
    ensures v in Listed(MergedBlueprint(bps), key) <==> v in Shared(bps, key) && Somewhere(bps, key, v)
    ensures v in ArchListed(MergedBlueprint(bps), abi, key) <==> v in Items(bps[abi], key) && v !in Shared(bps, key)
  {
    MergeAbisOne(TableOf(bps), bps, ABIS, abi, key);
    CommonOfMember(Shared(bps, key), bps, ABIS, key, v);
    PartsAreFilters(Shared(bps, key), Items(bps[abi], key), v);
    AllAbis(abi);
  }

  predicate Somewhere(bps: Build, key: string, v: string) {
    exists a :: a in ABIS && a in bps && v in Items(bps[a], key)
  }

  // ----- no list is ever empty, in common or of an ABI

  ghost predicate NoEmptyList(m: Merged) {
    && (forall k :: k in m.common && m.common[k].ListValue? ==> m.common[k].items != [])
    && (forall a, k :: m.arch.Some? && a in m.arch.value && k in m.arch.value[a] ==> m.arch.value[a][k] != [])
  }

  lemma {:induction false} PutAllNoEmpty(shared: set<string>, abi: Abi, key: string, values: seq<string>, m: Merged)
    requires NoEmptyList(m)
    ensures NoEmptyList(PutAll(shared, abi, key, values, m))
  {
    if values != [] {
      PutAllNoEmpty(shared, abi, key, values[..|values| - 1], m);
    }
  }

  lemma {:induction false} MergeBlueprintNoEmpty(shared: Table, abi: Abi, bp: Blueprint, m: Merged)
    requires NoEmptyList(m)
    ensures NoEmptyList(MergeBlueprint(shared, abi, bp, m))
  {
    if bp != [] {
      var n := |bp| - 1;
      MergeBlueprintNoEmpty(shared, abi, bp[..n], m);
      if bp[n].value.ListValue? {
        PutAllNoEmpty(shared(bp[n].key), abi, bp[n].key, bp[n].value.items, MergeBlueprint(shared, abi, bp[..n], m));
      }
    }
  }

  lemma {:induction false} MergeNoEmpty(shared: Table, bps: Build, abis: seq<Abi>)
    requires forall a :: a in abis ==> a in bps
    ensures NoEmptyList(MergeAbis(shared, bps, abis, NOTHING))
  {
    if abis != [] {
      var n := |abis| - 1;
      MergeNoEmpty(shared, bps, abis[..n]);
      MergeBlueprintNoEmpty(shared, abis[n], bps[abis[n]], MergeAbis(shared, bps, abis[..n], NOTHING));
    }
  }

  // ----- the main result

  /**
    For every list property other than the defaults, the common list holds exactly the values of all
    ABIs, each ABI's own list exactly its other values, and together they are what the ABI had.
   */
  lemma MergeExact(bps: Build, abi: Abi, key: string, v: string)
    requires WellFormed(bps) && (forall a: Abi :: !HasScalar(bps[a], key)) && key != DEFAULTS
    ensures v in Listed(MergedBlueprint(bps), key) <==> InAll(bps, key, v)
    ensures v in ArchListed(MergedBlueprint(bps), abi, key) <==> v in Items(bps[abi], key) && !InAll(bps, key, v)
    ensures v in Items(bps[abi], key) <==>
            v in Listed(MergedBlueprint(bps), key) || v in ArchListed(MergedBlueprint(bps), abi, key)
  {
    MergedMember(bps, abi, key, v);
    AllAbis(abi);
    AllAbis(Arm);
    forall a: Abi | v in Items(bps[a], key)
      ensures v in Shared(bps, key) <==> InAll(bps, key, v)
    {
      SharedMeaning(bps, key, a, v);
    }
  }

  /** The defaults of all ABIs are joined, and no ABI keeps any of its own. */
  lemma MergeDefaults(bps: Build, abi: Abi, v: string)
    requires WellFormed(bps) && (forall a: Abi :: !HasScalar(bps[a], DEFAULTS))
    ensures v !in ArchListed(MergedBlueprint(bps), abi, DEFAULTS)
    ensures v in Items(bps[abi], DEFAULTS) ==> v in Listed(MergedBlueprint(bps), DEFAULTS)
    ensures v in Listed(MergedBlueprint(bps), DEFAULTS) ==> Somewhere(bps, DEFAULTS, v)
  {
    MergedMember(bps, abi, DEFAULTS, v);
    AllAbis(abi);
    if v in Items(bps[abi], DEFAULTS) {
      SharedMeaning(bps, DEFAULTS, abi, v);
    }
  }
}
