/**
  Moving compiler flags out of the generated targets: the flags every target repeats go into one
  defaults module that the targets then inherit, in common and per ABI.
 */
module BlueprintFlags {
  import opened Prelude
  import opened BlueprintMerge

  const CFLAGS := "cflags"
  const AUTO_DEFAULTS := "angle_common_auto_cflags"
  const NON_CONFORM_FLAG := "-DANGLE_EXPOSE_NON_CONFORMANT_EXTENSIONS_AND_VERSIONS"
  const NON_CONFORM_DEFAULTS := "angle_non_conformant_extensions_and_versions_cflags"

  type Arch = map<Abi, Lists>

  /** The part of a generated target that the flag passes read and write. */
  datatype Target = Target(cflags: Option<seq<string>>, arch: Option<Arch>, defaults: Option<seq<string>>)

  function Members(s: Option<seq<string>>): set<string> {
    if s.Some? then SetOf(s.value) else {}
  }

  function ArchFlags(t: Target, abi: Abi): Option<seq<string>> {
    if t.arch.Some? && abi in t.arch.value && CFLAGS in t.arch.value[abi] then Some(t.arch.value[abi][CFLAGS]) else None
  }

  /** The flags a target sets itself on one ABI. */
  function OwnFlags(t: Target, abi: Abi): set<string> {
    Members(t.cflags) + Members(ArchFlags(t, abi))
  }

  /** The defaults module that collects the common flags. */
  datatype Common = Common(flags: set<string>, arch: map<Abi, set<string>>)

  function ArchCommon(c: Common, abi: Abi): set<string> {
    if abi in c.arch then c.arch[abi] else {}
  }

  /** The list without some values; order and repetitions do not matter to the writer, which sorts sets. */
  function Without(s: seq<string>, drop: set<string>): seq<string> {
    if s == [] then []
    else Without(s[..|s| - 1], drop) + if s[|s| - 1] in drop then [] else [s[|s| - 1]]
  }

  lemma {:induction false} WithoutIsDifference(s: seq<string>, drop: set<string>)
    ensures SetOf(Without(s, drop)) == SetOf(s) - drop
  {
    if s != [] {
      var n := |s| - 1;
      WithoutIsDifference(s[..n], drop);
      assert SetOf(s) == SetOf(s[..n]) + {s[n]} by {
        assert s == s[..n] + [s[n]];
      }
      var tail := if s[n] in drop then [] else [s[n]];
      assert SetOf(Without(s[..n], drop) + tail) == SetOf(Without(s[..n], drop)) + SetOf(tail);
    }
  }

  // ----- the two passes, as functions of one target

  function SeparateNonConformant(t: Target): Target {
    if t.cflags.Some? && NON_CONFORM_FLAG in t.cflags.value && t.defaults.Some? then
      t.(cflags := Some(Without(t.cflags.value, {NON_CONFORM_FLAG})),
         defaults := Some(t.defaults.value + [NON_CONFORM_DEFAULTS]))
    else t
  }

  function HoistFlags(t: Target, common: set<string>): Target {
    if t.cflags.None? then t
    else
      var defaults := if t.defaults.Some? then t.defaults.value else [];
      t.(cflags := Some(Without(t.cflags.value, common)),
         defaults := Some(if AUTO_DEFAULTS in defaults then defaults else defaults + [AUTO_DEFAULTS]))
  }

  function HoistArch(t: Target, abi: Abi, common: set<string>): Target {
    if common == {} || ArchFlags(t, abi).None? then t
    else
      var left := Without(ArchFlags(t, abi).value, common);
      var lists := if left == [] then t.arch.value[abi] - {CFLAGS} else t.arch.value[abi][CFLAGS := left];
      var arch := if lists == map[] then t.arch.value - {abi} else t.arch.value[abi := lists];
      t.(arch := if arch == map[] then None else Some(arch))
  }

  function HoistArchs(t: Target, abis: seq<Abi>, c: Common): Target {
    if abis == [] then t
    else HoistArch(HoistArchs(t, abis[..|abis| - 1], c), abis[|abis| - 1], ArchCommon(c, abis[|abis| - 1]))
  }

  function Hoist(t: Target, c: Common): Target {
    HoistArchs(HoistFlags(t, c.flags), ABIS, c)
  }

  // ----- the common flags

  function Intersection(sets: seq<set<string>>): set<string> {
    if sets == [] then {}
    else if |sets| == 1 then sets[0]
    else Intersection(sets[..|sets| - 1]) * sets[|sets| - 1]
  }

  lemma {:induction false} IntersectionMember(sets: seq<set<string>>, v: string)
    ensures v in Intersection(sets) <==> sets != [] && forall i :: 0 <= i < |sets| ==> v in sets[i]
  {
    if |sets| > 1 {
      IntersectionMember(sets[..|sets| - 1], v);
    }
  }

  /** The flag sets of the targets that have flags. */
  function FlagSets(ts: seq<Target>): seq<set<string>> {
    if ts == [] then []
    else
      FlagSets(ts[..|ts| - 1]) +
      if ts[|ts| - 1].cflags.Some? then [SetOf(ts[|ts| - 1].cflags.value)] else []
  }

  function ArchFlagSets(ts: seq<Target>, abi: Abi): seq<set<string>> {
    if ts == [] then []
    else
      ArchFlagSets(ts[..|ts| - 1], abi) +
      if ArchFlags(ts[|ts| - 1], abi).Some? then [SetOf(ArchFlags(ts[|ts| - 1], abi).value)] else []
  }

  function CommonFlags(ts: seq<Target>): Common {
    Common(Intersection(FlagSets(ts)), map a: Abi | a in ABIS :: Intersection(ArchFlagSets(ts, a)))
  }

  lemma {:induction false} FlagSetsMember(ts: seq<Target>, t: Target)
    requires t in ts && t.cflags.Some?
    ensures SetOf(t.cflags.value) in FlagSets(ts)
  {
    var n := |ts| - 1;
    if t != ts[n] {
      assert ts == ts[..n] + [ts[n]];
      FlagSetsMember(ts[..n], t);
    }
  }

  lemma {:induction false} ArchFlagSetsMember(ts: seq<Target>, abi: Abi, t: Target)
    requires t in ts && ArchFlags(t, abi).Some?
    ensures SetOf(ArchFlags(t, abi).value) in ArchFlagSets(ts, abi)
  {
    var n := |ts| - 1;
    if t != ts[n] {
      assert ts == ts[..n] + [ts[n]];
      ArchFlagSetsMember(ts[..n], abi, t);
    }
  }

  /** What is common is in every target that has flags of that kind. */
  lemma CommonIsEverywhere(ts: seq<Target>, t: Target, abi: Abi)
    requires t in ts
    ensures t.cflags.Some? ==> CommonFlags(ts).flags <= SetOf(t.cflags.value)
    ensures ArchFlags(t, abi).Some? ==> ArchCommon(CommonFlags(ts), abi) <= SetOf(ArchFlags(t, abi).value)
  {
    AllAbis(abi);
    if t.cflags.Some? {
      FlagSetsMember(ts, t);
      InIntersection(FlagSets(ts), SetOf(t.cflags.value));
    }
    if ArchFlags(t, abi).Some? {
      ArchFlagSetsMember(ts, abi, t);
      InIntersection(ArchFlagSets(ts, abi), SetOf(ArchFlags(t, abi).value));
    }
  }

  lemma InIntersection(sets: seq<set<string>>, s: set<string>)
    requires s in sets
    ensures Intersection(sets) <= s
  {
    forall v | v in Intersection(sets)
      ensures v in s
    {
      IntersectionMember(sets, v);
    }
  }

  // ----- the effect on one target

  lemma HoistArchFlags(t: Target, abi: Abi, common: set<string>, a: Abi)
    ensures HoistArch(t, abi, common).cflags == t.cflags && HoistArch(t, abi, common).defaults == t.defaults
    ensures Members(ArchFlags(HoistArch(t, abi, common), a)) ==
            Members(ArchFlags(t, a)) - if a == abi then common else {}
    ensures a != abi ==> ArchFlags(HoistArch(t, abi, common), a) == ArchFlags(t, a)
  {
    if common != {} && ArchFlags(t, abi).Some? {
      var left := Without(ArchFlags(t, abi).value, common);
      WithoutIsDifference(ArchFlags(t, abi).value, common);
      assert left == [] ==> SetOf(left) == {};
      var lists := if left == [] then t.arch.value[abi] - {CFLAGS} else t.arch.value[abi][CFLAGS := left];
      var arch := if lists == map[] then t.arch.value - {abi} else t.arch.value[abi := lists];
      assert left != [] ==> CFLAGS in lists;
      assert lists != map[] ==> abi in arch;
      assert a != abi && a in t.arch.value ==> a in arch && arch[a] == t.arch.value[a];
      assert arch == map[] ==> a !in arch;
    }
  }

  lemma LastApart(abis: seq<Abi>, a: Abi)
    requires abis != [] && forall i, j :: 0 <= i < j < |abis| ==> abis[i] != abis[j]
    ensures var n := |abis| - 1;
            abis[n] !in abis[..n] && (a in abis <==> a in abis[..n] || a == abis[n])
  {
    assert abis == abis[..|abis| - 1] + [abis[|abis| - 1]];
  }

  lemma {:induction false} HoistArchsFlags(t: Target, abis: seq<Abi>, c: Common, a: Abi)
    requires forall i, j :: 0 <= i < j < |abis| ==> abis[i] != abis[j]
    ensures HoistArchs(t, abis, c).cflags == t.cflags && HoistArchs(t, abis, c).defaults == t.defaults
    ensures Members(ArchFlags(HoistArchs(t, abis, c), a)) ==
            Members(ArchFlags(t, a)) - if a in abis then ArchCommon(c, a) else {}
  {
    if abis != [] {
      var n := |abis| - 1;
      LastApart(abis, a);
      HoistArchsFlags(t, abis[..n], c, a);
      HoistArchFlags(HoistArchs(t, abis[..n], c), abis[n], ArchCommon(c, abis[n]), a);
    }
  }

  /** The flags a target sets itself after hoisting. */
  lemma HoistOwn(t: Target, c: Common, abi: Abi)
    ensures OwnFlags(Hoist(t, c), abi) == (Members(t.cflags) - c.flags) + (Members(ArchFlags(t, abi)) - ArchCommon(c, abi))
    ensures Members(Hoist(t, c).defaults) == Members(t.defaults) + if t.cflags.Some? then {AUTO_DEFAULTS} else {}
  {
    var f := HoistFlags(t, c.flags);
    HoistArchsFlags(f, ABIS, c, abi);
    AllAbis(abi);
    if t.cflags.Some? {
      WithoutIsDifference(t.cflags.value, c.flags);
    }
  }

  // ----- the program: the dictionaries of the targets are rewritten in place

  class Blueprint {
    var cflags: Option<seq<string>>
    var arch: Option<Arch>
    var defaults: Option<seq<string>>

    function State(): Target
      reads this
    {
      Target(cflags, arch, defaults)
    }

    method Rewrite(c: Common)
      modifies this
      ensures State() == Hoist(old(State()), c)
    {
      var t := HoistFlags(State(), c.flags);
      cflags, defaults := t.cflags, t.defaults;
      for i := 0 to |ABIS|
        invariant State() == HoistArchs(t, ABIS[..i], c)
      {
        assert ABIS[..i + 1][..i] == ABIS[..i];
        arch := HoistArch(State(), ABIS[i], ArchCommon(c, ABIS[i])).arch;
        HoistArchFlags(HoistArchs(t, ABIS[..i], c), ABIS[i], ArchCommon(c, ABIS[i]), Arm);
      }
      assert ABIS[..|ABIS|] == ABIS;
    }
  }

  method Listing(s: set<string>) returns (r: seq<string>)
    ensures SetOf(r) == s
  {
    var rest := s;
    r := [];
    while rest != {}
      invariant rest <= s && SetOf(r) == s - rest
    {
      var x :| x in rest;
      assert SetOf(r + [x]) == SetOf(r) + {x};
      r := r + [x];
      rest := rest - {x};
    }
  }

  /** The new defaults module. */
  predicate IsAuto(auto: Target, c: Common) {
    auto.defaults.None? && forall abi: Abi :: OwnFlags(auto, abi) == c.flags + ArchCommon(c, abi)
  }

  /** The flags of the ABIs, with no entry for an ABI that has none. */
  predicate ListsArch(arch: Arch, c: Common, abis: seq<Abi>) {
    forall a: Abi :: Members(ArchFlags(Target(None, Some(arch), None), a)) == if a in abis then ArchCommon(c, a) else {}
  }

  method MakeAuto(c: Common) returns (auto: Target)
    ensures IsAuto(auto, c)
  {
    var flags := Listing(c.flags);
    var arch: Arch := map[];
    for i := 0 to |ABIS|
      invariant ListsArch(arch, c, ABIS[..i])
    {
      var a := ABIS[i];
      var before := arch;
      assert ABIS[..i + 1] == ABIS[..i] + [a];
      if ArchCommon(c, a) != {} {
        var own := Listing(ArchCommon(c, a));
        arch := arch[a := map[CFLAGS := own]];
      } else {
        LastApart(ABIS[..i + 1], a);
      }
    }
    assert ABIS[..|ABIS|] == ABIS;
    auto := Target(Some(flags), if arch == map[] then None else Some(arch), None);
    forall abi: Abi
      ensures OwnFlags(auto, abi) == c.flags + ArchCommon(c, abi)
    {
      AllAbis(abi);
      assert Members(ArchFlags(Target(None, Some(arch), None), abi)) == ArchCommon(c, abi);
    }
  }

  method States(targets: seq<Blueprint>, ghost before: seq<Target>) returns (states: seq<Target>)
    requires |before| == |targets| && forall i :: 0 <= i < |targets| ==> before[i] == targets[i].State()
    ensures states == before
  {
    states := [];
    for i := 0 to |targets|
      invariant states == before[..i]
    {
      states := states + [targets[i].State()];
    }
  }

  method HoistAll(targets: seq<Blueprint>, ghost before: seq<Target>) returns (c: Common, auto: Target)
    requires forall i, j :: 0 <= i < j < |targets| ==> targets[i] != targets[j]
    requires |before| == |targets| && forall i :: 0 <= i < |targets| ==> before[i] == targets[i].State()
    modifies targets
    ensures c == CommonFlags(before) && IsAuto(auto, c)
    ensures forall i :: 0 <= i < |targets| ==> targets[i].State() == Hoist(before[i], c)
  {
    var states := States(targets, before);
    c := CommonFlags(states);
    for i := 0 to |targets|
      invariant forall j :: 0 <= j < i ==> targets[j].State() == Hoist(before[j], c)
      invariant forall j :: i <= j < |targets| ==> targets[j].State() == before[j]
    {
      targets[i].Rewrite(c);
    }
    auto := MakeAuto(c);
  }
}
