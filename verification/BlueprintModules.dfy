/**
  The modules of the blueprint and the flags each is compiled with, its own and those it inherits,
  before and after the two passes that move flags into defaults modules.
 */
module BlueprintModules {
  import opened Prelude
  import opened BlueprintMerge
  import opened BlueprintFlags

  type Modules = map<string, Target>

  /**
    The modules that are written by hand and those that are generated, by name.  A source set is a
    defaults module of whoever depends on it, so generated modules inherit from each other.
   */
  datatype Output = Output(fixed: Modules, generated: Modules)

  function All(o: Output): Modules {
    o.fixed + o.generated
  }

  /** Following the defaults `path` from module `a` leads to module `b`. */
  predicate Leads(m: Modules, a: string, path: seq<string>, b: string)
    decreases |path|
  {
    if path == [] then a == b
    else a in m && path[0] in Members(m[a].defaults) && Leads(m, path[0], path[1..], b)
  }

  ghost predicate Inherits(m: Modules, a: string, b: string) {
    b in m && exists path :: Leads(m, a, path, b)
  }

  /** The module is compiled with the flag on the ABI: it sets it, or inherits it. */
  ghost predicate Compiled(m: Modules, a: string, abi: Abi, v: string) {
    exists b :: Inherits(m, a, b) && v in OwnFlags(m[b], abi)
  }

  /** The same, by way of a module that is written by hand. */
  ghost predicate ByHand(o: Output, a: string, abi: Abi, v: string) {
    exists b :: b in o.fixed && Inherits(All(o), a, b) && v in OwnFlags(o.fixed[b], abi)
  }

  /** A generated module with flags for all ABIs is the module itself or one it inherits from. */
  ghost predicate InheritsFlags(o: Output, a: string) {
    exists b :: b in o.generated && Inherits(All(o), a, b) && o.generated[b].cflags.Some?
  }

  /** A generated module with flags of its own on the ABI is the module itself or one it inherits from. */
  ghost predicate InheritsArchFlags(o: Output, a: string, abi: Abi) {
    exists b :: b in o.generated && Inherits(All(o), a, b) && ArchFlags(o.generated[b], abi).Some?
  }

  /** A name that no module has or inherits from. */
  predicate Unused(o: Output, name: string) {
    name !in All(o) && forall a :: a in All(o) ==> name !in Members(All(o)[a].defaults)
  }

  predicate Apart(o: Output) {
    forall n :: n in o.generated ==> n !in o.fixed
  }

  // ----- adding a defaults module that some generated modules inherit from

  ghost predicate Extends(o: Output, o': Output, name: string) {
    && Apart(o) && Unused(o, name)
    && o'.fixed.Keys == o.fixed.Keys + {name} && (forall n :: n in o.fixed ==> o'.fixed[n] == o.fixed[n])
    && o'.fixed[name].defaults.None? && o'.generated.Keys == o.generated.Keys
    && forall n :: n in o.generated ==>
         && Members(o.generated[n].defaults) <= Members(o'.generated[n].defaults)
         && Members(o'.generated[n].defaults) <= Members(o.generated[n].defaults) + {name}
  }

  lemma ExtendedModule(o: Output, o': Output, name: string, a: string)
    requires Extends(o, o', name)
    ensures name in All(o') && All(o')[name] == o'.fixed[name] && (a != name ==> (a in All(o') <==> a in All(o)))
    ensures a in o.generated ==> a in All(o') && All(o')[a] == o'.generated[a] && All(o)[a] == o.generated[a]
    ensures a in o.fixed ==> a in All(o') && All(o')[a] == o.fixed[a] && All(o)[a] == o.fixed[a]
  {
  }

  lemma {:induction false} LeadsExtended(o: Output, o': Output, name: string, a: string, path: seq<string>, b: string)
    requires Extends(o, o', name) && Leads(All(o), a, path, b)
    ensures Leads(All(o'), a, path, b)
    decreases |path|
  {
    if path != [] {
      ExtendedModule(o, o', name, a);
      LeadsExtended(o, o', name, path[0], path[1..], b);
    }
  }

  lemma {:induction false} LeadsBack(o: Output, o': Output, name: string, a: string, path: seq<string>, b: string)
    requires Extends(o, o', name) && Leads(All(o'), a, path, b) && b != name
    ensures Leads(All(o), a, path, b)
    decreases |path|
  {
    if path != [] {
      ExtendedModule(o, o', name, a);
      LeadsBack(o, o', name, path[0], path[1..], b);
    }
  }

  lemma {:induction false} LeadsToNew(o: Output, o': Output, name: string, a: string, path: seq<string>) returns (n: string)
    requires Extends(o, o', name) && Leads(All(o'), a, path, name) && a != name
    ensures n in o.generated && name in Members(o'.generated[n].defaults) && Inherits(All(o), a, n)
    decreases |path|
  {
    ExtendedModule(o, o', name, a);
    if path[0] == name {
      n := a;
      assert Leads(All(o), a, [], a);
    } else {
      n := LeadsToNew(o, o', name, path[0], path[1..]);
      var rest :| Leads(All(o), path[0], rest, n);
      assert ([path[0]] + rest)[1..] == rest;
      assert Leads(All(o), a, [path[0]] + rest, n);
    }
  }

  lemma {:induction false} LeadsOn(m: Modules, a: string, path: seq<string>, b: string, d: string)
    requires Leads(m, a, path, b) && b in m && d in Members(m[b].defaults)
    ensures Leads(m, a, path + [d], d)
    decreases |path|
  {
    if path == [] {
      assert [] + [d] == [d] && [d][1..] == [];
    } else {
      LeadsOn(m, path[0], path[1..], b, d);
      assert (path + [d])[1..] == path[1..] + [d];
    }
  }

  /** What was inherited still is, and nothing else but the new module. */
  lemma InheritsExtended(o: Output, o': Output, name: string, a: string, b: string)
    requires Extends(o, o', name) && b != name
    ensures Inherits(All(o'), a, b) <==> Inherits(All(o), a, b)
  {
    ExtendedModule(o, o', name, b);
    if Inherits(All(o), a, b) {
      var path :| Leads(All(o), a, path, b);
      LeadsExtended(o, o', name, a, path, b);
    }
    if Inherits(All(o'), a, b) {
      var path :| Leads(All(o'), a, path, b);
      LeadsBack(o, o', name, a, path, b);
    }
  }

  /** A generated module that names the new one is the module itself or one it inherits from. */
  ghost predicate NamedAbove(o: Output, o': Output, name: string, a: string)
    requires o'.generated.Keys == o.generated.Keys
  {
    exists n :: n in o.generated && Inherits(All(o), a, n) && name in Members(o'.generated[n].defaults)
  }

  lemma InheritsNewIff(o: Output, o': Output, name: string, a: string)
    requires Extends(o, o', name) && a in All(o)
    ensures Inherits(All(o'), a, name) <==> NamedAbove(o, o', name, a)
  {
    ExtendedModule(o, o', name, a);
    if Inherits(All(o'), a, name) {
      var path :| Leads(All(o'), a, path, name);
      var n := LeadsToNew(o, o', name, a, path);
    }
    if NamedAbove(o, o', name, a) {
      var n :| n in o.generated && Inherits(All(o), a, n) && name in Members(o'.generated[n].defaults);
      var path :| Leads(All(o), a, path, n);
      LeadsExtended(o, o', name, a, path, n);
      ExtendedModule(o, o', name, n);
      LeadsOn(All(o'), a, path, n, name);
    }
  }

  // ----- the pass that moves the common flags

  function Hoisted(o: Output, c: Common, auto: Target): Output {
    Output(o.fixed[AUTO_DEFAULTS := auto], map n | n in o.generated :: Hoist(o.generated[n], c))
  }

  /** The generated modules are among the targets whose flags were compared. */
  predicate Compared(o: Output, ts: seq<Target>) {
    Apart(o) && forall n :: n in o.generated ==> o.generated[n] in ts
  }

  lemma HoistExtends(o: Output, c: Common, auto: Target)
    requires Apart(o) && Unused(o, AUTO_DEFAULTS) && auto.defaults.None?
    ensures Extends(o, Hoisted(o, c, auto), AUTO_DEFAULTS)
    ensures forall n :: n in o.generated ==>
              (AUTO_DEFAULTS in Members(Hoist(o.generated[n], c).defaults) <==> o.generated[n].cflags.Some?)
  {
    forall n | n in o.generated
      ensures Members(Hoist(o.generated[n], c).defaults) ==
              Members(o.generated[n].defaults) + if o.generated[n].cflags.Some? then {AUTO_DEFAULTS} else {}
      ensures AUTO_DEFAULTS !in Members(o.generated[n].defaults)
    {
      HoistOwn(o.generated[n], c, Arm);
      assert All(o)[n] == o.generated[n];
    }
  }

  /** The new module is inherited exactly where flags for all ABIs are. */
  lemma InheritsAutoIff(o: Output, c: Common, auto: Target, a: string)
    requires Apart(o) && Unused(o, AUTO_DEFAULTS) && auto.defaults.None? && a in All(o)
    ensures Inherits(All(Hoisted(o, c, auto)), a, AUTO_DEFAULTS) <==> InheritsFlags(o, a)
  {
    var o' := Hoisted(o, c, auto);
    HoistExtends(o, c, auto);
    InheritsNewIff(o, o', AUTO_DEFAULTS, a);
    if NamedAbove(o, o', AUTO_DEFAULTS, a) {
      var n :| n in o.generated && Inherits(All(o), a, n) && AUTO_DEFAULTS in Members(o'.generated[n].defaults);
      assert o.generated[n].cflags.Some?;
    }
    if InheritsFlags(o, a) {
      var n :| n in o.generated && Inherits(All(o), a, n) && o.generated[n].cflags.Some?;
      assert AUTO_DEFAULTS in Members(o'.generated[n].defaults);
    }
  }

  /** What the new module gives was there before, or is common to the ABI. */
  lemma AutoAdds(o: Output, ts: seq<Target>, auto: Target, a: string, abi: Abi, v: string)
    requires Unused(o, AUTO_DEFAULTS) && Compared(o, ts) && IsAuto(auto, CommonFlags(ts)) && a in All(o)
    requires InheritsFlags(o, a) && v in OwnFlags(auto, abi)
    ensures Compiled(All(o), a, abi, v) || v in ArchCommon(CommonFlags(ts), abi)
  {
    var n :| n in o.generated && Inherits(All(o), a, n) && o.generated[n].cflags.Some?;
    CommonIsEverywhere(ts, o.generated[n], abi);
    assert All(o)[n] == o.generated[n];
    if v in CommonFlags(ts).flags {
      assert v in OwnFlags(All(o)[n], abi);
    }
  }

  /** What any other module gives was there before, and is not common to the ABI unless flags for all ABIs are inherited. */
  lemma OtherAdds(o: Output, ts: seq<Target>, auto: Target, a: string, b: string, abi: Abi, v: string)
    requires Unused(o, AUTO_DEFAULTS) && Compared(o, ts) && IsAuto(auto, CommonFlags(ts)) && b != AUTO_DEFAULTS
    requires Inherits(All(Hoisted(o, CommonFlags(ts), auto)), a, b)
    requires v in OwnFlags(All(Hoisted(o, CommonFlags(ts), auto))[b], abi)
    ensures Compiled(All(o), a, abi, v)
    ensures ByHand(o, a, abi, v) || InheritsFlags(o, a) || v !in ArchCommon(CommonFlags(ts), abi)
  {
    var c := CommonFlags(ts);
    HoistExtends(o, c, auto);
    ExtendedModule(o, Hoisted(o, c, auto), AUTO_DEFAULTS, b);
    InheritsExtended(o, Hoisted(o, c, auto), AUTO_DEFAULTS, a, b);
    if b in o.generated {
      HoistOwn(o.generated[b], c, abi);
      assert v in OwnFlags(All(o)[b], abi);
    } else {
      assert b in o.fixed;
    }
  }

  /** Whatever a module is compiled with after the pass, it was before, or it is common to the ABI. */
  lemma HoistAddsOnly(o: Output, ts: seq<Target>, auto: Target, a: string, abi: Abi, v: string)
    requires Unused(o, AUTO_DEFAULTS) && Compared(o, ts) && IsAuto(auto, CommonFlags(ts)) && a in All(o)
    requires Compiled(All(Hoisted(o, CommonFlags(ts), auto)), a, abi, v)
    ensures if InheritsFlags(o, a) then Compiled(All(o), a, abi, v) || v in ArchCommon(CommonFlags(ts), abi)
            else ByHand(o, a, abi, v) || (Compiled(All(o), a, abi, v) && v !in ArchCommon(CommonFlags(ts), abi))
  {
    var c := CommonFlags(ts);
    var m' := All(Hoisted(o, c, auto));
    var b :| Inherits(m', a, b) && v in OwnFlags(m'[b], abi);
    if b == AUTO_DEFAULTS {
      HoistExtends(o, c, auto);
      ExtendedModule(o, Hoisted(o, c, auto), AUTO_DEFAULTS, b);
      InheritsAutoIff(o, c, auto, a);
      AutoAdds(o, ts, auto, a, abi, v);
    } else {
      OtherAdds(o, ts, auto, a, b, abi, v);
    }
  }

  /** Whatever a module was compiled with before the pass is kept, by hand or by the new module or as it was. */
  lemma HoistKeepsMost(o: Output, ts: seq<Target>, auto: Target, a: string, abi: Abi, v: string)
    requires Unused(o, AUTO_DEFAULTS) && Compared(o, ts) && IsAuto(auto, CommonFlags(ts)) && a in All(o)
    requires if InheritsFlags(o, a) then Compiled(All(o), a, abi, v) || v in ArchCommon(CommonFlags(ts), abi)
             else ByHand(o, a, abi, v) || (Compiled(All(o), a, abi, v) && v !in ArchCommon(CommonFlags(ts), abi))
    ensures Compiled(All(Hoisted(o, CommonFlags(ts), auto)), a, abi, v)
  {
    var c := CommonFlags(ts);
    var m' := All(Hoisted(o, c, auto));
    HoistExtends(o, c, auto);
    if InheritsFlags(o, a) {
      InheritsAutoIff(o, c, auto, a);
      ExtendedModule(o, Hoisted(o, c, auto), AUTO_DEFAULTS, AUTO_DEFAULTS);
    }
    if InheritsFlags(o, a) && v in c.flags + ArchCommon(c, abi) {
      assert v in OwnFlags(m'[AUTO_DEFAULTS], abi);
    } else if ByHand(o, a, abi, v) {
      var b :| b in o.fixed && Inherits(All(o), a, b) && v in OwnFlags(o.fixed[b], abi);
      ExtendedModule(o, Hoisted(o, c, auto), AUTO_DEFAULTS, b);
      InheritsExtended(o, Hoisted(o, c, auto), AUTO_DEFAULTS, a, b);
    } else {
      var b :| Inherits(All(o), a, b) && v in OwnFlags(All(o)[b], abi);
      ExtendedModule(o, Hoisted(o, c, auto), AUTO_DEFAULTS, b);
      InheritsExtended(o, Hoisted(o, c, auto), AUTO_DEFAULTS, a, b);
      if b in o.generated {
        HoistOwn(o.generated[b], c, abi);
        if o.generated[b].cflags.Some? {
          assert InheritsFlags(o, a);
        }
      }
    }
  }

  /**
    The whole effect of the pass on a module.  If it inherits from a generated module with flags for
    all ABIs, or is one, it keeps every flag and gains exactly those common to the ABI's targets; if
    not, it loses exactly those, except where a module written by hand still gives them.
   */
  lemma HoistExact(o: Output, ts: seq<Target>, auto: Target, a: string, abi: Abi, v: string)
    requires Unused(o, AUTO_DEFAULTS) && Compared(o, ts) && IsAuto(auto, CommonFlags(ts)) && a in All(o)
    ensures Compiled(All(Hoisted(o, CommonFlags(ts), auto)), a, abi, v) <==>
            if InheritsFlags(o, a) then Compiled(All(o), a, abi, v) || v in ArchCommon(CommonFlags(ts), abi)
            else ByHand(o, a, abi, v) || (Compiled(All(o), a, abi, v) && v !in ArchCommon(CommonFlags(ts), abi))
  {
    if Compiled(All(Hoisted(o, CommonFlags(ts), auto)), a, abi, v) {
      HoistAddsOnly(o, ts, auto, a, abi, v);
    } else if (if InheritsFlags(o, a) then Compiled(All(o), a, abi, v) || v in ArchCommon(CommonFlags(ts), abi)
               else ByHand(o, a, abi, v) || (Compiled(All(o), a, abi, v) && v !in ArchCommon(CommonFlags(ts), abi))) {
      HoistKeepsMost(o, ts, auto, a, abi, v);
    }
  }

  /** The module keeps all its flags on the ABI. */
  ghost predicate Keeps(o: Output, o': Output, a: string, abi: Abi) {
    forall v :: Compiled(All(o), a, abi, v) ==> Compiled(All(o'), a, abi, v)
  }

  /** Exactly when a module keeps all its flags on an ABI. */
  lemma KeepsFlagsIff(o: Output, ts: seq<Target>, auto: Target, a: string, abi: Abi)
    requires Unused(o, AUTO_DEFAULTS) && Compared(o, ts) && IsAuto(auto, CommonFlags(ts)) && a in All(o)
    ensures Keeps(o, Hoisted(o, CommonFlags(ts), auto), a, abi) <==>
            || InheritsFlags(o, a) || !InheritsArchFlags(o, a, abi)
            || (forall v :: v in ArchCommon(CommonFlags(ts), abi) ==> ByHand(o, a, abi, v))
  {
    var c := CommonFlags(ts);
    HoistExtends(o, c, auto);
    forall v
      ensures Compiled(All(Hoisted(o, c, auto)), a, abi, v) <==>
              if InheritsFlags(o, a) then Compiled(All(o), a, abi, v) || v in ArchCommon(c, abi)
              else ByHand(o, a, abi, v) || (Compiled(All(o), a, abi, v) && v !in ArchCommon(c, abi))
    {
      HoistExact(o, ts, auto, a, abi, v);
    }
    if !InheritsFlags(o, a) {
      if InheritsArchFlags(o, a, abi) {
        var b :| b in o.generated && Inherits(All(o), a, b) && ArchFlags(o.generated[b], abi).Some?;
        ExtendedModule(o, Hoisted(o, c, auto), AUTO_DEFAULTS, b);
        CommonIsEverywhere(ts, o.generated[b], abi);
        assert forall v :: v in ArchCommon(c, abi) ==> Compiled(All(o), a, abi, v);
      } else {
        forall v | Compiled(All(o), a, abi, v)
          ensures ByHand(o, a, abi, v)
        {
          OnlyByHand(o, a, abi, v);
        }
      }
    }
  }

  /** Without generated flags above it, a module has only the flags written by hand. */
  lemma OnlyByHand(o: Output, a: string, abi: Abi, v: string)
    requires Apart(o) && !InheritsFlags(o, a) && !InheritsArchFlags(o, a, abi)
    requires Compiled(All(o), a, abi, v)
    ensures ByHand(o, a, abi, v)
  {
    var b :| Inherits(All(o), a, b) && v in OwnFlags(All(o)[b], abi);
    assert b in o.fixed || b in o.generated;
  }

  /** Exactly when a module that inherits flags for all ABIs gains none on an ABI. */
  lemma GainsNothingIff(o: Output, ts: seq<Target>, auto: Target, a: string, abi: Abi)
    requires Unused(o, AUTO_DEFAULTS) && Compared(o, ts) && IsAuto(auto, CommonFlags(ts)) && a in All(o)
    requires InheritsFlags(o, a)
    ensures Keeps(Hoisted(o, CommonFlags(ts), auto), o, a, abi) <==>
            forall v :: v in ArchCommon(CommonFlags(ts), abi) ==> Compiled(All(o), a, abi, v)
    ensures InheritsArchFlags(o, a, abi) ==> Keeps(Hoisted(o, CommonFlags(ts), auto), o, a, abi)
  {
    var c := CommonFlags(ts);
    forall v
      ensures Compiled(All(Hoisted(o, c, auto)), a, abi, v) <==>
              Compiled(All(o), a, abi, v) || v in ArchCommon(c, abi)
    {
      HoistExact(o, ts, auto, a, abi, v);
    }
    if InheritsArchFlags(o, a, abi) {
      var b :| b in o.generated && Inherits(All(o), a, b) && ArchFlags(o.generated[b], abi).Some?;
      CommonIsEverywhere(ts, o.generated[b], abi);
      HoistExtends(o, c, auto);
      ExtendedModule(o, Hoisted(o, c, auto), AUTO_DEFAULTS, b);
      assert forall v :: v in ArchCommon(c, abi) ==> Compiled(All(o), a, abi, v);
    }
  }

  // ----- the pass that separates the non-conformant flag

  const NON_CONFORM := Target(Some([NON_CONFORM_FLAG]), None, None)

  function Separated(o: Output): Output {
    Output(o.fixed[NON_CONFORM_DEFAULTS := NON_CONFORM],
           map n | n in o.generated :: SeparateNonConformant(o.generated[n]))
  }

  predicate HasNonConformant(t: Target) {
    t.cflags.Some? && NON_CONFORM_FLAG in t.cflags.value
  }

  /** Where the flag is there are defaults to append to; the script raises otherwise. */
  predicate Separable(o: Output) {
    forall n :: n in o.generated && HasNonConformant(o.generated[n]) ==> o.generated[n].defaults.Some?
  }

  lemma SeparatedOwn(t: Target, abi: Abi)
    requires HasNonConformant(t) ==> t.defaults.Some?
    ensures var s := SeparateNonConformant(t);
            && OwnFlags(s, abi) + (if HasNonConformant(t) then {NON_CONFORM_FLAG} else {}) == OwnFlags(t, abi)
            && Members(s.defaults) == Members(t.defaults) + (if HasNonConformant(t) then {NON_CONFORM_DEFAULTS} else {})
            && s.arch == t.arch && (s.cflags.Some? <==> t.cflags.Some?)
  {
    if HasNonConformant(t) {
      WithoutIsDifference(t.cflags.value, {NON_CONFORM_FLAG});
      var s := SeparateNonConformant(t);
      assert Members(s.cflags) + {NON_CONFORM_FLAG} == Members(t.cflags);
    }
  }

  lemma SeparateExtends(o: Output)
    requires Apart(o) && Unused(o, NON_CONFORM_DEFAULTS) && Separable(o)
    ensures Extends(o, Separated(o), NON_CONFORM_DEFAULTS)
    ensures forall n :: n in o.generated ==>
              (NON_CONFORM_DEFAULTS in Members(SeparateNonConformant(o.generated[n]).defaults) <==>
               HasNonConformant(o.generated[n]))
  {
    forall n | n in o.generated
      ensures Members(SeparateNonConformant(o.generated[n]).defaults) ==
              Members(o.generated[n].defaults) + if HasNonConformant(o.generated[n]) then {NON_CONFORM_DEFAULTS} else {}
      ensures NON_CONFORM_DEFAULTS !in Members(o.generated[n].defaults)
    {
      SeparatedOwn(o.generated[n], Arm);
      assert All(o)[n] == o.generated[n];
    }
  }

  /** Separating the flag changes no module's flags. */
  lemma NonConformantKept(o: Output, a: string, abi: Abi, v: string)
    requires Apart(o) && Unused(o, NON_CONFORM_DEFAULTS) && Separable(o) && a in All(o)
    ensures Compiled(All(Separated(o)), a, abi, v) <==> Compiled(All(o), a, abi, v)
  {
    var o' := Separated(o);
    SeparateExtends(o);
    InheritsNewIff(o, o', NON_CONFORM_DEFAULTS, a);
    if Compiled(All(o'), a, abi, v) {
      SeparatedFrom(o, a, abi, v);
    }
    if Compiled(All(o), a, abi, v) {
      var b :| Inherits(All(o), a, b) && v in OwnFlags(All(o)[b], abi);
      ExtendedModule(o, o', NON_CONFORM_DEFAULTS, b);
      InheritsExtended(o, o', NON_CONFORM_DEFAULTS, a, b);
      if b in o.generated {
        SeparatedOwn(o.generated[b], abi);
        if v !in OwnFlags(o'.generated[b], abi) {
          assert NON_CONFORM_DEFAULTS in Members(o'.generated[b].defaults);
          ExtendedModule(o, o', NON_CONFORM_DEFAULTS, NON_CONFORM_DEFAULTS);
          assert v in OwnFlags(All(o')[NON_CONFORM_DEFAULTS], abi);
        }
      }
    }
  }

  lemma SeparatedNew(o: Output, a: string, abi: Abi)
    requires Apart(o) && Unused(o, NON_CONFORM_DEFAULTS) && Separable(o)
    requires NamedAbove(o, Separated(o), NON_CONFORM_DEFAULTS, a)
    ensures Compiled(All(o), a, abi, NON_CONFORM_FLAG)
  {
    SeparateExtends(o);
    var n :| n in o.generated && Inherits(All(o), a, n) &&
             NON_CONFORM_DEFAULTS in Members(Separated(o).generated[n].defaults);
    assert All(o)[n] == o.generated[n] && HasNonConformant(o.generated[n]);
    assert NON_CONFORM_FLAG in OwnFlags(All(o)[n], abi);
  }

  lemma SeparatedFrom(o: Output, a: string, abi: Abi, v: string)
    requires Apart(o) && Unused(o, NON_CONFORM_DEFAULTS) && Separable(o) && a in All(o)
    requires Compiled(All(Separated(o)), a, abi, v)
    ensures Compiled(All(o), a, abi, v)
  {
    var o' := Separated(o);
    SeparateExtends(o);
    var b :| Inherits(All(o'), a, b) && v in OwnFlags(All(o')[b], abi);
    ExtendedModule(o, o', NON_CONFORM_DEFAULTS, b);
    if b == NON_CONFORM_DEFAULTS {
      InheritsNewIff(o, o', NON_CONFORM_DEFAULTS, a);
      SeparatedNew(o, a, abi);
      OneFlag(o'.fixed[NON_CONFORM_DEFAULTS], NON_CONFORM_FLAG, abi);
    } else {
      SeparatedOther(o, a, b, abi, v);
    }
  }

  lemma OneFlag(t: Target, flag: string, abi: Abi)
    requires t == Target(Some([flag]), None, None)
    ensures OwnFlags(t, abi) == {flag}
  {
  }

  lemma SeparatedOther(o: Output, a: string, b: string, abi: Abi, v: string)
    requires Apart(o) && Unused(o, NON_CONFORM_DEFAULTS) && Separable(o) && b != NON_CONFORM_DEFAULTS
    requires Inherits(All(Separated(o)), a, b) && v in OwnFlags(All(Separated(o))[b], abi)
    ensures Compiled(All(o), a, abi, v)
  {
    SeparateExtends(o);
    ExtendedModule(o, Separated(o), NON_CONFORM_DEFAULTS, b);
    InheritsExtended(o, Separated(o), NON_CONFORM_DEFAULTS, a, b);
    if b in o.generated {
      SeparatedOwn(o.generated[b], abi);
    }
    assert v in OwnFlags(All(o)[b], abi);
  }

  // ----- from the per-ABI descriptions to the compiler

  function FromMerged(m: Merged): Target {
    Target(if CFLAGS in m.common && m.common[CFLAGS].ListValue? then Some(m.common[CFLAGS].items) else None,
           m.arch,
           if DEFAULTS in m.common && m.common[DEFAULTS].ListValue? then Some(m.common[DEFAULTS].items) else None)
  }

  /** A library: flags and defaults are lists, and a description with flags has defaults. */
  predicate Library(bps: Build) {
    && WellFormed(bps)
    && (forall a: Abi :: !HasScalar(bps[a], CFLAGS) && !HasScalar(bps[a], DEFAULTS))
    && (forall a: Abi :: Items(bps[a], CFLAGS) != [] ==> Items(bps[a], DEFAULTS) != [])
  }

  /** Some flag is common to all ABIs of the target. */
  predicate SharesFlag(bps: Build) {
    exists v :: Arm in bps && v in Items(bps[Arm], CFLAGS) && InAll(bps, CFLAGS, v)
  }

  function Flags(bps: Build, abi: Abi): set<string>
    requires abi in bps
  {
    SetOf(Items(bps[abi], CFLAGS))
  }

  lemma KeysDiffer()
    ensures CFLAGS != DEFAULTS
  {
    assert |CFLAGS| != |DEFAULTS|;
  }

  lemma MergedMembers(bps: Build, abi: Abi, v: string)
    requires Library(bps)
    ensures var m := MergedBlueprint(bps);
            && (v in Items(bps[abi], CFLAGS) <==> v in Listed(m, CFLAGS) || v in ArchListed(m, abi, CFLAGS))
            && (v in Listed(m, CFLAGS) <==> InAll(bps, CFLAGS, v))
  {
    KeysDiffer();
    MergeExact(bps, abi, CFLAGS, v);
  }

  lemma MergedFlags(bps: Build, abi: Abi)
    requires Library(bps)
    ensures OwnFlags(FromMerged(MergedBlueprint(bps)), abi) == Flags(bps, abi)
  {
    var m := MergedBlueprint(bps);
    forall v
      ensures v in Items(bps[abi], CFLAGS) <==> v in Listed(m, CFLAGS) || v in ArchListed(m, abi, CFLAGS)
    {
      MergedMembers(bps, abi, v);
    }
    assert Members(FromMerged(m).cflags) == SetOf(Listed(m, CFLAGS));
    assert Members(ArchFlags(FromMerged(m), abi)) == SetOf(ArchListed(m, abi, CFLAGS));
  }

  lemma MergedSharesFlag(bps: Build)
    requires Library(bps)
    ensures FromMerged(MergedBlueprint(bps)).cflags.Some? <==> SharesFlag(bps)
  {
    var m := MergedBlueprint(bps);
    AllAbis(Arm);
    MergeNoEmpty(TableOf(bps), bps, ABIS);
    if FromMerged(m).cflags.Some? {
      var v := Listed(m, CFLAGS)[0];
      assert v in Listed(m, CFLAGS);
      MergedMembers(bps, Arm, v);
    }
    if SharesFlag(bps) {
      var v :| v in Items(bps[Arm], CFLAGS) && InAll(bps, CFLAGS, v);
      MergedMembers(bps, Arm, v);
    }
  }

  lemma MergedDefaults(bps: Build)
    requires Library(bps) && SharesFlag(bps)
    ensures FromMerged(MergedBlueprint(bps)).defaults.Some?
  {
    assert Items(bps[Arm], CFLAGS) != [];
    MergeDefaults(bps, Arm, Items(bps[Arm], DEFAULTS)[0]);
  }

  type Builds = map<string, Build>

  /** The generated modules are the libraries, merged. */
  predicate Generates(builds: Builds, o: Output) {
    && o.generated.Keys == builds.Keys
    && forall n :: n in builds ==> Library(builds[n]) && o.generated[n] == FromMerged(MergedBlueprint(builds[n]))
  }

  /** The libraries next to the modules written by hand, and the two names of the passes still free. */
  predicate Prepared(builds: Builds, o: Output) {
    Generates(builds, o) && Apart(o) && Unused(o, AUTO_DEFAULTS) && Unused(o, NON_CONFORM_DEFAULTS)
  }

  /** The flags described for a library on the ABI, or written by hand. */
  function Intended(builds: Builds, o: Output, b: string, abi: Abi): set<string>
    requires Generates(builds, o) && b in All(o)
  {
    if b in builds then Flags(builds[b], abi) else OwnFlags(All(o)[b], abi)
  }

  /** The flag is intended for the module on the ABI, or for one it inherits from. */
  ghost predicate Described(builds: Builds, o: Output, a: string, abi: Abi, v: string)
    requires Generates(builds, o)
  {
    exists b :: Inherits(All(o), a, b) && v in Intended(builds, o, b, abi)
  }

  /** Some flag is common to all ABIs of the library or of one it inherits from. */
  ghost predicate SharesAbove(builds: Builds, o: Output, a: string) {
    exists b :: b in builds && Inherits(All(o), a, b) && SharesFlag(builds[b])
  }

  lemma IntendedIsOwn(builds: Builds, o: Output, b: string, abi: Abi)
    requires Generates(builds, o) && Apart(o) && b in All(o)
    ensures Intended(builds, o, b, abi) == OwnFlags(All(o)[b], abi)
  {
    if b in builds {
      MergedFlags(builds[b], abi);
      assert All(o)[b] == o.generated[b];
    }
  }

  lemma DescribedIff(builds: Builds, o: Output, a: string, abi: Abi, v: string)
    requires Generates(builds, o) && Apart(o)
    ensures Described(builds, o, a, abi, v) <==> Compiled(All(o), a, abi, v)
  {
    if Described(builds, o, a, abi, v) {
      var b :| Inherits(All(o), a, b) && v in Intended(builds, o, b, abi);
      IntendedIsOwn(builds, o, b, abi);
    }
    if Compiled(All(o), a, abi, v) {
      var b :| Inherits(All(o), a, b) && v in OwnFlags(All(o)[b], abi);
      IntendedIsOwn(builds, o, b, abi);
    }
  }

  lemma SharesAboveIff(builds: Builds, o: Output, a: string)
    requires Generates(builds, o)
    ensures SharesAbove(builds, o, a) <==> InheritsFlags(o, a)
  {
    forall b | b in builds
      ensures o.generated[b].cflags.Some? <==> SharesFlag(builds[b])
    {
      MergedSharesFlag(builds[b]);
    }
  }

  lemma GeneratesSeparable(builds: Builds, o: Output)
    requires Generates(builds, o)
    ensures Separable(o)
  {
    forall n | n in o.generated && HasNonConformant(o.generated[n])
      ensures o.generated[n].defaults.Some?
    {
      MergedSharesFlag(builds[n]);
      MergedDefaults(builds[n]);
    }
  }

  /** Separating the non-conformant flag does not change which modules inherit flags for all ABIs. */
  lemma SeparatedInheritsFlags(o: Output, a: string)
    requires Apart(o) && Unused(o, NON_CONFORM_DEFAULTS) && Separable(o)
    ensures InheritsFlags(Separated(o), a) <==> InheritsFlags(o, a)
  {
    SeparateExtends(o);
    forall b | b in o.generated
      ensures Inherits(All(Separated(o)), a, b) <==> Inherits(All(o), a, b)
      ensures Separated(o).generated[b].cflags.Some? <==> o.generated[b].cflags.Some?
    {
      assert b in All(o);
      InheritsExtended(o, Separated(o), NON_CONFORM_DEFAULTS, a, b);
      SeparatedOwn(o.generated[b], Arm);
    }
  }

  /** Nor, where none are inherited, what is written by hand. */
  lemma SeparatedByHand(o: Output, a: string, abi: Abi, v: string)
    requires Apart(o) && Unused(o, NON_CONFORM_DEFAULTS) && Separable(o) && a in All(o) && !InheritsFlags(o, a)
    ensures ByHand(Separated(o), a, abi, v) <==> ByHand(o, a, abi, v)
  {
    var o' := Separated(o);
    SeparateExtends(o);
    InheritsNewIff(o, o', NON_CONFORM_DEFAULTS, a);
    assert !NamedAbove(o, o', NON_CONFORM_DEFAULTS, a);
    forall b | b in o.fixed
      ensures b != NON_CONFORM_DEFAULTS && (Inherits(All(o'), a, b) <==> Inherits(All(o), a, b))
    {
      assert b in All(o);
      InheritsExtended(o, o', NON_CONFORM_DEFAULTS, a, b);
    }
  }

  lemma SeparatedUnused(o: Output, name: string)
    requires Apart(o) && Unused(o, NON_CONFORM_DEFAULTS) && Separable(o) && Unused(o, name) && name != NON_CONFORM_DEFAULTS
    ensures Apart(Separated(o)) && Unused(Separated(o), name)
  {
    var o' := Separated(o);
    SeparateExtends(o);
    forall a | a in All(o')
      ensures name !in Members(All(o')[a].defaults)
    {
      ExtendedModule(o, o', NON_CONFORM_DEFAULTS, a);
      if a in o.generated {
        SeparatedOwn(o.generated[a], Arm);
        assert name !in Members(All(o)[a].defaults);
      } else if a in o.fixed {
        assert name !in Members(All(o)[a].defaults);
      }
    }
  }

  lemma NamesDiffer()
    ensures AUTO_DEFAULTS != NON_CONFORM_DEFAULTS
  {
    assert |AUTO_DEFAULTS| != |NON_CONFORM_DEFAULTS|;
  }

  /**
    What the compiler sees in the end, for any libraries that inherit from each other and from modules
    written by hand.  Where some flag is common to all ABIs of a library, or of one it inherits from,
    it is compiled with what was described and with the flags that the ABI's targets share; any other
    library is compiled without the latter, unless a module written by hand gives them.
   */
  lemma FlagsEndToEnd(builds: Builds, o: Output, ts: seq<Target>, auto: Target, a: string, abi: Abi, v: string)
    requires Prepared(builds, o)
    requires Compared(Separated(o), ts) && IsAuto(auto, CommonFlags(ts)) && a in All(o)
    ensures var c := CommonFlags(ts);
            Compiled(All(Hoisted(Separated(o), c, auto)), a, abi, v) <==>
            if SharesAbove(builds, o, a) then Described(builds, o, a, abi, v) || v in ArchCommon(c, abi)
            else ByHand(o, a, abi, v) || (Described(builds, o, a, abi, v) && v !in ArchCommon(c, abi))
  {
    GeneratesSeparable(builds, o);
    NamesDiffer();
    SeparatedUnused(o, AUTO_DEFAULTS);
    SeparateExtends(o);
    ExtendedModule(o, Separated(o), NON_CONFORM_DEFAULTS, a);
    HoistExact(Separated(o), ts, auto, a, abi, v);
    SeparatedInheritsFlags(o, a);
    SharesAboveIff(builds, o, a);
    NonConformantKept(o, a, abi, v);
    DescribedIff(builds, o, a, abi, v);
    if !InheritsFlags(o, a) {
      SeparatedByHand(o, a, abi, v);
    }
  }

  /** A library without a flag for all ABIs is not changed by the separation, and keeps its flags apart. */
  lemma NoSharedFlag(bps: Build, abi: Abi, v: string)
    requires Library(bps) && !SharesFlag(bps) && v in Flags(bps, abi)
    ensures var t := FromMerged(MergedBlueprint(bps));
            SeparateNonConformant(t) == t && ArchFlags(t, abi).Some? && v in ArchFlags(t, abi).value
  {
    MergedSharesFlag(bps);
    MergedFlags(bps, abi);
  }

  lemma DescribedItself(builds: Builds, o: Output, a: string, abi: Abi, v: string)
    requires Generates(builds, o) && a in builds && v in Flags(builds[a], abi)
    ensures Described(builds, o, a, abi, v)
  {
    assert Leads(All(o), a, [], a) && Inherits(All(o), a, a);
    assert v in Intended(builds, o, a, abi);
  }

  /** What is lost: a library alone in its build, whose flags all belong to single ABIs, loses every one of them. */
  lemma LoneLibraryLoses(builds: Builds, o: Output, auto: Target, a: string, abi: Abi, v: string)
    requires Prepared(builds, o)
    requires builds.Keys == {a} && !SharesFlag(builds[a]) && v in Flags(builds[a], abi) && !ByHand(o, a, abi, v)
    requires IsAuto(auto, CommonFlags([o.generated[a]]))
    ensures Described(builds, o, a, abi, v)
    ensures !Compiled(All(Hoisted(Separated(o), CommonFlags([o.generated[a]]), auto)), a, abi, v)
  {
    var t := o.generated[a];
    NoSharedFlag(builds[a], abi, v);
    DescribedItself(builds, o, a, abi, v);
    LoneCommon(t, abi);
    LoneCompared(o, a);
    LoneNotShared(builds, o, a);
    FlagsEndToEnd(builds, o, [t], auto, a, abi, v);
  }

  lemma LoneNotShared(builds: Builds, o: Output, a: string)
    requires builds.Keys == {a} && !SharesFlag(builds[a])
    ensures !SharesAbove(builds, o, a)
  {
  }

  lemma LoneCompared(o: Output, a: string)
    requires Apart(o) && Unused(o, NON_CONFORM_DEFAULTS) && o.generated.Keys == {a}
    requires SeparateNonConformant(o.generated[a]) == o.generated[a]
    ensures Compared(Separated(o), [o.generated[a]])
  {
    var s := Separated(o);
    forall n | n in s.generated
      ensures n !in s.fixed && s.generated[n] in [o.generated[a]]
    {
      assert n == a && n in All(o);
    }
  }

  lemma LoneCommon(t: Target, abi: Abi)
    requires ArchFlags(t, abi).Some?
    ensures ArchCommon(CommonFlags([t]), abi) == SetOf(ArchFlags(t, abi).value)
  {
    AllAbis(abi);
    assert [t][..0] == [];
    assert ArchFlagSets([t], abi) == [SetOf(ArchFlags(t, abi).value)];
  }

  function OneLibrary(flags: seq<string>, base: string): BlueprintMerge.Blueprint {
    [Property(CFLAGS, ListValue(flags)), Property(DEFAULTS, ListValue([base]))]
  }

  lemma OneLibraryItems(flags: seq<string>, base: string)
    ensures var bp := OneLibrary(flags, base);
            IsDictionary(bp) && Items(bp, CFLAGS) == flags && Items(bp, DEFAULTS) == [base]
  {
    KeysDiffer();
    var bp := OneLibrary(flags, base);
    assert bp[..1] == [bp[0]];
  }

  /** One library with one flag, on one ABI only. */
  function LoneBlueprint(a: Abi, flag: string, base: string): BlueprintMerge.Blueprint {
    OneLibrary(if a == Arm then [flag] else [], base)
  }

  function LoneBuild(flag: string, base: string): Build {
    map a: Abi :: LoneBlueprint(a, flag, base)
  }

  lemma LoneBlueprintItems(a: Abi, flag: string, base: string)
    ensures var bp := LoneBlueprint(a, flag, base);
            && IsDictionary(bp) && (forall p :: p in bp ==> p.value.ListValue?)
            && Items(bp, CFLAGS) == (if a == Arm then [flag] else []) && Items(bp, DEFAULTS) == [base]
  {
    OneLibraryItems(if a == Arm then [flag] else [], base);
  }

  lemma LoneBuildIsLibrary(flag: string, base: string)
    ensures Library(LoneBuild(flag, base))
    ensures forall a: Abi :: Items(LoneBuild(flag, base)[a], DEFAULTS) == [base]
    ensures forall a: Abi :: Items(LoneBuild(flag, base)[a], CFLAGS) == if a == Arm then [flag] else []
  {
    forall a: Abi
      ensures var bp := LoneBuild(flag, base)[a];
              && IsDictionary(bp) && (forall p :: p in bp ==> p.value.ListValue?)
              && Items(bp, CFLAGS) == (if a == Arm then [flag] else []) && Items(bp, DEFAULTS) == [base]
    {
      LoneBlueprintItems(a, flag, base);
    }
  }

  lemma LoneBuildShares(flag: string, base: string)
    ensures Library(LoneBuild(flag, base)) && !SharesFlag(LoneBuild(flag, base))
    ensures flag in Flags(LoneBuild(flag, base), Arm)
  {
    LoneBuildIsLibrary(flag, base);
    AllAbis(Arm64);
  }

  function LoneOutput(lib: string, base: string, t: Target): Output {
    Output(map[base := Target(None, None, None)], map[lib := t])
  }

  lemma LoneUnused(lib: string, base: string, t: Target, name: string)
    requires name != lib && name != base && name !in Members(t.defaults)
    ensures Unused(LoneOutput(lib, base, t), name)
  {
    var o := LoneOutput(lib, base, t);
    forall a | a in All(o)
      ensures name !in Members(All(o)[a].defaults)
    {
      assert All(o)[a] == if a == lib then t else Target(None, None, None);
    }
  }

  lemma LoneByHand(lib: string, base: string, t: Target, abi: Abi, v: string)
    ensures !ByHand(LoneOutput(lib, base, t), lib, abi, v)
  {
    assert OwnFlags(Target(None, None, None), abi) == {};
  }

  lemma LoneReady(lib: string, base: string, flag: string, t: Target, name: string)
    requires name != lib && name != base && t == FromMerged(MergedBlueprint(LoneBuild(flag, base)))
    ensures Unused(LoneOutput(lib, base, t), name)
  {
    LoneBuildIsLibrary(flag, base);
    LostDefaults(LoneBuild(flag, base), base, name);
    LoneUnused(lib, base, t, name);
  }

  lemma LonePrepared(lib: string, base: string, flag: string, t: Target)
    requires lib != base && {lib, base} !! {AUTO_DEFAULTS, NON_CONFORM_DEFAULTS}
    requires t == FromMerged(MergedBlueprint(LoneBuild(flag, base)))
    ensures Prepared(map[lib := LoneBuild(flag, base)], LoneOutput(lib, base, t))
  {
    LoneBuildIsLibrary(flag, base);
    LoneReady(lib, base, flag, t, AUTO_DEFAULTS);
    LoneReady(lib, base, flag, t, NON_CONFORM_DEFAULTS);
  }

  lemma LonePieces(lib: string, base: string, flag: string, t: Target, builds: Builds, o: Output)
    requires builds == map[lib := LoneBuild(flag, base)] && o == LoneOutput(lib, base, t)
    ensures builds.Keys == {lib} && o.generated.Keys == {lib} && o.generated[lib] == t
    ensures builds[lib] == LoneBuild(flag, base)
  {
  }

  /** Such a build, and what becomes of the flag. */
  lemma LostFlag(lib: string, base: string, flag: string, t: Target, auto: Target, builds: Builds, o: Output)
    requires lib != base && {lib, base} !! {AUTO_DEFAULTS, NON_CONFORM_DEFAULTS}
    requires t == FromMerged(MergedBlueprint(LoneBuild(flag, base))) && IsAuto(auto, CommonFlags([t]))
    requires builds == map[lib := LoneBuild(flag, base)] && o == LoneOutput(lib, base, t)
    ensures Prepared(builds, o) && Described(builds, o, lib, Arm, flag)
    ensures !Compiled(All(Hoisted(Separated(o), CommonFlags([t]), auto)), lib, Arm, flag)
  {
    LonePrepared(lib, base, flag, t);
    LonePieces(lib, base, flag, t, builds, o);
    LoneBuildShares(flag, base);
    LoneByHand(lib, base, t, Arm, flag);
    LoneLibraryLoses(builds, o, auto, lib, Arm, flag);
  }

  lemma LostDefaults(bps: Build, base: string, name: string)
    requires Library(bps) && name != base && forall a: Abi :: Items(bps[a], DEFAULTS) == [base]
    ensures name !in Members(FromMerged(MergedBlueprint(bps)).defaults)
  {
    MergeDefaults(bps, Arm, name);
  }
}
