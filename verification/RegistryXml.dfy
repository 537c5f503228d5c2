/**
  The registry object: commands of features are added one feature at a time, commands of extensions
  all at once, in the order of the extensions' names.
 */
module RegistryXml {
  import opened Prelude
  import opened CommandRegistry
  import opened StringOrder

  datatype Require = Require(hasApi: bool, api: string, commands: seq<string>)

  datatype Extension = Extension(name: string, annotation: string, blocks: seq<Require>)

  /** The sources and, for each command, the definers noted so far. */
  ghost predicate SourcesOf(sources: Table, history: seq<Source>) {
    && (forall cmd :: cmd in sources <==> cmd in Known(history))
    && (forall cmd :: cmd in sources ==> sources[cmd] == Definers(history, cmd))
  }

  function Get(table: Table, k: string): seq<string> {
    if k in table then table[k] else []
  }

  lemma {:induction false} TimesNone(origin: string, names: seq<string>, cmd: string)
    requires cmd !in names
    ensures Times(origin, names, cmd) == []
  {
    if names != [] {
      TimesNone(origin, names[..|names| - 1], cmd);
    }
  }

  lemma {:induction false} DefinersNone(history: seq<Source>, cmd: string)
    requires cmd !in Known(history)
    ensures Definers(history, cmd) == []
  {
    if history != [] {
      DefinersNone(history[..|history| - 1], cmd);
      TimesNone(history[|history| - 1].origin, history[|history| - 1].names, cmd);
    }
  }

  lemma KnownStep(history: seq<Source>, s: Source)
    ensures Known(history + [s]) == Known(history) + SetOf(s.names)
    ensures forall cmd :: Definers(history + [s], cmd) == Definers(history, cmd) + Times(s.origin, s.names, cmd)
    ensures forall k :: Registered(history + [s], k)
              == Registered(history, k) + if s.key == k then Drop(s.names, Known(history)) else []
  {
    assert (history + [s])[..|history|] == history;
  }

  /** The definers after noting one more source. */
  function Noted(sources: Table, origin: string, names: seq<string>): Table {
    if names == [] then sources
    else
      var before, last := Noted(sources, origin, names[..|names| - 1]), names[|names| - 1];
      before[last := Get(before, last) + [origin]]
  }

  lemma {:induction false} NotedIs(sources: Table, origin: string, names: seq<string>, cmd: string)
    ensures cmd in Noted(sources, origin, names) <==> cmd in sources || cmd in names
    ensures Get(Noted(sources, origin, names), cmd) == Get(sources, cmd) + Times(origin, names, cmd)
  {
    if names != [] {
      var shorter, last := names[..|names| - 1], names[|names| - 1];
      assert names == shorter + [last];
      NotedIs(sources, origin, shorter, cmd);
    }
  }

  lemma SourcesStep(sources: Table, history: seq<Source>, s: Source)
    requires SourcesOf(sources, history)
    ensures SourcesOf(Noted(sources, s.origin, s.names), history + [s])
  {
    KnownStep(history, s);
    var after := Noted(sources, s.origin, s.names);
    forall cmd ensures cmd in after <==> cmd in Known(history + [s]) {
      NotedIs(sources, s.origin, s.names, cmd);
    }
    forall cmd | cmd in after ensures after[cmd] == Definers(history + [s], cmd) {
      NotedIs(sources, s.origin, s.names, cmd);
      if cmd !in sources {
        DefinersNone(history, cmd);
      }
    }
  }

  /** What the last source owns. */
  lemma OwnedLast(history: seq<Source>, s: Source)
    ensures Owned(history + [s], |history|) == Drop(s.names, Known(history))
  {
    assert (history + [s])[..|history|] == history;
  }

  lemma KeysStep(table: Table, history: seq<Source>, s: Source, k: string)
    requires TableOf(table, history)
    ensures k in table || k == s.key <==> exists i :: 0 <= i < |history + [s]| && (history + [s])[i].key == k
  {
    var longer := history + [s];
    if k in table {
      var i :| 0 <= i < |history| && history[i].key == k;
      assert longer[i].key == k;
    }
    if k == s.key {
      assert longer[|history|].key == k;
    }
  }

  lemma ValueStep(table: Table, history: seq<Source>, s: Source, k: string)
    requires TableOf(table, history)
    ensures Registered(history + [s], k) ==
            (if k in table then table[k] else []) + if k == s.key then Drop(s.names, Known(history)) else []
  {
    assert (history + [s])[..|history|] == history;
    if k !in table {
      RegisteredNone(history, k);
    }
  }

  lemma TableStep(table: Table, history: seq<Source>, s: Source)
    requires TableOf(table, history)
    ensures TableOf(table[s.key := Get(table, s.key) + Drop(s.names, Known(history))], history + [s])
  {
    var longer, after := history + [s], table[s.key := Get(table, s.key) + Drop(s.names, Known(history))];
    forall k
      ensures k in after <==> exists i :: 0 <= i < |longer| && longer[i].key == k
    {
      KeysStep(table, history, s, k);
    }
    forall k | k in after
      ensures after[k] == Registered(longer, k)
    {
      ValueStep(table, history, s, k);
    }
  }

  lemma {:induction false} RegisteredNone(history: seq<Source>, k: string)
    requires forall i :: 0 <= i < |history| ==> history[i].key != k
    ensures Registered(history, k) == []
  {
    if history != [] {
      RegisteredNone(history[..|history| - 1], k);
    }
  }

  // ----- the lists of the extensions

  predicate Applies(r: Require, apis: set<string>) {
    r.hasApi ==> r.api in apis
  }

  function Listed(rs: seq<Require>, apis: set<string>, skipped: set<string>): seq<string> {
    if rs == [] then []
    else Listed(rs[..|rs| - 1], apis, skipped)
         + if Applies(rs[|rs| - 1], apis) then Drop(rs[|rs| - 1].commands, skipped) else []
  }

  /** What the supported extensions list, sorted; a later one of the same name replaces an earlier one. */
  function ExtensionLists(exts: seq<Extension>, supported: set<string>, apis: set<string>, skipped: set<string>): Table {
    if exts == [] then map[]
    else
      var last, before := exts[|exts| - 1], ExtensionLists(exts[..|exts| - 1], supported, apis, skipped);
      if last.name in supported then before[last.name := SortList(Listed(last.blocks, apis, skipped))] else before
  }

  function Annotations(exts: seq<Extension>, supported: set<string>): map<string, string> {
    if exts == [] then map[]
    else
      var last, before := exts[|exts| - 1], Annotations(exts[..|exts| - 1], supported);
      if last.name in supported then before[last.name := last.annotation] else before
  }

  lemma {:induction false} SameKeys(exts: seq<Extension>, supported: set<string>, apis: set<string>, skipped: set<string>)
    ensures ExtensionLists(exts, supported, apis, skipped).Keys == Annotations(exts, supported).Keys
    ensures forall e :: e in ExtensionLists(exts, supported, apis, skipped) ==> Rising(ExtensionLists(exts, supported, apis, skipped)[e])
  {
    if exts != [] {
      SameKeys(exts[..|exts| - 1], supported, apis, skipped);
      SortListRising(Listed(exts[|exts| - 1].blocks, apis, skipped));
    }
  }

  lemma {:induction false} RisingBelow(s: seq<string>, j: nat)
    requires Rising(s) && j < |s|
    ensures AtMost(s[0], s[j])
  {
    if j == 0 {
      Total(s[0], s[0]);
    } else {
      RisingBelow(s, j - 1);
      Transitive(s[0], s[j - 1], s[j]);
    }
  }

  lemma {:induction false} DropRising(s: seq<string>, known: set<string>)
    requires Rising(s)
    ensures Rising(Drop(s, known))
  {
    if s != [] {
      var rest := s[1..];
      assert forall i :: 0 < i < |rest| ==> rest[i - 1] == s[i] && rest[i] == s[i + 1];
      DropRising(rest, known);
      var d := Drop(rest, known);
      if d != [] {
        DropHolds(rest, known, d[0]);
        var j :| 0 <= j < |rest| && rest[j] == d[0];
        RisingBelow(s, j + 1);
      }
    }
  }

  // ----- the object

  /** Removing the duplicates from a sorted list, in place in the original, keeps it sorted. */
  method SplitNew(names: seq<string>, all: seq<string>) returns (dupes: seq<string>, left: seq<string>)
    requires Rising(names)
    ensures dupes == Keep(names, SetOf(all)) && left == Drop(names, SetOf(all)) && SortList(left) == left
  {
    dupes := FindDupes(names, all, SetOf(all));
    left := RemoveAll(names, dupes);
    RemoveKept([], names, SetOf(all));
    assert [] + names == names && left == Drop(names, SetOf(all));
    DropRising(names, SetOf(all));
    SortListSame(left);
  }

  /** The `n`th extension of `order`, added after `base`. */
  ghost predicate AddedAt(base: seq<Source>, history: seq<Source>, e: string, lists: Table,
                          annotations: map<string, string>, data: Table, dupes: Table, n: nat)
  {
    && |base| + n < |history| && e in lists && e in annotations && e in data && e in dupes
    && history[|base| + n] == Source(e, annotations[e], lists[e])
    && data[e] == Owned(history, |base| + n)
    && dupes[e] == Keep(lists[e], Known(history[..|base| + n]))
  }

  ghost predicate Added(base: seq<Source>, history: seq<Source>, order: seq<string>, lists: Table,
                        annotations: map<string, string>, data: Table, dupes: Table, n: nat)
    requires n <= |order|
  {
    && |history| == |base| + n && base <= history
    && forall j :: 0 <= j < n ==> AddedAt(base, history, order[j], lists, annotations, data, dupes, j)
  }

  /** An extension that was added stays as it is when another one is. */
  lemma AddedStays(base: seq<Source>, history: seq<Source>, s: Source, e: string, lists: Table,
                   annotations: map<string, string>, data: Table, dupes: Table, data': Table, dupes': Table, j: nat)
    requires AddedAt(base, history, e, lists, annotations, data, dupes, j)
    requires e in data' && data'[e] == data[e] && e in dupes' && dupes'[e] == dupes[e]
    ensures AddedAt(base, history + [s], e, lists, annotations, data', dupes', j)
  {
    assert (history + [s])[..|base| + j] == history[..|base| + j];
  }

  lemma AddedStep(base: seq<Source>, history: seq<Source>, order: seq<string>, lists: Table,
                  annotations: map<string, string>, data: Table, dupes: Table, n: nat)
    requires n < |order| && Added(base, history, order, lists, annotations, data, dupes, n)
    requires NoDup(order) && order[n] in lists && order[n] in annotations
    ensures var longer := history + [Source(order[n], annotations[order[n]], lists[order[n]])];
            Added(base, longer, order, lists, annotations,
                  data[order[n] := Owned(longer, |history|)], dupes[order[n] := Keep(lists[order[n]], Known(history))], n + 1)
  {
    var s := Source(order[n], annotations[order[n]], lists[order[n]]);
    var longer := history + [s];
    var after, dupesAfter := data[order[n] := Owned(longer, |history|)], dupes[order[n] := Keep(lists[order[n]], Known(history))];
    forall j | 0 <= j < n ensures AddedAt(base, longer, order[j], lists, annotations, after, dupesAfter, j) {
      assert AddedAt(base, history, order[j], lists, annotations, data, dupes, j) && order[j] != order[n];
      AddedStays(base, history, s, order[j], lists, annotations, data, dupes, after, dupesAfter, j);
    }
    AddedLast(base, history, order[n], lists, annotations, after, dupesAfter, n);
  }

  /** The extension that was added last. */
  lemma AddedLast(base: seq<Source>, history: seq<Source>, e: string, lists: Table,
                  annotations: map<string, string>, data: Table, dupes: Table, n: nat)
    requires |history| == |base| + n && e in lists && e in annotations && e in data && e in dupes
    requires data[e] == Owned(history + [Source(e, annotations[e], lists[e])], |history|)
    requires dupes[e] == Keep(lists[e], Known(history))
    ensures AddedAt(base, history + [Source(e, annotations[e], lists[e])], e, lists, annotations, data, dupes, n)
  {
    assert (history + [Source(e, annotations[e], lists[e])])[..|history|] == history;
  }

  lemma AddedCovers(base: seq<Source>, history: seq<Source>, order: seq<string>, lists: Table,
                    annotations: map<string, string>, data: Table, dupes: Table)
    requires Added(base, history, order, lists, annotations, data, dupes, |order|) && SetOf(order) == data.Keys
    ensures data.Keys <= dupes.Keys
  {
    forall e | e in data ensures e in dupes {
      var j :| 0 <= j < |order| && order[j] == e;
      assert AddedAt(base, history, order[j], lists, annotations, data, dupes, j);
    }
  }

  /** Complete, without duplicates unless a source lists a new command twice, and in the order of the keys. */
  ghost predicate AllOf(table: Table, history: seq<Source>, all: seq<string>) {
    && (forall cmd :: cmd in all <==> cmd in Known(history))
    && (NoDup(all) <==> OwnedOnce(history))
    && exists keys :: Lists(Same, keys, table.Keys) && all == Concat(table, keys)
  }

  lemma ConcatNext(table: Table, keys: seq<string>, i: nat)
    requires i < |keys| && forall k :: k in keys ==> k in table
    ensures Concat(table, keys[..i + 1]) == Concat(table, keys[..i]) + table[keys[i]]
  {
    assert keys[..i + 1][..i] == keys[..i];
  }

  lemma ConcatIsAll(table: Table, history: seq<Source>, keys: seq<string>)
    requires TableOf(table, history) && Lists(Same, keys, table.Keys)
    ensures AllOf(table, history, Concat(table, keys))
  {
    forall cmd ensures cmd in Concat(table, keys) <==> cmd in Known(history) {
      AllComplete(table, history, keys, cmd);
    }
    AllNoDup(table, history, keys);
  }

  class Registry {
    var commandNames: Table
    var commands: Table
    var extData: Table
    var extDupes: Table
    var sources: Table

    ghost var history: seq<Source>

    ghost predicate Valid()
      reads this
    {
      TableOf(commandNames, history) && SourcesOf(sources, history)
    }

    constructor ()
      ensures Valid() && history == [] && commands == map[]
    {
      commandNames, commands, extData, extDupes, sources := map[], map[], map[], map[], map[];
      history := [];
    }

    ghost predicate IsAll(all: seq<string>)
      reads this
    {
      AllOf(commandNames, history, all)
    }

    /** All the commands: complete, and without duplicates unless a source lists a new one twice. */
    method GetAllCommands() returns (all: seq<string>)
      requires Valid()
      ensures IsAll(all)
    {
      var keys := Sorted(Same, commandNames.Keys);
      all := [];
      var i := 0;
      while i < |keys|
        invariant 0 <= i <= |keys|
        invariant all == Concat(commandNames, keys[..i])
      {
        ConcatNext(commandNames, keys, i);
        all := all + commandNames[keys[i]];
        i := i + 1;
      }
      assert keys[..i] == keys;
      ConcatIsAll(commandNames, history, keys);
    }

    method NoteSources(origin: string, names: seq<string>)
      modifies this`sources
      ensures sources == Noted(old(sources), origin, names)
    {
      var i := 0;
      while i < |names|
        invariant 0 <= i <= |names|
        invariant sources == Noted(old(sources), origin, names[..i])
      {
        assert names[..i + 1][..i] == names[..i];
        sources := sources[names[i] := Get(sources, names[i]) + [origin]];
        i := i + 1;
      }
      assert names[..i] == names;
    }

    /** Registers the new commands of the next source. */
    method Register(ghost s: Source, key: string, cmds: seq<string>)
      requires TableOf(commandNames, history) && SourcesOf(sources, history + [s])
      requires s.key == key && cmds == Drop(s.names, Known(history))
      modifies this`commandNames, this`history
      ensures Valid() && history == old(history) + [s]
    {
      if key !in commandNames {
        commandNames := commandNames[key := Get(commandNames, key) + cmds];
      } else {
        commandNames := commandNames[key := commandNames[key] + cmds];
      }
      TableStep(old(commandNames), history, s);
      history := history + [s];
    }

    method AddCommands(names: seq<string>, annotation: string)
      requires Valid()
      modifies this`commandNames, this`commands, this`sources, this`history
      ensures Valid() && history == old(history) + [Source(annotation, annotation, names)]
      ensures commands == old(commands)[annotation := Owned(history, |history| - 1)]
    {
      ghost var s := Source(annotation, annotation, names);
      var current := GetAllCommands();
      NoteSources(annotation, names);
      SourcesStep(old(sources), history, s);
      var cmds := Drop(names, SetOf(current));
      assert SetOf(current) == Known(history);
      OwnedLast(history, s);
      Register(s, annotation, cmds);
      commands := commands[annotation := cmds];
    }

    /** The registered commands of a list, and the new ones. */
    method SplitExtension(names: seq<string>) returns (dupes: seq<string>, left: seq<string>)
      requires Valid() && Rising(names)
      ensures dupes == Keep(names, Known(history)) && left == Drop(names, Known(history)) && SortList(left) == left
    {
      var all := GetAllCommands();
      assert SetOf(all) == Known(history);
      dupes, left := SplitNew(names, all);
    }

    /** One extension: its list is split into new commands and duplicates. */
    method AddExtension(name: string, key: string, names: seq<string>)
      requires Valid() && Rising(names)
      modifies this`commandNames, this`sources, this`history, this`extData, this`extDupes
      ensures Valid() && history == old(history) + [Source(name, key, names)]
      ensures extData == old(extData)[name := Owned(history, |history| - 1)]
      ensures extDupes == old(extDupes)[name := Keep(names, Known(old(history)))]
    {
      ghost var s := Source(name, key, names);
      var dupes, left := SplitExtension(names);
      NoteSources(name, names);
      SourcesStep(old(sources), history, s);
      extData, extDupes := extData[name := SortList(left)], extDupes[name := dupes];
      OwnedLast(history, s);
      Register(s, key, left);
    }

    /** The first pass: the sorted lists of the supported extensions. */
    method ListExtensions(exts: seq<Extension>, supported: set<string>, apis: set<string>, skipped: set<string>)
      returns (annotations: map<string, string>)
      modifies this`extData, this`extDupes
      ensures extData == ExtensionLists(exts, supported, apis, skipped) && extDupes == map[]
      ensures annotations == Annotations(exts, supported)
    {
      extData, extDupes, annotations := map[], map[], map[];
      var i := 0;
      while i < |exts|
        invariant 0 <= i <= |exts|
        invariant extData == ExtensionLists(exts[..i], supported, apis, skipped) && extDupes == map[]
        invariant annotations == Annotations(exts[..i], supported)
      {
        assert exts[..i + 1][..i] == exts[..i];
        var e := exts[i];
        if e.name in supported {
          annotations := annotations[e.name := e.annotation];
          var names := ListCommands(e.blocks, apis, skipped);
          extData := extData[e.name := SortList(names)];
        }
        i := i + 1;
      }
      assert exts[..i] == exts;
    }

    method AddExtensionCommands(exts: seq<Extension>, supported: set<string>, apis: set<string>, skipped: set<string>)
      returns (ghost order: seq<string>)
      requires Valid()
      modifies this`commandNames, this`sources, this`history, this`extData, this`extDupes
      ensures Valid()
      ensures var lists := ExtensionLists(exts, supported, apis, skipped);
              && lists.Keys == Annotations(exts, supported).Keys
              && Lists(Same, order, lists.Keys)
              && extData.Keys == extDupes.Keys == lists.Keys
              && Added(old(history), history, order, lists, Annotations(exts, supported), extData, extDupes, |order|)
    {
      var annotations := ListExtensions(exts, supported, apis, skipped);
      SameKeys(exts, supported, apis, skipped);
      var keys := Sorted(Same, extData.Keys);
      AddSorted(keys, annotations);
      order := keys;
    }

    /** The second pass, over the names in order. */
    method AddSorted(keys: seq<string>, annotations: map<string, string>)
      requires Valid() && extDupes == map[] && NoDup(keys) && SetOf(keys) == extData.Keys == annotations.Keys
      requires forall e :: e in extData ==> Rising(extData[e])
      modifies this`commandNames, this`sources, this`history, this`extData, this`extDupes
      ensures Valid() && extData.Keys == extDupes.Keys == old(extData).Keys
      ensures Added(old(history), history, keys, old(extData), annotations, extData, extDupes, |keys|)
    {
      var i := 0;
      while i < |keys|
        invariant 0 <= i <= |keys|
        invariant Valid()
        invariant Added(old(history), history, keys, old(extData), annotations, extData, extDupes, i)
        invariant extDupes.Keys <= extData.Keys == old(extData).Keys
        invariant forall j :: i <= j < |keys| ==> extData[keys[j]] == old(extData)[keys[j]]
      {
        AddedStep(old(history), history, keys, old(extData), annotations, extData, extDupes, i);
        AddExtension(keys[i], annotations[keys[i]], extData[keys[i]]);
        i := i + 1;
      }
      AddedCovers(old(history), history, keys, old(extData), annotations, extData, extDupes);
    }
  }

  method ListCommands(blocks: seq<Require>, apis: set<string>, skipped: set<string>) returns (names: seq<string>)
    ensures names == Listed(blocks, apis, skipped)
  {
    names := [];
    var i := 0;
    while i < |blocks|
      invariant 0 <= i <= |blocks|
      invariant names == Listed(blocks[..i], apis, skipped)
    {
      assert blocks[..i + 1][..i] == blocks[..i];
      if Applies(blocks[i], apis) {
        names := names + Drop(blocks[i].commands, skipped);
      }
      i := i + 1;
    }
    assert blocks[..i] == blocks;
  }

  /** The new commands and the duplicates of an extension partition its list. */
  lemma ExtensionPartition(names: seq<string>, known: set<string>)
    ensures multiset(Drop(names, known)) + multiset(Keep(names, known)) == multiset(names)
    ensures forall x :: x in Drop(names, known) ==> x !in Keep(names, known)
  {
    KeepDrop(names, known);
    forall x | x in Drop(names, known) ensures x !in Keep(names, known) {
      DropHolds(names, known, x);
      KeepHolds(names, known, x);
    }
  }

  datatype Feature = Feature(annotation: string, names: seq<string>)

  function FeatureSources(features: seq<Feature>): seq<Source> {
    seq(|features|, i requires 0 <= i < |features| => Source(features[i].annotation, features[i].annotation, features[i].names))
  }

  /** The table of the features: each with the commands it is the first to define. */
  function FeatureTable(features: seq<Feature>): Table {
    if features == [] then map[]
    else
      var n := |features| - 1;
      FeatureTable(features[..n])[features[n].annotation := Owned(FeatureSources(features), n)]
  }

  /** A feature keeps its entry unless a later one has the same name. */
  lemma {:induction false} FeatureTableIs(features: seq<Feature>, i: nat)
    requires i < |features| && forall j :: i < j < |features| ==> features[j].annotation != features[i].annotation
    ensures features[i].annotation in FeatureTable(features)
    ensures FeatureTable(features)[features[i].annotation] == Owned(FeatureSources(features), i)
  {
    var n := |features| - 1;
    if i < n {
      FeatureTableIs(features[..n], i);
      assert FeatureSources(features)[..i] == FeatureSources(features[..n])[..i];
    }
  }

  lemma FeatureNext(features: seq<Feature>, i: nat)
    requires i < |features|
    ensures var before, after := features[..i], features[..i + 1];
            && FeatureSources(after) == FeatureSources(before) + [Source(features[i].annotation, features[i].annotation, features[i].names)]
            && FeatureTable(after) == FeatureTable(before)[features[i].annotation := Owned(FeatureSources(after), i)]
  {
    assert features[..i + 1][..i] == features[..i];
  }

  method AddFeatures(features: seq<Feature>) returns (r: Registry)
    ensures fresh(r) && r.Valid()
    ensures r.history == FeatureSources(features) && r.commands == FeatureTable(features)
  {
    r := new Registry();
    for i := 0 to |features|
      invariant fresh(r) && r.Valid()
      invariant r.history == FeatureSources(features[..i]) && r.commands == FeatureTable(features[..i])
    {
      FeatureNext(features, i);
      r.AddCommands(features[i].names, features[i].annotation);
    }
    assert features[..|features|] == features;
  }

  /** A whole build: features in the order they are added, then the extensions in the order of their names. */
  method Build(features: seq<Feature>, exts: seq<Extension>, supported: set<string>, apis: set<string>, skipped: set<string>)
    returns (r: Registry, all: seq<string>, ghost order: seq<string>)
    ensures r.Valid() && r.IsAll(all)
    ensures Lists(Same, order, ExtensionLists(exts, supported, apis, skipped).Keys)
    ensures Added(FeatureSources(features), r.history, order, ExtensionLists(exts, supported, apis, skipped),
                  Annotations(exts, supported), r.extData, r.extDupes, |order|)
    ensures r.commands == FeatureTable(features)
  {
    r := AddFeatures(features);
    order := r.AddExtensionCommands(exts, supported, apis, skipped);
    all := r.GetAllCommands();
  }
}
