/**
  What a passing verification says about the generated files, over every history of edits and runs, with
  lists of inputs and outputs that may change in between.
 */
module CodeGenerationSound {
  import opened Prelude
  import opened CodeGeneration
  import opened CodeGenerationRuns

  // ----- what the hash store means

  ghost predicate Injective(tools: Tools) {
    forall a, b :: tools.hash(a) == tools.hash(b) ==> a == b
  }

  /** The outputs the script lists now are what it would produce now, formatted. */
  predicate UpToDate(tools: Tools, row: Row, tree: Tree) {
    var g := Ask(tools, row, tree);
    g.listed && Produced(tools, g, tools.produce(row.name, View(g, tree)), tree)
  }

  /** The script may list the file as an output. */
  ghost predicate IsOutput(tools: Tools, row: Row, f: Path) {
    exists t: Tree :: f in Ask(tools, row, t).outputs
  }

  /** No script lists a file now as an output and now as a source. */
  ghost predicate Separated(tools: Tools, rows: seq<Row>) {
    forall row, t: Tree, f :: row in rows && f in Sources(Ask(tools, row, t)) ==> !IsOutput(tools, row, f)
  }

  /** Every stored name is still listed, unless it is one of an output. */
  ghost predicate SourcesKept(tools: Tools, row: Row, hashes: Hashes, g: Generator) {
    forall f :: f in hashes ==> f in Files(g) || IsOutput(tools, row, f)
  }

  /** Any file tree that matches these hashes, with no source gone from the lists, is up to date. */
  ghost predicate Sound(tools: Tools, row: Row, hashes: Hashes) {
    forall tree: Tree :: Matching(tools, row, hashes, tree) && SourcesKept(tools, row, hashes, Ask(tools, row, tree))
      ==> UpToDate(tools, row, tree)
  }

  predicate Matching(tools: Tools, row: Row, hashes: Hashes, tree: Tree) {
    var g := Ask(tools, row, tree);
    g.listed && Clean(tools, Files(g), tree, hashes)
  }

  ghost predicate StoreSound(tools: Tools, rows: seq<Row>, store: Store) {
    forall row :: row in rows ==> Sound(tools, row, HashesFor(store, row))
  }

  // ----- soundness: every hash entry a run writes describes an up-to-date tree

  /** Sources that match, of which none has gone, are what was read. */
  lemma SameView(tools: Tools, rows: seq<Row>, row: Row, g: Generator, was: Tree, end: Tree, hashes: Hashes, now: Tree)
    requires Injective(tools) && Separated(tools, rows) && row in rows && g == Ask(tools, row, was)
    requires hashes == HashesOf(tools, Files(g), was) + HashesOf(tools, g.outputs, end)
    requires Matching(tools, row, hashes, now)
    ensures var n := Ask(tools, row, now);
            && Sub(View(n, now), View(g, was))
            && (SourcesKept(tools, row, hashes, n) ==> View(n, now) == View(g, was))
  {
    var n := Ask(tools, row, now);
    forall f | f in Sources(n)
      ensures f in now && f in Sources(g) && f in was && now[f] == was[f]
    {
      assert f in Files(n) && FileClean(tools, f, now, hashes);
      assert !IsOutput(tools, row, f);
    }
    if SourcesKept(tools, row, hashes, n) {
      forall f | f in Sources(g) && f in was
        ensures f in Sources(n)
      {
        assert !IsOutput(tools, row, f) && f in Files(g) && f in hashes;
      }
    }
  }

  ghost predicate Sub(a: Tree, b: Tree) {
    forall f :: f in a ==> f in b && a[f] == b[f]
  }

  /** Outputs that match are those at the end of the run. */
  lemma SameOutput(tools: Tools, rows: seq<Row>, row: Row, g: Generator, was: Tree, end: Tree, hashes: Hashes, now: Tree, o: Path)
    requires Injective(tools) && Separated(tools, rows) && row in rows && g == Ask(tools, row, was)
    requires hashes == HashesOf(tools, Files(g), was) + HashesOf(tools, g.outputs, end)
    requires Matching(tools, row, hashes, now) && o in Ask(tools, row, now).outputs && OutputSet(g) <= end.Keys
    ensures o in now && o in g.outputs && o in end && now[o] == end[o]
  {
    var n := Ask(tools, row, now);
    assert o in Files(n) && FileClean(tools, o, now, hashes);
    assert IsOutput(tools, row, o) && o !in Sources(g);
    assert o in OutputSet(g);
  }

  /** The entry of a generator whose outputs are, at the end, what it makes of what it read. */
  lemma EntryFresh(tools: Tools, rows: seq<Row>, row: Row, g: Generator, was: Tree, end: Tree, hashes: Hashes)
    requires Injective(tools) && Separated(tools, rows) && row in rows && g == Ask(tools, row, was)
    requires Produced(tools, g, tools.produce(row.name, View(g, was)), end) && OutputSet(g) <= end.Keys
    requires hashes == HashesOf(tools, Files(g), was) + HashesOf(tools, g.outputs, end)
    ensures Sound(tools, row, hashes) && Explaining(tools, row, hashes)
  {
    forall now: Tree | Matching(tools, row, hashes, now)
      ensures SourcesKept(tools, row, hashes, Ask(tools, row, now)) ==> UpToDate(tools, row, now)
      ensures Explained(tools, row, now)
    {
      var n := Ask(tools, row, now);
      SameView(tools, rows, row, g, was, end, hashes, now);
      forall o | o in n.outputs
        ensures o in now && o in g.outputs && o in end && now[o] == end[o]
      {
        SameOutput(tools, rows, row, g, was, end, hashes, now, o);
      }
      assert MadeFrom(tools, row, n, now, View(g, was));
    }
  }

  /** The outputs are what the generator made of `view`, which holds its sources as they are now. */
  ghost predicate MadeFrom(tools: Tools, row: Row, g: Generator, tree: Tree, view: Tree) {
    Sub(View(g, tree), view) && Produced(tools, g, tools.produce(row.name, view), tree)
  }

  /** The outputs were made from the sources as they are now, and perhaps others that were listed then. */
  ghost predicate Explained(tools: Tools, row: Row, tree: Tree) {
    var g := Ask(tools, row, tree);
    g.listed && exists view :: MadeFrom(tools, row, g, tree, view)
  }

  ghost predicate Explaining(tools: Tools, row: Row, hashes: Hashes) {
    forall tree: Tree :: Matching(tools, row, hashes, tree) ==> Explained(tools, row, tree)
  }

  /** The lists in front of the run are those at the visit. */
  lemma ListsAtVisit(tools: Tools, rows: seq<Row>, i: nat, tree: Tree, store: Store)
    requires i < |rows| && Steady(tools, AskAll(tools, rows, tree), tree)
    ensures var gens := AskAll(tools, rows, tree);
            Ask(tools, rows[i], Reached(tools, gens, i, store, tree).tree) == gens[i]
  {
    var gens := AskAll(tools, rows, tree);
    SteadyLoop(tools, gens, gens[..i], store, tree, Start(tree));
    SteadyAsk(tools, rows, tree, Reached(tools, gens, i, store, tree).tree);
    assert AskAll(tools, rows, Reached(tools, gens, i, store, tree).tree)[i] == gens[i];
  }

  /** The generator is found clean when its turn comes. */
  predicate CleanAtVisit(tools: Tools, gens: seq<Generator>, i: nat, tree: Tree, store: Store)
    requires i < |gens|
  {
    Clean(tools, Files(gens[i]), Reached(tools, gens, i, store, tree).tree, Stored(store, gens[i]))
  }

  /**
    What a run writes for a generator is sound exactly if the generator ran, or was up to date when it
    was found clean; whatever was stored before.
   */
  lemma EntrySoundIff(tools: Tools, table: seq<Row>, rows: seq<Row>, i: nat, tree: Tree, store: Store)
    requires Injective(tools) && Separated(tools, table) && i < |rows| && rows[i] in table
    requires var gens := AskAll(tools, rows, tree);
             WellFormed(gens) && Steady(tools, gens, tree) && Completes(tools, gens, store, tree)
    ensures var gens := AskAll(tools, rows, tree);
            var current := Written(tools, gens, store, tree);
            && HashFile(rows[i].name) in current
            && (Sound(tools, rows[i], HashesFor(current, rows[i])) <==>
                CleanAtVisit(tools, gens, i, tree, store) ==>
                UpToDate(tools, rows[i], Reached(tools, gens, i, store, tree).tree))
  {
    var gens := AskAll(tools, rows, tree);
    var row, g, was := rows[i], gens[i], Reached(tools, gens, i, store, tree).tree;
    var end, hashes := Ended(tools, gens, store, tree), Stored(Written(tools, gens, store, tree), g);
    HashesWritten(tools, gens, i, tree, store);
    OutputsWritten(tools, gens, i, tree, store);
    ListsAtVisit(tools, rows, i, tree, store);
    if !CleanAtVisit(tools, gens, i, tree, store) {
      EntryFresh(tools, table, row, g, was, end, hashes);
    } else {
      VisitedOnce(tools, gens, i, tree, store);
      CleanEntry(tools, row, g, was, Stored(store, g), end, hashes);
      if UpToDate(tools, row, was) {
        EntryFresh(tools, table, row, g, was, end, hashes);
      }
    }
  }

  /** A generator that is found clean keeps what was stored for the files it lists, and nothing else. */
  lemma CleanEntry(tools: Tools, row: Row, g: Generator, was: Tree, stored: Hashes, end: Tree, hashes: Hashes)
    requires g == Ask(tools, row, was) && g.listed && Clean(tools, Files(g), was, stored)
    requires forall f :: f in g.outputs ==> f in end && f in was && end[f] == was[f]
    requires hashes == HashesOf(tools, Files(g), was) + HashesOf(tools, g.outputs, end)
    ensures forall f :: f in hashes <==> f in Files(g)
    ensures forall f :: f in hashes ==> f in stored && hashes[f] == stored[f]
    ensures Matching(tools, row, hashes, was) && SourcesKept(tools, row, hashes, g)
  {
    forall f | f in Files(g)
      ensures FileClean(tools, f, was, hashes) && f in stored && hashes[f] == stored[f]
    {
      assert FileClean(tools, f, was, stored);
    }
  }

  /** What a run writes explains every matching tree, if what was stored before did. */
  lemma EntryExplains(tools: Tools, table: seq<Row>, rows: seq<Row>, i: nat, tree: Tree, store: Store)
    requires Injective(tools) && Separated(tools, table) && i < |rows| && rows[i] in table
    requires var gens := AskAll(tools, rows, tree);
             WellFormed(gens) && Steady(tools, gens, tree) && Completes(tools, gens, store, tree)
    requires Explaining(tools, rows[i], HashesFor(store, rows[i]))
    ensures Explaining(tools, rows[i], HashesFor(Written(tools, AskAll(tools, rows, tree), store, tree), rows[i]))
  {
    var gens := AskAll(tools, rows, tree);
    var row, g, was := rows[i], gens[i], Reached(tools, gens, i, store, tree).tree;
    var end, hashes := Ended(tools, gens, store, tree), Stored(Written(tools, gens, store, tree), g);
    HashesWritten(tools, gens, i, tree, store);
    OutputsWritten(tools, gens, i, tree, store);
    ListsAtVisit(tools, rows, i, tree, store);
    if !CleanAtVisit(tools, gens, i, tree, store) {
      EntryFresh(tools, table, row, g, was, end, hashes);
    } else {
      VisitedOnce(tools, gens, i, tree, store);
      CleanEntry(tools, row, g, was, Stored(store, g), end, hashes);
      forall now: Tree | Matching(tools, row, hashes, now)
        ensures Explained(tools, row, now)
      {
        MatchingMore(tools, row, hashes, Stored(store, g), now);
      }
    }
  }

  lemma MatchingMore(tools: Tools, row: Row, less: Hashes, more: Hashes, tree: Tree)
    requires Matching(tools, row, less, tree) && forall f :: f in less ==> f in more && less[f] == more[f]
    ensures Matching(tools, row, more, tree)
  {
    var g := Ask(tools, row, tree);
    forall f | f in Files(g)
      ensures FileClean(tools, f, tree, more)
    {
      assert FileClean(tools, f, tree, less);
    }
  }

  /**
    The condition a caller can check, and why no weaker one will do: of a generator that is clean,
    sound hashes guarantee that it is up to date, whatever it computes, exactly if no source has gone.
   */
  lemma SourcesKeptExact(tools: Tools, row: Row, hashes: Hashes, tree: Tree)
    requires Matching(tools, row, hashes, tree)
    ensures SourcesKept(tools, row, hashes, Ask(tools, row, tree)) <==>
            forall produce: (string, Tree) -> Product ::
              Sound(tools.(produce := produce), row, hashes) ==> UpToDate(tools.(produce := produce), row, tree)
  {
    var g := Ask(tools, row, tree);
    if SourcesKept(tools, row, hashes, g) {
      forall produce: (string, Tree) -> Product | Sound(tools.(produce := produce), row, hashes)
        ensures UpToDate(tools.(produce := produce), row, tree)
      {
        KeptWhatever(tools, produce, row, hashes, tree);
      }
    } else {
      var f :| f in hashes && f !in Files(g) && !IsOutput(tools, row, f);
      var produce := NeedsFile(f);
      GoneWhatever(tools, row, hashes, tree, f);
    }
  }

  lemma KeptWhatever(tools: Tools, produce: (string, Tree) -> Product, row: Row, hashes: Hashes, tree: Tree)
    requires Matching(tools, row, hashes, tree) && SourcesKept(tools, row, hashes, Ask(tools, row, tree))
    requires Sound(tools.(produce := produce), row, hashes)
    ensures UpToDate(tools.(produce := produce), row, tree)
  {
    var other := tools.(produce := produce);
    assert Matching(other, row, hashes, tree);
    forall f | f in hashes
      ensures f in Files(Ask(other, row, tree)) || IsOutput(other, row, f)
    {
      SameAnswers(tools, produce, row, f);
    }
  }

  /** What the scripts answer has nothing to do with what they produce. */
  lemma SameAnswers(tools: Tools, produce: (string, Tree) -> Product, row: Row, f: Path)
    ensures IsOutput(tools.(produce := produce), row, f) <==> IsOutput(tools, row, f)
  {
    var other := tools.(produce := produce);
    if t: Tree :| f in Ask(tools, row, t).outputs {
      assert f in Ask(other, row, t).outputs;
    }
    if t: Tree :| f in Ask(other, row, t).outputs {
      assert f in Ask(tools, row, t).outputs;
    }
  }

  /** A generator that fails without one of its sources. */
  function NeedsFile(f: Path): (string, Tree) -> Product {
    (name, view) => Product(map[], f in view)
  }

  lemma GoneWhatever(tools: Tools, row: Row, hashes: Hashes, tree: Tree, f: Path)
    requires Matching(tools, row, hashes, tree)
    requires f in hashes && f !in Files(Ask(tools, row, tree)) && !IsOutput(tools, row, f)
    ensures var other := tools.(produce := NeedsFile(f)); Sound(other, row, hashes) && !UpToDate(other, row, tree)
  {
    var other := tools.(produce := NeedsFile(f));
    SameAnswers(tools, NeedsFile(f), row, f);
    forall t: Tree | Matching(other, row, hashes, t) && SourcesKept(other, row, hashes, Ask(other, row, t))
      ensures UpToDate(other, row, t)
    {
      var n := Ask(other, row, t);
      assert f in Files(n) && f !in n.outputs;
      assert FileClean(other, f, t, hashes) && f in View(n, t);
      forall o | o in n.outputs
        ensures o in t
      {
        assert o in Files(n) && FileClean(other, o, t, hashes);
      }
    }
    assert f !in View(Ask(other, row, tree), tree);
  }

  // ----- every run

  /** The hash files of the table are the rows' own. */
  ghost predicate OwnNames(rows: seq<Row>) {
    forall a, b :: a in rows && b in rows && HashFile(a.name) == HashFile(b.name) ==> a == b
  }

  /** A run over rows of the table, with lists that fit together and that the run does not change. */
  ghost predicate Orderly(tools: Tools, table: seq<Row>, rows: seq<Row>, tree: Tree) {
    && (forall row :: row in rows ==> row in table)
    && WellFormed(AskAll(tools, rows, tree)) && Steady(tools, AskAll(tools, rows, tree), tree)
  }

  /** No generator that the run finds clean has lost a source from its lists. */
  ghost predicate Careful(tools: Tools, rows: seq<Row>, tree: Tree, store: Store) {
    var gens := AskAll(tools, rows, tree);
    forall i :: 0 <= i < |rows| && CleanAtVisit(tools, gens, i, tree, store) ==>
      SourcesKept(tools, rows[i], Stored(store, gens[i]), gens[i])
  }

  lemma CarefulEntry(tools: Tools, table: seq<Row>, rows: seq<Row>, i: nat, tree: Tree, store: Store)
    requires Injective(tools) && Separated(tools, table) && i < |rows|
    requires Orderly(tools, table, rows, tree) && Careful(tools, rows, tree, store)
    requires Completes(tools, AskAll(tools, rows, tree), store, tree) && Sound(tools, rows[i], HashesFor(store, rows[i]))
    ensures Sound(tools, rows[i], HashesFor(Written(tools, AskAll(tools, rows, tree), store, tree), rows[i]))
  {
    var gens := AskAll(tools, rows, tree);
    EntrySoundIff(tools, table, rows, i, tree, store);
    if CleanAtVisit(tools, gens, i, tree, store) {
      ListsAtVisit(tools, rows, i, tree, store);
      VisitedOnce(tools, gens, i, tree, store);
      assert Matching(tools, rows[i], Stored(store, gens[i]), Reached(tools, gens, i, store, tree).tree);
    }
  }

  lemma StoreAfter(tools: Tools, gens: seq<Generator>, single: bool, tree: Tree, store: Store)
    ensures var after := Generated(tools, gens, single, tree, store).store;
            after == store || (Completes(tools, gens, store, tree) && after == store + Written(tools, gens, store, tree))
  {
  }

  /** Every entry of the store after a run was there before or was written by it. */
  lemma EntryAfterRun(tools: Tools, table: seq<Row>, rows: seq<Row>, single: bool, tree: Tree, store: Store, row: Row)
    returns (i: int)
    requires OwnNames(table) && row in table && Orderly(tools, table, rows, tree)
    ensures -1 <= i < |rows|
    ensures var hashes := HashesFor(Run(tools, rows, single, tree, store).store, row);
            if i < 0 then hashes == HashesFor(store, row)
            else
              var gens := AskAll(tools, rows, tree);
              && rows[i] == row && Completes(tools, gens, store, tree)
              && hashes == HashesFor(Written(tools, gens, store, tree), row)
  {
    i := -1;
    if rows != [] {
      SteadyRun(tools, rows, single, tree, store);
      var gens := AskAll(tools, rows, tree);
      var after := Generated(tools, gens, single, tree, store).store;
      StoreAfter(tools, gens, single, tree, store);
      if after != store && HashFile(row.name) in Written(tools, gens, store, tree) {
        i := OwnerOf(tools, table, rows, tree, store, row);
      }
    }
  }

  /** A run, complete or aborted, over all or some of the generators, keeps the store sound. */
  lemma RunKeepsSound(tools: Tools, table: seq<Row>, rows: seq<Row>, single: bool, tree: Tree, store: Store)
    requires Injective(tools) && Separated(tools, table) && OwnNames(table) && StoreSound(tools, table, store)
    requires Orderly(tools, table, rows, tree) && Careful(tools, rows, tree, store)
    ensures StoreSound(tools, table, Run(tools, rows, single, tree, store).store)
  {
    forall row | row in table
      ensures Sound(tools, row, HashesFor(Run(tools, rows, single, tree, store).store, row))
    {
      var i := EntryAfterRun(tools, table, rows, single, tree, store, row);
      if i >= 0 {
        CarefulEntry(tools, table, rows, i, tree, store);
      }
    }
  }

  ghost predicate StoreExplaining(tools: Tools, rows: seq<Row>, store: Store) {
    forall row :: row in rows ==> Explaining(tools, row, HashesFor(store, row))
  }

  lemma RunKeepsExplaining(tools: Tools, table: seq<Row>, rows: seq<Row>, single: bool, tree: Tree, store: Store)
    requires Injective(tools) && Separated(tools, table) && OwnNames(table) && StoreExplaining(tools, table, store)
    requires Orderly(tools, table, rows, tree)
    ensures StoreExplaining(tools, table, Run(tools, rows, single, tree, store).store)
  {
    forall row | row in table
      ensures Explaining(tools, row, HashesFor(Run(tools, rows, single, tree, store).store, row))
    {
      var i := EntryAfterRun(tools, table, rows, single, tree, store, row);
      if i >= 0 {
        EntryExplains(tools, table, rows, i, tree, store);
      }
    }
  }

  /** A hash file of the run belongs to a selected row. */
  lemma OwnerOf(tools: Tools, table: seq<Row>, rows: seq<Row>, tree: Tree, store: Store, row: Row)
    returns (i: nat)
    requires OwnNames(table) && row in table && forall r :: r in rows ==> r in table
    requires var gens := AskAll(tools, rows, tree);
             Completes(tools, gens, store, tree) && HashFile(row.name) in Written(tools, gens, store, tree)
    ensures i < |rows| && rows[i] == row
  {
    var gens := AskAll(tools, rows, tree);
    var p := VisitAll(tools, gens, false, store, Start(tree));
    if row !in rows {
      forall h | h in gens
        ensures HashFile(h.name) != HashFile(row.name)
      {
        var j :| 0 <= j < |gens| && gens[j] == h;
        assert rows[j] in rows;
      }
      VisitFiles(tools, gens, false, store, Start(tree), HashFile(row.name));
      RehashFiles(tools, gens, Formatted(tools, p.tree, p.dirtyOutputs), p.current, HashFile(row.name));
      assert false;
    }
    i :| 0 <= i < |rows| && rows[i] == row;
  }

  /** Visits add no hash file but the generators' own. */
  lemma {:induction false} VisitFiles(tools: Tools, gens: seq<Generator>, verifyOnly: bool, store: Store, p: Progress, file: string)
    requires forall h :: h in gens ==> HashFile(h.name) != file
    ensures file in VisitAll(tools, gens, verifyOnly, store, p).current <==> file in p.current
  {
    if gens != [] {
      assert gens[0] in gens && forall h :: h in gens[1..] ==> h in gens;
      VisitFiles(tools, gens[1..], verifyOnly, store, Visit(tools, gens[0], verifyOnly, store, p), file);
    }
  }

  lemma {:induction false} RehashFiles(tools: Tools, gens: seq<Generator>, tree: Tree, current: Store, file: string)
    requires Rehashed(tools, gens, tree, current).Some? && forall h :: h in gens ==> HashFile(h.name) != file
    ensures file in Rehashed(tools, gens, tree, current).value <==> file in current
  {
    if gens != [] {
      var g := gens[0];
      assert g in gens && forall h :: h in gens[1..] ==> h in gens;
      RehashFiles(tools, gens[1..], tree,
                  current[HashFile(g.name) := Stored(current, g) + HashesOf(tools, g.outputs, tree)], file);
    }
  }

  // ----- soundness over every history

  /** What can happen between two moments: somebody edits or deletes a file, or a run is made. */
  datatype Action =
    | Edit(path: Path, content: Content)
    | Delete(path: Path)
    | Make(rows: seq<Row>, single: bool)

  datatype World = World(tree: Tree, store: Store)

  function Act(tools: Tools, a: Action, w: World): World {
    match a
    case Edit(path, content) => w.(tree := w.tree[path := content])
    case Delete(path) => w.(tree := w.tree - {path})
    case Make(rows, single) =>
      var o := Run(tools, rows, single, w.tree, w.store);
      World(o.tree, o.store)
  }

  function ActAll(tools: Tools, actions: seq<Action>, w: World): World {
    if actions == [] then w else ActAll(tools, actions[1..], Act(tools, actions[0], w))
  }

  ghost predicate OrderlyHistory(tools: Tools, table: seq<Row>, actions: seq<Action>, w: World) {
    actions != [] ==>
      && (actions[0].Make? ==> Orderly(tools, table, actions[0].rows, w.tree))
      && OrderlyHistory(tools, table, actions[1..], Act(tools, actions[0], w))
  }

  ghost predicate CarefulHistory(tools: Tools, actions: seq<Action>, w: World) {
    actions != [] ==>
      && (actions[0].Make? ==> Careful(tools, actions[0].rows, w.tree, w.store))
      && CarefulHistory(tools, actions[1..], Act(tools, actions[0], w))
  }

  lemma {:induction false} HistorySound(tools: Tools, table: seq<Row>, actions: seq<Action>, w: World)
    requires Injective(tools) && Separated(tools, table) && OwnNames(table) && StoreSound(tools, table, w.store)
    requires OrderlyHistory(tools, table, actions, w) && CarefulHistory(tools, actions, w)
    ensures StoreSound(tools, table, ActAll(tools, actions, w).store)
  {
    if actions != [] {
      var a := actions[0];
      if a.Make? {
        RunKeepsSound(tools, table, a.rows, a.single, w.tree, w.store);
      }
      HistorySound(tools, table, actions[1..], Act(tools, a, w));
    }
  }

  lemma {:induction false} HistoryExplains(tools: Tools, table: seq<Row>, actions: seq<Action>, w: World)
    requires Injective(tools) && Separated(tools, table) && OwnNames(table) && StoreExplaining(tools, table, w.store)
    requires OrderlyHistory(tools, table, actions, w)
    ensures StoreExplaining(tools, table, ActAll(tools, actions, w).store)
  {
    if actions != [] {
      var a := actions[0];
      if a.Make? {
        RunKeepsExplaining(tools, table, a.rows, a.single, w.tree, w.store);
      }
      HistoryExplains(tools, table, actions[1..], Act(tools, a, w));
    }
  }

  lemma {:induction false} PassingMeansClean(tools: Tools, gens: seq<Generator>, store: Store, p: Progress)
    requires var q := VisitAll(tools, gens, true, store, p); !q.failed && !q.anyDirty
    ensures !p.failed && !p.anyDirty
    ensures forall g :: g in gens ==> g.listed && Clean(tools, Files(g), p.tree, Stored(store, g))
  {
    if gens != [] {
      PassingMeansClean(tools, gens[1..], store, Visit(tools, gens[0], true, store, p));
    }
  }

  /** What verifying looks at for one generator: the hashes of its files as they are. */
  lemma {:induction false} VerifiedNames(tools: Tools, gens: seq<Generator>, store: Store, p: Progress, g: Generator)
    requires g in gens && !VisitAll(tools, gens, true, store, p).failed
    requires forall h :: h in gens && HashFile(h.name) == HashFile(g.name) ==> h == g
    ensures forall f :: f in Stored(VisitAll(tools, gens, true, store, p).current, g) ==> f in Files(g)
  {
    var q := Visit(tools, gens[0], true, store, p);
    assert forall h :: h in gens[1..] ==> h in gens;
    assert gens[0] in gens;
    if g in gens[1..] {
      VerifiedNames(tools, gens[1..], store, q, g);
    } else {
      forall h | h in gens[1..]
        ensures HashFile(h.name) != HashFile(g.name)
      {
      }
      VerifiedOthers(tools, gens[1..], store, q, g);
      if q.failed {
        VerifyFailed(tools, gens[1..], store, q);
      }
    }
  }

  lemma {:induction false} VerifyFailed(tools: Tools, gens: seq<Generator>, store: Store, p: Progress)
    requires p.failed
    ensures VisitAll(tools, gens, true, store, p).failed
  {
    if gens != [] {
      VerifyFailed(tools, gens[1..], store, p);
    }
  }

  lemma {:induction false} VerifiedOthers(tools: Tools, others: seq<Generator>, store: Store, p: Progress, g: Generator)
    requires forall h :: h in others ==> HashFile(h.name) != HashFile(g.name)
    ensures Stored(VisitAll(tools, others, true, store, p).current, g) == Stored(p.current, g)
  {
    if others != [] {
      assert others[0] in others && forall h :: h in others[1..] ==> h in others;
      VerifiedOthers(tools, others[1..], store, Visit(tools, others[0], true, store, p), g);
    }
  }

  /** A passing verification of everything means that no stored name has left the lists. */
  lemma FullPassKeepsNames(tools: Tools, rows: seq<Row>, tree: Tree, store: Store, row: Row)
    requires Passes(tools, rows, false, tree, store) && OwnNames(rows) && row in rows
    ensures forall f :: f in HashesFor(store, row) ==> f in Files(Ask(tools, row, tree))
  {
    PassesIs(tools, rows, false, tree, store);
    var gens, g := AskAll(tools, rows, tree), Ask(tools, row, tree);
    var i :| 0 <= i < |rows| && rows[i] == row;
    assert gens[i] == g && g in gens;
    forall h | h in gens && HashFile(h.name) == HashFile(g.name)
      ensures h == g
    {
      var j :| 0 <= j < |gens| && gens[j] == h;
      assert rows[j] in rows;
    }
    VerifiedNames(tools, gens, store, Start(tree), g);
  }

  lemma PassingMatches(tools: Tools, rows: seq<Row>, single: bool, tree: Tree, store: Store, row: Row)
    requires Passes(tools, rows, single, tree, store) && row in rows
    ensures Matching(tools, row, HashesFor(store, row), tree)
  {
    PassesIs(tools, rows, single, tree, store);
    var gens := AskAll(tools, rows, tree);
    PassingMeansClean(tools, gens, store, Start(tree));
    var i :| 0 <= i < |rows| && rows[i] == row;
    assert gens[i] in gens;
  }

  lemma NothingMatchesNothing(tools: Tools, row: Row, tree: Tree)
    ensures !Matching(tools, row, map[], tree)
  {
    var g := Ask(tools, row, tree);
    assert g.script in Files(g) && !FileClean(tools, g.script, tree, map[]);
  }

  lemma EmptyStoreSound(tools: Tools, table: seq<Row>)
    ensures StoreSound(tools, table, map[]) && StoreExplaining(tools, table, map[])
  {
    forall row, t: Tree
      ensures !Matching(tools, row, map[], t)
    {
      NothingMatchesNothing(tools, row, t);
    }
  }

  /**
    The point of the script: after any history of edits, deletions and runs, however aborted, that
    starts with no hashes and in which no run finds a generator clean that has lost a source, a passing
    verification means that the outputs are current.  When generators are named it takes the same of them.
   */
  lemma VerifySound(tools: Tools, table: seq<Row>, rows: seq<Row>, single: bool, actions: seq<Action>, tree: Tree)
    requires Injective(tools) && Separated(tools, table) && OwnNames(table) && forall row :: row in rows ==> row in table
    requires OrderlyHistory(tools, table, actions, World(tree, map[])) && CarefulHistory(tools, actions, World(tree, map[]))
    requires var w := ActAll(tools, actions, World(tree, map[]));
             Passes(tools, rows, single, w.tree, w.store)
    ensures var w := ActAll(tools, actions, World(tree, map[]));
            forall row :: row in rows ==>
              (!single || SourcesKept(tools, row, HashesFor(w.store, row), Ask(tools, row, w.tree))) ==>
              UpToDate(tools, row, w.tree)
  {
    EmptyStoreSound(tools, table);
    HistorySound(tools, table, actions, World(tree, map[]));
    var w := ActAll(tools, actions, World(tree, map[]));
    forall row | row in rows && (!single || SourcesKept(tools, row, HashesFor(w.store, row), Ask(tools, row, w.tree)))
      ensures UpToDate(tools, row, w.tree)
    {
      PassingMatches(tools, rows, single, w.tree, w.store, row);
      if !single {
        FullPassKeepsNames(tools, rows, w.tree, w.store, row);
      }
    }
  }

  /**
    Without any care, a passing verification, named or not, still means that every output was made from
    the sources as they are now, and perhaps others that have left the lists since.
   */
  lemma VerifyExplains(tools: Tools, table: seq<Row>, rows: seq<Row>, single: bool, actions: seq<Action>, tree: Tree)
    requires Injective(tools) && Separated(tools, table) && OwnNames(table) && forall row :: row in rows ==> row in table
    requires OrderlyHistory(tools, table, actions, World(tree, map[]))
    requires var w := ActAll(tools, actions, World(tree, map[]));
             Passes(tools, rows, single, w.tree, w.store)
    ensures forall row :: row in rows ==> Explained(tools, row, ActAll(tools, actions, World(tree, map[])).tree)
  {
    EmptyStoreSound(tools, table);
    HistoryExplains(tools, table, actions, World(tree, map[]));
    var w := ActAll(tools, actions, World(tree, map[]));
    forall row | row in rows
      ensures Explained(tools, row, w.tree)
    {
      PassingMatches(tools, rows, single, w.tree, w.store, row);
    }
  }
}
