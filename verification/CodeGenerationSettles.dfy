/**
  Repeated runs settle: without edits in between, as many successful runs as there are layers of
  generators feeding each other leave nothing dirty, whatever order the generators are visited in and
  whatever their lists were before.
 */
module CodeGenerationSettles {
  import opened Prelude
  import opened CodeGeneration
  import opened CodeGenerationRuns
  import opened CodeGenerationSound

  /** A file that only generators of `done`, or nobody, write. */
  ghost predicate SettledFile(gens: seq<Generator>, done: set<Generator>, f: Path) {
    forall h :: h in gens && f in h.outputs ==> h in done
  }

  /** Everything `g` reads is settled. */
  ghost predicate FedBy(gens: seq<Generator>, done: set<Generator>, g: Generator) {
    forall f :: f in Sources(g) ==> SettledFile(gens, done, f)
  }

  ghost predicate Agree(gens: seq<Generator>, done: set<Generator>, a: Tree, b: Tree) {
    forall f :: SettledFile(gens, done, f) ==> (f in a <==> f in b) && (f in a ==> a[f] == b[f])
  }

  /** The generators that are clean and stay so, because nothing outside them feeds them. */
  ghost predicate Done(tools: Tools, gens: seq<Generator>, done: set<Generator>, tree: Tree, store: Store) {
    forall g :: g in done ==>
      g in gens && FedBy(gens, done, g) && Clean(tools, Files(g), tree, Stored(store, g))
  }

  lemma OwnOutputsSettled(gens: seq<Generator>, done: set<Generator>, g: Generator, f: Path)
    requires WellFormed(gens) && g in gens && g in done && f in g.outputs
    ensures SettledFile(gens, done, f)
  {
    forall h | h in gens && f in h.outputs
      ensures h in done
    {
      assert f in OutputSet(h) && f in OutputSet(g);
      var a, b :| 0 <= a < |gens| && 0 <= b < |gens| && gens[a] == g && gens[b] == h;
    }
  }

  lemma StaysClean(tools: Tools, gens: seq<Generator>, done: set<Generator>, g: Generator, a: Tree, b: Tree, stored: Hashes)
    requires WellFormed(gens) && g in gens && g in done && FedBy(gens, done, g)
    requires Clean(tools, Files(g), a, stored) && Agree(gens, done, a, b)
    ensures Clean(tools, Files(g), b, stored)
  {
    forall f | f in Files(g)
      ensures FileClean(tools, f, b, stored)
    {
      assert FileClean(tools, f, a, stored);
      if f in g.outputs {
        OwnOutputsSettled(gens, done, g, f);
      } else {
        assert f in Sources(g);
      }
    }
  }

  lemma {:induction false} LoopKeepsSettled(tools: Tools, gens: seq<Generator>, rest: seq<Generator>, done: set<Generator>,
                                            tree: Tree, store: Store, p: Progress)
    requires WellFormed(gens) && Done(tools, gens, done, tree, store) && (forall g :: g in rest ==> g in gens)
    requires Agree(gens, done, tree, p.tree)
    requires forall f :: f in p.dirtyOutputs ==> !SettledFile(gens, done, f)
    ensures var q := VisitAll(tools, rest, false, store, p);
            Agree(gens, done, tree, q.tree) && forall f :: f in q.dirtyOutputs ==> !SettledFile(gens, done, f)
  {
    if rest != [] {
      var g := rest[0];
      assert g in rest && forall h :: h in rest[1..] ==> h in rest;
      var p' := Visit(tools, g, false, store, p);
      if g in done {
        StaysClean(tools, gens, done, g, tree, p.tree, Stored(store, g));
      } else {
        forall f | f in OutputSet(g)
          ensures !SettledFile(gens, done, f)
        {
        }
      }
      LoopKeepsSettled(tools, gens, rest[1..], done, tree, store, p');
    }
  }

  lemma {:induction false} NothingDirty(tools: Tools, gens: seq<Generator>, store: Store, p: Progress)
    requires var q := VisitAll(tools, gens, false, store, p); !q.failed && !q.anyDirty
    ensures VisitAll(tools, gens, false, store, p).tree == p.tree
    ensures forall g :: g in gens ==> Clean(tools, Files(g), p.tree, Stored(store, g))
  {
    if gens != [] {
      var p' := Visit(tools, gens[0], false, store, p);
      if p'.failed || p'.anyDirty {
        DirtyStays(tools, gens[1..], store, p');
      }
      NothingDirty(tools, gens[1..], store, p');
    }
  }

  lemma {:induction false} DirtyStays(tools: Tools, gens: seq<Generator>, store: Store, p: Progress)
    ensures p.failed ==> VisitAll(tools, gens, false, store, p).failed
    ensures p.anyDirty ==> VisitAll(tools, gens, false, store, p).anyDirty
  {
    if gens != [] {
      DirtyStays(tools, gens[1..], store, Visit(tools, gens[0], false, store, p));
    }
  }

  /** One successful run keeps the settled generators clean and adds those they feed. */
  lemma RunSettles(tools: Tools, gens: seq<Generator>, done: set<Generator>, tree: Tree, store: Store, g: Generator)
    requires WellFormed(gens) && Done(tools, gens, done, tree, store)
    requires Generated(tools, gens, false, tree, store).ok
    requires g in gens && FedBy(gens, done, g) && forall f :: f in Sources(g) ==> f in tree
    ensures var o := Generated(tools, gens, false, tree, store);
            Clean(tools, Files(g), o.tree, Stored(o.store, g))
  {
    var p := VisitAll(tools, gens, false, store, Start(tree));
    if !p.anyDirty && !OldHashMissing(p.current, store) {
      NothingDirty(tools, gens, store, Start(tree));
    } else {
      var i :| 0 <= i < |gens| && gens[i] == g;
      var end := Formatted(tools, p.tree, p.dirtyOutputs);
      var was := Reached(tools, gens, i, store, tree).tree;
      var o := Generated(tools, gens, false, tree, store);
      LoopKeepsSettled(tools, gens, gens[..i], done, tree, store, Start(tree));
      LoopKeepsSettled(tools, gens, gens, done, tree, store, Start(tree));
      HashesWritten(tools, gens, i, tree, store);
      SettledEntry(tools, gens, done, g, tree, was, p.tree, p.dirtyOutputs, Stored(o.store, g));
    }
  }

  lemma SettledEntry(tools: Tools, gens: seq<Generator>, done: set<Generator>, g: Generator, tree: Tree, was: Tree,
                     last: Tree, formatted: set<Path>, hashes: Hashes)
    requires FedBy(gens, done, g) && (forall f :: f in Sources(g) ==> f in tree && f !in g.outputs)
    requires Agree(gens, done, tree, was) && Agree(gens, done, tree, last)
    requires forall f :: f in formatted ==> !SettledFile(gens, done, f)
    requires hashes == HashesOf(tools, Files(g), was) + HashesOf(tools, g.outputs, Formatted(tools, last, formatted))
    requires OutputSet(g) <= last.Keys
    ensures Clean(tools, Files(g), Formatted(tools, last, formatted), hashes)
  {
    var end := Formatted(tools, last, formatted);
    forall f | f in Files(g)
      ensures FileClean(tools, f, end, hashes)
    {
      if f in g.outputs {
        assert f in OutputSet(g) && f in end;
      } else {
        assert f in Sources(g) && SettledFile(gens, done, f);
      }
    }
  }

  /** A run leaves alone what no generator writes. */
  lemma RunKeepsPlainFiles(tools: Tools, gens: seq<Generator>, tree: Tree, store: Store)
    requires WellFormed(gens)
    ensures Agree(gens, {}, tree, Generated(tools, gens, false, tree, store).tree)
  {
    LoopKeepsSettled(tools, gens, gens, {}, tree, store, Start(tree));
  }

  // ----- the store never holds anything but the generators' own files

  ghost predicate OwnFiles(gens: seq<Generator>, file: string, hashes: Hashes) {
    exists g :: g in gens && HashFile(g.name) == file && forall f :: f in hashes ==> f in Files(g)
  }

  ghost predicate Tidy(gens: seq<Generator>, store: Store) {
    forall file :: file in store ==> OwnFiles(gens, file, store[file])
  }

  /** Only one generator has the hash file, so the files in it are that generator's. */
  lemma OwnFilesOf(gens: seq<Generator>, g: Generator, hashes: Hashes)
    requires WellFormed(gens) && g in gens && OwnFiles(gens, HashFile(g.name), hashes)
    ensures forall f :: f in hashes ==> f in Files(g)
  {
    var h :| h in gens && HashFile(h.name) == HashFile(g.name) && forall f :: f in hashes ==> f in Files(h);
    var a, b :| 0 <= a < |gens| && 0 <= b < |gens| && gens[a] == g && gens[b] == h;
    assert a == b;
  }

  lemma {:induction false} VisitTidy(tools: Tools, gens: seq<Generator>, rest: seq<Generator>, verifyOnly: bool, store: Store, p: Progress)
    requires (forall g :: g in rest ==> g in gens) && Tidy(gens, p.current)
    ensures Tidy(gens, VisitAll(tools, rest, verifyOnly, store, p).current)
  {
    if rest != [] {
      assert rest[0] in rest && forall h :: h in rest[1..] ==> h in rest;
      VisitTidy(tools, gens, rest[1..], verifyOnly, store, Visit(tools, rest[0], verifyOnly, store, p));
    }
  }

  lemma {:induction false} RehashTidy(tools: Tools, gens: seq<Generator>, rest: seq<Generator>, tree: Tree, current: Store)
    requires WellFormed(gens) && (forall g :: g in rest ==> g in gens) && Tidy(gens, current)
    requires Rehashed(tools, rest, tree, current).Some?
    ensures Tidy(gens, Rehashed(tools, rest, tree, current).value)
  {
    if rest != [] {
      var g := rest[0];
      assert g in rest && forall h :: h in rest[1..] ==> h in rest;
      var file := HashFile(g.name);
      var hashes := Stored(current, g) + HashesOf(tools, g.outputs, tree);
      if file in current {
        OwnFilesOf(gens, g, current[file]);
      }
      assert OwnFiles(gens, file, hashes);
      RehashTidy(tools, gens, rest[1..], tree, current[file := hashes]);
    }
  }

  /** Every hash file is that of a row. */
  ghost predicate KnownFiles(rows: seq<Row>, store: Store) {
    forall file :: file in store ==> KnownFile(rows, file)
  }

  ghost predicate KnownFile(rows: seq<Row>, file: string) {
    exists row :: row in rows && HashFile(row.name) == file
  }

  lemma AllWritten(tools: Tools, rows: seq<Row>, gens: seq<Generator>, tree: Tree, store: Store, file: string)
    requires |rows| == |gens| && (forall i :: 0 <= i < |rows| ==> RowOf(gens[i]) == rows[i]) && KnownFile(rows, file)
    requires WellFormed(gens) && Completes(tools, gens, store, tree)
    ensures file in Written(tools, gens, store, tree)
  {
    var row :| row in rows && HashFile(row.name) == file;
    var i :| 0 <= i < |rows| && rows[i] == row;
    HashesWritten(tools, gens, i, tree, store);
  }

  /** After a successful run over everything no hash file holds a name that is not listed. */
  lemma RunTidies(tools: Tools, rows: seq<Row>, gens: seq<Generator>, tree: Tree, store: Store)
    requires |rows| == |gens| && (forall i :: 0 <= i < |rows| ==> RowOf(gens[i]) == rows[i])
    requires WellFormed(gens) && KnownFiles(rows, store) && Generated(tools, gens, false, tree, store).ok
    ensures Tidy(gens, Generated(tools, gens, false, tree, store).store)
  {
    var p := VisitAll(tools, gens, false, store, Start(tree));
    if !p.anyDirty && !OldHashMissing(p.current, store) {
      VisitTidy(tools, gens, gens, false, store, Start(tree));
      NothingMissingTidy(gens, p.current, store);
    } else {
      WrittenTidy(tools, rows, gens, tree, store);
    }
  }

  lemma NothingMissingTidy(gens: seq<Generator>, current: Store, store: Store)
    requires Tidy(gens, current) && !OldHashMissing(current, store)
    ensures Tidy(gens, store)
  {
    forall file | file in store
      ensures OwnFiles(gens, file, store[file])
    {
      LessIsOwn(gens, file, current[file], store[file]);
    }
  }

  lemma WrittenTidy(tools: Tools, rows: seq<Row>, gens: seq<Generator>, tree: Tree, store: Store)
    requires |rows| == |gens| && (forall i :: 0 <= i < |rows| ==> RowOf(gens[i]) == rows[i])
    requires WellFormed(gens) && KnownFiles(rows, store) && Completes(tools, gens, store, tree)
    ensures Tidy(gens, store + Written(tools, gens, store, tree))
  {
    var p, current := VisitAll(tools, gens, false, store, Start(tree)), Written(tools, gens, store, tree);
    VisitTidy(tools, gens, gens, false, store, Start(tree));
    RehashTidy(tools, gens, gens, Ended(tools, gens, store, tree), p.current);
    forall file | file in store
      ensures file in current
    {
      AllWritten(tools, rows, gens, tree, store, file);
    }
    assert store + current == current;
  }

  lemma LessIsOwn(gens: seq<Generator>, file: string, more: Hashes, less: Hashes)
    requires OwnFiles(gens, file, more) && forall f :: f in less ==> f in more
    ensures OwnFiles(gens, file, less)
  {
    var g :| g in gens && HashFile(g.name) == file && forall f :: f in more ==> f in Files(g);
  }

  lemma {:induction false} LoopKnown(tools: Tools, table: seq<Row>, gens: seq<Generator>, store: Store, p: Progress)
    requires KnownFiles(table, p.current) && forall g :: g in gens ==> RowOf(g) in table
    ensures KnownFiles(table, Loop(tools, gens, false, store, p).current)
  {
    if gens != [] {
      var g := gens[0];
      assert g in gens && forall h :: h in gens[1..] ==> h in gens;
      assert HashFile(g.name) == HashFile(RowOf(g).name);
      LoopKnown(tools, table, gens[1..], store, VisitAs(tools, g, Ask(tools, RowOf(g), p.tree), false, store, p));
    }
  }

  lemma {:induction false} RehashKnown(tools: Tools, table: seq<Row>, gens: seq<Generator>, tree: Tree, current: Store)
    requires KnownFiles(table, current) && (forall g :: g in gens ==> RowOf(g) in table)
    requires Rehashed(tools, gens, tree, current).Some?
    ensures KnownFiles(table, Rehashed(tools, gens, tree, current).value)
  {
    if gens != [] {
      var g := gens[0];
      assert g in gens && forall h :: h in gens[1..] ==> h in gens;
      assert HashFile(g.name) == HashFile(RowOf(g).name);
      RehashKnown(tools, table, gens[1..], tree,
                  current[HashFile(g.name) := Stored(current, g) + HashesOf(tools, g.outputs, tree)]);
    }
  }

  lemma AskedRows(tools: Tools, table: seq<Row>, rows: seq<Row>, tree: Tree)
    requires forall row :: row in rows ==> row in table
    ensures forall g :: g in AskAll(tools, rows, tree) ==> RowOf(g) in table
  {
    forall i | 0 <= i < |rows|
      ensures RowOf(AskAll(tools, rows, tree)[i]) in table
    {
      assert rows[i] in rows;
    }
  }

  /** A run over any rows, successful or not, with any lists, adds no hash file but the rows' own. */
  lemma RunKnown(tools: Tools, table: seq<Row>, rows: seq<Row>, single: bool, tree: Tree, store: Store)
    requires KnownFiles(table, store) && forall row :: row in rows ==> row in table
    ensures KnownFiles(table, Run(tools, rows, single, tree, store).store)
  {
    AskedRows(tools, table, rows, tree);
    LoopKnown(tools, table, AskAll(tools, rows, tree), store, Start(tree));
    var p := Loop(tools, AskAll(tools, rows, tree), false, store, Start(tree));
    var end := Formatted(tools, p.tree, p.dirtyOutputs);
    AskedRows(tools, table, rows, end);
    if Rehashed(tools, AskAll(tools, rows, end), end, p.current).Some? {
      RehashKnown(tools, table, AskAll(tools, rows, end), end, p.current);
    }
  }

  /** So does any history of edits, deletions and runs. */
  lemma {:induction false} HistoryKnown(tools: Tools, table: seq<Row>, actions: seq<Action>, w: World)
    requires KnownFiles(table, w.store)
    requires forall a, row :: a in actions && a.Make? && row in a.rows ==> row in table
    ensures KnownFiles(table, ActAll(tools, actions, w).store)
  {
    if actions != [] {
      var a := actions[0];
      assert a in actions && forall b :: b in actions[1..] ==> b in actions;
      if a.Make? {
        RunKnown(tools, table, a.rows, a.single, w.tree, w.store);
      }
      HistoryKnown(tools, table, actions[1..], Act(tools, a, w));
    }
  }

  lemma {:induction false} CleanVisit(tools: Tools, gens: seq<Generator>, rest: seq<Generator>, store: Store, p: Progress)
    requires WellFormed(gens) && WellFormed(rest) && (forall g :: g in rest ==> g in gens) && !p.failed && !p.anyDirty
    requires forall g :: g in rest ==> g.listed && Clean(tools, Files(g), p.tree, Stored(store, g))
    ensures var q := VisitAll(tools, rest, true, store, p);
            && !q.failed && !q.anyDirty
            && (forall file :: file in p.current ==> file in q.current)
            && forall g :: g in rest ==>
                 HashFile(g.name) in q.current && q.current[HashFile(g.name)].Keys >= (set f | f in Files(g))
    decreases |rest|
  {
    if rest != [] {
      var g := rest[0];
      assert g in rest && forall h :: h in rest[1..] ==> h in rest;
      var p' := Visit(tools, g, true, store, p);
      forall f | f in Files(g)
        ensures f in p.tree
      {
        assert FileClean(tools, f, p.tree, Stored(store, g));
      }
      CleanVisit(tools, gens, rest[1..], store, p');
      KeptCurrent(tools, g, rest[1..], store, p');
    }
  }

  lemma {:induction false} KeptCurrent(tools: Tools, g: Generator, rest: seq<Generator>, store: Store, p: Progress)
    requires forall h :: h in rest ==> HashFile(h.name) != HashFile(g.name)
    requires HashFile(g.name) in p.current
    ensures var q := VisitAll(tools, rest, true, store, p);
            HashFile(g.name) in q.current && q.current[HashFile(g.name)] == p.current[HashFile(g.name)]
  {
    if rest != [] {
      assert rest[0] in rest && forall h :: h in rest[1..] ==> h in rest;
      KeptCurrent(tools, g, rest[1..], store, Visit(tools, rest[0], true, store, p));
    }
  }

  lemma AllCleanPasses(tools: Tools, gens: seq<Generator>, tree: Tree, store: Store)
    requires WellFormed(gens) && Tidy(gens, store)
    requires forall g :: g in gens ==> g.listed && Clean(tools, Files(g), tree, Stored(store, g))
    ensures VerifyPasses(tools, gens, false, tree, store)
  {
    CleanVisit(tools, gens, gens, store, Start(tree));
    var q := VisitAll(tools, gens, true, store, Start(tree));
    forall file | file in store
      ensures file in q.current && forall f :: f in store[file] ==> f in q.current[file]
    {
      var g :| g in gens && HashFile(g.name) == file && forall f :: f in store[file] ==> f in Files(g);
    }
  }

  // ----- a full run can forget

  /** A run over clean generators runs none of them. */
  lemma {:induction false} CleanLoop(tools: Tools, gens: seq<Generator>, store: Store, p: Progress)
    requires !p.failed && forall g :: g in gens ==> g.listed && Clean(tools, Files(g), p.tree, Stored(store, g))
    ensures var q := VisitAll(tools, gens, false, store, p);
            && Loop(tools, gens, false, store, p) == q && !q.failed
            && q.tree == p.tree && q.dirtyOutputs == p.dirtyOutputs && q.anyDirty == p.anyDirty
  {
    if gens != [] {
      var g := gens[0];
      assert g in gens && forall h :: h in gens[1..] ==> h in gens;
      CleanLoop(tools, gens[1..], store, Visit(tools, g, false, store, p));
    }
  }

  lemma {:induction false} RehashOk(tools: Tools, gens: seq<Generator>, tree: Tree, current: Store)
    requires forall g :: g in gens ==> g.listed && OutputSet(g) <= tree.Keys
    ensures Rehashed(tools, gens, tree, current).Some?
  {
    if gens != [] {
      var g := gens[0];
      assert g in gens && forall h :: h in gens[1..] ==> h in gens;
      RehashOk(tools, gens[1..], tree,
               current[HashFile(g.name) := Stored(current, g) + HashesOf(tools, g.outputs, tree)]);
    }
  }

  lemma CleanExists(tools: Tools, g: Generator, tree: Tree, hashes: Hashes)
    requires Clean(tools, Files(g), tree, hashes)
    ensures forall f :: f in Files(g) ==> f in tree
    ensures OutputSet(g) <= tree.Keys
  {
    forall f | f in Files(g)
      ensures f in tree
    {
      assert FileClean(tools, f, tree, hashes);
    }
  }

  /** With every generator clean on what it lists, a run is the one with the lists it starts with, and changes no file. */
  lemma CleanRun(tools: Tools, rows: seq<Row>, tree: Tree, store: Store)
    requires rows != []
    requires forall g :: g in AskAll(tools, rows, tree) ==> g.listed && Clean(tools, Files(g), tree, Stored(store, g))
    ensures var gens := AskAll(tools, rows, tree);
            var o := Generated(tools, gens, false, tree, store);
            Run(tools, rows, false, tree, store) == o && o.ok && o.tree == tree && Completes(tools, gens, store, tree)
    ensures Ended(tools, AskAll(tools, rows, tree), store, tree) == tree
  {
    var gens := AskAll(tools, rows, tree);
    CleanLoop(tools, gens, store, Start(tree));
    var p := VisitAll(tools, gens, false, store, Start(tree));
    assert Formatted(tools, tree, {}) == tree;
    forall g | g in gens
      ensures OutputSet(g) <= tree.Keys
    {
      CleanExists(tools, g, tree, Stored(store, g));
    }
    RehashOk(tools, gens, tree, p.current);
  }

  lemma CleanAfter(tools: Tools, rows: seq<Row>, i: nat, tree: Tree, store: Store)
    requires i < |rows| && WellFormed(AskAll(tools, rows, tree))
    requires forall g :: g in AskAll(tools, rows, tree) ==> g.listed && Clean(tools, Files(g), tree, Stored(store, g))
    ensures var gens := AskAll(tools, rows, tree);
            var after := Generated(tools, gens, false, tree, store).store;
            Clean(tools, Files(gens[i]), tree, Stored(after, gens[i]))
  {
    var gens := AskAll(tools, rows, tree);
    var g, after := gens[i], Generated(tools, gens, false, tree, store).store;
    assert g in gens;
    StoreAfter(tools, gens, false, tree, store);
    CleanRun(tools, rows, tree, store);
    if after != store {
      HashesWritten(tools, gens, i, tree, store);
      forall h | h in gens[..i]
        ensures h in gens
      {
      }
      CleanLoop(tools, gens[..i], store, Start(tree));
      CleanExists(tools, g, tree, Stored(store, g));
      forall f | f in Files(g)
        ensures FileClean(tools, f, tree, Stored(after, g))
      {
      }
    }
  }

  /**
    A full run over generators that are clean on what they list now runs none of them and changes no
    file, and verification passes afterwards: whatever has left the lists is forgotten, so what was
    out of date stays so without being noticed.
   */
  lemma FullRunForgets(tools: Tools, rows: seq<Row>, tree: Tree, store: Store)
    requires rows != [] && WellFormed(AskAll(tools, rows, tree)) && KnownFiles(rows, store)
    requires forall g :: g in AskAll(tools, rows, tree) ==> g.listed && Clean(tools, Files(g), tree, Stored(store, g))
    ensures var o := Run(tools, rows, false, tree, store);
            o.ok && o.tree == tree && Passes(tools, rows, false, tree, o.store)
  {
    var gens := AskAll(tools, rows, tree);
    CleanRun(tools, rows, tree, store);
    RunTidies(tools, rows, gens, tree, store);
    var o := Generated(tools, gens, false, tree, store);
    forall g | g in gens
      ensures Clean(tools, Files(g), tree, Stored(o.store, g))
    {
      var i :| 0 <= i < |gens| && gens[i] == g;
      CleanAfter(tools, rows, i, tree, store);
    }
    AllCleanPasses(tools, gens, tree, o.store);
    PassesIs(tools, rows, false, tree, o.store);
  }

  // ----- the main result

  /** `n` full runs in a row, all successful. */
  ghost predicate RunsOk(tools: Tools, rows: seq<Row>, n: nat, w: World) {
    n == 0 || (Run(tools, rows, false, w.tree, w.store).ok &&
               RunsOk(tools, rows, n - 1, Act(tools, Make(rows, false), w)))
  }

  function AfterRuns(tools: Tools, rows: seq<Row>, n: nat, w: World): World {
    if n == 0 then w else AfterRuns(tools, rows, n - 1, Act(tools, Make(rows, false), w))
  }

  /** Generators are layered: whoever writes what `g` reads is in a lower layer. */
  ghost predicate Layered(gens: seq<Generator>, layer: Generator -> nat) {
    forall g, h, f :: g in gens && h in gens && f in Sources(g) && f in h.outputs ==> layer(h) < layer(g)
  }

  ghost predicate SourcesExist(gens: seq<Generator>, tree: Tree) {
    forall g, f :: g in gens && f in Sources(g) ==> f in tree || exists h :: h in gens && f in h.outputs
  }

  ghost function Below(gens: seq<Generator>, layer: Generator -> nat, k: nat): set<Generator> {
    set g | g in gens && layer(g) < k
  }

  lemma LayerSettles(tools: Tools, gens: seq<Generator>, layer: Generator -> nat, k: nat, w: World, w': World)
    requires WellFormed(gens) && Layered(gens, layer) && SourcesExist(gens, w.tree)
    requires Done(tools, gens, Below(gens, layer, k), w.tree, w.store)
    requires Generated(tools, gens, false, w.tree, w.store) == Outcome(w'.tree, w'.store, true)
    ensures SourcesExist(gens, w'.tree) && Done(tools, gens, Below(gens, layer, k + 1), w'.tree, w'.store)
  {
    var done, done' := Below(gens, layer, k), Below(gens, layer, k + 1);
    forall g | g in done'
      ensures FedBy(gens, done', g) && Clean(tools, Files(g), w'.tree, Stored(w'.store, g))
    {
      forall f | f in Sources(g)
        ensures SettledFile(gens, done, f) && SettledFile(gens, done', f) && f in w.tree
      {
        if exists h :: h in gens && f in h.outputs {
          var h :| h in gens && f in h.outputs;
          assert layer(h) < layer(g) && h in done && f in Files(h);
          assert FileClean(tools, f, w.tree, Stored(w.store, h));
        }
      }
      RunSettles(tools, gens, done, w.tree, w.store, g);
    }
    RunKeepsPlainFiles(tools, gens, w.tree, w.store);
    forall g, f | g in gens && f in Sources(g)
      ensures f in w'.tree || exists h :: h in gens && f in h.outputs
    {
      if !exists h :: h in gens && f in h.outputs {
        assert SettledFile(gens, {}, f);
      }
    }
  }

  lemma {:induction false} OkListed(tools: Tools, gens: seq<Generator>, store: Store, p: Progress)
    requires !VisitAll(tools, gens, false, store, p).failed
    ensures forall g :: g in gens ==> g.listed
  {
    if gens != [] {
      var q := Visit(tools, gens[0], false, store, p);
      if q.failed {
        DirtyStays(tools, gens[1..], store, q);
      } else {
        OkListed(tools, gens[1..], store, q);
      }
    }
  }

  /** The generators at the start stay the generators of the table over any number of runs. */
  ghost predicate Same(tools: Tools, rows: seq<Row>, gens: seq<Generator>, tree: Tree) {
    AskAll(tools, rows, tree) == gens && Steady(tools, gens, tree)
  }

  lemma StaysSame(tools: Tools, rows: seq<Row>, gens: seq<Generator>, tree: Tree, t: Tree)
    requires Same(tools, rows, gens, tree) && SameApart(gens, tree, t)
    ensures Same(tools, rows, gens, t)
  {
    SteadyAsk(tools, rows, tree, t);
    forall g, u: Tree | g in gens && SameApart(gens, t, u)
      ensures Ask(tools, RowOf(g), u) == g
    {
      assert SameApart(gens, tree, u);
    }
  }

  lemma TidyKnown(rows: seq<Row>, gens: seq<Generator>, store: Store)
    requires |rows| == |gens| && (forall i :: 0 <= i < |rows| ==> RowOf(gens[i]) == rows[i]) && Tidy(gens, store)
    ensures KnownFiles(rows, store)
  {
    forall file | file in store
      ensures KnownFile(rows, file)
    {
      assert OwnFiles(gens, file, store[file]);
      var g :| g in gens && HashFile(g.name) == file;
      var i :| 0 <= i < |gens| && gens[i] == g;
      assert rows[i] in rows && HashFile(rows[i].name) == file;
    }
  }

  lemma {:induction false} RunsSettle(tools: Tools, rows: seq<Row>, gens: seq<Generator>, layer: Generator -> nat,
                                      k: nat, n: nat, w: World)
    requires rows != [] && Same(tools, rows, gens, w.tree)
    requires WellFormed(gens) && Layered(gens, layer) && SourcesExist(gens, w.tree) && KnownFiles(rows, w.store)
    requires Done(tools, gens, Below(gens, layer, k), w.tree, w.store) && RunsOk(tools, rows, n, w)
    ensures var w' := AfterRuns(tools, rows, n, w);
            && Same(tools, rows, gens, w'.tree)
            && (n > 0 ==> Tidy(gens, w'.store) && forall g :: g in gens ==> g.listed)
            && Done(tools, gens, Below(gens, layer, k + n), w'.tree, w'.store)
    decreases n
  {
    if n > 0 {
      var w' := Act(tools, Make(rows, false), w);
      SteadyRun(tools, rows, false, w.tree, w.store);
      StaysSame(tools, rows, gens, w.tree, w'.tree);
      LayerSettles(tools, gens, layer, k, w, w');
      RunTidies(tools, rows, gens, w.tree, w.store);
      TidyKnown(rows, gens, w'.store);
      OkListed(tools, gens, w.store, Start(w.tree));
      RunsSettle(tools, rows, gens, layer, k + 1, n - 1, w');
    }
  }

  /**
    From any file tree that has the sources nobody generates, and any hashes, of files listed or not, in
    the hash files of the table, as many successful full runs as there are layers make verification pass.
   */
  lemma RunsMakeVerifyPass(tools: Tools, rows: seq<Row>, layer: Generator -> nat, layers: nat, start: World)
    requires rows != [] && KnownFiles(rows, start.store) && RunsOk(tools, rows, layers, start)
    requires var gens := AskAll(tools, rows, start.tree);
             && WellFormed(gens) && Steady(tools, gens, start.tree)
             && Layered(gens, layer) && SourcesExist(gens, start.tree) && forall g :: g in gens ==> layer(g) < layers
    ensures var w := AfterRuns(tools, rows, layers, start); Passes(tools, rows, false, w.tree, w.store)
  {
    var gens := AskAll(tools, rows, start.tree);
    assert gens[0] in gens && Below(gens, layer, 0) == {};
    RunsSettle(tools, rows, gens, layer, 0, layers, start);
    var w := AfterRuns(tools, rows, layers, start);
    forall g | g in gens
      ensures Clean(tools, Files(g), w.tree, Stored(w.store, g))
    {
      assert g in Below(gens, layer, layers);
    }
    AllCleanPasses(tools, gens, w.tree, w.store);
    PassesIs(tools, rows, false, w.tree, w.store);
  }

  /** In particular after any history that started with no hashes, whatever the lists were and however its runs ended. */
  lemma HistoryThenRunsPass(tools: Tools, rows: seq<Row>, layer: Generator -> nat, layers: nat,
                            actions: seq<Action>, tree: Tree)
    requires rows != [] && forall a, row :: a in actions && a.Make? && row in a.rows ==> row in rows
    requires var start := ActAll(tools, actions, World(tree, map[]));
             var gens := AskAll(tools, rows, start.tree);
             && WellFormed(gens) && Steady(tools, gens, start.tree) && RunsOk(tools, rows, layers, start)
             && Layered(gens, layer) && SourcesExist(gens, start.tree) && forall g :: g in gens ==> layer(g) < layers
    ensures var w := AfterRuns(tools, rows, layers, ActAll(tools, actions, World(tree, map[])));
            Passes(tools, rows, false, w.tree, w.store)
  {
    HistoryKnown(tools, rows, actions, World(tree, map[]));
    RunsMakeVerifyPass(tools, rows, layer, layers, ActAll(tools, actions, World(tree, map[])));
  }
}
