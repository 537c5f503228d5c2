/**
  Incremental code generation: a store of file hashes decides which generators run.

  A run asks every generator's script for its inputs and outputs, visits the generators in order,
  compares the hashes of each one's inputs, outputs and script with the stored ones, and runs the
  generator when any differs.  At the end the outputs of the generators that ran are formatted, the
  scripts are asked for their outputs again, and the hashes are written back.
 */
module CodeGeneration {
  import opened Prelude

  type Path = string
  type Content = string
  type Digest = int
  type Tree = map<Path, Content>
  type Hashes = map<Path, Digest>
  type Store = map<string, Hashes>

  /** A row of the table of generators. */
  datatype Row = Row(name: string, script: Path)

  /** What a script answers when it is asked for its inputs and outputs. */
  datatype Info = Info(inputs: seq<Path>, outputs: seq<Path>)

  /** A row with the answer of its script; without one if asking failed. */
  datatype Generator = Generator(name: string, script: Path, listed: bool, inputs: seq<Path>, outputs: seq<Path>)

  /** The files a generator's process writes, and whether it ends well. */
  datatype Product = Product(files: Tree, ok: bool)

  /**
    The tools: the hash, what each script answers about its files (which may depend on any file, such
    as those in a directory), what each generator produces from what it reads, and the formatter.
   */
  datatype Tools = Tools(
    hash: Content -> Digest,
    lists: (string, Tree) -> Option<Info>,
    produce: (string, Tree) -> Product,
    format: (Path, Content) -> Content)

  /** Asking a script in front of a file tree. */
  function Ask(tools: Tools, row: Row, tree: Tree): Generator {
    match tools.lists(row.name, tree)
    case None => Generator(row.name, row.script, false, [], [])
    case Some(info) => Generator(row.name, row.script, true, info.inputs, info.outputs)
  }

  function AskAll(tools: Tools, rows: seq<Row>, tree: Tree): seq<Generator> {
    seq(|rows|, i requires 0 <= i < |rows| => Ask(tools, rows[i], tree))
  }

  function RowOf(g: Generator): Row {
    Row(g.name, g.script)
  }

  function HashFile(name: string): string {
    seq(|name|, i requires 0 <= i < |name| => if name[i] == ' ' || name[i] == '/' then '_' else name[i]) + ".json"
  }

  function Sources(g: Generator): seq<Path> {
    g.inputs + [g.script]
  }

  function Files(g: Generator): seq<Path> {
    g.inputs + g.outputs + [g.script]
  }

  /** What a generator reads. */
  function View(g: Generator, tree: Tree): Tree {
    map f | f in tree && f in Sources(g) :: tree[f]
  }

  // ----- the checks, as values

  function HashesOf(tools: Tools, files: seq<Path>, tree: Tree): Hashes {
    map f | f in tree && f in files :: tools.hash(tree[f])
  }

  lemma HashesMore(tools: Tools, files: seq<Path>, tree: Tree, hashes: Hashes, f: Path)
    requires f in tree
    ensures hashes + HashesOf(tools, files + [f], tree) == (hashes + HashesOf(tools, files, tree))[f := tools.hash(tree[f])]
  {
  }

  predicate FileClean(tools: Tools, f: Path, tree: Tree, stored: Hashes) {
    f in tree && f in stored && stored[f] == tools.hash(tree[f])
  }

  predicate Clean(tools: Tools, files: seq<Path>, tree: Tree, stored: Hashes) {
    forall f :: f in files ==> FileClean(tools, f, tree, stored)
  }

  predicate OldHashMissing(current: Store, stored: Store) {
    exists file :: file in stored && (file !in current || exists f :: f in stored[file] && f !in current[file])
  }

  function HashesFor(store: Store, row: Row): Hashes {
    if HashFile(row.name) in store then store[HashFile(row.name)] else map[]
  }

  function Stored(store: Store, g: Generator): Hashes {
    HashesFor(store, RowOf(g))
  }

  // ----- one run, as a function of the file tree and the hash store

  datatype Progress = Progress(tree: Tree, current: Store, dirtyOutputs: set<Path>, anyDirty: bool, failed: bool)

  function OutputSet(g: Generator): set<Path> {
    set o | o in g.outputs
  }

  /** Running one generator: only its declared outputs change. */
  function Ran(g: Generator, product: Product, tree: Tree): Tree {
    map f | f in tree.Keys + (product.files.Keys * OutputSet(g)) ::
      if f in product.files && f in OutputSet(g) then product.files[f] else tree[f]
  }

  /**
    Visiting a generator that gave its lists as `g` before the run; its process works with the lists
    `later` that it has by now.
   */
  function VisitAs(tools: Tools, g: Generator, later: Generator, verifyOnly: bool, store: Store, p: Progress): Progress {
    if p.failed then p
    else if !g.listed then p.(failed := true)
    else
      var current := p.current[HashFile(g.name) := HashesOf(tools, Files(g), p.tree)];
      if Clean(tools, Files(g), p.tree, Stored(store, g)) then p.(current := current)
      else if verifyOnly then p.(current := current, dirtyOutputs := p.dirtyOutputs + OutputSet(g), anyDirty := true)
      else
        var product := tools.produce(g.name, View(later, p.tree));
        if product.ok then
          Progress(Ran(later, product, p.tree), current, p.dirtyOutputs + OutputSet(g), true, false)
        else p.(tree := Ran(later, product, p.tree), failed := true)
  }

  function Loop(tools: Tools, gens: seq<Generator>, verifyOnly: bool, store: Store, p: Progress): Progress {
    if gens == [] then p
    else
      var g := gens[0];
      Loop(tools, gens[1..], verifyOnly, store, VisitAs(tools, g, Ask(tools, RowOf(g), p.tree), verifyOnly, store, p))
  }

  function Formatted(tools: Tools, tree: Tree, files: set<Path>): Tree {
    map f | f in tree :: if f in files then tools.format(f, tree[f]) else tree[f]
  }

  /** Replacing the output hashes after formatting; a missing answer or output aborts. */
  function Rehashed(tools: Tools, gens: seq<Generator>, tree: Tree, current: Store): Option<Store> {
    if gens == [] then Some(current)
    else
      var g := gens[0];
      if !g.listed || !(OutputSet(g) <= tree.Keys) then None
      else
        Rehashed(tools, gens[1..], tree,
                 current[HashFile(g.name) := Stored(current, g) + HashesOf(tools, g.outputs, tree)])
  }

  datatype Outcome = Outcome(tree: Tree, store: Store, ok: bool)

  function Start(tree: Tree): Progress {
    Progress(tree, map[], {}, false, false)
  }

  /** A generating run over the selected rows; `single` when they were named on the command line. */
  function Run(tools: Tools, rows: seq<Row>, single: bool, tree: Tree, store: Store): Outcome {
    if rows == [] then Outcome(tree, store, false)
    else
      var p := Loop(tools, AskAll(tools, rows, tree), false, store, Start(tree));
      Ending(tools, AskAll(tools, rows, Formatted(tools, p.tree, p.dirtyOutputs)), single, store, p)
  }

  /** What follows the visits; `gens` are the generators as asked after formatting. */
  function Ending(tools: Tools, gens: seq<Generator>, single: bool, store: Store, p: Progress): Outcome {
    if p.failed then Outcome(p.tree, store, false)
    else if !p.anyDirty && (single || !OldHashMissing(p.current, store)) then Outcome(p.tree, store, true)
    else
      var tree := Formatted(tools, p.tree, p.dirtyOutputs);
      var current := Rehashed(tools, gens, tree, p.current);
      if current.Some? then Outcome(tree, store + current.value, true) else Outcome(tree, store, false)
  }

  /** A verifying run: it changes nothing and says whether anything is dirty. */
  predicate Passes(tools: Tools, rows: seq<Row>, single: bool, tree: Tree, store: Store) {
    rows != [] &&
    var p := Loop(tools, AskAll(tools, rows, tree), true, store, Start(tree));
    !p.failed && !p.anyDirty && (single || !OldHashMissing(p.current, store))
  }

  // ----- the program

  class Runner {
    const tools: Tools
    var tree: Tree
    var store: Store

    constructor (tools: Tools, tree: Tree, store: Store)
      ensures this.tools == tools && this.tree == tree && this.store == store
    {
      this.tools := tools;
      this.tree := tree;
      this.store := store;
    }

    method AnyHashDirty(files: seq<Path>, stored: Hashes) returns (dirty: bool, current: Hashes)
      ensures dirty == !Clean(tools, files, tree, stored)
      ensures current == HashesOf(tools, files, tree)
    {
      dirty, current := false, map[];
      for i := 0 to |files|
        invariant dirty == !Clean(tools, files[..i], tree, stored)
        invariant current == HashesOf(tools, files[..i], tree)
      {
        var f := files[i];
        assert files[..i + 1] == files[..i] + [f];
        if f !in tree {
          dirty := true;
          assert !FileClean(tools, f, tree, stored);
        } else {
          current := current[f := tools.hash(tree[f])];
          if f !in stored || stored[f] != current[f] {
            dirty := true;
            assert !FileClean(tools, f, tree, stored);
          }
        }
      }
      assert files[..|files|] == files;
    }

    method AnyOldHashMissing(current: Store) returns (missing: bool)
      ensures missing == OldHashMissing(current, store)
    {
      missing := false;
      var files := store.Keys;
      while files != {}
        invariant files <= store.Keys
        invariant missing == exists file :: file in store.Keys - files &&
                                            (file !in current || exists f :: f in store[file] && f !in current[file])
        decreases |files|
      {
        var file :| file in files;
        if file !in current {
          missing := true;
        } else if exists f :: f in store[file] && f !in current[file] {
          missing := true;
        }
        files := files - {file};
      }
    }

    method UpdateOutputHashes(g: Generator, hashes: Hashes) returns (ok: bool, updated: Hashes)
      ensures ok == (OutputSet(g) <= tree.Keys)
      ensures ok ==> updated == hashes + HashesOf(tools, g.outputs, tree)
    {
      updated := hashes;
      for i := 0 to |g.outputs|
        invariant forall j :: 0 <= j < i ==> g.outputs[j] in tree
        invariant updated == hashes + HashesOf(tools, g.outputs[..i], tree)
      {
        var o := g.outputs[i];
        if o !in tree {
          assert o in OutputSet(g);
          return false, updated;
        }
        assert g.outputs[..i + 1] == g.outputs[..i] + [o];
        HashesMore(tools, g.outputs[..i], tree, hashes, o);
        updated := updated[o := tools.hash(tree[o])];
      }
      assert g.outputs[..|g.outputs|] == g.outputs;
      ok := true;
    }

    /** The loop over the generators. */
    method VisitGenerators(gens: seq<Generator>, verifyOnly: bool) returns (p: Progress)
      modifies this`tree
      ensures p == Loop(tools, gens, verifyOnly, store, Start(old(tree)))
      ensures tree == p.tree
    {
      p := Start(tree);
      var i := 0;
      while i < |gens|
        invariant 0 <= i <= |gens|
        invariant Loop(tools, gens[i..], verifyOnly, store, p) == Loop(tools, gens, verifyOnly, store, Start(old(tree)))
        invariant tree == p.tree
        invariant !p.failed
      {
        var g := gens[i];
        assert gens[i..][1..] == gens[i + 1..];
        if !g.listed {
          p := p.(failed := true);
          FailedStays(tools, gens[i + 1..], verifyOnly, store, p);
          return;
        }
        var stored := if HashFile(g.name) in store then store[HashFile(g.name)] else map[];
        var dirty, hashes := AnyHashDirty(Files(g), stored);
        if dirty && !verifyOnly {
          var later := Ask(tools, RowOf(g), tree);
          var product := tools.produce(g.name, View(later, tree));
          tree := Ran(later, product, tree);
          if !product.ok {
            p := p.(tree := tree, failed := true);
            FailedStays(tools, gens[i + 1..], verifyOnly, store, p);
            return;
          }
        }
        p := Progress(tree, p.current[HashFile(g.name) := hashes],
                      if dirty then p.dirtyOutputs + OutputSet(g) else p.dirtyOutputs, p.anyDirty || dirty, false);
        i := i + 1;
      }
    }

    method Verify(rows: seq<Row>, single: bool) returns (clean: bool)
      modifies this`tree
      ensures tree == old(tree)
      ensures clean == Passes(tools, rows, single, tree, store)
    {
      if rows == [] {
        return false;
      }
      var p := VisitGenerators(AskAll(tools, rows, tree), true);
      VerifyKeepsTree(tools, AskAll(tools, rows, old(tree)), store, Start(old(tree)));
      clean := !p.failed && !p.anyDirty;
      if clean && !single {
        var missing := AnyOldHashMissing(p.current);
        clean := !missing;
      }
    }

    method Generate(rows: seq<Row>, single: bool) returns (ok: bool)
      modifies this
      ensures Outcome(tree, store, ok) == Run(tools, rows, single, old(tree), old(store))
    {
      if rows == [] {
        return false;
      }
      var p := VisitGenerators(AskAll(tools, rows, tree), false);
      if p.failed {
        return false;
      }
      var anyDirty := p.anyDirty;
      if !anyDirty && !single {
        anyDirty := AnyOldHashMissing(p.current);
      }
      if !anyDirty {
        return true;
      }
      tree := Formatted(tools, tree, p.dirtyOutputs);
      var gens, current := AskAll(tools, rows, tree), p.current;
      var i := 0;
      while i < |gens|
        invariant 0 <= i <= |gens|
        invariant tree == Formatted(tools, p.tree, p.dirtyOutputs) && store == old(store)
        invariant Rehashed(tools, gens[i..], tree, current) == Rehashed(tools, gens, tree, p.current)
      {
        var g := gens[i];
        assert gens[i..][1..] == gens[i + 1..];
        var hashes := if HashFile(g.name) in current then current[HashFile(g.name)] else map[];
        var found, updated := g.listed, hashes;
        if found {
          found, updated := UpdateOutputHashes(g, hashes);
        }
        if !found {
          assert Rehashed(tools, gens[i..], tree, current).None?;
          return false;
        }
        current := current[HashFile(g.name) := updated];
        i := i + 1;
      }
      store := store + current;
      ok := true;
    }
  }

  lemma {:induction false} FailedStays(tools: Tools, gens: seq<Generator>, verifyOnly: bool, store: Store, p: Progress)
    requires p.failed
    ensures Loop(tools, gens, verifyOnly, store, p) == p
  {
    if gens != [] {
      FailedStays(tools, gens[1..], verifyOnly, store, p);
    }
  }

  lemma {:induction false} VerifyKeepsTree(tools: Tools, gens: seq<Generator>, store: Store, p: Progress)
    ensures Loop(tools, gens, true, store, p).tree == p.tree
  {
    if gens != [] {
      var g := gens[0];
      VerifyKeepsTree(tools, gens[1..], store, VisitAs(tools, g, Ask(tools, RowOf(g), p.tree), true, store, p));
    }
  }
}
