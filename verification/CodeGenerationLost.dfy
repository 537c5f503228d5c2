/** Histories after which verification passes: one as it should, and others although an output is out of date. */
module CodeGenerationLost {
  import opened Prelude
  import opened CodeGeneration
  import opened CodeGenerationRuns
  import opened CodeGenerationSound
  import opened CodeGenerationSettles

  // ----- a generator that lists a directory

  /** The files a and b as far as they exist. */
  function Directory(tree: Tree): seq<Path> {
    (if "a" in tree then ["a"] else []) + (if "b" in tree then ["b"] else [])
  }

  /** Its one output says whether it read b. */
  function DirectoryTools(hash: Content -> Digest): Tools {
    Tools(hash,
          (name, tree) => Some(Info(Directory(tree), ["o"])),
          (name, view) => Product(map["o" := if "b" in view then "with" else "without"], true),
          (path, content) => content)
  }

  const LISTER := Row("lister", "s")

  const BOTH: Tree := map["s" := "", "a" := "", "b" := ""]

  const MADE: Tree := map["s" := "", "a" := "", "b" := "", "o" := "with"]

  const LEFT: Tree := map["s" := "", "a" := "", "o" := "with"]

  /** Its outputs have no influence on its lists. */
  lemma DirectoryOrderly(hash: Content -> Digest, tree: Tree)
    ensures Orderly(DirectoryTools(hash), [LISTER], [LISTER], tree)
  {
    var tools := DirectoryTools(hash);
    var gens := AskAll(tools, [LISTER], tree);
    assert gens == [Ask(tools, LISTER, tree)];
    forall g, t: Tree | g in gens && SameApart(gens, tree, t)
      ensures Ask(tools, RowOf(g), t) == g
    {
      assert forall f :: IsOutputOf(gens, f) ==> f == "o";
      assert !IsOutputOf(gens, "a") && !IsOutputOf(gens, "b");
    }
  }

  /** It lists no file now as a source and now as an output, and all its runs are orderly. */
  lemma DirectoryFair(hash: Content -> Digest)
    ensures var tools := DirectoryTools(hash);
            Separated(tools, [LISTER]) && OwnNames([LISTER]) && forall tree :: Orderly(tools, [LISTER], [LISTER], tree)
  {
    var tools := DirectoryTools(hash);
    forall row, t: Tree, f | row in [LISTER] && f in Sources(Ask(tools, row, t))
      ensures !IsOutput(tools, row, f)
    {
      assert f != "o";
    }
    forall tree: Tree
      ensures Orderly(tools, [LISTER], [LISTER], tree)
    {
      DirectoryOrderly(hash, tree);
    }
  }

  const BEFORE := Generator("lister", "s", true, ["a", "b"], ["o"])

  const AFTER := Generator("lister", "s", true, ["a"], ["o"])

  lemma DirectoryAsked(hash: Content -> Digest, tree: Tree)
    requires "a" in tree
    ensures AskAll(DirectoryTools(hash), [LISTER], tree) == [if "b" in tree then BEFORE else AFTER]
  {
    assert ["a"] + ["b"] == ["a", "b"] && ["a"] + [] == ["a"];
  }

  lemma DirectoryMade(hash: Content -> Digest)
    ensures var tools := DirectoryTools(hash);
            var product := tools.produce("lister", View(BEFORE, BOTH));
            product.ok && Ran(BEFORE, product, BOTH) == MADE && Formatted(tools, MADE, OutputSet(BEFORE)) == MADE
  {
    var tools := DirectoryTools(hash);
    assert Sources(BEFORE) == ["a", "b", "s"];
    assert "b" in View(BEFORE, BOTH);
    assert OutputSet(BEFORE) == {"o"};
  }

  function Noted(hash: Content -> Digest): Hashes {
    HashesOf(DirectoryTools(hash), ["a", "b", "s", "o"], MADE)
  }

  lemma DirectoryHashes(hash: Content -> Digest)
    ensures var tools := DirectoryTools(hash);
            HashesOf(tools, Files(BEFORE), BOTH) + HashesOf(tools, BEFORE.outputs, MADE) == Noted(hash)
  {
    assert Files(BEFORE) == ["a", "b", "o", "s"];
  }

  /** The first run makes the output from both files. */
  lemma FirstRun(hash: Content -> Digest)
    ensures var tools := DirectoryTools(hash);
            Run(tools, [LISTER], false, BOTH, map[]) == Outcome(MADE, map[HashFile("lister") := Noted(hash)], true)
  {
    var tools := DirectoryTools(hash);
    DirectoryOrderly(hash, BOTH);
    SteadyRun(tools, [LISTER], false, BOTH, map[]);
    DirectoryAsked(hash, BOTH);
    DirectoryMade(hash);
    DirectoryHashes(hash);
    NothingMatchesNothing(tools, LISTER, BOTH);
    assert Ask(tools, LISTER, BOTH) == AskAll(tools, [LISTER], BOTH)[0];
    LoneRun(tools, BEFORE, BOTH);
  }

  /** The first run of a generator on its own. */
  lemma LoneRun(tools: Tools, g: Generator, tree: Tree)
    requires g.listed && !Clean(tools, Files(g), tree, map[])
    requires var product := tools.produce(g.name, View(g, tree)); product.ok && OutputSet(g) <= Ran(g, product, tree).Keys
    ensures var end := Formatted(tools, Ran(g, tools.produce(g.name, View(g, tree)), tree), OutputSet(g));
            Generated(tools, [g], false, tree, map[]) ==
            Outcome(end, map[HashFile(g.name) := HashesOf(tools, Files(g), tree) + HashesOf(tools, g.outputs, end)], true)
  {
    var p := Visit(tools, g, false, map[], Start(tree));
    assert VisitAll(tools, [g], false, map[], Start(tree)) == VisitAll(tools, [], false, map[], p) == p;
    assert p.dirtyOutputs == OutputSet(g);
    var end := Formatted(tools, p.tree, p.dirtyOutputs);
    var current := p.current[HashFile(g.name) := Stored(p.current, g) + HashesOf(tools, g.outputs, end)];
    assert Rehashed(tools, [g], end, p.current) == Rehashed(tools, [], end, current);
  }

  /** A history of one first run. */
  lemma OneRun(tools: Tools, rows: seq<Row>, w: World)
    requires w.store == map[] && Orderly(tools, rows, rows, w.tree)
    ensures var actions, o := [Make(rows, false)], Run(tools, rows, false, w.tree, w.store);
            && ActAll(tools, actions, w) == World(o.tree, o.store)
            && OrderlyHistory(tools, rows, actions, w) && CarefulHistory(tools, actions, w)
  {
    var actions := [Make(rows, false)];
    var next := Act(tools, actions[0], w);
    assert actions[1..] == [] && ActAll(tools, [], next) == next;
    forall i | 0 <= i < |rows|
      ensures !CleanAtVisit(tools, AskAll(tools, rows, w.tree), i, w.tree, w.store)
    {
      var g := AskAll(tools, rows, w.tree)[i];
      var was := Reached(tools, AskAll(tools, rows, w.tree), i, w.store, w.tree).tree;
      assert g.script in Files(g) && !FileClean(tools, g.script, was, map[]);
    }
    assert Careful(tools, rows, w.tree, w.store);
  }

  lemma MadeNoted(hash: Content -> Digest)
    ensures Clean(DirectoryTools(hash), Files(BEFORE), MADE, Noted(hash))
  {
    assert Files(BEFORE) == ["a", "b", "o", "s"];
    StillClean(DirectoryTools(hash), Files(BEFORE), ["a", "b", "s", "o"], MADE, MADE);
  }

  lemma MadePasses(hash: Content -> Digest)
    ensures Passes(DirectoryTools(hash), [LISTER], false, MADE, map[HashFile("lister") := Noted(hash)])
  {
    var tools, store := DirectoryTools(hash), map[HashFile("lister") := Noted(hash)];
    DirectoryOrderly(hash, MADE);
    DirectoryAsked(hash, MADE);
    MadeNoted(hash);
    assert forall f :: f in Noted(hash) ==> f in Files(BEFORE);
    assert BEFORE in [BEFORE] && OwnFiles([BEFORE], HashFile("lister"), Noted(hash));
    assert Tidy([BEFORE], store);
    AllCleanPasses(tools, [BEFORE], MADE, store);
    PassesIs(tools, [LISTER], false, MADE, store);
  }

  /** All that `VerifySound` asks for can be met: a first run, after which verification passes. */
  lemma FirstRunVerified(hash: Content -> Digest)
    requires forall a, b :: hash(a) == hash(b) ==> a == b
    ensures var tools, actions, w := DirectoryTools(hash), [Make([LISTER], false)], World(BOTH, map[]);
            && Injective(tools) && Separated(tools, [LISTER]) && OwnNames([LISTER])
            && OrderlyHistory(tools, [LISTER], actions, w) && CarefulHistory(tools, actions, w)
            && var w' := ActAll(tools, actions, w);
               Passes(tools, [LISTER], false, w'.tree, w'.store) && UpToDate(tools, LISTER, w'.tree)
  {
    DirectoryFair(hash);
    OneRun(DirectoryTools(hash), [LISTER], World(BOTH, map[]));
    FirstRun(hash);
    MadePasses(hash);
    assert LISTER in [LISTER];
    VerifySound(DirectoryTools(hash), [LISTER], [LISTER], false, [Make([LISTER], false)], BOTH);
  }

  /** A first run, and then b is deleted. */
  function Deleted(hash: Content -> Digest): World {
    var tools := DirectoryTools(hash);
    Act(tools, Delete("b"), Act(tools, Make([LISTER], false), World(BOTH, map[])))
  }

  lemma DeletedIs(hash: Content -> Digest)
    ensures Deleted(hash) == World(LEFT, map[HashFile("lister") := Noted(hash)])
    ensures HashesFor(Deleted(hash).store, LISTER) == Noted(hash)
  {
    FirstRun(hash);
    LeftIs();
    MadeAndDeleted(DirectoryTools(hash), [LISTER], World(BOTH, map[]), "b", MADE, LEFT, Noted(hash));
  }

  lemma LeftIs()
    ensures MADE - {"b"} == LEFT
  {
  }

  lemma MadeAndDeleted(tools: Tools, rows: seq<Row>, w: World, f: Path, made: Tree, left: Tree, noted: Hashes)
    requires var o := Run(tools, rows, false, w.tree, w.store);
             o.tree == made && o.store == map[HashFile("lister") := noted] && left == made - {f}
    ensures var w' := Act(tools, Delete(f), Act(tools, Make(rows, false), w));
            w' == World(left, map[HashFile("lister") := noted]) && HashesFor(w'.store, LISTER) == noted
  {
  }

  lemma LeftIsClean(hash: Content -> Digest)
    ensures var tools := DirectoryTools(hash);
            && Ask(tools, LISTER, LEFT) == AFTER
            && Clean(tools, Files(AFTER), LEFT, Noted(hash)) && !UpToDate(tools, LISTER, LEFT)
  {
    var tools := DirectoryTools(hash);
    DirectoryAsked(hash, LEFT);
    assert Ask(tools, LISTER, LEFT) == AskAll(tools, [LISTER], LEFT)[0];
    assert Sources(AFTER) == ["a", "s"] && "b" !in View(AFTER, LEFT) && "o" in AFTER.outputs;
    LeftNoted(hash);
  }

  lemma LeftNoted(hash: Content -> Digest)
    ensures Clean(DirectoryTools(hash), Files(AFTER), LEFT, Noted(hash))
  {
    assert Files(AFTER) == ["a", "o", "s"];
    StillClean(DirectoryTools(hash), Files(AFTER), ["a", "b", "s", "o"], MADE, LEFT);
  }

  lemma StillClean(tools: Tools, files: seq<Path>, noted: seq<Path>, tree: Tree, left: Tree)
    requires forall f :: f in files ==> f in noted && f in tree && f in left && tree[f] == left[f]
    ensures Clean(tools, files, left, HashesOf(tools, noted, tree))
  {
  }

  /**
    A generator made its output from two files, and one of them is deleted.  Naming the generator,
    verification passes although the output is out of date; without naming it, it does not pass.
   */
  lemma NamedVerifyMisses(hash: Content -> Digest)
    ensures var tools := DirectoryTools(hash);
            var w := Deleted(hash);
            && Passes(tools, [LISTER], true, w.tree, w.store) && !UpToDate(tools, LISTER, w.tree)
            && !Passes(tools, [LISTER], false, w.tree, w.store)
  {
    var tools, w := DirectoryTools(hash), Deleted(hash);
    DeletedIs(hash);
    LeftIsClean(hash);
    DirectoryAsked(hash, LEFT);
    LonePasses(tools, AFTER, LEFT, w.store);
    PassesIs(tools, [LISTER], true, LEFT, w.store);
    NameGone(tools, [LISTER], LEFT, w.store, LISTER, "b");
  }

  /** A stored name that is not listed any more is noticed when nothing is named. */
  lemma NameGone(tools: Tools, rows: seq<Row>, tree: Tree, store: Store, row: Row, f: Path)
    requires OwnNames(rows) && row in rows && f in HashesFor(store, row) && f !in Files(Ask(tools, row, tree))
    ensures !Passes(tools, rows, false, tree, store)
  {
    if Passes(tools, rows, false, tree, store) {
      FullPassKeepsNames(tools, rows, tree, store, row);
    }
  }

  /** Named on its own, a generator passes if it is clean on what it lists. */
  lemma LonePasses(tools: Tools, g: Generator, tree: Tree, store: Store)
    requires g.listed && Clean(tools, Files(g), tree, Stored(store, g))
    ensures VerifyPasses(tools, [g], true, tree, store)
  {
    var p := Visit(tools, g, true, store, Start(tree));
    assert VisitAll(tools, [g], true, store, Start(tree)) == VisitAll(tools, [], true, store, p) == p;
  }

  /** A full run in between forgets the deleted file, and then the full verification passes as well. */
  lemma FullVerifyMisses(hash: Content -> Digest)
    ensures var tools := DirectoryTools(hash);
            var w' := Act(tools, Make([LISTER], false), Deleted(hash));
            Passes(tools, [LISTER], false, w'.tree, w'.store) && !UpToDate(tools, LISTER, w'.tree)
  {
    var tools, w := DirectoryTools(hash), Deleted(hash);
    DeletedIs(hash);
    LeftIsClean(hash);
    DirectoryOrderly(hash, LEFT);
    DirectoryAsked(hash, LEFT);
    assert KnownFile([LISTER], HashFile("lister")) by { assert LISTER in [LISTER]; }
    FullRunForgets(tools, [LISTER], LEFT, w.store);
  }

  // ----- lists that a run changes

  /** The first generator writes b; the second one lists b if it is there. */
  function FeedingTools(hash: Content -> Digest): Tools {
    Tools(hash,
          (name, tree) => Some(if name == "maker" then Info([], ["b"]) else Info(if "b" in tree then ["b"] else [], ["o"])),
          (name, view) =>
            Product(if name == "maker" then map["b" := ""] else map["o" := if "b" in view then "with" else "without"], true),
          (path, content) => content)
  }

  const MAKER := Row("maker", "p")

  const READER := Row("reader", "q")

  const SCRIPTS: Tree := map["p" := "", "q" := ""]

  const FED: Tree := map["p" := "", "q" := "", "b" := ""]

  const ALL: Tree := map["p" := "", "q" := "", "b" := "", "o" := "with"]

  const CUT: Tree := map["p" := "", "q" := "", "o" := "with"]

  /** A first run over two generators. */
  lemma PairRun(tools: Tools, a: Row, b: Row, tree: Tree, mid: Tree, end: Tree)
    requires HashFile(a.name) != HashFile(b.name)
    requires Runs(tools, Ask(tools, a, tree), Ask(tools, a, tree), tree, mid)
    requires Runs(tools, Ask(tools, b, tree), Ask(tools, b, mid), mid, end)
    requires Formatted(tools, end, OutputSet(Ask(tools, a, tree)) + OutputSet(Ask(tools, b, tree))) == end
    requires forall row :: row in [a, b] ==> Ask(tools, row, end).listed && OutputSet(Ask(tools, row, end)) <= end.Keys
    ensures var o := Run(tools, [a, b], false, tree, map[]);
            && o.ok && o.tree == end
            && HashesFor(o.store, b) ==
               HashesOf(tools, Files(Ask(tools, b, tree)), mid) + HashesOf(tools, Ask(tools, b, end).outputs, end)
  {
    var g, h := Ask(tools, a, tree), Ask(tools, b, tree);
    assert AskAll(tools, [a, b], tree) == [g, h];
    var p := VisitAs(tools, g, g, false, map[], Start(tree));
    var q := VisitAs(tools, h, Ask(tools, b, mid), false, map[], p);
    assert [g, h][1..] == [h] && [h][1..] == [];
    assert Loop(tools, [h], false, map[], p) == Loop(tools, [], false, map[], q) == q;
    assert q.dirtyOutputs == OutputSet(g) + OutputSet(h);
    assert AskAll(tools, [a, b], end) == [Ask(tools, a, end), Ask(tools, b, end)];
    assert a in [a, b] && b in [a, b];
    RehashPair(tools, Ask(tools, a, end), Ask(tools, b, end), end, q.current);
  }

  /** Started with the lists `later`, the dirty generator turns one tree into the other. */
  predicate Runs(tools: Tools, g: Generator, later: Generator, tree: Tree, after: Tree) {
    var product := tools.produce(g.name, View(later, tree));
    g.listed && !Clean(tools, Files(g), tree, map[]) && product.ok && Ran(later, product, tree) == after
  }

  lemma RehashPair(tools: Tools, g: Generator, h: Generator, tree: Tree, current: Store)
    requires HashFile(g.name) != HashFile(h.name) && g.listed && h.listed
    requires OutputSet(g) <= tree.Keys && OutputSet(h) <= tree.Keys
    ensures var r := Rehashed(tools, [g, h], tree, current);
            && r.Some? && HashFile(h.name) in r.value
            && Stored(r.value, h) == Stored(current, h) + HashesOf(tools, h.outputs, tree)
  {
    var first := current[HashFile(g.name) := Stored(current, g) + HashesOf(tools, g.outputs, tree)];
    var second := first[HashFile(h.name) := Stored(first, h) + HashesOf(tools, h.outputs, tree)];
    assert [g, h][1..] == [h] && [h][1..] == [];
    assert Rehashed(tools, [h], tree, first) == Rehashed(tools, [], tree, second);
  }

  lemma FirstFeeds(hash: Content -> Digest)
    ensures var tools := FeedingTools(hash);
            Runs(tools, Ask(tools, MAKER, SCRIPTS), Ask(tools, MAKER, SCRIPTS), SCRIPTS, FED)
  {
    var tools := FeedingTools(hash);
    NothingMatchesNothing(tools, MAKER, SCRIPTS);
    assert OutputSet(Ask(tools, MAKER, SCRIPTS)) == {"b"};
  }

  lemma SecondReads(hash: Content -> Digest)
    ensures var tools := FeedingTools(hash);
            Runs(tools, Ask(tools, READER, SCRIPTS), Ask(tools, READER, FED), FED, ALL)
  {
    var tools := FeedingTools(hash);
    var g, later := Ask(tools, READER, SCRIPTS), Ask(tools, READER, FED);
    assert "q" in Files(g) && !FileClean(tools, "q", FED, map[]);
    assert "b" in Sources(later) && "b" in View(later, FED);
    assert OutputSet(later) == {"o"};
  }

  function ReaderNoted(hash: Content -> Digest): Hashes {
    HashesOf(FeedingTools(hash), ["q", "o"], ALL)
  }

  lemma FeedingRun(hash: Content -> Digest)
    ensures var o := Run(FeedingTools(hash), [MAKER, READER], false, SCRIPTS, map[]);
            o.ok && o.tree == ALL && HashesFor(o.store, READER) == ReaderNoted(hash)
  {
    var tools := FeedingTools(hash);
    NamesDiffer();
    FirstFeeds(hash);
    SecondReads(hash);
    FormatNothing(hash, ALL, OutputSet(Ask(tools, MAKER, SCRIPTS)) + OutputSet(Ask(tools, READER, SCRIPTS)));
    OutputsThere(hash);
    FeedingHashes(hash);
    PairRun(tools, MAKER, READER, SCRIPTS, FED, ALL);
  }

  lemma NamesDiffer()
    ensures HashFile(MAKER.name) != HashFile(READER.name)
  {
    assert HashFile("maker")[0] == 'm' && HashFile("reader")[0] == 'r';
  }

  lemma OutputsThere(hash: Content -> Digest)
    ensures var tools := FeedingTools(hash);
            forall row :: row in [MAKER, READER] ==>
              Ask(tools, row, ALL).listed && OutputSet(Ask(tools, row, ALL)) <= ALL.Keys
  {
    var tools := FeedingTools(hash);
    assert Ask(tools, MAKER, ALL).outputs == ["b"] && Ask(tools, READER, ALL).outputs == ["o"];
  }

  lemma FeedingHashes(hash: Content -> Digest)
    ensures var tools := FeedingTools(hash);
            HashesOf(tools, Files(Ask(tools, READER, SCRIPTS)), FED) + HashesOf(tools, Ask(tools, READER, ALL).outputs, ALL) ==
            ReaderNoted(hash)
  {
    var tools := FeedingTools(hash);
    assert Files(Ask(tools, READER, SCRIPTS)) == ["o", "q"] && Ask(tools, READER, ALL).outputs == ["o"];
  }

  lemma FormatNothing(hash: Content -> Digest, tree: Tree, files: set<Path>)
    ensures Formatted(FeedingTools(hash), tree, files) == tree
  {
  }

  /**
    The reader was run with b, which had not been there when it was asked for its files, so its hashes
    do not name b.  When b is deleted, it passes by name although its output is out of date and no
    stored name has left its lists.
   */
  lemma UnsteadyVerifyMisses(hash: Content -> Digest)
    ensures var tools := FeedingTools(hash);
            var w := Act(tools, Delete("b"), Act(tools, Make([MAKER, READER], false), World(SCRIPTS, map[])));
            && Passes(tools, [READER], true, w.tree, w.store) && !UpToDate(tools, READER, w.tree)
            && SourcesKept(tools, READER, HashesFor(w.store, READER), Ask(tools, READER, w.tree))
  {
    var tools := FeedingTools(hash);
    var o := Run(tools, [MAKER, READER], false, SCRIPTS, map[]);
    FeedingRun(hash);
    CutIs();
    CutPasses(hash, o.store);
  }

  lemma CutIs()
    ensures ALL - {"b"} == CUT
  {
  }

  lemma CutPasses(hash: Content -> Digest, store: Store)
    requires HashesFor(store, READER) == ReaderNoted(hash)
    ensures var tools := FeedingTools(hash);
            && Passes(tools, [READER], true, CUT, store) && !UpToDate(tools, READER, CUT)
            && SourcesKept(tools, READER, HashesFor(store, READER), Ask(tools, READER, CUT))
  {
    var tools := FeedingTools(hash);
    var g := Generator("reader", "q", true, [], ["o"]);
    assert Ask(tools, READER, CUT) == g && AskAll(tools, [READER], CUT) == [g] && Files(g) == ["o", "q"];
    StillClean(tools, Files(g), ["q", "o"], ALL, CUT);
    LonePasses(tools, g, CUT, store);
    PassesIs(tools, [READER], true, CUT, store);
    assert "b" !in View(g, CUT) && "o" in g.outputs;
  }
}
