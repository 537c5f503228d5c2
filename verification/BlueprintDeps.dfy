/**
  The dependency lists of an Android blueprint target.  The function that collects them is memoised
  and returns list objects; the caller stores those very objects in its blueprint and then extends
  two of them in place.  So what the cache holds changes under the feet of later calls.
 */
module BlueprintDeps {

  datatype Key = Key(abi: string, name: string)

  datatype Kind = StaticLibrary | SharedLibrary | SourceSet | Group | Action | RustFfi | RustLibrary | Other

  /**
    What is used of a target's description: its blueprint name, the dependencies, the system
    libraries after renaming, and the header rules of the files it generates for Rust.
   */
  datatype Target = Target(kind: Kind, blueprint: string, deps: seq<string>, libs: seq<string>, ffiHeaders: seq<string>)

  /**
    The tables of the script: the dependencies that are followed, what replaces some of the
    others, and the root libraries.
   */
  datatype Rules = Rules(
    followed: set<string>,
    replacedStatics: map<string, seq<string>>,
    replacedShared: map<string, seq<string>>,
    roots: set<string>)

  const BLOCKLIST: set<string> := {
    "//build/config:shared_library_deps",
    "//third_party/zlib:zlib",
    "//third_party/zlib/google:compression_utils_portable",
    "//testing/gtest:gtest",
    "//testing/gmock:gmock",
    "//third_party/googletest:gtest",
    "//third_party/googletest:gmock",
    "//build/rust:cxx_cppdeps",
    "//build/rust:cxx_rustdeps",
    "//build/rust/allocator:allocator",
    "//build/rust/std:std",
    "//build/rust/gni_impl:rustc_print_cfg",
    "//third_party/rust/cxxbridge_cmd/v1:cxxbridge(//build/toolchain/linux:clang_x64_for_rust_host_build_tools)",
    "//third_party/perfetto/src/tracing:client_api"
  }

  const THIRD_PARTY_ALLOWLIST: set<string> := {
    "//third_party/abseil-cpp",
    "//third_party/glslang/src",
    "//third_party/spirv-cross/src",
    "//third_party/spirv-headers/src",
    "//third_party/spirv-tools/src",
    "//third_party/vulkan-headers/src",
    "//third_party/vulkan-loader/src",
    "//third_party/vulkan-tools/src",
    "//third_party/vulkan-utility-libraries/src",
    "//third_party/vulkan-validation-layers/src",
    "//third_party/vulkan_memory_allocator"
  }

  predicate IsFollowed(dep: string) {
    && dep !in BLOCKLIST
    && ("//third_party" <= dep ==> exists prefix :: prefix in THIRD_PARTY_ALLOWLIST && prefix <= dep)
  }

  /** The tables of the script, for the dependencies that occur in a build. */
  function AngleRules(deps: set<string>): Rules {
    Rules(
      set d | d in deps && IsFollowed(d),
      map["//third_party/zlib/google:compression_utils_portable" := ["zlib_google_compression_utils_portable", "cpufeatures"],
          "//testing/gtest:gtest" := ["libgtest_ndk_c++"],
          "//testing/gmock:gmock" := ["libgmock_ndk"],
          "//third_party/perfetto/src/tracing:client_api" := ["libperfetto_client_experimental"]],
      map["//third_party/zlib/google:compression_utils_portable" := ["libz"]],
      {"//:libGLESv2", "//:libGLESv1_CM", "//:libEGL"})
  }

  type Rank = map<Key, nat>

  function Lookup(m: map<string, seq<string>>, x: string): seq<string> {
    if x in m then m[x] else []
  }

  type Graph = map<Key, Target>

  const COMMIT_ID := "angle_commit_id"
  const COMMON_CFLAGS := "angle_common_library_cflags"
  const ROOT_DEFAULTS := ["angle_vendor_cc_defaults", "angle_dma_buf_cc_defaults"]

  function DepKey(t: Key, dep: string): Key {
    Key(t.abi, dep)
  }

  /** Every followed dependency is described and lies lower: the graph of a build has no cycle. */
  ghost predicate Acyclic(g: Graph, rules: Rules, rank: Rank) {
    && (forall t :: t in g ==> t in rank)
    && forall t, dep :: t in g && dep in g[t].deps && dep in rules.followed ==>
      DepKey(t, dep) in g && rank[DepKey(t, dep)] < rank[t]
  }

  // ----- what one dependency adds

  predicate IsCommitId(d: Target) {
    d.kind.Action? && d.blueprint == COMMIT_ID
  }

  /** The dependencies whose own lists are propagated. */
  predicate Propagates(g: Graph, rules: Rules, t: Key, dep: string) {
    dep in rules.followed && DepKey(t, dep) in g && !IsCommitId(g[DepKey(t, dep)])
  }

  function OwnStatics(g: Graph, rules: Rules, t: Key, dep: string): seq<string> {
    if dep !in rules.followed then Lookup(rules.replacedStatics, dep)
    else if DepKey(t, dep) in g && g[DepKey(t, dep)].kind.StaticLibrary? then [g[DepKey(t, dep)].blueprint]
    else []
  }

  function OwnHeaders(g: Graph, rules: Rules, t: Key, dep: string): seq<string> {
    if dep !in rules.followed || DepKey(t, dep) !in g then []
    else
      var d := g[DepKey(t, dep)];
      if d.kind.Action? then (if IsCommitId(d) then [] else [d.blueprint])
      else if d.kind.RustFfi? then d.ffiHeaders
      else []
  }

  function OwnShared(g: Graph, rules: Rules, t: Key, dep: string): seq<string> {
    if dep !in rules.followed then Lookup(rules.replacedShared, dep)
    else if DepKey(t, dep) in g && g[DepKey(t, dep)].kind.SharedLibrary? then [g[DepKey(t, dep)].blueprint]
    else []
  }

  function OwnDefaults(g: Graph, rules: Rules, t: Key, dep: string): seq<string> {
    if dep in rules.followed && DepKey(t, dep) in g &&
       (g[DepKey(t, dep)].kind.SourceSet? || g[DepKey(t, dep)].kind.Group?)
    then [g[DepKey(t, dep)].blueprint] else []
  }

  // ----- the plain recursion, without a cache

  /** The two lists that a target passes on to whoever depends on it. */
  datatype Role = Statics | Headers

  function Own(role: Role, g: Graph, rules: Rules, t: Key, dep: string): seq<string> {
    if role.Statics? then OwnStatics(g, rules, t, dep) else OwnHeaders(g, rules, t, dep)
  }

  /** The list after the dependencies `deps` of `t`. */
  ghost function InheritedOf(role: Role, g: Graph, rules: Rules, rank: Rank, t: Key, deps: seq<string>): seq<string>
    requires Acyclic(g, rules, rank) && t in g && forall d :: d in deps ==> d in g[t].deps
    decreases rank[t], |deps|
  {
    if deps == [] then []
    else
      var n := |deps| - 1;
      InheritedOf(role, g, rules, rank, t, deps[..n]) + Own(role, g, rules, t, deps[n]) +
      if Propagates(g, rules, t, deps[n]) then Inherited(role, g, rules, rank, DepKey(t, deps[n])) else []
  }

  ghost function Inherited(role: Role, g: Graph, rules: Rules, rank: Rank, t: Key): seq<string>
    requires Acyclic(g, rules, rank) && t in g
    decreases rank[t], |g[t].deps| + 1
  {
    InheritedOf(role, g, rules, rank, t, g[t].deps)
  }

  function SharedOf(g: Graph, rules: Rules, t: Key, deps: seq<string>): seq<string> {
    if deps == [] then [] else SharedOf(g, rules, t, deps[..|deps| - 1]) + OwnShared(g, rules, t, deps[|deps| - 1])
  }

  function DefaultsOf(g: Graph, rules: Rules, t: Key, deps: seq<string>): seq<string> {
    if deps == [] then [] else DefaultsOf(g, rules, t, deps[..|deps| - 1]) + OwnDefaults(g, rules, t, deps[|deps| - 1])
  }

  // ----- what the plain recursion computes: reachability

  /** The target adds `x` itself, for one of its dependencies. */
  predicate Adds(role: Role, g: Graph, rules: Rules, t: Key, x: string) {
    t in g && exists dep :: dep in g[t].deps && x in Own(role, g, rules, t, dep)
  }

  /** Following the dependencies `hops` from `t` leads to a target that adds `x`. */
  predicate Reaches(role: Role, g: Graph, rules: Rules, t: Key, hops: seq<string>, x: string)
    decreases |hops|
  {
    if hops == [] then Adds(role, g, rules, t, x)
    else
      && t in g && hops[0] in g[t].deps && Propagates(g, rules, t, hops[0])
      && Reaches(role, g, rules, DepKey(t, hops[0]), hops[1..], x)
  }

  lemma {:induction false} InheritedMember(role: Role, g: Graph, rules: Rules, rank: Rank, t: Key, deps: seq<string>, x: string)
    requires Acyclic(g, rules, rank) && t in g && forall d :: d in deps ==> d in g[t].deps
    ensures x in InheritedOf(role, g, rules, rank, t, deps) <==>
            exists dep :: dep in deps &&
              (x in Own(role, g, rules, t, dep) ||
               (Propagates(g, rules, t, dep) && x in Inherited(role, g, rules, rank, DepKey(t, dep))))
    decreases |deps|
  {
    if deps != [] {
      var n := |deps| - 1;
      InheritedMember(role, g, rules, rank, t, deps[..n], x);
      assert deps == deps[..n] + [deps[n]];
    }
  }

  lemma {:induction false} ReachableIsListed(role: Role, g: Graph, rules: Rules, rank: Rank, t: Key, x: string, hops: seq<string>)
    requires Acyclic(g, rules, rank) && t in g && Reaches(role, g, rules, t, hops, x)
    ensures x in Inherited(role, g, rules, rank, t)
    decreases |hops|
  {
    InheritedMember(role, g, rules, rank, t, g[t].deps, x);
    if hops != [] {
      ReachableIsListed(role, g, rules, rank, DepKey(t, hops[0]), x, hops[1..]);
    }
  }

  lemma {:induction false} ListedIsReachable(role: Role, g: Graph, rules: Rules, rank: Rank, t: Key, x: string) returns (hops: seq<string>)
    requires Acyclic(g, rules, rank) && t in g && x in Inherited(role, g, rules, rank, t)
    ensures Reaches(role, g, rules, t, hops, x)
    decreases rank[t]
  {
    InheritedMember(role, g, rules, rank, t, g[t].deps, x);
    var dep :| dep in g[t].deps &&
               (x in Own(role, g, rules, t, dep) ||
                (Propagates(g, rules, t, dep) && x in Inherited(role, g, rules, rank, DepKey(t, dep))));
    if x in Own(role, g, rules, t, dep) {
      hops := [];
    } else {
      var rest := ListedIsReachable(role, g, rules, rank, DepKey(t, dep), x);
      hops := [dep] + rest;
      assert hops[1..] == rest;
    }
  }

  ghost predicate CanReach(role: Role, g: Graph, rules: Rules, t: Key, x: string) {
    exists hops :: Reaches(role, g, rules, t, hops, x)
  }

  /** The static libraries of a target, and its generated headers, are exactly those it can reach. */
  lemma InheritedIsReachable(role: Role, g: Graph, rules: Rules, rank: Rank, t: Key, x: string)
    requires Acyclic(g, rules, rank) && t in g
    ensures x in Inherited(role, g, rules, rank, t) <==> CanReach(role, g, rules, t, x)
  {
    if x in Inherited(role, g, rules, rank, t) {
      var hops := ListedIsReachable(role, g, rules, rank, t, x);
      assert Reaches(role, g, rules, t, hops, x);
    }
    if CanReach(role, g, rules, t, x) {
      var hops :| Reaches(role, g, rules, t, hops, x);
      ReachableIsListed(role, g, rules, rank, t, x, hops);
    }
  }

  // ----- with the tables of the script

  /** Following the dependencies `hops` from `t` leads to `u`. */
  predicate Leads(g: Graph, rules: Rules, t: Key, hops: seq<string>, u: Key)
    decreases |hops|
  {
    if hops == [] then t == u && t in g
    else t in g && hops[0] in g[t].deps && Propagates(g, rules, t, hops[0]) && Leads(g, rules, DepKey(t, hops[0]), hops[1..], u)
  }

  lemma {:induction false} LeadsReaches(role: Role, g: Graph, rules: Rules, t: Key, hops: seq<string>, u: Key, x: string)
    requires Leads(g, rules, t, hops, u) && Adds(role, g, rules, u, x)
    ensures Reaches(role, g, rules, t, hops, x)
    decreases |hops|
  {
    if hops != [] {
      LeadsReaches(role, g, rules, DepKey(t, hops[0]), hops[1..], u, x);
    }
  }

  lemma {:induction false} HopsAreFollowed(g: Graph, rules: Rules, t: Key, hops: seq<string>, u: Key)
    requires Leads(g, rules, t, hops, u)
    ensures forall h :: h in hops ==> h in rules.followed
    decreases |hops|
  {
    if hops != [] {
      HopsAreFollowed(g, rules, DepKey(t, hops[0]), hops[1..], u);
      assert hops == [hops[0]] + hops[1..];
    }
  }

  lemma ReplacedIsBlocked(deps: set<string>, dep: string)
    requires dep in AngleRules(deps).replacedStatics
    ensures !IsFollowed(dep)
  {
  }

  /**
    With the tables of the script: nothing is inherited through a blocked target, and whoever reaches
    a target that depends on a replaced one inherits all its replacements.
   */
  lemma ReplacementsInherited(g: Graph, deps: set<string>, rank: Rank, t: Key, hops: seq<string>, u: Key, dep: string)
    requires Acyclic(g, AngleRules(deps), rank) && Leads(g, AngleRules(deps), t, hops, u)
    requires u in g && dep in g[u].deps && dep in AngleRules(deps).replacedStatics
    ensures forall h :: h in hops ==> IsFollowed(h)
    ensures forall x :: x in AngleRules(deps).replacedStatics[dep] ==> x in Inherited(Statics, g, AngleRules(deps), rank, t)
  {
    var rules := AngleRules(deps);
    HopsAreFollowed(g, rules, t, hops, u);
    ReplacedIsBlocked(deps, dep);
    forall x | x in rules.replacedStatics[dep]
      ensures x in Inherited(Statics, g, rules, rank, t)
    {
      assert x in Own(Statics, g, rules, u, dep);
      LeadsReaches(Statics, g, rules, t, hops, u, x);
      ReachableIsListed(Statics, g, rules, rank, t, x, hops);
    }
  }

  // ----- list objects and the cache

  /** A list object.  Its ghost fields say for which target and which of the lists it was made. */
  class ListObject {
    ghost const owner: Key
    ghost const role: nat
    var items: seq<string>

    constructor (ghost owner: Key, ghost role: nat)
      ensures this.owner == owner && this.role == role && items == []
    {
      this.owner := owner;
      this.role := role;
      items := [];
    }

    method Extend(more: seq<string>)
      modifies this
      ensures items == old(items) + more
    {
      items := items + more;
    }
  }

  datatype Entry = Entry(statics: ListObject, shared: ListObject, defaults: ListObject, headers: ListObject)

  ghost function ListsOf(e: Entry): set<ListObject> {
    {e.statics, e.shared, e.defaults, e.headers}
  }

  /** The entry was made for `t`; so its lists are different objects, and differ from those of other targets. */
  ghost predicate MadeFor(e: Entry, t: Key) {
    && e.statics.owner == e.shared.owner == e.defaults.owner == e.headers.owner == t
    && e.statics.role == 0 && e.shared.role == 1 && e.defaults.role == 2 && e.headers.role == 3
  }

  /** The contents of the four lists. */
  datatype Contents = Contents(statics: seq<string>, shared: seq<string>, defaults: seq<string>, headers: seq<string>)

  ghost function ContentsOf(e: Entry): Contents
    reads e.statics, e.shared, e.defaults, e.headers
  {
    Contents(e.statics.items, e.shared.items, e.defaults.items, e.headers.items)
  }

  function Plus(a: Contents, b: Contents): Contents {
    Contents(a.statics + b.statics, a.shared + b.shared, a.defaults + b.defaults, a.headers + b.headers)
  }

  const EMPTY := Contents([], [], [], [])

  // ----- the contents, as values

  /** The lists of a target after its first dependencies `deps`. */
  ghost function Collected(g: Graph, rules: Rules, rank: Rank, t: Key, deps: seq<string>): Contents
    requires Acyclic(g, rules, rank) && t in g && forall d :: d in deps ==> d in g[t].deps
  {
    Contents(InheritedOf(Statics, g, rules, rank, t, deps), SharedOf(g, rules, t, deps), DefaultsOf(g, rules, t, deps),
             InheritedOf(Headers, g, rules, rank, t, deps))
  }

  ghost function Plain(g: Graph, rules: Rules, rank: Rank, t: Key): Contents
    requires Acyclic(g, rules, rank) && t in g
  {
    Collected(g, rules, rank, t, g[t].deps)
  }

  ghost function PlainLists(g: Graph, rules: Rules, rank: Rank): map<Key, Contents>
    requires Acyclic(g, rules, rank)
  {
    map t | t in g :: Plain(g, rules, rank, t)
  }

  function Repeat(s: seq<string>, n: nat): seq<string> {
    if n == 0 then [] else Repeat(s, n - 1) + s
  }

  function AddedDefaults(rules: Rules, t: Key): seq<string> {
    [COMMON_CFLAGS] + if t.name in rules.roots then ROOT_DEFAULTS else []
  }

  /** What `n` conversions add to the cached lists. */
  function Added(target: Target, rules: Rules, t: Key, n: nat): Contents {
    Contents([], Repeat(target.libs, n), Repeat(AddedDefaults(rules, t), n), [])
  }

  lemma FirstConversion(plain: Contents, target: Target, rules: Rules, t: Key)
    ensures Plus(plain, Added(target, rules, t, 0)) == plain
  {
  }

  lemma AddedStep(plain: Contents, target: Target, rules: Rules, t: Key, n: nat)
    ensures var c := Plus(plain, Added(target, rules, t, n));
            Plus(plain, Added(target, rules, t, n + 1)) ==
            c.(shared := c.shared + target.libs, defaults := c.defaults + AddedDefaults(rules, t))
  {
    var libs, defaults := Repeat(target.libs, n), Repeat(AddedDefaults(rules, t), n);
    assert plain.shared + (libs + target.libs) == plain.shared + libs + target.libs;
    assert plain.defaults + (defaults + AddedDefaults(rules, t)) == plain.defaults + defaults + AddedDefaults(rules, t);
  }

  /** What a dependency adds: its own name, and the lists of the dependency where they are passed on. */
  function Round(g: Graph, rules: Rules, t: Key, dep: string, childStatics: seq<string>, childHeaders: seq<string>): Contents {
    Contents(OwnStatics(g, rules, t, dep) + childStatics, OwnShared(g, rules, t, dep), OwnDefaults(g, rules, t, dep),
             OwnHeaders(g, rules, t, dep) + childHeaders)
  }

  lemma CollectedStep(g: Graph, rules: Rules, rank: Rank, t: Key, done: seq<string>, dep: string,
                      childStatics: seq<string>, childHeaders: seq<string>)
    requires Acyclic(g, rules, rank) && t in g && dep in g[t].deps && forall d :: d in done ==> d in g[t].deps
    requires if Propagates(g, rules, t, dep)
             then childStatics == Inherited(Statics, g, rules, rank, DepKey(t, dep)) &&
                  childHeaders == Inherited(Headers, g, rules, rank, DepKey(t, dep))
             else childStatics == childHeaders == []
    ensures Collected(g, rules, rank, t, done + [dep]) ==
            Plus(Collected(g, rules, rank, t, done), Round(g, rules, t, dep, childStatics, childHeaders))
  {
    var all := done + [dep];
    assert all[..|all| - 1] == done;
    var a, b := Collected(g, rules, rank, t, all), Collected(g, rules, rank, t, done);
    assert a.statics == b.statics + (OwnStatics(g, rules, t, dep) + childStatics);
    assert a.headers == b.headers + (OwnHeaders(g, rules, t, dep) + childHeaders);
  }

  /** How often `t` occurs in a list of conversions. */
  function Count(order: seq<Key>, t: Key): nat {
    if order == [] then 0
    else Count(order[..|order| - 1], t) + if order[|order| - 1] == t then 1 else 0
  }

  lemma CountStep(order: seq<Key>, t: Key, u: Key)
    ensures Count(order + [t], u) == Count(order, u) + if t == u then 1 else 0
  {
    assert (order + [t])[..|order|] == order;
  }

  lemma {:induction false} CountNone(order: seq<Key>, t: Key)
    requires t !in order
    ensures Count(order, t) == 0
  {
    if order != [] {
      CountNone(order[..|order| - 1], t);
    }
  }

  // ----- the program

  method NewEntry(ghost t: Key) returns (e: Entry)
    ensures fresh(e.statics) && fresh(e.shared) && fresh(e.defaults) && fresh(e.headers)
    ensures MadeFor(e, t) && ContentsOf(e) == EMPTY
  {
    var a := new ListObject(t, 0);
    var b := new ListObject(t, 1);
    var c := new ListObject(t, 2);
    var d := new ListObject(t, 3);
    e := Entry(a, b, c, d);
  }

  method ExtendAll(e: Entry, ghost t: Key, a: Contents)
    requires MadeFor(e, t)
    modifies e.statics, e.shared, e.defaults, e.headers
    ensures ContentsOf(e) == Plus(old(ContentsOf(e)), a)
  {
    e.statics.Extend(a.statics);
    e.shared.Extend(a.shared);
    e.defaults.Extend(a.defaults);
    e.headers.Extend(a.headers);
  }

  ghost predicate Extends(cache: map<Key, Entry>, before: map<Key, Entry>) {
    forall u :: u in before ==> u in cache && cache[u] == before[u]
  }

  /** What was added to the cache ranks below the target. */
  ghost predicate AddedBelow(cache: map<Key, Entry>, before: map<Key, Entry>, rank: Rank, t: Key)
    requires t in rank
  {
    forall u :: u in cache && u !in before ==> u in rank && rank[u] < rank[t]
  }

  lemma InsertExtends(before: map<Key, Entry>, cache: map<Key, Entry>, t: Key, e: Entry)
    requires Extends(cache, before) && t !in cache
    ensures Extends(cache[t := e], before)
  {
  }

  class Converter {
    const graph: Graph
    const rules: Rules
    ghost const rank: Rank
    /** The lists of the plain recursion. */
    ghost const plain: map<Key, Contents>
    var cache: map<Key, Entry>
    /** The conversions made so far. */
    ghost var history: seq<Key>
    /** The lists in the cache. */
    ghost var lists: set<ListObject>

    /** An entry of the cache after `n` conversions: two of its lists have grown each time. */
    ghost predicate EntryOk(t: Key, e: Entry, n: nat)
      reads e.statics, e.shared, e.defaults, e.headers
    {
      && t in graph && t in plain && MadeFor(e, t)
      && ContentsOf(e) == Plus(plain[t], Added(graph[t], rules, t, n))
    }

    ghost predicate CacheOk()
      reads this, lists
    {
      && (forall t :: t in cache ==> t in graph && ListsOf(cache[t]) <= lists)
      && (forall t :: t in cache ==> EntryOk(t, cache[t], Count(history, t)))
      && (forall t :: t in history ==> t in cache)
    }

    ghost predicate Valid()
      reads this, lists
    {
      Acyclic(graph, rules, rank) && plain == PlainLists(graph, rules, rank) && CacheOk()
    }

    constructor (graph: Graph, rules: Rules, ghost rank: Rank)
      requires Acyclic(graph, rules, rank)
      ensures Valid() && this.graph == graph && this.rules == rules && this.rank == rank
      ensures cache == map[] && lists == {} && history == []
    {
      this.graph := graph;
      this.rules := rules;
      this.rank := rank;
      this.plain := PlainLists(graph, rules, rank);
      cache := map[];
      lists := {};
      history := [];
    }

    /** Extending lists of a target that is not in the cache yet. */
    method ExtendUncached(t: Key, e: Entry, a: Contents)
      requires CacheOk() && MadeFor(e, t) && t !in cache
      modifies e.statics, e.shared, e.defaults, e.headers
      ensures CacheOk() && ContentsOf(e) == Plus(old(ContentsOf(e)), a)
    {
      ExtendAll(e, t, a);
      forall u | u in cache
        ensures EntryOk(u, cache[u], Count(history, u))
      {
        assert old(EntryOk(u, cache[u], Count(history, u)));
      }
    }

    /** Adding a finished entry to the cache. */
    method Insert(t: Key, e: Entry)
      requires CacheOk() && t in graph && t !in cache && t in plain && MadeFor(e, t) && ContentsOf(e) == plain[t]
      modifies this`cache, this`lists
      ensures CacheOk() && cache == old(cache)[t := e] && lists == old(lists) + ListsOf(e)
    {
      FirstConversion(plain[t], graph[t], rules, t);
      CountNone(history, t);
      cache := cache[t := e];
      lists := lists + ListsOf(e);
      forall u | u in cache && u != t
        ensures EntryOk(u, cache[u], Count(history, u))
      {
        assert old(EntryOk(u, cache[u], Count(history, u)));
      }
    }

    /** Extending the shared libraries and the defaults of a cached entry. */
    method Grow(t: Key, e: Entry)
      requires CacheOk() && t in cache && e == cache[t]
      modifies this`history, e.shared, e.defaults
      ensures CacheOk() && history == old(history) + [t]
    {
      GrowLists(t, e);
      label grown:
      history := history + [t];
      forall u | u in cache
        ensures EntryOk(u, cache[u], Count(history, u))
      {
        CountStep(old(history), t, u);
        assert old@grown(EntryOk(u, cache[u], Count(history + [t], u)));
      }
    }

    method GrowLists(t: Key, e: Entry)
      requires CacheOk() && t in cache && e == cache[t]
      modifies e.shared, e.defaults
      ensures EntryOk(t, e, Count(history, t) + 1)
      ensures forall u :: u in cache && u != t ==> EntryOk(u, cache[u], Count(history, u))
    {
      ghost var n := Count(history, t);
      assert EntryOk(t, e, n);
      e.shared.Extend(graph[t].libs);
      e.defaults.Extend(AddedDefaults(rules, t));
      AddedStep(plain[t], graph[t], rules, t, n);
      forall u | u in cache && u != t
        ensures EntryOk(u, cache[u], Count(history, u))
      {
        assert old(EntryOk(u, cache[u], Count(history, u)));
      }
    }

    /** The memoised collection of the dependency lists. */
    method Collect(t: Key) returns (e: Entry)
      requires Valid() && t in graph
      modifies this`cache, this`lists
      ensures Valid() && t in cache && e == cache[t] && Extends(cache, old(cache))
      ensures forall u :: u in cache && u !in old(cache) ==> u in rank && rank[u] <= rank[t]
      ensures fresh(lists - old(lists))
      decreases rank[t], 4
    {
      if t in cache {
        return cache[t];
      }
      e := Build(t);
      ghost var filled, known := cache, lists;
      Insert(t, e);
      InsertExtends(old(cache), filled, t, e);
      assert lists - old(lists) <= (known - old(lists)) + ListsOf(e);
    }

    /** The lists of a target that is not in the cache. */
    method Build(t: Key) returns (e: Entry)
      requires Valid() && t in graph && t !in cache
      modifies this`cache, this`lists
      ensures Valid() && MadeFor(e, t) && ContentsOf(e) == plain[t] && t !in cache && Extends(cache, old(cache))
      ensures AddedBelow(cache, old(cache), rank, t)
      ensures fresh(lists - old(lists)) && fresh(ListsOf(e))
      decreases rank[t], 3
    {
      e := NewEntry(t);
      Fill(t, e);
    }

    /** The loop over the dependencies, into lists that are not in the cache yet. */
    method Fill(t: Key, e: Entry)
      requires Valid() && t in graph && t !in cache && MadeFor(e, t) && ContentsOf(e) == EMPTY
      modifies this`cache, this`lists, e.statics, e.shared, e.defaults, e.headers
      ensures Valid() && ContentsOf(e) == Plain(graph, rules, rank, t) && Extends(cache, old(cache))
      ensures AddedBelow(cache, old(cache), rank, t)
      ensures fresh(lists - old(lists))
      decreases rank[t], 2
    {
      var deps := graph[t].deps;
      for i := 0 to |deps|
        invariant Valid() && t !in cache && Extends(cache, old(cache))
        invariant ContentsOf(e) == Collected(graph, rules, rank, t, deps[..i])
        invariant AddedBelow(cache, old(cache), rank, t)
        invariant fresh(lists - old(lists))
      {
        assert deps[..i + 1] == deps[..i] + [deps[i]];
        AddDependency(t, e, deps[i], deps[..i]);
      }
      assert deps[..|deps|] == deps;
    }

    /** One round of the loop over the dependencies. */
    method AddDependency(t: Key, e: Entry, dep: string, ghost done: seq<string>)
      requires Valid() && t in graph && t !in cache && dep in graph[t].deps && forall d :: d in done ==> d in graph[t].deps
      requires MadeFor(e, t) && ContentsOf(e) == Collected(graph, rules, rank, t, done)
      modifies this`cache, this`lists, e.statics, e.shared, e.defaults, e.headers
      ensures Valid() && Extends(cache, old(cache)) && t !in cache
      ensures ContentsOf(e) == Collected(graph, rules, rank, t, done + [dep])
      ensures AddedBelow(cache, old(cache), rank, t)
      ensures fresh(lists - old(lists))
      decreases rank[t], 1
    {
      var statics, headers := ChildLists(t, dep);
      CollectedStep(graph, rules, rank, t, done, dep, statics, headers);
      ExtendUncached(t, e, Round(graph, rules, t, dep, statics, headers));
    }

    /** The lists a dependency passes on, from its own cached entry. */
    method ChildLists(t: Key, dep: string) returns (statics: seq<string>, headers: seq<string>)
      requires Valid() && t in graph && t !in cache && dep in graph[t].deps
      modifies this`cache, this`lists
      ensures Valid() && Extends(cache, old(cache)) && t !in cache
      ensures if Propagates(graph, rules, t, dep)
              then statics == Inherited(Statics, graph, rules, rank, DepKey(t, dep)) &&
                   headers == Inherited(Headers, graph, rules, rank, DepKey(t, dep))
              else statics == headers == []
      ensures AddedBelow(cache, old(cache), rank, t)
      ensures fresh(lists - old(lists))
      decreases rank[t], 0
    {
      statics, headers := [], [];
      if Propagates(graph, rules, t, dep) {
        var child := Collect(DepKey(t, dep));
        statics, headers := child.statics.items, child.headers.items;
        assert ContentsOf(child).statics == statics && ContentsOf(child).headers == headers;
      }
    }

    /**
      The conversion of one target: the blueprint holds the cached lists themselves, and two of them
      are extended in place.
     */
    method Convert(t: Key) returns (bp: Entry)
      requires Valid() && t in graph
      modifies this, lists
      ensures Valid() && t in cache && bp == cache[t] && Extends(cache, old(cache))
      ensures history == old(history) + [t] && fresh(lists - old(lists))
    {
      bp := Collect(t);
      Grow(t, bp);
    }
  }

  /** The blueprints are the cached entries of the targets converted so far. */
  ghost predicate Recorded(cache: map<Key, Entry>, order: seq<Key>, bps: seq<Entry>) {
    |bps| == |order| && forall j :: 0 <= j < |order| ==> order[j] in cache && bps[j] == cache[order[j]]
  }

  lemma RecordedStep(before: map<Key, Entry>, cache: map<Key, Entry>, order: seq<Key>, bps: seq<Entry>, t: Key)
    requires Recorded(before, order, bps) && Extends(cache, before) && t in cache
    ensures Recorded(cache, order + [t], bps + [cache[t]])
  {
  }

  /**
    Any order of conversions, with any repetitions: every blueprint has the static libraries and the
    generated headers of the plain recursion, and its shared libraries and defaults are those of the
    plain recursion followed by one copy of the additions for every conversion of that target.
   */
  method ConvertAll(graph: Graph, rules: Rules, ghost rank: Rank, order: seq<Key>) returns (bps: seq<Entry>)
    requires Acyclic(graph, rules, rank) && forall t :: t in order ==> t in graph
    ensures |bps| == |order|
    ensures forall i :: 0 <= i < |order| ==>
              ContentsOf(bps[i]) ==
              Plus(Plain(graph, rules, rank, order[i]), Added(graph[order[i]], rules, order[i], Count(order, order[i])))
  {
    var c := new Converter(graph, rules, rank);
    bps := [];
    for i := 0 to |order|
      invariant c.Valid() && c.graph == graph && c.rules == rules && c.rank == rank
      invariant fresh(c) && fresh(c.lists)
      invariant Recorded(c.cache, order[..i], bps) && c.history == order[..i]
    {
      ghost var before := c.cache;
      var bp := c.Convert(order[i]);
      assert order[..i + 1] == order[..i] + [order[i]];
      RecordedStep(before, c.cache, order[..i], bps, order[i]);
      bps := bps + [bp];
    }
    assert order[..|order|] == order;
    forall i | 0 <= i < |order|
      ensures ContentsOf(bps[i]) ==
              Plus(Plain(graph, rules, rank, order[i]), Added(graph[order[i]], rules, order[i], Count(order, order[i])))
    {
      assert c.EntryOk(order[i], c.cache[order[i]], Count(c.history, order[i]));
    }
  }

  /** A target converted once gets its additions once. */
  lemma ConvertedOnce(g: Graph, rules: Rules, rank: Rank, t: Key)
    requires Acyclic(g, rules, rank) && t in g
    ensures var c := Plus(Plain(g, rules, rank, t), Added(g[t], rules, t, 1));
            && c.statics == Inherited(Statics, g, rules, rank, t) && c.headers == Inherited(Headers, g, rules, rank, t)
            && c.shared == SharedOf(g, rules, t, g[t].deps) + g[t].libs
            && c.defaults == DefaultsOf(g, rules, t, g[t].deps) + AddedDefaults(rules, t)
  {
    AddedStep(Plain(g, rules, rank, t), g[t], rules, t, 0);
    FirstConversion(Plain(g, rules, rank, t), g[t], rules, t);
  }
}
