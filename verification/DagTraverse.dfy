/**
  The depth-first traversal of the target graph.  The callback both updates the state it closes over
  and may fail (a missing key, a failed assertion), which ends the traversal; the keys it returns are
  those of `next`.  Graphs may have cycles.
 */
module DagTraverse {
  import opened Prelude

  /** Running the callback over a list of keys. */
  function Fold<S>(effect: (S, string) -> Option<S>, start: S, order: seq<string>): Option<S> {
    if order == [] then Some(start)
    else match Fold(effect, start, order[..|order| - 1])
      case None => None
      case Some(s) => effect(s, order[|order| - 1])
  }

  predicate IsPath(next: string -> seq<string>, roots: seq<string>, path: seq<string>) {
    && path != []
    && path[0] in roots
    && forall i :: 0 < i < |path| ==> path[i] in next(path[i - 1])
  }

  ghost predicate Reachable(next: string -> seq<string>, roots: seq<string>, key: string) {
    exists path :: IsPath(next, roots, path) && path[|path| - 1] == key
  }

  lemma ReachableRoot(next: string -> seq<string>, roots: seq<string>, key: string)
    requires key in roots
    ensures Reachable(next, roots, key)
  {
    assert IsPath(next, roots, [key]);
  }

  lemma ReachableNext(next: string -> seq<string>, roots: seq<string>, key: string, x: string)
    requires Reachable(next, roots, key) && x in next(key)
    ensures Reachable(next, roots, x)
  {
    var path :| IsPath(next, roots, path) && path[|path| - 1] == key;
    assert IsPath(next, roots, path + [x]);
  }

  /** A set that holds the roots and is closed under `next` holds everything reachable. */
  lemma {:induction false} ClosedHoldsPath(next: string -> seq<string>, roots: seq<string>, path: seq<string>,
                                           closed: set<string>)
    requires IsPath(next, roots, path)
    requires forall r :: r in roots ==> r in closed
    requires forall x, y :: x in closed && y in next(x) ==> y in closed
    ensures path[|path| - 1] in closed
  {
    if |path| > 1 {
      var shorter := path[..|path| - 1];
      assert IsPath(next, roots, shorter);
      ClosedHoldsPath(next, roots, shorter, closed);
    }
  }

  ghost predicate Distinct(order: seq<string>) {
    forall i, j :: 0 <= i < j < |order| ==> order[i] != order[j]
  }

  ghost predicate SameMembers(order: seq<string>, visited: set<string>) {
    forall key :: key in visited <==> key in order
  }

  ghost predicate AllReachable(next: string -> seq<string>, roots: seq<string>, visited: set<string>) {
    forall key :: key in visited ==> Reachable(next, roots, key)
  }

  lemma OneMore(order: seq<string>, visited: set<string>, key: string)
    requires Distinct(order) && SameMembers(order, visited) && key !in visited
    ensures Distinct(order + [key]) && SameMembers(order + [key], visited + {key})
  {
  }

  /** Outside the universe every callback fails. */
  ghost predicate FailsOutside<S(!new)>(effect: (S, string) -> Option<S>, universe: set<string>) {
    forall s, key :: key !in universe ==> effect(s, key).None?
  }

  /** What holds of the keys met so far. */
  ghost predicate Consistent(next: string -> seq<string>, roots: seq<string>, order: seq<string>, visited: set<string>) {
    Distinct(order) && SameMembers(order, visited) && AllReachable(next, roots, visited)
  }

  /** The last callback of the list failed. */
  ghost predicate LastFailed<S>(effect: (S, string) -> Option<S>, start: S, order: seq<string>) {
    && order != []
    && var before := Fold(effect, start, order[..|order| - 1]);
       before.Some? && effect(before.value, order[|order| - 1]).None?
  }

  lemma ConsistentStep(next: string -> seq<string>, roots: seq<string>, order: seq<string>, visited: set<string>, key: string)
    requires Consistent(next, roots, order, visited) && Reachable(next, roots, key) && key !in visited
    ensures Consistent(next, roots, order + [key], visited + {key})
  {
    OneMore(order, visited, key);
  }

  lemma FoldStep<S>(effect: (S, string) -> Option<S>, start: S, order: seq<string>, state: S, key: string)
    requires Fold(effect, start, order) == Some(state)
    ensures Fold(effect, start, order + [key]) == effect(state, key)
    ensures effect(state, key).None? ==> LastFailed(effect, start, order + [key])
  {
    assert (order + [key])[..|order|] == order;
  }

  class Traversal<S(!new)> {
    const roots: seq<string>
    const next: string -> seq<string>
    const effect: (S, string) -> Option<S>
    const start: S
    ghost const universe: set<string>

    var visited: set<string>
    var state: S

    /** The keys in the order of their callbacks. */
    ghost var order: seq<string>

    constructor (roots: seq<string>, next: string -> seq<string>, effect: (S, string) -> Option<S>, start: S,
                 ghost universe: set<string>)
      requires FailsOutside(effect, universe)
      ensures this.roots == roots && this.next == next && this.effect == effect && this.start == start
      ensures Running() && visited == {}
    {
      this.roots, this.next, this.effect, this.start := roots, next, effect, start;
      this.universe := universe;
      visited, state, order := {}, start, [];
    }

    ghost predicate Valid()
      reads this
    {
      FailsOutside(effect, universe) && Consistent(next, roots, order, visited)
    }

    ghost predicate Running()
      reads this
    {
      Valid() && Fold(effect, start, order) == Some(state)
    }

    /** The last callback failed. */
    ghost predicate Stopped()
      reads this
    {
      Valid() && LastFailed(effect, start, order)
    }

    ghost predicate Closed(keys: set<string>)
      reads this
    {
      forall x, y :: x in keys && y in next(x) ==> y in visited
    }

    /** Marks a new key and makes its callback. */
    method Enter(key: string) returns (ok: bool)
      requires Running() && Reachable(next, roots, key) && key !in visited
      modifies this
      ensures visited == old(visited) + {key}
      ensures if ok then Running() else Stopped()
      ensures ok ==> key in universe
    {
      ConsistentStep(next, roots, order, visited, key);
      FoldStep(effect, start, order, state, key);
      visited, order := visited + {key}, order + [key];
      match effect(state, key) {
        case None =>
          return false;
        case Some(s) =>
          state := s;
          return true;
      }
    }

    method Recurse(key: string) returns (ok: bool)
      requires Running() && Reachable(next, roots, key)
      modifies this
      ensures if ok then Running() else Stopped()
      ensures old(visited) <= visited
      ensures ok ==> key in visited && Closed(visited - old(visited))
      decreases universe - visited
    {
      if key in visited {
        return true;
      }
      ok := Enter(key);
      if !ok {
        return;
      }
      var i, nexts := 0, next(key);
      while i < |nexts|
        invariant 0 <= i <= |nexts|
        invariant Running()
        invariant old(visited) + {key} <= visited
        invariant Closed(visited - old(visited) - {key})
        invariant forall k :: 0 <= k < i ==> nexts[k] in visited
      {
        ReachableNext(next, roots, key, nexts[i]);
        ok := Recurse(nexts[i]);
        if !ok {
          return;
        }
        i := i + 1;
      }
      return true;
    }

    method Run() returns (ok: bool)
      requires Running() && visited == {}
      modifies this
      ensures if ok then Running() else Stopped()
      ensures ok ==> forall key :: key in visited <==> Reachable(next, roots, key)
    {
      var i := 0;
      while i < |roots|
        invariant 0 <= i <= |roots|
        invariant Running() && Closed(visited)
        invariant forall k :: 0 <= k < i ==> roots[k] in visited
      {
        ReachableRoot(next, roots, roots[i]);
        ok := Recurse(roots[i]);
        if !ok {
          return;
        }
        i := i + 1;
      }
      forall key | Reachable(next, roots, key) ensures key in visited {
        var path :| IsPath(next, roots, path) && path[|path| - 1] == key;
        ClosedHoldsPath(next, roots, path, visited);
      }
      return true;
    }
  }
}
