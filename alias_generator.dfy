// `AliasMappingGenerator`: before asking the delegate generator for
// candidates, a mention is replaced by its alias. In recursive mode the alias
// map is followed until a mention without an alias or a loop is reached.
module AliasMapping {
  import opened CandidateGeneration

  datatype AliasGenerator = AliasGenerator(delegate: Generator, aliasMap: map<string, string>, recursive: bool)

  /** Each element but the last is mapped to its successor. */
  ghost predicate Links(aliasMap: map<string, string>, path: seq<string>)
  {
    forall i :: 0 <= i < |path| - 1 ==> path[i] in aliasMap && aliasMap[path[i]] == path[i + 1]
  }

  ghost predicate Distinct(path: seq<string>)
  {
    forall i, j :: 0 <= i < j < |path| ==> path[i] != path[j]
  }

  /** The chase has stopped: the last element has no alias, or its alias is
      already on the path. */
  ghost predicate Stopped(aliasMap: map<string, string>, path: seq<string>)
    requires path != []
  {
    var q := path[|path| - 1];
    q !in aliasMap || aliasMap[q] in path
  }

  /** A finished chase from `mention`: the contents of the `seen` stack,
      oldest first. */
  ghost predicate Chased(aliasMap: map<string, string>, mention: string, path: seq<string>)
  {
    path != [] && path[0] == mention && Links(aliasMap, path) && Distinct(path) && Stopped(aliasMap, path)
  }

  /** The elements whose alias has been looked up. */
  ghost function LookedUp(path: seq<string>): set<string>
  {
    set i | 0 <= i < |path| - 1 :: path[i]
  }

  /** Extend a distinct path along the alias map until it stops; each step
      looks up one more key, so the chase ends. */
  ghost function Chase(aliasMap: map<string, string>, path: seq<string>): (p: seq<string>)
    requires path != [] && Links(aliasMap, path) && Distinct(path)
    ensures |path| <= |p| && p[..|path|] == path
    ensures Links(aliasMap, p) && Distinct(p) && Stopped(aliasMap, p)
    decreases aliasMap.Keys - LookedUp(path)
  {
    var q := path[|path| - 1];
    if q !in aliasMap || aliasMap[q] in path then path
    else
      var next := path + [aliasMap[q]];
      assert LookedUp(next) == LookedUp(path) + {q} by {
        assert forall i :: 0 <= i < |next| - 1 ==> next[i] == path[i];
      }
      assert q !in LookedUp(path);
      var p := Chase(aliasMap, next);
      assert p[..|path|] == p[..|next|][..|path|];
      p
  }

  /** Any finished chase from `mention` is the one `Chase` computes: the
      path is determined by the map. */
  lemma {:induction false} ChasedUnique(aliasMap: map<string, string>, p1: seq<string>, p2: seq<string>)
    requires p1 != [] && p2 != [] && p1[0] == p2[0]
    requires Links(aliasMap, p1) && Distinct(p1) && Stopped(aliasMap, p1)
    requires Links(aliasMap, p2) && Distinct(p2) && Stopped(aliasMap, p2)
    ensures p1 == p2
  {
    var n := if |p1| < |p2| then |p1| else |p2|;
    var i := 1;
    while i < n
      invariant 1 <= i <= n
      invariant forall k :: 0 <= k < i ==> p1[k] == p2[k]
    {
      assert p1[i] == aliasMap[p1[i - 1]] == p2[i];
      i := i + 1;
    }
    StoppedIsNotShorter(aliasMap, p1, p2);
    StoppedIsNotShorter(aliasMap, p2, p1);
  }

  /** A stopped chase is no shorter than a distinct path along the map that
      agrees with it: the next alias is already on the chase. */
  lemma StoppedIsNotShorter(aliasMap: map<string, string>, p1: seq<string>, p2: seq<string>)
    requires p1 != []
    requires forall k :: 0 <= k < |p1| && k < |p2| ==> p1[k] == p2[k]
    requires Links(aliasMap, p2) && Distinct(p2) && Stopped(aliasMap, p1)
    ensures |p2| <= |p1|
  {
    NextIsNew(aliasMap, p1, p2);
  }

  /** A longer distinct path along the map continues `p1` with the alias of
      its last element, which is not on `p1`. */
  lemma NextIsNew(aliasMap: map<string, string>, p1: seq<string>, p2: seq<string>)
    requires p1 != []
    requires forall k :: 0 <= k < |p1| && k < |p2| ==> p1[k] == p2[k]
    requires Links(aliasMap, p2) && Distinct(p2)
    ensures |p1| < |p2| ==> p1[|p1| - 1] in aliasMap && aliasMap[p1[|p1| - 1]] !in p1
  {
    if |p1| < |p2| {
      var m := |p1| - 1;
      assert p2[m] == p1[m];
      assert aliasMap[p1[m]] == p2[m + 1];
      forall k | 0 <= k < |p1|
        ensures p1[k] != p2[m + 1]
      {
        assert p2[k] != p2[m + 1];
      }
    }
  }

  /** The chase from `mention`. */
  ghost function Resolve(aliasMap: map<string, string>, mention: string): (p: seq<string>)
    ensures Chased(aliasMap, mention, p)
  {
    Chase(aliasMap, [mention])
  }

  /** The union of the delegate's candidates over `path`. */
  function UnionOver(delegate: Generator, path: seq<string>): set<string>
  {
    if path == [] then {} else UnionOver(delegate, path[..|path| - 1]) + delegate(path[|path| - 1])
  }

  lemma {:induction false} UnionOverMembers(delegate: Generator, path: seq<string>, c: string)
    ensures c in UnionOver(delegate, path) <==> exists i :: 0 <= i < |path| && c in delegate(path[i])
  {
    if path != [] {
      var init := path[..|path| - 1];
      UnionOverMembers(delegate, init, c);
      if c in UnionOver(delegate, init) {
        var i :| 0 <= i < |init| && c in delegate(init[i]);
        assert path[i] == init[i];
      }
      if exists i :: 0 <= i < |path| && c in delegate(path[i]) {
        var i :| 0 <= i < |path| && c in delegate(path[i]);
        if i < |path| - 1 {
          assert init[i] == path[i];
        }
      }
    }
  }

  /** The position of `x` in `path`. */
  ghost function IndexOf(path: seq<string>, x: string): (k: nat)
    requires x in path
    ensures k < |path| && path[k] == x
  {
    var k :| 0 <= k < |path| && path[k] == x; k
  }

  /** What `findCandidates` answers. */
  ghost function Candidates(g: AliasGenerator, mention: string): set<string>
  {
    if !g.recursive then
      if mention in g.aliasMap then {g.aliasMap[mention]} else g.delegate(mention)
    else
      var p := Resolve(g.aliasMap, mention);
      var q := p[|p| - 1];
      if q !in g.aliasMap then g.delegate(q)
      else UnionOver(g.delegate, p[IndexOf(p, g.aliasMap[q])..])
  }

  /** Without a loop, the candidates are the delegate's for the alias the
      chase ends at. */
  lemma RecursiveNoLoop(g: AliasGenerator, mention: string, path: seq<string>)
    requires g.recursive && Chased(g.aliasMap, mention, path)
    requires path[|path| - 1] !in g.aliasMap
    ensures Candidates(g, mention) == g.delegate(path[|path| - 1])
  {
    ChasedUnique(g.aliasMap, path, Resolve(g.aliasMap, mention));
  }

  /** With a loop back to `path[k]`, the candidates are the union of the
      delegate's over the members of the loop, `path[k..]`. */
  lemma RecursiveLoop(g: AliasGenerator, mention: string, path: seq<string>, k: nat)
    requires g.recursive && Chased(g.aliasMap, mention, path)
    requires path[|path| - 1] in g.aliasMap && k < |path| && path[k] == g.aliasMap[path[|path| - 1]]
    ensures forall c :: c in Candidates(g, mention) <==> exists i :: k <= i < |path| && c in g.delegate(path[i])
  {
    ChasedUnique(g.aliasMap, path, Resolve(g.aliasMap, mention));
    assert IndexOf(path, path[k]) == k;
    forall c
      ensures c in Candidates(g, mention) <==> exists i :: k <= i < |path| && c in g.delegate(path[i])
    {
      UnionOverMembers(g.delegate, path[k..], c);
      if exists i :: k <= i < |path| && c in g.delegate(path[i]) {
        var i :| k <= i < |path| && c in g.delegate(path[i]);
        assert path[k..][i - k] == path[i];
      }
    }
  }

  /** In non-recursive mode a mention with an alias yields just the alias;
      any other mention yields the delegate's candidates. */
  lemma NonRecursive(g: AliasGenerator, mention: string)
    requires !g.recursive
    ensures mention in g.aliasMap ==> Candidates(g, mention) == {g.aliasMap[mention]}
    ensures mention !in g.aliasMap ==> Candidates(g, mention) == g.delegate(mention)
  {
  }

  /** `findCandidates`: chase the aliases, keeping the `seen` stack, then pop
      it down to where the chase stopped. */
  method FindCandidates(g: AliasGenerator, mention: string) returns (result: set<string>)
    ensures result == Candidates(g, mention)
  {
    if !g.recursive {
      return if mention in g.aliasMap then {g.aliasMap[mention]} else g.delegate(mention);
    }
    var seen, query, loopDetected := ChaseAliases(g.aliasMap, mention);
    ghost var k := if loopDetected then IndexOf(seen, query) else |seen| - 1;
    result := PopCandidates(g.delegate, seen, query, k);
  }

  /** The first loop of `findCandidates`: the `seen` stack is the chase, and
      `query` is the alias it stopped at. */
  method ChaseAliases(aliasMap: map<string, string>, mention: string)
    returns (seen: seq<string>, query: string, loopDetected: bool)
    ensures seen == Resolve(aliasMap, mention)
    ensures !loopDetected ==> query == seen[|seen| - 1] && query !in aliasMap
    ensures loopDetected ==> seen[|seen| - 1] in aliasMap && query == aliasMap[seen[|seen| - 1]] && query in seen
  {
    seen := [mention];
    query := mention;
    loopDetected := false;
    while !loopDetected && query in aliasMap
      invariant seen != [] && seen[0] == mention && Links(aliasMap, seen) && Distinct(seen)
      invariant Chase(aliasMap, seen) == Resolve(aliasMap, mention)
      invariant !loopDetected ==> query == seen[|seen| - 1]
      invariant loopDetected ==> seen[|seen| - 1] in aliasMap && query == aliasMap[seen[|seen| - 1]] && query in seen
      decreases aliasMap.Keys - LookedUp(seen), if loopDetected then 0 else 1
    {
      var top := query;
      query := aliasMap[query];
      if query in seen {
        loopDetected := true;
      } else {
        assert LookedUp(seen + [query]) == LookedUp(seen) + {top} by {
          assert forall i :: 0 <= i < |seen| ==> (seen + [query])[i] == seen[i];
        }
        assert top !in LookedUp(seen);
        seen := seen + [query];
      }
    }
  }

  /** The second loop of `findCandidates`: pop the stack down to `query`,
      which sits at position `k`, gathering the delegate's candidates. */
  method PopCandidates(delegate: Generator, path: seq<string>, query: string, ghost k: nat)
    returns (result: set<string>)
    requires k < |path| && path[k] == query
    requires forall i :: k < i < |path| ==> path[i] != query
    ensures result == UnionOver(delegate, path[k..])
  {
    var seen := path;
    result := {};
    while seen != [] && seen[|seen| - 1] != query
      invariant k < |seen| <= |path| && seen == path[..|seen|]
      invariant result == UnionOver(delegate, path[|seen|..])
      decreases |seen|
    {
      assert path[|seen| - 1..] == [seen[|seen| - 1]] + path[|seen|..];
      UnionOverCons(delegate, seen[|seen| - 1], path[|seen|..]);
      result := result + delegate(seen[|seen| - 1]);
      seen := seen[..|seen| - 1];
    }
    assert path[k..] == [query] + path[k + 1..];
    UnionOverCons(delegate, query, path[k + 1..]);
    result := result + delegate(query);
  }

  lemma {:induction false} UnionOverCons(delegate: Generator, x: string, path: seq<string>)
    ensures UnionOver(delegate, [x] + path) == UnionOver(delegate, path) + delegate(x)
  {
    if path != [] {
      var init := path[..|path| - 1];
      assert ([x] + path)[..|path|] == [x] + init;
      UnionOverCons(delegate, x, init);
    } else {
      assert [x][..0] == [];
    }
  }

  /** `batchFindCandidates`: every query mapped to its candidates. */
  method BatchFindCandidates(g: AliasGenerator, queries: set<string>) returns (m: map<string, set<string>>)
    ensures m.Keys == queries
    ensures forall q :: q in m ==> m[q] == Candidates(g, q)
  {
    m := map[];
    var todo := queries;
    while todo != {}
      invariant todo <= queries && m.Keys == queries - todo
      invariant forall q :: q in m ==> m[q] == Candidates(g, q)
    {
      var q :| q in todo;
      var c := FindCandidates(g, q);
      m := m[q := c];
      todo := todo - {q};
    }
  }
}
