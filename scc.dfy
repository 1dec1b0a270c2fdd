/** Tarjan.js's `findSCC`, which despite its name runs Kosaraju's two
    passes: a depth-first search over the forward lists that pushes each
    account on a stack once all its neighbours are visited, then, popping
    the stack, a depth-first search over the reverse lists from every
    account not yet claimed, each such search collecting one component. */
module StronglyConnected {
  import opened Common
  import TransactionGraph

  // ---- The graph and its paths ----

  ghost function Elems(s: seq<Id>): set<Id>
  {
    set x | x in s
  }

  /** Every account some list names. */
  ghost function Targets(g: map<Id, seq<Id>>): set<Id>
  {
    set x, y | x in g && y in g[x] :: y
  }

  /** `p` is a non-empty path along the lists of `g` that touches no account
      of `claimed`. */
  ghost predicate Walk(g: map<Id, seq<Id>>, claimed: set<Id>, p: seq<Id>)
    decreases |p|
  {
    && |p| >= 1
    && p[0] !in claimed
    && (|p| == 1 || (p[1] in ListAt(g, p[0]) && Walk(g, claimed, p[1..])))
  }

  /** `y` can be reached from `root` along `g` without touching `claimed`. */
  ghost predicate ReachableAvoiding(g: map<Id, seq<Id>>, claimed: set<Id>, root: Id, y: Id)
  {
    exists p :: Walk(g, claimed, p) && p[0] == root && p[|p| - 1] == y
  }

  /** `ps[k]` is such a path from `root` to `s[k]`, for every `k`. */
  ghost predicate Witnessed(g: map<Id, seq<Id>>, claimed: set<Id>, root: Id, s: seq<Id>, ps: seq<seq<Id>>)
  {
    && |ps| == |s|
    && forall k | 0 <= k < |s| ::
         Walk(g, claimed, ps[k]) && ps[k][0] == root && ps[k][|ps[k]| - 1] == s[k]
  }

  /** The lists of the accounts of `s` name only accounts of `v`. */
  ghost predicate Closed(g: map<Id, seq<Id>>, s: set<Id>, v: set<Id>)
  {
    forall x, y | x in s && y in ListAt(g, x) :: y in v
  }

  /** The accounts of `added` were not in `before`, each is listed once, and
      `after` is `before` with them. */
  ghost predicate Grew(before: set<Id>, added: seq<Id>, after: set<Id>)
  {
    && NoDup(added)
    && (forall x | x in added :: x !in before)
    && after == before + Elems(added)
  }

  /** All the accounts of the components. */
  ghost function Union(cs: seq<seq<Id>>): set<Id>
  {
    if cs == [] then {} else Union(cs[..|cs| - 1]) + Elems(cs[|cs| - 1])
  }

  /** `c` lists, once each, the accounts reverse-reachable from its first
      account without touching `claimed`. */
  ghost predicate IsComponent(g: map<Id, seq<Id>>, claimed: set<Id>, c: seq<Id>)
  {
    && c != []
    && NoDup(c)
    && forall y :: y in c <==> ReachableAvoiding(g, claimed, c[0], y)
  }

  /** Each component is what its search could claim after the earlier ones. */
  ghost predicate Components(g: map<Id, seq<Id>>, cs: seq<seq<Id>>)
  {
    forall k | 0 <= k < |cs| :: IsComponent(g, Union(cs[..k]), cs[k])
  }

  ghost predicate Disjoint(cs: seq<seq<Id>>)
  {
    forall i, j, x | 0 <= i < j < |cs| && x in cs[i] :: x !in cs[j]
  }

  // ---- Lemmas ----

  lemma TargetsHas(g: map<Id, seq<Id>>, x: Id, y: Id)
    requires y in ListAt(g, x)
    ensures y in Targets(g)
  {
  }

  lemma ClosedGrow(g: map<Id, seq<Id>>, s: set<Id>, v: set<Id>, v': set<Id>)
    requires Closed(g, s, v) && v <= v'
    ensures Closed(g, s, v')
  {
  }

  lemma GrewTrans(v0: set<Id>, a: seq<Id>, v1: set<Id>, b: seq<Id>, v2: set<Id>)
    requires Grew(v0, a, v1) && Grew(v1, b, v2)
    ensures Grew(v0, a + b, v2)
  {
    assert Elems(a + b) == Elems(a) + Elems(b);
    forall i, j | 0 <= i < j < |a + b|
      ensures (a + b)[i] != (a + b)[j]
    {
      if j >= |a| && i < |a| {
        assert (a + b)[i] in Elems(a);
      }
    }
  }

  lemma {:induction false} UnionMembers(cs: seq<seq<Id>>)
    ensures forall i, x | 0 <= i < |cs| && x in cs[i] :: x in Union(cs)
    ensures forall x | x in Union(cs) :: exists i | 0 <= i < |cs| :: x in cs[i]
  {
    if cs != [] {
      var n := |cs| - 1;
      UnionMembers(cs[..n]);
      assert forall i | 0 <= i < n :: cs[..n][i] == cs[i];
    }
  }

  /** A set closed under `g` up to `claimed` holds every account reachable
      from its members without touching `claimed`. */
  lemma {:induction false} ClosedReach(g: map<Id, seq<Id>>, claimed: set<Id>, s: set<Id>, p: seq<Id>)
    requires Walk(g, claimed, p) && p[0] in s
    requires Closed(g, s, claimed + s)
    ensures p[|p| - 1] in s
    decreases |p|
  {
    if |p| > 1 {
      var q := p[1..];
      assert p[1] in ListAt(g, p[0]) && p[1] !in claimed;
      assert p[1] in claimed + s;
      ClosedReach(g, claimed, s, q);
    }
  }

  lemma ReachClosed(g: map<Id, seq<Id>>, claimed: set<Id>, s: set<Id>, root: Id, y: Id)
    requires root in s && Closed(g, s, claimed + s)
    requires ReachableAvoiding(g, claimed, root, y)
    ensures y in s
  {
    var p :| Walk(g, claimed, p) && p[0] == root && p[|p| - 1] == y;
    ClosedReach(g, claimed, s, p);
  }

  /** A walk avoiding more accounts avoids fewer. */
  lemma {:induction false} WalkWeaken(g: map<Id, seq<Id>>, claimed: set<Id>, claimed': set<Id>, p: seq<Id>)
    requires claimed <= claimed' && Walk(g, claimed', p)
    ensures Walk(g, claimed, p)
    decreases |p|
  {
    if |p| > 1 {
      WalkWeaken(g, claimed, claimed', p[1..]);
    }
  }

  /** A search's accounts followed by those of a nested search. */
  lemma Extend(g: map<Id, seq<Id>>, v0: set<Id>, pushed: seq<Id>, v1: set<Id>, added: seq<Id>, v2: set<Id>)
    requires Grew(v0, pushed, v1) && Closed(g, Elems(pushed), v1)
    requires Grew(v1, added, v2) && Closed(g, Elems(added), v2)
    ensures Grew(v0, pushed + added, v2) && Closed(g, Elems(pushed + added), v2)
  {
    GrewTrans(v0, pushed, v1, added, v2);
    assert Elems(pushed + added) == Elems(pushed) + Elems(added);
  }

  /** `dfs1` pushes its node after the accounts its nested searches pushed. */
  lemma Finish(g: map<Id, seq<Id>>, v0: set<Id>, node: Id, pushed: seq<Id>, v: set<Id>)
    requires node !in v0
    requires Grew(v0 + {node}, pushed, v) && Closed(g, Elems(pushed), v)
    requires forall j | 0 <= j < |ListAt(g, node)| :: ListAt(g, node)[j] in v
    ensures Grew(v0, pushed + [node], v) && Closed(g, Elems(pushed + [node]), v)
  {
    assert Elems(pushed + [node]) == Elems(pushed) + {node};
    assert forall j | 0 <= j < |pushed| :: (pushed + [node])[j] == pushed[j];
  }

  /** `dfs2` records its node before the accounts its nested searches add. */
  lemma CollectDone(g: map<Id, seq<Id>>, v0: set<Id>, node: Id, tail: seq<Id>, ps: seq<seq<Id>>, v: set<Id>)
    requires node !in v0 && Grew(v0 + {node}, tail, v) && Closed(g, Elems(tail), v)
    requires Witnessed(g, v0, node, tail, ps)
    requires forall j | 0 <= j < |ListAt(g, node)| :: ListAt(g, node)[j] in v
    ensures Grew(v0, [node] + tail, v) && Closed(g, Elems([node] + tail), v)
    ensures Witnessed(g, v0, node, [node] + tail, [[node]] + ps)
  {
    GrewCons(v0, node, tail, v);
    assert Elems([node] + tail) == {node} + Elems(tail);
    WitnessedCons(g, v0, node, tail, ps);
  }

  lemma GrewCons(v0: set<Id>, node: Id, tail: seq<Id>, v: set<Id>)
    requires node !in v0 && Grew(v0 + {node}, tail, v)
    ensures Grew(v0, [node] + tail, v)
  {
    assert Elems([node] + tail) == {node} + Elems(tail);
    assert forall j | 0 <= j < |tail| :: ([node] + tail)[j + 1] == tail[j];
  }

  lemma WitnessedCons(g: map<Id, seq<Id>>, v0: set<Id>, node: Id, tail: seq<Id>, ps: seq<seq<Id>>)
    requires node !in v0 && Witnessed(g, v0, node, tail, ps)
    ensures Witnessed(g, v0, node, [node] + tail, [[node]] + ps)
  {
    var s, qs := [node] + tail, [[node]] + ps;
    assert Walk(g, v0, [node]);
    forall k | 1 <= k < |s|
      ensures Walk(g, v0, qs[k]) && qs[k][0] == node && qs[k][|qs[k]| - 1] == s[k]
    {
      assert qs[k] == ps[k - 1] && s[k] == tail[k - 1];
    }
  }

  /** What one `dfs2` collected is a component. */
  lemma NewComponent(g: map<Id, seq<Id>>, v0: set<Id>, c: seq<Id>, ps: seq<seq<Id>>, v: set<Id>)
    requires c != [] && Grew(v0, c, v) && Closed(g, Elems(c), v)
    requires Witnessed(g, v0, c[0], c, ps)
    ensures IsComponent(g, v0, c)
  {
    forall y
      ensures y in c <==> ReachableAvoiding(g, v0, c[0], y)
    {
      if y in c {
        var k :| 0 <= k < |c| && c[k] == y;
        assert Walk(g, v0, ps[k]) && ps[k][0] == c[0] && ps[k][|ps[k]| - 1] == y;
      }
      if ReachableAvoiding(g, v0, c[0], y) {
        ReachClosed(g, v0, Elems(c), c[0], y);
      }
    }
  }

  /** A component of accounts no earlier one claimed keeps the list
      disjoint and well formed. */
  lemma ComponentsSnoc(g: map<Id, seq<Id>>, cs: seq<seq<Id>>, c: seq<Id>)
    requires Disjoint(cs) && Components(g, cs)
    requires IsComponent(g, Union(cs), c)
    requires forall x | x in c :: x !in Union(cs)
    ensures Disjoint(cs + [c]) && Components(g, cs + [c])
    ensures Union(cs + [c]) == Union(cs) + Elems(c)
  {
    var cs' := cs + [c];
    assert cs'[..|cs|] == cs;
    forall k | 0 <= k < |cs'|
      ensures IsComponent(g, Union(cs'[..k]), cs'[k])
    {
      if k < |cs| {
        assert cs'[..k] == cs[..k];
      }
    }
    UnionMembers(cs);
    forall i, j, x | 0 <= i < j < |cs'| && x in cs'[i]
      ensures x !in cs'[j]
    {
      if j == |cs| {
        assert x in Union(cs);
      }
    }
  }

  /** The witnesses of a nested search, each with `node` prepended. */
  ghost function Prefixed(node: Id, ps: seq<seq<Id>>): seq<seq<Id>>
  {
    seq(|ps|, k requires 0 <= k < |ps| => [node] + ps[k])
  }

  /** Paths from a neighbour extend to paths from `node`. */
  lemma WitnessExtend(g: map<Id, seq<Id>>, v0: set<Id>, node: Id, tail: seq<Id>, ps: seq<seq<Id>>,
                      nei: Id, v1: set<Id>, added: seq<Id>, qs: seq<seq<Id>>)
    requires nei in ListAt(g, node) && node !in v0 && v0 <= v1
    requires Witnessed(g, v0, node, tail, ps) && Witnessed(g, v1, nei, added, qs)
    ensures Witnessed(g, v0, node, tail + added, ps + Prefixed(node, qs))
  {
    var all := ps + Prefixed(node, qs);
    forall k | |tail| <= k < |tail| + |added|
      ensures Walk(g, v0, all[k]) && all[k][0] == node
      ensures all[k][|all[k]| - 1] == (tail + added)[k]
    {
      var q := qs[k - |tail|];
      WalkWeaken(g, v0, v1, q);
      assert all[k] == [node] + q;
      assert ([node] + q)[1..] == q;
    }
  }

  // ---- The two passes ----

  class Kosaraju {
    const adjList: map<Id, seq<Id>>
    const reverseAdjList: map<Id, seq<Id>>
    /** Every account the search can meet, which bounds its recursion. */
    ghost const universe: set<Id>
    var visited: set<Id>
    var stack: seq<Id>
    var visitedRev: set<Id>
    var comp: seq<Id>
    var sccs: seq<seq<Id>>

    constructor (nodes: seq<Id>, adj: map<Id, seq<Id>>, rev: map<Id, seq<Id>>)
      ensures adjList == adj && reverseAdjList == rev
      ensures universe == Elems(nodes) + Targets(adj) + Targets(rev)
      ensures visited == {} && stack == [] && visitedRev == {} && comp == [] && sccs == []
    {
      adjList := adj;
      reverseAdjList := rev;
      universe := Elems(nodes) + Targets(adj) + Targets(rev);
      visited := {};
      stack := [];
      visitedRev := {};
      comp := [];
      sccs := [];
    }

    /** `dfs1(node)`: visits every account forward-reachable from `node` that
        was not visited, and pushes each once all its neighbours are
        visited, `node` last. */
    method Dfs1(node: Id) returns (ghost added: seq<Id>)
      requires node in universe && node !in visited && visited <= universe
      requires Targets(adjList) <= universe
      modifies this`visited, this`stack
      decreases universe - visited, 0
      ensures stack == old(stack) + added && added != [] && added[|added| - 1] == node
      ensures Grew(old(visited), added, visited)
      ensures Closed(adjList, Elems(added), visited)
      ensures old(visited) + {node} <= visited <= universe
    {
      visited := visited + {node};
      ghost var pushed: seq<Id> := [];
      var neighbors := ListAt(adjList, node);
      for i := 0 to |neighbors|
        invariant stack == old(stack) + pushed
        invariant Grew(old(visited) + {node}, pushed, visited)
        invariant Closed(adjList, Elems(pushed), visited)
        invariant forall j | 0 <= j < i :: neighbors[j] in visited
        invariant old(visited) + {node} <= visited <= universe
      {
        TargetsHas(adjList, node, neighbors[i]);
        ghost var v1 := visited;
        ghost var sub := Forward(neighbors[i]);
        Extend(adjList, old(visited) + {node}, pushed, v1, sub, visited);
        AppendAssoc(old(stack), pushed, sub);
        pushed := pushed + sub;
      }
      Finish(adjList, old(visited), node, pushed, visited);
      stack := stack + [node];
      AppendAssoc(old(stack), pushed, [node]);
      added := pushed + [node];
    }

    /** `if (!visited.has(nei)) dfs1(nei)`: afterwards `nei` is visited. */
    method Forward(nei: Id) returns (ghost added: seq<Id>)
      requires nei in universe && visited <= universe
      requires Targets(adjList) <= universe
      modifies this`visited, this`stack
      decreases universe - visited, 1
      ensures stack == old(stack) + added
      ensures Grew(old(visited), added, visited)
      ensures Closed(adjList, Elems(added), visited)
      ensures old(visited) + {nei} <= visited <= universe
    {
      if nei !in visited {
        added := Dfs1(nei);
      } else {
        added := [];
      }
    }

    /** Phase 1, `for (let node of graph.nodes)`: afterwards every node is on
        the stack exactly once, and the stack holds exactly the visited
        accounts, each with all its forward neighbours. */
    method FillStack(nodes: seq<Id>)
      requires Elems(nodes) <= universe && Targets(adjList) <= universe && visited == {} && stack == []
      modifies this`visited, this`stack
      ensures NoDup(stack) && Elems(stack) == visited && visited <= universe
      ensures forall n | n in nodes :: n in stack
      ensures Closed(adjList, visited, visited)
    {
      for i := 0 to |nodes|
        invariant Grew({}, stack, visited) && visited <= universe
        invariant forall j | 0 <= j < i :: nodes[j] in visited
        invariant Closed(adjList, visited, visited)
      {
        assert nodes[i] in Elems(nodes);
        ghost var before, v1 := stack, visited;
        ghost var added := Forward(nodes[i]);
        Extend(adjList, {}, before, v1, added, visited);
      }
    }

    /** `dfs2(node, comp)`: appends to `comp` every account reverse-reachable
        from `node` that no search claimed, `node` first. */
    method Dfs2(node: Id) returns (ghost added: seq<Id>, ghost paths: seq<seq<Id>>)
      requires node in universe && node !in visitedRev && visitedRev <= universe
      requires Targets(reverseAdjList) <= universe
      modifies this`visitedRev, this`comp
      decreases universe - visitedRev, 0
      ensures comp == old(comp) + added && added != [] && added[0] == node
      ensures Grew(old(visitedRev), added, visitedRev)
      ensures Closed(reverseAdjList, Elems(added), visitedRev)
      ensures Witnessed(reverseAdjList, old(visitedRev), node, added, paths)
      ensures old(visitedRev) + {node} <= visitedRev <= universe
    {
      visitedRev := visitedRev + {node};
      comp := comp + [node];
      ghost var tail: seq<Id> := [];
      ghost var tailPaths: seq<seq<Id>> := [];
      var neighbors := ListAt(reverseAdjList, node);
      for i := 0 to |neighbors|
        invariant comp == old(comp) + [node] + tail
        invariant Grew(old(visitedRev) + {node}, tail, visitedRev)
        invariant Closed(reverseAdjList, Elems(tail), visitedRev)
        invariant Witnessed(reverseAdjList, old(visitedRev), node, tail, tailPaths)
        invariant forall j | 0 <= j < i :: neighbors[j] in visitedRev
        invariant old(visitedRev) + {node} <= visitedRev <= universe
      {
        TargetsHas(reverseAdjList, node, neighbors[i]);
        ghost var v1 := visitedRev;
        ghost var sub, subPaths := Backward(neighbors[i]);
        Extend(reverseAdjList, old(visitedRev) + {node}, tail, v1, sub, visitedRev);
        WitnessExtend(reverseAdjList, old(visitedRev), node, tail, tailPaths, neighbors[i], v1, sub, subPaths);
        AppendAssoc(old(comp) + [node], tail, sub);
        tail, tailPaths := tail + sub, tailPaths + Prefixed(node, subPaths);
      }
      CollectDone(reverseAdjList, old(visitedRev), node, tail, tailPaths, visitedRev);
      AppendAssoc(old(comp), [node], tail);
      added, paths := [node] + tail, [[node]] + tailPaths;
    }

    /** `if (!visitedRev.has(nei)) dfs2(nei, comp)`: afterwards `nei` is
        claimed. */
    method Backward(nei: Id) returns (ghost added: seq<Id>, ghost paths: seq<seq<Id>>)
      requires nei in universe && visitedRev <= universe
      requires Targets(reverseAdjList) <= universe
      modifies this`visitedRev, this`comp
      decreases universe - visitedRev, 1
      ensures comp == old(comp) + added
      ensures Grew(old(visitedRev), added, visitedRev)
      ensures Closed(reverseAdjList, Elems(added), visitedRev)
      ensures Witnessed(reverseAdjList, old(visitedRev), nei, added, paths)
      ensures old(visitedRev) + {nei} <= visitedRev <= universe
    {
      if nei !in visitedRev {
        added, paths := Dfs2(nei);
      } else {
        added, paths := [], [];
      }
    }

    /** One turn of the draining loop: `dfs2` from an unclaimed account, and
        the new component pushed. */
    method Claim(node: Id)
      requires node in universe && node !in visitedRev && visitedRev <= universe
      requires Targets(reverseAdjList) <= universe
      requires visitedRev == Union(sccs) && Closed(reverseAdjList, visitedRev, visitedRev)
      requires Disjoint(sccs) && Components(reverseAdjList, sccs)
      modifies this`visitedRev, this`comp, this`sccs
      ensures |sccs| == |old(sccs)| + 1 && sccs[..|old(sccs)|] == old(sccs)
      ensures sccs[|old(sccs)|] != [] && sccs[|old(sccs)|][0] == node
      ensures visitedRev == Union(sccs) && visitedRev <= universe && Closed(reverseAdjList, visitedRev, visitedRev)
      ensures Disjoint(sccs) && Components(reverseAdjList, sccs)
    {
      ghost var v0 := visitedRev;
      comp := [];
      ghost var added, paths := Dfs2(node);
      assert comp == added;
      NewComponent(reverseAdjList, v0, comp, paths, visitedRev);
      ClosedGrow(reverseAdjList, v0, v0, visitedRev);
      ComponentsSnoc(reverseAdjList, sccs, comp);
      sccs := sccs + [comp];
    }

    /** Phase 2, `while (stack.length)`: pops until the stack is empty,
        claiming a new component from each unclaimed account. */
    method Drain()
      requires Elems(stack) <= universe && Targets(reverseAdjList) <= universe && visitedRev == {} && sccs == []
      modifies this`stack, this`visitedRev, this`comp, this`sccs
      ensures stack == []
      ensures Elems(old(stack)) <= Union(sccs) <= universe
      ensures Disjoint(sccs)
      ensures Components(reverseAdjList, sccs)
    {
      while |stack| > 0
        invariant stack == old(stack)[..|stack|]
        invariant Elems(old(stack)[|stack|..]) <= visitedRev
        invariant Elems(stack) <= universe && visitedRev <= universe
        invariant visitedRev == Union(sccs) && Closed(reverseAdjList, visitedRev, visitedRev)
        invariant Disjoint(sccs)
        invariant Components(reverseAdjList, sccs)
        decreases |stack|
      {
        var node := stack[|stack| - 1];
        var n := |stack| - 1;
        assert old(stack)[n..] == [node] + old(stack)[n + 1..];
        assert Elems(old(stack)[n..]) == {node} + Elems(old(stack)[n + 1..]);
        assert node in Elems(stack);
        stack := stack[..n];
        assert Elems(stack) <= Elems(old(stack)[..n + 1]);
        if node !in visitedRev {
          Claim(node);
        }
      }
    }
  }

  /** Every component is non-empty and without repeats. */
  lemma ComponentsNonEmpty(g: map<Id, seq<Id>>, sccs: seq<seq<Id>>)
    requires forall k | 0 <= k < |sccs| :: IsComponent(g, Union(sccs[..k]), sccs[k])
    ensures forall c | c in sccs :: c != [] && NoDup(c)
  {
    forall c | c in sccs
      ensures c != [] && NoDup(c)
    {
      var k :| 0 <= k < |sccs| && sccs[k] == c;
      assert IsComponent(g, Union(sccs[..k]), sccs[k]);
    }
  }

  /** `findSCC` on the graph's node list and adjacency lists. */
  method FindScc(nodes: seq<Id>, adjList: map<Id, seq<Id>>, reverseAdjList: map<Id, seq<Id>>)
    returns (sccs: seq<seq<Id>>)
    ensures forall c | c in sccs :: c != [] && NoDup(c)
    ensures Disjoint(sccs)
    ensures Elems(nodes) <= Union(sccs) <= Elems(nodes) + Targets(adjList) + Targets(reverseAdjList)
    ensures forall k | 0 <= k < |sccs| :: IsComponent(reverseAdjList, Union(sccs[..k]), sccs[k])
  {
    var search := new Kosaraju(nodes, adjList, reverseAdjList);
    search.FillStack(nodes);
    assert Elems(nodes) <= Elems(search.stack);
    search.Drain();
    sccs := search.sccs;
    ComponentsNonEmpty(reverseAdjList, sccs);
  }

  /** On a graph built from transactions, whose lists name only its nodes,
      the components partition exactly the node set. */
  method FindSccOfGraph(graph: TransactionGraph.Graph) returns (sccs: seq<seq<Id>>)
    requires graph.Valid()
    ensures forall c | c in sccs :: c != [] && NoDup(c)
    ensures Disjoint(sccs)
    ensures Union(sccs) == Elems(graph.nodes)
    ensures forall k | 0 <= k < |sccs| :: IsComponent(graph.reverseAdjList, Union(sccs[..k]), sccs[k])
  {
    graph.ListsWithinNodes();
    sccs := FindScc(graph.nodes, graph.adjList, graph.reverseAdjList);
    assert Targets(graph.adjList) <= Elems(graph.nodes);
    assert Targets(graph.reverseAdjList) <= Elems(graph.nodes);
  }
}
