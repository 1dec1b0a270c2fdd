/** The bounded cycle search of cycleDetection.js: a depth-first search from
    every node that records each simple cycle of 3 to 6 accounts, then
    keeps one cycle per rotation-aware key. The adjacency and the node
    list are explicit inputs (`graph.adjList[id] || []` and
    `Object.keys(graph.nodes)`). */
module CycleDetection {
  import opened Common
  import opened Strings

  // ---- What one dfs call records ----

  /** The search stops once `depth` exceeds 5, so `6 - depth` bounds it. */
  function Budget(depth: nat): nat
  {
    if depth <= 5 then 6 - depth else 0
  }

  /** The cycles that `dfs(start, current, path, depth)` appends, in order. */
  function Explore(adj: map<Id, seq<Id>>, start: Id, current: Id, path: seq<Id>, depth: nat): seq<seq<Id>>
    decreases Budget(depth), 1, 0
  {
    if depth > 5 then []
    else ExploreFrom(adj, start, path + [current], depth, ListAt(adj, current))
  }

  /** What the loop over the neighbours `ns` appends, `p` being the path
      with the current account pushed. */
  function ExploreFrom(adj: map<Id, seq<Id>>, start: Id, p: seq<Id>, depth: nat, ns: seq<Id>): seq<seq<Id>>
    requires depth <= 5
    decreases Budget(depth), 0, |ns|
  {
    if ns == [] then []
    else ExploreFrom(adj, start, p, depth, ns[..|ns| - 1]) + Step(adj, start, p, depth, ns[|ns| - 1])
  }

  /** One neighbour: record the path when it closes a cycle of at least 3
      accounts, and descend when it is not on the path yet. */
  function Step(adj: map<Id, seq<Id>>, start: Id, p: seq<Id>, depth: nat, n: Id): seq<seq<Id>>
    requires depth <= 5
    decreases Budget(depth), 0, 0
  {
    (if n == start && |p| >= 3 then [p] else [])
    + (if n !in p then Explore(adj, start, n, p, depth + 1) else [])
  }

  /** One more turn of the loop over the neighbours. */
  lemma ExploreFromSnoc(adj: map<Id, seq<Id>>, start: Id, p: seq<Id>, depth: nat, ns: seq<Id>, i: nat)
    requires depth <= 5 && i < |ns|
    ensures ExploreFrom(adj, start, p, depth, ns[..i + 1])
            == ExploreFrom(adj, start, p, depth, ns[..i]) + Step(adj, start, p, depth, ns[i])
  {
    assert ns[..i + 1][..i] == ns[..i];
  }

  /** What the loop over `Object.keys(graph.nodes)` collects. */
  function AllCycles(adj: map<Id, seq<Id>>, nodes: seq<Id>): seq<seq<Id>>
  {
    if nodes == [] then []
    else
      var v := nodes[|nodes| - 1];
      AllCycles(adj, nodes[..|nodes| - 1]) + Explore(adj, v, v, [], 0)
  }

  // ---- Simple cycles ----

  /** Each account of `p` has an edge to the next one. */
  ghost predicate IsChain(adj: map<Id, seq<Id>>, p: seq<Id>)
  {
    forall k | 0 <= k < |p| - 1 :: p[k + 1] in ListAt(adj, p[k])
  }

  /** A cycle as the search reports it: 3 to 6 distinct accounts starting
      at `start`, an edge between consecutive accounts and one from the
      last back to `start`. */
  ghost predicate IsSimpleCycle(adj: map<Id, seq<Id>>, start: Id, c: seq<Id>)
  {
    && 3 <= |c| <= 6
    && c[0] == start
    && NoDup(c)
    && IsChain(adj, c)
    && start in ListAt(adj, c[|c| - 1])
  }

  /** The path of a live dfs call, with its current account pushed. */
  ghost predicate SearchPath(adj: map<Id, seq<Id>>, start: Id, p: seq<Id>)
  {
    p != [] && p[0] == start && NoDup(p) && IsChain(adj, p)
  }

  lemma {:induction false} ExploreSound(adj: map<Id, seq<Id>>, start: Id, current: Id, path: seq<Id>, depth: nat,
                                        c: seq<Id>)
    requires depth == |path|
    requires SearchPath(adj, start, path + [current])
    requires c in Explore(adj, start, current, path, depth)
    ensures IsSimpleCycle(adj, start, c)
    decreases Budget(depth), 1, 0
  {
    var p := path + [current];
    assert p[|p| - 1] == current;
    ExploreFromSound(adj, start, p, depth, ListAt(adj, current), c);
  }

  lemma {:induction false} ExploreFromSound(adj: map<Id, seq<Id>>, start: Id, p: seq<Id>, depth: nat, ns: seq<Id>,
                                            c: seq<Id>)
    requires depth <= 5 && |p| == depth + 1
    requires SearchPath(adj, start, p)
    requires forall n | n in ns :: n in ListAt(adj, p[|p| - 1])
    requires c in ExploreFrom(adj, start, p, depth, ns)
    ensures IsSimpleCycle(adj, start, c)
    decreases Budget(depth), 0, |ns|
  {
    var init, n := ns[..|ns| - 1], ns[|ns| - 1];
    assert forall m | m in init :: m in ns;
    assert n in ns;
    if c in ExploreFrom(adj, start, p, depth, init) {
      ExploreFromSound(adj, start, p, depth, init, c);
    } else {
      StepSound(adj, start, p, depth, n, c);
    }
  }

  lemma {:induction false} StepSound(adj: map<Id, seq<Id>>, start: Id, p: seq<Id>, depth: nat, n: Id, c: seq<Id>)
    requires depth <= 5 && |p| == depth + 1
    requires SearchPath(adj, start, p)
    requires n in ListAt(adj, p[|p| - 1])
    requires c in Step(adj, start, p, depth, n)
    ensures IsSimpleCycle(adj, start, c)
    decreases Budget(depth), 0, 0
  {
    if n == start && |p| >= 3 && c == p {
    } else {
      var q := p + [n];
      assert IsChain(adj, q) by {
        forall k | 0 <= k < |q| - 1 ensures q[k + 1] in ListAt(adj, q[k]) {
          if k < |p| - 1 {
            assert q[k] == p[k] && q[k + 1] == p[k + 1];
          }
        }
      }
      ExploreSound(adj, start, n, p, depth + 1, c);
    }
  }

  /** `x` is appended by the loop over `ns` when one neighbour's step appends it. */
  lemma {:induction false} ExploreFromHas(adj: map<Id, seq<Id>>, start: Id, p: seq<Id>, depth: nat, ns: seq<Id>,
                                          i: nat, x: seq<Id>)
    requires depth <= 5
    requires i < |ns| && x in Step(adj, start, p, depth, ns[i])
    ensures x in ExploreFrom(adj, start, p, depth, ns)
    decreases |ns|
  {
    if i < |ns| - 1 {
      ExploreFromHas(adj, start, p, depth, ns[..|ns| - 1], i, x);
    }
  }

  /** A simple cycle through the current path is reached by extending the path. */
  lemma {:induction false} ExploreComplete(adj: map<Id, seq<Id>>, start: Id, current: Id, path: seq<Id>,
                                           c: seq<Id>)
    requires IsSimpleCycle(adj, start, c)
    requires |path| < |c| && c[..|path| + 1] == path + [current]
    ensures c in Explore(adj, start, current, path, |path|)
    decreases |c| - |path|
  {
    var p := path + [current];
    var depth := |path|;
    var ns := ListAt(adj, current);
    assert current == c[|path|];
    if |p| == |c| {
      assert p == c;
      var i :| 0 <= i < |ns| && ns[i] == start;
      ExploreFromHas(adj, start, p, depth, ns, i, c);
    } else {
      var next := c[|p|];
      assert next in ns by {
        assert c[|p| - 1 + 1] in ListAt(adj, c[|p| - 1]);
      }
      assert next !in p by {
        forall k | 0 <= k < |p| ensures p[k] != next {
          assert p[k] == c[k];
        }
      }
      assert c[..|p| + 1] == p + [next];
      ExploreComplete(adj, start, next, p, c);
      var i :| 0 <= i < |ns| && ns[i] == next;
      ExploreFromHas(adj, start, p, depth, ns, i, c);
    }
  }

  /** The search from `start` records exactly the simple cycles at `start`
      (each as often as it is reached). */
  lemma SearchFindsExactlySimpleCycles(adj: map<Id, seq<Id>>, start: Id, c: seq<Id>)
    ensures c in Explore(adj, start, start, [], 0) <==> IsSimpleCycle(adj, start, c)
  {
    if c in Explore(adj, start, start, [], 0) {
      ExploreSound(adj, start, start, [], 0, c);
    }
    if IsSimpleCycle(adj, start, c) {
      assert c[..1] == [] + [start];
      ExploreComplete(adj, start, start, [], c);
    }
  }

  /** Over all roots: a cycle is collected exactly when it is a simple cycle
      at one of the nodes. */
  lemma {:induction false} AllCyclesExact(adj: map<Id, seq<Id>>, nodes: seq<Id>, c: seq<Id>)
    ensures c in AllCycles(adj, nodes) <==> (c != [] && c[0] in nodes && IsSimpleCycle(adj, c[0], c))
  {
    if nodes != [] {
      var init, v := nodes[..|nodes| - 1], nodes[|nodes| - 1];
      AllCyclesExact(adj, init, c);
      SearchFindsExactlySimpleCycles(adj, v, c);
      assert nodes == init + [v];
      if c != [] && IsSimpleCycle(adj, c[0], c) && c[0] == v {
        assert c in Explore(adj, v, v, [], 0);
      }
    }
  }

  // ---- The search as it runs ----

  /** The shared state of `findCycles`: the `path` array pushed and popped
      by `dfs` and the outer `cycles` array. */
  class CycleSearch {
    const adj: map<Id, seq<Id>>
    var path: seq<Id>
    var cycles: seq<seq<Id>>

    constructor (adj: map<Id, seq<Id>>)
      ensures this.adj == adj && path == [] && cycles == []
    {
      this.adj := adj;
      path := [];
      cycles := [];
    }

    /** `dfs(start, current, path, depth)`: appends what `Explore` records
        and leaves the path as it found it. */
    method Dfs(start: Id, current: Id, depth: nat)
      modifies this
      ensures path == old(path)
      ensures cycles == old(cycles) + Explore(adj, start, current, old(path), depth)
      decreases Budget(depth)
    {
      if depth > 5 {
        return;
      }
      ghost var p := path + [current];
      path := path + [current];
      var neighbors := ListAt(adj, current);
      var i := 0;
      while i < |neighbors|
        invariant 0 <= i <= |neighbors|
        invariant path == p
        invariant cycles == old(cycles) + ExploreFrom(adj, start, p, depth, neighbors[..i])
      {
        var neighbor := neighbors[i];
        ghost var before := cycles;
        ghost var closed := if neighbor == start && |p| >= 3 then [p] else [];
        ghost var deeper := if neighbor !in p then Explore(adj, start, neighbor, p, depth + 1) else [];
        if neighbor == start && |path| >= 3 {
          cycles := cycles + [path];
        }
        assert cycles == before + closed;
        if neighbor !in path {
          Dfs(start, neighbor, depth + 1);
        }
        assert cycles == (before + closed) + deeper;
        AppendAssoc(before, closed, deeper);
        ExploreFromSnoc(adj, start, p, depth, neighbors, i);
        AppendAssoc(old(cycles), ExploreFrom(adj, start, p, depth, neighbors[..i]), Step(adj, start, p, depth, neighbor));
        i := i + 1;
      }
      assert neighbors[..i] == neighbors;
      path := path[..|path| - 1];
      assert path == old(path);
    }
  }

  // ---- Canonical key: the least rotation ----

  /** `[...c.slice(i), ...c.slice(0, i)]`. */
  function Rotate(c: seq<Id>, i: nat): (r: seq<Id>)
    requires i <= |c|
    ensures |r| == |c|
  {
    c[i..] + c[..i]
  }

  function RotationJoin(c: seq<Id>, i: nat): string
    requires i <= |c|
  {
    Join(Rotate(c, i), "-")
  }

  /** `minRotation` once the rotations `0 .. n-1` have been looked at. */
  function MinRotation(c: seq<Id>, n: nat): string
    requires 1 <= n <= |c| + 1
  {
    if n == 1 then RotationJoin(c, 0)
    else
      var prev := MinRotation(c, n - 1);
      var s := RotationJoin(c, n - 1);
      if LexLess(s, prev) then s else prev
  }

  /** `minRotation` is the least of the joins looked at, and one of them. */
  lemma {:induction false} MinRotationIsLeast(c: seq<Id>, n: nat) returns (w: nat)
    requires 1 <= n <= |c| + 1
    ensures forall i | 0 <= i < n :: LexLe(MinRotation(c, n), RotationJoin(c, i))
    ensures w < n && MinRotation(c, n) == RotationJoin(c, w)
  {
    if n == 1 {
      w := 0;
    } else {
      var w' := MinRotationIsLeast(c, n - 1);
      var prev := MinRotation(c, n - 1);
      var s := RotationJoin(c, n - 1);
      if LexLess(s, prev) {
        w := n - 1;
        forall i | 0 <= i < n - 1 ensures LexLe(s, RotationJoin(c, i)) {
          if prev != RotationJoin(c, i) {
            LexLessTransitive(s, prev, RotationJoin(c, i));
          }
        }
      } else {
        w := w';
        LexLessTotal(s, prev);
      }
    }
  }

  /** `normalizeCycle(c)` as a value. */
  function CanonicalKey(c: seq<Id>): string
  {
    MinRotation(c, if |c| == 0 then 1 else |c|)
  }

  /** `normalizeCycle(cycle)`. */
  method NormalizeCycle(cycle: seq<Id>) returns (minRotation: string)
    ensures minRotation == CanonicalKey(cycle)
  {
    minRotation := Join(cycle, "-");
    assert Rotate(cycle, 0) == cycle;
    var i := 1;
    while i < |cycle|
      invariant 1 <= i <= if |cycle| == 0 then 1 else |cycle|
      invariant minRotation == MinRotation(cycle, i)
    {
      var rotated := cycle[i..] + cycle[..i];
      var rotatedStr := Join(rotated, "-");
      assert rotatedStr == RotationJoin(cycle, i);
      if LexLess(rotatedStr, minRotation) {
        minRotation := rotatedStr;
      }
      i := i + 1;
    }
  }

  /** The key is at most the join of every rotation. */
  lemma CanonicalKeyIsLeast(c: seq<Id>, i: nat)
    requires i < |c|
    ensures LexLe(CanonicalKey(c), RotationJoin(c, i))
  {
    var _ := MinRotationIsLeast(c, |c|);
  }

  /** The key is the join of one of the rotations. */
  lemma CanonicalKeyIsRotation(c: seq<Id>) returns (i: nat)
    ensures i < |c| || i == 0
    ensures i <= |c| && CanonicalKey(c) == RotationJoin(c, i)
  {
    i := MinRotationIsLeast(c, if |c| == 0 then 1 else |c|);
  }

  lemma RotateRotate(c: seq<Id>, k: nat, i: nat)
    requires k < |c| && i < |c|
    ensures Rotate(Rotate(c, k), i) == Rotate(c, if k + i < |c| then k + i else k + i - |c|)
  {
    var n := |c|;
    var r := Rotate(c, k);
    if k + i < n {
      assert r[i..] == c[k + i..] + c[..k];
      assert r[..i] == c[k..k + i];
      assert c[..k] + c[k..k + i] == c[..k + i];
    } else {
      var d := k + i - n;
      assert r[i..] == c[d..k];
      assert r[..i] == c[k..] + c[..d];
      assert c[d..k] + c[k..] == c[d..];
    }
  }

  /** Rotating a cycle does not change its key. */
  lemma CanonicalKeyRotationInvariant(c: seq<Id>, k: nat)
    requires k < |c|
    ensures CanonicalKey(Rotate(c, k)) == CanonicalKey(c)
  {
    var a, b := CanonicalKey(c), CanonicalKey(Rotate(c, k));
    var rc := Rotate(c, k);
    var n := |c|;
    var i := CanonicalKeyIsRotation(rc);
    RotateRotate(c, k, i);
    CanonicalKeyIsLeast(c, if k + i < n then k + i else k + i - n);
    var m := CanonicalKeyIsRotation(c);
    var j := if m >= k then m - k else m - k + n;
    RotateRotate(c, k, j);
    CanonicalKeyIsLeast(rc, j);
    LexLessAsymmetric(a, b);
  }

  // ---- De-duplication and the whole search ----

  /** `removeDuplicateCycles(cycles)`: the first cycle of each key, in order. */
  method RemoveDuplicateCycles(cycles: seq<seq<Id>>) returns (result: seq<seq<Id>>)
    ensures result == KeepFirst(cycles, CanonicalKey)
  {
    var unique: set<string> := {};
    result := [];
    for k := 0 to |cycles|
      invariant result == KeepFirst(cycles[..k], CanonicalKey)
      invariant unique == KeysOf(cycles[..k], CanonicalKey)
    {
      var cycle := cycles[k];
      assert cycles[..k + 1][..k] == cycles[..k] && cycles[..k + 1] == cycles[..k] + [cycle];
      KeysOfSnoc(cycles[..k], cycle, CanonicalKey);
      var key := NormalizeCycle(cycle);
      if key !in unique {
        unique := unique + {key};
        result := result + [cycle];
      }
    }
    assert cycles[..|cycles|] == cycles;
  }

  /** `findCycles(graph)`. */
  method FindCycles(nodes: seq<Id>, adj: map<Id, seq<Id>>) returns (result: seq<seq<Id>>)
    ensures result == KeepFirst(AllCycles(adj, nodes), CanonicalKey)
  {
    var search := new CycleSearch(adj);
    for k := 0 to |nodes|
      invariant search.path == [] && search.adj == adj
      invariant search.cycles == AllCycles(adj, nodes[..k])
    {
      assert nodes[..k + 1][..k] == nodes[..k];
      search.Dfs(nodes[k], nodes[k], 0);
    }
    assert nodes[..|nodes|] == nodes;
    result := RemoveDuplicateCycles(search.cycles);
  }

  /** Every reported cycle is a simple cycle at one of the nodes, and every
      simple cycle at a node is reported up to its key. */
  lemma FindCyclesCorrect(nodes: seq<Id>, adj: map<Id, seq<Id>>)
    ensures forall c | c in KeepFirst(AllCycles(adj, nodes), CanonicalKey) ::
              c != [] && c[0] in nodes && IsSimpleCycle(adj, c[0], c)
    ensures forall c | c != [] && c[0] in nodes && IsSimpleCycle(adj, c[0], c) ::
              exists d | d in KeepFirst(AllCycles(adj, nodes), CanonicalKey) :: CanonicalKey(d) == CanonicalKey(c)
  {
    var all := AllCycles(adj, nodes);
    var r := KeepFirst(all, CanonicalKey);
    KeepFirstKeys(all, CanonicalKey);
    forall c | c in r ensures c != [] && c[0] in nodes && IsSimpleCycle(adj, c[0], c) {
      AllCyclesExact(adj, nodes, c);
    }
    forall c | c != [] && c[0] in nodes && IsSimpleCycle(adj, c[0], c)
      ensures exists d | d in r :: CanonicalKey(d) == CanonicalKey(c)
    {
      AllCyclesExact(adj, nodes, c);
      assert CanonicalKey(c) in KeysOf(all, CanonicalKey);
      assert CanonicalKey(c) in KeysOf(r, CanonicalKey);
    }
  }

  /** No two reported cycles share a key, so no cycle is reported twice in
      different rotations. */
  lemma ReportedKeysDistinct(nodes: seq<Id>, adj: map<Id, seq<Id>>, i: nat, j: nat)
    requires i < j < |KeepFirst(AllCycles(adj, nodes), CanonicalKey)|
    ensures CanonicalKey(KeepFirst(AllCycles(adj, nodes), CanonicalKey)[i])
            != CanonicalKey(KeepFirst(AllCycles(adj, nodes), CanonicalKey)[j])
  {
    KeepFirstKeys(AllCycles(adj, nodes), CanonicalKey);
  }

  /** Two rotations of one cycle are never both reported. */
  lemma RotationsNotBothReported(nodes: seq<Id>, adj: map<Id, seq<Id>>, c: seq<Id>, k: nat)
    requires 0 < k < |c|
    requires c in KeepFirst(AllCycles(adj, nodes), CanonicalKey)
    ensures Rotate(c, k) == c || Rotate(c, k) !in KeepFirst(AllCycles(adj, nodes), CanonicalKey)
  {
    var r := KeepFirst(AllCycles(adj, nodes), CanonicalKey);
    if Rotate(c, k) != c && Rotate(c, k) in r {
      CanonicalKeyRotationInvariant(c, k);
      var i :| 0 <= i < |r| && r[i] == c;
      var j :| 0 <= j < |r| && r[j] == Rotate(c, k);
      if i < j {
        ReportedKeysDistinct(nodes, adj, i, j);
      } else {
        ReportedKeysDistinct(nodes, adj, j, i);
      }
    }
  }
}