/** The shell-chain search of shellDetection.js: a depth-first search from
    every node over paths of up to 6 accounts. It records each path of 4
    or more accounts whose intermediate accounts all have a transaction
    count of 2 or 3, then keeps one ring per set of accounts. The node list,
    the adjacency (`graph.adjList[id] || []`) and the per-account counts
    (`graph.nodes[id].transaction_count`) are explicit inputs. */
module ShellDetection {
  import opened Common
  import opened Strings

  /** A ring as the detector returns it. */
  datatype ShellRing = ShellRing(patternType: string, memberAccounts: seq<Id>)

  // ---- The validity rule ----

  /** An account with a record whose transaction count is 2 or 3; an
      account without a record fails. */
  predicate LowActivity(counts: map<Id, int>, a: Id)
  {
    a in counts && 2 <= counts[a] <= 3
  }

  /** `newPath.slice(1, -1)`. */
  function Intermediates(p: seq<Id>): (r: seq<Id>)
    requires |p| >= 2
    ensures |r| == |p| - 2
  {
    p[1..|p| - 1]
  }

  /** `valid && intermediateNodes.length > 0`. */
  predicate ShellValid(counts: map<Id, int>, p: seq<Id>)
    requires |p| >= 2
  {
    (forall x | x in Intermediates(p) :: LowActivity(counts, x)) && |Intermediates(p)| > 0
  }

  // ---- What one dfs call records ----

  /** `dfs` returns once the path holds more than 5 accounts. */
  function Room(n: nat): nat
  {
    if n <= 5 then 6 - n else 0
  }

  /** The rings that `dfs(current, path)` appends, in order. */
  function Explore(adj: map<Id, seq<Id>>, counts: map<Id, int>, current: Id, path: seq<Id>): seq<ShellRing>
    decreases Room(|path|), 1, 0
  {
    if |path| > 5 then []
    else ExploreFrom(adj, counts, path, ListAt(adj, current))
  }

  /** What the loop over the neighbours `ns` appends. */
  function ExploreFrom(adj: map<Id, seq<Id>>, counts: map<Id, int>, path: seq<Id>, ns: seq<Id>): seq<ShellRing>
    requires |path| <= 5
    decreases Room(|path|), 0, |ns|
  {
    if ns == [] then []
    else ExploreFrom(adj, counts, path, ns[..|ns| - 1]) + Step(adj, counts, path, ns[|ns| - 1])
  }

  /** One neighbour off the path: record the extended path when it is long
      and valid, then descend whatever its validity. */
  function Step(adj: map<Id, seq<Id>>, counts: map<Id, int>, path: seq<Id>, n: Id): seq<ShellRing>
    requires |path| <= 5
    decreases Room(|path|), 0, 0
  {
    if n in path then []
    else
      var q := path + [n];
      (if |q| >= 4 && ShellValid(counts, q) then [ShellRing("shell", q)] else [])
      + Explore(adj, counts, n, q)
  }

  lemma ExploreFromSnoc(adj: map<Id, seq<Id>>, counts: map<Id, int>, path: seq<Id>, ns: seq<Id>, i: nat)
    requires |path| <= 5 && i < |ns|
    ensures ExploreFrom(adj, counts, path, ns[..i + 1])
            == ExploreFrom(adj, counts, path, ns[..i]) + Step(adj, counts, path, ns[i])
  {
    assert ns[..i + 1][..i] == ns[..i];
  }

  /** What the loop over `Object.keys(graph.nodes)` collects. */
  function AllShells(adj: map<Id, seq<Id>>, counts: map<Id, int>, nodes: seq<Id>): seq<ShellRing>
  {
    if nodes == [] then []
    else
      var v := nodes[|nodes| - 1];
      AllShells(adj, counts, nodes[..|nodes| - 1]) + Explore(adj, counts, v, [v])
  }

  // ---- Shell chains ----

  /** Each account of `p` has an edge to the next one. */
  ghost predicate IsChain(adj: map<Id, seq<Id>>, p: seq<Id>)
  {
    forall k | 0 <= k < |p| - 1 :: p[k + 1] in ListAt(adj, p[k])
  }

  /** A chain as the search reports it: 4 to 6 distinct accounts from
      `root`, an edge between consecutive accounts, and every account but
      the first and the last of low activity. */
  ghost predicate IsShellChain(adj: map<Id, seq<Id>>, counts: map<Id, int>, root: Id, p: seq<Id>)
  {
    && 4 <= |p| <= 6
    && p[0] == root
    && NoDup(p)
    && IsChain(adj, p)
    && forall k | 1 <= k < |p| - 1 :: LowActivity(counts, p[k])
  }

  /** The path of a live dfs call. */
  ghost predicate SearchPath(adj: map<Id, seq<Id>>, root: Id, p: seq<Id>)
  {
    p != [] && p[0] == root && NoDup(p) && IsChain(adj, p)
  }

  lemma ShellValidMeans(counts: map<Id, int>, p: seq<Id>)
    requires |p| >= 4
    ensures ShellValid(counts, p) <==> forall k | 1 <= k < |p| - 1 :: LowActivity(counts, p[k])
  {
    var mids := Intermediates(p);
    if forall k | 1 <= k < |p| - 1 :: LowActivity(counts, p[k]) {
      forall x | x in mids ensures LowActivity(counts, x) {
        var j :| 0 <= j < |mids| && mids[j] == x;
        assert p[j + 1] == x;
      }
    }
    if ShellValid(counts, p) {
      forall k | 1 <= k < |p| - 1 ensures LowActivity(counts, p[k]) {
        assert mids[k - 1] == p[k];
      }
    }
  }

  /** Extending a search path along an edge to a new account keeps it one. */
  lemma SearchPathExtend(adj: map<Id, seq<Id>>, root: Id, p: seq<Id>, n: Id)
    requires SearchPath(adj, root, p)
    requires n in ListAt(adj, p[|p| - 1]) && n !in p
    ensures SearchPath(adj, root, p + [n])
  {
    var q := p + [n];
    forall k | 0 <= k < |q| - 1 ensures q[k + 1] in ListAt(adj, q[k]) {
      if k < |p| - 1 {
        assert q[k] == p[k] && q[k + 1] == p[k + 1];
      }
    }
  }

  lemma {:induction false} ExploreSound(adj: map<Id, seq<Id>>, counts: map<Id, int>, root: Id, current: Id,
                                        path: seq<Id>, r: ShellRing)
    requires SearchPath(adj, root, path) && current == path[|path| - 1]
    requires r in Explore(adj, counts, current, path)
    ensures r.patternType == "shell" && IsShellChain(adj, counts, root, r.memberAccounts)
    decreases Room(|path|), 1, 0
  {
    ExploreFromSound(adj, counts, root, path, ListAt(adj, current), r);
  }

  lemma {:induction false} ExploreFromSound(adj: map<Id, seq<Id>>, counts: map<Id, int>, root: Id, path: seq<Id>,
                                            ns: seq<Id>, r: ShellRing)
    requires |path| <= 5 && SearchPath(adj, root, path)
    requires forall n | n in ns :: n in ListAt(adj, path[|path| - 1])
    requires r in ExploreFrom(adj, counts, path, ns)
    ensures r.patternType == "shell" && IsShellChain(adj, counts, root, r.memberAccounts)
    decreases Room(|path|), 0, |ns|
  {
    var init, n := ns[..|ns| - 1], ns[|ns| - 1];
    assert forall m | m in init :: m in ns;
    assert n in ns;
    if r in ExploreFrom(adj, counts, path, init) {
      ExploreFromSound(adj, counts, root, path, init, r);
    } else {
      StepSound(adj, counts, root, path, n, r);
    }
  }

  lemma {:induction false} StepSound(adj: map<Id, seq<Id>>, counts: map<Id, int>, root: Id, path: seq<Id>, n: Id,
                                     r: ShellRing)
    requires |path| <= 5 && SearchPath(adj, root, path)
    requires n in ListAt(adj, path[|path| - 1])
    requires r in Step(adj, counts, path, n)
    ensures r.patternType == "shell" && IsShellChain(adj, counts, root, r.memberAccounts)
    decreases Room(|path|), 0, 0
  {
    var q := path + [n];
    SearchPathExtend(adj, root, path, n);
    if |q| >= 4 && ShellValid(counts, q) && r == ShellRing("shell", q) {
      ShellValidMeans(counts, q);
    } else {
      ExploreSound(adj, counts, root, n, q, r);
    }
  }

  /** `x` is appended by the loop over `ns` when one neighbour's step appends it. */
  lemma {:induction false} ExploreFromHas(adj: map<Id, seq<Id>>, counts: map<Id, int>, path: seq<Id>, ns: seq<Id>,
                                          i: nat, x: ShellRing)
    requires |path| <= 5
    requires i < |ns| && x in Step(adj, counts, path, ns[i])
    ensures x in ExploreFrom(adj, counts, path, ns)
    decreases |ns|
  {
    if i < |ns| - 1 {
      ExploreFromHas(adj, counts, path, ns[..|ns| - 1], i, x);
    }
  }

  /** A shell chain through the current path is reached by extending the
      path, whatever the validity of the prefixes on the way. */
  lemma {:induction false} ExploreComplete(adj: map<Id, seq<Id>>, counts: map<Id, int>, root: Id, path: seq<Id>,
                                           c: seq<Id>)
    requires IsShellChain(adj, counts, root, c)
    requires 1 <= |path| < |c| && c[..|path|] == path
    ensures ShellRing("shell", c) in Explore(adj, counts, path[|path| - 1], path)
    decreases |c| - |path|
  {
    var current := path[|path| - 1];
    var ns := ListAt(adj, current);
    var next := c[|path|];
    assert current == c[|path| - 1];
    assert next in ns by {
      assert c[|path| - 1 + 1] in ListAt(adj, c[|path| - 1]);
    }
    assert next !in path by {
      forall k | 0 <= k < |path| ensures path[k] != next {
        assert path[k] == c[k];
      }
    }
    var q := path + [next];
    assert c[..|q|] == q;
    var i :| 0 <= i < |ns| && ns[i] == next;
    if |q| == |c| {
      assert q == c;
      ShellValidMeans(counts, c);
    } else {
      ExploreComplete(adj, counts, root, q, c);
    }
    ExploreFromHas(adj, counts, path, ns, i, ShellRing("shell", c));
  }

  /** The search from `root` records exactly the shell chains at `root`
      (each as often as it is reached). */
  lemma SearchFindsExactlyShellChains(adj: map<Id, seq<Id>>, counts: map<Id, int>, root: Id, r: ShellRing)
    ensures r in Explore(adj, counts, root, [root])
            <==> r.patternType == "shell" && IsShellChain(adj, counts, root, r.memberAccounts)
  {
    if r in Explore(adj, counts, root, [root]) {
      ExploreSound(adj, counts, root, root, [root], r);
    }
    if r.patternType == "shell" && IsShellChain(adj, counts, root, r.memberAccounts) {
      assert r.memberAccounts[..1] == [root];
      ExploreComplete(adj, counts, root, [root], r.memberAccounts);
    }
  }

  /** Over all roots: a ring is collected exactly when it is a shell chain
      at one of the nodes. */
  lemma {:induction false} AllShellsExact(adj: map<Id, seq<Id>>, counts: map<Id, int>, nodes: seq<Id>, r: ShellRing)
    ensures r in AllShells(adj, counts, nodes)
            <==> (r.patternType == "shell" && r.memberAccounts != [] && r.memberAccounts[0] in nodes
                  && IsShellChain(adj, counts, r.memberAccounts[0], r.memberAccounts))
  {
    if nodes != [] {
      var init, v := nodes[..|nodes| - 1], nodes[|nodes| - 1];
      AllShellsExact(adj, counts, init, r);
      SearchFindsExactlyShellChains(adj, counts, v, r);
      assert nodes == init + [v];
    }
  }

  // ---- The search as it runs ----

  /** The shared state of `findShellNetworks`: the outer `shellRings` array
      that the inner `dfs` pushes onto. */
  class ShellSearch {
    const adj: map<Id, seq<Id>>
    const counts: map<Id, int>
    var shellRings: seq<ShellRing>

    constructor (adj: map<Id, seq<Id>>, counts: map<Id, int>)
      ensures this.adj == adj && this.counts == counts && shellRings == []
    {
      this.adj := adj;
      this.counts := counts;
      shellRings := [];
    }

    /** `dfs(current, path)`: appends what `Explore` records. */
    method Dfs(current: Id, path: seq<Id>)
      modifies this
      ensures shellRings == old(shellRings) + Explore(adj, counts, current, path)
      decreases Room(|path|)
    {
      if |path| > 5 {
        return;
      }
      var neighbors := ListAt(adj, current);
      for i := 0 to |neighbors|
        invariant shellRings == old(shellRings) + ExploreFrom(adj, counts, path, neighbors[..i])
      {
        var neighbor := neighbors[i];
        ghost var before := shellRings;
        if neighbor !in path {
          var newPath := path + [neighbor];
          ghost var recorded := if |newPath| >= 4 && ShellValid(counts, newPath)
                                then [ShellRing("shell", newPath)] else [];
          if |newPath| >= 4 {
            var valid := forall x | x in Intermediates(newPath) :: LowActivity(counts, x);
            if valid && |Intermediates(newPath)| > 0 {
              shellRings := shellRings + [ShellRing("shell", newPath)];
            }
          }
          assert shellRings == before + recorded;
          Dfs(neighbor, newPath);
          AppendAssoc(before, recorded, Explore(adj, counts, neighbor, newPath));
        }
        ExploreFromSnoc(adj, counts, path, neighbors, i);
        AppendAssoc(old(shellRings), ExploreFrom(adj, counts, path, neighbors[..i]), Step(adj, counts, path, neighbor));
      }
      assert neighbors[..|neighbors|] == neighbors;
    }
  }

  // ---- The key: sorted accounts ----

  /** `normalizePath(path)`: `[...path].sort().join("-")`. */
  function NormalizePath(p: seq<Id>): string
  {
    Join(SortStrings(p), "-")
  }

  /** Any ordering of the same accounts gives the same key. */
  lemma NormalizePathPermutation(p: seq<Id>, q: seq<Id>)
    requires multiset(p) == multiset(q)
    ensures NormalizePath(p) == NormalizePath(q)
  {
    SortStringsSortsAndPermutes(p);
    SortStringsSortsAndPermutes(q);
    LexSortedUnique(SortStrings(p), SortStrings(q));
  }

  function RingKey(r: ShellRing): string
  {
    NormalizePath(r.memberAccounts)
  }

  // ---- De-duplication and the whole search ----

  /** The state of the Map after the rings `rs`: `unique` maps each key to
      the first ring with it, and `order` lists the keys as the Map orders
      them. */
  ghost predicate Indexed(rs: seq<ShellRing>, unique: map<string, ShellRing>, order: seq<string>)
  {
    && unique.Keys == KeysOf(rs, RingKey)
    && |order| == |KeepFirst(rs, RingKey)|
    && forall j | 0 <= j < |order| :: order[j] in unique && unique[order[j]] == KeepFirst(rs, RingKey)[j]
  }

  /** A ring whose key is present leaves the Map alone. */
  lemma IndexedSeen(rs: seq<ShellRing>, unique: map<string, ShellRing>, order: seq<string>, ring: ShellRing)
    requires Indexed(rs, unique, order) && RingKey(ring) in unique
    ensures Indexed(rs + [ring], unique, order)
  {
    KeysOfSnoc(rs, ring, RingKey);
    KeepFirstSnoc(rs, ring, RingKey);
  }

  /** A ring with a new key is set in the Map and its key appended. */
  lemma IndexedNew(rs: seq<ShellRing>, unique: map<string, ShellRing>, order: seq<string>, ring: ShellRing)
    requires Indexed(rs, unique, order) && RingKey(ring) !in unique
    ensures Indexed(rs + [ring], unique[RingKey(ring) := ring], order + [RingKey(ring)])
  {
    var key := RingKey(ring);
    KeysOfSnoc(rs, ring, RingKey);
    KeepFirstSnoc(rs, ring, RingKey);
    var kept := KeepFirst(rs, RingKey);
    var kept' := KeepFirst(rs + [ring], RingKey);
    assert kept' == kept + [ring];
    var unique', order' := unique[key := ring], order + [key];
    assert unique'.Keys == unique.Keys + {key};
    assert |order'| == |kept'|;
    forall j | 0 <= j < |order'| ensures order'[j] in unique' && unique'[order'[j]] == kept'[j] {
      if j < |order| {
        assert order'[j] == order[j] && order[j] in unique && kept'[j] == kept[j];
      }
    }
  }

  /** The loop of `removeDuplicateShells`. */
  method IndexByKey(rings: seq<ShellRing>) returns (unique: map<string, ShellRing>, order: seq<string>)
    ensures Indexed(rings, unique, order)
  {
    unique := map[];
    order := [];
    for k := 0 to |rings|
      invariant Indexed(rings[..k], unique, order)
    {
      var ring := rings[k];
      assert rings[..k + 1] == rings[..k] + [ring];
      var key := NormalizePath(ring.memberAccounts);
      if key !in unique {
        IndexedNew(rings[..k], unique, order, ring);
        unique := unique[key := ring];
        order := order + [key];
      } else {
        IndexedSeen(rings[..k], unique, order, ring);
      }
    }
    assert rings[..|rings|] == rings;
  }

  /** `removeDuplicateShells(rings)`: `Array.from(unique.values())`, the
      first ring of each key in the order the keys first appear. */
  method RemoveDuplicateShells(rings: seq<ShellRing>) returns (result: seq<ShellRing>)
    ensures result == KeepFirst(rings, RingKey)
  {
    var unique, order := IndexByKey(rings);
    ghost var kept := KeepFirst(rings, RingKey);
    result := [];
    for j := 0 to |order|
      invariant result == kept[..j]
    {
      result := result + [unique[order[j]]];
      assert kept[..j + 1] == kept[..j] + [kept[j]];
    }
    assert kept[..|order|] == kept;
  }

  /** `findShellNetworks(graph)`. */
  method FindShellNetworks(nodes: seq<Id>, adj: map<Id, seq<Id>>, counts: map<Id, int>) returns (result: seq<ShellRing>)
    ensures result == KeepFirst(AllShells(adj, counts, nodes), RingKey)
  {
    var search := new ShellSearch(adj, counts);
    for k := 0 to |nodes|
      invariant search.adj == adj && search.counts == counts
      invariant search.shellRings == AllShells(adj, counts, nodes[..k])
    {
      assert nodes[..k + 1][..k] == nodes[..k];
      search.Dfs(nodes[k], [nodes[k]]);
    }
    assert nodes[..|nodes|] == nodes;
    result := RemoveDuplicateShells(search.shellRings);
  }

  /** Every reported ring is a shell chain at one of the nodes, every shell
      chain at a node is reported up to its set of accounts, and no two
      reported rings have the same key. */
  lemma FindShellNetworksCorrect(nodes: seq<Id>, adj: map<Id, seq<Id>>, counts: map<Id, int>)
    ensures forall r | r in KeepFirst(AllShells(adj, counts, nodes), RingKey) ::
              r.patternType == "shell" && r.memberAccounts != [] && r.memberAccounts[0] in nodes
              && IsShellChain(adj, counts, r.memberAccounts[0], r.memberAccounts)
    ensures forall c | c != [] && c[0] in nodes && IsShellChain(adj, counts, c[0], c) ::
              exists r | r in KeepFirst(AllShells(adj, counts, nodes), RingKey) :: RingKey(r) == NormalizePath(c)
    ensures var kept := KeepFirst(AllShells(adj, counts, nodes), RingKey);
            forall i, j | 0 <= i < j < |kept| :: RingKey(kept[i]) != RingKey(kept[j])
  {
    var all := AllShells(adj, counts, nodes);
    var kept := KeepFirst(all, RingKey);
    KeepFirstKeys(all, RingKey);
    forall r | r in kept
      ensures r.patternType == "shell" && r.memberAccounts != [] && r.memberAccounts[0] in nodes
              && IsShellChain(adj, counts, r.memberAccounts[0], r.memberAccounts)
    {
      AllShellsExact(adj, counts, nodes, r);
    }
    forall c | c != [] && c[0] in nodes && IsShellChain(adj, counts, c[0], c)
      ensures exists r | r in kept :: RingKey(r) == NormalizePath(c)
    {
      var ring := ShellRing("shell", c);
      AllShellsExact(adj, counts, nodes, ring);
      assert RingKey(ring) in KeysOf(all, RingKey);
      assert RingKey(ring) in KeysOf(kept, RingKey);
    }
  }
}
