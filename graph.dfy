/** The transaction graph built from the uploaded rows (graphBuilder.js):
    a node set, forward and reverse adjacency lists that keep parallel
    edges, degree and per-account transaction counters, and the raw
    transaction list in input order. */
module TransactionGraph {
  import opened Common

  /** One parsed CSV row; the timestamp is in integer milliseconds. */
  datatype Transaction = Transaction(
    transactionId: string,
    senderId: Id,
    receiverId: Id,
    amount: real,
    timestamp: int)

  // ---- The graph as a function of the transaction list ----

  /** The receivers of `a`'s transactions, one entry per transaction, in list order. */
  function ReceiversOf(txs: seq<Transaction>, a: Id): seq<Id>
  {
    if txs == [] then []
    else
      var t := txs[|txs| - 1];
      ReceiversOf(txs[..|txs| - 1], a) + (if t.senderId == a then [t.receiverId] else [])
  }

  /** The senders of `a`'s incoming transactions, one entry per transaction, in list order. */
  function SendersTo(txs: seq<Transaction>, a: Id): seq<Id>
  {
    if txs == [] then []
    else
      var t := txs[|txs| - 1];
      SendersTo(txs[..|txs| - 1], a) + (if t.receiverId == a then [t.senderId] else [])
  }

  function Senders(txs: seq<Transaction>): set<Id>
  {
    set t | t in txs :: t.senderId
  }

  function Receivers(txs: seq<Transaction>): set<Id>
  {
    set t | t in txs :: t.receiverId
  }

  function Accounts(txs: seq<Transaction>): set<Id>
  {
    Senders(txs) + Receivers(txs)
  }

  /** `m[a] || 0`: an absent counter reads as zero. */
  function Count(m: map<Id, nat>, a: Id): nat
  {
    if a in m then m[a] else 0
  }

  /** `m[a] = (m[a] || 0) + 1`. */
  function Bump(m: map<Id, nat>, a: Id): map<Id, nat>
  {
    m[a := Count(m, a) + 1]
  }

  /** One more transaction appends at most one entry to each list. */
  lemma ListsSnoc(txs: seq<Transaction>, tx: Transaction, a: Id)
    ensures ReceiversOf(txs + [tx], a) == ReceiversOf(txs, a) + (if tx.senderId == a then [tx.receiverId] else [])
    ensures SendersTo(txs + [tx], a) == SendersTo(txs, a) + (if tx.receiverId == a then [tx.senderId] else [])
  {
    assert (txs + [tx])[..|txs|] == txs;
  }

  /** One more transaction adds its two accounts. */
  lemma AccountsSnoc(txs: seq<Transaction>, tx: Transaction)
    ensures Senders(txs + [tx]) == Senders(txs) + {tx.senderId}
    ensures Receivers(txs + [tx]) == Receivers(txs) + {tx.receiverId}
  {
    assert forall t | t in txs + [tx] :: t in txs || t == tx;
  }

  /** Every forward list entry is the receiver of a transaction sent by its key. */
  lemma {:induction false} ReceiversOfSound(txs: seq<Transaction>, a: Id, x: Id)
    requires x in ReceiversOf(txs, a)
    ensures exists t | t in txs :: t.senderId == a && t.receiverId == x
  {
    var n := |txs| - 1;
    assert txs == txs[..n] + [txs[n]];
    if x !in ReceiversOf(txs[..n], a) {
      assert txs[n] in txs;
    } else {
      ReceiversOfSound(txs[..n], a, x);
      var t :| t in txs[..n] && t.senderId == a && t.receiverId == x;
      assert t in txs;
    }
  }

  /** Every reverse list entry is the sender of a transaction received by its key. */
  lemma {:induction false} SendersToSound(txs: seq<Transaction>, a: Id, x: Id)
    requires x in SendersTo(txs, a)
    ensures exists t | t in txs :: t.receiverId == a && t.senderId == x
  {
    var n := |txs| - 1;
    assert txs == txs[..n] + [txs[n]];
    if x !in SendersTo(txs[..n], a) {
      assert txs[n] in txs;
    } else {
      SendersToSound(txs[..n], a, x);
      var t :| t in txs[..n] && t.receiverId == a && t.senderId == x;
      assert t in txs;
    }
  }

  /** Accounts that never send (never receive) have an empty list. */
  lemma {:induction false} AbsentAccountLists(txs: seq<Transaction>, a: Id)
    ensures a !in Senders(txs) ==> ReceiversOf(txs, a) == []
    ensures a !in Receivers(txs) ==> SendersTo(txs, a) == []
  {
    if txs != [] {
      var n := |txs| - 1;
      assert txs == txs[..n] + [txs[n]];
      ListsSnoc(txs[..n], txs[n], a);
      AccountsSnoc(txs[..n], txs[n]);
      AbsentAccountLists(txs[..n], a);
    }
  }

  // ---- Degree sums ----

  /** The total number of forward list entries over the accounts `ns`. */
  function SumSent(txs: seq<Transaction>, ns: seq<Id>): nat
  {
    if ns == [] then 0 else SumSent(txs, ns[..|ns| - 1]) + |ReceiversOf(txs, ns[|ns| - 1])|
  }

  /** The total number of reverse list entries over the accounts `ns`. */
  function SumReceived(txs: seq<Transaction>, ns: seq<Id>): nat
  {
    if ns == [] then 0 else SumReceived(txs, ns[..|ns| - 1]) + |SendersTo(txs, ns[|ns| - 1])|
  }

  /** The sum of the counters `m` over the accounts `ns`. */
  function SumCounts(m: map<Id, nat>, ns: seq<Id>): nat
  {
    if ns == [] then 0 else SumCounts(m, ns[..|ns| - 1]) + Count(m, ns[|ns| - 1])
  }

  lemma {:induction false} SumsOfNoTransactions(ns: seq<Id>)
    ensures SumSent([], ns) == 0 && SumReceived([], ns) == 0
  {
    if ns != [] {
      SumsOfNoTransactions(ns[..|ns| - 1]);
    }
  }

  lemma {:induction false} SumsSnoc(txs: seq<Transaction>, tx: Transaction, ns: seq<Id>)
    requires NoDup(ns)
    ensures SumSent(txs + [tx], ns) == SumSent(txs, ns) + (if tx.senderId in ns then 1 else 0)
    ensures SumReceived(txs + [tx], ns) == SumReceived(txs, ns) + (if tx.receiverId in ns then 1 else 0)
  {
    if ns != [] {
      var n := |ns| - 1;
      var init := ns[..n];
      assert ns == init + [ns[n]];
      assert NoDup(init);
      assert ns[n] !in init;
      SumsSnoc(txs, tx, init);
      ListsSnoc(txs, tx, ns[n]);
    }
  }

  /** Every transaction adds exactly one forward and one reverse entry, so
      over a duplicate-free list of accounts covering all senders (all
      receivers) the list lengths add up to the number of transactions. */
  lemma {:induction false} SumsAreTransactionCount(txs: seq<Transaction>, ns: seq<Id>)
    requires NoDup(ns)
    requires forall a | a in Accounts(txs) :: a in ns
    ensures SumSent(txs, ns) == |txs|
    ensures SumReceived(txs, ns) == |txs|
  {
    if txs == [] {
      SumsOfNoTransactions(ns);
    } else {
      var n := |txs| - 1;
      assert txs == txs[..n] + [txs[n]];
      AccountsSnoc(txs[..n], txs[n]);
      SumsAreTransactionCount(txs[..n], ns);
      SumsSnoc(txs[..n], txs[n], ns);
    }
  }

  lemma {:induction false} SumCountsOfLists(txs: seq<Transaction>, out: map<Id, nat>, inn: map<Id, nat>, total: map<Id, nat>, ns: seq<Id>)
    requires forall a :: Count(out, a) == |ReceiversOf(txs, a)|
    requires forall a :: Count(inn, a) == |SendersTo(txs, a)|
    requires forall a :: Count(total, a) == Count(out, a) + Count(inn, a)
    ensures SumCounts(out, ns) == SumSent(txs, ns)
    ensures SumCounts(inn, ns) == SumReceived(txs, ns)
    ensures SumCounts(total, ns) == SumSent(txs, ns) + SumReceived(txs, ns)
  {
    if ns != [] {
      SumCountsOfLists(txs, out, inn, total, ns[..|ns| - 1]);
    }
  }

  // ---- The parts of the graph invariant, over values ----

  /** `nodes` holds each account of the transactions once. */
  ghost predicate NodesExact(nodes: seq<Id>, txs: seq<Transaction>)
  {
    && NoDup(nodes)
    && (forall a | a in nodes :: a in Accounts(txs))
    && (forall a | a in Accounts(txs) :: a in nodes)
  }

  /** Forward and reverse lists: one entry per transaction, in input order;
      a list exists exactly for the accounts that send (receive). */
  ghost predicate ListsExact(adj: map<Id, seq<Id>>, rev: map<Id, seq<Id>>, txs: seq<Transaction>)
  {
    && adj.Keys == Senders(txs)
    && rev.Keys == Receivers(txs)
    && (forall a :: ListAt(adj, a) == ReceiversOf(txs, a))
    && (forall a :: ListAt(rev, a) == SendersTo(txs, a))
  }

  /** `outDegree[a]` and `inDegree[a]` are the lengths of `a`'s lists. */
  ghost predicate DegreesExact(out: map<Id, nat>, inn: map<Id, nat>, txs: seq<Transaction>)
  {
    && out.Keys == Senders(txs)
    && inn.Keys == Receivers(txs)
    && (forall a :: Count(out, a) == |ReceiversOf(txs, a)|)
    && (forall a :: Count(inn, a) == |SendersTo(txs, a)|)
  }

  /** `transactionCount[a]` is the number of transactions `a` takes part in,
      a self-transfer counting twice. */
  ghost predicate CountsExact(total: map<Id, nat>, txs: seq<Transaction>)
  {
    && total.Keys == Accounts(txs)
    && (forall a :: Count(total, a) == |ReceiversOf(txs, a)| + |SendersTo(txs, a)|)
  }

  lemma AddKeepsNodesExact(nodes: seq<Id>, txs: seq<Transaction>, tx: Transaction)
    requires NodesExact(nodes, txs)
    ensures NodesExact(SetAdd(SetAdd(nodes, tx.senderId), tx.receiverId), txs + [tx])
  {
    AccountsSnoc(txs, tx);
  }

  lemma AddKeepsListsExact(adj: map<Id, seq<Id>>, rev: map<Id, seq<Id>>, txs: seq<Transaction>, tx: Transaction)
    requires ListsExact(adj, rev, txs)
    ensures ListsExact(adj[tx.senderId := ListAt(adj, tx.senderId) + [tx.receiverId]],
                       rev[tx.receiverId := ListAt(rev, tx.receiverId) + [tx.senderId]],
                       txs + [tx])
  {
    var s, r := tx.senderId, tx.receiverId;
    var adj', rev' := adj[s := ListAt(adj, s) + [r]], rev[r := ListAt(rev, r) + [s]];
    AccountsSnoc(txs, tx);
    assert adj'.Keys == adj.Keys + {s};
    assert rev'.Keys == rev.Keys + {r};
    forall a ensures ListAt(adj', a) == ReceiversOf(txs + [tx], a) {
      PushAt(adj, s, r, a);
      ListsSnoc(txs, tx, a);
    }
    forall a ensures ListAt(rev', a) == SendersTo(txs + [tx], a) {
      PushAt(rev, r, s, a);
      ListsSnoc(txs, tx, a);
    }
  }

  lemma AddKeepsDegreesExact(out: map<Id, nat>, inn: map<Id, nat>, txs: seq<Transaction>, tx: Transaction)
    requires DegreesExact(out, inn, txs)
    ensures DegreesExact(Bump(out, tx.senderId), Bump(inn, tx.receiverId), txs + [tx])
  {
    AccountsSnoc(txs, tx);
    assert Bump(out, tx.senderId).Keys == out.Keys + {tx.senderId};
    assert Bump(inn, tx.receiverId).Keys == inn.Keys + {tx.receiverId};
    forall a ensures Count(Bump(out, tx.senderId), a) == |ReceiversOf(txs + [tx], a)| {
      BumpAt(out, tx.senderId, a);
      ListsSnoc(txs, tx, a);
    }
    forall a ensures Count(Bump(inn, tx.receiverId), a) == |SendersTo(txs + [tx], a)| {
      BumpAt(inn, tx.receiverId, a);
      ListsSnoc(txs, tx, a);
    }
  }

  lemma AddKeepsCountsExact(total: map<Id, nat>, txs: seq<Transaction>, tx: Transaction)
    requires CountsExact(total, txs)
    ensures CountsExact(Bump(Bump(total, tx.senderId), tx.receiverId), txs + [tx])
  {
    var mid := Bump(total, tx.senderId);
    var total' := Bump(mid, tx.receiverId);
    AccountsSnoc(txs, tx);
    assert mid.Keys == total.Keys + {tx.senderId};
    assert total'.Keys == mid.Keys + {tx.receiverId};
    forall a ensures Count(total', a) == |ReceiversOf(txs + [tx], a)| + |SendersTo(txs + [tx], a)| {
      CountAfterAdd(total, tx, a);
      ListsSnoc(txs, tx, a);
    }
  }

  /** `m[k] = (m[k] || 0) + 1` raises `k`'s counter by one and no other. */
  lemma BumpAt(m: map<Id, nat>, k: Id, a: Id)
    ensures Count(Bump(m, k), a) == Count(m, a) + (if a == k then 1 else 0)
  {
  }

  /** A self-transfer adds 2 to its account's transaction count; any other
      transaction adds 1 to each of its two accounts. */
  lemma CountAfterAdd(before: map<Id, nat>, tx: Transaction, a: Id)
    ensures Count(Bump(Bump(before, tx.senderId), tx.receiverId), a)
            == Count(before, a) + (if a == tx.senderId then 1 else 0) + (if a == tx.receiverId then 1 else 0)
  {
    BumpAt(before, tx.senderId, a);
    BumpAt(Bump(before, tx.senderId), tx.receiverId, a);
  }

  /** graphBuilder.js's Graph. `nodes` is the insertion-ordered content of
      the JavaScript Set; the maps are the `Map`s and plain objects. */
  class Graph {
    var nodes: seq<Id>
    var adjList: map<Id, seq<Id>>
    var reverseAdjList: map<Id, seq<Id>>
    var inDegree: map<Id, nat>
    var outDegree: map<Id, nat>
    var transactionCount: map<Id, nat>
    var transactions: seq<Transaction>

    /** Every field is determined by the transaction list (only the order of
        `nodes` records history beyond it). */
    ghost predicate Valid()
      reads this
    {
      && NodesExact(nodes, transactions)
      && ListsExact(adjList, reverseAdjList, transactions)
      && DegreesExact(outDegree, inDegree, transactions)
      && CountsExact(transactionCount, transactions)
    }

    constructor ()
      ensures Valid()
      ensures nodes == [] && transactions == []
      ensures adjList == map[] && reverseAdjList == map[]
      ensures inDegree == map[] && outDegree == map[] && transactionCount == map[]
    {
      nodes := [];
      adjList := map[];
      reverseAdjList := map[];
      inDegree := map[];
      outDegree := map[];
      transactionCount := map[];
      transactions := [];
    }

    /** `addTransaction(tx)`. */
    method AddTransaction(tx: Transaction)
      requires Valid()
      modifies this
      ensures Valid()
      ensures nodes == SetAdd(SetAdd(old(nodes), tx.senderId), tx.receiverId)
      ensures adjList == old(adjList)[tx.senderId := ListAt(old(adjList), tx.senderId) + [tx.receiverId]]
      ensures reverseAdjList
              == old(reverseAdjList)[tx.receiverId := ListAt(old(reverseAdjList), tx.receiverId) + [tx.senderId]]
      ensures outDegree == Bump(old(outDegree), tx.senderId)
      ensures inDegree == Bump(old(inDegree), tx.receiverId)
      ensures transactionCount == Bump(Bump(old(transactionCount), tx.senderId), tx.receiverId)
      ensures transactions == old(transactions) + [tx]
    {
      var s, r := tx.senderId, tx.receiverId;
      ghost var txs := transactions;
      ghost var nodes0, adj0, rev0 := nodes, adjList, reverseAdjList;
      ghost var out0, in0, count0 := outDegree, inDegree, transactionCount;

      nodes := SetAdd(nodes, s);
      nodes := SetAdd(nodes, r);

      // the list is created empty when absent, then the edge is pushed
      adjList := adjList[s := ListAt(adjList, s) + [r]];
      reverseAdjList := reverseAdjList[r := ListAt(reverseAdjList, r) + [s]];

      outDegree := Bump(outDegree, s);
      inDegree := Bump(inDegree, r);

      transactionCount := Bump(transactionCount, s);
      transactionCount := Bump(transactionCount, r);

      transactions := transactions + [tx];

      assert NodesExact(nodes, transactions) by {
        AddKeepsNodesExact(nodes0, txs, tx);
      }
      assert ListsExact(adjList, reverseAdjList, transactions) by {
        AddKeepsListsExact(adj0, rev0, txs, tx);
      }
      assert DegreesExact(outDegree, inDegree, transactions) by {
        AddKeepsDegreesExact(out0, in0, txs, tx);
      }
      assert CountsExact(transactionCount, transactions) by {
        AddKeepsCountsExact(count0, txs, tx);
      }
    }

    /** Every account named in an adjacency list, as key or entry, is a node. */
    lemma ListsWithinNodes()
      requires Valid()
      ensures forall a | a in adjList :: a in nodes && forall b | b in adjList[a] :: b in nodes
      ensures forall a | a in reverseAdjList :: a in nodes && forall b | b in reverseAdjList[a] :: b in nodes
    {
      forall a, b | a in adjList && b in adjList[a] ensures b in nodes {
        ReceiversOfSound(transactions, a, b);
      }
      forall a, b | a in reverseAdjList && b in reverseAdjList[a] ensures b in nodes {
        SendersToSound(transactions, a, b);
      }
    }

    /** Out-degrees and in-degrees each add up to the number of
        transactions, and transaction counts to twice that. */
    lemma DegreeSums()
      requires Valid()
      ensures SumCounts(outDegree, nodes) == |transactions|
      ensures SumCounts(inDegree, nodes) == |transactions|
      ensures SumCounts(transactionCount, nodes) == 2 * |transactions|
    {
      forall a ensures Count(outDegree, a) == |ReceiversOf(transactions, a)|
                    && Count(inDegree, a) == |SendersTo(transactions, a)|
                    && Count(transactionCount, a) == Count(outDegree, a) + Count(inDegree, a)
      {
        AbsentAccountLists(transactions, a);
      }
      SumCountsOfLists(transactions, outDegree, inDegree, transactionCount, nodes);
      SumsAreTransactionCount(transactions, nodes);
    }
  }
}
