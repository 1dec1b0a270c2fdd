/** The smurfing detector of smurfDetection.js. The transactions are
    sorted by time and grouped per hub: per receiver for fan-in, per
    sender for fan-out. For each hub a 72-hour window is slid over its
    list, and the first window with at least 10 distinct counterparties
    becomes that hub's one ring. The two directions run the same code on
    different fields, so both are one operation over `Direction`. */
module SmurfDetection {
  import opened Common
  import opened TransactionGraph

  datatype Direction = FanIn | FanOut

  /** A ring as the detector returns it. */
  datatype SmurfRing = SmurfRing(patternType: string, memberAccounts: seq<Id>)

  /** The window length: 72 hours in milliseconds. */
  const WindowMs: int := 72 * 60 * 60 * 1000

  /** A window needs this many distinct counterparties. */
  const MinCounterparties: nat := 10

  /** The account that receiverMap (fan-in) or senderMap (fan-out) groups by. */
  function Hub(d: Direction, t: Transaction): Id
  {
    match d
    case FanIn => t.receiverId
    case FanOut => t.senderId
  }

  /** The account that each transaction of a hub's list adds to the window set. */
  function Counterparty(d: Direction, t: Transaction): Id
  {
    match d
    case FanIn => t.senderId
    case FanOut => t.receiverId
  }

  function Label(d: Direction): string
  {
    match d
    case FanIn => "fan_in"
    case FanOut => "fan_out"
  }

  // ---- Sorting by time ----

  function Time(t: Transaction): real
  {
    t.timestamp as real
  }

  /** `[...graph.transactions].sort((a, b) => a.timestamp - b.timestamp)`. */
  function SortByTime(txs: seq<Transaction>): (r: seq<Transaction>)
    ensures |r| == |txs|
  {
    SortBy(txs, Time)
  }

  /** The working copy is in non-decreasing time order, a permutation of the
      input, and keeps the input order of equal timestamps. */
  lemma SortByTimeCorrect(txs: seq<Transaction>, t: real)
    ensures forall i, j | 0 <= i < j < |SortByTime(txs)| :: SortByTime(txs)[i].timestamp <= SortByTime(txs)[j].timestamp
    ensures multiset(SortByTime(txs)) == multiset(txs)
    ensures WithKey(SortByTime(txs), Time, t) == WithKey(txs, Time, t)
  {
    SortBySortsAndPermutes(txs, Time);
    SortByStable(txs, Time, t);
  }

  ghost predicate TimeSorted(s: seq<Transaction>)
  {
    forall i, j | 0 <= i < j < |s| :: s[i].timestamp <= s[j].timestamp
  }

  // ---- Grouping ----

  /** The hub's list: its transactions, in the order of `txs`. */
  function Group(d: Direction, txs: seq<Transaction>, h: Id): seq<Transaction>
  {
    if txs == [] then []
    else
      var t := txs[|txs| - 1];
      Group(d, txs[..|txs| - 1], h) + (if Hub(d, t) == h then [t] else [])
  }

  /** The hubs in the order their first transaction appears: the key order
      of receiverMap (senderMap). */
  function HubOrder(d: Direction, txs: seq<Transaction>): seq<Id>
  {
    if txs == [] then [] else SetAdd(HubOrder(d, txs[..|txs| - 1]), Hub(d, txs[|txs| - 1]))
  }

  /** A hub's list holds exactly its transactions, and is time-sorted when
      the input is. */
  lemma {:induction false} GroupCorrect(d: Direction, txs: seq<Transaction>, h: Id)
    ensures forall t | t in Group(d, txs, h) :: t in txs && Hub(d, t) == h
    ensures forall t | t in txs && Hub(d, t) == h :: t in Group(d, txs, h)
    ensures TimeSorted(txs) ==> TimeSorted(Group(d, txs, h))
  {
    if txs != [] {
      var n := |txs| - 1;
      var init, t := txs[..n], txs[n];
      GroupCorrect(d, init, h);
      assert txs == init + [t];
      var g := Group(d, init, h);
      if TimeSorted(txs) && Hub(d, t) == h {
        assert TimeSorted(init);
        forall u | u in g ensures u.timestamp <= t.timestamp {
          var k :| 0 <= k < n && init[k] == u;
          assert txs[k] == u;
        }
        var r := g + [t];
        forall i, j | 0 <= i < j < |r| ensures r[i].timestamp <= r[j].timestamp {
          assert r[i] == g[i] && g[i] in g;
          if j < |g| {
            assert r[j] == g[j];
          }
        }
      } else if TimeSorted(txs) {
        assert TimeSorted(init);
      }
    }
  }

  /** Every hub of `HubOrder` has a transaction, and conversely. */
  lemma {:induction false} HubOrderCorrect(d: Direction, txs: seq<Transaction>)
    ensures NoDup(HubOrder(d, txs))
    ensures forall h | h in HubOrder(d, txs) :: exists t | t in txs :: Hub(d, t) == h
    ensures forall t | t in txs :: Hub(d, t) in HubOrder(d, txs)
  {
    if txs != [] {
      var n := |txs| - 1;
      HubOrderCorrect(d, txs[..n]);
      assert txs == txs[..n] + [txs[n]];
      forall h | h in HubOrder(d, txs) ensures exists t | t in txs :: Hub(d, t) == h {
        if h != Hub(d, txs[n]) {
          var t :| t in txs[..n] && Hub(d, t) == h;
          assert t in txs;
        }
      }
    }
  }

  /** The state of the grouping loop after `txs`: the hubs in first-seen
      order, each mapped to its list. */
  ghost predicate Grouped(d: Direction, txs: seq<Transaction>, hubMap: map<Id, seq<Transaction>>, hubOrder: seq<Id>)
  {
    && hubOrder == HubOrder(d, txs)
    && (forall h :: h in hubMap <==> h in hubOrder)
    && (forall h :: ListAt(hubMap, h) == Group(d, txs, h))
  }

  lemma GroupSnoc(d: Direction, txs: seq<Transaction>, t: Transaction, h: Id)
    ensures Group(d, txs + [t], h) == Group(d, txs, h) + (if Hub(d, t) == h then [t] else [])
  {
    assert (txs + [t])[..|txs|] == txs;
  }

  /** One pass of the grouping loop keeps `Grouped`. */
  lemma GroupedSnoc(d: Direction, txs: seq<Transaction>, hubMap: map<Id, seq<Transaction>>, hubOrder: seq<Id>, t: Transaction)
    requires Grouped(d, txs, hubMap, hubOrder)
    ensures Grouped(d, txs + [t], hubMap[Hub(d, t) := ListAt(hubMap, Hub(d, t)) + [t]], SetAdd(hubOrder, Hub(d, t)))
  {
    var h := Hub(d, t);
    var m := hubMap[h := ListAt(hubMap, h) + [t]];
    assert (txs + [t])[..|txs|] == txs;
    forall a ensures ListAt(m, a) == Group(d, txs + [t], a) {
      PushAt(hubMap, h, t, a);
      GroupSnoc(d, txs, t, a);
    }
  }

  // ---- The sliding window ----

  /** `(txList[j].timestamp - txList[i].timestamp) / (1000 * 60 * 60)`. */
  function TimeDiffHours(first: Transaction, later: Transaction): real
  {
    (later.timestamp - first.timestamp) as real / (1000.0 * 60.0 * 60.0)
  }

  /** `timeDiff > 72` on whole milliseconds is `later - first > 72 h`. */
  lemma TimeDiffExceeds(first: Transaction, later: Transaction)
    ensures TimeDiffHours(first, later) > 72.0 <==> later.timestamp - first.timestamp > WindowMs
  {
  }

  /** Where the scan from `i` stops, having reached `j`: at the first
      transaction more than 72 hours after `txList[i]`, or at the end. */
  function WindowEndFrom(txList: seq<Transaction>, i: nat, j: nat): (e: nat)
    requires i < |txList| && j <= |txList|
    ensures j <= e <= |txList|
    decreases |txList| - j
  {
    if j == |txList| || TimeDiffHours(txList[i], txList[j]) > 72.0 then j
    else WindowEndFrom(txList, i, j + 1)
  }

  function WindowEnd(txList: seq<Transaction>, i: nat): nat
    requires i < |txList|
  {
    WindowEndFrom(txList, i, i)
  }

  lemma {:induction false} WindowEndFromBounds(txList: seq<Transaction>, i: nat, j: nat)
    requires i < |txList| && j <= |txList|
    ensures forall k | j <= k < WindowEndFrom(txList, i, j) :: txList[k].timestamp - txList[i].timestamp <= WindowMs
    ensures WindowEndFrom(txList, i, j) == |txList|
            || txList[WindowEndFrom(txList, i, j)].timestamp - txList[i].timestamp > WindowMs
    decreases |txList| - j
  {
    if j < |txList| {
      TimeDiffExceeds(txList[i], txList[j]);
      if TimeDiffHours(txList[i], txList[j]) <= 72.0 {
        WindowEndFromBounds(txList, i, j + 1);
      }
    }
  }

  /** The window from `i` is the longest run `txList[i..e]` within 72 hours
      of `txList[i]`: it holds `txList[i]` itself, and on a time-sorted list
      every later transaction is outside it. */
  lemma WindowIsLongestRun(txList: seq<Transaction>, i: nat)
    requires i < |txList|
    ensures i < WindowEnd(txList, i)
    ensures forall k | i <= k < WindowEnd(txList, i) :: txList[k].timestamp - txList[i].timestamp <= WindowMs
    ensures TimeSorted(txList) ==>
              forall k | WindowEnd(txList, i) <= k < |txList| :: txList[k].timestamp - txList[i].timestamp > WindowMs
  {
    WindowEndFromBounds(txList, i, i);
    TimeDiffExceeds(txList[i], txList[i]);
    var e := WindowEnd(txList, i);
    if TimeSorted(txList) {
      forall k | e <= k < |txList| ensures txList[k].timestamp - txList[i].timestamp > WindowMs {
        if k > e {
          assert txList[e].timestamp <= txList[k].timestamp;
        }
      }
    }
  }

  /** The Set filled by scanning `txList[i..j]`: the counterparties in
      first-seen order. */
  function ScannedSet(d: Direction, txList: seq<Transaction>, i: nat, j: nat): (r: seq<Id>)
    requires i <= j <= |txList|
    ensures |r| <= j - i
    decreases j
  {
    if j == i then [] else SetAdd(ScannedSet(d, txList, i, j - 1), Counterparty(d, txList[j - 1]))
  }

  lemma {:induction false} ScannedSetMembers(d: Direction, txList: seq<Transaction>, i: nat, j: nat)
    requires i <= j <= |txList|
    ensures NoDup(ScannedSet(d, txList, i, j))
    ensures forall x | x in ScannedSet(d, txList, i, j) :: exists k | i <= k < j :: Counterparty(d, txList[k]) == x
    ensures forall k | i <= k < j :: Counterparty(d, txList[k]) in ScannedSet(d, txList, i, j)
    decreases j
  {
    if j > i {
      ScannedSetMembers(d, txList, i, j - 1);
      SetAddMembers(ScannedSet(d, txList, i, j - 1), Counterparty(d, txList[j - 1]));
    }
  }

  /** The transactions of the window that starts at `i`. */
  function Window(txList: seq<Transaction>, i: nat): seq<Transaction>
    requires i < |txList|
  {
    txList[i..WindowEnd(txList, i)]
  }

  /** `windowSenders` (`windowReceivers`) after the scan from `i`. */
  function WindowSet(d: Direction, txList: seq<Transaction>, i: nat): seq<Id>
    requires i < |txList|
  {
    ScannedSet(d, txList, i, WindowEnd(txList, i))
  }

  /** The window set holds each counterparty of the window once, and
      nothing else. */
  lemma WindowSetMembers(d: Direction, txList: seq<Transaction>, i: nat)
    requires i < |txList|
    ensures NoDup(WindowSet(d, txList, i))
    ensures forall x | x in WindowSet(d, txList, i) :: exists t | t in Window(txList, i) :: Counterparty(d, t) == x
    ensures forall t | t in Window(txList, i) :: Counterparty(d, t) in WindowSet(d, txList, i)
  {
    var e := WindowEnd(txList, i);
    var w := Window(txList, i);
    ScannedSetMembers(d, txList, i, e);
    forall x | x in WindowSet(d, txList, i) ensures exists t | t in w :: Counterparty(d, t) == x {
      var k :| i <= k < e && Counterparty(d, txList[k]) == x;
      assert w[k - i] == txList[k];
    }
    forall t | t in w ensures Counterparty(d, t) in WindowSet(d, txList, i) {
      var k :| 0 <= k < |w| && w[k] == t;
      assert txList[i + k] == t;
    }
  }

  predicate Qualifies(d: Direction, txList: seq<Transaction>, i: nat)
    requires i < |txList|
  {
    |WindowSet(d, txList, i)| >= MinCounterparties
  }

  /** The first start index from `i` on whose window qualifies. */
  function FirstQualifying(d: Direction, txList: seq<Transaction>, i: nat): (r: Option<nat>)
    ensures r.Some? ==> i <= r.value < |txList|
    decreases |txList| - i
  {
    if i >= |txList| then None
    else if Qualifies(d, txList, i) then Some(i)
    else FirstQualifying(d, txList, i + 1)
  }

  /** The ring a hub emits, if any. */
  function HubRing(d: Direction, hub: Id, txList: seq<Transaction>): Option<SmurfRing>
  {
    match FirstQualifying(d, txList, 0)
    case None => None
    case Some(i) => Some(SmurfRing(Label(d), [hub] + WindowSet(d, txList, i)))
  }

  /** A found start qualifies, and no earlier one from `i` does. */
  lemma {:induction false} FirstQualifyingIsLeast(d: Direction, txList: seq<Transaction>, i: nat, f: nat)
    requires FirstQualifying(d, txList, i) == Some(f)
    ensures f < |txList| && Qualifies(d, txList, f)
    ensures forall k | i <= k < f :: !Qualifies(d, txList, k)
    decreases |txList| - i
  {
    if !Qualifies(d, txList, i) {
      FirstQualifyingIsLeast(d, txList, i + 1, f);
    }
  }

  /** Nothing is found exactly when no start from `i` on qualifies. */
  lemma {:induction false} FirstQualifyingNone(d: Direction, txList: seq<Transaction>, i: nat)
    ensures FirstQualifying(d, txList, i).None? <==> forall k | i <= k < |txList| :: !Qualifies(d, txList, k)
    decreases |txList| - i
  {
    if i < |txList| && !Qualifies(d, txList, i) {
      FirstQualifyingNone(d, txList, i + 1);
    }
  }

  /** A hub emits nothing exactly when none of its windows has 10 distinct
      counterparties. */
  lemma HubRingNone(d: Direction, hub: Id, txList: seq<Transaction>)
    ensures HubRing(d, hub, txList).None? <==> forall i | 0 <= i < |txList| :: !Qualifies(d, txList, i)
  {
    FirstQualifyingNone(d, txList, 0);
  }

  /** Otherwise its ring is `[hub, ...window set]` for the lowest start
      `i` whose window qualifies. */
  lemma HubRingSome(d: Direction, hub: Id, txList: seq<Transaction>) returns (i: nat)
    requires HubRing(d, hub, txList).Some?
    ensures i < |txList| && Qualifies(d, txList, i)
    ensures forall k | 0 <= k < i :: !Qualifies(d, txList, k)
    ensures HubRing(d, hub, txList) == Some(SmurfRing(Label(d), [hub] + WindowSet(d, txList, i)))
  {
    i := FirstQualifying(d, txList, 0).value;
    FirstQualifyingIsLeast(d, txList, 0, i);
  }

  // ---- All hubs ----

  /** The account a ring is led by: the hub. */
  function Leader(r: SmurfRing): Id
  {
    if r.memberAccounts == [] then "" else r.memberAccounts[0]
  }

  /** The rings of the hubs `hubs`, in that order. */
  function RingsOf(d: Direction, hubs: seq<Id>, txs: seq<Transaction>): seq<SmurfRing>
  {
    if hubs == [] then []
    else
      var h := hubs[|hubs| - 1];
      RingsOf(d, hubs[..|hubs| - 1], txs) + RingList(HubRing(d, h, Group(d, txs, h)))
  }

  function RingList(ring: Option<SmurfRing>): seq<SmurfRing>
  {
    match ring
    case None => []
    case Some(r) => [r]
  }

  lemma RingsOfSnoc(d: Direction, hubs: seq<Id>, h: Id, txs: seq<Transaction>)
    ensures RingsOf(d, hubs + [h], txs)
            == RingsOf(d, hubs, txs) + RingList(HubRing(d, h, Group(d, txs, h)))
  {
    assert (hubs + [h])[..|hubs|] == hubs;
  }

  /** What one direction of `findSmurfPatterns` returns for the sorted list `txs`. */
  function SmurfRings(d: Direction, txs: seq<Transaction>): seq<SmurfRing>
  {
    RingsOf(d, HubOrder(d, txs), txs)
  }

  /** Every ring is its hub's ring; no hub has two rings. */
  lemma {:induction false} RingsOfCorrect(d: Direction, hubs: seq<Id>, txs: seq<Transaction>)
    requires NoDup(hubs)
    ensures |RingsOf(d, hubs, txs)| <= |hubs|
    ensures forall r | r in RingsOf(d, hubs, txs) ::
              Leader(r) in hubs && HubRing(d, Leader(r), Group(d, txs, Leader(r))) == Some(r)
    ensures forall a, b | 0 <= a < b < |RingsOf(d, hubs, txs)| ::
              Leader(RingsOf(d, hubs, txs)[a]) != Leader(RingsOf(d, hubs, txs)[b])
  {
    if hubs != [] {
      var n := |hubs| - 1;
      var init, h := hubs[..n], hubs[n];
      assert hubs == init + [h];
      assert h !in init;
      RingsOfCorrect(d, init, txs);
      var prev := RingsOf(d, init, txs);
      var hr := HubRing(d, h, Group(d, txs, h));
      if hr.Some? {
        var r := hr.value;
        var all := prev + [r];
        assert RingsOf(d, hubs, txs) == all;
        assert Leader(r) == h;
        forall a, b | 0 <= a < b < |all| ensures Leader(all[a]) != Leader(all[b]) {
          assert all[a] == prev[a] && prev[a] in prev;
        }
      }
    }
  }

  /** A hub of `hubs` whose ring exists contributes it. */
  lemma {:induction false} RingsOfHas(d: Direction, hubs: seq<Id>, txs: seq<Transaction>, h: Id)
    requires h in hubs && HubRing(d, h, Group(d, txs, h)).Some?
    ensures HubRing(d, h, Group(d, txs, h)).value in RingsOf(d, hubs, txs)
  {
    var n := |hubs| - 1;
    assert hubs == hubs[..n] + [hubs[n]];
    RingsOfSnoc(d, hubs[..n], hubs[n], txs);
    if h != hubs[n] {
      RingsOfHas(d, hubs[..n], txs, h);
    }
  }

  /** The rings of one direction are exactly the rings of its hubs: each ring
      is its leader's ring, no two rings share a leader, and any account
      that has a ring contributes it. */
  lemma SmurfRingsCorrect(d: Direction, txs: seq<Transaction>)
    ensures forall r | r in SmurfRings(d, txs) :: HubRing(d, Leader(r), Group(d, txs, Leader(r))) == Some(r)
    ensures forall a, b | 0 <= a < b < |SmurfRings(d, txs)| ::
              Leader(SmurfRings(d, txs)[a]) != Leader(SmurfRings(d, txs)[b])
  {
    HubOrderCorrect(d, txs);
    RingsOfCorrect(d, HubOrder(d, txs), txs);
  }

  lemma SmurfRingsComplete(d: Direction, txs: seq<Transaction>, h: Id)
    requires HubRing(d, h, Group(d, txs, h)).Some?
    ensures HubRing(d, h, Group(d, txs, h)).value in SmurfRings(d, txs)
  {
    var g := Group(d, txs, h);
    GroupCorrect(d, txs, h);
    assert g[0] in g;
    HubOrderCorrect(d, txs);
    RingsOfHas(d, HubOrder(d, txs), txs, h);
  }

  // ---- The detector as it runs ----

  /** `receiverMap` (`senderMap`): the grouping loop. */
  method GroupByHub(d: Direction, transactions: seq<Transaction>) returns (hubMap: map<Id, seq<Transaction>>, hubOrder: seq<Id>)
    ensures hubOrder == HubOrder(d, transactions)
    ensures forall h | h in hubOrder :: h in hubMap && hubMap[h] == Group(d, transactions, h)
  {
    hubMap := map[];
    hubOrder := [];
    for k := 0 to |transactions|
      invariant Grouped(d, transactions[..k], hubMap, hubOrder)
    {
      var tx := transactions[k];
      var h := Hub(d, tx);
      ghost var map0, order0 := hubMap, hubOrder;
      if h !in hubMap {
        hubMap := hubMap[h := []];
        hubOrder := hubOrder + [h];
      }
      hubMap := hubMap[h := hubMap[h] + [tx]];
      assert hubMap == map0[h := ListAt(map0, h) + [tx]];
      assert hubOrder == SetAdd(order0, h);
      assert transactions[..k + 1] == transactions[..k] + [tx];
      GroupedSnoc(d, transactions[..k], map0, order0, tx);
    }
    assert transactions[..|transactions|] == transactions;
  }

  /** The `j` loop: the window set of the start `i`. */
  method ScanWindow(d: Direction, txList: seq<Transaction>, i: nat) returns (windowSet: seq<Id>)
    requires i < |txList|
    ensures windowSet == WindowSet(d, txList, i)
  {
    windowSet := [];
    var j := i;
    while j < |txList|
      invariant i <= j <= |txList|
      invariant WindowEndFrom(txList, i, j) == WindowEnd(txList, i)
      invariant windowSet == ScannedSet(d, txList, i, j)
    {
      var timeDiff := TimeDiffHours(txList[i], txList[j]);
      if timeDiff > 72.0 {
        break;
      }
      windowSet := SetAdd(windowSet, Counterparty(d, txList[j]));
      j := j + 1;
    }
  }

  /** The `i` loop over one hub's list: the first qualifying window gives
      the ring and ends the scan. */
  method ScanHub(d: Direction, hub: Id, txList: seq<Transaction>) returns (ring: Option<SmurfRing>)
    ensures ring == HubRing(d, hub, txList)
  {
    var i := 0;
    while i < |txList|
      invariant 0 <= i <= |txList|
      invariant FirstQualifying(d, txList, 0) == FirstQualifying(d, txList, i)
    {
      var windowSet := ScanWindow(d, txList, i);
      if |windowSet| >= MinCounterparties {
        return Some(SmurfRing(Label(d), [hub] + windowSet));
      }
      i := i + 1;
    }
    return None;
  }

  /** The `for (let receiver in receiverMap)` loop: each hub's scan, in key order. */
  method ScanAllHubs(d: Direction, hubOrder: seq<Id>, hubMap: map<Id, seq<Transaction>>, ghost txs: seq<Transaction>)
    returns (rings: seq<SmurfRing>)
    requires forall h | h in hubOrder :: h in hubMap && hubMap[h] == Group(d, txs, h)
    ensures rings == RingsOf(d, hubOrder, txs)
  {
    rings := [];
    for m := 0 to |hubOrder|
      invariant rings == RingsOf(d, hubOrder[..m], txs)
    {
      var hub := hubOrder[m];
      assert hubOrder[..m + 1] == hubOrder[..m] + [hub];
      RingsOfSnoc(d, hubOrder[..m], hub, txs);
      var ring := ScanHub(d, hub, hubMap[hub]);
      if ring.Some? {
        rings := rings + [ring.value];
      }
    }
    assert hubOrder[..|hubOrder|] == hubOrder;
  }

  /** One direction of `findSmurfPatterns` on the sorted list. */
  method ScanHubs(d: Direction, transactions: seq<Transaction>) returns (rings: seq<SmurfRing>)
    ensures rings == SmurfRings(d, transactions)
  {
    var hubMap, hubOrder := GroupByHub(d, transactions);
    rings := ScanAllHubs(d, hubOrder, hubMap, transactions);
  }

  /** `findSmurfPatterns(graph)` on the graph's transaction list. */
  method FindSmurfPatterns(transactions: seq<Transaction>) returns (fanInRings: seq<SmurfRing>, fanOutRings: seq<SmurfRing>)
    ensures fanInRings == SmurfRings(FanIn, SortByTime(transactions))
    ensures fanOutRings == SmurfRings(FanOut, SortByTime(transactions))
  {
    var sorted := SortByTime(transactions);
    fanInRings := ScanHubs(FanIn, sorted);
    fanOutRings := ScanHubs(FanOut, sorted);
  }
}
