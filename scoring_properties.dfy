/** What the report of the scoring pass means, stated against reference
    definitions over the processed rings: each account's raw score is the
    sum of its rings' contributions, its ring id is the first ring it joined,
    the flagged accounts are exactly the ring members, once each, by
    non-increasing score, and each ring's risk is the average of its
    members' scores. */
module ScoringProperties {
  import opened Common
  import opened Strings
  import opened Scoring
  import SmurfDetection
  import ShellDetection

  // ---- Reference definitions ----

  /** A ring's contribution, once for each occurrence of `a` among its
      members. */
  ghost function Share(members: seq<Id>, a: Id, raw: real): real
  {
    if members == [] then 0.0
    else Share(members[..|members| - 1], a, raw) + (if members[|members| - 1] == a then raw else 0.0)
  }

  /** The contributions of all the rings `a` belongs to. */
  ghost function RawTotal(ps: seq<Processed>, a: Id): real
  {
    if ps == [] then 0.0
    else RawTotal(ps[..|ps| - 1], a) + Share(ps[|ps| - 1].members, a, ps[|ps| - 1].raw)
  }

  /** The ids of the rings `a` belongs to, in ring order. */
  ghost function JoinedIds(ps: seq<Processed>, a: Id): seq<string>
  {
    if ps == [] then []
    else JoinedIds(ps[..|ps| - 1], a) + (if a in ps[|ps| - 1].members then [RingId(|ps|)] else [])
  }

  ghost predicate InSomeRing(ps: seq<Processed>, a: Id)
  {
    exists k | 0 <= k < |ps| :: a in ps[k].members
  }

  ghost predicate HasPattern(ps: seq<Processed>, a: Id, x: string)
  {
    exists k | 0 <= k < |ps| :: a in ps[k].members && ps[k].tag == x
  }

  ghost predicate DistinctIds(accounts: seq<SuspiciousAccount>)
  {
    forall i, j | 0 <= i < j < |accounts| :: accounts[i].accountId != accounts[j].accountId
  }

  /** The members' suspicion scores added up directly from the map. */
  ghost function ScoreSum(ms: seq<Id>, m: map<Id, AccountEntry>): real
  {
    if ms == [] then 0.0 else ScoreSum(ms[..|ms| - 1], m) + FinalScore(EntryAt(m, ms[|ms| - 1]).rawScore)
  }

  /** The risk of a ring whose members' scores are read from the map. */
  ghost function ReferenceRisk(ms: seq<Id>, m: map<Id, AccountEntry>): Number
  {
    if ms == [] then NaN
    else
      var s := ScoreSum(ms, m) / |ms| as real * (1.0 + (|ms| - 3) as real * 0.1);
      Finite(if s >= 95.0 then 95.0 else s)
  }

  // ---- Ring ids ----

  /** Distinct counters give distinct ids, at any number of digits. */
  lemma RingIdInjective(m: nat, n: nat)
    ensures RingId(m) == RingId(n) <==> m == n
  {
    if RingId(m) == RingId(n) {
      assert RingId(m)[5..] == PadStart(NatToString(m), 3, '0');
      assert RingId(n)[5..] == PadStart(NatToString(n), 3, '0');
      PadStartNatToStringInjective(m, n, 3);
    }
  }

  lemma {:induction false} JoinedIdsBelow(ps: seq<Processed>, a: Id)
    ensures forall n: nat | n > |ps| :: RingId(n) !in JoinedIds(ps, a)
  {
    if ps != [] {
      JoinedIdsBelow(ps[..|ps| - 1], a);
      forall n: nat | n > |ps|
        ensures RingId(n) !in JoinedIds(ps, a)
      {
        RingIdInjective(n, |ps|);
      }
    }
  }

  lemma {:induction false} JoinedIdsNone(ps: seq<Processed>, a: Id)
    requires forall k | 0 <= k < |ps| :: a !in ps[k].members
    ensures JoinedIds(ps, a) == []
  {
    if ps != [] {
      var n := |ps| - 1;
      assert forall k | 0 <= k < n :: ps[..n][k] == ps[k];
      JoinedIdsNone(ps[..n], a);
    }
  }

  /** The first id recorded for `a` is that of the first ring holding it. */
  lemma {:induction false} JoinedIdsFirst(ps: seq<Processed>, a: Id, k: nat)
    requires k < |ps| && a in ps[k].members
    requires forall j | 0 <= j < k :: a !in ps[j].members
    ensures JoinedIds(ps, a) != [] && JoinedIds(ps, a)[0] == RingId(k + 1)
  {
    var n := |ps| - 1;
    assert forall j | 0 <= j < n :: ps[..n][j] == ps[j];
    if k == n {
      JoinedIdsNone(ps[..n], a);
    } else {
      JoinedIdsFirst(ps[..n], a, k);
    }
  }

  lemma {:induction false} FlattenMembers(ps: seq<Processed>, a: Id)
    ensures a in Flatten(ps) <==> InSomeRing(ps, a)
  {
    if ps != [] {
      var n := |ps| - 1;
      FlattenMembers(ps[..n], a);
      if InSomeRing(ps[..n], a) {
        var k :| 0 <= k < n && a in ps[..n][k].members;
        assert ps[k] == ps[..n][k];
      }
      if InSomeRing(ps, a) {
        var k :| 0 <= k < |ps| && a in ps[k].members;
        if k < n {
          assert ps[..n][k] == ps[k];
        }
      }
    }
  }

  // ---- The account map ----

  lemma {:induction false} SharePositive(members: seq<Id>, a: Id, raw: real)
    requires raw > 0.0
    ensures Share(members, a, raw) >= 0.0
    ensures Share(members, a, raw) > 0.0 <==> a in members
  {
    if members != [] {
      var n := |members| - 1;
      SharePositive(members[..n], a, raw);
      assert members == members[..n] + [members[n]];
    }
  }

  /** One ring's `addScore` calls change only its members' entries: the
      contribution once per occurrence, the label and the id once. */
  lemma {:induction false} AddScoresEntry(m: map<Id, AccountEntry>, members: seq<Id>, raw: real, tag: string,
                                          id: string, a: Id)
    ensures EntryAt(AddScores(m, members, raw, tag, id), a).rawScore == EntryAt(m, a).rawScore + Share(members, a, raw)
    ensures EntryAt(AddScores(m, members, raw, tag, id), a).detectedPatterns
         == if a in members then SetAdd(EntryAt(m, a).detectedPatterns, tag) else EntryAt(m, a).detectedPatterns
    ensures EntryAt(AddScores(m, members, raw, tag, id), a).ringIds
         == if a in members then SetAdd(EntryAt(m, a).ringIds, id) else EntryAt(m, a).ringIds
  {
    if members != [] {
      var n := |members| - 1;
      var init := members[..n];
      var x := members[n];
      AddScoresEntry(m, init, raw, tag, id, a);
      assert members == init + [x];
      assert a in members <==> a in init || a == x;
      var e := EntryAt(m, a);
      var before := EntryAt(AddScores(m, init, raw, tag, id), a);
      var after := EntryAt(AddScores(m, members, raw, tag, id), a);
      if x == a {
        assert after == AccountEntry(before.rawScore + raw, SetAdd(before.detectedPatterns, tag),
                                     SetAdd(before.ringIds, id));
        if a in init {
          assert tag in SetAdd(e.detectedPatterns, tag);
          assert id in SetAdd(e.ringIds, id);
        }
      } else {
        assert after == before;
      }
    }
  }

  /** What one more ring does to an account's record. */
  lemma EntrySnoc(ps: seq<Processed>, a: Id)
    requires ps != []
    ensures var e := EntryAt(AccountsAfter(ps[..|ps| - 1]), a);
            var p := ps[|ps| - 1];
            var r := EntryAt(AccountsAfter(ps), a);
            && r.rawScore == e.rawScore + Share(p.members, a, p.raw)
            && r.detectedPatterns == (if a in p.members then SetAdd(e.detectedPatterns, p.tag) else e.detectedPatterns)
            && r.ringIds == (if a in p.members then SetAdd(e.ringIds, RingId(|ps|)) else e.ringIds)
  {
    var p := ps[|ps| - 1];
    AddScoresEntry(AccountsAfter(ps[..|ps| - 1]), p.members, p.raw, p.tag, RingId(|ps|), a);
  }

  lemma {:induction false} HasPatternSnoc(ps: seq<Processed>, a: Id, x: string)
    requires ps != []
    ensures HasPattern(ps, a, x)
        <==> HasPattern(ps[..|ps| - 1], a, x) || (a in ps[|ps| - 1].members && ps[|ps| - 1].tag == x)
  {
    var n := |ps| - 1;
    if HasPattern(ps, a, x) {
      var k :| 0 <= k < |ps| && a in ps[k].members && ps[k].tag == x;
      if k < n {
        assert ps[..n][k] == ps[k];
      }
    }
    if HasPattern(ps[..n], a, x) {
      var k :| 0 <= k < n && a in ps[..n][k].members && ps[..n][k].tag == x;
      assert ps[k] == ps[..n][k];
    }
  }

  /** An account's raw score sums the contributions of its rings. */
  lemma {:induction false} RawScoreIsTotal(ps: seq<Processed>, a: Id)
    ensures EntryAt(AccountsAfter(ps), a).rawScore == RawTotal(ps, a)
  {
    if ps != [] {
      RawScoreIsTotal(ps[..|ps| - 1], a);
      EntrySnoc(ps, a);
    }
  }

  /** An account's ring ids are those of its rings, in ring order. */
  lemma {:induction false} RingIdsAreJoined(ps: seq<Processed>, a: Id)
    ensures EntryAt(AccountsAfter(ps), a).ringIds == JoinedIds(ps, a)
  {
    if ps != [] {
      var init := ps[..|ps| - 1];
      RingIdsAreJoined(init, a);
      EntrySnoc(ps, a);
      JoinedIdsBelow(init, a);
      assert RingId(|ps|) !in JoinedIds(init, a);
    }
  }

  /** An account's patterns are the labels of its rings, each once. */
  lemma {:induction false} PatternsAreLabels(ps: seq<Processed>, a: Id)
    ensures NoDup(EntryAt(AccountsAfter(ps), a).detectedPatterns)
    ensures forall x :: x in EntryAt(AccountsAfter(ps), a).detectedPatterns <==> HasPattern(ps, a, x)
  {
    if ps != [] {
      var init := ps[..|ps| - 1];
      PatternsAreLabels(init, a);
      EntrySnoc(ps, a);
      SetAddMembers(EntryAt(AccountsAfter(init), a).detectedPatterns, ps[|ps| - 1].tag);
      forall x
        ensures x in EntryAt(AccountsAfter(ps), a).detectedPatterns <==> HasPattern(ps, a, x)
      {
        HasPatternSnoc(ps, a, x);
      }
    }
  }

  /** What the report says about one ring member. */
  lemma AccountMeaning(ps: seq<Processed>, a: Id, k: nat)
    requires k < |ps| && a in ps[k].members
    requires forall j | 0 <= j < k :: a !in ps[j].members
    ensures Suspicious(AccountsAfter(ps), a).suspicionScore == FinalScore(RawTotal(ps, a))
    ensures Suspicious(AccountsAfter(ps), a).ringId == RingId(k + 1)
    ensures forall x :: x in Suspicious(AccountsAfter(ps), a).detectedPatterns <==> HasPattern(ps, a, x)
  {
    RawScoreIsTotal(ps, a);
    RingIdsAreJoined(ps, a);
    PatternsAreLabels(ps, a);
    JoinedIdsFirst(ps, a, k);
  }

  // ---- Scores ----

  /** The normalised score never exceeds 95, reaches it exactly from the
      theoretical maximum on, and is not negative for a non-negative raw. */
  lemma FinalScoreBounds(raw: real)
    ensures FinalScore(raw) <= 95.0
    ensures FinalScore(raw) == 95.0 <==> raw >= MaxRaw
    ensures raw >= 0.0 ==> FinalScore(raw) >= 0.0
  {
    MaxRawValue();
  }

  lemma FinalScoreMonotone(r1: real, r2: real)
    requires r1 <= r2
    ensures FinalScore(r1) <= FinalScore(r2)
  {
    MaxRawValue();
  }

  /** The rings the detectors report (cycles of three accounts or more,
      a hub with ten counterparties or more, shell chains of four accounts
      or more) each add a positive contribution. */
  lemma ProcessingRawPositive(cycles: seq<seq<Id>>, fanInRings: seq<SmurfDetection.SmurfRing>,
                              fanOutRings: seq<SmurfDetection.SmurfRing>, shellRings: seq<ShellDetection.ShellRing>)
    requires forall c | c in cycles :: |c| >= 3
    requires forall r | r in fanInRings :: |r.memberAccounts| >= 11
    requires forall r | r in fanOutRings :: |r.memberAccounts| >= 11
    requires forall r | r in shellRings :: |r.memberAccounts| >= 4
    ensures forall p | p in Processing(cycles, fanInRings, fanOutRings, shellRings) :: p.raw > 0.0
  {
  }

  lemma {:induction false} RawTotalNonNegative(ps: seq<Processed>, a: Id)
    requires forall p | p in ps :: p.raw > 0.0
    ensures RawTotal(ps, a) >= 0.0
    ensures RawTotal(ps, a) > 0.0 <==> InSomeRing(ps, a)
  {
    if ps != [] {
      var n := |ps| - 1;
      assert forall p | p in ps[..n] :: p in ps;
      RawTotalNonNegative(ps[..n], a);
      FlattenMembers(ps, a);
      FlattenMembers(ps[..n], a);
      SharePositive(ps[n].members, a, ps[n].raw);
    }
  }

  // ---- The ordering of the rings ----

  /** Cycles take the first ids, then fan-in, fan-out and shell rings. */
  lemma ProcessingAt(cycles: seq<seq<Id>>, fanInRings: seq<SmurfDetection.SmurfRing>,
                     fanOutRings: seq<SmurfDetection.SmurfRing>, shellRings: seq<ShellDetection.ShellRing>, k: nat)
    ensures var ps := Processing(cycles, fanInRings, fanOutRings, shellRings);
            var i := |cycles|;
            var o := |cycles| + |fanInRings|;
            var s := |cycles| + |fanInRings| + |fanOutRings|;
            && |ps| == s + |shellRings|
            && (k < i ==> ps[k] == Processed(cycles[k], CycleContribution(|cycles[k]|),
                                             "cycle_length_" + NatToString(|cycles[k]|), "cycle"))
            && (i <= k < o ==> ps[k] == Processed(fanInRings[k - i].memberAccounts,
                                                  FanContribution(FanInWeight, |fanInRings[k - i].memberAccounts|),
                                                  "fan-in", "fan-in"))
            && (o <= k < s ==> ps[k] == Processed(fanOutRings[k - o].memberAccounts,
                                                  FanContribution(FanOutWeight, |fanOutRings[k - o].memberAccounts|),
                                                  "fan-out", "fan-out"))
            && (s <= k < |ps| ==> ps[k] == Processed(shellRings[k - s].memberAccounts,
                                                    ShellContribution(|shellRings[k - s].memberAccounts|),
                                                    "shell", "shell"))
  {
  }

  // ---- Suspicious accounts ----

  lemma {:induction false} SuspiciousOfAt(m: map<Id, AccountEntry>, order: seq<Id>)
    ensures |SuspiciousOf(m, order)| == |order|
    ensures forall i | 0 <= i < |order| :: SuspiciousOf(m, order)[i] == Suspicious(m, order[i])
  {
    if order != [] {
      var n := |order| - 1;
      SuspiciousOfAt(m, order[..n]);
      assert forall i | 0 <= i < n :: order[..n][i] == order[i];
    }
  }

  /** The accounts before sorting: one per ring member, in first-seen order. */
  lemma UnsortedAccounts(ps: seq<Processed>)
    ensures var list := SuspiciousOf(AccountsAfter(ps), Distinct(Flatten(ps)));
            && NoDup(list)
            && (forall acc | acc in list :: acc == Suspicious(AccountsAfter(ps), acc.accountId) && InSomeRing(ps, acc.accountId))
            && (forall a | InSomeRing(ps, a) :: Suspicious(AccountsAfter(ps), a) in list)
  {
    var m := AccountsAfter(ps);
    var order := Distinct(Flatten(ps));
    var list := SuspiciousOf(m, order);
    SuspiciousOfAt(m, order);
    DistinctMembers(Flatten(ps));
    forall i, j | 0 <= i < j < |list|
      ensures list[i] != list[j]
    {
      assert list[i].accountId == order[i] && list[j].accountId == order[j];
    }
    forall acc | acc in list
      ensures acc == Suspicious(m, acc.accountId) && InSomeRing(ps, acc.accountId)
    {
      var i :| 0 <= i < |list| && list[i] == acc;
      FlattenMembers(ps, order[i]);
    }
    forall a | InSomeRing(ps, a)
      ensures Suspicious(m, a) in list
    {
      FlattenMembers(ps, a);
      var i :| 0 <= i < |order| && order[i] == a;
      assert list[i] == Suspicious(m, a);
    }
  }

  /** The flagged accounts are the ring members, each with its own record. */
  lemma FlaggedMembers(ps: seq<Processed>)
    ensures forall acc | acc in Flagged(ps) :: acc == Suspicious(AccountsAfter(ps), acc.accountId) && InSomeRing(ps, acc.accountId)
    ensures forall a | InSomeRing(ps, a) :: Suspicious(AccountsAfter(ps), a) in Flagged(ps)
  {
    var list := SuspiciousOf(AccountsAfter(ps), Distinct(Flatten(ps)));
    UnsortedAccounts(ps);
    SortBySortsAndPermutes(list, NegScore);
    forall acc | acc in Flagged(ps)
      ensures acc in list
    {
      assert acc in multiset(list);
    }
    forall acc | acc in list
      ensures acc in Flagged(ps)
    {
      assert acc in multiset(Flagged(ps));
    }
  }

  /** Each account appears once. */
  lemma FlaggedDistinct(ps: seq<Processed>)
    ensures DistinctIds(Flagged(ps))
  {
    var list := SuspiciousOf(AccountsAfter(ps), Distinct(Flatten(ps)));
    var sa := Flagged(ps);
    UnsortedAccounts(ps);
    SortBySortsAndPermutes(list, NegScore);
    NoDupPermutation(list, sa);
    FlaggedMembers(ps);
    forall i, j | 0 <= i < j < |sa|
      ensures sa[i].accountId != sa[j].accountId
    {
      assert sa[i] in sa && sa[j] in sa;
    }
  }

  /** Highest score first. */
  lemma FlaggedSorted(ps: seq<Processed>)
    ensures forall i, j | 0 <= i < j < |Flagged(ps)| :: Flagged(ps)[i].suspicionScore >= Flagged(ps)[j].suspicionScore
  {
    var list := SuspiciousOf(AccountsAfter(ps), Distinct(Flatten(ps)));
    SortBySortsAndPermutes(list, NegScore);
    forall i, j | 0 <= i < j < |Flagged(ps)|
      ensures Flagged(ps)[i].suspicionScore >= Flagged(ps)[j].suspicionScore
    {
      assert NegScore(Flagged(ps)[i]) <= NegScore(Flagged(ps)[j]);
    }
  }

  /** Accounts of equal score keep the order in which they first appeared
      in a ring. */
  lemma FlaggedStable(ps: seq<Processed>, score: real)
    ensures WithKey(Flagged(ps), NegScore, -score)
         == WithKey(SuspiciousOf(AccountsAfter(ps), Distinct(Flatten(ps))), NegScore, -score)
  {
    SortByStable(SuspiciousOf(AccountsAfter(ps), Distinct(Flatten(ps))), NegScore, -score);
  }

  // ---- Ring risk ----

  /** An empty ring's risk is NaN; any other is at most 95. */
  lemma RingRiskBounds(ms: seq<Id>, accounts: seq<SuspiciousAccount>)
    ensures RingRisk(ms, accounts) == NaN <==> ms == []
    ensures RingRisk(ms, accounts).Finite? ==> RingRisk(ms, accounts).value <= 95.0
  {
  }

  /** `find` returns the one account with the id. */
  lemma {:induction false} FindAccountFinds(accounts: seq<SuspiciousAccount>, acc: SuspiciousAccount)
    requires acc in accounts && DistinctIds(accounts)
    ensures FindAccount(accounts, acc.accountId) == Some(acc)
  {
    if accounts[0] != acc {
      assert accounts[0].accountId != acc.accountId by {
        var i :| 0 <= i < |accounts| && accounts[i] == acc;
      }
      assert DistinctIds(accounts[1..]) by {
        forall i, j | 0 <= i < j < |accounts[1..]|
          ensures accounts[1..][i].accountId != accounts[1..][j].accountId
        {
          assert accounts[1..][i] == accounts[i + 1] && accounts[1..][j] == accounts[j + 1];
        }
      }
      FindAccountFinds(accounts[1..], acc);
    }
  }

  /** `find` returns nothing when no account has the id. */
  lemma {:induction false} FindAccountMissing(accounts: seq<SuspiciousAccount>, id: Id)
    requires forall acc | acc in accounts :: acc.accountId != id
    ensures FindAccount(accounts, id) == None
  {
    if accounts != [] {
      assert forall acc | acc in accounts[1..] :: acc in accounts;
      FindAccountMissing(accounts[1..], id);
    }
  }

  lemma {:induction false} MemberTotalIsScoreSum(ms: seq<Id>, accounts: seq<SuspiciousAccount>, m: map<Id, AccountEntry>)
    requires DistinctIds(accounts)
    requires forall x | x in ms :: Suspicious(m, x) in accounts
    ensures MemberTotal(ms, accounts) == ScoreSum(ms, m)
  {
    if ms != [] {
      var n := |ms| - 1;
      assert forall x | x in ms[..n] :: x in ms;
      MemberTotalIsScoreSum(ms[..n], accounts, m);
      FindAccountFinds(accounts, Suspicious(m, ms[n]));
    }
  }

  /** With every member listed once among the accounts, the risk found
      through `find` is the risk from the members' own records. */
  lemma RingRiskIsReference(ms: seq<Id>, accounts: seq<SuspiciousAccount>, m: map<Id, AccountEntry>)
    requires DistinctIds(accounts)
    requires forall x | x in ms :: Suspicious(m, x) in accounts
    ensures RingRisk(ms, accounts) == ReferenceRisk(ms, m)
  {
    MemberTotalIsScoreSum(ms, accounts, m);
  }

  lemma RingMembersFlagged(ps: seq<Processed>, k: nat)
    requires k < |ps|
    ensures forall x | x in ps[k].members :: Suspicious(AccountsAfter(ps), x) in Flagged(ps)
  {
    FlaggedMembers(ps);
    forall x | x in ps[k].members
      ensures InSomeRing(ps, x)
    {
    }
  }

  /** Ring `k`: id `RING_` and `k + 1`, the members and type of the `k`-th
      processed ring, and the risk from its members' scores. */
  lemma RingAt(ps: seq<Processed>, k: nat)
    requires k < |ps|
    ensures |ScoredRings(ps)| == |ps|
    ensures ScoredRings(ps)[k].ringId == RingId(k + 1)
    ensures ScoredRings(ps)[k].memberAccounts == ps[k].members
    ensures ScoredRings(ps)[k].patternType == ps[k].patternType
    ensures ScoredRings(ps)[k].riskScore == ReferenceRisk(ps[k].members, AccountsAfter(ps))
  {
    var initial := InitialRings(ps);
    assert initial[k] == FraudRing(RingId(k + 1), ps[k].members, ps[k].patternType, Finite(0.0));
    assert ScoredRings(ps)[k] == initial[k].(riskScore := RingRisk(ps[k].members, Flagged(ps)));
    FlaggedDistinct(ps);
    RingMembersFlagged(ps, k);
    RingRiskIsReference(ps[k].members, Flagged(ps), AccountsAfter(ps));
  }

  /** Ring ids are unique across the report. */
  lemma RingIdsDistinct(ps: seq<Processed>)
    ensures forall i, j | 0 <= i < j < |ScoredRings(ps)| :: ScoredRings(ps)[i].ringId != ScoredRings(ps)[j].ringId
  {
    forall i, j | 0 <= i < j < |ScoredRings(ps)|
      ensures ScoredRings(ps)[i].ringId != ScoredRings(ps)[j].ringId
    {
      RingAt(ps, i);
      RingAt(ps, j);
      RingIdInjective(i + 1, j + 1);
    }
  }

  // ---- The report ----

  /** The report's parts: the flagged accounts, the scored rings, and a
      summary counting the graph's accounts, the distinct ring members and
      every ring of the four detectors. */
  lemma ReportParts(nodeCount: nat, cycles: seq<seq<Id>>, fanInRings: seq<SmurfDetection.SmurfRing>,
                    fanOutRings: seq<SmurfDetection.SmurfRing>, shellRings: seq<ShellDetection.ShellRing>)
    ensures var ps := Processing(cycles, fanInRings, fanOutRings, shellRings);
            var r := ReportOf(nodeCount, cycles, fanInRings, fanOutRings, shellRings);
            && r.suspiciousAccounts == Flagged(ps)
            && r.fraudRings == ScoredRings(ps)
            && r.summary.totalAccountsAnalyzed == nodeCount
            && r.summary.suspiciousAccountsFlagged == |Distinct(Flatten(ps))|
            && r.summary.fraudRingsDetected == |cycles| + |fanInRings| + |fanOutRings| + |shellRings|
  {
    var ps := Processing(cycles, fanInRings, fanOutRings, shellRings);
    SuspiciousOfAt(AccountsAfter(ps), Distinct(Flatten(ps)));
  }
}
