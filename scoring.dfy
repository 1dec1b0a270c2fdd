/** The scoring pass of scoringEngine.js. Every ring the detectors found
    gets a sequential `RING_NNN` id and adds a weighted contribution to each
    of its members. The raw totals are normalised to suspicion scores capped
    at 95 and sorted, and each ring is given a risk score from its members'
    scores. Scores are exact reals: the `toFixed(2)` rounding is left out. */
module Scoring {
  import opened Common
  import opened Strings
  import TransactionGraph
  import SmurfDetection
  import ShellDetection

  // ---- Data ----

  /** A JavaScript number as far as the ring risk needs one: the average
      over an empty ring is `0 / 0`, which is NaN. */
  datatype Number = Finite(value: real) | NaN

  datatype FraudRing = FraudRing(ringId: string, memberAccounts: seq<Id>, patternType: string, riskScore: Number)

  /** An `accountMap` record; the two Sets are their insertion-ordered values. */
  datatype AccountEntry = AccountEntry(rawScore: real, detectedPatterns: seq<string>, ringIds: seq<string>)

  datatype SuspiciousAccount = SuspiciousAccount(accountId: Id, suspicionScore: real, detectedPatterns: seq<string>,
                                                 ringId: string)

  datatype Summary = Summary(totalAccountsAnalyzed: nat, suspiciousAccountsFlagged: nat, fraudRingsDetected: nat)

  datatype Report = Report(suspiciousAccounts: seq<SuspiciousAccount>, fraudRings: seq<FraudRing>, summary: Summary)

  /** One ring as a processing loop sees it: its members, the contribution
      each member gets, the label added to their patterns and the ring's
      pattern type. */
  datatype Processed = Processed(members: seq<Id>, raw: real, tag: string, patternType: string)

  // ---- Weights and contributions ----

  const CycleWeight: real := 7.0
  const ShellWeight: real := 6.0
  const FanInWeight: real := 5.0
  const FanOutWeight: real := 5.0

  /** `BASE_WEIGHTS.cycle * (1 + (length - 3) * 0.2)`. */
  function CycleContribution(length: int): real
  {
    CycleWeight * (1.0 + (length - 3) as real * 0.2)
  }

  /** `BASE_WEIGHTS.shell * (1 + (length - 3) * 0.2)`. */
  function ShellContribution(length: int): real
  {
    ShellWeight * (1.0 + (length - 3) as real * 0.2)
  }

  /** `weight * (1 + (members.length - 1 - 10) * 0.08)`: the hub is not
      counted among the counterparties. */
  function FanContribution(weight: real, memberCount: int): real
  {
    weight * (1.0 + ((memberCount - 1) - 10) as real * 0.08)
  }

  /** The theoretical maximum: a 5-cycle, a 5-account shell chain and two
      fans of 20 counterparties. */
  const MaxRaw: real := 7.0 * (1.0 + (5 - 3) as real * 0.2) + 6.0 * (1.0 + (5 - 3) as real * 0.2)
                        + 5.0 * (1.0 + (20 - 10) as real * 0.08) + 5.0 * (1.0 + (20 - 10) as real * 0.08)

  lemma MaxRawValue()
    ensures MaxRaw == 36.2
  {
  }

  function CycleRing(c: seq<Id>): Processed
  {
    Processed(c, CycleContribution(|c|), "cycle_length_" + NatToString(|c|), "cycle")
  }

  function FanInRing(r: SmurfDetection.SmurfRing): Processed
  {
    Processed(r.memberAccounts, FanContribution(FanInWeight, |r.memberAccounts|), "fan-in", "fan-in")
  }

  function FanOutRing(r: SmurfDetection.SmurfRing): Processed
  {
    Processed(r.memberAccounts, FanContribution(FanOutWeight, |r.memberAccounts|), "fan-out", "fan-out")
  }

  function ShellRing(r: ShellDetection.ShellRing): Processed
  {
    Processed(r.memberAccounts, ShellContribution(|r.memberAccounts|), "shell", "shell")
  }

  /** The rings in the order the four loops process them. */
  function Processing(cycles: seq<seq<Id>>, fanInRings: seq<SmurfDetection.SmurfRing>,
                      fanOutRings: seq<SmurfDetection.SmurfRing>, shellRings: seq<ShellDetection.ShellRing>): seq<Processed>
  {
    seq(|cycles|, k requires 0 <= k < |cycles| => CycleRing(cycles[k]))
    + seq(|fanInRings|, k requires 0 <= k < |fanInRings| => FanInRing(fanInRings[k]))
    + seq(|fanOutRings|, k requires 0 <= k < |fanOutRings| => FanOutRing(fanOutRings[k]))
    + seq(|shellRings|, k requires 0 <= k < |shellRings| => ShellRing(shellRings[k]))
  }

  // ---- Ring ids ----

  /** `"RING_" + String(n).padStart(3, "0")`. */
  function RingId(n: nat): string
  {
    "RING_" + PadStart(NatToString(n), 3, '0')
  }

  // ---- The account map ----

  /** `accountMap[a]`, a fresh record when absent. */
  function EntryAt(m: map<Id, AccountEntry>, a: Id): AccountEntry
  {
    if a in m then m[a] else AccountEntry(0.0, [], [])
  }

  /** `addScore(a, raw, label, ringId)` on the map. */
  function AddScoreTo(m: map<Id, AccountEntry>, a: Id, raw: real, tag: string, ringId: string): map<Id, AccountEntry>
  {
    var e := EntryAt(m, a);
    m[a := AccountEntry(e.rawScore + raw, SetAdd(e.detectedPatterns, tag), SetAdd(e.ringIds, ringId))]
  }

  /** `addScore` for each member in turn. */
  function AddScores(m: map<Id, AccountEntry>, members: seq<Id>, raw: real, tag: string, ringId: string)
    : map<Id, AccountEntry>
  {
    if members == [] then m
    else AddScoreTo(AddScores(m, members[..|members| - 1], raw, tag, ringId), members[|members| - 1], raw, tag, ringId)
  }

  /** The map once the rings `ps` are processed, ring `k` with id `RingId(k + 1)`. */
  function AccountsAfter(ps: seq<Processed>): map<Id, AccountEntry>
  {
    if ps == [] then map[]
    else
      var p := ps[|ps| - 1];
      AddScores(AccountsAfter(ps[..|ps| - 1]), p.members, p.raw, p.tag, RingId(|ps|))
  }

  /** Every member of every ring in `ps`, in order. */
  function Flatten(ps: seq<Processed>): seq<Id>
  {
    if ps == [] then [] else Flatten(ps[..|ps| - 1]) + ps[|ps| - 1].members
  }

  /** `fraudRings` before the risk pass. */
  function InitialRings(ps: seq<Processed>): seq<FraudRing>
  {
    seq(|ps|, k requires 0 <= k < |ps| => FraudRing(RingId(k + 1), ps[k].members, ps[k].patternType, Finite(0.0)))
  }

  // ---- Normalisation ----

  /** `(raw / MAX_RAW) * 95`, set to 95 when at least 95. */
  function FinalScore(raw: real): real
  {
    var s := raw / MaxRaw * 95.0;
    if s >= 95.0 then 95.0 else s
  }

  /** `Array.from(ring_ids)[0]`. */
  function FirstRingId(ids: seq<string>): string
  {
    if ids == [] then "" else ids[0]
  }

  function Suspicious(m: map<Id, AccountEntry>, a: Id): SuspiciousAccount
  {
    var e := EntryAt(m, a);
    SuspiciousAccount(a, FinalScore(e.rawScore), e.detectedPatterns, FirstRingId(e.ringIds))
  }

  /** The entries pushed by the `for (let account in accountMap)` loop. */
  function SuspiciousOf(m: map<Id, AccountEntry>, order: seq<Id>): seq<SuspiciousAccount>
  {
    if order == [] then [] else SuspiciousOf(m, order[..|order| - 1]) + [Suspicious(m, order[|order| - 1])]
  }

  /** The key of `sort((a, b) => b.suspicion_score - a.suspicion_score)`. */
  function NegScore(a: SuspiciousAccount): real
  {
    -a.suspicionScore
  }

  // ---- Ring risk ----

  /** `suspiciousAccounts.find(a => a.account_id === member)`. */
  function FindAccount(accounts: seq<SuspiciousAccount>, id: Id): Option<SuspiciousAccount>
  {
    if accounts == [] then None
    else if accounts[0].accountId == id then Some(accounts[0])
    else FindAccount(accounts[1..], id)
  }

  /** `total` after the members `ms`: found accounts add their score. */
  function MemberTotal(ms: seq<Id>, accounts: seq<SuspiciousAccount>): real
  {
    if ms == [] then 0.0
    else
      MemberTotal(ms[..|ms| - 1], accounts)
      + match FindAccount(accounts, ms[|ms| - 1]) case None => 0.0 case Some(acc) => acc.suspicionScore
  }

  /** `avg * (1 + (n - 3) * 0.1)` set to 95 when at least 95; NaN for an
      empty ring, where NaN >= 95 fails and NaN survives the rounding. */
  function RingRisk(ms: seq<Id>, accounts: seq<SuspiciousAccount>): Number
  {
    if ms == [] then NaN
    else
      var avg := MemberTotal(ms, accounts) / |ms| as real;
      var s := avg * (1.0 + (|ms| - 3) as real * 0.1);
      Finite(if s >= 95.0 then 95.0 else s)
  }

  function RiskScored(rings: seq<FraudRing>, accounts: seq<SuspiciousAccount>): seq<FraudRing>
  {
    seq(|rings|, k requires 0 <= k < |rings| => rings[k].(riskScore := RingRisk(rings[k].memberAccounts, accounts)))
  }

  // ---- The report ----

  /** The normalised accounts, highest score first. */
  function Flagged(ps: seq<Processed>): seq<SuspiciousAccount>
  {
    SortBy(SuspiciousOf(AccountsAfter(ps), Distinct(Flatten(ps))), NegScore)
  }

  function ScoredRings(ps: seq<Processed>): seq<FraudRing>
  {
    RiskScored(InitialRings(ps), Flagged(ps))
  }

  /** What `scoringEngine` returns, for a graph of `nodeCount` accounts. */
  function ReportOf(nodeCount: nat, cycles: seq<seq<Id>>, fanInRings: seq<SmurfDetection.SmurfRing>,
                    fanOutRings: seq<SmurfDetection.SmurfRing>, shellRings: seq<ShellDetection.ShellRing>): Report
  {
    var ps := Processing(cycles, fanInRings, fanOutRings, shellRings);
    Report(Flagged(ps), ScoredRings(ps), Summary(nodeCount, |Flagged(ps)|, |ScoredRings(ps)|))
  }

  // ---- Lemmas used by the methods ----

  lemma AddScoresKeys(m: map<Id, AccountEntry>, members: seq<Id>, raw: real, tag: string, ringId: string, a: Id)
    ensures a in AddScores(m, members, raw, tag, ringId) <==> a in m || a in members
  {
    if members != [] {
      var n := |members| - 1;
      AddScoresKeys(m, members[..n], raw, tag, ringId, a);
      assert members == members[..n] + [members[n]];
    }
  }

  lemma {:induction false} AccountsAfterKeys(ps: seq<Processed>, a: Id)
    ensures a in AccountsAfter(ps) <==> a in Flatten(ps)
  {
    if ps != [] {
      var n := |ps| - 1;
      AccountsAfterKeys(ps[..n], a);
      AddScoresKeys(AccountsAfter(ps[..n]), ps[n].members, ps[n].raw, ps[n].tag, RingId(|ps|), a);
    }
  }

  lemma AccountsAfterKeysAll(ps: seq<Processed>)
    ensures forall a :: a in AccountsAfter(ps) <==> a in Flatten(ps)
  {
    forall a {
      AccountsAfterKeys(ps, a);
    }
  }

  /** What one more ring does to each part of the state. */
  lemma ProcessedSnoc(ps: seq<Processed>, p: Processed)
    ensures Flatten(ps + [p]) == Flatten(ps) + p.members
    ensures AccountsAfter(ps + [p]) == AddScores(AccountsAfter(ps), p.members, p.raw, p.tag, RingId(|ps| + 1))
    ensures InitialRings(ps + [p]) == InitialRings(ps) + [FraudRing(RingId(|ps| + 1), p.members, p.patternType, Finite(0.0))]
  {
    assert (ps + [p])[..|ps|] == ps;
    InitialRingsSnoc(ps, p);
  }

  lemma InitialRingsSnoc(ps: seq<Processed>, p: Processed)
    ensures InitialRings(ps + [p]) == InitialRings(ps) + [FraudRing(RingId(|ps| + 1), p.members, p.patternType, Finite(0.0))]
  {
    var a := InitialRings(ps + [p]);
    var b := InitialRings(ps) + [FraudRing(RingId(|ps| + 1), p.members, p.patternType, Finite(0.0))];
    assert |a| == |b|;
    forall k | 0 <= k < |a|
      ensures a[k] == b[k]
    {
      if k < |ps| {
        assert (ps + [p])[k] == ps[k];
      }
    }
  }

  // ---- The engine as it runs ----

  /** The state shared by the closures of `scoringEngine`: `ringCounter`,
      `accountMap` (with the order its keys were added), `fraudRings`. */
  class Scorer {
    var ringCounter: nat
    var accountMap: map<Id, AccountEntry>
    var accountOrder: seq<Id>
    var fraudRings: seq<FraudRing>

    /** The state once the rings `ps` are processed. */
    ghost predicate After(ps: seq<Processed>)
      reads this
    {
      && ringCounter == |ps| + 1
      && accountMap == AccountsAfter(ps)
      && accountOrder == Distinct(Flatten(ps))
      && fraudRings == InitialRings(ps)
    }

    constructor ()
      ensures After([])
    {
      ringCounter := 1;
      accountMap := map[];
      accountOrder := [];
      fraudRings := [];
    }

    /** `generateRingId()`: the id of the current counter, then the counter
        moves on. */
    method GenerateRingId() returns (id: string)
      modifies this
      ensures id == RingId(old(ringCounter)) && ringCounter == old(ringCounter) + 1
      ensures accountMap == old(accountMap) && accountOrder == old(accountOrder) && fraudRings == old(fraudRings)
    {
      id := "RING_" + PadStart(NatToString(ringCounter), 3, '0');
      ringCounter := ringCounter + 1;
    }

    /** `addScore(account, rawContribution, patternType, ringId)`. */
    method AddScore(account: Id, rawContribution: real, patternType: string, ringId: string)
      modifies this
      ensures accountMap == AddScoreTo(old(accountMap), account, rawContribution, patternType, ringId)
      ensures accountOrder == if account in old(accountMap) then old(accountOrder) else old(accountOrder) + [account]
      ensures ringCounter == old(ringCounter) && fraudRings == old(fraudRings)
    {
      if account !in accountMap {
        accountMap := accountMap[account := AccountEntry(0.0, [], [])];
        accountOrder := accountOrder + [account];
      }
      var e := accountMap[account];
      accountMap := accountMap[account := AccountEntry(e.rawScore + rawContribution,
                                                       SetAdd(e.detectedPatterns, patternType),
                                                       SetAdd(e.ringIds, ringId))];
    }

    /** The `forEach(member => addScore(...))` of one ring, from a state whose
        keys are those of `flat` in first-seen order. */
    method ScoreMembers(members: seq<Id>, raw: real, tag: string, ringId: string, ghost flat: seq<Id>)
      requires accountOrder == Distinct(flat)
      requires forall a :: a in accountMap <==> a in flat
      modifies this
      ensures accountMap == AddScores(old(accountMap), members, raw, tag, ringId)
      ensures accountOrder == Distinct(flat + members)
      ensures ringCounter == old(ringCounter) && fraudRings == old(fraudRings)
    {
      assert flat + members[..0] == flat;
      for j := 0 to |members|
        invariant accountMap == AddScores(old(accountMap), members[..j], raw, tag, ringId)
        invariant accountOrder == Distinct(flat + members[..j])
        invariant ringCounter == old(ringCounter) && fraudRings == old(fraudRings)
      {
        var account := members[j];
        ghost var prefix := flat + members[..j];
        assert members[..j + 1] == members[..j] + [account];
        assert members[..j + 1][..j] == members[..j];
        assert flat + members[..j + 1] == prefix + [account];
        AddScoresKeys(old(accountMap), members[..j], raw, tag, ringId, account);
        assert account in old(accountMap) <==> account in flat;
        DistinctMembers(prefix);
        DistinctSnoc(prefix, account);
        assert account in Distinct(prefix) <==> account in accountMap;
        AddScore(account, raw, tag, ringId);
      }
      assert members[..|members|] == members;
    }

    /** The body of one processing loop for one ring: a new id, the score of
        each member, and the ring pushed with risk 0. */
    method ProcessRing(p: Processed, ghost ps: seq<Processed>)
      requires After(ps)
      modifies this
      ensures After(ps + [p])
    {
      var ringId := GenerateRingId();
      AccountsAfterKeysAll(ps);
      ScoreMembers(p.members, p.raw, p.tag, ringId, Flatten(ps));
      fraudRings := fraudRings + [FraudRing(ringId, p.members, p.patternType, Finite(0.0))];
      ProcessedSnoc(ps, p);
    }

    /** One of the four processing loops. */
    method ProcessRings(rings: seq<Processed>, ghost ps: seq<Processed>)
      requires After(ps)
      modifies this
      ensures After(ps + rings)
    {
      assert ps + rings[..0] == ps;
      for k := 0 to |rings|
        invariant After(ps + rings[..k])
      {
        ProcessRing(rings[k], ps + rings[..k]);
        assert ps + rings[..k + 1] == (ps + rings[..k]) + [rings[k]];
      }
      assert rings[..|rings|] == rings;
    }

    /** The normalisation loop over the keys of `accountMap`. */
    method SuspiciousAccounts() returns (suspiciousAccounts: seq<SuspiciousAccount>)
      ensures suspiciousAccounts == SuspiciousOf(accountMap, accountOrder)
    {
      suspiciousAccounts := [];
      for k := 0 to |accountOrder|
        invariant suspiciousAccounts == SuspiciousOf(accountMap, accountOrder[..k])
      {
        var account := accountOrder[k];
        assert accountOrder[..k + 1][..k] == accountOrder[..k];
        var e := EntryAt(accountMap, account);
        var raw := e.rawScore;
        var finalScore := (raw / MaxRaw) * 95.0;
        if finalScore >= 95.0 {
          finalScore := 95.0;
        }
        suspiciousAccounts := suspiciousAccounts + [SuspiciousAccount(account, finalScore, e.detectedPatterns,
                                                                      FirstRingId(e.ringIds))];
      }
      assert accountOrder[..|accountOrder|] == accountOrder;
    }

    /** The ring risk loop: each ring's `risk_score` is set in place. */
    method ScoreRings(accounts: seq<SuspiciousAccount>)
      modifies this
      ensures fraudRings == RiskScored(old(fraudRings), accounts)
      ensures ringCounter == old(ringCounter) && accountMap == old(accountMap) && accountOrder == old(accountOrder)
    {
      for k := 0 to |fraudRings|
        invariant |fraudRings| == |old(fraudRings)|
        invariant forall i | 0 <= i < k ::
                    fraudRings[i] == old(fraudRings)[i].(riskScore := RingRisk(old(fraudRings)[i].memberAccounts, accounts))
        invariant forall i | k <= i < |fraudRings| :: fraudRings[i] == old(fraudRings)[i]
        invariant ringCounter == old(ringCounter) && accountMap == old(accountMap) && accountOrder == old(accountOrder)
      {
        var ring := fraudRings[k];
        var risk := RingRiskOf(ring.memberAccounts, accounts);
        fraudRings := fraudRings[k := ring.(riskScore := risk)];
      }
    }
  }

  /** The `total` loop and the risk of one ring. */
  method RingRiskOf(members: seq<Id>, accounts: seq<SuspiciousAccount>) returns (risk: Number)
    ensures risk == RingRisk(members, accounts)
  {
    var total := 0.0;
    for j := 0 to |members|
      invariant total == MemberTotal(members[..j], accounts)
    {
      assert members[..j + 1][..j] == members[..j];
      var acc := FindAccount(accounts, members[j]);
      if acc.Some? {
        total := total + acc.value.suspicionScore;
      }
    }
    assert members[..|members|] == members;
    if |members| == 0 {
      // `total / 0` is NaN
      return NaN;
    }
    var avg := total / |members| as real;
    var structuralMultiplier := 1.0 + (|members| - 3) as real * 0.1;
    var ringScore := avg * structuralMultiplier;
    if ringScore >= 95.0 {
      ringScore := 95.0;
    }
    risk := Finite(ringScore);
  }

  /** `scoringEngine({graph, cycles, fanInRings, fanOutRings, shellRings})`. */
  method ScoringEngine(graph: TransactionGraph.Graph, cycles: seq<seq<Id>>, fanInRings: seq<SmurfDetection.SmurfRing>,
                       fanOutRings: seq<SmurfDetection.SmurfRing>, shellRings: seq<ShellDetection.ShellRing>)
    returns (report: Report)
    ensures report == ReportOf(|graph.nodes|, cycles, fanInRings, fanOutRings, shellRings)
  {
    var scorer := new Scorer();
    var c := seq(|cycles|, k requires 0 <= k < |cycles| => CycleRing(cycles[k]));
    var fi := seq(|fanInRings|, k requires 0 <= k < |fanInRings| => FanInRing(fanInRings[k]));
    var fo := seq(|fanOutRings|, k requires 0 <= k < |fanOutRings| => FanOutRing(fanOutRings[k]));
    var sh := seq(|shellRings|, k requires 0 <= k < |shellRings| => ShellRing(shellRings[k]));
    scorer.ProcessRings(c, []);
    assert [] + c == c;
    scorer.ProcessRings(fi, c);
    scorer.ProcessRings(fo, c + fi);
    scorer.ProcessRings(sh, c + fi + fo);
    assert c + fi + fo + sh == Processing(cycles, fanInRings, fanOutRings, shellRings);

    var suspiciousAccounts := scorer.SuspiciousAccounts();
    suspiciousAccounts := SortBy(suspiciousAccounts, NegScore);
    scorer.ScoreRings(suspiciousAccounts);
    var summary := Summary(|graph.nodes|, |suspiciousAccounts|, |scorer.fraudRings|);
    report := Report(suspiciousAccounts, scorer.fraudRings, summary);
  }
}
