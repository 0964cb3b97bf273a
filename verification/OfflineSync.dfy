/** Replaying offline punches through a ledger keyed by the client's mutation id, with crashes. */
module OfflineSync {
  import opened Time
  import opened Wrappers
  import opened Metrics
  import opened Punches
  import opened Sums

  datatype LedgerStatus = Pending | Applied | Rejected

  datatype LedgerRow = LedgerRow(employee: EmployeeId, status: LedgerStatus, appliedRecord: Option<nat>)

  /** What the client is told; a duplicate is never stored. */
  datatype Response = AppliedNow | Duplicate | WasRejected | StillPending

  datatype Item = Item(
    mutation: MutationId,
    kind: PunchType,
    at: Option<int>,
    shift: Option<Shift>,
    blockedBefore: bool,
    blockedAfter: bool)

  /** One call for one item. `updateFails` makes the write of the APPLIED status throw after the punch
      was committed, which the code's catch block turns into a REJECTED status. */
  datatype Call = Call(employee: EmployeeId, policy: Policy, item: Item, now: int, updateFails: bool)

  datatype State = State(ledger: map<MutationId, LedgerRow>, records: seq<Record>)

  function ToRequest(c: Call): Request
    requires c.item.at.Some?
  {
    Request(c.employee, c.item.kind, c.item.at.value, c.now, c.item.shift, c.policy,
            c.item.blockedBefore, c.item.blockedAfter, Some(c.item.mutation), Some(c.item.mutation))
  }

  predicate TooOld(c: Call) {
    c.item.at.None? || c.item.at.value < c.now - c.policy.offlineGrace * MINUTE
  }

  function Write(s: State, c: Call, status: LedgerStatus, record: Option<nat>): State {
    s.(ledger := s.ledger[c.item.mutation := LedgerRow(c.employee, status, record)])
  }

  /** The states committed, in order, by one call that does not crash. */
  function Commits(s: State, c: Call): seq<State> {
    if c.item.mutation in s.ledger then []
    else if TooOld(c) then [Write(s, c, Rejected, None)]
    else
      var s1 := Write(s, c, Pending, None);
      var req := ToRequest(c);
      if !Accepted(s.records, req) then [s1, Write(s1, c, Rejected, None)]
      else
        var s2 := s1.(records := PunchStep(s.records, req));
        [s1, s2, if c.updateFails then Write(s2, c, Rejected, None)
                 else Write(s2, c, Applied, Some(TargetId(s.records, req)))]
  }

  /** A call that stops after `k` commits, or runs to its end if it has fewer. */
  function SyncStep(s: State, c: Call, k: nat): State {
    ([s] + Commits(s, c))[Min(k, |Commits(s, c)|)]
  }

  /** A call that runs to its end. */
  function SyncWhole(s: State, c: Call): State {
    if c.item.mutation in s.ledger then s
    else if TooOld(c) then Write(s, c, Rejected, None)
    else if !Accepted(s.records, ToRequest(c)) then Write(s, c, Rejected, None)
    else
      var punched := s.(records := PunchStep(s.records, ToRequest(c)));
      if c.updateFails then Write(punched, c, Rejected, None)
      else Write(punched, c, Applied, Some(TargetId(s.records, ToRequest(c))))
  }

  lemma Overwrite(ledger: map<MutationId, LedgerRow>, m: MutationId, a: LedgerRow, b: LedgerRow)
    ensures ledger[m := a][m := b] == ledger[m := b]
  {}

  lemma WholeIsThreeCommits(s: State, c: Call)
    ensures SyncStep(s, c, 3) == SyncWhole(s, c)
    ensures |Commits(s, c)| <= 3
  {
    if c.item.mutation !in s.ledger && !TooOld(c) {
      var pending := LedgerRow(c.employee, Pending, None);
      Overwrite(s.ledger, c.item.mutation, pending, LedgerRow(c.employee, Rejected, None));
      Overwrite(s.ledger, c.item.mutation, pending, LedgerRow(c.employee, Applied, Some(TargetId(s.records, ToRequest(c)))));
    }
  }

  function ResponseTo(s: State, c: Call): Response {
    if c.item.mutation in s.ledger then
      match s.ledger[c.item.mutation].status
      case Applied => Duplicate
      case Rejected => WasRejected
      case Pending => StillPending
    else if !TooOld(c) && Accepted(s.records, ToRequest(c)) && !c.updateFails then AppliedNow
    else WasRejected
  }

  function SyncBatch(s: State, calls: seq<Call>): State {
    if calls == [] then s else SyncWhole(SyncBatch(s, calls[..|calls| - 1]), calls[|calls| - 1])
  }

  function Responses(s: State, calls: seq<Call>): (rs: seq<Response>)
    ensures |rs| == |calls|
  {
    if calls == [] then []
    else Responses(s, calls[..|calls| - 1]) + [ResponseTo(SyncBatch(s, calls[..|calls| - 1]), calls[|calls| - 1])]
  }

  class OfflineLedger {
    var ledger: map<MutationId, LedgerRow>
    const attendance: AttendanceStore

    constructor (attendance: AttendanceStore)
      ensures ledger == map[] && this.attendance == attendance
    {
      ledger := map[];
      this.attendance := attendance;
    }

    function Tables(): State
      reads this, attendance
    {
      State(ledger, attendance.records)
    }

    /** Runs until it is done, or until it crashes after `crashAfter` commits; the three commits are
        separate transactions. */
    method SyncOfflinePunch(c: Call, crashAfter: nat) returns (response: Option<Response>)
      modifies this, attendance
      ensures Tables() == SyncStep(old(Tables()), c, crashAfter)
      ensures response.Some? <==> crashAfter >= |Commits(old(Tables()), c)|
      ensures response.Some? ==> response.value == ResponseTo(old(Tables()), c)
    {
      ghost var before := Tables();
      if c.item.mutation in ledger {
        var status := ledger[c.item.mutation].status;
        return Some(if status == Applied then Duplicate else if status == Rejected then WasRejected else StillPending);
      }
      if crashAfter == 0 {
        return None;
      }
      var tooOld := c.item.at.None? || c.item.at.value < c.now - c.policy.offlineGrace * MINUTE;
      ledger := ledger[c.item.mutation := LedgerRow(c.employee, if tooOld then Rejected else Pending, None)];
      if tooOld {
        return Some(WasRejected);
      }
      if crashAfter == 1 {
        return None;
      }
      var result := attendance.RecordPunch(ToRequest(c));
      if result.Success? {
        if crashAfter == 2 {
          return None;
        }
        if !c.updateFails {
          ledger := ledger[c.item.mutation := LedgerRow(c.employee, Applied, Some(result.value))];
          return Some(AppliedNow);
        }
      }
      ledger := ledger[c.item.mutation := LedgerRow(c.employee, Rejected, None)];
      return Some(WasRejected);
    }

    method SyncOfflinePunches(calls: seq<Call>, policy: Policy) returns (results: Option<seq<Response>>)
      modifies this, attendance
      ensures results.Some? <==> policy.allowOfflineSync
      ensures results.Some? ==> Tables() == SyncBatch(old(Tables()), calls) && results.value == Responses(old(Tables()), calls)
      ensures results.None? ==> Tables() == old(Tables())
    {
      if !policy.allowOfflineSync {
        return None;
      }
      var done := [];
      for i := 0 to |calls|
        invariant Tables() == SyncBatch(old(Tables()), calls[..i]) && done == Responses(old(Tables()), calls[..i])
      {
        assert calls[..i + 1][..i] == calls[..i];
        WholeIsThreeCommits(Tables(), calls[i]);
        var response := SyncOfflinePunch(calls[i], 3);
        done := done + [response.value];
      }
      assert calls[..|calls|] == calls;
      results := Some(done);
    }
  }

  // ---------------------------------------------------------------- what an applied item stores

  /** An item is answered as applied if and only if its id is new, its punch has a time that is not more than
      the grace period's minutes ago, the punch is accepted and the ledger update succeeds. */
  lemma AppliedExactly(s: State, c: Call)
    ensures ResponseTo(s, c) == AppliedNow <==>
              && c.item.mutation !in s.ledger
              && c.item.at.Some? && c.now - c.item.at.value <= c.policy.offlineGrace * 60_000
              && Accepted(s.records, ToRequest(c)) && !c.updateFails
  {}

  /** The request a sync makes is the item's, of the calling employee, at the item's own time. */
  lemma RequestOfItem(c: Call)
    requires c.item.at.Some?
    ensures var req := ToRequest(c);
            && req.employee == c.employee && req.policy == c.policy && req.now == c.now
            && req.kind == c.item.kind && Some(req.at) == c.item.at && req.shift == c.item.shift
            && req.blockedBefore == c.item.blockedBefore && req.blockedAfter == c.item.blockedAfter
            && req.client == req.offline == Some(c.item.mutation)
  {}

  /** What an applied item leaves behind: one punch, of the item's kind, at the item's time and under the
      item's id, at the end of one record of the employee, which the new ledger row names. */
  lemma AppliedStores(s: State, c: Call)
    requires ResponseTo(s, c) == AppliedNow
    ensures var m, s' := c.item.mutation, SyncWhole(s, c);
            && m in s'.ledger && (forall x | x in s'.ledger && x != m :: x in s.ledger && s'.ledger[x] == s.ledger[x])
            && s'.ledger[m].employee == c.employee && s'.ledger[m].status == Applied && s'.ledger[m].appliedRecord.Some?
            && var id := s'.ledger[m].appliedRecord.value;
               && id < |s'.records| <= |s.records| + 1
               && s'.records[id].employee == c.employee
               && s'.records[id].punches
                  == (if id < |s.records| then s.records[id].punches else [])
                     + [Punch(c.item.kind, c.item.at.value, Some(m), Some(m))]
               && s'.records[id].lastPunch == c.item.at
               && (c.item.kind == ClockIn ==> s'.records[id].clockIn == c.item.at)
               && (c.item.kind == ClockOut ==> s'.records[id].clockOut == c.item.at && s'.records[id].status == Completed)
               && forall i | 0 <= i < |s.records| && i != id :: s'.records[i] == s.records[i]
  {
    RequestOfItem(c);
    PunchLandsOnce(s.records, ToRequest(c));
  }

  // ---------------------------------------------------------------- counting punches

  function CountWhere(punches: seq<Punch>, which: Punch -> bool): nat {
    if punches == [] then 0
    else CountWhere(punches[..|punches| - 1], which) + (if which(punches[|punches| - 1]) then 1 else 0)
  }

  function CountIn(which: Punch -> bool): Record -> nat { (r: Record) => CountWhere(r.punches, which) }

  function ReplayOf(m: MutationId): Punch -> bool { (p: Punch) => p.offline == Some(m) }

  function CarrierOf(m: MutationId): Punch -> bool { (p: Punch) => p.client == Some(m) }

  function PunchCount(): Record -> nat { (r: Record) => |r.punches| }

  /** How many punches in the whole table were replayed from the ledger row of mutation `m`. */
  function Replays(records: seq<Record>, m: MutationId): nat { Sum(records, CountIn(ReplayOf(m))) }

  /** How many punches in the whole table carry the client's id `m`, replayed or not. */
  function Carried(records: seq<Record>, m: MutationId): nat { Sum(records, CountIn(CarrierOf(m))) }

  lemma PunchedCounts(t: Record, req: Request, which: Punch -> bool)
    requires PunchRejection(t, req).None?
    ensures CountWhere(Punched(t, req).punches, which)
         == CountWhere(t.punches, which) + (if which(Punch(req.kind, req.at, req.client, req.offline)) then 1 else 0)
    ensures |Punched(t, req).punches| == |t.punches| + 1
  {
    var all := t.punches + [Punch(req.kind, req.at, req.client, req.offline)];
    assert Punched(t, req).punches == all;
    assert all[..|t.punches|] == t.punches;
  }

  lemma PunchStepAdds(records: seq<Record>, req: Request, which: Punch -> bool)
    ensures Sum(PunchStep(records, req), CountIn(which))
         == Sum(records, CountIn(which))
            + (if Accepted(records, req) && which(Punch(req.kind, req.at, req.client, req.offline)) then 1 else 0)
    ensures Sum(PunchStep(records, req), PunchCount())
         == Sum(records, PunchCount()) + (if Accepted(records, req) then 1 else 0)
  {
    if Accepted(records, req) {
      var t := Target(records, req);
      var t' := Punched(t, req);
      PunchedCounts(t, req, which);
      var i := FindOpen(records, req.employee);
      if i.Some? {
        SumUpdate(records, i.value, t', CountIn(which));
        SumUpdate(records, i.value, t', PunchCount());
      } else {
        assert PunchStep(records, req) == records + [t'] && t.punches == [];
        SumAppend(records, t', CountIn(which));
        SumAppend(records, t', PunchCount());
      }
    }
  }

  lemma PunchStepCounts(records: seq<Record>, req: Request, m: MutationId)
    ensures Replays(PunchStep(records, req), m)
         == Replays(records, m) + (if Accepted(records, req) && req.offline == Some(m) then 1 else 0)
    ensures Carried(PunchStep(records, req), m)
         == Carried(records, m) + (if Accepted(records, req) && req.client == Some(m) then 1 else 0)
    ensures Sum(PunchStep(records, req), PunchCount())
         == Sum(records, PunchCount()) + (if Accepted(records, req) then 1 else 0)
  {
    PunchStepAdds(records, req, ReplayOf(m));
    PunchStepAdds(records, req, CarrierOf(m));
  }

  // ---------------------------------------------------------------- runs

  /** A direct punch, at a kiosk or online, never names an offline ledger row, but it may carry any client id. */
  datatype Event = Direct(req: Request) | Sync(call: Call, commits: nat)

  function Happen(s: State, ev: Event): State {
    match ev
    case Direct(req) => s.(records := PunchStep(s.records, req.(offline := None)))
    case Sync(c, k) => SyncStep(s, c, k)
  }

  function Run(s: State, evs: seq<Event>): State {
    if evs == [] then s else Happen(Run(s, evs[..|evs| - 1]), evs[|evs| - 1])
  }

  ghost predicate LedgerInv(s: State) {
    forall m: MutationId :: RowInv(s, m)
  }

  ghost predicate RowInv(s: State, m: MutationId) {
    && Replays(s.records, m) <= 1
    && (m !in s.ledger ==> Replays(s.records, m) == 0)
    && (m in s.ledger && s.ledger[m].status == Applied ==> Replays(s.records, m) == 1)
  }

  /** Whatever is committed differs from the start by one new ledger row and at most one punch, and
      an APPLIED row comes with its punch. */
  lemma CommitShape(s: State, c: Call, k: nat)
    requires SyncStep(s, c, k) != s
    ensures c.item.mutation !in s.ledger && c.item.mutation in SyncStep(s, c, k).ledger
    ensures var row := SyncStep(s, c, k).ledger[c.item.mutation];
      && SyncStep(s, c, k).ledger == s.ledger[c.item.mutation := row]
      && ( || (SyncStep(s, c, k).records == s.records && row.status != Applied)
           || (c.item.at.Some? && Accepted(s.records, ToRequest(c))
               && SyncStep(s, c, k).records == PunchStep(s.records, ToRequest(c))))
  {
    if !TooOld(c) && Accepted(s.records, ToRequest(c)) {
      assert Commits(s, c)[1].records == PunchStep(s.records, ToRequest(c));
    }
  }

  lemma CommitsKeepRow(s: State, c: Call, k: nat, m: MutationId)
    requires RowInv(s, m)
    ensures RowInv(SyncStep(s, c, k), m)
  {
    var s' := SyncStep(s, c, k);
    if s' != s {
      CommitShape(s, c, k);
      if s'.records != s.records {
        PunchStepCounts(s.records, ToRequest(c), m);
      }
    }
  }

  /** In every committed state, crash or no crash. */
  lemma CommitsKeepInv(s: State, c: Call, k: nat)
    requires LedgerInv(s)
    ensures LedgerInv(SyncStep(s, c, k))
  {
    forall m: MutationId
      ensures RowInv(SyncStep(s, c, k), m)
    {
      assert RowInv(s, m);
      CommitsKeepRow(s, c, k, m);
    }
  }

  /** Every mutation is replayed into at most one punch in every run: direct punches, syncs, repeated
      syncs, crashes after any commit, and failing ledger updates, in any order. */
  lemma {:induction false} AppliedAtMostOnce(evs: seq<Event>)
    ensures LedgerInv(Run(State(map[], []), evs))
  {
    var start := State(map[], []);
    if evs == [] {
      assert forall m: MutationId :: RowInv(start, m);
    } else {
      var before := Run(start, evs[..|evs| - 1]);
      AppliedAtMostOnce(evs[..|evs| - 1]);
      match evs[|evs| - 1] {
        case Direct(req) =>
          forall m: MutationId
            ensures RowInv(Happen(before, Direct(req)), m)
          {
            assert RowInv(before, m);
            PunchStepCounts(before.records, req.(offline := None), m);
          }
        case Sync(c, k) =>
          CommitsKeepInv(before, c, k);
      }
    }
  }

  /** How many accepted direct punches of the run carry the id. */
  function DirectCarriers(s: State, evs: seq<Event>, m: MutationId): nat {
    if evs == [] then 0
    else
      var before, ev := Run(s, evs[..|evs| - 1]), evs[|evs| - 1];
      DirectCarriers(s, evs[..|evs| - 1], m)
      + (if ev.Direct? && ev.req.client == Some(m) && Accepted(before.records, ev.req.(offline := None)) then 1 else 0)
  }

  /** A sync stores the id with the punch it replays, and nowhere else. */
  lemma SyncCarriesItsReplay(s: State, c: Call, k: nat, m: MutationId)
    ensures Carried(SyncStep(s, c, k).records, m) - Carried(s.records, m)
         == Replays(SyncStep(s, c, k).records, m) - Replays(s.records, m)
  {
    if SyncStep(s, c, k) != s {
      CommitShape(s, c, k);
      if SyncStep(s, c, k).records != s.records {
        PunchStepCounts(s.records, ToRequest(c), m);
      }
    }
  }

  /** From any state, the punches carrying a client id grow by the accepted direct punches with that id and
      by its replay: the ledger is asked for replays only. */
  lemma {:induction false} CarriersAreDirectOrReplayed(s: State, evs: seq<Event>, m: MutationId)
    ensures Carried(Run(s, evs).records, m) - Carried(s.records, m)
         == DirectCarriers(s, evs, m) + Replays(Run(s, evs).records, m) - Replays(s.records, m)
  {
    if evs != [] {
      var n := |evs| - 1;
      var before := Run(s, evs[..n]);
      CarriersAreDirectOrReplayed(s, evs[..n], m);
      match evs[n] {
        case Direct(req) => PunchStepCounts(before.records, req.(offline := None), m);
        case Sync(c, k) => SyncCarriesItsReplay(before, c, k, m);
      }
    }
  }

  /** So over every run an id is stored as often as accepted direct punches carry it, and at most once more:
      at most once in all if no direct punch of the run carries it. */
  lemma CarriedAtMostOnceMore(evs: seq<Event>, m: MutationId)
    ensures var s := Run(State(map[], []), evs);
            && Carried(s.records, m) == DirectCarriers(State(map[], []), evs, m) + Replays(s.records, m)
            && Replays(s.records, m) <= 1
    ensures (forall i | 0 <= i < |evs| && evs[i].Direct? :: evs[i].req.client != Some(m)) ==>
              Carried(Run(State(map[], []), evs).records, m) <= 1
  {
    CarriersAreDirectOrReplayed(State(map[], []), evs, m);
    AppliedAtMostOnce(evs);
    assert RowInv(Run(State(map[], []), evs), m);
    if forall i | 0 <= i < |evs| && evs[i].Direct? :: evs[i].req.client != Some(m) {
      NoDirectCarriers(State(map[], []), evs, m);
    }
  }

  lemma {:induction false} NoDirectCarriers(s: State, evs: seq<Event>, m: MutationId)
    requires forall i | 0 <= i < |evs| && evs[i].Direct? :: evs[i].req.client != Some(m)
    ensures DirectCarriers(s, evs, m) == 0
  {
    if evs != [] {
      NoDirectCarriers(s, evs[..|evs| - 1], m);
    }
  }

  /** From one commit to the next a ledger row is only ever added, or moved from PENDING to its one
      terminal status; a row with a terminal status never changes again. */
  predicate LedgerMoves(a: State, b: State) {
    forall m | m in a.ledger ::
      m in b.ledger && (a.ledger[m].status != Pending ==> b.ledger[m] == a.ledger[m])
                    && a.ledger[m].employee == b.ledger[m].employee
  }

  lemma CommitsOnlyMoveForward(s: State, c: Call, i: nat)
    requires i < |Commits(s, c)|
    ensures LedgerMoves(([s] + Commits(s, c))[i], Commits(s, c)[i])
    ensures forall m | m in s.ledger :: m in Commits(s, c)[i].ledger && Commits(s, c)[i].ledger[m] == s.ledger[m]
  {}

  lemma {:induction false} RunOnlyMovesForward(s: State, evs: seq<Event>)
    ensures LedgerMoves(s, Run(s, evs))
  {
    if evs != [] {
      RunOnlyMovesForward(s, evs[..|evs| - 1]);
      var before := Run(s, evs[..|evs| - 1]);
      match evs[|evs| - 1] {
        case Direct(req) =>
        case Sync(c, k) =>
          var n := Min(k, |Commits(before, c)|);
          if n > 0 {
            CommitsOnlyMoveForward(before, c, n - 1);
          }
      }
    }
  }

  // ---------------------------------------------------------------- replaying a batch

  lemma SyncRecords(s: State, c: Call)
    ensures c.item.mutation in SyncWhole(s, c).ledger && s.ledger.Keys <= SyncWhole(s, c).ledger.Keys
    ensures c.item.mutation in s.ledger ==> SyncWhole(s, c) == s
  {}

  lemma {:induction false} BatchRecordsAll(s: State, calls: seq<Call>)
    ensures forall i | 0 <= i < |calls| :: calls[i].item.mutation in SyncBatch(s, calls).ledger
    ensures s.ledger.Keys <= SyncBatch(s, calls).ledger.Keys
  {
    if calls != [] {
      var n := |calls| - 1;
      BatchRecordsAll(s, calls[..n]);
      SyncRecords(SyncBatch(s, calls[..n]), calls[n]);
      forall i | 0 <= i < |calls|
        ensures calls[i].item.mutation in SyncBatch(s, calls).ledger
      {
        if i < n {
          assert calls[..n][i] == calls[i];
        }
      }
    }
  }

  lemma {:induction false} KnownBatchIsNoop(s: State, calls: seq<Call>)
    requires forall i | 0 <= i < |calls| :: calls[i].item.mutation in s.ledger
    ensures SyncBatch(s, calls) == s
    ensures forall i | 0 <= i < |calls| :: Responses(s, calls)[i] == ResponseTo(s, calls[i])
  {
    if calls != [] {
      KnownBatchIsNoop(s, calls[..|calls| - 1]);
    }
  }

  /** Sending a batch again, whole or in part, reordered, at any later time and under any policy,
      changes nothing; what was applied is answered as a duplicate, what was rejected stays rejected. */
  lemma ReplayIsNoop(s: State, calls: seq<Call>, again: seq<Call>)
    requires forall i | 0 <= i < |again| :: exists j | 0 <= j < |calls| :: again[i].item.mutation == calls[j].item.mutation
    ensures var s' := SyncBatch(s, calls);
            && SyncBatch(s', again) == s'
            && forall i | 0 <= i < |again| ::
                 && again[i].item.mutation in s'.ledger
                 && Responses(s', again)[i] != AppliedNow
                 && (Responses(s', again)[i] == Duplicate <==> s'.ledger[again[i].item.mutation].status == Applied)
  {
    BatchRecordsAll(s, calls);
    KnownBatchIsNoop(SyncBatch(s, calls), again);
  }

  function CountApplied(rs: seq<Response>): nat {
    if rs == [] then 0 else CountApplied(rs[..|rs| - 1]) + (if rs[|rs| - 1] == AppliedNow then 1 else 0)
  }

  lemma SyncWholeRecords(s: State, c: Call)
    ensures SyncWhole(s, c).records
         == if c.item.mutation in s.ledger || TooOld(c) then s.records else PunchStep(s.records, ToRequest(c))
  {}

  lemma CallAddsApplied(s: State, c: Call)
    requires !c.updateFails
    ensures Sum(SyncWhole(s, c).records, PunchCount())
         == Sum(s.records, PunchCount()) + (if ResponseTo(s, c) == AppliedNow then 1 else 0)
  {
    SyncWholeRecords(s, c);
    if c.item.at.Some? {
      PunchStepCounts(s.records, ToRequest(c), c.item.mutation);
    }
  }

  /** The number of applied answers is the number of punches a batch added, as long as no ledger
      update fails. */
  lemma {:induction false} AppliedAnswersArePunches(s: State, calls: seq<Call>)
    requires forall i | 0 <= i < |calls| :: !calls[i].updateFails
    ensures Sum(SyncBatch(s, calls).records, PunchCount())
         == Sum(s.records, PunchCount()) + CountApplied(Responses(s, calls))
  {
    if calls != [] {
      var n := |calls| - 1;
      AppliedAnswersArePunches(s, calls[..n]);
      var before, c := SyncBatch(s, calls[..n]), calls[n];
      assert Responses(s, calls)[..n] == Responses(s, calls[..n]);
      CallAddsApplied(before, c);
    }
  }

  /** A fresh mutation that is answered as rejected was left out of the table, except exactly when the
      ledger update failed after its punch had been committed. */
  lemma RejectedButPunchedExactly(s: State, c: Call)
    requires LedgerInv(s) && c.item.mutation !in s.ledger && ResponseTo(s, c) == WasRejected
    ensures (Replays(SyncWhole(s, c).records, c.item.mutation) == 1)
       <==> (c.updateFails && !TooOld(c) && Accepted(s.records, ToRequest(c)))
    ensures SyncWhole(s, c).ledger[c.item.mutation].status == Rejected
  {
    assert RowInv(s, c.item.mutation);
    SyncWholeRecords(s, c);
    if c.item.at.Some? {
      PunchStepCounts(s.records, ToRequest(c), c.item.mutation);
    }
  }

  /** Such a call: a clock-in is stored, the update to APPLIED throws, and the client hears of a rejection. */
  lemma PunchReportedAsRejected() returns (c: Call)
    ensures ResponseTo(State(map[], []), c) == WasRejected
    ensures Replays(SyncWhole(State(map[], []), c).records, c.item.mutation) == 1
  {
    var policy := Policy(0, 0, None, None, 960, true, 60);
    c := Call(0, policy, Item("m", ClockIn, Some(0), None, false, false), 0, true);
    assert Replays([], "m") == 0 && PunchRejection(NewRecord(ToRequest(c)), ToRequest(c)).None?;
    PunchStepCounts([], ToRequest(c), "m");
  }

  // ---------------------------------------------------------------- runs without faults, and after a crash

  /** No crash, and no failing ledger update. */
  predicate Faultless(ev: Event) { ev.Sync? ==> ev.commits >= 3 && !ev.call.updateFails }

  /** The ledger tells exactly which mutations were replayed, and none is pending. */
  ghost predicate Truthful(s: State, m: MutationId) {
    && RowInv(s, m)
    && (Replays(s.records, m) == 1 <==> m in s.ledger && s.ledger[m].status == Applied)
    && (m in s.ledger ==> s.ledger[m].status != Pending)
  }

  lemma WholeStaysTruthful(s: State, c: Call, m: MutationId)
    requires Truthful(s, m) && !c.updateFails
    ensures Truthful(SyncWhole(s, c), m)
  {
    SyncWholeRecords(s, c);
    if c.item.at.Some? {
      PunchStepCounts(s.records, ToRequest(c), m);
    }
  }

  /** In every faultless run a mutation has been replayed if and only if its row says APPLIED. */
  lemma {:induction false} FaultlessRunsAreTruthful(evs: seq<Event>, m: MutationId)
    requires forall i | 0 <= i < |evs| :: Faultless(evs[i])
    ensures Truthful(Run(State(map[], []), evs), m)
  {
    if evs == [] {
      assert Replays([], m) == 0;
    } else {
      var n := |evs| - 1;
      var before := Run(State(map[], []), evs[..n]);
      FaultlessRunsAreTruthful(evs[..n], m);
      match evs[n] {
        case Direct(req) => PunchStepCounts(before.records, req.(offline := None), m);
        case Sync(c, k) =>
          WholeIsThreeCommits(before, c);
          WholeStaysTruthful(before, c, m);
      }
    }
  }

  /** Once a mutation has a ledger row, no event of any kind changes the row or replays it again; only
      direct punches can still bring the id. */
  lemma {:induction false} KnownMutationIsSettled(s: State, evs: seq<Event>, m: MutationId)
    requires m in s.ledger
    ensures var s' := Run(s, evs);
            && m in s'.ledger && s'.ledger[m] == s.ledger[m] && Replays(s'.records, m) == Replays(s.records, m)
            && Carried(s'.records, m) == Carried(s.records, m) + DirectCarriers(s, evs, m)
  {
    CarriersAreDirectOrReplayed(s, evs, m);
    if evs != [] {
      var n := |evs| - 1;
      KnownMutationIsSettled(s, evs[..n], m);
      EventKeepsKnown(Run(s, evs[..n]), evs[n], m);
    }
  }

  lemma EventKeepsKnown(s: State, ev: Event, m: MutationId)
    requires m in s.ledger
    ensures var s' := Happen(s, ev); m in s'.ledger && s'.ledger[m] == s.ledger[m] && Replays(s'.records, m) == Replays(s.records, m)
  {
    match ev {
      case Direct(req) => PunchStepCounts(s.records, req.(offline := None), m);
      case Sync(c, k) =>
        if SyncStep(s, c, k) != s {
          CommitShape(s, c, k);
          if SyncStep(s, c, k).records != s.records {
            PunchStepCounts(s.records, ToRequest(c), m);
          }
        }
    }
  }

  /** The ledger row that a call for a fresh mutation leaves behind after `k` commits. */
  lemma RowAfterCommits(s: State, c: Call, k: nat)
    requires c.item.mutation !in s.ledger && k > 0
    ensures var m, s' := c.item.mutation, SyncStep(s, c, k);
            m in s'.ledger && (s'.ledger[m].status == Pending <==> k < |Commits(s, c)|)
  {}

  lemma RecordsAfterCommits(s: State, c: Call, k: nat)
    requires c.item.mutation !in s.ledger && k > 0
    ensures SyncStep(s, c, k).records
         == if k > 1 && !TooOld(c) && Accepted(s.records, ToRequest(c)) then PunchStep(s.records, ToRequest(c)) else s.records
  {}

  lemma ReplayedOnce(records: seq<Record>, req: Request, m: MutationId, punched: bool)
    requires Replays(records, m) == 0 && req.offline == Some(m) && (punched ==> Accepted(records, req))
    ensures Replays(if punched then PunchStep(records, req) else records, m) == if punched then 1 else 0
  {
    PunchStepCounts(records, req, m);
  }

  lemma ReplaysAfterCommits(s: State, c: Call, k: nat)
    requires Replays(s.records, c.item.mutation) == 0 && c.item.mutation !in s.ledger && k > 0
    ensures Replays(SyncStep(s, c, k).records, c.item.mutation) == 1 <==> k > 1 && !TooOld(c) && Accepted(s.records, ToRequest(c))
  {
    RecordsAfterCommits(s, c, k);
    if !TooOld(c) {
      ReplayedOnce(s.records, ToRequest(c), c.item.mutation, k > 1 && Accepted(s.records, ToRequest(c)));
    }
  }

  /** What a call for a fresh mutation leaves behind once it has committed anything: a PENDING row if and
      only if it crashed before its last commit, and the punch if and only if that commit was made. No
      later event or retry repairs it. */
  lemma CrashedStaysPending(s: State, c: Call, k: nat, evs: seq<Event>, retry: Call)
    requires LedgerInv(s) && c.item.mutation !in s.ledger && k > 0
    requires retry.item.mutation == c.item.mutation
    ensures var m, s' := c.item.mutation, Run(SyncStep(s, c, k), evs);
            && m in s'.ledger && (s'.ledger[m].status == Pending <==> k < |Commits(s, c)|)
            && (Replays(s'.records, m) == 1 <==> k > 1 && !TooOld(c) && Accepted(s.records, ToRequest(c)))
            && (k < |Commits(s, c)| ==> ResponseTo(s', retry) == StillPending)
  {
    assert RowInv(s, c.item.mutation);
    RowAfterCommits(s, c, k);
    ReplaysAfterCommits(s, c, k);
    KnownMutationIsSettled(SyncStep(s, c, k), evs, c.item.mutation);
  }

  const WITNESS_POLICY := Policy(0, 0, None, None, 960, true, 600)

  const DIRECT_IN := Request(0, ClockIn, 0, 0, None, WITNESS_POLICY, false, false, Some("m"), None)

  const DIRECT_OUT := Request(0, ClockOut, HOUR, HOUR, None, WITNESS_POLICY, false, false, None, None)

  const QUEUED_IN := Call(0, WITNESS_POLICY, Item("m", ClockIn, Some(0), None, false, false), 2 * HOUR, false)

  lemma DirectInAccepted()
    ensures Accepted([], DIRECT_IN) && |PunchStep([], DIRECT_IN)| == 1
    ensures var r := PunchStep([], DIRECT_IN)[0];
            r.employee == 0 && r.status == Open && r.clockIn == Some(0) && r.breaks == []
  {
    assert PunchStep([], DIRECT_IN) == [Punched(NewRecord(DIRECT_IN), DIRECT_IN)];
  }

  lemma DirectOutAccepted(r: Record)
    requires r.employee == 0 && r.status == Open && r.clockIn == Some(0) && r.breaks == []
    ensures Accepted([r], DIRECT_OUT) && FindOpen(PunchStep([r], DIRECT_OUT), 0) == None
  {
    assert [r][..0] == [] && FindOpen([r], 0) == Some(0);
    assert DurationMinutes(0, HOUR, 0) == 60;
    var after := Punched(r, DIRECT_OUT);
    assert PunchStep([r], DIRECT_OUT) == [after] && after.status == Completed;
    assert [after][..0] == [] && FindOpen([], 0) == None;
  }

  lemma DirectPunchesAccepted()
    ensures Accepted([], DIRECT_IN) && Accepted(PunchStep([], DIRECT_IN), DIRECT_OUT)
    ensures FindOpen(PunchStep(PunchStep([], DIRECT_IN), DIRECT_OUT), 0) == None
  {
    DirectInAccepted();
    DirectOutAccepted(PunchStep([], DIRECT_IN)[0]);
    assert PunchStep([], DIRECT_IN) == [PunchStep([], DIRECT_IN)[0]];
  }

  lemma NewClockInAccepted(records: seq<Record>)
    requires FindOpen(records, 0) == None
    ensures Accepted(records, ToRequest(QUEUED_IN)) && !TooOld(QUEUED_IN)
  {}

  /** A clock-in that the client sends directly, a clock-out, and then the same clock-in once more from its
      offline queue: the id is stored twice, on two records. */
  lemma DirectPunchReplayedLater()
    ensures Carried(Run(State(map[], []), [Direct(DIRECT_IN), Direct(DIRECT_OUT), Sync(QUEUED_IN, 3)]).records, "m") == 2
  {
    var worked := PunchStep([], DIRECT_IN);
    var done := PunchStep(worked, DIRECT_OUT);
    DirectPunchesAccepted();
    NewClockInAccepted(done);
    PunchStepCounts([], DIRECT_IN, "m");
    PunchStepCounts(worked, DIRECT_OUT, "m");
    PunchStepCounts(done, ToRequest(QUEUED_IN), "m");
    ThreeEvents(State(map[], []), [Direct(DIRECT_IN), Direct(DIRECT_OUT), Sync(QUEUED_IN, 3)]);
    WholeIsThreeCommits(State(map[], done), QUEUED_IN);
    SyncWholeRecords(State(map[], done), QUEUED_IN);
  }

  lemma NextEvent(s: State, evs: seq<Event>, n: nat)
    requires n < |evs|
    ensures Run(s, evs[..n + 1]) == Happen(Run(s, evs[..n]), evs[n])
  {
    assert evs[..n + 1][..n] == evs[..n];
  }

  lemma ThreeEvents(s: State, evs: seq<Event>)
    requires |evs| == 3
    ensures Run(s, evs) == Happen(Happen(Happen(s, evs[0]), evs[1]), evs[2])
  {
    assert evs[..0] == [] && Run(s, []) == s;
    NextEvent(s, evs, 0);
    NextEvent(s, evs, 1);
    NextEvent(s, evs, 2);
    assert evs[..3] == evs;
  }
}
