/** Budgeted headcount: how many primary assignments a position has at any instant. */
module Headcount {
  import opened Wrappers
  import opened ReportingGraph
  import opened Assignments
  import opened AssignmentInvariants

  function Occupants(rows: Table, p: PositionId, t: int): set<RowId> {
    set i | i in rows && rows[i].primary && rows[i].position == Some(p) && ActiveAt(rows[i], t)
  }

  ghost predicate WithinBudget(rows: Table, budgets: Budgets) {
    forall p, t: int | p in budgets :: |Occupants(rows, p, t)| <= budgets[p]
  }

  lemma {:induction false} SubsetSize<T>(a: set<T>, b: set<T>)
    requires a <= b
    ensures |a| <= |b|
  {
    assert b == a + (b - a);
  }

  /** While an accepted row is active, its position is held by it and by counted rows only. */
  lemma OccupantsWereCounted(rows: Table, budgets: Budgets, id: RowId, r: Row, close: bool, prepared: Table, p: PositionId, t: int)
    requires TableInv(rows) && Prepared(rows, budgets, id, r, close, false, prepared)
    requires r.primary && r.position == Some(p) && ActiveAt(r, t)
    ensures Occupants(prepared[id := r], p, t) <= Counted(prepared, id, r) + {id}
  {
    PreparingOnlyCloses(rows, id, r, close);
    forall i | i in Occupants(prepared[id := r], p, t) && i != id
      ensures i in Counted(prepared, id, r)
    {
      assert prepared[i].from == rows[i].from < FAR_FUTURE;
    }
  }

  /** Otherwise the row only takes away from the position's holders. */
  lemma OccupantsOtherwiseShrink(rows: Table, budgets: Budgets, id: RowId, r: Row, close: bool, over: bool, prepared: Table, p: PositionId, t: int)
    requires Prepared(rows, budgets, id, r, close, over, prepared)
    requires !(r.primary && r.position == Some(p) && ActiveAt(r, t))
    ensures Occupants(prepared[id := r], p, t) <= Occupants(rows, p, t)
  {
    if r.primary {
      PreparingOnlyCloses(rows, id, r, close);
    }
  }

  /** A write accepted without `allowOverBudget` keeps every position within budget at every instant. */
  lemma AdmitKeepsBudget(rows: Table, budgets: Budgets, id: RowId, r: Row, close: bool)
    requires TableInv(rows) && WithinBudget(rows, budgets)
    requires Admit(rows, budgets, id, r, close, false).Success?
    ensures WithinBudget(Admit(rows, budgets, id, r, close, false).value, budgets)
  {
    var prepared := AdmitIsPrepared(rows, budgets, id, r, close, false);
    var after := prepared[id := r];
    forall p, t: int | p in budgets
      ensures |Occupants(after, p, t)| <= budgets[p]
    {
      if r.primary && r.position == Some(p) && ActiveAt(r, t) {
        OccupantsWereCounted(rows, budgets, id, r, close, prepared, p, t);
        SubsetSize(Occupants(after, p, t), Counted(prepared, id, r) + {id});
      } else {
        OccupantsOtherwiseShrink(rows, budgets, id, r, close, false, prepared, p, t);
        SubsetSize(Occupants(after, p, t), Occupants(rows, p, t));
      }
    }
  }

  /** The employee's own assignments never count against them: whatever of theirs overlaps has been closed
      by the time the headcount is taken. */
  lemma OwnRowsNeverCount(rows: Table, id: RowId, r: Row, close: bool)
    requires r.primary && PreparePrimary(rows, id, r, close).Success?
    ensures forall i | i in Counted(PreparePrimary(rows, id, r, close).value, id, r) ::
              PreparePrimary(rows, id, r, close).value[i].employee != r.employee
  {
    PreparingOnlyCloses(rows, id, r, close);
    var prepared := PreparePrimary(rows, id, r, close).value;
    forall i | i in prepared && i != id && prepared[i].primary && prepared[i].employee == r.employee
      ensures i !in Counted(prepared, id, r)
    {
      if i in Overlaps(rows, id, r) {
        assert prepared[i].to == Some(r.from);
      } else {
        assert !OverlapsWindow(prepared[i], r.from, r.to);
      }
    }
  }

  // ---------------------------------------------------------------- exactly when a budget holds

  /** A row other than `id` that holds the position for some time. */
  predicate Holds(rows: Table, id: RowId, p: PositionId, j: RowId) {
    j in rows && j != id && rows[j].primary && rows[j].position == Some(p)
  }

  /** Without row `id` the position has a place left. */
  predicate RoomAt(rows: Table, budgets: Budgets, id: RowId, p: PositionId, t: int)
    requires p in budgets
  {
    |Occupants(rows, p, t) - {id}| < budgets[p]
  }

  predicate InWindow(from: int, to: Option<int>, t: int) { from <= t && (to.None? || t < to.value) }

  ghost predicate RoomThroughout(rows: Table, budgets: Budgets, id: RowId, p: PositionId, from: int, to: Option<int>)
    requires p in budgets
  {
    forall t: int | InWindow(from, to, t) :: RoomAt(rows, budgets, id, p, t)
  }

  /** Room at the start of a window, and at each start of another holder inside it. */
  predicate RoomInside(rows: Table, budgets: Budgets, id: RowId, p: PositionId, from: int, to: Option<int>)
    requires p in budgets
  {
    && RoomAt(rows, budgets, id, p, from)
    && forall j | j in rows && Holds(rows, id, p, j) && InWindow(from, to, rows[j].from) :: RoomAt(rows, budgets, id, p, rows[j].from)
  }

  function LaterStarts(rows: Table, id: RowId, p: PositionId, from: int): set<int> {
    set j | j in rows && Holds(rows, id, p, j) && from < rows[j].from :: rows[j].from
  }

  /** Between two starts the holders only leave. */
  lemma OthersOnlyLeave(rows: Table, id: RowId, p: PositionId, from: int, s: int, t: int)
    requires from <= s <= t && forall x | x in LaterStarts(rows, id, p, from) && x <= t :: x <= s
    ensures Occupants(rows, p, t) - {id} <= Occupants(rows, p, s) - {id}
  {
    forall i | i in Occupants(rows, p, t) - {id}
      ensures i in Occupants(rows, p, s)
    {
      assert Holds(rows, id, p, i) && (from < rows[i].from ==> rows[i].from in LaterStarts(rows, id, p, from));
    }
  }

  lemma RoomSinceLastStart(rows: Table, budgets: Budgets, id: RowId, p: PositionId, from: int, to: Option<int>, t: int)
    requires p in budgets && RoomInside(rows, budgets, id, p, from, to) && InWindow(from, to, t)
    ensures RoomAt(rows, budgets, id, p, t)
  {
    var s := LastInstant(LaterStarts(rows, id, p, from), from, t);
    assert RoomAt(rows, budgets, id, p, s) by {
      if s != from {
        var j :| j in rows && Holds(rows, id, p, j) && rows[j].from == s;
        assert InWindow(from, to, rows[j].from);
      }
    }
    OthersOnlyLeave(rows, id, p, from, s, t);
    SubsetSize(Occupants(rows, p, t) - {id}, Occupants(rows, p, s) - {id});
  }

  /** Room at the starts is room all along. */
  lemma RoomInsideIsEnough(rows: Table, budgets: Budgets, id: RowId, p: PositionId, from: int, to: Option<int>)
    requires p in budgets && InWindow(from, to, from)
    ensures RoomInside(rows, budgets, id, p, from, to) <==> RoomThroughout(rows, budgets, id, p, from, to)
  {
    if RoomInside(rows, budgets, id, p, from, to) {
      forall t: int | InWindow(from, to, t)
        ensures RoomAt(rows, budgets, id, p, t)
      {
        RoomSinceLastStart(rows, budgets, id, p, from, to, t);
      }
    }
  }

  predicate Budgeted(budgets: Budgets, r: Row) { r.primary && r.position.Some? && r.position.value in budgets }

  lemma OccupantsWith(rows: Table, id: RowId, r: Row, p: PositionId, t: int)
    requires r.primary && r.position == Some(p)
    ensures Occupants(rows[id := r], p, t) == (Occupants(rows, p, t) - {id}) + (if ActiveAt(r, t) then {id} else {})
  {}

  lemma OccupantsWithout(rows: Table, id: RowId, r: Row, p: PositionId, t: int)
    requires !(r.primary && r.position == Some(p) && ActiveAt(r, t))
    ensures Occupants(rows[id := r], p, t) <= Occupants(rows, p, t)
  {}

  lemma RoomIsNeeded(rows: Table, budgets: Budgets, id: RowId, r: Row, t: int)
    requires Budgeted(budgets, r) && ActiveAt(r, t) && WithinBudget(rows[id := r], budgets)
    ensures RoomAt(rows, budgets, id, r.position.value, t)
  {
    var p := r.position.value;
    OccupantsWith(rows, id, r, p, t);
    assert |Occupants(rows[id := r], p, t)| <= budgets[p];
  }

  lemma WriteNeedsRoomThroughout(rows: Table, budgets: Budgets, id: RowId, r: Row)
    requires WithinBudget(rows, budgets) && Budgeted(budgets, r)
    ensures WithinBudget(rows[id := r], budgets) <==> RoomThroughout(rows, budgets, id, r.position.value, r.from, r.to)
  {
    var after, p := rows[id := r], r.position.value;
    if RoomThroughout(rows, budgets, id, p, r.from, r.to) {
      forall q, t: int | q in budgets
        ensures |Occupants(after, q, t)| <= budgets[q]
      {
        if q == p && ActiveAt(r, t) {
          assert InWindow(r.from, r.to, t);
          OccupantsWith(rows, id, r, p, t);
        } else {
          OccupantsWithout(rows, id, r, q, t);
          SubsetSize(Occupants(after, q, t), Occupants(rows, q, t));
        }
      }
    }
    if WithinBudget(after, budgets) {
      forall t: int | InWindow(r.from, r.to, t)
        ensures RoomAt(rows, budgets, id, p, t)
      {
        RoomIsNeeded(rows, budgets, id, r, t);
      }
    }
  }

  /** Writing a row on a budgeted position keeps the budgets if and only if there is room at its start and
      at each start of another holder inside its window. */
  lemma WriteKeepsBudgetExactly(rows: Table, budgets: Budgets, id: RowId, r: Row)
    requires WithinBudget(rows, budgets) && Budgeted(budgets, r) && (r.to.Some? ==> r.from < r.to.value)
    ensures WithinBudget(rows[id := r], budgets) <==> RoomInside(rows, budgets, id, r.position.value, r.from, r.to)
  {
    WriteNeedsRoomThroughout(rows, budgets, id, r);
    RoomInsideIsEnough(rows, budgets, id, r.position.value, r.from, r.to);
  }

  lemma PreparedWithinBudget(rows: Table, budgets: Budgets, id: RowId, r: Row, close: bool)
    requires WithinBudget(rows, budgets) && PreparePrimary(rows, id, r, close).Success?
    ensures WithinBudget(PreparePrimary(rows, id, r, close).value, budgets)
  {
    var prepared := PreparePrimary(rows, id, r, close).value;
    PreparingOnlyCloses(rows, id, r, close);
    forall p, t: int | p in budgets
      ensures |Occupants(prepared, p, t)| <= budgets[p]
    {
      assert Occupants(prepared, p, t) <= Occupants(rows, p, t);
      SubsetSize(Occupants(prepared, p, t), Occupants(rows, p, t));
    }
  }

  /** A refusal for headcount is needless, the budgets would have held, exactly when the rows overlapping
      the whole window are too many although there is room at each of those instants. */
  lemma NeedlessRefusalExactly(rows: Table, budgets: Budgets, id: RowId, r: Row, close: bool)
    requires WithinBudget(rows, budgets) && Budgeted(budgets, r) && (r.to.Some? ==> r.from < r.to.value)
    requires WalkFrom(ManagersAt(rows, r.from), r.employee, r.manager) == Safe && PreparePrimary(rows, id, r, close).Success?
    ensures var prepared := PreparePrimary(rows, id, r, close).value;
            (Admit(rows, budgets, id, r, close, false) == Failure(OverBudget) && WithinBudget(prepared[id := r], budgets))
            <==> (|Counted(prepared, id, r)| >= budgets[r.position.value] && RoomInside(prepared, budgets, id, r.position.value, r.from, r.to))
  {
    PreparedWithinBudget(rows, budgets, id, r, close);
    WriteKeepsBudgetExactly(PreparePrimary(rows, id, r, close).value, budgets, id, r);
  }

  /** An override is sound under the same condition. */
  lemma OverrideKeepsBudgetExactly(rows: Table, budgets: Budgets, id: RowId, r: Row, close: bool)
    requires WithinBudget(rows, budgets) && Budgeted(budgets, r) && (r.to.Some? ==> r.from < r.to.value)
    requires Admit(rows, budgets, id, r, close, true).Success?
    ensures WithinBudget(Admit(rows, budgets, id, r, close, true).value, budgets)
       <==> RoomInside(PreparePrimary(rows, id, r, close).value, budgets, id, r.position.value, r.from, r.to)
  {
    PreparedWithinBudget(rows, budgets, id, r, close);
    WriteKeepsBudgetExactly(PreparePrimary(rows, id, r, close).value, budgets, id, r);
  }

  /** If the new end lies later: room at the old end and at each start of another holder up to the new one. */
  predicate RoomForLonger(rows: Table, budgets: Budgets, id: RowId, to: int)
    requires id in rows
  {
    var r := rows[id];
    Budgeted(budgets, r) && !NonExtending(r, to) ==>
      RoomInside(rows, budgets, id, r.position.value, r.to.value, Some(to))
  }

  /** While row `id` is active it takes one of the places itself. */
  lemma RoomWhileActive(rows: Table, budgets: Budgets, id: RowId, t: int)
    requires WithinBudget(rows, budgets) && id in rows && Budgeted(budgets, rows[id]) && ActiveAt(rows[id], t)
    ensures RoomAt(rows, budgets, id, rows[id].position.value, t)
  {
    assert |Occupants(rows, rows[id].position.value, t)| <= budgets[rows[id].position.value];
  }

  lemma RoomInTwoParts(rows: Table, budgets: Budgets, id: RowId, to: int)
    requires NonEmpty(rows) && WithinBudget(rows, budgets) && id in rows && Budgeted(budgets, rows[id]) && !NonExtending(rows[id], to)
    ensures RoomThroughout(rows, budgets, id, rows[id].position.value, rows[id].from, Some(to)) <==> RoomForLonger(rows, budgets, id, to)
  {
    var r := rows[id];
    forall t: int | ActiveAt(r, t)
      ensures RoomAt(rows, budgets, id, r.position.value, t)
    {
      RoomWhileActive(rows, budgets, id, t);
    }
    assert forall t: int :: InWindow(r.from, Some(to), t) <==> ActiveAt(r, t) || InWindow(r.to.value, Some(to), t);
    RoomInsideIsEnough(rows, budgets, id, r.position.value, r.to.value, Some(to));
  }

  /** An accepted end keeps the budgets if and only if there is that room. */
  lemma EndKeepsBudgetExactly(rows: Table, budgets: Budgets, id: RowId, to: int)
    requires NonEmpty(rows) && WithinBudget(rows, budgets) && id in rows && rows[id].from < to
    ensures WithinBudget(rows[id := EndedRow(rows[id], to)], budgets) <==> RoomForLonger(rows, budgets, id, to)
  {
    if !Budgeted(budgets, rows[id]) || NonExtending(rows[id], to) {
      FewerOccupantsKeepBudget(rows, rows[id := EndedRow(rows[id], to)], budgets);
    } else {
      WriteNeedsRoomThroughout(rows, budgets, id, EndedRow(rows[id], to));
      RoomInTwoParts(rows, budgets, id, to);
    }
  }

  /** Taking time away from rows, or rows away, cannot exceed a budget. */
  lemma FewerOccupantsKeepBudget(rows: Table, after: Table, budgets: Budgets)
    requires WithinBudget(rows, budgets) && after.Keys <= rows.Keys
    requires forall i, p, t: int | i in after && p in budgets && i in Occupants(after, p, t) :: i in Occupants(rows, p, t)
    ensures WithinBudget(after, budgets)
  {
    forall p, t: int | p in budgets
      ensures |Occupants(after, p, t)| <= budgets[p]
    {
      assert Occupants(after, p, t) <= Occupants(rows, p, t);
      SubsetSize(Occupants(after, p, t), Occupants(rows, p, t));
    }
  }

  /** An end that does move later is not checked: the position then holds two on a budget of one. */
  lemma ExtendingEndOverBudget() returns (s: Store, op: Op)
    ensures TableInv(s.rows) && WithinBudget(s.rows, map[3 := 1]) && op.End?
    ensures Attempt(s, map[3 := 1], op).Success?
    ensures Occupants(Attempt(s, map[3 := 1], op).value.rows, 3, 12) == {0, 1}
  {
    s := Store(map[0 := Row(5, PrimaryType, Some(3), None, 0, Some(10), true),
                   1 := Row(6, PrimaryType, Some(3), None, 10, None, true)], 2);
    op := End(0, Some(20), 5);
    forall t: int
      ensures |Occupants(s.rows, 3, t)| <= 1
    {
      assert Occupants(s.rows, 3, t) <= if t < 10 then {0} else {1};
      SubsetSize(Occupants(s.rows, 3, t), if t < 10 then {0} else {1});
    }
    assert Attempt(s, map[3 := 1], op).value.rows == s.rows[0 := EndedRow(s.rows[0], 20)];
  }

  /** The check counts everybody whose window overlaps, not everybody at one instant: with a budget of two
      and two holders one after the other, a third assignment is refused although no instant would have
      seen more than two. */
  lemma SuccessiveHoldersRefused() returns (rows: Table, r: Row)
    ensures TableInv(rows) && WithinBudget(rows, map[3 := 2])
    ensures Admit(rows, map[3 := 2], 2, r, true, false) == Failure(OverBudget)
    ensures WithinBudget(rows[2 := r], map[3 := 2])
  {
    rows := map[0 := Row(5, PrimaryType, Some(3), None, 0, Some(10), true),
                1 := Row(6, PrimaryType, Some(3), None, 10, Some(20), true)];
    r := Row(7, PrimaryType, Some(3), None, 0, Some(20), true);
    assert Overlaps(rows, 2, r) == {};
    assert Counted(rows, 2, r) == {0, 1};
    var after := rows[2 := r];
    forall p, t: int | p in map[3 := 2]
      ensures |Occupants(rows, p, t)| <= 2 && |Occupants(after, p, t)| <= 2
    {
      var held := if t < 10 then {0, 2} else {1, 2};
      assert Occupants(rows, p, t) <= held && Occupants(after, p, t) <= held;
      SubsetSize(Occupants(rows, p, t), held);
      SubsetSize(Occupants(after, p, t), held);
    }
  }

  // ---------------------------------------------------------------- runs

  predicate Overrides(op: Op) { (op.Create? || op.Update?) && op.dto.allowOverBudget }

  /** Neither an override nor an end that is too late for the budget; ends that do not move later never are. */
  predicate Roomy(s: Store, budgets: Budgets, op: Op) {
    !Overrides(op) && (op.End? && op.id in s.rows ==> RoomForLonger(s.rows, budgets, op.id, op.to.GetOr(op.now)))
  }

  lemma ApplyKeepsBudget(s: Store, budgets: Budgets, op: Op)
    requires TableInv(s.rows) && Roomy(s, budgets, op) && WithinBudget(s.rows, budgets)
    ensures WithinBudget(Apply(s, budgets, op).rows, budgets)
  {
    if Attempt(s, budgets, op).Success? {
      match op {
        case Create(dto) =>
          AdmitKeepsBudget(s.rows, budgets, s.next, Requested(s, op).value, dto.close.GetOr(true));
        case Update(id, dto) =>
          AdmitKeepsBudget(s.rows, budgets, id, Requested(s, op).value, dto.close.GetOr(false));
        case End(id, to, now) =>
          EndKeepsBudgetExactly(s.rows, budgets, id, to.GetOr(now));
        case Delete(_, _) =>
          FewerOccupantsKeepBudget(s.rows, Apply(s, budgets, op).rows, budgets);
      }
    }
  }

  ghost predicate RoomyRun(s: Store, budgets: Budgets, ops: seq<Op>) {
    forall i | 0 <= i < |ops| :: Roomy(Run(s, budgets, ops[..i]), budgets, ops[i])
  }

  /** In every run of such requests, at every instant every position is held by at most its budgeted
      number of primary assignments. */
  lemma {:induction false} RunStaysWithinBudget(budgets: Budgets, ops: seq<Op>)
    requires OrdinaryRun(EMPTY, budgets, ops) && RoomyRun(EMPTY, budgets, ops)
    ensures WithinBudget(Run(EMPTY, budgets, ops).rows, budgets)
  {
    if ops == [] {
      assert forall p, t: int :: Occupants(map[], p, t) == {};
    } else {
      var n := |ops| - 1;
      assert forall i | 0 <= i < n :: ops[..n][..i] == ops[..i];
      RunStaysWithinBudget(budgets, ops[..n]);
      RunKeepsInv(budgets, ops[..n]);
      ApplyKeepsBudget(Run(EMPTY, budgets, ops[..n]), budgets, ops[n]);
    }
  }
}
