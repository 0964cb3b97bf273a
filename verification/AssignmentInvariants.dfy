/** What every run of the assignment operations keeps: one primary at a time, budgets, acyclic lines. */
module AssignmentInvariants {
  import opened Wrappers
  import opened ReportingGraph
  import opened Assignments

  // ---------------------------------------------------------------- disjoint primary windows

  ghost predicate NonEmpty(rows: Table) {
    forall i | i in rows :: rows[i].to.Some? ==> rows[i].from < rows[i].to.value
  }

  ghost predicate BeforeHorizon(rows: Table) { forall i | i in rows :: rows[i].from < FAR_FUTURE }

  /** The windows have an instant in common. */
  predicate Meet(a: Row, b: Row) {
    (b.to.None? || a.from < b.to.value) && (a.to.None? || b.from < a.to.value)
  }

  predicate Rivals(a: Row, b: Row) { a.primary && b.primary && a.employee == b.employee }

  ghost predicate Disjoint(rows: Table) {
    forall i, j | i in rows && j in rows && i != j && Rivals(rows[i], rows[j]) :: !Meet(rows[i], rows[j])
  }

  ghost predicate TableInv(rows: Table) { NonEmpty(rows) && Disjoint(rows) && BeforeHorizon(rows) }

  /** Meeting windows are windows active at a common instant. */
  lemma MeetIsCommonInstant(a: Row, b: Row)
    requires (a.to.Some? ==> a.from < a.to.value) && (b.to.Some? ==> b.from < b.to.value)
    ensures Meet(a, b) <==> exists t :: ActiveAt(a, t) && ActiveAt(b, t)
  {
    var t := if a.from >= b.from then a.from else b.from;
    if Meet(a, b) {
      assert ActiveAt(a, t) && ActiveAt(b, t);
    }
  }

  /** So at no instant are two primary assignments of an employee active, and the current one is it. */
  lemma OnePrimaryAtATime(rows: Table, e: EmployeeId, t: int, i: RowId)
    requires Disjoint(rows)
    ensures i in PrimariesAt(rows, e, t) <==> CurrentPrimary(rows, e, t) == Some(i)
    ensures |PrimariesAt(rows, e, t)| <= 1
  {
    var ids := PrimariesAt(rows, e, t);
    forall j, k | j in ids && k in ids
      ensures j == k
    {
      assert j != k ==> !Meet(rows[j], rows[k]);
    }
    if ids != {} {
      var j :| j in ids;
      assert ids == {j};
    }
  }

  /** The last of the given instants up to `t`, or `from` if that is later. */
  lemma {:induction false} LastInstant(instants: set<int>, from: int, t: int) returns (s: int)
    requires from <= t
    ensures from <= s <= t && (s == from || s in instants)
    ensures forall x | x in instants && x <= t :: x <= s
    decreases |instants|
  {
    s := from;
    if x :| x in instants {
      s := LastInstant(instants - {x}, from, t);
      assert forall y | y in instants :: y == x || y in instants - {x};
      if s < x <= t {
        s := x;
      }
    }
  }

  // ---------------------------------------------------------------- what an accepted write does

  /** The table just before row `id` is written, when the write is accepted. */
  ghost predicate Prepared(rows: Table, budgets: Budgets, id: RowId, r: Row, close: bool, over: bool, prepared: Table) {
    && WalkFrom(ManagersAt(rows, r.from), r.employee, r.manager) == Safe
    && (if r.primary then PreparePrimary(rows, id, r, close) == Success(prepared) else prepared == rows)
    && (r.position.Some? && r.primary && !over ==> HeadcountError(prepared, budgets, id, r).None?)
  }

  lemma AdmitIsPrepared(rows: Table, budgets: Budgets, id: RowId, r: Row, close: bool, over: bool) returns (prepared: Table)
    requires Admit(rows, budgets, id, r, close, over).Success?
    ensures Prepared(rows, budgets, id, r, close, over, prepared)
    ensures Admit(rows, budgets, id, r, close, over) == Success(prepared[id := r])
  {
    prepared := if r.primary then PreparePrimary(rows, id, r, close).value else rows;
  }

  /** Preparing only moves ends earlier, to the start of the new row, and only of rows that started
      before it. */
  lemma PreparingOnlyCloses(rows: Table, id: RowId, r: Row, close: bool)
    requires PreparePrimary(rows, id, r, close).Success?
    ensures var prepared := PreparePrimary(rows, id, r, close).value;
            && prepared.Keys == rows.Keys
            && forall i | i in rows ::
                 if i in Overlaps(rows, id, r)
                 then prepared[i] == rows[i].(to := Some(r.from)) && rows[i].from < r.from
                      && (rows[i].to.None? || r.from < rows[i].to.value)
                 else prepared[i] == rows[i]
  {}

  /** At most one row is ever closed: the one that is current at the new start. */
  lemma ClosesAtMostOne(rows: Table, id: RowId, r: Row, close: bool)
    requires Disjoint(rows) && PreparePrimary(rows, id, r, close).Success?
    ensures |Overlaps(rows, id, r)| <= 1
    ensures forall i | i in Overlaps(rows, id, r) :: CurrentPrimary(rows, r.employee, r.from) == Some(i)
  {
    PreparingOnlyCloses(rows, id, r, close);
    forall i | i in Overlaps(rows, id, r)
      ensures CurrentPrimary(rows, r.employee, r.from) == Some(i)
    {
      OnePrimaryAtATime(rows, r.employee, r.from, i);
    }
    if Overlaps(rows, id, r) != {} {
      var i :| i in Overlaps(rows, id, r);
      assert Overlaps(rows, id, r) == {i};
    }
  }

  /** The rows an open-ended window fails to see: they start at or after the far-future constant. */
  ghost predicate BeyondHorizon(rows: Table, id: RowId, r: Row) {
    r.primary && r.to.None? &&
    exists i :: i in rows && i != id && Rivals(rows[i], r) && rows[i].from >= FAR_FUTURE
                && (rows[i].to.None? || rows[i].to.value > r.from)
  }

  lemma HorizonGapOverlaps(rows: Table, budgets: Budgets, id: RowId, r: Row, close: bool, over: bool)
    requires Admit(rows, budgets, id, r, close, over).Success? && BeyondHorizon(rows, id, r)
    ensures !Disjoint(Admit(rows, budgets, id, r, close, over).value)
  {
    var prepared := AdmitIsPrepared(rows, budgets, id, r, close, over);
    PreparingOnlyCloses(rows, id, r, close);
    var after := prepared[id := r];
    var i :| i in rows && i != id && Rivals(rows[i], r) && rows[i].from >= FAR_FUTURE && (rows[i].to.None? || rows[i].to.value > r.from);
    assert i !in Overlaps(rows, id, r) && after[i] == rows[i] && after[id] == r;
    assert Meet(after[i], after[id]);
  }

  /** Once prepared, no other primary row of the employee meets the new one. */
  lemma PreparedRowsKeepClear(rows: Table, id: RowId, r: Row, close: bool, k: RowId)
    requires NonEmpty(rows) && (r.to.Some? ==> r.from < r.to.value) && !BeyondHorizon(rows, id, r)
    requires r.primary && PreparePrimary(rows, id, r, close).Success?
    requires k in rows && k != id && Rivals(rows[k], r)
    ensures !Meet(PreparePrimary(rows, id, r, close).value[k], r) && !Meet(r, PreparePrimary(rows, id, r, close).value[k])
  {
    PreparingOnlyCloses(rows, id, r, close);
    assert k in Overlaps(rows, id, r) || !OverlapsWindow(rows[k], r.from, r.to);
  }

  /** An accepted write keeps primary windows disjoint if and only if it does not open an endless window
      in front of a row that starts at or after the far-future constant. */
  lemma AdmitKeepsDisjointExactly(rows: Table, budgets: Budgets, id: RowId, r: Row, close: bool, over: bool)
    requires NonEmpty(rows) && Disjoint(rows) && (r.to.Some? ==> r.from < r.to.value)
    requires Admit(rows, budgets, id, r, close, over).Success?
    ensures NonEmpty(Admit(rows, budgets, id, r, close, over).value)
    ensures Disjoint(Admit(rows, budgets, id, r, close, over).value) <==> !BeyondHorizon(rows, id, r)
  {
    var prepared := AdmitIsPrepared(rows, budgets, id, r, close, over);
    if r.primary {
      PreparingOnlyCloses(rows, id, r, close);
    }
    var after := prepared[id := r];
    if BeyondHorizon(rows, id, r) {
      HorizonGapOverlaps(rows, budgets, id, r, close, over);
    } else {
      forall i, j | i in after && j in after && i != j && Rivals(after[i], after[j])
        ensures !Meet(after[i], after[j])
      {
        if i != id && j != id {
          assert !Meet(rows[i], rows[j]);
        } else {
          PreparedRowsKeepClear(rows, id, r, close, if i == id then j else i);
        }
      }
    }
  }

  lemma AdmitKeepsInv(rows: Table, budgets: Budgets, id: RowId, r: Row, close: bool, over: bool)
    requires TableInv(rows) && (r.to.Some? ==> r.from < r.to.value) && r.from < FAR_FUTURE
    requires Admit(rows, budgets, id, r, close, over).Success?
    ensures TableInv(Admit(rows, budgets, id, r, close, over).value)
  {
    AdmitKeepsDisjointExactly(rows, budgets, id, r, close, over);
    var prepared := AdmitIsPrepared(rows, budgets, id, r, close, over);
    if r.primary {
      PreparingOnlyCloses(rows, id, r, close);
    }
  }

  /** The far-future gap is real: with a row starting on the last millisecond of the year 9999 stored, a
      second endless primary is accepted without closing anything, and both are then active. */
  lemma FarFutureOverlapAccepted() returns (rows: Table, r: Row)
    ensures NonEmpty(rows) && Disjoint(rows)
    ensures Admit(rows, map[], 1, r, false, false).Success?
    ensures PrimariesAt(Admit(rows, map[], 1, r, false, false).value, r.employee, FAR_FUTURE) == {0, 1}
  {
    rows := map[0 := Row(5, PrimaryType, None, None, FAR_FUTURE, None, true)];
    r := Row(5, PrimaryType, None, None, 0, None, true);
    assert Overlaps(rows, 1, r) == {};
    assert Admit(rows, map[], 1, r, false, false) == Success(rows[1 := r]);
  }

  // ---------------------------------------------------------------- ending and deleting

  function EndedRow(r: Row, to: int): Row { r.(to := Some(to)) }

  /** No other primary of the employee starts between the row's start and its new end. */
  predicate EndFits(rows: Table, id: RowId, to: int)
    requires id in rows
  {
    forall j | j in rows && j != id && Rivals(rows[j], rows[id]) :: !(rows[id].from <= rows[j].from < to)
  }

  /** That is exactly when moving a row's end keeps windows disjoint. */
  lemma EndKeepsDisjointExactly(rows: Table, id: RowId, to: int)
    requires NonEmpty(rows) && Disjoint(rows) && id in rows && rows[id].from < to
    ensures Disjoint(rows[id := EndedRow(rows[id], to)]) <==> EndFits(rows, id, to)
  {
    var after := rows[id := EndedRow(rows[id], to)];
    forall j | j in rows && j != id && Rivals(rows[j], rows[id])
      ensures Meet(after[j], after[id]) <==> rows[id].from <= rows[j].from < to
      ensures Meet(after[id], after[j]) <==> rows[id].from <= rows[j].from < to
    {
      assert !Meet(rows[j], rows[id]) && after[j] == rows[j];
    }
    if j :| j in rows && j != id && Rivals(rows[j], rows[id]) && rows[id].from <= rows[j].from < to {
      assert Rivals(after[j], after[id]) && Meet(after[j], after[id]);
    } else {
      forall i, j | i in after && j in after && i != j && Rivals(after[i], after[j])
        ensures !Meet(after[i], after[j])
      {
        if i != id && j != id {
          assert !Meet(rows[i], rows[j]);
        }
      }
    }
  }

  predicate NonExtending(r: Row, to: int) { r.to.Some? ==> to <= r.to.value }

  /** An end that does not move later always fits. */
  lemma NonExtendingEndFits(rows: Table, id: RowId, to: int)
    requires TableInv(rows) && id in rows && NonExtending(rows[id], to)
    ensures EndFits(rows, id, to)
  {
    forall j | j in rows && j != id && Rivals(rows[j], rows[id])
      ensures !(rows[id].from <= rows[j].from < to)
    {
      assert !Meet(rows[j], rows[id]);
    }
  }

  lemma FittingEndKeepsInv(rows: Table, id: RowId, to: int)
    requires TableInv(rows) && id in rows && rows[id].from < to && EndFits(rows, id, to)
    ensures TableInv(rows[id := EndedRow(rows[id], to)])
  {
    EndKeepsDisjointExactly(rows, id, to);
  }

  /** The code never compares the new end with the old one: an accepted end makes two primaries active. */
  lemma ExtendingEndOverlaps() returns (s: Store, op: Op)
    ensures TableInv(s.rows) && op.End?
    ensures Attempt(s, map[], op).Success?
    ensures PrimariesAt(Attempt(s, map[], op).value.rows, 5, 12) == {0, 1}
  {
    s := Store(map[0 := Row(5, PrimaryType, None, None, 0, Some(10), true), 1 := Row(5, PrimaryType, None, None, 10, None, true)], 2);
    op := End(0, Some(20), 5);
    assert Attempt(s, map[], op).value.rows == s.rows[0 := EndedRow(s.rows[0], 20)];
  }

  // ---------------------------------------------------------------- runs

  /** The row a create or update would write. */
  function Requested(s: Store, op: Op): Result<Row, AssignmentError>
    requires op.Create? || (op.Update? && op.id in s.rows)
  {
    ResolveFields(op.dto, if op.Create? then None else Some(s.rows[op.id]))
  }

  /** Requests of ordinary use: windows start before the far future, and ends do not run into the
      employee's next primary. */
  ghost predicate Ordinary(s: Store, op: Op) {
    match op
    case Create(dto) => Requested(s, op).Success? ==> Requested(s, op).value.from < FAR_FUTURE
    case Update(id, dto) => id in s.rows && Requested(s, op).Success? ==> Requested(s, op).value.from < FAR_FUTURE
    case End(id, to, now) => id in s.rows ==> EndFits(s.rows, id, to.GetOr(now))
    case Delete(_, _) => true
  }

  ghost predicate IdsBelow(s: Store) { forall i | i in s.rows :: i < s.next }

  /** An update that mentions no field writes the row as it is. */
  lemma EmptyUpdateKeepsRow(dto: Dto, row: Row)
    requires dto.employee.None? && dto.kind.None? && dto.position.None? && dto.manager.None?
    requires dto.from.None? && dto.to.Keep? && dto.isPrimary.None? && dto.referencesValid
    requires (row.to.Some? ==> row.from < row.to.value) && row.manager != Some(row.employee)
    ensures ResolveFields(dto, Some(row)) == Success(row)
  {}

  lemma ResolvedWindow(dto: Dto, existing: Option<Row>)
    requires ResolveFields(dto, existing).Success?
    ensures var r := ResolveFields(dto, existing).value;
            && (r.to.Some? ==> r.from < r.to.value)
            && r.manager != Some(r.employee)
            && (existing.Some? ==> r.employee == existing.value.employee)
  {}

  lemma ApplyKeepsInv(s: Store, budgets: Budgets, op: Op)
    requires TableInv(s.rows) && IdsBelow(s) && Ordinary(s, op)
    ensures TableInv(Apply(s, budgets, op).rows) && IdsBelow(Apply(s, budgets, op))
  {
    if Attempt(s, budgets, op).Success? {
      match op {
        case Create(dto) =>
          ResolvedWindow(dto, None);
          AdmitKeepsInv(s.rows, budgets, s.next, Requested(s, op).value, dto.close.GetOr(true), dto.allowOverBudget);
          AdmitKeepsKeys(s.rows, budgets, s.next, Requested(s, op).value, dto.close.GetOr(true), dto.allowOverBudget);
        case Update(id, dto) =>
          ResolvedWindow(dto, Some(s.rows[id]));
          AdmitKeepsInv(s.rows, budgets, id, Requested(s, op).value, dto.close.GetOr(false), dto.allowOverBudget);
          AdmitKeepsKeys(s.rows, budgets, id, Requested(s, op).value, dto.close.GetOr(false), dto.allowOverBudget);
        case End(id, to, now) =>
          FittingEndKeepsInv(s.rows, id, to.GetOr(now));
        case Delete(_, _) =>
      }
    }
  }

  lemma AdmitKeepsKeys(rows: Table, budgets: Budgets, id: RowId, r: Row, close: bool, over: bool)
    requires Admit(rows, budgets, id, r, close, over).Success?
    ensures Admit(rows, budgets, id, r, close, over).value.Keys == rows.Keys + {id}
    ensures Admit(rows, budgets, id, r, close, over).value[id] == r
  {
    var prepared := AdmitIsPrepared(rows, budgets, id, r, close, over);
    if r.primary {
      PreparingOnlyCloses(rows, id, r, close);
    }
  }

  ghost predicate OrdinaryRun(s: Store, budgets: Budgets, ops: seq<Op>) {
    forall i | 0 <= i < |ops| :: Ordinary(Run(s, budgets, ops[..i]), ops[i])
  }

  const EMPTY := Store(map[], 0)

  lemma {:induction false} RunKeepsInv(budgets: Budgets, ops: seq<Op>)
    requires OrdinaryRun(EMPTY, budgets, ops)
    ensures TableInv(Run(EMPTY, budgets, ops).rows) && IdsBelow(Run(EMPTY, budgets, ops))
  {
    if ops != [] {
      var n := |ops| - 1;
      assert forall i | 0 <= i < n :: ops[..n][..i] == ops[..i];
      RunKeepsInv(budgets, ops[..n]);
      ApplyKeepsInv(Run(EMPTY, budgets, ops[..n]), budgets, ops[n]);
    }
  }

  /** In every run of ordinary requests an employee has at most one primary assignment at any instant,
      and no window is empty. */
  lemma RunHasOnePrimary(budgets: Budgets, ops: seq<Op>, e: EmployeeId, t: int, i: RowId)
    requires OrdinaryRun(EMPTY, budgets, ops)
    ensures |PrimariesAt(Run(EMPTY, budgets, ops).rows, e, t)| <= 1
    ensures i in PrimariesAt(Run(EMPTY, budgets, ops).rows, e, t) <==> CurrentPrimary(Run(EMPTY, budgets, ops).rows, e, t) == Some(i)
    ensures NonEmpty(Run(EMPTY, budgets, ops).rows)
  {
    RunKeepsInv(budgets, ops);
    OnePrimaryAtATime(Run(EMPTY, budgets, ops).rows, e, t, i);
  }

  /** A create rewrites no history: before the new start every employee's current primary is the same
      row, in the same position and under the same manager. */
  lemma CreateKeepsPast(rows: Table, budgets: Budgets, id: RowId, r: Row, close: bool, over: bool, e: EmployeeId, t: int)
    requires TableInv(rows) && id !in rows && r.from < FAR_FUTURE && (r.to.Some? ==> r.from < r.to.value)
    requires Admit(rows, budgets, id, r, close, over).Success? && t < r.from
    ensures var after := Admit(rows, budgets, id, r, close, over).value;
            var current := CurrentPrimary(rows, e, t);
            && CurrentPrimary(after, e, t) == current
            && (current.Some? && current.value in rows && current.value in after ==>
                  && after[current.value].position == rows[current.value].position
                  && after[current.value].manager == rows[current.value].manager
                  && after[current.value].from == rows[current.value].from)
  {
    var prepared := AdmitIsPrepared(rows, budgets, id, r, close, over);
    var after := prepared[id := r];
    if r.primary {
      PreparingOnlyCloses(rows, id, r, close);
    }
    AdmitKeepsInv(rows, budgets, id, r, close, over);
    assert PrimariesAt(after, e, t) == PrimariesAt(rows, e, t);
    var ids := PrimariesAt(rows, e, t);
    if ids != {} {
      var i :| i in ids;
      OnePrimaryAtATime(rows, e, t, i);
      OnePrimaryAtATime(after, e, t, i);
    }
  }

  /** Within its window the new primary is the current one. */
  lemma WrittenRowIsCurrent(rows: Table, budgets: Budgets, id: RowId, r: Row, close: bool, over: bool, t: int)
    requires TableInv(rows) && r.from < FAR_FUTURE && (r.to.Some? ==> r.from < r.to.value)
    requires Admit(rows, budgets, id, r, close, over).Success? && r.primary && ActiveAt(r, t)
    ensures CurrentPrimary(Admit(rows, budgets, id, r, close, over).value, r.employee, t) == Some(id)
  {
    AdmitKeepsInv(rows, budgets, id, r, close, over);
    AdmitKeepsKeys(rows, budgets, id, r, close, over);
    OnePrimaryAtATime(Admit(rows, budgets, id, r, close, over).value, r.employee, t, id);
  }
}
