/** Reporting lines over time: when accepted assignments keep them free of cycles at every instant. */
module ReportingLines {
  import opened Wrappers
  import opened ReportingGraph
  import opened Assignments
  import opened AssignmentInvariants

  ghost predicate AlwaysAcyclic(rows: Table) {
    forall t: int :: Acyclic(ManagersAt(rows, t))
  }

  /** With disjoint windows a reporting line at `t` is the manager of the one active row. */
  lemma LineOfActiveRow(rows: Table, e: EmployeeId, t: int, i: RowId)
    requires Disjoint(rows) && i in PrimariesAt(rows, e, t)
    ensures ManagersAt(rows, t)(e) == rows[i].manager
  {
    OnePrimaryAtATime(rows, e, t, i);
  }

  lemma NoLineWithoutRow(rows: Table, e: EmployeeId, t: int)
    requires PrimariesAt(rows, e, t) == {}
    ensures ManagersAt(rows, t)(e).None?
  {}

  /** If each of an employee's active rows in `after` comes from an active row in `rows` with the same
      manager, the employee's line is kept or gone. */
  lemma LineKeptOrGone(rows: Table, after: Table, e: EmployeeId, t: int, s: int)
    requires Disjoint(rows) && Disjoint(after)
    requires forall i | i in PrimariesAt(after, e, t) :: i in PrimariesAt(rows, e, s) && rows[i].manager == after[i].manager
    ensures ManagersAt(after, t)(e).None? || ManagersAt(after, t)(e) == ManagersAt(rows, s)(e)
  {
    if PrimariesAt(after, e, t) == {} {
      NoLineWithoutRow(after, e, t);
    } else {
      var i :| i in PrimariesAt(after, e, t);
      LineOfActiveRow(after, e, t, i);
      LineOfActiveRow(rows, e, s, i);
    }
  }

  // ---------------------------------------------------------------- the table after an accepted write

  lemma OthersKeepPrimaries(rows: Table, budgets: Budgets, id: RowId, r: Row, close: bool, over: bool, t: int, e: EmployeeId)
    requires Written(rows, budgets, id, r, close, over) && e != r.employee
    ensures PrimariesAt(After(rows, budgets, id, r, close, over), e, t) == PrimariesAt(rows, e, t)
    ensures forall i | i in PrimariesAt(rows, e, t) :: After(rows, budgets, id, r, close, over)[i] == rows[i]
  {
    var prepared := AdmitIsPrepared(rows, budgets, id, r, close, over);
    if r.primary {
      PreparingOnlyCloses(rows, id, r, close);
    }
  }

  /** Nothing but the employee's own rows differs. */
  lemma OthersKeepLines(rows: Table, budgets: Budgets, id: RowId, r: Row, close: bool, over: bool, t: int, e: EmployeeId)
    requires Written(rows, budgets, id, r, close, over) && e != r.employee
    ensures ManagersAt(After(rows, budgets, id, r, close, over), t)(e) == ManagersAt(rows, t)(e)
  {
    var after := After(rows, budgets, id, r, close, over);
    WrittenKeepsInv(rows, budgets, id, r, close, over);
    OthersKeepPrimaries(rows, budgets, id, r, close, over, t, e);
    if i :| i in PrimariesAt(rows, e, t) {
      LineOfActiveRow(rows, e, t, i);
      LineOfActiveRow(after, e, t, i);
    } else {
      NoLineWithoutRow(rows, e, t);
      NoLineWithoutRow(after, e, t);
    }
  }

  /** An accepted write of row `id`: new, or an existing row of the same employee. */
  ghost predicate Written(rows: Table, budgets: Budgets, id: RowId, r: Row, close: bool, over: bool) {
    && TableInv(rows) && r.from < FAR_FUTURE && (r.to.Some? ==> r.from < r.to.value)
    && (id in rows ==> rows[id].employee == r.employee)
    && Admit(rows, budgets, id, r, close, over).Success?
  }

  lemma WrittenKeepsInv(rows: Table, budgets: Budgets, id: RowId, r: Row, close: bool, over: bool)
    requires Written(rows, budgets, id, r, close, over)
    ensures TableInv(After(rows, budgets, id, r, close, over))
  {
    AdmitKeepsInv(rows, budgets, id, r, close, over);
  }

  function After(rows: Table, budgets: Budgets, id: RowId, r: Row, close: bool, over: bool): Table
    requires Admit(rows, budgets, id, r, close, over).Success?
  {
    Admit(rows, budgets, id, r, close, over).value
  }

  /** The employee has the new manager while the new row is active ... */
  lemma NewLineWhileActive(rows: Table, budgets: Budgets, id: RowId, r: Row, close: bool, over: bool, t: int)
    requires Written(rows, budgets, id, r, close, over) && r.primary && ActiveAt(r, t)
    ensures ManagersAt(After(rows, budgets, id, r, close, over), t)(r.employee) == r.manager
  {
    WrittenKeepsInv(rows, budgets, id, r, close, over);
    AdmitKeepsKeys(rows, budgets, id, r, close, over);
    LineOfActiveRow(After(rows, budgets, id, r, close, over), r.employee, t, id);
  }

  /** ... and the old one, or none, at every other instant. */
  lemma OldLineOtherwise(rows: Table, budgets: Budgets, id: RowId, r: Row, close: bool, over: bool, t: int)
    requires Written(rows, budgets, id, r, close, over) && !(r.primary && ActiveAt(r, t))
    ensures var line := ManagersAt(After(rows, budgets, id, r, close, over), t)(r.employee);
            line.None? || line == ManagersAt(rows, t)(r.employee)
  {
    var prepared := AdmitIsPrepared(rows, budgets, id, r, close, over);
    if r.primary {
      PreparingOnlyCloses(rows, id, r, close);
    }
    WrittenKeepsInv(rows, budgets, id, r, close, over);
    LineKeptOrGone(rows, After(rows, budgets, id, r, close, over), r.employee, t, t);
  }

  // ---------------------------------------------------------------- inside the new window

  /** Instants inside the window of `r` at which somebody else's primary assignment starts. */
  predicate StartsInside(rows: Table, r: Row, j: RowId) {
    && j in rows && rows[j].primary && rows[j].employee != r.employee
    && r.from < rows[j].from && (r.to.None? || rows[j].from < r.to.value)
  }

  function InnerStarts(rows: Table, r: Row): set<int> {
    set j | j in rows && StartsInside(rows, r, j) :: rows[j].from
  }

  /** Between two such starts nobody else gains a line. */
  lemma OthersOnlyLoseLines(rows: Table, r: Row, s: int, t: int)
    requires TableInv(rows) && ActiveAt(r, t) && r.from <= s <= t
    requires forall x | x in InnerStarts(rows, r) && x <= t :: x <= s
    ensures WithinExcept(ManagersAt(rows, t), ManagersAt(rows, s), r.employee)
  {
    forall e | e != r.employee
      ensures ManagersAt(rows, t)(e).None? || ManagersAt(rows, t)(e) == ManagersAt(rows, s)(e)
    {
      forall i | i in PrimariesAt(rows, e, t)
        ensures i in PrimariesAt(rows, e, s)
      {
        if rows[i].from > r.from {
          assert StartsInside(rows, r, i) && rows[i].from in InnerStarts(rows, r);
        }
      }
      LineKeptOrGone(rows, rows, e, t, s);
    }
  }

  /** The chain above the new manager, followed at each start inside the window, avoids the employee. */
  ghost predicate AvoidedInside(rows: Table, r: Row) {
    r.primary && r.manager.Some? ==>
      forall j | j in rows && StartsInside(rows, r, j) ::
        !Reaches(ManagersAt(rows, rows[j].from), r.manager.value, r.employee)
  }

  lemma NeverReachedInWindow(rows: Table, r: Row, t: int)
    requires TableInv(rows) && r.primary && r.manager.Some? && ActiveAt(r, t) && AvoidedInside(rows, r)
    requires !Reaches(ManagersAt(rows, r.from), r.manager.value, r.employee)
    ensures !Reaches(ManagersAt(rows, t), r.manager.value, r.employee)
  {
    var s := LastInstant(InnerStarts(rows, r), r.from, t);
    OthersOnlyLoseLines(rows, r, s, t);
    if n: nat :| Up(ManagersAt(rows, t), r.manager.value, n) == Some(r.employee) {
      ReachTransfers(ManagersAt(rows, s), ManagersAt(rows, t), r.employee, r.manager.value, n);
      assert false;
    }
  }

  // ---------------------------------------------------------------- main results

  /** At a given instant of the window the new lines are acyclic unless the chain above the manager
      comes back to the employee. */
  lemma AcyclicAtInstant(rows: Table, budgets: Budgets, id: RowId, r: Row, close: bool, over: bool, t: int)
    requires Written(rows, budgets, id, r, close, over) && Acyclic(ManagersAt(rows, t))
    requires r.primary && r.manager.Some? && ActiveAt(r, t) ==> !Reaches(ManagersAt(rows, t), r.manager.value, r.employee)
    ensures Acyclic(ManagersAt(After(rows, budgets, id, r, close, over), t))
  {
    var g, h := ManagersAt(rows, t), ManagersAt(After(rows, budgets, id, r, close, over), t);
    forall x | x != r.employee
      ensures h(x) == g(x)
    {
      OthersKeepLines(rows, budgets, id, r, close, over, t, x);
    }
    if r.primary && ActiveAt(r, t) {
      NewLineWhileActive(rows, budgets, id, r, close, over, t);
      if r.manager.Some? {
        NewLineKeepsAcyclic(g, h, r.employee, r.manager.value);
      } else {
        FewerLinesKeepAcyclic(g, h);
      }
    } else {
      OldLineOtherwise(rows, budgets, id, r, close, over, t);
      FewerLinesKeepAcyclic(g, h);
    }
  }

  lemma WalkAvoids(rows: Table, budgets: Budgets, id: RowId, r: Row, close: bool, over: bool)
    requires Admit(rows, budgets, id, r, close, over).Success? && r.manager.Some?
    ensures !Reaches(ManagersAt(rows, r.from), r.manager.value, r.employee)
  {
    SafeNeverReaches(ManagersAt(rows, r.from), r.employee, r.manager.value);
  }

  /** The chain walk does what it is for at the start of the new assignment. */
  lemma AcyclicAtStart(rows: Table, budgets: Budgets, id: RowId, r: Row, close: bool, over: bool)
    requires Written(rows, budgets, id, r, close, over) && Acyclic(ManagersAt(rows, r.from))
    ensures Acyclic(ManagersAt(After(rows, budgets, id, r, close, over), r.from))
  {
    if r.manager.Some? {
      WalkAvoids(rows, budgets, id, r, close, over);
    }
    AcyclicAtInstant(rows, budgets, id, r, close, over, r.from);
  }

  lemma CycleInside(rows: Table, budgets: Budgets, id: RowId, r: Row, close: bool, over: bool, j: RowId)
    requires Written(rows, budgets, id, r, close, over) && r.primary && r.manager.Some?
    requires StartsInside(rows, r, j) && Reaches(ManagersAt(rows, rows[j].from), r.manager.value, r.employee)
    ensures !Acyclic(ManagersAt(After(rows, budgets, id, r, close, over), rows[j].from))
  {
    var t := rows[j].from;
    var g, h := ManagersAt(rows, t), ManagersAt(After(rows, budgets, id, r, close, over), t);
    forall x | x != r.employee
      ensures h(x) == g(x)
    {
      OthersKeepLines(rows, budgets, id, r, close, over, t, x);
    }
    NewLineWhileActive(rows, budgets, id, r, close, over, t);
    NewLineClosesCycle(g, h, r.employee, r.manager.value);
  }

  /** An accepted create or update keeps the lines acyclic at every instant if and only if the same
      chain, followed at each instant inside the new window at which somebody else's primary assignment
      starts, avoids the employee. The code follows it at the start of the window only. */
  lemma AcyclicExactly(rows: Table, budgets: Budgets, id: RowId, r: Row, close: bool, over: bool)
    requires Written(rows, budgets, id, r, close, over) && AlwaysAcyclic(rows)
    ensures AlwaysAcyclic(After(rows, budgets, id, r, close, over)) <==> AvoidedInside(rows, r)
  {
    if AvoidedInside(rows, r) {
      forall t: int
        ensures Acyclic(ManagersAt(After(rows, budgets, id, r, close, over), t))
      {
        if r.primary && r.manager.Some? && ActiveAt(r, t) {
          WalkAvoids(rows, budgets, id, r, close, over);
          NeverReachedInWindow(rows, r, t);
        }
        AcyclicAtInstant(rows, budgets, id, r, close, over, t);
      }
    } else {
      var j :| j in rows && StartsInside(rows, r, j) && Reaches(ManagersAt(rows, rows[j].from), r.manager.value, r.employee);
      CycleInside(rows, budgets, id, r, close, over, j);
    }
  }

  /** In particular when nobody else's primary assignment starts strictly inside the window. */
  lemma AcyclicWithoutInnerStarts(rows: Table, budgets: Budgets, id: RowId, r: Row, close: bool, over: bool)
    requires Written(rows, budgets, id, r, close, over) && AlwaysAcyclic(rows)
    requires forall j | j in rows :: !StartsInside(rows, r, j)
    ensures AlwaysAcyclic(After(rows, budgets, id, r, close, over))
  {
    AcyclicExactly(rows, budgets, id, r, close, over);
  }

  /** Two employees are enough: 1 will report to 0 from instant 10 on, and 0 is now made to report to 1.
      The walk at instant 0 sees no line above 1. */
  lemma AcceptedCycle() returns (rows: Table, r: Row)
    ensures TableInv(rows) && AlwaysAcyclic(rows)
    ensures Written(rows, map[], 1, r, true, false)
    ensures !AlwaysAcyclic(After(rows, map[], 1, r, true, false))
  {
    rows := map[0 := Row(1, PrimaryType, None, Some(0), 10, None, true)];
    r := Row(0, PrimaryType, None, Some(1), 0, None, true);
    forall t: int
      ensures Acyclic(ManagersAt(rows, t))
    {
      OneLineIsAcyclic(rows, t);
    }
    assert PrimariesAt(rows, 1, 0) == {};
    NoLineWithoutRow(rows, 1, 0);
    assert Overlaps(rows, 1, r) == {};
    assert Admit(rows, map[], 1, r, true, false) == Success(rows[1 := r]);
    AdmitKeepsInv(rows, map[], 1, r, true, false);
    assert 0 in PrimariesAt(rows, 1, 10);
    LineOfActiveRow(rows, 1, 10, 0);
    assert Up(ManagersAt(rows, 10), 1, 1) == Some(0) by {
      assert Up(ManagersAt(rows, 10), 1, 0) == Some(1);
    }
    assert StartsInside(rows, r, 0);
    CycleInside(rows, map[], 1, r, true, false, 0);
  }

  lemma OneLineIsAcyclic(rows: Table, t: int)
    requires rows == map[0 := Row(1, PrimaryType, None, Some(0), 10, None, true)]
    ensures Acyclic(ManagersAt(rows, t))
  {
    var g := ManagersAt(rows, t);
    forall e: EmployeeId | e != 1
      ensures g(e).None?
    {
      assert PrimariesAt(rows, e, t) == {};
      NoLineWithoutRow(rows, e, t);
    }
    OneLineGraphIsAcyclic(g, 1, 0);
  }

  lemma OneLineGraphIsAcyclic(g: Graph, below: EmployeeId, above: EmployeeId)
    requires below != above && (g(below).None? || g(below) == Some(above)) && forall e | e != below :: g(e).None?
    ensures Acyclic(g)
  {
    forall e: EmployeeId, n: nat | n > 0
      ensures Up(g, e, n) != Some(e)
    {
      FewSteps(g, below, above, e, n);
    }
  }

  lemma {:induction false} FewSteps(g: Graph, below: EmployeeId, above: EmployeeId, e: EmployeeId, n: nat)
    requires n > 0 && below != above
    requires (g(below).None? || g(below) == Some(above)) && forall x | x != below :: g(x).None?
    ensures Up(g, e, n).None? || (e == below && Up(g, e, n) == Some(above))
    decreases n
  {
    if n > 1 {
      FewSteps(g, below, above, e, n - 1);
    } else {
      assert Up(g, e, 0) == Some(e);
    }
  }

  // ---------------------------------------------------------------- ending later

  /** Shortening a row, or removing it, never closes a cycle. */
  lemma FewerRowsKeepAcyclic(rows: Table, after: Table)
    requires Disjoint(rows) && Disjoint(after) && AlwaysAcyclic(rows) && after.Keys <= rows.Keys
    requires forall i | i in after ::
               after[i] == rows[i] || (exists to :: after[i] == EndedRow(rows[i], to) && NonExtending(rows[i], to))
    ensures AlwaysAcyclic(after)
  {
    forall t: int
      ensures Acyclic(ManagersAt(after, t))
    {
      forall e: EmployeeId
        ensures ManagersAt(after, t)(e).None? || ManagersAt(after, t)(e) == ManagersAt(rows, t)(e)
      {
        LineKeptOrGone(rows, after, e, t, t);
      }
      FewerLinesKeepAcyclic(ManagersAt(rows, t), ManagersAt(after, t));
    }
  }

  lemma LineOfLatest(rows: Table, e: EmployeeId, t: int, i: RowId)
    requires IsLatest(rows, PrimariesAt(rows, e, t), i)
    ensures ManagersAt(rows, t)(e) == rows[i].manager
  {}

  lemma PrimariesWithLonger(rows: Table, id: RowId, to: int, t: int, e: EmployeeId)
    requires id in rows && rows[id].to.Some? && rows[id].from < rows[id].to.value < to
    ensures PrimariesAt(rows[id := EndedRow(rows[id], to)], e, t)
         == PrimariesAt(rows, e, t) + (if rows[id].primary && e == rows[id].employee && rows[id].to.value <= t < to then {id} else {})
  {}

  /** Another primary of the employee that is active in the added time has started later. */
  lemma OtherPrimaryStaysLatest(rows: Table, id: RowId, to: int, t: int, e: EmployeeId, i: RowId)
    requires TableInv(rows) && id in rows && rows[id].to.Some? && rows[id].to.value < to && i in PrimariesAt(rows, e, t)
    ensures var after := rows[id := EndedRow(rows[id], to)]; IsLatest(after, PrimariesAt(after, e, t), i)
  {
    PrimariesWithLonger(rows, id, to, t, e);
    OnePrimaryAtATime(rows, e, t, i);
    var after := rows[id := EndedRow(rows[id], to)];
    forall k | k in PrimariesAt(after, e, t) && k != i
      ensures after[k].from < after[i].from
    {
      assert CurrentPrimary(rows, e, t) == Some(i);
      OnePrimaryAtATime(rows, e, t, k);
      assert k == id && !Meet(rows[i], rows[id]);
    }
  }

  /** A row that ends later gives its employee the old manager back at the added instants, except where
      another primary of theirs is current. Nobody else's line changes. */
  lemma LineUnderLonger(rows: Table, id: RowId, to: int, t: int, e: EmployeeId)
    requires TableInv(rows) && id in rows && rows[id].to.Some? && rows[id].to.value < to
    ensures var r, after := rows[id], rows[id := EndedRow(rows[id], to)];
            ManagersAt(after, t)(e)
            == if r.primary && e == r.employee && r.to.value <= t < to && PrimariesAt(rows, e, t) == {}
               then r.manager else ManagersAt(rows, t)(e)
  {
    var after := rows[id := EndedRow(rows[id], to)];
    if i :| i in PrimariesAt(rows, e, t) {
      LineOfActiveRow(rows, e, t, i);
      OtherPrimaryStaysLatest(rows, id, to, t, e, i);
      LineOfLatest(after, e, t, i);
    } else {
      PrimariesWithLonger(rows, id, to, t, e);
      NoLineWithoutRow(rows, e, t);
      if PrimariesAt(after, e, t) == {} {
        NoLineWithoutRow(after, e, t);
      } else {
        LineOfLatest(after, e, t, id);
      }
    }
  }

  /** Inside the added time: another one of the employee's own primaries ends, or somebody else's starts. */
  predicate Turns(rows: Table, id: RowId, to: int, j: RowId, s: int)
    requires id in rows && rows[id].to.Some?
  {
    && j in rows && j != id && rows[j].primary && rows[id].to.value < s < to
    && (if rows[j].employee == rows[id].employee then rows[j].to == Some(s) else rows[j].from == s)
  }

  function TurnOf(rows: Table, id: RowId, j: RowId): int
    requires id in rows && j in rows
  {
    if rows[j].employee == rows[id].employee then rows[j].to.GetOr(rows[j].from) else rows[j].from
  }

  function TurningPoints(rows: Table, id: RowId, to: int): set<int>
    requires id in rows && rows[id].to.Some?
  {
    set j | j in rows && Turns(rows, id, to, j, TurnOf(rows, id, j)) :: TurnOf(rows, id, j)
  }

  /** The old manager's chain avoids the employee at instant `s`, or the old manager is not theirs then. */
  ghost predicate ClearAt(rows: Table, id: RowId, s: int)
    requires id in rows && rows[id].manager.Some?
  {
    PrimariesAt(rows, rows[id].employee, s) == {} ==> !Reaches(ManagersAt(rows, s), rows[id].manager.value, rows[id].employee)
  }

  /** Clear at the old end and at every turning point after it. */
  ghost predicate EndClear(rows: Table, id: RowId, to: int)
    requires id in rows
  {
    var r := rows[id];
    r.primary && r.manager.Some? && !NonExtending(r, to) ==>
      ClearAt(rows, id, r.to.value) && forall s | s in TurningPoints(rows, id, to) :: ClearAt(rows, id, s)
  }

  lemma PointsInside(rows: Table, id: RowId, to: int, s: int)
    requires id in rows && rows[id].to.Some? && s in TurningPoints(rows, id, to)
    ensures rows[id].to.value < s < to
  {}

  lemma OwnEndIsPoint(rows: Table, id: RowId, to: int, s: int, t: int, j: RowId)
    requires id in rows && rows[id].to.Some? && rows[id].to.value <= s <= t < to
    requires j in PrimariesAt(rows, rows[id].employee, s) && j !in PrimariesAt(rows, rows[id].employee, t)
    ensures TurnOf(rows, id, j) in TurningPoints(rows, id, to) && s < TurnOf(rows, id, j) <= t
  {
    assert Turns(rows, id, to, j, TurnOf(rows, id, j));
  }

  lemma OtherStartIsPoint(rows: Table, id: RowId, to: int, s: int, j: RowId)
    requires id in rows && rows[id].to.Some? && rows[id].to.value <= s
    requires j in rows && rows[j].primary && rows[j].employee != rows[id].employee && s < rows[j].from < to
    ensures rows[j].from in TurningPoints(rows, id, to)
  {
    assert Turns(rows, id, to, j, TurnOf(rows, id, j));
  }

  /** From the last turning point on nobody gains a line, and the employee's own state is the same. */
  lemma LinesSinceTurn(rows: Table, id: RowId, to: int, s: int, t: int)
    requires TableInv(rows) && id in rows && rows[id].to.Some? && rows[id].to.value <= s <= t < to
    requires forall x | x in TurningPoints(rows, id, to) && x <= t :: x <= s
    requires PrimariesAt(rows, rows[id].employee, t) == {}
    ensures PrimariesAt(rows, rows[id].employee, s) == {}
    ensures WithinExcept(ManagersAt(rows, t), ManagersAt(rows, s), rows[id].employee)
  {
    var e := rows[id].employee;
    if j :| j in PrimariesAt(rows, e, s) {
      OwnEndIsPoint(rows, id, to, s, t, j);
      assert false;
    }
    forall x | x != e
      ensures ManagersAt(rows, t)(x).None? || ManagersAt(rows, t)(x) == ManagersAt(rows, s)(x)
    {
      forall i | i in PrimariesAt(rows, x, t)
        ensures i in PrimariesAt(rows, x, s)
      {
        if rows[i].from > s {
          OtherStartIsPoint(rows, id, to, s, i);
          assert false;
        }
      }
      LineKeptOrGone(rows, rows, x, t, s);
    }
  }

  lemma ClearUntil(rows: Table, id: RowId, to: int, t: int)
    requires TableInv(rows) && id in rows && rows[id].primary && rows[id].manager.Some? && EndClear(rows, id, to)
    requires !NonExtending(rows[id], to) && rows[id].to.value <= t < to
    ensures ClearAt(rows, id, t)
  {
    var r := rows[id];
    if PrimariesAt(rows, r.employee, t) == {} {
      var s := LastInstant(TurningPoints(rows, id, to), r.to.value, t);
      LinesSinceTurn(rows, id, to, s, t);
      if n: nat :| Up(ManagersAt(rows, t), r.manager.value, n) == Some(r.employee) {
        ReachTransfers(ManagersAt(rows, s), ManagersAt(rows, t), r.employee, r.manager.value, n);
        assert false;
      }
    }
  }

  /** At an instant of the added time the lines are acyclic exactly when it is clear. */
  lemma LongerAcyclicAt(rows: Table, id: RowId, to: int, t: int)
    requires TableInv(rows) && id in rows && rows[id].primary && rows[id].manager.Some? && Acyclic(ManagersAt(rows, t))
    requires !NonExtending(rows[id], to) && rows[id].to.value <= t < to
    ensures Acyclic(ManagersAt(rows[id := EndedRow(rows[id], to)], t)) <==> ClearAt(rows, id, t)
  {
    var r := rows[id];
    var g, h := ManagersAt(rows, t), ManagersAt(rows[id := EndedRow(r, to)], t);
    forall e: EmployeeId
      ensures h(e) == if e == r.employee && PrimariesAt(rows, e, t) == {} then r.manager else g(e)
    {
      LineUnderLonger(rows, id, to, t, e);
    }
    if PrimariesAt(rows, r.employee, t) != {} {
      FewerLinesKeepAcyclic(g, h);
    } else if Reaches(g, r.manager.value, r.employee) {
      NewLineClosesCycle(g, h, r.employee, r.manager.value);
    } else {
      NewLineKeepsAcyclic(g, h, r.employee, r.manager.value);
    }
  }

  lemma LongerAcyclicElsewhere(rows: Table, id: RowId, to: int, t: int)
    requires TableInv(rows) && id in rows && Acyclic(ManagersAt(rows, t)) && !NonExtending(rows[id], to)
    requires !(rows[id].primary && rows[id].manager.Some? && rows[id].to.value <= t < to)
    ensures Acyclic(ManagersAt(rows[id := EndedRow(rows[id], to)], t))
  {
    var g, h := ManagersAt(rows, t), ManagersAt(rows[id := EndedRow(rows[id], to)], t);
    forall e: EmployeeId
      ensures h(e).None? || h(e) == g(e)
    {
      LineUnderLonger(rows, id, to, t, e);
    }
    FewerLinesKeepAcyclic(g, h);
  }

  /** An accepted end keeps the lines acyclic at every instant if and only if it is clear; an end that does
      not move later always is. */
  lemma EndKeepsAcyclicExactly(rows: Table, id: RowId, to: int)
    requires TableInv(rows) && AlwaysAcyclic(rows) && id in rows && rows[id].from < to
    ensures AlwaysAcyclic(rows[id := EndedRow(rows[id], to)]) <==> EndClear(rows, id, to)
  {
    var r, after := rows[id], rows[id := EndedRow(rows[id], to)];
    if NonExtending(r, to) {
      NonExtendingEndFits(rows, id, to);
      FittingEndKeepsInv(rows, id, to);
      FewerRowsKeepAcyclic(rows, after);
    } else if EndClear(rows, id, to) {
      forall t: int
        ensures Acyclic(ManagersAt(after, t))
      {
        if r.primary && r.manager.Some? && r.to.value <= t < to {
          ClearUntil(rows, id, to, t);
          LongerAcyclicAt(rows, id, to, t);
        } else {
          LongerAcyclicElsewhere(rows, id, to, t);
        }
      }
    } else {
      var s :| (s == r.to.value || s in TurningPoints(rows, id, to)) && !ClearAt(rows, id, s);
      if s != r.to.value {
        PointsInside(rows, id, to, s);
      }
      LongerAcyclicAt(rows, id, to, s);
    }
  }

  /** Two employees again: 0 reports to 1 until instant 10, and 1 to 0 from then on. Ending the first
      assignment at 20 instead is accepted, and they report to each other. */
  lemma ExtendingEndClosesCycle() returns (s: Store, op: Op)
    ensures TableInv(s.rows) && AlwaysAcyclic(s.rows) && op.End?
    ensures Attempt(s, map[], op).Success?
    ensures TableInv(Attempt(s, map[], op).value.rows) && !AlwaysAcyclic(Attempt(s, map[], op).value.rows)
  {
    var rows: Table := map[0 := Row(0, PrimaryType, None, Some(1), 0, Some(10), true),
                           1 := Row(1, PrimaryType, None, Some(0), 10, None, true)];
    s, op := Store(rows, 2), End(0, Some(20), 5);
    forall t: int
      ensures Acyclic(ManagersAt(rows, t))
    {
      TakingTurnsIsAcyclic(rows, t);
    }
    assert Attempt(s, map[], op).value.rows == rows[0 := EndedRow(rows[0], 20)];
    FittingEndKeepsInv(rows, 0, 20);
    assert 1 in PrimariesAt(rows, 1, 10) && PrimariesAt(rows, 0, 10) == {};
    LineOfActiveRow(rows, 1, 10, 1);
    assert Up(ManagersAt(rows, 10), 1, 1) == Some(0) by {
      assert Up(ManagersAt(rows, 10), 1, 0) == Some(1);
    }
    assert !ClearAt(rows, 0, 10);
    EndKeepsAcyclicExactly(rows, 0, 20);
  }

  lemma TakingTurnsIsAcyclic(rows: Table, t: int)
    requires rows == map[0 := Row(0, PrimaryType, None, Some(1), 0, Some(10), true),
                         1 := Row(1, PrimaryType, None, Some(0), 10, None, true)]
    ensures Acyclic(ManagersAt(rows, t))
  {
    var g := ManagersAt(rows, t);
    var quiet, busy := if t < 10 then 1 else 0, if t < 10 then 0 else 1;
    forall e: EmployeeId | e != busy
      ensures g(e).None?
    {
      assert PrimariesAt(rows, e, t) == {};
      NoLineWithoutRow(rows, e, t);
    }
    if PrimariesAt(rows, busy, t) == {} {
      NoLineWithoutRow(rows, busy, t);
    } else {
      assert busy in PrimariesAt(rows, busy, t);
      LineOfActiveRow(rows, busy, t, busy);
    }
    OneLineGraphIsAcyclic(g, busy, quiet);
  }

  // ---------------------------------------------------------------- runs

  /** What a caller would have to check besides the code. */
  ghost predicate ChainClear(s: Store, op: Op) {
    && ((op.Create? || (op.Update? && op.id in s.rows)) && Requested(s, op).Success? ==> AvoidedInside(s.rows, Requested(s, op).value))
    && (op.End? && op.id in s.rows ==> EndClear(s.rows, op.id, op.to.GetOr(op.now)))
  }

  lemma ApplyKeepsAcyclic(s: Store, budgets: Budgets, op: Op)
    requires TableInv(s.rows) && IdsBelow(s) && Ordinary(s, op) && ChainClear(s, op) && AlwaysAcyclic(s.rows)
    ensures AlwaysAcyclic(Apply(s, budgets, op).rows)
  {
    ApplyKeepsInv(s, budgets, op);
    if Attempt(s, budgets, op).Success? {
      match op {
        case Create(dto) =>
          ResolvedWindow(dto, None);
          AcyclicExactly(s.rows, budgets, s.next, Requested(s, op).value, dto.close.GetOr(true), dto.allowOverBudget);
        case Update(id, dto) =>
          ResolvedWindow(dto, Some(s.rows[id]));
          AcyclicExactly(s.rows, budgets, id, Requested(s, op).value, dto.close.GetOr(false), dto.allowOverBudget);
        case End(id, to, now) =>
          EndKeepsAcyclicExactly(s.rows, id, to.GetOr(now));
        case Delete(_, _) =>
          FewerRowsKeepAcyclic(s.rows, Apply(s, budgets, op).rows);
      }
    }
  }

  ghost predicate ClearRun(s: Store, budgets: Budgets, ops: seq<Op>) {
    forall i | 0 <= i < |ops| :: ChainClear(Run(s, budgets, ops[..i]), ops[i])
  }

  /** In every run whose writes pass that check, nobody is ever their own manager, at any instant; and
      then no walk of the code ever meets an existing cycle. */
  lemma {:induction false} RunStaysAcyclic(budgets: Budgets, ops: seq<Op>)
    requires OrdinaryRun(EMPTY, budgets, ops) && ClearRun(EMPTY, budgets, ops)
    ensures AlwaysAcyclic(Run(EMPTY, budgets, ops).rows)
  {
    if ops == [] {
      forall t: int
        ensures Acyclic(ManagersAt(map[], t))
      {
        forall e: EmployeeId, n: nat | n > 0
          ensures Up(ManagersAt(map[], t), e, n) != Some(e)
        {
          NobodyAbove(ManagersAt(map[], t), e, n);
        }
      }
    } else {
      var n := |ops| - 1;
      assert forall i | 0 <= i < n :: ops[..n][..i] == ops[..i];
      RunStaysAcyclic(budgets, ops[..n]);
      RunKeepsInv(budgets, ops[..n]);
      ApplyKeepsAcyclic(Run(EMPTY, budgets, ops[..n]), budgets, ops[n]);
    }
  }

  lemma {:induction false} NobodyAbove(g: Graph, e: EmployeeId, n: nat)
    requires n > 0 && forall x :: g(x).None?
    ensures Up(g, e, n).None?
    decreases n
  {
    if n > 1 {
      NobodyAbove(g, e, n - 1);
    }
  }

  lemma RunMeetsNoExistingCycle(budgets: Budgets, ops: seq<Op>, e: EmployeeId, m: EmployeeId, t: int)
    requires OrdinaryRun(EMPTY, budgets, ops) && ClearRun(EMPTY, budgets, ops)
    ensures WalkFrom(ManagersAt(Run(EMPTY, budgets, ops).rows, t), e, Some(m)) != ExistingCycle
  {
    RunStaysAcyclic(budgets, ops);
    ExistingCycleUnreachable(ManagersAt(Run(EMPTY, budgets, ops).rows, t), e, m);
  }
}
