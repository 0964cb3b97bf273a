/** What each request does to the assignment table, in terms of the fields it sets and leaves out. */
module AssignmentRequests {
  import opened Wrappers
  import opened ReportingGraph
  import opened Assignments
  import opened AssignmentInvariants

  // ---------------------------------------------------------------- what is written

  /** An update stores every field it sets as requested, and every field it leaves out as it was. */
  lemma UpdateWrites(s: Store, budgets: Budgets, id: RowId, dto: Dto)
    requires Attempt(s, budgets, Update(id, dto)).Success?
    ensures id in s.rows && id in Attempt(s, budgets, Update(id, dto)).value.rows && Attempt(s, budgets, Update(id, dto)).value.next == s.next
    ensures var was, r := s.rows[id], Attempt(s, budgets, Update(id, dto)).value.rows[id];
            && r.employee == was.employee && (dto.employee.Some? ==> dto.employee == Some(was.employee))
            && (dto.position.Some? ==> r.position == dto.position) && (dto.position.None? ==> r.position == was.position)
            && (dto.manager.Some? ==> r.manager == dto.manager) && (dto.manager.None? ==> r.manager == was.manager)
            && (dto.from.Some? ==> dto.from == Some(r.from)) && (dto.from.None? ==> r.from == was.from)
            && (dto.to.Set? ==> r.to == Some(dto.to.value)) && (dto.to.Clear? ==> r.to == None) && (dto.to.Keep? ==> r.to == was.to)
            && (dto.kind.Some? ==> dto.kind == Some(r.kind)) && (dto.kind.None? ==> r.kind == was.kind)
            && (dto.isPrimary.Some? ==> dto.isPrimary == Some(r.primary)) && (dto.isPrimary.None? ==> r.primary == was.primary)
  {
    AdmitKeepsKeys(s.rows, budgets, id, ResolveFields(dto, Some(s.rows[id])).value, dto.close.GetOr(false), dto.allowOverBudget);
  }

  /** A create stores what it is given under the next id. Without a type the assignment is a primary one,
      and without the primary flag the type decides. */
  lemma CreateWrites(s: Store, budgets: Budgets, dto: Dto)
    requires Attempt(s, budgets, Create(dto)).Success?
    ensures Attempt(s, budgets, Create(dto)).value.next == s.next + 1
    ensures Attempt(s, budgets, Create(dto)).value.rows.Keys == s.rows.Keys + {s.next}
    ensures var r := Attempt(s, budgets, Create(dto)).value.rows[s.next];
            && dto.employee == Some(r.employee) && dto.from == Some(r.from)
            && r.position == dto.position && r.manager == dto.manager
            && (dto.to.Set? ==> r.to == Some(dto.to.value)) && (!dto.to.Set? ==> r.to == None)
            && (dto.kind.Some? ==> dto.kind == Some(r.kind)) && (dto.kind.None? ==> r.kind == PrimaryType)
            && (dto.isPrimary.Some? ==> dto.isPrimary == Some(r.primary))
            && (dto.isPrimary.None? ==> (r.primary <==> r.kind == PrimaryType))
  {
    AdmitKeepsKeys(s.rows, budgets, s.next, ResolveFields(dto, None).value, dto.close.GetOr(true), dto.allowOverBudget);
  }

  // ---------------------------------------------------------------- what is accepted

  /** The fields of a create are accepted exactly when employee and start are given, the window is not
      empty, the references are valid and nobody is made their own manager. */
  lemma CreateFieldsExactly(dto: Dto)
    ensures ResolveFields(dto, None).Success? <==>
              && dto.employee.Some? && dto.from.Some? && dto.referencesValid
              && (dto.to.Set? ==> dto.from.value < dto.to.value)
              && (dto.manager.Some? ==> dto.manager.value != dto.employee.value)
  {}

  /** Those of an update, when the same holds of the given fields together with the stored ones. */
  lemma UpdateFieldsExactly(dto: Dto, was: Row)
    ensures ResolveFields(dto, Some(was)).Success? <==>
              && dto.referencesValid
              && (dto.manager.Some? ==> dto.manager.value != was.employee)
              && (dto.manager.None? ==> was.manager != Some(was.employee))
              && (dto.to.Set? ==> (if dto.from.Some? then dto.from.value else was.from) < dto.to.value)
              && (dto.to.Keep? && was.to.Some? ==> (if dto.from.Some? then dto.from.value else was.from) < was.to.value)
  {}

  /** Another primary row of the employee that shares time with the new window, as far as the far-future
      constant lets the query see. */
  predicate Blocks(rows: Table, id: RowId, r: Row, i: RowId) {
    && i in rows && i != id && rows[i].primary && rows[i].employee == r.employee
    && (if r.to.Some? then rows[i].from < r.to.value else rows[i].from < 253_402_300_799_999)
    && (rows[i].to.Some? ==> r.from < rows[i].to.value)
  }

  lemma OverlapsAreBlocking(rows: Table, id: RowId, r: Row, i: RowId)
    ensures i in Overlaps(rows, id, r) <==> Blocks(rows, id, r, i)
  {}

  /** The window of a primary is made exactly when nothing blocks it, or everything that does may be closed
      because it started earlier. */
  lemma WindowExactly(rows: Table, id: RowId, r: Row, close: bool)
    ensures PreparePrimary(rows, id, r, close).Success? <==>
              forall i | i in rows && Blocks(rows, id, r, i) :: close && rows[i].from < r.from
  {
    forall i
      ensures i in Overlaps(rows, id, r) <==> Blocks(rows, id, r, i)
    {
      OverlapsAreBlocking(rows, id, r, i);
    }
  }

  /** And if it is not, the error tells the two cases apart. */
  lemma WindowErrors(rows: Table, id: RowId, r: Row, close: bool)
    ensures PreparePrimary(rows, id, r, close) == Failure(PrimaryOverlap) <==>
              !close && exists i :: i in rows && Blocks(rows, id, r, i)
    ensures PreparePrimary(rows, id, r, close) == Failure(FuturePrimaryOverlap) <==>
              close && exists i :: i in rows && Blocks(rows, id, r, i) && rows[i].from >= r.from
  {
    forall i
      ensures i in Overlaps(rows, id, r) <==> Blocks(rows, id, r, i)
    {
      OverlapsAreBlocking(rows, id, r, i);
    }
  }

  /** The holders of a position that the new window overlaps. */
  function Crowd(rows: Table, id: RowId, r: Row): set<RowId> {
    set i | i in rows && i != id && rows[i].primary && rows[i].position == r.position
            && (if r.to.Some? then rows[i].from < r.to.value else rows[i].from < 253_402_300_799_999)
            && (rows[i].to.Some? ==> r.from < rows[i].to.value)
  }

  /** A write is accepted exactly when the chain above the manager ends within fifty steps and avoids the
      employee, nothing blocks a primary's window for good, and the position has fewer holders than its
      budget or the budget is overridden. */
  lemma AdmitsExactly(rows: Table, budgets: Budgets, id: RowId, r: Row, close: bool, over: bool)
    ensures Admit(rows, budgets, id, r, close, over).Success? <==>
              && (r.manager.Some? ==>
                    exists n | 0 <= n <= 50 :: ChainEnds(ManagersAt(rows, r.from), r.employee, r.manager.value, n))
              && (r.primary ==> forall i | i in rows && Blocks(rows, id, r, i) :: close && rows[i].from < r.from)
              && (r.primary && r.position.Some? && !over ==>
                    && PreparePrimary(rows, id, r, close).Success?
                    && r.position.value in budgets
                    && |Crowd(PreparePrimary(rows, id, r, close).value, id, r)| < budgets[r.position.value])
  {
    if r.manager.Some? {
      WalkAcceptsExactly(ManagersAt(rows, r.from), r.employee, r.manager.value);
    }
    WindowExactly(rows, id, r, close);
    if r.primary && PreparePrimary(rows, id, r, close).Success? {
      var prepared := PreparePrimary(rows, id, r, close).value;
      assert Crowd(prepared, id, r) == Counted(prepared, id, r);
    }
  }

  // ---------------------------------------------------------------- defaults, ends and deletes

  /** Unless told otherwise a create closes what is in its way, so it never fails for an overlap that could
      be closed, and an update closes nothing, so it changes its own row only. */
  lemma ClosingDefaults(s: Store, budgets: Budgets, id: RowId, dto: Dto)
    requires dto.close.None?
    ensures Attempt(s, budgets, Create(dto)) != Failure(PrimaryOverlap)
    ensures Attempt(s, budgets, Update(id, dto)).Success? ==>
              var rows := Attempt(s, budgets, Update(id, dto)).value.rows;
              rows.Keys == s.rows.Keys && forall i | i in s.rows && i != id :: rows[i] == s.rows[i]
  {
    if Attempt(s, budgets, Update(id, dto)).Success? {
      var r := ResolveFields(dto, Some(s.rows[id])).value;
      var prepared := AdmitIsPrepared(s.rows, budgets, id, r, false, dto.allowOverBudget);
      assert prepared == s.rows;
    }
  }

  /** A running assignment can be ended at any time after its start; nothing else changes. */
  lemma EndsExactly(s: Store, budgets: Budgets, id: RowId, to: Option<int>, now: int)
    ensures var end := if to.Some? then to.value else now;
            && (Attempt(s, budgets, End(id, to, now)).Success? <==>
                  && id in s.rows && (s.rows[id].to.Some? ==> now < s.rows[id].to.value) && s.rows[id].from < end)
            && (Attempt(s, budgets, End(id, to, now)).Success? ==>
                  Attempt(s, budgets, End(id, to, now)).value == s.(rows := s.rows[id := s.rows[id].(to := Some(end))]))
  {}

  /** Only an assignment that has not started can be deleted, and then it alone goes. */
  lemma DeletesExactly(s: Store, budgets: Budgets, id: RowId, now: int)
    ensures Attempt(s, budgets, Delete(id, now)).Success? <==> id in s.rows && now < s.rows[id].from
    ensures Attempt(s, budgets, Delete(id, now)).Success? ==>
              var rows := Attempt(s, budgets, Delete(id, now)).value.rows;
              rows.Keys == s.rows.Keys - {id} && forall i | i in rows :: rows[i] == s.rows[i]
  {}
}
