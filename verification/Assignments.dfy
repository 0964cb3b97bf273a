/** Effective-dated employee assignments: the table, its queries and the four write operations. */
module Assignments {
  import opened Wrappers
  import opened ReportingGraph

  type RowId = nat
  type PositionId = nat

  datatype AssignmentType = PrimaryType | OtherType

  /** The window is half-open; no end means it is still running. */
  datatype Row = Row(
    employee: EmployeeId, kind: AssignmentType, position: Option<PositionId>, manager: Option<EmployeeId>,
    from: int, to: Option<int>, primary: bool)

  /** Ids are handed out in ascending order, so they also order rows by creation. */
  type Table = map<RowId, Row>

  type Budgets = map<PositionId, nat>

  /** 9999-12-31T23:59:59.999Z */
  const FAR_FUTURE := 253_402_300_799_999

  datatype AssignmentError =
    | NotFound | EmployeeRequired | EmployeeMoved | FromRequired | EmptyWindow | InvalidReference
    | Chain(outcome: ChainOutcome) | PrimaryOverlap | FuturePrimaryOverlap | InvalidPosition | OverBudget
    | AlreadyEnded | EndBeforeStart | NotFuture

  // ---------------------------------------------------------------- queries

  predicate ActiveAt(r: Row, t: int) { r.from <= t && (r.to.None? || r.to.value > t) }

  predicate OverlapsWindow(r: Row, from: int, to: Option<int>) {
    r.from < to.GetOr(FAR_FUTURE) && (r.to.None? || r.to.value > from)
  }

  function PrimariesAt(rows: Table, e: EmployeeId, t: int): set<RowId> {
    set i | i in rows && rows[i].employee == e && rows[i].primary && ActiveAt(rows[i], t)
  }

  /** The order of the query: latest start first, then latest creation. */
  predicate IsLatest(rows: Table, ids: set<RowId>, id: RowId)
    requires ids <= rows.Keys
  {
    id in ids && forall i | i in ids :: rows[i].from < rows[id].from || (rows[i].from == rows[id].from && i <= id)
  }

  lemma {:induction false} LatestExists(rows: Table, ids: set<RowId>)
    requires ids != {} && ids <= rows.Keys
    ensures exists id :: IsLatest(rows, ids, id)
    decreases |ids|
  {
    var x :| x in ids;
    if ids == {x} {
      assert IsLatest(rows, ids, x);
    } else {
      LatestExists(rows, ids - {x});
      var y :| IsLatest(rows, ids - {x}, y);
      var better := rows[x].from > rows[y].from || (rows[x].from == rows[y].from && x > y);
      assert IsLatest(rows, ids, if better then x else y);
    }
  }

  function CurrentPrimary(rows: Table, e: EmployeeId, t: int): Option<RowId> {
    var ids := PrimariesAt(rows, e, t);
    if ids == {} then None
    else
      LatestExists(rows, ids);
      var id :| id in ids && IsLatest(rows, ids, id);
      Some(id)
  }

  /** The reporting lines in force at an instant. */
  function ManagerOf(rows: Table, t: int, e: EmployeeId): Option<EmployeeId> {
    var id := CurrentPrimary(rows, e, t);
    if id.Some? && id.value in rows then rows[id.value].manager else None
  }

  function ManagersAt(rows: Table, t: int): Graph { (e: EmployeeId) => ManagerOf(rows, t, e) }

  // ---------------------------------------------------------------- admitting a row

  /** Other primary rows of the employee that the overlap query finds. */
  function Overlaps(rows: Table, id: RowId, r: Row): set<RowId> {
    set i | i in rows && i != id && rows[i].employee == r.employee && rows[i].primary && OverlapsWindow(rows[i], r.from, r.to)
  }

  function CloseRows(rows: Table, ids: set<RowId>, at: int): Table {
    map i | i in rows :: if i in ids then rows[i].(to := Some(at)) else rows[i]
  }

  function PreparePrimary(rows: Table, id: RowId, r: Row, close: bool): Result<Table, AssignmentError> {
    var overlaps := Overlaps(rows, id, r);
    if overlaps == {} then Success(rows)
    else if !close then Failure(PrimaryOverlap)
    else if exists i | i in overlaps :: rows[i].from >= r.from then Failure(FuturePrimaryOverlap)
    else Success(CloseRows(rows, overlaps, r.from))
  }

  /** Primary rows on the position that the headcount query counts. */
  function Counted(rows: Table, id: RowId, r: Row): set<RowId> {
    set i | i in rows && i != id && rows[i].position == r.position && rows[i].primary && OverlapsWindow(rows[i], r.from, r.to)
  }

  function HeadcountError(rows: Table, budgets: Budgets, id: RowId, r: Row): Option<AssignmentError> {
    if r.position.None? then None
    else if r.position.value !in budgets then Some(InvalidPosition)
    else if |Counted(rows, id, r)| >= budgets[r.position.value] then Some(OverBudget)
    else None
  }

  /** Writing row `id`, new or existing, as the create and update transactions do. */
  function Admit(rows: Table, budgets: Budgets, id: RowId, r: Row, close: bool, allowOverBudget: bool): Result<Table, AssignmentError> {
    var outcome := WalkFrom(ManagersAt(rows, r.from), r.employee, r.manager);
    if outcome != Safe then Failure(Chain(outcome))
    else
      var prepared := if r.primary then PreparePrimary(rows, id, r, close) else Success(rows);
      if prepared.Failure? then prepared
      else
        var error :=
          if r.position.Some? && r.primary && !allowOverBudget then HeadcountError(prepared.value, budgets, id, r) else None;
        if error.Some? then Failure(error.value) else Success(prepared.value[id := r])
  }

  // ---------------------------------------------------------------- operations

  /** An optional field of a request that can also be cleared. */
  datatype Change<T> = Keep | Clear | Set(value: T)

  /** `referencesValid` stands for the checks against employees, positions, units, grades and leadership
      designations. */
  datatype Dto = Dto(
    employee: Option<EmployeeId>, kind: Option<AssignmentType>, position: Option<PositionId>, manager: Option<EmployeeId>,
    from: Option<int>, to: Change<int>, isPrimary: Option<bool>,
    close: Option<bool>, allowOverBudget: bool, referencesValid: bool)

  function OrElse<T>(a: Option<T>, b: Option<T>): Option<T> { if a.Some? then a else b }

  function ResolveFields(dto: Dto, existing: Option<Row>): Result<Row, AssignmentError> {
    var employee := if existing.Some? then Some(existing.value.employee) else dto.employee;
    var from := OrElse(dto.from, if existing.Some? then Some(existing.value.from) else None);
    var to := match dto.to
              case Keep => if existing.Some? then existing.value.to else None
              case Clear => None
              case Set(t) => Some(t);
    var kind := OrElse(dto.kind, if existing.Some? then Some(existing.value.kind) else None).GetOr(PrimaryType);
    var primary := OrElse(dto.isPrimary, if existing.Some? then Some(existing.value.primary) else None).GetOr(kind == PrimaryType);
    var position := OrElse(dto.position, if existing.Some? then existing.value.position else None);
    var manager := OrElse(dto.manager, if existing.Some? then existing.value.manager else None);
    if employee.None? then Failure(EmployeeRequired)
    else if from.None? then Failure(FromRequired)
    else if to.Some? && to.value <= from.value then Failure(EmptyWindow)
    else if !dto.referencesValid || manager == employee then Failure(InvalidReference)
    else Success(Row(employee.value, kind, position, manager, from.value, to, primary))
  }

  datatype Store = Store(rows: Table, next: RowId)

  datatype Op =
    | Create(dto: Dto)
    | Update(id: RowId, dto: Dto)
    | End(id: RowId, to: Option<int>, now: int)
    | Delete(id: RowId, now: int)

  function Attempt(s: Store, budgets: Budgets, op: Op): Result<Store, AssignmentError> {
    match op
    case Create(dto) =>
      var r := ResolveFields(dto, None);
      if r.Failure? then Failure(r.error)
      else
        var rows := Admit(s.rows, budgets, s.next, r.value, dto.close.GetOr(true), dto.allowOverBudget);
        if rows.Failure? then Failure(rows.error) else Success(Store(rows.value, s.next + 1))
    case Update(id, dto) =>
      if id !in s.rows then Failure(NotFound)
      else if dto.employee.Some? && dto.employee.value != s.rows[id].employee then Failure(EmployeeMoved)
      else
        var r := ResolveFields(dto, Some(s.rows[id]));
        if r.Failure? then Failure(r.error)
        else
          var rows := Admit(s.rows, budgets, id, r.value, dto.close.GetOr(false), dto.allowOverBudget);
          if rows.Failure? then Failure(rows.error) else Success(s.(rows := rows.value))
    case End(id, to, now) =>
      if id !in s.rows then Failure(NotFound)
      else if s.rows[id].to.Some? && s.rows[id].to.value <= now then Failure(AlreadyEnded)
      else if to.GetOr(now) <= s.rows[id].from then Failure(EndBeforeStart)
      else Success(s.(rows := s.rows[id := s.rows[id].(to := Some(to.GetOr(now)))]))
    case Delete(id, now) =>
      if id !in s.rows then Failure(NotFound)
      else if s.rows[id].from <= now then Failure(NotFuture)
      else Success(s.(rows := s.rows - {id}))
  }

  /** An error rolls the transaction back. */
  function Apply(s: Store, budgets: Budgets, op: Op): Store {
    var r := Attempt(s, budgets, op);
    if r.Success? then r.value else s
  }

  function Run(s: Store, budgets: Budgets, ops: seq<Op>): Store {
    if ops == [] then s else Apply(Run(s, budgets, ops[..|ops| - 1]), budgets, ops[|ops| - 1])
  }

  class AssignmentsService {
    const budgets: Budgets
    var rows: Table
    var next: RowId

    constructor (budgets: Budgets)
      ensures this.budgets == budgets && rows == map[] && next == 0
    {
      this.budgets, rows, next := budgets, map[], 0;
    }

    method AssertManagerChainSafe(e: EmployeeId, manager: Option<EmployeeId>, asOf: int) returns (outcome: ChainOutcome)
      ensures outcome == WalkFrom(ManagersAt(rows, asOf), e, manager)
    {
      var seen, cursor, depth := {}, manager, 0;
      while cursor.Some?
        invariant depth <= MAX_DEPTH
        invariant Walk(ManagersAt(rows, asOf), e, cursor, seen, depth) == WalkFrom(ManagersAt(rows, asOf), e, manager)
        decreases MAX_DEPTH - depth
      {
        if cursor.value == e {
          return WouldCycle;
        }
        if cursor.value in seen {
          return ExistingCycle;
        }
        seen := seen + {cursor.value};
        depth := depth + 1;
        if depth > MAX_DEPTH {
          return TooDeep;
        }
        cursor := ManagerOf(rows, asOf, cursor.value);
      }
      return Safe;
    }

    method PreparePrimaryWindow(id: RowId, r: Row, close: bool) returns (error: Option<AssignmentError>)
      modifies this`rows
      ensures PreparePrimary(old(rows), id, r, close) == if error.Some? then Failure(error.value) else Success(rows)
      ensures error.Some? ==> rows == old(rows)
    {
      var overlaps := Overlaps(rows, id, r);
      if overlaps == {} {
        return None;
      }
      if !close {
        return Some(PrimaryOverlap);
      }
      var closable := set i | i in overlaps && rows[i].from < r.from;
      var notClosable := set i | i in overlaps && rows[i].from >= r.from;
      if notClosable != {} {
        ghost var i :| i in notClosable;
        return Some(FuturePrimaryOverlap);
      }
      assert closable == overlaps by {
        assert forall i | i in overlaps :: i !in notClosable;
      }
      rows := CloseRows(rows, closable, r.from);
      return None;
    }

    /** The shared part of the create and update transactions; an error restores the table. */
    method WriteRow(id: RowId, r: Row, close: bool, allowOverBudget: bool) returns (error: Option<AssignmentError>)
      modifies this`rows
      ensures Admit(old(rows), budgets, id, r, close, allowOverBudget) == if error.Some? then Failure(error.value) else Success(rows)
      ensures error.Some? ==> rows == old(rows)
    {
      var before := rows;
      var outcome := AssertManagerChainSafe(r.employee, r.manager, r.from);
      if outcome != Safe {
        return Some(Chain(outcome));
      }
      if r.primary {
        error := PreparePrimaryWindow(id, r, close);
        if error.Some? {
          return;
        }
      }
      if r.position.Some? && r.primary && !allowOverBudget {
        error := HeadcountError(rows, budgets, id, r);
        if error.Some? {
          rows := before;
          return;
        }
      }
      rows := rows[id := r];
      return None;
    }

    function Tables(): Store
      reads this
    {
      Store(rows, next)
    }

    method CreateAssignment(dto: Dto) returns (error: Option<AssignmentError>)
      modifies this
      ensures Attempt(old(Tables()), budgets, Create(dto)) == if error.Some? then Failure(error.value) else Success(Tables())
      ensures error.Some? ==> Tables() == old(Tables())
    {
      var r := ResolveFields(dto, None);
      if r.Failure? {
        return Some(r.error);
      }
      error := WriteRow(next, r.value, dto.close.GetOr(true), dto.allowOverBudget);
      if error.None? {
        next := next + 1;
      }
    }

    method UpdateAssignment(id: RowId, dto: Dto) returns (error: Option<AssignmentError>)
      modifies this
      ensures Attempt(old(Tables()), budgets, Update(id, dto)) == if error.Some? then Failure(error.value) else Success(Tables())
      ensures error.Some? ==> Tables() == old(Tables())
    {
      if id !in rows {
        return Some(NotFound);
      }
      if dto.employee.Some? && dto.employee.value != rows[id].employee {
        return Some(EmployeeMoved);
      }
      var r := ResolveFields(dto, Some(rows[id]));
      if r.Failure? {
        return Some(r.error);
      }
      error := WriteRow(id, r.value, dto.close.GetOr(false), dto.allowOverBudget);
    }

    method EndAssignment(id: RowId, to: Option<int>, now: int) returns (error: Option<AssignmentError>)
      modifies this
      ensures Attempt(old(Tables()), budgets, End(id, to, now)) == if error.Some? then Failure(error.value) else Success(Tables())
      ensures error.Some? ==> Tables() == old(Tables())
    {
      if id !in rows {
        return Some(NotFound);
      }
      if rows[id].to.Some? && rows[id].to.value <= now {
        return Some(AlreadyEnded);
      }
      var effectiveTo := to.GetOr(now);
      if effectiveTo <= rows[id].from {
        return Some(EndBeforeStart);
      }
      rows := rows[id := rows[id].(to := Some(effectiveTo))];
      return None;
    }

    method DeleteAssignment(id: RowId, now: int) returns (error: Option<AssignmentError>)
      modifies this
      ensures Attempt(old(Tables()), budgets, Delete(id, now)) == if error.Some? then Failure(error.value) else Success(Tables())
      ensures error.Some? ==> Tables() == old(Tables())
    {
      if id !in rows {
        return Some(NotFound);
      }
      if rows[id].from <= now {
        return Some(NotFuture);
      }
      rows := rows - {id};
      return None;
    }
  }
}
