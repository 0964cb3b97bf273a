/** Reporting lines at one instant: every employee has at most one manager. */
module ReportingGraph {
  import opened Wrappers

  type EmployeeId = nat

  type Graph = EmployeeId -> Option<EmployeeId>

  /** The `n`-th manager above `e`; the 0-th is `e`. */
  function Up(g: Graph, e: EmployeeId, n: nat): Option<EmployeeId> {
    if n == 0 then Some(e)
    else
      var below := Up(g, e, n - 1);
      if below.None? then None else g(below.value)
  }

  ghost predicate Reaches(g: Graph, from: EmployeeId, to: EmployeeId) {
    exists n: nat :: Up(g, from, n) == Some(to)
  }

  /** Nobody is their own manager, however indirectly. */
  ghost predicate Acyclic(g: Graph) {
    forall e: EmployeeId, n: nat | n > 0 :: Up(g, e, n) != Some(e)
  }

  /** Away from employee `e`, `h` has no reporting line that `g` does not have. */
  ghost predicate WithinExcept(h: Graph, g: Graph, e: EmployeeId) {
    forall x | x != e :: h(x).None? || h(x) == g(x)
  }

  lemma {:induction false} UpShift(g: Graph, e: EmployeeId, m: nat, n: nat)
    requires Up(g, e, m).Some?
    ensures Up(g, e, m + n) == Up(g, Up(g, e, m).value, n)
    decreases n
  {
    if n > 0 {
      UpShift(g, e, m, n - 1);
    }
  }

  lemma {:induction false} UpIsPrefix(g: Graph, e: EmployeeId, m: nat, n: nat)
    requires m <= n && Up(g, e, n).Some?
    ensures Up(g, e, m).Some?
    decreases n - m
  {
    if m < n {
      UpIsPrefix(g, e, m + 1, n);
    }
  }

  // ---------------------------------------------------------------- changing one employee's line

  lemma {:induction false} SameWalk(g: Graph, h: Graph, e: EmployeeId, x: EmployeeId, n: nat)
    requires WithinExcept(h, g, e) && Up(h, x, n).Some?
    requires forall k: nat | k < n :: Up(h, x, k) != Some(e)
    ensures Up(g, x, n) == Up(h, x, n)
    decreases n
  {
    if n > 0 {
      UpIsPrefix(h, x, n - 1, n);
      SameWalk(g, h, e, x, n - 1);
    }
  }

  /** Reaching `e` only depends on the lines of the others. */
  lemma {:induction false} ReachTransfers(g: Graph, h: Graph, e: EmployeeId, x: EmployeeId, n: nat)
    requires WithinExcept(h, g, e) && Up(h, x, n) == Some(e)
    ensures Reaches(g, x, e)
    decreases n
  {
    if k: nat :| k < n && Up(h, x, k) == Some(e) {
      ReachTransfers(g, h, e, x, k);
    } else {
      SameWalk(g, h, e, x, n);
    }
  }

  /** Giving `e` the manager `m` keeps the lines acyclic when the chain above `m` avoids `e`. */
  lemma NewLineKeepsAcyclic(g: Graph, h: Graph, e: EmployeeId, m: EmployeeId)
    requires Acyclic(g) && WithinExcept(h, g, e) && h(e) == Some(m) && !Reaches(g, m, e)
    ensures Acyclic(h)
  {
    forall x: EmployeeId, n: nat | n > 0
      ensures Up(h, x, n) != Some(x)
    {
      if Up(h, x, n) == Some(x) {
        if k: nat :| k < n && Up(h, x, k) == Some(e) {
          CycleThrough(h, x, n, k, e);
          UpShift(h, e, 1, n - 1);
          ReachTransfers(g, h, e, m, n - 1);
        } else {
          SameWalk(g, h, e, x, n);
        }
        assert false;
      }
    }
  }

  /** A cycle can be entered at any of its members. */
  lemma CycleThrough(h: Graph, x: EmployeeId, n: nat, k: nat, e: EmployeeId)
    requires k < n && Up(h, x, n) == Some(x) && Up(h, x, k) == Some(e)
    ensures Up(h, e, n) == Some(e)
  {
    UpShift(h, x, k, n - k);
    UpShift(h, x, n, k);
    UpShift(h, e, n - k, k);
    UpShift(h, x, k, n);
    assert Up(h, x, n + k) == Some(e);
    assert Up(h, x, k + n) == Up(h, e, n);
  }

  /** Conversely, if the chain above the new manager comes back to `e`, a cycle arises. */
  lemma NewLineClosesCycle(g: Graph, h: Graph, e: EmployeeId, m: EmployeeId)
    requires WithinExcept(g, h, e) && h(e) == Some(m) && Reaches(g, m, e)
    ensures !Acyclic(h)
  {
    var n: nat :| Up(g, m, n) == Some(e);
    ReachTransfers(h, g, e, m, n);
    var k: nat :| Up(h, m, k) == Some(e);
    UpShift(h, e, 1, k);
    assert Up(h, e, 1 + k) == Some(e);
  }

  /** Removing lines never closes a cycle. */
  lemma FewerLinesKeepAcyclic(g: Graph, h: Graph)
    requires Acyclic(g) && forall x :: h(x).None? || h(x) == g(x)
    ensures Acyclic(h)
  {
    forall x: EmployeeId, n: nat | n > 0
      ensures Up(h, x, n) != Some(x)
    {
      if Up(h, x, n).Some? {
        FewerLinesSameWalk(g, h, x, n);
      }
    }
  }

  lemma {:induction false} FewerLinesSameWalk(g: Graph, h: Graph, x: EmployeeId, n: nat)
    requires (forall y :: h(y).None? || h(y) == g(y)) && Up(h, x, n).Some?
    ensures Up(g, x, n) == Up(h, x, n)
    decreases n
  {
    if n > 0 {
      FewerLinesSameWalk(g, h, x, n - 1);
    }
  }

  // ---------------------------------------------------------------- the walk of the code

  datatype ChainOutcome = Safe | WouldCycle | ExistingCycle | TooDeep

  const MAX_DEPTH := 50

  /** The loop: `cursor` climbs, `seen` collects, `depth` counts. */
  function Walk(g: Graph, e: EmployeeId, cursor: Option<EmployeeId>, seen: set<EmployeeId>, depth: nat): ChainOutcome
    decreases MAX_DEPTH + 1 - depth
  {
    if cursor.None? then Safe
    else if cursor.value == e then WouldCycle
    else if cursor.value in seen then ExistingCycle
    else if depth + 1 > MAX_DEPTH then TooDeep
    else Walk(g, e, g(cursor.value), seen + {cursor.value}, depth + 1)
  }

  function WalkFrom(g: Graph, e: EmployeeId, manager: Option<EmployeeId>): ChainOutcome { Walk(g, e, manager, {}, 0) }

  /** The chain above and including `m` has `length` members and ends; `e` is none of them. */
  ghost predicate ChainEnds(g: Graph, e: EmployeeId, m: EmployeeId, length: nat) {
    Up(g, m, length).None? && forall k: nat | k < length :: Up(g, m, k).Some? && Up(g, m, k) != Some(e)
  }

  /** Where the loop stands after `depth` rounds. */
  ghost predicate Climbed(g: Graph, e: EmployeeId, m: EmployeeId, cursor: Option<EmployeeId>, seen: set<EmployeeId>, depth: nat) {
    && cursor == Up(g, m, depth)
    && (forall k: nat | k < depth :: Up(g, m, k).Some? && Up(g, m, k) != Some(e) && Up(g, m, k).value in seen)
    && (forall x | x in seen :: exists k: nat :: k < depth && Up(g, m, k) == Some(x))
  }

  lemma ClimbOnce(g: Graph, e: EmployeeId, m: EmployeeId, cursor: EmployeeId, seen: set<EmployeeId>, depth: nat)
    requires Climbed(g, e, m, Some(cursor), seen, depth) && cursor != e
    ensures Climbed(g, e, m, g(cursor), seen + {cursor}, depth + 1)
  {
    assert Up(g, m, depth + 1) == g(cursor);
    forall x | x in seen + {cursor}
      ensures exists k: nat :: k < depth + 1 && Up(g, m, k) == Some(x)
    {
      if x in seen {
        var k: nat :| k < depth && Up(g, m, k) == Some(x);
        assert k < depth + 1;
      } else {
        assert Up(g, m, depth) == Some(x);
      }
    }
  }

  /** Once a chain repeats it never ends. */
  lemma {:induction false} RepeatNeverEnds(g: Graph, m: EmployeeId, j: nat, d: nat, n: nat)
    requires j < d && Up(g, m, j).Some? && Up(g, m, j) == Up(g, m, d)
    ensures Up(g, m, n).Some?
    decreases n
  {
    if n <= d {
      UpIsPrefix(g, m, n, d);
    } else {
      RepeatNeverEnds(g, m, j, d, j + (n - d));
      UpShift(g, m, j, n - d);
      UpShift(g, m, d, n - d);
    }
  }

  lemma {:induction false} WalkDecides(g: Graph, e: EmployeeId, m: EmployeeId, cursor: Option<EmployeeId>, seen: set<EmployeeId>, depth: nat)
    requires Climbed(g, e, m, cursor, seen, depth) && depth <= MAX_DEPTH
    ensures var r := Walk(g, e, cursor, seen, depth);
            && (r == Safe ==> exists n | depth <= n <= MAX_DEPTH :: ChainEnds(g, e, m, n))
            && (r == WouldCycle ==> exists n: nat | n <= MAX_DEPTH :: Up(g, m, n) == Some(e))
            && (r == ExistingCycle ==> exists j: nat, d: nat | j < d <= MAX_DEPTH :: Up(g, m, j).Some? && Up(g, m, j) == Up(g, m, d))
            && (r == TooDeep ==> Up(g, m, MAX_DEPTH).Some?)
    decreases MAX_DEPTH + 1 - depth
  {
    if cursor.None? {
      assert ChainEnds(g, e, m, depth);
    } else if cursor.value == e {
      assert Up(g, m, depth) == Some(e);
    } else if cursor.value in seen {
      var j: nat :| j < depth && Up(g, m, j) == cursor;
    } else if depth < MAX_DEPTH {
      ClimbOnce(g, e, m, cursor.value, seen, depth);
      WalkDecides(g, e, m, g(cursor.value), seen + {cursor.value}, depth + 1);
    }
  }

  /** The walk accepts exactly the chains of at most 50 managers that come to an end and avoid the
      employee (so none of them repeats). */
  lemma WalkAcceptsExactly(g: Graph, e: EmployeeId, m: EmployeeId)
    ensures WalkFrom(g, e, Some(m)) == Safe <==> exists n | 0 <= n <= MAX_DEPTH :: ChainEnds(g, e, m, n)
  {
    assert Climbed(g, e, m, Some(m), {}, 0);
    WalkDecides(g, e, m, Some(m), {}, 0);
    if n :| 0 <= n <= MAX_DEPTH && ChainEnds(g, e, m, n) {
      if j: nat, d: nat :| j < d <= MAX_DEPTH && Up(g, m, j).Some? && Up(g, m, j) == Up(g, m, d) {
        RepeatNeverEnds(g, m, j, d, n);
        assert false;
      }
      if Up(g, m, MAX_DEPTH).Some? {
        UpIsPrefix(g, m, n, MAX_DEPTH);
        assert false;
      }
      if k: nat :| k <= MAX_DEPTH && Up(g, m, k) == Some(e) {
        if n <= k {
          UpIsPrefix(g, m, n, k);
        }
        assert false;
      }
    }
  }

  /** An accepted chain never comes to the employee, at any height. */
  lemma SafeNeverReaches(g: Graph, e: EmployeeId, m: EmployeeId)
    requires WalkFrom(g, e, Some(m)) == Safe
    ensures !Reaches(g, m, e)
  {
    WalkAcceptsExactly(g, e, m);
    var n :| 0 <= n <= MAX_DEPTH && ChainEnds(g, e, m, n);
    forall k: nat
      ensures Up(g, m, k) != Some(e)
    {
      if k >= n && Up(g, m, k).Some? {
        UpIsPrefix(g, m, n, k);
      }
    }
  }

  /** As long as the stored lines are acyclic, the "existing cycle" error cannot occur. */
  lemma ExistingCycleUnreachable(g: Graph, e: EmployeeId, m: EmployeeId)
    requires Acyclic(g)
    ensures WalkFrom(g, e, Some(m)) != ExistingCycle
  {
    assert Climbed(g, e, m, Some(m), {}, 0);
    WalkDecides(g, e, m, Some(m), {}, 0);
    if j: nat, d: nat :| j < d <= MAX_DEPTH && Up(g, m, j).Some? && Up(g, m, j) == Up(g, m, d) {
      UpShift(g, m, j, d - j);
      assert false;
    }
  }
}
