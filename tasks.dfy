/**
  The expired-draft sweeper (scheduling/tasks.py). The appointment table is
  an object whose rows the sweep updates in place: every selected Draft is
  set to Cancelled and saved, a failed save is skipped, and the number of
  saved rows is returned.

  A save runs the appointment's `validate` hook. Its capacity gate counts the
  other bookings on the slot even for a row being cancelled, so in the code
  as written an expired Draft whose slot has since been fully booked is never
  cancelled (`SweepAsWritten`, `AsWrittenSkipsRebookedDraft`). The table
  class sweeps with the gate left out of cancellation (`Sweep`).
*/
module Tasks {
  import opened Wrappers
  import opened Records
  import opened Overlap

  /** The sweeper's store query (tasks.py:36-43). */
  predicate Selected(b: Booking, now: int)
  {
    b.status == Draft && b.docstatus == 0 && b.draftExpiresAt.Some? && b.draftExpiresAt.value < now
  }

  /**
    The checks of `validate` that a save of the cancelled row still has to
    pass: a resource that is named and exists, and start before end
    (appointment.py:97-111; the resource record is read at 118, 188 and in
    overlap.py:54).
  */
  predicate SaveValid(b: Booking, resources: map<string, Resource>)
  {
    b.resource != "" && b.resource in resources && b.start < b.end
  }

  /** The capacity gate of `validate` (appointment.py:146-177), for a row that is not new. */
  predicate CapacityGate(b: Booking, rows: seq<Booking>, resources: map<string, Resource>, now: int)
    requires b.resource in resources
  {
    |Conflicts(rows, b.resource, b.start, b.end, Some(b.name), now)| < EffectiveCapacity(resources[b.resource])
  }

  /** The row indices the query returns, in table order. */
  function SelectedIndices(rows: seq<Booking>, now: int): (r: seq<int>)
    ensures forall j :: 0 <= j < |r| ==> 0 <= r[j] < |rows| && Selected(rows[r[j]], now)
    ensures forall i, j :: 0 <= i < j < |r| ==> r[i] < r[j]
    ensures forall k :: 0 <= k < |rows| && Selected(rows[k], now) ==> k in r
    decreases |rows|
  {
    if rows == [] then []
    else
      var p := rows[..|rows| - 1];
      SelectedIndices(p, now) + (if Selected(rows[|rows| - 1], now) then [|rows| - 1] else [])
  }

  /** One row after the corrected sweep. */
  function Swept(b: Booking, resources: map<string, Resource>, now: int): Booking
  {
    if Selected(b, now) && SaveValid(b.(status := Cancelled), resources) then b.(status := Cancelled) else b
  }

  /** The table after the corrected sweep. */
  function Sweep(rows: seq<Booking>, resources: map<string, Resource>, now: int): seq<Booking>
  {
    seq(|rows|, k requires 0 <= k < |rows| => Swept(rows[k], resources, now))
  }

  /** The number of rows the corrected sweep cancels. */
  function SweptCount(rows: seq<Booking>, resources: map<string, Resource>, now: int): nat
    decreases |rows|
  {
    if rows == [] then 0
    else
      var b := rows[|rows| - 1];
      SweptCount(rows[..|rows| - 1], resources, now)
      + (if Selected(b, now) && SaveValid(b.(status := Cancelled), resources) then 1 else 0)
  }

  /**
    The table after the sweep as written: the save of a cancelled row also
    has to pass the capacity gate against the rest of the table. The gate is
    read on the table before the sweep; `CancelKeepsConflicts` shows that the
    rows cancelled earlier in the same sweep do not change what it counts.
  */
  function SweepAsWritten(rows: seq<Booking>, resources: map<string, Resource>, now: int): seq<Booking>
  {
    seq(|rows|, k requires 0 <= k < |rows| =>
      var c := rows[k].(status := Cancelled);
      if Selected(rows[k], now) && SaveValid(c, resources) && CapacityGate(c, rows, resources, now)
      then c else rows[k])
  }

  /** The appointment table. */
  class BookingTable {
    var rows: seq<Booking>

    constructor (initial: seq<Booking>)
      ensures rows == initial
    {
      rows := initial;
    }

    /** cleanup_expired_drafts (tasks.py:12-93), with the capacity gate left out of cancellation. */
    method CleanupExpiredDrafts(resources: map<string, Resource>, now: int) returns (count: nat)
      modifies this
      ensures rows == Sweep(old(rows), resources, now)
      ensures count == SweptCount(old(rows), resources, now)
    {
      ghost var initial := rows;
      var expired := SelectedIndices(rows, now);
      count := 0;
      SweepStart(initial, resources, now, expired);
      var n := 0;
      while n < |expired|
        invariant 0 <= n <= |expired|
        invariant SweepProgress(initial, expired, n, rows, count, resources, now)
      {
        var i := expired[n];
        SweepRow(initial, expired, n, rows, count, resources, now);
        ghost var before, counted := rows, count;
        // re-read the row and re-check that it is still a Draft (tasks.py:51-55)
        var b := rows[i];
        if b.status == Draft {
          var cancelled := b.(status := Cancelled);
          // the save runs `validate`; a failing save is skipped (tasks.py:67, 77-82)
          if SaveValid(cancelled, resources) {
            rows := rows[i := cancelled];
            count := count + 1;
          }
        }
        SweepStep(initial, expired, n, before, counted, rows, count, resources, now);
        n := n + 1;
      }
      assert initial[..|initial|] == initial;
    }
  }

  // ----- loop lemmas -----

  /**
    After `n` selected rows: the rows before the next selected index are swept,
    the rest are untouched, and the count is that of the swept prefix.
  */
  ghost predicate SweepProgress(initial: seq<Booking>, expired: seq<int>, n: int, rows: seq<Booking>, count: int,
                                resources: map<string, Resource>, now: int)
  {
    && expired == SelectedIndices(initial, now)
    && 0 <= n <= |expired|
    && var bound := if n < |expired| then expired[n] else |initial|;
       && 0 <= bound <= |initial|
       && rows == Sweep(initial[..bound], resources, now) + initial[bound..]
       && count == SweptCount(initial[..bound], resources, now)
  }

  lemma SweepStart(initial: seq<Booking>, resources: map<string, Resource>, now: int, expired: seq<int>)
    requires expired == SelectedIndices(initial, now)
    ensures SweepProgress(initial, expired, 0, initial, 0, resources, now)
  {
    SweepSkip(initial, resources, now, -1, expired, -1);
    var bound := if 0 < |expired| then expired[0] else |initial|;
    SweptCountSkip(initial, resources, now, 0, bound);
    assert initial[..0] == [];
    SweepSkipRows(initial, resources, now, bound);
  }

  /** The rows of a prefix with nothing selected are unchanged by the sweep. */
  lemma SweepSkipRows(initial: seq<Booking>, resources: map<string, Resource>, now: int, bound: int)
    requires 0 <= bound <= |initial|
    requires forall k :: 0 <= k < bound ==> !Selected(initial[k], now)
    ensures initial == Sweep(initial[..bound], resources, now) + initial[bound..]
  {
    var rhs := Sweep(initial[..bound], resources, now) + initial[bound..];
    forall k | 0 <= k < |initial| ensures initial[k] == rhs[k] {
      if k < bound {
        assert rhs[k] == Swept(initial[k], resources, now);
      }
    }
  }

  lemma SweepRow(initial: seq<Booking>, expired: seq<int>, n: int, rows: seq<Booking>, count: int,
                 resources: map<string, Resource>, now: int)
    requires SweepProgress(initial, expired, n, rows, count, resources, now) && n < |expired|
    ensures 0 <= expired[n] < |rows| == |initial|
    ensures rows[expired[n]] == initial[expired[n]] && Selected(initial[expired[n]], now)
  {
  }

  lemma SweepStep(initial: seq<Booking>, expired: seq<int>, n: int, before: seq<Booking>, counted: int,
                  rows: seq<Booking>, count: int, resources: map<string, Resource>, now: int)
    requires SweepProgress(initial, expired, n, before, counted, resources, now) && n < |expired|
    requires 0 <= expired[n] < |before| && before[expired[n]] == initial[expired[n]]
    requires var i := expired[n];
      var c := before[i].(status := Cancelled);
      if before[i].status == Draft && SaveValid(c, resources) then rows == before[i := c] && count == counted + 1
      else rows == before && count == counted
    ensures SweepProgress(initial, expired, n + 1, rows, count, resources, now)
  {
    var i := expired[n];
    var next := if n + 1 < |expired| then expired[n + 1] else |initial|;
    SweepSkip(initial, resources, now, i, expired, n);
    assert rows == before[i := Swept(initial[i], resources, now)];
    SweepAdvance(initial, resources, now, i, next, before, rows);
    SweptCountAdvance(initial, resources, now, i, next);
  }

  /** Rows before the first selected index, and strictly between two consecutive ones, are not selected. */
  lemma SweepSkip(rows: seq<Booking>, resources: map<string, Resource>, now: int, i: int, expired: seq<int>, n: int)
    requires expired == SelectedIndices(rows, now)
    requires -1 <= n < |expired| && i == (if n >= 0 then expired[n] else -1)
    ensures n >= 0 ==> 0 <= i < |rows| && Selected(rows[i], now)
    ensures forall k :: i < k < (if n + 1 < |expired| then expired[n + 1] else |rows|) ==> !Selected(rows[k], now)
    ensures n + 1 < |expired| ==> i < expired[n + 1]
  {
    var next := if n + 1 < |expired| then expired[n + 1] else |rows|;
    forall k | i < k < next && 0 <= k < |rows| ensures !Selected(rows[k], now) {
      forall j | 0 <= j < |expired| ensures expired[j] != k {
        if j < n {
          assert expired[j] < expired[n];
        } else if j > n + 1 {
          assert expired[n + 1] < expired[j];
        }
      }
    }
  }

  lemma SweepAdvance(initial: seq<Booking>, resources: map<string, Resource>, now: int, i: int, next: int,
                     before: seq<Booking>, after: seq<Booking>)
    requires 0 <= i < next <= |initial|
    requires Selected(initial[i], now)
    requires forall k :: i < k < next ==> !Selected(initial[k], now)
    requires before == Sweep(initial[..i], resources, now) + initial[i..]
    requires after == before[i := Swept(initial[i], resources, now)]
    ensures after == Sweep(initial[..next], resources, now) + initial[next..]
  {
    var lhs := after;
    var rhs := Sweep(initial[..next], resources, now) + initial[next..];
    assert |lhs| == |rhs|;
    forall k | 0 <= k < |lhs| ensures lhs[k] == rhs[k] {
      if k < i {
        assert lhs[k] == Sweep(initial[..i], resources, now)[k] == Swept(initial[k], resources, now);
      } else if k == i {
      } else if k < next {
        assert lhs[k] == initial[k];
        assert Swept(initial[k], resources, now) == initial[k];
      } else {
        assert lhs[k] == initial[k];
      }
    }
  }

  /** Rows that are not selected add nothing to the count. */
  lemma {:induction false} SweptCountSkip(rows: seq<Booking>, resources: map<string, Resource>, now: int, a: int, b: int)
    requires 0 <= a <= b <= |rows|
    requires forall k :: a <= k < b ==> !Selected(rows[k], now)
    ensures SweptCount(rows[..b], resources, now) == SweptCount(rows[..a], resources, now)
    decreases b - a
  {
    if a < b {
      SweptCountSkip(rows, resources, now, a, b - 1);
      assert rows[..b][..b - 1] == rows[..b - 1];
    }
  }

  lemma SweptCountAdvance(rows: seq<Booking>, resources: map<string, Resource>, now: int, i: int, next: int)
    requires 0 <= i < next <= |rows|
    requires forall k :: i < k < next ==> !Selected(rows[k], now)
    ensures SweptCount(rows[..next], resources, now)
      == SweptCount(rows[..i], resources, now) + (if SaveValid(rows[i].(status := Cancelled), resources) && Selected(rows[i], now) then 1 else 0)
  {
    SweptCountSkip(rows, resources, now, i + 1, next);
    assert rows[..i + 1][..i] == rows[..i];
  }

  // ----- properties of the sweep -----

  /** Only selected rows change, and they change only to Cancelled; every other row is kept. */
  lemma SweepChangesOnlyExpired(rows: seq<Booking>, resources: map<string, Resource>, now: int)
    ensures |Sweep(rows, resources, now)| == |rows|
    ensures forall k :: 0 <= k < |rows| ==>
      || Sweep(rows, resources, now)[k] == rows[k]
      || (Selected(rows[k], now) && Sweep(rows, resources, now)[k] == rows[k].(status := Cancelled))
    ensures forall k :: 0 <= k < |rows| && Selected(rows[k], now) && SaveValid(rows[k], resources) ==>
      Sweep(rows, resources, now)[k].status == Cancelled
    ensures forall k :: 0 <= k < |rows| && !Selected(rows[k], now) ==> Sweep(rows, resources, now)[k] == rows[k]
  {
  }

  /** A second sweep at the same clock cancels nothing and changes nothing. */
  lemma {:induction false} SecondSweepCancelsNothing(rows: seq<Booking>, resources: map<string, Resource>, now: int)
    ensures SweptCount(Sweep(rows, resources, now), resources, now) == 0
    ensures Sweep(Sweep(rows, resources, now), resources, now) == Sweep(rows, resources, now)
    decreases |rows|
  {
    if rows != [] {
      var p := rows[..|rows| - 1];
      SecondSweepCancelsNothing(p, resources, now);
      var s := Sweep(rows, resources, now);
      assert s[..|s| - 1] == Sweep(p, resources, now);
    }
  }

  /** The count never exceeds the number of selected rows. */
  lemma {:induction false} SweptCountBound(rows: seq<Booking>, resources: map<string, Resource>, now: int)
    ensures SweptCount(rows, resources, now) <= |SelectedIndices(rows, now)|
    decreases |rows|
  {
    if rows != [] {
      SweptCountBound(rows[..|rows| - 1], resources, now);
    }
  }

  /**
    Cancelling a selected row leaves the overlap check unchanged at the sweep's
    clock and at any later one: the row was an expired Draft and held nothing.
  */
  lemma {:induction false} CancelKeepsConflicts(rows: seq<Booking>, i: int, sweepClock: int, resource: string,
                                           start: int, end: int, exclude: Option<string>, now: int)
    requires 0 <= i < |rows| && Selected(rows[i], sweepClock) && sweepClock <= now
    ensures Conflicts(rows[i := rows[i].(status := Cancelled)], resource, start, end, exclude, now)
         == Conflicts(rows, resource, start, end, exclude, now)
    decreases |rows|
  {
    var p, x := rows[..|rows| - 1], rows[|rows| - 1];
    var upd := rows[i := rows[i].(status := Cancelled)];
    assert rows == p + [x];
    ConflictsSnoc(p, x, resource, start, end, exclude, now);
    if i == |rows| - 1 {
      assert upd == p + [x.(status := Cancelled)];
      ConflictsSnoc(p, x.(status := Cancelled), resource, start, end, exclude, now);
    } else {
      CancelKeepsConflicts(p, i, sweepClock, resource, start, end, exclude, now);
      assert upd == p[i := p[i].(status := Cancelled)] + [x];
      ConflictsSnoc(p[i := p[i].(status := Cancelled)], x, resource, start, end, exclude, now);
    }
  }

  /** The whole sweep leaves the overlap check unchanged at its clock and later. */
  lemma {:induction false} SweepKeepsConflicts(rows: seq<Booking>, resources: map<string, Resource>, sweepClock: int,
                                               resource: string, start: int, end: int, exclude: Option<string>, now: int)
    requires sweepClock <= now
    ensures Conflicts(Sweep(rows, resources, sweepClock), resource, start, end, exclude, now)
         == Conflicts(rows, resource, start, end, exclude, now)
    decreases |rows|
  {
    if rows != [] {
      var p, x := rows[..|rows| - 1], rows[|rows| - 1];
      var s := Sweep(rows, resources, sweepClock);
      SweepKeepsConflicts(p, resources, sweepClock, resource, start, end, exclude, now);
      assert rows == p + [x];
      assert s == Sweep(p, resources, sweepClock) + [Swept(x, resources, sweepClock)];
      ConflictsSnoc(p, x, resource, start, end, exclude, now);
      ConflictsSnoc(Sweep(p, resources, sweepClock), Swept(x, resources, sweepClock), resource, start, end, exclude, now);
    }
  }

  // ----- the sweep as written -----

  /**
    The code as written skips an expired Draft whose slot was booked by
    somebody else after it expired: the save's capacity gate counts the
    Confirmed booking, so the draft stays Draft. The corrected sweep cancels it.
  */
  lemma AsWrittenSkipsRebookedDraft()
    ensures
      var draft := Booking("draft-1", "room", 0, 30, Draft, 0, Some(5));
      var other := Booking("booked-1", "room", 0, 30, Confirmed, 1, None);
      var rows := [draft, other];
      var resources := map["room" := Resource("room", true, None, 1, 30, 15, "")];
      && Selected(draft, 10)
      && SweepAsWritten(rows, resources, 10)[0].status == Draft
      && Sweep(rows, resources, 10)[0].status == Cancelled
  {
    var draft := Booking("draft-1", "room", 0, 30, Draft, 0, Some(5));
    var other := Booking("booked-1", "room", 0, 30, Confirmed, 1, None);
    var rows := [draft, other];
    var resources := map["room" := Resource("room", true, None, 1, 30, 15, "")];
    var c := draft.(status := Cancelled);
    ConflictsMembership(rows, "room", 0, 30, Some("draft-1"), 10, "booked-1");
    assert Blocks(rows[1], "room", 0, 30, Some("draft-1"), 10);
    assert "booked-1" in Conflicts(rows, "room", 0, 30, Some("draft-1"), 10);
    assert !CapacityGate(c, rows, resources, 10);
  }
}
