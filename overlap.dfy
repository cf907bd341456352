/**
  Overlap detection (scheduling/overlap.py): which stored appointments hold
  capacity on a resource during [start, end), and whether the resource's
  capacity is used up.

  A row holds capacity when it is on the resource, is Draft or Confirmed,
  intersects the range, is not the excluded appointment, and is not a Draft
  whose hold has expired (`draftExpiresAt` strictly before `now`).
*/
module Overlap {
  import opened Wrappers
  import opened Records

  /** The rows the store query selects (overlap.py:59-68). */
  predicate IsCandidate(b: Booking, resource: string, start: int, end: int, exclude: Option<string>)
  {
    && b.resource == resource
    && (b.status == Draft || b.status == Confirmed)
    && b.start < end
    && b.end > start
    && (exclude.Some? ==> b.name != exclude.value)
  }

  /** A Draft that has an expiry time which has passed (overlap.py:82-87). */
  predicate IsExpiredDraft(b: Booking, now: int)
  {
    b.status == Draft && b.draftExpiresAt.Some? && b.draftExpiresAt.value < now
  }

  /** The row holds capacity against the range. */
  predicate Blocks(b: Booking, resource: string, start: int, end: int, exclude: Option<string>, now: int)
  {
    IsCandidate(b, resource, start, end, exclude) && !IsExpiredDraft(b, now)
  }

  /** The store query: candidate rows in table order. */
  function Query(rows: seq<Booking>, resource: string, start: int, end: int, exclude: Option<string>): seq<Booking>
    decreases |rows|
  {
    if rows == [] then []
    else
      var b := rows[|rows| - 1];
      Query(rows[..|rows| - 1], resource, start, end, exclude)
      + (if IsCandidate(b, resource, start, end, exclude) then [b] else [])
  }

  /** Names of the rows that are not expired Drafts, in order. */
  function LiveNames(cands: seq<Booking>, now: int): seq<string>
    decreases |cands|
  {
    if cands == [] then []
    else
      var b := cands[|cands| - 1];
      LiveNames(cands[..|cands| - 1], now) + (if IsExpiredDraft(b, now) then [] else [b.name])
  }

  /** The appointments the overlap check reports. */
  function Conflicts(rows: seq<Booking>, resource: string, start: int, end: int, exclude: Option<string>, now: int): seq<string>
  {
    LiveNames(Query(rows, resource, start, end, exclude), now)
  }

  datatype OverlapReport = OverlapReport(
    hasOverlap: bool,
    overlapping: seq<string>,
    capacityExceeded: bool,
    capacityUsed: nat,
    capacityAvailable: nat)

  /** Capacity left after `used` holders: never negative. */
  function Remaining(capacity: int, used: nat): (a: nat)
    ensures a > 0 <==> used < capacity
    ensures used < capacity ==> used + a == capacity
  {
    if capacity - used > 0 then capacity - used else 0
  }

  /** check_overlap (overlap.py:17-107). */
  method CheckOverlap(resource: Resource, rows: seq<Booking>, start: int, end: int, exclude: Option<string>, now: int)
    returns (r: OverlapReport)
    ensures r.overlapping == Conflicts(rows, resource.name, start, end, exclude, now)
    ensures r.capacityUsed == |r.overlapping|
    ensures r.hasOverlap <==> |r.overlapping| > 0
    ensures r.capacityExceeded <==> |r.overlapping| >= EffectiveCapacity(resource)
    ensures r.capacityAvailable == Remaining(EffectiveCapacity(resource), |r.overlapping|)
    ensures r.capacityExceeded <==> r.capacityAvailable == 0
  {
    var capacity := EffectiveCapacity(resource);
    var cands := Query(rows, resource.name, start, end, exclude);
    var active: seq<string> := [];
    var i := 0;
    while i < |cands|
      invariant 0 <= i <= |cands|
      invariant active == LiveNames(cands[..i], now)
    {
      var b := cands[i];
      assert cands[..i + 1][..i] == cands[..i];
      if b.status == Draft {
        if b.draftExpiresAt.Some? {
          if b.draftExpiresAt.value < now {
            i := i + 1;
            continue;
          }
        }
      }
      active := active + [b.name];
      i := i + 1;
    }
    assert cands[..i] == cands;
    var count := |active|;
    r := OverlapReport(count > 0, active, count >= capacity, count, Remaining(capacity, count));
  }

  // ----- properties -----

  lemma QuerySnoc(rows: seq<Booking>, x: Booking, resource: string, start: int, end: int, exclude: Option<string>)
    ensures Query(rows + [x], resource, start, end, exclude)
      == Query(rows, resource, start, end, exclude) + (if IsCandidate(x, resource, start, end, exclude) then [x] else [])
  {
    assert (rows + [x])[..|rows|] == rows;
  }

  lemma LiveNamesSnoc(cands: seq<Booking>, x: Booking, now: int)
    ensures LiveNames(cands + [x], now) == LiveNames(cands, now) + (if IsExpiredDraft(x, now) then [] else [x.name])
  {
    assert (cands + [x])[..|cands|] == cands;
  }

  /** Appending a row to the table appends its name to the report exactly when it holds capacity. */
  lemma ConflictsSnoc(rows: seq<Booking>, x: Booking, resource: string, start: int, end: int, exclude: Option<string>, now: int)
    ensures Conflicts(rows + [x], resource, start, end, exclude, now)
      == Conflicts(rows, resource, start, end, exclude, now)
         + (if Blocks(x, resource, start, end, exclude, now) then [x.name] else [])
  {
    QuerySnoc(rows, x, resource, start, end, exclude);
    var q := Query(rows, resource, start, end, exclude);
    if IsCandidate(x, resource, start, end, exclude) {
      LiveNamesSnoc(q, x, now);
    } else {
      assert q + [] == q;
    }
  }

  /** A name is reported exactly when some row of that name holds capacity against the range. */
  lemma {:induction false} ConflictsMembership(rows: seq<Booking>, resource: string, start: int, end: int,
                                                exclude: Option<string>, now: int, n: string)
    ensures n in Conflicts(rows, resource, start, end, exclude, now)
        <==> exists k :: 0 <= k < |rows| && rows[k].name == n && Blocks(rows[k], resource, start, end, exclude, now)
    decreases |rows|
  {
    if rows != [] {
      var p, x := rows[..|rows| - 1], rows[|rows| - 1];
      assert rows == p + [x];
      ConflictsSnoc(p, x, resource, start, end, exclude, now);
      ConflictsMembership(p, resource, start, end, exclude, now, n);
      if exists k :: 0 <= k < |p| && p[k].name == n && Blocks(p[k], resource, start, end, exclude, now) {
        var k :| 0 <= k < |p| && p[k].name == n && Blocks(p[k], resource, start, end, exclude, now);
        assert rows[k] == p[k];
      }
      if exists k :: 0 <= k < |rows| && rows[k].name == n && Blocks(rows[k], resource, start, end, exclude, now) {
        var k :| 0 <= k < |rows| && rows[k].name == n && Blocks(rows[k], resource, start, end, exclude, now);
        if k < |p| { assert p[k] == rows[k]; }
      }
    }
  }

  /** The appointment being checked is never counted against itself. */
  lemma ExcludedNotReported(rows: seq<Booking>, resource: string, start: int, end: int, name: string, now: int)
    ensures name !in Conflicts(rows, resource, start, end, Some(name), now)
  {
    ConflictsMembership(rows, resource, start, end, Some(name), now, name);
  }

  /** Holds only expire: a later clock never reports more appointments. */
  lemma {:induction false} LaterClockFewerConflicts(rows: seq<Booking>, resource: string, start: int, end: int,
                                                     exclude: Option<string>, now: int, later: int)
    requires now <= later
    ensures |Conflicts(rows, resource, start, end, exclude, later)| <= |Conflicts(rows, resource, start, end, exclude, now)|
    decreases |rows|
  {
    if rows != [] {
      var p, x := rows[..|rows| - 1], rows[|rows| - 1];
      assert rows == p + [x];
      ConflictsSnoc(p, x, resource, start, end, exclude, now);
      ConflictsSnoc(p, x, resource, start, end, exclude, later);
      LaterClockFewerConflicts(p, resource, start, end, exclude, now, later);
    }
  }

  // ----- capacity as a bound on simultaneous holders -----

  /** The row holds capacity at instant `t`. */
  predicate LiveAt(b: Booking, resource: string, t: int, now: int)
  {
    && b.resource == resource
    && (b.status == Draft || b.status == Confirmed)
    && b.start <= t < b.end
    && !IsExpiredDraft(b, now)
  }

  /** The number of rows holding capacity on `resource` at instant `t`. */
  function Load(rows: seq<Booking>, resource: string, t: int, now: int): nat
    decreases |rows|
  {
    if rows == [] then 0
    else Load(rows[..|rows| - 1], resource, t, now) + (if LiveAt(rows[|rows| - 1], resource, t, now) then 1 else 0)
  }

  lemma LoadSnoc(rows: seq<Booking>, x: Booking, resource: string, t: int, now: int)
    ensures Load(rows + [x], resource, t, now) == Load(rows, resource, t, now) + (if LiveAt(x, resource, t, now) then 1 else 0)
  {
    assert (rows + [x])[..|rows|] == rows;
  }

  /** The reported count bounds the number of holders at any instant of the range. */
  lemma {:induction false} LoadWithinConflicts(rows: seq<Booking>, resource: string, start: int, end: int, t: int, now: int)
    requires start <= t < end
    ensures Load(rows, resource, t, now) <= |Conflicts(rows, resource, start, end, None, now)|
    decreases |rows|
  {
    if rows != [] {
      var p, x := rows[..|rows| - 1], rows[|rows| - 1];
      assert rows == p + [x];
      ConflictsSnoc(p, x, resource, start, end, None, now);
      LoadWithinConflicts(p, resource, start, end, t, now);
    }
  }

  /**
    Admitting a booking only when the check reports spare capacity keeps the
    number of simultaneous holders within capacity at every instant.
  */
  lemma AdmissionKeepsLoad(rows: seq<Booking>, resource: Resource, nb: Booking, now: int)
    requires forall t :: Load(rows, resource.name, t, now) <= EffectiveCapacity(resource)
    requires nb.resource == resource.name
    requires |Conflicts(rows, resource.name, nb.start, nb.end, None, now)| < EffectiveCapacity(resource)
    ensures forall t :: Load(rows + [nb], resource.name, t, now) <= EffectiveCapacity(resource)
  {
    forall t ensures Load(rows + [nb], resource.name, t, now) <= EffectiveCapacity(resource) {
      LoadSnoc(rows, nb, resource.name, t, now);
      if LiveAt(nb, resource.name, t, now) {
        LoadWithinConflicts(rows, resource.name, nb.start, nb.end, t, now);
      }
    }
  }
}
