/**
  Slot generation (scheduling/slots.py): cuts every open interval of a date
  range into consecutive pieces of the resource's slot length and labels
  each piece with the capacity the overlap check leaves on it.
*/
module Slots {
  import opened Wrappers
  import opened Records
  import opened Intervals
  import opened Availability
  import opened Overlap

  /** One offered slot, as the UI receives it. */
  datatype SlotOffer = SlotOffer(start: int, end: int, capacityRemaining: nat, isAvailable: bool)

  /** Consecutive pieces of length `d` from `s`, as long as a whole piece fits before `e`. */
  function Cut(s: int, e: int, d: nat): seq<Interval>
    requires d > 0
    decreases e - s
  {
    if s < e && s + d <= e then [Interval(s, s + d)] + Cut(s + d, e, d) else []
  }

  /** The pieces of every interval of a list, in order. */
  function IntervalsGrid(ivs: seq<Interval>, d: nat): seq<Interval>
    requires d > 0
    decreases |ivs|
  {
    if ivs == [] then []
    else IntervalsGrid(ivs[..|ivs| - 1], d) + Cut(ivs[|ivs| - 1].start, ivs[|ivs| - 1].end, d)
  }

  /** The pieces of every interval of every date, in order. */
  function SlotGrid(days: seq<DayAvailability>, d: nat): seq<Interval>
    requires d > 0
    decreases |days|
  {
    if days == [] then []
    else SlotGrid(days[..|days| - 1], d) + IntervalsGrid(days[|days| - 1].intervals, d)
  }

  /** A piece labelled with the capacity left on it (slots.py:80-98). */
  function Offer(piece: Interval, res: Resource, rows: seq<Booking>, now: int): SlotOffer
  {
    var left := Remaining(EffectiveCapacity(res), |Conflicts(rows, res.name, piece.start, piece.end, None, now)|);
    SlotOffer(piece.start, piece.end, left, left > 0)
  }

  /** The offers of one open interval (slots.py:66-101). */
  method SlotsInInterval(res: Resource, rows: seq<Booking>, iv: Interval, d: nat, now: int)
    returns (offers: seq<SlotOffer>)
    requires d > 0
    ensures |offers| == |Cut(iv.start, iv.end, d)|
    ensures forall k :: 0 <= k < |offers| ==> offers[k] == Offer(Cut(iv.start, iv.end, d)[k], res, rows, now)
  {
    offers := [];
    ghost var done: seq<Interval> := [];
    var current := iv.start;
    while current < iv.end
      invariant Cut(iv.start, iv.end, d) == done + Cut(current, iv.end, d)
      invariant |offers| == |done|
      invariant forall k :: 0 <= k < |offers| ==> offers[k] == Offer(done[k], res, rows, now)
      decreases iv.end - current
    {
      var slotEnd := current + d;
      if slotEnd > iv.end {
        break;
      }
      var report := CheckOverlap(res, rows, current, slotEnd, None, now);
      var left := report.capacityAvailable;
      offers := offers + [SlotOffer(current, slotEnd, left, left > 0)];
      done := done + [Interval(current, slotEnd)];
      current := slotEnd;
    }
    assert Cut(current, iv.end, d) == [];
    assert done == Cut(iv.start, iv.end, d);
  }

  /**
    generate_available_slots (slots.py:17-104). `days` is the range
    availability the source computes first; the offers are exactly its grid
    of pieces, each labelled by the overlap check.
  */
  method GenerateSlots(res: Resource, excs: seq<DateException>, rows: seq<Booking>, startDate: int, endDate: int, now: int)
    returns (offers: seq<SlotOffer>, ghost days: seq<DayAvailability>)
    ensures forall k :: 0 <= k < |days| ==> startDate <= days[k].date <= endDate
    ensures forall j, k :: 0 <= j < k < |days| ==> days[j].date < days[k].date
    ensures forall k :: 0 <= k < |days| ==> |days[k].intervals| > 0 && Canonical(days[k].intervals)
    ensures forall k, t :: 0 <= k < |days| ==>
      (InUnion(days[k].intervals, t) <==> AvailableAt(res, excs, days[k].date, t))
    ensures forall dt, t :: startDate <= dt <= endDate && AvailableAt(res, excs, dt, t) ==>
      exists k :: 0 <= k < |days| && days[k].date == dt
    ensures PlanWellFormed(res) && ExceptionsWellFormed(excs) ==>
      forall k :: 0 <= k < |days| ==> AllNonEmpty(days[k].intervals)
    ensures |offers| == |SlotGrid(days, EffectiveSlotDuration(res))|
    ensures forall k :: 0 <= k < |offers| ==>
      offers[k] == Offer(SlotGrid(days, EffectiveSlotDuration(res))[k], res, rows, now)
    ensures forall k :: 0 <= k < |offers| ==> offers[k].end - offers[k].start == EffectiveSlotDuration(res)
    ensures forall k, t :: 0 <= k < |offers| && offers[k].start <= t < offers[k].end ==>
      AvailableAt(res, excs, DateOf(t), t) && startDate <= DateOf(t) <= endDate
    ensures forall j, k :: 0 <= j < k < |offers| ==> offers[j].end <= offers[k].start
  {
    var d := EffectiveSlotDuration(res);
    var avail := EffectiveAvailability(res, excs, startDate, endDate);
    days := avail;
    offers := [];
    var i := 0;
    while i < |avail|
      invariant 0 <= i <= |avail|
      invariant |offers| == |SlotGrid(avail[..i], d)|
      invariant forall k :: 0 <= k < |offers| ==> offers[k] == Offer(SlotGrid(avail[..i], d)[k], res, rows, now)
    {
      var ivs := avail[i].intervals;
      ghost var before := offers;
      var j := 0;
      while j < |ivs|
        invariant 0 <= j <= |ivs|
        invariant |offers| == |SlotGrid(avail[..i], d) + IntervalsGrid(ivs[..j], d)|
        invariant forall k :: 0 <= k < |offers| ==>
          offers[k] == Offer((SlotGrid(avail[..i], d) + IntervalsGrid(ivs[..j], d))[k], res, rows, now)
      {
        var more := SlotsInInterval(res, rows, ivs[j], d, now);
        GridStep(SlotGrid(avail[..i], d), ivs, j, d);
        OffersAppend(offers, more, SlotGrid(avail[..i], d) + IntervalsGrid(ivs[..j], d),
                     Cut(ivs[j].start, ivs[j].end, d), res, rows, now);
        offers := offers + more;
        j := j + 1;
      }
      assert ivs[..j] == ivs;
      assert avail[..i + 1][..i] == avail[..i];
      i := i + 1;
    }
    assert avail[..i] == avail;
    GridFacts(res, excs, avail, d, startDate, endDate);
  }

  lemma GridStep(prefix: seq<Interval>, ivs: seq<Interval>, j: int, d: nat)
    requires d > 0 && 0 <= j < |ivs|
    ensures prefix + IntervalsGrid(ivs[..j + 1], d) == (prefix + IntervalsGrid(ivs[..j], d)) + Cut(ivs[j].start, ivs[j].end, d)
  {
    assert ivs[..j + 1][..j] == ivs[..j];
  }

  lemma OffersAppend(a: seq<SlotOffer>, b: seq<SlotOffer>, ga: seq<Interval>, gb: seq<Interval>,
                     res: Resource, rows: seq<Booking>, now: int)
    requires |a| == |ga| && |b| == |gb|
    requires forall k :: 0 <= k < |a| ==> a[k] == Offer(ga[k], res, rows, now)
    requires forall k :: 0 <= k < |b| ==> b[k] == Offer(gb[k], res, rows, now)
    ensures |a + b| == |ga + gb|
    ensures forall k :: 0 <= k < |a + b| ==> (a + b)[k] == Offer((ga + gb)[k], res, rows, now)
  {
    forall k | 0 <= k < |a + b| ensures (a + b)[k] == Offer((ga + gb)[k], res, rows, now) {
      if k < |a| {
        assert (a + b)[k] == a[k] && (ga + gb)[k] == ga[k];
      } else {
        assert (a + b)[k] == b[k - |a|] && (ga + gb)[k] == gb[k - |a|];
      }
    }
  }

  // ----- the grid -----

  /** Pieces have length `d`, lie inside [s, e) and follow one another without gaps. */
  lemma {:induction false} CutPieces(s: int, e: int, d: nat)
    requires d > 0
    ensures forall k :: 0 <= k < |Cut(s, e, d)| ==>
      var p := Cut(s, e, d)[k];
      s <= p.start && p.end <= e && p.end - p.start == d
    ensures forall k :: 0 <= k < |Cut(s, e, d)| - 1 ==> Cut(s, e, d)[k].end == Cut(s, e, d)[k + 1].start
    decreases e - s
  {
    if s < e && s + d <= e {
      CutPieces(s + d, e, d);
      var r := Cut(s, e, d);
      var tail := Cut(s + d, e, d);
      assert r == [Interval(s, s + d)] + tail;
      forall k | 1 <= k < |r| ensures r[k] == tail[k - 1] { }
    }
  }

  /** The number of pieces is the number of whole slot lengths that fit in [s, e). */
  lemma {:induction false} CutCount(s: int, e: int, d: nat)
    requires d > 0 && s <= e
    ensures |Cut(s, e, d)| * d <= e - s < (|Cut(s, e, d)| + 1) * d
    decreases e - s
  {
    if s + d <= e {
      CutCount(s + d, e, d);
      var n := |Cut(s + d, e, d)|;
      assert |Cut(s, e, d)| == n + 1;
      assert (n + 1) * d == n * d + d;
      assert (n + 2) * d == (n + 1) * d + d;
    }
  }

  /** Every piece starting a whole number of slot lengths after `s` that fits is offered. */
  lemma {:induction false} CutComplete(s: int, e: int, d: nat, n: nat)
    requires d > 0 && s + (n + 1) * d <= e
    ensures n < |Cut(s, e, d)| && Cut(s, e, d)[n] == Interval(s + n * d, s + (n + 1) * d)
    decreases n
  {
    assert s < e && s + d <= e;
    if n > 0 {
      assert (s + d) + ((n - 1) + 1) * d == s + (n + 1) * d;
      CutComplete(s + d, e, d, n - 1);
      assert (s + d) + (n - 1) * d == s + n * d;
    }
  }

  /** Every piece of the grid of a list lies inside one of its intervals. */
  lemma {:induction false} IntervalsGridInside(ivs: seq<Interval>, d: nat, k: int)
    requires d > 0 && 0 <= k < |IntervalsGrid(ivs, d)|
    ensures exists j :: (0 <= j < |ivs| && ivs[j].start <= IntervalsGrid(ivs, d)[k].start
                         && IntervalsGrid(ivs, d)[k].end <= ivs[j].end)
    decreases |ivs|
  {
    var p := ivs[..|ivs| - 1];
    var last := ivs[|ivs| - 1];
    var g := IntervalsGrid(p, d);
    var c := Cut(last.start, last.end, d);
    assert IntervalsGrid(ivs, d) == g + c;
    if k < |g| {
      IntervalsGridInside(p, d, k);
      var j :| 0 <= j < |p| && p[j].start <= g[k].start && g[k].end <= p[j].end;
      assert ivs[j] == p[j];
    } else {
      CutPieces(last.start, last.end, d);
      assert IntervalsGrid(ivs, d)[k] == c[k - |g|];
    }
  }

  /** Every piece of the grid has the slot length. */
  lemma {:induction false} IntervalsGridLength(ivs: seq<Interval>, d: nat)
    requires d > 0
    ensures forall k :: 0 <= k < |IntervalsGrid(ivs, d)| ==>
      IntervalsGrid(ivs, d)[k].end - IntervalsGrid(ivs, d)[k].start == d
    decreases |ivs|
  {
    if ivs != [] {
      var p := ivs[..|ivs| - 1];
      var last := ivs[|ivs| - 1];
      IntervalsGridLength(p, d);
      CutPieces(last.start, last.end, d);
      var g: seq<Interval>, c: seq<Interval> := IntervalsGrid(p, d), Cut(last.start, last.end, d);
      forall k | 0 <= k < |g + c| ensures (g + c)[k].end - (g + c)[k].start == d {
        if k < |g| { assert (g + c)[k] == g[k]; } else { assert (g + c)[k] == c[k - |g|]; }
      }
    }
  }

  /** The grid of a canonical list is in order: each piece ends before or where the next begins. */
  lemma {:induction false} IntervalsGridOrdered(ivs: seq<Interval>, d: nat)
    requires d > 0 && Canonical(ivs)
    ensures forall i, j :: 0 <= i < j < |IntervalsGrid(ivs, d)| ==>
      IntervalsGrid(ivs, d)[i].end <= IntervalsGrid(ivs, d)[j].start
    decreases |ivs|
  {
    if ivs != [] {
      var p := ivs[..|ivs| - 1];
      var last := ivs[|ivs| - 1];
      assert Canonical(p);
      IntervalsGridOrdered(p, d);
      CutPieces(last.start, last.end, d);
      CutOrdered(last.start, last.end, d);
      var g, c := IntervalsGrid(p, d), Cut(last.start, last.end, d);
      var r := g + c;
      assert IntervalsGrid(ivs, d) == r;
      forall i, j | 0 <= i < j < |r| ensures r[i].end <= r[j].start {
        if j < |g| {
          assert r[i] == g[i] && r[j] == g[j];
        } else if i >= |g| {
          assert r[i] == c[i - |g|] && r[j] == c[j - |g|];
        } else {
          assert r[i] == g[i] && r[j] == c[j - |g|];
          IntervalsGridInside(p, d, i);
          var m :| 0 <= m < |p| && p[m].start <= g[i].start && g[i].end <= p[m].end;
          CanonicalOrder(ivs, m, |ivs| - 1);
          assert p[m] == ivs[m];
        }
      }
    }
  }

  lemma {:induction false} CutOrdered(s: int, e: int, d: nat)
    requires d > 0
    ensures forall i, j :: 0 <= i < j < |Cut(s, e, d)| ==> Cut(s, e, d)[i].end <= Cut(s, e, d)[j].start
    decreases e - s
  {
    if s < e && s + d <= e {
      CutOrdered(s + d, e, d);
      CutPieces(s + d, e, d);
      var r, tail := Cut(s, e, d), Cut(s + d, e, d);
      forall i, j | 0 <= i < j < |r| ensures r[i].end <= r[j].start {
        assert r[j] == tail[j - 1];
        if i > 0 { assert r[i] == tail[i - 1]; }
      }
    }
  }

  /** The range availability the grid is cut from: dated, in order, canonical, and exact. */
  ghost predicate DaysAgree(res: Resource, excs: seq<DateException>, days: seq<DayAvailability>, startDate: int, endDate: int)
  {
    && (forall k :: 0 <= k < |days| ==> startDate <= days[k].date <= endDate)
    && (forall j, k :: 0 <= j < k < |days| ==> days[j].date < days[k].date)
    && (forall k :: 0 <= k < |days| ==> Canonical(days[k].intervals))
    && (forall k, t :: 0 <= k < |days| ==>
          (InUnion(days[k].intervals, t) <==> AvailableAt(res, excs, days[k].date, t)))
  }

  /** Properties of the whole grid, from those of the range availability. */
  lemma GridFacts(res: Resource, excs: seq<DateException>, days: seq<DayAvailability>, d: nat, startDate: int, endDate: int)
    requires d > 0
    requires forall k :: 0 <= k < |days| ==> startDate <= days[k].date <= endDate
    requires forall j, k :: 0 <= j < k < |days| ==> days[j].date < days[k].date
    requires forall k :: 0 <= k < |days| ==> Canonical(days[k].intervals)
    requires forall k, t :: 0 <= k < |days| ==>
      (InUnion(days[k].intervals, t) <==> AvailableAt(res, excs, days[k].date, t))
    ensures forall k :: 0 <= k < |SlotGrid(days, d)| ==> SlotGrid(days, d)[k].end - SlotGrid(days, d)[k].start == d
    ensures forall k, t :: 0 <= k < |SlotGrid(days, d)| && SlotGrid(days, d)[k].start <= t < SlotGrid(days, d)[k].end ==>
      AvailableAt(res, excs, DateOf(t), t) && startDate <= DateOf(t) <= endDate
    ensures forall i, j :: 0 <= i < j < |SlotGrid(days, d)| ==> SlotGrid(days, d)[i].end <= SlotGrid(days, d)[j].start
  {
    assert DaysAgree(res, excs, days, startDate, endDate);
    SlotGridFacts(res, excs, days, d, startDate, endDate);
  }

  /** The pieces of one date lie within that date, are open throughout and are in order. */
  lemma DayGridFacts(res: Resource, excs: seq<DateException>, day: DayAvailability, d: nat)
    requires d > 0 && Canonical(day.intervals)
    requires forall t :: InUnion(day.intervals, t) <==> AvailableAt(res, excs, day.date, t)
    ensures forall k :: 0 <= k < |IntervalsGrid(day.intervals, d)| ==>
      var p := IntervalsGrid(day.intervals, d)[k];
      && p.end - p.start == d
      && day.date * MinutesPerDay <= p.start
      && p.end <= (day.date + 1) * MinutesPerDay
    ensures forall k, t ::
      (0 <= k < |IntervalsGrid(day.intervals, d)| &&
       IntervalsGrid(day.intervals, d)[k].start <= t < IntervalsGrid(day.intervals, d)[k].end) ==>
      AvailableAt(res, excs, day.date, t) && DateOf(t) == day.date
    ensures forall i, j :: 0 <= i < j < |IntervalsGrid(day.intervals, d)| ==>
      IntervalsGrid(day.intervals, d)[i].end <= IntervalsGrid(day.intervals, d)[j].start
  {
    var ivs := day.intervals;
    var h := IntervalsGrid(ivs, d);
    IntervalsGridLength(ivs, d);
    IntervalsGridOrdered(ivs, d);
    forall k | 0 <= k < |h|
      ensures forall t :: h[k].start <= t < h[k].end ==> AvailableAt(res, excs, day.date, t) && DateOf(t) == day.date
    {
      IntervalsGridInside(ivs, d, k);
      var j :| 0 <= j < |ivs| && ivs[j].start <= h[k].start && h[k].end <= ivs[j].end;
      forall t | h[k].start <= t < h[k].end ensures AvailableAt(res, excs, day.date, t) && DateOf(t) == day.date {
        assert Covers(ivs[j], t);
        assert InUnion(ivs, t);
        AvailableWithinDay(res, excs, day.date, t);
      }
    }
    forall k | 0 <= k < |h|
      ensures day.date * MinutesPerDay <= h[k].start && h[k].end <= (day.date + 1) * MinutesPerDay
    {
      assert DateOf(h[k].start) == day.date && DateOf(h[k].end - 1) == day.date;
      AvailableWithinDay(res, excs, day.date, h[k].start);
      AvailableWithinDay(res, excs, day.date, h[k].end - 1);
    }
  }

  lemma {:induction false} SlotGridFacts(res: Resource, excs: seq<DateException>, days: seq<DayAvailability>, d: nat,
                                          startDate: int, endDate: int)
    requires d > 0 && DaysAgree(res, excs, days, startDate, endDate)
    ensures forall k :: 0 <= k < |SlotGrid(days, d)| ==> SlotGrid(days, d)[k].end - SlotGrid(days, d)[k].start == d
    ensures forall k, t :: 0 <= k < |SlotGrid(days, d)| && SlotGrid(days, d)[k].start <= t < SlotGrid(days, d)[k].end ==>
      AvailableAt(res, excs, DateOf(t), t) && startDate <= DateOf(t) <= endDate
    ensures forall i, j :: 0 <= i < j < |SlotGrid(days, d)| ==> SlotGrid(days, d)[i].end <= SlotGrid(days, d)[j].start
    ensures |days| > 0 ==> forall k :: 0 <= k < |SlotGrid(days, d)| ==>
      SlotGrid(days, d)[k].end <= (days[|days| - 1].date + 1) * MinutesPerDay
    decreases |days|
  {
    if days != [] {
      var p := days[..|days| - 1];
      var last := days[|days| - 1];
      assert DaysAgree(res, excs, p, startDate, endDate);
      SlotGridFacts(res, excs, p, d, startDate, endDate);
      var g := SlotGrid(p, d);
      var h := IntervalsGrid(last.intervals, d);
      var r := g + h;
      assert SlotGrid(days, d) == r;
      DayGridFacts(res, excs, last, d);
      SlotGridJoin(res, excs, p, last, g, h, d, startDate, endDate);
    }
  }

  lemma SlotGridJoin(res: Resource, excs: seq<DateException>, p: seq<DayAvailability>, last: DayAvailability,
                     g: seq<Interval>, h: seq<Interval>, d: nat, startDate: int, endDate: int)
    requires startDate <= last.date <= endDate
    requires |p| > 0 ==> p[|p| - 1].date < last.date
    requires forall k :: 0 <= k < |g| ==> g[k].end - g[k].start == d
    requires forall k, t :: 0 <= k < |g| && g[k].start <= t < g[k].end ==>
      AvailableAt(res, excs, DateOf(t), t) && startDate <= DateOf(t) <= endDate
    requires forall i, j :: 0 <= i < j < |g| ==> g[i].end <= g[j].start
    requires |p| > 0 ==> forall k :: 0 <= k < |g| ==> g[k].end <= (p[|p| - 1].date + 1) * MinutesPerDay
    requires |p| == 0 ==> g == []
    requires forall k :: 0 <= k < |h| ==>
      && h[k].end - h[k].start == d
      && last.date * MinutesPerDay <= h[k].start
      && h[k].end <= (last.date + 1) * MinutesPerDay
    requires forall k, t :: 0 <= k < |h| && h[k].start <= t < h[k].end ==>
      AvailableAt(res, excs, last.date, t) && DateOf(t) == last.date
    requires forall i, j :: 0 <= i < j < |h| ==> h[i].end <= h[j].start
    ensures forall k :: 0 <= k < |g + h| ==> (g + h)[k].end - (g + h)[k].start == d
    ensures forall k, t :: 0 <= k < |g + h| && (g + h)[k].start <= t < (g + h)[k].end ==>
      AvailableAt(res, excs, DateOf(t), t) && startDate <= DateOf(t) <= endDate
    ensures forall i, j :: 0 <= i < j < |g + h| ==> (g + h)[i].end <= (g + h)[j].start
    ensures forall k :: 0 <= k < |g + h| ==> (g + h)[k].end <= (last.date + 1) * MinutesPerDay
  {
    JoinBounds(g, h, d, if |p| > 0 then (p[|p| - 1].date + 1) * MinutesPerDay else last.date * MinutesPerDay,
               last.date * MinutesPerDay, (last.date + 1) * MinutesPerDay);
    JoinOpen(res, excs, g, h, startDate, endDate, last.date);
  }

  /** Lengths, the day bound and the order of a concatenated grid. */
  lemma JoinBounds(g: seq<Interval>, h: seq<Interval>, d: nat, gEnd: int, hStart: int, hEnd: int)
    requires gEnd <= hStart
    requires forall k :: 0 <= k < |g| ==> g[k].end - g[k].start == d && g[k].end <= gEnd
    requires forall i, j :: 0 <= i < j < |g| ==> g[i].end <= g[j].start
    requires forall k :: 0 <= k < |h| ==> h[k].end - h[k].start == d && hStart <= h[k].start && h[k].end <= hEnd
    requires forall i, j :: 0 <= i < j < |h| ==> h[i].end <= h[j].start
    requires gEnd <= hEnd || g == []
    ensures forall k :: 0 <= k < |g + h| ==> (g + h)[k].end - (g + h)[k].start == d
    ensures forall i, j :: 0 <= i < j < |g + h| ==> (g + h)[i].end <= (g + h)[j].start
    ensures forall k :: 0 <= k < |g + h| ==> (g + h)[k].end <= hEnd
  {
    var r := g + h;
    forall k | 0 <= k < |r| ensures r[k].end - r[k].start == d && r[k].end <= hEnd {
      if k < |g| { assert r[k] == g[k]; } else { assert r[k] == h[k - |g|]; }
    }
    forall i, j | 0 <= i < j < |r| ensures r[i].end <= r[j].start {
      if j < |g| {
        assert r[i] == g[i] && r[j] == g[j];
      } else if i >= |g| {
        assert r[i] == h[i - |g|] && r[j] == h[j - |g|];
      } else {
        assert r[i] == g[i] && r[j] == h[j - |g|];
      }
    }
  }

  /** Every minute of a concatenated grid is open and inside the range. */
  lemma JoinOpen(res: Resource, excs: seq<DateException>, g: seq<Interval>, h: seq<Interval>,
                 startDate: int, endDate: int, date: int)
    requires startDate <= date <= endDate
    requires forall k, t :: 0 <= k < |g| && g[k].start <= t < g[k].end ==>
      AvailableAt(res, excs, DateOf(t), t) && startDate <= DateOf(t) <= endDate
    requires forall k, t :: 0 <= k < |h| && h[k].start <= t < h[k].end ==>
      AvailableAt(res, excs, date, t) && DateOf(t) == date
    ensures forall k, t :: 0 <= k < |g + h| && (g + h)[k].start <= t < (g + h)[k].end ==>
      AvailableAt(res, excs, DateOf(t), t) && startDate <= DateOf(t) <= endDate
  {
    var r := g + h;
    forall k, t | 0 <= k < |r| && r[k].start <= t < r[k].end
      ensures AvailableAt(res, excs, DateOf(t), t) && startDate <= DateOf(t) <= endDate
    {
      if k < |g| { assert r[k] == g[k]; } else { assert r[k] == h[k - |g|]; }
    }
  }
}
