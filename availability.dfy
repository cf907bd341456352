/**
  The availability resolver (scheduling/availability.py): the open intervals of
  a calendar resource on one date, and over a range of dates.

  `AvailableAt` is the reference meaning of the resolver, one instant at a
  time: the resource and its plan apply on the date, the plan has a weekly
  row for the weekday, and the date's calendar exceptions, in the order the
  store returns them, turn that instant on or off. The methods compute the
  interval lists the source builds and are proved to cover exactly the
  instants `AvailableAt` accepts, in merged (canonical) form.
*/
module Availability {
  import opened Wrappers
  import opened Records
  import opened Intervals

  // ----- reference semantics -----

  /** The guards before any slot is read: active resource, a plan, active plan, date within validity. */
  predicate PlanApplies(res: Resource, date: int)
  {
    && res.isActive
    && res.plan.Some?
    && res.plan.value.isActive
    && (res.plan.value.validFrom.Some? ==> res.plan.value.validFrom.value <= date)
    && (res.plan.value.validTo.Some? ==> date <= res.plan.value.validTo.value)
  }

  /** The interval a weekly row opens on `date`. */
  function SlotWindow(s: WeeklySlot, date: int): Interval
  {
    Interval(Instant(date, s.startTime), Instant(date, s.endTime))
  }

  predicate HasWeekdaySlot(slots: seq<WeeklySlot>, date: int)
  {
    exists k :: 0 <= k < |slots| && slots[k].weekday == WeekdayOf(date)
  }

  /** Some weekly row for the weekday of `date` covers instant `t`. */
  predicate BaseAt(slots: seq<WeeklySlot>, date: int, t: int)
  {
    exists k :: 0 <= k < |slots| && slots[k].weekday == WeekdayOf(date) && Covers(SlotWindow(slots[k], date), t)
  }

  /** The interval an exception with both times names on its date. */
  function Window(e: DateException, date: int): Interval
    requires HasTimes(e)
  {
    Interval(Instant(date, e.startTime.value), Instant(date, e.endTime.value))
  }

  /** The exceptions the store returns for one resource and date, in store order. */
  function ExceptionsFor(excs: seq<DateException>, resource: string, date: int): (r: seq<DateException>)
    ensures |r| <= |excs|
    ensures forall e :: e in r <==> e in excs && e.resource == resource && e.date == date
  {
    if excs == [] then []
    else
      (if excs[0].resource == resource && excs[0].date == date then [excs[0]] else [])
      + ExceptionsFor(excs[1..], resource, date)
  }

  /**
    Whether `t` is open after the exceptions `es`, applied in order, act on
    the openness `base` the weekly plan gives it. A Closed exception without
    times closes the whole day; Blocked and Extra Availability exceptions
    without times do nothing.
  */
  predicate Layered(es: seq<DateException>, base: bool, date: int, t: int)
    decreases |es|
  {
    if es == [] then base
    else StepOpen(es[|es| - 1], Layered(es[..|es| - 1], base, date, t), date, t)
  }

  /** The effect of one exception on the openness `before` of instant `t`. */
  predicate StepOpen(e: DateException, before: bool, date: int, t: int)
  {
    match e.kind
    case Closed => HasTimes(e) && before && !Covers(Window(e, date), t)
    case Blocked => if HasTimes(e) then before && !Covers(Window(e, date), t) else before
    case ExtraAvailability => if HasTimes(e) then before || Covers(Window(e, date), t) else before
  }

  /** The reference meaning of the day resolver at one instant. */
  predicate AvailableAt(res: Resource, excs: seq<DateException>, date: int, t: int)
  {
    && PlanApplies(res, date)
    && HasWeekdaySlot(res.plan.value.slots, date)
    && Layered(ExceptionsFor(excs, res.name, date), BaseAt(res.plan.value.slots, date, t), date, t)
  }

  /** Weekly rows open before they close (what plan validation guarantees). */
  predicate SlotsWellFormed(slots: seq<WeeklySlot>)
  {
    forall k :: 0 <= k < |slots| ==> slots[k].startTime < slots[k].endTime
  }

  predicate PlanWellFormed(res: Resource)
  {
    res.plan.Some? ==> SlotsWellFormed(res.plan.value.slots)
  }

  /** Exceptions with both times start before they end (what exception validation guarantees). */
  predicate ExceptionsWellFormed(excs: seq<DateException>)
  {
    forall k :: 0 <= k < |excs| && HasTimes(excs[k]) ==> excs[k].startTime.value < excs[k].endTime.value
  }

  // ----- the resolver -----

  /** The plan's rows for the weekday of `date`, in table order (availability.py:134-154). */
  method BaseIntervals(slots: seq<WeeklySlot>, date: int) returns (base: seq<Interval>)
    ensures forall t :: InUnion(base, t) <==> BaseAt(slots, date, t)
    ensures |base| == 0 <==> !HasWeekdaySlot(slots, date)
    ensures SlotsWellFormed(slots) ==> AllNonEmpty(base)
  {
    base := [];
    var k := 0;
    while k < |slots|
      invariant 0 <= k <= |slots|
      invariant forall t :: InUnion(base, t) <==> BaseAt(slots[..k], date, t)
      invariant |base| == 0 <==> !HasWeekdaySlot(slots[..k], date)
      invariant SlotsWellFormed(slots) ==> AllNonEmpty(base)
    {
      BasePrefix(slots, k, date);
      if slots[k].weekday == WeekdayOf(date) {
        var w := SlotWindow(slots[k], date);
        forall t ensures InUnion(base + [w], t) <==> InUnion(base, t) || Covers(w, t) {
          InUnionAppend(base, w, t);
        }
        base := base + [w];
      }
      k := k + 1;
    }
    assert slots[..k] == slots;
  }

  lemma BasePrefix(slots: seq<WeeklySlot>, k: int, date: int)
    requires 0 <= k < |slots|
    ensures forall t :: BaseAt(slots[..k + 1], date, t) <==>
      BaseAt(slots[..k], date, t) || (slots[k].weekday == WeekdayOf(date) && Covers(SlotWindow(slots[k], date), t))
    ensures HasWeekdaySlot(slots[..k + 1], date) <==>
      HasWeekdaySlot(slots[..k], date) || slots[k].weekday == WeekdayOf(date)
  {
    var p, q := slots[..k], slots[..k + 1];
    assert forall j :: 0 <= j < k ==> q[j] == p[j];
    assert q[k] == slots[k];
  }

  /** Removes `block` from every interval, keeping their order (availability.py:257-261, 276-280). */
  method SubtractFromAll(intervals: seq<Interval>, block: Interval) returns (out: seq<Interval>)
    ensures forall t :: InUnion(out, t) <==> InUnion(intervals, t) && !Covers(block, t)
    ensures AllNonEmpty(intervals) ==> AllNonEmpty(out)
  {
    out := [];
    var j := 0;
    while j < |intervals|
      invariant 0 <= j <= |intervals|
      invariant forall t :: InUnion(out, t) <==> InUnion(intervals[..j], t) && !Covers(block, t)
      invariant AllNonEmpty(intervals) ==> AllNonEmpty(out)
    {
      var pieces := Subtract(intervals[j], block);
      PrefixCover(intervals, j);
      forall t ensures InUnion(out + pieces, t) <==> InUnion(out, t) || InUnion(pieces, t) {
        InUnionConcat(out, pieces, t);
      }
      if AllNonEmpty(intervals) {
        NonEmptyConcat(out, pieces);
      }
      out := out + pieces;
      j := j + 1;
    }
    assert intervals[..j] == intervals;
  }

  lemma NonEmptyConcat(a: seq<Interval>, b: seq<Interval>)
    requires AllNonEmpty(a) && AllNonEmpty(b)
    ensures AllNonEmpty(a + b)
  {
    forall k | 0 <= k < |a + b| ensures NonEmpty((a + b)[k]) {
      if k < |a| { assert (a + b)[k] == a[k]; } else { assert (a + b)[k] == b[k - |a|]; }
    }
  }

  /** Applies the date's exceptions, in store order, to the base intervals (availability.py:210-294). */
  method ApplyExceptions(intervals: seq<Interval>, excs: seq<DateException>, resource: string, date: int)
    returns (r: seq<Interval>)
    ensures forall t :: InUnion(r, t) <==> Layered(ExceptionsFor(excs, resource, date), InUnion(intervals, t), date, t)
    ensures AllNonEmpty(intervals) && ExceptionsWellFormed(excs) ==> AllNonEmpty(r)
  {
    var exceptions := ExceptionsFor(excs, resource, date);
    if |exceptions| == 0 {
      return intervals;
    }
    assert ExceptionsWellFormed(excs) ==> ExceptionsWellFormed(exceptions) by {
      if ExceptionsWellFormed(excs) {
        forall k | 0 <= k < |exceptions| && HasTimes(exceptions[k])
          ensures exceptions[k].startTime.value < exceptions[k].endTime.value
        {
          assert exceptions[k] in excs;
        }
      }
    }
    r := intervals;
    var i := 0;
    while i < |exceptions|
      invariant 0 <= i <= |exceptions|
      invariant forall t :: InUnion(r, t) <==> Layered(exceptions[..i], InUnion(intervals, t), date, t)
      invariant AllNonEmpty(intervals) && ExceptionsWellFormed(exceptions) ==> AllNonEmpty(r)
    {
      var e := exceptions[i];
      LayeredStep(exceptions, i, intervals, date);
      match e.kind {
        case Closed =>
          if HasTimes(e) {
            r := SubtractFromAll(r, Window(e, date));
          } else {
            r := [];
          }
        case Blocked =>
          if HasTimes(e) {
            r := SubtractFromAll(r, Window(e, date));
          }
        case ExtraAvailability =>
          if HasTimes(e) {
            var w := Window(e, date);
            forall t ensures InUnion(r + [w], t) <==> InUnion(r, t) || Covers(w, t) {
              InUnionAppend(r, w, t);
            }
            if AllNonEmpty(intervals) && ExceptionsWellFormed(exceptions) {
              assert NonEmpty(w);
              NonEmptyConcat(r, [w]);
            }
            r := r + [w];
          }
      }
      i := i + 1;
    }
    assert exceptions[..i] == exceptions;
  }

  /** Unfolds `Layered` on a prefix extended by one exception. */
  lemma LayeredStep(es: seq<DateException>, i: int, intervals: seq<Interval>, date: int)
    requires 0 <= i < |es|
    ensures forall t :: (Layered(es[..i + 1], InUnion(intervals, t), date, t) ==
                         StepOpen(es[i], Layered(es[..i], InUnion(intervals, t), date, t), date, t))
  {
    assert es[..i + 1][..i] == es[..i];
  }

  /**
    The open intervals of one date (availability.py:39-169): empty when a guard
    fails or the weekday has no row, otherwise the merged result of applying
    the date's exceptions to the weekly rows.
  */
  method DaySlots(res: Resource, excs: seq<DateException>, date: int) returns (r: seq<Interval>)
    ensures forall t :: InUnion(r, t) <==> AvailableAt(res, excs, date, t)
    ensures Canonical(r)
    ensures PlanWellFormed(res) && ExceptionsWellFormed(excs) ==> AllNonEmpty(r)
    ensures !PlanApplies(res, date) ==> r == []
    ensures PlanApplies(res, date) && !HasWeekdaySlot(res.plan.value.slots, date) ==> r == []
  {
    if !res.isActive {
      return [];
    }
    if res.plan.None? {
      return [];
    }
    var plan := res.plan.value;
    if !plan.isActive {
      return [];
    }
    if plan.validFrom.Some? && date < plan.validFrom.value {
      return [];
    }
    if plan.validTo.Some? && date > plan.validTo.value {
      return [];
    }
    var base := BaseIntervals(plan.slots, date);
    if |base| == 0 {
      return [];
    }
    var applied := ApplyExceptions(base, excs, res.name, date);
    var merged := MergeIntervals(applied);
    r := SortByStart(merged);
    SortSorted(merged);
  }

  /** One date of a range result: the date and its (nonempty) open intervals. */
  datatype DayAvailability = DayAvailability(date: int, intervals: seq<Interval>)

  /**
    Open intervals for every date from `startDate` to `endDate` inclusive,
    omitting dates with none, in date order (availability.py:172-207).
  */
  method EffectiveAvailability(res: Resource, excs: seq<DateException>, startDate: int, endDate: int)
    returns (days: seq<DayAvailability>)
    ensures forall k :: 0 <= k < |days| ==> startDate <= days[k].date <= endDate
    ensures forall j, k :: 0 <= j < k < |days| ==> days[j].date < days[k].date
    ensures forall k :: 0 <= k < |days| ==> |days[k].intervals| > 0 && Canonical(days[k].intervals)
    ensures forall k, t :: 0 <= k < |days| ==>
      (InUnion(days[k].intervals, t) <==> AvailableAt(res, excs, days[k].date, t))
    ensures forall d, t :: startDate <= d <= endDate && AvailableAt(res, excs, d, t) ==>
      exists k :: 0 <= k < |days| && days[k].date == d
    ensures PlanWellFormed(res) && ExceptionsWellFormed(excs) ==>
      forall k :: 0 <= k < |days| ==> AllNonEmpty(days[k].intervals)
  {
    days := [];
    var current := startDate;
    while current <= endDate
      invariant startDate <= current <= if startDate <= endDate then endDate + 1 else startDate
      invariant DaysSound(res, excs, days, startDate, current)
      invariant forall d, t :: startDate <= d < current && AvailableAt(res, excs, d, t) ==>
        exists k :: 0 <= k < |days| && days[k].date == d
      decreases endDate - current
    {
      var slots := DaySlots(res, excs, current);
      var before := days;
      if |slots| > 0 {
        days := days + [DayAvailability(current, slots)];
      }
      AppendDay(res, excs, before, days, startDate, current, slots);
      current := current + 1;
    }
  }

  /** The facts the range loop keeps about the dates recorded so far, all of them before `hi`. */
  ghost predicate DaysSound(res: Resource, excs: seq<DateException>, days: seq<DayAvailability>, lo: int, hi: int)
  {
    && (forall k :: 0 <= k < |days| ==> lo <= days[k].date < hi)
    && (forall j, k :: 0 <= j < k < |days| ==> days[j].date < days[k].date)
    && (forall k :: 0 <= k < |days| ==> |days[k].intervals| > 0 && Canonical(days[k].intervals))
    && (forall k, t :: 0 <= k < |days| ==>
          (InUnion(days[k].intervals, t) <==> AvailableAt(res, excs, days[k].date, t)))
    && (PlanWellFormed(res) && ExceptionsWellFormed(excs) ==>
          forall k :: 0 <= k < |days| ==> AllNonEmpty(days[k].intervals))
  }

  /** One step of the range loop: record the date when it has open time. */
  lemma AppendDay(res: Resource, excs: seq<DateException>, before: seq<DayAvailability>, days: seq<DayAvailability>,
                  lo: int, cur: int, slots: seq<Interval>)
    requires lo <= cur
    requires DaysSound(res, excs, before, lo, cur)
    requires forall d, t :: lo <= d < cur && AvailableAt(res, excs, d, t) ==>
      exists k :: 0 <= k < |before| && before[k].date == d
    requires forall t :: InUnion(slots, t) <==> AvailableAt(res, excs, cur, t)
    requires Canonical(slots)
    requires PlanWellFormed(res) && ExceptionsWellFormed(excs) ==> AllNonEmpty(slots)
    requires days == if |slots| > 0 then before + [DayAvailability(cur, slots)] else before
    ensures DaysSound(res, excs, days, lo, cur + 1)
    ensures forall d, t :: lo <= d < cur + 1 && AvailableAt(res, excs, d, t) ==>
      exists k :: 0 <= k < |days| && days[k].date == d
  {
    if |slots| > 0 {
      SoundSnoc(res, excs, before, DayAvailability(cur, slots), lo, cur);
    }
    forall d, t | lo <= d < cur + 1 && AvailableAt(res, excs, d, t)
      ensures exists k :: 0 <= k < |days| && days[k].date == d
    {
      if d == cur {
        assert InUnion(slots, t);
        assert days[|days| - 1].date == d;
      } else {
        var k :| 0 <= k < |before| && before[k].date == d;
        assert days[k] == before[k];
      }
    }
  }

  lemma SoundSnoc(res: Resource, excs: seq<DateException>, before: seq<DayAvailability>, day: DayAvailability,
                  lo: int, cur: int)
    requires lo <= cur == day.date
    requires DaysSound(res, excs, before, lo, cur)
    requires |day.intervals| > 0 && Canonical(day.intervals)
    requires forall t :: InUnion(day.intervals, t) <==> AvailableAt(res, excs, cur, t)
    requires PlanWellFormed(res) && ExceptionsWellFormed(excs) ==> AllNonEmpty(day.intervals)
    ensures DaysSound(res, excs, before + [day], lo, cur + 1)
  {
    var days := before + [day];
    assert forall k :: 0 <= k < |before| ==> days[k] == before[k];
    assert days[|before|] == day;
  }

  // ----- properties -----

  /** Every open instant comes from a weekly row or an Extra Availability window. */
  lemma {:induction false} LayeredSource(es: seq<DateException>, base: bool, date: int, t: int)
    requires Layered(es, base, date, t)
    ensures base || exists j :: (0 <= j < |es| && es[j].kind == ExtraAvailability && HasTimes(es[j])
      && Covers(Window(es[j], date), t))
    decreases |es|
  {
    if es != [] {
      var p := es[..|es| - 1];
      var e := es[|es| - 1];
      if Layered(p, base, date, t) {
        LayeredSource(p, base, date, t);
        if !base {
          var j :| 0 <= j < |p| && p[j].kind == ExtraAvailability && HasTimes(p[j]) && Covers(Window(p[j], date), t);
          assert es[j] == p[j];
        }
      } else {
        assert es[|es| - 1] == e;
      }
    }
  }

  lemma DayOfInstant(date: int, m: int)
    requires 0 <= m < MinutesPerDay
    ensures DateOf(date * MinutesPerDay + m) == date
  {
  }

  /** An open instant lies on the date it was computed for. */
  lemma AvailableWithinDay(res: Resource, excs: seq<DateException>, date: int, t: int)
    requires AvailableAt(res, excs, date, t)
    ensures date * MinutesPerDay <= t < (date + 1) * MinutesPerDay
    ensures DateOf(t) == date
  {
    var es := ExceptionsFor(excs, res.name, date);
    var slots := res.plan.value.slots;
    LayeredSource(es, BaseAt(slots, date, t), date, t);
    if BaseAt(slots, date, t) {
      var k :| 0 <= k < |slots| && slots[k].weekday == WeekdayOf(date) && Covers(SlotWindow(slots[k], date), t);
      DayOfInstant(date, t - date * MinutesPerDay);
    } else {
      var j :| 0 <= j < |es| && es[j].kind == ExtraAvailability && HasTimes(es[j]) && Covers(Window(es[j], date), t);
      DayOfInstant(date, t - date * MinutesPerDay);
    }
  }

  /**
    A Closed exception without times overrides everything applied before it:
    after it, only later Extra Availability windows can open an instant.
  */
  lemma {:induction false} ClosedDayOverrides(es: seq<DateException>, c: int, base: bool, date: int, t: int)
    requires 0 <= c < |es| && es[c].kind == Closed && !HasTimes(es[c])
    requires Layered(es, base, date, t)
    ensures exists j :: (c < j < |es| && es[j].kind == ExtraAvailability && HasTimes(es[j])
      && Covers(Window(es[j], date), t))
    decreases |es|
  {
    var p := es[..|es| - 1];
    var e := es[|es| - 1];
    if c == |es| - 1 {
      assert false;
    } else if Layered(p, base, date, t) {
      assert p[c] == es[c];
      ClosedDayOverrides(p, c, base, date, t);
      var j :| c < j < |p| && p[j].kind == ExtraAvailability && HasTimes(p[j]) && Covers(Window(p[j], date), t);
      assert es[j] == p[j];
    } else {
      assert es[|es| - 1] == e;
    }
  }
}
