/**
  Validation of a Calendar Exception form
  (doctype/calendar_exception/calendar_exception.py): required fields, a
  start before the end when both times are given, both times for Extra
  Availability, and warnings (never a rejection) about other exceptions
  already stored for the same resource and date.
*/
module ExceptionDoc {
  import opened Wrappers
  import opened Records
  import opened Availability

  /** The form as entered; a missing field is None (or "" for text). */
  datatype ExceptionForm = ExceptionForm(
    name: string,
    resource: string,
    kind: Option<ExceptionKind>,
    date: Option<int>,
    startTime: Option<Minute>,
    endTime: Option<Minute>)

  datatype ExceptionError =
    | MissingResource
    | MissingKind
    | MissingDate
    | StartNotBeforeEnd(start: Minute, end: Minute)
    | ExtraNeedsStart
    | ExtraNeedsEnd

  datatype ExceptionWarning =
    | WholeDayClosed(existing: nat)
    | OverlapsWith(other: string, start: Minute, end: Minute)

  /** The stored exceptions the duplicate check looks at (calendar_exception.py:83-93). */
  predicate SameDayOther(e: DateException, form: ExceptionForm)
    requires form.date.Some?
  {
    e.resource == form.resource && e.date == form.date.value && (form.name != "" ==> e.name != form.name)
  }

  function Existing(stored: seq<DateException>, form: ExceptionForm): (r: seq<DateException>)
    requires form.date.Some?
    ensures |r| <= |stored|
    ensures forall e :: e in r <==> e in stored && SameDayOther(e, form)
    decreases |stored|
  {
    if stored == [] then []
    else
      var e := stored[|stored| - 1];
      assert forall x :: x in stored <==> x in stored[..|stored| - 1] || x == e;
      Existing(stored[..|stored| - 1], form) + (if SameDayOther(e, form) then [e] else [])
  }

  /** The strict overlap test of calendar_exception.py:116. */
  predicate TimesOverlap(s: Minute, e: Minute, other: DateException)
  {
    HasTimes(other) && s < other.endTime.value && e > other.startTime.value
  }

  /** One warning per timed existing exception the new range overlaps, in table order. */
  function OverlapWarnings(existing: seq<DateException>, s: Minute, e: Minute): (r: seq<ExceptionWarning>)
    ensures |r| <= |existing|
    ensures forall k :: 0 <= k < |r| ==> r[k].OverlapsWith?
    decreases |existing|
  {
    if existing == [] then []
    else
      var x := existing[|existing| - 1];
      OverlapWarnings(existing[..|existing| - 1], s, e)
      + (if TimesOverlap(s, e, x) then [OverlapsWith(x.name, x.startTime.value, x.endTime.value)] else [])
  }

  /** Whole-day Closed: no times at all. */
  predicate WholeDay(form: ExceptionForm)
  {
    form.kind == Some(Closed) && form.startTime.None? && form.endTime.None?
  }

  /** _check_duplicate_exceptions: warnings only. */
  function DuplicateWarnings(form: ExceptionForm, stored: seq<DateException>): (r: seq<ExceptionWarning>)
    requires form.date.Some?
  {
    var existing := Existing(stored, form);
    if existing == [] then []
    else if WholeDay(form) then [WholeDayClosed(|existing|)]
    else if form.startTime.Some? && form.endTime.Some? then OverlapWarnings(existing, form.startTime.value, form.endTime.value)
    else []
  }

  /** The form passes every check that can reject. */
  predicate Acceptable(form: ExceptionForm)
  {
    && form.resource != ""
    && form.kind.Some?
    && form.date.Some?
    && (form.startTime.Some? && form.endTime.Some? ==> form.startTime.value < form.endTime.value)
    && (form.kind == Some(ExtraAvailability) ==> form.startTime.Some? && form.endTime.Some?)
  }

  /** CalendarException.validate (calendar_exception.py:33-40): the first failing check, or the warnings. */
  function ValidateException(form: ExceptionForm, stored: seq<DateException>): (r: Result<seq<ExceptionWarning>, ExceptionError>)
    ensures r.Ok? <==> Acceptable(form)
    ensures form.resource == "" ==> r == Err(MissingResource)
    ensures form.resource != "" && form.kind.None? ==> r == Err(MissingKind)
    ensures form.resource != "" && form.kind.Some? && form.date.None? ==> r == Err(MissingDate)
    ensures r.Err? && r.error.StartNotBeforeEnd? ==>
              form.startTime == Some(r.error.start) && form.endTime == Some(r.error.end) && r.error.start >= r.error.end
    ensures r.Err? && (r.error.ExtraNeedsStart? || r.error.ExtraNeedsEnd?) ==>
              form.kind == Some(ExtraAvailability)
              && (form.startTime.Some? && form.endTime.Some? ==> form.startTime.value < form.endTime.value)
    ensures r.Ok? ==> r.value == DuplicateWarnings(form, stored)
  {
    if form.resource == "" then Err(MissingResource)
    else if form.kind.None? then Err(MissingKind)
    else if form.date.None? then Err(MissingDate)
    else if form.startTime.Some? && form.endTime.Some? && form.startTime.value >= form.endTime.value then
      Err(StartNotBeforeEnd(form.startTime.value, form.endTime.value))
    else if form.kind == Some(ExtraAvailability) && form.startTime.None? then Err(ExtraNeedsStart)
    else if form.kind == Some(ExtraAvailability) && form.endTime.None? then Err(ExtraNeedsEnd)
    else Ok(DuplicateWarnings(form, stored))
  }

  /** The exception that a form passing validation stores. */
  function Stored(form: ExceptionForm): DateException
    requires Acceptable(form)
  {
    DateException(form.name, form.resource, form.date.value, form.kind.value, form.startTime, form.endTime)
  }

  // ----- properties -----

  /** Other exceptions on the same day never decide acceptance (calendar_exception.py:75-123). */
  lemma WarningsNeverReject(form: ExceptionForm, stored: seq<DateException>, others: seq<DateException>)
    ensures ValidateException(form, stored).Ok? <==> ValidateException(form, others).Ok?
    ensures ValidateException(form, stored).Err? ==> ValidateException(form, stored) == ValidateException(form, others)
  {
  }

  /** A warning names a stored exception on the same resource and day whose times strictly overlap. */
  lemma {:induction false} OverlapWarningsSound(existing: seq<DateException>, s: Minute, e: Minute, w: ExceptionWarning)
    requires w in OverlapWarnings(existing, s, e)
    ensures exists x :: x in existing && TimesOverlap(s, e, x)
                        && w == OverlapsWith(x.name, x.startTime.value, x.endTime.value)
    decreases |existing|
  {
    var p, x := existing[..|existing| - 1], existing[|existing| - 1];
    if w in OverlapWarnings(p, s, e) {
      OverlapWarningsSound(p, s, e, w);
      var y :| y in p && TimesOverlap(s, e, y) && w == OverlapsWith(y.name, y.startTime.value, y.endTime.value);
      assert y in existing by { assert existing == p + [x]; }
    } else {
      assert x in existing;
    }
  }

  /** Every timed stored exception the new range strictly overlaps is warned about. */
  lemma {:induction false} OverlapWarningsComplete(existing: seq<DateException>, s: Minute, e: Minute, x: DateException)
    requires x in existing && TimesOverlap(s, e, x)
    ensures OverlapsWith(x.name, x.startTime.value, x.endTime.value) in OverlapWarnings(existing, s, e)
    decreases |existing|
  {
    var p := existing[..|existing| - 1];
    if x != existing[|existing| - 1] {
      assert existing == p + [existing[|existing| - 1]];
      assert x in p;
      OverlapWarningsComplete(p, s, e, x);
    }
  }

  /** A whole-day Closed exception on a day that already has others warns once, with their count. */
  lemma WholeDayWarnsWithCount(form: ExceptionForm, stored: seq<DateException>)
    requires Acceptable(form) && WholeDay(form)
    requires exists x :: x in stored && SameDayOther(x, form)
    ensures ValidateException(form, stored) == Ok([WholeDayClosed(|Existing(stored, form)|)])
    ensures |Existing(stored, form)| <= |stored|
  {
    var x :| x in stored && SameDayOther(x, form);
    assert x in Existing(stored, form);
  }

  /** An accepted exception is one the day resolver can layer: a timed one has start before end. */
  lemma AcceptedIsWellFormed(form: ExceptionForm, excs: seq<DateException>)
    requires Acceptable(form) && ExceptionsWellFormed(excs)
    ensures ExceptionsWellFormed(excs + [Stored(form)])
    ensures Stored(form).kind == ExtraAvailability ==> HasTimes(Stored(form))
  {
    var all := excs + [Stored(form)];
    forall k | 0 <= k < |all| && HasTimes(all[k]) ensures all[k].startTime.value < all[k].endTime.value {
      if k < |excs| { assert all[k] == excs[k]; }
    }
  }
}
