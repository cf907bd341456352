/**
  The request layer (api/appointment_api.py and api/appointments/endpoints.py,
  which repeat the same logic): the validation report a client asks for
  before booking, the create-and-confirm operation that books only what the
  report accepts, the docstatus dispatch of cancel-or-delete, and the status
  guard of manual meeting generation.

  The bot trap, the rate limiter, token authentication and the ownership
  check live in a package outside the model: their verdicts are inputs.
  Datetime strings are read by a library parser outside the model: its
  result is an input, None when the text does not parse.
*/
module BookingApi {
  import opened Wrappers
  import opened Records
  import opened Intervals
  import opened Availability
  import opened Overlap
  import opened AppointmentDoc
  import opened Validators
  import opened Tasks

  // ----- validate_appointment -----

  datatype ReportError =
    | ResourceMissing
    | BadDateFormat
    | BadRange
    | NoOpenTime(date: int)
    | OutsideOpenTime(start: int, end: int)
    | CapacityExceeded(used: nat)

  datatype ReportWarning =
    | Overlapping(used: nat, names: seq<string>)
    | NotSlotMultiple(duration: int, slot: nat)

  datatype ValidationReport = ValidationReport(
    valid: bool,
    errors: seq<ReportError>,
    warnings: seq<ReportWarning>,
    availabilityOk: bool,
    capacityOk: bool,
    overlap: Option<OverlapReport>)

  /** Every minute of [s, e) is open on the day `s` falls on. */
  ghost predicate Open(res: Resource, excs: seq<DateException>, s: int, e: int)
  {
    forall t :: s <= t < e ==> AvailableAt(res, excs, DateOf(s), t)
  }

  /** Some minute of the day is open. */
  ghost predicate DayOpen(res: Resource, excs: seq<DateException>, date: int)
  {
    exists t :: AvailableAt(res, excs, date, t)
  }

  /** The request the report accepts: a known resource, a proper range, open time and spare capacity. */
  ghost predicate Bookable(resources: map<string, Resource>, excs: seq<DateException>, rows: seq<Booking>,
                           resource: string, times: Option<(int, int)>, exclude: Option<string>, now: int)
  {
    && resource in resources
    && times.Some?
    && times.value.0 < times.value.1
    && Open(resources[resource], excs, times.value.0, times.value.1)
    && |Conflicts(rows, resource, times.value.0, times.value.1, exclude, now)| < EffectiveCapacity(resources[resource])
  }

  /**
    validate_appointment (appointment_api.py:171-352, repeated at
    endpoints.py:174-355): errors block, warnings inform.
  */
  method ValidateAppointment(resources: map<string, Resource>, excs: seq<DateException>, rows: seq<Booking>,
                             resource: string, times: Option<(int, int)>, exclude: Option<string>, now: int)
    returns (rep: ValidationReport)
    requires Keyed(resources)
    ensures rep.valid <==> rep.errors == []
    ensures rep.valid <==> Bookable(resources, excs, rows, resource, times, exclude, now)
    ensures resource !in resources ==> rep == ValidationReport(false, [ResourceMissing], [], false, false, None)
    ensures resource in resources && times.None? ==> rep == ValidationReport(false, [BadDateFormat], [], false, false, None)
    ensures resource in resources && times.Some? ==>
      var res, s, e := resources[resource], times.value.0, times.value.1;
      var holders := Conflicts(rows, resource, s, e, exclude, now);
      && (rep.capacityOk <==> |holders| < EffectiveCapacity(res))
      && (s < e ==> (rep.availabilityOk <==> Open(res, excs, s, e)))
      && rep.overlap.Some? && rep.overlap.value.overlapping == holders
      && rep.warnings ==
           (if holders != [] then [Overlapping(|holders|, holders)] else [])
           + (if GranularityNotices(e - s, EffectiveSlotDuration(res)) == [] then []
              else [NotSlotMultiple(e - s, EffectiveSlotDuration(res))])
      && |rep.errors| == (if s >= e then 1 else 0) + (if rep.availabilityOk then 0 else 1) + (if rep.capacityOk then 0 else 1)
      && (s >= e ==> rep.errors[0] == BadRange)
      && (!rep.capacityOk ==> rep.errors[|rep.errors| - 1] == CapacityExceeded(|holders|))
      && (!rep.availabilityOk ==>
            var a := rep.errors[if s >= e then 1 else 0];
            && (a == NoOpenTime(DateOf(s)) || a == OutsideOpenTime(s, e))
            && (a == NoOpenTime(DateOf(s)) ==> !DayOpen(res, excs, DateOf(s)))
            && (PlanWellFormed(res) && ExceptionsWellFormed(excs) && !DayOpen(res, excs, DateOf(s))
                ==> a == NoOpenTime(DateOf(s))))
  {
    if resource !in resources {
      return ValidationReport(false, [ResourceMissing], [], false, false, None);
    }
    if times.None? {
      return ValidationReport(false, [BadDateFormat], [], false, false, None);
    }
    var res := resources[resource];
    var s, e := times.value.0, times.value.1;
    var errors: seq<ReportError> := [];
    var warnings: seq<ReportWarning> := [];
    var availabilityOk, capacityOk := true, true;
    if s >= e {
      errors := errors + [BadRange];
    }
    var avail := AvailabilityCheck(res, excs, s, e);
    if avail.Some? {
      errors := errors + [avail.value];
      availabilityOk := false;
    }
    var report := CheckOverlap(res, rows, s, e, exclude, now);
    if report.hasOverlap {
      warnings := warnings + [Overlapping(report.capacityUsed, report.overlapping)];
    }
    if report.capacityExceeded {
      errors := errors + [CapacityExceeded(report.capacityUsed)];
      capacityOk := false;
    }
    var slot := EffectiveSlotDuration(res);
    if (e - s) % slot != 0 {
      warnings := warnings + [NotSlotMultiple(e - s, slot)];
    }
    assert errors == (if s >= e then [BadRange] else []) + (if avail.Some? then [avail.value] else [])
                     + (if report.capacityExceeded then [CapacityExceeded(report.capacityUsed)] else []);
    ErrorsLayout(s, e, avail, report.capacityExceeded, report.capacityUsed, errors);
    assert availabilityOk == avail.None? && capacityOk == !report.capacityExceeded;
    rep := ValidationReport(|errors| == 0, errors, warnings, availabilityOk, capacityOk, Some(report));
  }

  /** Where each kind of error sits in the report's list. */
  lemma ErrorsLayout(s: int, e: int, avail: Option<ReportError>, exceeded: bool, used: nat, errors: seq<ReportError>)
    requires errors == (if s >= e then [BadRange] else []) + (if avail.Some? then [avail.value] else [])
                       + (if exceeded then [CapacityExceeded(used)] else [])
    ensures |errors| == (if s >= e then 1 else 0) + (if avail.None? then 0 else 1) + (if exceeded then 1 else 0)
    ensures s >= e ==> errors[0] == BadRange
    ensures exceeded ==> errors[|errors| - 1] == CapacityExceeded(used)
    ensures avail.Some? ==> errors[if s >= e then 1 else 0] == avail.value
    ensures errors == [] <==> s < e && avail.None? && !exceeded
  {
  }

  /** The availability step of validate_appointment (appointment_api.py:275-296): None when the range fits. */
  method AvailabilityCheck(res: Resource, excs: seq<DateException>, s: int, e: int) returns (err: Option<ReportError>)
    ensures s < e ==> (err.None? <==> Open(res, excs, s, e))
    ensures err.Some? ==> err.value == NoOpenTime(DateOf(s)) || err.value == OutsideOpenTime(s, e)
    ensures err == Some(NoOpenTime(DateOf(s))) ==> !DayOpen(res, excs, DateOf(s))
    ensures PlanWellFormed(res) && ExceptionsWellFormed(excs) && !DayOpen(res, excs, DateOf(s))
            ==> err == Some(NoOpenTime(DateOf(s)))
  {
    var slots := DaySlots(res, excs, DateOf(s));
    if |slots| == 0 {
      assert !AvailableAt(res, excs, DateOf(s), s);
      return Some(NoOpenTime(DateOf(s)));
    }
    if PlanWellFormed(res) && ExceptionsWellFormed(excs) {
      assert InUnion(slots, slots[0].start);
    }
    var within := WithinSomeSlot(slots, s, e);
    if s < e {
      ContainedIffCovered(slots, s, e);
    }
    err := if within then None else Some(OutsideOpenTime(s, e));
  }

  // ----- create_and_confirm_appointment -----

  datatype Field = CalendarResourceField | UserContactField | StartField | EndField | AppointmentNameField

  datatype ApiError =
    | BotDetected
    | RateLimited
    | AuthRequired
    | NotYourself
    | NotOwner
    | InvalidInput(field: Field, reason: ValidatorError)
    | UnknownResource
    | ContactNotFound
    | UnreadableDates
    | NotValid(errors: seq<ReportError>)
    | SaveRejected(failure: Failure)
    | SubmitRejected(failure: Failure)
    | AppointmentNotFound
    | UnknownDocStatus(docstatus: int)

  /** The text inputs of a booking request. */
  datatype BookingRequest = BookingRequest(resource: string, contact: string, startText: string, endText: string)

  /** The input validators in the source's order (appointment_api.py:407-410): the stripped resource and contact. */
  function CheckInputs(req: BookingRequest): (r: Result<(string, string), ApiError>)
    ensures r.Ok? <==> ValidateDocname(req.resource).Ok? && ValidateDocname(req.contact).Ok?
                       && ValidateDateTimeString(req.startText).Ok? && ValidateDateTimeString(req.endText).Ok?
    ensures r.Ok? ==> r.value == (Strip(req.resource), Strip(req.contact))
    ensures ValidateDocname(req.resource).Err? ==> r == Err(InvalidInput(CalendarResourceField, ValidateDocname(req.resource).error))
  {
    var resource := ValidateDocname(req.resource);
    if resource.Err? then Err(InvalidInput(CalendarResourceField, resource.error))
    else
      var contact := ValidateDocname(req.contact);
      if contact.Err? then Err(InvalidInput(UserContactField, contact.error))
      else
        var start := ValidateDateTimeString(req.startText);
        if start.Err? then Err(InvalidInput(StartField, start.error))
        else
          var end := ValidateDateTimeString(req.endText);
          if end.Err? then Err(InvalidInput(EndField, end.error))
          else Ok((resource.value, contact.value))
  }

  /** The meeting step of submit succeeds for a fresh document of this resource. */
  predicate FreshMeetingOk(res: Resource, profiles: map<string, VideoCallProfile>, created: Result<MeetingHandle, string>)
  {
    res.videoCallProfile == "" ||
    (res.videoCallProfile in profiles &&
     MeetingStepOk(profiles[res.videoCallProfile], None, "", Meeting("", "", false, ""), created))
  }

  /** The row a confirmed booking adds to the table. */
  function ConfirmedRow(name: string, resource: string, s: int, e: int, res: Resource, now: int): (b: Booking)
    ensures b.status == Confirmed && b.docstatus == 1 && b.name == name && b.resource == resource
    ensures b.start == s && b.end == e
  {
    Booking(name, resource, s, e, Confirmed, 1, Some(now + EffectiveDraftMinutes(res)))
  }

  /**
    The part the two create-and-confirm endpoints share once the inputs are
    valid (appointment_api.py:414-459): existence checks, the validation
    report, then insert (the document's `validate`) and submit (its
    `on_submit`). The new document is not in the table while it is checked;
    with unique names this is the same as excluding it by name.
  */
  method ConfirmNew(table: BookingTable, resources: map<string, Resource>, contacts: set<string>,
                    excs: seq<DateException>, profiles: map<string, VideoCallProfile>,
                    resource: string, contact: string, times: Option<(int, int)>, newName: string,
                    now: int, created: Result<MeetingHandle, string>)
    returns (r: Result<Booking, ApiError>)
    requires Keyed(resources)
    modifies table
    ensures r.Ok? <==>
      && resource != "" && contact in contacts
      && Bookable(resources, excs, old(table.rows), resource, times, None, now)
      && FreshMeetingOk(resources[resource], profiles, created)
    ensures resource !in resources ==> r == Err(UnknownResource)
    ensures resource in resources && contact !in contacts ==> r == Err(ContactNotFound)
    ensures r.Ok? ==> r.value == ConfirmedRow(newName, resource, times.value.0, times.value.1, resources[resource], now)
    ensures table.rows == if r.Ok? then old(table.rows) + [r.value] else old(table.rows)
  {
    if resource !in resources {
      return Err(UnknownResource);
    }
    if contact !in contacts {
      return Err(ContactNotFound);
    }
    if times.None? {
      return Err(UnreadableDates);
    }
    var rows := table.rows;
    var rep := ValidateAppointment(resources, excs, rows, resource, times, None, now);
    if !rep.valid {
      return Err(NotValid(rep.errors));
    }
    var res := resources[resource];
    var s, e := times.value.0, times.value.1;
    var a := new Appointment(newName, resource, Some(s), Some(e), Draft);
    var saved := a.Validate(resources, rows, now);
    if saved.Err? {
      return Err(SaveRejected(saved.error));
    }
    assert !a.HoldExpired(now);
    var submitted := a.OnSubmit(resources, excs, rows, profiles, now, created);
    if submitted.Err? {
      return Err(SubmitRejected(submitted.error));
    }
    var b := ConfirmedRow(newName, resource, s, e, res, now);
    table.rows := rows + [b];
    r := Ok(b);
  }

  /** create_and_confirm_appointment (appointment_api.py:355-463). */
  method CreateAndConfirm(table: BookingTable, trapEmpty: bool, withinRate: bool, req: BookingRequest,
                          resources: map<string, Resource>, contacts: set<string>, excs: seq<DateException>,
                          profiles: map<string, VideoCallProfile>, times: Option<(int, int)>, newName: string,
                          now: int, created: Result<MeetingHandle, string>)
    returns (r: Result<Booking, ApiError>)
    requires Keyed(resources)
    modifies table
    ensures !trapEmpty ==> r == Err(BotDetected)
    ensures trapEmpty && !withinRate ==> r == Err(RateLimited)
    ensures r.Ok? <==>
      && trapEmpty && withinRate && CheckInputs(req).Ok?
      && Strip(req.resource) != "" && Strip(req.contact) in contacts
      && Bookable(resources, excs, old(table.rows), Strip(req.resource), times, None, now)
      && FreshMeetingOk(resources[Strip(req.resource)], profiles, created)
    ensures table.rows == if r.Ok? then old(table.rows) + [r.value] else old(table.rows)
  {
    if !trapEmpty {
      return Err(BotDetected);
    }
    if !withinRate {
      return Err(RateLimited);
    }
    var inputs := CheckInputs(req);
    if inputs.Err? {
      return Err(inputs.error);
    }
    r := ConfirmNew(table, resources, contacts, excs, profiles, inputs.value.0, inputs.value.1, times, newName, now, created);
  }

  /**
    create_and_confirm_appointment of the authenticated API
    (endpoints.py:358-487): the caller must be signed in, and may book only
    for the user contact the token names.
  */
  method CreateAndConfirmForSelf(table: BookingTable, trapEmpty: bool, withinRate: bool, authenticated: string,
                                 req: BookingRequest, resources: map<string, Resource>, contacts: set<string>,
                                 excs: seq<DateException>, profiles: map<string, VideoCallProfile>,
                                 times: Option<(int, int)>, newName: string, now: int,
                                 created: Result<MeetingHandle, string>)
    returns (r: Result<Booking, ApiError>)
    requires Keyed(resources)
    modifies table
    ensures trapEmpty && withinRate && authenticated == "" ==> r == Err(AuthRequired)
    ensures trapEmpty && withinRate && authenticated != "" && CheckInputs(req).Ok? && authenticated != Strip(req.contact)
            ==> r == Err(NotYourself)
    ensures r.Ok? <==>
      && trapEmpty && withinRate && authenticated != "" && CheckInputs(req).Ok?
      && authenticated == Strip(req.contact)
      && Strip(req.resource) != "" && Strip(req.contact) in contacts
      && Bookable(resources, excs, old(table.rows), Strip(req.resource), times, None, now)
      && FreshMeetingOk(resources[Strip(req.resource)], profiles, created)
    ensures table.rows == if r.Ok? then old(table.rows) + [r.value] else old(table.rows)
  {
    if !trapEmpty {
      return Err(BotDetected);
    }
    if !withinRate {
      return Err(RateLimited);
    }
    if authenticated == "" {
      return Err(AuthRequired);
    }
    var inputs := CheckInputs(req);
    if inputs.Err? {
      return Err(inputs.error);
    }
    if authenticated != inputs.value.1 {
      return Err(NotYourself);
    }
    r := ConfirmNew(table, resources, contacts, excs, profiles, inputs.value.0, inputs.value.1, times, newName, now, created);
  }

  /**
    A table within capacity at every instant stays so after a booking the
    report accepts: the accepted range had spare capacity against every
    existing holder.
  */
  lemma ConfirmedKeepsLoad(resources: map<string, Resource>, excs: seq<DateException>, rows: seq<Booking>,
                           resource: string, times: Option<(int, int)>, name: string, now: int)
    requires Keyed(resources)
    requires Bookable(resources, excs, rows, resource, times, None, now)
    requires forall t :: Load(rows, resource, t, now) <= EffectiveCapacity(resources[resource])
    ensures forall t ::
      Load(rows + [ConfirmedRow(name, resource, times.value.0, times.value.1, resources[resource], now)], resource, t, now)
      <= EffectiveCapacity(resources[resource])
  {
    AdmissionKeepsLoad(rows, resources[resource],
                       ConfirmedRow(name, resource, times.value.0, times.value.1, resources[resource], now), now);
  }

  // ----- cancel_or_delete_appointment and cancel_my_appointment -----

  datatype Action = Deleted | CancelledIt | NoAction

  datatype DispatchOutcome = DispatchOutcome(success: bool, action: Action)

  /** The docstatus case split (appointment_api.py:508-534). */
  function Dispatch(docstatus: int): (r: Result<DispatchOutcome, ApiError>)
    ensures docstatus == 0 <==> r == Ok(DispatchOutcome(true, Deleted))
    ensures docstatus == 1 <==> r == Ok(DispatchOutcome(true, CancelledIt))
    ensures docstatus == 2 <==> r == Ok(DispatchOutcome(false, NoAction))
    ensures r.Err? <==> !(0 <= docstatus <= 2)
    ensures r.Ok? ==> (r.value.success <==> r.value.action != NoAction)
  {
    if docstatus == 0 then Ok(DispatchOutcome(true, Deleted))
    else if docstatus == 1 then Ok(DispatchOutcome(true, CancelledIt))
    else if docstatus == 2 then Ok(DispatchOutcome(false, NoAction))
    else Err(UnknownDocStatus(docstatus))
  }

  /** The first row of that name. */
  function Find(rows: seq<Booking>, name: string): (r: Option<nat>)
    ensures r.None? <==> forall k :: 0 <= k < |rows| ==> rows[k].name != name
    ensures r.Some? ==> r.value < |rows| && rows[r.value].name == name
                        && forall k :: 0 <= k < r.value ==> rows[k].name != name
    decreases |rows|
  {
    if rows == [] then None
    else if rows[0].name == name then Some(0)
    else
      var rest := Find(rows[1..], name);
      assert forall k :: 1 <= k < |rows| ==> rows[k] == rows[1..][k - 1];
      if rest.None? then None else Some(rest.value + 1)
  }

  /** The table with every row of that name removed. */
  function Without(rows: seq<Booking>, name: string): (r: seq<Booking>)
    ensures forall b :: b in r <==> b in rows && b.name != name
    decreases |rows|
  {
    if rows == [] then []
    else
      var b := rows[|rows| - 1];
      assert forall x :: x in rows <==> x in rows[..|rows| - 1] || x == b;
      Without(rows[..|rows| - 1], name) + (if b.name == name then [] else [b])
  }

  /** The table with every row of that name cancelled, as `Document.cancel` leaves it. */
  function CancelNamed(rows: seq<Booking>, name: string): (r: seq<Booking>)
    ensures |r| == |rows|
    ensures forall k :: 0 <= k < |rows| && rows[k].name != name ==> r[k] == rows[k]
    ensures forall k :: 0 <= k < |rows| && rows[k].name == name ==>
              r[k] == rows[k].(status := Cancelled, docstatus := 2)
  {
    seq(|rows|, k requires 0 <= k < |rows| =>
      if rows[k].name == name then rows[k].(status := Cancelled, docstatus := 2) else rows[k])
  }

  /** The outcome and the new table of one dispatch. */
  function ApplyDispatch(rows: seq<Booking>, name: string): (r: Result<(DispatchOutcome, seq<Booking>), ApiError>)
  {
    var found := Find(rows, name);
    if found.None? then Err(AppointmentNotFound)
    else
      var d := Dispatch(rows[found.value].docstatus);
      if d.Err? then Err(d.error)
      else if d.value.action == Deleted then Ok((d.value, Without(rows, name)))
      else if d.value.action == CancelledIt then Ok((d.value, CancelNamed(rows, name)))
      else Ok((d.value, rows))
  }

  /** cancel_or_delete_appointment (appointment_api.py:467-538, endpoints.py:491-562). */
  function CancelOrDelete(rows: seq<Booking>, name: string): (r: Result<(DispatchOutcome, seq<Booking>), ApiError>)
    ensures (forall k :: 0 <= k < |rows| ==> rows[k].name != name) <==> r == Err(AppointmentNotFound)
    ensures r.Ok? && !r.value.0.success ==> r.value.1 == rows
    ensures r.Ok? && r.value.0.action == CancelledIt ==> |r.value.1| == |rows|
    ensures r.Ok? ==> Find(rows, name).Some? && Dispatch(rows[Find(rows, name).value].docstatus) == Ok(r.value.0)
    ensures r.Ok? && r.value.0.action == Deleted ==> r.value.1 == Without(rows, name)
    ensures r.Ok? && r.value.0.action == CancelledIt ==> r.value.1 == CancelNamed(rows, name)
    ensures r.Ok? && r.value.0.action == NoAction ==> r.value.1 == rows
    ensures Find(rows, name).Some? && !(0 <= rows[Find(rows, name).value].docstatus <= 2) ==>
              r == Err(UnknownDocStatus(rows[Find(rows, name).value].docstatus))
  {
    ApplyDispatch(rows, name)
  }

  /**
    cancel_my_appointment (endpoints.py:899-994): signed in, a valid name,
    an existing appointment the caller owns, then the same dispatch.
  */
  function CancelMine(trapEmpty: bool, withinRate: bool, authenticated: string, owns: bool,
                      rows: seq<Booking>, nameText: string): (r: Result<(DispatchOutcome, seq<Booking>), ApiError>)
    ensures r.Ok? ==> trapEmpty && withinRate && authenticated != "" && owns && ValidateDocname(nameText).Ok?
    ensures r.Ok? ==> r == CancelOrDelete(rows, Strip(nameText))
    ensures (trapEmpty && withinRate && authenticated != "" && ValidateDocname(nameText).Ok?
             && Find(rows, Strip(nameText)).Some? && !owns) ==> r == Err(NotOwner)
    ensures r.Err? ==> r.error != AppointmentNotFound || Find(rows, Strip(nameText)).None?
  {
    if !trapEmpty then Err(BotDetected)
    else if !withinRate then Err(RateLimited)
    else if authenticated == "" then Err(AuthRequired)
    else
      var name := ValidateDocname(nameText);
      if name.Err? then Err(InvalidInput(AppointmentNameField, name.error))
      else if Find(rows, name.value).None? then Err(AppointmentNotFound)
      else if !owns then Err(NotOwner)
      else CancelOrDelete(rows, name.value)
  }

  /** After a successful cancel or delete, the appointment holds no capacity anywhere. */
  lemma DispatchReleasesCapacity(rows: seq<Booking>, name: string, resource: string, s: int, e: int,
                                 exclude: Option<string>, now: int)
    requires CancelOrDelete(rows, name).Ok? && CancelOrDelete(rows, name).value.0.success
    ensures name !in Conflicts(CancelOrDelete(rows, name).value.1, resource, s, e, exclude, now)
  {
    var after := CancelOrDelete(rows, name).value.1;
    ConflictsMembership(after, resource, s, e, exclude, now, name);
    if CancelOrDelete(rows, name).value.0.action == Deleted {
      forall k | 0 <= k < |after| ensures after[k].name != name {
        assert after[k] in after;
      }
    }
  }

  /** A dispatch touches only the rows of that name: every other row keeps holding what it held. */
  lemma DispatchKeepsOthers(rows: seq<Booking>, name: string, resource: string, s: int, e: int, now: int)
    requires CancelOrDelete(rows, name).Ok?
    ensures forall n :: n != name ==>
      (n in Conflicts(CancelOrDelete(rows, name).value.1, resource, s, e, None, now)
       <==> n in Conflicts(rows, resource, s, e, None, now))
  {
    var after := CancelOrDelete(rows, name).value.1;
    var action := CancelOrDelete(rows, name).value.0.action;
    assert action == Deleted ==> after == Without(rows, name);
    assert action == CancelledIt ==> after == CancelNamed(rows, name);
    assert action == NoAction ==> after == rows;
    forall n | n != name
      ensures n in Conflicts(after, resource, s, e, None, now) <==> n in Conflicts(rows, resource, s, e, None, now)
    {
      if action == Deleted {
        WithoutKeepsOthers(rows, name, resource, s, e, now, n);
      } else if action == CancelledIt {
        CancelNamedKeepsOthers(rows, name, resource, s, e, now, n);
      }
    }
  }

  lemma WithoutKeepsOthers(rows: seq<Booking>, name: string, resource: string, s: int, e: int, now: int, n: string)
    requires n != name
    ensures n in Conflicts(Without(rows, name), resource, s, e, None, now) <==> n in Conflicts(rows, resource, s, e, None, now)
  {
    var after := Without(rows, name);
    ConflictsMembership(after, resource, s, e, None, now, n);
    ConflictsMembership(rows, resource, s, e, None, now, n);
    if exists k :: 0 <= k < |rows| && rows[k].name == n && Blocks(rows[k], resource, s, e, None, now) {
      var k :| 0 <= k < |rows| && rows[k].name == n && Blocks(rows[k], resource, s, e, None, now);
      assert rows[k] in after;
      var j :| 0 <= j < |after| && after[j] == rows[k];
    }
    if exists k :: 0 <= k < |after| && after[k].name == n && Blocks(after[k], resource, s, e, None, now) {
      var k :| 0 <= k < |after| && after[k].name == n && Blocks(after[k], resource, s, e, None, now);
      assert after[k] in after;
      var j :| 0 <= j < |rows| && rows[j] == after[k];
    }
  }

  lemma CancelNamedKeepsOthers(rows: seq<Booking>, name: string, resource: string, s: int, e: int, now: int, n: string)
    requires n != name
    ensures n in Conflicts(CancelNamed(rows, name), resource, s, e, None, now) <==> n in Conflicts(rows, resource, s, e, None, now)
  {
    var after := CancelNamed(rows, name);
    ConflictsMembership(after, resource, s, e, None, now, n);
    ConflictsMembership(rows, resource, s, e, None, now, n);
    assert forall k :: 0 <= k < |rows| && rows[k].name == n ==> after[k] == rows[k];
    assert forall k :: 0 <= k < |after| && after[k].name == n ==> rows[k].name == n;
  }

  // ----- generate_meeting -----

  datatype MeetingGuardError = NotConfirmed | NoProfile | ProfileMissing | NotManualProfile

  /**
    The status guard of generate_meeting (appointment_api.py:585-599): only a
    Confirmed appointment whose profile creates meetings manually.
  */
  function MeetingGuard(status: Status, profileName: string, profiles: map<string, VideoCallProfile>)
    : (r: Result<VideoCallProfile, MeetingGuardError>)
    ensures r.Ok? <==> status == Confirmed && profileName in profiles && profileName != ""
                       && !profiles[profileName].createOnSubmit
    ensures r.Ok? ==> r.value == profiles[profileName]
    ensures status != Confirmed ==> r == Err(NotConfirmed)
  {
    if status != Confirmed then Err(NotConfirmed)
    else if profileName == "" then Err(NoProfile)
    else if profileName !in profiles then Err(ProfileMissing)
    else if profiles[profileName].createOnSubmit then Err(NotManualProfile)
    else Ok(profiles[profileName])
  }
}
