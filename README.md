# Meet Scheduling: a verified model of the booking core

Meet Scheduling is a Frappe app that books time on a Calendar Resource (a
room, a person, a service). The core modelled here:

- **Weekly plan and exceptions.** A resource has a weekly Availability Plan
  of time rows per weekday. Calendar Exceptions layer over it, date by date:
  Closed, Blocked and Extra Availability.
- **Availability resolver.** It turns plan and exceptions into the open
  intervals of each date.
- **Slot generator.** It cuts those intervals into fixed-length slots and
  labels each slot with the capacity left on it.
- **Conflict checker.** It counts the live bookings that overlap a range.
  A Draft booking holds its time until its hold expires; a Confirmed
  booking holds it until cancelled.
- **Appointment document.** Its hooks validate a booking, confirm it on
  submit, cancel it and move its meeting.
- **Sweeper.** A periodic task cancels expired drafts.
- **Form validators.** They check plans and exceptions as entered.
- **Request layer.** It validates a booking request, creates and confirms
  bookings, and cancels or deletes them.

## Conventions

- Instants are integer minutes. Day number `d` starts at `d * 1440`, and day
  0 is a Monday.
- A time of day is a `Minute` in 0..1439.
- Timezone localisation is the identity.
- The booking store is a `seq<Booking>`. Resources are a `map` keyed by name.
- The clock `now` is a parameter.
- Text fields the source tests for falsiness hold `""` when unset.
- Optional typed fields are `Option`.

## Modules

Two shared modules (`Intervals`, `Records`), then one module per core source file; `BookingApi` covers both request modules (`api/appointment_api.py` and its authenticated copy `api/appointments/endpoints.py`):

- `Intervals`: half-open intervals, `_interval_subtract`, `_merge_intervals`.
- `Records`: the entities and the source's defaults.
- `Availability`: the day resolver and the range resolver.
- `Overlap`: `check_overlap`.
- `Slots`: `generate_available_slots`.
- `Tasks`: `cleanup_expired_drafts` over a class holding the booking table.
- `AppointmentDoc`: the Appointment document as a class whose hooks update
  its fields.
- `PlanDoc`: Availability Plan validation.
- `ExceptionDoc`: Calendar Exception validation.
- `Validators`: the request input validators.
- `BookingApi`: `validate_appointment`, create-and-confirm, the
  cancel/delete dispatch and the `generate_meeting` guard.

## Reference semantics

- **`AvailableAt(res, excs, date, t)`** is the pointwise reference for the
  resolver. It is the guards, the weekly windows of the weekday, then each
  exception of the date in store order.
- **`Conflicts`** is the reference for an overlap query.
- **`Sweep`** is the reference for the sweeper.
- **`AnyPairClash`** is the pairwise reference for the plan's
  sorted-neighbour check.

The methods are proved against these.

## Model

| member | source | states |
|---|---|---|
| Records.EffectiveCapacity | meet_scheduling/meet_scheduling/scheduling/overlap.py:55 | capacity is the resource's own when set, else 1 |
| Records.EffectiveSlotDuration | meet_scheduling/meet_scheduling/scheduling/slots.py:52 | slot length is the resource's when set, else 30 minutes; always positive |
| Records.EffectiveDraftMinutes | meet_scheduling/meet_scheduling/doctype/appointment/appointment.py:130-138 | hold length is the resource's when set, else 15 minutes; always positive |
| Intervals.Subtract | meet_scheduling/meet_scheduling/scheduling/availability.py:330-377 | at most two pieces; they cover exactly the instants of the interval not in the block; each lies inside the interval; a proper interval gives proper pieces; a proper block gives sorted, separated pieces |
| Intervals.SubtractCases | meet_scheduling/meet_scheduling/scheduling/availability.py:352-374 | the five result shapes: the interval itself when disjoint, [] when covered, the tail, the head, or head then tail |
| Intervals.SubtractUnique | meet_scheduling/meet_scheduling/scheduling/availability.py:330-377 | any canonical list of proper intervals covering exactly interval minus block equals the result |
| Intervals.SortByStart | meet_scheduling/meet_scheduling/scheduling/availability.py:311 | the sort of the merge: sorted by start and a permutation of its input |
| Intervals.SortSorted | meet_scheduling/meet_scheduling/scheduling/availability.py:166-167 | sorting an already sorted list changes nothing (the resolver's final sort) |
| Intervals.MergeIntervals | meet_scheduling/meet_scheduling/scheduling/availability.py:297-327 | covers exactly the instants of the input; sorted with a strict gap between neighbours, so touching intervals merge; no longer than the input; keeps proper intervals proper; leaves canonical input unchanged |
| Intervals.ContainedIffCovered | meet_scheduling/meet_scheduling/doctype/appointment/appointment.py:271-275 | for canonical intervals, some interval contains [s, e) iff every minute of [s, e) is covered |
| Intervals.CanonicalUnique | meet_scheduling/meet_scheduling/scheduling/availability.py:297-327 | two canonical lists of proper intervals with the same instants are equal |
| Intervals.InUnionConcat | meet_scheduling/meet_scheduling/scheduling/availability.py:257-261 | the instants of a concatenation are those of either part, as the `extend` loop relies on |
| Intervals.InUnionSameElements | meet_scheduling/meet_scheduling/scheduling/availability.py:311 | reordering intervals does not change the instants they cover |
| Availability.ExceptionsFor | meet_scheduling/meet_scheduling/scheduling/availability.py:229-236 | the exceptions of one resource and date, in store order, and only those |
| Availability.BaseIntervals | meet_scheduling/meet_scheduling/scheduling/availability.py:134-154 | covers exactly the weekly windows of the date's weekday; empty iff no row matches the weekday |
| Availability.SubtractFromAll | meet_scheduling/meet_scheduling/scheduling/availability.py:257-261 | removes the block from the union of the working set and from nothing else |
| Availability.ApplyExceptions | meet_scheduling/meet_scheduling/scheduling/availability.py:210-294 | covers exactly the layering of the date's exceptions, in arrival order, over the base intervals |
| Availability.DaySlots | meet_scheduling/meet_scheduling/scheduling/availability.py:39-169 | covers exactly the minutes `AvailableAt` opens; canonical; [] when the resource is inactive, the plan is missing or inactive, or the date is outside the validity window; [] when no weekly row matches the weekday |
| Availability.EffectiveAvailability | meet_scheduling/meet_scheduling/scheduling/availability.py:172-207 | dates within the range, increasing, each with nonempty canonical intervals matching `AvailableAt`; every date with an open minute is present |
| Availability.LayeredSource | meet_scheduling/meet_scheduling/scheduling/availability.py:242-292 | an open minute comes from the weekly plan or from a timed Extra Availability exception |
| Availability.ClosedDayOverrides | meet_scheduling/meet_scheduling/scheduling/availability.py:245-252 | after a whole-day Closed, only a later Extra Availability reopens a minute |
| Availability.AvailableWithinDay | meet_scheduling/meet_scheduling/scheduling/availability.py:134-154 | an open minute of a date lies within that date |
| Overlap.Remaining | meet_scheduling/meet_scheduling/scheduling/overlap.py:98 | capacity left is positive iff used < capacity, and then used + left = capacity |
| Overlap.CheckOverlap | meet_scheduling/meet_scheduling/scheduling/overlap.py:17-107 | the overlapping names are `Conflicts`; used is their count; has_overlap iff used > 0; exceeded iff used >= capacity; available is the capacity left; exceeded iff available = 0 |
| Overlap.ConflictsMembership | meet_scheduling/meet_scheduling/scheduling/overlap.py:59-91 | a name is reported iff some row of that name blocks: same resource, Draft or Confirmed, strict overlap, not excluded, not an expired draft |
| Overlap.ExcludedNotReported | meet_scheduling/meet_scheduling/scheduling/overlap.py:67-68 | the excluded booking is never reported |
| Overlap.LaterClockFewerConflicts | meet_scheduling/meet_scheduling/scheduling/overlap.py:80-91 | a later clock never reports more conflicts, as drafts only expire |
| Overlap.ConflictsSnoc | meet_scheduling/meet_scheduling/scheduling/overlap.py:59-91 | one more stored row adds its name to the report exactly when it blocks, after the earlier names |
| Overlap.LoadWithinConflicts | meet_scheduling/meet_scheduling/scheduling/overlap.py:59-97 | the live bookings holding any one minute of a range are no more than the conflicts of the range |
| Overlap.AdmissionKeepsLoad | meet_scheduling/meet_scheduling/scheduling/overlap.py:96 | admitting a booking whose range has fewer conflicts than capacity keeps every minute within capacity |
| Slots.SlotsInInterval | meet_scheduling/meet_scheduling/scheduling/slots.py:66-101 | one offer per whole slot of the interval, each labelled by the overlap check |
| Slots.GenerateSlots | meet_scheduling/meet_scheduling/scheduling/slots.py:17-104 | the offers are exactly the slot grid of the range availability, each labelled with the capacity left; that availability has a date for every date of the range with an open minute, and for each date exactly the canonical intervals of `AvailableAt`; every slot has the slot length, lies in open time inside the range, and ends no later than any later slot starts |
| Slots.CutPieces | meet_scheduling/meet_scheduling/scheduling/slots.py:72-101 | every slot has the slot length and lies in its interval; consecutive slots abut |
| Slots.CutCount | meet_scheduling/meet_scheduling/scheduling/slots.py:72-77 | an interval of length L yields L div d slots: the remainder is shorter than one slot |
| Slots.CutOrdered | meet_scheduling/meet_scheduling/scheduling/slots.py:72-101 | the slots of one interval come in order, each ending before any later one starts |
| Slots.CutComplete | meet_scheduling/meet_scheduling/scheduling/slots.py:72-101 | every whole slot that fits is emitted, at its position |
| Slots.IntervalsGridInside | meet_scheduling/meet_scheduling/scheduling/slots.py:64-101 | every slot of a date lies inside one of its open intervals |
| Slots.SlotGridFacts | meet_scheduling/meet_scheduling/scheduling/slots.py:64-104 | over a range, slots have the slot length, lie in open time and are chronological |
| Tasks.SelectedIndices | meet_scheduling/meet_scheduling/scheduling/tasks.py:36-43 | the rows the query selects, in table order, and all of them |
| Tasks.BookingTable.constructor | meet_scheduling/meet_scheduling/scheduling/tasks.py:36-43 | the table starts with the given rows |
| Tasks.BookingTable.CleanupExpiredDrafts | meet_scheduling/meet_scheduling/scheduling/tasks.py:12-93 | the new table is the corrected `Sweep` of the old one; the count is the number of rows it cancels |
| Tasks.SweepChangesOnlyExpired | meet_scheduling/meet_scheduling/scheduling/tasks.py:54-69 | same length; a row either stays or is a selected draft with only its status changed to Cancelled; a selected row that saves is Cancelled; an unselected row is untouched |
| Tasks.SecondSweepCancelsNothing | meet_scheduling/meet_scheduling/scheduling/tasks.py:39-58 | a second sweep cancels nothing and changes nothing |
| Tasks.SweptCountBound | meet_scheduling/meet_scheduling/scheduling/tasks.py:45-69 | the count is no more than the rows selected |
| Tasks.SweepKeepsConflicts | meet_scheduling/meet_scheduling/scheduling/tasks.py:58 | sweeping never changes what the overlap check reports at the same or a later clock |
| Tasks.AsWrittenSkipsRebookedDraft | meet_scheduling/meet_scheduling/scheduling/tasks.py:67 | as written, an expired draft whose time was re-booked stays Draft, while the corrected sweep cancels it |
| AppointmentDoc.EffectiveLinkMode | meet_scheduling/meet_scheduling/doctype/appointment/appointment.py:448-460 | the booking's own mode unless unset or Inherit, else the profile's, else ManualOnly |
| AppointmentDoc.ExcludeSelf | meet_scheduling/meet_scheduling/doctype/appointment/appointment.py:160 | the document excludes itself from the overlap check iff it is not new |
| AppointmentDoc.MeetingAfter | meet_scheduling/meet_scheduling/doctype/appointment/appointment.py:320-371 | ManualOnly copies the manual URL; in the auto modes an existing automatic URL is kept as is, otherwise a create-on-submit profile takes the provider's new meeting (URL, id, created, provider), otherwise a manual URL is copied, otherwise nothing changes; the id changes only through the provider |
| AppointmentDoc.OverlapNotices | meet_scheduling/meet_scheduling/doctype/appointment/appointment.py:163-170 | a message iff 0 < used < capacity, carrying used and available with used + available = capacity |
| AppointmentDoc.GranularityNotices | meet_scheduling/meet_scheduling/doctype/appointment/appointment.py:179-200 | no warning only for a whole number of slots; otherwise exactly one warning naming the duration and the slot length |
| AppointmentDoc.WholeSlotsNoWarning | meet_scheduling/meet_scheduling/doctype/appointment/appointment.py:179-200 | a duration of n slots never warns |
| AppointmentDoc.Appointment.constructor | meet_scheduling/api/appointment_api.py:441-449 | a new document with the given resource, times and status and every optional field unset, as the request layer builds it (also endpoints.py:465-473) |
| AppointmentDoc.Appointment.Validate | meet_scheduling/meet_scheduling/doctype/appointment/appointment.py:36-53 | succeeds iff resource set, times set, start < end, resource exists and capacity is left; each failure in that order; the profile copied only when empty; the hold started only for an unheld Draft |
| AppointmentDoc.Appointment.ResolveVideoCallProfile | meet_scheduling/meet_scheduling/doctype/appointment/appointment.py:113-120 | copies the resource's profile only when the booking has none |
| AppointmentDoc.Appointment.CalculateDraftExpiration | meet_scheduling/meet_scheduling/doctype/appointment/appointment.py:122-144 | sets the hold to now + hold length only for a Draft with no hold; otherwise leaves it |
| AppointmentDoc.Appointment.OverlapGate | meet_scheduling/meet_scheduling/doctype/appointment/appointment.py:146-177 | rejects iff the other holders reach capacity; otherwise only the overlap message |
| AppointmentDoc.Appointment.OnSubmit | meet_scheduling/meet_scheduling/doctype/appointment/appointment.py:55-71 | succeeds iff the hold has not expired, the resource exists, every minute lies in open time of the start's date, capacity is left and the meeting step succeeds; an expired hold rejects first; success sets Confirmed and the resolved meeting |
| AppointmentDoc.Appointment.HandleMeetingCreation | meet_scheduling/meet_scheduling/doctype/appointment/appointment.py:306-371 | succeeds iff the meeting step can; ManualOnly without a manual URL rejects; a provider failure rejects; the meeting is unchanged on failure |
| AppointmentDoc.Appointment.OnCancel | meet_scheduling/meet_scheduling/doctype/appointment/appointment.py:73-83 | always ends Cancelled; asks for a delete iff there is a meeting id and a known profile |
| AppointmentDoc.Appointment.OnUpdate | meet_scheduling/meet_scheduling/doctype/appointment/appointment.py:85-93 | does nothing unless a stored Confirmed booking with a meeting id and no manual URL has moved; then a missing profile is an error, a new meeting replaces the old, and a provider failure is reported and keeps the old meeting |
| AppointmentDoc.WithinSomeSlot | meet_scheduling/meet_scheduling/doctype/appointment/appointment.py:271-275 | true iff some interval contains [s, e) |
| AppointmentDoc.AcceptedKeepsLoad | meet_scheduling/meet_scheduling/doctype/appointment/appointment.py:146-177 | a new booking that passes validation keeps every minute within capacity |
| PlanDoc.RowError | meet_scheduling/meet_scheduling/doctype/availability_plan/availability_plan.py:60-89 | a row passes iff it has weekday, start and end, start < end, and any capacity is positive |
| PlanDoc.FirstRowError | meet_scheduling/meet_scheduling/doctype/availability_plan/availability_plan.py:60-89 | no error iff every row passes; otherwise the error of the first failing row |
| PlanDoc.GroupByWeekday | meet_scheduling/meet_scheduling/doctype/availability_plan/availability_plan.py:100-115 | each weekday's group is its rows in table order, and exactly the weekdays present get one |
| PlanDoc.FirstClash | meet_scheduling/meet_scheduling/doctype/availability_plan/availability_plan.py:118-135 | after sorting, reports a pair iff some two members of the group overlap, and a reported pair does overlap |
| PlanDoc.NoOverlappingSlots | meet_scheduling/meet_scheduling/doctype/availability_plan/availability_plan.py:91-135 | no clash iff no weekday has two overlapping rows; a reported clash names two overlapping rows of its weekday |
| PlanDoc.SortedClash | meet_scheduling/meet_scheduling/doctype/availability_plan/availability_plan.py:118-131 | for sorted proper intervals, a consecutive pair with end > next start exists iff some pair overlaps |
| PlanDoc.SortedSameClash | meet_scheduling/meet_scheduling/doctype/availability_plan/availability_plan.py:118-131 | the consecutive check on any sorted permutation answers the pairwise question about the original group |
| PlanDoc.PairClashBag | meet_scheduling/meet_scheduling/doctype/availability_plan/availability_plan.py:118-131 | whether two members overlap depends only on the multiset of intervals |
| PlanDoc.ToSlots | meet_scheduling/meet_scheduling/doctype/availability_plan/availability_plan.py:60-89 | complete rows become the weekly rows of the resolver, all with start < end |
| PlanDoc.ValidatePlan | meet_scheduling/meet_scheduling/doctype/availability_plan/availability_plan.py:31-58 | accepts iff `PlanValid`; a missing name rejects first; valid_from after valid_to rejects next; a reported overlap is a real one |
| PlanDoc.ValidPlanWellFormed | meet_scheduling/meet_scheduling/doctype/availability_plan/availability_plan.py:31-135 | an accepted plan gives well-formed weekly rows, none overlapping another on its weekday |
| ExceptionDoc.Existing | meet_scheduling/meet_scheduling/doctype/calendar_exception/calendar_exception.py:83-93 | the stored exceptions of the same resource and date other than this one, and only those |
| ExceptionDoc.OverlapWarnings | meet_scheduling/meet_scheduling/doctype/calendar_exception/calendar_exception.py:106-122 | at most one warning per existing exception, all overlap warnings |
| ExceptionDoc.ValidateException | meet_scheduling/meet_scheduling/doctype/calendar_exception/calendar_exception.py:33-73 | accepts iff `Acceptable`; missing resource, type, date rejected in that order; start >= end rejected with both times; Extra Availability needs both times; on success the warnings |
| ExceptionDoc.WarningsNeverReject | meet_scheduling/meet_scheduling/doctype/calendar_exception/calendar_exception.py:75-123 | the stored exceptions never change acceptance or the error |
| ExceptionDoc.OverlapWarningsSound | meet_scheduling/meet_scheduling/doctype/calendar_exception/calendar_exception.py:106-122 | every warning names an existing timed exception that strictly overlaps |
| ExceptionDoc.OverlapWarningsComplete | meet_scheduling/meet_scheduling/doctype/calendar_exception/calendar_exception.py:106-122 | every existing timed exception that strictly overlaps is warned about |
| ExceptionDoc.WholeDayWarnsWithCount | meet_scheduling/meet_scheduling/doctype/calendar_exception/calendar_exception.py:97-103 | a whole-day Closed on a date with others is accepted with one warning carrying their count |
| ExceptionDoc.AcceptedIsWellFormed | meet_scheduling/meet_scheduling/doctype/calendar_exception/calendar_exception.py:53-73 | an accepted exception keeps the stored set well formed for the resolver |
| Validators.LowerChar | meet_scheduling/api/shared/validators.py:96 | ASCII lower-casing: upper-case letters move by 32, all else stays, spaces stay spaces |
| Validators.Strip | meet_scheduling/api/shared/validators.py:27-30 | the text between the leading and the trailing whitespace; neither end is whitespace |
| Validators.ValidateDateString | meet_scheduling/api/shared/validators.py:13-38 | "" is required; otherwise accepted iff the stripped text has the DDDD-DD-DD shape, and returns it |
| Validators.ValidateDateTimeString | meet_scheduling/api/shared/validators.py:41-67 | "" is required; otherwise accepted iff the stripped text has the DDDD-DD-DD DD:DD:DD shape, and returns it |
| Validators.Pad | meet_scheduling/api/shared/validators.py:33 | a number below 10^w written with w digits reads back as itself |
| Validators.FormattedDateAccepted | meet_scheduling/api/shared/validators.py:13-38 | a date rendered as YYYY-MM-DD passes unchanged and its fields read back |
| Validators.PaddingIgnored | meet_scheduling/api/shared/validators.py:27-30 | surrounding whitespace changes no validator's answer |
| Validators.StripPadded | meet_scheduling/api/shared/validators.py:27-30 | strip removes any whitespace padding |
| Validators.Search | meet_scheduling/api/shared/validators.py:111-114 | the first match position from a start: it matches and no earlier position does; none iff no position matches |
| Validators.FirstDangerous | meet_scheduling/api/shared/validators.py:111-114 | none iff no blacklist entry from n on occurs; otherwise an entry that occurs |
| Validators.ValidateDocname | meet_scheduling/api/shared/validators.py:70-116 | "" is required; accepted iff the stripped name has at most 140 characters and no blacklist entry in its lower case; returns the stripped name |
| Validators.DocnameCaseInsensitive | meet_scheduling/api/shared/validators.py:111-113 | names equal up to case are both accepted or both rejected |
| Validators.StripLower | meet_scheduling/api/shared/validators.py:89-111 | stripping and lower-casing commute |
| Validators.ContainingDangerousRejected | meet_scheduling/api/shared/validators.py:96-114 | a name without surrounding whitespace that contains any blacklist entry, in any case, is rejected |
| BookingApi.ValidateAppointment | meet_scheduling/api/appointment_api.py:171-352 | valid iff no errors iff `Bookable`; an unknown resource or unparsable times give false flags and one error; capacity_ok iff fewer holders than capacity; availability_ok iff every minute is open when start < end; the holders are a warning, as is a duration that is not a whole number of slots; the errors come range, availability, capacity, in that order (the authenticated copy at api/appointments/endpoints.py:174-355 is the same) |
| BookingApi.AvailabilityCheck | meet_scheduling/api/appointment_api.py:275-296 | for start < end, no error iff every minute is open; "no open time" only when the day has none, and always then for well-formed data |
| BookingApi.CheckInputs | meet_scheduling/api/appointment_api.py:406-410 | succeeds iff the resource and contact names and both datetime texts pass; returns both names stripped; a bad resource name is reported first |
| BookingApi.ConfirmedRow | meet_scheduling/api/appointment_api.py:452-455 | the stored row is Confirmed, submitted, with the request's name, resource and times |
| BookingApi.ConfirmNew | meet_scheduling/api/appointment_api.py:414-459 | succeeds iff resource and contact exist, the request is `Bookable` and the meeting step succeeds; the table gains exactly the confirmed row on success and is unchanged otherwise |
| BookingApi.CreateAndConfirm | meet_scheduling/api/appointment_api.py:355-463 | bot trap and rate limit reject first; succeeds iff inputs pass, resource and contact exist, the request is `Bookable` and the meeting step succeeds; the table gains the new row on success and is unchanged otherwise |
| BookingApi.CreateAndConfirmForSelf | meet_scheduling/api/appointments/endpoints.py:358-487 | rejects the unauthenticated and a contact other than the caller's; otherwise as the guest endpoint; the table is unchanged unless it succeeds |
| BookingApi.ConfirmedKeepsLoad | meet_scheduling/api/appointment_api.py:437-455 | a confirmed booking keeps every minute of the resource within capacity |
| BookingApi.Dispatch | meet_scheduling/api/appointment_api.py:508-534 | docstatus 0 deletes, 1 cancels, 2 reports failure with no action, anything else is an error |
| BookingApi.Find | meet_scheduling/api/appointment_api.py:501-502 | the first row of a name, or none iff there is no such row |
| BookingApi.Without | meet_scheduling/api/appointment_api.py:511 | the table minus the rows of that name, every other row kept |
| BookingApi.CancelNamed | meet_scheduling/api/appointment_api.py:519 | the table with those rows Cancelled and docstatus 2, every other row kept |
| BookingApi.CancelOrDelete | meet_scheduling/api/appointments/endpoints.py:492-562 | not found iff no such row; otherwise the action is `Dispatch` of the row's docstatus; a delete leaves `Without` the row, a cancel leaves `CancelNamed`, an already-cancelled row leaves the table as it was; an unknown docstatus is an error |
| BookingApi.CancelMine | meet_scheduling/api/appointments/endpoints.py:899-994 | succeeds only signed in, with a valid name, owned; then it is the dispatch; an existing but foreign appointment is NotOwner |
| BookingApi.DispatchReleasesCapacity | meet_scheduling/api/appointment_api.py:508-524 | after a successful cancel or delete the appointment holds no capacity anywhere |
| BookingApi.DispatchKeepsOthers | meet_scheduling/api/appointment_api.py:508-532 | any other appointment is reported by an overlap check afterwards iff it was before |
| BookingApi.MeetingGuard | meet_scheduling/api/appointment_api.py:584-599 | passes iff Confirmed with a known manual profile, returning it; a booking not Confirmed is rejected first |

## Left out

- Frappe persistence (`get_doc`, `get_all`, `db.sql`, `db.exists`, commits
  and rollbacks): in-memory sequences and maps stand for them.
- Timezone handling and the UTC fallback: instants are plain minutes.
- String parsing through `get_time`, `get_datetime` and `strftime`: the
  boundary between text and numbers is not modelled. A booking request
  carries its parsed times as an `Option` input next to the text the
  validators check.
- The float duration arithmetic of the granularity check: integer minutes.
- Python treats a midnight time (`timedelta(0)`) as false in
  `if start_time and end_time`. The model uses `Option` and does not
  reproduce that falsiness.
- `Validators.LowerChar`: ASCII case folding only. Python's `lower()`
  and the `re.IGNORECASE` search also fold non-ASCII letters.
- `Validators.ValidateDateString` and `Validators.ValidateDateTimeString`
  accept ASCII digits only. Python's `\d` also matches other Unicode decimal
  digits.
- The video-call providers are outside the model, because they are network
  calls. What `create` returns is a parameter. `delete` never fails and is
  reported only as "delete requested".
- Notifications and e-mail (I/O), cron registration, and the messages of
  `msgprint` and `log_error`: warnings are returned as tagged values.
- Concurrency between request workers: the model is single-threaded.
- The honeypot, the rate limiter, token authentication and the ownership
  query: they are outside the core. Each becomes a boolean (or the
  authenticated contact) input.
- The catch-all `except Exception` paths of the endpoints, which turn any
  other failure into a generic error: not modelled.
- Read-only endpoints (`get_active_calendar_resources`,
  `get_available_slots`, `get_my_appointments`, `get_appointment_detail`),
  and `generate_meeting` beyond its status guard.
- `PlanDoc.ValidatePlan`: an overlap report names the weekday and the two
  intervals, not the row numbers the source's message prints.
- `AppointmentDoc.Appointment.OnSubmit` requires the fields `validate`
  has already checked, since the framework always runs `validate` before
  `on_submit`.
- `Tasks.BookingTable.CleanupExpiredDrafts`: the save's re-resolution of
  the video call profile is not shown, and the comment it adds is not
  modelled.
- `meeting_created_at` and the `provider_payload` fields: not modelled.
- `BookingApi.ValidateAppointment`: `availability_ok` is not characterised
  when start >= end. The source still runs the containment test then, and
  the model only bounds which error it adds.
- `Records.EffectiveSlotDuration`: the slot length is a `nat`, so a negative stored setting is excluded by the type. In the source a negative value passes `or 30` (slots.py:52) and the cutting loop at slots.py:72-101 then never reaches the interval's end.
- `Records.EffectiveDraftMinutes`: the hold length is a `nat`, so a negative stored setting is excluded by the type. In the source a negative value passes `or 15` (appointment.py:132) and makes every fresh draft already expired, so `on_submit` rejects it.
- `BookingApi.ValidateAppointment`: the rate limit of `validate_appointment` (appointment_api.py:217, endpoints.py:220) is not modelled; a limited request fails before any check, which the model does not show.
- `BookingApi.MeetingGuard`: a profile whose `create_on` is not
  "on_submit" is taken as manual.
- `BookingApi.ConfirmNew`: the new document is checked against the table
  without itself, not by excluding its name. With unique names the two are
  the same.
- Code and design differ on Extra Availability. The design suggests it can
  open a day with no weekly rows. The code returns `[]` before the
  exceptions are applied when no weekly row matches the weekday
  (availability.py:157-158). The model follows the code.

## Findings

| source | as written | input that shows it | evidently intended | confidence | as-written member | corrected member |
|---|---|---|---|---|---|---|
| meet_scheduling/meet_scheduling/scheduling/tasks.py:67 | the sweeper saves the cancelled draft, and the save runs `validate`. Its capacity gate counts the other live bookings, so the save throws and the draft is skipped. | capacity 1; draft `draft-1` [0,30) expired at 5; a Confirmed `booked-1` on [0,30); sweep at 10 | every expired draft is cancelled, whatever else is booked on its time | not executed | Tasks.AsWrittenSkipsRebookedDraft | Tasks.BookingTable.CleanupExpiredDrafts |
