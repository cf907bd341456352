/**
  The Appointment document (doctype/appointment/appointment.py): a booking
  whose fields its lifecycle hooks update in place.

  - `Validate` runs on every save: it checks the required fields, copies
    the resource's video call profile, starts the draft hold and blocks a
    save that would exceed the resource's capacity.
  - `OnSubmit` confirms a Draft: the hold must not have expired, the time
    must lie inside one open interval of the day, capacity must be left,
    and the meeting link is resolved.
  - `OnCancel` marks the booking Cancelled after a best-effort meeting delete.
  - `OnUpdate` re-creates an automatic meeting when a confirmed booking moves.

  The video call provider is outside the model: what its `create` call
  returns is a parameter, and its `delete` call never reports a failure.
  Optional text fields hold "" when unset, as the source tests them for
  falsiness.
*/
module AppointmentDoc {
  import opened Wrappers
  import opened Records
  import opened Intervals
  import opened Availability
  import opened Overlap

  datatype LinkMode = AutoGenerate | ManualOnly | AutoOrManual | Inherit

  /** A Video Call Profile record; `createOnSubmit` is `create_on == "on_submit"`. */
  datatype VideoCallProfile = VideoCallProfile(provider: string, linkMode: Option<LinkMode>, createOnSubmit: bool)

  /** What the provider's `create` call returns on success. */
  datatype MeetingHandle = MeetingHandle(url: string, id: string)

  /** The meeting fields of the document: URL, provider id, "created" status and provider. */
  datatype Meeting = Meeting(url: string, id: string, created: bool, provider: string)

  /** The start and end of the document as they were before the save. */
  datatype Times = Times(start: Option<int>, end: Option<int>)

  /** Informational messages a hook shows without blocking. */
  datatype Notice =
    | DraftHeld(minutes: nat)
    | OverlapInfo(used: nat, available: nat)
    | DurationNotMultiple(duration: int, slot: nat)
    | MeetingCreated(url: string)
    | MeetingRecreated
    | MeetingUpdateFailed(reason: string)

  /** The reasons a hook throws. */
  datatype Failure =
    | MissingResource
    | MissingTimes
    | StartNotBeforeEnd
    | ResourceNotFound
    | NoCapacity(used: nat)
    | DraftExpired
    | NoAvailability
    | OutsideAvailability
    | ProfileNotFound
    | ManualUrlRequired
    | MeetingCreationFailed(reason: string)

  /** What `on_update` did about the meeting. */
  datatype UpdateOutcome = NothingToDo | Recreated | RecreateFailed(reason: string)

  /**
    _get_effective_link_mode (appointment.py:448-460): the booking's own mode
    unless it is unset or Inherit, then the profile's, then ManualOnly.
  */
  function EffectiveLinkMode(own: Option<LinkMode>, profileMode: Option<LinkMode>): (m: LinkMode)
    ensures own.Some? && own.value != Inherit ==> m == own.value
    ensures (own.None? || own.value == Inherit) ==> m == profileMode.GetOr(ManualOnly)
  {
    if own.Some? && own.value != Inherit then own.value
    else if profileMode.Some? then profileMode.value
    else ManualOnly
  }

  /** The bookings the overlap check skips: none for a new document, itself otherwise. */
  function ExcludeSelf(isNew: bool, name: string): (r: Option<string>)
    ensures r.Some? <==> !isNew
    ensures r.Some? ==> r.value == name
  {
    if isNew then None else Some(name)
  }

  /**
    Whether `create` would be called on submit, and with what result, given
    the meeting fields before (appointment.py:306-341).
  */
  predicate MeetingStepOk(p: VideoCallProfile, own: Option<LinkMode>, manual: string, m: Meeting,
                          created: Result<MeetingHandle, string>)
  {
    var mode := EffectiveLinkMode(own, p.linkMode);
    if mode == ManualOnly then manual != ""
    else if mode == AutoGenerate || mode == AutoOrManual then
      (m.url != "" && manual == "") || !p.createOnSubmit || created.Ok?
    else true
  }

  /** The meeting fields after a successful `_handle_meeting_creation`. */
  function MeetingAfter(p: VideoCallProfile, own: Option<LinkMode>, manual: string, m: Meeting,
                        created: Result<MeetingHandle, string>): (r: Meeting)
    requires MeetingStepOk(p, own, manual, m, created)
    ensures EffectiveLinkMode(own, p.linkMode) == ManualOnly ==> r == m.(url := manual)
    ensures r.url == m.url || r.url == manual || (created.Ok? && r.url == created.value.url)
    ensures r.id != m.id ==> p.createOnSubmit && created.Ok? && r.id == created.value.id
    ensures var mode := EffectiveLinkMode(own, p.linkMode);
      (mode == AutoGenerate || mode == AutoOrManual) ==>
        && (m.url != "" && manual == "" ==> r == m)
        && (!(m.url != "" && manual == "") && p.createOnSubmit ==>
              created.Ok? && r == Meeting(created.value.url, created.value.id, true, p.provider))
        && (!(m.url != "" && manual == "") && !p.createOnSubmit && manual != "" ==> r == m.(url := manual))
        && (!(m.url != "" && manual == "") && !p.createOnSubmit && manual == "" ==> r == m)
  {
    var mode := EffectiveLinkMode(own, p.linkMode);
    if mode == ManualOnly then m.(url := manual)
    else if mode == AutoGenerate || mode == AutoOrManual then
      if m.url != "" && manual == "" then m
      else if p.createOnSubmit then Meeting(created.value.url, created.value.id, true, p.provider)
      else if manual != "" then m.(url := manual)
      else m
    else m
  }

  /** The message of an overlap that leaves capacity (appointment.py:163-170). */
  function OverlapNotices(capacity: int, used: nat): (r: seq<Notice>)
    ensures |r| <= 1
    ensures r != [] <==> 0 < used < capacity
    ensures r != [] ==> r[0].OverlapInfo? && r[0].used == used && r[0].used + r[0].available == capacity
  {
    if used > 0 && used < capacity then [OverlapInfo(used, Remaining(capacity, used))] else []
  }

  /**
    _validate_slot_granularity (appointment.py:179-200): a warning when the
    duration is not a whole number of slots.
  */
  function GranularityNotices(duration: int, slot: nat): (r: seq<Notice>)
    requires slot > 0
    ensures r == [] ==> duration == (duration / slot) * slot
    ensures r != [] ==> r == [DurationNotMultiple(duration, slot)]
  {
    if duration % slot != 0 then [DurationNotMultiple(duration, slot)] else []
  }

  /** A duration of a whole number of slots never warns. */
  lemma WholeSlotsNoWarning(n: int, slot: nat)
    requires slot > 0
    ensures GranularityNotices(n * slot, slot) == []
  {
    var q, rest := (n * slot) / slot, (n * slot) % slot;
    assert n * slot == q * slot + rest;
    assert (n - q) * slot == rest;
    MultipleBounds(n - q, slot);
  }

  lemma MultipleBounds(k: int, slot: nat)
    requires slot > 0
    ensures k >= 1 ==> k * slot >= slot
    ensures k <= -1 ==> k * slot + slot <= 0
  {
    if k >= 1 {
      assert k * slot == (k - 1) * slot + slot;
    } else if k <= -1 {
      assert k * slot == (k + 1) * slot - slot;
    }
  }

  class Appointment {
    var name: string
    var isNew: bool
    var resource: string
    var start: Option<int>
    var end: Option<int>
    var status: Status
    var draftExpiresAt: Option<int>
    var videoCallProfile: string
    var callLinkMode: Option<LinkMode>
    var manualMeetingUrl: string
    var meeting: Meeting

    constructor (name: string, resource: string, start: Option<int>, end: Option<int>, status: Status)
      ensures this.name == name && this.isNew && this.resource == resource
      ensures this.start == start && this.end == end && this.status == status
      ensures draftExpiresAt == None && videoCallProfile == "" && callLinkMode == None
      ensures manualMeetingUrl == "" && meeting == Meeting("", "", false, "")
    {
      this.name := name;
      this.isNew := true;
      this.resource := resource;
      this.start := start;
      this.end := end;
      this.status := status;
      draftExpiresAt := None;
      videoCallProfile := "";
      callLinkMode := None;
      manualMeetingUrl := "";
      meeting := Meeting("", "", false, "");
    }

    /** A resource is named and both times are set, start before end. */
    predicate FieldsOk()
      reads this
    {
      resource != "" && start.Some? && end.Some? && start.value < end.value
    }

    /** The stored row this document corresponds to. */
    function AsBooking(): Booking
      reads this
      requires start.Some? && end.Some?
    {
      Booking(name, resource, start.value, end.value, status, 0, draftExpiresAt)
    }

    /** The appointments the overlap check reports against this document. */
    function Holders(rows: seq<Booking>, now: int): seq<string>
      reads this
      requires start.Some? && end.Some?
    {
      Conflicts(rows, resource, start.value, end.value, ExcludeSelf(isNew, name), now)
    }

    /** `validate` lets the save through. */
    predicate ValidateAccepts(resources: map<string, Resource>, rows: seq<Booking>, now: int)
      reads this
    {
      FieldsOk() && resource in resources && |Holders(rows, now)| < EffectiveCapacity(resources[resource])
    }

    /** validate (appointment.py:36-53). */
    method Validate(resources: map<string, Resource>, rows: seq<Booking>, now: int)
      returns (r: Result<seq<Notice>, Failure>)
      requires Keyed(resources)
      modifies this`videoCallProfile, this`draftExpiresAt
      ensures r.Ok? <==> ValidateAccepts(resources, rows, now)
      ensures resource == "" ==> r == Err(MissingResource)
      ensures resource != "" && (start.None? || end.None?) ==> r == Err(MissingTimes)
      ensures resource != "" && start.Some? && end.Some? && start.value >= end.value ==> r == Err(StartNotBeforeEnd)
      ensures FieldsOk() && resource !in resources ==> r == Err(ResourceNotFound)
      ensures FieldsOk() && resource in resources && r.Err? ==> r.error == NoCapacity(|Holders(rows, now)|)
      ensures videoCallProfile ==
        if FieldsOk() && resource in resources && old(videoCallProfile) == "" && resources[resource].videoCallProfile != ""
        then resources[resource].videoCallProfile else old(videoCallProfile)
      ensures draftExpiresAt ==
        if FieldsOk() && resource in resources && status == Draft && old(draftExpiresAt).None?
        then Some(now + EffectiveDraftMinutes(resources[resource])) else old(draftExpiresAt)
      ensures r.Ok? ==> (r.value ==
        (if old(draftExpiresAt).None? && status == Draft then [DraftHeld(EffectiveDraftMinutes(resources[resource]))] else [])
        + OverlapNotices(EffectiveCapacity(resources[resource]), |Holders(rows, now)|)
        + GranularityNotices(end.value - start.value, EffectiveSlotDuration(resources[resource])))
    {
      // _validate_calendar_resource (appointment.py:97-100)
      if resource == "" {
        return Err(MissingResource);
      }
      // _validate_datetime_consistency (appointment.py:102-111)
      if start.None? || end.None? {
        return Err(MissingTimes);
      }
      if start.value >= end.value {
        return Err(StartNotBeforeEnd);
      }
      // every later step reads the resource record
      if resource !in resources {
        return Err(ResourceNotFound);
      }
      var res := resources[resource];
      ResolveVideoCallProfile(res);
      var held := CalculateDraftExpiration(res, now);
      var gate := OverlapGate(res, rows, now);
      if gate.Err? {
        return Err(gate.error);
      }
      r := Ok(held + gate.value + GranularityNotices(end.value - start.value, EffectiveSlotDuration(res)));
    }

    /** _resolve_video_call_profile (appointment.py:113-120): copy the resource's profile when unset. */
    method ResolveVideoCallProfile(res: Resource)
      modifies this`videoCallProfile
      ensures videoCallProfile == if old(videoCallProfile) == "" && res.videoCallProfile != "" then res.videoCallProfile
                                   else old(videoCallProfile)
    {
      if videoCallProfile == "" && res.videoCallProfile != "" {
        videoCallProfile := res.videoCallProfile;
      }
    }

    /** _calculate_draft_expiration (appointment.py:122-144): start the hold of an unheld Draft. */
    method CalculateDraftExpiration(res: Resource, now: int) returns (notices: seq<Notice>)
      modifies this`draftExpiresAt
      ensures draftExpiresAt == if status == Draft && old(draftExpiresAt).None?
                                then Some(now + EffectiveDraftMinutes(res)) else old(draftExpiresAt)
      ensures notices == if status == Draft && old(draftExpiresAt).None? then [DraftHeld(EffectiveDraftMinutes(res))] else []
    {
      notices := [];
      if status == Draft && draftExpiresAt.None? {
        var minutes := EffectiveDraftMinutes(res);
        draftExpiresAt := Some(now + minutes);
        notices := [DraftHeld(minutes)];
      }
    }

    /**
      _validate_overlaps_and_block_if_exceeded (appointment.py:146-177): a
      save is blocked exactly when the other holders fill the capacity.
    */
    method OverlapGate(res: Resource, rows: seq<Booking>, now: int) returns (r: Result<seq<Notice>, Failure>)
      requires start.Some? && end.Some? && res.name == resource
      ensures r.Ok? <==> |Holders(rows, now)| < EffectiveCapacity(res)
      ensures r.Err? ==> r.error == NoCapacity(|Holders(rows, now)|)
      ensures r.Ok? ==> r.value == OverlapNotices(EffectiveCapacity(res), |Holders(rows, now)|)
    {
      var report := CheckOverlap(res, rows, start.value, end.value, ExcludeSelf(isNew, name), now);
      var notices: seq<Notice> := [];
      if report.hasOverlap && !report.capacityExceeded {
        notices := [OverlapInfo(report.capacityUsed, report.capacityAvailable)];
      }
      if report.capacityExceeded {
        return Err(NoCapacity(report.capacityUsed));
      }
      r := Ok(notices);
    }

    /** The Draft's hold has passed (appointment.py:208-217). */
    predicate HoldExpired(now: int)
      reads this
    {
      status == Draft && draftExpiresAt.Some? && draftExpiresAt.value < now
    }

    /** The meeting step of `on_submit` succeeds. */
    predicate MeetingOk(profiles: map<string, VideoCallProfile>, created: Result<MeetingHandle, string>)
      reads this
    {
      videoCallProfile == "" ||
      (videoCallProfile in profiles &&
       MeetingStepOk(profiles[videoCallProfile], callLinkMode, manualMeetingUrl, meeting, created))
    }

    /**
      on_submit (appointment.py:55-71). The framework runs `validate` first,
      so the fields it checks hold.
    */
    method OnSubmit(resources: map<string, Resource>, excs: seq<DateException>, rows: seq<Booking>,
                    profiles: map<string, VideoCallProfile>, now: int, created: Result<MeetingHandle, string>)
      returns (r: Result<seq<Notice>, Failure>)
      requires Keyed(resources) && FieldsOk()
      modifies this`status, this`meeting
      ensures r.Ok? <==>
        && !old(HoldExpired(now))
        && resource in resources
        && (forall t :: start.value <= t < end.value ==> AvailableAt(resources[resource], excs, DateOf(start.value), t))
        && |old(Holders(rows, now))| < EffectiveCapacity(resources[resource])
        && old(MeetingOk(profiles, created))
      ensures old(HoldExpired(now)) ==> r == Err(DraftExpired)
      ensures r.Ok? ==> status == Confirmed
      ensures r.Ok? && videoCallProfile != "" ==>
        meeting == MeetingAfter(profiles[videoCallProfile], callLinkMode, manualMeetingUrl, old(meeting), created)
      ensures r.Ok? && videoCallProfile == "" ==> meeting == old(meeting)
      ensures r.Err? ==> status == old(status) && meeting == old(meeting)
    {
      // _validate_draft_not_expired (appointment.py:202-224)
      if status == Draft && draftExpiresAt.Some? && draftExpiresAt.value < now {
        return Err(DraftExpired);
      }
      // _validate_availability_strict (appointment.py:226-280)
      if resource !in resources {
        return Err(ResourceNotFound);
      }
      var res := resources[resource];
      var s, e := start.value, end.value;
      var slots := DaySlots(res, excs, DateOf(s));
      ContainedIffCovered(slots, s, e);
      if |slots| == 0 {
        return Err(NoAvailability);
      }
      var within := WithinSomeSlot(slots, s, e);
      if !within {
        return Err(OutsideAvailability);
      }
      // _validate_overlaps_strict (appointment.py:282-302)
      var report := CheckOverlap(res, rows, s, e, ExcludeSelf(isNew, name), now);
      if report.capacityExceeded {
        return Err(NoCapacity(report.capacityUsed));
      }
      // _handle_meeting_creation (appointment.py:306-371)
      var notices: seq<Notice> := [];
      if videoCallProfile != "" {
        if videoCallProfile !in profiles {
          return Err(ProfileNotFound);
        }
        var outcome := HandleMeetingCreation(profiles[videoCallProfile], created);
        if outcome.Err? {
          return Err(outcome.error);
        }
        notices := outcome.value;
      }
      status := Confirmed;
      r := Ok(notices);
    }

    /** _handle_meeting_creation once the profile is read (appointment.py:320-371). */
    method HandleMeetingCreation(p: VideoCallProfile, created: Result<MeetingHandle, string>)
      returns (r: Result<seq<Notice>, Failure>)
      modifies this`meeting
      ensures r.Ok? <==> MeetingStepOk(p, callLinkMode, manualMeetingUrl, old(meeting), created)
      ensures r.Ok? ==> meeting == MeetingAfter(p, callLinkMode, manualMeetingUrl, old(meeting), created)
      ensures r.Err? ==> meeting == old(meeting)
      ensures r.Err? && EffectiveLinkMode(callLinkMode, p.linkMode) == ManualOnly ==> r.error == ManualUrlRequired
      ensures r.Err? && EffectiveLinkMode(callLinkMode, p.linkMode) != ManualOnly ==>
        created.Err? && r.error == MeetingCreationFailed(created.error)
    {
      var mode := EffectiveLinkMode(callLinkMode, p.linkMode);
      if mode == ManualOnly {
        if manualMeetingUrl == "" {
          return Err(ManualUrlRequired);
        }
        meeting := meeting.(url := manualMeetingUrl);
        return Ok([]);
      } else if mode == AutoGenerate || mode == AutoOrManual {
        if meeting.url != "" && manualMeetingUrl == "" {
          return Ok([]);
        }
        if p.createOnSubmit {
          // _create_meeting_via_adapter (appointment.py:342-371)
          if created.Err? {
            return Err(MeetingCreationFailed(created.error));
          }
          meeting := Meeting(created.value.url, created.value.id, true, p.provider);
          return Ok([MeetingCreated(created.value.url)]);
        } else if manualMeetingUrl != "" {
          meeting := meeting.(url := manualMeetingUrl);
        }
        return Ok([]);
      }
      r := Ok([]);
    }

    /**
      on_cancel (appointment.py:73-83, 373-392): the booking always ends
      Cancelled; `deleteRequested` says whether the provider was asked to
      delete the meeting, whose failure is only logged.
    */
    method OnCancel(profiles: map<string, VideoCallProfile>) returns (deleteRequested: bool)
      modifies this`status
      ensures status == Cancelled
      ensures deleteRequested <==> meeting.id != "" && videoCallProfile != "" && videoCallProfile in profiles
    {
      deleteRequested := false;
      if meeting.id != "" && videoCallProfile != "" {
        // a missing profile raises inside the try block and is swallowed
        if videoCallProfile in profiles {
          deleteRequested := true;
        }
      }
      status := Cancelled;
    }

    /** The conditions under which `on_update` re-creates the meeting (appointment.py:400-422). */
    predicate NeedsRecreate(previous: Option<Times>)
      reads this
    {
      && !isNew
      && status == Confirmed
      && meeting.id != ""
      && manualMeetingUrl == ""
      && previous.Some?
      && (previous.value.start != start || previous.value.end != end)
    }

    /** on_update (appointment.py:85-93, 394-446). */
    method OnUpdate(profiles: map<string, VideoCallProfile>, previous: Option<Times>, created: Result<MeetingHandle, string>)
      returns (r: Result<UpdateOutcome, Failure>)
      modifies this`meeting
      ensures !old(NeedsRecreate(previous)) ==> r == Ok(NothingToDo) && meeting == old(meeting)
      ensures old(NeedsRecreate(previous)) && videoCallProfile !in profiles ==> r == Err(ProfileNotFound) && meeting == old(meeting)
      ensures old(NeedsRecreate(previous)) && videoCallProfile in profiles && created.Ok? ==>
        r == Ok(Recreated) && meeting == Meeting(created.value.url, created.value.id, true, profiles[videoCallProfile].provider)
      ensures old(NeedsRecreate(previous)) && videoCallProfile in profiles && created.Err? ==>
        r == Ok(RecreateFailed(created.error)) && meeting == old(meeting)
    {
      if isNew || status != Confirmed || meeting.id == "" || manualMeetingUrl != "" || previous.None? {
        return Ok(NothingToDo);
      }
      if previous.value.start == start && previous.value.end == end {
        return Ok(NothingToDo);
      }
      // the profile is read outside the try block, so a missing one propagates
      if videoCallProfile !in profiles {
        return Err(ProfileNotFound);
      }
      var p := profiles[videoCallProfile];
      // the old meeting is deleted, then a new one is created; failures are only reported
      if created.Err? {
        return Ok(RecreateFailed(created.error));
      }
      meeting := Meeting(created.value.url, created.value.id, true, p.provider);
      r := Ok(Recreated);
    }
  }

  /** The containment loop of `_validate_availability_strict` (appointment.py:271-275). */
  method WithinSomeSlot(slots: seq<Interval>, s: int, e: int) returns (found: bool)
    ensures found <==> exists k :: 0 <= k < |slots| && slots[k].start <= s && e <= slots[k].end
  {
    found := false;
    var i := 0;
    while i < |slots|
      invariant 0 <= i <= |slots|
      invariant !exists k :: 0 <= k < i && slots[k].start <= s && e <= slots[k].end
    {
      if slots[i].start <= s && slots[i].end >= e {
        found := true;
        return;
      }
      i := i + 1;
    }
  }

  /**
    A save `validate` accepts keeps the resource within capacity at every
    instant, when the document is new and the table was within capacity.
  */
  lemma AcceptedKeepsLoad(a: Appointment, resources: map<string, Resource>, rows: seq<Booking>, now: int)
    requires Keyed(resources)
    requires a.ValidateAccepts(resources, rows, now) && a.isNew
    requires forall t :: Load(rows, a.resource, t, now) <= EffectiveCapacity(resources[a.resource])
    ensures forall t :: Load(rows + [a.AsBooking()], a.resource, t, now) <= EffectiveCapacity(resources[a.resource])
  {
    AdmissionKeepsLoad(rows, resources[a.resource], a.AsBooking(), now);
  }
}
