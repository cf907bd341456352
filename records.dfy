/**
  The stored records of the scheduling app: calendar resources, their weekly
  availability plans, dated calendar exceptions and appointment rows.

  Time is counted in whole minutes. A date is a day number whose day 0 is a
  Monday; a time of day is a minute 0..1439; an instant is
  day * 1440 + minute of day. The resource's time zone is taken to be the
  frame in which these numbers are written (localisation is the identity).
*/
module Records {
  import opened Wrappers

  const MinutesPerDay: int := 1440

  /** A time of day, in minutes after midnight. */
  type Minute = m: int | 0 <= m < 1440

  datatype Weekday = Monday | Tuesday | Wednesday | Thursday | Friday | Saturday | Sunday

  /** The instant at minute `m` of day `date`. */
  function Instant(date: int, m: Minute): int
  {
    date * MinutesPerDay + m
  }

  /** The day an instant falls on. */
  function DateOf(t: int): int
  {
    t / MinutesPerDay
  }

  /** The English weekday name of a date (day 0 is a Monday). */
  function WeekdayOf(date: int): Weekday
  {
    var k := date % 7;
    if k == 0 then Monday
    else if k == 1 then Tuesday
    else if k == 2 then Wednesday
    else if k == 3 then Thursday
    else if k == 4 then Friday
    else if k == 5 then Saturday
    else Sunday
  }

  /** One row of a plan's weekly table: open on `weekday` from `startTime` to `endTime`. */
  datatype WeeklySlot = WeeklySlot(weekday: Weekday, startTime: Minute, endTime: Minute)

  /** A weekly template, optionally bounded by inclusive validity dates. */
  datatype AvailabilityPlan = AvailabilityPlan(
    isActive: bool,
    validFrom: Option<int>,
    validTo: Option<int>,
    slots: seq<WeeklySlot>)

  /**
    A bookable resource. `capacity`, `slotDurationMinutes` and
    `draftExpirationMinutes` hold 0 when the field is unset; an unset link
    to a video call profile is "".
  */
  datatype Resource = Resource(
    name: string,
    isActive: bool,
    plan: Option<AvailabilityPlan>,
    capacity: int,
    slotDurationMinutes: nat,
    draftExpirationMinutes: nat,
    videoCallProfile: string)

  /** A store of resources maps each name to the record of that name. */
  predicate Keyed(resources: map<string, Resource>)
  {
    forall k :: k in resources ==> resources[k].name == k
  }

  datatype ExceptionKind = Closed | Blocked | ExtraAvailability

  /** A dated override for one resource; the times are optional. */
  datatype DateException = DateException(
    name: string,
    resource: string,
    date: int,
    kind: ExceptionKind,
    startTime: Option<Minute>,
    endTime: Option<Minute>)

  /** Both times of an exception are given. */
  predicate HasTimes(e: DateException)
  {
    e.startTime.Some? && e.endTime.Some?
  }

  datatype Status = Draft | Confirmed | Cancelled

  /** A stored appointment row as the overlap query and the sweeper see it. */
  datatype Booking = Booking(
    name: string,
    resource: string,
    start: int,
    end: int,
    status: Status,
    docstatus: int,
    draftExpiresAt: Option<int>)

  /** Capacity with its default: an unset (zero) capacity means 1. */
  function EffectiveCapacity(r: Resource): (c: int)
    ensures r.capacity != 0 ==> c == r.capacity
    ensures r.capacity == 0 ==> c == 1
  {
    if r.capacity == 0 then 1 else r.capacity
  }

  /** Slot length with its default of 30 minutes. */
  function EffectiveSlotDuration(r: Resource): (d: nat)
    ensures d > 0
    ensures r.slotDurationMinutes > 0 ==> d == r.slotDurationMinutes
    ensures r.slotDurationMinutes == 0 ==> d == 30
  {
    if r.slotDurationMinutes == 0 then 30 else r.slotDurationMinutes
  }

  /** Draft hold time with its default of 15 minutes. */
  function EffectiveDraftMinutes(r: Resource): (m: nat)
    ensures m > 0
    ensures r.draftExpirationMinutes > 0 ==> m == r.draftExpirationMinutes
    ensures r.draftExpirationMinutes == 0 ==> m == 15
  {
    if r.draftExpirationMinutes == 0 then 15 else r.draftExpirationMinutes
  }
}
