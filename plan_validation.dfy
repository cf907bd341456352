/**
  Validation of an Availability Plan form (doctype/availability_plan/availability_plan.py):
  required fields, validity dates in order, complete rows that open before
  they close, positive row capacities, and no two rows of one weekday that
  overlap. Times of day are minutes; dates are day numbers.
*/
module PlanDoc {
  import opened Wrappers
  import opened Records
  import opened Intervals
  import opened Availability

  /** One row of the plan's weekly table as entered: any field may be missing. */
  datatype SlotRow = SlotRow(weekday: Option<Weekday>, startTime: Option<Minute>, endTime: Option<Minute>, capacity: Option<int>)

  datatype PlanForm = PlanForm(planName: string, validFrom: Option<int>, validTo: Option<int>, rows: seq<SlotRow>)

  /** The reasons validation throws; row numbers count from 1. */
  datatype PlanError =
    | MissingPlanName
    | ValidFromAfterValidTo
    | NoSlots
    | MissingWeekday(row: nat)
    | MissingStartTime(row: nat)
    | MissingEndTime(row: nat)
    | StartNotBeforeEnd(row: nat)
    | NonPositiveCapacity(row: nat)
    | OverlappingSlots(weekday: Weekday, first: Interval, second: Interval)

  // ----- the row checks (availability_plan.py:60-89) -----

  /** The first failing check of one row, in the source's order. */
  function RowError(row: SlotRow, idx: nat): (r: Option<PlanError>)
    ensures r.None? <==> row.weekday.Some? && row.startTime.Some? && row.endTime.Some?
                         && row.startTime.value < row.endTime.value
                         && (row.capacity.Some? ==> row.capacity.value > 0)
  {
    if row.weekday.None? then Some(MissingWeekday(idx))
    else if row.startTime.None? then Some(MissingStartTime(idx))
    else if row.endTime.None? then Some(MissingEndTime(idx))
    else if row.startTime.value >= row.endTime.value then Some(StartNotBeforeEnd(idx))
    else if row.capacity.Some? && row.capacity.value <= 0 then Some(NonPositiveCapacity(idx))
    else None
  }

  /** The error of the first failing row, numbering `rows[0]` as `first`. */
  function FirstRowError(rows: seq<SlotRow>, first: nat): (r: Option<PlanError>)
    ensures r.None? <==> forall k :: 0 <= k < |rows| ==> RowError(rows[k], first + k).None?
    ensures r.Some? ==> exists k :: 0 <= k < |rows| && r == RowError(rows[k], first + k)
                                    && forall j :: 0 <= j < k ==> RowError(rows[j], first + j).None?
    decreases |rows|
  {
    if rows == [] then None
    else if RowError(rows[0], first).Some? then RowError(rows[0], first)
    else
      var rest := FirstRowError(rows[1..], first + 1);
      assert forall k :: 1 <= k < |rows| ==> rows[k] == rows[1..][k - 1] && first + k == (first + 1) + (k - 1);
      if rest.Some? then
        assert exists k :: 0 <= k < |rows[1..]| && rest == RowError(rows[1..][k], first + 1 + k)
                           && forall j :: 0 <= j < k ==> RowError(rows[1..][j], first + 1 + j).None?;
        var k :| 0 <= k < |rows[1..]| && rest == RowError(rows[1..][k], first + 1 + k)
                 && forall j :: 0 <= j < k ==> RowError(rows[1..][j], first + 1 + j).None?;
        assert rest == RowError(rows[k + 1], first + (k + 1));
        rest
      else rest
  }

  /** The stored weekly row of a complete row. */
  function ToSlot(row: SlotRow): WeeklySlot
    requires row.weekday.Some? && row.startTime.Some? && row.endTime.Some?
  {
    WeeklySlot(row.weekday.value, row.startTime.value, row.endTime.value)
  }

  // ----- overlapping rows (availability_plan.py:91-135) -----

  /** The rows of one weekday as minute-of-day intervals, in table order. */
  function Group(slots: seq<WeeklySlot>, w: Weekday): seq<Interval>
    decreases |slots|
  {
    if slots == [] then []
    else
      var s := slots[|slots| - 1];
      Group(slots[..|slots| - 1], w) + (if s.weekday == w then [Interval(s.startTime, s.endTime)] else [])
  }

  /** Two intervals share an instant (the source's overlap test). */
  predicate Overlaps(a: Interval, b: Interval)
  {
    a.start < b.end && a.end > b.start
  }

  /** Some two distinct entries overlap. */
  predicate AnyPairClash(s: seq<Interval>)
  {
    exists i, j :: 0 <= i < |s| && 0 <= j < |s| && i != j && Overlaps(s[i], s[j])
  }

  /** Some entry ends after the next one starts. */
  predicate ConsecutiveClash(s: seq<Interval>)
  {
    exists i :: 0 <= i < |s| - 1 && s[i].end > s[i + 1].start
  }

  /** A clash as a property of the entries alone, whatever their order. */
  predicate BagClash(m: multiset<Interval>)
  {
    exists a, b :: a in m && b in m && Overlaps(a, b) && (a != b || m[a] >= 2)
  }

  /** The rows grouped by weekday (availability_plan.py:100-115). */
  method GroupByWeekday(slots: seq<WeeklySlot>) returns (groups: map<Weekday, seq<Interval>>, order: seq<Weekday>)
    ensures forall w :: w in groups <==> w in order
    ensures forall w :: w in groups ==> groups[w] == Group(slots, w)
    ensures forall w :: w !in groups ==> Group(slots, w) == []
  {
    groups, order := map[], [];
    var i := 0;
    while i < |slots|
      invariant 0 <= i <= |slots|
      invariant forall w :: w in groups <==> w in order
      invariant forall w :: w in groups ==> groups[w] == Group(slots[..i], w)
      invariant forall w :: w !in groups ==> Group(slots[..i], w) == []
    {
      var s := slots[i];
      assert slots[..i + 1][..i] == slots[..i];
      if s.weekday !in groups {
        order := order + [s.weekday];
        groups := groups[s.weekday := []];
      }
      groups := groups[s.weekday := groups[s.weekday] + [Interval(s.startTime, s.endTime)]];
      i := i + 1;
    }
    assert slots[..i] == slots;
  }

  /** One weekday's check (availability_plan.py:118-135): sort by start, compare neighbours. */
  method FirstClash(group: seq<Interval>) returns (c: Option<(Interval, Interval)>)
    requires AllNonEmpty(group)
    ensures c.None? <==> !AnyPairClash(group)
    ensures c.Some? ==> c.value.0 in group && c.value.1 in group && Overlaps(c.value.0, c.value.1)
  {
    if |group| < 2 {
      NoPairInShort(group);
      return None;
    }
    var sorted := SortByStart(group);
    SortedSameClash(group, sorted);
    var k := 0;
    while k < |sorted| - 1
      invariant 0 <= k <= |sorted| - 1
      invariant forall j :: 0 <= j < k ==> sorted[j].end <= sorted[j + 1].start
    {
      if sorted[k].end > sorted[k + 1].start {
        assert ConsecutiveClash(sorted);
        SortedOverlap(sorted, k);
        return Some((sorted[k], sorted[k + 1]));
      }
      k := k + 1;
    }
    c := None;
  }

  datatype Clash = Clash(weekday: Weekday, first: Interval, second: Interval)

  /** _validate_no_overlapping_slots: no two rows of one weekday overlap. */
  method NoOverlappingSlots(slots: seq<WeeklySlot>) returns (r: Option<Clash>)
    requires SlotsWellFormed(slots)
    ensures r.None? <==> forall w :: !AnyPairClash(Group(slots, w))
    ensures r.Some? ==> r.value.first in Group(slots, r.value.weekday) && r.value.second in Group(slots, r.value.weekday)
                        && Overlaps(r.value.first, r.value.second)
  {
    var groups, order := GroupByWeekday(slots);
    GroupsNonEmpty(slots);
    var n := 0;
    while n < |order|
      invariant 0 <= n <= |order|
      invariant forall k :: 0 <= k < n ==> !AnyPairClash(Group(slots, order[k]))
    {
      var w := order[n];
      var c := FirstClash(groups[w]);
      if c.Some? {
        return Some(Clash(w, c.value.0, c.value.1));
      }
      n := n + 1;
    }
    forall w ensures !AnyPairClash(Group(slots, w)) {
      if w !in groups {
        NoPairInShort(Group(slots, w));
      } else {
        var k :| 0 <= k < |order| && order[k] == w;
      }
    }
    r := None;
  }

  // ----- lemmas -----

  /** Sorting a group keeps its members, and neighbour comparison on the sorted copy finds any clash of the group. */
  lemma SortedSameClash(group: seq<Interval>, sorted: seq<Interval>)
    requires AllNonEmpty(group) && SortedByStart(sorted) && multiset(sorted) == multiset(group)
    ensures AllNonEmpty(sorted)
    ensures forall iv :: iv in sorted ==> iv in group
    ensures ConsecutiveClash(sorted) <==> AnyPairClash(group)
  {
    forall iv | iv in sorted ensures iv in group {
      assert iv in multiset(sorted);
    }
    forall k | 0 <= k < |sorted| ensures NonEmpty(sorted[k]) {
      assert sorted[k] in sorted;
    }
    SortedClash(sorted);
    PairClashBag(sorted);
    PairClashBag(group);
  }

  /** Neighbours in a sorted nonempty list where the first ends after the second starts overlap. */
  lemma SortedOverlap(s: seq<Interval>, k: int)
    requires SortedByStart(s) && AllNonEmpty(s)
    requires 0 <= k < |s| - 1 && s[k].end > s[k + 1].start
    ensures Overlaps(s[k], s[k + 1])
  {
  }

  lemma NoPairInShort(s: seq<Interval>)
    requires |s| < 2
    ensures !AnyPairClash(s)
  {
  }

  /** Every interval of a weekday's group is a window of a well-formed row, so nonempty. */
  lemma {:induction false} GroupsNonEmpty(slots: seq<WeeklySlot>)
    requires SlotsWellFormed(slots)
    ensures forall w :: AllNonEmpty(Group(slots, w))
    decreases |slots|
  {
    if slots != [] {
      var p := slots[..|slots| - 1];
      assert SlotsWellFormed(p);
      GroupsNonEmpty(p);
      forall w ensures AllNonEmpty(Group(slots, w)) {
        var g := Group(p, w);
        var s := slots[|slots| - 1];
        var tail := if s.weekday == w then [Interval(s.startTime, s.endTime)] else [];
        forall k | 0 <= k < |g + tail| ensures NonEmpty((g + tail)[k]) {
          if k < |g| { assert (g + tail)[k] == g[k]; }
        }
      }
    }
  }

  /** In a list sorted by start, gaps between neighbours keep every later entry clear. */
  lemma {:induction false} ChainClear(s: seq<Interval>, i: int, j: int)
    requires AllNonEmpty(s)
    requires forall k :: 0 <= k < |s| - 1 ==> s[k].end <= s[k + 1].start
    requires 0 <= i < j < |s|
    ensures s[i].end <= s[j].start
    decreases j - i
  {
    if j > i + 1 {
      ChainClear(s, i + 1, j);
    }
  }

  /**
    For intervals sorted by start that are all nonempty, comparing neighbours
    finds a clash exactly when some two entries overlap.
  */
  lemma SortedClash(s: seq<Interval>)
    requires SortedByStart(s) && AllNonEmpty(s)
    ensures ConsecutiveClash(s) <==> AnyPairClash(s)
  {
    if ConsecutiveClash(s) {
      var i :| 0 <= i < |s| - 1 && s[i].end > s[i + 1].start;
      assert Overlaps(s[i], s[i + 1]);
    }
    if !ConsecutiveClash(s) {
      forall i, j | 0 <= i < |s| && 0 <= j < |s| && i != j ensures !Overlaps(s[i], s[j]) {
        if i < j { ChainClear(s, i, j); } else { ChainClear(s, j, i); }
      }
    }
  }

  /** The positional clash depends only on the entries: a reordering keeps it. */
  lemma PairClashBag(s: seq<Interval>)
    ensures AnyPairClash(s) <==> BagClash(multiset(s))
  {
    var m := multiset(s);
    if AnyPairClash(s) {
      var i, j :| 0 <= i < |s| && 0 <= j < |s| && i != j && Overlaps(s[i], s[j]);
      if s[i] == s[j] {
        TwoPositions(s, i, j);
      }
      assert s[i] in m && s[j] in m;
    }
    if BagClash(m) {
      var a, b :| a in m && b in m && Overlaps(a, b) && (a != b || m[a] >= 2);
      if a != b {
        var i :| 0 <= i < |s| && s[i] == a;
        var j :| 0 <= j < |s| && s[j] == b;
        assert i != j;
      } else {
        CountTwo(s, a);
      }
    }
  }

  /** Two positions holding one value make it occur at least twice. */
  lemma TwoPositions(s: seq<Interval>, i: int, j: int)
    requires 0 <= i < |s| && 0 <= j < |s| && i != j && s[i] == s[j]
    ensures multiset(s)[s[i]] >= 2
  {
    var lo, hi := if i < j then i else j, if i < j then j else i;
    assert s == s[..lo] + [s[lo]] + s[lo + 1..hi] + [s[hi]] + s[hi + 1..];
  }

  /** A value occurring at least twice sits at two positions. */
  lemma {:induction false} CountTwo(s: seq<Interval>, a: Interval)
    requires multiset(s)[a] >= 2
    ensures exists i, j :: 0 <= i < |s| && 0 <= j < |s| && i != j && s[i] == a && s[j] == a
    decreases |s|
  {
    var p, x := s[..|s| - 1], s[|s| - 1];
    assert s == p + [x];
    if x == a {
      assert multiset(p)[a] >= 1;
      assert a in multiset(p);
      var i :| 0 <= i < |p| && p[i] == a;
      assert s[i] == a && s[|s| - 1] == a;
    } else {
      assert multiset(p)[a] >= 2;
      CountTwo(p, a);
      var i, j :| 0 <= i < |p| && 0 <= j < |p| && i != j && p[i] == a && p[j] == a;
      assert s[i] == a && s[j] == a;
    }
  }

  /** Every member of a weekday's group is the window of a row of that weekday, and conversely. */
  lemma {:induction false} GroupMembers(slots: seq<WeeklySlot>, w: Weekday, iv: Interval)
    ensures iv in Group(slots, w) <==>
      exists k :: 0 <= k < |slots| && slots[k].weekday == w && iv == Interval(slots[k].startTime, slots[k].endTime)
    decreases |slots|
  {
    if slots != [] {
      var p := slots[..|slots| - 1];
      GroupMembers(p, w, iv);
      if exists k :: 0 <= k < |p| && p[k].weekday == w && iv == Interval(p[k].startTime, p[k].endTime) {
        var k :| 0 <= k < |p| && p[k].weekday == w && iv == Interval(p[k].startTime, p[k].endTime);
        assert slots[k] == p[k];
      }
      if exists k :: 0 <= k < |slots| && slots[k].weekday == w && iv == Interval(slots[k].startTime, slots[k].endTime) {
        var k :| 0 <= k < |slots| && slots[k].weekday == w && iv == Interval(slots[k].startTime, slots[k].endTime);
        if k < |p| { assert p[k] == slots[k]; }
      }
    }
  }

  // ----- the whole form (availability_plan.py:31-58) -----

  /** Every row passes its checks. */
  predicate RowsComplete(rows: seq<SlotRow>)
  {
    forall k :: 0 <= k < |rows| ==> RowError(rows[k], 1 + k).None?
  }

  /** The stored weekly rows of a form whose rows are complete. */
  function ToSlots(rows: seq<SlotRow>): (r: seq<WeeklySlot>)
    requires RowsComplete(rows)
    ensures |r| == |rows|
    ensures SlotsWellFormed(r)
    ensures forall k :: 0 <= k < |rows| ==> r[k] == ToSlot(rows[k])
  {
    seq(|rows|, k requires 0 <= k < |rows| => ToSlot(rows[k]))
  }

  /** The form passes validation. */
  predicate PlanValid(form: PlanForm)
  {
    && form.planName != ""
    && !(form.validFrom.Some? && form.validTo.Some? && form.validFrom.value > form.validTo.value)
    && |form.rows| > 0
    && RowsComplete(form.rows)
    && forall w :: !AnyPairClash(Group(ToSlots(form.rows), w))
  }

  /** AvailabilityPlan.validate: the first failing check, or None. */
  method ValidatePlan(form: PlanForm) returns (r: Option<PlanError>)
    ensures r.None? <==> PlanValid(form)
    ensures form.planName == "" ==> r == Some(MissingPlanName)
    ensures form.planName != "" && form.validFrom.Some? && form.validTo.Some? && form.validFrom.value > form.validTo.value
            ==> r == Some(ValidFromAfterValidTo)
    ensures r.Some? && r.value.OverlappingSlots? ==>
      && RowsComplete(form.rows)
      && r.value.first in Group(ToSlots(form.rows), r.value.weekday)
      && r.value.second in Group(ToSlots(form.rows), r.value.weekday)
      && Overlaps(r.value.first, r.value.second)
  {
    if form.planName == "" {
      return Some(MissingPlanName);
    }
    if form.validFrom.Some? && form.validTo.Some? && form.validFrom.value > form.validTo.value {
      return Some(ValidFromAfterValidTo);
    }
    if |form.rows| == 0 {
      return Some(NoSlots);
    }
    var rowError := FirstRowError(form.rows, 1);
    if rowError.Some? {
      var k :| 0 <= k < |form.rows| && rowError == RowError(form.rows[k], 1 + k)
               && forall j :: 0 <= j < k ==> RowError(form.rows[j], 1 + j).None?;
      assert !RowError(form.rows[k], 1 + k).None?;
      assert !rowError.value.OverlappingSlots?;
      return rowError;
    }
    assert RowsComplete(form.rows);
    var slots := ToSlots(form.rows);
    var clash := NoOverlappingSlots(slots);
    if clash.Some? {
      assert !PlanValid(form);
      return Some(OverlappingSlots(clash.value.weekday, clash.value.first, clash.value.second));
    }
    assert PlanValid(form);
    r := None;
  }

  /** A plan that passes validation gives the resolver well-formed weekly rows. */
  lemma ValidPlanWellFormed(form: PlanForm)
    requires PlanValid(form)
    ensures SlotsWellFormed(ToSlots(form.rows))
    ensures forall w, a, b ::
              (a in Group(ToSlots(form.rows), w) && b in Group(ToSlots(form.rows), w) && a != b) ==> !Overlaps(a, b)
  {
    forall w, a, b | a in Group(ToSlots(form.rows), w) && b in Group(ToSlots(form.rows), w) && a != b
      ensures !Overlaps(a, b)
    {
      var g := Group(ToSlots(form.rows), w);
      PairClashBag(g);
      assert !BagClash(multiset(g));
      assert a in multiset(g) && b in multiset(g);
    }
  }
}
