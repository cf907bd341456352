/**
  Half-open intervals [start, end) of instants and the interval algebra of the
  availability resolver: subtraction of a block, a stable sort by start and
  the merge of overlapping or adjacent intervals.

  Every operation is specified pointwise: a list of intervals stands for the
  set of instants some member covers (`InUnion`).
*/
module Intervals {

  datatype Interval = Interval(start: int, end: int)

  predicate Covers(iv: Interval, t: int)
  {
    iv.start <= t < iv.end
  }

  predicate NonEmpty(iv: Interval)
  {
    iv.start < iv.end
  }

  /** Some interval of `s` covers instant `t`. */
  predicate InUnion(s: seq<Interval>, t: int)
  {
    exists i :: 0 <= i < |s| && Covers(s[i], t)
  }

  predicate AllNonEmpty(s: seq<Interval>)
  {
    forall i :: 0 <= i < |s| ==> NonEmpty(s[i])
  }

  predicate SortedByStart(s: seq<Interval>)
  {
    forall i, j :: 0 <= i < j < |s| ==> s[i].start <= s[j].start
  }

  /** Consecutive members are separated by a gap of at least one instant. */
  predicate Separated(s: seq<Interval>)
  {
    forall i :: 0 <= i < |s| - 1 ==> s[i].end < s[i + 1].start
  }

  /** The shape the merge produces: ordered by start, neither overlapping nor touching. */
  predicate Canonical(s: seq<Interval>)
  {
    SortedByStart(s) && Separated(s)
  }

  // ----- coverage of composed lists -----

  lemma InUnionAppend(s: seq<Interval>, x: Interval, t: int)
    ensures InUnion(s + [x], t) <==> InUnion(s, t) || Covers(x, t)
  {
    var s' := s + [x];
    if InUnion(s', t) {
      var i :| 0 <= i < |s'| && Covers(s'[i], t);
      if i < |s| { assert s'[i] == s[i]; }
    }
    if InUnion(s, t) {
      var i :| 0 <= i < |s| && Covers(s[i], t);
      assert s'[i] == s[i];
    }
    if Covers(x, t) {
      assert s'[|s|] == x;
    }
  }

  lemma InUnionConcat(a: seq<Interval>, b: seq<Interval>, t: int)
    ensures InUnion(a + b, t) <==> InUnion(a, t) || InUnion(b, t)
  {
    var c := a + b;
    if InUnion(c, t) {
      var i :| 0 <= i < |c| && Covers(c[i], t);
      if i < |a| { assert c[i] == a[i]; } else { assert c[i] == b[i - |a|]; }
    }
    if InUnion(a, t) {
      var i :| 0 <= i < |a| && Covers(a[i], t);
      assert c[i] == a[i];
    }
    if InUnion(b, t) {
      var i :| 0 <= i < |b| && Covers(b[i], t);
      assert c[|a| + i] == b[i];
    }
  }

  /** Lists with the same members cover the same instants. */
  lemma InUnionSameElements(a: seq<Interval>, b: seq<Interval>, t: int)
    requires multiset(a) == multiset(b)
    ensures InUnion(a, t) <==> InUnion(b, t)
  {
    if InUnion(a, t) {
      var i :| 0 <= i < |a| && Covers(a[i], t);
      assert a[i] in multiset(b);
      var j :| 0 <= j < |b| && b[j] == a[i];
    }
    if InUnion(b, t) {
      var i :| 0 <= i < |b| && Covers(b[i], t);
      assert b[i] in multiset(a);
      var j :| 0 <= j < |a| && a[j] == b[i];
    }
  }

  // ----- subtraction (availability.py, _interval_subtract) -----

  /**
    Removes `block` from `iv`, giving the zero, one or two pieces that remain.
    The branches follow the source case by case; its final fallback is
    unreachable, so the interior case is the last `else`.
  */
  function Subtract(iv: Interval, block: Interval): (r: seq<Interval>)
    ensures |r| <= 2
    ensures forall t :: InUnion(r, t) <==> Covers(iv, t) && !Covers(block, t)
    ensures forall k :: 0 <= k < |r| ==> iv.start <= r[k].start && r[k].end <= iv.end
    ensures NonEmpty(iv) ==> AllNonEmpty(r)
    ensures NonEmpty(block) ==> Canonical(r)
  {
    if block.end <= iv.start || block.start >= iv.end then
      InUnionOne(iv);
      [iv]
    else if block.start <= iv.start && block.end >= iv.end then
      []
    else if block.start <= iv.start && block.end < iv.end then
      InUnionOne(Interval(block.end, iv.end));
      [Interval(block.end, iv.end)]
    else if block.start > iv.start && block.end >= iv.end then
      InUnionOne(Interval(iv.start, block.start));
      [Interval(iv.start, block.start)]
    else
      InUnionTwo(Interval(iv.start, block.start), Interval(block.end, iv.end));
      [Interval(iv.start, block.start), Interval(block.end, iv.end)]
  }

  /** The five shapes of the result, as the source's case analysis and its tests give them. */
  lemma SubtractCases(iv: Interval, block: Interval)
    requires NonEmpty(iv) && NonEmpty(block)
    ensures block.end <= iv.start || block.start >= iv.end ==> Subtract(iv, block) == [iv]
    ensures block.start <= iv.start && iv.end <= block.end ==> Subtract(iv, block) == []
    ensures block.start <= iv.start < block.end < iv.end ==> Subtract(iv, block) == [Interval(block.end, iv.end)]
    ensures iv.start < block.start < iv.end <= block.end ==> Subtract(iv, block) == [Interval(iv.start, block.start)]
    ensures iv.start < block.start && block.end < iv.end ==>
              Subtract(iv, block) == [Interval(iv.start, block.start), Interval(block.end, iv.end)]
  {
  }

  /** Any canonical list of proper intervals covering exactly `iv` minus `block` is the result. */
  lemma SubtractUnique(iv: Interval, block: Interval, r: seq<Interval>)
    requires NonEmpty(iv) && NonEmpty(block)
    requires Canonical(r) && AllNonEmpty(r)
    requires forall t :: InUnion(r, t) <==> Covers(iv, t) && !Covers(block, t)
    ensures r == Subtract(iv, block)
  {
    CanonicalUnique(r, Subtract(iv, block));
  }

  lemma InUnionOne(x: Interval)
    ensures forall t :: InUnion([x], t) <==> Covers(x, t)
  {
    forall t ensures InUnion([x], t) <==> Covers(x, t) {
      if Covers(x, t) { assert [x][0] == x; }
    }
  }

  lemma InUnionTwo(x: Interval, y: Interval)
    ensures forall t :: InUnion([x, y], t) <==> Covers(x, t) || Covers(y, t)
  {
    forall t ensures InUnion([x, y], t) <==> Covers(x, t) || Covers(y, t) {
      if Covers(x, t) { assert [x, y][0] == x; }
      if Covers(y, t) { assert [x, y][1] == y; }
    }
  }

  // ----- stable sort by start (Python's list.sort with a start key) -----

  /** Inserts `x` after every member whose start is not greater than its own. */
  function Insert(x: Interval, s: seq<Interval>): seq<Interval>
  {
    if s == [] then [x]
    else if x.start < s[0].start then [x] + s
    else [s[0]] + Insert(x, s[1..])
  }

  predicate StartsFrom(s: seq<Interval>, v: int)
  {
    forall k :: 0 <= k < |s| ==> v <= s[k].start
  }

  lemma {:induction false} InsertStartsFrom(x: Interval, s: seq<Interval>, v: int)
    requires StartsFrom(s, v) && v <= x.start
    ensures StartsFrom(Insert(x, s), v)
  {
    if s != [] && x.start >= s[0].start {
      InsertStartsFrom(x, s[1..], v);
      var r := Insert(x, s);
      assert r == [s[0]] + Insert(x, s[1..]);
      forall k | 0 <= k < |r| ensures v <= r[k].start {
        if k > 0 { assert r[k] == Insert(x, s[1..])[k - 1]; }
      }
    }
  }

  lemma ConsSorted(a: Interval, r: seq<Interval>)
    requires SortedByStart(r) && StartsFrom(r, a.start)
    ensures SortedByStart([a] + r)
  {
    var c := [a] + r;
    forall i, j | 0 <= i < j < |c| ensures c[i].start <= c[j].start {
      assert c[j] == r[j - 1];
      if i > 0 { assert c[i] == r[i - 1]; }
    }
  }

  lemma {:induction false} InsertSorted(x: Interval, s: seq<Interval>)
    requires SortedByStart(s)
    ensures SortedByStart(Insert(x, s))
    ensures multiset(Insert(x, s)) == multiset(s) + multiset{x}
    ensures |Insert(x, s)| == |s| + 1
  {
    InsertBag(x, s);
    if s != [] {
      if x.start < s[0].start {
        assert StartsFrom(s, x.start);
        ConsSorted(x, s);
      } else {
        InsertSorted(x, s[1..]);
        assert StartsFrom(s[1..], s[0].start);
        InsertStartsFrom(x, s[1..], s[0].start);
        ConsSorted(s[0], Insert(x, s[1..]));
      }
    }
  }

  lemma {:induction false} InsertBag(x: Interval, s: seq<Interval>)
    ensures multiset(Insert(x, s)) == multiset(s) + multiset{x}
    ensures |Insert(x, s)| == |s| + 1
  {
    if s != [] && x.start >= s[0].start {
      InsertBag(x, s[1..]);
      assert s == [s[0]] + s[1..];
    }
  }

  /** Insertion sort, processing members left to right; equal starts keep their order. */
  function SortByStart(s: seq<Interval>): (r: seq<Interval>)
    ensures SortedByStart(r)
    ensures multiset(r) == multiset(s)
    ensures |r| == |s|
  {
    if s == [] then []
    else
      var init, last := s[..|s| - 1], s[|s| - 1];
      var p := SortByStart(init);
      InsertSorted(last, p);
      assert multiset(s) == multiset(init) + multiset{last} by { assert s == init + [last]; }
      Insert(last, p)
  }

  lemma {:induction false} InsertLast(x: Interval, s: seq<Interval>)
    requires SortedByStart(s)
    requires forall k :: 0 <= k < |s| ==> s[k].start <= x.start
    ensures Insert(x, s) == s + [x]
  {
    if s != [] {
      InsertLast(x, s[1..]);
      assert [s[0]] + (s[1..] + [x]) == s + [x];
    }
  }

  /** Sorting an already sorted list changes nothing (the resolver's final sort). */
  lemma {:induction false} SortSorted(s: seq<Interval>)
    requires SortedByStart(s)
    ensures SortByStart(s) == s
  {
    if s != [] {
      var p := s[..|s| - 1];
      assert SortedByStart(p);
      SortSorted(p);
      InsertLast(s[|s| - 1], p);
      assert p + [s[|s| - 1]] == s;
    }
  }

  // ----- merge (availability.py, _merge_intervals) -----

  /**
    Sorts by start, then folds left: an interval that starts at or before the
    end of the last merged one extends it, any other starts a new one. The
    source's in-place update of the last merged entry is a replacement of the
    last element here.
  */
  method MergeIntervals(input: seq<Interval>) returns (merged: seq<Interval>)
    ensures forall t :: InUnion(merged, t) <==> InUnion(input, t)
    ensures Canonical(merged)
    ensures AllNonEmpty(input) ==> AllNonEmpty(merged)
    ensures |merged| <= |input|
    ensures Canonical(input) && AllNonEmpty(input) ==> merged == input
  {
    if |input| == 0 {
      return [];
    }
    var sorted := SortByStart(input);
    SortFacts(input);
    merged := [sorted[0]];
    MergeStart(input, sorted);
    var i := 1;
    while i < |sorted|
      invariant 1 <= i <= |sorted|
      invariant MergeProgress(input, sorted, merged, i)
    {
      var current := sorted[i];
      var last := merged[|merged| - 1];
      var before := merged;
      if current.start <= last.end {
        if current.end > last.end {
          merged := before[..|before| - 1] + [Interval(last.start, current.end)];
        }
      } else {
        merged := before + [current];
      }
      MergeStep(input, sorted, before, merged, i);
      i := i + 1;
    }
    assert sorted[..i] == sorted;
  }

  /** The loop invariant of the merge after `i` sorted members have been folded in. */
  ghost predicate MergeProgress(input: seq<Interval>, sorted: seq<Interval>, merged: seq<Interval>, i: int)
  {
    && 1 <= i <= |sorted|
    && 1 <= |merged| <= i
    && Canonical(merged)
    && StartsUpTo(merged, sorted[i - 1].start)
    && (forall t :: InUnion(merged, t) <==> InUnion(sorted[..i], t))
    && (AllNonEmpty(sorted) ==> AllNonEmpty(merged))
    && (Canonical(input) && AllNonEmpty(input) ==> merged == sorted[..i])
    && SortedByStart(sorted)
    && (Canonical(input) ==> sorted == input)
  }

  lemma MergeStart(input: seq<Interval>, sorted: seq<Interval>)
    requires |sorted| > 0 && SortedByStart(sorted)
    requires Canonical(input) ==> sorted == input
    ensures MergeProgress(input, sorted, [sorted[0]], 1)
  {
    assert sorted[..1] == [sorted[0]];
    InUnionOne(sorted[0]);
  }

  /** One fold step keeps the invariant: extend the last interval, absorb, or append. */
  lemma MergeStep(input: seq<Interval>, sorted: seq<Interval>, before: seq<Interval>, after: seq<Interval>, i: int)
    requires MergeProgress(input, sorted, before, i) && i < |sorted|
    requires var last := before[|before| - 1];
      after == (if sorted[i].start <= last.end then
                  (if sorted[i].end > last.end then before[..|before| - 1] + [Interval(last.start, sorted[i].end)]
                   else before)
                else before + [sorted[i]])
    ensures MergeProgress(input, sorted, after, i + 1)
  {
    var last := before[|before| - 1];
    PrefixCover(sorted, i);
    assert Canonical(input) && AllNonEmpty(input) ==> last.end < sorted[i].start by {
      if Canonical(input) && AllNonEmpty(input) {
        assert last == sorted[i - 1];
        assert sorted[i - 1].end < sorted[i].start;
      }
    }
    if sorted[i].start <= last.end {
      if sorted[i].end > last.end {
        MergeExtend(input, sorted, before, i);
      } else {
        MergeAbsorb(input, sorted, before, i);
      }
    } else {
      MergeAppend(input, sorted, before, i);
    }
  }

  lemma MergeExtend(input: seq<Interval>, sorted: seq<Interval>, before: seq<Interval>, i: int)
    requires MergeProgress(input, sorted, before, i) && i < |sorted|
    requires forall t :: InUnion(sorted[..i + 1], t) <==> InUnion(sorted[..i], t) || Covers(sorted[i], t)
    requires !(Canonical(input) && AllNonEmpty(input))
    requires before[|before| - 1].start <= sorted[i].start
    requires sorted[i].start <= before[|before| - 1].end < sorted[i].end
    ensures MergeProgress(input, sorted, before[..|before| - 1] + [Interval(before[|before| - 1].start, sorted[i].end)], i + 1)
  {
    assert sorted[i - 1].start <= sorted[i].start;
    ExtendLast(before, sorted[i]);
  }

  lemma MergeAbsorb(input: seq<Interval>, sorted: seq<Interval>, before: seq<Interval>, i: int)
    requires MergeProgress(input, sorted, before, i) && i < |sorted|
    requires forall t :: InUnion(sorted[..i + 1], t) <==> InUnion(sorted[..i], t) || Covers(sorted[i], t)
    requires !(Canonical(input) && AllNonEmpty(input))
    requires before[|before| - 1].start <= sorted[i].start
    requires sorted[i].end <= before[|before| - 1].end
    ensures MergeProgress(input, sorted, before, i + 1)
  {
    assert sorted[i - 1].start <= sorted[i].start;
    forall t | Covers(sorted[i], t) ensures InUnion(before, t) {
      assert Covers(before[|before| - 1], t);
    }
  }

  lemma MergeAppend(input: seq<Interval>, sorted: seq<Interval>, before: seq<Interval>, i: int)
    requires MergeProgress(input, sorted, before, i) && i < |sorted|
    requires forall t :: InUnion(sorted[..i + 1], t) <==> InUnion(sorted[..i], t) || Covers(sorted[i], t)
    requires before[|before| - 1].end < sorted[i].start
    ensures MergeProgress(input, sorted, before + [sorted[i]], i + 1)
  {
    assert sorted[i - 1].start <= sorted[i].start;
    AppendNew(before, sorted[i]);
    assert Canonical(input) && AllNonEmpty(input) ==> before + [sorted[i]] == sorted[..i + 1] by {
      assert sorted[..i + 1] == sorted[..i] + [sorted[i]];
    }
    if AllNonEmpty(sorted) {
      assert NonEmpty(sorted[i]);
    }
  }

  lemma PrefixCover(s: seq<Interval>, i: int)
    requires 0 <= i < |s|
    ensures forall t :: InUnion(s[..i + 1], t) <==> InUnion(s[..i], t) || Covers(s[i], t)
  {
    assert s[..i + 1] == s[..i] + [s[i]];
    forall t ensures InUnion(s[..i + 1], t) <==> InUnion(s[..i], t) || Covers(s[i], t) {
      InUnionAppend(s[..i], s[i], t);
    }
  }

  predicate StartsUpTo(s: seq<Interval>, v: int)
  {
    forall k :: 0 <= k < |s| ==> s[k].start <= v
  }

  /** What the merge needs to know about the sorted copy of its input. */
  lemma SortFacts(input: seq<Interval>)
    ensures forall t :: InUnion(SortByStart(input), t) <==> InUnion(input, t)
    ensures AllNonEmpty(input) ==> AllNonEmpty(SortByStart(input))
    ensures Canonical(input) ==> SortByStart(input) == input
  {
    var sorted := SortByStart(input);
    forall t ensures InUnion(sorted, t) <==> InUnion(input, t) {
      InUnionSameElements(sorted, input, t);
    }
    if AllNonEmpty(input) {
      forall k | 0 <= k < |sorted| ensures NonEmpty(sorted[k]) {
        assert sorted[k] in multiset(input);
      }
    }
    if Canonical(input) {
      SortSorted(input);
    }
  }

  /** Extending the last merged interval to the end of `cur` (the source's in-place update). */
  lemma ExtendLast(before: seq<Interval>, cur: Interval)
    requires |before| > 0 && Canonical(before)
    requires before[|before| - 1].start <= cur.start <= before[|before| - 1].end < cur.end
    ensures var m := before[..|before| - 1] + [Interval(before[|before| - 1].start, cur.end)];
      && Canonical(m) && |m| == |before|
      && (forall k :: 0 <= k < |m| ==> m[k].start == before[k].start)
      && (forall t :: InUnion(m, t) <==> InUnion(before, t) || Covers(cur, t))
      && (AllNonEmpty(before) ==> AllNonEmpty(m))
  {
    var n := |before| - 1;
    var last := before[n];
    var wider := Interval(last.start, cur.end);
    var p := before[..n];
    var m := p + [wider];
    assert p + [last] == before;
    forall k | 0 <= k < |m| ensures m[k].start == before[k].start {
      if k < n { assert m[k] == before[k]; }
    }
    forall k | 0 <= k < |m| - 1 ensures m[k].end < m[k + 1].start {
      assert m[k] == before[k];
      assert before[k].end < before[k + 1].start;
    }
    forall t ensures InUnion(m, t) <==> InUnion(before, t) || Covers(cur, t) {
      InUnionAppend(p, last, t);
      InUnionAppend(p, wider, t);
    }
    if AllNonEmpty(before) {
      forall k | 0 <= k < |m| ensures NonEmpty(m[k]) {
        if k < n { assert m[k] == before[k]; }
      }
    }
  }

  /** Starting a new merged interval after a gap keeps the list canonical. */
  lemma AppendNew(before: seq<Interval>, cur: Interval)
    requires |before| > 0 && Canonical(before)
    requires before[|before| - 1].end < cur.start
    requires StartsUpTo(before, cur.start)
    ensures Canonical(before + [cur])
    ensures forall t :: InUnion(before + [cur], t) <==> InUnion(before, t) || Covers(cur, t)
  {
    var m := before + [cur];
    forall i, j | 0 <= i < j < |m| ensures m[i].start <= m[j].start {
      assert m[i] == before[i];
      if j < |before| { assert m[j] == before[j]; }
    }
    forall k | 0 <= k < |m| - 1 ensures m[k].end < m[k + 1].start {
      assert m[k] == before[k];
      if k + 1 < |before| { assert m[k + 1] == before[k + 1]; }
    }
    forall t ensures InUnion(m, t) <==> InUnion(before, t) || Covers(cur, t) {
      InUnionAppend(before, cur, t);
    }
  }

  // ----- containment (appointment.py, _validate_availability_strict) -----

  /** In a canonical list an earlier member ends before a later one starts. */
  lemma CanonicalOrder(r: seq<Interval>, j: int, k: int)
    requires Canonical(r)
    requires 0 <= j < k < |r|
    ensures r[j].end < r[k].start
  {
    assert r[j].end < r[j + 1].start;
  }

  /**
    For a canonical list, some single member contains [s, e) exactly when
    every instant of [s, e) is covered.
  */
  lemma ContainedIffCovered(r: seq<Interval>, s: int, e: int)
    requires Canonical(r)
    requires s < e
    ensures (exists k :: 0 <= k < |r| && r[k].start <= s && e <= r[k].end)
        <==> (forall t :: s <= t < e ==> InUnion(r, t))
  {
    if forall t :: s <= t < e ==> InUnion(r, t) {
      assert InUnion(r, s);
      var k :| 0 <= k < |r| && Covers(r[k], s);
      if r[k].end < e {
        var p := r[k].end;
        assert InUnion(r, p);
        var j :| 0 <= j < |r| && Covers(r[j], p);
        if j < k {
          CanonicalOrder(r, j, k);
        } else if j > k {
          CanonicalOrder(r, k, j);
        }
      }
    }
    if exists k :: 0 <= k < |r| && r[k].start <= s && e <= r[k].end {
      var k :| 0 <= k < |r| && r[k].start <= s && e <= r[k].end;
      forall t | s <= t < e ensures InUnion(r, t) {
        assert Covers(r[k], t);
      }
    }
  }

  /** Two canonical lists of nonempty intervals that cover the same instants are equal. */
  lemma {:induction false} CanonicalUnique(a: seq<Interval>, b: seq<Interval>)
    requires Canonical(a) && AllNonEmpty(a)
    requires Canonical(b) && AllNonEmpty(b)
    requires forall t :: InUnion(a, t) <==> InUnion(b, t)
    ensures a == b
    decreases |a| + |b|
  {
    if a == [] && b == [] {
    } else if a == [] {
      assert InUnion(b, b[0].start);
    } else if b == [] {
      assert InUnion(a, a[0].start);
    } else {
      FirstMember(a, b);
      FirstMember(b, a);
      assert a[0].start == b[0].start;
      FirstEnd(a, b);
      FirstEnd(b, a);
      var a', b' := a[1..], b[1..];
      assert Canonical(a') && AllNonEmpty(a');
      assert Canonical(b') && AllNonEmpty(b');
      forall t ensures InUnion(a', t) <==> InUnion(b', t) {
        assert a == [a[0]] + a';
        assert b == [b[0]] + b';
        InUnionConcat([a[0]], a', t);
        InUnionConcat([b[0]], b', t);
        TailAfterHead(a, t);
        TailAfterHead(b, t);
      }
      CanonicalUnique(a', b');
      assert a == [a[0]] + a';
      assert b == [b[0]] + b';
    }
  }

  /** Nothing in the tail of a canonical list reaches back into its head. */
  lemma TailAfterHead(a: seq<Interval>, t: int)
    requires Canonical(a) && |a| > 0
    ensures InUnion(a[1..], t) ==> t > a[0].end
  {
    if InUnion(a[1..], t) {
      var i :| 0 <= i < |a[1..]| && Covers(a[1..][i], t);
      CanonicalOrder(a, 0, i + 1);
    }
  }

  /** The first member of a canonical list starts at the least covered instant. */
  lemma FirstMember(a: seq<Interval>, b: seq<Interval>)
    requires Canonical(a) && AllNonEmpty(a) && |a| > 0
    requires Canonical(b) && AllNonEmpty(b) && |b| > 0
    requires forall t :: InUnion(a, t) <==> InUnion(b, t)
    ensures a[0].start <= b[0].start
  {
    assert InUnion(b, b[0].start);
    var i :| 0 <= i < |a| && Covers(a[i], b[0].start);
  }

  /** With equal first starts, the first members also end together. */
  lemma FirstEnd(a: seq<Interval>, b: seq<Interval>)
    requires Canonical(a) && AllNonEmpty(a) && |a| > 0
    requires Canonical(b) && AllNonEmpty(b) && |b| > 0
    requires forall t :: InUnion(a, t) <==> InUnion(b, t)
    requires a[0].start == b[0].start
    ensures a[0].end <= b[0].end
  {
    if b[0].end < a[0].end {
      var p := b[0].end;
      assert Covers(a[0], p);
      assert InUnion(a, p);
      var j :| 0 <= j < |b| && Covers(b[j], p);
      if j > 0 {
        CanonicalOrder(b, 0, j);
      }
    }
  }
}
