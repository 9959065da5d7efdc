/** The time spines of four backends, and weeks that begin on Sunday. */
module TimeSpine {

  /*
    One backend filters a stepped series; three truncate every day of the window
    and drop duplicates.  Timestamps are seconds; truncation is whatever the
    backend truncates to.
  */

  const DAY := 86400

  type Trunc = int -> int

  /** Truncation goes down to a bucket start, in order, and stays there. */
  ghost predicate Truncates(t: Trunc) {
    && (forall x :: t(x) <= x) && (forall x :: t(t(x)) == t(x))
    && forall x, y :: x <= y ==> t(x) <= t(y)
  }

  predicate IsBucket(t: Trunc, b: int) {
    t(b) == b
  }

  /** The calendar day of a timestamp. */
  function DayOf(x: int): int {
    x - x % DAY
  }

  ghost predicate DayAligned(t: Trunc) {
    forall x :: t(x) % DAY == 0
  }

  /** Exactly the bucket starts from the window's first bucket to before its end. */
  ghost function Spine(t: Trunc, start: int, end: int): set<int> {
    set b | t(start) <= b < end && IsBucket(t, b)
  }

  // ------------------------------------------------ a series of steps, filtered

  /** Adding one interval leads from a bucket to the very next one. */
  ghost predicate Steps(t: Trunc, next: int -> int) {
    forall b | IsBucket(t, b) :: IsNext(t, b, next(b))
  }

  ghost predicate IsNext(t: Trunc, b: int, n: int) {
    b < n && IsBucket(t, n) && forall c | b < c < n :: !IsBucket(t, c)
  }

  ghost function Series(t: Trunc, next: int -> int, first: int, last: int): seq<int>
    requires Steps(t, next) && IsBucket(t, first)
    decreases last - first
  {
    if first > last then [] else [first] + Series(t, next, next(first), last)
  }

  function Before(bs: seq<int>, end: int): seq<int> {
    if bs == [] then [] else
      var rest := Before(bs[1..], end);
      if bs[0] < end then [bs[0]] + rest else rest
  }

  ghost function SeriesSpine(t: Trunc, next: int -> int, start: int, end: int): seq<int>
    requires Truncates(t) && Steps(t, next)
  {
    Before(Series(t, next, t(start), t(end)), end)
  }

  predicate Increasing(s: seq<int>) {
    forall i, j | 0 <= i < j < |s| :: s[i] < s[j]
  }

  lemma IncreasingCons(x: int, s: seq<int>)
    ensures Increasing([x] + s) <==> Increasing(s) && forall y | y in s :: x < y
  {
    var all := [x] + s;
    if Increasing(all) {
      forall i, j | 0 <= i < j < |s| ensures s[i] < s[j] {
        assert all[i + 1] < all[j + 1];
      }
      forall i | 0 <= i < |s| ensures x < s[i] {
        assert all[0] < all[i + 1];
      }
    }
    if Increasing(s) && forall y | y in s :: x < y {
      forall i, j | 0 <= i < j < |all| ensures all[i] < all[j] {
        assert all[j] == s[j - 1] && all[j] in s;
        if i > 0 {
          assert all[i] == s[i - 1];
        }
      }
    }
  }

  lemma {:induction false} SeriesIs(t: Trunc, next: int -> int, first: int, last: int)
    requires Steps(t, next) && IsBucket(t, first)
    ensures forall b :: b in Series(t, next, first, last) <==> (first <= b <= last && IsBucket(t, b))
    ensures Increasing(Series(t, next, first, last))
    decreases last - first
  {
    hide IsBucket, Increasing, Steps, IsNext;
    if first <= last {
      StepAt(t, next, first);
      SeriesIs(t, next, next(first), last);
      var rest := Series(t, next, next(first), last);
      forall b | IsBucket(t, b) ensures b > first <==> b >= next(first) {
        NothingBetween(t, first, next(first), b);
      }
      IncreasingCons(first, rest);
    } else {
      assert Increasing([]) by { NoneIncreasing(); }
    }
  }

  lemma StepAt(t: Trunc, next: int -> int, b: int)
    requires Steps(t, next) && IsBucket(t, b)
    ensures IsNext(t, b, next(b)) && next(b) > b && IsBucket(t, next(b))
  {
  }

  lemma NothingBetween(t: Trunc, b: int, n: int, c: int)
    requires IsNext(t, b, n) && IsBucket(t, c)
    ensures c > b <==> c >= n
  {
    hide IsBucket;
  }

  lemma NoneIncreasing()
    ensures Increasing([])
  {
  }

  lemma {:induction false} BeforeIs(bs: seq<int>, end: int)
    ensures forall b :: b in Before(bs, end) <==> b in bs && b < end
    ensures Increasing(bs) ==> Increasing(Before(bs, end))
  {
    hide Increasing;
    if bs != [] {
      BeforeIs(bs[1..], end);
      assert bs == [bs[0]] + bs[1..];
      IncreasingCons(bs[0], bs[1..]);
      IncreasingCons(bs[0], Before(bs[1..], end));
    }
  }

  /** The stepped series is the spine, in order and without duplicates. */
  lemma SeriesSpineExact(t: Trunc, next: int -> int, start: int, end: int)
    requires Truncates(t) && Steps(t, next) && start <= end
    ensures var s := SeriesSpine(t, next, start, end);
            Increasing(s) && forall b :: b in s <==> b in Spine(t, start, end)
  {
    hide Steps, Increasing, Series, Before;
    SeriesIs(t, next, t(start), t(end));
    BeforeIs(Series(t, next, t(start), t(end)), end);
    forall b | t(start) <= b < end && IsBucket(t, b) ensures b <= t(end) {
      assert t(b) <= t(end);
    }
  }

  // -------------------------------------------------- every day, truncated once

  /** An array of dates, both ends included. */
  function Dates(first: int, last: int): seq<int>
    decreases last - first
  {
    if first > last then [] else [first] + Dates(first + DAY, last)
  }

  /** A counter of rows, each added as days to the first. */
  function Counted(first: int, n: nat): (days: seq<int>)
    ensures |days| == n && forall i | 0 <= i < n :: days[i] == first + i * DAY
  {
    seq(n, i requires 0 <= i < n => first + i * DAY)
  }

  /** The number of rows the counters generate. */
  function DayCount(start: int, end: int): int {
    (DayOf(end) - DayOf(start)) / DAY + 1
  }

  /** SELECT DISTINCT of the truncated days before the end. */
  function Truncated(t: Trunc, days: seq<int>, end: int): set<int> {
    set d | d in days && t(d) < end :: t(d)
  }

  function DatesSpine(t: Trunc, start: int, end: int): set<int> {
    Truncated(t, Dates(DayOf(start), DayOf(end)), end)
  }

  function CountedSpine(t: Trunc, start: int, end: int): set<int>
    requires start <= end
  {
    Truncated(t, Counted(DayOf(start), DayCount(start, end)), end)
  }

  lemma {:induction false} DatesAre(first: int, last: int)
    requires first % DAY == 0 && last % DAY == 0
    ensures forall d :: d in Dates(first, last) <==> (first <= d <= last && d % DAY == 0)
    decreases last - first
  {
    if first <= last {
      DatesAre(first + DAY, last);
      forall d | first <= d <= last && d % DAY == 0 ensures d == first || first + DAY <= d {
        assert (d - first) % DAY == 0;
      }
    }
  }

  /** Counting rows and listing dates give the same days. */
  lemma CountedAreDates(start: int, end: int)
    requires start <= end
    ensures DayCount(start, end) >= 1
    ensures forall d :: d in Counted(DayOf(start), DayCount(start, end)) <==> d in Dates(DayOf(start), DayOf(end))
  {
    var first, last, n := DayOf(start), DayOf(end), DayCount(start, end);
    DatesAre(first, last);
    assert last - first == (n - 1) * DAY;
    var days := Counted(first, n);
    forall d | first <= d <= last && d % DAY == 0 ensures d in days {
      var i := (d - first) / DAY;
      assert d == first + i * DAY;
      assert days[i] == d;
    }
    forall i | 0 <= i < n ensures first <= days[i] <= last && days[i] % DAY == 0 {
    }
  }

  /** The three day-index recipes always agree with one another. */
  lemma DayRecipesAgree(t: Trunc, start: int, end: int)
    requires start <= end
    ensures DayCount(start, end) >= 1 && CountedSpine(t, start, end) == DatesSpine(t, start, end)
  {
    CountedAreDates(start, end);
  }

  /** Truncating a timestamp's day is truncating the timestamp, for buckets that start at midnight. */
  lemma TruncatesDay(t: Trunc, x: int)
    requires Truncates(t) && DayAligned(t)
    ensures t(DayOf(x)) == t(x)
  {
    assert t(x) % DAY == 0 && t(x) <= x;
    assert t(x) <= DayOf(x);
    assert t(t(x)) <= t(DayOf(x)) <= t(x);
  }

  /** A bucket of the window is the truncation of one of its days. */
  lemma BucketHasDay(t: Trunc, start: int, end: int, b: int) returns (d: int)
    requires Truncates(t) && DayAligned(t) && start <= end && t(start) <= b < end && IsBucket(t, b)
    ensures DayOf(start) <= d <= DayOf(end) && d % DAY == 0 && t(d) == b
  {
    assert t(b) % DAY == 0;
    TruncatesDay(t, start);
    if b < DayOf(start) {
      d := DayOf(start);
      assert t(b) <= t(d);
    } else {
      d := b;
    }
  }

  /** For buckets of a day or more, the days' truncations are the spine. */
  lemma DatesSpineExact(t: Trunc, start: int, end: int)
    requires Truncates(t) && DayAligned(t) && start <= end
    ensures DatesSpine(t, start, end) == Spine(t, start, end)
  {
    hide DayAligned, Dates;
    DatesAre(DayOf(start), DayOf(end));
    TruncatesDay(t, start);
    var days := Dates(DayOf(start), DayOf(end));
    forall b | t(start) <= b < end && IsBucket(t, b) ensures b in DatesSpine(t, start, end) {
      var d := BucketHasDay(t, start, end, b);
      assert d in days;
    }
    forall d | d in days && t(d) < end ensures t(start) <= t(d) && IsBucket(t, t(d)) {
      assert t(DayOf(start)) <= t(d);
    }
  }

  /** Below a day, a window that opens inside a day gains a bucket before it. */
  lemma BelowADayGains(t: Trunc, b: int)
    requires Truncates(t) && IsBucket(t, b) && b % DAY != 0
    ensures t(DayOf(b)) in DatesSpine(t, b, b + 1) && t(DayOf(b)) !in Spine(t, b, b + 1)
  {
    DatesAre(DayOf(b), DayOf(b + 1));
    assert DayOf(b) < b && DayOf(b) <= DayOf(b + 1);
    assert DayOf(b) in Dates(DayOf(b), DayOf(b + 1));
    assert t(DayOf(b)) <= DayOf(b) < b == t(b);
  }

  lemma ListsBucketOf(t: Trunc, d: int, start: int, end: int)
    requires d % DAY == 0 && DayOf(start) <= d <= DayOf(end) && t(d) < end
    ensures t(d) in DatesSpine(t, start, end)
  {
    DatesAre(DayOf(start), DayOf(end));
  }

  lemma ListsOnlyMidnights(t: Trunc, b: int, start: int, end: int)
    requires forall d | d % DAY == 0 :: t(d) != b
    ensures b !in DatesSpine(t, start, end)
  {
    DatesAre(DayOf(start), DayOf(end));
  }

  lemma NoMidnightInside(t: Trunc, b: int, d: int)
    requires Truncates(t) && IsBucket(t, b) && b % DAY != 0 && t(DayOf(b) + DAY) != b && d % DAY == 0
    ensures t(d) != b
  {
    assert t(d) <= d;
    if b <= d {
      assert DayOf(b) + DAY <= d;
      assert b == t(b) <= t(DayOf(b) + DAY) <= t(d);
    }
  }

  /** A bucket is in no day-index spine at all exactly when it does not start at midnight and the next midnight falls in a later one. */
  lemma MissedIff(t: Trunc, b: int)
    requires Truncates(t) && IsBucket(t, b)
    ensures (forall start, end | start <= end && t(start) <= b < end :: b !in DatesSpine(t, start, end)) <==>
            b % DAY != 0 && t(DayOf(b) + DAY) != b
  {
    hide DatesSpine, Truncates;
    var midnight := DayOf(b) + DAY;
    if b % DAY == 0 {
      ListsBucketOf(t, b, b, b + 1);
      assert t(b) <= b < b + 1;
    } else if t(midnight) == b {
      ListsBucketOf(t, midnight, b, midnight);
      assert t(b) <= b < midnight;
    } else {
      forall d | d % DAY == 0 ensures t(d) != b { NoMidnightInside(t, b, d); }
      forall start, end | start <= end && t(start) <= b < end ensures b !in DatesSpine(t, start, end) {
        ListsOnlyMidnights(t, b, start, end);
      }
    }
  }

  function Hour(x: int): int {
    x - x % 3600
  }

  lemma HourTruncates()
    ensures Truncates(Hour)
  {
    forall x ensures Hour(x) <= x && Hour(Hour(x)) == Hour(x) { HourOrder(x, x); }
    forall x, y: int | x <= y ensures Hour(x) <= Hour(y) { HourOrder(x, y); }
  }

  lemma HoursAreDue(k: nat)
    requires k < 24
    ensures 3600 * k in Spine(Hour, 0, DAY)
  {
    assert Hour(0) == 0 && Hour(3600 * k) == 3600 * k;
  }

  lemma HoursListed()
    ensures DatesSpine(Hour, 0, DAY) == {0}
  {
    OneDay();
    assert Hour(0) == 0 && Hour(DAY) == DAY;
    hide Hour, DayOf, Dates;
    OfTwo(Hour, 0, DAY);
  }

  lemma OfTwo(t: Trunc, x: int, y: int)
    requires t(x) == x && t(y) == y && x < y
    ensures Truncated(t, [x, y], y) == {x}
  {
    assert x in [x, y];
  }

  /** Hour buckets over one day: the day-index recipes list the first and miss the other twenty-three. */
  lemma HoursAreMissed()
    ensures Truncates(Hour) && DatesSpine(Hour, 0, DAY) == {0}
    ensures forall k: nat | k < 24 :: 3600 * k in Spine(Hour, 0, DAY)
  {
    hide Hour, Truncates, DatesSpine, Spine;
    HourTruncates();
    HoursListed();
    forall k: nat | k < 24 ensures 3600 * k in Spine(Hour, 0, DAY) { HoursAreDue(k); }
  }

  lemma OneDay()
    ensures DayOf(0) == 0 && DayOf(DAY) == DAY && Dates(0, DAY) == [0, DAY]
  {
    assert Dates(DAY + DAY, DAY) == [] && Dates(DAY, DAY) == [DAY];
  }

  lemma HourOrder(x: int, y: int)
    requires x <= y
    ensures Hour(x) <= Hour(y) && Hour(x) <= x && Hour(Hour(x)) == Hour(x)
  {
    assert x / 3600 <= y / 3600;
    assert Hour(x) == 3600 * (x / 3600) && Hour(y) == 3600 * (y / 3600);
  }

  /**
    The day-index recipes give the spine of every window exactly when all
    buckets start at midnight: hours, minutes and seconds are not covered.
  */
  lemma SpinesAgreeIffDayAligned(t: Trunc)
    requires Truncates(t)
    ensures (forall start, end | start <= end :: DatesSpine(t, start, end) == Spine(t, start, end)) <==> DayAligned(t)
  {
    if DayAligned(t) {
      forall start, end | start <= end ensures DatesSpine(t, start, end) == Spine(t, start, end) {
        DatesSpineExact(t, start, end);
      }
    } else {
      var x :| t(x) % DAY != 0;
      BelowADayGains(t, t(x));
      assert DatesSpine(t, t(x), t(x) + 1) != Spine(t, t(x), t(x) + 1);
    }
  }

  // ------------------------------------------------------------- Sunday weeks

  /** Shift forward a day, truncate, shift back. */
  function SundayFromMonday(monday: Trunc): Trunc {
    x => monday(x + DAY) - DAY
  }

  /** A day before a Monday-week start. */
  predicate Starts(monday: Trunc, b: int) {
    IsBucket(monday, b + DAY)
  }

  /** The greatest boundary not after a timestamp. */
  ghost predicate Greatest(boundary: int -> bool, b: int, x: int) {
    boundary(b) && b <= x && forall c | boundary(c) && c <= x :: c <= b
  }

  /**
    Truncation finds the greatest bucket start, and the shifted one the
    greatest start of the same weeks a day earlier.
  */
  lemma SundayIsGreatest(monday: Trunc, x: int)
    requires Truncates(monday)
    ensures Truncates(SundayFromMonday(monday))
    ensures Greatest(b => Starts(monday, b), SundayFromMonday(monday)(x), x)
  {
    var sunday := SundayFromMonday(monday);
    forall y ensures sunday(sunday(y)) == sunday(y) {
      assert monday(monday(y + DAY)) == monday(y + DAY);
    }
    forall c | Starts(monday, c) && c <= x ensures c <= sunday(x) {
      assert monday(c + DAY) <= monday(x + DAY);
    }
    assert monday(monday(x + DAY)) == monday(x + DAY);
  }
}
