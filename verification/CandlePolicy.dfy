/** Candle boundaries: where a candle of each timeframe starts, and when it is closed.
    Instants and durations are counted in nanoseconds. */
module CandlePolicy {
  const SECOND: int := 1_000_000_000
  const HOUR: int := 3600 * SECOND

  datatype Timeframe =
    | S5 | S10 | S15 | S30 | M1 | M2 | M4 | M5 | M10 | M15 | M30 | H1
    | H2 | H3 | H4 | H6 | H8 | H12 | D | W
  {
    function Delta(): (d: int)
      ensures d > 0
    {
      match this
      case S5 => 5 * SECOND
      case S10 => 10 * SECOND
      case S15 => 15 * SECOND
      case S30 => 30 * SECOND
      case M1 => 60 * SECOND
      case M2 => 120 * SECOND
      case M4 => 240 * SECOND
      case M5 => 300 * SECOND
      case M10 => 600 * SECOND
      case M15 => 900 * SECOND
      case M30 => 1800 * SECOND
      case H1 => HOUR
      case H2 => 2 * HOUR
      case H3 => 3 * HOUR
      case H4 => 4 * HOUR
      case H6 => 6 * HOUR
      case H8 => 8 * HOUR
      case H12 => 12 * HOUR
      case D => 24 * HOUR
      case W => 168 * HOUR
    }

    /** Frames floored to a fixed multiple since the epoch. */
    predicate Fixed() {
      S5? || S10? || S15? || S30? || M1? || M2? || M4? || M5? || M10? || M15? || M30? || H1?
    }

    /** Frames counted from the 17:00 New York anchor. */
    predicate DayAligned() {
      H2? || H3? || H4? || H6? || H8? || H12? || D?
    }
  }

  /** The New York calendar: the instants at which local dates begin, the 17:00 anchor of
      each date, and the weekday of the first date (Monday is 0). */
  datatype Calendar = Calendar(midnights: seq<int>, anchors: seq<int>, firstWeekday: nat)
  {
    ghost predicate Valid() {
      |midnights| == |anchors| + 1 &&
      (forall d :: 0 <= d < |anchors| ==> midnights[d] <= anchors[d] < midnights[d + 1])
    }

    /** The local date of an instant. */
    function DateOf(t: int): (d: nat)
      requires Covers(t)
      ensures d < |anchors| && midnights[d] <= t < midnights[d + 1]
    {
      DateFrom(t, 0)
    }

    function DateFrom(t: int, from: nat): (d: nat)
      requires Covers(t) && from < |anchors| && midnights[from] <= t
      ensures d < |anchors| && midnights[d] <= t < midnights[d + 1]
      decreases |anchors| - from
    {
      if t < midnights[from + 1] then from else DateFrom(t, from + 1)
    }

    /** The calendar reaches far enough for a weekly floor of this instant. */
    predicate Covers(t: int) {
      |midnights| == |anchors| + 1 && |anchors| > 8 && midnights[8] <= t < midnights[|anchors|]
      && midnights[0] <= midnights[8]
    }

    /** The date whose anchor governs an instant: its own date from 17:00 on, the day before until then. */
    function GoverningDate(t: int): (d: nat)
      requires Covers(t) && Valid()
      ensures d < |anchors|
    {
      var d := DateOf(t);
      if t < anchors[d] then
        assert d > 0 by { Increasing(1, 8); }
        d - 1
      else d
    }

    lemma Increasing(a: nat, b: nat)
      requires Valid() && a <= b <= |anchors|
      ensures midnights[a] <= midnights[b]
      decreases b - a
    {
      if a < b {
        Increasing(a, b - 1);
      }
    }

    lemma AnchorsIncrease(a: nat, b: nat)
      requires Valid() && a < b < |anchors|
      ensures anchors[a] < anchors[b]
      decreases b - a
    {
      assert anchors[b - 1] < midnights[b] <= anchors[b];
      if a < b - 1 {
        AnchorsIncrease(a, b - 1);
      }
    }

    /** The governing anchor is the last one not after the instant. */
    lemma GoverningAnchorIsLatest(t: int, d: nat)
      requires Valid() && Covers(t) && d < |anchors|
      ensures anchors[GoverningDate(t)] <= t
      ensures anchors[d] <= t <==> d <= GoverningDate(t)
    {
      var date, g := DateOf(t), GoverningDate(t);
      if g < date {
        assert anchors[g] < midnights[date];
      }
      if d < g {
        AnchorsIncrease(d, g);
      } else if d > g {
        if g < date {
          if d > date { AnchorsIncrease(date, d); }
        } else {
          Increasing(date + 1, d);
          assert midnights[d] <= anchors[d];
        }
      }
    }
  }

  /** The last multiple of the step not after an instant, counted from an origin. */
  function FloorFrom(origin: int, step: int, t: int): int
    requires step > 0
  {
    origin + (t - origin) / step * step
  }

  function FloorDayAligned(cal: Calendar, t: int, delta: int): int
    requires cal.Valid() && cal.Covers(t) && delta > 0
  {
    FloorFrom(cal.anchors[cal.GoverningDate(t)], delta, t)
  }

  /** Days since the last Friday (weekday 4), counted from the governing date. */
  function DaysSinceFriday(cal: Calendar, date: nat): int {
    (cal.firstWeekday + date + 7 - 4) % 7
  }

  function FloorWeekly(cal: Calendar, t: int): int
    requires cal.Valid() && cal.Covers(t)
  {
    var date := cal.GoverningDate(t);
    var back := DaysSinceFriday(cal, date);
    GoverningDateIsLate(cal, t);
    cal.anchors[date - back]
  }

  lemma GoverningDateIsLate(cal: Calendar, t: int)
    requires cal.Valid() && cal.Covers(t)
    ensures cal.GoverningDate(t) >= 7
  {
    var date := cal.DateOf(t);
    if date < 8 {
      cal.Increasing(date + 1, 8);
      assert false;
    }
  }

  function FloorTimeToBoundary(cal: Calendar, t: int, frame: Timeframe): int
    requires cal.Valid() && cal.Covers(t)
  {
    if frame.Fixed() then FloorFrom(0, frame.Delta(), t)
    else if frame.DayAligned() then FloorDayAligned(cal, t, frame.Delta())
    else FloorWeekly(cal, t)
  }

  // ---- Floors --------------------------------------------------------------------------

  lemma FloorBounds(origin: int, step: int, t: int)
    requires step > 0
    ensures FloorFrom(origin, step, t) <= t < FloorFrom(origin, step, t) + step
  {
  }

  lemma SmallMultipleIsZero(a: int, d: int)
    requires d > 0 && -d < a * d < d
    ensures a == 0
  {
    if a >= 1 {
      MultipleGrows(1, a, d);
    } else if a <= -1 {
      MultipleGrows(a, -1, d);
    }
  }

  lemma MultipleGrows(a: int, b: int, d: int)
    requires d > 0 && a <= b
    ensures a * d <= b * d
  {
    assert (b - a) * d >= 0;
  }

  lemma QuotientIs(x: int, d: int, k: int)
    requires d > 0 && k * d <= x < k * d + d
    ensures x / d == k
  {
    var q := x / d;
    assert q * d <= x < q * d + d;
    assert (q - k) * d == q * d - k * d;
    SmallMultipleIsZero(q - k, d);
  }

  lemma QuotientMonotone(x: int, y: int, d: int)
    requires d > 0 && x <= y
    ensures x / d <= y / d
  {
    var a, b := x / d, y / d;
    assert a * d <= x && y < b * d + d;
    assert (b + 1) * d == b * d + d;
    if a > b {
      MultipleGrows(b + 1, a, d);
    }
  }

  /** A floor is the only grid point within one step below the instant. */
  lemma FloorIsUnique(origin: int, step: int, t: int, k: int)
    requires step > 0 && origin + k * step <= t < origin + k * step + step
    ensures FloorFrom(origin, step, t) == origin + k * step
  {
    QuotientIs(t - origin, step, k);
  }

  lemma FloorMonotone(origin: int, step: int, t: int, u: int)
    requires step > 0 && t <= u
    ensures FloorFrom(origin, step, t) <= FloorFrom(origin, step, u)
  {
    QuotientMonotone(t - origin, u - origin, step);
    MultipleGrows((t - origin) / step, (u - origin) / step, step);
  }

  /** Whatever the length of the days: the day-aligned floor is the only instant less than one
      step below that lies a whole number of steps after the governing anchor; it is in the same
      day, and a fixed point. */
  lemma DayAlignedFloor(cal: Calendar, t: int, delta: int)
    requires cal.Valid() && cal.Covers(t) && delta > 0
    ensures var floor := FloorDayAligned(cal, t, delta);
            floor <= t < floor + delta &&
            (exists k: nat :: floor == cal.anchors[cal.GoverningDate(t)] + k * delta) &&
            (cal.Covers(floor) ==> cal.GoverningDate(floor) == cal.GoverningDate(t) && FloorDayAligned(cal, floor, delta) == floor)
  {
    var g := cal.GoverningDate(t);
    var anchor, floor := cal.anchors[g], FloorDayAligned(cal, t, delta);
    FloorBounds(anchor, delta, t);
    cal.GoverningAnchorIsLatest(t, g);
    QuotientMonotone(0, t - anchor, delta);
    var k: nat := (t - anchor) / delta;
    assert floor == anchor + k * delta && k * delta >= 0;
    if cal.Covers(floor) {
      var h := cal.GoverningDate(floor);
      cal.GoverningAnchorIsLatest(floor, g);
      cal.GoverningAnchorIsLatest(floor, h);
      cal.GoverningAnchorIsLatest(t, h);
      FloorIsUnique(anchor, delta, floor, k);
    }
  }

  /** The day-aligned floor never goes back when time goes on, across days of any length. */
  lemma DayAlignedFloorMonotone(cal: Calendar, t: int, u: int, delta: int)
    requires cal.Valid() && cal.Covers(t) && cal.Covers(u) && t <= u && delta > 0
    ensures FloorDayAligned(cal, t, delta) <= FloorDayAligned(cal, u, delta)
  {
    var g, h := cal.GoverningDate(t), cal.GoverningDate(u);
    cal.GoverningAnchorIsLatest(t, g);
    cal.GoverningAnchorIsLatest(u, g);
    if g == h {
      FloorMonotone(cal.anchors[g], delta, t, u);
    } else {
      cal.GoverningAnchorIsLatest(t, h);
      DayAlignedFloor(cal, t, delta);
      FloorMonotone(cal.anchors[h], delta, cal.anchors[h], u);
      FloorIsUnique(cal.anchors[h], delta, cal.anchors[h], 0);
    }
  }

  /** The daily floor is the governing 17:00 anchor exactly in the first 24 hours after it: in
      the last hour of a 25-hour day it is not. */
  lemma DailyFloorIsTheAnchorIff(cal: Calendar, t: int)
    requires cal.Valid() && cal.Covers(t)
    ensures var anchor := cal.anchors[cal.GoverningDate(t)];
            FloorTimeToBoundary(cal, t, D) == anchor <==> t < anchor + 24 * HOUR
  {
    var g := cal.GoverningDate(t);
    cal.GoverningAnchorIsLatest(t, g);
    FloorBounds(cal.anchors[g], D.Delta(), t);
    if t < cal.anchors[g] + 24 * HOUR {
      FloorIsUnique(cal.anchors[g], D.Delta(), t, 0);
    }
  }

  predicate IsFriday(cal: Calendar, d: nat) {
    d < |cal.anchors| && (cal.firstWeekday + d) % 7 == 4
  }

  /** The weekly floor is the last Friday anchor not after the instant: a Friday's anchor, and
      no earlier than any other Friday's that is not after the instant. */
  lemma WeeklyFloorIsTheLastFriday(cal: Calendar, t: int)
    requires cal.Valid() && cal.Covers(t)
    ensures FloorWeekly(cal, t) <= t
    ensures exists d: nat :: IsFriday(cal, d) && FloorWeekly(cal, t) == cal.anchors[d]
    ensures forall d: nat :: IsFriday(cal, d) ==> (cal.anchors[d] <= t <==> cal.anchors[d] <= FloorWeekly(cal, t))
  {
    var g := cal.GoverningDate(t);
    GoverningDateIsLate(cal, t);
    var friday := g - DaysSinceFriday(cal, g);
    LastFriday(cal, g);
    cal.GoverningAnchorIsLatest(t, friday);
    forall d: nat | IsFriday(cal, d) ensures cal.anchors[d] <= t <==> cal.anchors[d] <= FloorWeekly(cal, t) {
      cal.GoverningAnchorIsLatest(t, d);
      if d < friday {
        cal.AnchorsIncrease(d, friday);
      } else if d > friday {
        cal.AnchorsIncrease(friday, d);
      }
    }
  }

  /** Going back by the days since Friday ends on a Friday, with none in between. */
  lemma LastFriday(cal: Calendar, g: nat)
    requires 7 <= g < |cal.anchors|
    ensures var friday := g - DaysSinceFriday(cal, g);
            IsFriday(cal, friday) && forall d: nat :: IsFriday(cal, d) && d > friday ==> d > g
  {
  }

  /** Where the candles of a frame may start: at the multiples of a fixed frame, a whole number of
      steps after a day's anchor and before the next one, or at a Friday's anchor. */
  ghost predicate IsBoundary(cal: Calendar, frame: Timeframe, b: int) {
    if frame.Fixed() then exists k: int :: b == k * frame.Delta()
    else if frame.DayAligned() then exists d: nat, k: nat :: IsStepOfDay(cal, frame.Delta(), d, k, b)
    else exists d: nat :: IsFriday(cal, d) && b == cal.anchors[d]
  }

  predicate IsStepOfDay(cal: Calendar, delta: int, d: nat, k: nat, b: int) {
    d < |cal.anchors| && b == cal.anchors[d] + k * delta && (d + 1 < |cal.anchors| ==> b < cal.anchors[d + 1])
  }

  /** The floor of an instant is the last boundary not after it. */
  lemma FloorIsTheLastBoundary(cal: Calendar, t: int, frame: Timeframe)
    requires cal.Valid() && cal.Covers(t)
    ensures IsBoundary(cal, frame, FloorTimeToBoundary(cal, t, frame)) && FloorTimeToBoundary(cal, t, frame) <= t
    ensures forall b :: IsBoundary(cal, frame, b) && b <= t ==> b <= FloorTimeToBoundary(cal, t, frame)
  {
    if frame.Fixed() {
      FixedFloorIsLast(t, frame.Delta());
    } else if frame.DayAligned() {
      DayFloorIsLast(cal, t, frame.Delta());
    } else {
      WeeklyFloorIsTheLastFriday(cal, t);
    }
  }

  lemma FixedFloorIsLast(t: int, delta: int)
    requires delta > 0
    ensures exists k: int :: FloorFrom(0, delta, t) == k * delta
    ensures FloorFrom(0, delta, t) <= t
    ensures forall k: int {:trigger k * delta} :: k * delta <= t ==> k * delta <= FloorFrom(0, delta, t)
  {
    assert FloorFrom(0, delta, t) == t / delta * delta;
    forall k: int {:trigger k * delta} | k * delta <= t ensures k * delta <= FloorFrom(0, delta, t) {
      FloorMonotone(0, delta, k * delta, t);
      FloorIsUnique(0, delta, k * delta, k);
    }
  }

  lemma DayFloorIsLast(cal: Calendar, t: int, delta: int)
    requires cal.Valid() && cal.Covers(t) && delta > 0
    ensures var floor := FloorDayAligned(cal, t, delta);
            floor <= t && (exists d: nat, k: nat :: IsStepOfDay(cal, delta, d, k, floor)) &&
            (forall d: nat, k: nat, b: int :: IsStepOfDay(cal, delta, d, k, b) && b <= t ==> b <= floor)
  {
    var g, floor := cal.GoverningDate(t), FloorDayAligned(cal, t, delta);
    DayAlignedFloor(cal, t, delta);
    var k: nat :| floor == cal.anchors[g] + k * delta;
    if g + 1 < |cal.anchors| {
      cal.GoverningAnchorIsLatest(t, g + 1);
    }
    assert IsStepOfDay(cal, delta, g, k, floor);
    forall d: nat, k: nat, b: int | IsStepOfDay(cal, delta, d, k, b) && b <= t ensures b <= floor {
      StepIsNotLater(cal, t, delta, d, k, b);
    }
  }

  lemma StepIsNotLater(cal: Calendar, t: int, delta: int, d: nat, k: nat, b: int)
    requires cal.Valid() && cal.Covers(t) && delta > 0 && IsStepOfDay(cal, delta, d, k, b) && b <= t
    ensures b <= FloorDayAligned(cal, t, delta)
  {
    var g := cal.GoverningDate(t);
    MultipleGrows(0, k, delta);
    cal.GoverningAnchorIsLatest(t, d);
    if d < g {
      if d + 1 < g { cal.AnchorsIncrease(d + 1, g); }
      FloorMonotone(cal.anchors[g], delta, cal.anchors[g], t);
      cal.GoverningAnchorIsLatest(t, g);
      FloorIsUnique(cal.anchors[g], delta, cal.anchors[g], 0);
    } else {
      FloorMonotone(cal.anchors[g], delta, b, t);
      FloorIsUnique(cal.anchors[g], delta, b, k);
    }
  }

  /** Above a fixed or day-aligned boundary the next one is never more than one candle away; a
      week whose clocks go back is an hour longer than the weekly frame. */
  lemma OnlyWeeksRunLong(cal: Calendar, t: int, frame: Timeframe)
    requires cal.Valid() && cal.Covers(t) && !frame.W?
    ensures t < FloorTimeToBoundary(cal, t, frame) + frame.Delta()
  {
    if frame.Fixed() {
      FloorBounds(0, frame.Delta(), t);
    } else {
      DayAlignedFloor(cal, t, frame.Delta());
    }
  }

  function Midnight(date: nat): int {
    (if date <= 10 then 24 * date else 24 * date + 1) * HOUR
  }

  /** Twelve dates; on the eleventh the clocks go back. */
  const CLOCKS_BACK: Calendar :=
    Calendar(seq(13, date requires 0 <= date < 13 => Midnight(date)),
             seq(12, date requires 0 <= date < 12 => Midnight(date + 1) - 7 * HOUR), 0)

  lemma ClocksBackIsValid()
    ensures CLOCKS_BACK.Valid() && |CLOCKS_BACK.anchors| == 12 && CLOCKS_BACK.midnights[12] == 289 * HOUR
    ensures CLOCKS_BACK.midnights[0] == 0 && CLOCKS_BACK.midnights[8] == 192 * HOUR
    ensures CLOCKS_BACK.anchors[9] == 233 * HOUR && CLOCKS_BACK.anchors[10] == 258 * HOUR
  {
    forall d | 0 <= d < 12
      ensures CLOCKS_BACK.midnights[d] <= CLOCKS_BACK.anchors[d] < CLOCKS_BACK.midnights[d + 1]
    {
      assert Midnight(d) + 24 * HOUR <= Midnight(d + 1);
    }
  }

  /** In the last hour before 17:00 on that date the daily floor is 16:00, not the anchor of the
      day before. */
  lemma LastHourOfALongDay()
    ensures var t := 257 * HOUR;
            CLOCKS_BACK.Valid() && CLOCKS_BACK.Covers(t) && |CLOCKS_BACK.anchors| == 12 &&
            CLOCKS_BACK.anchors[CLOCKS_BACK.GoverningDate(t)] == t - 24 * HOUR && FloorTimeToBoundary(CLOCKS_BACK, t, D) == t
  {
    ClocksBackIsValid();
    var t := 257 * HOUR;
    CLOCKS_BACK.GoverningAnchorIsLatest(t, 9);
    CLOCKS_BACK.GoverningAnchorIsLatest(t, 10);
    FloorIsUnique(233 * HOUR, D.Delta(), t, 1);
  }

  // ---- Closed candles ------------------------------------------------------------------

  function LastCompletedStart(cal: Calendar, now: int, frame: Timeframe): int
    requires cal.Valid() && cal.Covers(now)
  {
    FloorTimeToBoundary(cal, now, frame) - frame.Delta()
  }

  function StalenessOf(cal: Calendar, last: int, frame: Timeframe, now: int): int
    requires cal.Valid() && cal.Covers(now)
  {
    var expected := LastCompletedStart(cal, now, frame);
    if last >= expected then 0 else expected - last
  }

  /** A candle counts as the newest closed one exactly as long as no boundary after its end is
      reached.  Otherwise the staleness is how far its end lies behind the last boundary. */
  lemma FreshIffNoLaterBoundary(cal: Calendar, last: int, frame: Timeframe, now: int)
    requires cal.Valid() && cal.Covers(now)
    ensures StalenessOf(cal, last, frame, now) == 0 <==>
            !exists b :: IsBoundary(cal, frame, b) && last + frame.Delta() < b <= now
    ensures StalenessOf(cal, last, frame, now) != 0 ==>
              var b := last + frame.Delta() + StalenessOf(cal, last, frame, now);
              IsBoundary(cal, frame, b) && last + frame.Delta() < b <= now &&
              forall c :: IsBoundary(cal, frame, c) && c <= now ==> c <= b
  {
    var floor := FloorTimeToBoundary(cal, now, frame);
    FloorIsTheLastBoundary(cal, now, frame);
    if last + frame.Delta() < floor {
      assert StalenessOf(cal, last, frame, now) == floor - frame.Delta() - last;
    }
  }

  /** A fixed frame's candle stays fresh until the candle after it is over. */
  lemma FixedFreshIff(cal: Calendar, last: int, frame: Timeframe, now: int)
    requires cal.Valid() && cal.Covers(now) && frame.Fixed() && OnBoundary(last, frame)
    ensures StalenessOf(cal, last, frame, now) == 0 <==> now < last + 2 * frame.Delta()
  {
    FreshAtMultiple(last, frame.Delta(), now);
  }

  lemma FreshAtMultiple(last: int, delta: int, now: int)
    requires delta > 0 && last % delta == 0
    ensures FloorFrom(0, delta, now) <= last + delta <==> now < last + 2 * delta
  {
    FreshOnTheGrid(last / delta, delta, now);
  }

  lemma FreshOnTheGrid(k: int, delta: int, now: int)
    requires delta > 0
    ensures FloorFrom(0, delta, now) <= k * delta + delta <==> now < k * delta + 2 * delta
  {
    FloorBounds(0, delta, now);
    assert (k + 2) * delta == k * delta + 2 * delta;
    if now < (k + 2) * delta {
      NextMultiple(now / delta, delta, k + 1);
    } else {
      FloorMonotone(0, delta, (k + 2) * delta, now);
      FloorIsUnique(0, delta, (k + 2) * delta, k + 2);
    }
  }

  lemma NextMultiple(q: int, delta: int, k: int)
    requires delta > 0 && q * delta < k * delta + delta
    ensures q * delta <= k * delta
  {
    assert (k + 1) * delta == k * delta + delta;
    if q > k { MultipleGrows(k + 1, q, delta); } else { MultipleGrows(q, k, delta); }
  }

  predicate IsClosed(start: int, frame: Timeframe, now: int) {
    start + frame.Delta() <= now
  }

  predicate OnBoundary(start: int, frame: Timeframe) {
    start % frame.Delta() == 0
  }

  /** For boundary-aligned starts of a fixed frame, the trimming rule and the boundary rule
      agree on which candles are closed. */
  lemma ClosedIffNotAfterLastCompleted(cal: Calendar, start: int, frame: Timeframe, now: int)
    requires cal.Valid() && cal.Covers(now) && frame.Fixed() && OnBoundary(start, frame)
    ensures IsClosed(start, frame, now) <==> start <= LastCompletedStart(cal, now, frame)
  {
    AlignedFloor(start, frame.Delta(), now);
  }

  lemma AlignedFloor(start: int, delta: int, now: int)
    requires delta > 0 && start % delta == 0
    ensures start + delta <= now <==> start <= FloorFrom(0, delta, now) - delta
  {
    var k := start / delta;
    assert start == k * delta && start + delta == (k + 1) * delta;
    FloorBounds(0, delta, now);
    if start + delta <= now {
      FloorMonotone(0, delta, start + delta, now);
      FloorIsUnique(0, delta, start + delta, k + 1);
    }
  }
}
