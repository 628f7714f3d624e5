/**
 * Night accounting: sold, closed and bookable nights of a range, by month and by weekday. Days are numbered civil days.
 */
module Nights {
  import opened Text

  type Day = int

  datatype Closure = Open | Closed | ExternalSale

  /** `nights` is present when the night dates were loaded; otherwise the nights run from `start` up to `end`. */
  datatype Stay = Stay(id: int, start: Day, end: Day, closure: Closure, externalCents: int, known: Day,
                       nights: Option<seq<Day>>)

  /** Day 0 is a Thursday; Sunday is 0. */
  function Weekday(d: Day): (w: nat)
    ensures w < 7
  {
    (d + 4) % 7
  }

  // ---------- the nights of a stay ----------

  /** The days from `a` up to `b`. */
  function Range(a: Day, b: Day): (days: seq<Day>)
    ensures |days| == if a < b then b - a else 0
    ensures forall i | 0 <= i < |days| :: days[i] == a + i
    decreases b - a
  {
    if a >= b then [] else Range(a, b - 1) + [b - 1]
  }

  predicate Inside(d: Day, a: Day, b: Day) {
    a <= d < b
  }

  function Within(days: seq<Day>, a: Day, b: Day): seq<Day> {
    if days == [] then []
    else
      var last := days[|days| - 1];
      Within(days[..|days| - 1], a, b) + if Inside(last, a, b) then [last] else []
  }

  function Later(a: Day, b: Day): Day {
    if a < b then b else a
  }

  function Sooner(a: Day, b: Day): Day {
    if b < a then b else a
  }

  function NightsOf(st: Stay, a: Day, b: Day): seq<Day> {
    match st.nights
    case Some(days) => Within(days, a, b)
    case None => Range(Later(st.start, a), Sooner(st.end, b))
  }

  method CalendarNights(a: Day, b: Day) returns (count: nat)
    ensures count == |Range(a, b)|
  {
    count := 0;
    var day := a;
    while day < b
      invariant day >= a && (if a <= b then day <= b else day == a) && count == day - a
    {
      count := count + 1;
      day := day + 1;
    }
  }

  method StayNightDatesInRange(st: Stay, a: Day, b: Day) returns (out: seq<Day>)
    ensures out == NightsOf(st, a, b)
  {
    out := [];
    if st.nights.Some? {
      var days := st.nights.value;
      for n := 0 to |days|
        invariant out == Within(days[..n], a, b)
      {
        assert days[..n + 1][..n] == days[..n];
        if a <= days[n] && days[n] < b {
          out := out + [days[n]];
        }
      }
      assert days[..|days|] == days;
      return;
    }
    var start, end := st.start, st.end;
    if start < a {
      start := a;
    }
    if end > b {
      end := b;
    }
    var day := start;
    while day < end
      invariant day >= start && (if start <= end then day <= end else day == start) && out == Range(start, day)
    {
      out := out + [day];
      day := day + 1;
    }
  }

  /** How many of some days lie from `a` up to `b`. */
  function CountInside(days: seq<Day>, a: Day, b: Day): nat {
    if days == [] then 0
    else CountInside(days[..|days| - 1], a, b) + if Inside(days[|days| - 1], a, b) then 1 else 0
  }

  lemma {:induction false} WithinIsCounted(days: seq<Day>, a: Day, b: Day)
    ensures |Within(days, a, b)| == CountInside(days, a, b)
  {
    if days != [] {
      WithinIsCounted(days[..|days| - 1], a, b);
    }
  }

  lemma {:induction false} CountSplits(days: seq<Day>, a: Day, b: Day, c: Day)
    requires a <= b <= c
    ensures CountInside(days, a, b) + CountInside(days, b, c) == CountInside(days, a, c)
  {
    if days != [] {
      CountSplits(days[..|days| - 1], a, b, c);
    }
  }

  lemma {:induction false} CountNarrows(days: seq<Day>, a: Day, b: Day, x: Day, y: Day)
    requires a <= x && y <= b
    ensures CountInside(Within(days, a, b), x, y) == CountInside(days, x, y)
  {
    if days != [] {
      var init, last := days[..|days| - 1], days[|days| - 1];
      CountNarrows(init, a, b, x, y);
      var w := Within(init, a, b);
      if Inside(last, a, b) {
        assert Within(days, a, b) == w + [last];
        CountOneMore(w, last, x, y);
      } else {
        assert Within(days, a, b) == w;
      }
    }
  }

  lemma CountOneMore(days: seq<Day>, d: Day, a: Day, b: Day)
    ensures CountInside(days + [d], a, b) == CountInside(days, a, b) + if Inside(d, a, b) then 1 else 0
  {
    assert (days + [d])[..|days|] == days;
  }

  lemma {:induction false} CountOfRange(a: Day, b: Day, x: Day, y: Day)
    ensures CountInside(Range(a, b), x, y) == |Range(Later(a, x), Sooner(b, y))|
    decreases b - a
  {
    if a < b {
      CountOfRange(a, b - 1, x, y);
      assert Range(a, b)[..|Range(a, b)| - 1] == Range(a, b - 1);
    }
  }

  /** The nights of a range split at any day in it. */
  lemma NightsSplit(st: Stay, a: Day, b: Day, c: Day)
    requires a <= b <= c
    ensures |NightsOf(st, a, b)| + |NightsOf(st, b, c)| == |NightsOf(st, a, c)|
  {
    if st.nights.Some? {
      WithinIsCounted(st.nights.value, a, b);
      WithinIsCounted(st.nights.value, b, c);
      WithinIsCounted(st.nights.value, a, c);
      CountSplits(st.nights.value, a, b, c);
    }
  }

  /** Counting the nights of a range that lie in a narrower one. */
  lemma NightsNarrow(st: Stay, a: Day, b: Day, x: Day, y: Day)
    requires a <= x && y <= b
    ensures CountInside(NightsOf(st, a, b), x, y) == |NightsOf(st, x, y)|
  {
    if st.nights.Some? {
      CountNarrows(st.nights.value, a, b, x, y);
      WithinIsCounted(st.nights.value, x, y);
    } else {
      CountOfRange(Later(st.start, a), Sooner(st.end, b), x, y);
    }
  }

  lemma {:induction false} NightsAreInside(st: Stay, a: Day, b: Day)
    ensures forall d | d in NightsOf(st, a, b) :: Inside(d, a, b)
  {
    if st.nights.Some? {
      WithinIsInside(st.nights.value, a, b);
    }
  }

  lemma {:induction false} WithinIsInside(days: seq<Day>, a: Day, b: Day)
    ensures forall d :: d in Within(days, a, b) <==> d in days && Inside(d, a, b)
  {
    if days != [] {
      var init, last := days[..|days| - 1], days[|days| - 1];
      WithinIsInside(init, a, b);
      assert days == init + [last];
    }
  }

  /** A night of a wider range is a night of the narrower one exactly when it lies in it. */
  lemma NightsByDay(st: Stay, a: Day, b: Day, x: Day, y: Day)
    requires a <= x && y <= b
    ensures forall d :: d in NightsOf(st, x, y) <==> d in NightsOf(st, a, b) && Inside(d, x, y)
  {
    if st.nights.Some? {
      WithinIsInside(st.nights.value, a, b);
      WithinIsInside(st.nights.value, x, y);
    } else {
      RangeHolds(Later(st.start, a), Sooner(st.end, b));
      RangeHolds(Later(st.start, x), Sooner(st.end, y));
    }
  }

  lemma RangeHolds(a: Day, b: Day)
    ensures forall d :: d in Range(a, b) <==> Inside(d, a, b)
  {
    forall d | Inside(d, a, b)
      ensures d in Range(a, b)
    {
      assert Range(a, b)[d - a] == d;
    }
  }

  /** The stay has the night: it was loaded, or lies from the arrival up to the departure. */
  predicate HasNight(st: Stay, d: Day) {
    match st.nights
    case Some(days) => d in days
    case None => st.start <= d < st.end
  }

  /** The nights of a stay in a range are exactly its nights that lie from the first day up to the last. */
  lemma NightsAreItsOwn(st: Stay, a: Day, b: Day)
    ensures forall d :: d in NightsOf(st, a, b) <==> HasNight(st, d) && a <= d < b
    ensures st.nights.None? ==>
              forall i, j | 0 <= i < j < |NightsOf(st, a, b)| :: NightsOf(st, a, b)[i] < NightsOf(st, a, b)[j]
  {
    if st.nights.Some? {
      WithinIsInside(st.nights.value, a, b);
    } else {
      RangeHolds(Later(st.start, a), Sooner(st.end, b));
    }
  }

  // ---------- sold nights ----------

  function Sold(stays: seq<Stay>, a: Day, b: Day): nat {
    if stays == [] then 0 else Sold(stays[..|stays| - 1], a, b) + |NightsOf(stays[|stays| - 1], a, b)|
  }

  lemma {:induction false} EmptyRangeSellsNothing(stays: seq<Stay>, a: Day, b: Day)
    requires b <= a
    ensures Sold(stays, a, b) == 0
  {
    if stays != [] {
      EmptyRangeSellsNothing(stays[..|stays| - 1], a, b);
      NightsAreInside(stays[|stays| - 1], a, b);
      var nights := NightsOf(stays[|stays| - 1], a, b);
      assert nights != [] ==> nights[0] in nights && Inside(nights[0], a, b);
    }
  }

  method NightsSoldInRange(stays: seq<Stay>, a: Day, b: Day) returns (count: nat)
    ensures count == Sold(stays, a, b)
  {
    if b <= a {
      EmptyRangeSellsNothing(stays, a, b);
      return 0;
    }
    count := 0;
    for n := 0 to |stays|
      invariant count == Sold(stays[..n], a, b)
    {
      var nights := StayNightDatesInRange(stays[n], a, b);
      assert stays[..n + 1][..n] == stays[..n];
      count := count + |nights|;
    }
    assert stays[..|stays|] == stays;
  }

  /** Sold nights are additive over adjacent ranges. */
  lemma {:induction false} SoldIsAdditive(stays: seq<Stay>, a: Day, b: Day, c: Day)
    requires a <= b <= c
    ensures Sold(stays, a, b) + Sold(stays, b, c) == Sold(stays, a, c)
  {
    if stays != [] {
      SoldIsAdditive(stays[..|stays| - 1], a, b, c);
      NightsSplit(stays[|stays| - 1], a, b, c);
    }
  }

  // ---------- closed and bookable nights ----------

  /** The days covered by a blocker, or only by those flagged closed. */
  function Covered(blockers: seq<Stay>, a: Day, b: Day, flaggedOnly: bool): set<Day> {
    if blockers == [] then {}
    else
      var last := blockers[|blockers| - 1];
      Covered(blockers[..|blockers| - 1], a, b, flaggedOnly)
      + if flaggedOnly && last.closure != Closed then {} else set d | d in NightsOf(last, a, b)
  }

  predicate CoversAt(blockers: seq<Stay>, i: int, d: Day, flaggedOnly: bool) {
    0 <= i < |blockers| && (flaggedOnly ==> blockers[i].closure == Closed) && HasNight(blockers[i], d)
  }

  /**
   * A day of the range is covered exactly when it is a night of a blocker, of one flagged closed if only those count.
   */
  lemma {:induction false} CoveredExactly(blockers: seq<Stay>, a: Day, b: Day, flaggedOnly: bool, d: Day)
    ensures d in Covered(blockers, a, b, flaggedOnly) <==>
              a <= d < b && exists i :: CoversAt(blockers, i, d, flaggedOnly)
  {
    hide NightsOf, HasNight;
    if blockers != [] {
      var n := |blockers| - 1;
      var init := blockers[..n];
      CoveredExactly(init, a, b, flaggedOnly, d);
      NightsAreItsOwn(blockers[n], a, b);
      CoversOneMore(blockers, d, flaggedOnly);
    }
  }

  lemma CoversOneMore(blockers: seq<Stay>, d: Day, flaggedOnly: bool)
    requires blockers != []
    ensures var n := |blockers| - 1;
            (exists i :: CoversAt(blockers, i, d, flaggedOnly)) <==>
              CoversAt(blockers, n, d, flaggedOnly) || exists i :: CoversAt(blockers[..n], i, d, flaggedOnly)
  {
    hide HasNight;
    var n := |blockers| - 1;
    var init := blockers[..n];
    if i :| CoversAt(blockers, i, d, flaggedOnly) && i < n {
      assert init[i] == blockers[i] && CoversAt(init, i, d, flaggedOnly);
    }
    if i :| CoversAt(init, i, d, flaggedOnly) {
      assert init[i] == blockers[i] && CoversAt(blockers, i, d, flaggedOnly);
    }
  }

  function ClosedDays(blockers: seq<Stay>, a: Day, b: Day): set<Day> {
    Covered(blockers, a, b, true)
  }

  lemma {:induction false} CoveredByDay(blockers: seq<Stay>, a: Day, b: Day, x: Day, y: Day, flaggedOnly: bool)
    requires a <= x && y <= b
    ensures forall d :: d in Covered(blockers, x, y, flaggedOnly) <==>
              d in Covered(blockers, a, b, flaggedOnly) && Inside(d, x, y)
  {
    if blockers != [] {
      CoveredByDay(blockers[..|blockers| - 1], a, b, x, y, flaggedOnly);
      NightsByDay(blockers[|blockers| - 1], a, b, x, y);
    }
  }

  lemma CoveredIsInside(blockers: seq<Stay>, a: Day, b: Day, flaggedOnly: bool)
    ensures forall d | d in Covered(blockers, a, b, flaggedOnly) :: Inside(d, a, b)
  {
    CoveredByDay(blockers, a, b, a, b, flaggedOnly);
  }

  lemma NoneInside(days: set<Day>, a: Day, b: Day)
    requires b <= a && forall d | d in days :: Inside(d, a, b)
    ensures |days| == 0
  {
    if days != {} {
      var d := SomeElement(days);
    }
  }

  method AddDays(before: set<Day>, days: seq<Day>) returns (all: set<Day>)
    ensures all == before + set d | d in days
  {
    all := before;
    for k := 0 to |days|
      invariant all == before + set d | d in days[..k]
    {
      assert days[..k + 1] == days[..k] + [days[k]];
      all := all + {days[k]};
    }
    assert days[..|days|] == days;
  }

  method ClosedNightsInRange(blockers: seq<Stay>, a: Day, b: Day) returns (count: nat)
    ensures count == |ClosedDays(blockers, a, b)|
  {
    if b <= a {
      CoveredIsInside(blockers, a, b, true);
      NoneInside(ClosedDays(blockers, a, b), a, b);
      return 0;
    }
    var closed: set<Day> := {};
    for n := 0 to |blockers|
      invariant closed == ClosedDays(blockers[..n], a, b)
    {
      assert blockers[..n + 1][..n] == blockers[..n];
      if blockers[n].closure == Closed {
        var nights := StayNightDatesInRange(blockers[n], a, b);
        closed := AddDays(closed, nights);
      }
    }
    assert blockers[..|blockers|] == blockers;
    return |closed|;
  }

  /** How many days of a range are not in a set. */
  function Free(taken: set<Day>, a: Day, b: Day): nat
    decreases b - a
  {
    if a >= b then 0 else Free(taken, a, b - 1) + if b - 1 in taken then 0 else 1
  }

  lemma {:induction false} FreeAndTaken(taken: set<Day>, a: Day, b: Day)
    requires forall d | d in taken :: Inside(d, a, b)
    ensures Free(taken, a, b) + |taken| == |Range(a, b)|
    decreases b - a
  {
    if a >= b {
      NoneInside(taken, a, b);
    } else {
      var rest := taken - {b - 1};
      FreeAndTaken(rest, a, b - 1);
      FreeIgnoresLater(taken, rest, a, b - 1);
    }
  }

  lemma {:induction false} FreeIgnoresLater(s: set<Day>, t: set<Day>, a: Day, b: Day)
    requires forall d | Inside(d, a, b) :: d in s <==> d in t
    ensures Free(s, a, b) == Free(t, a, b)
    decreases b - a
  {
    if a < b {
      FreeIgnoresLater(s, t, a, b - 1);
    }
  }

  lemma {:induction false} FreeSplits(taken: set<Day>, a: Day, b: Day, c: Day)
    requires a <= b <= c
    ensures Free(taken, a, b) + Free(taken, b, c) == Free(taken, a, c)
    decreases c - b
  {
    if b < c {
      FreeSplits(taken, a, b, c - 1);
    }
  }

  /** The days of a range on which nothing is closed. */
  function Bookable(blockers: seq<Stay>, a: Day, b: Day): nat {
    Free(ClosedDays(blockers, a, b), a, b)
  }

  /** Available less closed nights: the difference is never negative, so flooring it at zero changes nothing. */
  method BookableNightsInRange(blockers: seq<Stay>, a: Day, b: Day) returns (n: int)
    ensures n == Bookable(blockers, a, b) && n == |Range(a, b)| - |ClosedDays(blockers, a, b)|
  {
    var available := 0;
    if a < b {
      available := CalendarNights(a, b);
    }
    var closed := ClosedNightsInRange(blockers, a, b);
    CoveredIsInside(blockers, a, b, true);
    FreeAndTaken(ClosedDays(blockers, a, b), a, b);
    n := available - closed;
    if n < 0 {
      n := 0;
    }
  }

  /** Bookable nights are additive over adjacent ranges, however the blockers overlap. */
  lemma BookableIsAdditive(blockers: seq<Stay>, a: Day, b: Day, c: Day)
    requires a <= b <= c
    ensures Bookable(blockers, a, b) + Bookable(blockers, b, c) == Bookable(blockers, a, c)
    ensures |ClosedDays(blockers, a, b)| + |ClosedDays(blockers, b, c)| == |ClosedDays(blockers, a, c)|
  {
    CoveredByDay(blockers, a, c, a, b, true);
    CoveredByDay(blockers, a, c, b, c, true);
    FreeIgnoresLater(ClosedDays(blockers, a, b), ClosedDays(blockers, a, c), a, b);
    FreeIgnoresLater(ClosedDays(blockers, b, c), ClosedDays(blockers, a, c), b, c);
    FreeSplits(ClosedDays(blockers, a, c), a, b, c);
    CoveredIsInside(blockers, a, b, true);
    CoveredIsInside(blockers, b, c, true);
    CoveredIsInside(blockers, a, c, true);
    FreeAndTaken(ClosedDays(blockers, a, b), a, b);
    FreeAndTaken(ClosedDays(blockers, b, c), b, c);
    FreeAndTaken(ClosedDays(blockers, a, c), a, c);
  }
}
