/** The night tables built over the accounting: by weekday, by month, and external sales spread over their nights. */
module NightTables {
  import opened Text
  import opened Nights

  // ---------- weekdays ----------

  datatype DowRow = DowRow(dow: nat, sold: nat, available: nat)

  function FreeOn(taken: set<Day>, a: Day, b: Day, w: nat): nat
    decreases b - a
  {
    if a >= b then 0 else FreeOn(taken, a, b - 1, w) + if b - 1 !in taken && Weekday(b - 1) == w then 1 else 0
  }

  function CountOn(days: seq<Day>, w: nat): nat {
    if days == [] then 0 else CountOn(days[..|days| - 1], w) + if Weekday(days[|days| - 1]) == w then 1 else 0
  }

  function SoldOn(stays: seq<Stay>, a: Day, b: Day, w: nat): nat {
    if stays == [] then 0 else SoldOn(stays[..|stays| - 1], a, b, w) + CountOn(NightsOf(stays[|stays| - 1], a, b), w)
  }

  /** Positions of the days that fall on weekday `w`; day 0 is a Thursday and Sunday is 0. */
  function On(days: seq<Day>, w: nat): set<nat> {
    set i: nat | i < |days| && (days[i] + 4) % 7 == w
  }

  lemma {:induction false} CountOnIsCount(days: seq<Day>, w: nat)
    ensures CountOn(days, w) == |On(days, w)|
  {
    if days != [] {
      var n := |days| - 1;
      var init := days[..n];
      CountOnIsCount(init, w);
      assert On(days, w) == On(init, w) + if (days[n] + 4) % 7 == w then {n} else {};
    }
  }

  /** The free days of a range on weekday `w`. */
  function FreeDays(taken: set<Day>, a: Day, b: Day, w: nat): set<Day> {
    set d | a <= d < b && d !in taken && (d + 4) % 7 == w
  }

  lemma {:induction false} FreeOnIsCount(taken: set<Day>, a: Day, b: Day, w: nat)
    ensures FreeOn(taken, a, b, w) == |FreeDays(taken, a, b, w)|
    decreases b - a
  {
    if a < b {
      FreeOnIsCount(taken, a, b - 1, w);
      assert FreeDays(taken, a, b, w) == FreeDays(taken, a, b - 1, w)
          + if b - 1 !in taken && (b - 1 + 4) % 7 == w then {b - 1} else {};
    }
  }

  method ListDOWOccupancy(stays: seq<Stay>, blockers: seq<Stay>, a: Day, b: Day) returns (rows: seq<DowRow>)
    ensures |rows| == 7
    ensures forall w | 0 <= w < 7 ::
              rows[w] == DowRow(w, SoldOn(stays, a, b, w), FreeOn(Covered(blockers, a, b, false), a, b, w))
  {
    var taken := DaysTaken(blockers, a, b);
    var free := CountFree(taken, a, b);
    var sold := CountSold(stays, a, b);
    rows := [];
    for w := 0 to 7
      invariant |rows| == w && forall v | 0 <= v < w :: rows[v] == DowRow(v, sold[v], free[v])
    {
      rows := rows + [DowRow(w, sold[w], free[w])];
    }
  }

  /** The days of any blocker, whatever its closure state. */
  method DaysTaken(blockers: seq<Stay>, a: Day, b: Day) returns (taken: set<Day>)
    ensures taken == Covered(blockers, a, b, false)
  {
    taken := {};
    for n := 0 to |blockers|
      invariant taken == Covered(blockers[..n], a, b, false)
    {
      assert blockers[..n + 1][..n] == blockers[..n];
      var nights := StayNightDatesInRange(blockers[n], a, b);
      taken := AddDays(taken, nights);
    }
    assert blockers[..|blockers|] == blockers;
  }

  method CountFree(taken: set<Day>, a: Day, b: Day) returns (free: seq<nat>)
    ensures |free| == 7 && forall w | 0 <= w < 7 :: free[w] == FreeOn(taken, a, b, w)
  {
    free := [0, 0, 0, 0, 0, 0, 0];
    var d := a;
    while d < b
      invariant d >= a && (if a <= b then d <= b else d == a)
      invariant |free| == 7 && forall w | 0 <= w < 7 :: free[w] == FreeOn(taken, a, d, w)
    {
      if d !in taken {
        free := free[Weekday(d) := free[Weekday(d)] + 1];
      }
      d := d + 1;
    }
  }

  method CountSold(stays: seq<Stay>, a: Day, b: Day) returns (sold: seq<nat>)
    ensures |sold| == 7 && forall w | 0 <= w < 7 :: sold[w] == SoldOn(stays, a, b, w)
  {
    sold := [0, 0, 0, 0, 0, 0, 0];
    for n := 0 to |stays|
      invariant |sold| == 7 && forall w | 0 <= w < 7 :: sold[w] == SoldOn(stays[..n], a, b, w)
    {
      assert stays[..n + 1][..n] == stays[..n];
      var nights := StayNightDatesInRange(stays[n], a, b);
      ghost var before := sold;
      for k := 0 to |nights|
        invariant |sold| == 7 && forall w | 0 <= w < 7 :: sold[w] == before[w] + CountOn(nights[..k], w)
      {
        assert nights[..k + 1][..k] == nights[..k];
        sold := sold[Weekday(nights[k]) := sold[Weekday(nights[k])] + 1];
      }
      assert nights[..|nights|] == nights;
    }
    assert stays[..|stays|] == stays;
  }

  function WeekFree(taken: set<Day>, a: Day, b: Day): nat {
    FreeOn(taken, a, b, 0) + FreeOn(taken, a, b, 1) + FreeOn(taken, a, b, 2) + FreeOn(taken, a, b, 3)
    + FreeOn(taken, a, b, 4) + FreeOn(taken, a, b, 5) + FreeOn(taken, a, b, 6)
  }

  function WeekCount(days: seq<Day>): nat {
    CountOn(days, 0) + CountOn(days, 1) + CountOn(days, 2) + CountOn(days, 3) + CountOn(days, 4) + CountOn(days, 5)
    + CountOn(days, 6)
  }

  function WeekSold(stays: seq<Stay>, a: Day, b: Day): nat {
    SoldOn(stays, a, b, 0) + SoldOn(stays, a, b, 1) + SoldOn(stays, a, b, 2) + SoldOn(stays, a, b, 3)
    + SoldOn(stays, a, b, 4) + SoldOn(stays, a, b, 5) + SoldOn(stays, a, b, 6)
  }

  lemma {:induction false} WeekIsFree(taken: set<Day>, a: Day, b: Day)
    ensures WeekFree(taken, a, b) == Free(taken, a, b)
    decreases b - a
  {
    if a < b {
      WeekIsFree(taken, a, b - 1);
    }
  }

  lemma {:induction false} WeekOfDays(days: seq<Day>)
    ensures WeekCount(days) == |days|
  {
    if days != [] {
      WeekOfDays(days[..|days| - 1]);
    }
  }

  /** The seven weekdays' sold nights sum to the sold nights of the range. */
  lemma {:induction false} WeekdaysSumToSold(stays: seq<Stay>, a: Day, b: Day)
    ensures WeekSold(stays, a, b) == Sold(stays, a, b)
  {
    if stays != [] {
      WeekdaysSumToSold(stays[..|stays| - 1], a, b);
      WeekOfDays(NightsOf(stays[|stays| - 1], a, b));
    }
  }

  /**
   * The seven weekdays' availabilities sum to the bookable nights exactly when every night of a blocker is also covered
   * by a blocker flagged closed: the weekday table does not look at the flag.
   */
  lemma WeekdaysSumToBookable(blockers: seq<Stay>, a: Day, b: Day)
    ensures WeekFree(Covered(blockers, a, b, false), a, b) == Bookable(blockers, a, b)
            <==> Covered(blockers, a, b, false) <= ClosedDays(blockers, a, b)
    ensures (forall st | st in blockers :: st.closure == Closed) ==>
              WeekFree(Covered(blockers, a, b, false), a, b) == Bookable(blockers, a, b)
  {
    hide Covered, Free, WeekFree, Range;
    var all, flagged := Covered(blockers, a, b, false), ClosedDays(blockers, a, b);
    WeekIsFree(all, a, b);
    CoveredIsInside(blockers, a, b, false);
    CoveredIsInside(blockers, a, b, true);
    FreeAndTaken(all, a, b);
    FreeAndTaken(flagged, a, b);
    FlaggedAreCovered(blockers, a, b);
    SubsetSizes(flagged, all);
  }

  /** One night of a blocker that is not flagged closed is bookable, but missing from the weekday table. */
  lemma UnflaggedBlockerIsMissed()
    ensures var blockers := [Stay(1, 0, 1, Open, 0, 0, None)];
            WeekFree(Covered(blockers, 0, 1, false), 0, 1) == 0 && Bookable(blockers, 0, 1) == 1
  {
    var blocker := Stay(1, 0, 1, Open, 0, 0, None);
    assert [blocker][..0] == [];
    assert NightsOf(blocker, 0, 1) == [0];
    assert 0 in Covered([blocker], 0, 1, false);
    WeekIsFree(Covered([blocker], 0, 1, false), 0, 1);
  }

  lemma {:induction false} FlaggedAreCovered(blockers: seq<Stay>, a: Day, b: Day)
    ensures ClosedDays(blockers, a, b) <= Covered(blockers, a, b, false)
    ensures (forall st | st in blockers :: st.closure == Closed) ==>
              ClosedDays(blockers, a, b) == Covered(blockers, a, b, false)
  {
    if blockers != [] {
      var init, last := blockers[..|blockers| - 1], blockers[|blockers| - 1];
      FlaggedAreCovered(init, a, b);
      assert last in blockers && forall st | st in init :: st in blockers;
    }
  }

  // ---------- months ----------

  datatype MonthRow = MonthRow(nights: nat, available: int)

  /** The first days of consecutive months, and the day after the last of them. */
  predicate MonthStarts(cuts: seq<Day>) {
    |cuts| >= 1 && forall i, j | 0 <= i < j < |cuts| :: cuts[i] < cuts[j]
  }

  function MonthOf(cuts: seq<Day>, d: Day): (m: nat)
    requires MonthStarts(cuts) && Inside(d, cuts[0], cuts[|cuts| - 1])
    ensures m < |cuts| - 1 && Inside(d, cuts[m], cuts[m + 1])
  {
    var n := |cuts| - 1;
    if cuts[n - 1] <= d then n - 1 else MonthOf(cuts[..n], d)
  }

  lemma OneMonth(cuts: seq<Day>, d: Day, i: nat)
    requires MonthStarts(cuts) && Inside(d, cuts[0], cuts[|cuts| - 1]) && i < |cuts| - 1
    ensures Inside(d, cuts[i], cuts[i + 1]) <==> i == MonthOf(cuts, d)
  {
    var m := MonthOf(cuts, d);
    if i < m {
      assert i + 1 == m || cuts[i + 1] < cuts[m];
    } else if m < i {
      assert m + 1 == i || cuts[m + 1] < cuts[i];
    }
  }

  function NightsTotal(rows: seq<MonthRow>): nat {
    if rows == [] then 0 else NightsTotal(rows[..|rows| - 1]) + rows[|rows| - 1].nights
  }

  function AvailableTotal(rows: seq<MonthRow>): int {
    if rows == [] then 0 else AvailableTotal(rows[..|rows| - 1]) + rows[|rows| - 1].available
  }

  /** Each month holds its own sold and bookable nights, and together they hold those of the whole range. */
  method ListMonthlyOccupancy(stays: seq<Stay>, blockers: seq<Stay>, cuts: seq<Day>) returns (rows: seq<MonthRow>)
    requires MonthStarts(cuts)
    ensures |rows| == |cuts| - 1
    ensures forall i | 0 <= i < |rows| ::
              rows[i] == MonthRow(Sold(stays, cuts[i], cuts[i + 1]), Bookable(blockers, cuts[i], cuts[i + 1]))
    ensures NightsTotal(rows) == Sold(stays, cuts[0], cuts[|cuts| - 1])
    ensures AvailableTotal(rows) == Bookable(blockers, cuts[0], cuts[|cuts| - 1])
  {
    var months := |cuts| - 1;
    var available: seq<int> := [];
    for i := 0 to months
      invariant |available| == i && forall k | 0 <= k < i :: available[k] == Bookable(blockers, cuts[k], cuts[k + 1])
    {
      var n := BookableNightsInRange(blockers, cuts[i], cuts[i + 1]);
      available := available + [n];
    }
    var nights := CountByMonth(stays, cuts);
    rows := [];
    for i := 0 to months
      invariant |rows| == i && forall k | 0 <= k < i :: rows[k] == MonthRow(nights[k], available[k])
    {
      rows := rows + [MonthRow(nights[i], available[i])];
    }
    MonthsSumUp(stays, blockers, cuts, rows, months);
    assert rows[..months] == rows;
  }

  method CountByMonth(stays: seq<Stay>, cuts: seq<Day>) returns (counts: seq<nat>)
    requires MonthStarts(cuts)
    ensures |counts| == |cuts| - 1 && forall i | 0 <= i < |counts| :: counts[i] == Sold(stays, cuts[i], cuts[i + 1])
  {
    hide NightsOf, CountInside, Inside;
    var start, end := cuts[0], cuts[|cuts| - 1];
    counts := seq(|cuts| - 1, _ => 0);
    for n := 0 to |stays|
      invariant |counts| == |cuts| - 1
                && forall i | 0 <= i < |counts| :: counts[i] == Sold(stays[..n], cuts[i], cuts[i + 1])
    {
      assert stays[..n + 1][..n] == stays[..n];
      var nights := StayNightDatesInRange(stays[n], start, end);
      NightsAreInside(stays[n], start, end);
      counts := AddNights(counts, nights, cuts);
      forall i | 0 <= i < |counts|
        ensures CountInside(nights, cuts[i], cuts[i + 1]) == |NightsOf(stays[n], cuts[i], cuts[i + 1])|
      {
        NightsNarrow(stays[n], start, end, cuts[i], cuts[i + 1]);
      }
    }
    assert stays[..|stays|] == stays;
  }

  /** Count each night under its month. */
  method AddNights(before: seq<nat>, nights: seq<Day>, cuts: seq<Day>) returns (counts: seq<nat>)
    requires MonthStarts(cuts) && |before| == |cuts| - 1
    requires forall d | d in nights :: Inside(d, cuts[0], cuts[|cuts| - 1])
    ensures |counts| == |before|
    ensures forall i | 0 <= i < |counts| :: counts[i] == before[i] + CountInside(nights, cuts[i], cuts[i + 1])
  {
    counts := before;
    for k := 0 to |nights|
      invariant |counts| == |before|
      invariant forall i | 0 <= i < |counts| :: counts[i] == before[i] + CountInside(nights[..k], cuts[i], cuts[i + 1])
    {
      assert nights[..k + 1][..k] == nights[..k];
      var d := nights[k];
      assert d in nights;
      var m := MonthOf(cuts, d);
      forall i: nat | i < |counts|
        ensures Inside(d, cuts[i], cuts[i + 1]) <==> i == m
      {
        OneMonth(cuts, d, i);
      }
      counts := counts[m := counts[m] + 1];
    }
    assert nights[..|nights|] == nights;
  }

  lemma {:induction false} MonthsSumUp(stays: seq<Stay>, blockers: seq<Stay>, cuts: seq<Day>, rows: seq<MonthRow>,
                                       n: nat)
    requires MonthStarts(cuts) && |rows| == |cuts| - 1 && n <= |rows|
    requires forall i | 0 <= i < |rows| ::
               rows[i] == MonthRow(Sold(stays, cuts[i], cuts[i + 1]), Bookable(blockers, cuts[i], cuts[i + 1]))
    ensures NightsTotal(rows[..n]) == Sold(stays, cuts[0], cuts[n])
    ensures AvailableTotal(rows[..n]) == Bookable(blockers, cuts[0], cuts[n])
  {
    if n == 0 {
      SoldIsAdditive(stays, cuts[0], cuts[0], cuts[0]);
    } else {
      MonthsSumUp(stays, blockers, cuts, rows, n - 1);
      assert rows[..n][..n - 1] == rows[..n - 1];
      SoldIsAdditive(stays, cuts[0], cuts[n - 1], cuts[n]);
      BookableIsAdditive(blockers, cuts[0], cuts[n - 1], cuts[n]);
    }
  }

  // ---------- external sales ----------

  /** Integer division, dropping the fraction towards zero. */
  function Quo(a: int, b: int): int
    requires b > 0
  {
    if a >= 0 then a / b else -((-a) / b)
  }

  function NightCount(st: Stay): nat {
    match st.nights
    case Some(days) => |days|
    case None => |Range(st.start, st.end)|
  }

  /** What a sale contributes to a range: its amount in proportion to its nights there. */
  function Share(st: Stay, a: Day, b: Day): int {
    if st.closure != ExternalSale || NightCount(st) == 0 then 0
    else Quo(st.externalCents * |NightsOf(st, a, b)|, NightCount(st))
  }

  function External(stays: seq<Stay>, a: Day, b: Day): int {
    if stays == [] then 0 else External(stays[..|stays| - 1], a, b) + Share(stays[|stays| - 1], a, b)
  }

  lemma {:induction false} EmptyRangeEarnsNothing(stays: seq<Stay>, a: Day, b: Day)
    requires b <= a
    ensures External(stays, a, b) == 0
  {
    if stays != [] {
      EmptyRangeEarnsNothing(stays[..|stays| - 1], a, b);
      EmptyRangeSellsNothing([stays[|stays| - 1]], a, b);
      assert [stays[|stays| - 1]][..0] == [];
      NothingIsNothing(stays[|stays| - 1], a, b);
    }
  }

  lemma NothingIsNothing(st: Stay, a: Day, b: Day)
    requires |NightsOf(st, a, b)| == 0 || st.externalCents == 0
    ensures Share(st, a, b) == 0
  {
    assert st.externalCents * |NightsOf(st, a, b)| == 0;
  }

  method ExternalSaleRevenueCentsInRange(stays: seq<Stay>, a: Day, b: Day) returns (total: int)
    ensures total == External(stays, a, b)
  {
    if b <= a {
      EmptyRangeEarnsNothing(stays, a, b);
      return 0;
    }
    total := 0;
    for n := 0 to |stays|
      invariant total == External(stays[..n], a, b)
    {
      assert stays[..n + 1][..n] == stays[..n];
      var st := stays[n];
      if st.closure == ExternalSale && st.externalCents != 0 {
        var nights := NightCount(st);
        if nights > 0 {
          var overlap := StayNightDatesInRange(st, a, b);
          if |overlap| == 0 {
            NothingIsNothing(st, a, b);
          } else {
            total := total + Quo(st.externalCents * |overlap|, nights);
          }
        }
      } else if st.externalCents == 0 {
        NothingIsNothing(st, a, b);
      }
    }
    assert stays[..|stays|] == stays;
  }

  /** Days in order, splitting a stretch of time. */
  predicate InOrder(cuts: seq<Day>) {
    |cuts| >= 1 && forall i, j | 0 <= i < j < |cuts| :: cuts[i] <= cuts[j]
  }

  function Shares(st: Stay, cuts: seq<Day>, n: nat): int
    requires n < |cuts|
  {
    if n == 0 then 0 else Shares(st, cuts, n - 1) + Share(st, cuts[n - 1], cuts[n])
  }

  /** The quotient is the greatest in size that does not exceed the fraction, on its side of zero. */
  lemma QuoTruncates(a: int, n: int)
    requires n > 0
    ensures a >= 0 ==> 0 <= n * Quo(a, n) <= a < n * Quo(a, n) + n
    ensures a < 0 ==> n * Quo(a, n) - n < a <= n * Quo(a, n) <= 0
  {
    if a < 0 {
      QuoIsClose(-a, n);
      assert n * -Quo(-a, n) == -(n * Quo(-a, n));
    } else {
      QuoIsClose(a, n);
    }
  }

  /** Only sales earn. */
  lemma {:induction false} OnlySalesEarn(stays: seq<Stay>, a: Day, b: Day)
    requires forall st | st in stays :: st.closure != ExternalSale || st.externalCents == 0
    ensures External(stays, a, b) == 0
  {
    if stays != [] {
      var init, last := stays[..|stays| - 1], stays[|stays| - 1];
      assert last in stays && forall st | st in init :: st in stays;
      OnlySalesEarn(init, a, b);
      if last.closure == ExternalSale {
        NothingIsNothing(last, a, b);
      }
    }
  }

  lemma QuoIsClose(a: nat, n: nat)
    requires n > 0
    ensures Quo(a, n) >= 0 && n * Quo(a, n) >= 0 && n * Quo(a, n) <= a <= n * Quo(a, n) + n - 1
  {
  }

  lemma {:induction false} SharesAreClose(st: Stay, cuts: seq<Day>, n: nat)
    requires InOrder(cuts) && n < |cuts| && st.externalCents >= 0 && st.closure == ExternalSale && NightCount(st) > 0
    ensures var whole, part := NightCount(st), |NightsOf(st, cuts[0], cuts[n])|;
            && whole * Shares(st, cuts, n) <= st.externalCents * part
            && st.externalCents * part <= whole * Shares(st, cuts, n) + n * (whole - 1)
  {
    var whole := NightCount(st);
    if n == 0 {
      EmptyRangeSellsNothing([st], cuts[0], cuts[0]);
      assert [st][..0] == [];
    } else {
      SharesAreClose(st, cuts, n - 1);
      NightsSplit(st, cuts[0], cuts[n - 1], cuts[n]);
      var before, here := |NightsOf(st, cuts[0], cuts[n - 1])|, |NightsOf(st, cuts[n - 1], cuts[n])|;
      QuoIsClose(st.externalCents * here, whole);
      CloseTogether(whole, Shares(st, cuts, n - 1), Share(st, cuts[n - 1], cuts[n]), st.externalCents, before, here, n);
    }
  }

  lemma CloseTogether(whole: int, s: int, q: int, cents: int, before: int, here: int, n: int)
    requires whole * s <= cents * before <= whole * s + (n - 1) * (whole - 1)
    requires whole * q <= cents * here <= whole * q + whole - 1
    ensures whole * (s + q) <= cents * (before + here) <= whole * (s + q) + n * (whole - 1)
  {
    assert whole * (s + q) == whole * s + whole * q;
    assert cents * (before + here) == cents * before + cents * here;
    assert n * (whole - 1) == (n - 1) * (whole - 1) + (whole - 1);
  }

  /**
   * Spread over `k` adjacent ranges that hold all its nights, a sale never exceeds its amount and loses at most `k - 1`
   * cents.
   */
  lemma ProrationLosesLittle(st: Stay, cuts: seq<Day>)
    requires InOrder(cuts) && |cuts| >= 2 && st.externalCents >= 0 && st.closure == ExternalSale && NightCount(st) > 0
    requires |NightsOf(st, cuts[0], cuts[|cuts| - 1])| == NightCount(st)
    ensures var k := |cuts| - 1; st.externalCents - (k - 1) <= Shares(st, cuts, k) <= st.externalCents
  {
    var k, whole := |cuts| - 1, NightCount(st);
    SharesAreClose(st, cuts, k);
    Cancel(whole, Shares(st, cuts, k), st.externalCents, k);
  }

  lemma Cancel(whole: int, s: int, cents: int, k: int)
    requires whole > 0 && k >= 1 && whole * s <= cents * whole <= whole * s + k * (whole - 1)
    ensures cents - (k - 1) <= s <= cents
  {
    StrictlyMore(whole, s, cents);
    StrictlyMore(whole, cents - (k - 1), s);
    assert whole * (cents - (k - 1)) == cents * whole - k * whole + whole;
    assert k * (whole - 1) == k * whole - k;
  }

  lemma StrictlyMore(w: int, x: int, y: int)
    requires w > 0
    ensures x > y ==> w * x >= w * y + w
  {
    if x > y {
      Scale(w, x - y);
      assert w * x == w * y + w * (x - y);
    }
  }

  lemma Scale(w: int, d: int)
    requires w > 0 && d >= 1
    ensures w * d >= w
  {
  }
}
