/** The scan for short unsold midweek stretches between occupied nights. */
module Midweek {
  import opened Text
  import opened Nights

  /** A free night, the stays on either side, and the days its stretch starts and ends. */
  datatype Gap = Gap(date: Day, previous: int, next: int, checkout: Day, checkin: Day)

  /** Monday to Thursday. */
  predicate IsMidweek(d: Day) {
    1 <= Weekday(d) <= 4
  }

  /** Which stay occupies a day; of several the last one listed. */
  function Occupied(stays: seq<Stay>, a: Day, b: Day): map<Day, int> {
    if stays == [] then map[]
    else
      var last := stays[|stays| - 1];
      Occupied(stays[..|stays| - 1], a, b) + map d | d in NightsOf(last, a, b) :: last.id
  }

  predicate Holds(stays: seq<Stay>, i: int, a: Day, b: Day, d: Day) {
    0 <= i < |stays| && d in NightsOf(stays[i], a, b)
  }

  /** Stay `i` is the last one listed that holds the day. */
  predicate HoldsLast(stays: seq<Stay>, i: int, a: Day, b: Day, d: Day) {
    Holds(stays, i, a, b, d) && forall j | i < j < |stays| :: !Holds(stays, j, a, b, d)
  }

  /** A day is occupied exactly when it is a night of one of the stays, and by the last one listed that holds it. */
  lemma {:induction false} OccupiedByDay(stays: seq<Stay>, a: Day, b: Day, d: Day)
    ensures d in Occupied(stays, a, b) <==> exists i :: Holds(stays, i, a, b, d)
    ensures forall i | HoldsLast(stays, i, a, b, d) ::
              d in Occupied(stays, a, b) && Occupied(stays, a, b)[d] == stays[i].id
  {
    hide NightsOf;
    if stays != [] {
      var n := |stays| - 1;
      OccupiedByDay(stays[..n], a, b, d);
      forall i
        ensures Holds(stays, i, a, b, d) <==> Holds(stays[..n], i, a, b, d) || (i == n && d in NightsOf(stays[n], a, b))
      {
        assert 0 <= i < n ==> stays[..n][i] == stays[i];
      }
      assert d in NightsOf(stays[n], a, b) ==> Holds(stays, n, a, b, d);
      forall i | HoldsLast(stays, i, a, b, d)
        ensures d in Occupied(stays, a, b) && Occupied(stays, a, b)[d] == stays[i].id
      {
        if i < n {
          assert !Holds(stays, n, a, b, d) && HoldsLast(stays[..n], i, a, b, d);
        }
      }
    }
  }

  method BuildOccupied(stays: seq<Stay>, a: Day, b: Day) returns (occupied: map<Day, int>)
    ensures occupied == Occupied(stays, a, b)
  {
    occupied := map[];
    for n := 0 to |stays|
      invariant occupied == Occupied(stays[..n], a, b)
    {
      assert stays[..n + 1][..n] == stays[..n];
      var nights := StayNightDatesInRange(stays[n], a, b);
      occupied := Mark(occupied, nights, stays[n].id);
    }
    assert stays[..|stays|] == stays;
  }

  method Mark(before: map<Day, int>, nights: seq<Day>, id: int) returns (occupied: map<Day, int>)
    ensures occupied == before + map d | d in nights :: id
  {
    occupied := before;
    for k := 0 to |nights|
      invariant occupied == before + map d | d in nights[..k] :: id
    {
      assert nights[..k + 1] == nights[..k] + [nights[k]];
      occupied := occupied[nights[k] := id];
    }
    assert nights[..|nights|] == nights;
  }

  // ---------- what the scan is for ----------

  predicate Candidate(occupied: map<Day, int>, d: Day) {
    d !in occupied && IsMidweek(d)
  }

  predicate AllCandidates(occupied: map<Day, int>, a: Day, b: Day) {
    forall d | a <= d < b :: Candidate(occupied, d)
  }

  /** One or two free midweek nights `s..e` of the range, with occupied nights right before and right after. */
  predicate IsOrphan(occupied: map<Day, int>, first: Day, to: Day, s: Day, e: Day) {
    first <= s && e <= to && 1 <= e - s <= 2 && AllCandidates(occupied, s, e) && s - 1 in occupied && e in occupied
  }

  /** A day that is free, and a Monday, Tuesday, Wednesday or Thursday; day 0 is a Thursday. */
  predicate FreeMidweek(occupied: map<Day, int>, d: Day) {
    d !in occupied && 1 <= (d + 4) % 7 <= 4
  }

  /** An orphan stretch is one such day, or two, between two occupied ones. */
  lemma OrphanMeans(occupied: map<Day, int>, first: Day, to: Day, s: Day, e: Day)
    ensures IsOrphan(occupied, first, to, s, e) <==>
              && first <= s && e <= to && (e == s + 1 || e == s + 2) && s - 1 in occupied && e in occupied
              && FreeMidweek(occupied, s) && FreeMidweek(occupied, e - 1)
  {
    if IsOrphan(occupied, first, to, s, e) {
      assert Candidate(occupied, s) && Candidate(occupied, e - 1);
    }
    forall d | (d == s || d == e - 1) && FreeMidweek(occupied, d)
      ensures Candidate(occupied, d)
    {
    }
  }

  predicate InStretch(occupied: map<Day, int>, first: Day, to: Day, x: Day, s: Day, e: Day) {
    IsOrphan(occupied, first, to, s, e) && s <= x < e
  }

  predicate IsGap(occupied: map<Day, int>, first: Day, to: Day, g: Gap) {
    && IsOrphan(occupied, first, to, g.checkout, g.checkin) && g.checkout <= g.date < g.checkin
    && g.previous == occupied[g.checkout - 1] && g.next == occupied[g.checkin]
  }

  /** The stretch around a night is determined by the night. */
  lemma StretchIsUnique(occupied: map<Day, int>, first: Day, to: Day, x: Day, s: Day, e: Day, s': Day, e': Day)
    requires InStretch(occupied, first, to, x, s, e)
    requires InStretch(occupied, first, to, x, s', e')
    ensures s == s' && e == e'
  {
    assert s < s' ==> Candidate(occupied, s' - 1);
    assert s' < s ==> Candidate(occupied, s - 1);
    assert e < e' ==> Candidate(occupied, e);
    assert e' < e ==> Candidate(occupied, e');
  }

  /** The dates strictly increase, so each is listed once. */
  predicate Increasing(gaps: seq<Gap>) {
    forall i, j | 0 <= i < j < |gaps| :: gaps[i].date < gaps[j].date
  }

  /** Every night before `d` that belongs to an orphan stretch is listed. */
  ghost predicate ListedBefore(occupied: map<Day, int>, first: Day, to: Day, gaps: seq<Gap>, d: Day) {
    forall x, s, e | InStretch(occupied, first, to, x, s, e) && x < d :: Lists(gaps, x)
  }

  predicate Lists(gaps: seq<Gap>, x: Day) {
    exists i :: 0 <= i < |gaps| && gaps[i].date == x
  }

  /** Only true rows, all of days before `d`, and none left out. */
  ghost predicate Scanned(occupied: map<Day, int>, first: Day, to: Day, gaps: seq<Gap>, d: Day) {
    && Increasing(gaps) && (forall g | g in gaps :: IsGap(occupied, first, to, g) && g.date < d)
    && ListedBefore(occupied, first, to, gaps, d)
  }

  // ---------- the scan ----------

  /** Walk on while the days are free midweek days of the range. */
  method Walk(occupied: map<Day, int>, to: Day, start: Day) returns (end: Day)
    requires start < to
    ensures start <= end <= to && AllCandidates(occupied, start, end) && (end < to ==> !Candidate(occupied, end))
  {
    end := start;
    while end < to
      invariant start <= end <= to && AllCandidates(occupied, start, end)
    {
      if end in occupied || !IsMidweek(end) {
        break;
      }
      end := end + 1;
    }
  }

  /** The rows of one stretch. */
  method Emit(occupied: map<Day, int>, first: Day, to: Day, before: seq<Gap>, s: Day, e: Day) returns (gaps: seq<Gap>)
    requires Scanned(occupied, first, to, before, s) && IsOrphan(occupied, first, to, s, e)
    ensures Scanned(occupied, first, to, gaps, e)
  {
    gaps := before;
    var x := s;
    while x < e
      invariant s <= x <= e && Scanned(occupied, first, to, gaps, x)
    {
      var g := Gap(x, occupied[s - 1], occupied[e], s, e);
      OneMore(occupied, first, to, gaps, g);
      gaps := gaps + [g];
      x := x + 1;
    }
  }

  lemma OneMore(occupied: map<Day, int>, first: Day, to: Day, gaps: seq<Gap>, g: Gap)
    requires Scanned(occupied, first, to, gaps, g.date) && IsGap(occupied, first, to, g)
    ensures Scanned(occupied, first, to, gaps + [g], g.date + 1)
  {
    var more := gaps + [g];
    assert more[|gaps|] == g && Lists(more, g.date);
    forall x | Lists(gaps, x)
      ensures Lists(more, x)
    {
      var i :| 0 <= i < |gaps| && gaps[i].date == x;
      assert more[i].date == x;
    }
    assert forall i | 0 <= i < |gaps| :: gaps[i] in gaps;
  }

  /** Days that are not candidates belong to no stretch. */
  lemma Skip(occupied: map<Day, int>, first: Day, to: Day, gaps: seq<Gap>, d: Day, d': Day)
    requires Scanned(occupied, first, to, gaps, d) && d <= d'
    requires forall x, s, e | InStretch(occupied, first, to, x, s, e) :: !(d <= x < d')
    ensures Scanned(occupied, first, to, gaps, d')
  {
  }

  /** A stretch that ends the candidates on the right and starts them on the left is the only one through its days. */
  lemma WholeStretch(occupied: map<Day, int>, first: Day, to: Day, a: Day, b: Day, x: Day, s: Day, e: Day)
    requires first <= a < b <= to && AllCandidates(occupied, a, b) && (b < to ==> !Candidate(occupied, b))
    requires a == first || !Candidate(occupied, a - 1)
    requires InStretch(occupied, first, to, x, s, e) && a <= x < b
    ensures s == a && e == b
  {
    assert s < a ==> Candidate(occupied, a - 1);
    assert a < s ==> Candidate(occupied, s - 1);
    assert e < b ==> Candidate(occupied, e);
    assert b < e ==> Candidate(occupied, b);
  }

  /**
   * A day of the range is listed exactly once if it lies in a stretch of one or two free midweek nights between
   * occupied nights, and not otherwise; its row names that stretch and its neighbours. Jumping over the day that ends
   * a stretch leaves nothing out.
   */
  method ScanMidweek(occupied: map<Day, int>, first: Day, to: Day) returns (gaps: seq<Gap>)
    ensures Increasing(gaps) && (forall g | g in gaps :: IsGap(occupied, first, to, g))
    ensures forall x, s, e | InStretch(occupied, first, to, x, s, e) :: Lists(gaps, x)
  {
    gaps := [];
    var d := first;
    assert forall x, s, e | InStretch(occupied, first, to, x, s, e) :: first <= x;
    while d < to
      invariant first <= d && Scanned(occupied, first, to, gaps, d)
      invariant d == first || !Candidate(occupied, d - 1) || d > to
    {
      if d in occupied || !IsMidweek(d) {
        assert forall s, e | InStretch(occupied, first, to, d, s, e) :: Candidate(occupied, d);
        Skip(occupied, first, to, gaps, d, d + 1);
        d := d + 1;
        continue;
      }
      var end := Walk(occupied, to, d);
      forall x, s, e | InStretch(occupied, first, to, x, s, e) && d <= x < end
        ensures s == d && e == end
      {
        WholeStretch(occupied, first, to, d, end, x, s, e);
      }
      if 1 <= end - d <= 2 && d - 1 in occupied && end in occupied {
        gaps := Emit(occupied, first, to, gaps, d, end);
      } else {
        Skip(occupied, first, to, gaps, d, end);
      }
      assert forall s, e | InStretch(occupied, first, to, end, s, e) :: Candidate(occupied, end);
      Skip(occupied, first, to, gaps, end, end + 1);
      d := end + 1;
    }
    forall x, s, e | InStretch(occupied, first, to, x, s, e)
      ensures Lists(gaps, x)
    {
      assert x < d;
    }
  }

  method ListOrphanMidweek(stays: seq<Stay>, first: Day, to: Day) returns (gaps: seq<Gap>)
    ensures var occupied := Occupied(stays, first - 7, to + 7);
            && Increasing(gaps) && (forall g | g in gaps :: IsGap(occupied, first, to, g))
            && forall x, s, e | InStretch(occupied, first, to, x, s, e) :: Lists(gaps, x)
  {
    var occupied := BuildOccupied(stays, first - 7, to + 7);
    gaps := ScanMidweek(occupied, first, to);
  }

  /** The neighbours need not be weekend nights: a free Tuesday between an occupied Monday and Wednesday is listed. */
  lemma NeighboursNeedNotBeWeekend()
    ensures var occupied := map[4 := 1, 6 := 2];
            Weekday(4) == 1 && Weekday(6) == 3 && IsOrphan(occupied, 0, 14, 5, 6)
  {
  }
}
