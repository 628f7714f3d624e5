/** Revenue by month of arrival, by weekday and by lead time: what each grouping conserves. */
module Adr {
  import opened Text
  import opened Nights
  import opened NightTables

  datatype Dimension = ByMonth | ByWeekday | ByLead | Other

  datatype Bucket = Month(index: int) | On(weekday: nat) | Lead(range: string)

  datatype Row = Row(gross: int, nights: nat)

  /** The days the weekday grouping looks at, 1 January of year 1 up to 1 January 9999. */
  const FIRST_DAY: Day := -719_162
  const LAST_DAY: Day := 2_932_532

  function LeadDays(known: Day, arrival: Day): nat {
    |Range(known, arrival)|
  }

  function LeadBucket(days: int): string {
    if days <= 3 then "0-3"
    else if days <= 14 then "4-14"
    else if days <= 45 then "15-45"
    else if days <= 90 then "46-90"
    else "91+"
  }

  /** A stay known `days` days before its arrival belongs under the label. */
  predicate InLead(title: string, days: int) {
    || (title == "0-3" && days <= 3)
    || (title == "4-14" && 4 <= days <= 14)
    || (title == "15-45" && 15 <= days <= 45)
    || (title == "46-90" && 46 <= days <= 90)
    || (title == "91+" && days >= 91)
  }

  /** Every number of days belongs under exactly one label, the one it gets. */
  lemma LeadIsLabelled(title: string, days: int)
    ensures title == LeadBucket(days) <==> InLead(title, days)
  {
    LabelsDiffer();
  }

  lemma LabelsDiffer()
    ensures "0-3" != "4-14" && "0-3" != "15-45" && "0-3" != "46-90" && "0-3" != "91+" && "4-14" != "15-45"
    ensures "4-14" != "46-90" && "4-14" != "91+" && "15-45" != "46-90" && "15-45" != "91+" && "46-90" != "91+"
  {
    assert "4-14"[1] != "46-90"[1];
    assert |"91+"| == |"0-3"| && "91+"[0] != "0-3"[0];
    assert |"15-45"| == |"46-90"| && "15-45"[0] != "46-90"[0];
  }

  /** The lead ranges partition the days: two leads share a range exactly when they lie between the same bounds. */
  lemma LeadRangesPartition(a: int, b: int)
    ensures LeadBucket(a) == LeadBucket(b) <==>
              (a <= 3 <==> b <= 3) && (a <= 14 <==> b <= 14) && (a <= 45 <==> b <= 45) && (a <= 90 <==> b <= 90)
  {
    assert LeadBucket(a)[0] == LeadBucket(b)[0] || LeadBucket(a) != LeadBucket(b);
    assert "0-3" != "4-14" && "15-45" != "0-3" && "4-14"[1] != "46-90"[1] && "46-90" != "0-3" && "91+" != "0-3";
  }

  // ---------- totals of a table ----------

  /** The sum of one column over all buckets. */
  ghost function SumOf(rows: map<Bucket, Row>, f: Row -> int): int
    decreases |rows|
  {
    if rows == map[] then 0
    else
      var k :| k in rows;
      f(rows[k]) + SumOf(rows - {k}, f)
  }

  lemma {:induction false} SumTakesAny(rows: map<Bucket, Row>, f: Row -> int, k: Bucket)
    requires k in rows
    ensures SumOf(rows, f) == f(rows[k]) + SumOf(rows - {k}, f)
    decreases |rows|
  {
    var j :| j in rows && SumOf(rows, f) == f(rows[j]) + SumOf(rows - {j}, f);
    if j != k {
      SumTakesAny(rows - {j}, f, k);
      SumTakesAny(rows - {k}, f, j);
      assert rows - {j} - {k} == rows - {k} - {j};
    }
  }

  function Gross(r: Row): int {
    r.gross
  }

  function NightsIn(r: Row): int {
    r.nights
  }

  function At(rows: map<Bucket, Row>, k: Bucket): Row {
    if k in rows then rows[k] else Row(0, 0)
  }

  function Add(rows: map<Bucket, Row>, k: Bucket, gross: int, nights: nat): map<Bucket, Row> {
    rows[k := Row(At(rows, k).gross + gross, At(rows, k).nights + nights)]
  }

  lemma AddSums(rows: map<Bucket, Row>, k: Bucket, gross: int, nights: nat)
    ensures SumOf(Add(rows, k, gross, nights), Gross) == SumOf(rows, Gross) + gross
    ensures SumOf(Add(rows, k, gross, nights), NightsIn) == SumOf(rows, NightsIn) + nights
  {
    var more := Add(rows, k, gross, nights);
    SumTakesAny(more, Gross, k);
    SumTakesAny(more, NightsIn, k);
    assert more - {k} == rows - {k};
    if k in rows {
      SumTakesAny(rows, Gross, k);
      SumTakesAny(rows, NightsIn, k);
    } else {
      assert rows - {k} == rows;
    }
  }

  // ---------- what each bucket and each table should hold ----------

  /** The bucket of a whole stay in the two groupings that do not split it. */
  function BucketOf(st: Stay, dim: Dimension, monthOf: Day -> int): Bucket {
    if dim == ByMonth then Month(monthOf(st.start)) else Lead(LeadBucket(LeadDays(st.known, st.start)))
  }

  /** The whole stay counts under `k`: under the month of its first night, or under its lead label. */
  predicate Belongs(k: Bucket, st: Stay, dim: Dimension, monthOf: Day -> int) {
    match k
    case Month(index) => dim == ByMonth && index == monthOf(st.start)
    case Lead(title) => dim == ByLead && InLead(title, if st.start > st.known then st.start - st.known else 0)
    case On(_) => false
  }

  lemma BucketIsOwn(k: Bucket, st: Stay, dim: Dimension, monthOf: Day -> int)
    requires dim == ByMonth || dim == ByLead
    ensures k == BucketOf(st, dim, monthOf) <==> Belongs(k, st, dim, monthOf)
  {
    if k.Lead? {
      LeadIsLabelled(k.range, LeadDays(st.known, st.start));
    }
  }

  function GrossOf(gross: map<int, int>, st: Stay): int {
    if st.id in gross then gross[st.id] else 0
  }

  /** What one stay adds to one bucket. */
  function Part(st: Stay, gross: map<int, int>, dim: Dimension, monthOf: Day -> int, k: Bucket): Row {
    if NightCount(st) < 1 then Row(0, 0)
    else if dim == ByWeekday then
      Spread(NightsOf(st, FIRST_DAY, LAST_DAY), Quo(GrossOf(gross, st), NightCount(st)), k)
    else if Belongs(k, st, dim, monthOf) then Row(GrossOf(gross, st), NightCount(st))
    else Row(0, 0)
  }

  /** What a bucket holds after all stays. */
  function Held(stays: seq<Stay>, gross: map<int, int>, dim: Dimension, monthOf: Day -> int, k: Bucket): Row {
    if stays == [] then Row(0, 0)
    else Sum(Held(stays[..|stays| - 1], gross, dim, monthOf, k), Part(stays[|stays| - 1], gross, dim, monthOf, k))
  }

  /** Gross and nights of all stays that have a night at all. */
  function TotalGross(stays: seq<Stay>, gross: map<int, int>): int {
    if stays == [] then 0
    else
      var last := stays[|stays| - 1];
      TotalGross(stays[..|stays| - 1], gross) + if NightCount(last) < 1 then 0 else GrossOf(gross, last)
  }

  function TotalNights(stays: seq<Stay>): nat {
    if stays == [] then 0 else TotalNights(stays[..|stays| - 1]) + NightCount(stays[|stays| - 1])
  }

  /** One cent less than the nights of each stay. */
  function Slack(stays: seq<Stay>): nat {
    if stays == [] then 0
    else Slack(stays[..|stays| - 1]) + var n := NightCount(stays[|stays| - 1]); if n < 1 then 0 else n - 1
  }

  /** Nothing of the stay lies outside the days the weekday grouping looks at. */
  predicate InCalendar(st: Stay) {
    |NightsOf(st, FIRST_DAY, LAST_DAY)| == NightCount(st)
  }

  /** Every bucket holds what it should. */
  ghost predicate Exact(rows: map<Bucket, Row>, stays: seq<Stay>, gross: map<int, int>, dim: Dimension,
                        monthOf: Day -> int) {
    forall k :: At(rows, k) == Held(stays, gross, dim, monthOf, k)
  }

  /** The table totals: nights agree in every grouping, gross up to the rounding of the weekday grouping. */
  predicate Conserves(grossSum: int, nightsSum: int, stays: seq<Stay>, gross: map<int, int>, dim: Dimension) {
    && nightsSum == TotalNights(stays)
    && if dim == ByWeekday then TotalGross(stays, gross) - Slack(stays) <= grossSum <= TotalGross(stays, gross)
       else grossSum == TotalGross(stays, gross)
  }

  lemma QuoLosesLittle(g: nat, n: nat)
    requires n >= 1
    ensures g - (n - 1) <= n * Quo(g, n) <= g
  {
  }

  function Sum(a: Row, b: Row): Row {
    Row(a.gross + b.gross, a.nights + b.nights)
  }

  /** A row for one bucket, nothing for the others. */
  function Only(own: Bucket, row: Row, k: Bucket): Row {
    if k == own then row else Row(0, 0)
  }

  lemma AddAt(rows: map<Bucket, Row>, own: Bucket, gross: int, nights: nat)
    ensures forall k :: At(Add(rows, own, gross, nights), k) == Sum(At(rows, k), Only(own, Row(gross, nights), k))
  {
  }

  lemma SumAssoc(a: Row, b: Row, c: Row)
    ensures Sum(Sum(a, b), c) == Sum(a, Sum(b, c)) && Sum(a, Row(0, 0)) == a
  {
  }

  /** `each`, added up `n` times. */
  function Times(n: nat, each: int): int {
    if n == 0 then 0 else Times(n - 1, each) + each
  }

  lemma {:induction false} TimesIsProduct(n: nat, each: int)
    ensures Times(n, each) == n * each
  {
    if n > 0 {
      TimesIsProduct(n - 1, each);
    }
  }

  /** `nights` nights of `each` cents, counted under their weekday. */
  function Spread(nights: seq<Day>, each: int, k: Bucket): Row {
    if k.On? then Row(Times(CountOn(nights, k.weekday), each), CountOn(nights, k.weekday)) else Row(0, 0)
  }

  lemma SpreadOneMore(nights: seq<Day>, d: Day, each: int, k: Bucket)
    ensures Spread(nights + [d], each, k) == Sum(Spread(nights, each, k), Only(On(Weekday(d)), Row(each, 1), k))
  {
    assert (nights + [d])[..|nights|] == nights;
  }

  lemma ExactOneMore(rows: map<Bucket, Row>, more: map<Bucket, Row>, stays: seq<Stay>, st: Stay, gross: map<int, int>,
                     dim: Dimension, monthOf: Day -> int)
    requires Exact(rows, stays, gross, dim, monthOf)
    requires forall k :: At(more, k) == Sum(At(rows, k), Part(st, gross, dim, monthOf, k))
    ensures Exact(more, stays + [st], gross, dim, monthOf)
  {
    hide Part;
    assert (stays + [st])[..|stays|] == stays;
  }

  /** What a table gains from one stay, in gross and in nights. */
  function GainedGross(st: Stay, gross: int, dim: Dimension): int {
    if NightCount(st) < 1 then 0
    else if dim == ByWeekday then Times(|NightsOf(st, FIRST_DAY, LAST_DAY)|, Quo(gross, NightCount(st)))
    else gross
  }

  function GainedNights(st: Stay, dim: Dimension): nat {
    if NightCount(st) < 1 then 0
    else if dim == ByWeekday then |NightsOf(st, FIRST_DAY, LAST_DAY)|
    else NightCount(st)
  }

  lemma ConservesOneMore(grossSum: int, nightsSum: int, stays: seq<Stay>, st: Stay, gross: map<int, int>,
                         dim: Dimension)
    requires Conserves(grossSum, nightsSum, stays, gross, dim) && InCalendar(st) && GrossOf(gross, st) >= 0
    ensures Conserves(grossSum + GainedGross(st, GrossOf(gross, st), dim), nightsSum + GainedNights(st, dim),
                      stays + [st], gross, dim)
  {
    hide NightCount, NightsOf, Quo, GrossOf;
    assert (stays + [st])[..|stays|] == stays;
    if NightCount(st) >= 1 {
      TimesIsProduct(NightCount(st), Quo(GrossOf(gross, st), NightCount(st)));
      QuoLosesLittle(GrossOf(gross, st), NightCount(st));
    }
  }

  /** A supported grouping never fails; an unknown one fails as soon as some stay has a night. */
  method ADRByDimension(stays: seq<Stay>, gross: map<int, int>, dim: Dimension, monthOf: Day -> int)
    returns (rows: Option<map<Bucket, Row>>)
    ensures rows.Some? <==> dim != Other || forall st | st in stays :: NightCount(st) < 1
    ensures rows.Some? && dim != Other ==> Exact(rows.value, stays, gross, dim, monthOf)
    ensures rows.Some? && dim != Other && Plain(stays, gross) ==>
              Conserves(SumOf(rows.value, Gross), SumOf(rows.value, NightsIn), stays, gross, dim)
  {
    hide Part, GainedGross, GainedNights, Held, Conserves, InCalendar, NightCount, GrossOf;
    var table: map<Bucket, Row> := map[];
    NothingYet(gross, dim, monthOf);
    for n := 0 to |stays|
      invariant dim == Other ==> forall st | st in stays[..n] :: NightCount(st) < 1
      invariant dim != Other ==> Exact(table, stays[..n], gross, dim, monthOf)
      invariant dim != Other && Plain(stays[..n], gross) ==>
                  Conserves(SumOf(table, Gross), SumOf(table, NightsIn), stays[..n], gross, dim)
    {
      var st := stays[n];
      assert stays[..n + 1] == stays[..n] + [st];
      if dim == Other {
        if NightCount(st) >= 1 {
          assert st in stays;
          return None;
        }
      } else {
        ghost var before := table;
        table := Group(table, st, gross, dim, monthOf);
        ExactOneMore(before, table, stays[..n], st, gross, dim, monthOf);
        if Plain(stays[..n + 1], gross) {
          assert st in stays[..n + 1] && forall x | x in stays[..n] :: x in stays[..n + 1];
          ConservesOneMore(SumOf(before, Gross), SumOf(before, NightsIn), stays[..n], st, gross, dim);
        }
      }
    }
    assert stays[..|stays|] == stays;
    return Some(table);
  }

  /** Every stay lies in the calendar and its gross is not negative. */
  predicate Plain(stays: seq<Stay>, gross: map<int, int>) {
    forall st | st in stays :: InCalendar(st) && GrossOf(gross, st) >= 0
  }

  lemma NothingYet(gross: map<int, int>, dim: Dimension, monthOf: Day -> int)
    ensures Exact(map[], [], gross, dim, monthOf)
            && Conserves(SumOf(map[], Gross), SumOf(map[], NightsIn), [], gross, dim)
  {
  }

  /** One stay in its bucket, or spread over its weekdays; without a night it is passed over. */
  method Group(rows: map<Bucket, Row>, st: Stay, gross: map<int, int>, dim: Dimension, monthOf: Day -> int)
    returns (more: map<Bucket, Row>)
    requires dim != Other
    ensures forall k :: At(more, k) == Sum(At(rows, k), Part(st, gross, dim, monthOf, k))
    ensures SumOf(more, Gross) == SumOf(rows, Gross) + GainedGross(st, GrossOf(gross, st), dim)
    ensures SumOf(more, NightsIn) == SumOf(rows, NightsIn) + GainedNights(st, dim)
  {
    hide NightsOf, NightCount, Quo, GrossOf, Spread, SumOf, Times, BucketOf, Belongs, At, Add;
    more := rows;
    if NightCount(st) < 1 {
      return;
    }
    if dim == ByWeekday {
      var nights := StayNightDatesInRange(st, FIRST_DAY, LAST_DAY);
      more := SpreadNights(rows, nights, Quo(GrossOf(gross, st), NightCount(st)));
    } else {
      var own := BucketOf(st, dim, monthOf);
      AddSums(rows, own, GrossOf(gross, st), NightCount(st));
      AddAt(rows, own, GrossOf(gross, st), NightCount(st));
      forall k
        ensures k == own <==> Belongs(k, st, dim, monthOf)
      {
        BucketIsOwn(k, st, dim, monthOf);
      }
      more := Add(rows, own, GrossOf(gross, st), NightCount(st));
    }
  }

  method SpreadNights(rows: map<Bucket, Row>, nights: seq<Day>, each: int) returns (more: map<Bucket, Row>)
    ensures forall k :: At(more, k) == Sum(At(rows, k), Spread(nights, each, k))
    ensures SumOf(more, Gross) == SumOf(rows, Gross) + Times(|nights|, each)
    ensures SumOf(more, NightsIn) == SumOf(rows, NightsIn) + |nights|
  {
    hide SumOf, Spread, At, Add, Sum, Only;
    more := rows;
    SpreadNothing(each);
    forall k
      ensures At(rows, k) == Sum(At(rows, k), Spread(nights[..0], each, k))
    {
      SumAssoc(At(rows, k), Row(0, 0), Row(0, 0));
    }
    for i := 0 to |nights|
      invariant forall k :: At(more, k) == Sum(At(rows, k), Spread(nights[..i], each, k))
      invariant SumOf(more, Gross) == SumOf(rows, Gross) + Times(i, each)
      invariant SumOf(more, NightsIn) == SumOf(rows, NightsIn) + i
    {
      var own := On(Weekday(nights[i]));
      assert nights[..i + 1] == nights[..i] + [nights[i]];
      AddSums(more, own, each, 1);
      AddAt(more, own, each, 1);
      forall k
        ensures At(Add(more, own, each, 1), k) == Sum(At(rows, k), Spread(nights[..i + 1], each, k))
      {
        SpreadOneMore(nights[..i], nights[i], each, k);
        SumAssoc(At(rows, k), Spread(nights[..i], each, k), Only(own, Row(each, 1), k));
      }
      more := Add(more, own, each, 1);
    }
    assert nights[..|nights|] == nights;
  }

  lemma SpreadNothing(each: int)
    ensures forall k :: Spread([], each, k) == Row(0, 0)
  {
  }
}
