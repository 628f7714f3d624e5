/** Which database snapshots a prune keeps, and the prune itself. */
module Retention {
  import opened Text

  /** Instants count nanoseconds from 1970-01-01 UTC. */
  type Instant = int

  const DAY := 86_400_000_000_000

  function DayOf(t: Instant): int {
    t / DAY
  }

  // ---------- the policy ----------

  function Newer(snaps: set<Instant>, s: Instant): set<Instant> {
    set x | x in snaps && x > s
  }

  /** Among the newest `keepHourly` of the last 24 hours. */
  predicate Hourly(now: Instant, keepHourly: int, snaps: set<Instant>, s: Instant) {
    s > now - DAY && |Newer(snaps, s)| < keepHourly
  }

  /** The newest of its UTC day, and not older than `keepDaily` days. */
  predicate Daily(now: Instant, keepDaily: int, snaps: set<Instant>, s: Instant) {
    s >= now - keepDaily * DAY && forall x | x in snaps && x > s :: DayOf(x) != DayOf(s)
  }

  function Keep(now: Instant, keepHourly: int, keepDaily: int, snaps: set<Instant>): set<Instant> {
    set s | s in snaps && (Hourly(now, keepHourly, snaps, s) || Daily(now, keepDaily, snaps, s))
  }

  // ---------- counting ----------

  lemma {:induction false} Greatest(s: set<Instant>) returns (m: Instant)
    requires s != {}
    ensures m in s && forall x | x in s :: x <= m
  {
    m := SomeElement(s);
    if s == {m} {
      assert forall x | x in s :: x == m;
    } else {
      var n := Greatest(s - {m});
      assert forall x | x in s :: x == m || x in s - {m};
      m := if n > m then n else m;
    }
  }

  /** The elements with fewer than `k` greater ones. */
  function Top(t: set<Instant>, k: int): set<Instant> {
    set x | x in t && |Newer(t, x)| < k
  }

  lemma BelowGreatest(t: set<Instant>, m: Instant, x: Instant)
    requires m in t && x in t && x != m && forall y | y in t :: y <= m
    ensures |Newer(t, x)| == |Newer(t - {m}, x)| + 1
  {
    assert Newer(t, x) == Newer(t - {m}, x) + {m};
  }

  lemma TopOfMore(t: set<Instant>, m: Instant, k: int)
    requires m in t && (forall y | y in t :: y <= m) && k > 0
    ensures Top(t - {m}, k - 1) + {m} <= Top(t, k) && m !in Top(t - {m}, k - 1)
  {
    assert Newer(t, m) == {};
    forall x | x in Top(t - {m}, k - 1)
      ensures x in Top(t, k)
    {
      BelowGreatest(t, m, x);
    }
  }

  lemma WithAndWithout<T>(s: set<T>, x: T)
    requires x !in s
    ensures |s + {x}| == |s| + 1
  {
  }

  /** There are `k` of them, if there are `k` elements. */
  lemma {:induction false} TopElements(t: set<Instant>, k: nat)
    requires |t| >= k
    ensures |Top(t, k)| >= k
  {
    hide Top;
    if k > 0 {
      var m := Greatest(t);
      WithAndWithout(t - {m}, m);
      assert t - {m} + {m} == t;
      TopElements(t - {m}, k - 1);
      TopOfMore(t, m, k);
      WithAndWithout(Top(t - {m}, k - 1), m);
      SubsetSizes(Top(t - {m}, k - 1) + {m}, Top(t, k));
    }
  }

  /** An injection cannot shrink. */
  lemma {:induction false} InjectionBounds(a: set<Instant>, b: set<int>, f: Instant -> int)
    requires forall x | x in a :: f(x) in b
    requires forall x, y | x in a && y in a && x != y :: f(x) != f(y)
    ensures |a| <= |b|
  {
    if a != {} {
      var x := SomeElement(a);
      InjectionBounds(a - {x}, b - {f(x)}, f);
    }
  }

  function Range(lo: int, hi: int): (r: set<int>)
    requires lo <= hi
    ensures |r| == hi - lo && forall x :: x in r <==> lo <= x < hi
    decreases hi - lo
  {
    if lo == hi then {} else {lo} + Range(lo + 1, hi)
  }

  // ---------- pruning again and again ----------

  /** What an earlier prune dropped would not be kept later, and was not needed to judge the rest. */
  lemma DroppedStaysDropped(t1: Instant, t2: Instant, h: int, d: int, s: set<Instant>, x: set<Instant>, n: set<Instant>,
                            e: Instant)
    requires t1 <= t2 && Keep(t1, h, d, s) <= x <= s && e in s && e !in x
    ensures e !in Keep(t2, h, d, s + n)
    ensures e > t2 - DAY ==> |Newer(x, e)| >= h
    ensures e >= t2 - d * DAY ==> exists y :: y in x && y > e && DayOf(y) == DayOf(e)
  {
    if e > t2 - DAY {
      var t := Newer(s, e);
      if h > 0 {
        TopElements(t, h);
        var top := Top(t, h);
        forall y | y in top ensures y in Newer(x, e) {
          assert Newer(s, y) == Newer(t, y);
        }
        SubsetSizes(top, Newer(x, e));
      }
      SubsetSizes(Newer(x, e), Newer(s + n, e));
    }
    if e >= t2 - d * DAY {
      var later := set y | y in s && y > e && DayOf(y) == DayOf(e);
      assert !Daily(t1, d, s, e);
      var y :| y in s && y > e && DayOf(y) == DayOf(e);
      assert y in later;
      var m := Greatest(later);
      forall z | z in s && z > m ensures DayOf(z) != DayOf(m) {
        assert DayOf(z) == DayOf(e) ==> z in later;
      }
      assert Daily(t1, d, s, m);
      assert m in x && m in s + n;
    }
  }

  /**
   * Pruning a directory from which an earlier prune, finished or stopped half way, removed what it would not keep
   * keeps exactly what one prune over everything ever taken would keep.
   */
  lemma IncrementalEqualsBatch(t1: Instant, t2: Instant, h: int, d: int, s: set<Instant>, x: set<Instant>,
                               n: set<Instant>)
    requires t1 <= t2 && Keep(t1, h, d, s) <= x <= s
    ensures Keep(t2, h, d, x + n) == Keep(t2, h, d, s + n)
  {
    forall e ensures e in Keep(t2, h, d, x + n) <==> e in Keep(t2, h, d, s + n) {
      if e in s && e !in x {
        DroppedStaysDropped(t1, t2, h, d, s, x, n, e);
        if e in n {
          SameVerdict(t1, t2, h, d, s, x, n, e);
        }
      } else if e in x + n {
        SameVerdict(t1, t2, h, d, s, x, n, e);
      }
    }
  }

  lemma SameVerdict(t1: Instant, t2: Instant, h: int, d: int, s: set<Instant>, x: set<Instant>, n: set<Instant>,
                    e: Instant)
    requires t1 <= t2 && Keep(t1, h, d, s) <= x <= s && e in x + n
    ensures Hourly(t2, h, x + n, e) <==> Hourly(t2, h, s + n, e)
    ensures Daily(t2, d, x + n, e) <==> Daily(t2, d, s + n, e)
  {
    SubsetSizes(Newer(x + n, e), Newer(s + n, e));
    if e > t2 - DAY && Newer(x + n, e) != Newer(s + n, e) {
      var y :| y in Newer(s + n, e) && y !in Newer(x + n, e);
      DroppedStaysDropped(t1, t2, h, d, s, x, n, y);
      SubsetSizes(Newer(x, y), Newer(x + n, e));
    }
    if e >= t2 - d * DAY && !Daily(t2, d, s + n, e) {
      var y :| y in s + n && y > e && DayOf(y) == DayOf(e);
      if y !in x + n {
        DroppedStaysDropped(t1, t2, h, d, s, x, n, y);
        var z :| z in x && z > y && DayOf(z) == DayOf(y);
        assert z in x + n;
      } else {
        assert y in x + n;
      }
    }
  }

  /** One scheduler turn: new snapshots appear, then a prune at `now` that may stop early leaves `left`. */
  datatype Turn = Turn(now: Instant, taken: set<Instant>, left: set<Instant>)

  function History(turns: seq<Turn>): set<Instant> {
    if turns == [] then {} else History(turns[..|turns| - 1]) + turns[|turns| - 1].taken
  }

  function Left(turns: seq<Turn>): set<Instant> {
    if turns == [] then {} else turns[|turns| - 1].left
  }

  /** The clock never goes back, and no prune removes what it should keep or invents a file. */
  predicate IsRun(h: int, d: int, turns: seq<Turn>) {
    turns == [] ||
    var init, last := turns[..|turns| - 1], turns[|turns| - 1];
    && IsRun(h, d, init) && (init != [] ==> init[|init| - 1].now <= last.now)
    && Keep(last.now, h, d, Left(init) + last.taken) <= last.left <= Left(init) + last.taken
  }

  /**
   * Over any run, however many prunes stopped half way, what the last prune decides to keep is what one prune over
   * the full history would keep; nothing it would keep has ever been removed.
   */
  lemma {:induction false} RunEqualsBatch(h: int, d: int, turns: seq<Turn>)
    requires IsRun(h, d, turns) && turns != []
    ensures var last := turns[|turns| - 1];
            && Keep(last.now, h, d, Left(turns[..|turns| - 1]) + last.taken) == Keep(last.now, h, d, History(turns))
            && Keep(last.now, h, d, History(turns)) <= last.left <= History(turns)
  {
    var init, last := turns[..|turns| - 1], turns[|turns| - 1];
    if init != [] {
      RunEqualsBatch(h, d, init);
      IncrementalEqualsBatch(init[|init| - 1].now, last.now, h, d, History(init), Left(init), last.taken);
    }
  }

  // ---------- how many files remain ----------

  function HourlySet(now: Instant, h: int, snaps: set<Instant>): set<Instant> {
    set s | s in snaps && Hourly(now, h, snaps, s)
  }

  function DailySet(now: Instant, d: int, snaps: set<Instant>): set<Instant> {
    set s | s in snaps && Daily(now, d, snaps, s)
  }

  /** Those of the hourly bucket differ in their rank. */
  lemma HourlyIsFew(now: Instant, h: nat, snaps: set<Instant>)
    ensures |HourlySet(now, h, snaps)| <= h
  {
    hide Newer;
    var hourly := HourlySet(now, h, snaps);
    forall x, y | x in hourly && y in hourly && x != y
      ensures |Newer(snaps, x)| != |Newer(snaps, y)|
    {
      RankDiffers(snaps, if x < y then x else y, if x < y then y else x);
    }
    InjectionBounds(hourly, Range(0, h), x => |Newer(snaps, x)|);
  }

  /** Those of the daily bucket differ in their day. */
  lemma DailyIsFew(now: Instant, d: nat, snaps: set<Instant>)
    requires forall s | s in snaps :: s <= now
    ensures |DailySet(now, d, snaps)| <= d + 1
  {
    var daily := DailySet(now, d, snaps);
    assert DayOf(now - d * DAY) == DayOf(now) - d;
    forall x | x in daily
      ensures DayOf(now) - d <= DayOf(x) < DayOf(now) + 1
    {
      DayIsMonotone(now - d * DAY, x);
      DayIsMonotone(x, now);
    }
    DaysDiffer(now, d, snaps);
    hide DayOf, DailySet;
    InjectionBounds(daily, Range(DayOf(now) - d, DayOf(now) + 1), x => DayOf(x));
  }

  lemma DaysDiffer(now: Instant, d: nat, snaps: set<Instant>)
    ensures forall x, y | x in DailySet(now, d, snaps) && y in DailySet(now, d, snaps) && x != y :: DayOf(x) != DayOf(y)
  {
    hide DayOf;
    forall x, y | x in DailySet(now, d, snaps) && y in DailySet(now, d, snaps) && x != y
      ensures DayOf(x) != DayOf(y)
    {
      assert Daily(now, d, snaps, if x < y then x else y);
    }
  }

  lemma UnionBound<T>(a: set<T>, b: set<T>)
    ensures |a + b| <= |a| + |b|
  {
    assert a + b == a + (b - a);
    SubsetSizes(b - a, b);
  }

  lemma KeepIsBoth(now: Instant, h: nat, d: nat, snaps: set<Instant>)
    ensures Keep(now, h, d, snaps) == HourlySet(now, h, snaps) + DailySet(now, d, snaps)
  {
    hide Hourly, Daily;
  }

  /** Without stamps from the future at most `keepHourly + keepDaily + 1` snapshots are kept. */
  lemma FewRemain(now: Instant, h: nat, d: nat, snaps: set<Instant>)
    requires forall s | s in snaps :: s <= now
    ensures |Keep(now, h, d, snaps)| <= h + d + 1
  {
    hide Keep, HourlySet, DailySet;
    KeepIsBoth(now, h, d, snaps);
    HourlyIsFew(now, h, snaps);
    DailyIsFew(now, d, snaps);
    UnionBound(HourlySet(now, h, snaps), DailySet(now, d, snaps));
  }

  lemma DayIsMonotone(a: Instant, b: Instant)
    requires a <= b
    ensures DayOf(a) <= DayOf(b)
  {
  }

  lemma RankDiffers(snaps: set<Instant>, x: Instant, y: Instant)
    requires y in snaps && x < y
    ensures |Newer(snaps, y)| < |Newer(snaps, x)|
  {
    assert y in Newer(snaps, x) && y !in Newer(snaps, y);
    SubsetSizes(Newer(snaps, y) + {y}, Newer(snaps, x));
  }

  // ---------- the prune ----------

  datatype Snap = Snap(path: string, ts: Instant)

  /** Newest first, all stamps distinct. */
  predicate Descending(snaps: seq<Snap>) {
    forall i, j :: 0 <= i < j < |snaps| ==> snaps[i].ts > snaps[j].ts
  }

  function Stamps(snaps: seq<Snap>): set<Instant> {
    set s | s in snaps :: s.ts
  }

  lemma NothingDescends()
    ensures Descending([])
  {
  }

  /** In descending order a snapshot's index is the number of newer ones. */
  lemma IndexIsRank(snaps: seq<Snap>, i: nat)
    requires Descending(snaps) && i < |snaps|
    ensures |Newer(Stamps(snaps), snaps[i].ts)| == i
  {
    var newer := Newer(Stamps(snaps), snaps[i].ts);
    forall x ensures x in newer <==> x in Stamps(snaps[..i]) {
      if x in newer {
        var s :| s in snaps && s.ts == x;
        var j :| 0 <= j < |snaps| && snaps[j] == s;
        assert snaps[..i][j] == s;
      }
      if x in Stamps(snaps[..i]) {
        var s :| s in snaps[..i] && s.ts == x;
        var j :| 0 <= j < i && snaps[..i][j] == s;
        assert snaps[j] == s;
      }
    }
    assert newer == Stamps(snaps[..i]);
    StampsCount(snaps[..i]);
  }

  lemma StampsOfMore(init: seq<Snap>, last: Snap)
    requires Descending(init + [last])
    ensures Stamps(init + [last]) == Stamps(init) + {last.ts} && last.ts !in Stamps(init) && Descending(init)
  {
    var snaps := init + [last];
    assert snaps[|init|] == last && forall i | 0 <= i < |init| :: snaps[i] == init[i];
    forall s | s in init
      ensures s.ts != last.ts
    {
      var i :| 0 <= i < |init| && init[i] == s;
      assert snaps[i].ts > snaps[|init|].ts;
    }
  }

  lemma {:induction false} StampsCount(snaps: seq<Snap>)
    requires Descending(snaps)
    ensures |Stamps(snaps)| == |snaps|
  {
    if snaps == [] {
      assert Stamps(snaps) == {};
    } else {
      hide Stamps, Descending;
      var init, last := snaps[..|snaps| - 1], snaps[|snaps| - 1];
      assert snaps == init + [last];
      StampsOfMore(init, last);
      StampsCount(init);
      WithAndWithout(Stamps(init), last.ts);
    }
  }

  lemma ValuesAreStamps(files: map<string, Instant>, snaps: seq<Snap>)
    requires forall s :: s in snaps <==> s.path in files && files[s.path] == s.ts
    ensures files.Values == Stamps(snaps)
  {
    forall x | x in files.Values ensures x in Stamps(snaps) {
      var p :| p in files && files[p] == x;
      assert Snap(p, x) in snaps;
    }
  }

  predicate FirstOfDay(snaps: seq<Snap>, n: nat)
    requires n < |snaps|
  {
    forall i | 0 <= i < n :: DayOf(snaps[i].ts) != DayOf(snaps[n].ts)
  }

  /** Newest first, the first of a day is the newest of that day. */
  lemma FirstIsDaily(snaps: seq<Snap>, n: nat, now: Instant, keepDaily: int)
    requires Descending(snaps) && n < |snaps|
    ensures Daily(now, keepDaily, Stamps(snaps), snaps[n].ts) <==>
              snaps[n].ts >= now - keepDaily * DAY && FirstOfDay(snaps, n)
  {
    forall i | 0 <= i < n ensures snaps[i].ts in Stamps(snaps) && snaps[i].ts > snaps[n].ts {
      assert snaps[i] in snaps;
    }
    forall x | x in Stamps(snaps) && x > snaps[n].ts ensures exists i :: 0 <= i < n && snaps[i].ts == x {
      var s :| s in snaps && s.ts == x;
      var i :| 0 <= i < |snaps| && snaps[i] == s;
    }
  }

  lemma InsertedDescends(snaps: seq<Snap>, s: Snap, i: nat)
    requires Descending(snaps) && i <= |snaps| && (forall j | 0 <= j < i :: snaps[j].ts > s.ts)
    requires i < |snaps| ==> snaps[i].ts < s.ts
    ensures Descending(snaps[..i] + [s] + snaps[i..])
    ensures forall x :: x in snaps[..i] + [s] + snaps[i..] <==> x == s || x in snaps
  {
    assert snaps == snaps[..i] + snaps[i..];
  }

  method SortNewestFirst(files: map<string, Instant>) returns (snaps: seq<Snap>)
    requires forall p, q | p in files && q in files && p != q :: files[p] != files[q]
    ensures Descending(snaps)
    ensures forall s :: s in snaps <==> s.path in files && files[s.path] == s.ts
  {
    hide Descending;
    snaps := [];
    var rest := files.Keys;
    assert Descending(snaps) by {
      NothingDescends();
    }
    while rest != {}
      invariant rest <= files.Keys && Descending(snaps)
      invariant forall s :: s in snaps <==> s.path in files && s.path !in rest && files[s.path] == s.ts
      decreases |rest|
    {
      var path := Pick(rest);
      rest := rest - {path};
      var s := Snap(path, files[path]);
      var i := 0;
      while i < |snaps| && snaps[i].ts > s.ts
        invariant i <= |snaps| && forall j | 0 <= j < i :: snaps[j].ts > s.ts
      {
        i := i + 1;
      }
      assert i < |snaps| ==> snaps[i] in snaps;
      InsertedDescends(snaps, s, i);
      snaps := snaps[..i] + [s] + snaps[i..];
    }
  }

  /** The hourly bucket: the newest `keepHourly` of the last 24 hours. */
  method HourlyBucket(snaps: seq<Snap>, now: Instant, keepHourly: int) returns (keep: set<Instant>)
    requires Descending(snaps)
    ensures forall i | 0 <= i < |snaps| :: snaps[i].ts in keep <==> Hourly(now, keepHourly, Stamps(snaps), snaps[i].ts)
  {
    keep := {};
    var hourCutoff, kept, n := now - DAY, 0, 0;
    while n < |snaps|
      invariant n <= |snaps| && 0 <= kept <= n
      invariant n > 0 && snaps[n - 1].ts > hourCutoff ==> kept == n
      invariant forall i | 0 <= i < |snaps| ::
        snaps[i].ts in keep <==> i < n && Hourly(now, keepHourly, Stamps(snaps), snaps[i].ts)
    {
      if kept >= keepHourly {
        break;
      }
      IndexIsRank(snaps, n);
      if snaps[n].ts > hourCutoff {
        keep := keep + {snaps[n].ts};
        kept := kept + 1;
      }
      n := n + 1;
    }
    forall i | 0 <= i < |snaps| ensures snaps[i].ts in keep <==> Hourly(now, keepHourly, Stamps(snaps), snaps[i].ts) {
      IndexIsRank(snaps, i);
    }
  }

  /** The days of the first `n` snapshots. */
  ghost predicate DaysOf(snaps: seq<Snap>, n: nat, days: set<int>)
    requires n <= |snaps|
  {
    && (forall i | 0 <= i < n :: DayOf(snaps[i].ts) in days)
    && (forall day | day in days :: exists i :: 0 <= i < n && DayOf(snaps[i].ts) == day)
  }

  lemma UnseenIsFirst(snaps: seq<Snap>, n: nat, days: set<int>)
    requires n < |snaps| && DaysOf(snaps, n, days)
    ensures DayOf(snaps[n].ts) !in days <==> FirstOfDay(snaps, n)
    ensures DaysOf(snaps, n + 1, days + {DayOf(snaps[n].ts)})
  {
    hide DayOf;
    forall day | day in days + {DayOf(snaps[n].ts)}
      ensures exists i :: 0 <= i < n + 1 && DayOf(snaps[i].ts) == day
    {
      if day in days {
        var i :| 0 <= i < n && DayOf(snaps[i].ts) == day;
      }
    }
  }

  /** The first snapshots of their days among the first `n` are kept, and nothing else. */
  ghost predicate KeepsFirsts(snaps: seq<Snap>, n: nat, keep: set<Instant>) {
    forall i | 0 <= i < |snaps| :: snaps[i].ts in keep <==> i < n && FirstOfDay(snaps, i)
  }

  lemma KeepsOneMore(snaps: seq<Snap>, n: nat, keep: set<Instant>)
    requires Descending(snaps) && n < |snaps| && KeepsFirsts(snaps, n, keep)
    ensures KeepsFirsts(snaps, n + 1, if FirstOfDay(snaps, n) then keep + {snaps[n].ts} else keep)
  {
    hide FirstOfDay;
  }

  /** Beyond `n` everything is too old. */
  lemma FirstsAreDaily(snaps: seq<Snap>, n: nat, keep: set<Instant>, now: Instant, keepDaily: int)
    requires Descending(snaps) && n <= |snaps| && KeepsFirsts(snaps, n, keep)
    requires forall i | 0 <= i < |snaps| :: snaps[i].ts >= now - keepDaily * DAY <==> i < n
    ensures forall i | 0 <= i < |snaps| :: snaps[i].ts in keep <==> Daily(now, keepDaily, Stamps(snaps), snaps[i].ts)
  {
    hide FirstOfDay, Daily;
    forall i | 0 <= i < |snaps|
      ensures snaps[i].ts in keep <==> Daily(now, keepDaily, Stamps(snaps), snaps[i].ts)
    {
      FirstIsDaily(snaps, i, now, keepDaily);
    }
  }

  /** The daily bucket: the newest of each UTC day, over the last `keepDaily` days. */
  method DailyBucket(snaps: seq<Snap>, now: Instant, keepDaily: int) returns (keep: set<Instant>)
    requires Descending(snaps)
    ensures forall i | 0 <= i < |snaps| :: snaps[i].ts in keep <==> Daily(now, keepDaily, Stamps(snaps), snaps[i].ts)
  {
    hide DaysOf, KeepsFirsts, DayOf, FirstOfDay, Daily, Stamps;
    keep := {};
    var dayCutoff, n := now - keepDaily * DAY, 0;
    var seenDay: set<int> := {};
    assert DaysOf(snaps, 0, seenDay) && KeepsFirsts(snaps, 0, keep) by {
      NothingSeen(snaps);
    }
    while n < |snaps|
      invariant n <= |snaps| && DaysOf(snaps, n, seenDay) && KeepsFirsts(snaps, n, keep)
      invariant n > 0 ==> snaps[n - 1].ts >= dayCutoff
    {
      if snaps[n].ts < dayCutoff {
        break;
      }
      UnseenIsFirst(snaps, n, seenDay);
      KeepsOneMore(snaps, n, keep);
      var day := DayOf(snaps[n].ts);
      if day !in seenDay {
        seenDay := seenDay + {day};
        keep := keep + {snaps[n].ts};
      } else {
        assert seenDay + {day} == seenDay;
      }
      n := n + 1;
    }
    FirstsAreDaily(snaps, n, keep, now, keepDaily);
  }

  lemma NothingSeen(snaps: seq<Snap>)
    ensures DaysOf(snaps, 0, {}) && KeepsFirsts(snaps, 0, {})
  {
  }

  // ---------- the directory ----------

  /** The snapshots among the entries of a directory, by name; other names carry no stamp. */
  function Snapshots(entries: map<string, Option<Instant>>): map<string, Instant> {
    map p | p in entries && entries[p].Some? :: entries[p].value
  }

  /** What is no snapshot is left alone. */
  predicate OthersLeft(before: map<string, Option<Instant>>, after: map<string, Option<Instant>>) {
    forall p | p in before && before[p].None? :: p in after && after[p].None?
  }

  lemma BucketsAreKept(snaps: seq<Snap>, now: Instant, keepHourly: int, keepDaily: int, hourly: set<Instant>,
                       daily: set<Instant>)
    requires forall i | 0 <= i < |snaps| ::
               snaps[i].ts in hourly <==> Hourly(now, keepHourly, Stamps(snaps), snaps[i].ts)
    requires forall i | 0 <= i < |snaps| ::
               snaps[i].ts in daily <==> Daily(now, keepDaily, Stamps(snaps), snaps[i].ts)
    ensures forall x | x in Stamps(snaps) ::
              x in hourly + daily <==> x in Keep(now, keepHourly, keepDaily, Stamps(snaps))
  {
    hide Hourly, Daily;
    forall x | x in Stamps(snaps)
      ensures x in hourly + daily <==> x in Keep(now, keepHourly, keepDaily, Stamps(snaps))
    {
      var s :| s in snaps && s.ts == x;
      var i :| 0 <= i < |snaps| && snaps[i] == s;
    }
  }

  /** What is left when only stamps outside `keep` were removed. */
  lemma LeftBetween(before: map<string, Option<Instant>>, after: map<string, Option<Instant>>, kept: set<Instant>,
                    keep: set<Instant>)
    requires forall x | x in Snapshots(before).Values :: x in keep <==> x in kept
    requires kept <= Snapshots(before).Values
    requires after.Keys <= before.Keys && forall p | p in after :: after[p] == before[p]
    requires forall p | p in before && p !in after :: before[p].Some? && before[p].value !in keep
    ensures kept <= Snapshots(after).Values <= Snapshots(before).Values && OthersLeft(before, after)
    ensures (forall p | p in after && after[p].Some? :: after[p].value in keep) ==> Snapshots(after).Values == kept
  {
    forall x | x in kept
      ensures x in Snapshots(after).Values
    {
      var p :| p in Snapshots(before) && Snapshots(before)[p] == x;
      assert p in after;
      assert Snapshots(after)[p] == x;
    }
    forall x | x in Snapshots(after).Values
      ensures x in Snapshots(before).Values
    {
      var p :| p in Snapshots(after) && Snapshots(after)[p] == x;
      assert Snapshots(before)[p] == x;
    }
    if forall p | p in after && after[p].Some? :: after[p].value in keep {
      forall x | x in Snapshots(after).Values
        ensures x in kept
      {
        var p :| p in Snapshots(after) && Snapshots(after)[p] == x;
        assert after[p].value in keep;
      }
    }
  }

  /** A new snapshot, or one that overwrites the file of the same stamp. */
  lemma StampAdded(entries: map<string, Option<Instant>>, name: string, stamp: Instant)
    requires name in entries && entries[name].Some? ==> entries[name].value == stamp
    ensures Snapshots(entries[name := Some(stamp)]).Values == Snapshots(entries).Values + {stamp}
  {
    var after := entries[name := Some(stamp)];
    assert Snapshots(after)[name] == stamp;
    forall x | x in Snapshots(entries).Values
      ensures x in Snapshots(after).Values
    {
      var p :| p in Snapshots(entries) && Snapshots(entries)[p] == x;
      assert Snapshots(after)[p] == x;
    }
    forall x | x in Snapshots(after).Values
      ensures x in Snapshots(entries).Values + {stamp}
    {
      var p :| p in Snapshots(after) && Snapshots(after)[p] == x;
      assert p != name ==> Snapshots(entries)[p] == x;
    }
  }

  /** One more turn after a run; before the first one, `stamps` are the snapshots found. */
  lemma TurnContinues(h: int, d: int, turns: seq<Turn>, stamps: set<Instant>, all: set<Instant>, stamp: Instant,
                      now: Instant, left: set<Instant>)
    requires IsRun(h, d, turns)
             && (if turns == [] then stamps == all else Left(turns) == stamps && History(turns) == all)
    requires turns != [] ==> turns[|turns| - 1].now <= now
    requires Keep(now, h, d, stamps + {stamp}) <= left <= stamps + {stamp}
    ensures var turn := Turn(now, (if turns == [] then stamps else {}) + {stamp}, left);
            && IsRun(h, d, turns + [turn]) && Left(turns + [turn]) == left && History(turns + [turn]) == all + {stamp}
            && Keep(now, h, d, stamps + {stamp}) == Keep(now, h, d, all + {stamp})
            && Keep(now, h, d, all + {stamp}) <= left <= all + {stamp}
  {
    hide Keep;
    var turn := Turn(now, (if turns == [] then stamps else {}) + {stamp}, left);
    var longer := turns + [turn];
    assert longer[..|longer| - 1] == turns && longer[|longer| - 1] == turn;
    assert Left(turns) + turn.taken == stamps + {stamp};
    assert History(turns) + turn.taken == all + {stamp};
    RunEqualsBatch(h, d, longer);
  }

  /** One firing of the backup schedule: the stamp of the snapshot, if it was written, and the prune after it. */
  datatype Firing = Firing(stamp: Option<Instant>, now: Instant, refuses: string -> bool)

  /** All stamps ever written. */
  function Written(firings: seq<Firing>): set<Instant> {
    if firings == [] then {}
    else
      var last := firings[|firings| - 1];
      Written(firings[..|firings| - 1]) + if last.stamp.Some? then {last.stamp.value} else {}
  }

  /** Different stamps make different names. */
  ghost predicate Distinct(nameOf: Instant -> string) {
    forall a, b :: nameOf(a) == nameOf(b) ==> a == b
  }

  class Directory {
    var entries: map<string, Option<Instant>>

    constructor (entries: map<string, Option<Instant>>)
      ensures this.entries == entries
    {
      this.entries := entries;
    }

    /** A snapshot's name is made from its stamp. */
    ghost predicate Named(nameOf: Instant -> string)
      reads this
    {
      && Distinct(nameOf)
      && (forall p | p in entries && entries[p].Some? :: p == nameOf(entries[p].value))
    }

    function Stamps(): set<Instant>
      reads this
    {
      Snapshots(entries).Values
    }

    /** Remove every listed file whose stamp is not kept, up to the first refusal. */
    method RemoveOthers(snaps: seq<Snap>, keep: set<Instant>, refuses: string -> bool)
      returns (removed: seq<string>, ok: bool)
      requires Descending(snaps)
      requires forall s :: s in snaps <==> s.path in entries && entries[s.path] == Some(s.ts)
      modifies this
      ensures entries.Keys <= old(entries).Keys && (forall p | p in entries :: entries[p] == old(entries)[p])
      ensures forall p | p in old(entries) && p !in entries :: old(entries)[p].Some? && old(entries)[p].value !in keep
      ensures ok ==> forall p | p in entries && entries[p].Some? :: entries[p].value in keep
      ensures !ok ==> exists p :: p in entries && refuses(p) && entries[p].Some? && entries[p].value !in keep
      ensures forall p :: p in removed <==> p in old(entries) && p !in entries
    {
      removed, ok := [], true;
      var n := 0;
      while n < |snaps|
        invariant n <= |snaps|
        invariant entries.Keys <= old(entries).Keys && (forall p | p in entries :: entries[p] == old(entries)[p])
        invariant forall p | p in old(entries) && p !in entries ::
                    old(entries)[p].Some? && old(entries)[p].value !in keep
        invariant forall i | 0 <= i < n :: snaps[i].path in entries ==> snaps[i].ts in keep
        invariant forall i | n <= i < |snaps| :: snaps[i].path in entries
        invariant forall p :: p in removed <==> p in old(entries) && p !in entries
      {
        assert snaps[n] in snaps;
        if snaps[n].ts !in keep {
          if refuses(snaps[n].path) {
            return removed, false;
          }
          forall i | n < i < |snaps|
            ensures snaps[i].path != snaps[n].path
          {
            assert snaps[i] in snaps;
          }
          entries := entries - {snaps[n].path};
          removed := removed + [snaps[n].path];
        }
        n := n + 1;
      }
      forall p | p in entries && entries[p].Some?
        ensures entries[p].value in keep
      {
        assert Snap(p, entries[p].value) in snaps;
      }
    }

    /**
     * Remove what the policy does not keep, stopping at the first file the system refuses to remove. Whatever
     * happens, nothing the policy keeps is removed, and nothing that is no snapshot.
     */
    method Prune(now: Instant, keepHourly: int, keepDaily: int, refuses: string -> bool,
                 ghost nameOf: Instant -> string)
      returns (removed: seq<string>, ok: bool)
      requires Named(nameOf)
      modifies this
      ensures Named(nameOf) && OthersLeft(old(entries), entries)
      ensures entries.Keys <= old(entries).Keys && (forall p | p in entries :: entries[p] == old(entries)[p])
      ensures Keep(now, keepHourly, keepDaily, old(Stamps())) <= Stamps() <= old(Stamps())
      ensures ok ==> Stamps() == Keep(now, keepHourly, keepDaily, old(Stamps()))
      ensures !ok ==> exists p :: p in entries && refuses(p) && entries[p].Some?
                                  && entries[p].value !in Keep(now, keepHourly, keepDaily, old(Stamps()))
      ensures forall p :: p in removed <==> p in old(entries) && p !in entries
    {
      hide Hourly, Daily;
      var files := Snapshots(entries);
      var snaps := SortNewestFirst(files);
      ValuesAreStamps(files, snaps);
      var hourly := HourlyBucket(snaps, now, keepHourly);
      var daily := DailyBucket(snaps, now, keepDaily);
      ghost var kept := Keep(now, keepHourly, keepDaily, Stamps());
      BucketsAreKept(snaps, now, keepHourly, keepDaily, hourly, daily);
      removed, ok := RemoveOthers(snaps, hourly + daily, refuses);
      LeftBetween(old(entries), entries, kept, hourly + daily);
    }

    /** A snapshot is written and the directory pruned. */
    method Fire(stamp: Instant, now: Instant, keepHourly: int, keepDaily: int, refuses: string -> bool,
                nameOf: Instant -> string) returns (ok: bool)
      requires Named(nameOf)
      modifies this
      ensures Named(nameOf)
      ensures forall p | p in old(entries) && old(entries)[p].None? && p != nameOf(stamp) ::
                p in entries && entries[p].None?
      ensures Keep(now, keepHourly, keepDaily, old(Stamps()) + {stamp}) <= Stamps() <= old(Stamps()) + {stamp}
      ensures ok ==> Stamps() == Keep(now, keepHourly, keepDaily, old(Stamps()) + {stamp})
    {
      hide Keep;
      StampAdded(entries, nameOf(stamp), stamp);
      entries := entries[nameOf(stamp) := Some(stamp)];
      var removed;
      removed, ok := Prune(now, keepHourly, keepDaily, refuses, nameOf);
    }

    /**
     * Firings of the schedule in turn, with removals refused at will: the snapshots left lie between what one prune
     * over every stamp ever written would keep and all of them, and are the former when the last prune went through.
     */
    method Schedule(firings: seq<Firing>, keepHourly: int, keepDaily: int, nameOf: Instant -> string)
      returns (ok: bool, last: Instant)
      requires Named(nameOf) && forall i, j :: 0 <= i < j < |firings| ==> firings[i].now <= firings[j].now
      modifies this
      ensures Named(nameOf)
      ensures (forall p | p in old(entries) && old(entries)[p].None? && (forall t :: p != nameOf(t)) ::
                 p in entries && entries[p].None?)
      ensures (forall f | f in firings :: f.stamp.None?) ==> entries == old(entries)
      ensures (exists f :: f in firings && f.stamp.Some?) ==>
                var all := old(Stamps()) + Written(firings);
                && (exists f :: f in firings && f.stamp.Some? && f.now == last)
                && Keep(last, keepHourly, keepDaily, all) <= Stamps() <= all
                && (ok ==> Stamps() == Keep(last, keepHourly, keepDaily, all))
    {
      hide Keep, IsRun, History, Left, Snapshots;
      ok, last := true, 0;
      ghost var turns: seq<Turn> := [];
      ghost var all := Stamps();
      assert IsRun(keepHourly, keepDaily, turns) by {
        NoTurnIsRun(keepHourly, keepDaily);
      }
      for n := 0 to |firings|
        invariant Named(nameOf) && IsRun(keepHourly, keepDaily, turns)
        invariant forall p | p in old(entries) && old(entries)[p].None? && (forall t :: p != nameOf(t)) ::
                    p in entries && entries[p].None?
        invariant all == old(Stamps()) + Written(firings[..n])
        invariant turns == [] ==> entries == old(entries) && all == Stamps()
        invariant turns == [] <==> forall i | 0 <= i < n :: firings[i].stamp.None?
        invariant turns != [] ==>
                    && (exists i :: 0 <= i < n && firings[i].stamp.Some? && firings[i].now == last)
                    && turns[|turns| - 1].now == last && History(turns) == all && Left(turns) == Stamps()
                    && Keep(last, keepHourly, keepDaily, all) <= Stamps() <= all
                    && (ok ==> Stamps() == Keep(last, keepHourly, keepDaily, all))
      {
        assert firings[..n + 1][..n] == firings[..n];
        var f := firings[n];
        if f.stamp.Some? {
          ghost var before := Stamps();
          ok := Fire(f.stamp.value, f.now, keepHourly, keepDaily, f.refuses, nameOf);
          TurnContinues(keepHourly, keepDaily, turns, before, all, f.stamp.value, f.now, Stamps());
          turns := turns + [Turn(f.now, (if turns == [] then before else {}) + {f.stamp.value}, Stamps())];
          last, all := f.now, all + {f.stamp.value};
        }
      }
      assert firings[..|firings|] == firings;
    }
  }

  lemma NoTurnIsRun(h: int, d: int)
    ensures IsRun(h, d, [])
  {
  }
}
