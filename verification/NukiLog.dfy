/** Reading the smart lock's log page by page. */
module NukiLog {
  import opened Text

  type Instant = int

  /** A provider row: its id, trimmed, and its time if one could be read. */
  datatype Row = Row(id: string, time: Option<Instant>, payload: string)
  datatype Event = Event(externalId: string, at: Instant, payload: string)

  datatype Reply = Broken | Page(rows: seq<Row>)

  datatype Error = CursorCycle | Transport | MissingId | UnreadableTime | CursorStuck | BudgetExhausted
  datatype Result<T> = Ok(value: T) | Err(error: Error)

  // ---------- one page ----------

  /** Collect the rows not before `since`; a later row with the same id replaces an earlier one. */
  function Absorb(rows: seq<Row>, since: Instant, seen: map<string, Event>): Result<map<string, Event>> {
    if rows == [] then Ok(seen)
    else
      var id := rows[0].id;
      if id == "" then Err(MissingId)
      else if rows[0].time.None? then Err(UnreadableTime)
      else Absorb(rows[1..], since, Keep(seen, id, rows[0], since))
  }

  function Keep(seen: map<string, Event>, id: string, row: Row, since: Instant): map<string, Event>
    requires row.time.Some?
  {
    if row.time.value >= since then seen[id := Event(row.id, row.time.value, row.payload)] else seen
  }

  /** The result of the whole loop, and how many requests it makes, against any server. */
  function Fetch(serve: (nat, string) -> Reply, since: Instant, maxPages: nat, page: nat, cursor: string,
                 visited: set<string>, seen: map<string, Event>): (Result<map<string, Event>>, nat)
    requires page <= maxPages
    decreases maxPages - page
  {
    if page == maxPages then (Err(BudgetExhausted), page)
    else if cursor in visited && cursor != "" then (Err(CursorCycle), page)
    else
      match serve(page, cursor)
      case Broken => (Err(Transport), page + 1)
      case Page(rows) =>
        if rows == [] then (Ok(seen), page + 1)
        else
          var absorbed := Absorb(rows, since, seen);
          if absorbed.Err? then (Err(absorbed.error), page + 1)
          else
            var last := rows[|rows| - 1].id;
            if last == cursor then (Err(CursorStuck), page + 1)
            else Fetch(serve, since, maxPages, page + 1, last, visited + {cursor}, absorbed.value)
  }

  // ---------- the listing ----------

  predicate Earlier(a: Event, b: Event) {
    a.at < b.at || (a.at == b.at && Less(a.externalId, b.externalId))
  }

  /** Every entry of the map once, strictly ordered by time and id. */
  ghost predicate IsListing(m: map<string, Event>, out: seq<Event>) {
    && |out| == |m|
    && (forall i, j | 0 <= i < j < |out| ::
          out[i].at < out[j].at || (out[i].at == out[j].at && Less(out[i].externalId, out[j].externalId)))
    && (forall e :: e in out <==> e.externalId in m && m[e.externalId] == e)
  }

  predicate Ordered(out: seq<Event>) {
    forall i, j :: 0 <= i < j < |out| ==> Earlier(out[i], out[j])
  }

  /** Entries carry the id they are stored under. */
  predicate Keyed(m: map<string, Event>) {
    forall id | id in m :: m[id].externalId == id
  }

  lemma EarlierIsTransitive(a: Event, b: Event, c: Event)
    requires Earlier(a, b) && Earlier(b, c)
    ensures Earlier(a, c)
  {
    if a.at == b.at && b.at == c.at {
      LessIsTransitive(a.externalId, b.externalId, c.externalId);
    }
  }

  lemma EarlierIsTotal(a: Event, b: Event)
    requires a.externalId != b.externalId
    ensures Earlier(a, b) || Earlier(b, a)
  {
    LessIsTotal(a.externalId, b.externalId);
  }

  method EventsFromMap(m: map<string, Event>) returns (out: seq<Event>)
    requires Keyed(m)
    ensures IsListing(m, out)
  {
    out := [];
    var rest := m.Keys;
    while rest != {}
      invariant rest <= m.Keys && |out| + |rest| == |m| && Ordered(out)
      invariant forall e :: e in out <==> e.externalId in m && e.externalId !in rest && m[e.externalId] == e
      decreases |rest|
    {
      var id := Pick(rest);
      rest := rest - {id};
      out := Insert(out, m[id]);
    }
  }

  method Insert(sorted: seq<Event>, e: Event) returns (out: seq<Event>)
    requires Ordered(sorted) && forall x | x in sorted :: x.externalId != e.externalId
    ensures Ordered(out) && |out| == |sorted| + 1
    ensures forall x :: x in out <==> x == e || x in sorted
  {
    hide Earlier;
    var n := 0;
    while n < |sorted| && Earlier(sorted[n], e)
      invariant n <= |sorted| && forall i | 0 <= i < n :: Earlier(sorted[i], e)
    {
      n := n + 1;
    }
    forall i | n <= i < |sorted| ensures Earlier(e, sorted[i]) {
      EarlierIsTotal(sorted[n], e);
      if n < i {
        EarlierIsTransitive(e, sorted[n], sorted[i]);
      }
    }
    out := sorted[..n] + [e] + sorted[n..];
    assert sorted == sorted[..n] + sorted[n..];
  }

  lemma {:induction false} AbsorbKeepsKeys(rows: seq<Row>, since: Instant, seen: map<string, Event>)
    requires Keyed(seen)
    ensures Absorb(rows, since, seen).Ok? ==> Keyed(Absorb(rows, since, seen).value)
  {
    if rows != [] && rows[0].id != "" && rows[0].time.Some? {
      AbsorbKeepsKeys(rows[1..], since, Keep(seen, rows[0].id, rows[0], since));
    }
  }

  /**
   * The loop makes at most `maxPages` requests, and whatever the server does it answers with an error or with the
   * complete ordered listing that ends at an empty page, never with part of one.
   */
  method ListSmartlockEvents(serve: (nat, string) -> Reply, since: Instant, maxPages: nat)
    returns (result: Result<seq<Event>>, requests: nat)
    ensures requests <= maxPages
    ensures var (fetched, used) := Fetch(serve, since, maxPages, 0, "", {}, map[]);
            && requests == used
            && (fetched.Err? ==> result == Err(fetched.error))
            && (fetched.Ok? ==> result.Ok? && IsListing(fetched.value, result.value))
  {
    var seen: map<string, Event> := map[];
    var visited: set<string> := {};
    var cursor, page := "", 0;
    while page < maxPages
      invariant page <= maxPages && Keyed(seen)
      invariant Fetch(serve, since, maxPages, 0, "", {}, map[])
                == Fetch(serve, since, maxPages, page, cursor, visited, seen)
    {
      if cursor in visited && cursor != "" {
        return Err(CursorCycle), page;
      }
      var reply := serve(page, cursor);
      if reply.Broken? {
        return Err(Transport), page + 1;
      }
      if |reply.rows| == 0 {
        var events := EventsFromMap(seen);
        return Ok(events), page + 1;
      }
      ghost var before := seen;
      var lastId := "";
      for n := 0 to |reply.rows|
        invariant Absorb(reply.rows, since, before) == Absorb(reply.rows[n..], since, seen)
        invariant n > 0 ==> lastId == reply.rows[n - 1].id
      {
        var row := reply.rows[n];
        var id := row.id;
        if id == "" {
          return Err(MissingId), page + 1;
        }
        lastId := id;
        if row.time.None? {
          return Err(UnreadableTime), page + 1;
        }
        if row.time.value >= since {
          seen := seen[id := Event(row.id, row.time.value, row.payload)];
        }
      }
      AbsorbKeepsKeys(reply.rows, since, before);
      if lastId == cursor {
        return Err(CursorStuck), page + 1;
      }
      visited := visited + {cursor};
      cursor := lastId;
      page := page + 1;
    }
    return Err(BudgetExhausted), page;
  }

  // ---------- a finite log served in cursor order ----------

  /** A readable log: ids present and distinct, times known. */
  predicate IsLog(log: seq<Row>) {
    && (forall i | 0 <= i < |log| :: log[i].id != "" && log[i].time.Some?)
    && (forall i, j :: 0 <= i < j < |log| ==> log[i].id != log[j].id)
  }

  /** The cursor after `n` rows. */
  function CursorAt(log: seq<Row>, n: nat): string
    requires n <= |log|
  {
    if n == 0 then "" else log[n - 1].id
  }

  function Next(log: seq<Row>, limit: nat, n: nat): (e: nat)
    requires n <= |log|
    ensures n <= e <= |log|
  {
    if n + limit <= |log| then n + limit else |log|
  }

  /** Each request is answered with the next `limit` rows after its cursor. */
  ghost predicate ServesInOrder(serve: (nat, string) -> Reply, log: seq<Row>, limit: nat) {
    forall k: nat, n: nat | n <= |log| :: serve(k, CursorAt(log, n)) == Page(log[n..Next(log, limit, n)])
  }

  /** Of the first `n` rows, those at or after `since`. */
  function Collected(log: seq<Row>, n: nat, since: Instant): map<string, Event>
    requires IsLog(log) && n <= |log|
  {
    map i | 0 <= i < n && log[i].time.value >= since :: log[i].id := Event(log[i].id, log[i].time.value, log[i].payload)
  }

  function EventOf(row: Row): Event
    requires row.time.Some?
  {
    Event(row.id, row.time.value, row.payload)
  }

  /** Row `i` is among the first `n` and not before `since`. */
  predicate CollectsAt(log: seq<Row>, n: nat, since: Instant, i: int)
    requires IsLog(log) && n <= |log|
  {
    0 <= i < n && log[i].time.value >= since
  }

  lemma CollectedHas(log: seq<Row>, n: nat, since: Instant, i: int)
    requires IsLog(log) && n <= |log| && CollectsAt(log, n, since, i)
    ensures log[i].id in Collected(log, n, since) && Collected(log, n, since)[log[i].id] == EventOf(log[i])
  {
  }

  lemma CollectedFrom(log: seq<Row>, n: nat, since: Instant, id: string) returns (i: int)
    requires IsLog(log) && n <= |log| && id in Collected(log, n, since)
    ensures CollectsAt(log, n, since, i) && log[i].id == id
  {
    i :| 0 <= i < n && log[i].time.value >= since && log[i].id == id;
  }

  lemma CollectedGrows(log: seq<Row>, n: nat, since: Instant)
    requires IsLog(log) && n < |log|
    ensures Keep(Collected(log, n, since), log[n].id, log[n], since) == Collected(log, n + 1, since)
  {
    hide Collected;
    var c, c' := Keep(Collected(log, n, since), log[n].id, log[n], since), Collected(log, n + 1, since);
    forall id | id in c
      ensures id in c' && c'[id] == c[id]
    {
      if id == log[n].id && log[n].time.value >= since {
        CollectedHas(log, n + 1, since, n);
      } else {
        var i := CollectedFrom(log, n, since, id);
        CollectedHas(log, n, since, i);
        CollectedHas(log, n + 1, since, i);
      }
    }
    forall id | id in c'
      ensures id in c
    {
      var i := CollectedFrom(log, n + 1, since, id);
      if i < n {
        CollectedHas(log, n, since, i);
      }
    }
  }

  lemma {:induction false} AbsorbLog(log: seq<Row>, since: Instant, n: nat, e: nat)
    requires IsLog(log) && n <= e <= |log|
    ensures Absorb(log[n..e], since, Collected(log, n, since)) == Ok(Collected(log, e, since))
    decreases e - n
  {
    if n < e {
      var rows := log[n..e];
      assert rows[0] == log[n] && rows[1..] == log[n + 1..e];
      CollectedGrows(log, n, since);
      AbsorbLog(log, since, n + 1, e);
    }
  }

  /** Requests needed for `n` more rows, the last one answered with an empty page. */
  function Pages(n: nat, limit: nat): (p: nat)
    requires limit > 0
    ensures p > 0
  {
    if n == 0 then 1 else 1 + Pages(if n <= limit then 0 else n - limit, limit)
  }

  lemma {:induction false} FitsBudget(n: nat, limit: nat, maxPages: nat)
    requires limit > 0 && maxPages > 0
    ensures Pages(n, limit) <= maxPages <==> n <= limit * (maxPages - 1)
  {
    if n > 0 && maxPages > 1 {
      FitsBudget(if n <= limit then 0 else n - limit, limit, maxPages - 1);
      assert limit * (maxPages - 1) == limit * (maxPages - 2) + limit;
    }
  }

  /** The cursors visited so far were those of earlier rows. */
  ghost predicate Behind(log: seq<Row>, n: nat, visited: set<string>)
    requires n <= |log|
  {
    forall c | c in visited :: c == "" || exists k :: 0 <= k < n - 1 && c == log[k].id
  }

  lemma CursorIsNew(log: seq<Row>, n: nat, visited: set<string>, limit: nat)
    requires IsLog(log) && n <= |log| && Behind(log, n, visited) && limit > 0
    ensures CursorAt(log, n) in visited ==> CursorAt(log, n) == ""
    ensures n < |log| ==> Behind(log, Next(log, limit, n), visited + {CursorAt(log, n)})
    ensures n < |log| ==> CursorAt(log, Next(log, limit, n)) != CursorAt(log, n)
  {
  }

  lemma FetchTurns(serve: (nat, string) -> Reply, since: Instant, maxPages: nat, page: nat, cursor: string,
                   visited: set<string>, seen: map<string, Event>, rows: seq<Row>)
    requires page < maxPages && (cursor in visited ==> cursor == "") && serve(page, cursor) == Page(rows) && rows != []
    requires Absorb(rows, since, seen).Ok? && rows[|rows| - 1].id != cursor
    ensures Fetch(serve, since, maxPages, page, cursor, visited, seen)
         == Fetch(serve, since, maxPages, page + 1, rows[|rows| - 1].id, visited + {cursor},
                  Absorb(rows, since, seen).value)
  {
  }

  lemma FetchEnds(serve: (nat, string) -> Reply, since: Instant, maxPages: nat, page: nat, cursor: string,
                  visited: set<string>, seen: map<string, Event>)
    requires page < maxPages && (cursor in visited ==> cursor == "") && serve(page, cursor) == Page([])
    ensures Fetch(serve, since, maxPages, page, cursor, visited, seen) == (Ok(seen), page + 1)
  {
  }

  lemma FetchIsSpent(serve: (nat, string) -> Reply, since: Instant, maxPages: nat, cursor: string,
                     visited: set<string>, seen: map<string, Event>)
    ensures Fetch(serve, since, maxPages, maxPages, cursor, visited, seen) == (Err(BudgetExhausted), maxPages)
  {
  }

  lemma {:induction false} FetchFollowsLog(serve: (nat, string) -> Reply, log: seq<Row>, limit: nat, since: Instant,
                                           maxPages: nat, page: nat, n: nat, visited: set<string>)
    requires IsLog(log) && limit > 0 && ServesInOrder(serve, log, limit) && page <= maxPages && n <= |log|
    requires Behind(log, n, visited)
    ensures Fetch(serve, since, maxPages, page, CursorAt(log, n), visited, Collected(log, n, since))
         == if page + Pages(|log| - n, limit) <= maxPages
            then (Ok(Collected(log, |log|, since)), page + Pages(|log| - n, limit))
            else (Err(BudgetExhausted), maxPages)
    decreases maxPages - page
  {
    hide Fetch, Absorb, Collected, Behind, IsLog;
    if page == maxPages {
      FetchIsSpent(serve, since, maxPages, CursorAt(log, n), visited, Collected(log, n, since));
    } else {
      var cursor, e := CursorAt(log, n), Next(log, limit, n);
      CursorIsNew(log, n, visited, limit);
      assert serve(page, cursor) == Page(log[n..e]);
      if n == |log| {
        FetchEnds(serve, since, maxPages, page, cursor, visited, Collected(log, n, since));
      } else {
        assert Pages(|log| - n, limit) == 1 + Pages(|log| - e, limit);
        assert log[n..e][|log[n..e]| - 1] == log[e - 1];
        AbsorbLog(log, since, n, e);
        FetchFollowsLog(serve, log, limit, since, maxPages, page + 1, e, visited + {cursor});
        FetchTurns(serve, since, maxPages, page, cursor, visited, Collected(log, n, since), log[n..e]);
      }
    }
  }

  /**
   * Against a finite readable log served in cursor order, reading succeeds exactly when the budget leaves a page for
   * the empty answer, and it then returns exactly the rows at or after `since`; otherwise it says the budget is spent.
   */
  lemma LogIsReadCompletely(serve: (nat, string) -> Reply, log: seq<Row>, limit: nat, since: Instant, maxPages: nat)
    requires IsLog(log) && limit > 0 && maxPages > 0 && ServesInOrder(serve, log, limit)
    ensures var (result, requests) := Fetch(serve, since, maxPages, 0, "", {}, map[]);
            && (result == Ok(Collected(log, |log|, since)) <==> |log| <= limit * (maxPages - 1))
            && (result == Err(BudgetExhausted) <==> |log| > limit * (maxPages - 1))
  {
    FitsBudget(|log|, limit, maxPages);
    assert Collected(log, 0, since) == map[];
    FetchFollowsLog(serve, log, limit, since, maxPages, 0, 0, {});
  }

  // ---------- any server ----------

  /** The last of `requests` requests was answered with an empty page. */
  predicate IsEnd(serve: (nat, string) -> Reply, requests: nat, cursor: string) {
    requests > 0 && serve(requests - 1, cursor) == Page([])
  }

  /** All rows served to the requests from `page` up to `until`, each made with the last id served before. */
  function Served(serve: (nat, string) -> Reply, page: nat, cursor: string, until: nat): seq<Row>
    requires page <= until
    decreases until - page
  {
    if page == until then []
    else
      match serve(page, cursor)
      case Broken => []
      case Page(rows) => if rows == [] then [] else rows + Served(serve, page + 1, rows[|rows| - 1].id, until)
  }

  lemma {:induction false} AbsorbAppends(a: seq<Row>, b: seq<Row>, since: Instant, seen: map<string, Event>)
    ensures Absorb(a + b, since, seen) ==
            if Absorb(a, since, seen).Ok? then Absorb(b, since, Absorb(a, since, seen).value)
            else Absorb(a, since, seen)
  {
    if a == [] {
      Nothing(b);
    } else {
      TailOfMore(a, b);
      if a[0].id != "" && a[0].time.Some? {
        AbsorbAppends(a[1..], b, since, Keep(seen, a[0].id, a[0], since));
      }
    }
  }

  /** Row `i` is the last with the id that lies at or after `since`. */
  predicate IsLastKept(rows: seq<Row>, since: Instant, id: string, i: int) {
    && 0 <= i < |rows| && KeptAs(rows[i], since, id)
    && forall j | i < j < |rows| :: !KeptAs(rows[j], since, id)
  }

  predicate KeptAs(row: Row, since: Instant, id: string) {
    row.id == id && row.time.Some? && row.time.value >= since
  }

  /** The map holds the last kept row of every id that has one, and nothing else. */
  ghost predicate HoldsLast(rows: seq<Row>, since: Instant, m: map<string, Event>) {
    && (forall id | id in m :: exists i :: IsLastKept(rows, since, id, i))
    && (forall id, i | IsLastKept(rows, since, id, i) ::
          id in m && m[id] == Event(id, rows[i].time.value, rows[i].payload))
  }

  lemma {:induction false} AbsorbHoldsLast(rows: seq<Row>, since: Instant)
    requires Absorb(rows, since, map[]).Ok?
    ensures HoldsLast(rows, since, Absorb(rows, since, map[]).value)
    ensures forall row | row in rows :: row.id != "" && row.time.Some?
  {
    if rows != [] {
      var init, last := rows[..|rows| - 1], rows[|rows| - 1];
      assert rows == init + [last];
      AbsorbAppends(init, [last], since, map[]);
      AbsorbHoldsLast(init, since);
      AbsorbOne(last, since, Absorb(init, since, map[]).value);
      HoldsOneMore(init, last, since, Absorb(init, since, map[]).value);
    }
  }

  lemma AbsorbOne(row: Row, since: Instant, seen: map<string, Event>)
    requires Absorb([row], since, seen).Ok?
    ensures row.id != "" && row.time.Some? && Absorb([row], since, seen) == Ok(Keep(seen, row.id, row, since))
  {
    assert [row][1..] == [];
  }

  lemma HoldsOneMore(init: seq<Row>, last: Row, since: Instant, m: map<string, Event>)
    requires HoldsLast(init, since, m) && last.time.Some?
    ensures HoldsLast(init + [last], since, Keep(m, last.id, last, since))
  {
    var rows, m' := init + [last], Keep(m, last.id, last, since);
    forall id | id in m'
      ensures exists i :: IsLastKept(rows, since, id, i)
    {
      if KeptAs(last, since, id) {
        assert IsLastKept(rows, since, id, |init|);
      } else {
        var i :| IsLastKept(init, since, id, i);
        assert IsLastKept(rows, since, id, i);
      }
    }
    forall id, i | IsLastKept(rows, since, id, i)
      ensures id in m' && m'[id] == Event(id, rows[i].time.value, rows[i].payload)
    {
      if i < |init| {
        assert !KeptAs(rows[|init|], since, id);
        assert IsLastKept(init, since, id, i) by {
          forall j | i < j < |init|
            ensures !KeptAs(init[j], since, id)
          {
            assert rows[j] == init[j];
          }
        }
      }
    }
  }

  /**
   * Against any server: at most `maxPages` requests, and success only after an empty page, with everything served on
   * the way absorbed.
   */
  lemma {:induction false} SuccessAbsorbsServed(serve: (nat, string) -> Reply, since: Instant, maxPages: nat, page: nat,
                                                cursor: string, visited: set<string>, seen: map<string, Event>)
    requires page <= maxPages
    ensures var (result, requests) := Fetch(serve, since, maxPages, page, cursor, visited, seen);
            && page <= requests <= maxPages
            && (result.Ok? ==> && requests > page && (exists last :: IsEnd(serve, requests, last))
                               && result == Absorb(Served(serve, page, cursor, requests), since, seen))
    decreases maxPages - page
  {
    assert serve(page, cursor) == Page([]) ==> IsEnd(serve, page + 1, cursor);
    if page < maxPages && !(cursor in visited && cursor != "") && serve(page, cursor).Page? {
      var rows := serve(page, cursor).rows;
      if rows != [] && Absorb(rows, since, seen).Ok? && rows[|rows| - 1].id != cursor {
        var next, absorbed := rows[|rows| - 1].id, Absorb(rows, since, seen).value;
        SuccessAbsorbsServed(serve, since, maxPages, page + 1, next, visited + {cursor}, absorbed);
        var (result, requests) := Fetch(serve, since, maxPages, page + 1, next, visited + {cursor}, absorbed);
        if result.Ok? {
          AbsorbAppends(rows, Served(serve, page + 1, next, requests), since, seen);
        }
      }
    }
  }

  /**
   * A successful listing ended at an empty page, every row served on the way was readable, and it holds, of every id
   * served with a time at or after `since`, the last such row, and nothing else.
   */
  lemma SuccessEndsAtEmptyPage(serve: (nat, string) -> Reply, since: Instant, maxPages: nat)
    ensures var (result, requests) := Fetch(serve, since, maxPages, 0, "", {}, map[]);
            && requests <= maxPages
            && (result.Ok? ==> && (exists last :: IsEnd(serve, requests, last))
                               && (forall row | row in Served(serve, 0, "", requests) :: row.id != "" && row.time.Some?)
                               && HoldsLast(Served(serve, 0, "", requests), since, result.value))
  {
    hide Fetch, Served, Absorb;
    SuccessAbsorbsServed(serve, since, maxPages, 0, "", {}, map[]);
    var (result, requests) := Fetch(serve, since, maxPages, 0, "", {}, map[]);
    if result.Ok? {
      AbsorbHoldsLast(Served(serve, 0, "", requests), since);
    }
  }

  // ---------- failures ----------

  predicate Unreadable(row: Row) {
    row.id == "" || row.time.None?
  }

  /** Position `i` holds the first row that cannot be read. */
  predicate FirstUnreadable(rows: seq<Row>, i: int) {
    0 <= i < |rows| && Unreadable(rows[i]) && forall j | 0 <= j < i :: !Unreadable(rows[j])
  }

  /** A page fails with what is missing in its first unreadable row, and only if it has one. */
  lemma {:induction false} AbsorbFailsExactly(rows: seq<Row>, since: Instant, seen: map<string, Event>)
    ensures Absorb(rows, since, seen).Err? <==> exists i :: FirstUnreadable(rows, i)
    ensures forall i | FirstUnreadable(rows, i) ::
              Absorb(rows, since, seen) == Err(if rows[i].id == "" then MissingId else UnreadableTime)
  {
    if rows != [] {
      if Unreadable(rows[0]) {
        assert FirstUnreadable(rows, 0);
      } else {
        var tail := rows[1..];
        AbsorbFailsExactly(tail, since, Keep(seen, rows[0].id, rows[0], since));
        if i :| FirstUnreadable(tail, i) {
          assert forall j | 0 < j < i + 1 :: rows[j] == tail[j - 1];
          assert FirstUnreadable(rows, i + 1);
        }
        forall i | FirstUnreadable(rows, i)
          ensures i > 0 && FirstUnreadable(tail, i - 1) && rows[i] == tail[i - 1]
        {
          assert forall j | 0 <= j < i - 1 :: tail[j] == rows[j + 1];
        }
      }
    }
  }

  /** The cursor of request `k`: the last id that the request before it was served, or none at first. */
  function CursorOf(serve: (nat, string) -> Reply, k: nat): Option<string> {
    if k == 0 then Some("")
    else
      var before := CursorOf(serve, k - 1);
      if before.None? then None else LastId(serve(k - 1, before.value))
  }

  function LastId(reply: Reply): Option<string> {
    if reply.Page? && reply.rows != [] then Some(reply.rows[|reply.rows| - 1].id) else None
  }

  /** What explains an error after `requests` requests. */
  ghost predicate Explains(serve: (nat, string) -> Reply, error: Error, requests: nat) {
    && requests > 0 && CursorOf(serve, requests - 1).Some?
    && var cursor := CursorOf(serve, requests - 1);
       var reply := serve(requests - 1, cursor.value);
       match error
       case Transport => reply.Broken?
       case MissingId => reply.Page? && exists i :: FirstUnreadable(reply.rows, i) && reply.rows[i].id == ""
       case UnreadableTime => reply.Page? && exists i :: FirstUnreadable(reply.rows, i) && reply.rows[i].id != ""
       case CursorStuck => LastId(reply) == cursor
       case CursorCycle => LastId(reply) != Some("") && exists k: nat :: k < requests && SameCursor(serve, k, requests)
       case BudgetExhausted => LastId(reply).Some? && LastId(reply) != cursor
  }

  predicate SameCursor(serve: (nat, string) -> Reply, k: nat, n: nat) {
    CursorOf(serve, k).Some? && CursorOf(serve, k) == CursorOf(serve, n)
  }

  /** Cursors visited were asked with before. */
  ghost predicate Asked(serve: (nat, string) -> Reply, page: nat, visited: set<string>) {
    forall c | c in visited :: exists k: nat :: k < page && CursorOf(serve, k) == Some(c)
  }

  lemma AskedOnce(serve: (nat, string) -> Reply, page: nat, cursor: string, visited: set<string>)
    requires Asked(serve, page, visited) && CursorOf(serve, page) == Some(cursor)
    ensures Asked(serve, page + 1, visited + {cursor})
  {
    hide CursorOf;
    forall c | c in visited + {cursor}
      ensures exists k: nat :: k < page + 1 && CursorOf(serve, k) == Some(c)
    {
      if c in visited {
        var k: nat :| k < page && CursorOf(serve, k) == Some(c);
      }
    }
  }

  lemma {:induction false} EveryFailureIsExplained(serve: (nat, string) -> Reply, since: Instant, maxPages: nat,
                                                   page: nat, cursor: string, visited: set<string>,
                                                   seen: map<string, Event>)
    requires page <= maxPages && maxPages > 0 && CursorOf(serve, page) == Some(cursor) && Asked(serve, page, visited)
    requires page == 0 ==> visited == {}
    requires page > 0 ==> CursorOf(serve, page - 1).Some? && CursorOf(serve, page - 1) != Some(cursor)
                          && LastId(serve(page - 1, CursorOf(serve, page - 1).value)) == Some(cursor)
    ensures var (result, requests) := Fetch(serve, since, maxPages, page, cursor, visited, seen);
            && (result == Err(BudgetExhausted) ==> requests == maxPages)
            && (result.Err? ==> Explains(serve, result.error, requests))
    decreases maxPages - page
  {
    hide CursorOf, Absorb, Explains, LastId, Asked, FirstUnreadable;
    if page == maxPages {
      BudgetIsExplained(serve, page, cursor);
    } else if cursor in visited && cursor != "" {
      CycleIsExplained(serve, page, cursor, visited);
    } else if serve(page, cursor).Broken? {
      AnswerIsExplained(serve, since, page, cursor, seen);
    } else if serve(page, cursor).rows != [] {
      var rows := serve(page, cursor).rows;
      AnswerIsExplained(serve, since, page, cursor, seen);
      LastIdIs(serve(page, cursor));
      if !Absorb(rows, since, seen).Err? && rows[|rows| - 1].id != cursor {
        NextCursor(serve, page, cursor);
        AskedOnce(serve, page, cursor, visited);
        EveryFailureIsExplained(serve, since, maxPages, page + 1, rows[|rows| - 1].id, visited + {cursor},
                                Absorb(rows, since, seen).value);
      }
    }
  }

  lemma LastIdIs(reply: Reply)
    requires reply.Page? && reply.rows != []
    ensures LastId(reply) == Some(reply.rows[|reply.rows| - 1].id)
  {
  }

  lemma BudgetIsExplained(serve: (nat, string) -> Reply, page: nat, cursor: string)
    requires page > 0 && CursorOf(serve, page - 1).Some? && CursorOf(serve, page - 1) != Some(cursor)
    requires LastId(serve(page - 1, CursorOf(serve, page - 1).value)) == Some(cursor)
    ensures Explains(serve, BudgetExhausted, page)
  {
  }

  lemma CycleIsExplained(serve: (nat, string) -> Reply, page: nat, cursor: string, visited: set<string>)
    requires page > 0 && CursorOf(serve, page - 1).Some? && cursor in visited && cursor != ""
    requires LastId(serve(page - 1, CursorOf(serve, page - 1).value)) == Some(cursor)
    requires CursorOf(serve, page) == Some(cursor) && Asked(serve, page, visited)
    ensures Explains(serve, CursorCycle, page)
  {
    hide CursorOf;
    var k: nat :| k < page && CursorOf(serve, k) == Some(cursor);
    assert SameCursor(serve, k, page);
  }

  /** A broken answer, an unreadable row or a last id that is the cursor itself explains the error it causes. */
  lemma AnswerIsExplained(serve: (nat, string) -> Reply, since: Instant, page: nat, cursor: string,
                          seen: map<string, Event>)
    requires CursorOf(serve, page) == Some(cursor)
    ensures serve(page, cursor).Broken? ==> Explains(serve, Transport, page + 1)
    ensures serve(page, cursor).Page? && Absorb(serve(page, cursor).rows, since, seen).Err? ==>
              var error := Absorb(serve(page, cursor).rows, since, seen).error;
              (error == MissingId || error == UnreadableTime) && Explains(serve, error, page + 1)
    ensures LastId(serve(page, cursor)) == Some(cursor) ==> Explains(serve, CursorStuck, page + 1)
  {
    hide CursorOf, Absorb, FirstUnreadable;
    if serve(page, cursor).Page? {
      AbsorbFailsExactly(serve(page, cursor).rows, since, seen);
    }
  }

  lemma NextCursor(serve: (nat, string) -> Reply, page: nat, cursor: string)
    requires CursorOf(serve, page) == Some(cursor)
    ensures CursorOf(serve, page + 1) == LastId(serve(page, cursor))
  {
  }

  /** Every error is answered for what the last request met; a spent budget also by the number of requests. */
  lemma FailureIsExplained(serve: (nat, string) -> Reply, since: Instant, maxPages: nat)
    requires maxPages > 0
    ensures var (result, requests) := Fetch(serve, since, maxPages, 0, "", {}, map[]);
            && (result == Err(BudgetExhausted) ==> requests == maxPages)
            && (result.Err? ==> Explains(serve, result.error, requests))
  {
    EveryFailureIsExplained(serve, since, maxPages, 0, "", {}, map[]);
  }
}
