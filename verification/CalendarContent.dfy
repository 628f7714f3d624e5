/** What a stay calls for, field by field, and when a turn of phase one leaves a row and its event alone. */
module CalendarContent {
  import opened Text
  import opened CalendarModel
  import opened EventIndex
  import opened CalendarPass
  import opened CalendarSafety
  import opened CalendarPhases
  import opened CalendarRuns

  // ---------- the content of a row ----------

  /** Check-out time on the stay's check-out day. */
  function StartFor(c: Context, s: int): Instant
    requires s in c.owners
  {
    c.owners[s] * DAY_SECONDS - c.offset + c.profile.outSecond
  }

  /** An hour before check-in time on the stay's check-out day. */
  function LatestEnd(c: Context, s: int): Instant
    requires s in c.owners
  {
    c.owners[s] * DAY_SECONDS - c.offset + c.profile.inSecond - 3600
  }

  /**
   * The row holds what the stay calls for: a cleaning of its own in the configured calendar, from check-out time on,
   * under the title for days with or without another arrival.
   */
  predicate Fitting(c: Context, s: int, r: Row)
    requires s in c.owners
  {
    && r.stay == s && r.date == c.owners[s] && r.identity == Some(Identity(c.property, s, c.owners[s]))
    && r.calendar == c.settings.calendar && r.starts == StartFor(c, s) && r.sameDay == (s in c.arrivals)
    && r.title == if s in c.arrivals then c.settings.sameDayTitle else c.settings.noGuestTitle
  }

  function ScheduleFor(c: Context, s: int): Schedule
    requires s in c.owners
  {
    Schedule(c.timezone, c.owners[s], c.profile.outTime, c.profile.inTime, c.settings.duration)
  }

  /** There was no row, or one written under another schedule. */
  predicate Rescheduled(c: Context, s: int, before: Option<Row>)
    requires s in c.owners
  {
    before.None? || (before.value.scheduleHash.Some? && before.value.scheduleHash.value != ScheduleFor(c, s))
  }

  /**
   * A new schedule ends after the usual duration; on a day with another arrival an hour before check-in, or half an
   * hour after the start where that leaves no time. Otherwise the stored end stands.
   */
  function EndFor(c: Context, s: int, before: Option<Row>): Instant
    requires s in c.owners
  {
    if !Rescheduled(c, s, before) then before.value.ends
    else if s !in c.arrivals then StartFor(c, s) + c.settings.duration * 60
    else if LatestEnd(c, s) > StartFor(c, s) then LatestEnd(c, s)
    else StartFor(c, s) + 1800
  }

  /** The warning that an arrival leaves less than an hour. */
  predicate TightFor(c: Context, s: int, before: Option<Row>)
    requires s in c.owners
  {
    if !Rescheduled(c, s, before) then before.value.tight
    else s in c.arrivals && LatestEnd(c, s) <= StartFor(c, s)
  }

  /** What an upsert writes into the row, whatever the calendar answers. */
  predicate Drafted(c: Context, s: int, before: Option<Row>, r: Row)
    requires s in c.owners
  {
    && Fitting(c, s, r) && r.ends == EndFor(c, s, before) && r.tight == TightFor(c, s, before)
    && r.scheduleHash == Some(ScheduleFor(c, s))
    && r.desiredHash == Some(Digest(r.calendar, r.title, r.starts, r.ends, c.timezone, r.identity, r.stay, r.sameDay))
  }

  lemma DraftIsDrafted(c: Context, idx: Index, before: Option<Row>, s: int, r: Row)
    requires s in c.owners
    requires var d := Draft(c, idx, before, Build(c, s));
             r.(id := d.id, googleId := d.googleId, status := d.status, pending := d.pending) == d
    ensures Drafted(c, s, before, r)
  {
    hide Match;
  }

  // ---------- when nothing is to be done ----------

  /**
   * The row is synced under an id that the listing, if there is one, still shows, and was last written with what the
   * stay calls for.
   */
  ghost predicate UpToDate(c: Context, listing: seq<Event>, s: int, before: Option<Row>)
    requires s in c.owners
  {
    && before.Some? && before.value.status == Synced && before.value.googleId.Some? && before.value.googleId.value != ""
    && before.value.desiredHash.Some? && before.value.desiredHash.value.timezone == c.timezone
    && Fitting(c, s, before.value) && before.value.ends == EndFor(c, s, before)
    && (c.configured ==> ShownUnder(listing, before.value.googleId.value))
  }

  ghost predicate ShownUnder(listing: seq<Event>, g: string) {
    exists e :: e in listing && !e.cancelled && e.id == g
  }

  /** A row is seen exactly when a live event with its id is listed. */
  lemma SeenIsShown(listing: seq<Event>, property: int, offset: int, r: Row)
    requires r.googleId.Some? && r.googleId.value != ""
    ensures Seen(IndexOf(listing, property, offset), r) <==> ShownUnder(listing, r.googleId.value)
  {
    IndexIsFaithful(listing, property, offset);
    var idx := IndexOf(listing, property, offset);
    if Seen(idx, r) {
      var e := idx.byId[r.googleId.value];
      assert e in listing && !e.cancelled && e.id == r.googleId.value;
    }
  }

  /**
   * Phase one skips a row exactly when it is up to date. The comparison of digests stands for the comparison of the
   * stored fields with those called for: a row with another title, start, end, calendar or time zone is upserted.
   */
  lemma SkippedExactly(c: Context, listing: seq<Event>, w: World, s: int)
    requires s in c.owners && Core(c.property, w)
    ensures var before := RowOfStay(c, w.table, s);
            before.Some? && CanSkip(IndexFor(c, listing), before.value,
                                    Draft(c, IndexFor(c, listing), before, Build(c, s)))
            <==> UpToDate(c, listing, s, before)
  {
    hide IndexOf, Match, Core, ShownUnder;
    var idx, before := IndexFor(c, listing), RowOfStay(c, w.table, s);
    if before.Some? {
      var r, d := before.value, Draft(c, idx, before, Build(c, s));
      assert RowOk(c.property, w.remote, r) && r.identity == Some(CanonicalIdentity(c, s)) by {
        LookupIsOk(c.property, w, CanonicalIdentity(c, s));
      }
      DraftIsDrafted(c, idx, before, s, d);
      if r.googleId.Some? && r.googleId.value != "" {
        SeenIsShown(listing, c.property, c.offset, r);
        assert UNLISTED.listed == false;
        IndexIsListed(listing, c.property, c.offset);
      }
      if r.desiredHash.Some? {
        SameDigest(r, d, c.timezone);
      }
    }
  }

  lemma {:induction false} IndexIsListed(listing: seq<Event>, property: int, offset: int)
    ensures IndexOf(listing, property, offset).listed
  {
    if listing != [] {
      IndexIsListed(listing[..|listing| - 1], property, offset);
    }
  }

  lemma SameDigest(r: Row, d: Row, timezone: string)
    requires r.desiredHash.Some? && Agrees(r.desiredHash.value, r)
    requires d.desiredHash
             == Some(Digest(d.calendar, d.title, d.starts, d.ends, timezone, d.identity, d.stay, d.sameDay))
    ensures r.desiredHash == d.desiredHash <==>
              && r.desiredHash.value.timezone == timezone && r.calendar == d.calendar && r.title == d.title
              && r.starts == d.starts && r.ends == d.ends && r.identity == d.identity && r.stay == d.stay
              && r.sameDay == d.sameDay
  {
  }

  // ---------- what a turn writes ----------

  /** The row leads to a live event with its own calendar, title and times, and with its marks. */
  predicate Carried(c: Context, m: Remote, r: Row) {
    && r.googleId.Some? && r.googleId.value in m.events
    && m.events[r.googleId.value] == Event(r.googleId.value, r.calendar, false, r.starts, r.ends, r.title,
                                           Props(Some(c.property), Some(r.id), r.identity, Some(r.stay)))
  }

  /** Saved and carried to the calendar, or kept for another attempt. */
  predicate Attempted(c: Context, m: Remote, r: Row) {
    || (r.status == Synced && r.pending == NoAction && Carried(c, m, r))
    || (r.status == Error && r.pending == UpsertAction)
  }

  lemma SyncIsExact(c: Context, w: World, r: Row, reply: UpsertReply)
    requires Core(c.property, w) && r.id in w.table.rows && w.table.rows[r.id] == r
    ensures var (w', ok) := SyncUpsert(c, w, r, reply);
            && r.id in w'.table.rows && Rewrites(w.table, w'.table, w'.table.rows[r.id])
            && var x := w'.table.rows[r.id];
               && x == r.(googleId := x.googleId, status := x.status, pending := x.pending)
               && Attempted(c, w'.remote, x) && (ok <==> x.status == Synced)
  {
    hide Core, RemoteUpsert, SetPending, SetGoogleResult;
    var (w', ok) := SyncUpsert(c, w, r, reply);
    if ok {
      SyncUpsertSettles(c.property, c, w, r, reply);
    } else {
      ResultRewrites(w.table, r, None, Error);
      var (m, result) := RemoteUpsert(w.remote, c.property, r, reply);
      if result.Answered? {
        ResultRewrites(w.table, r, Some(result.id), Error);
      }
    }
  }

  /** The ids a turn hands over: the one its row had and the one it was matched to. */
  function HandedOver(c: Context, listing: seq<Event>, before: Option<Row>, s: int): set<string>
    requires s in c.owners
  {
    var matched := Match(IndexFor(c, listing), Unmatched(c, before, s), before);
    (if before.Some? && before.value.googleId.Some? then {before.value.googleId.value} else {})
    + if matched != "" then {matched} else {}
  }

  /** What a turn makes of the row it finds, of the counters and of the ids handed over. */
  ghost predicate TurnDone(c: Context, listing: seq<Event>, p: Progress, p': Progress, s: int)
    requires s in c.owners
  {
    var before, after := RowOfStay(c, p.world.table, s), RowOfStay(c, p'.world.table, s);
    if UpToDate(c, listing, s, before) then p' == p.(seen := p.seen + 1)
    else
      && p'.seen == p.seen + 1 && p'.upserted == p.upserted + 1 && p'.removed == p.removed
      && p'.reused == p.reused + HandedOver(c, listing, before, s)
      && after.Some? && Drafted(c, s, before, after.value) && Attempted(c, p'.world.remote, after.value)
      && (p'.failed <==> p.failed || after.value.status == Error)
  }

  /**
   * A turn leaves an up-to-date row and its event alone. Otherwise it writes what the stay calls for into the row, and,
   * unless the call fails, the same into a live event of the row's own.
   */
  lemma TurnIsExact(c: Context, listing: seq<Event>, p: Progress, s: int, reply: UpsertReply)
    requires ValidContext(c) && s in c.owners && Core(c.property, p.world)
    requires c.configured ==> Listed(p.world.remote, listing)
    requires !WouldTake(c, p.world.table, listing, s)
    ensures TurnDone(c, listing, p, DesireStep(c, IndexFor(c, listing), p, s, reply), s)
  {
    hide Build, Draft, WouldTake, SyncUpsert, Inherit, Core, RowOk, Match, UpToDate, Drafted, Attempted, CanSkip,
      TouchesCleaning, Listed;
    var idx, before := IndexFor(c, listing), RowOfStay(c, p.world.table, s);
    var d := Draft(c, idx, before, Build(c, s));
    SkippedExactly(c, listing, p.world, s);
    BuiltFor(c, s);
    DraftIsOk(c, idx, before, s);
    if !UpToDate(c, listing, s, before) {
      SaveTouches(c, listing, p.world, s);
      var (t, saved) := UpsertByIdentity(p.world.table, d);
      var w1 := World(t, p.world.remote);
      SyncIsExact(c, w1, saved, reply);
      DraftIsMatched(c, listing, before, s);
      var w2 := SyncUpsert(c, w1, saved, reply).0;
      var after := w2.table.rows[saved.id];
      DraftIsDrafted(c, idx, before, s, after);
      assert RowOfStay(c, w2.table, s) == Some(after);
      OneStatus(c, w2.remote, after);
    }
  }

  lemma OneStatus(c: Context, m: Remote, r: Row)
    requires Attempted(c, m, r)
    ensures r.status == Synced || r.status == Error
  {
  }

  lemma BuiltFor(c: Context, s: int)
    requires s in c.owners
    ensures Build(c, s).identity == Some(CanonicalIdentity(c, s))
  {
  }

  lemma DraftIsMatched(c: Context, listing: seq<Event>, before: Option<Row>, s: int)
    requires s in c.owners
    ensures var m := Match(IndexFor(c, listing), Unmatched(c, before, s), before);
            IdSet(Draft(c, IndexFor(c, listing), before, Build(c, s)).googleId) == if m != "" then {m} else {}
  {
    hide Match;
  }

  // ---------- what a turn of phase two does ----------

  /** The row lies in the past or an eligible stay calls for it, and its deletion was not begun. */
  predicate LeftAlone(c: Context, r: Row) {
    r.pending != DeleteAction
    && (r.date < c.today || (r.stay in c.owners && r.date == c.owners[r.stay]
                             && r.identity == Some(Identity(c.property, r.stay, r.date))))
  }

  /** The id a deletion goes by: the stored one, or for a row without one the id it is matched to. */
  function DeletionId(c: Context, listing: seq<Event>, r: Row): Option<string> {
    var matched := Match(IndexFor(c, listing), r, Some(r));
    if r.googleId.None? && r.pending != DeleteAction && matched != "" then Some(matched) else r.googleId
  }

  /** The remote events after a call that deletes `id` from a calendar. */
  function WithoutEvent(m: Remote, calendar: string, id: string): Remote {
    if id in m.events && m.events[id].calendar == calendar
    then Remote(m.events[id := m.events[id].(cancelled := true)], m.issued) else m
  }

  /** Only the row differs, and it has become `r'`. */
  ghost predicate Became(t: Table, t': Table, r': Row) {
    t' == t.(rows := t.rows[r'.id := r'])
  }

  /** What a turn makes of the row, the calendar and the counters. */
  ghost predicate RetireDone(c: Context, listing: seq<Event>, p: Progress, p': Progress, r: Row, reply: DeleteReply) {
    var w, w', id := p.world, p'.world, DeletionId(c, listing, r);
    if LeftAlone(c, r) then
      && Became(w.table, w'.table, r.(pending := if r.date < c.today then NoAction else r.pending))
      && w'.remote == w.remote && p' == p.(world := w')
    else if r.pending != DeleteAction && r.googleId.Some? && r.googleId.value in p.reused then
      && Became(w.table, w'.table, r.(status := Removed, pending := NoAction))
      && w'.remote == w.remote && p' == p.(world := w', removed := p.removed + 1)
    else if id.None? || id.value == "" then
      && Became(w.table, w'.table, r.(status := Removed, pending := NoAction))
      && w'.remote == w.remote && p' == p.(world := w', removed := p.removed + 1)
    else
      && w'.remote == (if c.configured
                       && (reply.Gone? || reply.applied) then WithoutEvent(w.remote, r.calendar, id.value)
                       else w.remote)
      && if c.configured && reply.Gone?
         then Became(w.table, w'.table, r.(googleId := id, status := Removed, pending := NoAction))
              && p' == p.(world := w', removed := p.removed + 1)
         else Became(w.table, w'.table, r.(googleId := id, status := Error, pending := DeleteAction))
              && p' == p.(world := w', failed := true)
  }

  /**
   * A row that is left alone keeps its event and forgets at most an upsert that never came; one whose id was handed
   * over is set aside without a call; any other is removed through its own id or the one it is matched to, and keeps
   * asking for its deletion until a call succeeds.
   */
  lemma RetireIsExact(c: Context, listing: seq<Event>, p: Progress, r: Row, reply: DeleteReply)
    requires r.id in p.world.table.rows && p.world.table.rows[r.id] == r
    ensures RetireDone(c, listing, p, RetireStep(c, IndexFor(c, listing), p, r, reply), r, reply)
  {
    if LeftAlone(c, r) || (r.pending != DeleteAction && r.googleId.Some? && r.googleId.value in p.reused) {
      QuietTurn(c, listing, p, r, reply);
    } else {
      DeletingTurn(c, listing, p, r, reply);
    }
  }

  lemma QuietTurn(c: Context, listing: seq<Event>, p: Progress, r: Row, reply: DeleteReply)
    requires r.id in p.world.table.rows && p.world.table.rows[r.id] == r
    requires LeftAlone(c, r) || (r.pending != DeleteAction && r.googleId.Some? && r.googleId.value in p.reused)
    ensures RetireDone(c, listing, p, RetireStep(c, IndexFor(c, listing), p, r, reply), r, reply)
  {
    hide IndexFor, Match, SyncDelete;
    assert p.world.table.rows == p.world.table.rows[r.id := r];
  }

  lemma DeletingTurn(c: Context, listing: seq<Event>, p: Progress, r: Row, reply: DeleteReply)
    requires r.id in p.world.table.rows && p.world.table.rows[r.id] == r && !LeftAlone(c, r)
    requires r.pending != DeleteAction && r.googleId.Some? ==> r.googleId.value !in p.reused
    ensures RetireDone(c, listing, p, RetireStep(c, IndexFor(c, listing), p, r, reply), r, reply)
  {
    hide IndexFor, Match, SyncDelete, WithoutEvent;
    var matched := Match(IndexFor(c, listing), r, Some(r));
    if r.pending != DeleteAction && r.googleId.None? && matched != "" {
      var w := World(MarkSeen(p.world.table, r.id, matched), p.world.remote);
      var r1 := r.(googleId := Some(matched));
      DeleteIsExact(c, w, r1, reply);
      var t' := SyncDelete(c, w, r1, reply).0.table;
      BecameTwice(p.world.table, w.table, t', r1, r1.(status := Removed, pending := NoAction));
      BecameTwice(p.world.table, w.table, t', r1, r1.(status := Error, pending := DeleteAction));
    } else {
      DeleteIsExact(c, p.world, r, reply);
    }
  }

  lemma BecameTwice(t: Table, t1: Table, t2: Table, r1: Row, r2: Row)
    requires r1.id == r2.id && Became(t, t1, r1)
    ensures Became(t1, t2, r2) <==> Became(t, t2, r2)
  {
    assert t1.rows[r2.id := r2] == t.rows[r2.id := r2];
  }

  /** What a deletion through the row's own id makes of the row and the calendar. */
  ghost predicate DeleteDone(c: Context, w: World, w': World, r: Row, reply: DeleteReply) {
    if r.googleId.None? || r.googleId.value == "" then
      Became(w.table, w'.table, r.(status := Removed, pending := NoAction)) && w'.remote == w.remote
    else
      && w'.remote == (if c.configured && (reply.Gone? || reply.applied)
                       then WithoutEvent(w.remote, r.calendar, r.googleId.value) else w.remote)
      && Became(w.table, w'.table, if c.configured && reply.Gone? then r.(status := Removed, pending := NoAction)
                                   else r.(status := Error, pending := DeleteAction))
  }

  lemma DeleteIsExact(c: Context, w: World, r: Row, reply: DeleteReply)
    requires r.id in w.table.rows && w.table.rows[r.id] == r
    ensures var (w', ok) := SyncDelete(c, w, r, reply);
            && DeleteDone(c, w, w', r, reply)
            && (ok <==> r.googleId.None? || r.googleId.value == "" || (c.configured && reply.Gone?))
  {
    SyncDeleteWrites(c, w, r, reply);
  }

  /**
   * A retry deletes through a row that is removed or waiting for its deletion, and brings any other up to date with
   * what the row holds already; no other row changes.
   */
  lemma RetryIsExact(c: Context, w: World, id: int, reply: UpsertReply, delete: DeleteReply)
    requires Core(c.property, w) && id in w.table.rows
    ensures var r, w' := w.table.rows[id], Retry(c, w, id, reply, delete);
            if r.pending == DeleteAction || r.status == Removed then DeleteDone(c, w, w', r, delete)
            else
              && id in w'.table.rows && Became(w.table, w'.table, w'.table.rows[id])
              && var x := w'.table.rows[id];
                 x == r.(googleId := x.googleId, status := x.status, pending := x.pending)
                 && Attempted(c, w'.remote, x)
  {
    hide RowOk, RemoteOk, Attempted, DeleteDone, SyncUpsert, SyncDelete;
    var r := w.table.rows[id];
    assert r.id == id;
    if r.pending == DeleteAction || r.status == Removed {
      DeleteIsExact(c, w, r, delete);
    } else {
      SyncIsExact(c, w, r, reply);
    }
  }
}
