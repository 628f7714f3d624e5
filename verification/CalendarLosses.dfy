/** Exactly which past rows lose their events to a pass, tangled or not, in terms of what the pass starts from. */
module CalendarLosses {
  import opened Text
  import opened CalendarModel
  import opened EventIndex
  import opened CalendarPass
  import opened CalendarSafety
  import opened CalendarPhases
  import opened CalendarRuns

  /** The call is carried out, whatever it answers. */
  predicate Applies(reply: UpsertReply) {
    reply.Answers? || reply.applied
  }

  predicate Cancels(reply: DeleteReply) {
    reply.Gone? || reply.applied
  }

  /** `k` is an event of the past row `x`, which is not being deleted. */
  predicate IsPast(c: Context, w: World, x: int, k: string) {
    && x in w.table.rows && w.table.rows[x].date < c.today && w.table.rows[x].pending != DeleteAction
    && k in w.remote.events && OwnedBy(c, w.remote.events[k], x)
  }

  /** What the stay would be matched to. */
  function MatchOf(c: Context, t: Table, listing: seq<Event>, s: int): string
    requires s in c.owners
  {
    Match(IndexFor(c, listing), Unmatched(c, RowOfStay(c, t, s), s), RowOfStay(c, t, s))
  }

  /** Nothing but the stay and the day leads to an event for the stay, the event is `k`, and the call is carried out. */
  ghost predicate Takes(c: Context, w: World, listing: seq<Event>, s: int, reply: UpsertReply, k: string) {
    && s in c.owners && WouldTake(c, w.table, listing, s) && MatchOf(c, w.table, listing, s) == k
    && Reachable(w.remote, c.settings.calendar, k) && Applies(reply)
  }

  ghost predicate Taken(c: Context, w: World, listing: seq<Event>, stays: seq<int>, replies: int -> UpsertReply,
                        k: string) {
    c.configured && exists s :: s in stays && Takes(c, w, listing, s, replies(s), k)
  }

  /** The same for a row that the second phase retires. */
  ghost predicate Away(c: Context, w: World, listing: seq<Event>, r: Row, reply: DeleteReply, k: string) {
    && WouldAdopt(c, r, listing) && Match(IndexFor(c, listing), r, Some(r)) == k
    && Reachable(w.remote, r.calendar, k) && Cancels(reply)
  }

  // ---------- one call ----------

  /** A call through the row reaches the event. */
  predicate Leads(c: Context, w: World, r: Row, k: string) {
    c.configured && r.googleId == Some(k) && Reachable(w.remote, r.calendar, k)
  }

  /** An upsert writes at most the event its row leads to; what is already there is otherwise as it was. */
  lemma UpsertWritesOne(c: Context, w: World, r: Row, reply: UpsertReply, k: string)
    requires k in w.remote.events && k in w.remote.issued
    ensures var m := SyncUpsert(c, w, r, reply).0.remote;
            && w.remote.issued <= m.issued && k in m.events
            && m.events[k] == if Leads(c, w, r, k) && Applies(reply)
                              then Payload(c.property, r, k, reply.Answers? && !reply.confirmed) else w.remote.events[k]
  {
  }

  lemma DeleteCancelsOne(c: Context, w: World, r: Row, reply: DeleteReply, k: string)
    requires k in w.remote.events && k != ""
    ensures var m := SyncDelete(c, w, r, reply).0.remote;
            && k in m.events
            && m.events[k] == if Leads(c, w, r, k) && Cancels(reply)
                              then w.remote.events[k].(cancelled := true) else w.remote.events[k]
  {
  }

  // ---------- phase one ----------

  /** The remote id the turn of a stay ends up with, going by the row the stay has. */
  function Aim(c: Context, listing: seq<Event>, existing: Option<Row>, s: int): Option<string>
    requires s in c.owners
  {
    OrElse(Draft(c, IndexFor(c, listing), existing, Build(c, s)).googleId,
           if existing.Some? then existing.value.googleId else None)
  }

  /** A stay of the window aims at the event of a past row exactly when it would take it. */
  lemma AimIsTaking(c: Context, listing: seq<Event>, w: World, s: int, x: int, k: string)
    requires s in c.owners && c.owners[s] >= c.today && Core(c.property, w) && IsPast(c, w, x, k)
    requires c.configured ==> Listed(w.remote, listing)
    ensures var existing := RowOfStay(c, w.table, s);
            && (Aim(c, listing, existing, s) == Some(k) <==>
                  WouldTake(c, w.table, listing, s) && MatchOf(c, w.table, listing, s) == k)
            && (existing.Some? ==> existing.value.id != x)
  {
    hide Match, WouldTake, Inherit, Build;
    var existing := RowOfStay(c, w.table, s);
    DraftTakesExactly(c, listing, w, s);
    DraftIsMatch(c, listing, existing, s);
    if existing.Some? {
      StayIsCurrent(c, w, s);
      assert RowOk(c.property, w.remote, w.table.rows[existing.value.id]);
    }
  }

  /** The draft of a stay has the id it is matched to, or none. */
  lemma DraftIsMatch(c: Context, listing: seq<Event>, existing: Option<Row>, s: int)
    requires s in c.owners
    ensures var m := Match(IndexFor(c, listing), Unmatched(c, existing, s), existing);
            Draft(c, IndexFor(c, listing), existing, Build(c, s)).googleId == if m == "" then None else Some(m)
  {
    hide Match;
  }

  lemma SeenIsFound(listing: seq<Event>, property: int, offset: int, r: Row)
    ensures Seen(IndexOf(listing, property, offset), r) ==>
              r.googleId.Some? && !Nobody(listing, HasId(r.googleId.value), property, offset)
  {
    IndexIsFaithful(listing, property, offset);
    var idx := IndexOf(listing, property, offset);
    if Seen(idx, r) {
      var e := idx.byId[r.googleId.value];
      assert e in listing && Satisfies(e, HasId(r.googleId.value), property, offset);
    }
  }

  /** Who would take is not skipped: no id of its own is listed. */
  lemma TakersAreNotSkipped(c: Context, listing: seq<Event>, t: Table, s: int, d: Row)
    requires s in c.owners && WouldTake(c, t, listing, s) && RowOfStay(c, t, s).Some?
    ensures !CanSkip(IndexFor(c, listing), RowOfStay(c, t, s).value, d)
  {
    var r := RowOfStay(c, t, s).value;
    SeenIsFound(listing, c.property, c.offset, r);
    var cs := Criteria(Unmatched(c, Some(r), s), Some(r));
    assert Nobody(listing, cs[0], c.property, c.offset);
    assert IndexOf(listing, c.property, c.offset).listed by {
      IndexIsFaithful(listing, c.property, c.offset);
    }
  }

  /** The row of a stay that had its turn: current, and waiting for a deletion only if the turn skipped it. */
  predicate HadTurn(c: Context, t: Table, t': Table, s: int)
    requires s in c.owners
  {
    RowOfStay(c, t', s).Some? &&
    var r := RowOfStay(c, t', s).value;
    r.stay == s && r.date == c.owners[s] && (r.pending == DeleteAction ==> RowOfStay(c, t, s) == Some(r))
  }

  /** The table as phase one has made it so far; the calendar is left out of account. */
  ghost predicate RowsSoFar(c: Context, w: World, t: Table, init: seq<int>) {
    && TableOk(t) && TouchesStays(c, w, World(t, w.remote), init)
    && forall s | s in init :: s in c.owners && HadTurn(c, w.table, t, s)
  }

  /** The event as phase one has made it so far. */
  ghost predicate EventSoFar(c: Context, w: World, m: Remote, listing: seq<Event>, init: seq<int>,
                             replies: int -> UpsertReply, x: int, k: string)
    requires k in w.remote.events
  {
    && w.remote.issued <= m.issued && k in m.events
    && if Taken(c, w, listing, init, replies, k) then m.events[k].props.rowId != Some(x)
       else m.events[k] == w.remote.events[k]
  }

  /** One turn rewrites at most the row of its stay. */
  lemma TurnTouchesRow(c: Context, idx: Index, p: Progress, s: int, reply: UpsertReply, m: Remote)
    requires ValidContext(c) && s in c.owners && TableOk(p.world.table)
    requires RowOfStay(c, p.world.table, s).Some? ==>
               var r := RowOfStay(c, p.world.table, s).value; r.stay == s && r.date == c.owners[s]
    ensures var t, t' := p.world.table, DesireStep(c, idx, p, s, reply).world.table;
            && TableOk(t') && HadTurn(c, t, t', s)
            && (t' == t || TouchesCleaning(c.property, World(t, m), World(t', m), CanonicalIdentity(c, s)))
  {
    hide CanSkip, Draft, SyncUpsert, TouchesCleaning;
    var t, i := p.world.table, CanonicalIdentity(c, s);
    var existing := Lookup(t, i);
    var d := Draft(c, idx, existing, Build(c, s));
    DraftIsOk(c, idx, existing, s);
    if existing.Some? && CanSkip(idx, existing.value, d) {
    } else {
      SavedIsOne(c.property, World(t, m), d, i);
      var (t1, saved) := UpsertByIdentity(t, d);
      SavingKeepsTable(t, d);
      SyncRewritesRow(c, World(t1, p.world.remote), saved, reply, m, i);
      var t2 := SyncUpsert(c, World(t1, p.world.remote), saved, reply).0.table;
      TouchesComposes(c.property, World(t, m), World(t1, m), World(t2, m), i);
    }
  }

  lemma SyncRewritesRow(c: Context, w: World, r: Row, reply: UpsertReply, m: Remote, i: Identity)
    requires TableOk(w.table) && r.id in w.table.rows && w.table.rows[r.id] == r && r.identity == Some(i)
    ensures var t' := SyncUpsert(c, w, r, reply).0.table;
            && TableOk(t') && TouchesCleaning(c.property, World(w.table, m), World(t', m), i)
            && i in t'.byIdentity && t'.byIdentity[i] == r.id && r.id in t'.rows
            && t'.rows[r.id].stay == r.stay && t'.rows[r.id].date == r.date && t'.rows[r.id].pending != DeleteAction
  {
    hide SyncUpsert;
    SyncUpsertWrites(c, w, r, reply);
    assert w.table.byIdentity[i] == r.id;
  }

  /** What one turn does to the event of a past row. */
  lemma TurnTouchesEvent(c: Context, listing: seq<Event>, w: World, p: Progress, s: int, reply: UpsertReply, x: int,
                         k: string)
    requires ValidContext(c) && s in c.owners && c.owners[s] >= c.today && Core(c.property, w) && IsPast(c, w, x, k)
    requires c.configured ==> Listed(w.remote, listing)
    requires TableOk(p.world.table) && RowOfStay(c, p.world.table, s) == RowOfStay(c, w.table, s)
             && x in p.world.table.rows
    requires w.remote.issued <= p.world.remote.issued && k in p.world.remote.events
    ensures var m, m' := p.world.remote, DesireStep(c, IndexFor(c, listing), p, s, reply).world.remote;
            && w.remote.issued <= m'.issued && k in m'.events
            && (m'.events[k] == m.events[k] || m'.events[k].props.rowId != Some(x))
            && (m.events[k] == w.remote.events[k] ==>
                  if c.configured && Takes(c, w, listing, s, reply, k) then m'.events[k].props.rowId != Some(x)
                  else m'.events[k] == m.events[k])
  {
    hide Draft, CanSkip, WouldTake, SyncUpsert, Match, TouchesStays;
    var idx := IndexFor(c, listing);
    var existing := RowOfStay(c, w.table, s);
    var d := Draft(c, idx, existing, Build(c, s));
    AimIsTaking(c, listing, w, s, x, k);
    DraftIsOk(c, idx, existing, s);
    assert k in w.remote.issued by {
      OnlyIssued(c.property, w, k);
    }
    if existing.Some? && CanSkip(idx, existing.value, d) {
      if WouldTake(c, w.table, listing, s) {
        TakersAreNotSkipped(c, listing, w.table, s, d);
      }
    } else {
      var (t, saved) := UpsertByIdentity(p.world.table, d);
      SavingKeepsTable(p.world.table, d);
      assert saved.googleId == Aim(c, listing, existing, s) && saved.calendar == c.settings.calendar && saved.id != x;
      UpsertWritesOne(c, World(t, p.world.remote), saved, reply, k);
    }
  }

  lemma TakenByMore(c: Context, w: World, listing: seq<Event>, init: seq<int>, s: int, replies: int -> UpsertReply,
                    k: string)
    ensures Taken(c, w, listing, init + [s], replies, k) <==>
              Taken(c, w, listing, init, replies, k) || (c.configured && Takes(c, w, listing, s, replies(s), k))
  {
    hide Takes;
    if Taken(c, w, listing, init, replies, k) {
      var x :| x in init && Takes(c, w, listing, x, replies(x), k);
      assert x in init + [s];
    }
    assert s in init + [s];
  }

  lemma {:induction false} PhaseOne(c: Context, listing: seq<Event>, w: World, stays: seq<int>,
                                    replies: int -> UpsertReply, x: int, k: string)
    requires ValidContext(c) && Core(c.property, w) && IsPast(c, w, x, k) && Distinct(stays)
    requires forall s | s in stays :: s in c.owners && c.owners[s] >= c.today
    requires c.configured ==> Listed(w.remote, listing)
    ensures var w1 := Desired(c, w, listing, stays, replies);
            && RowsSoFar(c, w, w1.table, stays) && EventSoFar(c, w, w1.remote, listing, stays, replies, x, k)
  {
    if stays == [] {
      TouchesNothing(c, w);
    } else {
      var init, s := stays[..|stays| - 1], stays[|stays| - 1];
      LastIsNew(stays);
      PhaseOne(c, listing, w, init, replies, x, k);
      var p := DesireAll(c, IndexFor(c, listing), Start(w), init, replies);
      PhaseOneTurn(c, listing, w, p, init, s, replies, x, k);
    }
  }

  lemma PhaseOneTurn(c: Context, listing: seq<Event>, w: World, p: Progress, init: seq<int>, s: int,
                     replies: int -> UpsertReply, x: int, k: string)
    requires ValidContext(c) && Core(c.property, w) && IsPast(c, w, x, k)
    requires s in c.owners && c.owners[s] >= c.today && s !in init
    requires c.configured ==> Listed(w.remote, listing)
    requires RowsSoFar(c, w, p.world.table, init) && EventSoFar(c, w, p.world.remote, listing, init, replies, x, k)
    ensures var w1 := DesireStep(c, IndexFor(c, listing), p, s, replies(s)).world;
            && RowsSoFar(c, w, w1.table, init + [s])
            && EventSoFar(c, w, w1.remote, listing, init + [s], replies, x, k)
  {
    hide DesireStep, Takes, TouchesStays, TouchesCleaning, HadTurn;
    var t, w1 := p.world.table, DesireStep(c, IndexFor(c, listing), p, s, replies(s)).world;
    OtherStaysKeepTheirRow(c, w, World(t, w.remote), init, s);
    if RowOfStay(c, w.table, s).Some? {
      StayIsCurrent(c, w, s);
    }
    TurnTouchesRow(c, IndexFor(c, listing), p, s, replies(s), w.remote);
    RowsMore(c, w, t, w1.table, init, s);
    assert x in t.rows by {
      RowIsStillThere(c, w, World(t, w.remote), init, x);
    }
    TurnTouchesEvent(c, listing, w, p, s, replies(s), x, k);
    TakenByMore(c, w, listing, init, s, replies, k);
  }

  lemma RowIsStillThere(c: Context, w: World, w1: World, stays: seq<int>, x: int)
    requires TouchesStays(c, w, w1, stays) && x in w.table.rows
    ensures x in w1.table.rows
  {
  }

  lemma RowsMore(c: Context, w: World, t: Table, t': Table, init: seq<int>, s: int)
    requires TableOk(w.table) && RowsSoFar(c, w, t, init) && s in c.owners && s !in init && TableOk(t')
    requires HadTurn(c, t, t', s) && RowOfStay(c, t, s) == RowOfStay(c, w.table, s)
    requires t' == t || TouchesCleaning(c.property, World(t, w.remote), World(t', w.remote), CanonicalIdentity(c, s))
    ensures RowsSoFar(c, w, t', init + [s])
  {
    hide TouchesStays, TouchesCleaning, TableOk;
    if t' == t {
      TouchesMore(c, w, World(t, w.remote), init, s);
    } else {
      DesireExtends(c, w, World(t, w.remote), World(t', w.remote), init, s);
      forall x | x in init
        ensures RowOfStay(c, t', x) == RowOfStay(c, t, x)
      {
        OneTurnKeepsOthers(c, World(t, w.remote), World(t', w.remote), s, x);
      }
    }
  }

  // ---------- phase two ----------

  /** The id the turn of a row deletes through, if any. */
  function Goal(c: Context, idx: Index, reused: set<string>, r: Row): Option<string> {
    if r.pending == DeleteAction then r.googleId
    else if r.date < c.today || Current(c, r) then None
    else if r.googleId.Some? then (if r.googleId.value in reused then None else r.googleId)
    else if Match(idx, r, Some(r)) != "" then Some(Match(idx, r, Some(r))) else None
  }

  lemma RetireCancelsGoal(c: Context, idx: Index, p: Progress, r: Row, reply: DeleteReply, k: string)
    requires k in p.world.remote.events && k != ""
    ensures var m, m' := p.world.remote, RetireStep(c, idx, p, r, reply).world.remote;
            && k in m'.events && RetireStep(c, idx, p, r, reply).reused == p.reused
            && m'.events[k] == if c.configured && Goal(c, idx, p.reused, r) == Some(k) && Reachable(m, r.calendar, k)
                                  && Cancels(reply)
                               then m.events[k].(cancelled := true) else m.events[k]
  {
    hide Match, Current, SyncDelete, MarkSeen, MarkRemoved, SetPending;
    var w := p.world;
    var matched := Match(idx, r, Some(r));
    DeleteCancelsOne(c, w, r, reply, k);
    DeleteCancelsOne(c, World(MarkSeen(w.table, r.id, matched), w.remote), r.(googleId := Some(matched)), reply, k);
  }

  /**
   * A row of the table between the phases whose deletion would go to the past row's event is a row that would adopt it.
   */
  lemma GoalIsAway(c: Context, listing: seq<Event>, w: World, t: Table, stays: seq<int>, reused: set<string>, r: Row,
                   x: int, k: string)
    requires Core(c.property, w) && IsPast(c, w, x, k) && RowsSoFar(c, w, t, stays)
    requires forall s | s in stays :: s in c.owners && c.owners[s] >= c.today
    requires c.configured && Listed(w.remote, listing)
    requires r.id in t.rows && t.rows[r.id] == r && r.status != Removed
    ensures Goal(c, IndexFor(c, listing), reused, r) == Some(k) <==>
              WouldAdopt(c, r, listing) && Match(IndexFor(c, listing), r, Some(r)) == k
  {
    hide Match;
    if r.identity.Some? && CalledFor(c, r.identity, stays) {
      CalledRowsAreCurrent(c, w, t, stays, r);
      if r.pending == DeleteAction {
        StayIsCurrent(c, w, r.identity.value.stay);
        assert RowOk(c.property, w.remote, w.table.rows[r.id]);
        OwnGoal(c, w, r, x, k);
      }
    } else {
      assert r.id in w.table.rows && w.table.rows[r.id] == r;
      assert RowOk(c.property, w.remote, w.table.rows[r.id]);
      OwnGoal(c, w, r, x, k);
      if Adopts(c, r) {
        AdoptionTakesExactly(c, listing, w, r);
      }
    }
  }

  /** A row whose id is the past row's event is the past row. */
  lemma OwnGoal(c: Context, w: World, r: Row, x: int, k: string)
    requires Core(c.property, w) && IsPast(c, w, x, k) && RowOk(c.property, w.remote, r)
    ensures r.googleId == Some(k) ==> r.id == x
    ensures Mine(c.property, w, k, Some(r)) ==> r.id == x
  {
  }

  lemma CalledRowsAreCurrent(c: Context, w: World, t: Table, stays: seq<int>, r: Row)
    requires RowsSoFar(c, w, t, stays) && r.id in t.rows && t.rows[r.id] == r && CalledFor(c, r.identity, stays)
    ensures Current(c, r) && (r.pending == DeleteAction ==> RowOfStay(c, w.table, r.identity.value.stay) == Some(r))
    ensures r.date == c.owners[r.identity.value.stay]
  {
    var s := r.identity.value.stay;
    assert s in stays && RowOfStay(c, t, s) == Some(r);
    assert HadTurn(c, w.table, t, s);
  }

  /** Some row of the list deletes the event. */
  ghost predicate AwayWith(c: Context, w: World, listing: seq<Event>, active: seq<Row>, deletes: int -> DeleteReply,
                           k: string)
  {
    c.configured && exists r :: r in active && Away(c, w, listing, r, deletes(r.id), k)
  }

  lemma AwayWithMore(c: Context, w: World, listing: seq<Event>, init: seq<Row>, r: Row, deletes: int -> DeleteReply,
                     k: string)
    ensures AwayWith(c, w, listing, init + [r], deletes, k) <==>
              AwayWith(c, w, listing, init, deletes, k) || (c.configured && Away(c, w, listing, r, deletes(r.id), k))
  {
    hide Away;
    if AwayWith(c, w, listing, init, deletes, k) {
      var x :| x in init && Away(c, w, listing, x, deletes(x.id), k);
      assert x in init + [r];
    }
    assert r in init + [r];
  }

  /** The event after some turns of phase two that found it as the pass did. */
  function Cancelled(e: Event, away: bool): Event {
    if away then e.(cancelled := true) else e
  }

  lemma {:induction false} PhaseTwo(c: Context, listing: seq<Event>, w: World, stays: seq<int>, p1: Progress,
                                    active: seq<Row>, deletes: int -> DeleteReply, x: int, k: string)
    requires Core(c.property, w) && IsPast(c, w, x, k) && RowsSoFar(c, w, p1.world.table, stays)
    requires forall s | s in stays :: s in c.owners && c.owners[s] >= c.today
    requires c.configured ==> Listed(w.remote, listing)
    requires forall r | r in active ::
               r.id in p1.world.table.rows && p1.world.table.rows[r.id] == r && r.status != Removed
    requires k in p1.world.remote.events
    ensures var p2 := RetireAll(c, IndexFor(c, listing), p1, active, deletes);
            && p2.reused == p1.reused && k in p2.world.remote.events
            && p2.world.remote.events[k].props == p1.world.remote.events[k].props
            && (p1.world.remote.events[k] == w.remote.events[k] ==>
                  p2.world.remote.events[k] ==
                    Cancelled(w.remote.events[k], AwayWith(c, w, listing, active, deletes, k)))
  {
    if active != [] {
      hide RetireStep, Match, WouldAdopt, RowsSoFar, Core, Listed;
      var init, r := active[..|active| - 1], active[|active| - 1];
      assert active == init + [r] && r in active && forall y | y in init :: y in active;
      PhaseTwo(c, listing, w, stays, p1, init, deletes, x, k);
      var p := RetireAll(c, IndexFor(c, listing), p1, init, deletes);
      assert k != "" by {
        NamesAreNotBlank(c.property, w, k);
      }
      RetireCancelsGoal(c, IndexFor(c, listing), p, r, deletes(r.id), k);
      if c.configured {
        GoalIsAway(c, listing, w, p1.world.table, stays, p1.reused, r, x, k);
      }
      AwayWithMore(c, w, listing, init, r, deletes, k);
    }
  }

  lemma NamesAreNotBlank(property: int, w: World, k: string)
    requires Core(property, w) && k in w.remote.events
    ensures k != ""
  {
  }

  // ---------- the pass ----------

  /** Some row of the table the pass starts from is retired through the event. */
  ghost predicate AwayFromStart(c: Context, w: World, listing: seq<Event>, deletes: int -> DeleteReply, k: string) {
    c.configured && exists id :: id in w.table.rows && Away(c, w, listing, w.table.rows[id], deletes(id), k)
  }

  lemma AwayIsFromStart(c: Context, w: World, t: Table, listing: seq<Event>, stays: seq<int>, active: seq<Row>,
                        deletes: int -> DeleteReply, k: string)
    requires Core(c.property, w) && RowsSoFar(c, w, t, stays) && ListsActive(t, active)
    ensures AwayWith(c, w, listing, active, deletes, k) <==> AwayFromStart(c, w, listing, deletes, k)
  {
    hide Match;
    if AwayWith(c, w, listing, active, deletes, k) {
      var r :| r in active && Away(c, w, listing, r, deletes(r.id), k);
      if CalledFor(c, r.identity, stays) {
        CalledRowsAreCurrent(c, w, t, stays, r);
      }
      assert r.id in w.table.rows && w.table.rows[r.id] == r;
    }
    if AwayFromStart(c, w, listing, deletes, k) {
      var id :| id in w.table.rows && Away(c, w, listing, w.table.rows[id], deletes(id), k);
      var r := w.table.rows[id];
      assert RowOk(c.property, w.remote, r);
      assert !CalledFor(c, r.identity, stays);
      assert t.rows[id] == r && r in active;
    }
  }

  /**
   * A past row that is not being deleted loses its event to a pass exactly when a stay of the window meets nothing but
   * that event, by stay and day, and its call is carried out, or the event is live and a row to be retired does. The
   * pass may be tangled anywhere else, and its other calls may end as they like.
   */
  lemma PastLossExactly(c: Context, w: World, listing: seq<Event>, stays: seq<int>, replies: int -> UpsertReply,
                        active: seq<Row>, deletes: int -> DeleteReply, x: int, k: string)
    requires ValidContext(c) && Core(c.property, w) && ListsTargets(c, stays) && IsPast(c, w, x, k)
    requires c.configured ==> Listed(w.remote, listing)
    requires ListsActive(Desired(c, w, listing, stays, replies).table, active)
    ensures var m := Pass(c, w, listing, stays, replies, active, deletes).world.remote;
            && k in m.events
            && (m.events[k] != w.remote.events[k] <==>
                  || Taken(c, w, listing, stays, replies, k)
                  || (AwayFromStart(c, w, listing, deletes, k) && !w.remote.events[k].cancelled))
  {
    hide Taken, AwayFromStart, AwayWith, RowsSoFar, Core;
    assert forall s | s in stays :: s in c.owners && c.owners[s] >= c.today;
    PhaseOne(c, listing, w, stays, replies, x, k);
    var p1 := DesireAll(c, IndexFor(c, listing), Start(w), stays, replies);
    PhaseTwo(c, listing, w, stays, p1, active, deletes, x, k);
    AwayIsFromStart(c, w, p1.world.table, listing, stays, active, deletes, k);
  }

  /** A pass keeps every past event exactly when no event of a past row is taken or deleted in this way. */
  lemma PastKeptExactly(c: Context, w: World, listing: seq<Event>, stays: seq<int>, replies: int -> UpsertReply,
                        active: seq<Row>, deletes: int -> DeleteReply)
    requires ValidContext(c) && Core(c.property, w) && ListsTargets(c, stays)
    requires c.configured ==> Listed(w.remote, listing)
    requires ListsActive(Desired(c, w, listing, stays, replies).table, active)
    ensures PastKept(c, w, Pass(c, w, listing, stays, replies, active, deletes).world) <==>
              forall x, k | IsPast(c, w, x, k) :: Untaken(c, w, listing, stays, replies, deletes, k)
  {
    hide Taken, AwayFromStart, Core, Pass, Listed;
    var w2 := Pass(c, w, listing, stays, replies, active, deletes).world;
    forall x, k | IsPast(c, w, x, k)
      ensures EventKept(w, w2, k) <==> Untaken(c, w, listing, stays, replies, deletes, k)
    {
      PastLossExactly(c, w, listing, stays, replies, active, deletes, x, k);
    }
    PastKeptPerEvent(c, w, w2);
  }

  lemma PastKeptPerEvent(c: Context, w: World, w2: World)
    ensures PastKept(c, w, w2) <==> forall x, k | IsPast(c, w, x, k) :: EventKept(w, w2, k)
  {
    if forall x, k | IsPast(c, w, x, k) :: EventKept(w, w2, k) {
      forall x, k | x in w.table.rows && w.table.rows[x].date < c.today && w.table.rows[x].pending != DeleteAction
                    && k in w.remote.events && OwnedBy(c, w.remote.events[k], x)
        ensures k in w2.remote.events && w2.remote.events[k] == w.remote.events[k]
      {
        assert IsPast(c, w, x, k);
      }
    }
  }

  predicate EventKept(w: World, w2: World, k: string) {
    k in w.remote.events && k in w2.remote.events && w2.remote.events[k] == w.remote.events[k]
  }

  /** The event is neither taken by a stay of the window nor deleted, while live, through a row that is retired. */
  ghost predicate Untaken(c: Context, w: World, listing: seq<Event>, stays: seq<int>, replies: int -> UpsertReply,
                          deletes: int -> DeleteReply, k: string) {
    k in w.remote.events && !Taken(c, w, listing, stays, replies, k)
    && (AwayFromStart(c, w, listing, deletes, k) ==> w.remote.events[k].cancelled)
  }
}
