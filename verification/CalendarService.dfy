/** The reconciliation service: loops over the two stores, proved to compute `CalendarPass.Pass`. */
module CalendarService {
  import opened Text
  import opened CalendarModel
  import opened EventIndex
  import P = CalendarPass
  import S = CalendarSafety
  import B = CalendarPhases
  import C = CalendarContent
  import R = CalendarRuns
  import L = CalendarPlaced
  import V = CalendarConvergence

  datatype Stats = Stats(seen: nat, upserted: nat, removed: nat)

  datatype Outcome = Rejected | Skipped | Failure | Success | Partial

  /** The stays to bring up to date. */
  method ListTargets(c: P.Context) returns (stays: seq<int>)
    ensures P.ListsTargets(c, stays)
  {
    stays := [];
    var first, last := c.from, c.to;
    if first < c.today {
      first := c.today;
    }
    if last > c.today + P.HORIZON_DAYS {
      last := c.today + P.HORIZON_DAYS;
    }
    var rest := c.owners.Keys;
    while rest != {}
      invariant rest <= c.owners.Keys
      invariant forall i, j :: 0 <= i < j < |stays| ==> stays[i] != stays[j]
      invariant forall s :: s in stays <==> s in c.owners && s !in rest && P.InWindow(c, c.owners[s])
      decreases |rest|
    {
      var s := Pick(rest);
      rest := rest - {s};
      if first <= c.owners[s] <= last {
        stays := stays + [s];
      }
    }
  }

  /** The rows that are not removed. */
  method ListActive(t: Table) returns (active: seq<Row>)
    requires S.TableOk(t)
    ensures P.ListsActive(t, active)
  {
    active := [];
    var rest := t.rows.Keys;
    while rest != {}
      invariant rest <= t.rows.Keys
      invariant forall i, j :: 0 <= i < j < |active| ==> active[i].id != active[j].id
      invariant forall r | r in active :: r.id in t.rows && r.id !in rest && t.rows[r.id] == r && r.status != Removed
      invariant forall id | id in t.rows && id !in rest && t.rows[id].status != Removed :: t.rows[id] in active
      decreases |rest|
    {
      var id := Pick(rest);
      rest := rest - {id};
      if t.rows[id].status != Removed {
        active := active + [t.rows[id]];
      }
    }
  }

  class Service {
    var table: Table
    var remote: Remote

    constructor (table: Table, remote: Remote)
      ensures this.table == table && this.remote == remote
    {
      this.table, this.remote := table, remote;
    }

    method SyncUpsert(c: P.Context, r: Row, reply: UpsertReply) returns (ok: bool)
      modifies this
      ensures (World(table, remote), ok) == P.SyncUpsert(c, old(World(table, remote)), r, reply)
    {
      table := SetPending(table, r.id, UpsertAction);
      if !c.configured {
        table := SetGoogleResult(table, r.id, None, Error);
        return false;
      }
      var answer := RemoteUpsert(remote, c.property, r, reply);
      remote := answer.0;
      if answer.1.Failed? {
        table := SetGoogleResult(table, r.id, None, Error);
        return false;
      }
      if !answer.1.confirmed {
        table := SetGoogleResult(table, r.id, Some(answer.1.id), Error);
        return false;
      }
      table := SetGoogleResult(table, r.id, Some(answer.1.id), Synced);
      return true;
    }

    method SyncDelete(c: P.Context, r: Row, reply: DeleteReply) returns (ok: bool)
      modifies this
      ensures (World(table, remote), ok) == P.SyncDelete(c, old(World(table, remote)), r, reply)
    {
      table := SetPending(table, r.id, DeleteAction);
      var known := r.googleId.Some? && r.googleId.value != "";
      if known && !c.configured {
        table := SetGoogleResult(table, r.id, None, Error);
        return false;
      }
      if known {
        if reply.Gone? || reply.applied {
          remote := RemoteDelete(remote, r.calendar, r.googleId.value);
        }
        if reply.Refused? {
          table := SetGoogleResult(table, r.id, None, Error);
          return false;
        }
      }
      table := MarkRemoved(table, r.id);
      return true;
    }

    /**
     * One turn of phase one. Unless it would take another cleaning's event, it leaves an up-to-date row alone, and
     * writes into any other what its stay calls for.
     */
    method UpsertOne(c: P.Context, idx: Index, run: P.Progress, stay: int, reply: UpsertReply,
                     ghost listing: seq<Event>)
      returns (next: P.Progress)
      requires stay in c.owners && run.world == World(table, remote) && idx == P.IndexFor(c, listing)
      modifies this
      ensures next == P.DesireStep(c, idx, run, stay, reply) && next.world == World(table, remote)
      ensures P.ValidContext(c) && S.Core(c.property, run.world)
              && (c.configured ==> S.Listed(run.world.remote, listing))
              && !B.WouldTake(c, run.world.table, listing, stay)
              ==> C.TurnDone(c, listing, run, next, stay)
    {
      hide P.SyncUpsert, P.CanSkip, Match, S.Core, S.Listed, B.WouldTake, C.TurnDone, P.IndexFor, UpsertByIdentity;
      if P.ValidContext(c) && S.Core(c.property, run.world) && (c.configured ==> S.Listed(run.world.remote, listing))
         && !B.WouldTake(c, run.world.table, listing, stay) {
        C.TurnIsExact(c, listing, run, stay, reply);
      }
      var event := P.Build(c, stay);
      next := run.(seen := run.seen + 1);
      var existing := Lookup(table, event.identity.value);
      if existing.Some? {
        event := P.Inherit(c, existing.value, event);
      }
      event := P.WithMatch(event, Match(idx, event, existing));
      if existing.Some? {
        if P.CanSkip(idx, existing.value, event) {
          return;
        }
        next := next.(reused := next.reused + P.IdSet(existing.value.googleId));
      }
      next := next.(reused := next.reused + P.IdSet(event.googleId));
      var stored := UpsertByIdentity(table, event);
      table := stored.0;
      next := next.(upserted := next.upserted + 1);
      var ok := SyncUpsert(c, stored.1, reply);
      next := next.(world := World(table, remote), failed := next.failed || !ok);
    }

    /** One turn of phase two. */
    method RetireOne(c: P.Context, idx: Index, run: P.Progress, row: Row, reply: DeleteReply,
                     ghost listing: seq<Event>)
      returns (next: P.Progress)
      requires run.world == World(table, remote) && idx == P.IndexFor(c, listing)
      modifies this
      ensures next == P.RetireStep(c, idx, run, row, reply) && next.world == World(table, remote)
      ensures row.id in old(table).rows && old(table).rows[row.id] == row ==>
                C.RetireDone(c, listing, run, next, row, reply)
    {
      hide C.RetireDone, P.IndexFor, P.SyncDelete, Match, SetPending, MarkRemoved, MarkSeen;
      if row.id in table.rows && table.rows[row.id] == row {
        C.RetireIsExact(c, listing, run, row, reply);
      }
      var ev := row;
      next := run;
      if ev.pending != DeleteAction {
        if ev.date < c.today {
          if ev.pending == UpsertAction {
            table := SetPending(table, ev.id, NoAction);
          }
          return run.(world := World(table, remote));
        }
        var eligible := ev.stay in c.owners && ev.date == c.owners[ev.stay];
        if eligible && ev.identity == Some(Identity(c.property, ev.stay, ev.date)) {
          return;
        }
        if ev.googleId.Some? && ev.googleId.value in run.reused {
          table := MarkRemoved(table, ev.id);
          return run.(world := World(table, remote), removed := run.removed + 1);
        }
        var matched := Match(idx, ev, Some(ev));
        if matched != "" && ev.googleId.None? {
          ev := ev.(googleId := Some(matched));
          table := MarkSeen(table, ev.id, matched);
        }
      }
      var ok := SyncDelete(c, ev, reply);
      if !ok {
        return run.(world := World(table, remote), failed := true);
      }
      return run.(world := World(table, remote), removed := run.removed + 1);
    }

    /**
     * One pass. A failed listing changes nothing; otherwise the two stores are what `Pass` computes from some order
     * of the eligible stays and of the active rows. If the start keeps the invariant and is not tangled, the invariant
     * is kept and the pass is safe; a placed start is not tangled and stays placed. Every row that was out of date then
     * holds what its stay calls for, unless it was found begun, and if nothing failed so does its event.
     */
    method ReconcilePropertyDateRange(c: P.Context, enabled: bool, listing: Option<seq<Event>>,
                                      replies: int -> UpsertReply, deletes: int -> DeleteReply)
      returns (outcome: Outcome, stats: Stats, ghost stays: seq<int>, ghost active: seq<Row>)
      requires S.TableOk(table)
      modifies this
      ensures outcome == Rejected <==> c.to < c.from
      ensures outcome == Skipped <==> c.from <= c.to && (!enabled || c.settings.calendar == "")
      ensures outcome == Failure <==>
                c.from <= c.to && enabled && c.settings.calendar != "" && c.configured && listing.None?
      ensures outcome in {Rejected, Skipped, Failure} ==>
                table == old(table) && remote == old(remote) && stats == Stats(0, 0, 0)
      ensures outcome in {Success, Partial} ==> P.ListsTargets(c, stays)
      ensures outcome in {Success, Partial} ==>
                var w, events := old(World(table, remote)), EventsOf(listing);
                var run := P.Pass(c, w, events, stays, replies, active, deletes);
                && P.ListsActive(R.Desired(c, w, events, stays, replies).table, active)
                && run.world == World(table, remote) && stats == Stats(run.seen, run.upserted, run.removed)
                && (outcome == Partial <==> run.failed)
      ensures outcome in {Success, Partial}
              && R.MayStart(c.property, old(World(table, remote)), c, EventsOf(listing), stays)
              && S.Core(c.property, old(World(table, remote))) ==>
                var w, events := old(World(table, remote)), EventsOf(listing);
                && S.Core(c.property, World(table, remote))
                && R.SafePass(c, w, R.Desired(c, w, events, stays, replies), World(table, remote), events, stays)
      ensures outcome in {Success, Partial} && S.Core(c.property, old(World(table, remote)))
              && L.Placed(c.property, {c.offset}, old(World(table, remote)))
              && L.MayRead(c.property, {c.offset}, old(World(table, remote)), c, EventsOf(listing), stays) ==>
                && R.MayStart(c.property, old(World(table, remote)), c, EventsOf(listing), stays)
                && L.Placed(c.property, {c.offset}, World(table, remote))
      ensures outcome == Success && V.Sound(c, old(World(table, remote)), EventsOf(listing), stays) ==>
                && V.Converged(c, old(World(table, remote)), World(table, remote), EventsOf(listing), stays)
                && stats.removed == V.Unwanted(c, active)
      ensures outcome in {Success, Partial} && V.Sound(c, old(World(table, remote)), EventsOf(listing), stays) ==>
                var w, events := old(World(table, remote)), EventsOf(listing);
                && stats.seen == |stays| && stats.upserted == V.Stale(c, w.table, events, stays)
                && forall s | s in stays && !B.Begun(c, P.IndexFor(c, events), w.table, s) ::
                     V.Brought(c, w, World(table, remote), events, s)
    {
      hide L.Placed, L.MayRead, R.MayStart, R.SafePass, V.Converged, P.DesireStep, P.RetireStep, P.ListsActive,
        P.ListsTargets, R.Untangled, S.Core, S.TableOk, B.Begun, V.Brought;
      stats, stays, active := Stats(0, 0, 0), [], [];
      if c.to < c.from {
        outcome := Rejected;
        return;
      }
      if !enabled || c.settings.calendar == "" {
        outcome := Skipped;
        return;
      }
      var idx := UNLISTED;
      if c.configured {
        if listing.None? {
          outcome := Failure;
          return;
        }
        idx := NewIndex(listing.value, c.property, c.offset);
      }
      ghost var w, events := World(table, remote), EventsOf(listing);
      assert idx == P.IndexFor(c, events);
      var run := P.Start(World(table, remote));
      var desired := ListTargets(c);
      stays := desired;
      assert forall s | s in desired :: s in c.owners by {
        TargetsAreOwned(c, desired);
      }
      for n := 0 to |desired|
        invariant run == P.DesireAll(c, idx, P.Start(w), desired[..n], replies) && run.world == World(table, remote)
        invariant S.TableOk(table)
      {
        assert desired[..n + 1][..n] == desired[..n];
        DesireStepKeepsTable(c, idx, run, desired[n], replies(desired[n]));
        run := UpsertOne(c, idx, run, desired[n], replies(desired[n]), events);
      }
      assert desired[..|desired|] == desired;
      ghost var p1 := run;
      var rows := ListActive(table);
      active := rows;
      for n := 0 to |rows|
        invariant run == P.RetireAll(c, idx, p1, rows[..n], deletes) && run.world == World(table, remote)
      {
        assert rows[..n + 1][..n] == rows[..n];
        run := RetireOne(c, idx, run, rows[n], deletes(rows[n].id), events);
      }
      assert rows[..|rows|] == rows;
      stats := Stats(run.seen, run.upserted, run.removed);
      outcome := if run.failed then Partial else Success;
      if S.Core(c.property, w) && L.Placed(c.property, {c.offset}, w)
         && L.MayRead(c.property, {c.offset}, w, c, events, stays) {
        L.PlacedMayStart(c.property, {c.offset}, w, c, events, stays);
        PassPlaces(c, w, events, stays, replies, active, deletes);
      }
      if R.MayStart(c.property, w, c, events, stays) && S.Core(c.property, w) {
        assert P.ValidContext(c) && P.ListsTargets(c, stays) && R.Untangled(c, w.table, events)
               && (c.configured ==> S.Listed(w.remote, events)) by {
          StartIsSound(c, w, events, stays);
        }
        R.PassIsSafe(c, w, events, stays, replies, active, deletes);
      }
      if V.Sound(c, w, events, stays) {
        V.PassBrings(c, w, events, stays, replies, active, deletes);
        if !run.failed {
          V.PassConverges(c, w, events, stays, replies, active, deletes);
        }
      }
    }
  }

  function EventsOf(listing: Option<seq<Event>>): seq<Event> {
    if listing.Some? then listing.value else []
  }

  lemma StartIsSound(c: P.Context, w: World, events: seq<Event>, stays: seq<int>)
    requires R.MayStart(c.property, w, c, events, stays)
    ensures P.ValidContext(c) && P.ListsTargets(c, stays) && R.Untangled(c, w.table, events)
    ensures c.configured ==> S.Listed(w.remote, events)
  {
  }

  lemma PassPlaces(c: P.Context, w: World, events: seq<Event>, stays: seq<int>, replies: int -> UpsertReply,
                   active: seq<Row>, deletes: int -> DeleteReply)
    requires L.Placed(c.property, {c.offset}, w) && L.MayRead(c.property, {c.offset}, w, c, events, stays)
    requires forall s | s in stays :: s in c.owners
    ensures L.Placed(c.property, {c.offset}, P.Pass(c, w, events, stays, replies, active, deletes).world)
  {
    hide L.Placed;
    var idx := P.IndexFor(c, events);
    L.DesireAllPlaces({c.offset}, c, idx, P.Start(w), stays, replies);
    L.RetireAllPlaces({c.offset}, c, idx, P.DesireAll(c, idx, P.Start(w), stays, replies), active, deletes);
  }

  lemma TargetsAreOwned(c: P.Context, stays: seq<int>)
    requires P.ListsTargets(c, stays)
    ensures forall s | s in stays :: s in c.owners
  {
  }

  lemma SyncKeepsTable(c: P.Context, w: World, r: Row, reply: UpsertReply)
    requires S.TableOk(w.table) && r.id in w.table.rows && w.table.rows[r.id] == r
    ensures S.TableOk(P.SyncUpsert(c, w, r, reply).0.table)
  {
    S.SyncUpsertWrites(c, w, r, reply);
  }

  /** Phase one keeps the table canonical, whatever the remote calendar holds. */
  lemma DesireStepKeepsTable(c: P.Context, idx: Index, p: P.Progress, stay: int, reply: UpsertReply)
    requires stay in c.owners && S.TableOk(p.world.table)
    ensures S.TableOk(P.DesireStep(c, idx, p, stay, reply).world.table)
  {
    hide P.CanSkip, Match, P.SyncUpsert, S.TableOk;
    var built := P.Build(c, stay);
    var d := P.Draft(c, idx, Lookup(p.world.table, built.identity.value), built);
    S.SavingKeepsTable(p.world.table, d);
    var (t, saved) := UpsertByIdentity(p.world.table, d);
    SyncKeepsTable(c, World(t, p.world.remote), saved, reply);
  }
}
