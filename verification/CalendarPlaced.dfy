/** Runs in which nobody moves an event to another day: every pass on the way is safe, whatever else happens. */
module CalendarPlaced {
  import opened Text
  import opened CalendarModel
  import opened EventIndex
  import opened CalendarPass
  import opened CalendarSafety
  import opened CalendarPhases
  import opened CalendarRuns

  // ---------- a placed world ----------

  /** The instant lies on the day, whichever of the zone's offsets is in force. */
  predicate FallsOn(offsets: set<int>, t: Instant, day: Day) {
    forall o | o in offsets :: DayOf(o, t) == day
  }

  /** A row starts on its date, which is also the day in its identity. */
  predicate RowPlaced(offsets: set<int>, r: Row) {
    FallsOn(offsets, r.starts, r.date) && (r.identity.Some? ==> r.identity.value.checkout == r.date)
  }

  /** An event with the property's marks lies on the day it was written for. */
  predicate EventPlaced(property: int, offsets: set<int>, e: Event) {
    e.props.property == Some(property) && e.props.identity.Some? ==>
      FallsOn(offsets, e.starts, e.props.identity.value.checkout)
  }

  ghost predicate Placed(property: int, offsets: set<int>, w: World) {
    && (forall id | id in w.table.rows :: RowPlaced(offsets, w.table.rows[id]))
    && (forall k | k in w.remote.events :: EventPlaced(property, offsets, w.remote.events[k]))
  }

  /** The context's offset is one of the zone's, and check-out is not so near midnight that another moves it. */
  predicate Midday(offsets: set<int>, c: Context) {
    c.offset in offsets && forall o | o in offsets :: 0 <= c.profile.outSecond + o - c.offset < DAY_SECONDS
  }

  // ---------- single writes ----------

  lemma SavePlaces(property: int, offsets: set<int>, w: World, draft: Row)
    requires Placed(property, offsets, w) && RowPlaced(offsets, draft) && draft.identity.Some?
    ensures var (t, saved) := UpsertByIdentity(w.table, draft);
            Placed(property, offsets, World(t, w.remote)) && RowPlaced(offsets, saved)
  {
  }

  lemma RemotePlaces(property: int, offsets: set<int>, w: World, r: Row, reply: UpsertReply)
    requires Placed(property, offsets, w) && RowPlaced(offsets, r)
    ensures Placed(property, offsets, World(w.table, RemoteUpsert(w.remote, property, r, reply).0))
  {
  }

  lemma PendingPlaces(property: int, offsets: set<int>, w: World, id: int, a: Action)
    requires Placed(property, offsets, w)
    ensures Placed(property, offsets, World(SetPending(w.table, id, a), w.remote))
  {
  }

  lemma ResultPlaces(property: int, offsets: set<int>, w: World, id: int, gid: Option<string>, s: Status)
    requires Placed(property, offsets, w)
    ensures Placed(property, offsets, World(SetGoogleResult(w.table, id, gid, s), w.remote))
    ensures Placed(property, offsets, World(MarkRemoved(w.table, id), w.remote))
    ensures gid.Some? ==> Placed(property, offsets, World(MarkSeen(w.table, id, gid.value), w.remote))
  {
  }

  lemma CancelPlaces(property: int, offsets: set<int>, w: World, calendar: string, id: string)
    requires Placed(property, offsets, w)
    ensures Placed(property, offsets, World(w.table, RemoteDelete(w.remote, calendar, id)))
  {
  }

  // ---------- sync calls ----------

  lemma UpsertPlaces(offsets: set<int>, c: Context, w: World, r: Row, at: nat, reply: UpsertReply)
    requires Placed(c.property, offsets, w) && RowPlaced(offsets, r)
    ensures Placed(c.property, offsets, SyncUpsert(c, w, r, reply).0)
    ensures Placed(c.property, offsets, StoppedUpsert(c, w, r, at, reply))
  {
    hide Placed, RowPlaced, SetPending, SetGoogleResult, RemoteUpsert;
    PendingPlaces(c.property, offsets, w, r.id, UpsertAction);
    var w1 := World(SetPending(w.table, r.id, UpsertAction), w.remote);
    ResultPlaces(c.property, offsets, w1, r.id, None, Error);
    RemotePlaces(c.property, offsets, w1, r, reply);
    var (m, result) := RemoteUpsert(w.remote, c.property, r, reply);
    ResultPlaces(c.property, offsets, World(w1.table, m), r.id, None, Error);
    if result.Answered? {
      var s := if result.confirmed then Synced else Error;
      ResultPlaces(c.property, offsets, World(w1.table, m), r.id, Some(result.id), s);
    }
  }

  lemma DeletePlaces(offsets: set<int>, c: Context, w: World, r: Row, at: nat, reply: DeleteReply)
    requires Placed(c.property, offsets, w)
    ensures Placed(c.property, offsets, SyncDelete(c, w, r, reply).0)
    ensures Placed(c.property, offsets, StoppedDelete(c, w, r, at, reply))
  {
    hide Placed, SetPending, SetGoogleResult, MarkRemoved, RemoteDelete;
    PendingPlaces(c.property, offsets, w, r.id, DeleteAction);
    var w1 := World(SetPending(w.table, r.id, DeleteAction), w.remote);
    ResultPlaces(c.property, offsets, w1, r.id, None, Error);
    if r.googleId.Some? {
      CancelPlaces(c.property, offsets, w1, r.calendar, r.googleId.value);
      var m := RemoteDelete(w.remote, r.calendar, r.googleId.value);
      ResultPlaces(c.property, offsets, World(w1.table, m), r.id, None, Error);
    }
  }

  // ---------- turns and phases ----------

  lemma DraftIsPlaced(offsets: set<int>, c: Context, idx: Index, existing: Option<Row>, stay: int)
    requires stay in c.owners && Midday(offsets, c)
    ensures var d := Draft(c, idx, existing, Build(c, stay));
            RowPlaced(offsets, d) && d.identity.Some?
  {
  }

  lemma DesireStepPlaces(offsets: set<int>, c: Context, idx: Index, p: Progress, stay: int, at: nat, reply: UpsertReply)
    requires stay in c.owners && Midday(offsets, c) && Placed(c.property, offsets, p.world)
    ensures Placed(c.property, offsets, DesireStep(c, idx, p, stay, reply).world)
    ensures Placed(c.property, offsets, StoppedDesire(c, idx, p, stay, at, reply))
  {
    hide Placed, RowPlaced, Midday, Build, Draft, CanSkip, UpsertByIdentity, SyncUpsert, StoppedUpsert;
    var existing := Lookup(p.world.table, CanonicalIdentity(c, stay));
    assert Build(c, stay).identity == Some(CanonicalIdentity(c, stay)) by { BuildIdentity(c, stay); }
    var d := Draft(c, idx, existing, Build(c, stay));
    DraftIsPlaced(offsets, c, idx, existing, stay);
    SavePlaces(c.property, offsets, p.world, d);
    var (t, saved) := UpsertByIdentity(p.world.table, d);
    UpsertPlaces(offsets, c, World(t, p.world.remote), saved, if at > 0 then at - 1 else 0, reply);
  }

  lemma BuildIdentity(c: Context, stay: int)
    requires stay in c.owners
    ensures Build(c, stay).identity == Some(CanonicalIdentity(c, stay))
  {
  }

  lemma {:induction false} DesireAllPlaces(offsets: set<int>, c: Context, idx: Index, p: Progress, stays: seq<int>,
                                           replies: int -> UpsertReply)
    requires (forall s | s in stays :: s in c.owners) && Midday(offsets, c) && Placed(c.property, offsets, p.world)
    ensures Placed(c.property, offsets, DesireAll(c, idx, p, stays, replies).world)
  {
    if stays != [] {
      var init, s := stays[..|stays| - 1], stays[|stays| - 1];
      DesireAllPlaces(offsets, c, idx, p, init, replies);
      DesireStepPlaces(offsets, c, idx, DesireAll(c, idx, p, init, replies), s, 0, replies(s));
    }
  }

  lemma RetireStepPlaces(offsets: set<int>, c: Context, idx: Index, p: Progress, r: Row, at: nat, reply: DeleteReply)
    requires Placed(c.property, offsets, p.world)
    ensures Placed(c.property, offsets, RetireStep(c, idx, p, r, reply).world)
    ensures Placed(c.property, offsets, StoppedRetire(c, idx, p, r, at, reply))
  {
    hide Placed, Match, Current, SetPending, MarkRemoved, MarkSeen, SyncDelete, StoppedDelete;
    var matched, at' := Match(idx, r, Some(r)), if at > 0 then at - 1 else 0;
    var w1 := World(MarkSeen(p.world.table, r.id, matched), p.world.remote);
    PendingPlaces(c.property, offsets, p.world, r.id, NoAction);
    ResultPlaces(c.property, offsets, p.world, r.id, Some(matched), Error);
    DeletePlaces(offsets, c, p.world, r, at', reply);
    DeletePlaces(offsets, c, w1, r.(googleId := Some(matched)), at', reply);
  }

  lemma {:induction false} RetireAllPlaces(offsets: set<int>, c: Context, idx: Index, p: Progress, active: seq<Row>,
                                           deletes: int -> DeleteReply)
    requires Placed(c.property, offsets, p.world)
    ensures Placed(c.property, offsets, RetireAll(c, idx, p, active, deletes).world)
  {
    if active != [] {
      var init, r := active[..|active| - 1], active[|active| - 1];
      RetireAllPlaces(offsets, c, idx, p, init, deletes);
      RetireStepPlaces(offsets, c, idx, RetireAll(c, idx, p, init, deletes), r, 0, deletes(r.id));
    }
  }

  // ---------- runs ----------

  /** The listing shows events as they are. */
  ghost predicate Shows(m: Remote, listing: seq<Event>) {
    forall e | e in listing && Usable(e) :: e.id in m.events && m.events[e.id] == e
  }

  /** What a pass reads describes the world; nothing is said about whom an event belongs to. */
  ghost predicate MayRead(property: int, offsets: set<int>, w: World, c: Context, listing: seq<Event>,
                          stays: seq<int>) {
    && c.property == property && ValidContext(c) && Midday(offsets, c) && ListsTargets(c, stays)
    && (c.configured ==> Shows(w.remote, listing))
  }

  /** People leave every marked event on its day. */
  ghost predicate KeepsDays(property: int, offsets: set<int>, m: Remote, m': Remote) {
    forall k, o | k in m.events && k in m'.events && m.events[k].props.property == Some(property) && o in offsets ::
      DayOf(o, m'.events[k].starts) == DayOf(o, m.events[k].starts)
  }

  ghost predicate MayTake(property: int, offsets: set<int>, w: World, st: Step) {
    Runnable(w, st) &&
    match st
    case PassStep(c, listing, stays, replies, active, _) =>
      && MayRead(property, offsets, w, c, listing, stays)
      && ListsActive(Desired(c, w, listing, stays, replies).table, active)
    case StopInPhaseOne(c, listing, stays, _, _, _) => MayRead(property, offsets, w, c, listing, stays)
    case StopInPhaseTwo(c, listing, stays, replies, active, _, _, _) =>
      && MayRead(property, offsets, w, c, listing, stays)
      && ListsActive(Desired(c, w, listing, stays, replies).table, active)
    case RetryStep(c, _, _, _) => c.property == property
    case StopInRetry(c, _, _, _, _) => c.property == property
    case EditStep(remote) =>
      EditedByPeople(property, w.remote, remote) && KeepsDays(property, offsets, w.remote, remote)
  }

  /** In a placed world no pass is tangled. */
  lemma PlacedMayStart(property: int, offsets: set<int>, w: World, c: Context, listing: seq<Event>, stays: seq<int>)
    requires Core(property, w) && Placed(property, offsets, w) && MayRead(property, offsets, w, c, listing, stays)
    ensures MayStart(property, w, c, listing, stays)
  {
    if c.configured {
      forall e | e in listing && Usable(e) && e.props.property == Some(c.property) && e.props.identity.Some?
        ensures DayOf(c.offset, e.starts) == e.props.identity.value.checkout
      {
        assert EventPlaced(property, offsets, w.remote.events[e.id]);
      }
      InPlaceIsUntangled(c, w, listing);
    }
  }

  lemma PlacedIsAdmissible(property: int, offsets: set<int>, w: World, st: Step)
    requires Core(property, w) && Placed(property, offsets, w) && MayTake(property, offsets, w, st)
    ensures Admissible(property, w, st)
  {
    hide Core, Placed, MayStart, MayRead;
    match st
    case PassStep(c, listing, stays, _, _, _) => PlacedMayStart(property, offsets, w, c, listing, stays);
    case StopInPhaseOne(c, listing, stays, _, _, _) => PlacedMayStart(property, offsets, w, c, listing, stays);
    case StopInPhaseTwo(c, listing, stays, _, _, _, _, _) => PlacedMayStart(property, offsets, w, c, listing, stays);
    case _ =>
  }

  lemma EditPlaces(property: int, offsets: set<int>, w: World, m: Remote)
    requires Placed(property, offsets, w) && EditedByPeople(property, w.remote, m)
    requires KeepsDays(property, offsets, w.remote, m)
    ensures Placed(property, offsets, World(w.table, m))
  {
    forall k | k in m.events
      ensures EventPlaced(property, offsets, m.events[k])
    {
      if k in w.remote.events {
        assert EventPlaced(property, offsets, w.remote.events[k]);
      }
    }
  }

  lemma RetryPlaces(offsets: set<int>, c: Context, w: World, id: int, at: nat, reply: UpsertReply, delete: DeleteReply)
    requires Placed(c.property, offsets, w) && id in w.table.rows
    ensures Placed(c.property, offsets, Retry(c, w, id, reply, delete))
    ensures Placed(c.property, offsets, StoppedRetry(c, w, id, at, reply, delete))
  {
    var r := w.table.rows[id];
    assert RowPlaced(offsets, r);
    UpsertPlaces(offsets, c, w, r, at, reply);
    DeletePlaces(offsets, c, w, r, at, delete);
  }

  /** Every step leaves a placed world placed. */
  lemma StepPlaces(property: int, offsets: set<int>, w: World, st: Step)
    requires Placed(property, offsets, w) && MayTake(property, offsets, w, st)
    ensures Placed(property, offsets, Apply(w, st))
  {
    hide Placed, Midday, Shows, ListsTargets, ListsActive, KeepsDays, DesireAll, RetireAll;
    match st
    case PassStep(c, listing, stays, replies, active, deletes) =>
      var idx := IndexFor(c, listing);
      DesireAllPlaces(offsets, c, idx, Start(w), stays, replies);
      RetireAllPlaces(offsets, c, idx, DesireAll(c, idx, Start(w), stays, replies), active, deletes);
    case StopInPhaseOne(c, listing, stays, replies, n, at) =>
      var idx := IndexFor(c, listing);
      DesireAllPlaces(offsets, c, idx, Start(w), stays[..n], replies);
      var p := DesireAll(c, idx, Start(w), stays[..n], replies);
      DesireStepPlaces(offsets, c, idx, p, stays[n], at, replies(stays[n]));
    case StopInPhaseTwo(c, listing, stays, replies, active, deletes, n, at) =>
      var idx := IndexFor(c, listing);
      DesireAllPlaces(offsets, c, idx, Start(w), stays, replies);
      RetireAllPlaces(offsets, c, idx, DesireAll(c, idx, Start(w), stays, replies), active[..n], deletes);
      var p := Pass(c, w, listing, stays, replies, active[..n], deletes);
      RetireStepPlaces(offsets, c, idx, p, active[n], at, deletes(active[n].id));
    case RetryStep(c, id, reply, delete) => RetryPlaces(offsets, c, w, id, 0, reply, delete);
    case StopInRetry(c, id, reply, delete, at) => RetryPlaces(offsets, c, w, id, at, reply, delete);
    case EditStep(remote) => EditPlaces(property, offsets, w, remote);
  }

  /** `ws` are the worlds of a run in which nobody moves a marked event to another day. */
  ghost predicate IsPlacedRun(property: int, offsets: set<int>, ws: seq<World>, steps: seq<Step>) {
    && |ws| == |steps| + 1
    && (forall i | 0 <= i < |steps| ::
          MayTake(property, offsets, ws[i], steps[i]) && ws[i + 1] == Apply(ws[i], steps[i]))
  }

  /**
   * Safety over every run from a placed start: whatever fails and wherever a process stops, no pass ever meets a
   * tangled world, the invariant holds throughout and every pass is safe. Nothing is assumed of the worlds on the way.
   */
  lemma {:induction false} PlacedRunIsSafe(property: int, offsets: set<int>, ws: seq<World>, steps: seq<Step>, n: nat)
    requires IsPlacedRun(property, offsets, ws, steps) && n <= |steps|
    requires Core(property, ws[0]) && Placed(property, offsets, ws[0])
    ensures forall i | 0 <= i <= n :: Core(property, ws[i]) && Placed(property, offsets, ws[i])
    ensures forall i | 0 <= i < n :: Admissible(property, ws[i], steps[i]) && SafeStep(ws[i], steps[i])
  {
    hide Core, Placed, SafeStep, Admissible, MayTake, Apply;
    if n > 0 {
      PlacedRunIsSafe(property, offsets, ws, steps, n - 1);
      PlacedIsAdmissible(property, offsets, ws[n - 1], steps[n - 1]);
      StepIsSafe(property, ws[n - 1], steps[n - 1]);
      StepPlaces(property, offsets, ws[n - 1], steps[n - 1]);
    }
  }

  /** In particular from a new installation, whatever is already in people's calendars. */
  lemma RunFromEmptyIsSafe(property: int, offsets: set<int>, ws: seq<World>, steps: seq<Step>, m: Remote)
    requires IsPlacedRun(property, offsets, ws, steps) && ws[0] == World(Table(map[], map[], 1), m)
    requires forall k | k in m.events :: m.events[k].id == k && k in m.issued && k != ""
                                         && m.events[k].props.property != Some(property)
    ensures forall i | 0 <= i <= |steps| :: Core(property, ws[i]) && Placed(property, offsets, ws[i])
    ensures forall i | 0 <= i < |steps| :: Admissible(property, ws[i], steps[i]) && SafeStep(ws[i], steps[i])
  {
    EmptyTableIsSafe(property, m);
    PlacedRunIsSafe(property, offsets, ws, steps, |steps|);
  }
}
