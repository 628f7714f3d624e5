/** What an error-free pass achieves, why a second one is idle, and exactly which desired events a pass loses. */
module CalendarConvergence {
  import opened Text
  import opened CalendarModel
  import opened EventIndex
  import opened CalendarPass
  import opened CalendarSafety
  import opened CalendarPhases
  import opened CalendarRuns
  import opened CalendarContent

  // ---------- convergence ----------

  /** The event overlaps the requested range of days. */
  predicate InRange(c: Context, e: Event) {
    DayOf(c.offset, e.starts) <= c.to
    && (c.from <= DayOf(c.offset, e.starts) || c.from * DAY_SECONDS - c.offset < e.ends)
  }

  /** The listing is what the configured calendar holds in the requested range: live events only. */
  ghost predicate ListedLive(c: Context, m: Remote, listing: seq<Event>) {
    Listed(m, listing)
    && forall e | e in listing && Usable(e) ::
         Live(m, e.id) && m.events[e.id].calendar == c.settings.calendar && InRange(c, m.events[e.id])
  }

  /** The stay has a synced row whose hash is the one the next pass will compute, and a live event of its own. */
  predicate Settled(c: Context, w: World, stay: int)
    requires stay in c.owners
  {
    RowOfStay(c, w.table, stay).Some? &&
    var r := RowOfStay(c, w.table, stay).value;
    && r.status == Synced && r.pending != DeleteAction && r.googleId.Some? && r.googleId.value != ""
    && r.desiredHash.Some? && r.desiredHash == Inherit(c, r, Build(c, stay)).desiredHash
    && (c.configured ==> Shown(c, w, r.googleId.value) && IsMine(c.property, w.remote.events[r.googleId.value], r))
  }

  /** A live event of the configured calendar in the requested range. */
  predicate Shown(c: Context, w: World, g: string) {
    Live(w.remote, g) && w.remote.events[g].calendar == c.settings.calendar && InRange(c, w.remote.events[g])
  }

  /** Rows not removed are done with if they lie in the past, and called for by an eligible stay otherwise. */
  predicate Clean(c: Context, t: Table) {
    forall id | id in t.rows && t.rows[id].status != Removed ::
      LeftAlone(c, t.rows[id]) && (t.rows[id].date < c.today ==> t.rows[id].pending == NoAction)
  }

  /**
   * What a pass from `w` to `w2` made of a stay's row and event: nothing at all of an up-to-date row, and otherwise a
   * row with what the stay calls for, synced with a live event that carries it or waiting for another attempt. The end
   * is settled by the row of `w`.
   */
  ghost predicate Brought(c: Context, w: World, w2: World, listing: seq<Event>, s: int)
    requires s in c.owners
  {
    var before, after := RowOfStay(c, w.table, s), RowOfStay(c, w2.table, s);
    && after.Some? && Fitting(c, s, after.value) && after.value.ends == EndFor(c, s, before)
    && if UpToDate(c, listing, s, before) then after == before && (c.configured ==> SameEvent(w, w2, after.value))
       else Drafted(c, s, before, after.value) && Attempted(c, w2.remote, after.value)
  }

  predicate SameEvent(w: World, w2: World, r: Row) {
    && r.googleId.Some? && r.googleId.value in w.remote.events && r.googleId.value in w2.remote.events
    && w2.remote.events[r.googleId.value] == w.remote.events[r.googleId.value]
  }

  /** The number of stays whose rows a pass finds out of date. */
  ghost function Stale(c: Context, t: Table, listing: seq<Event>, stays: seq<int>): nat
    requires forall s | s in stays :: s in c.owners
  {
    if stays == [] then 0
    else
      var s := stays[|stays| - 1];
      Stale(c, t, listing, stays[..|stays| - 1]) + if UpToDate(c, listing, s, RowOfStay(c, t, s)) then 0 else 1
  }

  /** The number of rows that no stay calls for, or whose deletion was begun. */
  ghost function Unwanted(c: Context, active: seq<Row>): nat {
    if active == [] then 0
    else Unwanted(c, active[..|active| - 1]) + if LeftAlone(c, active[|active| - 1]) then 0 else 1
  }

  /** Inheriting from the row just written reproduces the hash it was written with. */
  lemma HashIsStable(c: Context, idx: Index, existing: Option<Row>, stay: int, r: Row)
    requires stay in c.owners
    requires var d := Draft(c, idx, existing, Build(c, stay));
             r.(id := d.id, googleId := d.googleId, status := d.status, pending := d.pending) == d
    ensures r.desiredHash.Some? && r.desiredHash == Inherit(c, r, Build(c, stay)).desiredHash
    ensures r.calendar == c.settings.calendar
  {
  }

  /** A synced row with the next hash and a live event of its own content is settled. */
  lemma WrittenIsSettled(c: Context, w: World, stay: int, r: Row, saved: Row, g: string)
    requires stay in c.owners && InWindow(c, c.owners[stay]) && RowOfStay(c, w.table, stay) == Some(r)
    requires r == saved.(googleId := Some(g), status := Synced, pending := NoAction) && g != ""
    requires r.desiredHash.Some? && r.desiredHash == Inherit(c, r, Build(c, stay)).desiredHash
    requires r.calendar == c.settings.calendar && DayOf(c.offset, r.starts) == c.owners[stay]
    requires g in w.remote.events && w.remote.events[g] == Payload(c.property, saved, g, false)
    ensures Settled(c, w, stay)
  {
    hide Build, Inherit;
  }

  lemma UpsertSettles(c: Context, listing: seq<Event>, w: World, stay: int, reply: UpsertReply)
    requires ValidContext(c) && stay in c.owners && InWindow(c, c.owners[stay]) && Core(c.property, w)
    requires (c.configured ==> Listed(w.remote, listing)) && !WouldTake(c, w.table, listing, stay)
    requires var d := Draft(c, IndexFor(c, listing), RowOfStay(c, w.table, stay), Build(c, stay));
             var (t, saved) := UpsertByIdentity(w.table, d);
             SyncUpsert(c, World(t, w.remote), saved, reply).1
    ensures var d := Draft(c, IndexFor(c, listing), RowOfStay(c, w.table, stay), Build(c, stay));
            var (t, saved) := UpsertByIdentity(w.table, d);
            Settled(c, SyncUpsert(c, World(t, w.remote), saved, reply).0, stay)
  {
    hide Build, Draft, WouldTake, Settled, SyncUpsert, Inherit, Core, RowOk;
    var idx, i := IndexFor(c, listing), CanonicalIdentity(c, stay);
    var existing := RowOfStay(c, w.table, stay);
    var d := Draft(c, idx, existing, Build(c, stay));
    SaveTouches(c, listing, w, stay);
    DraftIsOk(c, idx, existing, stay);
    var (t, saved) := UpsertByIdentity(w.table, d);
    var w1 := World(t, w.remote);
    var w2 := SyncUpsert(c, w1, saved, reply).0;
    SyncUpsertSettles(c.property, c, w1, saved, reply);
    var g :| Rewrites(w1.table, w2.table, saved.(googleId := Some(g), status := Synced, pending := NoAction))
             && g in w2.remote.events && w2.remote.events[g] == Payload(c.property, saved, g, false) && g != "";
    HashIsStable(c, idx, existing, stay, w2.table.rows[saved.id]);
    WrittenIsSettled(c, w2, stay, w2.table.rows[saved.id], saved, g);
  }

  lemma SkipSettles(c: Context, listing: seq<Event>, w: World, stay: int)
    requires stay in c.owners && Core(c.property, w) && RowOfStay(c, w.table, stay).Some?
    requires !Begun(c, IndexFor(c, listing), w.table, stay)
    requires CanSkip(IndexFor(c, listing), RowOfStay(c, w.table, stay).value,
                     Draft(c, IndexFor(c, listing), RowOfStay(c, w.table, stay), Build(c, stay)))
    requires var r := RowOfStay(c, w.table, stay).value;
             c.configured && (exists e :: e in listing && Usable(e) && Some(e.id) == r.googleId) ==>
               Shown(c, w, r.googleId.value)
    ensures Settled(c, w, stay)
  {
    var r := RowOfStay(c, w.table, stay).value;
    StayIsCurrent(c, w, stay);
    if c.configured {
      SkippedIsListed(c, listing, r, Draft(c, IndexFor(c, listing), Some(r), Build(c, stay)));
      assert RowOk(c.property, w.remote, w.table.rows[r.id]);
    }
  }

  /** With a listing, a row is only skipped while its event is listed. */
  lemma SkippedIsListed(c: Context, listing: seq<Event>, r: Row, d: Row)
    requires c.configured && CanSkip(IndexFor(c, listing), r, d)
    ensures exists e :: e in listing && Usable(e) && Some(e.id) == r.googleId
  {
    IndexIsFaithful(listing, c.property, c.offset);
    var e := IndexOf(listing, c.property, c.offset).byId[r.googleId.value];
    assert e in listing && Usable(e) && e.id == r.googleId.value;
  }

  lemma SettledStays(c: Context, w: World, w': World, s: int, t: int)
    requires s in c.owners && t in c.owners && s != t && Core(c.property, w) && Core(c.property, w')
    requires TouchesCleaning(c.property, w, w', CanonicalIdentity(c, t)) && Settled(c, w, s)
    ensures Settled(c, w', s)
  {
    StayIsCurrent(c, w, s);
    StayIsCurrent(c, w', t);
    var r := RowOfStay(c, w.table, s).value;
    assert w'.table.byIdentity[CanonicalIdentity(c, s)] == r.id;
    assert w'.table.rows[r.id] == r;
  }

  /** Events of a stay not yet processed are as they were when the pass began. */
  lemma UntouchedSoFar(c: Context, w: World, w1: World, init: seq<int>, s: int, g: string)
    requires s in c.owners && s !in init && Core(c.property, w1) && TouchesStays(c, w, w1, init)
    requires RowOfStay(c, w1.table, s).Some? && RowOfStay(c, w1.table, s).value.googleId == Some(g)
             && g in w.remote.events
    ensures g in w1.remote.events && w1.remote.events[g] == w.remote.events[g]
  {
    StayIsCurrent(c, w1, s);
    var r := RowOfStay(c, w1.table, s).value;
    assert RowOk(c.property, w1.remote, w1.table.rows[r.id]);
  }

  /** The stays of a window, once each. */
  predicate Targets(c: Context, stays: seq<int>) {
    Distinct(stays) && forall s | s in stays :: s in c.owners && InWindow(c, c.owners[s])
  }

  lemma {:induction false} DesireAllSettles(c: Context, listing: seq<Event>, w: World, stays: seq<int>,
                                            replies: int -> UpsertReply)
    requires ValidContext(c) && Core(c.property, w) && Targets(c, stays) && NoneTakes(c, w.table, listing, stays)
    requires c.configured ==> ListedLive(c, w.remote, listing)
    requires !DesireAll(c, IndexFor(c, listing), Start(w), stays, replies).failed
    ensures forall s | s in stays && !Begun(c, IndexFor(c, listing), w.table, s) ::
              Settled(c, DesireAll(c, IndexFor(c, listing), Start(w), stays, replies).world, s)
  {
    if stays != [] {
      hide Settled, Begun, Core, WouldTake;
      var idx := IndexFor(c, listing);
      var init, s := stays[..|stays| - 1], stays[|stays| - 1];
      LastIsNew(stays);
      DesireAllKeeps(c, listing, w, init, replies);
      var p1 := DesireAll(c, idx, Start(w), init, replies);
      DesireAllSettles(c, listing, w, init, replies);
      CoreHasTable(c.property, w);
      CoreHasTable(c.property, p1.world);
      OtherStaysKeepTheirRow(c, w, p1.world, init, s);
      TakesByRow(c, w.table, p1.world.table, listing, s);
      DesireStepKeeps(c, listing, p1, s, replies(s));
      var p2 := DesireStep(c, idx, p1, s, replies(s));
      BegunByRow(c, idx, w.table, p1.world.table, s);
      if !Begun(c, idx, w.table, s) {
        StepSettles(c, listing, w, init, p1, s, replies(s));
      }
      forall x | x in init && !Begun(c, idx, w.table, x)
        ensures Settled(c, p2.world, x)
      {
        SettledStays(c, p1.world, p2.world, x, s);
      }
    }
  }

  // ---------- what becomes of rows and events ----------

  /** A row and its event that stay as they are stay brought up to date. */
  lemma BroughtStays(c: Context, w: World, w1: World, w2: World, listing: seq<Event>, s: int)
    requires s in c.owners && Brought(c, w, w1, listing, s) && RowOfStay(c, w2.table, s) == RowOfStay(c, w1.table, s)
    requires var g := RowOfStay(c, w1.table, s).value.googleId;
             g.Some? && g.value in w1.remote.events ==>
               g.value in w2.remote.events && w2.remote.events[g.value] == w1.remote.events[g.value]
    ensures Brought(c, w, w2, listing, s)
  {
    hide UpToDate, Drafted, Fitting;
  }

  /** A later turn for another stay leaves both as they are. */
  lemma BroughtAfterTurn(c: Context, w: World, w1: World, w2: World, listing: seq<Event>, s: int, t: int)
    requires s in c.owners && t in c.owners && s != t && Core(c.property, w1) && Core(c.property, w2)
    requires TouchesCleaning(c.property, w1, w2, CanonicalIdentity(c, t)) && Brought(c, w, w1, listing, s)
    ensures Brought(c, w, w2, listing, s)
  {
    hide UpToDate, Drafted, Fitting;
    var g := RowOfStay(c, w1.table, s).value.googleId;
    OneTurnKeepsOthers(c, w1, w2, t, s);
    if g.Some? && g.value in w1.remote.events {
      OneTurnSpares(c, w1, w2, t, s, g.value);
    }
    BroughtStays(c, w, w1, w2, listing, s);
  }

  /** So does the second phase. */
  lemma BroughtSurvives(c: Context, w: World, w1: World, w2: World, listing: seq<Event>, s: int)
    requires s in c.owners && Brought(c, w, w1, listing, s) && Core(c.property, w1) && DesiredKept(c, w1, w2, s)
    ensures Brought(c, w, w2, listing, s)
  {
    hide UpToDate, Drafted, Fitting;
    var r := RowOfStay(c, w1.table, s).value;
    StayIsCurrent(c, w1, s);
    assert RowOk(c.property, w1.remote, w1.table.rows[r.id]);
    BroughtStays(c, w, w1, w2, listing, s);
  }

  /** Its own turn brings a stay's row and event up to date. */
  lemma TurnBrings(c: Context, w: World, p: Progress, p': Progress, listing: seq<Event>, init: seq<int>, s: int)
    requires s in c.owners && s !in init && TouchesStays(c, w, p.world, init) && Core(c.property, p.world)
    requires c.configured ==> Listed(w.remote, listing)
    requires RowOfStay(c, p.world.table, s) == RowOfStay(c, w.table, s)
    requires TurnDone(c, listing, p, p', s)
    ensures Brought(c, w, p'.world, listing, s)
  {
    hide Drafted, Core, TouchesStays;
    var before := RowOfStay(c, w.table, s);
    if UpToDate(c, listing, s, before) && c.configured {
      var g := before.value.googleId.value;
      var e :| e in listing && !e.cancelled && e.id == g;
      assert Usable(e) && g in w.remote.events;
      UntouchedSoFar(c, w, p.world, init, s, g);
    }
    if !UpToDate(c, listing, s, before) {
      assert Fitting(c, s, RowOfStay(c, p'.world.table, s).value)
             && RowOfStay(c, p'.world.table, s).value.ends == EndFor(c, s, before) by {
        DraftedFits(c, s, before, RowOfStay(c, p'.world.table, s).value);
      }
    }
  }

  lemma DraftedFits(c: Context, s: int, before: Option<Row>, r: Row)
    requires s in c.owners && Drafted(c, s, before, r)
    ensures Fitting(c, s, r) && r.ends == EndFor(c, s, before)
  {
  }

  ghost predicate AllBrought(c: Context, w: World, w1: World, listing: seq<Event>, stays: seq<int>) {
    forall s | s in stays :: s in c.owners && Brought(c, w, w1, listing, s)
  }

  lemma AllBroughtGoesOn(c: Context, w: World, p: Progress, p': Progress, listing: seq<Event>, init: seq<int>, s: int)
    requires s in c.owners && s !in init && TouchesStays(c, w, p.world, init)
    requires Core(c.property, p.world) && Core(c.property, p'.world)
    requires c.configured ==> Listed(w.remote, listing)
    requires RowOfStay(c, p.world.table, s) == RowOfStay(c, w.table, s)
    requires TouchesCleaning(c.property, p.world, p'.world, CanonicalIdentity(c, s))
    requires TurnDone(c, listing, p, p', s) && AllBrought(c, w, p.world, listing, init)
    ensures AllBrought(c, w, p'.world, listing, init + [s])
  {
    hide Brought, TurnDone, Core, TouchesCleaning, TouchesStays;
    TurnBrings(c, w, p, p', listing, init, s);
    forall x | x in init
      ensures Brought(c, w, p'.world, listing, x)
    {
      BroughtAfterTurn(c, w, p.world, p'.world, listing, x, s);
    }
  }

  /** Phase one counts every stay as seen and every stay found out of date as upserted, and brings all up to date. */
  lemma {:induction false} DesireAllBrings(c: Context, listing: seq<Event>, w: World, stays: seq<int>,
                                           replies: int -> UpsertReply)
    requires ValidContext(c) && Core(c.property, w) && Distinct(stays) && NoneTakes(c, w.table, listing, stays)
    requires c.configured ==> Listed(w.remote, listing)
    ensures var p := DesireAll(c, IndexFor(c, listing), Start(w), stays, replies);
            && p.seen == |stays| && p.upserted == Stale(c, w.table, listing, stays) && p.removed == 0
            && AllBrought(c, w, p.world, listing, stays)
  {
    hide Core, WouldTake, AllBrought, UpToDate, TouchesCleaning, TouchesStays, DesireStep, Listed, TurnDone, TableOk,
      RowOfStay;
    if stays != [] {
      var idx := IndexFor(c, listing);
      var init, s := stays[..|stays| - 1], stays[|stays| - 1];
      LastIsNew(stays);
      DesireAllKeeps(c, listing, w, init, replies);
      DesireAllBrings(c, listing, w, init, replies);
      var p1 := DesireAll(c, idx, Start(w), init, replies);
      CoreHasTable(c.property, w);
      CoreHasTable(c.property, p1.world);
      OtherStaysKeepTheirRow(c, w, p1.world, init, s);
      TakesByRow(c, w.table, p1.world.table, listing, s);
      StillListed(c, w, p1.world, listing, init);
      DesireStepKeeps(c, listing, p1, s, replies(s));
      TurnIsExact(c, listing, p1, s, replies(s));
      var p2 := DesireStep(c, idx, p1, s, replies(s));
      TurnCounts(c, listing, p1, p2, s);
      AllBroughtGoesOn(c, w, p1, p2, listing, init, s);
      assert init + [s] == stays;
    } else {
      NothingIsBrought(c, w, listing);
    }
  }

  lemma NothingIsBrought(c: Context, w: World, listing: seq<Event>)
    ensures AllBrought(c, w, w, listing, [])
  {
  }

  lemma TurnCounts(c: Context, listing: seq<Event>, p: Progress, p': Progress, s: int)
    requires s in c.owners && TurnDone(c, listing, p, p', s)
    ensures p'.seen == p.seen + 1 && p'.removed == p.removed
    ensures p'.upserted
            == p.upserted + if UpToDate(c, listing, s, RowOfStay(c, p.world.table, s)) then 0 else 1
  {
    hide UpToDate;
  }

  lemma StillListed(c: Context, w: World, w1: World, listing: seq<Event>, init: seq<int>)
    requires TouchesStays(c, w, w1, init) && (c.configured ==> Listed(w.remote, listing))
    ensures c.configured ==> Listed(w1.remote, listing)
  {
  }

  lemma RetireStepCounts(c: Context, idx: Index, p: Progress, r: Row, reply: DeleteReply)
    ensures var p' := RetireStep(c, idx, p, r, reply);
            && p'.upserted == p.upserted && p'.seen == p.seen && p'.reused == p.reused && (p.failed ==> p'.failed)
            && (!p'.failed ==> p'.removed == p.removed + if LeftAlone(c, r) then 0 else 1)
  {
    hide SyncDelete, Match, SetPending, MarkRemoved, MarkSeen;
  }

  /** An error-free second phase counts as removed what it retires. */
  lemma {:induction false} RetireAllCounts(c: Context, idx: Index, p: Progress, active: seq<Row>,
                                           deletes: int -> DeleteReply)
    requires !RetireAll(c, idx, p, active, deletes).failed
    ensures RetireAll(c, idx, p, active, deletes)
            == p.(world := RetireAll(c, idx, p, active, deletes).world, removed := p.removed + Unwanted(c, active))
  {
    if active != [] {
      hide RetireStep;
      var init, r := active[..|active| - 1], active[|active| - 1];
      var p1 := RetireAll(c, idx, p, init, deletes);
      RetireStepCounts(c, idx, p1, r, deletes(r.id));
      RetireAllCounts(c, idx, p, init, deletes);
    }
  }

  lemma CoreHasTable(property: int, w: World)
    requires Core(property, w)
    ensures TableOk(w.table)
  {
  }

  lemma StepSettles(c: Context, listing: seq<Event>, w: World, init: seq<int>, p: Progress, s: int, reply: UpsertReply)
    requires ValidContext(c) && s in c.owners && InWindow(c, c.owners[s]) && s !in init
    requires Core(c.property, p.world) && TouchesStays(c, w, p.world, init)
    requires c.configured ==> ListedLive(c, w.remote, listing)
    requires !WouldTake(c, p.world.table, listing, s) && !Begun(c, IndexFor(c, listing), p.world.table, s)
    requires !DesireStep(c, IndexFor(c, listing), p, s, reply).failed
    ensures Settled(c, DesireStep(c, IndexFor(c, listing), p, s, reply).world, s)
  {
    var idx := IndexFor(c, listing);
    var existing := RowOfStay(c, p.world.table, s);
    var d := Draft(c, idx, existing, Build(c, s));
    if existing.Some? && CanSkip(idx, existing.value, d) {
      if c.configured && exists e :: e in listing && Usable(e) && Some(e.id) == existing.value.googleId {
        UntouchedSoFar(c, w, p.world, init, s, existing.value.googleId.value);
      }
      SkipSettles(c, listing, p.world, s);
    } else {
      assert c.configured ==> Listed(p.world.remote, listing);
      UpsertSettles(c, listing, p.world, s, reply);
    }
  }

  ghost predicate Cleaned(c: Context, t: Table, active: seq<Row>) {
    forall r | r in active && !Spared(c, r) :: r.id in t.rows && t.rows[r.id].status == Removed
  }

  lemma CleanedExtends(c: Context, t1: Table, t2: Table, init: seq<Row>, r: Row)
    requires Cleaned(c, t1, init) && RetiresOnly(t1, t2, r)
    requires forall x | x in init :: x.id != r.id
    requires Spared(c, r) || t2.rows[r.id].status == Removed
    ensures Cleaned(c, t2, init + [r])
  {
  }

  lemma LastRowIsNew(t: Table, active: seq<Row>)
    requires DistinctRows(t, active) && active != []
    ensures DistinctRows(t, active[..|active| - 1])
    ensures forall x | x in active[..|active| - 1] :: x in active && x.id != active[|active| - 1].id
    ensures active[|active| - 1] in active
  {
    var init, r := active[..|active| - 1], active[|active| - 1];
    forall x | x in init
      ensures x in active && x.id != r.id
    {
      var i :| 0 <= i < |init| && init[i] == x;
      assert active[i] == x && active[|init|] == r;
    }
  }

  /** A row that is not spared is removed unless something failed. */
  lemma {:induction false} RetireAllCleans(c: Context, listing: seq<Event>, p: Progress, active: seq<Row>,
                                           deletes: int -> DeleteReply)
    requires Core(c.property, p.world) && DistinctRows(p.world.table, active) && NoneAdopts(c, active, listing)
    requires c.configured ==> Listed(p.world.remote, listing)
    requires !RetireAll(c, IndexFor(c, listing), p, active, deletes).failed
    ensures Cleaned(c, RetireAll(c, IndexFor(c, listing), p, active, deletes).world.table, active)
  {
    if active != [] {
      hide Core, RetireStep, WouldAdopt, Cleaned, Listed, DistinctRows, Spared, OwnedBy, LeftAlone;
      var idx := IndexFor(c, listing);
      var init, r := active[..|active| - 1], active[|active| - 1];
      assert active == init + [r];
      LastRowIsNew(p.world.table, active);
      RetireAllCleans(c, listing, p, init, deletes);
      RetireAllKeeps(c, listing, p, init, deletes);
      StepCleans(c, listing, RetireAll(c, idx, p, init, deletes), init, r, deletes(r.id));
    }
  }

  lemma StepCleans(c: Context, listing: seq<Event>, p: Progress, init: seq<Row>, r: Row, reply: DeleteReply)
    requires Core(c.property, p.world) && r.id in p.world.table.rows && p.world.table.rows[r.id] == r
             && r.status != Removed
    requires (c.configured ==> Listed(p.world.remote, listing)) && !WouldAdopt(c, r, listing)
    requires Cleaned(c, p.world.table, init) && (forall x | x in init :: x.id != r.id)
    requires !RetireStep(c, IndexFor(c, listing), p, r, reply).failed
    ensures Cleaned(c, RetireStep(c, IndexFor(c, listing), p, r, reply).world.table, init + [r])
  {
    RetireStepKeeps(c, listing, p, r, reply);
    if !Spared(c, r) {
      NotSparedIsRemoved(c, IndexFor(c, listing), p, r, reply);
    }
    CleanedExtends(c, p.world.table, RetireStep(c, IndexFor(c, listing), p, r, reply).world.table, init, r);
  }

  lemma NotSparedIsRemoved(c: Context, idx: Index, p: Progress, r: Row, reply: DeleteReply)
    requires r.id in p.world.table.rows && p.world.table.rows[r.id] == r && !Spared(c, r)
    requires !RetireStep(c, idx, p, r, reply).failed
    ensures RetireStep(c, idx, p, r, reply).world.table.rows[r.id].status == Removed
  {
    var matched := Match(idx, r, Some(r));
    if r.pending != DeleteAction && r.googleId.None? && matched != "" {
      var r1 := r.(googleId := Some(matched));
      var w1 := World(MarkSeen(p.world.table, r.id, matched), p.world.remote);
      SyncDeleteWrites(c, w1, r1, reply);
    } else {
      SyncDeleteWrites(c, p.world, r, reply);
    }
  }

  lemma SettledSurvives(c: Context, w1: World, w2: World, s: int)
    requires s in c.owners && Settled(c, w1, s) && Core(c.property, w1) && DesiredKept(c, w1, w2, s)
    ensures Settled(c, w2, s)
  {
    StayIsCurrent(c, w1, s);
  }

  lemma CleanedIsClean(c: Context, w1: World, w2: World, active: seq<Row>)
    requires ListsActive(w1.table, active) && RetiresSome(c, w1, w2, active) && Cleaned(c, w2.table, active)
    requires TableOk(w1.table)
    ensures Clean(c, w2.table)
  {
    hide Spared, LeftAlone, Keeps, TableOk;
    forall id | id in w2.table.rows && w2.table.rows[id].status != Removed
      ensures LeftAlone(c, w2.table.rows[id])
              && (w2.table.rows[id].date < c.today ==> w2.table.rows[id].pending == NoAction)
    {
      var r := w1.table.rows[id];
      RowsAreKeyed(w1.table);
      CleanIsSpared(c, w2.table.rows[id]);
      if r.status != Removed {
        assert r in active && r.id == id;
        if Spared(c, r) {
          SparedStays(c, r);
        }
      } else {
        forall x | x in active
          ensures x.id != id
        {
          assert w1.table.rows[x.id] == x;
        }
      }
    }
  }

  lemma RowsAreKeyed(t: Table)
    requires TableOk(t)
    ensures forall id | id in t.rows :: t.rows[id].id == id
  {
  }

  lemma SparedStays(c: Context, r: Row)
    requires Spared(c, r)
    ensures Spared(c, r.(pending := if r.date < c.today then NoAction else r.pending))
  {
  }

  /** The inputs of a pass that describe its start, which is not tangled. */
  ghost predicate Sound(c: Context, w: World, listing: seq<Event>, stays: seq<int>) {
    && ValidContext(c) && Core(c.property, w) && ListsTargets(c, stays) && Untangled(c, w.table, listing)
    && (c.configured ==> ListedLive(c, w.remote, listing))
  }

  /**
   * Every stay not found begun at the start `w` is settled, with what it calls for in its row and event, and no row is
   * left that no stay calls for.
   */
  ghost predicate Converged(c: Context, w: World, w2: World, listing: seq<Event>, stays: seq<int>)
    requires forall s | s in stays :: s in c.owners
  {
    && (forall s | s in stays && !Begun(c, IndexFor(c, listing), w.table, s) ::
          Settled(c, w2, s) && Brought(c, w, w2, listing, s))
    && Clean(c, w2.table)
  }

  /**
   * After a pass in which nothing failed, every eligible stay checking out inside the window has a synced row with a
   * remote id, unless the pass found its row begun; and no row dated today or later is left without an eligible stay
   * that calls for it.
   */
  lemma PassConverges(c: Context, w: World, listing: seq<Event>, stays: seq<int>, replies: int -> UpsertReply,
                      active: seq<Row>, deletes: int -> DeleteReply)
    requires Sound(c, w, listing, stays) && ListsActive(Desired(c, w, listing, stays, replies).table, active)
    requires !Pass(c, w, listing, stays, replies, active, deletes).failed
    ensures var run := Pass(c, w, listing, stays, replies, active, deletes);
            && Converged(c, w, run.world, listing, stays)
            && run.removed == Unwanted(c, active)
  {
    hide Sound, Settled, Begun, Brought, Clean, ListsActive, Pass;
    SoundIsOwned(c, w, listing, stays);
    PassSettles(c, w, listing, stays, replies, active, deletes);
    PassBrings(c, w, listing, stays, replies, active, deletes);
    PassCleans(c, w, listing, stays, replies, active, deletes);
  }

  lemma SoundIsOwned(c: Context, w: World, listing: seq<Event>, stays: seq<int>)
    ensures Sound(c, w, listing, stays) ==> forall s | s in stays :: s in c.owners
  {
  }

  lemma PassSettles(c: Context, w: World, listing: seq<Event>, stays: seq<int>, replies: int -> UpsertReply,
                    active: seq<Row>, deletes: int -> DeleteReply)
    requires Sound(c, w, listing, stays) && ListsActive(Desired(c, w, listing, stays, replies).table, active)
    requires !Pass(c, w, listing, stays, replies, active, deletes).failed
    ensures forall s | s in stays && !Begun(c, IndexFor(c, listing), w.table, s) ::
              Settled(c, Pass(c, w, listing, stays, replies, active, deletes).world, s)
  {
    hide Settled, Begun, SafePass, Untangled, Core;
    var p1 := DesireAll(c, IndexFor(c, listing), Start(w), stays, replies);
    var w2 := Pass(c, w, listing, stays, replies, active, deletes).world;
    PassIsSafe(c, w, listing, stays, replies, active, deletes);
    TargetsAreDistinct(c, w.table, listing, stays);
    DesireAllKeeps(c, listing, w, stays, replies);
    FailureSticks(c, IndexFor(c, listing), p1, active, deletes);
    DesireAllSettles(c, listing, w, stays, replies);
    forall s | s in stays && !Begun(c, IndexFor(c, listing), w.table, s)
      ensures Settled(c, w2, s)
    {
      SafeKeepsDesired(c, w, p1.world, w2, listing, stays, s);
      SettledSurvives(c, p1.world, w2, s);
    }
  }

  /** The second phase of such a pass removes every row no stay calls for. */
  lemma PassCleans(c: Context, w: World, listing: seq<Event>, stays: seq<int>, replies: int -> UpsertReply,
                   active: seq<Row>, deletes: int -> DeleteReply)
    requires Sound(c, w, listing, stays) && ListsActive(Desired(c, w, listing, stays, replies).table, active)
    requires !Pass(c, w, listing, stays, replies, active, deletes).failed
    ensures var run := Pass(c, w, listing, stays, replies, active, deletes);
            Clean(c, run.world.table) && run.removed == Unwanted(c, active)
  {
    hide Begun, SafePass, Untangled, Clean, Core, RetiresSome, Cleaned;
    var p1 := DesireAll(c, IndexFor(c, listing), Start(w), stays, replies);
    var w2 := Pass(c, w, listing, stays, replies, active, deletes).world;
    PassIsSafe(c, w, listing, stays, replies, active, deletes);
    TargetsAreDistinct(c, w.table, listing, stays);
    DesireAllKeeps(c, listing, w, stays, replies);
    DesireAllBrings(c, listing, w, stays, replies);
    RetireesAdoptTheirOwn(c, w, p1.world, listing, stays, active);
    RetireAllCounts(c, IndexFor(c, listing), p1, active, deletes);
    CoreHasTable(c.property, p1.world);
    RetireAllCleans(c, listing, p1, active, deletes);
    CleanedIsClean(c, p1.world, w2, active);
  }

  /**
   * A pass, with failures or without, leaves every up-to-date row and its event alone and writes into every other one
   * what its stay calls for, but for the rows it found begun. Those upserted are counted, failed or not.
   */
  lemma PassBrings(c: Context, w: World, listing: seq<Event>, stays: seq<int>, replies: int -> UpsertReply,
                   active: seq<Row>, deletes: int -> DeleteReply)
    requires Sound(c, w, listing, stays) && ListsActive(Desired(c, w, listing, stays, replies).table, active)
    ensures var run := Pass(c, w, listing, stays, replies, active, deletes);
            && run.seen == |stays| && run.upserted == Stale(c, w.table, listing, stays)
            && forall s | s in stays && !Begun(c, IndexFor(c, listing), w.table, s) ::
                 Brought(c, w, run.world, listing, s)
  {
    hide Begun, SafePass, Untangled, Brought, Core;
    var p1 := DesireAll(c, IndexFor(c, listing), Start(w), stays, replies);
    var w2 := Pass(c, w, listing, stays, replies, active, deletes).world;
    PassIsSafe(c, w, listing, stays, replies, active, deletes);
    TargetsAreDistinct(c, w.table, listing, stays);
    DesireAllKeeps(c, listing, w, stays, replies);
    DesireAllBrings(c, listing, w, stays, replies);
    RetiringKeepsCount(c, IndexFor(c, listing), p1, active, deletes);
    forall s | s in stays && !Begun(c, IndexFor(c, listing), w.table, s)
      ensures Brought(c, w, w2, listing, s)
    {
      SafeKeepsDesired(c, w, p1.world, w2, listing, stays, s);
      BroughtSurvives(c, w, p1.world, w2, listing, s);
    }
  }

  lemma SafeKeepsDesired(c: Context, w: World, w1: World, w2: World, listing: seq<Event>, stays: seq<int>, s: int)
    requires (forall x | x in stays :: x in c.owners) && SafePass(c, w, w1, w2, listing, stays)
    requires s in stays && !Begun(c, IndexFor(c, listing), w.table, s)
    ensures DesiredKept(c, w1, w2, s)
  {
  }

  lemma {:induction false} FailureSticks(c: Context, idx: Index, p: Progress, active: seq<Row>,
                                         deletes: int -> DeleteReply)
    ensures p.failed ==> RetireAll(c, idx, p, active, deletes).failed
  {
    if active != [] {
      FailureSticks(c, idx, p, active[..|active| - 1], deletes);
    }
  }

  // ---------- rows the pass finds begun ----------

  lemma RetireNeverRevives(c: Context, idx: Index, p: Progress, r: Row, reply: DeleteReply, g: string)
    requires !Live(p.world.remote, g)
    ensures !Live(RetireStep(c, idx, p, r, reply).world.remote, g)
  {
    hide Match, Current, SetPending, MarkRemoved, MarkSeen, SetGoogleResult;
  }

  /** A turn for a begun row, if it does not fail, ends its event. */
  lemma BegunStepEnds(c: Context, idx: Index, p: Progress, r: Row, reply: DeleteReply)
    requires c.configured && r.pending == DeleteAction && r.googleId.Some? && r.googleId.value != ""
    requires Reachable(p.world.remote, r.calendar, r.googleId.value) && !RetireStep(c, idx, p, r, reply).failed
    ensures !Live(RetireStep(c, idx, p, r, reply).world.remote, r.googleId.value)
  {
  }

  /** A row whose deletion was begun loses its event, whatever else the pass decided about the row. */
  lemma {:induction false} BegunDeletionEnds(c: Context, listing: seq<Event>, p: Progress, active: seq<Row>,
                                             deletes: int -> DeleteReply, r: Row)
    requires Core(c.property, p.world) && DistinctRows(p.world.table, active) && NoneAdopts(c, active, listing)
             && r in active
    requires c.configured && Listed(p.world.remote, listing) && r.pending == DeleteAction
    requires !RetireAll(c, IndexFor(c, listing), p, active, deletes).failed
    requires r.googleId.Some? && r.googleId.value != "" && Reachable(p.world.remote, r.calendar, r.googleId.value)
    ensures !Live(RetireAll(c, IndexFor(c, listing), p, active, deletes).world.remote, r.googleId.value)
  {
    hide WouldAdopt, RowOk, RemoteOk, TableOk;
    var idx, g := IndexFor(c, listing), r.googleId.value;
    var init, last := active[..|active| - 1], active[|active| - 1];
    assert active == init + [last];
    var p1 := RetireAll(c, idx, p, init, deletes);
    if r in init {
      BegunDeletionEnds(c, listing, p, init, deletes, r);
      RetireNeverRevives(c, idx, p1, last, deletes(last.id), g);
    } else {
      RetireAllKeeps(c, listing, p, init, deletes);
      UnlistedRowStays(c, p.world, p1.world, init, r);
      BegunStepEnds(c, idx, p1, r, deletes(r.id));
    }
  }

  lemma UnlistedRowStays(c: Context, w: World, w1: World, init: seq<Row>, r: Row)
    requires Core(c.property, w) && r.id in w.table.rows && w.table.rows[r.id] == r && r !in init
    requires r.googleId.Some? && r.googleId.value in w.remote.events && RetiresSome(c, w, w1, init)
    ensures r.googleId.value in w1.remote.events
            && w1.remote.events[r.googleId.value] == w.remote.events[r.googleId.value]
  {
    assert RowOk(c.property, w.remote, w.table.rows[r.id]);
  }

  /** Phase one does not touch the event of a row it finds begun. */
  lemma {:induction false} BegunIsUntouched(c: Context, listing: seq<Event>, w: World, stays: seq<int>,
                                            replies: int -> UpsertReply, s: int, g: string)
    requires ValidContext(c) && Core(c.property, w) && Distinct(stays) && NoneTakes(c, w.table, listing, stays)
    requires c.configured ==> Listed(w.remote, listing)
    requires s in c.owners && Begun(c, IndexFor(c, listing), w.table, s)
    requires RowOfStay(c, w.table, s).value.googleId == Some(g) && g in w.remote.events
    ensures var w1 := Desired(c, w, listing, stays, replies);
            && RowOfStay(c, w1.table, s) == RowOfStay(c, w.table, s)
            && g in w1.remote.events && w1.remote.events[g] == w.remote.events[g]
  {
    hide RowOk, RemoteOk, CanSkip, Draft, WouldTake;
    if stays != [] {
      var idx, init, t := IndexFor(c, listing), stays[..|stays| - 1], stays[|stays| - 1];
      LastIsNew(stays);
      BegunIsUntouched(c, listing, w, init, replies, s, g);
      DesireAllKeeps(c, listing, w, init, replies);
      var p1 := DesireAll(c, idx, Start(w), init, replies);
      OtherStaysKeepTheirRow(c, w, p1.world, init, t);
      TakesByRow(c, w.table, p1.world.table, listing, t);
      DesireStepKeeps(c, listing, p1, t, replies(t));
      if t != s {
        OneTurnSpares(c, p1.world, DesireStep(c, idx, p1, t, replies(t)).world, t, s, g);
      }
    }
  }

  lemma OneTurnSpares(c: Context, w: World, w': World, t: int, s: int, g: string)
    requires t in c.owners && s in c.owners && s != t && Core(c.property, w) && Core(c.property, w')
    requires TouchesCleaning(c.property, w, w', CanonicalIdentity(c, t))
    requires RowOfStay(c, w.table, s).Some? && RowOfStay(c, w.table, s).value.googleId == Some(g)
             && g in w.remote.events
    ensures RowOfStay(c, w'.table, s) == RowOfStay(c, w.table, s)
    ensures g in w'.remote.events && w'.remote.events[g] == w.remote.events[g]
  {
    OneTurnKeepsOthers(c, w, w', t, s);
    StayIsCurrent(c, w, s);
    StayIsCurrent(c, w', t);
    assert RowOk(c.property, w.remote, w.table.rows[RowOfStay(c, w.table, s).value.id]);
  }

  /**
   * Exactly which desired stays an error-free pass settles: all but those whose row, as the pass found it, was waiting
   * for a deletion and would be skipped. Such a row is removed, and with a configured calendar its event, live when the
   * pass began, is gone.
   */
  lemma DesiredSurvivesExactly(c: Context, w: World, listing: seq<Event>, stays: seq<int>, replies: int -> UpsertReply,
                               active: seq<Row>, deletes: int -> DeleteReply, s: int)
    requires Sound(c, w, listing, stays) && ListsActive(Desired(c, w, listing, stays, replies).table, active)
    requires !Pass(c, w, listing, stays, replies, active, deletes).failed && s in stays
    ensures var w2 := Pass(c, w, listing, stays, replies, active, deletes).world;
            && (Settled(c, w2, s) <==> !Begun(c, IndexFor(c, listing), w.table, s))
            && (Begun(c, IndexFor(c, listing), w.table, s) ==> Lost(c, w, w2, s))
  {
    PassConverges(c, w, listing, stays, replies, active, deletes);
    if Begun(c, IndexFor(c, listing), w.table, s) {
      BegunIsLost(c, w, listing, stays, replies, active, deletes, s);
    }
  }

  /** The stay's row is removed and, with a configured calendar, its live event is gone. */
  predicate Lost(c: Context, w: World, w2: World, s: int)
    requires s in c.owners
  {
    && RowOfStay(c, w2.table, s).Some? && RowOfStay(c, w2.table, s).value.status == Removed
    && (c.configured ==>
          var r := RowOfStay(c, w.table, s);
          && r.Some? && r.value.googleId.Some? && Live(w.remote, r.value.googleId.value)
          && !Live(w2.remote, r.value.googleId.value))
  }

  lemma BegunIsLost(c: Context, w: World, listing: seq<Event>, stays: seq<int>, replies: int -> UpsertReply,
                    active: seq<Row>, deletes: int -> DeleteReply, s: int)
    requires Sound(c, w, listing, stays) && ListsActive(Desired(c, w, listing, stays, replies).table, active)
    requires !Pass(c, w, listing, stays, replies, active, deletes).failed && s in stays
    requires Begun(c, IndexFor(c, listing), w.table, s)
    ensures Lost(c, w, Pass(c, w, listing, stays, replies, active, deletes).world, s)
  {
    var p1 := DesireAll(c, IndexFor(c, listing), Start(w), stays, replies);
    var w2 := Pass(c, w, listing, stays, replies, active, deletes).world;
    TargetsAreDistinct(c, w.table, listing, stays);
    DesireAllKeeps(c, listing, w, stays, replies);
    DesireAllReadies(c, listing, w, stays, replies);
    RetireesAdoptTheirOwn(c, w, p1.world, listing, stays, active);
    RetireAllKeeps(c, listing, p1, active, deletes);
    RetireAllCleans(c, listing, p1, active, deletes);
    StayIsCurrent(c, w, s);
    StayIsCurrent(c, p1.world, s);
    var r := RowOfStay(c, w.table, s).value;
    assert r in active && !Spared(c, r);
    assert p1.world.table.byIdentity[CanonicalIdentity(c, s)] == r.id;
    if c.configured {
      BegunIsReachable(c, w, listing, s);
      BegunIsUntouched(c, listing, w, stays, replies, s, r.googleId.value);
      BegunDeletionEnds(c, listing, p1, active, deletes, r);
    }
  }

  lemma BegunIsReachable(c: Context, w: World, listing: seq<Event>, s: int)
    requires c.configured && Core(c.property, w) && ListedLive(c, w.remote, listing)
    requires s in c.owners && Begun(c, IndexFor(c, listing), w.table, s)
    ensures var r := RowOfStay(c, w.table, s).value;
            r.googleId.Some? && r.googleId.value != "" && Live(w.remote, r.googleId.value)
            && Reachable(w.remote, r.calendar, r.googleId.value)
  {
    var r := RowOfStay(c, w.table, s).value;
    var d := Draft(c, IndexFor(c, listing), Some(r), Build(c, s));
    StayIsCurrent(c, w, s);
    SkippedIsListed(c, listing, r, d);
    assert d.desiredHash.value.calendar == c.settings.calendar;
    assert RowOk(c.property, w.remote, w.table.rows[r.id]);
  }

  // ---------- idempotence ----------

  /** The listing shows every live event of the configured calendar that lies in the requested range. */
  ghost predicate ListsAll(c: Context, m: Remote, listing: seq<Event>) {
    forall k | Live(m, k) && m.events[k].calendar == c.settings.calendar && InRange(c, m.events[k]) ::
             m.events[k] in listing
  }

  lemma SettledIsSkipped(c: Context, listing: seq<Event>, p: Progress, s: int, reply: UpsertReply)
    requires s in c.owners && Core(c.property, p.world) && Settled(c, p.world, s)
    requires c.configured ==> ListsAll(c, p.world.remote, listing)
    ensures DesireStep(c, IndexFor(c, listing), p, s, reply) == p.(seen := p.seen + 1)
  {
    var r := RowOfStay(c, p.world.table, s).value;
    StayIsCurrent(c, p.world, s);
    if c.configured {
      var e := p.world.remote.events[r.googleId.value];
      assert e in listing && Usable(e) && e.id == r.googleId.value;
      IndexIsFaithful(listing, c.property, c.offset);
    }
    assert CanSkip(IndexFor(c, listing), r, Draft(c, IndexFor(c, listing), Some(r), Build(c, s)));
  }

  lemma {:induction false} DesireAllIsIdle(c: Context, listing: seq<Event>, w: World, stays: seq<int>,
                                           replies: int -> UpsertReply)
    requires forall s | s in stays :: s in c.owners && Settled(c, w, s)
    requires Core(c.property, w) && (c.configured ==> ListsAll(c, w.remote, listing))
    ensures DesireAll(c, IndexFor(c, listing), Start(w), stays, replies) == Start(w).(seen := |stays|)
  {
    if stays != [] {
      var init, s := stays[..|stays| - 1], stays[|stays| - 1];
      DesireAllIsIdle(c, listing, w, init, replies);
      SettledIsSkipped(c, listing, Start(w).(seen := |init|), s, replies(s));
    }
  }

  lemma {:induction false} RetireAllIsIdle(c: Context, idx: Index, p: Progress, active: seq<Row>,
                                           deletes: int -> DeleteReply)
    requires Clean(c, p.world.table)
    requires forall r | r in active ::
               r.id in p.world.table.rows && p.world.table.rows[r.id] == r && r.status != Removed
    ensures RetireAll(c, idx, p, active, deletes) == p
  {
    if active != [] {
      RetireAllIsIdle(c, idx, p, active[..|active| - 1], deletes);
      var r := active[|active| - 1];
      assert r in active;
      CleanIsSpared(c, r);
    }
  }

  lemma CleanIsSpared(c: Context, r: Row)
    ensures LeftAlone(c, r) <==> Spared(c, r)
  {
  }

  /** Nothing but skipping was done. */
  predicate Idle(w: World, stays: seq<int>, run: Progress) {
    run == Progress(w, {}, |stays|, 0, 0, false)
  }

  /** A stay whose row is not synced is upserted by any pass that gets to it with that row. */
  lemma {:induction false} UnsyncedIsUpserted(c: Context, idx: Index, w: World, stays: seq<int>,
                                              replies: int -> UpsertReply, s: int)
    requires (forall x | x in stays :: x in c.owners) && s in stays
    requires RowOfStay(c, w.table, s).Some? && RowOfStay(c, w.table, s).value.status != Synced
    ensures DesireAll(c, idx, Start(w), stays, replies).upserted > 0
  {
    var init, t := stays[..|stays| - 1], stays[|stays| - 1];
    var p1 := DesireAll(c, idx, Start(w), init, replies);
    if s in init {
      UnsyncedIsUpserted(c, idx, w, init, replies, s);
    } else if p1.upserted == 0 {
      NothingUpserted(c, idx, w, init, replies);
    }
  }

  lemma {:induction false} NothingUpserted(c: Context, idx: Index, w: World, stays: seq<int>,
                                           replies: int -> UpsertReply)
    requires (forall x | x in stays :: x in c.owners) && DesireAll(c, idx, Start(w), stays, replies).upserted == 0
    ensures DesireAll(c, idx, Start(w), stays, replies).world == w
  {
    if stays != [] {
      NothingUpserted(c, idx, w, stays[..|stays| - 1], replies);
    }
  }

  lemma {:induction false} RetiringKeepsCount(c: Context, idx: Index, p: Progress, active: seq<Row>,
                                              deletes: int -> DeleteReply)
    ensures var p' := RetireAll(c, idx, p, active, deletes); p'.upserted == p.upserted && p'.seen == p.seen
  {
    if active != [] {
      hide RetireStep;
      var init, r := active[..|active| - 1], active[|active| - 1];
      RetiringKeepsCount(c, idx, p, init, deletes);
      RetireStepCounts(c, idx, RetireAll(c, idx, p, init, deletes), r, deletes(r.id));
    }
  }

  /**
   * Run again with the same stays, settings and date over what an error-free pass left: nothing is written, nothing is
   * deleted and nothing changes, although every end time is inherited and every hash computed anew, exactly unless the
   * first pass found a row begun.
   */
  lemma SecondPassIsIdle(c: Context, w: World, listing: seq<Event>, stays: seq<int>, replies: int -> UpsertReply,
                         active: seq<Row>, deletes: int -> DeleteReply, listing2: seq<Event>,
                         replies2: int -> UpsertReply, active2: seq<Row>, deletes2: int -> DeleteReply)
    requires Sound(c, w, listing, stays) && ListsActive(Desired(c, w, listing, stays, replies).table, active)
    requires !Pass(c, w, listing, stays, replies, active, deletes).failed
    requires var w2 := Pass(c, w, listing, stays, replies, active, deletes).world;
             ListsActive(Desired(c, w2, listing2, stays, replies2).table, active2)
             && (c.configured ==> ListsAll(c, w2.remote, listing2))
    ensures var w2 := Pass(c, w, listing, stays, replies, active, deletes).world;
            Idle(w2, stays, Pass(c, w2, listing2, stays, replies2, active2, deletes2)) <==>
              forall s | s in stays :: !Begun(c, IndexFor(c, listing), w.table, s)
  {
    hide Settled, Begun, SafePass, Untangled;
    var w2 := Pass(c, w, listing, stays, replies, active, deletes).world;
    assert Core(c.property, w2) by {
      SoundIsSafe(c, w, listing, stays, replies, active, deletes);
    }
    PassConverges(c, w, listing, stays, replies, active, deletes);
    var idx2 := IndexFor(c, listing2);
    if s :| s in stays && Begun(c, IndexFor(c, listing), w.table, s) {
      BegunIsLost(c, w, listing, stays, replies, active, deletes, s);
      UnsyncedIsUpserted(c, idx2, w2, stays, replies2, s);
      RetiringKeepsCount(c, idx2, DesireAll(c, idx2, Start(w2), stays, replies2), active2, deletes2);
    } else {
      DesireAllIsIdle(c, listing2, w2, stays, replies2);
      RetireAllIsIdle(c, idx2, Start(w2).(seen := |stays|), active2, deletes2);
    }
  }

  lemma SoundIsSafe(c: Context, w: World, listing: seq<Event>, stays: seq<int>, replies: int -> UpsertReply,
                    active: seq<Row>, deletes: int -> DeleteReply)
    requires Sound(c, w, listing, stays) && ListsActive(Desired(c, w, listing, stays, replies).table, active)
    ensures Core(c.property, Pass(c, w, listing, stays, replies, active, deletes).world)
    ensures forall s | s in stays :: s in c.owners
  {
    PassIsSafe(c, w, listing, stays, replies, active, deletes);
  }
}
