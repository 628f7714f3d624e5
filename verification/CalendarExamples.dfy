/** Concrete runs: a wanted event that is lost, and a moved event that is taken or deleted. */
module CalendarExamples {
  import opened Text
  import opened CalendarModel
  import opened EventIndex
  import opened CalendarPass
  import opened CalendarSafety
  import opened CalendarPhases
  import opened CalendarRuns
  import opened CalendarConvergence

  /** One eligible stay, checking out today. */
  function OneStay(): Context {
    Context(1, "UTC", 0, Settings("calendar", 180, "Clean", "Clean today"), Profile("10:00", "14:00", 36000, 50400),
            map[7 := 10], {}, 10, 10, 10, true)
  }

  /** The same day while the stay is not eligible. */
  function NoStay(): Context {
    OneStay().(owners := map[])
  }

  // ---------- a run that loses a wanted event ----------

  function SyncedRow(): Row {
    Build(OneStay(), 7).(id := 1, googleId := Some("g"), status := Synced, pending := NoAction)
  }

  /** Its deletion was recorded, but the process stopped before the calendar was called. */
  function BegunRow(): Row {
    SyncedRow().(pending := DeleteAction)
  }

  function EventOf(r: Row): Event {
    Payload(1, r, "g", false)
  }

  function EmptyWorld(): World {
    World(Table(map[], map[], 1), Remote(map[], {}))
  }

  function WorldOf(r: Row): World {
    World(Table(map[1 := r], map[CanonicalIdentity(OneStay(), 7) := 1], 2), Remote(map["g" := EventOf(r)], {"g"}))
  }

  lemma WorldOfIsCore(r: Row)
    requires r == SyncedRow() || r == BegunRow()
    ensures Core(1, WorldOf(r)) && ListedLive(OneStay(), WorldOf(r).remote, [EventOf(r)])
    ensures RowOfStay(OneStay(), WorldOf(r).table, 7) == Some(r) && Current(OneStay(), r)
    ensures InPlace(OneStay(), [EventOf(r)])
  {
    assert RowOk(1, WorldOf(r).remote, r);
  }

  lemma WorldOfIsListed(r: Row)
    requires r == SyncedRow() || r == BegunRow()
    ensures ListsActive(WorldOf(r).table, [r]) && ListsTargets(OneStay(), [7]) && ListsTargets(NoStay(), [])
  {
  }

  /** A phase with one turn. */
  lemma OneStayTurn(c: Context, idx: Index, p: Progress, replies: int -> UpsertReply)
    requires 7 in c.owners
    ensures DesireAll(c, idx, p, [7], replies) == DesireStep(c, idx, p, 7, replies(7))
  {
    hide DesireStep;
    assert [7][..0] == [];
    assert DesireAll(c, idx, p, [], replies) == p;
  }

  lemma OneRowTurn(c: Context, idx: Index, p: Progress, r: Row, deletes: int -> DeleteReply)
    ensures RetireAll(c, idx, p, [r], deletes) == RetireStep(c, idx, p, r, deletes(r.id))
  {
    hide RetireStep;
    assert [r][..0] == [];
    assert RetireAll(c, idx, p, [], deletes) == p;
  }

  lemma FirstTurn(reply: UpsertReply)
    requires reply == Answers("g", true)
    ensures DesireStep(OneStay(), FRESH, Start(EmptyWorld()), 7, reply).world == WorldOf(SyncedRow())
  {
  }

  lemma SyncedIsQuiet(idx: Index, p: Progress, reply: DeleteReply)
    ensures RetireStep(OneStay(), idx, p, SyncedRow(), reply) == p
  {
    hide Match;
  }

  lemma FirstPass(deletes: int -> DeleteReply)
    ensures var st := PassStep(OneStay(), [], [7], _ => Answers("g", true), [SyncedRow()], deletes);
            Core(1, EmptyWorld()) && Admissible(1, EmptyWorld(), st)
            && Apply(EmptyWorld(), st) == WorldOf(SyncedRow())
  {
    hide DesireAll, RetireAll, DesireStep, RetireStep, Core, WorldOf, SyncedRow, Untangled, ListsActive, ListsTargets;
    var c, w := OneStay(), EmptyWorld();
    var replies: int -> UpsertReply := _ => Answers("g", true);
    EmptyTableIsSafe(1, w.remote);
    InPlaceIsUntangled(c, w, []);
    WorldOfIsListed(SyncedRow());
    OneStayTurn(c, FRESH, Start(w), replies);
    FirstTurn(replies(7));
    var p1 := DesireStep(c, FRESH, Start(w), 7, replies(7));
    OneRowTurn(c, FRESH, p1, SyncedRow(), deletes);
    SyncedIsQuiet(FRESH, p1, deletes(SyncedRow().id));
  }

  lemma StoppedTurn(idx: Index, reply: DeleteReply)
    ensures StoppedRetire(NoStay(), idx, Start(WorldOf(SyncedRow())), SyncedRow(), 2, reply) == WorldOf(BegunRow())
  {
    hide Match;
    assert !Current(NoStay(), SyncedRow());
  }

  lemma StoppedPass(replies: int -> UpsertReply, deletes: int -> DeleteReply)
    ensures var w := WorldOf(SyncedRow());
            var st := StopInPhaseTwo(NoStay(), [EventOf(SyncedRow())], [], replies, [SyncedRow()], deletes, 0, 2);
            Admissible(1, w, st) && Apply(w, st) == WorldOf(BegunRow())
  {
    hide Core, IndexOf, StoppedRetire, WorldOf, SyncedRow, BegunRow, Untangled, ListsActive, ListsTargets, InPlace,
      ListedLive, Listed;
    var c, w, listing := NoStay(), WorldOf(SyncedRow()), [EventOf(SyncedRow())];
    WorldOfIsCore(SyncedRow());
    WorldOfIsListed(SyncedRow());
    assert Listed(w.remote, listing) && InPlace(c, listing) by {
      PlacedEverywhere(SyncedRow());
    }
    InPlaceIsUntangled(c, w, listing);
    assert [SyncedRow()][..0] == [];
    assert Desired(c, w, listing, [], replies) == w;
    assert Pass(c, w, listing, [], replies, [], deletes) == Start(w);
    StoppedTurn(IndexFor(c, listing), deletes(SyncedRow().id));
  }

  lemma PlacedEverywhere(r: Row)
    requires r == SyncedRow() || r == BegunRow()
    ensures Listed(WorldOf(r).remote, [EventOf(r)]) && InPlace(NoStay(), [EventOf(r)])
  {
    WorldOfIsCore(r);
  }

  lemma BegunIsSeen()
    ensures Seen(IndexFor(OneStay(), [EventOf(BegunRow())]), BegunRow())
  {
    hide IndexOf;
    var listing := [EventOf(BegunRow())];
    IndexIsFaithful(listing, 1, 0);
    assert listing[0] in listing && Usable(listing[0]) && listing[0].id == "g";
  }

  lemma BegunHashIsKept()
    ensures BegunRow().desiredHash.Some?
    ensures BegunRow().desiredHash == Inherit(OneStay(), BegunRow(), Build(OneStay(), 7)).desiredHash
  {
  }

  lemma BegunRowCanBeSkipped()
    ensures Begun(OneStay(), IndexFor(OneStay(), [EventOf(BegunRow())]), WorldOf(BegunRow()).table, 7)
  {
    hide IndexFor, Match, Inherit, Seen;
    WorldOfIsCore(BegunRow());
    BegunIsSeen();
    BegunHashIsKept();
  }

  lemma BegunTurns(reply: UpsertReply)
    ensures var c, w, idx := OneStay(), WorldOf(BegunRow()), IndexFor(OneStay(), [EventOf(BegunRow())]);
            var p := RetireStep(c, idx, Start(w).(seen := 1), BegunRow(), Gone);
            && DesireStep(c, idx, Start(w), 7, reply) == Start(w).(seen := 1)
            && !p.failed && !Live(p.world.remote, "g")
  {
    hide Draft, IndexOf, CanSkip;
    WorldOfIsCore(BegunRow());
    BegunRowCanBeSkipped();
    BegunStepEnds(OneStay(), IndexFor(OneStay(), [EventOf(BegunRow())]), Start(WorldOf(BegunRow())).(seen := 1),
                  BegunRow(), Gone);
  }

  lemma LastPass(replies: int -> UpsertReply)
    ensures var c, w, listing := OneStay(), WorldOf(BegunRow()), [EventOf(BegunRow())];
            var st := PassStep(c, listing, [7], replies, [BegunRow()], _ => Gone);
            && Admissible(1, w, st) && Live(w.remote, "g") && !Live(Apply(w, st).remote, "g")
            && !Pass(c, w, listing, [7], replies, [BegunRow()], _ => Gone).failed
  {
    hide DesireAll, RetireAll, DesireStep, RetireStep, IndexOf, Core, InPlace, Listed, Untangled, WorldOf, BegunRow,
      ListsActive, ListsTargets;
    var c, w, listing := OneStay(), WorldOf(BegunRow()), [EventOf(BegunRow())];
    var idx := IndexFor(c, listing);
    WorldOfIsCore(BegunRow());
    WorldOfIsListed(BegunRow());
    BegunTurns(replies(7));
    InPlaceIsUntangled(c, w, listing);
    OneStayTurn(c, idx, Start(w), replies);
    OneRowTurn(c, idx, Start(w).(seen := 1), BegunRow(), _ => Gone);
    assert Live(w.remote, "g") by {
      BegunIsLive();
    }
  }

  lemma BegunIsLive()
    ensures Live(WorldOf(BegunRow()).remote, "g")
  {
  }

  /**
   * From an empty table: a pass creates the event of a stay; the stay is not eligible for a moment and a pass stops
   * between recording the deletion and carrying it out; the stay is eligible again, and the next pass, in which
   * nothing fails, deletes its live event.
   */
  lemma WantedEventIsLostInARun(replies: int -> UpsertReply, deletes: int -> DeleteReply)
    returns (ws: seq<World>, steps: seq<Step>)
    ensures IsRun(1, ws, steps) && ws[0] == EmptyWorld() && |steps| == 3 && steps[2].PassStep?
    ensures var st := steps[2];
            && st.c == OneStay() && st.stays == [7] && RowOfStay(st.c, ws[2].table, 7) == Some(BegunRow())
            && Live(ws[2].remote, "g") && !Live(ws[3].remote, "g")
            && !Pass(st.c, ws[2], st.listing, st.stays, st.replies, st.active, st.deletes).failed
  {
    hide Admissible, Apply, Pass, WorldOf, BegunRow, SyncedRow, NoStay, RowOfStay, Live, Core, RowOk;
    var w1, w2 := WorldOf(SyncedRow()), WorldOf(BegunRow());
    var first := PassStep(OneStay(), [], [7], _ => Answers("g", true), [SyncedRow()], deletes);
    var stop := StopInPhaseTwo(NoStay(), [EventOf(SyncedRow())], [], replies, [SyncedRow()], deletes, 0, 2);
    var last := PassStep(OneStay(), [EventOf(BegunRow())], [7], replies, [BegunRow()], _ => Gone);
    FirstPass(deletes);
    StoppedPass(replies, deletes);
    LastPass(replies);
    WorldOfIsCore(BegunRow());
    ws, steps := [EmptyWorld(), w1, w2, Apply(w2, last)], [first, stop, last];
  }

  // ---------- an event moved to another day ----------

  /** The cleaning of the day before, synced on "g". */
  function PastRow(): Row {
    Build(OneStay().(owners := map[7 := 9]), 7).(id := 1, googleId := Some("g"), status := Synced, pending := NoAction)
  }

  /** Its event after somebody dragged it to today. */
  function Moved(): Event {
    EventOf(PastRow()).(starts := EventOf(PastRow()).starts + DAY_SECONDS,
                        ends := EventOf(PastRow()).ends + DAY_SECONDS)
  }

  function WithEvent(t: Table, e: Event): World {
    World(t, Remote(map["g" := e], {"g"}))
  }

  function PastTable(): Table {
    Table(map[1 := PastRow()], map[Identity(1, 7, 9) := 1], 2)
  }

  lemma MovingIsAnEdit(t: Table)
    ensures EditedByPeople(1, WithEvent(t, EventOf(PastRow())).remote, WithEvent(t, Moved()).remote)
    ensures ListedLive(OneStay(), WithEvent(t, Moved()).remote, [Moved()])
  {
  }

  lemma OnlyTheDayLeads(desired: Row, existing: Option<Row>)
    requires desired.googleId.None? && desired.identity == Some(Identity(1, 7, 10)) && desired.stay == 7
             && desired.date == 10
    requires existing.Some? ==>
               existing.value.googleId.None? && existing.value.id == 2 && existing.value.identity == desired.identity
    ensures OnlyByStayDay([Moved()], 1, 0, desired, existing)
    ensures Match(IndexOf([Moved()], 1, 0), desired, existing) == "g"
  {
    var cs := Criteria(desired, existing);
    assert Moved().props == Props(Some(1), Some(1), Some(Identity(1, 7, 9)), Some(7));
    forall j | 0 <= j < 5
      ensures Nobody([Moved()], cs[j], 1, 0)
    {
    }
    assert Satisfies([Moved()][0], OnStayDay(7, 10), 1, 0);
    MatchIsFirstLeast([Moved()], 1, 0, desired, existing);
    var k := FirstLeastPosition([Moved()], cs, 1, 0, Match(IndexOf([Moved()], 1, 0), desired, existing));
    assert cs[5] == OnStayDay(7, 10);
  }

  /** Today's cleaning, written into the event of the past one. */
  function TakingRow(): Row {
    Build(OneStay(), 7).(id := 2, googleId := Some("g"), status := Synced, pending := NoAction)
  }

  lemma MovedIsListed(t: Table)
    ensures ListedLive(OneStay(), WithEvent(t, Moved()).remote, [Moved()])
    ensures OwnedBy(OneStay(), Moved(), 1) && PastRow().pending == NoAction && PastRow().date == 9
  {
  }

  lemma RowsAreOk(t: Table)
    ensures RowOk(1, WithEvent(t, Moved()).remote, PastRow()) && RowOk(1, WithEvent(t, Moved()).remote, UnsentRow())
    ensures IsMine(1, Moved(), PastRow()) && PastRow().id == 1 && UnsentRow().id == 2
    ensures PastRow().identity == Some(Identity(1, 7, 9)) && UnsentRow().identity == Some(Identity(1, 7, 10))
  {
  }

  lemma EventIsHeld(t: Table)
    requires TableOk(t) && 1 in t.rows && t.rows[1] == PastRow()
    requires forall id | id in t.rows :: RowOk(1, WithEvent(t, Moved()).remote, t.rows[id])
    ensures Core(1, WithEvent(t, Moved()))
  {
    RowsAreOk(t);
    hide PastRow, RowOk;
    assert Moved().id == "g" by {
      MovedId();
    }
  }

  lemma TablesAreOk()
    ensures TableOk(PastTable()) && TableOk(BothTable())
  {
  }

  lemma MovedIsCore(t: Table)
    requires t == PastTable() || t == BothTable()
    ensures Core(1, WithEvent(t, Moved())) && ListedLive(OneStay(), WithEvent(t, Moved()).remote, [Moved()])
    ensures OwnedBy(OneStay(), Moved(), 1) && PastRow().pending == NoAction && PastRow().date == 9
  {
    hide TableOk, RowOk, ListedLive, OwnedBy, PastRow, UnsentRow, Core;
    MovedIsListed(t);
    RowsAreOk(t);
    TablesAreOk();
    EventIsHeld(t);
  }

  lemma MovedId()
    ensures Moved().id == "g"
  {
  }

  lemma TakingTurn(reply: UpsertReply)
    requires reply.Answers? && reply.confirmed
    ensures var p := DesireStep(OneStay(), IndexFor(OneStay(), [Moved()]), Start(WithEvent(PastTable(), Moved())), 7,
                                reply);
            && p.world.table.rows == map[1 := PastRow(), 2 := TakingRow()]
            && p.world.remote.events == map["g" := EventOf(TakingRow())] && !p.failed
  {
    hide IndexOf, Match;
    OnlyTheDayLeads(Build(OneStay(), 7), None);
  }

  lemma PastAndCurrentAreQuiet(p: Progress, deletes: int -> DeleteReply)
    ensures RetireAll(OneStay(), IndexFor(OneStay(), [Moved()]), p, [PastRow(), TakingRow()], deletes) == p
  {
    hide IndexOf, Match;
    var active := [PastRow(), TakingRow()];
    assert active[..1] == [PastRow()] && [PastRow()][..0] == [];
    assert RetireAll(OneStay(), IndexFor(OneStay(), [Moved()]), p, [PastRow()], deletes) == p;
  }

  /**
   * Somebody drags the event of yesterday's cleaning to today, the day the same stay now checks out. The pass writes
   * today's cleaning into it: the past row loses its event although it is not being deleted.
   */
  lemma MovedEventIsTaken(replies: int -> UpsertReply, deletes: int -> DeleteReply)
    requires replies(7).Answers? && replies(7).confirmed
    ensures var c, w, listing := OneStay(), WithEvent(PastTable(), Moved()), [Moved()];
            var active := [PastRow(), TakingRow()];
            && Core(1, w) && ListsTargets(c, [7]) && ListedLive(c, w.remote, listing)
            && EditedByPeople(1, WithEvent(PastTable(), EventOf(PastRow())).remote, w.remote)
            && ListsActive(Desired(c, w, listing, [7], replies).table, active)
            && !Pass(c, w, listing, [7], replies, active, deletes).failed
            && !PastKept(c, w, Pass(c, w, listing, [7], replies, active, deletes).world)
  {
    hide DesireStep, RetireAll, Core, ListedLive, IndexOf, EditedByPeople;
    var c, w, listing := OneStay(), WithEvent(PastTable(), Moved()), [Moved()];
    var idx := IndexFor(c, listing);
    MovingIsAnEdit(PastTable());
    MovedIsCore(PastTable());
    TakingTurn(replies(7));
    assert [7][..0] == [];
    var p1 := DesireStep(c, idx, Start(w), 7, replies(7));
    assert DesireAll(c, idx, Start(w), [], replies) == Start(w);
    assert DesireAll(c, idx, Start(w), [7], replies) == p1;
    PastAndCurrentAreQuiet(p1, deletes);
    assert OwnedBy(c, w.remote.events["g"], 1) && EventOf(TakingRow()) != Moved();
  }

  /** Today's cleaning of a stay that is no longer eligible; it never reached the calendar. */
  function UnsentRow(): Row {
    Build(OneStay(), 7).(id := 2, status := Error)
  }

  function BothTable(): Table {
    Table(map[1 := PastRow(), 2 := UnsentRow()], map[Identity(1, 7, 9) := 1, Identity(1, 7, 10) := 2], 3)
  }

  lemma AdoptingTurns(deletes: int -> DeleteReply)
    requires deletes(2).Gone?
    ensures var p := RetireAll(NoStay(), IndexFor(NoStay(), [Moved()]), Start(WithEvent(BothTable(), Moved())),
                               [PastRow(), UnsentRow()], deletes);
            !p.failed && "g" in p.world.remote.events && p.world.remote.events["g"].cancelled
  {
    hide IndexOf, Match, RetireStep;
    var c, p := NoStay(), Start(WithEvent(BothTable(), Moved()));
    var idx, active := IndexFor(c, [Moved()]), [PastRow(), UnsentRow()];
    assert active[..1] == [PastRow()] && [PastRow()][..0] == [];
    assert RetireAll(c, idx, p, [], deletes) == p;
    PastIsQuiet(idx, p, deletes(1));
    assert RetireAll(c, idx, p, [PastRow()], deletes) == p;
    AdoptingTurn();
  }

  lemma PastIsQuiet(idx: Index, p: Progress, reply: DeleteReply)
    ensures RetireStep(NoStay(), idx, p, PastRow(), reply) == p
  {
  }

  lemma AdoptingTurn()
    ensures var p := RetireStep(NoStay(), IndexFor(NoStay(), [Moved()]), Start(WithEvent(BothTable(), Moved())),
                                UnsentRow(), Gone);
            !p.failed && "g" in p.world.remote.events && p.world.remote.events["g"].cancelled
  {
    hide IndexOf, Match;
    OnlyTheDayLeads(UnsentRow(), Some(UnsentRow()));
  }

  /** The second phase adopts the moved event for the row it retires, and deletes it: the past row's event is gone. */
  lemma MovedEventIsDeleted(replies: int -> UpsertReply, deletes: int -> DeleteReply)
    requires deletes(2).Gone?
    ensures var c, w, listing := NoStay(), WithEvent(BothTable(), Moved()), [Moved()];
            var active := [PastRow(), UnsentRow()];
            && Core(1, w) && ListsTargets(c, []) && ListedLive(c, w.remote, listing)
            && EditedByPeople(1, WithEvent(BothTable(), EventOf(PastRow())).remote, w.remote)
            && ListsActive(Desired(c, w, listing, [], replies).table, active)
            && !Pass(c, w, listing, [], replies, active, deletes).failed
            && !PastKept(c, w, Pass(c, w, listing, [], replies, active, deletes).world)
  {
    hide RetireAll, Core, IndexOf, EditedByPeople;
    var c, w := NoStay(), WithEvent(BothTable(), Moved());
    MovingIsAnEdit(BothTable());
    MovedIsCore(BothTable());
    AdoptingTurns(deletes);
    assert OwnedBy(c, w.remote.events["g"], 1);
  }
}
