/** Copying the event table of an existing installation, and what becomes of ids that are given out twice. */
module CalendarCopy {
  import opened Text
  import opened CalendarModel
  import opened EventIndex
  import opened CalendarPass
  import opened CalendarSafety
  import opened CalendarPhases
  import opened CalendarRuns
  import opened CalendarConvergence
  import opened CalendarExamples

  // ---------- the copy ----------

  /** How the schema transition copies one row; it asks the log whether the last failure was a deletion or an upsert. */
  function Copied(r: Row, deleteFailed: bool, upsertFailed: bool): Row {
    r.(scheduleHash := None,
       pending := if r.status == Pending then UpsertAction
                  else if r.status == Removed || r.status == Synced then NoAction
                  else if deleteFailed then DeleteAction
                  else if upsertFailed then UpsertAction
                  else NoAction)
  }

  /** The new table counts on from the greatest id that was copied. */
  function CopiedTable(t: Table, deleteFailed: int -> bool, upsertFailed: int -> bool, next: int): Table {
    Table(map id | id in t.rows :: Copied(t.rows[id], deleteFailed(id), upsertFailed(id)), t.byIdentity, next)
  }

  /**
   * A copied row forgets its schedule and keeps everything else but what is pending: a deletion exactly if a deletion
   * was what failed last, an upsert if it was never sent or was what failed last.
   */
  predicate IsCopy(r: Row, r': Row, deleteFailed: bool, upsertFailed: bool) {
    && r' == r.(scheduleHash := None, pending := r'.pending)
    && (r'.pending == DeleteAction <==> r.status == Error && deleteFailed)
    && (r'.pending == UpsertAction <==> r.status == Pending || (r.status == Error && !deleteFailed && upsertFailed))
  }

  /** Every copied row has an id before `next`. */
  predicate CountsOn(t: Table, next: int) {
    0 < next <= t.nextId && forall id | id in t.rows :: id < next
  }

  /** No event left behind carries an id the new table will give out again. */
  ghost predicate NothingAhead(property: int, w: World, next: int) {
    forall k | k in w.remote.events && w.remote.events[k].props.property == Some(property)
               && w.remote.events[k].props.rowId.Some? :: w.remote.events[k].props.rowId.value < next
  }

  /**
   * Copying the rows of an existing installation keeps the invariant exactly when no event left behind by a dropped row
   * carries an id that the new table gives out again. No copied row is begun.
   */
  lemma CopyKeepsExactly(property: int, w: World, deleteFailed: int -> bool, upsertFailed: int -> bool, next: int)
    requires Core(property, w) && CountsOn(w.table, next)
    ensures var w' := World(CopiedTable(w.table, deleteFailed, upsertFailed, next), w.remote);
            && (Core(property, w') <==> NothingAhead(property, w, next))
            && w'.table.rows.Keys == w.table.rows.Keys && w'.table.byIdentity == w.table.byIdentity
            && (forall id | id in w.table.rows ::
                  IsCopy(w.table.rows[id], w'.table.rows[id], deleteFailed(id), upsertFailed(id)))
            && forall c: Context, idx: Index, s: int | s in c.owners :: !Begun(c, idx, w'.table, s)
  {
    hide Copied;
    var w' := World(CopiedTable(w.table, deleteFailed, upsertFailed, next), w.remote);
    forall id | id in w.table.rows
      ensures SameButPending(w.table.rows[id], w'.table.rows[id])
      ensures IsCopy(w.table.rows[id], w'.table.rows[id], deleteFailed(id), upsertFailed(id))
      ensures w'.table.rows[id].status == Synced ==> w'.table.rows[id].pending != DeleteAction
    {
      CopyOfOne(w.table.rows[id], deleteFailed(id), upsertFailed(id));
    }
    CopiedIsCore(property, w, w');
    forall c: Context, idx: Index, s: int | s in c.owners
      ensures !Begun(c, idx, w'.table, s)
    {
      SyncedIsNotBegun(c, idx, w'.table, s);
    }
  }

  predicate SameButPending(r: Row, r': Row) {
    r' == r.(scheduleHash := r'.scheduleHash, pending := r'.pending)
  }

  lemma CopyOfOne(r: Row, deleteFailed: bool, upsertFailed: bool)
    ensures var r' := Copied(r, deleteFailed, upsertFailed);
            && SameButPending(r, r') && (r'.status == Synced ==> r'.pending != DeleteAction)
            && IsCopy(r, r', deleteFailed, upsertFailed)
  {
  }

  lemma CopiedIsCore(property: int, w: World, w': World)
    requires Core(property, w) && w'.remote == w.remote && w'.table.rows.Keys == w.table.rows.Keys
    requires w'.table.byIdentity == w.table.byIdentity && CountsOn(w.table, w'.table.nextId)
    requires forall id | id in w.table.rows :: SameButPending(w.table.rows[id], w'.table.rows[id])
    ensures Core(property, w') <==> NothingAhead(property, w, w'.table.nextId)
  {
    forall id | id in w'.table.rows
      ensures RowOk(property, w.remote, w'.table.rows[id])
    {
      assert RowOk(property, w.remote, w.table.rows[id]);
    }
    forall i | i in w.table.byIdentity
      ensures var id := w.table.byIdentity[i]; id in w'.table.rows && w'.table.rows[id].identity == Some(i)
    {
      var id := w.table.byIdentity[i];
      assert id in w.table.rows && SameButPending(w.table.rows[id], w'.table.rows[id]);
    }
    assert TableOk(w'.table);
    forall k | k in w.remote.events && w.remote.events[k].props.property == Some(property)
      ensures MirroredCopy(property, w, w', k)
    {
      assert Mirrored(property, w, w.remote.events[k]);
    }
    if NothingAhead(property, w, w'.table.nextId) {
      forall k | k in w'.remote.events && w'.remote.events[k].props.property == Some(property)
        ensures Mirrored(property, w', w'.remote.events[k])
      {
        assert MirroredCopy(property, w, w', k);
      }
    }
    if Core(property, w') {
      forall k | k in w.remote.events && w.remote.events[k].props.property == Some(property)
                 && w.remote.events[k].props.rowId.Some?
        ensures w.remote.events[k].props.rowId.value < w'.table.nextId
      {
        assert MirroredCopy(property, w, w', k);
        assert w'.remote.events[k].props.property == Some(property);
      }
    }
  }

  predicate MirroredCopy(property: int, w: World, w': World, k: string)
    requires k in w.remote.events
  {
    var e := w.remote.events[k];
    Mirrored(property, w', e) <==> (e.props.rowId.Some? ==> e.props.rowId.value < w'.table.nextId)
  }

  lemma SyncedIsNotBegun(c: Context, idx: Index, t: Table, s: int)
    requires s in c.owners
             && forall id | id in t.rows :: t.rows[id].status == Synced ==> t.rows[id].pending != DeleteAction
    ensures !Begun(c, idx, t, s)
  {
    if RowOfStay(c, t, s).Some? {
      var id := t.byIdentity[CanonicalIdentity(c, s)];
      assert id in t.rows && RowOfStay(c, t, s) == Some(t.rows[id]);
      assert t.rows[id].status == Synced ==> t.rows[id].pending != DeleteAction;
    }
  }

  // ---------- an id given out again ----------

  /** The event is marked for row `id` of the property. */
  predicate MarkedFor(property: int, e: Event, id: int) {
    Usable(e) && e.props.property == Some(property) && e.props.rowId == Some(id)
  }

  /**
   * A row without a remote id is matched to an event marked for its id, whatever else the listing shows: to the least
   * of them.
   */
  lemma MarkedIsMatched(property: int, offset: int, listing: seq<Event>, e: Event, desired: Row, r: Row)
    requires e in listing && MarkedFor(property, e, r.id) && r.id > 0 && r.googleId.None? && desired.googleId.None?
    ensures var m := Match(IndexOf(listing, property, offset), desired, Some(r));
            && (exists x :: x in listing && MarkedFor(property, x, r.id) && x.id == m)
            && forall x | x in listing && MarkedFor(property, x, r.id) :: !Less(x.id, m)
  {
    var cs := Criteria(desired, Some(r));
    var m := Match(IndexOf(listing, property, offset), desired, Some(r));
    MatchIsFirstLeast(listing, property, offset, desired, Some(r));
    var k := FirstLeastPosition(listing, cs, property, offset, m);
    assert cs[0] == Never && cs[1] == Never && cs[2] == WrittenFor(r.id);
    assert Satisfies(e, cs[2], property, offset);
    assert Nobody(listing, cs[0], property, offset) && Nobody(listing, cs[1], property, offset);
    forall x | x in listing
      ensures MarkedFor(property, x, r.id) <==> Satisfies(x, cs[2], property, offset)
    {
    }
  }

  /** With an event ahead, the row that receives its id is matched to it, although it never wrote the event. */
  lemma AheadIsMatched(property: int, offset: int, t: Table, listing: seq<Event>, e: Event, draft: Row)
    requires TableOk(t) && draft.identity.Some? && Lookup(t, draft.identity.value).None? && draft.googleId.None?
    requires e in listing && MarkedFor(property, e, t.nextId)
    requires forall x | x in listing && MarkedFor(property, x, t.nextId) :: x.id == e.id
    ensures var saved := UpsertByIdentity(t, draft).1;
            saved.id == t.nextId && Match(IndexOf(listing, property, offset), saved, Some(saved)) == e.id
  {
    var saved := UpsertByIdentity(t, draft).1;
    MarkedIsMatched(property, offset, listing, e, saved, saved);
  }

  // ---------- an installation whose copy loses an event ----------

  /** An event that a dropped row of an earlier kind left in the calendar. */
  function Leftover(): Event {
    Event("g", "calendar", false, 10 * DAY_SECONDS, 10 * DAY_SECONDS + 3600, "Clean",
          Props(Some(1), Some(1), None, None))
  }

  /** Five rows had been created, and all of them are dropped by the transition. */
  function OldTable(): Table {
    Table(map[], map[], 6)
  }

  function OldWorld(): World {
    WithEvent(OldTable(), Leftover())
  }

  function NewWorld(): World {
    WithEvent(CopiedTable(OldTable(), _ => false, _ => false, 1), Leftover())
  }

  lemma CopyForgetsIds()
    ensures Core(1, OldWorld()) && CountsOn(OldTable(), 1) && LeftBehind(OldTable(), Leftover())
    ensures !NothingAhead(1, OldWorld(), 1) && !Core(1, NewWorld())
    ensures NewWorld().table == Table(map[], map[], 1)
  {
    assert OldWorld().remote.events["g"] == Leftover();
    CopyKeepsExactly(1, OldWorld(), _ => false, _ => false, 1);
  }

  /** The row of the stay after a first pass whose call fails. */
  function FailedRow(): Row {
    Build(OneStay(), 7).(id := 1, status := Error)
  }

  function FailedWorld(): World {
    WithEvent(Table(map[1 := FailedRow()], map[CanonicalIdentity(OneStay(), 7) := 1], 2), Leftover())
  }

  lemma NothingMatchesNew(desired: Row)
    requires desired.googleId.None? && desired.identity.Some?
    ensures Match(IndexOf([Leftover()], 1, 0), desired, None) == ""
  {
    var m := Match(IndexOf([Leftover()], 1, 0), desired, None);
    MatchIsFirstLeast([Leftover()], 1, 0, desired, None);
    var k := FirstLeastPosition([Leftover()], Criteria(desired, None), 1, 0, m);
  }

  lemma FirstTurnFails(reply: UpsertReply)
    requires reply.Fails? && !reply.applied
    ensures var p := DesireStep(OneStay(), IndexFor(OneStay(), [Leftover()]), Start(NewWorld()), 7, reply);
            p.world == FailedWorld()
  {
    hide IndexOf, Match;
    CopyForgetsIds();
    NothingMatchesNew(Build(OneStay(), 7));
  }

  lemma SecondTurnTakes(reply: UpsertReply)
    requires reply.Answers? && reply.confirmed
    ensures var p := DesireStep(OneStay(), IndexFor(OneStay(), [Leftover()]), Start(FailedWorld()), 7, reply);
            p.world == WorldOf(SyncedRow()) && !p.failed
  {
    hide IndexOf, Match;
    assert [Leftover()][0] == Leftover();
    var d := Inherit(OneStay(), FailedRow(), Build(OneStay(), 7));
    MarkedIsMatched(1, 0, [Leftover()], Leftover(), d, FailedRow());
  }

  lemma CurrentIsQuiet(p: Progress, r: Row, deletes: int -> DeleteReply)
    requires r == FailedRow() || r == SyncedRow()
    ensures RetireAll(OneStay(), IndexFor(OneStay(), [Leftover()]), p, [r], deletes) == p
  {
    hide IndexOf, Match;
    OneRowTurn(OneStay(), IndexFor(OneStay(), [Leftover()]), p, r, deletes);
  }

  lemma FirstPassFails(fails: int -> UpsertReply, deletes: int -> DeleteReply)
    requires fails(7).Fails? && !fails(7).applied
    ensures Desired(OneStay(), NewWorld(), [Leftover()], [7], fails) == FailedWorld()
    ensures Pass(OneStay(), NewWorld(), [Leftover()], [7], fails, [FailedRow()], deletes).world == FailedWorld()
  {
    hide DesireStep, RetireAll, IndexOf, FailedWorld, NewWorld;
    OneStayTurn(OneStay(), IndexFor(OneStay(), [Leftover()]), Start(NewWorld()), fails);
    FirstTurnFails(fails(7));
    CurrentIsQuiet(DesireAll(OneStay(), IndexFor(OneStay(), [Leftover()]), Start(NewWorld()), [7], fails), FailedRow(),
                   deletes);
  }

  lemma SecondPassTakes(replies: int -> UpsertReply, deletes: int -> DeleteReply)
    requires replies(7).Answers? && replies(7).confirmed
    ensures Desired(OneStay(), FailedWorld(), [Leftover()], [7], replies) == WorldOf(SyncedRow())
    ensures var run := Pass(OneStay(), FailedWorld(), [Leftover()], [7], replies, [SyncedRow()], deletes);
            run.world == WorldOf(SyncedRow()) && !run.failed
  {
    hide DesireStep, RetireAll, IndexOf, FailedWorld, WorldOf;
    OneStayTurn(OneStay(), IndexFor(OneStay(), [Leftover()]), Start(FailedWorld()), replies);
    SecondTurnTakes(replies(7));
    CurrentIsQuiet(DesireAll(OneStay(), IndexFor(OneStay(), [Leftover()]), Start(FailedWorld()), [7], replies),
                   SyncedRow(), deletes);
  }

  lemma InputsDescribeWorlds()
    ensures ListsTargets(OneStay(), [7])
    ensures ListedLive(OneStay(), NewWorld().remote, [Leftover()]) && ListsActive(FailedWorld().table, [FailedRow()])
    ensures ListedLive(OneStay(), FailedWorld().remote, [Leftover()])
    ensures ListsActive(WorldOf(SyncedRow()).table, [SyncedRow()])
  {
  }

  lemma LeftoverIsLost()
    ensures !OthersKept(1, OldWorld(), WorldOf(SyncedRow()))
  {
    assert OldWorld().remote.events["g"] == Leftover() != EventOf(SyncedRow());
  }

  /**
   * After the copy a pass inserts the row of a stay under the dropped row's id, and its call fails; the next pass, in
   * which nothing fails, writes the cleaning into the event that was left behind.
   */
  lemma ReusedIdTakesEvent(fails: int -> UpsertReply, replies: int -> UpsertReply, deletes: int -> DeleteReply)
    requires fails(7).Fails? && !fails(7).applied && replies(7).Answers? && replies(7).confirmed
    ensures var c, listing := OneStay(), [Leftover()];
            && ListsTargets(c, [7]) && ListedLive(c, NewWorld().remote, listing)
            && ListsActive(Desired(c, NewWorld(), listing, [7], fails).table, [FailedRow()])
            && Pass(c, NewWorld(), listing, [7], fails, [FailedRow()], deletes).world == FailedWorld()
            && ListedLive(c, FailedWorld().remote, listing)
            && ListsActive(Desired(c, FailedWorld(), listing, [7], replies).table, [SyncedRow()])
            && !Pass(c, FailedWorld(), listing, [7], replies, [SyncedRow()], deletes).failed
            && Pass(c, FailedWorld(), listing, [7], replies, [SyncedRow()], deletes).world == WorldOf(SyncedRow())
    ensures !OthersKept(1, OldWorld(), WorldOf(SyncedRow()))
  {
    hide Desired, Pass, NewWorld, FailedWorld, WorldOf, FailedRow, SyncedRow, ListsTargets, ListsActive, ListedLive,
      OthersKept;
    InputsDescribeWorlds();
    LeftoverIsLost();
    FirstPassFails(fails, deletes);
    SecondPassTakes(replies, deletes);
  }
}
