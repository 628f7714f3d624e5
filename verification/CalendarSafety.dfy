/** What every call and every pass keeps, and which remote events a pass can lose. */
module CalendarSafety {
  import opened Text
  import opened CalendarModel
  import opened EventIndex
  import opened CalendarPass

  // ---------- the invariant ----------

  /** `e` carries exactly the marks PMS writes for row `r`, wherever people have moved it. */
  predicate IsMine(property: int, e: Event, r: Row) {
    e.props == Props(Some(property), Some(r.id), r.identity, Some(r.stay))
  }

  /** What was digested is what the row holds, under some time zone. */
  predicate Agrees(d: Digest, r: Row) {
    && d.calendar == r.calendar && d.title == r.title && d.starts == r.starts && d.ends == r.ends
    && d.identity == r.identity && d.stay == r.stay && d.sameDay == r.sameDay
  }

  predicate RowOk(property: int, m: Remote, r: Row) {
    && r.id > 0
    && r.identity == Some(Identity(property, r.stay, r.date))
    && (r.desiredHash.Some? ==> Agrees(r.desiredHash.value, r))
    && (r.googleId.Some? ==> r.googleId.value != "" && r.googleId.value in m.issued)
    && (r.googleId.Some? && r.googleId.value in m.events ==> IsMine(property, m.events[r.googleId.value], r))
  }

  predicate TableOk(t: Table) {
    && (forall id | id in t.rows :: t.rows[id].id == id && id < t.nextId && t.rows[id].identity.Some?
                                    && t.rows[id].identity.value in t.byIdentity
                                    && t.byIdentity[t.rows[id].identity.value] == id)
    && (forall i | i in t.byIdentity :: t.byIdentity[i] in t.rows && t.rows[t.byIdentity[i]].identity == Some(i))
    && t.nextId > 0
  }

  /** `e` mirrors a row. */
  predicate Mirrors(property: int, t: Table, e: Event) {
    e.props.rowId.Some? && e.props.rowId.value in t.rows && IsMine(property, e, t.rows[e.props.rowId.value])
  }

  /** A row of an earlier kind left `e` behind: its id is not used again, and no cleaning of a stay has its marks. */
  predicate LeftBehind(t: Table, e: Event) {
    && e.props.identity.None? && e.props.stay.None?
    && (e.props.rowId.Some? ==> e.props.rowId.value !in t.rows && e.props.rowId.value < t.nextId)
  }

  predicate Mirrored(property: int, w: World, e: Event) {
    Mirrors(property, w.table, e) || LeftBehind(w.table, e)
  }

  ghost predicate RemoteOk(property: int, w: World) {
    forall k | k in w.remote.events ::
      && w.remote.events[k].id == k && k in w.remote.issued && k != ""
      && (w.remote.events[k].props.property == Some(property) ==> Mirrored(property, w, w.remote.events[k]))
  }

  /**
   * Identities are canonical, every event with this property's marks mirrors a row, and a row's id leads to its own
   * event.
   */
  ghost predicate Core(property: int, w: World) {
    && TableOk(w.table)
    && (forall id | id in w.table.rows :: RowOk(property, w.remote, w.table.rows[id]))
    && RemoteOk(property, w)
  }

  /** Every usable listed event is in the calendar with the marks it is listed with. */
  ghost predicate Listed(m: Remote, listing: seq<Event>) {
    forall e | e in listing && Usable(e) :: e.id in m.events && m.events[e.id].props == e.props
  }

  /** `m'` still holds every event of `m`, marked as before. */
  ghost predicate Keeps(m: Remote, m': Remote) {
    && m.issued <= m'.issued
    && (forall k | k in m.events :: k in m'.events && m'.events[k].props == m.events[k].props)
  }

  /** Only events of row `id` differ. */
  ghost predicate TouchesOnly(property: int, m: Remote, m': Remote, id: int) {
    && Keeps(m, m')
    && (forall k | k in m.events && m'.events[k] != m.events[k] ::
          m.events[k].props.property == Some(property) && m.events[k].props.rowId == Some(id))
  }

  // ---------- single writes ----------

  /** Rewriting a row without changing whose cleaning it is. */
  lemma PutRowKeeps(property: int, w: World, r: Row)
    requires Core(property, w) && RowOk(property, w.remote, r)
    requires r.id in w.table.rows && w.table.rows[r.id].identity == r.identity
    ensures Core(property, World(PutRow(w.table, r), w.remote))
  {
    var w' := World(PutRow(w.table, r), w.remote);
    forall k | k in w'.remote.events && w'.remote.events[k].props.property == Some(property)
      ensures Mirrored(property, w', w'.remote.events[k])
    {
      assert Mirrored(property, w, w.remote.events[k]);
    }
  }

  lemma PendingKeeps(property: int, w: World, id: int, a: Action)
    requires Core(property, w)
    ensures Core(property, World(SetPending(w.table, id, a), w.remote))
  {
    if id in w.table.rows {
      PutRowKeeps(property, w, w.table.rows[id].(id := id, pending := a));
    }
  }

  lemma ResultKeeps(property: int, w: World, id: int, gid: Option<string>, s: Status)
    requires Core(property, w)
    requires gid.Some? ==> gid.value != "" && gid.value in w.remote.issued
    requires gid.Some? && gid.value in w.remote.events && id in w.table.rows ==>
               IsMine(property, w.remote.events[gid.value], w.table.rows[id])
    ensures Core(property, World(SetGoogleResult(w.table, id, gid, s), w.remote))
  {
    if id in w.table.rows {
      PutRowKeeps(property, w, SetGoogleResult(w.table, id, gid, s).rows[id]);
    }
  }

  lemma RemovedKeeps(property: int, w: World, id: int)
    requires Core(property, w)
    ensures Core(property, World(MarkRemoved(w.table, id), w.remote))
  {
    if id in w.table.rows {
      PutRowKeeps(property, w, MarkRemoved(w.table, id).rows[id]);
    }
  }

  lemma SavingKeepsTable(t: Table, draft: Row)
    requires TableOk(t) && draft.identity.Some?
    ensures var (t', saved) := UpsertByIdentity(t, draft);
            && TableOk(t') && saved.id in t'.rows && t'.rows[saved.id] == saved
            && draft.identity.value in t'.byIdentity && t'.byIdentity[draft.identity.value] == saved.id
  {
  }

  /** A draft becomes the row of its identity. */
  lemma SaveKeeps(property: int, w: World, draft: Row)
    requires Core(property, w) && draft.identity == Some(Identity(property, draft.stay, draft.date))
    requires draft.desiredHash.Some? ==> Agrees(draft.desiredHash.value, draft)
    requires draft.googleId.Some? ==>
               && draft.googleId.value in w.remote.events && Lookup(w.table, draft.identity.value).Some?
               && IsMine(property, w.remote.events[draft.googleId.value], Lookup(w.table, draft.identity.value).value)
    ensures var (t, saved) := UpsertByIdentity(w.table, draft);
            Core(property, World(t, w.remote)) && saved.id in t.rows && t.rows[saved.id] == saved
  {
    var (t, saved) := UpsertByIdentity(w.table, draft);
    if Lookup(w.table, draft.identity.value).Some? {
      var id := w.table.byIdentity[draft.identity.value];
      assert id in w.table.rows;
      assert RowOk(property, w.remote, w.table.rows[id]);
      PutRowKeeps(property, w, saved);
    } else {
      var w' := World(t, w.remote);
      forall k | k in w'.remote.events && w'.remote.events[k].props.property == Some(property)
        ensures Mirrored(property, w', w'.remote.events[k])
      {
        assert Mirrored(property, w, w.remote.events[k]);
      }
    }
  }

  /** Writing the row's content into its own event, or into a new one. */
  lemma EventWriteKeeps(property: int, w: World, r: Row, e: Event)
    requires Core(property, w) && r.id in w.table.rows && IsMine(property, e, w.table.rows[r.id]) && e.id != ""
    requires if e.id in w.remote.events then IsMine(property, w.remote.events[e.id], w.table.rows[r.id])
             else e.id !in w.remote.issued
    ensures var m := Remote(w.remote.events[e.id := e], w.remote.issued + {e.id});
            Core(property, World(w.table, m)) && TouchesOnly(property, w.remote, m, r.id)
  {
    var m := Remote(w.remote.events[e.id := e], w.remote.issued + {e.id});
    assert RowOk(property, w.remote, w.table.rows[r.id]);
    forall x | x in w.table.rows
      ensures RowOk(property, m, w.table.rows[x])
    {
      assert RowOk(property, w.remote, w.table.rows[x]);
    }
    forall k | k in m.events && m.events[k].props.property == Some(property)
      ensures Mirrored(property, World(w.table, m), m.events[k])
    {
      if k != e.id {
        assert Mirrored(property, w, w.remote.events[k]);
      }
    }
  }

  lemma NothingTouched(property: int, m: Remote, id: int)
    ensures TouchesOnly(property, m, m, id)
  {
  }

  /** An upsert call writes only the row's own event and answers with an id that leads to it. */
  lemma RemoteUpsertKeeps(property: int, w: World, r: Row, reply: UpsertReply)
    requires Core(property, w) && r.id in w.table.rows
    requires var x := w.table.rows[r.id]; r.(pending := x.pending) == x
    ensures var (m, result) := RemoteUpsert(w.remote, property, r, reply);
            && Core(property, World(w.table, m)) && TouchesOnly(property, w.remote, m, r.id)
            && (result.Answered? ==>
                  && result.id in m.issued && result.id != "" && result.id in m.events
                  && m.events[result.id] == Payload(property, r, result.id, !result.confirmed)
                  && IsMine(property, m.events[result.id], r))
  {
    assert RowOk(property, w.remote, w.table.rows[r.id]);
    hide Core, TouchesOnly;
    var (m, result) := RemoteUpsert(w.remote, property, r, reply);
    var patched := r.googleId.Some? && Reachable(w.remote, r.calendar, r.googleId.value);
    var id := if patched then r.googleId.value else reply.newId;
    NothingTouched(property, w.remote, r.id);
    if m != w.remote {
      assert !patched ==> id !in w.remote.events by {
        OnlyIssued(property, w, id);
      }
      EventWriteKeeps(property, w, r, Payload(property, r, id, reply.Answers? && !reply.confirmed));
    }
  }

  lemma OnlyIssued(property: int, w: World, id: string)
    requires Core(property, w)
    ensures id in w.remote.events ==> id in w.remote.issued
  {
  }

  /** A delete call through a row cancels at most the row's own event. */
  lemma RemoteDeleteKeeps(property: int, w: World, r: Row)
    requires Core(property, w) && r.id in w.table.rows && r.googleId.Some?
    requires r.googleId.value in w.remote.events ==>
               IsMine(property, w.remote.events[r.googleId.value], w.table.rows[r.id])
    ensures var m := RemoteDelete(w.remote, r.calendar, r.googleId.value);
            Core(property, World(w.table, m)) && TouchesOnly(property, w.remote, m, r.id)
  {
    var m := RemoteDelete(w.remote, r.calendar, r.googleId.value);
    var w' := World(w.table, m);
    forall x | x in w'.table.rows ensures RowOk(property, m, w'.table.rows[x]) {
      assert RowOk(property, w.remote, w.table.rows[x]);
    }
    forall k | k in m.events && m.events[k].props.property == Some(property)
      ensures Mirrored(property, w', m.events[k])
    {
      assert Mirrored(property, w, w.remote.events[k]);
    }
  }

  // ---------- sync calls ----------

  /** The table with row `r` rewritten to `r'`. */
  predicate Rewrites(t: Table, t': Table, r': Row) {
    t' == t.(rows := t.rows[r'.id := r'])
  }

  lemma ResultRewrites(t: Table, r: Row, gid: Option<string>, s: Status)
    requires r.id in t.rows && t.rows[r.id] == r
    ensures var t' := SetGoogleResult(SetPending(t, r.id, UpsertAction), r.id, gid, s);
            Rewrites(t, t', r.(googleId := OrElse(gid, r.googleId), status := s,
                               pending := if s == Error then UpsertAction else NoAction))
  {
  }

  lemma SyncUpsertWrites(c: Context, w: World, r: Row, reply: UpsertReply)
    requires r.id in w.table.rows && w.table.rows[r.id] == r
    ensures var (w', ok) := SyncUpsert(c, w, r, reply);
            exists gid, s, a :: Rewrites(w.table, w'.table, r.(googleId := gid, status := s, pending := a))
                   && a != DeleteAction
  {
    hide RemoteUpsert, Rewrites, SetPending, SetGoogleResult;
    ResultRewrites(w.table, r, None, Error);
    var (m, result) := RemoteUpsert(w.remote, c.property, r, reply);
    if result.Answered? {
      ResultRewrites(w.table, r, Some(result.id), Error);
      ResultRewrites(w.table, r, Some(result.id), Synced);
    }
  }

  lemma SyncUpsertKeeps(property: int, c: Context, w: World, r: Row, reply: UpsertReply)
    requires Core(property, w) && property == c.property
    requires r.id in w.table.rows && w.table.rows[r.id] == r
    ensures var (w', ok) := SyncUpsert(c, w, r, reply);
            Core(property, w') && TouchesOnly(property, w.remote, w'.remote, r.id)
  {
    PendingKeeps(property, w, r.id, UpsertAction);
    var w1 := World(SetPending(w.table, r.id, UpsertAction), w.remote);
    if !c.configured {
      ResultKeeps(property, w1, r.id, None, Error);
    } else {
      RemoteUpsertKeeps(property, w1, r, reply);
      var (m, result) := RemoteUpsert(w.remote, c.property, r, reply);
      match result
      case Failed => ResultKeeps(property, World(w1.table, m), r.id, None, Error);
      case Answered(id, confirmed) =>
        ResultKeeps(property, World(w1.table, m), r.id, Some(id), if confirmed then Synced else Error);
    }
  }

  /** An upsert that stops half way keeps as much. */
  lemma StoppedUpsertKeeps(property: int, c: Context, w: World, r: Row, at: nat, reply: UpsertReply)
    requires Core(property, w) && property == c.property
    requires r.id in w.table.rows && w.table.rows[r.id] == r
    ensures var w' := StoppedUpsert(c, w, r, at, reply);
            && Core(property, w') && TouchesOnly(property, w.remote, w'.remote, r.id)
            && (w'.table == w.table || Rewrites(w.table, w'.table, r.(pending := UpsertAction)))
  {
    if at > 0 {
      PendingKeeps(property, w, r.id, UpsertAction);
      RemoteUpsertKeeps(property, World(SetPending(w.table, r.id, UpsertAction), w.remote), r, reply);
    }
  }

  /** A successful upsert leaves a synced row whose id leads to a live event holding the row's own content. */
  lemma SyncUpsertSettles(property: int, c: Context, w: World, r: Row, reply: UpsertReply)
    requires Core(property, w) && property == c.property
    requires r.id in w.table.rows && w.table.rows[r.id] == r
    requires SyncUpsert(c, w, r, reply).1
    ensures var w' := SyncUpsert(c, w, r, reply).0;
            exists g :: Rewrites(w.table, w'.table, r.(googleId := Some(g), status := Synced, pending := NoAction))
                        && g in w'.remote.events && w'.remote.events[g] == Payload(property, r, g, false) && g != ""
  {
    RemoteUpsertKeeps(property, w, r, reply);
    var (m, result) := RemoteUpsert(w.remote, c.property, r, reply);
    var w' := SyncUpsert(c, w, r, reply).0;
    assert Rewrites(w.table, w'.table, r.(googleId := Some(result.id), status := Synced, pending := NoAction));
  }

  lemma SyncDeleteWrites(c: Context, w: World, r: Row, reply: DeleteReply)
    requires r.id in w.table.rows && w.table.rows[r.id].id == r.id
    ensures var (w', ok) := SyncDelete(c, w, r, reply);
            Rewrites(w.table, w'.table, if ok then w.table.rows[r.id].(status := Removed, pending := NoAction)
                                        else w.table.rows[r.id].(status := Error, pending := DeleteAction))
  {
  }

  lemma SyncDeleteKeeps(property: int, c: Context, w: World, r: Row, reply: DeleteReply)
    requires Core(property, w) && r.id in w.table.rows
    requires r.googleId.Some? && r.googleId.value in w.remote.events ==>
               IsMine(property, w.remote.events[r.googleId.value], w.table.rows[r.id])
    ensures var (w', ok) := SyncDelete(c, w, r, reply);
            Core(property, w') && TouchesOnly(property, w.remote, w'.remote, r.id)
  {
    assert w.table.rows[r.id].id == r.id;
    hide Core, TouchesOnly;
    PendingKeeps(property, w, r.id, DeleteAction);
    NothingTouched(property, w.remote, r.id);
    var w1 := World(SetPending(w.table, r.id, DeleteAction), w.remote);
    if r.googleId.None? || r.googleId.value == "" {
      RemovedKeeps(property, w1, r.id);
    } else if !c.configured {
      ResultKeeps(property, w1, r.id, None, Error);
    } else {
      RemoteDeleteKeeps(property, w1, r);
      var m := RemoteDelete(w.remote, r.calendar, r.googleId.value);
      RemovedKeeps(property, World(w1.table, m), r.id);
      ResultKeeps(property, World(w1.table, m), r.id, None, Error);
      ResultKeeps(property, w1, r.id, None, Error);
    }
  }

  /** A deletion that stops half way keeps as much. */
  lemma StoppedDeleteKeeps(property: int, c: Context, w: World, r: Row, at: nat, reply: DeleteReply)
    requires Core(property, w) && r.id in w.table.rows
    requires r.googleId.Some? && r.googleId.value in w.remote.events ==>
               IsMine(property, w.remote.events[r.googleId.value], w.table.rows[r.id])
    ensures var w' := StoppedDelete(c, w, r, at, reply);
            && Core(property, w') && TouchesOnly(property, w.remote, w'.remote, r.id)
            && (w'.table == w.table || Rewrites(w.table, w'.table, w.table.rows[r.id].(pending := DeleteAction)))
  {
    if at > 0 {
      PendingKeeps(property, w, r.id, DeleteAction);
      if r.googleId.Some? {
        RemoteDeleteKeeps(property, World(SetPending(w.table, r.id, DeleteAction), w.remote), r);
      }
    }
  }
}
