/** What the two phases of a pass keep, and whose event a match finds. */
module CalendarPhases {
  import opened Text
  import opened CalendarModel
  import opened EventIndex
  import opened CalendarPass
  import opened CalendarSafety

  // ---------- whose event a match finds ----------

  lemma LookupIsOk(property: int, w: World, i: Identity)
    requires Core(property, w) && Lookup(w.table, i).Some?
    ensures var r := Lookup(w.table, i).value;
            RowOk(property, w.remote, r) && r.identity == Some(i) && r.id in w.table.rows && w.table.rows[r.id] == r
  {
    var id := w.table.byIdentity[i];
    assert id in w.table.rows;
    assert RowOk(property, w.remote, w.table.rows[id]);
  }

  predicate Mine(property: int, w: World, m: string, existing: Option<Row>) {
    existing.Some? && m in w.remote.events && IsMine(property, w.remote.events[m], existing.value)
  }

  /** An event with the wanted row or identity in its marks mirrors the row of that identity. */
  lemma MarkedIsMine(property: int, offset: int, w: World, e: Event, c: Criterion, desired: Row, existing: Option<Row>)
    requires Core(property, w) && Satisfies(e, c, property, offset)
    requires e.id in w.remote.events && w.remote.events[e.id].props == e.props
    requires desired.identity == Some(Identity(property, desired.stay, desired.date))
    requires existing == Lookup(w.table, desired.identity.value)
    requires (c.WrittenFor? && existing.Some? && c.row == existing.value.id)
             || (c.HasIdentity? && c.identity == desired.identity.value)
    ensures Mine(property, w, e.id, existing)
  {
    if existing.Some? {
      LookupIsOk(property, w, desired.identity.value);
    }
    assert Mirrored(property, w, w.remote.events[e.id]);
    assert Mirrors(property, w.table, w.remote.events[e.id]);
    var id := e.props.rowId.value;
    assert RowOk(property, w.remote, w.table.rows[id]);
    assert w.table.byIdentity[w.table.rows[id].identity.value] == id;
  }

  /**
   * A match hands one cleaning the event of another exactly when nothing but the stay and the day leads to an event.
   * The condition reads the listing and the two rows only.
   */
  lemma MatchIsOthersExactly(property: int, offset: int, w: World, listing: seq<Event>, desired: Row,
                             existing: Option<Row>)
    requires Core(property, w) && Listed(w.remote, listing)
    requires desired.identity == Some(Identity(property, desired.stay, desired.date))
    requires existing == Lookup(w.table, desired.identity.value)
    requires desired.googleId.Some? ==> existing.Some? && existing.value.googleId == desired.googleId
    ensures var m := Match(IndexOf(listing, property, offset), desired, existing);
            && (m != "" ==> m in w.remote.events)
            && (m != "" && !Mine(property, w, m, existing) <==>
                OnlyByStayDay(listing, property, offset, desired, existing))
  {
    hide Match, IndexOf, FirstLeast;
    var m := Match(IndexOf(listing, property, offset), desired, existing);
    var cs := Criteria(desired, existing);
    MatchIsFirstLeast(listing, property, offset, desired, existing);
    var k := FirstLeastPosition(listing, cs, property, offset, m);
    if existing.Some? {
      LookupIsOk(property, w, desired.identity.value);
    }
    assert |cs| == 6 && cs[5] == OnStayDay(desired.stay, desired.date) && cs[3] == HasIdentity(desired.identity.value);
    if k < 6 {
      var e :| e in listing && Satisfies(e, cs[k], property, offset) && e.id == m;
      if k == 5 {
        assert Nobody(listing, cs[3], property, offset);
        assert e.props.identity != desired.identity;
        assert !Mine(property, w, m, existing);
        assert OnlyByStayDay(listing, property, offset, desired, existing);
      } else {
        assert !Nobody(listing, cs[k], property, offset);
        assert !OnlyByStayDay(listing, property, offset, desired, existing);
        if k > 1 {
          MarkedIsMine(property, offset, w, e, cs[k], desired, existing);
        }
        assert Mine(property, w, m, existing);
      }
    } else {
      assert Nobody(listing, cs[5], property, offset);
    }
  }

  // ---------- phase one ----------

  /** The row of a stay's cleaning, if there is one. */
  function RowOfStay(c: Context, t: Table, stay: int): Option<Row>
    requires stay in c.owners
  {
    Lookup(t, CanonicalIdentity(c, stay))
  }

  /** The draft of a stay before it is matched. */
  function Unmatched(c: Context, existing: Option<Row>, stay: int): Row
    requires stay in c.owners
  {
    if existing.Some? then Inherit(c, existing.value, Build(c, stay)) else Build(c, stay)
  }

  /** Phase one would give the stay another cleaning's event. */
  ghost predicate WouldTake(c: Context, t: Table, listing: seq<Event>, stay: int)
    requires stay in c.owners
  {
    c.configured
    && OnlyByStayDay(listing, c.property, c.offset, Unmatched(c, RowOfStay(c, t, stay), stay), RowOfStay(c, t, stay))
  }

  /** From `w` to `w'` only the row and the event of cleaning `i` may have changed. */
  ghost predicate TouchesCleaning(property: int, w: World, w': World, i: Identity) {
    && Lookup(w'.table, i).Some? && TouchesOnly(property, w.remote, w'.remote, Lookup(w'.table, i).value.id)
    && (forall x | x in w.table.rows :: x in w'.table.rows && w'.table.rows[x].identity == w.table.rows[x].identity
          && (w.table.rows[x].identity != Some(i) ==> w'.table.rows[x] == w.table.rows[x]))
    && (forall x | x in w'.table.rows && x !in w.table.rows :: w'.table.rows[x].identity == Some(i))
    && (forall j | j in w.table.byIdentity ::
        j in w'.table.byIdentity && w'.table.byIdentity[j] == w.table.byIdentity[j])
  }

  lemma DraftIsOk(c: Context, idx: Index, existing: Option<Row>, stay: int)
    requires ValidContext(c) && stay in c.owners
    ensures var d := Draft(c, idx, existing, Build(c, stay));
            && d.identity == Some(CanonicalIdentity(c, stay)) && d.stay == stay && d.date == c.owners[stay]
            && DayOf(c.offset, d.starts) == d.date && d.status == Pending && d.pending == UpsertAction
            && d.calendar == c.settings.calendar && d.desiredHash.Some? && Agrees(d.desiredHash.value, d)
  {
  }

  /** The draft of a stay carries another cleaning's event exactly when phase one would take one. */
  lemma DraftTakesExactly(c: Context, listing: seq<Event>, w: World, stay: int)
    requires stay in c.owners && Core(c.property, w)
    requires c.configured ==> Listed(w.remote, listing)
    ensures var existing := RowOfStay(c, w.table, stay);
            var d := Draft(c, IndexFor(c, listing), existing, Build(c, stay));
            && (d.googleId.Some? ==> d.googleId.value in w.remote.events)
            && (d.googleId.Some? && !Mine(c.property, w, d.googleId.value, existing) <==>
                WouldTake(c, w.table, listing, stay))
  {
    var existing := RowOfStay(c, w.table, stay);
    var unmatched := Unmatched(c, existing, stay);
    assert unmatched.identity == Some(Identity(c.property, unmatched.stay, unmatched.date)) && unmatched.googleId.None?;
    if c.configured {
      MatchIsOthersExactly(c.property, c.offset, w, listing, unmatched, existing);
    }
  }

  lemma OverwriteIsOne(property: int, w: World, draft: Row, i: Identity)
    requires TableOk(w.table) && draft.identity == Some(i) && i in w.table.byIdentity
    ensures var (t, saved) := UpsertByIdentity(w.table, draft);
            TouchesCleaning(property, w, World(t, w.remote), i) && i in t.byIdentity && t.byIdentity[i] == saved.id
  {
    var id := w.table.byIdentity[i];
    assert id in w.table.rows && w.table.rows[id].id == id && Lookup(w.table, i) == Some(w.table.rows[id]);
    var (t, saved) := UpsertByIdentity(w.table, draft);
    assert t.rows == w.table.rows[id := saved] && saved.identity == Some(i) && Lookup(t, i) == Some(saved);
  }

  lemma InsertIsOne(property: int, w: World, draft: Row, i: Identity)
    requires TableOk(w.table) && draft.identity == Some(i) && i !in w.table.byIdentity
    ensures var (t, saved) := UpsertByIdentity(w.table, draft);
            TouchesCleaning(property, w, World(t, w.remote), i) && i in t.byIdentity && t.byIdentity[i] == saved.id
  {
    var n := w.table.nextId;
    assert Lookup(w.table, i).None? && n !in w.table.rows;
    var (t, saved) := UpsertByIdentity(w.table, draft);
    assert t.rows == w.table.rows[n := saved] && t.byIdentity == w.table.byIdentity[i := n];
    assert saved.id == n && saved.identity == Some(i) && Lookup(t, i) == Some(saved);
  }

  lemma SavedIsOne(property: int, w: World, draft: Row, i: Identity)
    requires TableOk(w.table) && draft.identity == Some(i)
    ensures var (t, saved) := UpsertByIdentity(w.table, draft);
            TouchesCleaning(property, w, World(t, w.remote), i) && i in t.byIdentity && t.byIdentity[i] == saved.id
  {
    hide UpsertByIdentity, TouchesCleaning;
    if i in w.table.byIdentity {
      OverwriteIsOne(property, w, draft, i);
    } else {
      InsertIsOne(property, w, draft, i);
    }
  }

  /** Saving a matched draft touches one cleaning. */
  lemma SaveTouches(c: Context, listing: seq<Event>, w: World, stay: int)
    requires ValidContext(c) && stay in c.owners && Core(c.property, w)
    requires c.configured ==> Listed(w.remote, listing)
    requires !WouldTake(c, w.table, listing, stay)
    ensures var i := CanonicalIdentity(c, stay);
            var (t, saved) := UpsertByIdentity(w.table,
                                               Draft(c, IndexFor(c, listing), Lookup(w.table, i), Build(c, stay)));
            && Core(c.property, World(t, w.remote)) && TouchesCleaning(c.property, w, World(t, w.remote), i)
            && saved.id in t.rows && t.rows[saved.id] == saved && t.byIdentity[i] == saved.id
  {
    hide Draft, TouchesCleaning, WouldTake, RowOk, RemoteOk, UpsertByIdentity;
    var idx, i := IndexFor(c, listing), CanonicalIdentity(c, stay);
    var existing := Lookup(w.table, i);
    DraftIsOk(c, idx, existing, stay);
    DraftTakesExactly(c, listing, w, stay);
    SavedIsOne(c.property, w, Draft(c, idx, existing, Build(c, stay)), i);
    SaveKeeps(c.property, w, Draft(c, idx, existing, Build(c, stay)));
  }

  lemma SyncTouches(c: Context, w: World, r: Row, reply: UpsertReply, i: Identity)
    requires Core(c.property, w) && r.id in w.table.rows && w.table.rows[r.id] == r && r.identity == Some(i)
    ensures var w' := SyncUpsert(c, w, r, reply).0;
            Core(c.property, w') && TouchesCleaning(c.property, w, w', i)
  {
    SyncUpsertKeeps(c.property, c, w, r, reply);
    SyncUpsertWrites(c, w, r, reply);
  }

  lemma StoppedTouches(c: Context, w: World, r: Row, at: nat, reply: UpsertReply, i: Identity)
    requires Core(c.property, w) && r.id in w.table.rows && w.table.rows[r.id] == r && r.identity == Some(i)
    ensures var w' := StoppedUpsert(c, w, r, at, reply);
            Core(c.property, w') && TouchesCleaning(c.property, w, w', i)
  {
    hide StoppedUpsert;
    StoppedUpsertKeeps(c.property, c, w, r, at, reply);
  }

  lemma TouchesComposes(property: int, w0: World, w1: World, w2: World, i: Identity)
    requires TouchesCleaning(property, w0, w1, i) && TouchesCleaning(property, w1, w2, i)
    requires i in w1.table.byIdentity && TableOk(w1.table) && TableOk(w2.table)
    ensures TouchesCleaning(property, w0, w2, i)
  {
    assert w2.table.byIdentity[i] == w1.table.byIdentity[i];
  }

  lemma DesireStepKeeps(c: Context, listing: seq<Event>, p: Progress, stay: int, reply: UpsertReply)
    requires ValidContext(c) && stay in c.owners && Core(c.property, p.world)
    requires c.configured ==> Listed(p.world.remote, listing)
    requires !WouldTake(c, p.world.table, listing, stay)
    ensures var p' := DesireStep(c, IndexFor(c, listing), p, stay, reply);
            Core(c.property, p'.world) && TouchesCleaning(c.property, p.world, p'.world, CanonicalIdentity(c, stay))
  {
    var w, idx, i := p.world, IndexFor(c, listing), CanonicalIdentity(c, stay);
    var existing := Lookup(w.table, i);
    var d := Draft(c, idx, existing, Build(c, stay));
    if existing.Some? && CanSkip(idx, existing.value, d) {
    } else {
      SaveTouches(c, listing, w, stay);
      DraftIsOk(c, idx, existing, stay);
      var (t, saved) := UpsertByIdentity(w.table, d);
      SyncTouches(c, World(t, w.remote), saved, reply, i);
      TouchesComposes(c.property, w, World(t, w.remote), DesireStep(c, idx, p, stay, reply).world, i);
    }
  }

  /** A turn that stops half way keeps as much. */
  lemma StoppedDesireKeeps(c: Context, listing: seq<Event>, p: Progress, stay: int, at: nat, reply: UpsertReply)
    requires ValidContext(c) && stay in c.owners && Core(c.property, p.world)
    requires c.configured ==> Listed(p.world.remote, listing)
    requires !WouldTake(c, p.world.table, listing, stay)
    ensures var w' := StoppedDesire(c, IndexFor(c, listing), p, stay, at, reply);
            && Core(c.property, w')
            && (w' == p.world || TouchesCleaning(c.property, p.world, w', CanonicalIdentity(c, stay)))
  {
    hide Draft, CanSkip, TouchesCleaning, RowOk, RemoteOk, WouldTake, StoppedUpsert;
    var w, idx, i := p.world, IndexFor(c, listing), CanonicalIdentity(c, stay);
    var existing := Lookup(w.table, i);
    var d := Draft(c, idx, existing, Build(c, stay));
    if at == 0 || (existing.Some? && CanSkip(idx, existing.value, d)) {
    } else {
      SaveTouches(c, listing, w, stay);
      DraftIsOk(c, idx, existing, stay);
      var (t, saved) := UpsertByIdentity(w.table, d);
      var w1 := World(t, w.remote);
      StoppedTouches(c, w1, saved, at - 1, reply, i);
      TouchesComposes(c.property, w, w1, StoppedUpsert(c, w1, saved, at - 1, reply), i);
    }
  }

  ghost predicate TouchesStays(c: Context, w: World, w': World, stays: seq<int>) {
    && Keeps(w.remote, w'.remote)
    && (forall x | x in w.table.rows :: x in w'.table.rows && w'.table.rows[x].identity == w.table.rows[x].identity
          && (w'.table.rows[x] != w.table.rows[x] ==> CalledFor(c, w.table.rows[x].identity, stays)))
    && (forall x | x in w'.table.rows && x !in w.table.rows :: CalledFor(c, w'.table.rows[x].identity, stays))
    && (forall k | k in w.remote.events && w'.remote.events[k] != w.remote.events[k] ::
          w.remote.events[k].props.property == Some(c.property)
          && w.remote.events[k].props.rowId.Some? && w.remote.events[k].props.rowId.value in w'.table.rows
          && CalledFor(c, w'.table.rows[w.remote.events[k].props.rowId.value].identity, stays))
  }

  /** `i` is the identity of one of the stays. */
  predicate CalledFor(c: Context, i: Option<Identity>, stays: seq<int>) {
    i.Some? && i.value.stay in stays && i.value.stay in c.owners && i.value == CanonicalIdentity(c, i.value.stay)
  }

  /** A stay no turn was for still has the row it had. */
  lemma OtherStaysKeepTheirRow(c: Context, w: World, w': World, stays: seq<int>, s: int)
    requires TableOk(w.table) && TableOk(w'.table) && TouchesStays(c, w, w', stays) && s in c.owners && s !in stays
    ensures RowOfStay(c, w'.table, s) == RowOfStay(c, w.table, s)
  {
    var i := CanonicalIdentity(c, s);
    assert i.stay == s && !CalledFor(c, Some(i), stays);
    if i in w'.table.byIdentity {
      var x := w'.table.byIdentity[i];
      assert x in w'.table.rows && w'.table.rows[x].identity == Some(i);
      assert x in w.table.rows;
      assert w.table.rows[x].identity == Some(i);
    }
    if i in w.table.byIdentity {
      var x := w.table.byIdentity[i];
      assert x in w.table.rows && w.table.rows[x].identity == Some(i);
      assert w'.table.rows[x].identity == Some(i);
    }
  }

  lemma TouchesNothing(c: Context, w: World)
    ensures TouchesStays(c, w, w, [])
  {
  }

  lemma RowStays(property: int, w: World, w': World, i: Identity, x: int)
    requires TouchesCleaning(property, w, w', i) && x in w.table.rows
    ensures x in w'.table.rows && w'.table.rows[x].identity == w.table.rows[x].identity
  {
  }

  lemma DesireExtends(c: Context, w: World, w1: World, w2: World, init: seq<int>, s: int)
    requires s in c.owners && TableOk(w1.table) && TableOk(w2.table)
    requires TouchesStays(c, w, w1, init) && TouchesCleaning(c.property, w1, w2, CanonicalIdentity(c, s))
    ensures TouchesStays(c, w, w2, init + [s])
  {
    var i, stays := CanonicalIdentity(c, s), init + [s];
    var id := w2.table.byIdentity[i];
    assert w2.table.rows[id].identity == Some(i) && s in stays && i.stay == s;
    assert CalledFor(c, Some(i), stays);
    forall k | k in w.remote.events && w2.remote.events[k] != w.remote.events[k]
      ensures var p := w.remote.events[k].props;
              p.property == Some(c.property) && p.rowId.Some? && p.rowId.value in w2.table.rows
              && CalledFor(c, w2.table.rows[p.rowId.value].identity, stays)
    {
      var p := w.remote.events[k].props;
      if w1.remote.events[k] == w.remote.events[k] {
        assert p.rowId == Some(id);
      } else {
        var x: int := p.rowId.value;
        assert x in w1.table.rows && CalledFor(c, w1.table.rows[x].identity, init);
        RowStays(c.property, w1, w2, i, x);
      }
    }
  }

  /** One more stay, when the turns so far were for others. */
  lemma TouchesMore(c: Context, w: World, w': World, stays: seq<int>, s: int)
    requires TouchesStays(c, w, w', stays)
    ensures TouchesStays(c, w, w', stays + [s])
  {
  }

  /** No stay of the list would take another cleaning's event. */
  ghost predicate NoneTakes(c: Context, t: Table, listing: seq<Event>, stays: seq<int>) {
    forall s | s in stays :: s in c.owners && !WouldTake(c, t, listing, s)
  }

  lemma TakesByRow(c: Context, t: Table, t': Table, listing: seq<Event>, s: int)
    requires s in c.owners && RowOfStay(c, t', s) == RowOfStay(c, t, s)
    ensures WouldTake(c, t', listing, s) <==> WouldTake(c, t, listing, s)
  {
  }

  predicate Distinct(stays: seq<int>) {
    forall i, j :: 0 <= i < j < |stays| ==> stays[i] != stays[j]
  }

  lemma LastIsNew(stays: seq<int>)
    requires Distinct(stays) && stays != []
    ensures stays == stays[..|stays| - 1] + [stays[|stays| - 1]] && stays[|stays| - 1] !in stays[..|stays| - 1]
    ensures Distinct(stays[..|stays| - 1])
  {
  }

  lemma {:induction false} DesireAllKeeps(c: Context, listing: seq<Event>, w: World, stays: seq<int>,
                                          replies: int -> UpsertReply)
    requires ValidContext(c) && Core(c.property, w) && Distinct(stays) && NoneTakes(c, w.table, listing, stays)
    requires c.configured ==> Listed(w.remote, listing)
    ensures var w' := DesireAll(c, IndexFor(c, listing), Start(w), stays, replies).world;
            Core(c.property, w') && TouchesStays(c, w, w', stays)
  {
    if stays == [] {
      TouchesNothing(c, w);
    } else {
      var init, s := stays[..|stays| - 1], stays[|stays| - 1];
      LastIsNew(stays);
      DesireAllKeeps(c, listing, w, init, replies);
      var p1 := DesireAll(c, IndexFor(c, listing), Start(w), init, replies);
      OtherStaysKeepTheirRow(c, w, p1.world, init, s);
      DesireStepKeeps(c, listing, p1, s, replies(s));
      DesireExtends(c, w, p1.world, DesireStep(c, IndexFor(c, listing), p1, s, replies(s)).world, init, s);
    }
  }

  // ---------- rows left in peace by the second phase ----------

  /** A row waiting for a deletion that phase one would skip. */
  predicate Begun(c: Context, idx: Index, t: Table, stay: int)
    requires stay in c.owners
  {
    var existing := RowOfStay(c, t, stay);
    existing.Some? && existing.value.pending == DeleteAction
    && CanSkip(idx, existing.value, Draft(c, idx, existing, Build(c, stay)))
  }

  lemma BegunByRow(c: Context, idx: Index, t: Table, t': Table, s: int)
    requires s in c.owners && RowOfStay(c, t', s) == RowOfStay(c, t, s)
    ensures Begun(c, idx, t', s) <==> Begun(c, idx, t, s)
  {
  }

  /** A desired row that the second phase leaves alone. */
  predicate Ready(c: Context, t: Table, stay: int)
    requires stay in c.owners
  {
    RowOfStay(c, t, stay).Some? && RowOfStay(c, t, stay).value.pending != DeleteAction
    && RowOfStay(c, t, stay).value.status != Removed
  }

  lemma ReadyByRow(c: Context, t: Table, t': Table, s: int)
    requires s in c.owners && RowOfStay(c, t', s) == RowOfStay(c, t, s)
    ensures Ready(c, t', s) <==> Ready(c, t, s)
  {
  }

  lemma UpsertedIsReady(c: Context, w: World, r: Row, reply: UpsertReply, stay: int)
    requires stay in c.owners && r.id in w.table.rows && w.table.rows[r.id] == r && r.status == Pending
    requires RowOfStay(c, w.table, stay) == Some(r) && w.table.byIdentity[CanonicalIdentity(c, stay)] == r.id
    ensures Ready(c, SyncUpsert(c, w, r, reply).0.table, stay)
  {
    SyncUpsertWrites(c, w, r, reply);
  }

  /** A turn leaves its row ready, unless it skips a row that is waiting for a deletion; that row stays as it is. */
  lemma DesireStepReadies(c: Context, listing: seq<Event>, p: Progress, stay: int, reply: UpsertReply)
    requires ValidContext(c) && stay in c.owners && Core(c.property, p.world)
    requires c.configured ==> Listed(p.world.remote, listing)
    requires !WouldTake(c, p.world.table, listing, stay)
    ensures var t := DesireStep(c, IndexFor(c, listing), p, stay, reply).world.table;
            if Begun(c, IndexFor(c, listing), p.world.table, stay)
            then RowOfStay(c, t, stay) == RowOfStay(c, p.world.table, stay)
            else Ready(c, t, stay)
  {
    hide Draft, WouldTake, TouchesCleaning, Core;
    var w, idx, i := p.world, IndexFor(c, listing), CanonicalIdentity(c, stay);
    var existing := Lookup(w.table, i);
    var d := Draft(c, idx, existing, Build(c, stay));
    if existing.Some? && CanSkip(idx, existing.value, d) {
    } else {
      SaveTouches(c, listing, w, stay);
      DraftIsOk(c, idx, existing, stay);
      var (t, saved) := UpsertByIdentity(w.table, d);
      UpsertedIsReady(c, World(t, w.remote), saved, reply, stay);
    }
  }

  /** The row of another stay after one turn. */
  lemma OneTurnKeepsOthers(c: Context, w: World, w': World, s: int, x: int)
    requires s in c.owners && x in c.owners && x != s && TableOk(w.table) && TableOk(w'.table)
    requires TouchesCleaning(c.property, w, w', CanonicalIdentity(c, s))
    ensures RowOfStay(c, w'.table, x) == RowOfStay(c, w.table, x)
  {
    TouchesNothing(c, w);
    DesireExtends(c, w, w, w', [], s);
    OtherStaysKeepTheirRow(c, w, w', [] + [s], x);
  }

  /** Phase one leaves the row of every desired stay ready, except for those the pass found begun and skips. */
  lemma {:induction false} DesireAllReadies(c: Context, listing: seq<Event>, w: World, stays: seq<int>,
                                            replies: int -> UpsertReply)
    requires ValidContext(c) && Core(c.property, w) && Distinct(stays) && NoneTakes(c, w.table, listing, stays)
    requires c.configured ==> Listed(w.remote, listing)
    ensures var t := DesireAll(c, IndexFor(c, listing), Start(w), stays, replies).world.table;
            forall s | s in stays ::
              if Begun(c, IndexFor(c, listing), w.table, s) then RowOfStay(c, t, s) == RowOfStay(c, w.table, s)
              else Ready(c, t, s)
  {
    if stays != [] {
      hide Begun, WouldTake, Ready, RowOfStay, RowOk, RemoteOk, TouchesCleaning, TouchesStays, Listed, DesireStep;
      var idx, init, s := IndexFor(c, listing), stays[..|stays| - 1], stays[|stays| - 1];
      LastIsNew(stays);
      DesireAllReadies(c, listing, w, init, replies);
      DesireAllKeeps(c, listing, w, init, replies);
      var p1 := DesireAll(c, idx, Start(w), init, replies);
      OtherStaysKeepTheirRow(c, w, p1.world, init, s);
      TakesByRow(c, w.table, p1.world.table, listing, s);
      BegunByRow(c, idx, w.table, p1.world.table, s);
      DesireStepKeeps(c, listing, p1, s, replies(s));
      DesireStepReadies(c, listing, p1, s, replies(s));
      forall x | x in init
        ensures RowOfStay(c, DesireStep(c, idx, p1, s, replies(s)).world.table, x) == RowOfStay(c, p1.world.table, x)
      ensures Ready(c, DesireStep(c, idx, p1, s, replies(s)).world.table, x) <==> Ready(c, p1.world.table, x)
      {
        OneTurnKeepsOthers(c, p1.world, DesireStep(c, idx, p1, s, replies(s)).world, s, x);
        ReadyByRow(c, p1.world.table, DesireStep(c, idx, p1, s, replies(s)).world.table, x);
      }
    }
  }

  // ---------- phase two ----------

  /** Rows the second phase must not retire: not already being deleted, and either past or still called for. */
  predicate Spared(c: Context, r: Row) {
    r.pending != DeleteAction && (r.date < c.today || Current(c, r))
  }

  /** A row the second phase would match to an event before deleting through it. */
  predicate Adopts(c: Context, r: Row) {
    r.status != Removed && r.pending != DeleteAction && !Spared(c, r) && r.googleId.None?
  }

  /** Phase two would delete another cleaning's event through the row. */
  ghost predicate WouldAdopt(c: Context, r: Row, listing: seq<Event>) {
    c.configured && Adopts(c, r) && OnlyByStayDay(listing, c.property, c.offset, r, Some(r))
  }

  /** The id phase two adopts for a row is another cleaning's exactly when it would delete through one. */
  lemma AdoptionTakesExactly(c: Context, listing: seq<Event>, w: World, r: Row)
    requires Core(c.property, w) && r.id in w.table.rows && w.table.rows[r.id] == r && Adopts(c, r)
    requires c.configured ==> Listed(w.remote, listing)
    ensures var m := Match(IndexFor(c, listing), r, Some(r));
            && (m != "" ==> m in w.remote.events)
            && (m != "" && !Mine(c.property, w, m, Some(r)) <==> WouldAdopt(c, r, listing))
  {
    assert RowOk(c.property, w.remote, w.table.rows[r.id]);
    assert Lookup(w.table, r.identity.value) == Some(r);
    if c.configured {
      MatchIsOthersExactly(c.property, c.offset, w, listing, r, Some(r));
    }
  }

  /** Row `r` may have been retired or set aside; every other row, and whose cleaning each row is, stays. */
  predicate RetiresOnly(t: Table, t': Table, r: Row) {
    && t'.byIdentity == t.byIdentity && t'.rows.Keys == t.rows.Keys && r.id in t.rows
    && OnlyRow(t, t', r.id)
    && t'.rows[r.id].(googleId := r.googleId, status := r.status, pending := r.pending) == r
  }

  predicate OnlyRow(t: Table, t': Table, id: int) {
    forall x | x in t.rows && x != id :: x in t'.rows && t'.rows[x] == t.rows[x]
  }

  ghost predicate Retires(c: Context, w: World, w': World, r: Row) {
    && Core(c.property, w')
    && RetiresOnly(w.table, w'.table, r) && TouchesOnly(c.property, w.remote, w'.remote, r.id)
  }

  lemma DeleteRetires(c: Context, w: World, r: Row, reply: DeleteReply)
    requires Core(c.property, w) && r.id in w.table.rows && w.table.rows[r.id] == r
    ensures Retires(c, w, SyncDelete(c, w, r, reply).0, r)
  {
    assert RowOk(c.property, w.remote, w.table.rows[r.id]);
    SyncDeleteKeeps(c.property, c, w, r, reply);
    DeleteRetiresRow(c, w, r, reply);
  }

  lemma DeleteRetiresRow(c: Context, w: World, r: Row, reply: DeleteReply)
    requires r.id in w.table.rows && w.table.rows[r.id] == r
    ensures var w' := SyncDelete(c, w, r, reply).0;
            RetiresOnly(w.table, w'.table, r)
  {
    SyncDeleteWrites(c, w, r, reply);
  }

  /** A row without a remote id may take the one its own event answers to, and is then deleted through it. */
  lemma AdoptRetires(c: Context, w: World, r: Row, gid: string, reply: DeleteReply)
    requires Core(c.property, w) && r.id in w.table.rows && w.table.rows[r.id] == r && gid != ""
    requires gid in w.remote.events && IsMine(c.property, w.remote.events[gid], r)
    ensures Retires(c, w,
                    SyncDelete(c, World(MarkSeen(w.table, r.id, gid), w.remote), r.(googleId := Some(gid)), reply).0, r)
  {
    var r1 := r.(googleId := Some(gid));
    var w1 := World(MarkSeen(w.table, r.id, gid), w.remote);
    assert RowOk(c.property, w.remote, w.table.rows[r.id]);
    PutRowKeeps(c.property, w, r1);
    DeleteRetires(c, w1, r1, reply);
  }

  lemma UnmatchedRetires(c: Context, listing: seq<Event>, w: World, r: Row, reply: DeleteReply)
    requires Core(c.property, w) && r.id in w.table.rows && w.table.rows[r.id] == r
    requires c.configured ==> Listed(w.remote, listing)
    requires Adopts(c, r) && !WouldAdopt(c, r, listing) && Match(IndexFor(c, listing), r, Some(r)) != ""
    ensures var gid := Match(IndexFor(c, listing), r, Some(r));
            Retires(c, w, SyncDelete(c, World(MarkSeen(w.table, r.id, gid), w.remote), r.(googleId := Some(gid)),
                                     reply).0, r)
  {
    AdoptionTakesExactly(c, listing, w, r);
    AdoptRetires(c, w, r, Match(IndexFor(c, listing), r, Some(r)), reply);
  }

  lemma SparedRetires(c: Context, idx: Index, p: Progress, r: Row, reply: DeleteReply)
    requires Core(c.property, p.world) && r.id in p.world.table.rows && p.world.table.rows[r.id] == r && Spared(c, r)
    ensures Retires(c, p.world, RetireStep(c, idx, p, r, reply).world, r)
  {
    SparedIsSpared(c, idx, p, r, reply);
    PendingKeeps(c.property, p.world, r.id, if r.date < c.today then NoAction else r.pending);
  }

  lemma RemovedRetires(c: Context, w: World, r: Row)
    requires Core(c.property, w) && r.id in w.table.rows && w.table.rows[r.id] == r
    ensures Retires(c, w, World(MarkRemoved(w.table, r.id), w.remote), r)
  {
    RemovedKeeps(c.property, w, r.id);
  }

  lemma RetireStepKeeps(c: Context, listing: seq<Event>, p: Progress, r: Row, reply: DeleteReply)
    requires Core(c.property, p.world) && r.id in p.world.table.rows && p.world.table.rows[r.id] == r
             && r.status != Removed
    requires c.configured ==> Listed(p.world.remote, listing)
    requires !WouldAdopt(c, r, listing)
    ensures Retires(c, p.world, RetireStep(c, IndexFor(c, listing), p, r, reply).world, r)
  {
    hide Match, WouldAdopt, Retires, Core, SyncDelete, MarkRemoved, MarkSeen, SetPending;
    var w, idx := p.world, IndexFor(c, listing);
    var w' := RetireStep(c, idx, p, r, reply).world;
    if Spared(c, r) {
      SparedRetires(c, idx, p, r, reply);
    } else if r.pending != DeleteAction && r.googleId.Some? && r.googleId.value in p.reused {
      RemovedRetires(c, w, r);
    } else if r.pending != DeleteAction && r.googleId.None? && Match(idx, r, Some(r)) != "" {
      UnmatchedRetires(c, listing, w, r, reply);
    } else {
      assert w' == SyncDelete(c, w, r, reply).0;
      DeleteRetires(c, w, r, reply);
    }
  }

  lemma StoppedDeleteRetires(c: Context, w: World, r: Row, at: nat, reply: DeleteReply)
    requires Core(c.property, w) && r.id in w.table.rows && w.table.rows[r.id] == r
    ensures Retires(c, w, StoppedDelete(c, w, r, at, reply), r)
  {
    hide StoppedDelete;
    assert RowOk(c.property, w.remote, w.table.rows[r.id]);
    StoppedDeleteKeeps(c.property, c, w, r, at, reply);
  }

  lemma StoppedAdoptRetires(c: Context, w: World, r: Row, gid: string, at: nat, reply: DeleteReply)
    requires Core(c.property, w) && r.id in w.table.rows && w.table.rows[r.id] == r && gid != ""
    requires gid in w.remote.events && IsMine(c.property, w.remote.events[gid], r)
    ensures Retires(c, w,
                    StoppedDelete(c, World(MarkSeen(w.table, r.id, gid), w.remote), r.(googleId := Some(gid)), at,
                                  reply), r)
  {
    hide StoppedDelete;
    var r1 := r.(googleId := Some(gid));
    var w1 := World(MarkSeen(w.table, r.id, gid), w.remote);
    assert RowOk(c.property, w.remote, w.table.rows[r.id]);
    PutRowKeeps(c.property, w, r1);
    StoppedDeleteRetires(c, w1, r1, at, reply);
  }

  /** A turn that stops half way keeps as much. */
  lemma StoppedRetireKeeps(c: Context, listing: seq<Event>, p: Progress, r: Row, at: nat, reply: DeleteReply)
    requires Core(c.property, p.world) && r.id in p.world.table.rows && p.world.table.rows[r.id] == r
             && r.status != Removed
    requires c.configured ==> Listed(p.world.remote, listing)
    requires !WouldAdopt(c, r, listing)
    ensures var w' := StoppedRetire(c, IndexFor(c, listing), p, r, at, reply);
            w' == p.world || (Retires(c, p.world, w', r) && !Spared(c, r))
  {
    var w, idx := p.world, IndexFor(c, listing);
    var matched := Match(idx, r, Some(r));
    if at == 0 || Quiet(c, p, r) {
    } else if r.pending != DeleteAction && matched != "" && r.googleId.None? {
      AdoptionTakesExactly(c, listing, w, r);
      StoppedAdoptRetires(c, w, r, matched, at - 1, reply);
    } else {
      StoppedDeleteRetires(c, w, r, at - 1, reply);
    }
  }

  /** A spared row keeps its events, its status and its remote id. */
  lemma SparedIsSpared(c: Context, idx: Index, p: Progress, r: Row, reply: DeleteReply)
    requires Spared(c, r) && r.id in p.world.table.rows && p.world.table.rows[r.id] == r
    ensures var w' := RetireStep(c, idx, p, r, reply).world;
            && w'.remote == p.world.remote
            && w'.table == PutRow(p.world.table, r.(pending := if r.date < c.today then NoAction else r.pending))
  {
    assert r.(pending := r.pending) == r;
    assert PutRow(p.world.table, r) == p.world.table;
  }

  ghost predicate DistinctRows(t: Table, active: seq<Row>) {
    && (forall i, j :: 0 <= i < j < |active| ==> active[i].id != active[j].id)
    && (forall r | r in active :: r.id in t.rows && t.rows[r.id] == r && r.status != Removed)
  }

  /** Through no row of the list would another cleaning's event be deleted. */
  ghost predicate NoneAdopts(c: Context, active: seq<Row>, listing: seq<Event>) {
    forall r | r in active :: !WouldAdopt(c, r, listing)
  }

  predicate OwnedBy(c: Context, e: Event, id: int) {
    e.props.property == Some(c.property) && e.props.rowId == Some(id)
  }

  ghost predicate RetiresSome(c: Context, w: World, w': World, active: seq<Row>) {
    && w'.table.byIdentity == w.table.byIdentity && w'.table.rows.Keys == w.table.rows.Keys
    && Keeps(w.remote, w'.remote)
    && (forall x | x in w.table.rows :: (forall r | r in active :: r.id != x) ==> w'.table.rows[x] == w.table.rows[x])
    && (forall r | r in active && Spared(c, r) :: r.id in w'.table.rows
          && w'.table.rows[r.id] == r.(pending := if r.date < c.today then NoAction else r.pending))
    && (forall k | k in w.remote.events && w'.remote.events[k] != w.remote.events[k] ::
          w.remote.events[k].props.property == Some(c.property)
          && w.remote.events[k].props.rowId.Some? && w.remote.events[k].props.rowId.value in w.table.rows
          && w.table.rows[w.remote.events[k].props.rowId.value] in active
          && !Spared(c, w.table.rows[w.remote.events[k].props.rowId.value]))
  }

  lemma {:induction false} RetireAllKeeps(c: Context, listing: seq<Event>, p: Progress, active: seq<Row>,
                                          deletes: int -> DeleteReply)
    requires Core(c.property, p.world) && DistinctRows(p.world.table, active) && NoneAdopts(c, active, listing)
    requires c.configured ==> Listed(p.world.remote, listing)
    ensures var w' := RetireAll(c, IndexFor(c, listing), p, active, deletes).world;
            Core(c.property, w') && RetiresSome(c, p.world, w', active)
  {
    if active != [] {
      var init, r := active[..|active| - 1], active[|active| - 1];
      assert active == init + [r];
      RetireAllKeeps(c, listing, p, init, deletes);
      var p1 := RetireAll(c, IndexFor(c, listing), p, init, deletes);
      assert p1.world.table.rows[r.id] == r;
      RetireStepKeeps(c, listing, p1, r, deletes(r.id));
      if Spared(c, r) {
        SparedIsSpared(c, IndexFor(c, listing), p1, r, deletes(r.id));
      }
      RetireExtends(c, p.world, p1.world, RetireStep(c, IndexFor(c, listing), p1, r, deletes(r.id)).world, init, r);
    }
  }

  lemma RetireExtends(c: Context, w: World, w1: World, w2: World, init: seq<Row>, r: Row)
    requires RetiresSome(c, w, w1, init) && DistinctRows(w.table, init + [r])
    requires RetiresOnly(w1.table, w2.table, r) && TouchesOnly(c.property, w1.remote, w2.remote, r.id)
    requires Spared(c, r) ==> w2.remote == w1.remote
    requires Spared(c, r) ==>
               w2.table == PutRow(w1.table, r.(pending := if r.date < c.today then NoAction else r.pending))
    ensures RetiresSome(c, w, w2, init + [r])
  {
    var active := init + [r];
    assert active[|init|] == r;
    forall x | x in init ensures x in active && x.id != r.id {
      var i :| 0 <= i < |init| && init[i] == x;
      assert active[i] == x;
    }
    forall x | x in w.table.rows && (forall y | y in active :: y.id != x) ensures w2.table.rows[x] == w.table.rows[x] {
      assert r in active;
    }
  }
}
