/**
 * Safety of whole passes, and of every run of passes, retries, stops and edits made by people in the remote calendar.
 */
module CalendarRuns {
  import opened Text
  import opened CalendarModel
  import opened EventIndex
  import opened CalendarPass
  import opened CalendarSafety
  import opened CalendarPhases

  // ---------- which passes hand one cleaning the event of another ----------

  /** The world between the two phases. */
  function Desired(c: Context, w: World, listing: seq<Event>, stays: seq<int>, replies: int -> UpsertReply): World
    requires forall s | s in stays :: s in c.owners
  {
    DesireAll(c, IndexFor(c, listing), Start(w), stays, replies).world
  }

  /**
   * Neither a stay of the window nor a row the second phase would retire meets an event that only the stay and the day
   * lead to. It reads what the pass starts from: the table, the eligible stays and the listing.
   */
  ghost predicate Untangled(c: Context, t: Table, listing: seq<Event>) {
    && (forall s | s in c.owners && InWindow(c, c.owners[s]) :: !WouldTake(c, t, listing, s))
    && (forall id | id in t.rows :: !WouldAdopt(c, t.rows[id], listing))
  }

  /** In this turn of phase one the stay's draft carries the event of another cleaning. */
  ghost predicate DesireTakes(c: Context, w: World, listing: seq<Event>, stay: int)
    requires stay in c.owners
  {
    var existing := RowOfStay(c, w.table, stay);
    var d := Draft(c, IndexFor(c, listing), existing, Build(c, stay));
    d.googleId.Some? && !Mine(c.property, w, d.googleId.value, existing)
  }

  /** In this turn of phase two the row adopts the event of another cleaning. */
  ghost predicate RetireTakes(c: Context, w: World, listing: seq<Event>, r: Row) {
    var m := Match(IndexFor(c, listing), r, Some(r));
    Adopts(c, r) && m != "" && !Mine(c.property, w, m, Some(r))
  }

  /** Some turn of the pass takes. */
  ghost predicate PassTakes(c: Context, w: World, listing: seq<Event>, stays: seq<int>, replies: int -> UpsertReply,
                            active: seq<Row>, deletes: int -> DeleteReply)
    requires forall s | s in stays :: s in c.owners
  {
    || (exists n | 0 <= n < |stays| :: TakesAt(c, w, listing, stays, replies, n))
    || (exists n | 0 <= n < |active| :: AdoptsAt(c, w, listing, stays, replies, active, deletes, n))
  }

  ghost predicate TakesAt(c: Context, w: World, listing: seq<Event>, stays: seq<int>, replies: int -> UpsertReply,
                          n: nat)
    requires n < |stays| && forall s | s in stays :: s in c.owners
  {
    DesireTakes(c, Desired(c, w, listing, stays[..n], replies), listing, stays[n])
  }

  ghost predicate AdoptsAt(c: Context, w: World, listing: seq<Event>, stays: seq<int>, replies: int -> UpsertReply,
                           active: seq<Row>, deletes: int -> DeleteReply, n: nat)
    requires n < |active| && forall s | s in stays :: s in c.owners
  {
    RetireTakes(c, Pass(c, w, listing, stays, replies, active[..n], deletes).world, listing, active[n])
  }

  lemma PrefixIsDistinct(stays: seq<int>, n: nat)
    requires Distinct(stays) && n < |stays|
    ensures Distinct(stays[..n]) && stays[n] !in stays[..n] && forall s | s in stays[..n] :: s in stays
  {
  }

  /** As long as no earlier stay takes, a turn takes exactly when its stay would have taken at the start. */
  lemma TurnTakesExactly(c: Context, w: World, listing: seq<Event>, stays: seq<int>, replies: int -> UpsertReply,
                         n: nat)
    requires ValidContext(c) && Core(c.property, w) && Distinct(stays) && n < |stays|
    requires (forall s | s in stays :: s in c.owners) && NoneTakes(c, w.table, listing, stays[..n])
    requires c.configured ==> Listed(w.remote, listing)
    ensures TakesAt(c, w, listing, stays, replies, n) <==> WouldTake(c, w.table, listing, stays[n])
  {
    PrefixIsDistinct(stays, n);
    DesireAllKeeps(c, listing, w, stays[..n], replies);
    var w1 := Desired(c, w, listing, stays[..n], replies);
    OtherStaysKeepTheirRow(c, w, w1, stays[..n], stays[n]);
    DraftTakesExactly(c, listing, w1, stays[n]);
  }

  /** The same for the rows of phase two. */
  lemma AdoptionTurnTakesExactly(c: Context, w: World, listing: seq<Event>, stays: seq<int>,
                                 replies: int -> UpsertReply, active: seq<Row>, deletes: int -> DeleteReply, n: nat)
    requires ValidContext(c) && Core(c.property, w) && Distinct(stays) && NoneTakes(c, w.table, listing, stays)
    requires c.configured ==> Listed(w.remote, listing)
    requires ListsActive(Desired(c, w, listing, stays, replies).table, active)
    requires n < |active| && NoneAdopts(c, active[..n], listing)
    ensures AdoptsAt(c, w, listing, stays, replies, active, deletes, n) <==> WouldAdopt(c, active[n], listing)
  {
    var p1 := DesireAll(c, IndexFor(c, listing), Start(w), stays, replies);
    DesireAllKeeps(c, listing, w, stays, replies);
    ActivePrefix(p1.world.table, active, n);
    RetireAllKeeps(c, listing, p1, active[..n], deletes);
    var w2 := Pass(c, w, listing, stays, replies, active[..n], deletes).world;
    assert w2.table.rows[active[n].id] == active[n];
    if Adopts(c, active[n]) {
      AdoptionTakesExactly(c, listing, w2, active[n]);
    }
  }

  lemma ActivePrefix(t: Table, active: seq<Row>, n: nat)
    requires ListsActive(t, active) && n < |active|
    ensures DistinctRows(t, active[..n]) && active[n].id in t.rows && t.rows[active[n].id] == active[n]
    ensures active[n].status != Removed && forall r | r in active[..n] :: r in active && r.id != active[n].id
  {
    assert active[n] in active;
    forall r | r in active[..n]
      ensures r in active && r.id != active[n].id
    {
      var i :| 0 <= i < n && active[..n][i] == r;
      assert active[i] == r;
    }
  }

  /** A row that would adopt is one no turn of phase one was for. */
  lemma AdoptersAreUntouched(c: Context, w: World, w1: World, listing: seq<Event>, stays: seq<int>, active: seq<Row>)
    requires Core(c.property, w) && Core(c.property, w1) && TouchesStays(c, w, w1, stays)
             && ListsActive(w1.table, active)
    ensures (exists id :: id in w.table.rows && WouldAdopt(c, w.table.rows[id], listing)) <==>
            exists r :: r in active && WouldAdopt(c, r, listing)
  {
    if id :| id in w.table.rows && WouldAdopt(c, w.table.rows[id], listing) {
      var r := w.table.rows[id];
      assert RowOk(c.property, w.remote, w.table.rows[id]);
      assert !CalledFor(c, r.identity, stays);
      assert w1.table.rows[id] == r && r in active;
    }
    if r :| r in active && WouldAdopt(c, r, listing) {
      assert RowOk(c.property, w1.remote, w1.table.rows[r.id]);
      assert !CalledFor(c, r.identity, stays);
      assert r.id in w.table.rows && w.table.rows[r.id] == r;
    }
  }

  /**
   * A pass hands some cleaning the event of another exactly when its start is tangled: that is when, for a stay or for
   * a row to be retired, nothing but the stay and the day leads to a listed event.
   */
  lemma PassTakesExactly(c: Context, w: World, listing: seq<Event>, stays: seq<int>, replies: int -> UpsertReply,
                         active: seq<Row>, deletes: int -> DeleteReply)
    requires ValidContext(c) && Core(c.property, w) && ListsTargets(c, stays)
    requires c.configured ==> Listed(w.remote, listing)
    requires ListsActive(Desired(c, w, listing, stays, replies).table, active)
    ensures PassTakes(c, w, listing, stays, replies, active, deletes) <==> !Untangled(c, w.table, listing)
  {
    hide Core, WouldTake, WouldAdopt, TakesAt, AdoptsAt, Listed, ValidContext, TouchesStays, ListsActive;
    if n :| 0 <= n < |stays| && WouldTake(c, w.table, listing, stays[n]) {
      var m := FirstTaker(c, w.table, listing, stays, n);
      TurnTakesExactly(c, w, listing, stays, replies, m);
    } else {
      assert NoneTakes(c, w.table, listing, stays);
      forall n | 0 <= n < |stays|
        ensures !TakesAt(c, w, listing, stays, replies, n)
      {
        PrefixIsDistinct(stays, n);
        TurnTakesExactly(c, w, listing, stays, replies, n);
      }
      var w1 := Desired(c, w, listing, stays, replies);
      DesireAllKeeps(c, listing, w, stays, replies);
      AdoptersAreUntouched(c, w, w1, listing, stays, active);
      AdoptersDecide(c, w, listing, stays, replies, active, deletes);
    }
  }

  lemma FirstTaker(c: Context, t: Table, listing: seq<Event>, stays: seq<int>, n: nat) returns (m: nat)
    requires n < |stays| && (forall s | s in stays :: s in c.owners) && WouldTake(c, t, listing, stays[n])
    ensures m < |stays| && WouldTake(c, t, listing, stays[m]) && NoneTakes(c, t, listing, stays[..m])
  {
    m := 0;
    while !WouldTake(c, t, listing, stays[m])
      invariant m <= n && NoneTakes(c, t, listing, stays[..m])
      decreases n - m
    {
      assert stays[..m + 1] == stays[..m] + [stays[m]];
      m := m + 1;
    }
  }

  lemma AdoptersDecide(c: Context, w: World, listing: seq<Event>, stays: seq<int>, replies: int -> UpsertReply,
                       active: seq<Row>, deletes: int -> DeleteReply)
    requires ValidContext(c) && Core(c.property, w) && Distinct(stays) && NoneTakes(c, w.table, listing, stays)
    requires c.configured ==> Listed(w.remote, listing)
    requires ListsActive(Desired(c, w, listing, stays, replies).table, active)
    ensures (exists n | 0 <= n < |active| :: AdoptsAt(c, w, listing, stays, replies, active, deletes, n)) <==>
            exists r :: r in active && WouldAdopt(c, r, listing)
  {
    hide Core, WouldAdopt, AdoptsAt, Listed, ListsActive, ValidContext;
    if r :| r in active && WouldAdopt(c, r, listing) {
      var k :| 0 <= k < |active| && active[k] == r;
      var m := 0;
      while !WouldAdopt(c, active[m], listing)
        invariant m <= k && NoneAdopts(c, active[..m], listing)
        decreases k - m
      {
        assert active[..m + 1] == active[..m] + [active[m]];
        m := m + 1;
      }
      AdoptionTurnTakesExactly(c, w, listing, stays, replies, active, deletes, m);
    } else {
      forall n | 0 <= n < |active|
        ensures !AdoptsAt(c, w, listing, stays, replies, active, deletes, n)
      {
        assert active[n] in active && forall r | r in active[..n] :: r in active;
        AdoptionTurnTakesExactly(c, w, listing, stays, replies, active, deletes, n);
      }
    }
  }

  /** Events of the property still lie on the days they were written for. */
  ghost predicate InPlace(c: Context, listing: seq<Event>) {
    forall e | e in listing && Usable(e) && e.props.property == Some(c.property) && e.props.identity.Some? ::
      DayOf(c.offset, e.starts) == e.props.identity.value.checkout
  }

  /** As long as nobody moved an event to another day, no pass is tangled. */
  lemma InPlaceIsUntangled(c: Context, w: World, listing: seq<Event>)
    requires Core(c.property, w) && Listed(w.remote, listing) && InPlace(c, listing)
    ensures Untangled(c, w.table, listing)
  {
    forall s | s in c.owners && InWindow(c, c.owners[s])
      ensures !WouldTake(c, w.table, listing, s)
    {
      InPlaceIsOwn(c, w, listing, Unmatched(c, RowOfStay(c, w.table, s), s), RowOfStay(c, w.table, s));
    }
    forall id | id in w.table.rows
      ensures !WouldAdopt(c, w.table.rows[id], listing)
    {
      assert RowOk(c.property, w.remote, w.table.rows[id]);
      InPlaceIsOwn(c, w, listing, w.table.rows[id], Some(w.table.rows[id]));
    }
  }

  lemma InPlaceIsOwn(c: Context, w: World, listing: seq<Event>, desired: Row, existing: Option<Row>)
    requires Core(c.property, w) && Listed(w.remote, listing) && InPlace(c, listing)
    requires desired.identity == Some(Identity(c.property, desired.stay, desired.date))
    ensures !OnlyByStayDay(listing, c.property, c.offset, desired, existing)
  {
    forall e | e in listing && Satisfies(e, OnStayDay(desired.stay, desired.date), c.property, c.offset)
      ensures Satisfies(e, Criteria(desired, existing)[3], c.property, c.offset)
    {
      assert Mirrored(c.property, w, w.remote.events[e.id]);
      assert RowOk(c.property, w.remote, w.table.rows[e.props.rowId.value]);
    }
    assert !Nobody(listing, OnStayDay(desired.stay, desired.date), c.property, c.offset) ==>
        !Nobody(listing, Criteria(desired, existing)[3], c.property, c.offset);
  }

  // ---------- a whole pass ----------

  /** No event of a desired cleaning is touched again, and its row stays. */
  ghost predicate DesiredKept(c: Context, w1: World, w2: World, s: int)
    requires s in c.owners
  {
    && RowOfStay(c, w1.table, s).Some? && RowOfStay(c, w2.table, s) == RowOfStay(c, w1.table, s)
    && (forall k | k in w1.remote.events && OwnedBy(c, w1.remote.events[k], RowOfStay(c, w1.table, s).value.id) ::
          k in w2.remote.events && w2.remote.events[k] == w1.remote.events[k])
  }

  /** Rows before today that were not being deleted keep their events. */
  ghost predicate PastKept(c: Context, w: World, w2: World) {
    forall x, k | x in w.table.rows && w.table.rows[x].date < c.today && w.table.rows[x].pending != DeleteAction
      && k in w.remote.events && OwnedBy(c, w.remote.events[k], x) ::
      k in w2.remote.events && w2.remote.events[k] == w.remote.events[k]
  }

  /** A lost event belonged to a row that was being deleted, or that lies today or later and no stay calls for. */
  ghost predicate LossHasCause(c: Context, w1: World, w2: World) {
    forall k | Live(w1.remote, k) && !Live(w2.remote, k) ::
      && w1.remote.events[k].props.property == Some(c.property) && w1.remote.events[k].props.rowId.Some?
      && w1.remote.events[k].props.rowId.value in w1.table.rows
      && var r := w1.table.rows[w1.remote.events[k].props.rowId.value];
         r.pending == DeleteAction || (r.date >= c.today && !Current(c, r))
  }

  /** Events without the property's marks, and events left behind, are as they were. */
  ghost predicate OthersKept(property: int, w: World, w2: World) {
    forall k | k in w.remote.events && (w.remote.events[k].props.property != Some(property)
                                        || LeftBehind(w.table, w.remote.events[k])) ::
      k in w2.remote.events && w2.remote.events[k] == w.remote.events[k]
  }

  lemma DesireSparesOthers(c: Context, w: World, w1: World, stays: seq<int>)
    requires Core(c.property, w1) && TouchesStays(c, w, w1, stays)
    ensures OthersKept(c.property, w, w1)
  {
    forall k | k in w.remote.events && (w.remote.events[k].props.property != Some(c.property)
                                        || LeftBehind(w.table, w.remote.events[k]))
      ensures w1.remote.events[k] == w.remote.events[k]
    {
      if w.remote.events[k].props.property == Some(c.property) {
        assert Mirrored(c.property, w1, w1.remote.events[k]);
      }
    }
  }

  lemma RetireSparesOthers(c: Context, w1: World, w2: World, active: seq<Row>)
    requires RetiresSome(c, w1, w2, active)
    ensures OthersKept(c.property, w1, w2)
  {
  }

  lemma OneRowSparesOthers(property: int, w: World, w2: World, id: int)
    requires TouchesOnly(property, w.remote, w2.remote, id) && id in w.table.rows
    ensures OthersKept(property, w, w2)
  {
  }

  lemma OthersStayKept(property: int, w: World, w1: World, w2: World)
    requires Core(property, w1) && OthersKept(property, w, w1) && OthersKept(property, w1, w2)
    ensures OthersKept(property, w, w2)
  {
    forall k | k in w.remote.events && (w.remote.events[k].props.property != Some(property)
                                        || LeftBehind(w.table, w.remote.events[k]))
      ensures k in w2.remote.events && w2.remote.events[k] == w.remote.events[k]
    {
      if w.remote.events[k].props.property == Some(property) {
        assert Mirrored(property, w1, w1.remote.events[k]);
      }
    }
  }

  /**
   * What a pass from `w` over `w1` to `w2` must not do. A remote event that a desired cleaning was matched to, was
   * skipped on or was written into is not touched again, unless the pass found its row begun; a row before today that
   * is not already being deleted keeps its events as they were; nobody else's event is touched; and every loss has a
   * cause.
   */
  ghost predicate SafePass(c: Context, w: World, w1: World, w2: World, listing: seq<Event>, stays: seq<int>)
    requires forall s | s in stays :: s in c.owners
  {
    && (forall s | s in stays && !Begun(c, IndexFor(c, listing), w.table, s) :: DesiredKept(c, w1, w2, s))
    && PastKept(c, w, w2) && OthersKept(c.property, w, w2) && LossHasCause(c, w1, w2)
  }

  lemma StayIsCurrent(c: Context, w: World, s: int)
    requires s in c.owners && Core(c.property, w) && RowOfStay(c, w.table, s).Some?
    ensures var r := RowOfStay(c, w.table, s).value;
            r.id in w.table.rows && w.table.rows[r.id] == r && r.stay == s && r.date == c.owners[s] && Current(c, r)
  {
    var id := w.table.byIdentity[CanonicalIdentity(c, s)];
    assert id in w.table.rows;
    assert RowOk(c.property, w.remote, w.table.rows[id]);
  }

  lemma SparedRowStays(c: Context, w1: World, w2: World, r: Row, active: seq<Row>)
    requires ListsActive(w1.table, active) && RetiresSome(c, w1, w2, active)
    requires r.id in w1.table.rows && w1.table.rows[r.id] == r && r.status != Removed
    requires r.pending != DeleteAction && r.date >= c.today && Current(c, r)
    ensures w2.table.rows[r.id] == r
    ensures forall k | k in w1.remote.events && OwnedBy(c, w1.remote.events[k], r.id) ::
              w2.remote.events[k] == w1.remote.events[k]
  {
    assert r in active && Spared(c, r);
    assert r.(pending := r.pending) == r;
  }

  lemma OneStays(c: Context, w1: World, w2: World, s: int, active: seq<Row>)
    requires s in c.owners && c.owners[s] >= c.today && Ready(c, w1.table, s)
    requires Core(c.property, w1) && ListsActive(w1.table, active) && RetiresSome(c, w1, w2, active)
    ensures DesiredKept(c, w1, w2, s)
  {
    StayIsCurrent(c, w1, s);
    var r := RowOfStay(c, w1.table, s).value;
    SparedRowStays(c, w1, w2, r, active);
    assert w1.table.byIdentity[CanonicalIdentity(c, s)] == r.id;
  }

  lemma PastStays(c: Context, w: World, w1: World, w2: World, stays: seq<int>, active: seq<Row>)
    requires forall s | s in stays :: s in c.owners && c.owners[s] >= c.today
    requires Core(c.property, w) && TouchesStays(c, w, w1, stays) && RetiresSome(c, w1, w2, active)
    ensures PastKept(c, w, w2)
  {
    forall x, k | x in w.table.rows && w.table.rows[x].date < c.today && w.table.rows[x].pending != DeleteAction
                  && k in w.remote.events && OwnedBy(c, w.remote.events[k], x)
      ensures k in w2.remote.events && w2.remote.events[k] == w.remote.events[k]
    {
      assert RowOk(c.property, w.remote, w.table.rows[x]);
      assert w1.table.rows[x] == w.table.rows[x];
    }
  }

  lemma TargetsAreDistinct(c: Context, t: Table, listing: seq<Event>, stays: seq<int>)
    requires ListsTargets(c, stays) && Untangled(c, t, listing)
    ensures Distinct(stays) && NoneTakes(c, t, listing, stays)
  {
  }

  lemma RetireesAdoptTheirOwn(c: Context, w: World, w1: World, listing: seq<Event>, stays: seq<int>, active: seq<Row>)
    requires Core(c.property, w) && Core(c.property, w1) && TouchesStays(c, w, w1, stays)
             && ListsActive(w1.table, active)
    requires Untangled(c, w.table, listing)
    ensures DistinctRows(w1.table, active) && NoneAdopts(c, active, listing)
  {
    AdoptersAreUntouched(c, w, w1, listing, stays, active);
  }

  /** Every pass with an untangled start keeps the invariant and is safe, however its outside calls end. */
  lemma PassIsSafe(c: Context, w: World, listing: seq<Event>, stays: seq<int>, replies: int -> UpsertReply,
                   active: seq<Row>, deletes: int -> DeleteReply)
    requires ValidContext(c) && Core(c.property, w) && ListsTargets(c, stays) && Untangled(c, w.table, listing)
    requires c.configured ==> Listed(w.remote, listing)
    requires ListsActive(Desired(c, w, listing, stays, replies).table, active)
    ensures var w1, w2 :=
      Desired(c, w, listing, stays, replies), Pass(c, w, listing, stays, replies, active, deletes).world;
            && Core(c.property, w2) && SafePass(c, w, w1, w2, listing, stays)
            && TouchesStays(c, w, w1, stays) && RetiresSome(c, w1, w2, active)
  {
    var w1 := Desired(c, w, listing, stays, replies);
    var w2 := Pass(c, w, listing, stays, replies, active, deletes).world;
    TargetsAreDistinct(c, w.table, listing, stays);
    DesireAllKeeps(c, listing, w, stays, replies);
    DesireAllReadies(c, listing, w, stays, replies);
    RetireesAdoptTheirOwn(c, w, w1, listing, stays, active);
    RetireAllKeeps(c, listing, DesireAll(c, IndexFor(c, listing), Start(w), stays, replies), active, deletes);
    forall s | s in stays && !Begun(c, IndexFor(c, listing), w.table, s)
      ensures DesiredKept(c, w1, w2, s)
    {
      OneStays(c, w1, w2, s, active);
    }
    PastStays(c, w, w1, w2, stays, active);
    PassSparesOthers(c, w, w1, w2, stays, active);
    LossesHaveCauses(c, w1, w2, active);
  }

  lemma PassSparesOthers(c: Context, w: World, w1: World, w2: World, stays: seq<int>, active: seq<Row>)
    requires Core(c.property, w1) && TouchesStays(c, w, w1, stays) && RetiresSome(c, w1, w2, active)
    ensures OthersKept(c.property, w, w2)
  {
    hide Core, TouchesStays, RetiresSome, OthersKept;
    DesireSparesOthers(c, w, w1, stays);
    RetireSparesOthers(c, w1, w2, active);
    OthersStayKept(c.property, w, w1, w2);
  }

  lemma LossesHaveCauses(c: Context, w1: World, w2: World, active: seq<Row>)
    requires RetiresSome(c, w1, w2, active)
    ensures LossHasCause(c, w1, w2)
  {
  }

  // ---------- passes and retries in a process that stops ----------

  lemma RetiresNone(c: Context, w: World)
    ensures RetiresSome(c, w, w, [])
  {
  }

  /** What a last turn for `s`, whole or stopped, leaves of the past. */
  lemma PastSurvivesDesire(c: Context, w: World, w1: World, w2: World, init: seq<int>, s: int)
    requires Core(c.property, w) && Core(c.property, w1) && Core(c.property, w2) && TouchesStays(c, w, w1, init)
    requires forall x | x in init + [s] :: x in c.owners && c.owners[x] >= c.today
    requires w2 == w1 || (s in c.owners && TouchesCleaning(c.property, w1, w2, CanonicalIdentity(c, s)))
    ensures PastKept(c, w, w2) && OthersKept(c.property, w, w2)
  {
    hide PastKept, OthersKept, TouchesStays, TouchesCleaning, RetiresSome, RowOk, RemoteOk;
    if w2 == w1 {
      TouchesMore(c, w, w2, init, s);
    } else {
      DesireExtends(c, w, w1, w2, init, s);
    }
    RetiresNone(c, w2);
    PastStays(c, w, w2, w2, init + [s], []);
    DesireSparesOthers(c, w, w2, init + [s]);
  }

  lemma TargetsAreAhead(c: Context, stays: seq<int>, n: nat)
    requires ListsTargets(c, stays) && n < |stays|
    ensures forall x | x in stays[..n] + [stays[n]] :: x in c.owners && c.owners[x] >= c.today
  {
    forall x | x in stays[..n] + [stays[n]]
      ensures x in stays
    {
    }
  }

  /** A pass that stops inside phase one. */
  lemma StoppedInPhaseOne(c: Context, w: World, listing: seq<Event>, stays: seq<int>, replies: int -> UpsertReply,
                          n: nat, at: nat)
    requires ValidContext(c) && Core(c.property, w) && ListsTargets(c, stays) && Untangled(c, w.table, listing)
    requires (c.configured ==> Listed(w.remote, listing)) && n < |stays|
    ensures var p := DesireAll(c, IndexFor(c, listing), Start(w), stays[..n], replies);
            var w2 := StoppedDesire(c, IndexFor(c, listing), p, stays[n], at, replies(stays[n]));
            Core(c.property, w2) && PastKept(c, w, w2) && OthersKept(c.property, w, w2)
  {
    var idx, s := IndexFor(c, listing), stays[n];
    TargetsAreDistinct(c, w.table, listing, stays);
    PrefixIsDistinct(stays, n);
    DesireAllKeeps(c, listing, w, stays[..n], replies);
    var p := DesireAll(c, idx, Start(w), stays[..n], replies);
    OtherStaysKeepTheirRow(c, w, p.world, stays[..n], s);
    StoppedDesireKeeps(c, listing, p, s, at, replies(s));
    TargetsAreAhead(c, stays, n);
    PastSurvivesDesire(c, w, p.world, StoppedDesire(c, idx, p, s, at, replies(s)), stays[..n], s);
  }

  /** What a last turn for `r`, whole or stopped, adds to the retirements so far. */
  lemma RetiresMore(c: Context, w: World, w1: World, w2: World, active: seq<Row>, n: nat)
    requires ListsActive(w.table, active) && n < |active| && RetiresSome(c, w, w1, active[..n])
    requires w2 == w1 || (Retires(c, w1, w2, active[n]) && !Spared(c, active[n]))
    ensures exists done :: RetiresSome(c, w, w2, done)
  {
    hide RetiresSome, Spared;
    if w2 != w1 {
      assert active[..n] + [active[n]] == active[..n + 1];
      DistinctPrefix(w.table, active, n);
      RetireExtends(c, w, w1, w2, active[..n], active[n]);
    }
  }

  /** A pass that stops inside phase two. */
  lemma StoppedInPhaseTwo(c: Context, w: World, listing: seq<Event>, stays: seq<int>, replies: int -> UpsertReply,
                          active: seq<Row>, deletes: int -> DeleteReply, n: nat, at: nat)
    requires ValidContext(c) && Core(c.property, w) && ListsTargets(c, stays) && Untangled(c, w.table, listing)
    requires c.configured ==> Listed(w.remote, listing)
    requires ListsActive(Desired(c, w, listing, stays, replies).table, active) && n < |active|
    ensures var w1, p := Desired(c, w, listing, stays, replies),
              Pass(c, w, listing, stays, replies, active[..n], deletes);
            var w2 := StoppedRetire(c, IndexFor(c, listing), p, active[n], at, deletes(active[n].id));
            Core(c.property, w2) && PastKept(c, w, w2) && OthersKept(c.property, w, w2) && LossHasCause(c, w1, w2)
  {
    var idx, r, w1 := IndexFor(c, listing), active[n], Desired(c, w, listing, stays, replies);
    var p := Pass(c, w, listing, stays, replies, active[..n], deletes);
    var w2 := StoppedRetire(c, idx, p, r, at, deletes(r.id));
    TargetsAreDistinct(c, w.table, listing, stays);
    DesireAllKeeps(c, listing, w, stays, replies);
    RetireesAdoptTheirOwn(c, w, w1, listing, stays, active);
    StoppedAmongActive(c, w1, listing, DesireAll(c, idx, Start(w), stays, replies), active, deletes, n, at);
    var done :| RetiresSome(c, w1, w2, done);
    PastStays(c, w, w1, w2, stays, done);
    PassSparesOthers(c, w, w1, w2, stays, done);
    LossesHaveCauses(c, w1, w2, done);
  }

  lemma StoppedAmongActive(c: Context, w1: World, listing: seq<Event>, p1: Progress, active: seq<Row>,
                           deletes: int -> DeleteReply, n: nat, at: nat)
    requires Core(c.property, w1) && p1.world == w1 && ListsActive(w1.table, active) && n < |active|
    requires (c.configured ==> Listed(w1.remote, listing)) && NoneAdopts(c, active, listing)
    ensures var p := RetireAll(c, IndexFor(c, listing), p1, active[..n], deletes);
            var w2 := StoppedRetire(c, IndexFor(c, listing), p, active[n], at, deletes(active[n].id));
            Core(c.property, w2) && exists done :: RetiresSome(c, w1, w2, done)
  {
    hide StoppedRetire, WouldAdopt, Spared;
    var r, p := active[n], RetireAll(c, IndexFor(c, listing), p1, active[..n], deletes);
    ActivePrefix(w1.table, active, n);
    RetireAllKeeps(c, listing, p1, active[..n], deletes);
    assert p.world.table.rows[r.id] == r && r in active;
    StoppedRetireKeeps(c, listing, p, r, at, deletes(r.id));
    RetiresMore(c, w1, p.world, StoppedRetire(c, IndexFor(c, listing), p, r, at, deletes(r.id)), active, n);
  }

  lemma DistinctPrefix(t: Table, active: seq<Row>, n: nat)
    requires ListsActive(t, active) && n < |active|
    ensures DistinctRows(t, active[..n + 1])
  {
    forall r | r in active[..n + 1]
      ensures r in active
    {
    }
  }

  // ---------- runs ----------

  /** An operator retries one row. */
  function Retry(c: Context, w: World, id: int, reply: UpsertReply, delete: DeleteReply): World
    requires id in w.table.rows
  {
    var r := w.table.rows[id];
    if r.pending == DeleteAction || r.status == Removed then SyncDelete(c, w, r, delete).0
    else SyncUpsert(c, w, r, reply).0
  }

  function StoppedRetry(c: Context, w: World, id: int, at: nat, reply: UpsertReply, delete: DeleteReply): World
    requires id in w.table.rows
  {
    var r := w.table.rows[id];
    if r.pending == DeleteAction || r.status == Removed then StoppedDelete(c, w, r, at, delete)
    else StoppedUpsert(c, w, r, at, reply)
  }

  /**
   * People may retitle, cancel, purge or move events to another calendar, time or day, and add their own; they do not
   * forge PMS marks.
   */
  ghost predicate EditedByPeople(property: int, m: Remote, m': Remote) {
    && m.issued <= m'.issued
    && (forall k | k in m'.events :: k != "" && m'.events[k].id == k && k in m'.issued
          && (if k in m.events then m'.events[k].props == m.events[k].props
              else k !in m.issued && m'.events[k].props.property != Some(property)))
  }

  datatype Step =
    | PassStep(c: Context, listing: seq<Event>, stays: seq<int>, replies: int -> UpsertReply, active: seq<Row>,
               deletes: int -> DeleteReply)
    | StopInPhaseOne(c: Context, listing: seq<Event>, stays: seq<int>, replies: int -> UpsertReply, n: nat, at: nat)
    | StopInPhaseTwo(c: Context, listing: seq<Event>, stays: seq<int>, replies: int -> UpsertReply, active: seq<Row>,
                     deletes: int -> DeleteReply, n: nat, at: nat)
    | RetryStep(c: Context, id: int, reply: UpsertReply, delete: DeleteReply)
    | StopInRetry(c: Context, id: int, reply: UpsertReply, delete: DeleteReply, at: nat)
    | EditStep(remote: Remote)

  /** A pass may start: its inputs describe the world, and nothing in them is tangled. */
  ghost predicate MayStart(property: int, w: World, c: Context, listing: seq<Event>, stays: seq<int>) {
    && c.property == property && ValidContext(c) && ListsTargets(c, stays) && Untangled(c, w.table, listing)
    && (c.configured ==> Listed(w.remote, listing))
  }

  ghost predicate Admissible(property: int, w: World, st: Step) {
    match st
    case PassStep(c, listing, stays, replies, active, _) =>
      MayStart(property, w, c, listing, stays) && ListsActive(Desired(c, w, listing, stays, replies).table, active)
    case StopInPhaseOne(c, listing, stays, _, n, _) => MayStart(property, w, c, listing, stays) && n < |stays|
    case StopInPhaseTwo(c, listing, stays, replies, active, _, n, _) =>
      && MayStart(property, w, c, listing, stays) && n < |active|
      && ListsActive(Desired(c, w, listing, stays, replies).table, active)
    case RetryStep(c, id, _, _) => c.property == property && id in w.table.rows
    case StopInRetry(c, id, _, _, _) => c.property == property && id in w.table.rows
    case EditStep(remote) => EditedByPeople(property, w.remote, remote)
  }

  /** The step can be taken at all: its stays have owners, and its row or turn exists. */
  predicate Runnable(w: World, st: Step) {
    match st
    case PassStep(c, _, stays, _, _, _) => forall s | s in stays :: s in c.owners
    case StopInPhaseOne(c, _, stays, _, n, _) => n < |stays| && forall s | s in stays :: s in c.owners
    case StopInPhaseTwo(c, _, stays, _, active, _, n, _) => n < |active| && forall s | s in stays :: s in c.owners
    case RetryStep(_, id, _, _) => id in w.table.rows
    case StopInRetry(_, id, _, _, _) => id in w.table.rows
    case EditStep(_) => true
  }

  function Apply(w: World, st: Step): World
    requires Runnable(w, st)
  {
    match st
    case PassStep(c, listing, stays, replies, active, deletes) =>
      Pass(c, w, listing, stays, replies, active, deletes).world
    case StopInPhaseOne(c, listing, stays, replies, n, at) =>
      StoppedDesire(c, IndexFor(c, listing), DesireAll(c, IndexFor(c, listing), Start(w), stays[..n], replies),
                    stays[n], at, replies(stays[n]))
    case StopInPhaseTwo(c, listing, stays, replies, active, deletes, n, at) =>
      StoppedRetire(c, IndexFor(c, listing), Pass(c, w, listing, stays, replies, active[..n], deletes), active[n], at,
                    deletes(active[n].id))
    case RetryStep(c, id, reply, delete) => Retry(c, w, id, reply, delete)
    case StopInRetry(c, id, reply, delete, at) => StoppedRetry(c, w, id, at, reply, delete)
    case EditStep(remote) => World(w.table, remote)
  }

  /** Passes are safe, also when they stop on the way. */
  ghost predicate SafeStep(w: World, st: Step)
    requires Runnable(w, st)
  {
    match st
    case PassStep(c, listing, stays, replies, _, _) =>
      SafePass(c, w, Desired(c, w, listing, stays, replies), Apply(w, st), listing, stays)
    case StopInPhaseOne(c, _, _, _, _, _) => PastKept(c, w, Apply(w, st)) && OthersKept(c.property, w, Apply(w, st))
    case StopInPhaseTwo(c, listing, stays, replies, _, _, _, _) =>
      && PastKept(c, w, Apply(w, st)) && OthersKept(c.property, w, Apply(w, st))
      && LossHasCause(c, Desired(c, w, listing, stays, replies), Apply(w, st))
    case RetryStep(c, _, _, _) => OthersKept(c.property, w, Apply(w, st))
    case StopInRetry(c, _, _, _, _) => OthersKept(c.property, w, Apply(w, st))
    case EditStep(_) => true
  }

  lemma RetryKeeps(c: Context, w: World, id: int, at: nat, reply: UpsertReply, delete: DeleteReply)
    requires Core(c.property, w) && id in w.table.rows
    ensures Core(c.property, Retry(c, w, id, reply, delete))
            && Core(c.property, StoppedRetry(c, w, id, at, reply, delete))
    ensures OthersKept(c.property, w, Retry(c, w, id, reply, delete))
            && OthersKept(c.property, w, StoppedRetry(c, w, id, at, reply, delete))
  {
    hide TouchesOnly, OthersKept, SyncUpsert, StoppedUpsert, SyncDelete, StoppedDelete;
    var r := w.table.rows[id];
    assert RowOk(c.property, w.remote, w.table.rows[id]);
    if r.pending == DeleteAction || r.status == Removed {
      DeleteRetires(c, w, r, delete);
      StoppedDeleteRetires(c, w, r, at, delete);
    } else {
      SyncUpsertKeeps(c.property, c, w, r, reply);
      StoppedUpsertKeeps(c.property, c, w, r, at, reply);
    }
    OneRowSparesOthers(c.property, w, Retry(c, w, id, reply, delete), id);
    OneRowSparesOthers(c.property, w, StoppedRetry(c, w, id, at, reply, delete), id);
  }

  /** Whatever people do to remote events, short of forging marks. */
  lemma EditKeeps(property: int, w: World, m: Remote)
    requires Core(property, w) && EditedByPeople(property, w.remote, m)
    ensures Core(property, World(w.table, m))
  {
    forall id | id in w.table.rows
      ensures RowOk(property, m, w.table.rows[id])
    {
      assert RowOk(property, w.remote, w.table.rows[id]);
    }
    forall k | k in m.events && m.events[k].props.property == Some(property)
      ensures Mirrored(property, World(w.table, m), m.events[k])
    {
      assert Mirrored(property, w, w.remote.events[k]);
    }
  }

  lemma StepIsSafe(property: int, w: World, st: Step)
    requires Core(property, w) && Admissible(property, w, st)
    ensures Core(property, Apply(w, st)) && SafeStep(w, st)
  {
    hide Core, SafePass, PastKept, OthersKept, LossHasCause, Untangled;
    match st
    case PassStep(c, listing, stays, replies, active, deletes) =>
      PassIsSafe(c, w, listing, stays, replies, active, deletes);
    case StopInPhaseOne(c, listing, stays, replies, n, at) => StoppedInPhaseOne(c, w, listing, stays, replies, n, at);
    case StopInPhaseTwo(c, listing, stays, replies, active, deletes, n, at) =>
      StoppedInPhaseTwo(c, w, listing, stays, replies, active, deletes, n, at);
    case RetryStep(c, id, reply, delete) => RetryKeeps(c, w, id, 0, reply, delete);
    case StopInRetry(c, id, reply, delete, at) => RetryKeeps(c, w, id, at, reply, delete);
    case EditStep(remote) => EditKeeps(property, w, remote);
  }

  /** `ws` are the worlds of a run that takes `steps` in turn. */
  ghost predicate IsRun(property: int, ws: seq<World>, steps: seq<Step>) {
    && |ws| == |steps| + 1
    && (forall i | 0 <= i < |steps| ::
        Admissible(property, ws[i], steps[i]) && ws[i + 1] == Apply(ws[i], steps[i]))
  }

  /**
   * Safety over every run: whatever fails, wherever a process stops and whatever people edit, the invariant holds
   * throughout and every pass on the way is safe.
   */
  lemma {:induction false} RunIsSafe(property: int, ws: seq<World>, steps: seq<Step>, n: nat)
    requires IsRun(property, ws, steps) && Core(property, ws[0]) && n <= |steps|
    ensures forall i | 0 <= i <= n :: Core(property, ws[i])
    ensures forall i | 0 <= i < n :: SafeStep(ws[i], steps[i])
  {
    hide Core, SafeStep, Admissible, Apply;
    if n > 0 {
      RunIsSafe(property, ws, steps, n - 1);
      StepIsSafe(property, ws[n - 1], steps[n - 1]);
    }
  }

  // ---------- where runs begin ----------

  /** A new installation satisfies the invariant, whatever is already in people's calendars. */
  lemma EmptyTableIsSafe(property: int, m: Remote)
    requires forall k | k in m.events :: m.events[k].id == k && k in m.issued && k != ""
                                         && m.events[k].props.property != Some(property)
    ensures Core(property, World(Table(map[], map[], 1), m))
  {
  }
}
