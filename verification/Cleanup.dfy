/** The offline cleanup of cleaning events owned by raw booking blocks: restartable, and stopped at any point. */
module Cleanup {
  import opened Text

  type Day = int

  datatype Phase = Prepared | Discovered | Complete

  /**
   * One row of the state table. `calendar` is blank where the column is null; `noted` says that an error text is set.
   */
  datatype State = State(cutoff: Day, calendar: string, phase: Phase, noted: bool)

  /** One queued remote event. */
  datatype Item = Item(property: int, calendar: string, event: string)

  /** A listed remote event: its day in the property's zone if it has a start, and its PMS marks. */
  datatype Event = Event(id: string, cancelled: bool, day: Option<Day>, property: Option<int>, raw: bool, named: bool)

  // ---------- what the rows and marks decide ----------

  predicate Blank(s: string) {
    TrimSpace(s) == ""
  }

  lemma BlankIsBlank()
    ensures Blank("")
  {
  }

  lemma BlankIsAllSpace(s: string)
    ensures Blank(s) <==> AllSpace(s)
  {
    TrimsToNothing(s);
  }

  lemma WordIsNotBlank(s: string)
    requires s != "" && !IsSpace(s[0])
    ensures !Blank(s)
  {
  }

  datatype Finding = Queue | Ignore | Ambiguous

  predicate MarkedRaw(e: Event, property: int) {
    e.property == Some(property) && e.raw
  }

  /** Discovery: `localRaw` and `localNamed` say which local rows name the event. */
  function Discover(e: Event, property: int, cutoff: Day, localRaw: bool, localNamed: bool): Finding {
    if e.cancelled || Blank(e.id) || e.day.None? || e.day.value < cutoff then Ignore
    else if (e.named || localNamed) && (MarkedRaw(e, property) || localRaw) then Ambiguous
    else if MarkedRaw(e, property) || localRaw then Queue
    else Ignore
  }

  datatype Verdict = Forget | Leave | Refuse | Remove

  /** What a fresh listing says about a queued event. An event without a start counts as before every cutoff. */
  function Judge(events: seq<Event>, id: string, property: int, cutoff: Day): Verdict {
    if events == [] then Forget
    else if events[0].id != id then Judge(events[1..], id, property, cutoff)
    else if events[0].day.None? || events[0].day.value < cutoff then Leave
    else if !MarkedRaw(events[0], property) || events[0].named then Refuse
    else Remove
  }

  /** The listing shows the event as raw-owned by the property, not named-stay-owned, on or after the cutoff. */
  predicate ShownAsOurs(events: seq<Event>, id: string, property: int, cutoff: Day) {
    exists i :: 0 <= i < |events| && ShownAt(events, id, property, cutoff, i)
  }

  /** Position `i` holds the first event with the id, and it is ours. */
  predicate ShownAt(events: seq<Event>, id: string, property: int, cutoff: Day, i: int) {
    && 0 <= i < |events| && events[i].id == id && (forall j | 0 <= j < i :: events[j].id != id)
    && events[i].property == Some(property) && events[i].raw && !events[i].named
    && events[i].day.Some? && events[i].day.value >= cutoff
  }

  /** Positions of a listing and of its tail. */
  lemma ShownInTail(events: seq<Event>, id: string, property: int, cutoff: Day, i: int)
    requires events != [] && events[0].id != id
    ensures ShownAt(events[1..], id, property, cutoff, i) <==> i >= 0 && ShownAt(events, id, property, cutoff, i + 1)
  {
    var tail := events[1..];
    assert forall k | 0 <= k < |tail| :: tail[k] == events[k + 1];
    if i >= 0 && ShownAt(events, id, property, cutoff, i + 1) {
      forall j | 0 <= j < i
        ensures tail[j].id != id
      {
        assert tail[j] == events[j + 1];
      }
    }
    if ShownAt(tail, id, property, cutoff, i) {
      forall j | 0 <= j < i + 1
        ensures events[j].id != id
      {
        assert j > 0 ==> events[j] == tail[j - 1];
      }
    }
  }

  lemma {:induction false} RemoveMeansOurs(events: seq<Event>, id: string, property: int, cutoff: Day)
    ensures Judge(events, id, property, cutoff) == Remove <==> ShownAsOurs(events, id, property, cutoff)
  {
    if events != [] && events[0].id != id {
      hide ShownAt;
      RemoveMeansOurs(events[1..], id, property, cutoff);
      if i :| ShownAt(events[1..], id, property, cutoff, i) {
        ShownInTail(events, id, property, cutoff, i);
      }
      if i :| ShownAt(events, id, property, cutoff, i) {
        FirstIsNotZero(events, id, property, cutoff, i);
        ShownInTail(events, id, property, cutoff, i - 1);
      }
    } else if events != [] {
      assert Judge(events, id, property, cutoff) == Remove ==> ShownAt(events, id, property, cutoff, 0);
    }
  }

  lemma FirstIsNotZero(events: seq<Event>, id: string, property: int, cutoff: Day, i: int)
    requires events != [] && events[0].id != id && ShownAt(events, id, property, cutoff, i)
    ensures i > 0
  {
  }

  /** `e` is the first listed event with its id. */
  predicate FirstWith(events: seq<Event>, e: Event) {
    exists i :: 0 <= i < |events| && events[i] == e && forall j | 0 <= j < i :: events[j].id != e.id
  }

  /**
   * A queued event that is listed as it was discovered, wherever in the listing, is removed exactly when its own marks
   * say raw. One queued only because of a local row is refused.
   */
  lemma {:induction false} QueuedIsRemovedExactly(events: seq<Event>, e: Event, property: int, cutoff: Day,
                                                  localRaw: bool, localNamed: bool)
    requires Discover(e, property, cutoff, localRaw, localNamed) == Queue && FirstWith(events, e)
    ensures Judge(events, e.id, property, cutoff) == (if MarkedRaw(e, property) then Remove else Refuse)
    ensures !MarkedRaw(e, property) ==> localRaw
  {
    hide Blank;
    var i :| 0 <= i < |events| && events[i] == e && forall j | 0 <= j < i :: events[j].id != e.id;
    if i > 0 {
      assert events[1..][i - 1] == e;
      forall j | 0 <= j < i - 1
        ensures events[1..][j].id != e.id
      {
        assert events[1..][j] == events[j + 1];
      }
      QueuedIsRemovedExactly(events[1..], e, property, cutoff, localRaw, localNamed);
    }
  }

  // ---------- the history of outside actions ----------

  /** Reading the configured calendar, listing it, and deleting one event. */
  datatype Action =
    | Read(property: int, calendar: string)
    | Listed(property: int, calendar: string, events: seq<Event>)
    | Deleted(property: int, calendar: string, event: string, cutoff: Day, done: bool)

  /**
   * Every remote delete comes straight after a listing that shows the event as ours on or after the cutoff, and that
   * listing straight after a reading that shows its calendar as the configured one.
   */
  ghost predicate SafeHistory(trace: seq<Action>) {
    forall i | 0 <= i < |trace| && trace[i].Deleted? :: SafeAt(trace, i)
  }

  predicate SafeAt(trace: seq<Action>, i: nat)
    requires i < |trace| && trace[i].Deleted?
  {
    && i >= 2 && trace[i - 1].Listed? && trace[i - 1].property == trace[i].property
    && trace[i - 1].calendar == trace[i].calendar
    && trace[i - 2] == Read(trace[i].property, trace[i].calendar)
    && ShownAsOurs(trace[i - 1].events, trace[i].event, trace[i].property, trace[i].cutoff)
  }

  /** Deletes went by the cutoff stored for the property. */
  ghost predicate ByCutoff(trace: seq<Action>, states: map<int, State>) {
    forall a | a in trace && a.Deleted? :: a.property in states && a.cutoff == states[a.property].cutoff
  }

  /** The last two actions read the item's calendar as the configured one and listed it. */
  predicate JustShown(trace: seq<Action>, item: Item, events: seq<Event>) {
    |trace| >= 2 && trace[|trace| - 1] == Listed(item.property, item.calendar, events)
    && trace[|trace| - 2] == Read(item.property, item.calendar)
  }

  lemma LookingIsSafe(trace: seq<Action>, a: Action, states: map<int, State>)
    requires SafeHistory(trace) && ByCutoff(trace, states) && !a.Deleted?
    ensures SafeHistory(trace + [a]) && ByCutoff(trace + [a], states)
  {
    var longer := trace + [a];
    forall i | 0 <= i < |longer| && longer[i].Deleted?
      ensures SafeAt(longer, i)
    {
      assert SafeAt(trace, i);
    }
  }

  /** Deleting what the last listing showed as ours keeps the history safe. */
  lemma DeletingIsSafe(trace: seq<Action>, item: Item, events: seq<Event>, states: map<int, State>, done: bool)
    requires SafeHistory(trace) && ByCutoff(trace, states) && item.property in states && JustShown(trace, item, events)
    requires Judge(events, item.event, item.property, states[item.property].cutoff) == Remove
    ensures var longer :=
      trace + [Deleted(item.property, item.calendar, item.event, states[item.property].cutoff, done)];
            SafeHistory(longer) && ByCutoff(longer, states)
  {
    var longer := trace + [Deleted(item.property, item.calendar, item.event, states[item.property].cutoff, done)];
    RemoveMeansOurs(events, item.event, item.property, states[item.property].cutoff);
    forall i | 0 <= i < |longer| && longer[i].Deleted?
      ensures SafeAt(longer, i)
    {
      if i < |trace| {
        assert SafeAt(trace, i);
      }
    }
  }

  /** Cutoffs are written once. */
  predicate CutoffsKept(before: map<int, State>, after: map<int, State>) {
    forall p | p in before :: p in after && after[p].cutoff == before[p].cutoff
  }

  /** The event was seen to be gone from its calendar, or removed from it. */
  predicate SettledAt(a: Action, item: Item) {
    || (a.Deleted? && a.property == item.property && a.calendar == item.calendar && a.event == item.event && a.done)
    || (a.Listed? && a.property == item.property && a.calendar == item.calendar
        && forall e | e in a.events :: e.id != item.event)
  }

  /** The same, at some action from position `begun` on. */
  ghost predicate Settled(trace: seq<Action>, begun: nat, item: Item) {
    exists i | begun <= i < |trace| :: SettledAt(trace[i], item)
  }

  /** The event was listed with a day before the cutoff, or with none. */
  predicate EarlyAt(a: Action, item: Item, cutoff: Day) {
    && a.Listed? && a.property == item.property && a.calendar == item.calendar
    && exists i | 0 <= i < |a.events| :: EarlyIn(a.events, item.event, cutoff, i)
  }

  /** Position `i` holds the first event with the id, and its day is before the cutoff or missing. */
  predicate EarlyIn(events: seq<Event>, id: string, cutoff: Day, i: int) {
    && 0 <= i < |events| && events[i].id == id && (forall j | 0 <= j < i :: events[j].id != id)
    && (events[i].day.None? || events[i].day.value < cutoff)
  }

  ghost predicate Early(trace: seq<Action>, begun: nat, item: Item, cutoff: Day) {
    exists i | begun <= i < |trace| :: EarlyAt(trace[i], item, cutoff)
  }

  /** The unique index of the queue. */
  predicate Unrepeated(items: map<int, Item>) {
    forall i, j | i in items && j in items && i != j :: items[i] != items[j]
  }

  predicate Queued(items: map<int, Item>, item: Item) {
    exists id | id in items :: items[id] == item
  }

  /** A live raw-marked event on or after the cutoff: what the cleanup is for. */
  predicate Wanted(e: Event, property: int, cutoff: Day) {
    Eligible(e, cutoff) && e.property == Some(property) && e.raw
  }

  /** A live event on or after the cutoff. */
  predicate Eligible(e: Event, cutoff: Day) {
    !e.cancelled && !AllSpace(e.id) && e.day.Some? && e.day.value >= cutoff
  }

  /** Action `i` listed the calendar, and every wanted event in that listing has been settled since. */
  ghost predicate CleanedSince(trace: seq<Action>, i: nat, property: int, calendar: string, cutoff: Day)
    requires i < |trace|
  {
    && trace[i].Listed? && trace[i].property == property && trace[i].calendar == calendar
    && forall e | e in trace[i].events && Wanted(e, property, cutoff) ::
         Settled(trace, i, Item(property, calendar, e.id))
  }

  /** No other property's queue is touched. */
  predicate QueueTouched(property: int, before: map<int, Item>, after: map<int, Item>) {
    && (forall id | id in before && before[id].property != property :: id in after && after[id] == before[id])
    && (forall id | id in after && after[id].property != property :: id in before && before[id] == after[id])
  }

  lemma SettledLonger(trace: seq<Action>, longer: seq<Action>, begun: nat, earlier: nat, item: Item)
    requires trace <= longer && earlier <= begun && Settled(trace, begun, item)
    ensures Settled(longer, earlier, item)
  {
    var i :| begun <= i < |trace| && SettledAt(trace[i], item);
    assert SettledAt(longer[i], item);
  }

  lemma EarlyLonger(trace: seq<Action>, longer: seq<Action>, begun: nat, earlier: nat, item: Item, cutoff: Day)
    requires trace <= longer && earlier <= begun && Early(trace, begun, item, cutoff)
    ensures Early(longer, earlier, item, cutoff)
  {
    var i :| begun <= i < |trace| && EarlyAt(trace[i], item, cutoff);
    assert EarlyAt(longer[i], item, cutoff);
  }

  /** A queued event is left alone exactly when it is listed before the cutoff. */
  lemma LeftIsEarly(events: seq<Event>, item: Item, cutoff: Day)
    ensures Judge(events, item.event, item.property, cutoff) == Leave <==>
              EarlyAt(Listed(item.property, item.calendar, events), item, cutoff)
  {
    LeaveMeansEarly(events, item.event, item.property, cutoff);
  }

  lemma {:induction false} LeaveMeansEarly(events: seq<Event>, id: string, property: int, cutoff: Day)
    ensures Judge(events, id, property, cutoff) == Leave <==> exists i :: EarlyIn(events, id, cutoff, i)
  {
    if events != [] && events[0].id != id {
      var tail := events[1..];
      LeaveMeansEarly(tail, id, property, cutoff);
      if i :| EarlyIn(tail, id, cutoff, i) {
        assert forall j | 0 < j < i + 1 :: events[j] == tail[j - 1];
        assert EarlyIn(events, id, cutoff, i + 1);
      }
      if i :| EarlyIn(events, id, cutoff, i) {
        assert forall j | 0 <= j < i - 1 :: tail[j] == events[j + 1];
        assert EarlyIn(tail, id, cutoff, i - 1);
      }
    } else if events != [] {
      assert events[0].day.None? || events[0].day.value < cutoff ==> EarlyIn(events, id, cutoff, 0);
    }
  }

  /** A queued event is dropped unremoved only when the listing does not have it. */
  lemma JudgedIsSettled(events: seq<Event>, item: Item, cutoff: Day)
    ensures Judge(events, item.event, item.property, cutoff) == Forget <==> forall e | e in events :: e.id != item.event
  {
    if events != [] {
      JudgedIsSettled(events[1..], item, cutoff);
      assert events == [events[0]] + events[1..];
    }
  }

  lemma EmptiedIsClean(listed: seq<Action>, trace: seq<Action>, queue: map<int, Item>, items: map<int, Item>,
                       property: int, calendar: string, cutoff: Day)
    requires listed != [] && listed <= trace
    requires var last := listed[|listed| - 1];
             && last.Listed? && last.property == property && last.calendar == calendar
             && forall e | e in last.events && Wanted(e, property, cutoff) ::
                  Queued(queue, Item(property, calendar, e.id))
    requires forall id | id in items :: items[id].property != property && id in queue && items[id] == queue[id]
    requires forall id | id in queue && id !in items :: Settled(trace, |listed|, queue[id])
    ensures CleanedSince(trace, |listed| - 1, property, calendar, cutoff)
  {
    forall e | e in listed[|listed| - 1].events && Wanted(e, property, cutoff)
      ensures Settled(trace, |listed| - 1, Item(property, calendar, e.id))
    {
      var id :| id in queue && queue[id] == Item(property, calendar, e.id);
      assert id !in items;
      SettledLonger(trace, trace, |listed|, |listed| - 1, queue[id]);
    }
  }

  /** Cutoffs are kept and no other property's state row is touched. */
  predicate Touched(property: int, before: map<int, State>, after: map<int, State>) {
    CutoffsKept(before, after) && after.Keys == before.Keys
    && forall p | p in before && p != property :: p in after && after[p] == before[p]
  }

  /** One row inserted, or its calendar refreshed. */
  function Refreshed(states: map<int, State>, c: Candidate): map<int, State> {
    states[c.property := if c.property in states then states[c.property].(calendar := c.calendar)
                         else State(c.today, c.calendar, Prepared, false)]
  }

  function AllRefreshed(states: map<int, State>, rows: seq<Candidate>): map<int, State> {
    if rows == [] then states else Refreshed(AllRefreshed(states, rows[..|rows| - 1]), rows[|rows| - 1])
  }

  lemma {:induction false} RefreshingKeepsCutoffs(states: map<int, State>, rows: seq<Candidate>)
    ensures CutoffsKept(states, AllRefreshed(states, rows))
    ensures forall p | p in states ::
              p in AllRefreshed(states, rows) && AllRefreshed(states, rows)[p].phase == states[p].phase
    ensures forall p | p in AllRefreshed(states, rows) && p !in states ::
              AllRefreshed(states, rows)[p].phase == Prepared
  {
    if rows != [] {
      RefreshingKeepsCutoffs(states, rows[..|rows| - 1]);
    }
  }

  /**
   * Everything outside the two tables, by the number of the operation that meets it: whether the process stops there,
   * the configured calendar, the listing or its failure, the local rows and whether a delete call goes through.
   */
  datatype Env = Env(stops: nat -> bool, configured: (nat, int) -> string,
                     listing: (nat, string) -> Option<seq<Event>>,
                     localRaw: (nat, string) -> bool, localNamed: (nat, string) -> bool, deletes: nat -> bool)

  /** One row of the query `Prepare` walks. */
  datatype Candidate = Candidate(property: int, calendar: string, today: Day, zoneKnown: bool)

  datatype Ended = Fine | Stopped | Failed

  datatype Command = Preparing(rows: seq<Candidate>, env: Env) | Running(env: Env)

  // ---------- what discovery finds, and when nothing is in its way ----------

  /** The event's own marks, or a local row at operation `n`, say that it is a raw booking block's. */
  predicate SeenRaw(e: Event, n: nat, property: int, env: Env) {
    (e.property == Some(property) && e.raw) || env.localRaw(n, e.id)
  }

  predicate SeenNamed(e: Event, n: nat, env: Env) {
    e.named || env.localNamed(n, e.id)
  }

  predicate FoundQueued(e: Event, n: nat, property: int, cutoff: Day, env: Env) {
    Eligible(e, cutoff) && SeenRaw(e, n, property, env) && !SeenNamed(e, n, env)
  }

  /** At operation `n` both kinds of marks are seen on the event. */
  predicate FoundAmbiguous(e: Event, n: nat, property: int, cutoff: Day, env: Env) {
    Eligible(e, cutoff) && SeenRaw(e, n, property, env) && SeenNamed(e, n, env)
  }

  lemma DiscoveryIsExact(e: Event, n: nat, property: int, cutoff: Day, env: Env)
    ensures var finding := Discover(e, property, cutoff, env.localRaw(n, e.id), env.localNamed(n, e.id));
            && (finding == Queue <==> FoundQueued(e, n, property, cutoff, env))
            && (finding == Ambiguous <==> FoundAmbiguous(e, n, property, cutoff, env))
  {
    hide IsSpace, TrimSpace;
    TrimsToNothing(e.id);
  }

  /** Whenever the local rows are asked, the event is to be queued. */
  ghost predicate SurelyQueued(e: Event, property: int, cutoff: Day, env: Env) {
    forall n :: FoundQueued(e, n, property, cutoff, env)
  }

  /** The item comes from a listed event that was to be queued. */
  ghost predicate Sourced(item: Item, events: seq<Event>, cutoff: Day, env: Env) {
    exists e, n :: e in events && e.id == item.event && FoundQueued(e, n, item.property, cutoff, env)
  }

  /** Operations `t + 1` on of the turn of one item all do their part. */
  predicate Unhindered(env: Env, t: nat, item: Item, cutoff: Day) {
    && !env.stops(t + 1) && env.configured(t + 1, item.property) == item.calendar
    && !env.stops(t + 2) && env.listing(t + 2, item.calendar).Some?
    && match Judge(env.listing(t + 2, item.calendar).value, item.event, item.property, cutoff)
       case Leave => true
       case Refuse => false
       case Forget => !env.stops(t + 3)
       case Remove => !env.stops(t + 3) && env.deletes(t + 3) && !env.stops(t + 4)
  }

  /** Some listing makes the judgement refuse the item. */
  ghost predicate MayBeRefused(env: Env, item: Item, cutoff: Day) {
    exists n :: RefusedAt(env, n, item, cutoff)
  }

  predicate RefusedAt(env: Env, n: nat, item: Item, cutoff: Day) {
    env.listing(n, item.calendar).Some?
    && Judge(env.listing(n, item.calendar).value, item.event, item.property, cutoff) == Refuse
  }

  ghost predicate NeverStops(env: Env) {
    forall n :: !env.stops(n)
  }

  /** Nothing stops, every call goes through, and the calendar stays the configured one. */
  ghost predicate Serves(env: Env, property: int, calendar: string) {
    && NeverStops(env) && (forall n :: env.deletes(n)) && (forall n :: env.listing(n, calendar).Some?)
    && forall n :: env.configured(n, property) == calendar
  }

  /** No listed event is ambiguous, and none that is to be queued may be refused. */
  ghost predicate Clear(env: Env, property: int, calendar: string, cutoff: Day) {
    forall n, k, e | env.listing(n, calendar).Some? && e in env.listing(n, calendar).value ::
      && !FoundAmbiguous(e, k, property, cutoff, env)
      && (FoundQueued(e, k, property, cutoff, env) ==> !MayBeRefused(env, Item(property, calendar, e.id), cutoff))
  }

  /** No item queued for the calendar may be refused. */
  ghost predicate NoneRefused(env: Env, items: map<int, Item>, property: int, calendar: string, cutoff: Day) {
    forall id | id in items && items[id].property == property && items[id].calendar == calendar ::
      !MayBeRefused(env, items[id], cutoff)
  }

  /** Nothing hinders the run for one property. */
  ghost predicate Untroubled(env: Env, states: map<int, State>, items: map<int, Item>, property: int) {
    && property in states && NeverStops(env)
    && (AllSpace(states[property].calendar) || Welcomes(env, states[property], items, property))
  }

  /** The configured calendar stays what it is; it is none, or it serves and has nothing in it that is refused. */
  ghost predicate Welcomes(env: Env, state: State, items: map<int, Item>, property: int) {
    var calendar := env.configured(0, property);
    && (forall n :: env.configured(n, property) == calendar)
    && (calendar == "" || (Serves(env, property, calendar) && Clear(env, property, calendar, state.cutoff)))
    && (calendar == state.calendar ==> NoneRefused(env, items, property, calendar, state.cutoff))
  }

  lemma ServedIsUnhindered(env: Env, t: nat, item: Item, cutoff: Day)
    requires Serves(env, item.property, item.calendar) && !MayBeRefused(env, item, cutoff)
    ensures Unhindered(env, t, item, cutoff)
  {
    assert !RefusedAt(env, t + 2, item, cutoff);
  }

  /** What discovery queues is not refused either. */
  lemma DiscoveredIsUnrefused(env: Env, n: nat, queue: map<int, Item>, items: map<int, Item>, property: int,
                              calendar: string, cutoff: Day)
    requires Clear(env, property, calendar, cutoff) && NoneRefused(env, queue, property, calendar, cutoff)
    requires env.listing(n, calendar).Some?
    requires forall id | id in queue :: id in items && items[id] == queue[id]
    requires forall id | id in items && id !in queue ::
               items[id].property == property && items[id].calendar == calendar
               && Sourced(items[id], env.listing(n, calendar).value, cutoff, env)
    ensures NoneRefused(env, items, property, calendar, cutoff)
  {
    hide MayBeRefused, FoundQueued, FoundAmbiguous;
    forall id | id in items && items[id].property == property && items[id].calendar == calendar
      ensures !MayBeRefused(env, items[id], cutoff)
    {
      if id !in queue {
        var e, k :| e in env.listing(n, calendar).value && e.id == items[id].event
                    && FoundQueued(e, k, property, cutoff, env);
        assert items[id] == Item(property, calendar, e.id);
      }
    }
  }

  // ---------- the queue of one property while it is worked off ----------

  /** Items are gone only once they were settled. */
  ghost predicate AllSettled(trace: seq<Action>, begun: nat, queue: map<int, Item>, items: map<int, Item>,
                             calendar: string) {
    forall id | id in queue && id !in items :: Settled(trace, begun, queue[id]) && queue[id].calendar == calendar
  }

  /** Items already looked at and still there are early. */
  ghost predicate AllEarly(trace: seq<Action>, begun: nat, items: map<int, Item>, rest: set<int>,
                           property: int, calendar: string, cutoff: Day) {
    forall id | id in items && id !in rest && items[id].property == property && items[id].calendar == calendar ::
      Early(trace, begun, items[id], cutoff)
  }

  /** Every listing of the item's calendar makes the judgement refuse it. */
  ghost predicate RefusedBy(env: Env, item: Item, cutoff: Day) {
    forall n | env.listing(n, item.calendar).Some? ::
      Judge(env.listing(n, item.calendar).value, item.event, item.property, cutoff) == Refuse
  }

  ghost predicate RefusedItem(env: Env, item: Item, property: int, calendar: string, cutoff: Day) {
    item.property == property && item.calendar == calendar && RefusedBy(env, item, cutoff)
  }

  /** Refused items are still to come. */
  ghost predicate RefusedRemain(env: Env, queue: map<int, Item>, rest: set<int>, property: int, calendar: string,
                                cutoff: Day) {
    forall id | id in queue && RefusedItem(env, queue[id], property, calendar, cutoff) :: id in rest
  }

  lemma SettledMore(before: seq<Action>, trace: seq<Action>, begun: nat, queue: map<int, Item>, prior: map<int, Item>,
                    items: map<int, Item>, id: int, calendar: string)
    requires before <= trace && begun <= |before| && id in queue && queue[id].calendar == calendar
    requires AllSettled(before, begun, queue, prior, calendar) && (items == prior || items == prior - {id})
    requires id !in items ==> Settled(trace, |before|, queue[id])
    ensures AllSettled(trace, begun, queue, items, calendar)
  {
    hide Settled;
    forall k | k in queue && k !in items
      ensures Settled(trace, begun, queue[k]) && queue[k].calendar == calendar
    {
      if k == id {
        SettledLonger(trace, trace, |before|, begun, queue[k]);
      } else {
        SettledLonger(before, trace, begun, begun, queue[k]);
      }
    }
  }

  lemma EarlyMore(before: seq<Action>, trace: seq<Action>, begun: nat, prior: map<int, Item>, items: map<int, Item>,
                  rest: set<int>, id: int, property: int, calendar: string, cutoff: Day)
    requires before <= trace && begun <= |before| && id in prior && (items == prior || items == prior - {id})
    requires AllEarly(before, begun, prior, rest, property, calendar, cutoff)
    requires id in items ==> Early(trace, |before|, items[id], cutoff)
    ensures AllEarly(trace, begun, items, rest - {id}, property, calendar, cutoff)
  {
    hide Early;
    forall k | k in items && k !in rest - {id} && items[k].property == property && items[k].calendar == calendar
      ensures Early(trace, begun, items[k], cutoff)
    {
      if k == id {
        EarlyLonger(trace, trace, |before|, begun, items[k], cutoff);
      } else {
        EarlyLonger(before, trace, begun, begun, items[k], cutoff);
      }
    }
  }

  lemma RefusedStay(env: Env, queue: map<int, Item>, prior: map<int, Item>, items: map<int, Item>, rest: set<int>,
                    id: int, property: int, calendar: string, cutoff: Day)
    requires RefusedRemain(env, queue, rest, property, calendar, cutoff) && forall k | k in rest :: k in prior
    requires items == prior || items == prior - {id}
    requires id in queue && (RefusedBy(env, queue[id], cutoff) ==> items == prior)
    ensures RefusedRemain(env, queue, items.Keys, property, calendar, cutoff)
  {
  }

  lemma RefusedNext(env: Env, queue: map<int, Item>, rest: set<int>, id: int, property: int, calendar: string,
                    cutoff: Day)
    requires RefusedRemain(env, queue, rest, property, calendar, cutoff)
    requires id in queue && !RefusedBy(env, queue[id], cutoff)
    ensures RefusedRemain(env, queue, rest - {id}, property, calendar, cutoff)
  {
  }

  /** The loop over the queue: what it has done to it, and what is still to come. */
  ghost predicate Underway(env: Env, trace: seq<Action>, begun: nat, queue: map<int, Item>, items: map<int, Item>,
                           rest: set<int>, property: int, calendar: string, cutoff: Day) {
    && Subqueue(queue, items, property)
    && (forall id | id in rest :: id in items && items[id].property == property && items[id].calendar == calendar)
    && AllSettled(trace, begun, queue, items, calendar)
    && AllEarly(trace, begun, items, rest, property, calendar, cutoff)
    && RefusedRemain(env, queue, rest, property, calendar, cutoff)
  }

  /** Only items of the property are gone. */
  predicate Subqueue(queue: map<int, Item>, items: map<int, Item>, property: int) {
    && (forall id | id in items :: id in queue && items[id] == queue[id])
    && (forall id | id in queue && id !in items :: queue[id].property == property)
  }

  lemma UnderwayBegins(env: Env, trace: seq<Action>, items: map<int, Item>, rest: set<int>,
                       property: int, calendar: string, cutoff: Day)
    requires forall id :: id in rest <==>
               id in items && items[id].property == property && items[id].calendar == calendar
    ensures Underway(env, trace, |trace|, items, items, rest, property, calendar, cutoff)
  {
  }

  lemma UnderwayEnds(env: Env, trace: seq<Action>, begun: nat, queue: map<int, Item>, items: map<int, Item>,
                     property: int, calendar: string, cutoff: Day)
    requires Underway(env, trace, begun, queue, items, {}, property, calendar, cutoff)
    ensures QueueTouched(property, queue, items) && forall id | id in items :: id in queue && items[id] == queue[id]
    ensures forall id | id in queue && id !in items ::
              Settled(trace, begun, queue[id]) && queue[id].calendar == calendar
    ensures forall id | id in items && items[id].property == property && items[id].calendar == calendar ::
              Early(trace, begun, items[id], cutoff)
    ensures forall id | id in queue && queue[id].property == property && queue[id].calendar == calendar ::
              !RefusedBy(env, queue[id], cutoff)
  {
    hide RefusedBy, Settled, Early;
    forall id | id in queue && queue[id].property == property && queue[id].calendar == calendar
      ensures !RefusedBy(env, queue[id], cutoff)
    {
      assert !RefusedItem(env, queue[id], property, calendar, cutoff);
    }
  }

  lemma NextIsQueued(env: Env, trace: seq<Action>, begun: nat, queue: map<int, Item>, items: map<int, Item>,
                     rest: set<int>, id: int, property: int, calendar: string, cutoff: Day)
    requires Underway(env, trace, begun, queue, items, rest, property, calendar, cutoff) && id in rest
    ensures id in items && id in queue && items[id] == queue[id]
    ensures items[id].property == property && items[id].calendar == calendar
  {
  }

  lemma UnderwayGoesOn(env: Env, before: seq<Action>, trace: seq<Action>, begun: nat, queue: map<int, Item>,
                       prior: map<int, Item>, items: map<int, Item>, rest: set<int>, id: int,
                       property: int, calendar: string, cutoff: Day)
    requires Underway(env, before, begun, queue, prior, rest, property, calendar, cutoff) && id in rest
    requires before <= trace && begun <= |before| && (items == prior || items == prior - {id})
    requires id in queue && !RefusedBy(env, queue[id], cutoff)
    requires id !in items ==> Settled(trace, |before|, queue[id])
    requires id in items ==> Early(trace, |before|, items[id], cutoff)
    ensures Underway(env, trace, begun, queue, items, rest - {id}, property, calendar, cutoff)
  {
    hide AllSettled, AllEarly, RefusedRemain, RefusedBy, Settled, Early;
    SettledMore(before, trace, begun, queue, prior, items, id, calendar);
    EarlyMore(before, trace, begun, prior, items, rest, id, property, calendar, cutoff);
    RefusedNext(env, queue, rest, id, property, calendar, cutoff);
  }

  lemma UnderwayStops(env: Env, before: seq<Action>, trace: seq<Action>, begun: nat, queue: map<int, Item>,
                      prior: map<int, Item>, items: map<int, Item>, rest: set<int>, id: int,
                      property: int, calendar: string, cutoff: Day)
    requires Underway(env, before, begun, queue, prior, rest, property, calendar, cutoff) && id in rest
    requires before <= trace && begun <= |before| && (items == prior || items == prior - {id})
    requires id in queue && (RefusedBy(env, queue[id], cutoff) ==> items == prior)
    requires id !in items ==> Settled(trace, |before|, queue[id])
    ensures QueueTouched(property, queue, items) && forall id | id in items :: id in queue && items[id] == queue[id]
    ensures forall id | id in queue && id !in items ::
              Settled(trace, begun, queue[id]) && queue[id].calendar == calendar
    ensures forall id | id in queue && queue[id].property == property && queue[id].calendar == calendar
              && RefusedBy(env, queue[id], cutoff) :: id in items
  {
    hide RefusedBy, Settled, Early;
    SettledMore(before, trace, begun, queue, prior, items, id, calendar);
    RefusedStay(env, queue, prior, items, rest, id, property, calendar, cutoff);
  }

  // ---------- items no run gets rid of ----------


  /** Item `id` and, of its property's row, the calendar and the cutoff. */
  predicate Fixed(states: map<int, State>, states': map<int, State>, items: map<int, Item>, items': map<int, Item>,
                  id: int) {
    && id in items && id in items' && items'[id] == items[id] && items[id].property in states
    && items[id].property in states'
    && states'[items[id].property].calendar == states[items[id].property].calendar
    && states'[items[id].property].cutoff == states[items[id].property].cutoff
  }

  /** The calendar stored for the property stays the configured one. */
  ghost predicate Steady(states: map<int, State>, property: int, env: Env) {
    property in states && !Blank(states[property].calendar)
    && forall n :: env.configured(n, property) == states[property].calendar
  }

  /** The item was queued for another calendar than the one stored and configured. */
  ghost predicate Stranded(states: map<int, State>, items: map<int, Item>, id: int, env: Env) {
    id in items && Steady(states, items[id].property, env) && items[id].calendar != states[items[id].property].calendar
  }

  /** The item was queued for the calendar stored and configured, and is refused. */
  ghost predicate Stuck(states: map<int, State>, items: map<int, Item>, id: int, env: Env) {
    id in items && Steady(states, items[id].property, env) && items[id].calendar == states[items[id].property].calendar
    && RefusedBy(env, items[id], states[items[id].property].cutoff)
  }

  lemma StrandedMoves(states: map<int, State>, states': map<int, State>, items: map<int, Item>, items': map<int, Item>,
                      id: int, env: Env)
    requires Stranded(states, items, id, env) && Fixed(states, states', items, items', id)
    ensures Stranded(states', items', id, env)
  {
  }

  /** Every stranded and every stuck item is where it was, under the same calendar and cutoff. */
  ghost predicate Stays(env: Env, states: map<int, State>, states': map<int, State>, items: map<int, Item>,
                        items': map<int, Item>) {
    forall id | Stranded(states, items, id, env) || Stuck(states, items, id, env) ::
      Fixed(states, states', items, items', id)
  }

  lemma StaysAtFirst(env: Env, states: map<int, State>, items: map<int, Item>)
    ensures Stays(env, states, states, items, items)
  {
  }

  lemma StaysOn(env: Env, states: map<int, State>, states1: map<int, State>, states': map<int, State>,
                items: map<int, Item>, items1: map<int, Item>, items': map<int, Item>)
    requires Stays(env, states, states1, items, items1) && Stays(env, states1, states', items1, items')
    ensures Stays(env, states, states', items, items')
  {
    hide Stranded, Stuck;
    forall id | Stranded(states, items, id, env) || Stuck(states, items, id, env)
      ensures Fixed(states, states', items, items', id)
    {
      if Stranded(states, items, id, env) {
        StrandedMoves(states, states1, items, items1, id, env);
      } else {
        StuckMoves(states, states1, items, items1, id, env);
      }
    }
  }

  /** Nothing of a steady property changed, and nothing of any other. */
  lemma UnchangedStays(env: Env, states: map<int, State>, states': map<int, State>, items: map<int, Item>,
                       items': map<int, Item>, property: int)
    requires Touched(property, states, states') && QueueTouched(property, items, items')
    requires (forall id | id in items :: items[id].property in states)
    requires Steady(states, property, env) ==> states' == states && items' == items
    ensures Stays(env, states, states', items, items')
  {
    hide RefusedBy;
  }

  /** Of a steady property, only items of its calendar are gone, and none that is refused. */
  lemma SweepingStays(env: Env, states: map<int, State>, states': map<int, State>, items: map<int, Item>,
                      items': map<int, Item>, property: int, calendar: string)
    requires Touched(property, states, states') && QueueTouched(property, items, items')
    requires property in states && states'[property].calendar == states[property].calendar == calendar
    requires forall id | id in items :: items[id].property in states
    requires forall id | id in items && id in items' :: items'[id] == items[id]
    requires forall id | id in items && id !in items' :: items[id].calendar == calendar
    requires forall id | id in items && items[id].property == property && items[id].calendar == calendar
               && RefusedBy(env, items[id], states[property].cutoff) :: id in items'
    ensures Stays(env, states, states', items, items')
  {
    hide RefusedBy;
  }

  /** A property is not steady without a stored calendar, and none of its items is stuck if none is refused. */
  lemma NotStuck(env: Env, states: map<int, State>, items: map<int, Item>, property: int)
    requires property in states
    requires Steady(states, property, env) ==>
               forall id | id in items && items[id].property == property
                           && items[id].calendar == states[property].calendar ::
                 !RefusedBy(env, items[id], states[property].cutoff)
    ensures forall id | Stuck(states, items, id, env) :: items[id].property != property
  {
    hide RefusedBy;
  }

  lemma BlankIsNotSteady(env: Env, states: map<int, State>, property: int)
    requires property in states && Blank(states[property].calendar)
    ensures !Steady(states, property, env)
  {
    hide Blank;
  }

  /** Every stuck item is of a property whose turn is to come. */
  ghost predicate StuckAhead(env: Env, states: map<int, State>, items: map<int, Item>, rest: set<int>) {
    forall id | Stuck(states, items, id, env) :: items[id].property in rest
  }

  lemma StuckStillAhead(env: Env, states: map<int, State>, states1: map<int, State>, items: map<int, Item>,
                        items1: map<int, Item>, rest: set<int>, property: int)
    requires StuckAhead(env, states, items, rest) && Stays(env, states, states1, items, items1)
    requires forall id | Stuck(states1, items1, id, env) :: items1[id].property != property
    ensures StuckAhead(env, states, items, rest - {property})
  {
    hide Stuck, Stranded;
    forall id | Stuck(states, items, id, env)
      ensures items[id].property in rest - {property}
    {
      StuckMoves(states, states1, items, items1, id, env);
    }
  }

  lemma StuckMoves(states: map<int, State>, states': map<int, State>, items: map<int, Item>, items': map<int, Item>,
                   id: int, env: Env)
    requires Stuck(states, items, id, env) && Fixed(states, states', items, items', id)
    ensures Stuck(states', items', id, env)
  {
  }

  /** An event queued only because of a local row, and listed unchanged ever after, is refused. */
  lemma UnchangedIsRefused(env: Env, item: Item, e: Event, cutoff: Day, localRaw: bool, localNamed: bool)
    requires Discover(e, item.property, cutoff, localRaw, localNamed) == Queue && !MarkedRaw(e, item.property)
    requires e.id == item.event
    requires forall n | env.listing(n, item.calendar).Some? :: FirstWith(env.listing(n, item.calendar).value, e)
    ensures RefusedBy(env, item, cutoff)
  {
    forall n | env.listing(n, item.calendar).Some?
      ensures Judge(env.listing(n, item.calendar).value, item.event, item.property, cutoff) == Refuse
    {
      QueuedIsRemovedExactly(env.listing(n, item.calendar).value, e, item.property, cutoff, localRaw, localNamed);
    }
  }

  /** The command finds, and leaves, the property with this calendar. */
  ghost predicate KeepsCalendar(c: Command, property: int, calendar: string) {
    match c
    case Preparing(rows, _) => forall r | r in rows && r.property == property :: r.calendar == calendar
    case Running(env) => forall n :: env.configured(n, property) == calendar
  }

  lemma {:induction false} RefreshingTheSame(states: map<int, State>, rows: seq<Candidate>, property: int,
                                             calendar: string)
    requires property in states && states[property].calendar == calendar
    requires forall r | r in rows && r.property == property :: r.calendar == calendar
    ensures property in AllRefreshed(states, rows) && AllRefreshed(states, rows)[property].calendar == calendar
    ensures AllRefreshed(states, rows)[property].cutoff == states[property].cutoff
  {
    if rows != [] {
      RefreshingTheSame(states, rows[..|rows| - 1], property, calendar);
      assert rows[|rows| - 1] in rows;
    }
  }

  /** An item left by a run: its event was listed before the cutoff, or it was queued for another calendar. */
  ghost predicate Lingers(states0: map<int, State>, items0: map<int, Item>, begun: nat, state: State, item: Item,
                          id: int, trace: seq<Action>) {
    || Early(trace, begun, item, state.cutoff)
    || (id in items0 && items0[id] == item && item.property in states0
        && states0[item.property].calendar == state.calendar && item.calendar != state.calendar)
  }

  /**
   * The row of a property after its turn: without a calendar it is complete, with a note; otherwise it has the
   * configured calendar and is complete exactly if nothing of it is queued.
   */
  ghost predicate Marked(before: State, after: State, items: map<int, Item>, env: Env, property: int) {
    var done := forall id | id in items :: items[id].property != property;
    if AllSpace(before.calendar) then done && after == before.(phase := Complete, noted := true)
    else exists n ::
           && after == before.(calendar := env.configured(n, property), phase := if done then Complete else Discovered,
                               noted := env.configured(n, property) == "")
           && (env.configured(n, property) == "" ==> done)
  }

  /**
   * What a run makes of a property that was not complete when it began: complete or with items that linger; when it has
   * a calendar and is complete now, every wanted event of a listing made by this run is settled.
   */
  ghost predicate Swept(states0: map<int, State>, items0: map<int, Item>, begun: nat, states: map<int, State>,
                        items: map<int, Item>, trace: seq<Action>, env: Env, property: int) {
    && property in states && property in states0 && Marked(states0[property], states[property], items, env, property)
    && (states[property].phase == Complete && !AllSpace(states[property].calendar) ==>
          exists i | begun <= i < |trace| ::
            CleanedSince(trace, i, property, states[property].calendar, states[property].cutoff))
    && forall id | id in items && items[id].property == property ::
         Lingers(states0, items0, begun, states[property], items[id], id, trace)
  }

  /** A property that is complete without a calendar is swept. */
  lemma ClosedIsSwept(states0: map<int, State>, items0: map<int, Item>, begun: nat, states: map<int, State>,
                      items: map<int, Item>, trace: seq<Action>, env: Env, property: int)
    requires property in states && property in states0 && (forall id | id in items :: items[id].property != property)
    requires if AllSpace(states0[property].calendar)
             then states[property] == states0[property].(phase := Complete, noted := true)
             else states[property] == states0[property].(calendar := "", phase := Complete, noted := true)
                  && exists n :: "" == env.configured(n, property)
    ensures Swept(states0, items0, begun, states, items, trace, env, property)
  {
  }

  /** So is one whose events under the configured calendar are settled or early. */
  lemma CheckedIsSwept(states0: map<int, State>, items0: map<int, Item>, begun: nat, states: map<int, State>,
                       items: map<int, Item>, trace: seq<Action>, env: Env, property: int, later: nat, calendar: string)
    requires property in states && property in states0 && begun <= later
    requires !AllSpace(states0[property].calendar) && calendar != ""
             && exists n :: calendar == env.configured(n, property)
    requires states[property] == states0[property].(
               calendar := calendar,
               phase := if exists id | id in items :: items[id].property == property then Discovered else Complete,
               noted := false)
    requires states[property].phase == Complete ==>
               exists i | later <= i < |trace| ::
                    CleanedSince(trace, i, property, calendar, states[property].cutoff)
    requires forall id | id in items && items[id].property == property ::
               if items[id].calendar == calendar then Early(trace, later, items[id], states[property].cutoff)
               else id in items0 && items0[id] == items[id] && states0[property].calendar == calendar
    ensures Swept(states0, items0, begun, states, items, trace, env, property)
  {
    hide CleanedSince, AllSpace, Early;
    forall id | id in items && items[id].property == property
      ensures Lingers(states0, items0, begun, states[property], items[id], id, trace)
    {
      if items[id].calendar == calendar {
        EarlyLonger(trace, trace, later, begun, items[id], states[property].cutoff);
      }
    }
  }

  lemma CleanedLonger(trace: seq<Action>, longer: seq<Action>, i: nat, property: int, calendar: string, cutoff: Day)
    requires i < |trace| && trace <= longer && CleanedSince(trace, i, property, calendar, cutoff)
    ensures CleanedSince(longer, i, property, calendar, cutoff)
  {
    hide Wanted, Settled;
    forall e | e in longer[i].events && Wanted(e, property, cutoff)
      ensures Settled(longer, i, Item(property, calendar, e.id))
    {
      SettledLonger(trace, longer, i, i, Item(property, calendar, e.id));
    }
  }

  /** Swept by its own turn is swept by the run: the turn found the property as the run did. */
  lemma SweptFromStart(states0: map<int, State>, items0: map<int, Item>, begun: nat, states1: map<int, State>,
                       items1: map<int, Item>, later: nat, states: map<int, State>, items: map<int, Item>,
                       trace: seq<Action>, env: Env, property: int)
    requires Swept(states1, items1, later, states, items, trace, env, property) && begun <= later
    requires property in states0 && property in states1 && states1[property] == states0[property]
    requires forall id | id in items1 && items1[id].property == property :: id in items0 && items0[id] == items1[id]
    ensures Swept(states0, items0, begun, states, items, trace, env, property)
  {
    hide CleanedSince, AllSpace, Early;
    forall id | id in items && items[id].property == property
      ensures Lingers(states0, items0, begun, states[property], items[id], id, trace)
    {
      if Early(trace, later, items[id], states[property].cutoff) {
        EarlyLonger(trace, trace, later, begun, items[id], states[property].cutoff);
      }
    }
  }

  /** Working on another property afterwards changes nothing of it. */
  lemma SweptStays(states0: map<int, State>, items0: map<int, Item>, begun: nat, states: map<int, State>,
                   states': map<int, State>, items: map<int, Item>, items': map<int, Item>, trace: seq<Action>,
                   trace': seq<Action>, env: Env, property: int, other: int)
    requires Swept(states0, items0, begun, states, items, trace, env, property) && property != other
    requires Touched(other, states, states') && QueueTouched(other, items, items') && trace <= trace'
    ensures Swept(states0, items0, begun, states', items', trace', env, property)
  {
    hide CleanedSince, Early, AllSpace;
    if i :|
       begun <= i < |trace| && CleanedSince(trace, i, property, states[property].calendar, states[property].cutoff) {
      CleanedLonger(trace, trace', i, property, states[property].calendar, states[property].cutoff);
    }
    forall id | id in items' && items'[id].property == property
      ensures Lingers(states0, items0, begun, states'[property], items'[id], id, trace')
    {
      if Early(trace, begun, items[id], states[property].cutoff) {
        EarlyLonger(trace, trace', begun, begun, items[id], states[property].cutoff);
      }
    }
  }

  // ---------- a run over all properties ----------

  /** The properties whose turn is over are swept. */
  ghost predicate AllSwept(states0: map<int, State>, items0: map<int, Item>, begun: nat, states: map<int, State>,
                           items: map<int, Item>, trace: seq<Action>, env: Env, rest: set<int>) {
    forall p | p in states0 && states0[p].phase != Complete && p !in rest ::
      Swept(states0, items0, begun, states, items, trace, env, p)
  }

  /** The properties whose turn is to come are as the run found them, and so are those complete before. */
  ghost predicate Pending(states0: map<int, State>, items0: map<int, Item>, states: map<int, State>,
                          items: map<int, Item>, rest: set<int>) {
    && states.Keys == states0.Keys
    && (forall p | p in states0 && (p in rest || states0[p].phase == Complete) :: states[p] == states0[p])
    && (forall p | p in rest :: p in states0 && states0[p].phase != Complete)
    && (forall id | id in items0 && items0[id].property in rest :: id in items && items[id] == items0[id])
    && (forall id | id in items && items[id].property in rest :: id in items0 && items0[id] == items[id])
  }

  lemma AllSweptGoesOn(states0: map<int, State>, items0: map<int, Item>, begun: nat, states1: map<int, State>,
                       states: map<int, State>, items1: map<int, Item>, items: map<int, Item>, trace1: seq<Action>,
                       trace: seq<Action>, env: Env, rest: set<int>, property: int)
    requires AllSwept(states0, items0, begun, states1, items1, trace1, env, rest)
    requires Pending(states0, items0, states1, items1, rest) && property in rest
    requires begun <= |trace1| && trace1 <= trace
    requires Touched(property, states1, states) && QueueTouched(property, items1, items)
    requires Swept(states1, items1, |trace1|, states, items, trace, env, property)
    ensures AllSwept(states0, items0, begun, states, items, trace, env, rest - {property})
  {
    hide Swept;
    SweptFromStart(states0, items0, begun, states1, items1, |trace1|, states, items, trace, env, property);
    forall p | p in states0 && states0[p].phase != Complete && p !in rest
      ensures Swept(states0, items0, begun, states, items, trace, env, p)
    {
      SweptStays(states0, items0, begun, states1, states, items1, items, trace1, trace, env, p, property);
    }
  }

  lemma PendingGoesOn(states0: map<int, State>, items0: map<int, Item>, states1: map<int, State>,
                      states: map<int, State>, items1: map<int, Item>, items: map<int, Item>, rest: set<int>,
                      property: int)
    requires Pending(states0, items0, states1, items1, rest) && property in rest
    requires Touched(property, states1, states) && QueueTouched(property, items1, items)
    ensures Pending(states0, items0, states, items, rest - {property})
    ensures CutoffsKept(states0, states1) ==> CutoffsKept(states0, states)
  {
  }

  lemma PendingIsThere(states0: map<int, State>, items0: map<int, Item>, states: map<int, State>,
                       items: map<int, Item>, rest: set<int>, property: int)
    requires Pending(states0, items0, states, items, rest)
    ensures states.Keys == states0.Keys
    ensures forall p | p in states0 && states0[p].phase == Complete :: states[p] == states0[p]
    ensures property in rest ==>
              property in states && states[property].phase != Complete && states0[property].phase != Complete
  {
  }

  lemma RunBegins(env: Env, states: map<int, State>, items: map<int, Item>, begun: nat, trace: seq<Action>,
                  rest: set<int>)
    requires forall p :: p in rest <==> p in states && states[p].phase != Complete
    requires forall id | id in items :: items[id].property in states && states[items[id].property].phase != Complete
    ensures Pending(states, items, states, items, rest)
            && AllSwept(states, items, begun, states, items, trace, env, rest)
    ensures Stays(env, states, states, items, items) && StuckAhead(env, states, items, rest)
  {
    StaysAtFirst(env, states, items);
  }

  lemma RunEnds(env: Env, states0: map<int, State>, items0: map<int, Item>, begun: nat, states: map<int, State>,
                items: map<int, Item>, trace: seq<Action>)
    requires Pending(states0, items0, states, items, {}) && StuckAhead(env, states0, items0, {})
    requires AllSwept(states0, items0, begun, states, items, trace, env, {})
    ensures states.Keys == states0.Keys
    ensures forall p | p in states0 && states0[p].phase == Complete :: states[p] == states0[p]
    ensures forall p | p in states0 && states0[p].phase != Complete ::
              Swept(states0, items0, begun, states, items, trace, env, p)
    ensures forall id :: !Stuck(states0, items0, id, env)
  {
    hide Swept, Stuck;
  }

  /** The turn of a property meets the same trouble as the run would have. */
  lemma UntroubledInTurn(env: Env, states0: map<int, State>, states: map<int, State>, items0: map<int, Item>,
                         items: map<int, Item>, rest: set<int>, property: int)
    requires Pending(states0, items0, states, items, rest) && property in rest
    ensures Untroubled(env, states, items, property) <==> Untroubled(env, states0, items0, property)
  {
    hide Serves, Clear, MayBeRefused, AllSpace;
    assert NoneRefused(env, items, property, env.configured(0, property), states[property].cutoff)
      <==> NoneRefused(env, items0, property, env.configured(0, property), states[property].cutoff);
  }

  class Runner {
    var states: map<int, State>
    var items: map<int, Item>
    var nextItem: int
    var clock: nat
    ghost var trace: seq<Action>

    ghost predicate Valid()
      reads this
    {
      && SafeHistory(trace) && ByCutoff(trace, states) && Unrepeated(items)
      && (forall id | id in items :: id < nextItem && items[id].property in states
                                     && states[items[id].property].phase != Complete)
    }

    constructor ()
      ensures Valid() && states == map[] && items == map[]
    {
      states, items, nextItem, clock, trace := map[], map[], 1, 0, [];
    }

    /** The next operation begins; it may be the one at which the process stops. */
    method Tick(env: Env) returns (stop: bool)
      modifies this`clock
      ensures clock == old(clock) + 1 && stop == env.stops(clock)
    {
      clock := clock + 1;
      stop := env.stops(clock);
    }

    /** Insert or refresh one state row: a conflict refreshes the calendar and nothing else. */
    method PrepareOne(c: Candidate, env: Env) returns (ended: Ended)
      requires Valid()
      modifies this`states, this`clock
      ensures Valid() && states == if ended == Fine then Refreshed(old(states), c) else old(states)
      ensures ended == Fine <==> c.zoneKnown && !env.stops(old(clock) + 1)
    {
      if !c.zoneKnown {
        return Failed;
      }
      var stop := Tick(env);
      if stop {
        return Stopped;
      }
      if c.property in states {
        states := states[c.property := states[c.property].(calendar := c.calendar)];
      } else {
        states := states[c.property := State(c.today, c.calendar, Prepared, false)];
      }
      return Fine;
    }

    /** However far it gets, preparing writes the rows before that point, one by one, and never a second cutoff. */
    method Prepare(rows: seq<Candidate>, env: Env) returns (ended: Ended, done: nat)
      requires Valid()
      modifies this`states, this`clock
      ensures Valid() && CutoffsKept(old(states), states)
      ensures done <= |rows| && (ended == Fine <==> done == |rows|)
      ensures states == AllRefreshed(old(states), rows[..done])
    {
      for n := 0 to |rows|
        invariant Valid() && states == AllRefreshed(old(states), rows[..n])
      {
        ended := PrepareOne(rows[n], env);
        RefreshingKeepsCutoffs(old(states), rows[..n]);
        if ended != Fine {
          return ended, n;
        }
        assert rows[..n + 1][..n] == rows[..n];
      }
      RefreshingKeepsCutoffs(old(states), rows[..|rows|]);
      return Fine, |rows|;
    }

    method DropItems(property: int)
      requires Valid()
      modifies this`items
      ensures Valid() && QueueTouched(property, old(items), items)
              && forall id | id in items :: items[id].property != property
    {
      items := map id | id in items && items[id].property != property :: items[id];
    }

    method SetPhase(property: int, calendar: string, phase: Phase, noted: bool)
      requires Valid() && property in states
      requires phase == Complete ==> forall id | id in items :: items[id].property != property
      modifies this`states
      ensures Valid() && Touched(property, old(states), states)
      ensures states[property] == old(states)[property].(phase := phase, calendar := calendar, noted := noted)
    {
      states := states[property := states[property].(phase := phase, calendar := calendar, noted := noted)];
    }

    method RecordError(property: int, env: Env)
      requires Valid() && property in states
      modifies this`states, this`clock
      ensures Valid() && Touched(property, old(states), states)
      ensures exists noted :: states[property] == old(states)[property].(noted := noted)
      ensures NeverStops(env) ==> states[property].noted
    {
      var stop := Tick(env);
      if !stop {
        states := states[property := states[property].(noted := true)];
      }
    }

    method CompleteNoCalendar(property: int, env: Env) returns (ended: Ended)
      requires Valid() && property in states
      modifies this`states, this`items, this`clock
      ensures Valid() && Touched(property, old(states), states) && QueueTouched(property, old(items), items)
      ensures states[property].calendar == old(states)[property].calendar
      ensures ended == Fine ==> states[property] == old(states)[property].(phase := Complete, noted := true)
      ensures NeverStops(env) ==> ended == Fine
    {
      var stop := Tick(env);
      if stop {
        return Stopped;
      }
      DropItems(property);
      stop := Tick(env);
      if stop {
        return Stopped;
      }
      SetPhase(property, states[property].calendar, Complete, true);
      return Fine;
    }

    /** Queue one event under the next number. */
    method Enqueue(item: Item)
      requires Valid() && item.property in states && states[item.property].phase != Complete && !Queued(items, item)
      modifies this`items, this`nextItem
      ensures Valid() && QueueTouched(item.property, old(items), items)
      ensures Queued(items, item) && forall other :: Queued(old(items), other) ==> Queued(items, other)
      ensures old(nextItem) !in old(items) && items == old(items)[old(nextItem) := item]
    {
      items := items[nextItem := item];
      nextItem := nextItem + 1;
      assert nextItem - 1 in items && items[nextItem - 1] == item;
      forall other | Queued(old(items), other)
        ensures Queued(items, other)
      {
        var id :| id in old(items) && old(items)[id] == other;
        assert id in items && items[id] == other;
      }
    }

    /** Queue the listed events that are ours to clean. */
    method DiscoverAll(property: int, calendar: string, events: seq<Event>, env: Env) returns (ended: Ended)
      requires Valid() && property in states && states[property].phase != Complete
      modifies this`items, this`nextItem, this`clock
      ensures Valid() && QueueTouched(property, old(items), items)
      ensures ended == Fine ==> forall e | e in events && Wanted(e, property, states[property].cutoff) ::
                                  Queued(items, Item(property, calendar, e.id)) && !e.named
      ensures forall id | id in old(items) :: id in items && items[id] == old(items)[id]
      ensures forall id | id in items && id !in old(items) ::
                items[id].property == property && items[id].calendar == calendar
                && Sourced(items[id], events, states[property].cutoff, env)
      ensures ended == Fine ==> forall e | e in events && SurelyQueued(e, property, states[property].cutoff, env) ::
                                  Queued(items, Item(property, calendar, e.id))
      ensures ended == Stopped ==> exists n :: env.stops(n)
      ensures ended == Failed ==>
                exists e, n :: e in events && FoundAmbiguous(e, n, property, states[property].cutoff, env)
    {
      hide Blank, SafeHistory, ByCutoff;
      for n := 0 to |events|
        invariant Valid() && QueueTouched(property, old(items), items)
        invariant forall k | 0 <= k < n && Wanted(events[k], property, states[property].cutoff) ::
                    Queued(items, Item(property, calendar, events[k].id)) && !events[k].named
        invariant forall k | 0 <= k < n && SurelyQueued(events[k], property, states[property].cutoff, env) ::
                    Queued(items, Item(property, calendar, events[k].id))
        invariant forall id | id in old(items) :: id in items && items[id] == old(items)[id]
        invariant forall id | id in items && id !in old(items) ::
                    items[id].property == property && items[id].calendar == calendar
                    && Sourced(items[id], events, states[property].cutoff, env)
      {
        var e := events[n];
        var stop := Tick(env);
        if stop {
          return Stopped;
        }
        var finding := Discover(e, property, states[property].cutoff, env.localRaw(clock, e.id),
                                env.localNamed(clock, e.id));
        DiscoveryIsExact(e, clock, property, states[property].cutoff, env);
        ghost var asked := clock;
        if finding == Ambiguous {
          return Failed;
        }
        if finding == Queue && !Queued(items, Item(property, calendar, e.id)) {
          stop := Tick(env);
          if stop {
            return Stopped;
          }
          assert Sourced(Item(property, calendar, e.id), events, states[property].cutoff, env) by {
            assert e in events && FoundQueued(e, asked, property, states[property].cutoff, env);
          }
          Enqueue(Item(property, calendar, e.id));
        }
      }
      return Fine;
    }

    /** A fresh reading of the configured calendar and a fresh listing of it. */
    method Look(item: Item, env: Env) returns (ended: Ended, events: seq<Event>)
      requires Valid()
      modifies this`trace, this`clock
      ensures Valid() && old(trace) <= trace
      ensures ended == Fine ==> && trace == old(trace) + [Read(item.property, item.calendar),
                                                          Listed(item.property, item.calendar, events)]
                                && clock == old(clock) + 2 && env.listing(clock, item.calendar) == Some(events)
      ensures NeverStops(env) ==> ended != Stopped
      ensures ended == Fine <==> && !env.stops(old(clock) + 1) && !env.stops(old(clock) + 2)
                                 && env.configured(old(clock) + 1, item.property) == item.calendar
                                 && env.listing(old(clock) + 2, item.calendar).Some?
    {
      events := [];
      var stop := Tick(env);
      if stop {
        return Stopped, events;
      }
      LookingIsSafe(trace, Read(item.property, env.configured(clock, item.property)), states);
      trace := trace + [Read(item.property, env.configured(clock, item.property))];
      if env.configured(clock, item.property) != item.calendar {
        return Failed, events;
      }
      stop := Tick(env);
      if stop {
        return Stopped, events;
      }
      var listing := env.listing(clock, item.calendar);
      if listing.None? {
        return Failed, events;
      }
      events := listing.value;
      LookingIsSafe(trace, Listed(item.property, item.calendar, events), states);
      trace := trace + [Listed(item.property, item.calendar, events)];
      return Fine, events;
    }

    /**
     * Judge one queued event by a fresh reading and a fresh listing. A turn that ends without error leaves the item
     * exactly if the listing has its event before the cutoff, and deletes the event exactly if the listing shows it as
     * ours.
     */
    method DeleteOne(id: int, item: Item, env: Env) returns (ended: Ended, ghost events: seq<Event>)
      requires Valid() && item.property in states && id in items && items[id] == item
      modifies this`trace, this`clock, this`items
      ensures Valid() && old(trace) <= trace
      ensures items == old(items) || items == old(items) - {id}
      ensures NeverStops(env) ==> ended != Stopped
      ensures ended == Fine <==> Unhindered(env, old(clock), item, states[item.property].cutoff)
      ensures ended == Fine ==>
                var cutoff := states[item.property].cutoff;
                && (id in items <==> EarlyAt(Listed(item.property, item.calendar, events), item, cutoff))
                && trace == old(trace)
                            + [Read(item.property, item.calendar), Listed(item.property, item.calendar, events)]
                            + if ShownAsOurs(events, item.event, item.property, cutoff)
                              then [Deleted(item.property, item.calendar, item.event, cutoff, true)] else []
      ensures id !in items ==> Settled(trace, |old(trace)|, item)
      ensures ended == Fine && id in items ==> Early(trace, |old(trace)|, item, states[item.property].cutoff)
      ensures RefusedBy(env, item, states[item.property].cutoff) ==> ended != Fine && items == old(items)
    {
      hide SafeHistory, ByCutoff, ShownAsOurs, EarlyAt;
      ghost var cutoff := states[item.property].cutoff;
      var listing;
      ended, listing := Look(item, env);
      events := listing;
      if ended != Fine {
        return;
      }
      var verdict := Judge(listing, item.event, item.property, states[item.property].cutoff);
      LeftIsEarly(listing, item, cutoff);
      RemoveMeansOurs(listing, item.event, item.property, cutoff);
      if verdict == Leave {
        assert EarlyAt(trace[|trace| - 1], item, cutoff);
        return Fine, events;
      }
      if verdict == Refuse {
        return Failed, events;
      }
      var stop;
      if verdict == Remove {
        stop := Tick(env);
        if stop {
          return Stopped, events;
        }
        DeletingIsSafe(trace, item, listing, states, env.deletes(clock));
        trace := trace + [Deleted(item.property, item.calendar, item.event, cutoff, env.deletes(clock))];
        if !env.deletes(clock) {
          return Failed, events;
        }
      }
      stop := Tick(env);
      if stop {
        return Stopped, events;
      }
      items := items - {id};
      JudgedIsSettled(listing, item, cutoff);
      assert SettledAt(trace[|trace| - 1], item);
      return Fine, events;
    }

    /**
     * Every queued event of the calendar is settled, or left in the queue because it was listed before the cutoff; one
     * queued for another calendar is not looked at.
     */
    method DeleteQueued(property: int, calendar: string, env: Env) returns (ended: Ended)
      requires Valid() && property in states
      modifies this`trace, this`clock, this`items
      ensures Valid() && old(trace) <= trace && QueueTouched(property, old(items), items)
      ensures forall id | id in items :: id in old(items) && items[id] == old(items)[id]
      ensures forall id | id in old(items) && id !in items ::
                Settled(trace, |old(trace)|, old(items)[id]) && old(items)[id].calendar == calendar
      ensures ended == Fine ==>
                forall id | id in items && items[id].property == property && items[id].calendar == calendar ::
                                  Early(trace, |old(trace)|, items[id], states[property].cutoff)
      ensures forall id | id in old(items) && old(items)[id].property == property && old(items)[id].calendar == calendar
                && RefusedBy(env, old(items)[id], states[property].cutoff) :: ended != Fine && id in items
      ensures NeverStops(env) ==> ended != Stopped
      ensures Serves(env, property, calendar)
              && NoneRefused(env, old(items), property, calendar, states[property].cutoff)
              ==> ended == Fine
    {
      hide Underway, SafeHistory, ByCutoff, RefusedBy, Settled, Early, QueueTouched, Serves, MayBeRefused, Unhindered,
        ShownAsOurs, EarlyAt;
      ghost var cutoff := states[property].cutoff;
      var rest := set id | id in items && items[id].property == property && items[id].calendar == calendar;
      UnderwayBegins(env, trace, items, rest, property, calendar, cutoff);
      while rest != {}
        invariant Valid() && old(trace) <= trace
        invariant Underway(env, trace, |old(trace)|, old(items), items, rest, property, calendar, cutoff)
        decreases |rest|
      {
        var id := Pick(rest);
        ghost var before, prior := trace, items;
        NextIsQueued(env, trace, |old(trace)|, old(items), items, rest, id, property, calendar, cutoff);
        if Serves(env, property, calendar) && NoneRefused(env, old(items), property, calendar, cutoff) {
          ServedIsUnhindered(env, clock, items[id], cutoff);
        }
        ghost var events;
        ended, events := DeleteOne(id, items[id], env);
        if ended != Fine {
          UnderwayStops(env, before, trace, |old(trace)|, old(items), prior, items, rest, id, property, calendar,
                        cutoff);
          return;
        }
        UnderwayGoesOn(env, before, trace, |old(trace)|, old(items), prior, items, rest, id, property, calendar,
                       cutoff);
        rest := rest - {id};
      }
      UnderwayEnds(env, trace, |old(trace)|, old(items), items, property, calendar, cutoff);
      return Fine;
    }

    /** Adopt the configured calendar; a change empties the property's queue. */
    method Rebind(property: int, stored: string, env: Env) returns (ended: Ended, calendar: string)
      requires Valid() && property in states && states[property].phase != Complete
               && states[property].calendar == stored
      modifies this
      ensures Valid() && Touched(property, old(states), states) && old(trace) <= trace
              && QueueTouched(property, old(items), items)
      ensures states[property].phase != Complete
      ensures ended == Fine ==>
                states[property] == if calendar == stored then old(states)[property]
                                    else old(states)[property].(calendar := calendar, phase := Prepared)
      ensures ended == Fine && calendar == stored ==> items == old(items)
      ensures ended == Fine && calendar != stored ==> forall id | id in items :: items[id].property != property
      ensures Steady(old(states), property, env) ==> items == old(items) && states == old(states)
                                                     && (ended == Fine ==> calendar == stored)
      ensures ended == Fine ==> exists n :: calendar == env.configured(n, property)
      ensures NeverStops(env) ==> ended == Fine
    {
      calendar := stored;
      var stop := Tick(env);
      if stop {
        return Stopped, calendar;
      }
      calendar := env.configured(clock, property);
      LookingIsSafe(trace, Read(property, calendar), states);
      trace := trace + [Read(property, calendar)];
      if calendar != stored {
        stop := Tick(env);
        if stop {
          return Stopped, calendar;
        }
        DropItems(property);
        stop := Tick(env);
        if stop {
          return Stopped, calendar;
        }
        SetPhase(property, calendar, Prepared, states[property].noted);
      }
      return Fine, calendar;
    }

    /** List the calendar, queue what is ours and enter the discovered phase. */
    method FindPhase(property: int, calendar: string, env: Env) returns (ended: Ended)
      requires Valid() && property in states && states[property].phase != Complete
      modifies this
      ensures Valid() && Touched(property, old(states), states) && old(trace) <= trace
              && QueueTouched(property, old(items), items)
      ensures states[property].calendar == old(states)[property].calendar && states[property].phase != Complete
      ensures ended == Fine ==> && |trace| > |old(trace)| && trace[|trace| - 1].Listed?
                                && trace[|trace| - 1].property == property && trace[|trace| - 1].calendar == calendar
                                && forall e | e in trace[|trace| - 1].events
                                   && Wanted(e, property, states[property].cutoff) ::
                                     Queued(items, Item(property, calendar, e.id)) && !e.named
      ensures forall id | id in old(items) :: id in items && items[id] == old(items)[id]
      ensures forall id | id in items && id !in old(items) ::
                items[id].property == property && items[id].calendar == calendar
      ensures ended == Fine ==> states[property] == old(states)[property].(phase := Discovered, noted := false)
      ensures NeverStops(env) ==> ended != Stopped
      ensures NeverStops(env) && ended == Failed ==> states[property].noted
      ensures Serves(env, property, calendar) && Clear(env, property, calendar, states[property].cutoff) ==>
                ended == Fine
      ensures Clear(env, property, calendar, states[property].cutoff)
              && NoneRefused(env, old(items), property, calendar, states[property].cutoff) ==>
                NoneRefused(env, items, property, calendar, states[property].cutoff)
    {
      hide SafeHistory, ByCutoff, FoundAmbiguous, FoundQueued, MayBeRefused, Wanted, Sourced;
      var stop := Tick(env);
      if stop {
        return Stopped;
      }
      var listing := env.listing(clock, calendar);
      if listing.None? {
        RecordError(property, env);
        return Failed;
      }
      LookingIsSafe(trace, Listed(property, calendar, listing.value), states);
      trace := trace + [Listed(property, calendar, listing.value)];
      ghost var asked := clock;
      ended := DiscoverAll(property, calendar, listing.value, env);
      if Clear(env, property, calendar, states[property].cutoff)
         && NoneRefused(env, old(items), property, calendar, states[property].cutoff) {
        DiscoveredIsUnrefused(env, asked, old(items), items, property, calendar, states[property].cutoff);
      }
      if ended == Failed {
        RecordError(property, env);
      }
      if ended != Fine {
        return;
      }
      stop := Tick(env);
      if stop {
        return Stopped;
      }
      SetPhase(property, states[property].calendar, Discovered, false);
      return Fine;
    }

    /** Delete what is queued; the property is complete once nothing is left in its queue. */
    method DeletePhase(property: int, calendar: string, env: Env) returns (ended: Ended)
      requires Valid() && property in states
      modifies this
      ensures Valid() && Touched(property, old(states), states) && old(trace) <= trace
              && QueueTouched(property, old(items), items)
      ensures states[property].calendar == old(states)[property].calendar
      ensures ended != Fine ==> states[property].phase == old(states)[property].phase
      ensures ended == Fine ==>
                states[property] == if exists id | id in items :: items[id].property == property
                                    then old(states)[property]
                                    else old(states)[property].(phase := Complete, noted := false)
      ensures NeverStops(env) && ended == Failed ==> states[property].noted
      ensures forall id | id in items :: id in old(items) && items[id] == old(items)[id]
      ensures forall id | id in old(items) && id !in items ::
                Settled(trace, |old(trace)|, old(items)[id]) && old(items)[id].calendar == calendar
      ensures ended == Fine ==>
                forall id | id in items && items[id].property == property && items[id].calendar == calendar ::
                                  Early(trace, |old(trace)|, items[id], states[property].cutoff)
      ensures forall id | id in old(items) && old(items)[id].property == property && old(items)[id].calendar == calendar
                && RefusedBy(env, old(items)[id], states[property].cutoff) :: ended != Fine && id in items
      ensures NeverStops(env) ==> ended != Stopped
      ensures Serves(env, property, calendar)
              && NoneRefused(env, old(items), property, calendar, states[property].cutoff)
              ==> ended == Fine
    {
      hide SafeHistory, ByCutoff, RefusedBy, Settled, Early, NoneRefused;
      ended := DeleteQueued(property, calendar, env);
      if ended == Failed {
        RecordError(property, env);
      }
      if ended != Fine {
        return;
      }
      var stop := Tick(env);
      if stop {
        return Stopped;
      }
      if !exists id :: id in items && items[id].property == property {
        SetPhase(property, states[property].calendar, Complete, false);
      }
      return Fine;
    }

    /** Discovery and deletion under the calendar that is stored and configured. */
    method Sweep(property: int, calendar: string, env: Env) returns (ended: Ended)
      requires Valid() && property in states && states[property].phase != Complete
      modifies this
      ensures Valid() && Touched(property, old(states), states) && old(trace) <= trace
              && QueueTouched(property, old(items), items)
      ensures states[property].calendar == old(states)[property].calendar
      ensures ended == Fine ==>
                states[property] == old(states)[property].(
                  phase := if exists id | id in items :: items[id].property == property then Discovered else Complete,
                  noted := false)
      ensures states[property].phase == Complete ==>
                && ended == Fine
                && exists i | |old(trace)| <= i < |trace| ::
                     CleanedSince(trace, i, property, calendar, states[property].cutoff)
      ensures forall id | id in items ::
                if id in old(items) then items[id] == old(items)[id]
                else items[id].property == property && items[id].calendar == calendar
      ensures forall id | id in old(items) && id !in items :: old(items)[id].calendar == calendar
      ensures ended == Fine ==>
                forall id | id in items && items[id].property == property && items[id].calendar == calendar ::
                  Early(trace, |old(trace)|, items[id], states[property].cutoff)
      ensures forall id | id in old(items) && old(items)[id].property == property && old(items)[id].calendar == calendar
                && RefusedBy(env, old(items)[id], states[property].cutoff) :: ended != Fine && id in items
      ensures NeverStops(env) ==> ended != Stopped
      ensures NeverStops(env) && ended == Failed ==> states[property].noted
      ensures Serves(env, property, calendar) && Clear(env, property, calendar, states[property].cutoff)
              && NoneRefused(env, old(items), property, calendar, states[property].cutoff)
              ==> ended == Fine
    {
      hide Serves, Clear, NoneRefused, Settled, Early, SafeHistory, ByCutoff, RefusedBy, Wanted;
      ended := FindPhase(property, calendar, env);
      if ended != Fine {
        return;
      }
      ghost var listed, queue := trace, items;
      ended := DeletePhase(property, calendar, env);
      if ended == Fine {
        forall id | id in items && items[id].property == property && items[id].calendar == calendar
          ensures Early(trace, |old(trace)|, items[id], states[property].cutoff)
        {
          EarlyLonger(trace, trace, |listed|, |old(trace)|, items[id], states[property].cutoff);
        }
      }
      if ended == Fine && states[property].phase == Complete {
        EmptiedIsClean(listed, trace, queue, items, property, calendar, states[property].cutoff);
        assert CleanedSince(trace, |listed| - 1, property, calendar, states[property].cutoff);
      }
    }

    /** The part of `Run` for one property that was not complete when the run began. */
    method Process(property: int, stored: string, env: Env) returns (ended: Ended)
      requires Valid() && property in states && states[property].phase != Complete
               && states[property].calendar == stored
      modifies this
      ensures Valid() && Touched(property, old(states), states) && old(trace) <= trace
              && QueueTouched(property, old(items), items)
      ensures ended == Fine ==> Swept(old(states), old(items), |old(trace)|, states, items, trace, env, property)
      ensures Untroubled(env, old(states), old(items), property) ==> ended == Fine
      ensures NeverStops(env) ==> ended != Stopped && (ended == Failed ==> states[property].noted)
      ensures states[property].phase == Complete && states[property].calendar == stored && !Blank(stored) ==>
                forall id | id in old(items) && old(items)[id].property == property :: old(items)[id].calendar == stored
      ensures Stays(env, old(states), states, old(items), items)
      ensures ended == Fine ==>
                forall id | Stuck(old(states), old(items), id, env) :: old(items)[id].property != property
    {
      hide Early, SafeHistory, ByCutoff, RefusedBy, CleanedSince, TrimSpace, AllSpace, Serves, Clear, MayBeRefused,
        Unrepeated, Swept, Stays, Steady, Stuck, Stranded, Blank, Marked;
      assert Blank(stored) <==> AllSpace(stored) by {
        BlankIsAllSpace(stored);
      }
      if Blank(stored) {
        BlankIsNotSteady(env, states, property);
        NotStuck(env, states, items, property);
        ended := CompleteNoCalendar(property, env);
        UnchangedStays(env, old(states), states, old(items), items, property);
        if ended == Fine {
          ClosedIsSwept(old(states), old(items), |old(trace)|, states, items, trace, env, property);
        }
        return;
      }
      var calendar;
      ended, calendar := Rebind(property, stored, env);
      if ended != Fine {
        UnchangedStays(env, old(states), states, old(items), items, property);
        return;
      }
      if calendar == "" {
        BlankIsBlank();
        BlankIsAllSpace("");
        NotStuck(env, old(states), old(items), property);
        ended := CompleteNoCalendar(property, env);
        UnchangedStays(env, old(states), states, old(items), items, property);
        if ended == Fine {
          ClosedIsSwept(old(states), old(items), |old(trace)|, states, items, trace, env, property);
        }
        return;
      }
      ghost var before := trace;
      ended := Sweep(property, calendar, env);
      if calendar == stored {
        SweepingStays(env, old(states), states, old(items), items, property, calendar);
      } else {
        UnchangedStays(env, old(states), states, old(items), items, property);
      }
      if ended == Fine {
        NotStuck(env, old(states), old(items), property);
        CheckedIsSwept(old(states), old(items), |old(trace)|, states, items, trace, env, property, |before|, calendar);
      }
    }

    /**
     * One run over every property not yet complete. If it ends without error, every one of them is complete or has
     * items that linger; it does end without error when nothing hinders it for any of them.
     */
    method Run(env: Env) returns (ended: Ended)
      requires Valid()
      modifies this
      ensures Valid() && CutoffsKept(old(states), states) && old(trace) <= trace && states.Keys == old(states).Keys
      ensures forall p | p in old(states) && old(states)[p].phase == Complete :: states[p] == old(states)[p]
      ensures ended == Fine ==>
                forall p | p in old(states) && old(states)[p].phase != Complete ::
                  Swept(old(states), old(items), |old(trace)|, states, items, trace, env, p)
      ensures (forall p | p in old(states) && old(states)[p].phase != Complete ::
                 Untroubled(env, old(states), old(items), p)) ==> ended == Fine
      ensures NeverStops(env) ==> ended != Stopped && (ended == Failed ==> exists p :: p in states && states[p].noted)
      ensures Stays(env, old(states), states, old(items), items)
      ensures ended == Fine ==> forall id :: !Stuck(old(states), old(items), id, env)
    {
      hide Stuck, Blank, SafeHistory, ByCutoff, Swept, Untroubled, Unrepeated, Stays, Pending, AllSwept, StuckAhead;
      var rest := set p | p in states && states[p].phase != Complete;
      RunBegins(env, states, items, |trace|, trace, rest);
      while rest != {}
        invariant Valid() && CutoffsKept(old(states), states) && old(trace) <= trace
        invariant Pending(old(states), old(items), states, items, rest)
        invariant AllSwept(old(states), old(items), |old(trace)|, states, items, trace, env, rest)
        invariant Stays(env, old(states), states, old(items), items) && StuckAhead(env, old(states), old(items), rest)
        decreases |rest|
      {
        var property := Pick(rest);
        ghost var states1, items1, trace1 := states, items, trace;
        PendingIsThere(old(states), old(items), states, items, rest, property);
        UntroubledInTurn(env, old(states), states, old(items), items, rest, property);
        ended := Process(property, states[property].calendar, env);
        StaysOn(env, old(states), states1, states, old(items), items1, items);
        PendingGoesOn(old(states), old(items), states1, states, items1, items, rest, property);
        if ended != Fine {
          PendingIsThere(old(states), old(items), states, items, rest - {property}, property);
          return;
        }
        AllSweptGoesOn(old(states), old(items), |old(trace)|, states1, states, items1, items, trace1, trace, env, rest,
                       property);
        StuckStillAhead(env, old(states), states1, old(items), items1, rest, property);
        rest := rest - {property};
      }
      RunEnds(env, old(states), old(items), |old(trace)|, states, items, trace);
      return Fine;
    }

    /**
     * Any interleaving of preparations and runs, each in its own surroundings and each stopped anywhere: every delete
     * was safe, went by the one cutoff ever written for its property, and a complete property has an empty queue.
     */
    method Live(commands: seq<Command>)
      requires Valid()
      modifies this
      ensures Valid() && CutoffsKept(old(states), states) && old(trace) <= trace
    {
      for n := 0 to |commands|
        invariant Valid() && CutoffsKept(old(states), states) && old(trace) <= trace
      {
        var ended;
        match commands[n]
        case Preparing(rows, env) =>
          var done;
          ended, done := Prepare(rows, env);
        case Running(env) => ended := Run(env);
      }
    }

    /** As long as the stored calendar stays the configured one, no command gets rid of an item queued for another. */
    method Endure(commands: seq<Command>, ghost id: int)
      requires Valid() && id in items && !Blank(states[items[id].property].calendar)
      requires items[id].calendar != states[items[id].property].calendar
      requires forall c | c in commands :: KeepsCalendar(c, items[id].property, states[items[id].property].calendar)
      modifies this
      ensures Valid() && Fixed(old(states), states, old(items), items, id)
      ensures states[items[id].property].phase != Complete
    {
      hide Blank;
      ghost var property, calendar := items[id].property, states[items[id].property].calendar;
      for n := 0 to |commands|
        invariant Valid() && Fixed(old(states), states, old(items), items, id)
      {
        assert KeepsCalendar(commands[n], property, calendar);
        var ended;
        match commands[n]
        case Preparing(rows, env) =>
          var done;
          ghost var before := states;
          ended, done := Prepare(rows, env);
          RefreshingTheSame(before, rows[..done], property, calendar);
        case Running(env) =>
          assert Stranded(states, items, id, env);
          ended := Run(env);
      }
    }

    /** As long as the event of a queued item is refused, no run ends without error. */
    method KeepFailing(envs: seq<Env>, ghost id: int) returns (ends: seq<Ended>)
      requires Valid() && forall env | env in envs :: Stuck(states, items, id, env)
      modifies this
      ensures Valid() && |ends| == |envs| && forall k | 0 <= k < |ends| :: ends[k] != Fine
      ensures envs != [] ==> Fixed(old(states), states, old(items), items, id)
    {
      hide Stuck, Stranded, Blank, SafeHistory, ByCutoff, Swept, Untroubled;
      ends := [];
      for n := 0 to |envs|
        invariant Valid() && |ends| == n && forall k | 0 <= k < n :: ends[k] != Fine
        invariant forall env | env in envs :: Stuck(states, items, id, env)
        invariant if n > 0 then Fixed(old(states), states, old(items), items, id)
                  else states == old(states) && items == old(items)
      {
        ghost var states1, items1 := states, items;
        assert Stuck(states, items, id, envs[n]);
        var ended := Run(envs[n]);
        forall env | env in envs
          ensures Stuck(states, items, id, env)
        {
          StuckMoves(states1, states, items1, items, id, env);
        }
        ends := ends + [ended];
      }
    }
  }

  /** A raw-marked event of property 1, on a day. */
  function RawEvent(day: Day): Event {
    Event("g", false, Some(day), Some(1), true, false)
  }

  /**
   * A property is prepared under calendar "a" and an event of it is queued; then it is prepared again under "b". No
   * sequence of preparations and runs ever completes it while "b" stays configured, even if none of them fails.
   */
  method NeverCompletes(day: Day, env: Env, commands: seq<Command>) returns (r: Runner)
    requires (forall n :: !env.stops(n)) && forall n, id :: !env.localNamed(n, id)
    requires forall c | c in commands :: KeepsCalendar(c, 1, "b")
    ensures fresh(r) && r.Valid() && Queued(r.items, Item(1, "a", "g"))
    ensures 1 in r.states && r.states[1].calendar == "b" && r.states[1].phase != Complete
  {
    hide Blank;
    WordIsNotBlank("b");
    WordIsNotBlank("g");
    r := new Runner();
    var ended := r.PrepareOne(Candidate(1, "a", day, true), env);
    ended := r.DiscoverAll(1, "a", [RawEvent(day)], env);
    forall e, n | e in [RawEvent(day)]
      ensures !FoundAmbiguous(e, n, 1, day, env)
    {
      assert e == RawEvent(day);
    }
    assert [RawEvent(day)][0] == RawEvent(day) && Wanted(RawEvent(day), 1, day);
    assert Queued(r.items, Item(1, "a", "g"));
    ended := r.PrepareOne(Candidate(1, "b", day, true), env);
    ghost var id :| id in r.items && r.items[id] == Item(1, "a", "g");
    r.Endure(commands, id);
  }

  /** An event without marks, which only a local row calls ours. */
  function UnmarkedEvent(day: Day): Event {
    Event("g", false, Some(day), None, false, false)
  }

  /**
   * Such an event is queued, and as long as it stays in the calendar as it is, no run that finds the calendar still
   * configured ends without error.
   */
  method NeverEndsFine(day: Day, env: Env, envs: seq<Env>) returns (r: Runner, ends: seq<Ended>)
    requires (forall n :: !env.stops(n)) && forall n, id :: env.localRaw(n, id) && !env.localNamed(n, id)
    requires forall later | later in envs :: (forall n :: later.configured(n, 1) == "a")
               && forall n :: later.listing(n, "a").Some? ==> later.listing(n, "a").value == [UnmarkedEvent(day)]
    ensures fresh(r) && |ends| == |envs| && forall k | 0 <= k < |ends| :: ends[k] != Fine
  {
    hide Blank;
    WordIsNotBlank("a");
    WordIsNotBlank("g");
    r := new Runner();
    var e, item := UnmarkedEvent(day), Item(1, "a", "g");
    var ended := r.PrepareOne(Candidate(1, "a", day, true), env);
    ended := r.DiscoverAll(1, "a", [e], env);
    forall x, n | x in [e]
      ensures !FoundAmbiguous(x, n, 1, day, env)
    {
      assert x == e;
    }
    assert [e][0] == e && SurelyQueued(e, 1, day, env);
    ghost var id :| id in r.items && r.items[id] == item;
    forall later | later in envs
      ensures Stuck(r.states, r.items, id, later)
    {
      assert FirstWith([e], e) by {
        assert [e][0] == e;
      }
      UnchangedIsRefused(later, item, e, day, true, false);
    }
    ends := r.KeepFailing(envs, id);
  }
}
