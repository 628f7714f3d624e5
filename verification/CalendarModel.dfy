/** Rows of the cleaning table, events of the remote calendar, and what each outside call may do to them. */
module CalendarModel {
  import opened Text

  /** Civil days count from 1970-01-01; instants are seconds since then, in UTC. */
  type Day = int
  type Instant = int

  const DAY_SECONDS := 86400

  function DayOf(offset: int, t: Instant): Day {
    (t + offset) / DAY_SECONDS
  }

  /** The parts of `stay:<property>:<stay>:<checkout>`. */
  datatype Identity = Identity(property: int, stay: int, checkout: Day)

  datatype Status = Pending | Synced | Error | Removed
  datatype Action = NoAction | UpsertAction | DeleteAction

  /** The fields hashed into `desired_hash`; a digest stands for what it digests. */
  datatype Digest = Digest(calendar: string, title: string, starts: Instant, ends: Instant, timezone: string,
                           identity: Option<Identity>, stay: int, sameDay: bool)

  /** The fields hashed into `schedule_hash`. */
  datatype Schedule = Schedule(timezone: string, checkout: Day, outTime: string, inTime: string, duration: int)

  datatype Row = Row(id: int, stay: int, identity: Option<Identity>, desiredHash: Option<Digest>, calendar: string,
                     googleId: Option<string>, date: Day, starts: Instant, ends: Instant, sameDay: bool, title: string,
                     status: Status, tight: bool, pending: Action, scheduleHash: Option<Schedule>)

  /** The event table with its unique index on the cleaning identity. */
  datatype Table = Table(rows: map<int, Row>, byIdentity: map<Identity, int>, nextId: int)

  /** The private properties PMS writes; users' own events have none. */
  datatype Props = Props(property: Option<int>, rowId: Option<int>, identity: Option<Identity>, stay: Option<int>)

  /** A remote event. A deleted event stays as a cancelled one until the calendar purges it. */
  datatype Event = Event(id: string, calendar: string, cancelled: bool, starts: Instant, ends: Instant, title: string,
                         props: Props)

  /** Remote events by id, and every id ever issued. An id lives in one calendar at a time. */
  datatype Remote = Remote(events: map<string, Event>, issued: set<string>)

  datatype World = World(table: Table, remote: Remote)

  // ---------- the store ----------

  function Lookup(t: Table, i: Identity): Option<Row> {
    if i in t.byIdentity && t.byIdentity[i] in t.rows then Some(t.rows[t.byIdentity[i]]) else None
  }

  function PutRow(t: Table, r: Row): Table {
    t.(rows := t.rows[r.id := r])
  }

  /** Insert, or on a conflicting identity overwrite everything but the id and a remote id the draft lacks. */
  function UpsertByIdentity(t: Table, draft: Row): (Table, Row)
    requires draft.identity.Some?
  {
    match Lookup(t, draft.identity.value)
    case Some(prior) =>
      var saved := draft.(id := prior.id, googleId := OrElse(draft.googleId, prior.googleId));
      (PutRow(t, saved), saved)
    case None =>
      var saved := draft.(id := t.nextId);
      (Table(t.rows[t.nextId := saved], t.byIdentity[draft.identity.value := t.nextId], t.nextId + 1), saved)
  }

  function SetPending(t: Table, id: int, a: Action): Table {
    if id in t.rows then PutRow(t, t.rows[id].(id := id, pending := a)) else t
  }

  function SetGoogleResult(t: Table, id: int, gid: Option<string>, s: Status): Table {
    if id !in t.rows then t else
    var r := t.rows[id];
    PutRow(t, r.(id := id, googleId := OrElse(gid, r.googleId), status := s,
                 pending := if s == Error then r.pending else NoAction))
  }

  function MarkRemoved(t: Table, id: int): Table {
    if id in t.rows then PutRow(t, t.rows[id].(id := id, status := Removed, pending := NoAction)) else t
  }

  function MarkSeen(t: Table, id: int, gid: string): Table {
    if id in t.rows then PutRow(t, t.rows[id].(id := id, googleId := Some(gid))) else t
  }

  // ---------- the remote calendar ----------

  /** How one upsert call ends. A failed call may still have been carried out. Only an insertion uses `newId`. */
  datatype UpsertReply = Fails(applied: bool, newId: string) | Answers(newId: string, confirmed: bool)

  datatype UpsertResult = Failed | Answered(id: string, confirmed: bool)

  function Payload(property: int, r: Row, id: string, cancelled: bool): Event {
    Event(id, r.calendar, cancelled, r.starts, r.ends, r.title,
          Props(Some(property), Some(r.id), r.identity, Some(r.stay)))
  }

  predicate Reachable(m: Remote, calendar: string, id: string) {
    id in m.events && m.events[id].calendar == calendar
  }

  /**
   * Patch the stored id, or insert when the row's calendar does not know it. The service never issues an id twice:
   * an insertion that offers a used or blank id is a call that failed.
   */
  function RemoteUpsert(m: Remote, property: int, r: Row, reply: UpsertReply): (Remote, UpsertResult) {
    var patched := r.googleId.Some? && Reachable(m, r.calendar, r.googleId.value);
    var id := if patched then r.googleId.value else reply.newId;
    if !patched && (id in m.issued || id == "") then
      (m, Failed)
    else
      var done := Remote(m.events[id := Payload(property, r, id, reply.Answers? && !reply.confirmed)], m.issued + {id});
      match reply
      case Fails(applied, _) => (if applied then done else m, Failed)
      case Answers(_, confirmed) => (done, Answered(id, confirmed))
  }

  /** How one delete call ends; a refused call may still have been carried out. */
  datatype DeleteReply = Gone | Refused(applied: bool)

  /** Deleting an unknown or already deleted event succeeds. */
  function RemoteDelete(m: Remote, calendar: string, id: string): Remote {
    if Reachable(m, calendar, id) then m.(events := m.events[id := m.events[id].(cancelled := true)]) else m
  }

  predicate Live(m: Remote, id: string) {
    id in m.events && !m.events[id].cancelled
  }
}
