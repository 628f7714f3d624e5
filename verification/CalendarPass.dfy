/** One reconciliation pass as a function of the two stores and of how every outside call ends. */
module CalendarPass {
  import opened Text
  import opened CalendarModel
  import opened EventIndex

  datatype Settings = Settings(calendar: string, duration: int, noGuestTitle: string, sameDayTitle: string)

  /** Check-out and check-in times as stored and as seconds into the day. */
  datatype Profile = Profile(outTime: string, inTime: string, outSecond: int, inSecond: int)

  /**
   * What a pass reads before it acts: eligible stays with their check-out day, the stays whose check-out day
   * is another stay's night, the local day `today` and the requested range.
   */
  datatype Context = Context(property: int, timezone: string, offset: int, settings: Settings, profile: Profile,
                             owners: map<int, Day>, arrivals: set<int>, today: Day, from: Day, to: Day,
                             configured: bool)

  predicate ValidContext(c: Context) {
    0 <= c.profile.outSecond < DAY_SECONDS && 0 <= c.profile.inSecond < DAY_SECONDS
  }

  const HORIZON_DAYS := 365

  /** The requested range cut to [today, today + 365]. */
  predicate InWindow(c: Context, d: Day) {
    c.from <= d <= c.to && c.today <= d <= c.today + HORIZON_DAYS
  }

  // ---------- what a stay calls for ----------

  function CanonicalIdentity(c: Context, stay: int): Identity
    requires stay in c.owners
  {
    Identity(c.property, stay, c.owners[stay])
  }

  function HashOf(c: Context, r: Row): Digest {
    Digest(r.calendar, r.title, r.starts, r.ends, c.timezone, r.identity, r.stay, r.sameDay)
  }

  function Build(c: Context, stay: int): Row
    requires stay in c.owners
  {
    var midnight := c.owners[stay] * DAY_SECONDS - c.offset;
    var starts := midnight + c.profile.outSecond;
    var sameDay := stay in c.arrivals;
    var early := midnight + c.profile.inSecond - 3600;
    var tight := sameDay && early <= starts;
    var ends := if !sameDay then starts + c.settings.duration * 60 else if tight then starts + 1800 else early;
    var title := if sameDay then c.settings.sameDayTitle else c.settings.noGuestTitle;
    var schedule := Schedule(c.timezone, c.owners[stay], c.profile.outTime, c.profile.inTime, c.settings.duration);
    var r := Row(0, stay, Some(CanonicalIdentity(c, stay)), None, c.settings.calendar, None, c.owners[stay], starts,
                 ends, sameDay, title, Pending, tight, UpsertAction, Some(schedule));
    r.(desiredHash := Some(HashOf(c, r)))
  }

  /** Keep the stored end unless the schedule changed, and hash again. */
  function Inherit(c: Context, existing: Row, built: Row): Row {
    var d := if existing.scheduleHash.None? || existing.scheduleHash == built.scheduleHash
             then built.(ends := existing.ends, tight := existing.tight) else built;
    d.(desiredHash := Some(HashOf(c, d)))
  }

  function WithMatch(r: Row, matched: string): Row {
    if matched != "" && r.googleId.None? then r.(googleId := Some(matched)) else r
  }

  function Draft(c: Context, idx: Index, existing: Option<Row>, built: Row): Row {
    var d := if existing.Some? then Inherit(c, existing.value, built) else built;
    WithMatch(d, Match(idx, d, existing))
  }

  predicate CanSkip(idx: Index, existing: Row, desired: Row) {
    existing.status == Synced && existing.googleId.Some? && existing.googleId.value != ""
    && existing.desiredHash.Some? && existing.desiredHash == desired.desiredHash
    && (idx.listed ==> Seen(idx, existing))
  }

  // ---------- phase one: bring every desired event up to date ----------

  datatype Progress = Progress(world: World, reused: set<string>, seen: nat, upserted: nat, removed: nat, failed: bool)

  function Start(w: World): Progress {
    Progress(w, {}, 0, 0, 0, false)
  }

  function SyncUpsert(c: Context, w: World, r: Row, reply: UpsertReply): (World, bool) {
    var t := SetPending(w.table, r.id, UpsertAction);
    if !c.configured then
      (World(SetGoogleResult(t, r.id, None, Error), w.remote), false)
    else
      var (m, result) := RemoteUpsert(w.remote, c.property, r, reply);
      match result
      case Failed => (World(SetGoogleResult(t, r.id, None, Error), m), false)
      case Answered(id, confirmed) =>
        (World(SetGoogleResult(t, r.id, Some(id), if confirmed then Synced else Error), m), confirmed)
  }

  /**
   * The same write sequence in a process that stops: before the first write, after the pending action, or after the
   * outside call whose answer is then never stored.
   */
  function StoppedUpsert(c: Context, w: World, r: Row, at: nat, reply: UpsertReply): World {
    if at == 0 then w
    else
      var t := SetPending(w.table, r.id, UpsertAction);
      World(t, if at == 1 || !c.configured then w.remote else RemoteUpsert(w.remote, c.property, r, reply).0)
  }

  function IdSet(id: Option<string>): set<string> {
    if id.Some? then {id.value} else {}
  }

  function DesireStep(c: Context, idx: Index, p: Progress, stay: int, reply: UpsertReply): Progress
    requires stay in c.owners
  {
    var built := Build(c, stay);
    var existing := Lookup(p.world.table, built.identity.value);
    var d := Draft(c, idx, existing, built);
    if existing.Some? && CanSkip(idx, existing.value, d) then
      p.(seen := p.seen + 1)
    else
      var (t, saved) := UpsertByIdentity(p.world.table, d);
      var (w, ok) := SyncUpsert(c, World(t, p.world.remote), saved, reply);
      Progress(w, p.reused + (if existing.Some? then IdSet(existing.value.googleId) else {}) + IdSet(d.googleId),
               p.seen + 1, p.upserted + 1, p.removed, p.failed || !ok)
  }

  /** A turn of phase one in a process that stops before saving the row, right after it, or inside the upsert. */
  function StoppedDesire(c: Context, idx: Index, p: Progress, stay: int, at: nat, reply: UpsertReply): World
    requires stay in c.owners
  {
    var existing := Lookup(p.world.table, CanonicalIdentity(c, stay));
    var d := Draft(c, idx, existing, Build(c, stay));
    if at == 0 || (existing.Some? && CanSkip(idx, existing.value, d)) then p.world
    else
      var (t, saved) := UpsertByIdentity(p.world.table, d);
      StoppedUpsert(c, World(t, p.world.remote), saved, at - 1, reply)
  }

  function DesireAll(c: Context, idx: Index, p: Progress, stays: seq<int>, replies: int -> UpsertReply): Progress
    requires forall s | s in stays :: s in c.owners
  {
    if stays == [] then p
    else
      var last := stays[|stays| - 1];
      DesireStep(c, idx, DesireAll(c, idx, p, stays[..|stays| - 1], replies), last, replies(last))
  }

  // ---------- phase two: retire what no eligible stay calls for ----------

  function SyncDelete(c: Context, w: World, r: Row, reply: DeleteReply): (World, bool) {
    var t := SetPending(w.table, r.id, DeleteAction);
    if r.googleId.None? || r.googleId.value == "" then
      (World(MarkRemoved(t, r.id), w.remote), true)
    else if !c.configured then
      (World(SetGoogleResult(t, r.id, None, Error), w.remote), false)
    else
      var m := RemoteDelete(w.remote, r.calendar, r.googleId.value);
      match reply
      case Gone => (World(MarkRemoved(t, r.id), m), true)
      case Refused(applied) => (World(SetGoogleResult(t, r.id, None, Error), if applied then m else w.remote), false)
  }

  /** A deletion in a process that stops at one of the same points. */
  function StoppedDelete(c: Context, w: World, r: Row, at: nat, reply: DeleteReply): World {
    if at == 0 then w
    else
      var t := SetPending(w.table, r.id, DeleteAction);
      var sent := at > 1 && c.configured && r.googleId.Some? && r.googleId.value != ""
                  && (reply.Gone? || reply.applied);
      World(t, if sent then RemoteDelete(w.remote, r.calendar, r.googleId.value) else w.remote)
  }

  predicate Current(c: Context, r: Row) {
    r.stay in c.owners && r.date == c.owners[r.stay] && r.identity == Some(CanonicalIdentity(c, r.stay))
  }

  function Removing(p: Progress, outcome: (World, bool)): Progress {
    if outcome.1 then p.(world := outcome.0, removed := p.removed + 1) else p.(world := outcome.0, failed := true)
  }

  function RetireStep(c: Context, idx: Index, p: Progress, r: Row, reply: DeleteReply): Progress {
    var w := p.world;
    if r.pending == DeleteAction then
      Removing(p, SyncDelete(c, w, r, reply))
    else if r.date < c.today then
      if r.pending == UpsertAction then p.(world := World(SetPending(w.table, r.id, NoAction), w.remote)) else p
    else if Current(c, r) then
      p
    else if r.googleId.Some? && r.googleId.value in p.reused then
      p.(world := World(MarkRemoved(w.table, r.id), w.remote), removed := p.removed + 1)
    else
      var matched := Match(idx, r, Some(r));
      if matched != "" && r.googleId.None? then
        Removing(p, SyncDelete(c, World(MarkSeen(w.table, r.id, matched), w.remote), r.(googleId := Some(matched)),
                               reply))
      else
        Removing(p, SyncDelete(c, w, r, reply))
  }

  /** A row the second phase leaves alone, or only sets aside, without any outside call. */
  predicate Quiet(c: Context, p: Progress, r: Row) {
    r.pending != DeleteAction
    && (r.date < c.today || Current(c, r) || (r.googleId.Some? && r.googleId.value in p.reused))
  }

  /**
   * A turn of phase two in a process that stops before its first write, after adopting an id, or inside the deletion.
   */
  function StoppedRetire(c: Context, idx: Index, p: Progress, r: Row, at: nat, reply: DeleteReply): World {
    var matched := Match(idx, r, Some(r));
    if at == 0 || Quiet(c, p, r) then p.world
    else if r.pending != DeleteAction && matched != "" && r.googleId.None? then
      StoppedDelete(c, World(MarkSeen(p.world.table, r.id, matched), p.world.remote), r.(googleId := Some(matched)),
                    at - 1, reply)
    else StoppedDelete(c, p.world, r, at - 1, reply)
  }

  function RetireAll(c: Context, idx: Index, p: Progress, active: seq<Row>, replies: int -> DeleteReply): Progress {
    if active == [] then p
    else
      var last := active[|active| - 1];
      RetireStep(c, idx, RetireAll(c, idx, p, active[..|active| - 1], replies), last, replies(last.id))
  }

  // ---------- the pass ----------

  /** `stays` are the eligible stays checking out inside the window, once each. */
  ghost predicate ListsTargets(c: Context, stays: seq<int>) {
    && (forall i, j :: 0 <= i < j < |stays| ==> stays[i] != stays[j])
    && (forall s :: s in stays <==> s in c.owners && InWindow(c, c.owners[s]))
  }

  /** `active` are the rows not removed, once each. */
  ghost predicate ListsActive(t: Table, active: seq<Row>) {
    && (forall i, j :: 0 <= i < j < |active| ==> active[i].id != active[j].id)
    && (forall r | r in active :: r.id in t.rows && t.rows[r.id] == r && r.status != Removed)
    && (forall id | id in t.rows && t.rows[id].status != Removed :: t.rows[id] in active)
  }

  function IndexFor(c: Context, listing: seq<Event>): Index {
    if c.configured then IndexOf(listing, c.property, c.offset) else UNLISTED
  }

  function Pass(c: Context, w: World, listing: seq<Event>, stays: seq<int>, replies: int -> UpsertReply,
                active: seq<Row>, deletes: int -> DeleteReply): Progress
    requires forall s | s in stays :: s in c.owners
  {
    var idx := IndexFor(c, listing);
    RetireAll(c, idx, DesireAll(c, idx, Start(w), stays, replies), active, deletes)
  }
}
