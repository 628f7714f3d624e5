/** Durable intents for smart-lock credentials, and the passes that compare them with the provider's inventory. */
module NukiLifecycle {
  import opened Text

  type Instant = int

  datatype State = CreatePending | Active | UpdatePending | DeletePending | Deleted | NeedsReview

  /** One managed credential; `accepted` is whether `request_accepted_at` is set. */
  datatype Cred = Cred(id: int, stay: Option<int>, lock: string, remote: Option<string>, name: string,
                       validFrom: Instant, validUntil: Instant, enabled: bool, state: State, revision: int,
                       pin: Option<string>, accepted: bool,
                       nextRetry: Option<Instant>)

  /** One row of the provider's inventory. */
  datatype Auth = Auth(externalId: string, lock: string, kind: int, name: string, code: string,
                       validFrom: Option<Instant>, validUntil: Option<Instant>, enabled: bool)

  const KEYPAD := 13

  datatype Table = Table(rows: map<int, Cred>, nextId: int)

  // ---------- the store ----------

  predicate Clash(a: Cred, b: Cred) {
    a.id != b.id && a.lock == b.lock && a.remote.Some? && a.remote == b.remote && a.state != Deleted
    && b.state != Deleted
  }

  /** The unique index on (lock, remote id) over credentials not deleted. */
  predicate RemoteUnique(t: Table) {
    forall i, j | i in t.rows && j in t.rows :: !Clash(t.rows[i], t.rows[j])
  }

  predicate TableOk(t: Table) {
    forall id | id in t.rows :: t.rows[id].id == id && id < t.nextId
  }

  /** A write goes through unless the unique index refuses it. */
  function Write(t: Table, c: Cred): (Table, bool) {
    var t' := t.(rows := t.rows[c.id := c]);
    if RemoteUnique(t') then (t', true) else (t, false)
  }

  /** Succeeds only on the row whose stored revision is the one before `revision`. */
  function UpdateOperation(t: Table, id: int, state: State, revision: int, remote: Option<string>,
                           retry: Option<Instant>, accepted: bool): (Table, bool) {
    if id in t.rows && t.rows[id].revision == revision - 1 then
      var c := t.rows[id];
      Write(t, c.(id := id, state := state, revision := revision, remote := OrElse(remote, c.remote),
                  nextRetry := retry, accepted := c.accepted || accepted))
    else (t, false)
  }

  function Claim(t: Table, id: int, revision: int): (Table, bool) {
    if id in t.rows && t.rows[id].state == CreatePending && t.rows[id].revision == revision then
      (t.(rows := t.rows[id := t.rows[id].(revision := revision + 1)]), true)
    else (t, false)
  }

  function ConfirmCreation(t: Table, id: int, expected: int, remote: string, eligible: bool): (Table, bool) {
    if id in t.rows && t.rows[id].state == CreatePending && t.rows[id].revision == expected
       && t.rows[id].stay.Some? then
      Write(t, t.rows[id].(id := id, state := if eligible then Active else DeletePending, revision := expected + 1,
                           remote := Some(remote), pin := None, nextRetry := None, accepted := true))
    else (t, false)
  }

  function ConfirmDeletion(t: Table, id: int, expected: int): (Table, bool) {
    if id in t.rows && t.rows[id].state == DeletePending && t.rows[id].revision == expected then
      Write(t, t.rows[id].(id := id, state := Deleted, revision := expected + 1, pin := None, nextRetry := None))
    else (t, false)
  }

  function ConfirmUpdate(t: Table, id: int, expected: int): (Table, bool) {
    if id in t.rows && t.rows[id].state == UpdatePending && t.rows[id].revision == expected then
      Write(t, t.rows[id].(id := id, state := Active, revision := expected + 1, nextRetry := None))
    else (t, false)
  }

  /** A stay asks for a new credential. */
  function CreateIntent(t: Table, draft: Cred): (Table, bool) {
    var (t', ok) := Write(t,
                          draft.(id := t.nextId, remote := None, state := CreatePending, revision := 1,
                                 accepted := false));
    (if ok then t'.(nextId := t.nextId + 1) else t, ok)
  }

  /** Every credential with the remote id starts being deleted, or a new one is created to be deleted. */
  function StartDeletion(t: Table, lock: string, remote: string, draft: Cred): (Table, bool) {
    if exists id :: id in t.rows && IsLive(t, lock, remote, id) then
      (t.(rows := map id | id in t.rows ::
            var c := t.rows[id];
            if c.lock == lock && c.remote == Some(remote) && c.state != Deleted
            then c.(state := DeletePending, revision := c.revision + 1) else c), true)
    else
      var (t', ok) := Write(t,
                            draft.(id := t.nextId, lock := lock, remote := Some(remote), state := DeletePending,
                                   revision := 1, accepted := false));
      (if ok then t'.(nextId := t.nextId + 1) else t, ok)
  }

  predicate Named(c: Cred, lock: string, remote: string) {
    c.lock == lock && c.remote == Some(remote)
  }

  /** The credential with the greatest id among all with the remote id, deleted or not. */
  ghost predicate IsNewest(t: Table, lock: string, remote: string, id: int) {
    && id in t.rows && Named(t.rows[id], lock, remote)
    && forall j | j in t.rows && Named(t.rows[j], lock, remote) :: j <= id
  }

  method FindNewest(t: Table, lock: string, remote: string) returns (id: Option<int>)
    ensures id.None? ==> forall j | j in t.rows :: !Named(t.rows[j], lock, remote)
    ensures id.Some? ==> IsNewest(t, lock, remote, id.value)
  {
    id := None;
    var rest := t.rows.Keys;
    while rest != {}
      invariant rest <= t.rows.Keys
      invariant id.None? ==> forall j | j in t.rows && j !in rest :: !Named(t.rows[j], lock, remote)
      invariant id.Some? ==> id.value in t.rows && Named(t.rows[id.value], lock, remote)
                             && forall j | j in t.rows && j !in rest && Named(t.rows[j], lock, remote) :: j <= id.value
      decreases |rest|
    {
      var j := Pick(rest);
      rest := rest - {j};
      if Named(t.rows[j], lock, remote) && (id.None? || id.value < j) {
        id := Some(j);
      }
    }
  }

  /** The credential a DELETE of the remote id is for. */
  predicate IsLive(t: Table, lock: string, remote: string, id: int) {
    id in t.rows && Named(t.rows[id], lock, remote) && t.rows[id].state != Deleted
  }

  /** The provider's answer to a dispatched DELETE, offered to credential `id`. */
  function Mark(t: Table, id: int, accepts: bool, now: Instant): (Table, bool)
    requires id in t.rows
  {
    UpdateOperation(t, id, DeletePending, t.rows[id].revision + 1, None,
                    if accepts then None else Some(now + 60 * SECOND), accepts)
  }

  /**
   * A deletion asked for by a request: it is started, the DELETE is sent whatever was accepted before, and the answer
   * is marked on the newest credential with the remote id, which need not be a live one.
   */
  ghost function Dispatch(t: Table, lock: string, remote: string, draft: Cred, accepts: bool, now: Instant): Table {
    if TrimSpace(remote) == "" then t
    else
      var (t1, ok) := StartDeletion(t, lock, remote, draft);
      if !ok then t
      else if id :| IsNewest(t1, lock, remote, id) then Mark(t1, id, accepts, now).0
      else t1
  }

  /** A new label or window for an active credential. */
  function StartUpdate(t: Table, id: int, name: string, validFrom: Instant, validUntil: Instant,
                       enabled: bool): (Table, bool) {
    if id in t.rows && t.rows[id].state == Active then
      Write(t, t.rows[id].(id := id, state := UpdatePending, revision := t.rows[id].revision + 1, name := name,
                           validFrom := validFrom, validUntil := validUntil, enabled := enabled, nextRetry := None))
    else (t, false)
  }

  /** Another live credential already owns the remote id. */
  predicate Owned(t: Table, lock: string, remote: string, except: int) {
    exists id :: id in t.rows && id != except && t.rows[id].lock == lock && t.rows[id].remote == Some(remote)
                 && t.rows[id].state != Deleted
  }

  // ---------- creations ----------

  /** The inventory row equals the persisted tuple. */
  predicate Fits(a: Auth, intent: Cred) {
    a.externalId != "" && a.kind == KEYPAD && a.lock == intent.lock && a.name == intent.name
    && a.code == (if intent.pin.Some? then intent.pin.value else "")
    && a.validFrom == Some(intent.validFrom) && a.validUntil == Some(intent.validUntil) && a.enabled == intent.enabled
  }

  predicate Candidate(t: Table, intent: Cred, a: Auth) {
    Fits(a, intent) && !Owned(t, intent.lock, a.externalId, intent.id)
  }

  function Matches(t: Table, intent: Cred, inventory: seq<Auth>): seq<Auth> {
    if inventory == [] then []
    else
      var last := inventory[|inventory| - 1];
      Matches(t, intent, inventory[..|inventory| - 1]) + if Candidate(t, intent, last) then [last] else []
  }

  const REVIEW_REVISION := 22
  const SECOND := 1_000_000_000

  const BIT_63 := 0x8000_0000_0000_0000

  /** A signed 64-bit value. */
  function Wrap64(x: int): int {
    (x + BIT_63) % (2 * BIT_63) - BIT_63
  }

  /** 15 seconds per revision after the first, at most 15 minutes; the product wraps at 64 bits. */
  function Backoff(revision: int): (d: int)
    ensures d <= 900 * SECOND
  {
    var r := if revision < 2 then 2 else revision;
    var d := Wrap64((r - 1) * 15 * SECOND);
    if d > 900 * SECOND then 900 * SECOND else d
  }

  /** The greatest revision whose product fits 64 bits. */
  const LAST_REVISION := 614_891_470

  /** Up to that revision the wait grows from 15 seconds to 15 minutes and stays there. */
  lemma BackoffIsBounded(revision: int, later: int)
    requires revision <= later <= LAST_REVISION
    ensures 15 * SECOND <= Backoff(revision) <= Backoff(later)
    ensures revision >= 61 ==> Backoff(revision) == 900 * SECOND
  {
    FitsIn64((if revision < 2 then 1 else revision - 1) * 15 * SECOND);
    FitsIn64((if later < 2 then 1 else later - 1) * 15 * SECOND);
  }

  lemma FitsIn64(x: int)
    requires 0 <= x < BIT_63
    ensures Wrap64(x) == x
  {
  }

  /** At the next one the wait is negative: the row is due again at once. */
  lemma BackoffWraps()
    ensures Backoff(LAST_REVISION + 1) < 0
  {
  }

  datatype CreationStats = CreationStats(processed: nat, confirmed: nat, pending: nat, review: nat, failed: nat)

  /** What one pass knows: the lock now bound to the property, the inventory fetched, the time, the eligible stays. */
  datatype Round = Round(lock: string, inventory: seq<Auth>, now: Instant, eligible: set<int>)

  function CreationStep(t: Table, intent: Cred, r: Round, st: CreationStats): (Table, CreationStats) {
    var st := st.(processed := st.processed + 1);
    var (t1, claimed) := Claim(t, intent.id, intent.revision);
    if !claimed then (t, st.(failed := st.failed + 1))
    else if intent.lock != r.lock then
      var (t2, ok) := UpdateOperation(t1, intent.id, NeedsReview, intent.revision + 2, None, None, false);
      (t2, if ok then st.(review := st.review + 1) else st.(failed := st.failed + 1))
    else
      var matches := Matches(t1, intent, r.inventory);
      if |matches| != 1 then
        var review := intent.revision >= REVIEW_REVISION;
        var st := if review then st.(review := st.review + 1) else st.(pending := st.pending + 1);
        var (t2, ok) := UpdateOperation(t1, intent.id, if review then NeedsReview else CreatePending,
                                        intent.revision + 1, None, Some(r.now + Backoff(intent.revision)), false);
        (t2, if ok then st else st.(failed := st.failed + 1))
      else
        var (t2, ok) := ConfirmCreation(t1, intent.id, intent.revision + 1, matches[0].externalId,
                                        intent.stay.Some? && intent.stay.value in r.eligible);
        (t2, if ok then st.(confirmed := st.confirmed + 1) else st.(failed := st.failed + 1))
  }

  function CreationAll(t: Table, items: seq<Cred>, r: Round): (Table, CreationStats) {
    if items == [] then (t, CreationStats(0, 0, 0, 0, 0))
    else
      var (t1, st) := CreationAll(t, items[..|items| - 1], r);
      CreationStep(t1, items[|items| - 1], r, st)
  }

  // ---------- deletions ----------

  datatype DeletionStats = DeletionStats(processed: nat, confirmed: nat, retained: nat, failed: nat)

  predicate Present(inventory: seq<Auth>, remote: string) {
    exists i :: 0 <= i < |inventory| && inventory[i].externalId == remote
  }

  /** The table, the counters and the ids for which a DELETE was sent. */
  datatype Deleting = Deleting(table: Table, stats: DeletionStats, sent: seq<int>)

  function Counted(d: Deleting, write: (Table, bool), ok: DeletionStats): Deleting {
    if write.1 then Deleting(write.0, ok, d.sent)
    else Deleting(write.0, d.stats.(failed := d.stats.failed + 1), d.sent)
  }

  function DeletionStep(d: Deleting, item: Cred, r: Round, accepts: bool): Deleting {
    var d := d.(stats := d.stats.(processed := d.stats.processed + 1));
    var retained := d.stats.(retained := d.stats.retained + 1);
    var retry := Some(r.now + 60 * SECOND);
    if item.lock != r.lock then
      Counted(d, UpdateOperation(d.table, item.id, NeedsReview, item.revision + 1, None, None, false), retained)
    else if item.remote.None? || TrimSpace(item.remote.value) == "" then
      d.(stats := d.stats.(failed := d.stats.failed + 1))
    else if !Present(r.inventory, item.remote.value) then
      Counted(d, ConfirmDeletion(d.table, item.id, item.revision), d.stats.(confirmed := d.stats.confirmed + 1))
    else if item.accepted then
      Counted(d, UpdateOperation(d.table, item.id, DeletePending, item.revision + 1, None, retry, true), retained)
    else
      var d := d.(sent := d.sent + [item.id]);
      Counted(d, UpdateOperation(d.table, item.id, DeletePending, item.revision + 1, None, retry, accepts), retained)
  }

  function DeletionAll(t: Table, items: seq<Cred>, r: Round, accepts: int -> bool): Deleting {
    if items == [] then Deleting(t, DeletionStats(0, 0, 0, 0), [])
    else
      var last := items[|items| - 1];
      DeletionStep(DeletionAll(t, items[..|items| - 1], r, accepts), last, r, accepts(last.id))
  }

  // ---------- updates ----------

  datatype UpdateStats = UpdateStats(processed: nat, confirmed: nat, pending: nat, failed: nat)

  predicate Reflects(a: Auth, item: Cred) {
    Some(a.externalId) == item.remote && a.lock == item.lock && a.kind == KEYPAD && a.name == item.name
    && a.validFrom == Some(item.validFrom) && a.validUntil == Some(item.validUntil) && a.enabled == item.enabled
  }

  function UpdateStep(t: Table, item: Cred, r: Round, st: UpdateStats): (Table, UpdateStats) {
    var st := st.(processed := st.processed + 1);
    if item.lock != r.lock then
      var (t1, ok) := UpdateOperation(t, item.id, NeedsReview, item.revision + 1, None, None, false);
      (t1, if ok then st.(pending := st.pending + 1) else st.(failed := st.failed + 1))
    else if item.remote.None? then (t, st.(failed := st.failed + 1))
    else if !exists i :: 0 <= i < |r.inventory| && Reflects(r.inventory[i], item) then
      var (t1, ok) := UpdateOperation(t, item.id, UpdatePending, item.revision + 1, None,
                                      Some(r.now + Backoff(item.revision)), true);
      (t1, if ok then st.(pending := st.pending + 1) else st.(failed := st.failed + 1))
    else
      var (t1, ok) := ConfirmUpdate(t, item.id, item.revision);
      (t1, if ok then st.(confirmed := st.confirmed + 1) else st.(failed := st.failed + 1))
  }

  function UpdateAll(t: Table, items: seq<Cred>, r: Round): (Table, UpdateStats) {
    if items == [] then (t, UpdateStats(0, 0, 0, 0))
    else
      var (t1, st) := UpdateAll(t, items[..|items| - 1], r);
      UpdateStep(t1, items[|items| - 1], r, st)
  }

  /** Due rows of one state, once each. */
  ghost predicate ListsDue(t: Table, state: State, now: Instant, items: seq<Cred>) {
    && (forall i, j :: 0 <= i < j < |items| ==> items[i].id != items[j].id)
    && (forall c | c in items :: c.id in t.rows && t.rows[c.id] == c && c.state == state
          && (c.nextRetry.None? || c.nextRetry.value <= now))
  }
}
