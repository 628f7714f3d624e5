/** Credentials over every run of passes and requests. */
module NukiRuns {
  import opened Text
  import opened NukiLifecycle
  import opened NukiSafety

  /** A pass of one kind, one write made on behalf of a request, or a whole deletion dispatched by a request. */
  datatype Step =
    | CreationPass(items: seq<Cred>, r: Round)
    | DeletionPass(items: seq<Cred>, r: Round, accepts: int -> bool)
    | UpdatePass(items: seq<Cred>, r: Round)
    | IntentStep(draft: Cred)
    | AnswerStep(id: int, state: State, revision: int, remote: Option<string>, retry: Option<Instant>, accepted: bool)
    | BeginDeletion(lock: string, target: string, draft: Cred)
    | BeginUpdate(id: int, name: string, validFrom: Instant, validUntil: Instant, enabled: bool)
    | DispatchStep(lock: string, target: string, draft: Cred, heard: bool, now: Instant)

  ghost predicate Admissible(t: Table, st: Step) {
    match st
    case CreationPass(items, r) => ListsDue(t, CreatePending, r.now, items)
    case DeletionPass(items, r, _) => ListsDue(t, DeletePending, r.now, items)
    case UpdatePass(items, r) => ListsDue(t, UpdatePending, r.now, items)
    case _ => true
  }

  ghost function Apply(t: Table, st: Step): Table {
    match st
    case CreationPass(items, r) => CreationAll(t, items, r).0
    case DeletionPass(items, r, accepts) => DeletionAll(t, items, r, accepts).table
    case UpdatePass(items, r) => UpdateAll(t, items, r).0
    case IntentStep(draft) => CreateIntent(t, draft).0
    case AnswerStep(id, state, revision, remote, retry, accepted) =>
      UpdateOperation(t, id, state, revision, remote, retry, accepted).0
    case BeginDeletion(lock, remote, draft) => StartDeletion(t, lock, remote, draft).0
    case BeginUpdate(id, name, validFrom, validUntil, enabled) =>
      StartUpdate(t, id, name, validFrom, validUntil, enabled).0
    case DispatchStep(lock, remote, draft, heard, now) => Dispatch(t, lock, remote, draft, heard, now)
  }

  /** The step sends a DELETE for credential `id`. */
  predicate IsSent(t: Table, st: Step, id: int) {
    match st
    case DeletionPass(items, r, accepts) => id in DeletionAll(t, items, r, accepts).sent
    case DispatchStep(lock, remote, draft, _, _) =>
      !AllSpace(remote) && IsLive(StartDeletion(t, lock, remote, draft).0, lock, remote, id)
    case _ => false
  }

  lemma StartDeletionKeeps(t: Table, lock: string, remote: string, draft: Cred)
    requires Good(t)
    ensures var t' := StartDeletion(t, lock, remote, draft).0; Good(t') && Grows(t, t')
  {
    var t' := StartDeletion(t, lock, remote, draft).0;
    if exists id :: id in t.rows && IsLive(t, lock, remote, id) {
      forall i, j | i in t'.rows && j in t'.rows ensures !Clash(t'.rows[i], t'.rows[j]) {
        assert !Clash(t.rows[i], t.rows[j]);
      }
    }
  }

  /** Starting a deletion leaves exactly one live credential with the remote id, waiting for its deletion. */
  ghost predicate Started(t: Table, t1: Table, lock: string, remote: string, draft: Cred, live: int) {
    && t1.rows.Keys == t.rows.Keys + {live} && (forall id :: IsLive(t1, lock, remote, id) <==> id == live)
    && (forall id :: IsLive(t, lock, remote, id) ==> id == live)
    && (forall id | id in t.rows && id != live :: t1.rows[id] == t.rows[id])
    && t1.rows[live] == Begun(t, lock, remote, draft, live)
    && (!IsLive(t, lock, remote, live) ==> live !in t.rows && IsNewest(t1, lock, remote, live))
    && (IsLive(t, lock, remote, live) ==>
          forall id :: IsNewest(t1, lock, remote, id) <==> IsNewest(t, lock, remote, id))
  }

  lemma StartedIsOne(t: Table, lock: string, remote: string, draft: Cred) returns (live: int)
    requires Good(t)
    ensures StartDeletion(t, lock, remote, draft).1
            && Started(t, StartDeletion(t, lock, remote, draft).0, lock, remote, draft, live)
  {
    StartDeletionKeeps(t, lock, remote, draft);
    if id :| IsLive(t, lock, remote, id) {
      live := id;
      LiveIsStarted(t, lock, remote, draft, id);
    } else {
      live := t.nextId;
      NewIsStarted(t, lock, remote, draft);
    }
  }

  /** Two tables whose credentials have the same lock and remote id have the same newest ones. */
  lemma SameNamesSameNewest(t: Table, t1: Table, lock: string, remote: string, id: int)
    requires t1.rows.Keys == t.rows.Keys
    requires forall j | j in t.rows :: t1.rows[j].lock == t.rows[j].lock && t1.rows[j].remote == t.rows[j].remote
    ensures IsNewest(t1, lock, remote, id) <==> IsNewest(t, lock, remote, id)
  {
    assert forall j | j in t.rows :: Named(t1.rows[j], lock, remote) <==> Named(t.rows[j], lock, remote);
  }

  lemma LiveIsStarted(t: Table, lock: string, remote: string, draft: Cred, id: int)
    requires Good(t) && IsLive(t, lock, remote, id)
    ensures StartDeletion(t, lock, remote, draft).1
            && Started(t, StartDeletion(t, lock, remote, draft).0, lock, remote, draft, id)
  {
    var t1 := StartDeletion(t, lock, remote, draft).0;
    forall k
      ensures (IsLive(t, lock, remote, k) <==> k == id) && (IsLive(t1, lock, remote, k) <==> k == id)
    {
      if IsLive(t, lock, remote, k) {
        assert !Clash(t.rows[k], t.rows[id]);
      }
    }
    forall k
      ensures IsNewest(t1, lock, remote, k) <==> IsNewest(t, lock, remote, k)
    {
      SameNamesSameNewest(t, t1, lock, remote, k);
    }
  }

  lemma NewIsStarted(t: Table, lock: string, remote: string, draft: Cred)
    requires Good(t) && forall id :: !IsLive(t, lock, remote, id)
    ensures StartDeletion(t, lock, remote, draft).1
    ensures Started(t, StartDeletion(t, lock, remote, draft).0, lock, remote, draft, t.nextId)
  {
    var live := t.nextId;
    var c := draft.(id := live, lock := lock, remote := Some(remote), state := DeletePending, revision := 1,
                    accepted := false);
    var rows := t.rows[live := c];
    forall k | k in t.rows && t.rows[k].lock == lock && t.rows[k].remote == Some(remote) && t.rows[k].state != Deleted
      ensures IsLive(t, lock, remote, k)
    {
    }
    forall i, j | i in rows && j in rows
      ensures !Clash(rows[i], rows[j])
    {
      if i != live && j != live {
        assert !Clash(t.rows[i], t.rows[j]);
      } else if i != j {
        assert !IsLive(t, lock, remote, i) && !IsLive(t, lock, remote, j);
      }
    }
    assert StartDeletion(t, lock, remote, draft).0.rows == rows;
  }

  /**
   * A dispatched deletion sends a DELETE for the one live credential with the remote id, whatever was accepted for it
   * before. The provider's acceptance is recorded exactly when, in the table the request finds, no deleted credential
   * with the same remote id is newer than the live one: the mark is offered to the newest, and the unique index refuses
   * to revive a deleted one beside the live one.
   */
  lemma DispatchIsExact(t: Table, lock: string, remote: string, draft: Cred, accepts: bool, now: Instant)
    returns (live: int)
    requires Good(t) && !AllSpace(remote)
    ensures var t' := Dispatch(t, lock, remote, draft, accepts, now);
            && Good(t') && Grows(t, t') && Dispatched(t, t', lock, remote, draft, live, accepts, now)
    ensures forall id :: IsSent(t, DispatchStep(lock, remote, draft, accepts, now), id) <==> id == live
  {
    hide StartDeletion, Mark, Good, Grows, IsLive, IsNewest, Dispatched, AllSpace, TrimSpace;
    TrimsToNothing(remote);
    live := StartedIsOne(t, lock, remote, draft);
    StartDeletionKeeps(t, lock, remote, draft);
    var t1 := StartDeletion(t, lock, remote, draft).0;
    NewestExists(t1, lock, remote, live);
    forall id | IsNewest(t1, lock, remote, id)
      ensures id in t1.rows && Good(Mark(t1, id, accepts, now).0) && Grows(t, Mark(t1, id, accepts, now).0)
      ensures Dispatched(t, Mark(t1, id, accepts, now).0, lock, remote, draft, live, accepts, now)
    {
      MarkIsExact(t, t1, lock, remote, draft, live, id, accepts, now);
    }
  }

  /**
   * What a dispatch does to the live credential `live`: its deletion is started at the next revision, or it is created
   * for that, and the answer is marked on it under one revision more. No other credential changes.
   */
  ghost predicate Dispatched(t: Table, t': Table, lock: string, remote: string, draft: Cred, live: int, accepts: bool,
                             now: Instant) {
    && IsLive(t', lock, remote, live) && (forall id | id in t.rows :: IsLive(t, lock, remote, id) <==> id == live)
    && t'.rows.Keys == t.rows.Keys + {live} && (forall id | id in t.rows && id != live :: t'.rows[id] == t.rows[id])
    && var c := Begun(t, lock, remote, draft, live);
       t'.rows[live] == if MarkReaches(t, lock, remote)
                        then c.(revision := c.revision + 1, accepted := c.accepted || accepts,
                                nextRetry := if accepts then None else Some(now + 60 * SECOND))
                        else c
  }

  /** The live credential as a deletion starts. */
  function Begun(t: Table, lock: string, remote: string, draft: Cred, live: int): Cred {
    if live in t.rows then t.rows[live].(state := DeletePending, revision := t.rows[live].revision + 1)
    else draft.(id := live, lock := lock, remote := Some(remote), state := DeletePending, revision := 1,
                accepted := false)
  }

  /** The newest credential with the remote id is live, or none is. */
  ghost predicate MarkReaches(t: Table, lock: string, remote: string) {
    (exists id :: IsLive(t, lock, remote, id)) ==>
      forall id | IsNewest(t, lock, remote, id) :: IsLive(t, lock, remote, id)
  }

  function Kept(id: int, state: State): Cred {
    Cred(id, None, "lock", Some("r"), "guest", 0, 1, true, state, 1, None, false, None)
  }

  /** Beside a newer deleted credential with the same remote id the acceptance of a dispatched DELETE is lost. */
  lemma DispatchLosesAcceptance(draft: Cred, now: Instant)
    ensures var t := Table(map[1 := Kept(1, Active), 2 := Kept(2, Deleted)], 3);
            var t' := Dispatch(t, "lock", "r", draft, true, now);
            && Good(t) && !MarkReaches(t, "lock", "r") && IsSent(t, DispatchStep("lock", "r", draft, true, now), 1)
            && IsLive(t', "lock", "r", 1) && !t'.rows[1].accepted
  {
    hide Dispatch, StartDeletion, AllSpace, Grows;
    var t := Table(map[1 := Kept(1, Active), 2 := Kept(2, Deleted)], 3);
    assert IsLive(t, "lock", "r", 1) && IsNewest(t, "lock", "r", 2);
    LetterIsName();
    assert Good(t) && !MarkReaches(t, "lock", "r");
    var live := DispatchIsExact(t, "lock", "r", draft, true, now);
    assert live == 1;
  }

  lemma NewestExists(t: Table, lock: string, remote: string, id: int)
    requires TableOk(t) && IsLive(t, lock, remote, id)
    ensures exists k :: IsNewest(t, lock, remote, k)
  {
    NamedHasNewest(t, lock, remote, id);
  }

  lemma {:induction false} NamedHasNewest(t: Table, lock: string, remote: string, id: int)
    requires TableOk(t) && id in t.rows && Named(t.rows[id], lock, remote)
    ensures exists k :: IsNewest(t, lock, remote, k)
    decreases t.nextId - id
  {
    if k :| k in t.rows && Named(t.rows[k], lock, remote) && k > id {
      NamedHasNewest(t, lock, remote, k);
    } else {
      assert IsNewest(t, lock, remote, id);
    }
  }

  lemma MarkIsExact(t: Table, t1: Table, lock: string, remote: string, draft: Cred, live: int, id: int, accepts: bool,
                    now: Instant)
    requires Good(t1) && Grows(t, t1) && Started(t, t1, lock, remote, draft, live) && IsNewest(t1, lock, remote, id)
    ensures id in t1.rows
    ensures var t' := Mark(t1, id, accepts, now).0;
            Good(t') && Grows(t, t') && Dispatched(t, t', lock, remote, draft, live, accepts, now)
  {
    if id == live {
      MarkIsStored(t1, id, accepts, now);
      assert MarkReaches(t, lock, remote);
    } else {
      assert !IsLive(t1, lock, remote, id) && IsLive(t1, lock, remote, live);
      MarkIsRefused(t1, lock, remote, live, id, accepts, now);
      assert IsNewest(t, lock, remote, id);
    }
  }

  lemma MarkIsStored(t: Table, id: int, accepts: bool, now: Instant)
    requires Good(t) && id in t.rows && t.rows[id].state == DeletePending
    ensures var c := t.rows[id].(revision := t.rows[id].revision + 1, accepted := t.rows[id].accepted || accepts,
                                 nextRetry := if accepts then None else Some(now + 60 * SECOND));
            Mark(t, id, accepts, now).0 == t.(rows := t.rows[id := c]) && Good(Mark(t, id, accepts, now).0)
  {
    QuietWrite(t, id, t.rows[id].(revision := t.rows[id].revision + 1, accepted := t.rows[id].accepted || accepts,
                                  nextRetry := if accepts then None else Some(now + 60 * SECOND)));
  }

  lemma MarkIsRefused(t: Table, lock: string, remote: string, live: int, id: int, accepts: bool, now: Instant)
    requires TableOk(t) && IsLive(t, lock, remote, live) && id in t.rows && Named(t.rows[id], lock, remote)
             && id != live
    ensures Mark(t, id, accepts, now).0 == t
  {
    if Mark(t, id, accepts, now).1 {
      var t' := Mark(t, id, accepts, now).0;
      assert Clash(t'.rows[id], t'.rows[live]);
    }
  }

  /** A single write made on behalf of a request. */
  lemma RequestKeeps(t: Table, st: Step)
    requires Good(t) && (st.IntentStep? || st.AnswerStep? || st.BeginUpdate?)
    ensures Good(Apply(t, st)) && Grows(t, Apply(t, st))
  {
  }

  /** The unique index never refuses a new intent: it has no remote id yet, and it waits for its first correlation. */
  lemma IntentIsStored(t: Table, draft: Cred)
    requires Good(t)
    ensures var t' := Apply(t, IntentStep(draft));
            && t'.rows.Keys == t.rows.Keys + {t.nextId} && t'.nextId == t.nextId + 1
            && (forall id | id in t.rows :: t'.rows[id] == t.rows[id])
            && t'.rows[t.nextId] == Cred(t.nextId, draft.stay, draft.lock, None, draft.name, draft.validFrom,
                                         draft.validUntil, draft.enabled, CreatePending, 1, draft.pin, false,
                                         draft.nextRetry)
  {
  }

  /** Nor a new label or window: exactly an active credential starts an update, due at once. */
  lemma UpdateIsStarted(t: Table, id: int, name: string, validFrom: Instant, validUntil: Instant, enabled: bool)
    requires Good(t)
    ensures var t' := Apply(t, BeginUpdate(id, name, validFrom, validUntil, enabled));
            if id in t.rows && t.rows[id].state == Active then
              && t'.rows.Keys == t.rows.Keys && t'.nextId == t.nextId
              && (forall x | x in t.rows && x != id :: t'.rows[x] == t.rows[x])
              && var c := t.rows[id];
                 t'.rows[id] == Cred(id, c.stay, c.lock, c.remote, name, validFrom, validUntil, enabled, UpdatePending,
                                     c.revision + 1, c.pin, c.accepted, None)
            else t' == t
  {
    if id in t.rows && t.rows[id].state == Active {
      var c := t.rows[id];
      QuietWrite(t, id, c.(state := UpdatePending, revision := c.revision + 1, name := name, validFrom := validFrom,
                           validUntil := validUntil, enabled := enabled, nextRetry := None));
    }
  }

  lemma BlankDispatchIsNothing(t: Table, st: Step)
    requires st.DispatchStep? && AllSpace(st.target)
    ensures Grows(t, Apply(t, st)) && Apply(t, st) == t
  {
  }

  lemma StepKeeps(t: Table, st: Step)
    requires Good(t) && Admissible(t, st)
    ensures Good(Apply(t, st)) && Grows(t, Apply(t, st))
  {
    hide Good, Grows, CreationAll, DeletionAll, UpdateAll, StartDeletion, Dispatch, Justified, DeletedExactly,
      UpdatedExactly, Dispatched, IsSent;
    match st
    case CreationPass(items, r) => CreationPassIsExact(t, items, r);
    case DeletionPass(items, r, accepts) => DeletionPassIsExact(t, items, r, accepts);
    case UpdatePass(items, r) => UpdatePassKeeps(t, items, r);
    case BeginDeletion(lock, remote, draft) => StartDeletionKeeps(t, lock, remote, draft);
    case DispatchStep(lock, remote, draft, accepts, now) =>
      if !AllSpace(remote) {
        var _ := DispatchIsExact(t, lock, remote, draft, accepts, now);
      } else {
        BlankDispatchIsNothing(t, st);
      }
    case _ => RequestKeeps(t, st);
  }

  ghost predicate IsRun(ts: seq<Table>, steps: seq<Step>) {
    && |ts| == |steps| + 1
    && forall i | 0 <= i < |steps| :: Admissible(ts[i], steps[i]) && ts[i + 1] == Apply(ts[i], steps[i])
  }

  /** Over every run no two credentials that are not deleted share a remote id on a lock. */
  lemma {:induction false} RemoteIdsStayUnique(ts: seq<Table>, steps: seq<Step>, n: nat)
    requires IsRun(ts, steps) && Good(ts[0]) && n <= |steps|
    ensures Good(ts[n])
  {
    if n > 0 {
      RemoteIdsStayUnique(ts, steps, n - 1);
      StepKeeps(ts[n - 1], steps[n - 1]);
    }
  }

  lemma {:induction false} AcceptanceSticks(ts: seq<Table>, steps: seq<Step>, i: nat, j: nat, id: int)
    requires IsRun(ts, steps) && Good(ts[0]) && i <= j <= |steps|
    requires id in ts[i].rows && ts[i].rows[id].accepted
    ensures id in ts[j].rows && ts[j].rows[id].accepted
  {
    hide Apply, Good, Admissible;
    if i < j {
      AcceptanceSticks(ts, steps, i, j - 1, id);
      RemoteIdsStayUnique(ts, steps, j - 1);
      StepKeeps(ts[j - 1], steps[j - 1]);
    }
  }

  /** The step is a deletion dispatched for the live credential `id`. */
  predicate DispatchesFor(t: Table, st: Step, id: int) {
    st.DispatchStep? && !AllSpace(st.target) && IsLive(t, st.lock, st.target, id)
  }

  /**
   * Once a DELETE was accepted for a credential, no pass sends another; a later step sends one exactly when it is a
   * deletion that a request dispatches for the credential.
   */
  lemma AcceptedIsResentExactly(ts: seq<Table>, steps: seq<Step>, i: nat, j: nat, id: int)
    requires IsRun(ts, steps) && Good(ts[0]) && i <= j < |steps|
    requires id in ts[i].rows && ts[i].rows[id].accepted
    ensures IsSent(ts[j], steps[j], id) <==> DispatchesFor(ts[j], steps[j], id)
  {
    AcceptanceSticks(ts, steps, i, j, id);
    RemoteIdsStayUnique(ts, steps, j);
    if steps[j].DeletionPass? {
      PassNeverResends(ts[j], steps[j], id);
    } else if steps[j].DispatchStep? {
      DispatchSendsExactly(ts[j], steps[j], id);
    }
  }

  lemma PassNeverResends(t: Table, st: Step, id: int)
    requires Good(t) && Admissible(t, st) && st.DeletionPass? && id in t.rows && t.rows[id].accepted
    ensures !IsSent(t, st, id)
  {
    DeletionPassIsExact(t, st.items, st.r, st.accepts);
    if c :| c in st.items && c.id == id {
      assert IsCurrent(t, c);
    }
  }

  lemma DispatchSendsExactly(t: Table, st: Step, id: int)
    requires Good(t) && st.DispatchStep? && id in t.rows
    ensures IsSent(t, st, id) <==> DispatchesFor(t, st, id)
  {
    if !AllSpace(st.target) {
      var _ := DispatchIsExact(t, st.lock, st.target, st.draft, st.heard, st.now);
    }
  }

  /** The acceptance a pass hears is remembered. */
  lemma SentAcceptanceIsKept(t: Table, items: seq<Cred>, r: Round, accepts: int -> bool, id: int)
    requires Good(t) && Loaded(t, DeletePending, items)
    requires id in DeletionAll(t, items, r, accepts).sent && accepts(id)
    ensures id in DeletionAll(t, items, r, accepts).table.rows
            && DeletionAll(t, items, r, accepts).table.rows[id].accepted
    decreases |items|
  {
    hide Good, DeletionStep, DeletedExactly, DeletionsCounted, Omitted, Nameless;
    var n := |items| - 1;
    var init, last := items[..n], items[n];
    assert items == init + [last];
    assert Loaded(t, DeletePending, init) by {
      assert forall c | c in init :: c in items;
    }
    DeletionPassIsExact(t, init, r, accepts);
    var d1 := DeletionAll(t, init, r, accepts);
    LoadedPrefix(t, d1.table, DeletePending, items);
    DeletionIsExact(d1, last, r, accepts(last.id));
    if id in d1.sent {
      SentAcceptanceIsKept(t, init, r, accepts, id);
    }
  }

  /**
   * A creation confirmed by correlation counts as accepted from then on, also for a later deletion: only a dispatched
   * deletion ever sends a DELETE for it. No pass does, not even for a stay that is no longer eligible.
   */
  lemma CorrelatedIsSentExactly(ts: seq<Table>, steps: seq<Step>, i: nat, j: nat, n: nat)
    requires IsRun(ts, steps) && Good(ts[0]) && i < j < |steps| && steps[i].CreationPass?
    requires n < |steps[i].items|
    requires steps[i].items[n].id in ts[i + 1].rows && Confirmed(ts[i + 1].rows[steps[i].items[n].id])
    ensures IsSent(ts[j], steps[j], steps[i].items[n].id) <==> DispatchesFor(ts[j], steps[j], steps[i].items[n].id)
  {
    hide Good, Grows, CreationAll, CreationsCounted, OnlyCandidate, Matched, IsSent, DispatchesFor;
    RemoteIdsStayUnique(ts, steps, i);
    CreationPassIsExact(ts[i], steps[i].items, steps[i].r);
    AcceptedIsResentExactly(ts, steps, i + 1, j, steps[i].items[n].id);
  }

  predicate IsPass(st: Step) {
    st.CreationPass? || st.DeletionPass? || st.UpdatePass?
  }

  /** An accepted deletion the provider keeps showing stays pending through every run of passes, and is never sent. */
  lemma {:induction false} ShownStaysPending(ts: seq<Table>, steps: seq<Step>, i: nat, j: nat, id: int)
    requires IsRun(ts, steps) && Good(ts[0]) && i <= j <= |steps|
    requires forall k | i <= k < j :: IsPass(steps[k])
    requires id in ts[i].rows && ts[i].rows[id].accepted && ts[i].rows[id].state == DeletePending
             && ts[i].rows[id].remote.Some?
    requires forall k | i <= k < j && steps[k].DeletionPass? ::
               steps[k].r.lock == ts[i].rows[id].lock && Present(steps[k].r.inventory, ts[i].rows[id].remote.value)
    ensures id in ts[j].rows && ts[j].rows[id].state == DeletePending && ts[j].rows[id].lock == ts[i].rows[id].lock
            && ts[j].rows[id].remote == ts[i].rows[id].remote
    ensures forall k | i <= k < j :: !IsSent(ts[k], steps[k], id)
  {
    hide Apply, IsSent, Good, IsPass, Admissible, Present;
    if i < j {
      ShownStaysPending(ts, steps, i, j - 1, id);
      RemoteIdsStayUnique(ts, steps, j - 1);
      AcceptedIsResentExactly(ts, steps, i, j - 1, id);
      PassIsNoDispatch(ts[j - 1], steps[j - 1], id);
      PassKeepsShown(ts[j - 1], steps[j - 1], id);
    }
  }

  lemma PassIsNoDispatch(t: Table, st: Step, id: int)
    requires IsPass(st)
    ensures !DispatchesFor(t, st, id)
  {
  }

  lemma PassKeepsShown(t: Table, st: Step, id: int)
    requires Good(t) && Admissible(t, st) && IsPass(st)
    requires id in t.rows && t.rows[id].state == DeletePending && t.rows[id].remote.Some?
    requires st.DeletionPass? ==> st.r.lock == t.rows[id].lock && Present(st.r.inventory, t.rows[id].remote.value)
    ensures var t' := Apply(t, st);
            id in t'.rows && t'.rows[id].state == DeletePending && t'.rows[id].lock == t.rows[id].lock
            && t'.rows[id].remote == t.rows[id].remote
  {
    match st
    case CreationPass(items, r) =>
      CreationPassIsExact(t, items, r);
      assert forall c | c in items :: c.id != id;
    case UpdatePass(items, r) =>
      UpdatePassKeeps(t, items, r);
      assert forall c | c in items :: c.id != id;
    case DeletionPass(items, r, accepts) =>
      ListedStaysPending(t, items, r, accepts, id);
  }

  lemma ListedStaysPending(t: Table, items: seq<Cred>, r: Round, accepts: int -> bool, id: int)
    requires Good(t) && Loaded(t, DeletePending, items)
    requires id in t.rows && t.rows[id].state == DeletePending && t.rows[id].remote.Some?
    requires r.lock == t.rows[id].lock && Present(r.inventory, t.rows[id].remote.value)
    ensures var t' := DeletionAll(t, items, r, accepts).table;
            id in t'.rows && t'.rows[id].state == DeletePending && t'.rows[id].lock == t.rows[id].lock
            && t'.rows[id].remote == t.rows[id].remote
  {
    hide Good, DeletionAll, DeletionsCounted, Sends, Nameless, Grows;
    DeletionPassIsExact(t, items, r, accepts);
    if c :| c in items && c.id == id {
      assert IsCurrent(t, c) && !Omitted(c, r);
    }
  }

  // ---------- the passes ----------

  /** The unowned inventory rows that equal the intent's tuple. */
  method FindMatches(t: Table, intent: Cred, inventory: seq<Auth>) returns (matches: seq<Auth>)
    ensures matches == Matches(t, intent, inventory)
  {
    matches := [];
    for i := 0 to |inventory|
      invariant matches == Matches(t, intent, inventory[..i])
    {
      assert inventory[..i + 1][..i] == inventory[..i];
      var row := inventory[i];
      if Fits(row, intent) && !Owned(t, intent.lock, row.externalId, intent.id) {
        matches := matches + [row];
      }
    }
    assert inventory[..|inventory|] == inventory;
  }

  class Service {
    var table: Table

    constructor (table: Table)
      ensures this.table == table
    {
      this.table := table;
    }

    /** One intent of a creation pass. */
    method CorrelateCreation(intent: Cred, r: Round, before: CreationStats) returns (stats: CreationStats)
      modifies this
      ensures (table, stats) == CreationStep(old(table), intent, r, before)
    {
      stats := before.(processed := before.processed + 1);
      var claim := Claim(table, intent.id, intent.revision);
      if !claim.1 {
        return stats.(failed := stats.failed + 1);
      }
      table := claim.0;
      var write;
      if intent.lock != r.lock {
        write := UpdateOperation(table, intent.id, NeedsReview, intent.revision + 2, None, None, false);
        table := write.0;
        return if write.1 then stats.(review := stats.review + 1) else stats.(failed := stats.failed + 1);
      }
      var matches := FindMatches(table, intent, r.inventory);
      if |matches| != 1 {
        var state := CreatePending;
        if intent.revision >= REVIEW_REVISION {
          state := NeedsReview;
          stats := stats.(review := stats.review + 1);
        } else {
          stats := stats.(pending := stats.pending + 1);
        }
        write := UpdateOperation(table, intent.id, state, intent.revision + 1, None,
                                 Some(r.now + Backoff(intent.revision)), false);
        table := write.0;
        return if write.1 then stats else stats.(failed := stats.failed + 1);
      }
      write := ConfirmCreation(table, intent.id, intent.revision + 1, matches[0].externalId,
                               intent.stay.Some? && intent.stay.value in r.eligible);
      table := write.0;
      return if write.1 then stats.(confirmed := stats.confirmed + 1) else stats.(failed := stats.failed + 1);
    }

    method ReconcilePendingNukiCreations(items: seq<Cred>, r: Round) returns (stats: CreationStats)
      requires Good(table) && Loaded(table, CreatePending, items)
      modifies this
      ensures (table, stats) == CreationAll(old(table), items, r)
      ensures Good(table) && Grows(old(table), table) && Spares(old(table), table, items)
      ensures Justified(Turns(old(table), items, r), table, items, r) && CreationsCounted(table, stats, items, r)
    {
      stats := CreationStats(0, 0, 0, 0, 0);
      for n := 0 to |items|
        invariant (table, stats) == CreationAll(old(table), items[..n], r)
      {
        assert items[..n + 1][..n] == items[..n];
        stats := CorrelateCreation(items[n], r, stats);
      }
      assert items[..|items|] == items;
      CreationPassIsExact(old(table), items, r);
    }

    /** One row of a deletion pass. */
    method AdvanceDeletion(item: Cred, r: Round, accepts: bool, before: Deleting) returns (after: Deleting)
      requires before.table == table
      modifies this
      ensures after == DeletionStep(before, item, r, accepts) && after.table == table
    {
      hide UpdateOperation, ConfirmDeletion, TrimSpace;
      var stats, sent := before.stats.(processed := before.stats.processed + 1), before.sent;
      var done := stats.(retained := stats.retained + 1);
      var write;
      if item.lock != r.lock {
        write := UpdateOperation(table, item.id, NeedsReview, item.revision + 1, None, None, false);
      } else if item.remote.None? || TrimSpace(item.remote.value) == "" {
        return Deleting(table, stats.(failed := stats.failed + 1), sent);
      } else {
        var present, i := false, 0;
        while i < |r.inventory| && !present
          invariant 0 <= i <= |r.inventory| && unchanged(this)
          invariant present <==> exists k :: 0 <= k < i && r.inventory[k].externalId == item.remote.value
        {
          present := r.inventory[i].externalId == item.remote.value;
          i := i + 1;
        }
        if !present {
          write := ConfirmDeletion(table, item.id, item.revision);
          done := stats.(confirmed := stats.confirmed + 1);
        } else {
          var heard := true;
          if !item.accepted {
            sent := sent + [item.id];
            heard := accepts;
          }
          write := UpdateOperation(table, item.id, DeletePending, item.revision + 1, None, Some(r.now + 60 * SECOND),
                                   heard);
        }
      }
      table := write.0;
      return Deleting(table, if write.1 then done else stats.(failed := stats.failed + 1), sent);
    }

    method ReconcilePendingNukiDeletions(items: seq<Cred>, r: Round, accepts: int -> bool)
      returns (stats: DeletionStats, sent: seq<int>)
      requires Good(table) && Loaded(table, DeletePending, items)
      modifies this
      ensures Deleting(table, stats, sent) == DeletionAll(old(table), items, r, accepts)
      ensures Good(table) && Grows(old(table), table) && Spares(old(table), table, items)
      ensures DeletedExactly(table, sent, items, r, accepts)
      ensures DeletionsCounted(stats, items, r)
    {
      var run := Deleting(table, DeletionStats(0, 0, 0, 0), []);
      for n := 0 to |items|
        invariant run == DeletionAll(old(table), items[..n], r, accepts) && run.table == table
      {
        assert items[..n + 1][..n] == items[..n];
        run := AdvanceDeletion(items[n], r, accepts(items[n].id), run);
      }
      assert items[..|items|] == items;
      DeletionPassIsExact(old(table), items, r, accepts);
      return run.stats, run.sent;
    }

    /** The start, the DELETE and the mark of a deletion asked for by a request. */
    method DispatchDeletion(lock: string, remote: string, draft: Cred, accepts: bool, now: Instant)
      returns (sent: bool, ghost live: int)
      requires Good(table)
      modifies this
      ensures table == Dispatch(old(table), lock, remote, draft, accepts, now)
      ensures sent <==> !AllSpace(remote)
      ensures sent ==>
                Good(table) && Grows(old(table), table)
                && Dispatched(old(table), table, lock, remote, draft, live, accepts, now)
    {
      TrimsToNothing(remote);
      if TrimSpace(remote) == "" {
        return false, 0;
      }
      live := DispatchIsExact(table, lock, remote, draft, accepts, now);
      ghost var started := StartedIsOne(table, lock, remote, draft);
      hide Good, Grows, Dispatched, StartDeletion, Mark;
      var start := StartDeletion(table, lock, remote, draft);
      table := start.0;
      assert IsLive(table, lock, remote, started);
      var newest := FindNewest(table, lock, remote);
      var write := Mark(table, newest.value, accepts, now);
      table := write.0;
      return true, live;
    }

    /** One row of an update pass. */
    method AdvanceUpdate(item: Cred, r: Round, before: UpdateStats) returns (stats: UpdateStats)
      modifies this
      ensures (table, stats) == UpdateStep(old(table), item, r, before)
    {
      stats := before.(processed := before.processed + 1);
      var done := stats.(pending := stats.pending + 1);
      var write;
      if item.lock != r.lock {
        write := UpdateOperation(table, item.id, NeedsReview, item.revision + 1, None, None, false);
      } else if item.remote.None? {
        return stats.(failed := stats.failed + 1);
      } else {
        var matched, i := false, 0;
        while i < |r.inventory| && !matched
          invariant 0 <= i <= |r.inventory| && unchanged(this)
          invariant matched <==> exists k :: 0 <= k < i && Reflects(r.inventory[k], item)
        {
          matched := Reflects(r.inventory[i], item);
          i := i + 1;
        }
        if matched {
          write := ConfirmUpdate(table, item.id, item.revision);
          done := stats.(confirmed := stats.confirmed + 1);
        } else {
          write := UpdateOperation(table, item.id, UpdatePending, item.revision + 1, None,
                                   Some(r.now + Backoff(item.revision)), true);
        }
      }
      table := write.0;
      return if write.1 then done else stats.(failed := stats.failed + 1);
    }

    method ReconcilePendingNukiUpdates(items: seq<Cred>, r: Round) returns (stats: UpdateStats)
      requires Good(table) && Loaded(table, UpdatePending, items)
      modifies this
      ensures (table, stats) == UpdateAll(old(table), items, r)
      ensures Good(table) && Grows(old(table), table) && Spares(old(table), table, items)
      ensures UpdatedExactly(table, items, r) && UpdatesCounted(stats, items, r)
    {
      stats := UpdateStats(0, 0, 0, 0);
      for n := 0 to |items|
        invariant (table, stats) == UpdateAll(old(table), items[..n], r)
      {
        assert items[..n + 1][..n] == items[..n];
        stats := AdvanceUpdate(items[n], r, stats);
      }
      assert items[..|items|] == items;
      UpdatePassKeeps(old(table), items, r);
    }
  }
}
