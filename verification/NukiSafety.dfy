/** What the credential passes keep, and exactly when they confirm, send and retry. */
module NukiSafety {
  import opened Text
  import opened NukiLifecycle

  predicate Good(t: Table) {
    TableOk(t) && RemoteUnique(t)
  }

  /** No credential disappears, moves to another lock or stay, or forgets that a request was accepted. */
  predicate Grows(t: Table, t': Table) {
    t.nextId <= t'.nextId
    && forall id | id in t.rows ::
         id in t'.rows && t'.rows[id].lock == t.rows[id].lock && t'.rows[id].stay == t.rows[id].stay
                                   && (t.rows[id].accepted ==> t'.rows[id].accepted)
  }

  /** Only row `id` differs. */
  predicate Only(t: Table, t': Table, id: int) {
    t'.nextId == t.nextId && t'.rows.Keys == t.rows.Keys && forall x | x in t.rows && x != id :: t'.rows[x] == t.rows[x]
  }

  /** `c` could be the current value of a credential the pass loaded. */
  predicate IsCurrent(t: Table, c: Cred) {
    c.id in t.rows && t.rows[c.id] == c
  }

  // ---------- creations ----------

  /** Row `a` shows what the intent asked for, under an id that no other live credential on the lock has. */
  predicate Unclaimed(t: Table, intent: Cred, a: Auth) {
    && a.externalId != ""
    && a == Auth(a.externalId, intent.lock, KEYPAD, intent.name, if intent.pin.Some? then intent.pin.value else "",
                 Some(intent.validFrom), Some(intent.validUntil), intent.enabled)
    && forall id | id in t.rows && id != intent.id && t.rows[id].lock == intent.lock && t.rows[id].state != Deleted ::
         t.rows[id].remote != Some(a.externalId)
  }

  lemma CandidateIsUnclaimed(t: Table, intent: Cred, a: Auth)
    ensures Candidate(t, intent, a) <==> Unclaimed(t, intent, a)
  {
  }

  lemma LastIsNone(t: Table, intent: Cred, inventory: seq<Auth>, i: int)
    requires inventory != [] && !Unclaimed(t, intent, inventory[|inventory| - 1])
    ensures OnlyCandidate(t, intent, inventory[..|inventory| - 1], i) <==> OnlyCandidate(t, intent, inventory, i)
  {
    hide Unclaimed;
    var init := inventory[..|inventory| - 1];
    if OnlyCandidate(t, intent, init, i) {
      forall k | 0 <= k < |inventory| && k != i
        ensures !Unclaimed(t, intent, inventory[k])
      {
        assert k < |init| ==> init[k] == inventory[k];
      }
    }
    if OnlyCandidate(t, intent, inventory, i) {
      forall k | 0 <= k < |init| && k != i
        ensures !Unclaimed(t, intent, init[k])
      {
        assert init[k] == inventory[k];
      }
    }
  }

  lemma {:induction false} MatchesAreCandidates(t: Table, intent: Cred, inventory: seq<Auth>)
    ensures |Matches(t, intent, inventory)| <= |inventory|
    ensures |Matches(t, intent, inventory)| == 0 <==>
              forall i | 0 <= i < |inventory| :: !Unclaimed(t, intent, inventory[i])
    ensures |Matches(t, intent, inventory)| == 1 <==> exists i :: OnlyCandidate(t, intent, inventory, i)
    ensures forall i | OnlyCandidate(t, intent, inventory, i) :: Matches(t, intent, inventory) == [inventory[i]]
  {
    hide Candidate, Unclaimed;
    if inventory != [] {
      var n := |inventory| - 1;
      var init, last := inventory[..n], inventory[n];
      MatchesAreCandidates(t, intent, init);
      CandidateIsUnclaimed(t, intent, last);
      if Unclaimed(t, intent, last) {
        if forall i | 0 <= i < n :: !Unclaimed(t, intent, init[i]) {
          assert OnlyCandidate(t, intent, inventory, n);
        }
      } else {
        forall i
          ensures OnlyCandidate(t, intent, init, i) <==> OnlyCandidate(t, intent, inventory, i)
        {
          LastIsNone(t, intent, inventory, i);
        }
      }
    }
  }

  /** Position `i` of the inventory holds the one unclaimed row that shows what the intent asked for. */
  predicate OnlyCandidate(t: Table, intent: Cred, inventory: seq<Auth>, i: int) {
    0 <= i < |inventory| && Unclaimed(t, intent, inventory[i])
    && forall j | 0 <= j < |inventory| && j != i :: !Unclaimed(t, intent, inventory[j])
  }

  /** Exactly one row shows what the intent asked for. */
  ghost predicate Matched(t: Table, intent: Cred, r: Round) {
    exists i :: OnlyCandidate(t, intent, r.inventory, i)
  }

  predicate Confirmed(c: Cred) {
    c.state == Active || c.state == DeletePending
  }

  lemma ClaimKeepsCandidates(t: Table, intent: Cred, inventory: seq<Auth>)
    requires IsCurrent(t, intent) && intent.state == CreatePending
    ensures Matches(Claim(t, intent.id, intent.revision).0, intent, inventory) == Matches(t, intent, inventory)
  {
    var t1 := Claim(t, intent.id, intent.revision).0;
    forall remote ensures Owned(t1, intent.lock, remote, intent.id) <==> Owned(t, intent.lock, remote, intent.id) {
      forall id | id in t.rows && id != intent.id ensures t1.rows[id] == t.rows[id] {
      }
    }
    MatchesDependOnOwners(t, t1, intent, inventory);
  }

  lemma {:induction false} MatchesDependOnOwners(t: Table, t1: Table, intent: Cred, inventory: seq<Auth>)
    requires forall remote :: Owned(t1, intent.lock, remote, intent.id) <==> Owned(t, intent.lock, remote, intent.id)
    ensures Matches(t1, intent, inventory) == Matches(t, intent, inventory)
  {
    if inventory != [] {
      MatchesDependOnOwners(t, t1, intent, inventory[..|inventory| - 1]);
    }
  }

  /** Confirming an unowned row cannot clash: the pass never relies on the unique index. */
  lemma UnownedNeverClashes(t: Table, c: Cred, remote: string)
    requires Good(t) && IsCurrent(t, c) && !Owned(t, c.lock, remote, c.id)
    ensures forall s, rev, pin, retry, acc ::
              RemoteUnique(t.(rows := t.rows[c.id := c.(state := s, revision := rev, remote := Some(remote), pin := pin,
                                                        nextRetry := retry, accepted := acc)]))
  {
  }

  /** What the turn of an intent makes of the table and of the counters. */
  ghost predicate TurnDone(t: Table, t': Table, st: CreationStats, st': CreationStats, intent: Cred, r: Round) {
    && Good(t') && Grows(t, t') && Only(t, t', intent.id) && intent.id in t'.rows
    && Settles(t, t'.rows[intent.id], intent, r) && CreationCounted(t, st, st', intent, r)
  }

  /** Row `c` is what one turn makes of an intent that finds table `t`. */
  ghost predicate Settles(t: Table, c: Cred, intent: Cred, r: Round) {
    if intent.lock != r.lock then c == intent.(state := NeedsReview, revision := intent.revision + 2, nextRetry := None)
    else if intent.stay.Some? && Matched(t, intent, r) then Took(t, c, intent, r)
    else c == intent.(revision := intent.revision + 1)
  }

  /** A confirmed intent holds the id of the one matching row, counts as accepted, and has no PIN any more. */
  ghost predicate Took(t: Table, c: Cred, intent: Cred, r: Round) {
    && intent.stay.Some?
    && exists i :: OnlyCandidate(t, intent, r.inventory, i)
                   && c == intent.(state := if intent.stay.value in r.eligible then Active else DeletePending,
                                   revision := intent.revision + 2, remote := Some(r.inventory[i].externalId),
                                   pin := None, nextRetry := None, accepted := true)
  }

  /** An intent without a single match counts as waiting, or as due for review, and as failed. */
  ghost predicate CreationCounted(t: Table, st: CreationStats, st': CreationStats, intent: Cred, r: Round) {
    var turn := st.(processed := st.processed + 1);
    st' == if intent.lock != r.lock then turn.(review := st.review + 1)
           else if Matched(t, intent, r) then
             if intent.stay.Some? then turn.(confirmed := st.confirmed + 1) else turn.(failed := st.failed + 1)
           else if intent.revision >= REVIEW_REVISION then turn.(review := st.review + 1, failed := st.failed + 1)
           else turn.(pending := st.pending + 1, failed := st.failed + 1)
  }

  lemma ReboundIsReviewed(t: Table, intent: Cred, r: Round, st: CreationStats)
    requires Good(t) && IsCurrent(t, intent) && intent.state == CreatePending && intent.lock != r.lock
    ensures var (t', st') := CreationStep(t, intent, r, st); TurnDone(t, t', st, st', intent, r)
  {
    hide Matches, Candidate, Good, Matched, Took;
    ClaimIsQuiet(t, intent);
    var t1 := Claim(t, intent.id, intent.revision).0;
    QuietWrite(t1, intent.id,
               t1.rows[intent.id].(state := NeedsReview, revision := intent.revision + 2, nextRetry := None));
  }

  lemma UnmatchedWaits(t: Table, intent: Cred, r: Round, st: CreationStats)
    requires Good(t) && IsCurrent(t, intent) && intent.state == CreatePending && intent.lock == r.lock
    requires |Matches(t, intent, r.inventory)| != 1
    ensures var (t', st') := CreationStep(t, intent, r, st); TurnDone(t, t', st, st', intent, r)
  {
    hide Matches, Candidate, Good, OnlyCandidate, Took, Backoff;
    ClaimIsQuiet(t, intent);
    ClaimKeepsCandidates(t, intent, r.inventory);
    MatchesAreCandidates(t, intent, r.inventory);
  }

  lemma MatchedIsConfirmed(t: Table, intent: Cred, r: Round, st: CreationStats)
    requires Good(t) && IsCurrent(t, intent) && intent.state == CreatePending && intent.lock == r.lock
    requires |Matches(t, intent, r.inventory)| == 1
    ensures var (t', st') := CreationStep(t, intent, r, st); TurnDone(t, t', st, st', intent, r)
  {
    hide Matches, Candidate, Unclaimed;
    var t1 := Claim(t, intent.id, intent.revision).0;
    ClaimIsQuiet(t, intent);
    ClaimKeepsCandidates(t, intent, r.inventory);
    MatchesAreCandidates(t, intent, r.inventory);
    var i :| OnlyCandidate(t, intent, r.inventory, i);
    var found := r.inventory[i].externalId;
    UnclaimedIsUnowned(t, intent, r.inventory[i]);
    ClaimedIsUnowned(t, intent, found);
    UnownedNeverClashes(t1, t1.rows[intent.id], found);
  }

  lemma UnclaimedIsUnowned(t: Table, intent: Cred, a: Auth)
    requires Unclaimed(t, intent, a)
    ensures !Owned(t, intent.lock, a.externalId, intent.id)
  {
  }

  /**
   * A creation intent is confirmed in its turn exactly when it is for the bound lock, names a stay, and exactly one
   * unclaimed inventory row shows what it asked for; it then takes that row's id and counts as accepted. Under another
   * lock binding it goes to review. Otherwise its turn leaves nothing but the claimed revision.
   */
  lemma CreationIsExact(t: Table, intent: Cred, r: Round, st: CreationStats)
    requires Good(t) && IsCurrent(t, intent) && intent.state == CreatePending
    ensures var (t', st') := CreationStep(t, intent, r, st);
            && Good(t') && Grows(t, t') && Only(t, t', intent.id) && intent.id in t'.rows
            && Settles(t, t'.rows[intent.id], intent, r) && CreationCounted(t, st, st', intent, r)
            && (Confirmed(t'.rows[intent.id]) <==>
                  intent.lock == r.lock && intent.stay.Some? && Matched(t, intent, r))
  {
    hide CreationStep, Good, Grows, Only, OnlyCandidate, CreationCounted, Matched;
    if intent.lock != r.lock {
      ReboundIsReviewed(t, intent, r, st);
    } else if |Matches(t, intent, r.inventory)| == 1 {
      MatchedIsConfirmed(t, intent, r, st);
    } else {
      UnmatchedWaits(t, intent, r, st);
    }
  }

  lemma ClaimIsQuiet(t: Table, c: Cred)
    requires Good(t) && IsCurrent(t, c) && c.state == CreatePending
    ensures var t1 := Claim(t, c.id, c.revision).0;
            Good(t1) && Only(t, t1, c.id) && t1.rows[c.id] == c.(revision := c.revision + 1)
  {
    var t1 := Claim(t, c.id, c.revision).0;
    forall i, j | i in t1.rows && j in t1.rows ensures !Clash(t1.rows[i], t1.rows[j]) {
      assert !Clash(t.rows[i], t.rows[j]);
    }
  }

  lemma ClaimedIsUnowned(t: Table, c: Cred, remote: string)
    requires IsCurrent(t, c) && c.state == CreatePending && !Owned(t, c.lock, remote, c.id)
    ensures !Owned(Claim(t, c.id, c.revision).0, c.lock, remote, c.id)
  {
    var t1 := Claim(t, c.id, c.revision).0;
    forall id | id in t1.rows && id != c.id ensures t1.rows[id] == t.rows[id] {
    }
  }

  /** A write that neither revives a credential nor gives it a remote id is never refused. */
  lemma QuietWrite(t: Table, id: int, c: Cred)
    requires Good(t) && id in t.rows && c.id == id && c.lock == t.rows[id].lock && c.remote == t.rows[id].remote
    requires t.rows[id].state != Deleted
    ensures Write(t, c) == (t.(rows := t.rows[id := c]), true) && Good(Write(t, c).0)
  {
    var t1 := t.(rows := t.rows[id := c]);
    forall i, j | i in t1.rows && j in t1.rows ensures !Clash(t1.rows[i], t1.rows[j]) {
      assert !Clash(t.rows[i], t.rows[j]);
    }
  }

  /**
   * Without exactly one match a pass over a bound intent writes nothing but the claimed revision: the retry time, the
   * error and the step to review are offered under a revision the claim has already passed, so the store refuses them.
   */
  lemma UnmatchedIntentIsOnlyClaimed(t: Table, intent: Cred, r: Round, st: CreationStats)
    requires Good(t) && IsCurrent(t, intent) && intent.state == CreatePending && intent.lock == r.lock
    requires !Matched(t, intent, r)
    ensures var (t', st') := CreationStep(t, intent, r, st);
            t' == t.(rows := t.rows[intent.id := intent.(revision := intent.revision + 1)])
            && st'.failed == st.failed + 1
  {
    ClaimKeepsCandidates(t, intent, r.inventory);
    MatchesAreCandidates(t, intent, r.inventory);
  }

  // ---------- deletions ----------

  predicate Nameless(item: Cred) {
    item.remote.None? || AllSpace(item.remote.value)
  }

  lemma LetterIsName()
    ensures !AllSpace("r")
  {
    assert "r"[0] == 'r';
  }

  /** The provider omits the credential from the inventory fetched in this pass. */
  predicate Omitted(item: Cred, r: Round) {
    item.lock == r.lock && !Nameless(item) && forall a | a in r.inventory :: a.externalId != item.remote.value
  }

  predicate Sends(item: Cred, r: Round) {
    item.lock == r.lock && !Nameless(item) && !Omitted(item, r) && !item.accepted
  }

  /**
   * Row `c` is what one turn makes of a pending deletion: one under another lock binding goes to review, one without a
   * remote id stays as it is, an omitted one is deleted, and one still shown is due again in a minute.
   */
  ghost predicate DeletionTurn(c: Cred, item: Cred, r: Round, accepts: bool) {
    c == if item.lock != r.lock then item.(state := NeedsReview, revision := item.revision + 1, nextRetry := None)
         else if Nameless(item) then item
         else if Omitted(item, r) then
           item.(state := Deleted, revision := item.revision + 1, pin := None, nextRetry := None)
         else
           item.(state := DeletePending, revision := item.revision + 1, nextRetry := Some(r.now + 60 * SECOND),
                 accepted := item.accepted || accepts)
  }

  ghost predicate DeletionCounted(st: DeletionStats, st': DeletionStats, item: Cred, r: Round) {
    var turn := st.(processed := st.processed + 1);
    st' == if Omitted(item, r) then turn.(confirmed := st.confirmed + 1)
           else if item.lock == r.lock && Nameless(item) then turn.(failed := st.failed + 1)
           else turn.(retained := st.retained + 1)
  }

  /** A quiet write changes its own row only and forgets nothing. */
  lemma QuietWriteIsLocal(t: Table, c: Cred)
    requires Good(t) && c.id in t.rows && c.lock == t.rows[c.id].lock && c.remote == t.rows[c.id].remote
    requires t.rows[c.id].state != Deleted && c.stay == t.rows[c.id].stay && (t.rows[c.id].accepted ==> c.accepted)
    ensures var t' := t.(rows := t.rows[c.id := c]);
            Write(t, c) == (t', true) && Good(t') && Grows(t, t') && Only(t, t', c.id)
  {
    QuietWrite(t, c.id, c);
  }

  lemma NothingIsLocal(t: Table, id: int)
    ensures Grows(t, t) && Only(t, t, id)
  {
  }

  lemma PresentIsShown(item: Cred, r: Round)
    requires item.lock == r.lock && item.remote.Some? && !AllSpace(item.remote.value)
    ensures Present(r.inventory, item.remote.value) <==> !Omitted(item, r)
  {
  }

  /**
   * A deletion is confirmed in its turn exactly when the inventory fetched in this pass omits the id, and a DELETE is
   * sent exactly when the inventory shows it and no request was accepted before.
   */
  lemma DeletionIsExact(d: Deleting, item: Cred, r: Round, accepts: bool)
    requires Good(d.table) && IsCurrent(d.table, item) && item.state == DeletePending
    ensures var d' := DeletionStep(d, item, r, accepts);
            && Good(d'.table) && Grows(d.table, d'.table) && Only(d.table, d'.table, item.id)
            && DeletionTurn(d'.table.rows[item.id], item, r, accepts)
            && DeletionCounted(d.stats, d'.stats, item, r)
            && d'.sent == d.sent + (if Sends(item, r) then [item.id] else [])
  {
    hide Good, Present, Write, Grows, Only, Omitted, TrimSpace, AllSpace;
    var t, retry := d.table, Some(r.now + 60 * SECOND);
    if item.lock != r.lock {
      UnboundIsNotOmitted(item, r);
      QuietWriteIsLocal(t, item.(state := NeedsReview, revision := item.revision + 1, nextRetry := None));
    } else if item.remote.None? {
      UnboundIsNotOmitted(item, r);
      NothingIsLocal(t, item.id);
    } else {
      TrimsToNothing(item.remote.value);
      if AllSpace(item.remote.value) {
        UnboundIsNotOmitted(item, r);
        NothingIsLocal(t, item.id);
      } else {
        PresentIsShown(item, r);
        if Omitted(item, r) {
          QuietWriteIsLocal(t, item.(state := Deleted, revision := item.revision + 1, pin := None, nextRetry := None));
        } else {
          QuietWriteIsLocal(t, item.(revision := item.revision + 1, nextRetry := retry,
                                     accepted := item.accepted || accepts));
        }
      }
    }
  }

  lemma UnboundIsNotOmitted(item: Cred, r: Round)
    requires item.lock != r.lock || Nameless(item)
    ensures !Omitted(item, r)
  {
  }

  // ---------- updates ----------

  /** The provider shows the credential on its lock with the new label and window, under the id it has. */
  predicate Reflected(item: Cred, r: Round) {
    && item.lock == r.lock && item.remote.Some?
    && exists i :: 0 <= i < |r.inventory|
                   && r.inventory[i] == Auth(item.remote.value, item.lock, KEYPAD, item.name, r.inventory[i].code,
                                             Some(item.validFrom), Some(item.validUntil), item.enabled)
  }

  /** Row `c` is what one turn makes of a pending update. */
  ghost predicate UpdateTurn(c: Cred, item: Cred, r: Round) {
    if item.lock != r.lock then c == item.(state := NeedsReview, revision := item.revision + 1, nextRetry := None)
    else if item.remote.None? then c == item
    else if Reflected(item, r) then c == item.(state := Active, revision := item.revision + 1, nextRetry := None)
    else Retried(c, item, r)
  }

  /**
   * An update not yet reflected stays pending with its label, window and remote id. It is due again after 15 seconds,
   * 15 more with each revision, and never later than after 15 minutes; up to `LAST_REVISION` not earlier either.
   */
  ghost predicate Retried(c: Cred, item: Cred, r: Round) {
    && c == item.(state := UpdatePending, revision := item.revision + 1, accepted := true, nextRetry := c.nextRetry)
    && c.nextRetry.Some? && c.nextRetry.value <= r.now + 900 * SECOND
    && (item.revision <= LAST_REVISION ==>
          c.nextRetry.value == r.now + (if item.revision <= 2 then 15
                                        else if item.revision <= 60 then 15 * (item.revision - 1)
                                        else 900) * SECOND)
  }

  ghost predicate UpdateCounted(st: UpdateStats, st': UpdateStats, item: Cred, r: Round) {
    var turn := st.(processed := st.processed + 1);
    st' == if Reflected(item, r) then turn.(confirmed := st.confirmed + 1)
           else if item.lock == r.lock && item.remote.None? then turn.(failed := st.failed + 1)
           else turn.(pending := st.pending + 1)
  }

  lemma ReflectsIsReflected(item: Cred, r: Round)
    requires item.lock == r.lock && item.remote.Some?
    ensures (exists i :: 0 <= i < |r.inventory| && Reflects(r.inventory[i], item)) <==> Reflected(item, r)
  {
    if i :| 0 <= i < |r.inventory| && Reflects(r.inventory[i], item) {
      assert r.inventory[i] == Auth(item.remote.value, item.lock, KEYPAD, item.name, r.inventory[i].code,
                                    Some(item.validFrom), Some(item.validUntil), item.enabled);
    }
    if Reflected(item, r) {
      var i :| 0 <= i < |r.inventory|
               && r.inventory[i] == Auth(item.remote.value, item.lock, KEYPAD, item.name, r.inventory[i].code,
                                         Some(item.validFrom), Some(item.validUntil), item.enabled);
      assert Reflects(r.inventory[i], item);
    }
  }

  lemma UnboundIsNotReflected(item: Cred, r: Round)
    requires item.lock != r.lock || item.remote.None?
    ensures !Reflected(item, r)
  {
  }

  /** The row an update not yet reflected is rewritten to. */
  lemma BackoffIsRetried(item: Cred, r: Round)
    ensures Retried(item.(state := UpdatePending, revision := item.revision + 1, accepted := true,
                          nextRetry := Some(r.now + Backoff(item.revision))), item, r)
  {
    if item.revision <= LAST_REVISION {
      FitsIn64((if item.revision < 2 then 1 else item.revision - 1) * 15 * SECOND);
    }
  }

  /**
   * An update is confirmed exactly when the inventory shows a row with the new label and window under the same id;
   * otherwise it stays pending until its next retry, or goes to review under another lock binding.
   */
  lemma UpdateIsExact(t: Table, item: Cred, r: Round, st: UpdateStats)
    requires Good(t) && IsCurrent(t, item) && item.state == UpdatePending
    ensures var (t', st') := UpdateStep(t, item, r, st);
            && Good(t') && Grows(t, t') && Only(t, t', item.id)
            && UpdateTurn(t'.rows[item.id], item, r) && UpdateCounted(st, st', item, r)
  {
    hide Backoff, Good, Grows, Only, Write, Reflected, Reflects, Retried;
    if item.lock != r.lock {
      UnboundIsNotReflected(item, r);
      QuietWriteIsLocal(t, item.(state := NeedsReview, revision := item.revision + 1, nextRetry := None));
    } else if item.remote.None? {
      UnboundIsNotReflected(item, r);
      NothingIsLocal(t, item.id);
    } else {
      ReflectsIsReflected(item, r);
      if Reflected(item, r) {
        QuietWriteIsLocal(t, item.(state := Active, revision := item.revision + 1, nextRetry := None));
      } else {
        BackoffIsRetried(item, r);
        QuietWriteIsLocal(t, item.(revision := item.revision + 1, nextRetry := Some(r.now + Backoff(item.revision)),
                                   accepted := true));
      }
    }
  }

  // ---------- whole passes ----------

  /** The credentials a pass loaded, still as it loaded them. */
  ghost predicate Loaded(t: Table, state: State, items: seq<Cred>) {
    && (forall i, j :: 0 <= i < j < |items| ==> items[i].id != items[j].id)
    && (forall c | c in items :: IsCurrent(t, c) && c.state == state)
  }

  predicate Spares(t: Table, t': Table, items: seq<Cred>) {
    t'.nextId == t.nextId && t'.rows.Keys == t.rows.Keys
    && forall x | x in t.rows && (forall c | c in items :: c.id != x) :: t'.rows[x] == t.rows[x]
  }

  lemma LoadedPrefix(t: Table, t1: Table, state: State, items: seq<Cred>)
    requires Loaded(t, state, items) && items != [] && Spares(t, t1, items[..|items| - 1])
    ensures Loaded(t, state, items[..|items| - 1]) && IsCurrent(t1, items[|items| - 1])
    ensures forall c | c in items[..|items| - 1] :: c.id != items[|items| - 1].id
  {
    var n := |items| - 1;
    var init := items[..n];
    forall c | c in init ensures c.id != items[n].id && c in items {
      var i :| 0 <= i < n && init[i] == c;
      assert items[i] == c;
    }
    assert items[n] in items;
  }

  /** The number of credentials with a property. */
  ghost function Tally(items: seq<Cred>, p: Cred -> bool): nat {
    if items == [] then 0
    else Tally(items[..|items| - 1], p) + if p(items[|items| - 1]) then 1 else 0
  }

  function IsOmitted(r: Round): Cred -> bool {
    c => Omitted(c, r)
  }

  function IsNameless(r: Round): Cred -> bool {
    (c: Cred) => c.lock == r.lock && Nameless(c)
  }

  function IsReflected(r: Round): Cred -> bool {
    c => Reflected(c, r)
  }

  function IsUnknown(r: Round): Cred -> bool {
    (c: Cred) => c.lock == r.lock && c.remote.None?
  }

  lemma TallyExtends(init: seq<Cred>, last: Cred, p: Cred -> bool)
    ensures Tally(init + [last], p) == Tally(init, p) + if p(last) then 1 else 0
  {
    assert (init + [last])[..|init|] == init;
  }

  lemma {:induction false} TallyAgrees(items: seq<Cred>, p: Cred -> bool, q: Cred -> bool)
    requires forall c | c in items :: p(c) == q(c)
    ensures Tally(items, p) == Tally(items, q)
  {
    if items != [] {
      TallyAgrees(items[..|items| - 1], p, q);
    }
  }

  /** Every listed deletion is as its turn leaves it, and a DELETE was sent for those shown and never accepted. */
  ghost predicate DeletedExactly(t': Table, sent: seq<int>, items: seq<Cred>, r: Round, accepts: int -> bool) {
    && (forall c | c in items :: c.id in t'.rows && DeletionTurn(t'.rows[c.id], c, r, accepts(c.id))
          && (c.id in sent <==> Sends(c, r)))
    && (forall id | id in sent :: exists c :: c in items && c.id == id)
    && (forall i, j :: 0 <= i < j < |sent| ==> sent[i] != sent[j])
  }

  ghost predicate DeletionsCounted(st: DeletionStats, items: seq<Cred>, r: Round) {
    && st.processed == |items| == st.confirmed + st.retained + st.failed
    && st.confirmed == Tally(items, IsOmitted(r))
    && st.failed == Tally(items, IsNameless(r))
  }

  lemma {:induction false} DeletionPassIsExact(t: Table, items: seq<Cred>, r: Round, accepts: int -> bool)
    requires Good(t) && Loaded(t, DeletePending, items)
    ensures var d := DeletionAll(t, items, r, accepts);
            && Good(d.table) && Grows(t, d.table) && Spares(t, d.table, items)
            && DeletedExactly(d.table, d.sent, items, r, accepts) && DeletionsCounted(d.stats, items, r)
  {
    hide Good, DeletionStep, DeletedExactly, DeletionTurn, Sends, Omitted, Nameless, DeletionsCounted;
    if items == [] {
      NothingIsDeleted(t, r, accepts);
    } else {
      var n := |items| - 1;
      var init, last := items[..n], items[n];
      assert items == init + [last];
      assert Loaded(t, DeletePending, init) by {
        assert forall c | c in init :: c in items;
      }
      DeletionPassIsExact(t, init, r, accepts);
      var d1 := DeletionAll(t, init, r, accepts);
      LoadedPrefix(t, d1.table, DeletePending, items);
      DeletionIsExact(d1, last, r, accepts(last.id));
      var d2 := DeletionStep(d1, last, r, accepts(last.id));
      DeletedExtends(d1, d2, init, last, r, accepts);
      DeletionsCountOneMore(d1.stats, d2.stats, init, last, r);
    }
  }

  lemma NothingIsDeleted(t: Table, r: Round, accepts: int -> bool)
    ensures DeletedExactly(t, [], [], r, accepts) && DeletionsCounted(DeletionStats(0, 0, 0, 0), [], r)
  {
  }

  lemma DeletedExtends(d1: Deleting, d2: Deleting, init: seq<Cred>, last: Cred, r: Round, accepts: int -> bool)
    requires DeletedExactly(d1.table, d1.sent, init, r, accepts) && (forall c | c in init :: c.id != last.id)
    requires Only(d1.table, d2.table, last.id) && last.id in d2.table.rows
    requires DeletionTurn(d2.table.rows[last.id], last, r, accepts(last.id))
    requires d2.sent == d1.sent + (if Sends(last, r) then [last.id] else [])
    ensures DeletedExactly(d2.table, d2.sent, init + [last], r, accepts)
  {
    hide DeletionTurn, Sends;
    var items := init + [last];
    assert items[|init|] == last;
    forall id | id in d2.sent ensures exists c :: c in items && c.id == id {
      if id in d1.sent {
        var c :| c in init && c.id == id;
        assert c in items;
      }
    }
    assert last.id !in d1.sent;
    forall c | c in items
      ensures c.id in d2.table.rows && DeletionTurn(d2.table.rows[c.id], c, r, accepts(c.id))
              && (c.id in d2.sent <==> Sends(c, r))
    {
      if c in init {
        assert c.id != last.id;
      }
    }
  }

  lemma DeletionsCountOneMore(st1: DeletionStats, st2: DeletionStats, init: seq<Cred>, last: Cred, r: Round)
    requires DeletionsCounted(st1, init, r) && DeletionCounted(st1, st2, last, r)
    ensures DeletionsCounted(st2, init + [last], r)
  {
    hide Omitted, Nameless;
    if last.lock != r.lock || Nameless(last) {
      UnboundIsNotOmitted(last, r);
    }
    TallyExtends(init, last, IsOmitted(r));
    TallyExtends(init, last, IsNameless(r));
  }

  /**
   * Every intent a pass confirmed had an inventory row equal to its tuple, and every other row equal to its tuple was
   * owned by another credential when its turn came.
   */
  ghost predicate Justified(tables: seq<Table>, t': Table, items: seq<Cred>, r: Round)
    requires |tables| == |items|
  {
    forall n | 0 <= n < |items| :: items[n].id in t'.rows && Settles(tables[n], t'.rows[items[n].id], items[n], r)
  }

  /** The table as each intent finds it in its turn. */
  function Turns(t: Table, items: seq<Cred>, r: Round): (ts: seq<Table>)
    ensures |ts| == |items|
  {
    if items == [] then []
    else Turns(t, items[..|items| - 1], r) + [CreationAll(t, items[..|items| - 1], r).0]
  }

  lemma NothingIsJustified(t: Table, r: Round)
    ensures Justified([], t, [], r)
  {
  }

  lemma JustifiedExtends(tables: seq<Table>, t1: Table, t2: Table, init: seq<Cred>, last: Cred, own: Table, r: Round)
    requires |tables| == |init| && Justified(tables, t1, init, r) && Only(t1, t2, last.id)
    requires last.id in t2.rows && Settles(own, t2.rows[last.id], last, r)
    requires forall c | c in init :: c.id != last.id
    ensures Justified(tables + [own], t2, init + [last], r)
  {
    hide Settles;
    forall k | 0 <= k < |init|
      ensures init[k].id != last.id
    {
      assert init[k] in init;
    }
  }

  function IsConfirmed(t: Table): Cred -> bool {
    (c: Cred) => c.id in t.rows && Confirmed(t.rows[c.id])
  }

  function IsRebound(r: Round): Cred -> bool {
    (c: Cred) => c.lock != r.lock
  }

  /** What is neither confirmed nor bound to another lock by now counts as failed, also when it only waits. */
  ghost predicate CreationsCounted(t': Table, st: CreationStats, items: seq<Cred>, r: Round) {
    && st.processed == |items| == st.confirmed + st.failed + Tally(items, IsRebound(r))
    && st.confirmed == Tally(items, IsConfirmed(t'))
  }

  lemma NoneIsCounted(t: Table, r: Round)
    ensures CreationsCounted(t, CreationStats(0, 0, 0, 0, 0), [], r)
  {
  }

  lemma CreationsCountOneMore(t1: Table, t2: Table, st1: CreationStats, st2: CreationStats, init: seq<Cred>,
                              last: Cred, r: Round)
    requires CreationsCounted(t1, st1, init, r) && CreationCounted(t1, st1, st2, last, r)
    requires Only(t1, t2, last.id) && last.id in t2.rows && (forall c | c in init :: c.id != last.id)
    requires Confirmed(t2.rows[last.id]) <==> last.lock == r.lock && last.stay.Some? && Matched(t1, last, r)
    ensures CreationsCounted(t2, st2, init + [last], r)
  {
    hide Matched;
    TallyExtends(init, last, IsRebound(r));
    TallyExtends(init, last, IsConfirmed(t2));
    TallyAgrees(init, IsConfirmed(t1), IsConfirmed(t2));
  }

  /**
   * Each intent of a pass is settled by the table its own turn finds, and the counters say how many were confirmed.
   */
  lemma {:induction false} CreationPassIsExact(t: Table, items: seq<Cred>, r: Round)
    requires Good(t) && Loaded(t, CreatePending, items)
    ensures var (t', st') := CreationAll(t, items, r);
            && Good(t') && Grows(t, t') && Spares(t, t', items)
            && Justified(Turns(t, items, r), t', items, r) && CreationsCounted(t', st', items, r)
  {
    hide CreationStep, Settles, Good, Justified, CreationCounted, Matched, CreationsCounted;
    if items != [] {
      var n := |items| - 1;
      var init, last := items[..n], items[n];
      assert items == init + [last];
      assert Loaded(t, CreatePending, init) by {
        assert forall c | c in init :: c in items;
      }
      CreationPassIsExact(t, init, r);
      var (t1, st1) := CreationAll(t, init, r);
      LoadedPrefix(t, t1, CreatePending, items);
      CreationIsExact(t1, last, r, st1);
      var (t2, st2) := CreationStep(t1, last, r, st1);
      JustifiedExtends(Turns(t, init, r), t1, t2, init, last, t1, r);
      CreationsCountOneMore(t1, t2, st1, st2, init, last, r);
    } else {
      NothingIsJustified(t, r);
      NoneIsCounted(t, r);
    }
  }

  /** Every listed update is as its turn leaves it. */
  ghost predicate UpdatedExactly(t': Table, items: seq<Cred>, r: Round) {
    forall c | c in items :: c.id in t'.rows && UpdateTurn(t'.rows[c.id], c, r)
  }

  ghost predicate UpdatesCounted(st: UpdateStats, items: seq<Cred>, r: Round) {
    && st.processed == |items| == st.confirmed + st.pending + st.failed
    && st.confirmed == Tally(items, IsReflected(r))
    && st.failed == Tally(items, IsUnknown(r))
  }

  lemma UpdatedExtends(t1: Table, t2: Table, init: seq<Cred>, last: Cred, r: Round)
    requires UpdatedExactly(t1, init, r) && Only(t1, t2, last.id) && last.id in t2.rows
    requires UpdateTurn(t2.rows[last.id], last, r) && (forall c | c in init :: c.id != last.id)
    ensures UpdatedExactly(t2, init + [last], r)
  {
    hide UpdateTurn;
  }

  lemma UpdatesCountOneMore(st1: UpdateStats, st2: UpdateStats, init: seq<Cred>, last: Cred, r: Round)
    requires UpdatesCounted(st1, init, r) && UpdateCounted(st1, st2, last, r)
    ensures UpdatesCounted(st2, init + [last], r)
  {
    hide Reflected;
    if last.lock != r.lock || last.remote.None? {
      UnboundIsNotReflected(last, r);
    }
    TallyExtends(init, last, IsReflected(r));
    TallyExtends(init, last, IsUnknown(r));
  }

  /** Every listed update is confirmed exactly when reflected, and otherwise stays pending or goes to review. */
  lemma {:induction false} UpdatePassKeeps(t: Table, items: seq<Cred>, r: Round)
    requires Good(t) && Loaded(t, UpdatePending, items)
    ensures var (t', st') := UpdateAll(t, items, r);
            && Good(t') && Grows(t, t') && Spares(t, t', items)
            && UpdatedExactly(t', items, r) && UpdatesCounted(st', items, r)
  {
    hide Good, UpdateStep, UpdatedExactly, UpdatesCounted, UpdateTurn, Reflected;
    if items == [] {
      NothingIsUpdated(t, r);
    } else {
      var n := |items| - 1;
      var init, last := items[..n], items[n];
      assert items == init + [last];
      assert Loaded(t, UpdatePending, init) by {
        assert forall c | c in init :: c in items;
      }
      UpdatePassKeeps(t, init, r);
      var (t1, st1) := UpdateAll(t, init, r);
      LoadedPrefix(t, t1, UpdatePending, items);
      UpdateIsExact(t1, last, r, st1);
      var (t2, st2) := UpdateStep(t1, last, r, st1);
      UpdatedExtends(t1, t2, init, last, r);
      UpdatesCountOneMore(st1, st2, init, last, r);
    }
  }

  lemma NothingIsUpdated(t: Table, r: Round)
    ensures UpdatedExactly(t, [], r) && UpdatesCounted(UpdateStats(0, 0, 0, 0), [], r)
  {
  }
}
