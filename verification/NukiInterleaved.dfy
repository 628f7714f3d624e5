/** Passes interleaved with requests: single writes in any order, and turns that go by what a pass loaded before. */
module NukiInterleaved {
  import opened Text
  import opened NukiLifecycle
  import opened NukiSafety

  /**
   * One write to the store, or anything that leaves it alone: a load, a listing of the provider, a DELETE sent to it.
   */
  datatype Move =
    | Outside
    | Operation(id: int, state: State, revision: int, remote: Option<string>, retry: Option<Instant>, accepted: bool)
    | Claiming(id: int, revision: int)
    | Confirming(id: int, revision: int, found: string, eligible: bool)
    | Ending(id: int, revision: int)
    | Reflecting(id: int, revision: int)
    | Intending(draft: Cred)
    | Starting(lock: string, target: string, draft: Cred)
    | Relabelling(id: int, name: string, validFrom: Instant, validUntil: Instant, enabled: bool)

  function Do(t: Table, m: Move): Table {
    match m
    case Outside => t
    case Operation(id, state, revision, remote, retry, accepted) =>
      UpdateOperation(t, id, state, revision, remote, retry, accepted).0
    case Claiming(id, revision) => Claim(t, id, revision).0
    case Confirming(id, revision, found, eligible) => ConfirmCreation(t, id, revision, found, eligible).0
    case Ending(id, revision) => ConfirmDeletion(t, id, revision).0
    case Reflecting(id, revision) => ConfirmUpdate(t, id, revision).0
    case Intending(draft) => CreateIntent(t, draft).0
    case Starting(lock, target, draft) => StartDeletion(t, lock, target, draft).0
    case Relabelling(id, name, validFrom, validUntil, enabled) =>
      StartUpdate(t, id, name, validFrom, validUntil, enabled).0
  }

  // ---------- what every write keeps ----------

  /** Whatever changes a credential also raises its revision. */
  predicate Raises(t: Table, t': Table) {
    forall id | id in t.rows ::
             id in t'.rows && (t'.rows[id] == t.rows[id] || t'.rows[id].revision > t.rows[id].revision)
  }

  /** A write to an existing credential that goes by its revision, refused or not. */
  lemma WriteKeeps(t: Table, c: Cred)
    requires Good(t) && c.id in t.rows && c.lock == t.rows[c.id].lock && c.stay == t.rows[c.id].stay
    requires (t.rows[c.id].accepted ==> c.accepted) && c.revision > t.rows[c.id].revision
    ensures var t' := Write(t, c).0; Good(t') && Grows(t, t') && Raises(t, t')
  {
  }

  lemma IntendingKeeps(t: Table, draft: Cred)
    requires Good(t)
    ensures var t' := CreateIntent(t, draft).0; Good(t') && Grows(t, t') && Raises(t, t')
  {
  }

  lemma MoveKeeps(t: Table, m: Move)
    requires Good(t)
    ensures Good(Do(t, m)) && Grows(t, Do(t, m)) && Raises(t, Do(t, m))
  {
    match m
    case Claiming(id, revision) =>
      if Claim(t, id, revision).1 {
        ClaimIsQuiet(t, t.rows[id]);
      }
    case Starting(lock, target, draft) => StartingKeeps(t, lock, target, draft);
    case Intending(draft) => IntendingKeeps(t, draft);
    case Outside =>
    case _ => RowWriteKeeps(t, m);
  }

  /** The writes that go by id and revision. */
  lemma RowWriteKeeps(t: Table, m: Move)
    requires Good(t)
    requires m.Operation? || m.Confirming? || m.Ending? || m.Reflecting? || m.Relabelling?
    ensures Good(Do(t, m)) && Grows(t, Do(t, m)) && Raises(t, Do(t, m))
  {
    hide Write, Good, Grows, Raises;
    assert Do(t, m) == t || exists c :: Do(t, m) == Write(t, c).0 && Continues(t, c) by {
      RowWriteContinues(t, m);
    }
    if Do(t, m) == t {
      NothingKeeps(t);
    } else {
      var c :| Do(t, m) == Write(t, c).0 && Continues(t, c);
      WriteKeeps(t, c);
    }
  }

  /** `c` can follow the credential with its id. */
  predicate Continues(t: Table, c: Cred) {
    && c.id in t.rows && c.lock == t.rows[c.id].lock && c.stay == t.rows[c.id].stay
    && (t.rows[c.id].accepted ==> c.accepted) && c.revision > t.rows[c.id].revision
  }

  lemma RowWriteContinues(t: Table, m: Move)
    requires m.Operation? || m.Confirming? || m.Ending? || m.Reflecting? || m.Relabelling?
    ensures Do(t, m) == t || exists c :: Do(t, m) == Write(t, c).0 && Continues(t, c)
  {
    hide Write;
    if m.id in t.rows && Do(t, m) != t {
      var c := t.rows[m.id];
      match m
      case Operation(id, state, revision, remote, retry, accepted) =>
        assert Continues(t, c.(id := id, state := state, revision := revision, remote := OrElse(remote, c.remote),
                               nextRetry := retry, accepted := c.accepted || accepted));
      case Confirming(id, revision, found, eligible) =>
        assert Continues(t, c.(id := id, state := if eligible then Active else DeletePending, revision := revision + 1,
                               remote := Some(found), pin := None, nextRetry := None, accepted := true));
      case Ending(id, revision) =>
        assert Continues(t, c.(id := id, state := Deleted, revision := revision + 1, pin := None, nextRetry := None));
      case Reflecting(id, revision) =>
        assert Continues(t, c.(id := id, state := Active, revision := revision + 1, nextRetry := None));
      case Relabelling(id, name, validFrom, validUntil, enabled) =>
        assert Continues(t, c.(id := id, state := UpdatePending, revision := c.revision + 1, name := name,
                               validFrom := validFrom, validUntil := validUntil, enabled := enabled,
                               nextRetry := None));
    }
  }

  /** The life of a credential as far as its confirmations and the requests are concerned. */
  predicate MayFollow(before: State, after: State) {
    match before
    case CreatePending => after in {Active, DeletePending}
    case Active => after in {UpdatePending, DeletePending}
    case UpdatePending => after in {Active, DeletePending}
    case NeedsReview => after == DeletePending
    case DeletePending => after == Deleted
    case Deleted => false
  }

  /**
   * A state changes only along that life, and a deleted credential stays as it is: only the plain operation write,
   * which checks the revision alone, does otherwise.
   */
  lemma StatesFollow(t: Table, m: Move, id: int)
    requires Good(t) && !m.Operation? && id in t.rows
    ensures id in Do(t, m).rows
    ensures var before, after := t.rows[id], Do(t, m).rows[id];
            && (before.state != after.state ==> MayFollow(before.state, after.state))
            && (before.state == Deleted ==> after == before)
  {
    hide RemoteUnique;
  }

  lemma NothingKeeps(t: Table)
    ensures Grows(t, t) && Raises(t, t)
  {
  }

  lemma StartingKeeps(t: Table, lock: string, target: string, draft: Cred)
    requires Good(t)
    ensures var t' := StartDeletion(t, lock, target, draft).0; Good(t') && Grows(t, t') && Raises(t, t')
  {
    var t' := StartDeletion(t, lock, target, draft).0;
    if exists id :: id in t.rows && IsLive(t, lock, target, id) {
      forall i, j | i in t'.rows && j in t'.rows
        ensures !Clash(t'.rows[i], t'.rows[j])
      {
        assert !Clash(t.rows[i], t.rows[j]);
      }
    }
  }

  ghost predicate IsRun(ts: seq<Table>, moves: seq<Move>) {
    && |ts| == |moves| + 1
    && forall i | 0 <= i < |moves| :: ts[i + 1] == Do(ts[i], moves[i])
  }

  lemma {:induction false} RunKeeps(ts: seq<Table>, moves: seq<Move>, a: nat, b: nat)
    requires IsRun(ts, moves) && Good(ts[0]) && a <= b <= |moves|
    ensures Good(ts[b]) && Grows(ts[a], ts[b])
    decreases b
  {
    if a < b {
      RunKeeps(ts, moves, a, b - 1);
      MoveKeeps(ts[b - 1], moves[b - 1]);
    } else if b > 0 {
      RunKeeps(ts, moves, b - 1, b - 1);
      MoveKeeps(ts[b - 1], moves[b - 1]);
    }
  }

  /** A credential that still has the revision it had is as it was. */
  lemma {:induction false} RevisionTells(ts: seq<Table>, moves: seq<Move>, a: nat, b: nat, id: int)
    requires IsRun(ts, moves) && Good(ts[0]) && a <= b <= |moves| && id in ts[a].rows
    ensures id in ts[b].rows
    ensures ts[b].rows[id] == ts[a].rows[id] || ts[b].rows[id].revision > ts[a].rows[id].revision
  {
    if a < b {
      RevisionTells(ts, moves, a, b - 1, id);
      RunKeeps(ts, moves, 0, b - 1);
      MoveKeeps(ts[b - 1], moves[b - 1]);
    }
  }

  // ---------- turns that requests may overtake ----------

  /**
   * The turn of a credential loaded at `a` and taken up at `b`: either nothing changed the credential in between, and
   * the turn is the one of an undisturbed pass, or the turn, of whatever kind, writes nothing at all.
   */
  lemma OvertakenTurnIsVoid(ts: seq<Table>, moves: seq<Move>, a: nat, b: nat, item: Cred, r: Round, accepts: bool,
                            cs: CreationStats, ds: DeletionStats, us: UpdateStats, sent: seq<int>)
    requires IsRun(ts, moves) && Good(ts[0]) && a <= b <= |moves| && IsCurrent(ts[a], item)
    ensures IsCurrent(ts[b], item) || (
              && CreationStep(ts[b], item, r, cs).0 == ts[b] && UpdateStep(ts[b], item, r, us).0 == ts[b]
              && DeletionStep(Deleting(ts[b], ds, sent), item, r, accepts).table == ts[b])
  {
    RevisionTells(ts, moves, a, b, item.id);
  }

  /** What the turn of a deletion pass writes after its DELETE, going by the credential it loaded. */
  function MarkOf(item: Cred, retry: Option<Instant>, accepts: bool): Move {
    Operation(item.id, DeletePending, item.revision + 1, None, retry, accepts)
  }

  /**
   * The pass loads a credential at `a`; the answer to its DELETE reaches the store at `b`. The mark goes through
   * exactly if nothing changed the credential in between. The acceptance is therefore lost exactly when something did
   * and the credential does not count as accepted for another reason.
   */
  lemma MarkIsKeptExactly(ts: seq<Table>, moves: seq<Move>, a: nat, b: nat, item: Cred, retry: Option<Instant>,
                          accepts: bool)
    requires IsRun(ts, moves) && Good(ts[0]) && a <= b < |moves|
    requires IsCurrent(ts[a], item) && item.state == DeletePending && moves[b] == MarkOf(item, retry, accepts)
    ensures item.id in ts[b].rows && item.id in ts[b + 1].rows
    ensures UpdateOperation(ts[b], item.id, DeletePending, item.revision + 1, None, retry, accepts).1 <==>
              ts[b].rows[item.id] == item
    ensures ts[b].rows[item.id] != item ==> ts[b + 1] == ts[b]
    ensures ts[b + 1].rows[item.id].accepted <==>
              ts[b].rows[item.id].accepted || (accepts && ts[b].rows[item.id] == item)
  {
    RunKeeps(ts, moves, 0, b);
    RevisionTells(ts, moves, a, b, item.id);
    if ts[b].rows[item.id] == item {
      QuietWrite(ts[b], item.id,
                 item.(revision := item.revision + 1, nextRetry := retry, accepted := item.accepted || accepts));
    }
  }

  /**
   * A pass that sends a DELETE although one was accepted had loaded the credential before the acceptance was stored:
   * the turn goes by what was loaded, and an acceptance once stored is never forgotten.
   */
  lemma ResendingIsStale(ts: seq<Table>, moves: seq<Move>, a: nat, k: nat, item: Cred, r: Round)
    requires IsRun(ts, moves) && Good(ts[0]) && a <= |moves| && k <= |moves|
    requires IsCurrent(ts[a], item) && Sends(item, r) && item.id in ts[k].rows && ts[k].rows[item.id].accepted
    ensures a < k
  {
    if k <= a {
      RunKeeps(ts, moves, k, a);
    }
  }

  /** Over any interleaving, no two credentials that are not deleted share a remote id on a lock. */
  lemma RemoteIdsStayUnique(ts: seq<Table>, moves: seq<Move>, n: nat)
    requires IsRun(ts, moves) && Good(ts[0]) && n <= |moves|
    ensures RemoteUnique(ts[n])
  {
    RunKeeps(ts, moves, 0, n);
  }

  // ---------- a creation's turn, write by write ----------

  /** The intent as the turn's claim leaves it. */
  function Claimed(intent: Cred): Cred {
    intent.(revision := intent.revision + 1)
  }

  lemma ClaimStands(ts: seq<Table>, moves: seq<Move>, a: nat, b: nat, intent: Cred)
    requires IsRun(ts, moves) && Good(ts[0]) && a < b <= |moves| && IsCurrent(ts[a], intent)
    requires intent.state == CreatePending && moves[a] == Claiming(intent.id, intent.revision)
    ensures intent.id in ts[b].rows && Good(ts[b])
    ensures ts[b].rows[intent.id] == Claimed(intent) || ts[b].rows[intent.id].revision > intent.revision + 1
  {
    RunKeeps(ts, moves, 0, a);
    RunKeeps(ts, moves, 0, b);
    ClaimIsQuiet(ts[a], intent);
    RevisionTells(ts, moves, a + 1, b, intent.id);
  }

  /**
   * The turn claims the intent at `a` and confirms it at `b`, whatever requests and other passes write in between. The
   * confirmation goes through exactly if nothing changed the intent since the claim, the intent names a stay, and no
   * other live credential owns the id at that moment.
   */
  lemma ConfirmationIsExact(ts: seq<Table>, moves: seq<Move>, a: nat, b: nat, intent: Cred, found: string,
                            eligible: bool)
    requires IsRun(ts, moves) && Good(ts[0]) && a < b < |moves| && IsCurrent(ts[a], intent)
    requires intent.state == CreatePending && moves[a] == Claiming(intent.id, intent.revision)
    requires moves[b] == Confirming(intent.id, intent.revision + 1, found, eligible)
    ensures intent.id in ts[b].rows && intent.id in ts[b + 1].rows
    ensures var c := Claimed(intent).(state := if eligible then Active else DeletePending,
                                      revision := intent.revision + 2, remote := Some(found), pin := None,
                                      nextRetry := None, accepted := true);
            var through := && ts[b].rows[intent.id] == Claimed(intent) && intent.stay.Some?
                           && !Owned(ts[b], intent.lock, found, intent.id);
            if through
            then ts[b + 1] == ts[b].(rows := ts[b].rows[intent.id := c]) else ts[b + 1] == ts[b]
  {
    ClaimStands(ts, moves, a, b, intent);
    if ts[b].rows[intent.id] == Claimed(intent) {
      if id :| id in ts[b].rows && id != intent.id && ts[b].rows[id].lock == intent.lock
               && ts[b].rows[id].remote == Some(found) && ts[b].rows[id].state != Deleted {
        OwnedClashes(ts[b], Claimed(intent), found, id, eligible);
      } else {
        UnownedNeverClashes(ts[b], Claimed(intent), found);
      }
    }
  }

  lemma OwnedClashes(t: Table, c: Cred, found: string, id: int, eligible: bool)
    requires IsCurrent(t, c) && id in t.rows && id != c.id && t.rows[id].id == id && t.rows[id].lock == c.lock
    requires t.rows[id].remote == Some(found) && t.rows[id].state != Deleted
    ensures !ConfirmCreation(t, c.id, c.revision, found, eligible).1
  {
    if ConfirmCreation(t, c.id, c.revision, found, eligible).1 {
      var t' := ConfirmCreation(t, c.id, c.revision, found, eligible).0;
      assert Clash(t'.rows[c.id], t'.rows[id]);
    }
  }

  /** Each row judged by the table at the moment its owner was looked up, position `i` is the only match. */
  ghost predicate SoleMatch(ts: seq<Table>, looked: nat -> nat, intent: Cred, inventory: seq<Auth>, i: nat)
    requires forall j: nat | j < |inventory| :: looked(j) < |ts|
  {
    && i < |inventory| && Unclaimed(ts[looked(i)], intent, inventory[i])
    && forall j: nat | j < |inventory| && j != i :: !Unclaimed(ts[looked(j)], intent, inventory[j])
  }

  /**
   * What a turn that found a sole match confirms is still an unowned match when it is confirmed. The others are matches
   * by then exactly if their owners are gone.
   */
  lemma ConfirmedIsUnowned(ts: seq<Table>, moves: seq<Move>, a: nat, b: nat, intent: Cred, r: Round, looked: nat -> nat,
                           i: nat, eligible: bool)
    requires IsRun(ts, moves) && Good(ts[0]) && a < b < |moves| && IsCurrent(ts[a], intent)
    requires intent.state == CreatePending && moves[a] == Claiming(intent.id, intent.revision)
    requires (forall j: nat | j < |r.inventory| :: a < looked(j) <= b) && SoleMatch(ts, looked, intent, r.inventory, i)
    requires moves[b] == Confirming(intent.id, intent.revision + 1, r.inventory[i].externalId, eligible)
    requires ts[b + 1] != ts[b]
    ensures Unclaimed(ts[b], intent, r.inventory[i])
    ensures OnlyCandidate(ts[b], intent, r.inventory, i) <==>
              forall j: nat | j < |r.inventory| && j != i && Fits(r.inventory[j], intent) ::
                Owned(ts[b], intent.lock, r.inventory[j].externalId, intent.id)
  {
    ConfirmationIsExact(ts, moves, a, b, intent, r.inventory[i].externalId, eligible);
  }

  /** When no owner changes while the rows are looked up, the turn finds what an undisturbed pass would. */
  lemma UndisturbedMatch(ts: seq<Table>, looked: nat -> nat, intent: Cred, inventory: seq<Auth>, i: nat, a: nat)
    requires a < |ts| && forall j: nat | j < |inventory| :: looked(j) < |ts|
    requires forall j: nat | j < |inventory| ::
               Owned(ts[looked(j)], intent.lock, inventory[j].externalId, intent.id) <==>
               Owned(ts[a], intent.lock, inventory[j].externalId, intent.id)
    ensures SoleMatch(ts, looked, intent, inventory, i) <==> OnlyCandidate(ts[a], intent, inventory, i)
  {
    hide Owned, Fits, Unclaimed;
    forall j: nat | j < |inventory|
      ensures Unclaimed(ts[looked(j)], intent, inventory[j]) <==> Unclaimed(ts[a], intent, inventory[j])
    {
      CandidateIsUnclaimed(ts[looked(j)], intent, inventory[j]);
      CandidateIsUnclaimed(ts[a], intent, inventory[j]);
    }
  }

  /** Without a sole match the later write is refused, whatever happened since the claim. */
  lemma UnmatchedWriteIsRefused(ts: seq<Table>, moves: seq<Move>, a: nat, b: nat, intent: Cred, state: State,
                                retry: Option<Instant>)
    requires IsRun(ts, moves) && Good(ts[0]) && a < b <= |moves| && IsCurrent(ts[a], intent)
    requires intent.state == CreatePending && moves[a] == Claiming(intent.id, intent.revision)
    ensures UpdateOperation(ts[b], intent.id, state, intent.revision + 1, None, retry, false) == (ts[b], false)
  {
    ClaimStands(ts, moves, a, b, intent);
  }

  function Wanting(revision: int): Cred {
    Cred(1, Some(5), "lock", None, "guest", 0, 1, true, CreatePending, revision, Some("123456"), false, None)
  }

  function Matching(id: string): Auth {
    Auth(id, "lock", KEYPAD, "guest", "123456", Some(0), Some(1), true)
  }

  function Owner(state: State, revision: int): Cred {
    Cred(2, None, "lock", Some("r2"), "other", 0, 1, true, state, revision, None, true, None)
  }

  function Pair(intent: Cred, other: Cred): Table {
    Table(map[1 := intent, 2 := other], 3)
  }

  /**
   * Two rows equal the tuple, one of them owned when it is looked up. Its owner's deletion is confirmed before the turn
   * ends: the intent is confirmed with one of two rows that nobody owns by then.
   */
  lemma ConfirmedAmongTwo()
    ensures var t0, t1 := Pair(Wanting(1), Owner(DeletePending, 1)), Pair(Wanting(2), Owner(DeletePending, 1));
            var t2 := Pair(Wanting(2), Owner(Deleted, 2));
            var ts := [t0, t1, t2, Do(t2, Confirming(1, 2, "r1", true))];
            var moves := [Claiming(1, 1), Ending(2, 1), Confirming(1, 2, "r1", true)];
            var inventory := [Matching("r1"), Matching("r2")];
            && IsRun(ts, moves) && Good(t0) && IsCurrent(t0, Wanting(1))
            && SoleMatch(ts, _ => 1, Wanting(1), inventory, 0)
            && Unclaimed(t2, Wanting(1), inventory[0]) && Unclaimed(t2, Wanting(1), inventory[1])
            && ts[3].rows[1].state == Active
  {
    hide Do, Unclaimed, Good;
    PairIsGood(Wanting(1), Owner(DeletePending, 1));
    OwnerEnds();
    TwoUnclaimed();
    IntentIsTaken();
  }

  lemma PairIsGood(intent: Cred, other: Cred)
    requires intent.id == 1 && other.id == 2 && intent.remote.None?
    ensures Good(Pair(intent, other))
  {
  }

  lemma OwnerEnds()
    ensures Do(Pair(Wanting(1), Owner(DeletePending, 1)), Claiming(1, 1)) == Pair(Wanting(2), Owner(DeletePending, 1))
    ensures Do(Pair(Wanting(2), Owner(DeletePending, 1)), Ending(2, 1)) == Pair(Wanting(2), Owner(Deleted, 2))
  {
    var t1 := Pair(Wanting(2), Owner(DeletePending, 1));
    var ended := Owner(DeletePending, 1).(state := Deleted, revision := 2, pin := None, nextRetry := None);
    PairIsGood(Wanting(2), Owner(DeletePending, 1));
    QuietWrite(t1, 2, ended);
    assert t1.rows[2 := ended] == Pair(Wanting(2), Owner(Deleted, 2)).rows;
    assert Claim(Pair(Wanting(1), Owner(DeletePending, 1)), 1, 1).0.rows == t1.rows;
  }

  lemma TwoUnclaimed()
    ensures var t1, t2 := Pair(Wanting(2), Owner(DeletePending, 1)), Pair(Wanting(2), Owner(Deleted, 2));
            && Unclaimed(t1, Wanting(1), Matching("r1")) && !Unclaimed(t1, Wanting(1), Matching("r2"))
            && Unclaimed(t2, Wanting(1), Matching("r1")) && Unclaimed(t2, Wanting(1), Matching("r2"))
  {
    var t1 := Pair(Wanting(2), Owner(DeletePending, 1));
    assert 2 in t1.rows && t1.rows[2].remote == Some("r2");
  }

  lemma IntentIsTaken()
    ensures var t2 := Pair(Wanting(2), Owner(Deleted, 2));
            1 in Do(t2, Confirming(1, 2, "r1", true)).rows
            && Do(t2, Confirming(1, 2, "r1", true)).rows[1].state == Active
  {
    var t2 := Pair(Wanting(2), Owner(Deleted, 2));
    UnownedNeverClashes(t2, Wanting(2), "r1");
  }

  // ---------- an acceptance that is lost ----------

  function Waiting(revision: int): Cred {
    Cred(1, None, "lock", Some("r"), "guest", 0, 1, true, DeletePending, revision, None, false, None)
  }

  function Holding(revision: int): Table {
    Table(map[1 := Waiting(revision)], 2)
  }

  /**
   * A pass loads the credential and its DELETE is accepted; a request starts the deletion again; the mark is refused.
   * The next pass finds the credential unaccepted and sends the DELETE a second time.
   */
  lemma AcceptanceIsLost(r: Round, draft: Cred)
    requires r.lock == "lock" && Present(r.inventory, "r")
    ensures var ts := [Holding(1), Holding(1), Holding(2), Holding(2)];
            var moves := [Outside, Starting("lock", "r", draft), MarkOf(Waiting(1), None, true)];
            && IsRun(ts, moves) && Good(ts[0]) && IsCurrent(ts[0], Waiting(1)) && Sends(Waiting(1), r)
            && IsCurrent(ts[3], Waiting(2)) && Sends(Waiting(2), r)
  {
    assert Named(Holding(1).rows[1], "lock", "r");
    LetterIsName();
    assert StartDeletion(Holding(1), "lock", "r", draft).0.rows == Holding(2).rows;
  }

  /** Two passes that both loaded the credential before either mark was stored both send. */
  lemma OverlappingPassesBothSend(r: Round)
    requires r.lock == "lock" && Present(r.inventory, "r")
    ensures var after := Table(map[1 := Waiting(2).(accepted := true)], 2);
            var moves := [MarkOf(Waiting(1), None, true), Outside];
            && IsRun([Holding(1), after, after], moves) && IsCurrent(Holding(1), Waiting(1)) && Sends(Waiting(1), r)
            && after.rows[1].accepted
  {
    var c := Waiting(1).(revision := 2, accepted := true);
    LetterIsName();
    QuietWrite(Holding(1), 1, c);
    assert Holding(1).rows[1 := c] == map[1 := c];
  }
}
