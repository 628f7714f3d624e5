/** The schema migration runner: four commands over one table of applied versions, each of which may fail anywhere. */
module Migrate {
  import opened Text
  import Cleanup

  type Version = int

  const LATEST: Version := 49
  const LEGACY_REMOVAL: Version := 39
  const NAMED_STAY_CALENDAR: Version := 40
  const ADVERTISED_PRICE: Version := 49

  predicate Manual(v: Version) {
    v == LEGACY_REMOVAL || v == NAMED_STAY_CALENDAR
  }

  predicate AfterLegacyRemoval(v: Version) {
    v == 45 || v == 46 || v == 47
  }

  /** Left alone by an automatic run over these applied versions. */
  predicate Skipped(v: Version, applied: set<Version>) {
    || Manual(v)
    || (v == ADVERTISED_PRICE && NAMED_STAY_CALENDAR !in applied)
    || (AfterLegacyRemoval(v) && LEGACY_REMOVAL !in applied)
  }

  predicate Known(v: Version) {
    1 <= v <= LATEST
  }

  ghost predicate Full(applied: set<Version>) {
    forall v | Known(v) :: v in applied
  }

  /** What the body of a version may only follow. */
  function Prerequisites(v: Version): set<Version> {
    if v == NAMED_STAY_CALENDAR || AfterLegacyRemoval(v) then {LEGACY_REMOVAL}
    else if v == ADVERTISED_PRICE then {NAMED_STAY_CALENDAR}
    else {}
  }

  // ---------- the cleanup gate ----------

  /**
   * The tables that the gate of the named-stay calendar migration reads. `events` holds the properties of the rows of
   * the event table, or nothing when that table cannot be read; `states` and `items` are the cleanup's own tables.
   */
  datatype Books = Books(events: Option<seq<int>>, states: Option<map<int, Cleanup.State>>,
                         items: Option<map<int, Cleanup.Item>>, configured: map<int, string>)

  /** SQL's trim removes blanks and nothing else. */
  function TrimBlanks(s: string): string {
    if s != "" && s[0] == ' ' then TrimBlanks(s[1..])
    else if s != "" && s[|s| - 1] == ' ' then TrimBlanks(s[..|s| - 1])
    else s
  }

  predicate OnlyBlanks(s: string) {
    forall i | 0 <= i < |s| :: s[i] == ' '
  }

  /** What is left neither begins nor ends with a blank, and only blanks were cut. */
  lemma {:induction false} BlanksAreTrimmed(s: string) returns (left: string, right: string)
    ensures var r := TrimBlanks(s);
            && s == left + r + right && (r != "" ==> r[0] != ' ' && r[|r| - 1] != ' ')
            && OnlyBlanks(left) && OnlyBlanks(right)
    decreases |s|
  {
    if s != "" && s[0] == ' ' {
      left, right := BlanksAreTrimmed(s[1..]);
      left := " " + left;
      assert s == " " + s[1..];
    } else if s != "" && s[|s| - 1] == ' ' {
      left, right := BlanksAreTrimmed(s[..|s| - 1]);
      right := right + " ";
      assert s == s[..|s| - 1] + " ";
    } else {
      left, right := "", "";
    }
  }

  function Configured(b: Books, property: int): string {
    if property in b.configured then TrimBlanks(b.configured[property]) else ""
  }

  /** The rows the last query of the gate counts. */
  predicate Incomplete(b: Books, property: int)
    requires b.states.Some? && b.items.Some?
  {
    !(&& property in b.states.value && b.states.value[property].phase == Cleanup.Complete
      && TrimBlanks(b.states.value[property].calendar) == Configured(b, property)
      && forall id | id in b.items.value :: b.items.value[id].property != property)
  }

  /** The gate, in the order of its queries. */
  method EnsureCleanupReady(b: Books) returns (ready: bool)
    ensures ready <==> CleanedUp(b)
  {
    if b.events.None? || |b.events.value| == 0 {
      return true;
    }
    if b.states.None? || b.items.None? {
      assert b.events.value[0] in b.events.value && !PropertyCleaned(b, b.events.value[0]);
      return false;
    }
    var incomplete := 0;
    for n := 0 to |b.events.value|
      invariant incomplete == 0 <==> forall k | 0 <= k < n :: PropertyCleaned(b, b.events.value[k])
      invariant incomplete >= 0
    {
      if Incomplete(b, b.events.value[n]) {
        incomplete := incomplete + 1;
      }
    }
    assert incomplete == 0 ==> forall p | p in b.events.value :: PropertyCleaned(b, p);
    return incomplete == 0;
  }

  /**
   * Every property with a readable event row has been cleaned up, under the calendar configured now, and has nothing
   * left in its queue.
   */
  ghost predicate CleanedUp(b: Books) {
    b.events.Some? ==> forall property | property in b.events.value :: PropertyCleaned(b, property)
  }

  ghost predicate PropertyCleaned(b: Books, property: int) {
    && b.states.Some? && property in b.states.value && b.states.value[property].phase == Cleanup.Complete
    && TrimBlanks(b.states.value[property].calendar) == Configured(b, property)
    && b.items.Some? && forall id | id in b.items.value :: b.items.value[id].property != property
  }

  // ---------- the history of committed bodies ----------

  datatype Ran = Ran(version: Version, automatic: bool, books: Books)

  function Versions(log: seq<Ran>): set<Version> {
    if log == [] then {} else Versions(log[..|log| - 1]) + {log[|log| - 1].version}
  }

  /**
   * Each body committed once, after its prerequisites; a manual one never by an automatic run; and the named-stay
   * calendar only over cleaned-up books.
   */
  ghost predicate WellRun(log: seq<Ran>) {
    log != [] ==>
      var before, last := log[..|log| - 1], log[|log| - 1];
      && WellRun(before)
      && Known(last.version) && last.version !in Versions(before)
      && Prerequisites(last.version) <= Versions(before)
      && (last.automatic ==> !Manual(last.version))
      && (last.version == NAMED_STAY_CALENDAR ==> CleanedUp(last.books))
  }

  lemma {:induction false} VersionsAre(log: seq<Ran>, k: nat)
    requires k < |log|
    ensures log[k].version in Versions(log)
  {
    if k < |log| - 1 {
      VersionsAre(log[..|log| - 1], k);
      assert log[..|log| - 1][k] == log[k];
    }
  }

  /** No body was committed twice. */
  lemma {:induction false} EachBodyOnce(log: seq<Ran>, i: nat, j: nat)
    requires WellRun(log) && i < j < |log|
    ensures log[i].version != log[j].version
  {
    var before := log[..|log| - 1];
    if j < |log| - 1 {
      EachBodyOnce(before, i, j);
    } else {
      VersionsAre(before, i);
    }
  }

  /** Whatever the run, the versions stand in their order of dependence. */
  lemma {:induction false} DependenciesHold(log: seq<Ran>)
    requires WellRun(log)
    ensures forall v | v in Versions(log) :: Prerequisites(v) <= Versions(log)
    ensures forall v | v in Versions(log) && v in {40, 45, 46, 47, 49} :: 39 in Versions(log)
    ensures 49 in Versions(log) ==> 40 in Versions(log)
    ensures forall v | v in Versions(log) :: 1 <= v <= 49
  {
    if log != [] {
      DependenciesHold(log[..|log| - 1]);
    }
  }

  /** Which database operation fails, and what the gate's tables hold when it is reached, by operation number. */
  datatype Env = Env(fails: nat -> bool, books: nat -> Books)

  /** No operation fails, and whenever the gate is reached it is satisfied. */
  ghost predicate Smooth(env: Env) {
    forall n :: !env.fails(n) && CleanedUp(env.books(n))
  }

  /** What an automatic run without errors makes of the applied versions. */
  ghost predicate Completed(before: set<Version>, after: set<Version>) {
    forall v :: v in after <==>
      v in before
      || (1 <= v <= 49 && v != 39 && v != 40 && (v in {45, 46, 47} ==> 39 in before) && (v == 49 ==> 40 in before))
  }

  datatype Command = Up(env: Env) | Automatic(env: Env) | CleaningCalendar(env: Env) | Startup(env: Env)

  class Database {
    /** Whether the version table exists, and what it holds. */
    var table: bool
    var applied: set<Version>
    var clock: nat
    ghost var log: seq<Ran>

    ghost predicate Valid()
      reads this
    {
      && applied == Versions(log) && WellRun(log)
      && (!table ==> applied == {})
    }

    /** An empty database. */
    constructor ()
      ensures Valid() && !table && applied == {} && log == [] && clock == 0
    {
      table, applied, clock, log := false, {}, 0, [];
    }

    method Tick(env: Env) returns (fails: bool)
      modifies this`clock
      ensures clock == old(clock) + 1 && fails == env.fails(clock)
    {
      clock := clock + 1;
      fails := env.fails(clock);
    }

    /** One turn of the loop of `up`: skip, find it applied, or run its body and record it in one transaction. */
    method Consider(v: Version, automatic: bool, env: Env) returns (ok: bool)
      requires Valid() && table && Known(v)
      requires !automatic ==> Prerequisites(v) <= applied
      modifies this`applied, this`clock, this`log
      ensures Valid() && old(log) <= log
      ensures applied == old(applied) || (applied == old(applied) + {v} && !(automatic && Skipped(v, old(applied))))
      ensures applied == old(applied) ==> log == old(log)
      ensures ok ==> v in applied || (automatic && Skipped(v, applied))
      ensures Smooth(env) ==> ok
      ensures !automatic && env.fails(old(clock) + 1) ==> !ok && applied == old(applied)
    {
      ok := false;
      if automatic {
        if Manual(v) {
          return true;
        }
        var fails := Tick(env);
        if fails {
          return;
        }
        if v == ADVERTISED_PRICE && NAMED_STAY_CALENDAR !in applied {
          return true;
        }
        if AfterLegacyRemoval(v) && LEGACY_REMOVAL !in applied {
          return true;
        }
      }
      var fails := Tick(env);
      if fails {
        return;
      }
      if v in applied {
        return true;
      }
      var books := env.books(clock);
      if v == NAMED_STAY_CALENDAR {
        var ready := EnsureCleanupReady(books);
        if !ready {
          return;
        }
      }
      fails := Tick(env);
      if fails {
        return;
      }
      ghost var entry := Ran(v, automatic, books);
      assert (log + [entry])[..|log|] == log;
      applied := applied + {v};
      log := log + [entry];
      return true;
    }

    /** `up` with no version named. */
    method Walk(automatic: bool, env: Env) returns (ok: bool)
      requires Valid()
      modifies this
      ensures Valid() && old(log) <= log && old(applied) <= applied && (old(table) ==> table)
      ensures (ok ==> table) && (Smooth(env) ==> ok)
      ensures table <==> old(table) || !env.fails(old(clock) + 1)
      ensures !automatic && env.fails(old(clock) + 2) ==> !ok && applied == old(applied)
      ensures ok && !automatic ==> Full(applied)
      ensures ok && automatic ==> forall v | Known(v) && v !in applied :: Skipped(v, applied)
      ensures ok && automatic ==> Completed(old(applied), applied)
      ensures automatic ==> forall v | v in applied && Manual(v) :: v in old(applied)
      ensures automatic && (forall v | Known(v) && v !in old(applied) :: Skipped(v, old(applied))) ==>
                applied == old(applied) && log == old(log)
    {
      ok := false;
      var fails := Tick(env);
      if fails {
        return;
      }
      table := true;
      for v := 1 to LATEST + 1
        invariant v == 1 ==> clock == old(clock) + 1 && applied == old(applied)
        invariant !automatic && env.fails(old(clock) + 2) ==> v == 1
        invariant Valid() && table && old(log) <= log && old(applied) <= applied
        invariant !automatic ==> forall w | 1 <= w < v :: w in applied
        invariant automatic ==> forall w | 1 <= w < v && w !in applied :: Skipped(w, applied)
        invariant automatic ==> forall w | w in applied && Manual(w) :: w in old(applied)
        invariant automatic ==> forall w | w in applied && w !in old(applied) :: Known(w) && !Skipped(w, old(applied))
        invariant automatic && (forall w | Known(w) && w !in old(applied) :: Skipped(w, old(applied))) ==>
                    applied == old(applied) && log == old(log)
      {
        assert Known(v);
        ghost var logBefore := log;
        ok := Consider(v, automatic, env);
        if !ok {
          return;
        }
      }
      DependenciesHold(log);
      return true;
    }

    method Up(env: Env) returns (ok: bool)
      requires Valid()
      modifies this
      ensures Valid() && old(log) <= log && old(applied) <= applied && (old(table) ==> table)
      ensures ok ==> Full(applied) && table
      ensures Smooth(env) ==> ok
      ensures !old(table) && !env.fails(old(clock) + 1) && env.fails(old(clock) + 2) ==>
                !ok && table && applied == old(applied)
    {
      ok := Walk(false, env);
    }

    /** Ordinary migrations only. A second automatic run after one without errors changes nothing. */
    method UpAutomatic(env: Env) returns (ok: bool)
      requires Valid()
      modifies this
      ensures Valid() && old(log) <= log && old(applied) <= applied && (old(table) ==> table)
      ensures forall v | v in applied && (v == 39 || v == 40) :: v in old(applied)
      ensures (ok ==> table && Settled() && Completed(old(applied), applied)) && (Smooth(env) ==> ok)
      ensures old(Settled()) ==> applied == old(applied) && log == old(log)
    {
      ok := Walk(true, env);
    }

    /** Nothing is left that an automatic run would apply. */
    ghost predicate Settled()
      reads this
    {
      forall v | Known(v) && v !in applied :: Skipped(v, applied)
    }

    /** The named-stay calendar alone, and only once the legacy removal is in place. */
    method UpCleaningCalendar(env: Env) returns (ok: bool)
      requires Valid()
      modifies this
      ensures Valid() && old(log) <= log && table == old(table)
      ensures applied == old(applied) || applied == old(applied) + {NAMED_STAY_CALENDAR}
      ensures ok ==> LEGACY_REMOVAL in applied && NAMED_STAY_CALENDAR in applied
      ensures Smooth(env) ==> (ok <==> LEGACY_REMOVAL in old(applied))
    {
      ok := false;
      var fails := Tick(env);
      if fails || !table || LEGACY_REMOVAL !in applied {
        return;
      }
      fails := Tick(env);
      if fails {
        return;
      }
      ok := Consider(NAMED_STAY_CALENDAR, false, env);
    }

    /**
     * Everything for a database without a version table, otherwise the ordinary migrations. Without errors that is the
     * whole schema exactly when the table was missing or both manual migrations were already in.
     */
    method UpStartup(env: Env) returns (ok: bool)
      requires Valid()
      modifies this
      ensures Valid() && old(log) <= log && old(applied) <= applied && (old(table) ==> table)
      ensures old(table) ==> forall v | v in applied && (v == 39 || v == 40) :: v in old(applied)
      ensures old(table) && ok ==> Completed(old(applied), applied)
      ensures Smooth(env) ==> ok
      ensures ok ==> table && (Full(applied)
                               <==> !old(table) || (LEGACY_REMOVAL in old(applied)
                                                    && NAMED_STAY_CALENDAR in old(applied)))
      ensures !old(table) && !env.fails(old(clock) + 1) && !env.fails(old(clock) + 2) && env.fails(old(clock) + 3) ==>
                !ok && table && applied == old(applied)
    {
      ok := false;
      var fails := Tick(env);
      if fails {
        return;
      }
      if !table {
        ok := Up(env);
      } else {
        ok := UpAutomatic(env);
        DependenciesHold(log);
        assert Known(LEGACY_REMOVAL) && Known(NAMED_STAY_CALENDAR);
      }
    }

    /** Any sequence of the four commands, failing wherever it may. */
    method Live(commands: seq<Command>)
      requires Valid()
      modifies this
      ensures Valid() && old(log) <= log && old(applied) <= applied
      ensures (forall c | c in commands :: c.Automatic? || (c.Startup? && old(table))) ==>
                forall v | v in applied && (v == 39 || v == 40) :: v in old(applied)
    {
      for n := 0 to |commands|
        invariant Valid() && old(log) <= log && old(applied) <= applied && (old(table) ==> table)
        invariant (forall c | c in commands :: c.Automatic? || (c.Startup? && old(table))) ==>
                    forall v | v in applied && (v == 39 || v == 40) :: v in old(applied)
      {
        var ok;
        assert commands[n] in commands;
        match commands[n]
        case Up(env) => ok := Up(env);
        case Automatic(env) => ok := UpAutomatic(env);
        case CleaningCalendar(env) => ok := UpCleaningCalendar(env);
        case Startup(env) => ok := UpStartup(env);
      }
    }
  }

  /**
   * The first start of an empty database stops at its first migration. However often it is started again, and even if
   * nothing ever fails again, the schema stays incomplete.
   */
  method InterruptedStart(env: Env, later: seq<Env>) returns (db: Database, oks: seq<bool>)
    requires !env.fails(1) && !env.fails(2) && env.fails(3)
    ensures fresh(db) && db.Valid() && db.table && !Full(db.applied)
    ensures |oks| == |later| && forall k | 0 <= k < |later| && Smooth(later[k]) :: oks[k]
  {
    db := new Database();
    oks := [];
    var ok := db.UpStartup(env);
    for n := 0 to |later|
      invariant db.Valid() && db.table && fresh(db) && forall v | v in db.applied :: !Manual(v)
      invariant |oks| == n && forall k | 0 <= k < n && Smooth(later[k]) :: oks[k]
    {
      ok := db.UpStartup(later[n]);
      oks := oks + [ok];
    }
    assert Known(LEGACY_REMOVAL) && Manual(LEGACY_REMOVAL);
  }
}
