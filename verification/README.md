# Verification of the property management backend

This project models the parts of the backend whose correctness depends on more than one function body, and proves what
they promise. Each module is one component.

| modules | component |
|---|---|
| `CalendarModel`, `EventIndex`, `CalendarPass`, `CalendarSafety`, `CalendarPhases`, `CalendarRuns`, `CalendarPlaced`, `CalendarLosses`, `CalendarContent`, `CalendarConvergence`, `CalendarExamples`, `CalendarCopy`, `CalendarService` | reconciliation of cleaning events with a remote calendar |
| `NukiLifecycle`, `NukiSafety`, `NukiRuns`, `NukiInterleaved`, `NukiLog` | smart-lock credentials, and reading the lock's log |
| `Cleanup`, `Migrate` | the offline cleanup of raw cleaning events, and the migration runner it gates |
| `Retention` | pruning of database snapshots |
| `Decimal`, `InvoiceItems` | invoice line arithmetic |
| `ItemTable`, `Wrap` | invoice pagination and line wrapping |
| `Nights`, `NightTables`, `Midweek`, `Adr` | night accounting, its tables, the midweek scan, revenue by dimension |
| `Evidence`, `Mojibake` | evidence that a cleanup changed nothing, and repair of wrongly decoded text |
| `Text` | options, bytes, trimming, byte order, a few facts about sets and sequences |

A component that works by changing things step by step is a class or a method with loops, proved equal to a specification
function or against a declarative property; lemmas then relate several functions, whole passes or whole runs. What lies
outside a component (replies of the remote calendar, listings, failing operations, the point where a process stops, the
text of a digest, the width of a string) is an unrestricted input, so every statement holds for all of it. `dafny verify
dfyconfig.toml` checks the project.

## What the proofs found

- **A begun deletion is finished even when the cleaning is wanted again.** Phase one skips a synced row without looking at
  its pending action, phase two deletes a row with a pending deletion without asking whether a stay calls for it. An
  error-free pass settles a wanted stay exactly unless the pass found its row waiting for a deletion and would skip it; in
  that case the row is removed and its live event is gone (`DesiredSurvivesExactly`, a condition on the table and the
  listing the pass starts from). `WantedEventIsLostInARun` is a run from an empty table that gets there: a pass stops
  between recording a deletion and carrying it out. The safety of past rows and the cause of every loss do not depend on
  this (`PassIsSafe`).
- **An event moved to another day can be taken over or deleted.** Matching falls back to the stay and the day of an event.
  If somebody drags the event of one cleaning to the day on which the same stay is to be cleaned, phase one writes the
  other cleaning into it (`MovedEventIsTaken`), and phase two may delete it through a row that has no event of its own
  (`MovedEventIsDeleted`). A pass hands one cleaning another's event exactly when, for a stay of the window or for a row
  to be retired, nothing but the stay and the day leads to a listed event (`PassTakesExactly`); and a past row loses its
  event exactly when that event is the one met, is live where it is to be deleted, and the call is carried out
  (`PastLossExactly`, `PastKeptExactly`). Without such a move it cannot happen: from an empty table, over every run of
  passes, retries, stops and edits in which nobody moves a marked event to another day, every pass is safe
  (`RunFromEmptyIsSafe`, `PlacedRunIsSafe`). These two assume nothing of the worlds on the way, and let the property's
  offset change between passes as long as check-out does not cross midnight with it.
- **Copying the event table can hand out an id twice.** The schema transition drops rows of an earlier kind and lets the
  new table count on from the greatest copied id. The invariant survives exactly when no event left in the calendar
  carries an id that is given out again (`CopyKeepsExactly`); under the invariant no step but an edit ever touches an
  event left behind (`OthersKept`, part of every safe step). With an event ahead, the row that receives its id is matched
  to it (`AheadIsMatched`), and a run of two passes overwrites it (`CopyForgetsIds`, `ReusedIdTakesEvent`).
- **An unmatched creation intent is never backed off or sent to review.** The pass claims the intent first and then offers
  the retry time and the review state under a revision the claim has already stored, so the store refuses both
  (`UnmatchedIntentIsOnlyClaimed`).
- **A correlated credential is sent a DELETE by no pass.** Confirming a creation sets the time a request was accepted,
  nothing resets it, and the deletion pass sends only while it is unset. Only a deletion that a request dispatches sends
  one, and it does so whatever was accepted before (`CorrelatedIsSentExactly`, `AcceptedIsResentExactly`).
- **An acceptance can be lost.** The answer to a DELETE is stored under the revision the pass loaded; the mark goes through
  exactly if nothing changed the credential in between (`MarkIsKeptExactly`). A request that starts the deletion again
  before the mark makes a later pass send a second DELETE (`AcceptanceIsLost`). A dispatched deletion marks the newest
  credential with the remote id, deleted or not, and is recorded exactly when that one is live or none is
  (`DispatchIsExact`, `DispatchLosesAcceptance`).
- **A creation can be confirmed with one of two matches.** A turn looks up the owner of each row when it comes to it. What
  it confirms is unowned at that moment, and the confirmation goes through exactly if nothing changed the intent since
  the claim (`ConfirmationIsExact`, `ConfirmedIsUnowned`); but a row that was owned when it was looked up may be free by
  then (`ConfirmedAmongTwo`).
- **The backoff would wrap.** Up to revision 614,891,470 it lies between 15 seconds and 15 minutes; at the next one the 64-bit
  product is negative and the row is due again at once (`BackoffIsBounded`, `BackoffWraps`).
- **A raw event known only from a local row is queued but can never be deleted.** Discovery accepts the local row, deletion
  insists on the event's own marks and refuses, wherever in the listing the event stands (`QueuedIsRemovedExactly`). As
  long as the event stays as it is, no run ends without error (`UnchangedIsRefused`, `Runner.KeepFailing`);
  `NeverEndsFine` is such an event.
- **Preparing again after the configured calendar changed strands the queue.** It refreshes the stored calendar and leaves
  the queued items of the old one. A run that ends without error completes a property exactly if no item is left, and
  what is left is either queued for another calendar or listed before the cutoff (`Runner.Run`); and a run does end
  without error when nothing stops, every call goes through, the configured calendar stays what it is, and no event is
  ambiguous or refused. While the stored calendar stays the configured one, no sequence of preparations and runs
  gets rid of an item queued for another (`Runner.Endure`); `NeverCompletes` is such a property.
- **An interrupted first start stays incomplete.** Once the version table exists, starting up only applies the ordinary
  migrations: without errors it leaves the whole schema exactly when the table was missing or both manual migrations were
  already in (`Database.UpStartup`). `InterruptedStart` is a first start that stops at its first migration and is never
  completed by any later one.
- **The weekday table does not read the closure state of a blocker.** Its availabilities sum to the bookable nights exactly
  when every night of a blocker is covered by one flagged closed (`WeekdaysSumToBookable`). The store flags every blocker
  it returns, so the sum holds for all inputs the function receives; `UnflaggedBlockerIsMissed` shows what the two
  functions would disagree on, and is not reachable through the store.
- **The text repair looks for four letters only.** It undoes the damage to valid UTF-8 exactly when a byte C2 to C5 occurs
  or everything is ASCII (`RepairUndoesDamage`).

The aggregate check takes a missing digest for an empty one, so it would pass an empty digest against a table that is gone
(`EmptyDigestPasses`). A digest in hexadecimal is never empty, so this input does not occur; for the digests that do, the
check passes exactly for equal maps (`PassMeansEqual`).

Where the code and its comments disagree the model follows the code: the daily bucket keeps the newest snapshot of a day,
not the oldest (backend/internal/backup/backup.go:66 and 112), and the midweek scan asks for occupied neighbours, not for a
booked weekend (backend/internal/store/analytics.go:1501 and 1537, `NeighboursNeedNotBeWeekend`).

## How the source is read

- Civil days are integers, instants are integers, and a property's zone is a fixed offset within a pass; it may be another
  one in the next pass of a run.
- A digest stands for the fields it digests, except in `Evidence`, where it is any function of the byte stream.
- Database writes of the reconciliation and of the credential passes do not fail; those of the cleanup and of the migration
  runner may. The reconciliation, the cleanup and the migration runner may stop at any of their operations. A committed
  transaction is atomic.
- Reconciliation passes and retries of one property exclude each other, as the lease and the mutex of the source have it.
  Credential passes do not: `NukiRuns` takes a pass as one step, `NukiInterleaved` takes single writes in any order.
- A remote event lives in one calendar at a time, keeps its id, and stays as a cancelled one after its deletion; an insertion
  that offers a used or blank id is a call that failed. Between passes people may retitle, cancel, purge and add remote
  events and move them to another time, day or calendar, but they do not forge PMS marks; `CalendarPlaced` alone also
  supposes that they leave marked events on their day.
- Snapshot stamps are distinct because the stamp is the file name.
- Strings are sequences of code points; text that is repaired or hashed is a sequence of bytes.

## Model

| member | source | states |
|---|---|---|
| `EventIndex.NewIndex` | backend/internal/cleaningcalendar/service.go:410-447 | the loop over a listing builds the lookup tables of the specification |
| `EventIndex.IndexIsFaithful` | backend/internal/cleaningcalendar/service.go:410-447 | every table entry is the least id among the usable listed events with that key, and every key with such an event has an entry |
| `EventIndex.MatchIsFirstLeast` | backend/internal/cleaningcalendar/service.go:449-484 | matching through the tables is a plain scan of the listing: the least id satisfying the first applicable criterion, in priority order |
| `EventIndex.MatchIgnoresOrder` | backend/internal/cleaningcalendar/service.go:449-484 | the match is the same for every permutation of the listed events |
| `CalendarSafety.RemoteUpsertKeeps` | backend/internal/cleaningcalendar/service.go:526-566 | patching or inserting, answered, failed or carried out although it failed, keeps events and rows mirroring each other and touches only the row's own events |
| `CalendarSafety.RemoteDeleteKeeps` | backend/internal/cleaningcalendar/service.go:568-596 | deleting a row's event keeps the mirror and touches only that row's events |
| `CalendarSafety.SyncUpsertKeeps` | backend/internal/cleaningcalendar/service.go:526-566 | the whole upsert of one row keeps the invariant and only rewrites that row |
| `CalendarSafety.StoppedUpsertKeeps` | backend/internal/cleaningcalendar/service.go:526-566 | an upsert that stops before or after the outside call keeps as much |
| `CalendarSafety.SyncUpsertSettles` | backend/internal/cleaningcalendar/service.go:526-566 | an upsert without error leaves the row synced on a live event with the row's own payload |
| `CalendarSafety.SyncDeleteKeeps` | backend/internal/cleaningcalendar/service.go:568-596 | the whole deletion of one row keeps the invariant and only rewrites that row |
| `CalendarSafety.StoppedDeleteKeeps` | backend/internal/cleaningcalendar/service.go:568-596 | a deletion that stops before or after the outside call keeps as much |
| `CalendarPhases.MatchIsOthersExactly` | backend/internal/cleaningcalendar/service.go:449-484 | under the invariant a match hands one cleaning the event of another exactly when no event has the ids, the row or the identity looked for and only the stay and the day lead to one |
| `CalendarPhases.DraftTakesExactly` | backend/internal/cleaningcalendar/service.go:186-211 | the draft of a stay carries another cleaning's event exactly when that holds for it in the table its turn finds |
| `CalendarPhases.AdoptionTakesExactly` | backend/internal/cleaningcalendar/service.go:271-274 | the id a retired row adopts is another cleaning's exactly when that holds for the row |
| `CalendarPhases.DesireAllKeeps` | backend/internal/cleaningcalendar/service.go:186-221 | phase one keeps the invariant and touches only desired cleanings, unless a stay meets only another cleaning's event |
| `CalendarPhases.DesireAllReadies` | backend/internal/cleaningcalendar/service.go:186-221 | it leaves the row of every desired stay neither removed nor waiting for a deletion, exactly but for the rows found begun, which it leaves as they were |
| `CalendarPhases.RetireAllKeeps` | backend/internal/cleaningcalendar/service.go:222-281 | phase two keeps the invariant, touches only listed rows and spares current and past ones |
| `CalendarRuns.PassTakesExactly` | backend/internal/cleaningcalendar/service.go:93-283 | some turn of a pass takes another cleaning's event if and only if the table, the stays and the listing the pass starts from are tangled |
| `CalendarRuns.InPlaceIsUntangled` | backend/internal/cleaningcalendar/service.go:478-481 | they are not while every listed event lies on the day it was written for |
| `CalendarRuns.PassIsSafe` | backend/internal/cleaningcalendar/service.go:93-283 | an untangled pass with any failures keeps the invariant and the events of past rows not being deleted; nobody else's event is touched; every loss has a cause; and no event a desired cleaning was matched to, skipped on or written into is touched again, unless its row was found begun |
| `CalendarRuns.StoppedInPhaseOne` | backend/internal/cleaningcalendar/service.go:186-221 | a pass that stops anywhere in phase one keeps the invariant, the events of past rows and everybody else's |
| `CalendarRuns.StoppedInPhaseTwo` | backend/internal/cleaningcalendar/service.go:222-281 | a pass that stops anywhere in phase two keeps them too, and every loss has a cause |
| `CalendarRuns.RetryKeeps` | backend/internal/cleaningcalendar/service.go:497-524 | an operator's retry of one row keeps the invariant and everybody else's events, also when it stops half way |
| `CalendarRuns.EditKeeps` | backend/internal/cleaningcalendar/service.go:449-484 | whatever people do to remote events short of forging marks, moving them to another day included, keeps the invariant |
| `CalendarRuns.RunIsSafe` | backend/internal/cleaningcalendar/service.go:93-283 | the general version: over every run of retries, stops, edits to any day and passes that are untangled when they start, the invariant holds throughout and every step is safe |
| `CalendarRuns.EmptyTableIsSafe` | backend/internal/migrate/000040_named_stay_only_cleaning_calendar.up.sql:43-70 | a new installation satisfies the invariant, whatever is already in people's calendars |
| `CalendarContent.DraftIsDrafted` | backend/internal/cleaningcalendar/service.go:301-343 | what is built for a stay, field by field: calendar, check-out second, title by arrival, digest, and the end: the stored one under an unchanged schedule, otherwise the usual duration, or an hour before check-in with an arrival, or half an hour where that leaves no time |
| `CalendarContent.SkippedExactly` | backend/internal/cleaningcalendar/service.go:354-381 | a row is skipped if and only if it is synced, its id is still listed, and its calendar, title, start, end, arrival flag and time zone are those called for: comparing digests is comparing fields |
| `CalendarContent.TurnIsExact` | backend/internal/cleaningcalendar/service.go:186-221 | a turn of phase one leaves an up-to-date row and its event alone; otherwise the row holds what the stay calls for, and it is synced with a live event that carries the same calendar, title and times, or waits for another attempt |
| `CalendarContent.RetireIsExact` | backend/internal/cleaningcalendar/service.go:234-281 | a turn of phase two: left alone, set aside without a call, or deleted through its own or its matched id; row, calendar and counters in each case |
| `CalendarContent.RetryIsExact` | backend/internal/cleaningcalendar/service.go:497-524 | a retry deletes through a removed row or one waiting for its deletion, and carries any other to the calendar as it stands |
| `CalendarPlaced.StepPlaces` | backend/internal/cleaningcalendar/service.go:186-281 | every pass, retry and stop, and every edit that moves no marked event to another day, leaves rows and marked events on the days they were written for |
| `CalendarPlaced.PlacedMayStart` | backend/internal/cleaningcalendar/service.go:449-484 | in such a world no pass is tangled, whatever its stays and listing |
| `CalendarPlaced.PlacedRunIsSafe` | backend/internal/cleaningcalendar/service.go:93-283 | over every run from such a world, with passes that fail and stop anywhere, every pass is untangled, the invariant holds throughout and every step is safe, with no premise on the worlds between |
| `CalendarPlaced.RunFromEmptyIsSafe` | backend/internal/cleaningcalendar/service.go:93-283 | the same from a new installation, whatever is already in people's calendars |
| `CalendarLosses.PastLossExactly` | backend/internal/cleaningcalendar/service.go:93-283 | over any pass, tangled or not, a past row not being deleted loses its event if and only if a stay of the window, or a row retired while the event is live, meets nothing but that event by stay and day and the call is carried out |
| `CalendarLosses.PastKeptExactly` | backend/internal/cleaningcalendar/service.go:93-283 | a pass keeps every past event if and only if that befalls none |
| `CalendarLosses.AimIsTaking` | backend/internal/cleaningcalendar/service.go:186-211 | a stay of the window goes for the event of a past row exactly when it is matched to it by stay and day alone |
| `CalendarCopy.CopyKeepsExactly` | backend/internal/migrate/000040_named_stay_only_cleaning_calendar.up.sql:71-90 | copying the rows of an existing installation keeps the invariant exactly when no event left behind carries an id the new table gives out again; rows keep everything but the schedule and what is pending, which the last failure decides; no copied row is begun |
| `CalendarCopy.MarkedIsMatched` | backend/internal/cleaningcalendar/service.go:464-468 | a row without a remote id is matched to the least listed event marked with its number |
| `CalendarCopy.AheadIsMatched` | backend/internal/cleaningcalendar/service.go:449-484 | the row that receives the id of an event left behind is matched to that event, which it never wrote |
| `CalendarCopy.CopyForgetsIds` | backend/internal/migrate/000040_named_stay_only_cleaning_calendar.up.sql:37-90 | a concrete installation whose copy does not keep the invariant |
| `CalendarCopy.ReusedIdTakesEvent` | backend/internal/cleaningcalendar/service.go:186-221 | two passes after that copy, the second without failure, write a cleaning into the event left behind |
| `CalendarConvergence.PassConverges` | backend/internal/cleaningcalendar/service.go:93-283 | after an untangled pass without failure every desired cleaning not found begun is synced on a live event of its own, and its row and event hold the title, times and calendar its stay calls for: untouched if they did before, written otherwise; no active row of today or later is not called for |
| `CalendarConvergence.PassBrings` | backend/internal/cleaningcalendar/service.go:93-283 | with failures too, up-to-date rows and their events are untouched and every other desired row, unless found begun, holds what its stay calls for; as many are counted as upserted as were out of date |
| `CalendarConvergence.SecondPassIsIdle` | backend/internal/cleaningcalendar/service.go:354-381 | a second pass over the same inputs writes nothing, deletes nothing and changes nothing, although end times are inherited and hashes computed anew, if and only if the first found no wanted row begun |
| `CalendarConvergence.BegunIsUntouched` | backend/internal/cleaningcalendar/service.go:354-365 | phase one leaves the row and the event of a stay it finds begun as they are, whatever it does for the others |
| `CalendarConvergence.DesiredSurvivesExactly` | backend/internal/cleaningcalendar/service.go:186-243 | an error-free pass settles a desired stay if and only if the row it started from was not waiting for a deletion or would not be skipped; otherwise the row is removed and its event, live before, is gone |
| `CalendarExamples.WantedEventIsLostInARun` | backend/internal/cleaningcalendar/service.go:234-243 | a run from an empty table whose last pass deletes a wanted live event although nothing fails |
| `CalendarExamples.MovedEventIsTaken` | backend/internal/cleaningcalendar/service.go:478-481 | a pass that writes today's cleaning into the event of a past one, which somebody moved to today |
| `CalendarExamples.MovedEventIsDeleted` | backend/internal/cleaningcalendar/service.go:271-281 | a pass that deletes such an event through a row it retires |
| `CalendarService.ListTargets` | backend/internal/cleaningcalendar/service.go:285-299 | lists the eligible stays checking out inside the clamped window, once each |
| `CalendarService.ListActive` | backend/internal/store/cleaning_calendar.go:330-336 | lists the rows that are not removed, once each |
| `CalendarService.Service.SyncUpsert` | backend/internal/cleaningcalendar/service.go:526-566 | computes the specified new table, calendar and verdict |
| `CalendarService.Service.SyncDelete` | backend/internal/cleaningcalendar/service.go:568-596 | computes the specified new table, calendar and verdict |
| `CalendarService.Service.UpsertOne` | backend/internal/cleaningcalendar/service.go:187-221 | one turn of phase one: an up-to-date row is skipped, any other is written with what its stay calls for, with the counters and the ids handed over |
| `CalendarService.Service.RetireOne` | backend/internal/cleaningcalendar/service.go:234-281 | one turn of phase two: pending deletion, past row, current row, reused id, adopted match or deletion, with the row, calendar and counters it leaves |
| `CalendarService.Service.ReconcilePropertyDateRange` | backend/internal/cleaningcalendar/service.go:93-283 | from any canonical table the loops compute the specified pass; a failed listing changes nothing; from the invariant and an untangled start the pass keeps the invariant and is safe, every out-of-date row not found begun ends up with what its stay calls for, and success converges; the statistics count stays, upserts and removals; a placed start is untangled and stays placed |
| `NukiSafety.MatchesAreCandidates` | backend/internal/nuki/service.go:359-375 | the loop finds exactly one match if and only if exactly one position of the inventory holds an unowned row equal to the tuple |
| `NukiSafety.CreationIsExact` | backend/internal/nuki/service.go:323-429 | a creation is confirmed in its turn exactly when it is for the bound lock, names a stay and has exactly one candidate, whose id it takes; the whole row and every counter after the turn, in each case |
| `NukiSafety.UnmatchedIntentIsOnlyClaimed` | backend/internal/nuki/service.go:376-389 | without exactly one match nothing but the claimed revision is written, and the intent counts as failed |
| `NukiSafety.DeletionIsExact` | backend/internal/nuki/service.go:240-315 | a deletion is confirmed exactly when the inventory fetched in that pass omits the id; a DELETE is sent exactly when it is shown and none was accepted; what is still shown is due again a minute later; the whole row and every counter in each case |
| `NukiSafety.UpdateIsExact` | backend/internal/nuki/service.go:168-236 | an update is confirmed exactly when the inventory shows the new label and window under the same id; otherwise it stays pending with its label, window and id, one revision higher and due after 15 seconds a revision, at most 15 minutes, or goes to review under another lock; the whole row and every counter |
| `NukiSafety.CreationPassIsExact` | backend/internal/nuki/service.go:323-429 | over a whole pass, each intent ends up as its turn settles it by the table it finds, only listed rows change, and the counters say how many were confirmed |
| `NukiSafety.DeletionPassIsExact` | backend/internal/nuki/service.go:240-315 | over a whole pass, each row ends up as its turn leaves it, each DELETE is sent once and exactly for the shown, never accepted ones, and the counters say how many were omitted |
| `NukiSafety.UpdatePassKeeps` | backend/internal/nuki/service.go:168-236 | over a whole pass, ids stay unique, each row ends up as its turn leaves it (active, still pending with its retry time, or in review), and the counters say how many were reflected |
| `NukiRuns.StepKeeps` | backend/internal/store/nuki_managed_credentials.go:269-354 | every pass, every write on behalf of a request and every dispatched deletion keeps remote ids unique and forgets no credential or acceptance |
| `NukiRuns.IntentIsStored` | backend/internal/store/nuki_managed_credentials.go:43-77 | a new intent is never refused and waits at revision 1 under a new id, without a remote id or an acceptance |
| `NukiRuns.UpdateIsStarted` | backend/internal/store/nuki_managed_credentials.go:318-339 | exactly an active credential takes a new label and window, pending at the next revision and due at once |
| `NukiRuns.DispatchIsExact` | backend/internal/nuki/service.go:585-614 | a dispatched deletion sends a DELETE for the one live credential with the remote id and changes no other; that one is started and marked, and the acceptance is recorded exactly when, in the table the request finds, the newest credential with that id is live or none is |
| `NukiRuns.DispatchLosesAcceptance` | backend/internal/nuki/service.go:585-606 | beside a newer deleted credential with the same remote id an accepted DELETE is not recorded |
| `NukiRuns.RemoteIdsStayUnique` | backend/internal/migrate/000044_nuki_managed_lifecycle.up.sql:2-4 | over every run no two credentials that are not deleted share a remote id on a lock |
| `NukiRuns.AcceptedIsResentExactly` | backend/internal/nuki/service.go:290-299 | once a DELETE was accepted, a later step of any run sends another for that credential if and only if it is a deletion dispatched for it: no pass does |
| `NukiRuns.SentAcceptanceIsKept` | backend/internal/nuki/service.go:300-312 | an acceptance heard in a pass is remembered after it |
| `NukiRuns.CorrelatedIsSentExactly` | backend/internal/store/nuki_managed_credentials.go:429-507 | a creation confirmed by correlation is sent a DELETE by exactly the deletions dispatched for it, and by no pass |
| `NukiRuns.ShownStaysPending` | backend/internal/nuki/service.go:240-315 | an accepted deletion the provider keeps showing stays pending through every run of passes and is not sent again |
| `NukiRuns.FindMatches` | backend/internal/nuki/service.go:359-375 | the loop returns the unowned inventory rows equal to the tuple |
| `NukiRuns.Service.CorrelateCreation` | backend/internal/nuki/service.go:343-427 | one intent: claim, lock binding, matches, confirmation, with the counters |
| `NukiRuns.Service.ReconcilePendingNukiCreations` | backend/internal/nuki/service.go:323-429 | the loop computes the specified pass, every row is what its turn settles, and the counters agree |
| `NukiRuns.Service.AdvanceDeletion` | backend/internal/nuki/service.go:260-313 | one row: lock binding, presence, confirmation, sending, with the counters |
| `NukiRuns.Service.DispatchDeletion` | backend/internal/nuki/service.go:585-606 | the start, the DELETE and the mark compute the specified dispatch |
| `NukiRuns.Service.ReconcilePendingNukiDeletions` | backend/internal/nuki/service.go:240-315 | the loop computes the specified pass: confirmed exactly when omitted, sent exactly when due, otherwise due again in a minute |
| `NukiRuns.Service.AdvanceUpdate` | backend/internal/nuki/service.go:188-234 | one row: lock binding, reflection, confirmation or backoff, with the counters; `UpdateIsExact` says what each leaves |
| `NukiRuns.Service.ReconcilePendingNukiUpdates` | backend/internal/nuki/service.go:168-236 | the loop computes the specified pass: active exactly when reflected, otherwise still pending with its retry time, or in review; remote ids stay unique |
| `NukiInterleaved.MoveKeeps` | backend/internal/store/nuki_managed_credentials.go:153-586 | every single write keeps remote ids unique, forgets no acceptance and raises the revision of whatever it changes |
| `NukiInterleaved.StatesFollow` | backend/internal/store/nuki_managed_credentials.go:269-537 | confirmations and requests take a state only along its life, and leave a deleted credential as it is |
| `NukiInterleaved.RevisionTells` | backend/internal/store/nuki_managed_credentials.go:549-586 | over every interleaving, a credential that still has its revision is as it was |
| `NukiInterleaved.OvertakenTurnIsVoid` | backend/internal/nuki/service.go:168-429 | the turn of a credential loaded earlier is that of an undisturbed pass, or it writes nothing |
| `NukiInterleaved.ConfirmationIsExact` | backend/internal/nuki/service.go:346-417 | a creation claimed at one moment and confirmed at another goes through if and only if nothing changed the intent in between, it names a stay and no other live credential owns the id by then |
| `NukiInterleaved.ConfirmedIsUnowned` | backend/internal/nuki/service.go:359-417 | with each owner looked up at its own moment, what is confirmed is still an unowned match, and the only one exactly if no other row's owner has gone |
| `NukiInterleaved.UndisturbedMatch` | backend/internal/nuki/service.go:359-375 | while no owner changes, the look-ups find what one look at the table would |
| `NukiInterleaved.UnmatchedWriteIsRefused` | backend/internal/nuki/service.go:376-389 | the retry time and the review state are refused after the claim, whatever is written in between |
| `NukiInterleaved.ConfirmedAmongTwo` | backend/internal/nuki/service.go:359-417 | an intent confirmed with one of two rows that nobody owns by then |
| `NukiInterleaved.MarkIsKeptExactly` | backend/internal/nuki/service.go:300-312 | the acceptance a pass hears is stored exactly if nothing changed the credential since the pass loaded it |
| `NukiInterleaved.ResendingIsStale` | backend/internal/nuki/service.go:290-299 | a pass that sends although a DELETE was accepted had loaded the credential before the acceptance was stored |
| `NukiInterleaved.AcceptanceIsLost` | backend/internal/nuki/service.go:300-312 | a concrete interleaving after which an accepted DELETE is sent again by a pass |
| `NukiInterleaved.OverlappingPassesBothSend` | backend/internal/nuki/service.go:290-312 | two passes that loaded the credential before either mark both send |
| `NukiLifecycle.BackoffIsBounded` | backend/internal/nuki/service.go:431-440 | up to revision 614891470 the wait grows from 15 seconds to 15 minutes, reached at revision 61 |
| `NukiLifecycle.BackoffWraps` | backend/internal/nuki/service.go:435 | at the next revision the 64-bit product wraps and the wait is negative |
| `NukiLog.EventsFromMap` | backend/internal/nuki/client.go:235-247 | every entry of the map once, strictly ordered by time and id |
| `NukiLog.ListSmartlockEvents` | backend/internal/nuki/client.go:180-233 | at most `maxPages` requests; an error, or the complete ordered listing |
| `NukiLog.SuccessEndsAtEmptyPage` | backend/internal/nuki/client.go:180-233 | against any server, success only follows an empty page, and the result holds the last row at or after `since` of every id served on the way, and nothing else |
| `NukiLog.FailureIsExplained` | backend/internal/nuki/client.go:180-233 | against any server, every error is explained by the last request: a broken answer, its first unreadable row, a last id equal to its cursor or to an earlier one, or a spent budget |
| `NukiLog.AbsorbFailsExactly` | backend/internal/nuki/client.go:212-226 | a page fails exactly if it has an unreadable row, with what is missing in the first one |
| `NukiLog.AbsorbLog` | backend/internal/nuki/client.go:212-226 | absorbing a stretch of a log collects exactly its rows at or after `since` |
| `NukiLog.FitsBudget` | backend/internal/nuki/client.go:187-193 | the pages a log needs fit the budget exactly when it leaves one for the empty answer |
| `NukiLog.FetchFollowsLog` | backend/internal/nuki/client.go:180-233 | from any cursor of a log served in order the loop reaches its end or spends the budget, never a false cycle |
| `NukiLog.LogIsReadCompletely` | backend/internal/nuki/client.go:180-233 | against a finite log served in cursor order, reading returns exactly the rows at or after `since` if and only if the budget suffices |
| `Cleanup.RemoveMeansOurs` | backend/internal/cleaningcalendarcleanup/cleanup.go:212-233 | the judgement says remove if and only if the first listed event with the id is raw-owned by the property, not named-owned, and on or after the cutoff |
| `Cleanup.DiscoveryIsExact` | backend/internal/cleaningcalendarcleanup/cleanup.go:160-186 | an event is queued exactly if it is live, on or after the cutoff and seen as raw only, and stops discovery exactly if seen as both |
| `Cleanup.QueuedIsRemovedExactly` | backend/internal/cleaningcalendarcleanup/cleanup.go:164-233 | for every listing whose first event with the id is as it was discovered: removed exactly when its own marks say raw, refused otherwise |
| `Cleanup.UnchangedIsRefused` | backend/internal/cleaningcalendarcleanup/cleanup.go:164-233 | an event queued only because of a local row, and listed unchanged, is refused by every listing |
| `Cleanup.DeletingIsSafe` | backend/internal/cleaningcalendarcleanup/cleanup.go:200-235 | deleting what the preceding listing showed as ours keeps the history of outside actions safe |
| `Cleanup.LeftIsEarly` | backend/internal/cleaningcalendarcleanup/cleanup.go:225-227 | an event is left alone if and only if its first listed entry lies before the cutoff or has no day |
| `Cleanup.JudgedIsSettled` | backend/internal/cleaningcalendarcleanup/cleanup.go:212-224 | an item is dropped without a delete if and only if the listing lacks its event |
| `Cleanup.EmptiedIsClean` | backend/internal/cleaningcalendarcleanup/cleanup.go:120-127 | if the queue is empty at the end, every wanted event of the discovery listing was deleted or seen to be gone |
| `Cleanup.RefreshingKeepsCutoffs` | backend/internal/cleaningcalendarcleanup/cleanup.go:56-59 | preparing any rows any number of times keeps every cutoff and phase already written |
| `Cleanup.Runner.PrepareOne` | backend/internal/cleaningcalendarcleanup/cleanup.go:46-62 | one row inserted, or its calendar and nothing else refreshed; on failure nothing |
| `Cleanup.Runner.Prepare` | backend/internal/cleaningcalendarcleanup/cleanup.go:31-65 | however far it gets, exactly the rows before that point are written, and no cutoff twice |
| `Cleanup.Runner.DiscoverAll` | backend/internal/cleaningcalendarcleanup/cleanup.go:151-186 | all events seen as raw only are queued, each once, and nothing else; an event with both kinds of marks, and nothing but that or a stop, ends it |
| `Cleanup.Runner.DeleteOne` | backend/internal/cleaningcalendarcleanup/cleanup.go:196-239 | the turn ends without error exactly if none of its operations stops or fails, the calendar is the configured one and the judgement is not to refuse; then the item stays exactly if its event is early, and the event is deleted exactly if listed as ours; a refused item stays |
| `Cleanup.Runner.DeleteQueued` | backend/internal/cleaningcalendarcleanup/cleanup.go:188-241 | every item of the calendar is settled or early, items of another calendar are not looked at; it ends without error when nothing fails and no item is refused, and not with a refused item |
| `Cleanup.Runner.Process` | backend/internal/cleaningcalendarcleanup/cleanup.go:78-130 | the part of a run for one property: no other property is touched; without error its row says complete exactly if no item is left, an item left is queued for another calendar or early, and complete means cleaned since a listing of the configured calendar; it ends without error if nothing hinders it, and leaves a note if it fails |
| `Cleanup.Runner.Run` | backend/internal/cleaningcalendarcleanup/cleanup.go:67-131 | a run ends without error when nothing stops or fails and no event is ambiguous or refused; after one without error each property is complete and cleaned, or has early or stranded items left; cutoffs are kept; stranded and refused items stay, and with a refused one no run ends without error |
| `Cleanup.Runner.Live` | backend/internal/cleaningcalendarcleanup/cleanup.go:31-131 | over any interleaving of preparations and runs, stopped anywhere: every delete followed straight after a listing that showed the event as ours, itself straight after a reading of that calendar as configured; cutoffs are written once; complete implies an empty queue |
| `Cleanup.Runner.Endure` | backend/internal/cleaningcalendarcleanup/cleanup.go:83-130 | while the stored calendar stays the configured one, an item queued for another survives every sequence of preparations and runs, and its property is never complete |
| `Cleanup.Runner.KeepFailing` | backend/internal/cleaningcalendarcleanup/cleanup.go:228-231 | while its event is refused, a queued item makes every one of any number of runs end with an error or a stop |
| `Cleanup.NeverCompletes` | backend/internal/cleaningcalendarcleanup/cleanup.go:46-62 | a concrete property, prepared under one calendar and again under another, that no such sequence completes |
| `Cleanup.NeverEndsFine` | backend/internal/cleaningcalendarcleanup/cleanup.go:164-231 | a concrete event, queued because of a local row, with which no run ends without error |
| `Migrate.EnsureCleanupReady` | backend/internal/migrate/migrate.go:152-170 | the gate opens exactly when every property with events is cleaned up under the calendar configured now, with an empty queue |
| `Migrate.EachBodyOnce` | backend/internal/migrate/migrate.go:105-148 | in every history no body is committed twice |
| `Migrate.DependenciesHold` | backend/internal/migrate/migrate.go:89-104 | in every history 45, 46 and 47 imply 39, 49 implies 40, and 40 implies 39 |
| `Migrate.Database.Consider` | backend/internal/migrate/migrate.go:81-148 | one turn of the loop: skipped, found applied, or body and row committed together |
| `Migrate.Database.Walk` | backend/internal/migrate/migrate.go:64-150 | without errors everything is applied, or exactly what an automatic run does not skip |
| `Migrate.Database.Up` | backend/internal/migrate/migrate.go:25-27 | an error-free run leaves every version applied, and a run in which nothing fails and the gate is satisfied is error-free |
| `Migrate.Database.UpAutomatic` | backend/internal/migrate/migrate.go:31-33 | never applies 39 or 40; without errors it applies exactly the others whose prerequisites were in, and another run changes nothing |
| `Migrate.Database.UpCleaningCalendar` | backend/internal/migrate/migrate.go:37-46 | applies at most 40; when nothing fails it succeeds exactly if 39 is applied |
| `Migrate.Database.UpStartup` | backend/internal/migrate/migrate.go:51-62 | without errors the whole schema is applied exactly when the version table was missing or 39 and 40 were applied |
| `Migrate.InterruptedStart` | backend/internal/migrate/migrate.go:51-62 | a first start that stops at its first migration is never completed by any number of later ones |
| `Migrate.Database.Live` | backend/internal/migrate/migrate.go:25-150 | over every sequence of the four commands, failing anywhere, each body is committed once, after its prerequisites, 40 only over cleaned-up books, and automatic runs never apply a manual one |
| `Retention.DroppedStaysDropped` | backend/internal/backup/backup.go:96-126 | what an earlier prune would drop would not be kept later, whatever is added |
| `Retention.IncrementalEqualsBatch` | backend/internal/backup/backup.go:96-136 | pruning what an earlier prune, finished or stopped half way, left over keeps what one prune of everything would |
| `Retention.RunEqualsBatch` | backend/cmd/server/main.go:304-323 | a whole run of snapshots and prunes keeps exactly what one prune over the full history would |
| `Retention.FewRemain` | backend/internal/backup/backup.go:96-126 | with no future stamps at most `keepHourly + keepDaily + 1` snapshots are kept |
| `Retention.IndexIsRank` | backend/internal/backup/backup.go:100-111 | a position in the sorted list is the number of newer snapshots |
| `Retention.FirstIsDaily` | backend/internal/backup/backup.go:112-125 | the first snapshot of a day in the sorted list is the newest of that day |
| `Retention.SortNewestFirst` | backend/internal/backup/backup.go:96-97 | the same snapshots in strictly descending order |
| `Retention.HourlyBucket` | backend/internal/backup/backup.go:100-111 | the counting loop keeps exactly the newest `keepHourly` of the last 24 hours |
| `Retention.DailyBucket` | backend/internal/backup/backup.go:112-125 | the loop with its early end keeps exactly the newest of each day in the window |
| `Retention.Directory.RemoveOthers` | backend/internal/backup/backup.go:127-136 | only files that are not kept are removed; a failing removal stops it |
| `Retention.Directory.Prune` | backend/internal/backup/backup.go:68-137 | what is left lies between the kept set and everything, and is the kept set if no removal failed; names without a stamp are left alone |
| `Retention.Directory.Fire` | backend/cmd/server/main.go:309-319 | one snapshot and one prune leave what lies between the kept set and everything, and whatever is no snapshot |
| `Retention.Directory.Schedule` | backend/cmd/server/main.go:304-323 | the schedule, with snapshots that fail and removals refused at will, leaves what lies between one prune over every stamp ever written and all of them, and exactly the former when the last prune went through |
| `Decimal.PrintThenRead` | backend/internal/invoiceitems/items.go:37-62 | printing and parsing undo each other for every scaled value in 1..10^12 |
| `Decimal.PrintIsInjective` | backend/internal/invoiceitems/items.go:58-61 | two quantities print alike if and only if they are equal |
| `Decimal.QuantityIsSpelled` | backend/internal/invoiceitems/items.go:14-37 | a text is a quantity if and only if it is one to seven digits, or these, a point and one to six digits |
| `Decimal.SpelledIsRead` | backend/internal/invoiceitems/items.go:38-43 | it is worth its whole part and its fraction in millionths |
| `Decimal.PrintIsCanonical` | backend/internal/invoiceitems/items.go:56-59 | what is printed has no leading zero and no zero at the end of the fraction |
| `InvoiceItems.LineIsNearest` | backend/internal/invoiceitems/items.go:52-57 | a line is within half a cent of the exact product, ties going up, and the 64-bit guard never fires |
| `InvoiceItems.FaultlessExactly` | backend/internal/invoiceitems/items.go:30-49 | an item is faultless if and only if its description has 1 to 500 runes, its quantity is one in range and its price is in range |
| `InvoiceItems.FaultIsFirst` | backend/internal/invoiceitems/items.go:30-49 | the fault named is the first in the order of the checks |
| `InvoiceItems.AmountIsValue` | backend/internal/invoiceitems/items.go:34-43 | a quantity cell is worth what its digits spell, white space on either side aside |
| `InvoiceItems.CleanBills` | backend/internal/invoiceitems/items.go:56-62 | an accepted item keeps its price, its trimmed description and its quantity, and its line total is the product of the two within half a cent, ties up |
| `InvoiceItems.CleanedTotals` | backend/internal/invoiceitems/items.go:50-63 | the line totals of the accepted items sum to the total |
| `InvoiceItems.OrderDoesNotMatter` | backend/internal/invoiceitems/items.go:23-66 | acceptance and total are the same for every order of the items |
| `InvoiceItems.NormalizedIsStable` | backend/internal/invoiceitems/items.go:23-66 | normalizing its own output changes nothing and accepts the same |
| `InvoiceItems.LegacyIsNormal` | backend/internal/invoiceitems/items.go:67-73 | the line of an old invoice is accepted and mapped to itself exactly for totals in 0..10^12 |
| `InvoiceItems.Normalize` | backend/internal/invoiceitems/items.go:23-66 | accepts exactly the acceptable lists: price, order, trimmed description and quantity are kept, each line total is the exact product within half a cent, and the line totals sum to the total, bounded by 10^12; otherwise names the first faulty row and its fault |
| `ItemTable.NothingReachesBelow` | backend/internal/invoicepdf/items.go:10-18 | nothing drawn reaches below 262, so no cell triggers a page break of its own |
| `ItemTable.EveryBreakIsNeeded` | backend/internal/invoicepdf/items.go:54-96 | a page break stands only where the total, a whole row, or one more line of a row already begun did not fit |
| `ItemTable.CountIsReached` | backend/internal/invoicepdf/items.go:52-58 | a row is as long as its longest cell, and one line if no cell has any |
| `ItemTable.LinesAreSpaced` | backend/internal/invoicepdf/items.go:82-90 | the first line stands two units below the top of its slice, each other one five below the one before |
| `ItemTable.AllLinesHold` | backend/internal/invoicepdf/items.go:54-94 | the lines to draw are exactly the lines of every row |
| `ItemTable.FitIsExact` | backend/internal/invoicepdf/items.go:65-66 | the truncated quotient is the largest number of lines that fits |
| `ItemTable.Pdf.PageRoom` | backend/internal/invoicepdf/items.go:10-18 | a page break exactly when the height does not fit |
| `ItemTable.Pdf.SliceTexts` | backend/internal/invoicepdf/items.go:78-90 | a slice shows exactly its lines of every cell, each inside the slice |
| `ItemTable.Pdf.DrawRow` | backend/internal/invoicepdf/items.go:54-93 | the loop ends, draws the lines of one row in order, breaks the page only where the row or its next line does not fit, and leaves drawing under a header or a row |
| `ItemTable.Pdf.DrawItems` | backend/internal/invoicepdf/items.go:30-103 | for any rows and any start from 11: every line is drawn exactly once and in order; slices lie within 19..262; a page is broken only where what comes next does not fit, and a slice cut short only where one more line does not; each page break is followed by a header before any row; a row of at most 47 lines is never split; the total fits |
| `Wrap.LinesFit` | backend/internal/invoicepdf/invoicepdf.go:1009-1043 | for any width function every line fits the limit or is a single rune |
| `Wrap.WordsBreakOnlyByNeed` | backend/internal/invoicepdf/invoicepdf.go:1009-1043 | the lines hold the words in order, each unbroken unless it alone exceeds the limit |
| `Wrap.LinesBreakByNeed` | backend/internal/invoicepdf/invoicepdf.go:1009-1043 | a line ends only where the word that comes next does not fit behind it, or within a cut word where the next rune does not |
| `Wrap.FieldsAreSeparated` | backend/internal/invoicepdf/invoicepdf.go:1009 | the words are separated by white space, never by none, and nothing but white space is left out |
| `Wrap.ParagraphsRejoin` | backend/internal/invoicepdf/invoicepdf.go:1003 | a text is cut at its line feeds and nowhere else |
| `Wrap.LimitIsBounded` | backend/internal/invoicepdf/invoicepdf.go:987-994 | the limit is the width given, cut down for safety, never above the greater of 1 and that width and never below 1 |
| `Wrap.ChunksRebuild` | backend/internal/invoicepdf/invoicepdf.go:1028-1040 | the pieces of a cut word are not empty and join to the word |
| `Wrap.ParagraphIsKept` | backend/internal/invoicepdf/invoicepdf.go:1003-1043 | a paragraph gives at least one line, none broken early, and keeps its runes that are not white space, in order; exactly a blank one gives one empty line |
| `Wrap.LayoutIsKept` | backend/internal/invoicepdf/invoicepdf.go:1002-1046 | so does a whole text, with every line fitting |
| `Wrap.CutWord` | backend/internal/invoicepdf/invoicepdf.go:1028-1040 | the rune loop computes the greedy pieces |
| `Wrap.PlaceWords` | backend/internal/invoicepdf/invoicepdf.go:1009-1043 | the word loop computes the layout of a paragraph |
| `Wrap.WrapMeasuredSafe` | backend/internal/invoicepdf/invoicepdf.go:987-1050 | at least one line, every line fits or is a single rune, and the runes that are not white space come out in order, each once |
| `Wrap.WrapByBudget` | backend/internal/invoicepdf/invoicepdf.go:957-981 | each paragraph gives lines of exactly `max(n, 8)` runes but for the last, losing nothing but white space |
| `Nights.StayNightDatesInRange` | backend/internal/store/analytics.go:254-279 | both loops compute the nights of a stay in a range |
| `Nights.NightsSplit` | backend/internal/store/analytics.go:254-279 | a stay's nights of a range split at any day in it |
| `Nights.NightsAreItsOwn` | backend/internal/store/analytics.go:254-279 | the nights in a range are exactly those of the stay that lie in it |
| `Nights.NightsSoldInRange` | backend/internal/store/analytics.go:231-240 | the loop counts the sold nights, also for an empty range |
| `Nights.SoldIsAdditive` | backend/internal/store/analytics.go:231-240 | sold nights are additive over adjacent ranges |
| `Nights.CalendarNights` | backend/internal/store/analytics.go:288-294 | the loop counts the days of a range |
| `Nights.ClosedNightsInRange` | backend/internal/store/analytics.go:323-337 | the number of distinct days covered by a blocker flagged closed |
| `Nights.CoveredExactly` | backend/internal/store/analytics.go:323-337 | a day is covered exactly if it is a night of a blocker, of one flagged closed if only those count |
| `Nights.BookableNightsInRange` | backend/internal/store/analytics.go:312-318 | the number of days on which nothing is closed; flooring at zero changes nothing |
| `Nights.BookableIsAdditive` | backend/internal/store/analytics.go:312-337 | closed and bookable nights are additive over adjacent ranges, however blockers overlap |
| `NightTables.ListDOWOccupancy` | backend/internal/store/analytics.go:976-1016 | seven rows with the sold and free days of each weekday |
| `NightTables.CountOnIsCount` | backend/internal/store/analytics.go:1002-1009 | what is counted under a weekday are the nights that fall on it |
| `NightTables.FreeOnIsCount` | backend/internal/store/analytics.go:995-1001 | what is free under a weekday are the days of the range on it that no blocker covers |
| `NightTables.WeekdaysSumToSold` | backend/internal/store/analytics.go:1002-1009 | the weekdays' sold nights sum to the sold nights |
| `NightTables.WeekdaysSumToBookable` | backend/internal/store/analytics.go:985-1014 | the weekdays' availabilities sum to the bookable nights if and only if every blocked night is flagged closed |
| `NightTables.UnflaggedBlockerIsMissed` | backend/internal/store/analytics.go:985-994 | a blocker, of a kind the store never returns, for which they do not |
| `NightTables.ListMonthlyOccupancy` | backend/internal/store/analytics.go:790-806 | each month holds its own sold and bookable nights, and the months sum to the whole range |
| `NightTables.ExternalSaleRevenueCentsInRange` | backend/internal/store/analytics.go:343-363 | the loop adds up the prorated shares |
| `NightTables.QuoTruncates` | backend/internal/store/analytics.go:362 | a share is the fraction with its part of a cent dropped, towards zero |
| `NightTables.OnlySalesEarn` | backend/internal/store/analytics.go:349-351 | a stay that is no external sale earns nothing |
| `NightTables.ProrationLosesLittle` | backend/internal/store/analytics.go:343-363 | over any `k` adjacent ranges holding all its nights a sale never exceeds its amount and loses at most `k - 1` cents |
| `Midweek.OccupiedByDay` | backend/internal/store/analytics.go:1508-1513 | a day is occupied exactly when it is a night of some stay, and by the last one listed that has it |
| `Midweek.StretchIsUnique` | backend/internal/store/analytics.go:1526-1537 | a night lies in at most one short stretch |
| `Midweek.OrphanMeans` | backend/internal/store/analytics.go:1526-1537 | a stretch is one or two free days from Monday to Thursday right between two occupied ones |
| `Midweek.ScanMidweek` | backend/internal/store/analytics.go:1518-1562 | the nested loops end and list a day exactly once if it lies in one or two free midweek nights between occupied ones, and not otherwise; jumping past the end of a stretch leaves nothing out |
| `Midweek.ListOrphanMidweek` | backend/internal/store/analytics.go:1503-1563 | the same for a stay list, with the neighbours' ids and dates |
| `Midweek.NeighboursNeedNotBeWeekend` | backend/internal/store/analytics.go:1501-1540 | a free Tuesday between an occupied Monday and Wednesday is listed |
| `Adr.LeadRangesPartition` | backend/internal/store/analytics.go:1239-1252 | two leads share a bucket exactly when the same bounds hold for both |
| `Adr.LeadIsLabelled` | backend/internal/store/analytics.go:1239-1252 | every number of days gets the one label whose bounds it lies in |
| `Adr.BucketIsOwn` | backend/internal/store/analytics.go:1425-1455 | a stay counts under the month of its first night, or under the label of the days between its being known and its arrival |
| `Adr.ADRByDimension` | backend/internal/store/analytics.go:1410-1463 | every bucket holds exactly its stays' parts; nights agree in all groupings, gross is kept by month and lead, and by weekday loses at most nights - 1 cents per stay; an unknown grouping fails as soon as a stay has a night |
| `Adr.ConservesOneMore` | backend/internal/store/analytics.go:1419-1455 | one more stay keeps the totals conserved |
| `Adr.SpreadNights` | backend/internal/store/analytics.go:1434-1443 | the night loop adds one share per night under its weekday |
| `Evidence.LengthComesBack` | backend/internal/pms21cleanup/cleanup.go:1158-1161 | the eight bytes of a length give it back |
| `Evidence.StreamIsDecodable` | backend/internal/pms21cleanup/cleanup.go:1158-1161 | reading a length-prefixed stream gives back the values that were written |
| `Evidence.RenderIsInjective` | backend/internal/pms21cleanup/cleanup.go:1142-1151 | null, byte and other typed values never render alike |
| `Evidence.TableStreamIsInjective` | backend/internal/pms21cleanup/cleanup.go:1118-1156 | for fixed columns, equal streams mean equal tables, row by row and cell by cell |
| `Evidence.AggregateTable` | backend/internal/pms21cleanup/cleanup.go:1118-1156 | the loops digest exactly that stream |
| `Evidence.CriticalAggregates` | backend/internal/pms21cleanup/cleanup.go:1099-1116 | the digests of the readable tables and nothing else |
| `Evidence.AggregateCheck` | backend/internal/pms21cleanup/cleanup.go:1228-1241 | what the check passes and counts |
| `Evidence.PassMeansEqual` | backend/internal/pms21cleanup/cleanup.go:1228-1241 | with no empty digest the check passes if and only if the maps are equal |
| `Evidence.EmptyDigestPasses` | backend/internal/pms21cleanup/cleanup.go:1228-1241 | two different maps that would pass, with an empty digest that no hash returns |
| `Evidence.PassMeansUnchanged` | backend/internal/pms21cleanup/cleanup.go:1099-1241 | unless the hash collides, a passing check means every critical table is unchanged row by row |
| `Evidence.SequenceCheck` | backend/internal/pms21cleanup/cleanup.go:1243-1256 | passes exactly when every preserved sequence is, and counts the others |
| `Evidence.FileChecksumCheck` | backend/internal/pms21cleanup/cleanup.go:1258-1270 | passes exactly when the two lists are equal, in order |
| `Mojibake.EncodedIsDecoded` | backend/internal/api/booking_payout_display.go:36-47 | decoding gives back every encoded scalar value, as section 4 of RFC 3629 has it |
| `Mojibake.DecodedIsEncoded` | backend/internal/api/booking_payout_display.go:48-50 | only the one encoding of a scalar value is accepted |
| `Mojibake.RunesOfEncoded` | backend/internal/api/booking_payout_display.go:36-37 | ranging over written text yields the code points that were written |
| `Mojibake.ByteComesBack` | backend/internal/api/booking_payout_display.go:16-47 | every byte comes back from the code point windows-1252 gives it |
| `Mojibake.ReverseIsInjective` | backend/internal/api/booking_payout_display.go:16-21 | no two entries of the reverse table share a byte, and each inverts windows-1252 |
| `Mojibake.RepairUndoesDamage` | backend/internal/api/booking_payout_display.go:28-56 | the repair undoes the damage to valid UTF-8 if and only if a byte C2 to C5 occurs in it or it is all ASCII |
| `Mojibake.RepairIsExact` | backend/internal/api/booking_payout_display.go:28-56 | a text with one of the four letters becomes the bytes its letters stand for if each stands for one and they are valid; any other text is kept |
| `Mojibake.PlainTextIsKept` | backend/internal/api/booking_payout_display.go:32-34 | text without one of the four letters is unchanged |
| `Mojibake.RepairKeepsValidity` | backend/internal/api/booking_payout_display.go:48-56 | valid text stays valid |
| `Mojibake.FixCSVMojibake` | backend/internal/api/booking_payout_display.go:28-56 | the loop with its early returns computes the repair |

## Left out

- `CalendarService.Service.ReconcilePropertyDateRange`: leases, sync runs, event logs and the stored error texts are not modelled; the listing is taken as complete for the requested window.
- `CalendarConvergence.PassConverges`: promises nothing for a stay whose row the pass found begun, because the statement is false there; the exact condition is `DesiredSurvivesExactly`.
- `CalendarRuns.PassIsSafe`: promises nothing for a tangled start, because the statement is false there (`MovedEventIsTaken`, `MovedEventIsDeleted`); the exact conditions are `PassTakesExactly` and `PastLossExactly`.
- `CalendarRuns.RunIsSafe`: supposes untangled starts, because people may move events to any day in it; `CalendarPlaced.PlacedRunIsSafe` does not. What people do falls between passes, not between the listing and the writes of one.
- `CalendarCopy.CopyKeepsExactly`: the rows an installation had before the transition are taken to satisfy the invariant; that earlier versions of the program kept it is not shown.
- `NukiRuns.Service.ReconcilePendingNukiCreations`: the access-code projection, the PIN encryption, the index on pending stays and the limit of 25 rows are left out; any subset of the due rows is allowed.
- `NukiInterleaved.MoveKeeps`: the one-off recovery of an incident, which overwrites a credential's stay and state by hand, is not one of the writes; neither is `MarkNukiManagedDeleted`, which nothing calls.
- `NukiLog.ListSmartlockEvents`: ids and times arrive already extracted and trimmed; the parsing of a provider row is left out.
- `Cleanup.Runner.Run`: the order of properties and queued items is arbitrary, and the state rows are read as they are reached; attempt counts and error texts are left out.
- `Cleanup.Runner.Process`: "complete" is a statement about the calendar listed in that run, not about one configured later.
- `Migrate.Database.Walk`: the bodies of the migrations and the deferral of foreign keys are left out; a body is a step that commits with its row or not at all.
- `InvoiceItems.Normalize`: descriptions are sequences of code points, so invalid UTF-8 is left out.
- `ItemTable.Pdf.DrawItems`: coordinates are real numbers, so floating-point rounding, fonts and colours are left out; the cells arrive already wrapped.
- `Wrap.WrapMeasuredSafe`: the width is any function of the string, and floating-point rounding of the limit is left out.
- `NightTables.ListMonthlyOccupancy`: month lengths are given as the first days of consecutive months; revenue columns are left out.
- `Adr.ADRByDimension`: the gross of each stay is an input, and the final sorting of the rows is left out.
- `Evidence.RenderIsInjective`: a value that is neither null nor bytes is its type's name and its printed form, so equal printed forms of different values are not told apart.
- Request handlers, sessions, rate limits, configuration, logging and telemetry: single-branch plumbing.
- Statement import and merging, revenue recognition, block reconciliation, lead-time, length-of-stay, pace and weekly tables: they would only add easy members beside the ones above.
- Time zones with changing offsets, and the normalization of guest names.
- The title templates of cleaning events and the parsing of stored times of day: inputs of the model.
