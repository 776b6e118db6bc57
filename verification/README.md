# Portable Bridge: a Dafny model of the broker, its client and the executor's byte-level code

A broker (`cmd/pairing-broker`) queues commands for paired guests. A guest polls for a
command, acknowledges it, executes it and posts the result; an administrator approves,
rejects, revokes, enqueues and reads results. Every handler changes the sessions under one
mutex and then tries to publish a snapshot of them; some roll back when publishing fails and
some do not. After a crash the broker rebuilds itself from the last published snapshot.

## How it is modelled

- `Records.dfy`, `Sessions.dfy`: the records, what each handler decides about one session,
  and the invariant of a session. A decision carries two outcomes, one for a published and
  one for a failed save.
- `Machine.dfy`: the broker as a state machine. A step is one critical section of a handler,
  a tick of the janitor, or a crash and a restart. Saving may fail at every step that saves.
  `session` and the body of a guest handler are separate steps, and so are the two critical
  sections of `enqueue`, so a revocation, a sweep or another request may come between them; an
  object that left the map is still reachable by whoever holds a reference. A crash just before
  publication is a crash before the step; a crash just after it is the published step followed
  by the crash, its answer then being counted although the client may not have received it.
- `Guarantees.dfy`, `Leases.dfy`, `QueueOrder.dfy`, `Accounts.dfy`, `Provenance.dfy`,
  `BrokerTheorems.dfy`: what every step keeps and what therefore holds in every run.
- `Answers.dfy`: when each handler answers with success, and whom a token lets in, said of a
  session's fields and the log without the functions that decide it.
- `Losses.dfy`, `LossExamples.dfy`: the steps that lose a result, and runs that end in each.
- `BrokerObjects.dfy`: the same broker as objects, updated in place the way the handlers do it,
  with their rollbacks and loops over maps in an arbitrary order. The contract of each method
  says which step of the machine it takes.
- `BrokerRuns.dfy`: those objects serving any list of requests, crashes included: the steps they
  take are a run of the machine, so what holds of every run holds of the objects.
- `Recovery.dfy`: what `recoverState` makes of any loaded snapshot.
- `ClientLoop.dfy`: the loop of `cmd/bridge-client`, and the two parties together.
- `PairLimiter.dfy`, `PairRuns.dfy`: the replay cache and the sliding window, with the window's
  slice filtered inside its own backing array, and runs with restarts.
- `Pairing.dfy`: the checks on a pairing request and its signed form.
- `Transfer.dfy`, `JobOutput.dfy`, `OutputText.dfy`, `Utf8.dfy`, `Utf16.dfy`, `ResultView.dfy`,
  `GuestText.dfy`: chunked transfer, captured job output, text clean-up (section 4 of RFC 3629),
  UTF-16 (sections 2.1 and 2.2 of RFC 2781) and the budget of the agent's view of results.

Hashes are constructors, hence injective, and session ids and tokens are drawn afresh. Clocks
are parameters; within one critical section the clock is read once.

## Where the code falls short of a plain reading

- Results can be lost: neither a session in memory nor the disk has them any more, and no read
  answered with success took them. That happens in five kinds of step and no others
  (`Losses.ResultLostIff`; `LossExamples` has a run for each):
  a post over the cap of 128, or to a session the janitor has dropped while the guest was at work,
  which is answered 200 if its save succeeds (`PostOverCapLoses`, `PostAfterSweepLoses`);
  any publication when only the disk has the result, as it does after a consuming read whose save
  failed, for instance a second consuming read, which answers 200 with nothing
  (`RepeatedReadLoses`; a restart brings the result back instead, `RestartBringsBack`);
  a consuming read whose save fails when only memory has it (`UnsavedReadLoses`);
  a sweep of the session that is saved, or when only memory has it (`SweepLosesSaved`,
  `SweepLosesUnsaved`); and a restart when the disk does not have it, or the session is dead by
  then (`RestartLosesUnsaved`, `LateRestartLoses`).
  When only memory has a result, the save failed when it was posted and nothing has been
  published since (`Losses.MemoryOnlyWasUnsaved`).
- The rate limiter keeps its two maps in memory only. The bound of ten requests a minute and the
  ten minutes between replays hold between restarts (`PairRuns.SlidingWindow`, `NoReplay`); the
  first request after a restart is accepted whatever it is (`FreshProcessAccepts`), so one request
  can be accepted twice at once (`RestartAllowsReplay`).
- The rate limiter reads its clock before it takes the mutex. Both bounds shrink by the largest
  step backwards the clock readings take in the order of the mutex, and that much is really lost
  (`PairRuns.SkewIsTight`, `ReplaySkewIsTight`).
- The signed form of a pairing request is one field a line. The checks keep newlines out of every
  field but the key and the nonce; the form can be read back exactly when those two have none
  either (`Pairing.ParseInvertsCanonical`), and a newline moved from the end of the key to the
  start of the nonce changes neither the form nor the decoded key (`NewlineIsAmbiguous`).
- Each slice of a job's output becomes text by itself. On builds other than those for Windows,
  well-formed output comes back as it was exactly when no slice has so many zero bytes that it
  reads as UTF-16 and no slice ends inside a character (`OutputText.OutputComesBack`, `ReaderGetsText`); `ZeroByteIsLost` is output cut
  between two characters that does not come back. UTF-16 output read in recognisable slices of
  whole words keeps its text exactly when no cut parts a surrogate pair (`OutputText.WideOutput`).
  A Windows build strips a byte order mark, has another test for UTF-16 and cleans CLIXML
  (internal/executor/output_windows.go:19-50), and none of this is claimed of it.
- `truncated` is also reported when the output fills the cap exactly (`JobOutput.TruncatedFlag`).

## Model

| member | source | states |
|---|---|---|
| BrokerTheorems.AtMostOnce | cmd/pairing-broker/main.go:578-697 | in any run, however saves fail and crashes fall, a command id of a session gets at most one 202, one 200 acknowledgement and one accepted result; a result is read and consumed at most once; a session is approved at most once and never after a rejection or revocation was answered |
| ClientLoop.NoDoubleExecution | cmd/bridge-client/main.go:206-228 | any number of clients against any run of the broker: no command id of a session is due for execution at two polls |
| ClientLoop.ExecutionsAreCleared | cmd/bridge-client/main.go:217-233 | every execution follows a successful acknowledgement of its own poll, which serves no other execution, and nothing is executed after `session.disconnect` |
| ClientLoop.Run | cmd/bridge-client/main.go:206-233 | of the polls the loop makes, it executes exactly those that brought a command whose acknowledgement was answered with success before the session lapsed, in order; it ends with an executed `session.disconnect`, with a lapsed or refused session, or where the observed calls end. Which calls are polls is said of the calls alone |
| ClientLoop.DueIsExact | cmd/bridge-client/main.go:206-233 | from any call on, what is due is the acknowledged and unlapsed polls among all polls from there, each once and in order |
| ClientLoop.PollsFollow | cmd/bridge-client/main.go:206-233 | the next poll is the next call after a failed or empty one, the next but one after a refused acknowledgement, and the one after the posted result after an execution, as long as the loop goes on |
| ClientLoop.Turn | cmd/bridge-client/main.go:207-232 | one turn executes the next command due, if any, leaves exactly the remaining ones due, and if it ends the loop does so by the last poll |
| ClientLoop.PollResilient | cmd/bridge-client/main.go:125-147 | polling goes on through every failure but 401, 403, 404 and 410, stops at the first success, and ends the session exactly at one of those or at expiry |
| Guarantees.RunKeepsInv | cmd/pairing-broker/main.go:69-812 | in every reachable state memory and disk are sound, the disk lags memory by progress only, token hashes belong to their sessions, everything answered with success holds in memory and on disk, and no answer contradicts an earlier one |
| Guarantees.StepKeepsInv | cmd/pairing-broker/main.go:69-812 | every step keeps that invariant, whatever state satisfying it the step starts from |
| BrokerTheorems.CrashLosesNothingAnswered | cmd/pairing-broker/state.go:43-132 | after a crash at any point, every effect answered with success still holds in its session, and an approved unexpired session returns with the same token hash, expiry and commands, none of them further than before and all waiting ones queued |
| BrokerTheorems.ResumesAfterRepair | cmd/pairing-broker/state.go:57-76 | repairing a snapshot that lags memory gives back memory's grant and commands, none further than memory had them |
| BrokerTheorems.ActiveSessionKept | cmd/pairing-broker/main.go:779-793 | an approved session stays in the map, on disk and approved through every step before its expiry but a revocation of it |
| BrokerTheorems.RestartKeepsApproval | cmd/pairing-broker/state.go:49-54 | a restart before expiry keeps an approved session with its expiry |
| BrokerTheorems.QueueAgrees | cmd/pairing-broker/main.go:584-614 | in every reachable state the queue has no duplicates and lists only queued commands, all of them while the session is approved; a pending session has no commands, queue or results |
| Sessions.PollNeverSkips | cmd/pairing-broker/main.go:594-614 | in a sound session the skip branch of `poll` is never taken, and in an approved one a pass hands out a command exactly when one is queued or on a lease that has run out |
| Leases.AckedWithinLease | cmd/pairing-broker/main.go:644-661 | in any run, an acknowledgement answered 200 is of a command a poll took off the queue, and comes before the end of the lease the latest such poll gave |
| Leases.AckedInTime | cmd/pairing-broker/main.go:644-661 | the converse, in any run: a command taken by a poll, not acknowledged since, is acknowledged with 200 and runs if the acknowledgement comes within ten seconds, by a clock that did not go back, is saved, and no restart came between |
| Leases.PollLeases | cmd/pairing-broker/main.go:602-612 | a poll that commits takes exactly one command off the queue and leases it for ten seconds, saved or not; it answers 200 with the command exactly when its save succeeds |
| Leases.TakesAreApart | cmd/pairing-broker/main.go:587-604 | in any run, two takes of one command with a clock that does not go back are more than ten seconds apart, unless the broker was restarted between them |
| Leases.RunKeepsLeases | cmd/pairing-broker/main.go:587-604 | every lease in memory is the one given by the latest poll that took the command off the queue |
| QueueOrder.RunKeepsLanes | cmd/pairing-broker/main.go:332-336 | from its 202 until a poll takes it, a command of an approved session is queued, in memory and on disk, behind nothing but control commands admitted after it and, if it is a regular command, what was queued when it was admitted |
| QueueOrder.PollServesInOrder | cmd/pairing-broker/main.go:587-612 | while such a command waits, control or regular, the next poll hands out that command or one of those |
| QueueOrder.StepKeepsLanes | cmd/pairing-broker/state.go:60-76 | every step keeps that precedence in both lanes, restarts and expiring leases included |
| QueueOrder.EnqueueLane | cmd/pairing-broker/main.go:330-340 | an admission puts at most its own command, and only a control command, in front of anything waiting, its own command behind nothing new, and a failed one changes nothing |
| QueueOrder.PollLane | cmd/pairing-broker/main.go:587-596 | a poll takes one command off the front; requeued leases stand behind everything that waited |
| Sessions.AdmissionFillsLane | cmd/pairing-broker/main.go:317-336 | an admission adds its command to its own lane and nothing to the other; at most 16 regular or 4 control commands then wait in that lane |
| BrokerTheorems.RetryIsIdempotent | cmd/pairing-broker/main.go:305-316 | repeating an admitted command in an approved session answers 200 if name and parameters agree and 409 if not, and changes nothing |
| BrokerTheorems.GrantIsBounded | cmd/pairing-broker/main.go:213-248 | an approval expires exactly the chosen minutes after it was given, at most 60 and at most the requested time rounded up, and that never changes; every command but the broker's first has a name the session requested, although the check and the insertion are separate steps |
| Answers.ApprovesAsAsked | cmd/pairing-broker/main.go:213-249 | in any run, an approval whose save succeeds, of a pending session and for a number of minutes it may be given, makes it expire exactly that long after, with that token and the first command queued, in memory and on disk; any other changes neither and logs nothing |
| Answers.LogsExactly | cmd/pairing-broker/main.go:213-697 | in any run and for every step, a success is logged if and only if the session's fields meet the handler's condition and the save succeeds, and it is the report that follows from those fields: an admission needs an approved session, a new id and fewer than 16 or 4 waiting in its lane; an acknowledgement a running lease; a result a running command of its name, a requested capability and at most 2 MiB |
| Answers.OpensOnly | cmd/pairing-broker/main.go:556-577 | in any run, a token lets in only if it was drawn for a session that was approved, is within the minutes it was approved for, was not rejected or revoked by an answered request, and it is the token last shown, if one was |
| Answers.OpensExactly | cmd/pairing-broker/main.go:566-577 | of a session in the map whose token was shown, that token lets in until the end of its minutes, unless it is revoked, and no other token does |
| Answers.RefsWereOpened | cmd/pairing-broker/main.go:556-584 | in any run, the body of a guest handler runs only on a session that was opened with a token earlier in the same process |
| Answers.ShowsExactly | cmd/pairing-broker/main.go:145-177 | in any run, a status request with the pairing token of an approved session is shown the token memory has or, while the session lasts and if the save succeeds, the new one, and nothing otherwise |
| BrokerTheorems.AcceptedResultIsKept | cmd/pairing-broker/main.go:677-696 | a result answered 200 is the only one under its id from then on, in memory, on disk, after a crash and in any consuming read; a stored one is there until a consuming read empties the results |
| Provenance.ExecutedWasAdmitted | cmd/bridge-client/main.go:206-228 | whatever any client executes, its session was approved and the command was admitted with that name and those parameters, or is the broker's own first one |
| Provenance.RunKeepsBacked | cmd/pairing-broker/main.go:213-345 | in every reachable state, in memory and on disk, every command but the first has a 202 with its own fingerprint, and a session that has commands or is approved has a 200 approval with its expiry |
| BrokerTheorems.SessionIsUnique | cmd/pairing-broker/main.go:566-577 | at most one session answers to a token, so the order of the search does not matter |
| BrokerTheorems.HandedTokenWorks | cmd/pairing-broker/main.go:145-177 | the token the latest status answer gave authenticates until expiry or revocation, before a crash and after it, whatever replacements failed to be saved |
| BrokerTheorems.NoClearTokenOnDisk | cmd/pairing-broker/state.go:84-93 | no published snapshot holds a clear token |
| BrokerTheorems.ResultsAgree | cmd/pairing-broker/main.go:677-687 | results held have distinct ids, number at most 128, and each belongs to a completed command of its name |
| Accounts.ResultAccount | cmd/pairing-broker/main.go:546-554 | results held, consumed and dropped over the cap never exceed the completed commands, and equal them in a run without failed saves |
| Losses.ResultLostIff | cmd/pairing-broker/main.go:546-693 | a result that memory or the disk had, or that the step posts, is in neither after the step and not consumed, if and only if the step is a post over the cap or to a dropped session, a publication when only the disk has it, a failed consuming read when only memory has it, a sweep of its session that is saved or when only memory has it, or a restart when the disk does not have it or its session is dead |
| Losses.MemoryOnlyWasUnsaved | cmd/pairing-broker/main.go:684-693 | in every run, a result in memory and not on disk was posted in a step whose save failed, and from that step on nothing was published and no process started |
| LossExamples.PostOverCapLoses | cmd/pairing-broker/main.go:684-696 | a run ends in the 129th result answered 200, and one in it answered 500; either way it is dropped |
| LossExamples.PostAfterSweepLoses | cmd/pairing-broker/main.go:673-696 | a run ends in a result posted through a reference to a session the janitor has dropped, answered 200 or 500, and gone either way |
| LossExamples.RepeatedReadLoses | cmd/pairing-broker/main.go:546-554 | a run ends in a consuming read answered 500, then one answered 200 with nothing, which publishes the loss |
| LossExamples.RestartBringsBack | cmd/pairing-broker/state.go:43-76 | after that first read a restart has the result in memory again |
| LossExamples.UnsavedReadLoses | cmd/pairing-broker/main.go:547-552 | a run ends in a failed consuming read of a result whose posting was not saved |
| LossExamples.SweepLosesSaved | cmd/pairing-broker/main.go:777-793 | a run ends in the saved sweep of a session whose result nobody has read |
| LossExamples.SweepLosesUnsaved | cmd/pairing-broker/main.go:777-793 | so does one in a sweep whose save fails, the result being in memory only |
| LossExamples.RestartLosesUnsaved | cmd/pairing-broker/main.go:684-692 | a run ends in a result answered 500 but shown by a plain read, which a crash then takes |
| LossExamples.LateRestartLoses | cmd/pairing-broker/state.go:49-54 | a run ends in a restart after the session has expired, its saved result unread |
| Accounts.RunKeepsBalance | cmd/pairing-broker/main.go:684-693 | as long as no save has failed the disk equals memory less clear tokens, and every completed command whose result is gone was consumed or dropped |
| Sessions.HonoursEvolves | cmd/pairing-broker/main.go:213-266 | what was answered with success stays true while a session evolves |
| Sessions.HonouredExcludesRepeat | cmd/pairing-broker/main.go:305-316 | a session that honours an answer does not allow one that contradicts or repeats it |
| Sessions.ApproveProper | cmd/pairing-broker/main.go:213-249 | an approval keeps the session sound, reports only what it made true, and undoes itself if the save fails |
| Sessions.EnqueueProper | cmd/pairing-broker/main.go:298-345 | an admission keeps queue and commands in agreement, and undoes itself if the save fails |
| Sessions.PollPassProper | cmd/pairing-broker/main.go:585-610 | a pass of `poll` keeps the session sound and the disk behind it even if the save fails |
| Sessions.AckProper | cmd/pairing-broker/main.go:644-658 | an acknowledgement keeps the session sound and the disk behind it even if the save fails |
| Sessions.PostResultProper | cmd/pairing-broker/main.go:677-693 | a posted result keeps results distinct and matched to completed commands, saved or not |
| Sessions.ReadResultsProper | cmd/pairing-broker/main.go:546-554 | a consuming read reports exactly the ids it removed |
| Sessions.RevokeProper | cmd/pairing-broker/main.go:407-415 | both revocations keep the session sound and the disk behind it even if the save fails |
| Sessions.PairStatusProper | cmd/pairing-broker/main.go:154-173 | a replaced token keeps the session sound, and a failed replacement leaves the old hash |
| Recovery.RecoveryRepairs | cmd/pairing-broker/state.go:57-76 | whatever was loaded, the repaired session has no leases, a duplicate-free queue of exactly the queued commands that begins with the survivors of the old one, its running and completed commands untouched, and no clear token |
| Recovery.KeptInOrder | cmd/pairing-broker/state.go:60-66 | the survivors of the old queue stand in the order of their first mention |
| Recovery.KeptMembers | cmd/pairing-broker/state.go:60-66 | the survivors are exactly the listed commands that are queued, once each |
| Recovery.RecoveryIdempotent | cmd/pairing-broker/state.go:43-78 | a second recovery at the same time changes nothing, for every iteration order, and no dead session is left |
| Recovery.RepairKeeps | cmd/pairing-broker/state.go:57-76 | repairing a sound session keeps it sound, undoes nothing, and only appends to its queue |
| BrokerObjects.RecoverState | cmd/pairing-broker/state.go:43-78 | the loop deletes null items, items without commands and dead sessions, and repairs every other item in place |
| BrokerObjects.Entry.Repair | cmd/pairing-broker/state.go:57-76 | the updates in place give a repaired session |
| BrokerObjects.Entry.SurvivingQueue | cmd/pairing-broker/state.go:58-66 | the first loop computes the survivors and the set of them |
| BrokerObjects.Entry.ForgetLeases | cmd/pairing-broker/state.go:67-75 | the second loop turns leases back and appends each unlisted waiting command once, in any order |
| BrokerObjects.LoadState | cmd/pairing-broker/state.go:23-41 | loading makes new objects for the sessions of the file that are not dead, repaired |
| BrokerObjects.Broker.Open | cmd/pairing-broker/state.go:23-41 | a new process takes the crash-and-restart step |
| BrokerObjects.Broker.Save | cmd/pairing-broker/state.go:80-132 | the snapshot becomes the live entries less clear tokens, or stays as it was; the entries do not change |
| BrokerObjects.Broker.Finish | cmd/pairing-broker/main.go:651-658 | answering at once, or saving and answering 200, 202 or 500, is the machine's step; the handlers that roll back owe their entry the old value |
| BrokerObjects.Broker.PairRequest | cmd/pairing-broker/main.go:101-110 | pairing takes the machine's step; the map has the new pending entry if the save succeeds and is as it was otherwise |
| BrokerObjects.Broker.PairingStatus | cmd/pairing-broker/main.go:145-177 | `status` takes its step; it answers 404 exactly for an unknown session or another pairing token, 500 exactly if a token is to be replaced and cannot be saved, and else shows the replacement or the token memory held |
| BrokerObjects.Entry.Unshow | cmd/pairing-broker/main.go:167-172 | the rollback of a replaced token restores the entry |
| BrokerObjects.Broker.ApproveRequest | cmd/pairing-broker/main.go:213-249 | `approveRequest` takes its step, rollback included; 200 if and only if the save succeeds, the session was pending and 1 <= minutes <= 60, at most the requested time rounded up; then it expires exactly that many minutes later and has the drawn token |
| BrokerObjects.Entry.Grant | cmd/pairing-broker/main.go:217-235 | an approval in place is the decided one, is made exactly on those conditions, and touches one command only |
| BrokerObjects.Entry.Ungrant | cmd/pairing-broker/main.go:236-247 | the rollback, field by field, restores the entry exactly |
| BrokerObjects.Broker.RejectRequest | cmd/pairing-broker/main.go:251-266 | `rejectRequest` takes its step, rollback included; 200 if and only if the session was pending and the save succeeds |
| BrokerObjects.Broker.AuthoriseCommand | cmd/pairing-broker/main.go:286-297 | a command passes if and only if its name was requested, its id is not empty nor over 128 bytes, its parameters are within 32 KiB (2 MiB for a chunk) and its deadline within the hour; without one it gets 30 seconds; a pass records the capability check |
| BrokerObjects.Broker.EnqueueCommand | cmd/pairing-broker/main.go:298-352 | the second critical section of `enqueue` takes its step; 202 if and only if the save succeeds, the session is approved, the id is new and its lane has room; it reports `queued` with a 202 and the existing command's status with a 200 |
| BrokerObjects.Entry.Admit | cmd/pairing-broker/main.go:300-337 | an admission in place is the decided one; control commands go to the front |
| BrokerObjects.Entry.Withdraw | cmd/pairing-broker/main.go:338-340 | the rollback of an admission restores commands and queue exactly |
| BrokerObjects.Entry.QueueDepths | cmd/pairing-broker/main.go:359-372 | the loop counts the listed queued commands of each lane |
| BrokerObjects.Broker.RevokeByAdmin | cmd/pairing-broker/main.go:400-418 | the administrator's revocation takes its step; whether or not it is saved, memory has the session revoked, without hash and queue |
| BrokerObjects.Broker.RevokeByGuest | cmd/pairing-broker/main.go:759-770 | the guest's revocation takes its step on a possibly stale reference |
| BrokerObjects.Broker.TakeResults | cmd/pairing-broker/main.go:539-554 | a read returns the results as they were, and a consuming one leaves none, saved or not |
| BrokerObjects.Broker.FindSession | cmd/pairing-broker/main.go:566-577 | it gives a reference to an approved session with that token's hash whose expiry is after now, if and only if there is one in the map |
| BrokerObjects.Broker.PollOnce | cmd/pairing-broker/main.go:585-618 | a pass of `poll` takes its step on a possibly stale reference and returns the command it leased; 204 if and only if nothing was queued and no lease had run out |
| BrokerObjects.Entry.ExpireCommands | cmd/pairing-broker/main.go:587-593 | the loop requeues each expired lease once, in any order, behind the queue |
| BrokerObjects.Broker.AckCommand | cmd/pairing-broker/main.go:644-661 | `ack` takes its step on a possibly stale reference; 200 if and only if the save succeeds and the command was on a lease that ends no earlier than now, and then it is running |
| BrokerObjects.Broker.PostCommandResult | cmd/pairing-broker/main.go:673-696 | `result` takes its step on a possibly stale reference; 200 if and only if the save succeeds, the command of that name runs, the name was requested and the output is within 2 MiB; the result is kept unless 128 are |
| BrokerObjects.Broker.DropDead | cmd/pairing-broker/main.go:779-786 | the janitor's loop removes exactly the entries over ten minutes old that are pending, rejected, revoked or expired, and says whether there were any |
| BrokerObjects.Broker.SweepSessions | cmd/pairing-broker/main.go:777-793 | a tick of the janitor takes its step, removes exactly those entries, and saves only if something went |
| BrokerRuns.ServeAll | cmd/pairing-broker/main.go:69-812 | serving any list of requests, ticks and crashes from an empty first process on, with ids and tokens drawn afresh, is a run of the machine that takes for each request the step it asks for and no other; a body runs on a session a search found for its token and `enqueue` on a command that passed its checks, in the same process; the objects left are those of the run's last state, which satisfies the invariant |
| BrokerRuns.Service.Serve | cmd/pairing-broker/main.go:69-812 | one request extends the run by its step, or by none if no session answers to the token, a check refuses the command, or there is no such reference or check; nothing but what it asked for is then under way |
| BrokerRuns.Service.ServeCrash | cmd/pairing-broker/main.go:809-816 | what a new process needs of the file is what every run keeps; the restart is a step of the run and ends every reference |
| PairLimiter.Limiter.AllowPair | cmd/pairing-broker/main.go:114-144 | the imperative limiter, its window filtered inside the slice it reads, decides and changes as the functional one |
| PairLimiter.Limiter.Slide | cmd/pairing-broker/main.go:131-136 | filtering into the first elements of the array being read gives the recent times in order |
| PairRuns.SlidingWindow | cmd/pairing-broker/main.go:131-143 | over any run, at most ten requests of a host are accepted within any interval shorter than a minute less the clock skew, with no restart between them |
| PairRuns.FreshProcessAccepts | cmd/pairing-broker/main.go:816 | after a restart the first request is accepted, whatever was served before |
| PairRuns.RestartAllowsReplay | cmd/pairing-broker/main.go:816 | one request is accepted twice at the same instant with a restart between |
| PairRuns.NoReplay | cmd/pairing-broker/main.go:123-130 | over any run, two acceptances of one key with no restart between them are more than ten minutes, less the skew, apart |
| PairRuns.RefusedForCauseAt | cmd/pairing-broker/main.go:119-143 | the converse of both bounds, over any run: a request is refused only if, since the last restart, its key was accepted in the ten minutes before or ten requests of its host in the minute before |
| PairRuns.SkewIsTight | cmd/pairing-broker/main.go:119-122 | for every skew up to a minute, a run of one process with twelve accepted requests, eleven of them spanning exactly a minute less the skew |
| PairRuns.ReplaySkewIsTight | cmd/pairing-broker/main.go:119-130 | for every skew, a run of one process that accepts a key twice one nanosecond more than ten minutes less the skew apart |
| PairLimiter.HeldRecords | cmd/pairing-broker/main.go:131-142 | the times kept for a host are those of the accepted requests still in its window |
| Pairing.CheckCapabilities | cmd/pairing-broker/main.go:698-713 | accepts exactly lists of 1 to 32 distinct allowed names |
| Pairing.CheckLabel | cmd/pairing-broker/main.go:730-745 | accepts exactly the non-empty labels of at most the given number of runes, none a control character or U+FFFD after repair |
| GuestText.LabelExactly | cmd/pairing-broker/main.go:730-745 | the labels accepted are exactly the well-formed ones of one rune to the limit, none of them a control character or U+FFFD |
| Pairing.CanonicalPairRequest | internal/protocol/protocol.go:38-45 | writes the nine fields in order and then the capabilities, each followed by a newline, numbers in decimal |
| Pairing.DigitsAreTheNumeral | internal/protocol/protocol.go:40 | a number is written as the one decimal numeral without a leading zero that means it |
| Pairing.ParseInvertsCanonical | internal/protocol/protocol.go:38-45 | a valid request can be read back from its signed form if and only if key and nonce have no newline |
| Pairing.CanonicalInjective | internal/protocol/protocol.go:38-45 | two such requests with one signed form are equal up to the signature |
| Pairing.NewlineIsAmbiguous | cmd/pairing-broker/main.go:715-728 | from any valid request with room, a newline after the key and one before the nonce give two different valid requests with one signed form, one signature and one key once decoded |
| Pairing.NewlineIsNotPrintable | cmd/pairing-broker/main.go:735-738 | a label with a newline anywhere, also amid ill-formed bytes, is refused |
| Transfer.Workspace.FilesWriteChunk | internal/executor/executor.go:899-970 | the chunk handler changes the files, and answers, as the function the run theorems are about; unless the sum of the bound check wraps, a chunk is stored if and only if it continues the part file within the limits and nothing fails, and the file published if and only if besides its digest is the announced one and the target is free |
| Transfer.Workspace.FilesWrite | internal/executor/executor.go:836-862 | a file is written whole if and only if it is within 10 MiB, the target is free and the write succeeds, and else nothing changes |
| Transfer.Workspace.Download | internal/executor/executor.go:864-897 | following `nextOffset` until `eof` ends and yields exactly the file |
| Transfer.PieceIsFull | internal/executor/executor.go:864-897 | a piece is the file from its offset on, as long as the limit or 1 MiB unless the file ends before; refused exactly for a bad offset or limit or a missing file |
| Transfer.PartsGrowByChunks | internal/executor/executor.go:910-943 | over any run, a part file is the concatenation of the chunks written since it was begun and never exceeds 10 MiB, although the sum in the bound check may wrap |
| Transfer.TargetsAreFinal | internal/executor/executor.go:944-968 | over any run, a target never changes once it exists, and appears only with the content whose digest a final chunk announced or as a file written whole |
| Transfer.UploadRoundTrip | internal/executor/executor.go:899-970 | uploading any content in any chunks of at most 1 MiB makes the target hold it and leaves every other file but the part file alone |
| JobOutput.Capped.Write | internal/executor/executor.go:131-144 | reports full consumption and keeps the first 1 MiB of all that was written |
| JobOutput.ShellStatus | internal/executor/executor.go:447-472 | answers for known jobs with the captured bytes from the offset on, their text and the next offset |
| JobOutput.SlicesJoin | internal/executor/executor.go:460-471 | however writes and questions interleave, the slices join to the captured bytes between the first and the last offset |
| JobOutput.ReaderGetsCaptured | internal/executor/executor.go:125-149 | a reader who asks once more after the end has the first 1 MiB, or all |
| OutputText.OutputComesBack | internal/executor/executor.go:471 | the texts of any number of slices of well-formed output join to that output if and only if no slice reads as UTF-16 and every slice is well-formed |
| OutputText.TextsAreTextOfWhole | internal/executor/executor.go:370-382 | when the whole does not read as UTF-16, that is when the texts of the slices are the text of the whole |
| OutputText.PlainOutput | internal/executor/executor.go:471 | without zero bytes, that is when no cut falls inside a rune |
| OutputText.WideOutput | internal/executor/executor.go:370-382 | UTF-16 output in recognisable slices of whole words: the whole is recognised, and its text is that of the slices if and only if no cut parts a surrogate pair |
| OutputText.ZeroByteIsLost | internal/executor/executor.go:471 | four bytes of well-formed output with one zero, cut between two runes, do not come back |
| OutputText.OddCutMayAgree | internal/executor/executor.go:370-382 | whole words are not needed: four zero bytes cut after the first read as two characters either way |
| OutputText.ReaderGetsText | internal/executor/executor.go:447-472 | over any run, a reader who follows `nextOffset` and asks once more after the end has well-formed output if and only if no slice read as UTF-16 and none ended inside a rune |
| JobOutput.TruncatedFlag | internal/executor/executor.go:257 | the count reaching the cap tells whether output was lost, unless the output fills the cap exactly |
| Utf8.SanitizeIsCleanAndIdempotent | cmd/pairing-broker/result_view.go:57-65 | for every byte string: well-formed, no control characters but LF, CR and TAB, idempotent, the identity on clean text |
| GuestText.SanitizedRunes | cmd/pairing-broker/result_view.go:57-65 | the runes of sanitised text are all runes of the repaired text but the controls other than LF, CR and TAB, in order |
| GuestText.RepairByRuns | cmd/pairing-broker/result_view.go:58 | repair keeps well-formed text in front, makes one U+FFFD of a longest run of ill-formed bytes, and goes on alike, which fixes it |
| GuestText.AgentSees | cmd/pairing-broker/result_view.go:27-55 | an agent sees of each result those runes from the first on, as many as fit both limits, all of them unless the view says it is truncated |
| GuestText.ColouredOutput | cmd/pairing-broker/result_view.go:59-64 | output with an escape character loses that character and nothing after it |
| Utf8.TruncateUTF8 | cmd/pairing-broker/result_view.go:67-83 | the loop cuts at the longest whole number of runes within the limit; the flag says whether the text was too long |
| Utf8.CutIsLongest | cmd/pairing-broker/result_view.go:74-82 | that cut is on a rune boundary, no later boundary fits, and it is the whole text exactly when the text fits |
| Utf8.TruncateSanitized | cmd/pairing-broker/result_view.go:57-83 | truncated sanitised text is clean, a prefix, the longest on a rune boundary, and whole exactly when it fits |
| Utf8.ToValidIsValid | cmd/pairing-broker/result_view.go:58 | repaired text is well-formed |
| ResultView.AgentResultEnvelope | cmd/pairing-broker/result_view.go:27-55 | every view shows the longest whole-rune prefix within its limit and the budget left; all views and the rest of the budget make 256 KiB; raw lengths add up |
| ResultView.ViewsFit | cmd/pairing-broker/result_view.go:30-37 | outputs shown and budget left always sum to the budget |
| ResultView.BudgetShrinks | cmd/pairing-broker/result_view.go:35-37 | the budget never grows and never goes negative |
| Utf16.EncodePowerShell | internal/executor/executor.go:501-509 | the loop lays the words out with their low byte first |
| Utf16.DecodeUTF16 | internal/executor/output_windows.go:64-74 | the loop reads the whole words in the given byte order and drops an odd last byte |
| Utf16.OddByteIsDropped | internal/executor/output_windows.go:64-74 | the words read, laid out again, are the bytes less an odd last one |
| Utf16.NormalizePortableOutput | internal/executor/executor.go:370-382 | decodes marked or zero-rich output as UTF-16 and repairs everything else |
| Utf16.ScalarsRoundTrip | internal/executor/output_windows.go:64-74 | every sequence of scalar values comes back in either byte order, surrogate pairs included |
| Utf16.StringRoundTrip | internal/executor/executor.go:501-509 | a string comes back, directly or behind a byte order mark, if and only if it is well-formed UTF-8 |
| Utf16.AsciiRoundTrip | internal/executor/executor.go:370-382 | ASCII text comes back even without the mark |
| Utf16.PortableIsValid | internal/executor/executor.go:370-382 | whatever a command wrote, the reported text is well-formed |
| Utf16.TextOfRunes | internal/executor/executor.go:502 | turning a string into runes and back makes each ill-formed byte three bytes and changes nothing in well-formed text |
| Utf16.WordsOfDecoded | internal/executor/output_windows.go:73 | decoding words loses nothing if and only if every surrogate is paired |
| Utf16.RuneRoundTrip | internal/executor/output_windows.go:73 | encoding a scalar value gives one well-formed sequence that decodes to it |

## Left out

- HTTP routing, headers, JSON, audit log, the administrator's read-only listings, and the sleeping of a long poll: plumbing. A poll is modelled pass by pass; 204 stands for every end without a command.
- The checks of `pair` before its critical section are in `Pairing` and `PairLimiter`; checking the signature, splitting host from port, and drawing ids are library code.
- Two requests differing only in insignificant JSON white space have one fingerprint in the code; `params` is the compacted text here.
- BrokerObjects.Entry.Admit: a command's state is a value in its session's map, not an object of its own. No handler keeps a reference to one past its critical section.
- BrokerObjects.RecoverState: a null command state inside a non-null `Commands` map, on which the original stops with a runtime error, is not modelled.
- JobOutput.ShellStatus: does not model the running flag, the exit code and the times of the answer, which are copied from the operating system's report on the process.
- BrokerObjects.Broker.Open: requires that each key of the state file is its item's request id. Every file a broker leaves has that, so `BrokerRuns.Service.ServeCrash` does not require it; the code does not check it, and a file edited otherwise is not modelled here (`LoadState` and `RecoverState` do not require it). The save after loading is taken to succeed; if it fails the process does not start, and the state is that of the crash.
- Losses.ResultLostIff: a consuming read counts as having taken its results although the client may not have received the answer.
- OutputText.OutputComesBack: holds of builds other than those for Windows (internal/executor/output_windows.go:19-50 is not modelled).
- OutputText.WideOutput: for slices that are not recognised, or not of whole words, says nothing; `OddCutMayAgree` shows that neither is necessary.
- Guarantees.RunKeepsInv: references and capability checks may be used any number of times, which only adds runs.
- A cap on the queue as an invariant: the code enforces it at admission only, and expired leases return above it.
- That nothing is handed out after a revocation: it does not hold, since a poll authenticated before it may still be under way.
- QueueOrder.RunKeepsLanes: ends at the first lease, because the code returns an expired lease to the tail.
- Transfer.PartsGrowByChunks: writes are all or nothing and nobody else changes the files; resolved paths are given.
- Transfer.TargetsAreFinal: says nothing of targets that end in the part suffix, which a chunk for another target may overwrite.
- ClientLoop.Run: backoff times, and the interrupt that revokes and exits, are not modelled.
- Pairing.CanonicalPairRequest: capability names outside the allowed list are cut to their low bytes.
- Code pages, CLIXML cleaning, `cleanPowerShellCLIXML` and the 60 percent test of the Windows build; base64; directory listing; process control; the other programs of the repository.
