# QBSheet: a Dafny model of its protocol, ledger, recovery and parser code

QBSheet is a browser scoresheet for quizbowl rooms. A room pairs with tournament control over QBTCP, polls for
its assignment, starts a game against a server session, scores it in one browser tab and delivers the result.
This project models the parts of it in which several things can happen at once or in any order, or in which
something must not be lost, and proves what they keep over every run, every history or every input.

`dafny verify dfyconfig.toml` checks everything.

## How the model is laid out

| file | what it models |
|---|---|
| `Text.dfy` | JavaScript strings as UTF-16 code units, decimal printing, trimming |
| `ProcedureKey.dfy` | the JSON key an emergency approval is filed under |
| `ControlServer.dfy` | the QBTCP server used by the end-to-end tests, as a class proved against a step function |
| `Assignments.dfy` | how a server's answer becomes an assignment, on both surfaces |
| `StartProtocol.dfy` | rooms, server and application together, cut at every `await` |
| `StartSafety.dfy` | the inductive invariant of that system |
| `StartTheorems.dfy` | what follows over every run |
| `StartOutcomes.dfy` | the connection stored, the screens shown, and what each answer does to a poll or a start |
| `ResultLedger.dfy` | the delivery ledger of a finished result |
| `CapabilityStore.dfy` | the stored document of expiring delivery credentials |
| `RetryService.dfy` | the single-flight retry service over both, beside the scoring screen's own deliveries |
| `RetryBooks.dfy`, `RetryTheorems.dfy` | what its log says of the store in every run, and what follows |
| `RetryOutcomes.dfy` | when a capability is given up, when a result is sent again, and what each stage does |
| `Redaction.dfy` | the last sweep of `redact` and the credential test, as the regular expressions they are |
| `Timeline.dfy`, `ErrorLog.dfy` | the two bounded, compacting logs |
| `LeakScan.dfy`, `DiagnosticsExport.dfy` | the recursive leak scan, and that it never objects to the two logs |
| `Presets.dfy` | the bounded most-recent-first list of game setups |
| `QrScanner.dfy` | the camera's lifecycle |
| `RecoveryGames.dfy` | the merge of records, journals and other copies in Recovery Mode |
| `RestoreBackup.dfy` | restoring a backup into a free slot, in Recovery Mode and from the application |
| `Resume.dfy` | which unfinished game a device resumes, and on which screen it starts |
| `TabClaims.dfy` | one tab's claims on the games it opens |
| `PercentCoding.dfy`, `PairingParameters.dfy`, `PairingLaunch.dfy` | pairing links, from octets to intents |

Code that changes things in one call is a class or a method with loops, proved against a specification function.
Code that is spread over asynchronous continuations is a step function over a value: a step is what runs without
yielding, every wait is a point where any other step may come first, and what is proved holds for every sequence
of steps.

## What the proofs found

Where the code does not do what its documentation or its own comments say, the code is modelled as it is. A
lemma shows a run or an input on which it fails, and another says exactly when it does not.

- The read at kickoff ignores the assignment's state, so a game that control has just blocked starts anyway on
  the legacy surface (`StartTheorems.BlockedGameStarts`, `StartTheorems.KickoffHandsOverExactlyWhen`); over QBTCP
  whatever is handed over was assigned (`StartTheorems.KickoffWasAssigned` with `Assignments.GameImpliesAssigned`).
- The emergency override never makes a game startable over QBTCP: an assignment that offers one names no match
  (`Assignments.EmergencyNeverStartable`).
- Giving a mounted room another key while a start is under way leaves its start lock taken for good
  (`StartTheorems.RekeyLosesLock`): a start loses the lock exactly when the room was left, by its key changing or
  by its going away, between the press and the end (`StartTheorems.LockLostExactlyWhen`).
- The server fixture calls the first result of a second match a duplicate (`ControlServer.DuplicateIgnoresMatch`).
- Procedure versions that are missing, malformed, infinite or zero are all kept as zero, so an approval of one
  unreadable procedure covers every other that states none (`ProcedureKey.ApprovalCoversExactlyWhen`).
- Recording an outcome is a read and then a write. Where the scoring screen records a delivery of its own beside a
  retry, the later write can undo the receipt of the other (`RetryTheorems.UndoingRunUndoes`), exactly when that
  receipt was written after the later write's reading (`RetryBooks.UndoneExactlyWhen`, `RetryBooks.OnlySavesUndo`).
  Deliveries of the service alone never do (`RetryTheorems.ReceiptsStand`).
- An accepted result is sent again when its acceptance was not saved (its save threw or was refused, a step before
  it threw, or the second reading failed) and its capability is still held or was remembered again
  (`RetryTheorems.SendsAgainExactlyWhen`); otherwise nothing is sent after an acceptance
  (`RetryTheorems.NoRequestAfterAccepted`). Beside the scoring screen a request can follow an acceptance with
  nothing failing (`RetryTheorems.SendsBesideTheScreen`); it follows a saved receipt exactly when that was written
  after the retry's reading (`RetryBooks.SentAfterReceiptExactlyWhen`). In every run a retry sends its request exactly
  when the record could be retried where it was read and the capability is still held (`RetryBooks.PostsExactlyWhen`).
- The leak scan's exemption is by path text: besides the user agent it covers a top-level field spelled
  `browser.userAgent`, and no other place (`LeakScan.ExemptPlaces`, `LeakScan.SpelledPathEscapes`). A bundle is safe
  exactly when the report is empty and no such field holds a credential (`LeakScan.SafeExactlyWhen`).
- A connection state that never changed is written a second time once 240 other lines have pushed its line out
  (`Timeline.UnchangedCanBeWrittenTwice`, `Timeline.UnchangedIsDroppedExactlyWhen`).
- A scanner whose caller throws keeps the camera on and never scans again (`QrScanner.GoesOnExactlyWhen`).
- Where records share a game key, Recovery Mode shows their game's journal with the last of them and with no other
  (`RecoveryGames.JournalShownExactlyWhen`). A record whose id a later one has is not shown at all, and its game is
  missing unless the ids are distinct (`RecoveryGames.ShownIs`, `RecoveryGames.OneGamePerKey`).
- A failed database read is answered as an empty slot, so restoring a backup can overwrite a row, even one this
  build cannot read (`RestoreBackup.FailedReadOverwrites`): exactly when the first slot that is free or misread is an
  occupied one and the write takes (`RestoreBackup.RecoveryKeepsRowsExactlyWhen`). The application loses a row under
  the same condition (`RestoreBackup.AppKeepsRowsExactlyWhen`), and can then say that nothing was overwritten
  (`RestoreBackup.FailureLosesARow`).
- Two record ids can be sanitized to one game key (`RestoreBackup.KeysCollide`); restoring a backup of one game then
  replaces the journal of the other (`RestoreBackup.SharedKeyLosesTheJournal`, `RestoreBackup.SharedKeyOnADevice`,
  `RestoreBackup.RecoveryKeepsJournalsExactlyWhen`), and giving up clears it (`RestoreBackup.GivingUpClearsTheKey`,
  `RestoreBackup.AppKeepsJournalsExactlyWhen`).
  Ids of kept characters are safe (`RestoreBackup.PlainIdsKeepJournals`).
- Which game is resumed depends on the order of the list exactly when the connection names no unfinished record
  and two unfinished games have its session's key (`Resume.OrderMattersExactlyWhen`).
- Two openings of games that overlap can lose a lock, and the tab is then told that another tab is scoring its own
  game (`TabClaims.OverlapLosesALock`). A lock is lost sight of exactly when an opening comes through while the
  claim before it is still held (`TabClaims.LosesExactlyWhen`, `TabClaims.LocksKnownExactlyWhen`). While a game is
  being left, its scoresheet is still up without a claim (`TabClaims.LeavingIsUnclaimed`).
- Where the browser refuses to rewrite the address, a second taking hands the same pairing code over again
  (`PairingLaunch.TakenTwiceExactlyWhen`).

## Model

| member | source | states |
|---|---|---|
| `StartTheorems.HandOffMatchesSession` | src/app/ConnectedRoom.tsx:422-479 | in every interleaving, a game is handed over only with a session the server holds for exactly its match, read after that session was opened |
| `StartTheorems.HandOffsShareSessions` | e2e/support/tournamentControl.ts:404-413 | two hand-overs carry the same session exactly when they are for the same match |
| `StartTheorems.EmergencyNeedsApproval` | src/app/ConnectedRoom.tsx:395-400 | an emergency definition is handed over only after someone in that room approved an assignment with the same non-empty match, revisions and procedure version |
| `StartTheorems.AppliedPollsIncrease` | src/app/ConnectedRoom.tsx:323-374 | every applied poll belongs to the room key of that moment, and of two applied in a room the later one has the greater number |
| `StartTheorems.OnlyNewestPollApplies` | src/app/ConnectedRoom.tsx:331-357 | an answered poll takes effect exactly when it is the newest one issued and the room is still the one it was asked for, even when the key goes away and comes back |
| `StartTheorems.OneStartAtATime` | src/app/ConnectedRoom.tsx:424-439 | at most one start is in flight in a room, and the lock is held exactly then while the room is mounted under one key |
| `StartTheorems.OneHandOffPerStart` | src/app/ConnectedRoom.tsx:472-479 | a start hands a definition over at most once |
| `StartTheorems.LockLostExactlyWhen` | src/app/ConnectedRoom.tsx:424-493 | over any run from the press to the end of a start, the lock is lost in every continuation exactly when the room was left in between |
| `StartTheorems.RekeyLosesLock` | src/app/ConnectedRoom.tsx:278-283 | a key change under a start in flight leaves the lock taken when the start ends |
| `StartTheorems.LostLockStaysLost` | src/app/ConnectedRoom.tsx:424-435 | a lock not given back is never given back: that room instance starts nothing again, whatever happens |
| `StartTheorems.StaleNeverActs` | src/app/App.tsx:1071-1121 | a start whose generation or room key changed never hands over, writes a connection or mounts the scorer, in any continuation |
| `StartTheorems.LeavingEndsStarts` | src/app/ConnectedRoom.tsx:278-283 | leaving the room or changing its key makes every start pressed before it stale for good |
| `StartTheorems.MountFollowsWrite` | src/app/App.tsx:1107-1121 | the scorer mounts only after that start wrote a connection naming that record, its session and its room |
| `StartTheorems.KickoffWasAssigned` | src/app/ConnectedRoom.tsx:447-465 | with a server that offers a game or an emergency definition only when assigned, whatever is handed over was assigned when the kickoff read it |
| `StartTheorems.KickoffHandsOverExactlyWhen` | src/app/ConnectedRoom.tsx:449-479 | the kickoff read hands over exactly when the start is current, names the opened match and has a game; the state plays no part |
| `StartTheorems.BlockedGameStarts` | src/app/ConnectedRoom.tsx:455-479 | a run in which a game is handed over although the kickoff read it as blocked, as the legacy surface reports a matchup of a blocked room |
| `StartOutcomes.ConnectionIsNewestWritten` | src/app/App.tsx:1093-1109 | in every run the stored connection is the room, session and record of the newest write, and there is none before the first |
| `StartOutcomes.WriteIsForItsPress` | src/app/App.tsx:1071-1109 | over any run from a press to the write of its start, what is stored is the room shown at the press, the ensured record, and a session the server holds for the match shown then |
| `StartOutcomes.WriteStores` | src/app/App.tsx:1093-1109 | a write is made by the ensured record of one start, and stores that record with the session and the room of that start |
| `StartOutcomes.MountShows` | src/app/App.tsx:718-741 | a step that mounts the scorer leaves the scoresheet of that record on screen |
| `StartOutcomes.EnsuredDecides` | src/app/App.tsx:1085-1121 | a current start with a record writes its connection; if that held, a finished game goes to its completion screen and any other on to the claim |
| `StartOutcomes.ClaimDecides` | src/app/App.tsx:718-741 | a current start with the claim mounts the scorer, without it the notice that another tab has the game is shown, and one that is not current shows nothing |
| `StartOutcomes.OthersKeepTheScreen` | src/app/App.tsx:1071-1121 | nothing but navigation, an ensured record and an answered claim changes the screen |
| `StartOutcomes.ActsWhileCurrent` | src/app/ConnectedRoom.tsx:439 | a start hands over, writes and mounts only while the room key in force is its own and its visit goes on |
| `StartOutcomes.OpenIsAnswered` | src/app/ConnectedRoom.tsx:440-441 | the session is asked for with the token the start was pressed with; an honoured request gets a session held for the match of the start, any other is refused |
| `StartOutcomes.ReadIsAnswered` | src/app/ConnectedRoom.tsx:447-450 | the kickoff read is made with the same token, and gets what is served then |
| `StartOutcomes.OpenedGoesOn` | src/app/ConnectedRoom.tsx:441-449 | an opened start goes on to its kickoff read with that session exactly if it is still current, and ends otherwise |
| `StartOutcomes.KickoffShows` | src/app/ConnectedRoom.tsx:449-461 | the kickoff read of a current start is what the room then shows, an approved definition in the place of a missing game; one not current shows nothing |
| `StartOutcomes.KickoffDecides` | src/app/ConnectedRoom.tsx:455-482 | a current start hands over the game it read exactly if that is for its match, and waits for a record exactly when there is a store; in every other case it ends |
| `StartOutcomes.RefusedStartShows` | src/app/ConnectedRoom.tsx:293-321 | a refused start ends, a 401 showing a credential problem and a 403 a refusal, if it is still current |
| `StartOutcomes.ReturnedEnds` | src/app/ConnectedRoom.tsx:482-493 | a start that returned or threw ends, and no other one with it |
| `StartOutcomes.PollIssuedExactlyWhen` | src/app/ConnectedRoom.tsx:323-329 | asking for the assignment issues a poll, the newest, exactly in a mounted room not already waiting for one of the same key |
| `StartOutcomes.PollGetsTheAssignment` | src/app/ConnectedRoom.tsx:329-331 | a poll gets what is served, if its token is honoured, and a refusal otherwise |
| `StartOutcomes.AnswersStand` | src/app/ConnectedRoom.tsx:329-331 | a lost poll holds its failure, and no answer is ever replaced |
| `StartOutcomes.PollEnds` | src/app/ConnectedRoom.tsx:361-373 | an answered poll that is resumed is over, whatever came of it, and the room waits for it no longer |
| `StartOutcomes.AppliedPollShows` | src/app/ConnectedRoom.tsx:336-358 | a poll that applies shows the assignment it got, clears both connection problems, and drops an approval of anything else |
| `StartOutcomes.FailedPollShows` | src/app/ConnectedRoom.tsx:293-321 | a poll that failed changes the notices only: 401 is a credential problem, 403 a refusal of the room |
| `StartOutcomes.PressBeginsExactlyWhen` | src/app/ConnectedRoom.tsx:422-439 | a press begins a start exactly when an assigned game that names its match is shown, no start is under way and nothing is wrong |
| `StartOutcomes.ApprovalShows` | src/app/ConnectedRoom.tsx:395-400 | approving shows the emergency definition as the game and files the key of what was shown |
| `StartOutcomes.BarredUntilRead` | src/app/ConnectedRoom.tsx:331-339 | in every run, a room that was refused begins no start until an assignment has been read again |
| `StartSafety.NextKeeps` | src/app/ConnectedRoom.tsx:323-494 | one step of the whole system keeps the invariant behind the theorems |
| `StartSafety.RunKeeps` | src/app/ConnectedRoom.tsx:323-494 | so does every run |
| `ProcedureKey.ReadsQuoted` | src/app/ConnectedRoom.tsx:76-81 | quoting a string as JSON (section 7 of RFC 8259) and reading it back gives the string, whatever follows it |
| `ProcedureKey.KeyDecidesEvidence` | src/app/ConnectedRoom.tsx:64-82 | two assignments have the same key exactly when their evidence is the same up to how numbers print |
| `ProcedureKey.ApprovalIsExact` | src/app/ConnectedRoom.tsx:84-87 | an approval covers an assignment exactly when match, revisions and procedure version are equal, numbers being finite |
| `ProcedureKey.ApprovalCoversExactlyWhen` | src/qbj/QbtcpExtension.ts:150-167 | of two procedures that cannot be read, an approval of one covers the other exactly when both state one version or neither states a usable one |
| `Assignments.ReadingIsCoherent` | src/integrations/fruity/ProtocolAdapters.ts:581-736 | a game that names a match is that match's game, on both surfaces |
| `Assignments.GameImpliesAssigned` | src/integrations/fruity/ProtocolAdapters.ts:602-610 | QBTCP offers a game or an emergency definition only when assigned; a game of the legacy surface is assigned exactly when the room is not blocked |
| `Assignments.EmergencyNeverStartable` | src/integrations/fruity/ProtocolAdapters.ts:612-700 | an assignment that offers an emergency definition over QBTCP has no approval key and is not startable |
| `Assignments.ReadsExactlyWhen` | src/integrations/fruity/ProtocolAdapters.ts:581-736 | a read gives a game exactly when the assignment is looked at and is one, with its own match and revisions; when it fails, and when it offers an emergency definition, exactly |
| `Assignments.ReadsWithoutAGame` | src/integrations/fruity/ProtocolAdapters.ts:602-715 | a read without a game names no match, has the state control gave and its revisions, and states the version of a broken document |
| `Assignments.LegacyReadsExactly` | src/integrations/fruity/ProtocolAdapters.ts:1086-1135 | the legacy surface gives the package of the matchup under the id of the matchup, the state following the block |
| `ControlServer.TournamentControl.FindOpen` | e2e/support/tournamentControl.ts:404-408 | finds the open session of a match, or that there is none |
| `ControlServer.TournamentControl.OpenSessionRoute` | e2e/support/tournamentControl.ts:486-503 | opens a session or returns the open one, as the step function says |
| `ControlServer.TournamentControl.ReadRoutes` | e2e/support/tournamentControl.ts:451-485 | answers the two assignment reads without changing anything |
| `ControlServer.TournamentControl.WriteRoutes` | e2e/support/tournamentControl.ts:504-559 | the writer, progress and result routes, with the refusals in their order |
| `ControlServer.TournamentControl.Handle` | e2e/support/tournamentControl.ts:426-567 | every request changes the server and is answered as the step function says |
| `ControlServer.RunKeepsSessions` | e2e/support/tournamentControl.ts:404-413 | after any requests each session has one match and each match one session, and none is lost |
| `ControlServer.OpenedIsHeld` | e2e/support/tournamentControl.ts:486-502 | every session answered in a run is the one finally held for its match |
| `ControlServer.OneSessionPerMatch` | e2e/support/tournamentControl.ts:404-413 | two openings get the same session exactly when they ask for the same match |
| `ControlServer.LockHoldsWritesOff` | e2e/support/tournamentControl.ts:394-402 | while another device holds the lock no write lands and every honoured write is refused and counted |
| `ControlServer.NoLockNoRefusal` | e2e/support/tournamentControl.ts:394-402 | where the lock is never given away no write is refused for it |
| `ControlServer.ReceiptsNumberResults` | e2e/support/tournamentControl.ts:536-558 | receipts number the results from one without gaps and call all but the first duplicates |
| `ControlServer.ResultsAreAttempts` | e2e/support/tournamentControl.ts:543-551 | the results of a run are its attempts without those that ran into an injected failure, in order, and each failure asked for is injected at most once |
| `ControlServer.DuplicateIgnoresMatch` | e2e/support/tournamentControl.ts:550-557 | the first result for a second match is reported as a duplicate |
| `ControlServer.OnlyHonouredAct` | e2e/support/tournamentControl.ts:426-567 | whoever is not honoured is answered 401 and changes nothing, and nobody else is |
| `ControlServer.TokensFollow` | e2e/support/tournamentControl.ts:426-567 | each step keeps the tokens honoured from the pairing or opening that gave them until they are revoked |
| `ControlServer.ReadsTell` | e2e/support/tournamentControl.ts:451-485 | a read answers with what is served, or that nothing is |
| `ControlServer.ControlsDo` | e2e/support/tournamentControl.ts:672-691 | what each control of the fixture changes, and that no other request but a take-over changes the round served or the lock |
| `ControlServer.ProgressIsKept` | e2e/support/tournamentControl.ts:523-533 | over every run, the progress held is that of the writes answered as recorded, in order |
| `ResultLedger.LatestTimestamp` | src/app/ResultDelivery.ts:25-34 | the loop computes the latest readable timestamp |
| `ResultLedger.LatestIsLatest` | src/app/ResultDelivery.ts:25-34 | that is one of the values and no readable one is later |
| `ResultLedger.GameRecords.RecordFinalDelivery` | src/app/ResultDelivery.ts:52-133 | one delivery recorded: unknown, unfinished, ignored, refused and written records, the stored outcome being unsupported, accepted, pending or rejected as the delivery was |
| `ResultLedger.LedgerTellsHistory` | src/app/ResultDelivery.ts:62-125 | after any history of deliveries, clocks running backwards included, every ledger field is what the history says: the outcome that of the newest counting delivery, the time of acceptance the latest of those an acceptance was put down to; the frozen result is unchanged |
| `ResultLedger.MomentsAre` | src/app/ResultDelivery.ts:62-68 | those are the arrivals of acceptances and the attempts just before them |
| `ResultLedger.AcceptedAfterLastAttempt` | src/app/ResultDelivery.ts:62-68 | once accepted, the time of acceptance is never before that of the last attempt, even when the clock moves backwards |
| `ResultLedger.LedgerCarriesDetails` | src/app/ResultDelivery.ts:100-130 | every detail the ledger carries (match, fingerprint, review, warnings, failure) is the one the newest counting delivery to give one gave, an empty id being dropped by the next delivery without one |
| `ResultLedger.AcceptanceIsFinal` | src/app/ResultDelivery.ts:60-93 | acceptance is absorbing, its attempt number fixed, its time never earlier and its duplicate flag sticky |
| `ResultLedger.WhatWasStoredStands` | src/app/ResultDelivery.ts:62-99 | whatever was stored before, a delivery that is no acceptance leaves the acceptance on file and one that was no attempt the attempts; only empty times and counts that are none are dropped |
| `CapabilityStore.Store.ReadDocument` | src/app/ResultDeliveryCapability.ts:74-100 | reads the sound entries of a document, and discards a document it cannot use |
| `CapabilityStore.Store.RemoveExpired` | src/app/ResultDeliveryCapability.ts:211-216 | deletes exactly the expired entries |
| `CapabilityStore.Store.Has` | src/app/ResultDeliveryCapability.ts:134-138 | whether a capability is live, for any clock |
| `CapabilityStore.Store.Get` | src/app/ResultDeliveryCapability.ts:140-154 | the live capability, exactly when there is one; an expired one is removed |
| `CapabilityStore.Store.Remember` | src/app/ResultDeliveryCapability.ts:156-172 | a whole capability with readable times is live until exactly the end of the retention window, every other one as it was unless it had expired; or says it could not |
| `CapabilityStore.Store.Remove` | src/app/ResultDeliveryCapability.ts:174-187 | removes one entry, and the document with the last one |
| `CapabilityStore.Store.Prune` | src/app/ResultDeliveryCapability.ts:189-209 | keeps the unexpired entries asked to stay, and no empty document; a clock that cannot be read expires nothing |
| `CapabilityStore.WrittenReadsBack` | src/app/ResultDeliveryCapability.ts:102-115 | what is written reads back as itself |
| `CapabilityStore.PruneKeepsExactly` | src/app/ResultDeliveryCapability.ts:189-209 | after a prune, at any later clock, what is live is what was live and asked to stay |
| `CapabilityStore.NothingOutlivesRetention` | src/app/ResultDeliveryCapability.ts:156-216 | whatever was done, a held capability was remembered, expires within the retention window and survived every removal and prune since |
| `CapabilityStore.HeldExactlyWhen` | src/app/ResultDeliveryCapability.ts:134-216 | after any operations a capability is held exactly when one of them put it there and none since removed, replaced, pruned or swept it |
| `RetryService.OneRequestPerRecord` | src/app/ResultDelivery.ts:184-192 | in every interleaving at most one retry has its request in flight for a record, and the pending map is exactly the open retries |
| `RetryBooks.LogTellsTheStore` | src/app/ResultDelivery.ts:136-206 | in every run, the screen’s own recordings included, the log tells which records are accepted, which capabilities are held and what each operation had read |
| `RetryBooks.UndoneExactlyWhen` | src/app/ResultDelivery.ts:58-60 | a save that is no receipt undoes one exactly when the newest save before it is a receipt written since the record was read for it |
| `RetryBooks.OnlySavesUndo` | src/app/ResultDelivery.ts:173-182 | no other event of any run makes an accepted record unaccepted |
| `RetryBooks.SentAfterReceiptExactlyWhen` | src/app/ResultDelivery.ts:194-203 | a request goes out only while the capability is held, and for a record saved as accepted exactly when that receipt was written since the retry read it |
| `RetryBooks.PostsExactlyWhen` | src/app/ResultDelivery.ts:194-203 | in every run, whatever was accepted in the meantime, a retry sends its request exactly when the record could be retried at the position where it was read and the capability is held now |
| `RetryTheorems.NoRequestAfterSaved` | src/app/ResultDelivery.ts:150-162 | for a record only retries deliver, no request is started after its acceptance was saved, whatever fails |
| `RetryTheorems.RecordsAreTheirHistories` | src/app/ResultDelivery.ts:173-206 | such a record is its ledger with the saved deliveries applied one at a time, so the ledger properties hold of it |
| `RetryTheorems.ReceiptsStand` | src/app/ResultDelivery.ts:173-206 | and no event of any run undoes a receipt of it |
| `RetryTheorems.NoRequestAfterAccepted` | src/app/ResultDelivery.ts:173-182 | no request follows an accepting answer while every such answer is saved, or its capability goes and is not remembered again |
| `RetryTheorems.SendsAgainExactlyWhen` | src/app/ResultDelivery.ts:150-206 | after an acceptance that has been dealt with, a retry sends the result again exactly when the acceptance was not saved and the capability is held |
| `RetryTheorems.SendsBesideTheScreen` | src/app/ScoringScreen.tsx:370-388 | a run in which a retry sends its request after the screen's own delivery was accepted, nothing failing |
| `RetryTheorems.UndoingRunUndoes` | src/app/ScoringScreen.tsx:370-388 | a run in which the screen's delivery undoes the receipt of a retry |
| `RetryOutcomes.ForgetsExactlyWhen` | src/app/ResultDelivery.ts:173-182 | a capability is forgotten exactly by the save of a delivery that was accepted, not retryable or unsupported, unless the write before it threw |
| `RetryOutcomes.OnlyGivingUpForgets` | src/app/ResultDelivery.ts:173-182 | in every run each forgetting in the log is one of those |
| `RetryOutcomes.FailureIsSentAgain` | src/app/ResultDelivery.ts:173-206 | after a saved, retryable and supported failure the capability is still held, and a new retry of that record sends its request |
| `RetryOutcomes.BeginsExactlyWhen` | src/app/ResultDelivery.ts:194-203 | a request is sent exactly for a connected, completed record that was read as still owed and not refused for good, while its capability is held |
| `RetryOutcomes.ReadsSee` | src/app/ResultDelivery.ts:194-196 | a read sees the record there is, or none if it fails |
| `RetryOutcomes.AnswersAndThrows` | src/app/ResultDelivery.ts:197-206 | an answer is what is then recorded, and an operation that threw or ended does nothing more |
| `RetryOutcomes.RetriesJoin` | src/app/ResultDelivery.ts:184-192 | a retry of a record that has one under way joins it; any other starts one |
| `RetryOutcomes.SaveWrites` | src/app/ResultDelivery.ts:52-133 | a taken write puts the delivery into the ledger and into the history, and any other changes nothing of the record |
| `Redaction.RedactedHasNoLongRun` | src/app/ConnectionTimeline.ts:135-145 | no redacted text has 20 consecutive letters, digits or underscores, whatever the earlier passes did, and none is longer than 201 |
| `Redaction.RedactStrikesOut` | src/app/ConnectionTimeline.ts:135-145 | the output is the text with pieces of at least 20 token characters between word boundaries replaced by the mark, from the left and each as long as it goes, every other unit kept in order, and cut with an ellipsis when longer than 200 |
| `Redaction.SplitsOneWay` | src/app/ConnectionTimeline.ts:135-145 | and that determines it: there is one such division |
| `Redaction.PlainTextIsKept` | src/app/ConnectionTimeline.ts:135-145 | text without 20 consecutive token characters is kept as it is, cut only when longer than 200 |
| `Redaction.CredentialIsAWholeRun` | src/app/Diagnostics.ts:201 | the credential expression matches exactly when a whole run of letters and digits is 24 long and has both |
| `Redaction.RedactedIsNeverACredential` | src/app/Diagnostics.ts:219-225 | so no redacted text, cut anywhere, is shaped like a credential |
| `Timeline.ConnectionTimeline.Record` | src/app/ConnectionTimeline.ts:172-198 | one call drops, collapses or appends and evicts, keeping the invariant |
| `Timeline.ConnectionTimeline.FindLastState` | src/app/ConnectionTimeline.ts:201-207 | the loop finds the newest connection state kept |
| `Timeline.ConnectionTimeline.Entries` | src/app/ConnectionTimeline.ts:210-212 | returns the lines kept, oldest first |
| `Timeline.ConnectionTimeline.Clear` | src/app/ConnectionTimeline.ts:214-216 | drops the lines but not their numbering |
| `Timeline.HistoryKeeps` | src/app/ConnectionTimeline.ts:154-217 | after any calls and clearings: at most 240 lines, numbered without gaps, no equal neighbours, states that change, safe details; and every call is dropped or counted in exactly one line |
| `Timeline.ShowsTheLastState` | src/app/ConnectionTimeline.ts:172-207 | the state shown is the last one noted since the log was cleared, unless a full log has evicted it |
| `Timeline.UnchangedIsDroppedExactlyWhen` | src/app/ConnectionTimeline.ts:176 | an unchanged state is dropped exactly while a line about it is kept |
| `Timeline.UnchangedCanBeWrittenTwice` | src/app/ConnectionTimeline.ts:191-197 | runs after which an unchanged state has no line left and is written again |
| `Timeline.LinesTellTheCalls` | src/app/ConnectionTimeline.ts:172-198 | after any history the lines written tell, in order and with their counts, every call but those about an unchanged state, with its kind and its redacted detail |
| `Timeline.OldestGoesWhenFull` | src/app/ConnectionTimeline.ts:197 | a call loses a line only when 240 are shown, and then the oldest |
| `ErrorLog.ErrorLog.Record` | src/app/ErrorLog.ts:97-118 | the buffer stays the newest fifty lines of the encoding of every call since the log was cleared |
| `ErrorLog.ErrorLog.Clear` | src/app/ErrorLog.ts:124-126 | starts a new encoding at the same counter |
| `ErrorLog.EncodeDecodes` | src/app/ErrorLog.ts:102-117 | the run-length encoding stands for exactly the problems recorded, in order, and its newest line has the newest time |
| `ErrorLog.EncodingIsUnique` | src/app/ErrorLog.ts:102-117 | only one encoding without equal neighbours stands for a history |
| `ErrorLog.NewestDecodes` | src/app/ErrorLog.ts:117 | what is kept stands for the newest problems recorded, and for all of them while fifty lines suffice |
| `ErrorLog.CutNeverBites` | src/app/ErrorLog.ts:98 | the log's own 300-character cut removes nothing |
| `LeakScan.Scan.Visit` | src/app/Diagnostics.ts:219-241 | the recursive visit adds exactly the leaks of the tree to the shared list |
| `LeakScan.EmptyReportMeansClean` | src/app/Diagnostics.ts:216-241 | the scan reports nothing exactly when no place at any depth is under a forbidden name or holds a credential, the exempt path apart |
| `LeakScan.ReportsExactly` | src/app/Diagnostics.ts:216-241 | the report says exactly what is wrong: each forbidden field and each credential outside the exempt path, none of them below a forbidden field, by the path of its place |
| `LeakScan.ExemptPlaces` | src/app/Diagnostics.ts:222 | the exempt path is the path of the user agent and of a top-level field spelled like it, and of no other place |
| `LeakScan.SafeExactlyWhen` | src/app/Diagnostics.ts:216-241 | no place is under a forbidden name and no credential is anywhere but at the user agent exactly when the report is empty and no field so spelled holds one |
| `LeakScan.SpelledPathEscapes` | src/app/Diagnostics.ts:222-239 | a credential in a top-level field `browser.userAgent` is not reported |
| `DiagnosticsExport.TimelineLeaksNothing` | src/app/Diagnostics.ts:158-165 | whatever was recorded, the scan finds nothing in the exported timeline entries |
| `DiagnosticsExport.RenderedLeaksNothing` | src/app/ConnectionTimeline.ts:263-267 | nor in the timeline as it is read by people |
| `DiagnosticsExport.ErrorsLeakNothing` | src/app/Diagnostics.ts:165 | nor in the exported errors |
| `DiagnosticsExport.DescribedIsSafe` | src/app/ErrorLog.ts:98-99 | a recorded message and place are never shaped like a credential |
| `DiagnosticsExport.TimelineExportTells` | src/app/Diagnostics.ts:158-165 | timelines exported alike have the same kinds and details, line by line |
| `DiagnosticsExport.ErrorExportTells` | src/app/Diagnostics.ts:165 | errors exported alike are the same problems |
| `Presets.PresetShelf.Remember` | src/app/ManualGameDraft.ts:277-311 | remembers a setup first, at most eight, and tells the caller the new list whether or not it was stored |
| `Presets.HistoryIsLastTimes` | src/app/ManualGameDraft.ts:297-305 | moving to the front keeps of every setup the last time it was remembered, newest first |
| `Presets.CutBeforeOrAfter` | src/app/ManualGameDraft.ts:297-306 | cutting the list to eight before moving a setup to its front changes nothing of what is kept |
| `Presets.ShelfRefinesHistory` | src/app/ManualGameDraft.ts:228-311 | what is read is the first eight of the full history of the writes storage took |
| `QrScanner.RunKeeps` | src/app/QrScannerDialog.tsx:85-192 | every interleaving keeps the scanner's invariant |
| `QrScanner.StoppedReleasesTheCamera` | src/app/QrScannerDialog.tsx:90-106 | once stopped, every track opened is stopped unless a granted camera was not yet seen |
| `QrScanner.LateCameraIsStopped` | src/app/QrScannerDialog.tsx:123-127 | and such a camera is stopped by the next step |
| `QrScanner.OneTimerOrScan` | src/app/QrScannerDialog.tsx:168-188 | at most one armed timer or running scan exists |
| `QrScanner.GoesOnExactlyWhen` | src/app/QrScannerDialog.tsx:168-188 | a scanner not stopped goes on scanning exactly when its caller never threw, and holds the camera either way |
| `QrScanner.OffersAreFresh` | src/app/QrScannerDialog.tsx:173-184 | at most 32 payloads are remembered, nothing is offered after stop, and no payload twice in a row or within a block of 32 |
| `QrScanner.StopIsFinal` | src/app/QrScannerDialog.tsx:90-106 | after stop no event offers anything, arms a timer or keeps an opened track |
| `QrScanner.OfferDecides` | src/app/QrScannerDialog.tsx:173-187 | a new payload is offered once and remembered: accepting stops scanner and camera, refusing goes on, throwing leaves the camera held with nothing to come, closing stops it |
| `QrScanner.OtherAnswersGoOn` | src/app/QrScannerDialog.tsx:171-188 | an answer without a new payload offers nothing and looks again |
| `QrScanner.SetupGoesOn` | src/app/QrScannerDialog.tsx:107-188 | the set-up, await by await: what a refused, late or granted camera, the preview and the decoder lead to; scanning begins exactly with a decoder in a scanner not stopped |
| `QrScanner.ClosingStops` | src/app/QrScannerDialog.tsx:90-105 | closing stops everything but a camera the set-up has not seen yet |
| `QrScanner.TimerScans` | src/app/QrScannerDialog.tsx:168-171 | a timer scans what the preview shows, or waits again where there is none |
| `RecoveryGames.SafestIsSafest` | src/app/RecoveryModeSupport.ts:102-115 | a copy is chosen exactly when a valid exact one exists; a valid journal first, else one that none is newer than |
| `RecoveryGames.BuildRecoveryGames` | src/app/RecoveryModeSupport.ts:444-511 | the three loops compute the merge, a record displacing an earlier one with its id |
| `RecoveryGames.AddRecords` | src/app/RecoveryModeSupport.ts:452-467 | the first loop makes a game for each record and files it under its id and under its game key |
| `RecoveryGames.AddJournals` | src/app/RecoveryModeSupport.ts:469-489 | the second loop attaches each journal to its record's game or makes one |
| `RecoveryGames.AddExtras` | src/app/RecoveryModeSupport.ts:491-508 | the third loop adds what nothing else represents |
| `RecoveryGames.ShownIs` | src/app/RecoveryModeSupport.ts:449-467 | the records shown are exactly those no later record shares the id with, each id once |
| `RecoveryGames.MergeIsComplete` | src/app/RecoveryModeSupport.ts:444-511 | given distinct game keys the merge is each record shown with everything of its game, then lone journals, then lone sources; with distinct ids all records are shown, in order |
| `RecoveryGames.OneGamePerKey` | src/app/RecoveryModeSupport.ts:444-511 | exactly one entry for each game that left anything, displaced records apart, and for all of them exactly when the ids are distinct; each entry has everything of its game, each copy once |
| `RecoveryGames.ActiveGamesResume` | src/app/RecoveryModeSupport.ts:463-479 | every active game shown has a copy to resume from: its journal exactly when valid, else one no usable copy is newer than |
| `RecoveryGames.JournalShownExactlyWhen` | src/app/RecoveryModeSupport.ts:466-477 | in the finished merge, a record whose game has a journal shows it exactly when no later record has the same game key, and otherwise says that there is none |
| `RecoveryGames.EntriesResume` | src/app/RecoveryModeSupport.ts:444-511 | every entry of the merge resumes from the safest of its own copies, from its journal exactly if that is valid, and a finished game from none |
| `RecoveryGames.PutReplaces` | src/app/RecoveryModeSupport.ts:466-489 | a game takes the place of the one under its key, or goes to the end, the order being kept |
| `RestoreBackup.Shelf.CreateRow` | src/game/GameStore.ts:471-505 | a taken slot is a conflict, a lost write an error, and otherwise exactly one row is added |
| `RestoreBackup.Shelf.NextAttempt` | src/app/RecoveryModeSupport.ts:638 | one above the greatest readable attempt of the game |
| `RestoreBackup.Shelf.FindSlot` | src/app/RecoveryModeSupport.ts:642-661 | the hundred tries, as the search function says |
| `RestoreBackup.Shelf.UpdateRow` | src/game/GameStore.ts:507-532 | fills the new row, or says it could not |
| `RestoreBackup.Shelf.RestoreAsSeparateAttempt` | src/app/RecoveryModeSupport.ts:617-698 | the whole of a restore in Recovery Mode, whatever fails |
| `RestoreBackup.Shelf.RestoreInApp` | src/app/App.tsx:872-985 | the whole of a restore from the application, with its clean-up |
| `RestoreBackup.Shelf.RemoveRow` | src/game/GameStore.ts:558-565 | removes a row and the journal under its key |
| `RestoreBackup.TakesTheLeastFreeSlot` | src/app/RecoveryModeSupport.ts:642-661 | while reads hold, a record is created exactly when a slot is free and the write takes, at the least free attempt above every readable one |
| `RestoreBackup.CreatedIsFresh` | src/game/GameStore.ts:471-505 | a created record is an unfinished one of its game without content, under its own slot and game key |
| `RestoreBackup.SlotsDiffer` | src/game/GameStore.ts:300-302 | different attempts have different slots |
| `RestoreBackup.RestoreChangesOneRow` | src/app/RecoveryModeSupport.ts:617-698 | whatever fails, on either path no row changes but the one in the slot that first looks open |
| `RestoreBackup.RestoreChangesOneJournal` | src/app/RecoveryModeSupport.ts:663-672 | nor any journal but the one under that slot's game key |
| `RestoreBackup.RecoveryKeepsRows` | src/app/RecoveryModeSupport.ts:617-698 | while reads hold every existing row, readable or not, is kept as it was |
| `RestoreBackup.RecoveryKeepsRowsExactlyWhen` | src/persistence/GameDatabase.ts:231-234 | a row is lost exactly when every slot before it is seen to be taken, its own read fails and the write takes; a row in the way always differs from the new one |
| `RestoreBackup.FailedReadOverwrites` | src/persistence/GameDatabase.ts:231-234 | a failed read of a taken slot overwrites an unreadable row |
| `RestoreBackup.SanitizeOnce` | src/game/GameStore.ts:327-329 | a game key sanitizes to itself, and ids of kept characters never share one |
| `RestoreBackup.RecoveryKeepsJournalsExactlyWhen` | src/app/RecoveryModeSupport.ts:663-672 | a journal is lost exactly when both writes take and the first slot that looks open has the game key of a journal saying something else |
| `RestoreBackup.PlainIdsKeepJournals` | src/game/GameStore.ts:327-329 | with reads that hold and ids of kept characters no journal is ever lost, on either path |
| `RestoreBackup.KeysCollide` | src/game/GameStore.ts:327-329 | ids that differ in one character that is not kept have one game key |
| `RestoreBackup.SharedKeyLosesTheJournal` | src/app/RecoveryModeSupport.ts:663-672 | any other game whose id shares the new slot's game key loses its journal, with nothing failing |
| `RestoreBackup.SharedKeyOnADevice` | src/app/RecoveryModeSupport.ts:663-672 | devices on which that happens |
| `RestoreBackup.RestoredIsSaved` | src/app/RecoveryModeSupport.ts:673-698 | what is reported saved is saved, and a failure before creation changed nothing |
| `RestoreBackup.AppAgrees` | src/app/App.tsx:872-940 | where Recovery Mode succeeds the application leaves the same device and record |
| `RestoreBackup.AppKeepsItsRecordExactlyWhen` | src/app/App.tsx:941-985 | the application takes its new row away exactly when neither journal nor content was saved, and changes no other row |
| `RestoreBackup.AppKeepsRowsExactlyWhen` | src/app/App.tsx:872-985 | the application loses a row exactly when a taken slot is misread and the write takes |
| `RestoreBackup.AppKeepsJournalsExactlyWhen` | src/app/App.tsx:872-985 | it loses a journal exactly when the new slot has that journal's game key and replaces it with something else, or is taken away again and clears it |
| `RestoreBackup.FailureLosesARow` | src/app/App.tsx:967-985 | a restore that reports that nothing was overwritten and deleted a row |
| `RestoreBackup.GivingUpClearsTheKey` | src/app/App.tsx:967-976 | giving up clears the journal under the new game key, whosever it is |
| `Resume.ResumedDepends` | src/app/App.tsx:134-176 | what is resumed is in the list and depends on the connection |
| `Resume.OrderDoesNotMatter` | src/app/App.tsx:152-176 | the record resumed does not depend on the list's order when one is named or the session's key is unshared |
| `Resume.OrderMattersExactlyWhen` | src/app/App.tsx:152-176 | some reordering changes it exactly when no record is named and two unfinished games share the session's key |
| `Resume.ResumesExactly` | src/app/App.tsx:152-176 | with distinct ids: the unfinished record the connection names; else one with the session’s key; else the only unfinished one of the room |
| `Resume.DependsExactlyWhen` | src/app/App.tsx:134-143 | a game depends on the pairing exactly when unfinished, connected and named by it, by its session or by its room and tournament: when it would be resumed alone |
| `Resume.OwedExactlyWhen` | src/game/GameStore.ts:264-298 | what is still owed, case by case |
| `Resume.PairsExactlyWhen` | src/app/App.tsx:272-299 | a link leads to pairing, with its own intent, exactly when valid and nothing on the device depends on the pairing; which notice is shown otherwise; never on a device with a game to resume |
| `Resume.StartsInTheRoomExactlyWhen` | src/app/App.tsx:225-244 | where a device starts: at a result still owed exactly when the connection names one, otherwise in its room exactly when there is a game to resume or nothing unfinished, or at home |
| `TabClaims.StepKeeps` | src/app/App.tsx:697-741 | one event in its turn keeps the claim invariant |
| `TabClaims.ScoringIsClaimed` | src/app/App.tsx:697-741 | one thing at a time, a game is scored only under its own lock and no lock is lost sight of |
| `TabClaims.OpeningDecides` | src/app/App.tsx:718-741 | one thing at a time, an opening shows its game exactly when its lock was free; one overtaken changes no screen and keeps no lock |
| `TabClaims.LeavingIsUnclaimed` | src/app/App.tsx:1220-1227 | between leaving and the screen following, another tab can have the game on screen |
| `TabClaims.LosesExactlyWhen` | src/app/App.tsx:697-716 | whatever the order, an event loses sight of an own lock exactly when an opening comes through while the claim before it is held |
| `TabClaims.LocksKnownExactlyWhen` | src/app/App.tsx:697-741 | after any run every own lock is known exactly when that never happened |
| `TabClaims.OverlapLosesALock` | src/app/App.tsx:697-702 | overlapping openings leave a lock nothing refers to, and reopening that game is refused |
| `PercentCoding.EscapedReadsBack` | src/app/PairingLaunch.ts:99-102 | the escaped UTF-8 octets of a character (section 3 of RFC 3629) decode to it, whatever follows |
| `PercentCoding.DecodeUndoesEncode` | src/app/PairingLaunch.ts:99-102 | decoding undoes encoding for every well-formed string in every proper style, `encodeURIComponent` and the form serializer included |
| `PercentCoding.ReadsExactlyUtf8` | src/app/PairingLaunch.ts:99-102 | escapes are read exactly when they spell a character in UTF-8 (section 3 of RFC 3629), and as that character |
| `PairingParameters.ReadParameters` | src/app/PairingLaunch.ts:113-135 | the loop computes the parameters, or refuses them |
| `PairingParameters.CollectsExactlyWhen` | src/app/PairingLaunch.ts:117-132 | pieces are accepted exactly when each reads and no decoded key repeats, and the map holds exactly what they spell |
| `PairingParameters.OrderDoesNotMatter` | src/app/PairingLaunch.ts:113-135 | what the pieces give does not depend on their order |
| `PairingParameters.JoinUndoesSplit` | src/app/PairingLaunch.ts:116 | splitting at ampersands loses nothing |
| `PairingParameters.ReadsAtTheFirstEquals` | src/app/PairingLaunch.ts:117-131 | a piece is divided at its first equals sign and both sides are decoded; an empty key or a side that does not decode is refused |
| `PairingLaunch.LinkInAnyOrder` | src/app/PairingLaunch.ts:147-214 | whatever a fragment with parameters says, even if refused, it says with them in any order |
| `PairingLaunch.UnknownIsIgnored` | src/app/PairingLaunch.ts:197-200 | a further parameter with an unknown fresh key changes nothing |
| `PairingLaunch.RepeatedKeyIsRefused` | src/app/PairingLaunch.ts:131 | a link that repeats a decoded key is refused |
| `PairingLaunch.ParsedIsValid` | src/app/PairingLaunch.ts:167-214 | whatever is read has a bounded printable code without spaces, a trimmed room and an address some good server normalized to |
| `PairingLaunch.TakenForExactly` | src/app/PairingLaunch.ts:147-175 | a fragment is no link exactly when it announces none, and of another version exactly when it is announced, short enough and gives one |
| `PairingLaunch.GoodExactlyWhen` | src/app/PairingLaunch.ts:167-214 | the limits of an address, a code and a room name, unit by unit |
| `PairingLaunch.ScannedForExactly` | src/app/PairingLaunch.ts:224-228 | a scanned text without a fragment is no link, and any other is what its fragment is |
| `PairingLaunch.ParseUndoesPrint` | src/app/PairingLaunch.ts:147-214 | a valid intent printed in any proper style reads back as itself |
| `PairingLaunch.SerializersReadBack` | src/app/PairingLaunch.ts:147-214 | in particular what `encodeURIComponent` and the form serializer print |
| `PairingLaunch.ScanUndoesPrint` | src/app/PairingLaunch.ts:224-228 | and behind any address |
| `PairingLaunch.Address.Consume` | src/app/PairingLaunch.ts:274-281 | reads the fragment and takes it out of the address if it was a link |
| `PairingLaunch.Address.Capture` | src/app/PairingLaunch.ts:294-297 | holds what was read |
| `PairingLaunch.Address.Take` | src/app/PairingLaunch.ts:306-310 | hands it over and forgets it |
| `PairingLaunch.HandedOverOnce` | src/app/PairingLaunch.ts:294-310 | a scrubbed link is handed over by the first taking and by no later one |
| `PairingLaunch.TakenTwiceExactlyWhen` | src/app/PairingLaunch.ts:257-310 | a second taking hands it over again exactly when the scrub was refused |

## Left out

- The start protocol, the retry service, the scanner, the tab claims and the application's screen changes are step
  functions over values, not objects: no single call owns their variables. Aliasing of closures is not modelled.
- HTTP, CORS, request bodies, the legacy duplicates of the QBTCP routes and the help requests of the server fixture.
- `ensureRecord` is a result that may be a record or nothing; the scorer's own progress and result traffic is not
  part of the composed protocol.
- ProcedureKey.ApprovalIsExact: is about whole numbers below the size at which JavaScript prints an exponent;
  fractions and larger numbers are not modelled.
- Session ids, fingerprints, set-ups and events are numbers; a room key is one text, not its three parts joined.
- RetryTheorems.NoRequestAfterSaved: is about records that only retries deliver; what holds beside the scoring
  screen's own delivery is in `RetryBooks`. The same goes for the other lemmas there that mention `Alone`.
- A read of an assignment is one step; over QBTCP it is two requests, for the status and then for the game.
- CapabilityStore.NothingOutlivesRetention: is about writes that storage takes; refused writes are in the methods'
  contracts. Record ids that are names of JavaScript object members are not modelled.
- The first three replacements of `redact` are an arbitrary function; where a lemma needs it, one that leaves some
  text of any text.
- LeakScan.EmptyReportMeansClean: is about the structural scan; the search of the serialized bundle for the secrets
  a device holds is left out.
- DiagnosticsExport.RenderedLeaksNothing: takes the local time and the words for each kind as functions that give no
  letter and no digit respectively.
- Presets.ShelfRefinesHistory: assumes that a remembered setup reads back; a stored item that does not is skipped.
- RecoveryGames.SafestIsSafest: with a date that cannot be read the order is the browser's sort, an arbitrary choice.
- RestoreBackup.TakesTheLeastFreeSlot: is about a store no other tab writes to in the meantime; migration of old
  rows is left out, the shipped schema having no steps.
- TabClaims.ScoringIsClaimed: is about the browser's locks; the channel election used without them is left out.
- PairingLaunch.ParseUndoesPrint: takes `normalizeBaseUrl` as an arbitrary function of which the address is a fixed
  point.
- Quota, IndexedDB and network behaviour beyond an operation that fails, is refused or answers late; dates outside
  the range JavaScript can hold; React scheduling beyond the order of effects.
- Screens, labels, preferences, printing, file formats and the native applications.
