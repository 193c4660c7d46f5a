# RedDock, modelled and proved in Dafny

RedDock is a self-hosted security workbench. This project models the parts of it that decide
what survives a crash, who is let in, and what may be touched, and proves what they keep:

- **Restore protocol** (`RestoreDisk`, `RestoreProtocol`, `RestoreRuns`): the data directory as
  an object whose files are replaced, deleted one evidence file at a time and marked step by
  step. Every primitive may fail, or crash before or after it takes effect; a script of fates
  says which. One invariant (`Tracked`) holds at every point of every run of restores and
  recoveries.
- **Backups** (`BackupArchive`, `EvidenceWalk`, `BackupRoundTrip`, `Backups`, `BackupRestore`): the
  walk over the evidence, what is written verifies, what is extracted is what was backed up, and
  restoring it puts that back.
- **Canonical SQL** (`AsciiText`, `SqlTokens`, `SqlCase`, `SqlColumns`, `SqlContract`, `SqlScanner`): the
  hand-written scanner that compares table declarations, as a tokenizer and a printer that undo
  each other and a clause splitter that undoes joining.
- **Rate limiter** (`RateLimitModel`, `RateLimiter`): two buckets a call, a bounded purge between
  them, and bounds on admissions and on the whole table.
- **Sessions and team** (`SessionModel`, `SessionInvariants`, `SessionGuarantees`,
  `SessionTouch`, `SessionStore`): session families, throttled touching, rotation, purging, and
  the team whose roles sessions carry.
- **Session client** (`ClientModel`, `ClientInvariants`, `ClientGuarantees`, `SessionClient`): the
  browser's asynchronous client, one step of the event loop at a time.
- **Local operator** (`LocalThrottle`, `LocalSessions`): the sliding log and the table of recently
  used sessions.
- **Scope** (`AddressBlocks`, `BlockSubtraction`, `Targets`, `Normalization`,
  `NormalizationLaws`, `NormalizationSpellings`, `DockGuard`, `ScopeGuarantees`): CIDR algebra (section 3.1 of RFC 4632),
  reading targets (section 6.2 of RFC 6454, section 2.1 of RFC 1123) and the scope decision.
- **Correlation** (`Correlation`): the pairs of findings, their edge budget and the graph.

Objects that the code updates in place are classes; each of their methods states its new state
outright, or through a function of the old state whose properties are the lemmas beside it.
`dafny verify dfyconfig.toml` checks everything.

Six statements one might expect are false of the code, and the project says exactly when they
hold and gives a case in which they do not:

- *A recovery that runs to its end closes the restore.* Not for a rollback to data that does not
  itself validate: the original pair is back in place, but the marker stays
  (`RestoreRuns.RecoverToEnd`, `RestoreRuns.MarkerStays`).
- *A membership never has more than eight sessions.* A touch or a rotation that read its clock
  before the idle limit and commits after eight sessions were issued revives a ninth
  (`SessionGuarantees.CapKeptUnlessRevived`, `SessionGuarantees.LateTouchBreaksCap`,
  `SessionGuarantees.LateRotationBreaksCap`).
- *A session unused for 30 minutes never resolves again.* A touch that read its clock just before
  and commits just after brings it back, and a rotation carries it on under a new token
  (`SessionTouch.IdleSessionIsFinal`, `SessionTouch.LateTouchRevives`,
  `SessionTouch.LateRotationCarriesOn`).
- *An address and its one-address network are decided alike.* Not when an exclusion names the
  address as a URL (`ScopeGuarantees.AddressAndNetworkDiffer`,
  `ScopeGuarantees.AddressAndNetworkDoDiffer`).
- *A proof is held only with a session.* Not when a renewal ends after its session was cleared
  (`ClientGuarantees.ProofAloneAlong`, `ClientGuarantees.ProofAloneHappens`).
- *A constraint's name is dropped from its clause.* Not when the quoted name has a space in it,
  nor when the clause ends behind it
  (`SqlColumns.ConstraintNameDropped`, `SqlColumns.SpacedNameStays`).

## Model

| member | source | states |
|---|---|---|
| RestoreProtocol.DataDirectory.Recover | backend/app/backup.py:1514-1596 | From any tracked disk, whatever fate its steps meet: the disk stays tracked, a run without faults leaves the owed pair, and the marker goes away unless the pair to roll back to does not validate |
| RestoreProtocol.DataDirectory.Restore | backend/app/backup.py:1631-1723 | A restore cut short anywhere leaves a disk tracked between the original and the archive's pair; without faults it leaves exactly the archive's pair |
| RestoreProtocol.DataDirectory.RollBack | backend/app/backup.py:1561-1588 | Undoing a prepared restore keeps the original pair recoverable at every interruption and leaves it in place when not interrupted |
| RestoreProtocol.DataDirectory.CloseRestore | backend/app/backup.py:1589-1591 | The staging directory goes before the marker, and neither step touches the live pair |
| RestoreProtocol.DataDirectory.RemoveTree | backend/app/backup.py:1410-1412 | A deletion cut short leaves a part of the tree it was deleting and nothing else changed |
| RestoreProtocol.DataDirectory.Install | backend/app/backup.py:1679-1687 | Setting the old pair aside and moving the new one in, interrupted anywhere, stays undoable |
| RestoreProtocol.DataDirectory.HandleFailure | backend/app/backup.py:1688-1703 | A failed restore undoes itself or leaves a disk that recovery can undo |
| RestoreRuns.OwedIsOnDisk | backend/app/backup.py:1514-1563 | What a recovery has to leave is determined by the disk and its marker alone |
| RestoreRuns.MarkerlessDiskIsWhole | backend/app/backup.py:1479-1484 | Without a marker the live pair is the first pair or one whole archive, never a mixture, with no rollback copy beside it |
| RestoreRuns.Operate | backend/app/backup.py:1487-1723 | Every state of every run of restores and recoveries, each cut short anywhere, is whole in that sense |
| RestoreRuns.RecoverToEnd | backend/app/backup.py:1514-1596 | From any interrupted restore, recoveries cut short anywhere and one complete one end on the pair the disk owed, and close the restore exactly when it was committed or that pair validates |
| RestoreRuns.RestoreThenRecover | backend/app/backup.py:1514-1723 | A restore with any faults, then recoveries to the end: the disk the restore left decides, the original pair if prepared, the new one if committed; without faults its result is determined |
| RestoreRuns.MarkerStays | backend/app/backup.py:1583-1591 | A concrete restore over an unsound database, and a complete recovery after it that leaves the marker |
| BackupArchive.SortedIsAscending | backend/app/backup.py:618 | Sorting distinct member names puts them in strictly ascending order |
| BackupArchive.PathsAreNames | backend/app/backup.py:1322-1329 | Distinct member names are distinct paths |
| BackupArchive.SafeMemberStaysBelow | backend/app/backup.py:624-648 | Followed from the staging directory, a safe member name leads to its own path below it |
| EvidenceWalk.EvidenceFiles | backend/app/backup.py:579-621 | The walk with its stack finds every file of the tree once, and fails exactly when an entry is irregular, a name unsafe, or depth, directories or files are too many |
| EvidenceWalk.OrderIsNoMatter | backend/app/backup.py:618-621 | In whatever order directories list their entries, the sorted members are the same |
| EvidenceWalk.FilesAreApart | backend/app/backup.py:591-617 | No path found runs through another |
| BackupArchive.ManifestDecidesContents | backend/app/backup.py:784-799 | If hashes never collide, two verified archives with one manifest hold the same members |
| BackupRoundTrip.WrittenIsVerified | backend/app/backup.py:681-799 | An archive as it is written, from sources within the limits, passes every check of verification |
| BackupRoundTrip.WriteSources | backend/app/backup.py:1119-1150 | The running limit rejects a backup exactly when the sources together exceed it |
| BackupRoundTrip.WriteBackup | backend/app/backup.py:1277-1304 | Sources with safe names become a published archive exactly when they are free of aliases and within the limits, and it verifies |
| Backups.CreateBackup | backend/app/backup.py:1249-1319 | A backup of a data directory is published exactly when its evidence can be walked and everything fits, and then holds exactly its files |
| BackupRoundTrip.Extract | backend/app/backup.py:1322-1329 | A verified archive extracts exactly when no member's path runs through another's, and then to the recorded members and nothing else |
| Backups.BackupAndExtract | backend/app/backup.py:1249-1339 | Whatever can be backed up comes back byte for byte, with nothing beside it |
| BackupRestore.ExtractionIsRestored | backend/app/backup.py:1322-1339 | For any verified archive, what extraction leaves is what the restore moves in |
| BackupRestore.BackupThenRestore | backend/app/backup.py:1249-1723 | A backup of sound data, restored over any settled directory without a fault, leaves exactly that data in place |
| SqlTokens.PrintReadsBack | backend/app/backup.py:187-226 | Any list of tokens, printed, is read back as those tokens |
| SqlTokens.CanonicalReadsBack | backend/app/backup.py:187-226 | Canonicalizing succeeds exactly when the text scans, and keeps its tokens |
| SqlTokens.CanonicalIsIdempotent | backend/app/backup.py:187-226 | Canonicalizing a canonical text changes nothing |
| SqlTokens.CanonicalDecidesTokens | backend/app/backup.py:187-226 | Two texts have one canonical form exactly when they have the same tokens |
| SqlCase.CaseIsDropped | backend/app/backup.py:187-226 | Texts without quotes that differ only in case have one canonical form |
| SqlScanner.SkipQuoted | backend/app/backup.py:158-172 | The cursor loop ends behind the quoted text, a doubled closing quote staying inside |
| SqlScanner.CanonicalFragment | backend/app/backup.py:187-226 | The scanning loop computes the printed tokens of the stripped text, or its first error |
| SqlColumns.SlicesRejoin | backend/app/backup.py:248-276 | The raw clauses joined by commas, the closing bracket and the rest are the whole text again |
| SqlColumns.SlicesAreClosed | backend/app/backup.py:248-276 | Every raw clause balances by itself, has no comma of the outer list and ends its line comments |
| SqlColumns.RejoinSplits | backend/app/backup.py:248-276 | Any closed clauses, joined by commas, split into just those clauses |
| SqlColumns.UnitsGiveTokens | backend/app/backup.py:158-226 | Whatever the clause splitter gets through, the tokenizer gets through |
| SqlColumns.ClosedClauseIsCanonical | backend/app/backup.py:261-269 | A raw clause always has a canonical form |
| SqlColumns.ConstraintNameDropped | backend/app/backup.py:284-290 | A constraint's name is dropped from its clause exactly when it has no space in it and something follows it; without a space, a clause that ends behind its name is kept whole |
| SqlColumns.SpacedNameStays | backend/app/backup.py:284-290 | A concrete constraint that keeps part of its name |
| SqlScanner.FindOpening | backend/app/backup.py:231-246 | The loop finds the first bracket outside comments and quotes |
| SqlScanner.SplitColumns | backend/app/backup.py:248-278 | The cursor loop with its depth and start computes the clause splitter |
| SqlScanner.ReadContract | backend/app/backup.py:229-281 | Opening, splitting, canonical clauses and suffix together are the contract, or the fault that comes first |
| SqlContract.OpeningIsLocal | backend/app/backup.py:231-246 | The text up to the opening bracket alone decides where the column list opens |
| SqlContract.OrderDoesNotMatter | backend/app/backup.py:229-281 | Rewriting a declaration with its clauses in another order keeps its contract, exactly when no clause but the last is left empty |
| RateLimitModel.StoredCountIsExact | backend/app/rate_limits.py:258-294 | In the window a bucket is in, it has admitted exactly its stored count of calls |
| RateLimitModel.SlidingWindowBound | backend/app/rate_limits.py:258-294 | One bucket admits at most 2·limit − 1 calls in any half-open interval of one window length |
| RateLimitModel.LiveSubjectsBound | backend/app/rate_limits.py:340-365 | Live subject rows of a plan are at most 2·(global limit) − 1 |
| RateLimitModel.AllLiveBound | backend/app/rate_limits.py:159-173 | All live rows together stay below the table's capacity |
| RateLimitModel.CallStaysWithinCapacity | backend/app/rate_limits.py:297-372 | A call either purges to live rows or does not grow the table, so the capacity holds |
| RateLimitModel.PurgeDoesNotDecide | backend/app/rate_limits.py:297-322 | Purging expired rows changes no later decision |
| RateLimitModel.RetryAfterIsExact | backend/app/rate_limits.py:235-237 | The delay told to a refused caller is the first whole second at which the bucket admits again, within the window |
| RateLimiter.Limiter.Consume | backend/app/rate_limits.py:240-294 | Counts in a live window, restarts an expired one, refuses at the limit, and touches no other row |
| RateLimiter.Limiter.Purge | backend/app/rate_limits.py:297-322 | Deletes only expired rows, first by expiry and then by id, no more than the batch |
| RateLimiter.Limiter.Enforce | backend/app/rate_limits.py:325-372 | Global bucket, purge, subject bucket: the decision, what each outcome commits, and which admissions it makes |
| RateLimiter.Serve | backend/app/rate_limits.py:325-372 | Along any calls in time order the table stays within its capacity, and no bucket, global or of a subject, lets more than 2·limit − 1 of the calls through in one window length |
| SessionInvariants.BootstrapIsValid | backend/app/identity_admin.py:75-187 | The first state: one active owner, no sessions |
| SessionInvariants.RunKeepsValid | backend/app/session_auth.py:118-673 | Every run of transactions keeps row times, families, authority and the single owner in order |
| SessionInvariants.TransferKeepsValid | backend/app/team_administration.py:358-387 | Handing ownership over keeps exactly one owner and leaves no session with an old role |
| SessionInvariants.RolesChangeBehindRevocation | backend/app/team_administration.py:337-355 | Members whose sessions were revoked in the same transaction may change role or status without breaking authority |
| SessionGuarantees.FamiliesHoldTogether | backend/app/session_auth.py:340-403 | In every run a family has at most one open row, one expiry, and is revoked all at once |
| SessionGuarantees.GenerationsAreFew | backend/app/session_auth.py:367-385 | Generations never exceed 7, so the cap of 16 is never what stops a rotation |
| SessionGuarantees.RotationHandsOver | backend/app/session_auth.py:340-403 | A rotation ends the old token, starts a new one with the same expiry, and changes no other row |
| SessionGuarantees.ReplayIsContained | backend/app/session_auth.py:477-522 | Revoking with any retained token of a family ends every token of it |
| SessionGuarantees.DeadForever | backend/app/session_auth.py:91-103 | A replaced, revoked or deleted token never resolves again |
| SessionGuarantees.PurgeSparesActiveFamilies | backend/app/session_auth.py:639-673 | A purge up to now deletes no row, current or superseded, of an active family |
| SessionGuarantees.ChangeEndsSessions | backend/app/team_administration.py:337-355 | A change of role or status leaves no open session of that member |
| SessionGuarantees.AuthorityIsCurrent | backend/app/session_auth.py:233-304 | After bootstrap there is always one active owner, and whoever resolves still has the role of issue |
| SessionGuarantees.IssuedSessionResolves | backend/app/session_auth.py:118-196 | An issued session is accepted at once exactly when its member may act, and carries the member's present role |
| SessionGuarantees.IssueIsCapped | backend/app/session_auth.py:140-163 | Issuing, however late it gets its locks, evicts enough of the least recently seen sessions to keep the cap |
| SessionGuarantees.CapKeptUnlessRevived | backend/app/session_auth.py:140-163 | Every transaction, each with the time it read before its locks, keeps the cap of eight, except exactly a late touch or rotation that revives a session beside eight others |
| SessionGuarantees.CapAlongRun | backend/app/session_auth.py:140-163 | The cap holds in every state of a run exactly when no step of it is such a touch or rotation |
| SessionGuarantees.LateTouchBreaksCap | backend/app/session_auth.py:269-304 | A concrete run from bootstrap that ends with nine sessions |
| SessionGuarantees.LateRotationBreaksCap | backend/app/session_auth.py:340-403 | A concrete run from bootstrap in which a rotation waits behind eight issues and ends with nine sessions |
| SessionTouch.AcceptedMeansRecent | backend/app/session_auth.py:269-304 | Whenever a touching request is accepted, the row it was answered from was seen within five minutes |
| SessionTouch.RecentSessionLasts | backend/app/session_auth.py:269-304 | A session used at a time, and left alone, resolves for 25 minutes more or until it expires |
| SessionTouch.AcceptedSessionLasts | backend/app/session_auth.py:269-304 | Whenever a touching request is accepted, its session resolves for 25 minutes more, or until it expires, in every run that leaves it alone |
| SessionTouch.OverResolvesExactly | backend/app/session_auth.py:269-304 | One transaction brings a token that is over back exactly when it is a late touch of that token |
| SessionTouch.IdleIsFinal | backend/app/session_auth.py:91-103 | A token out of use for 30 minutes, expired or ended resolves again in a run exactly when a late touch of it comes in that run |
| SessionTouch.FamilyResolvesExactly | backend/app/session_auth.py:340-403 | One transaction lets a session that is over resolve again, under whatever token, exactly when it is a late touch or rotation of that session |
| SessionTouch.IdleSessionIsFinal | backend/app/session_auth.py:91-103 | A session that is over resolves again in a run, under whatever token, exactly when a late touch or rotation of it comes in that run |
| SessionTouch.LateTouchRevives | backend/app/session_auth.py:269-304 | A concrete idle session that a late touch brings back |
| SessionTouch.LateRotationCarriesOn | backend/app/session_auth.py:340-403 | A concrete idle session that a late rotation carries on under a new token |
| SessionStore.Database.IssueSession | backend/app/session_auth.py:118-196 | Evicts the least recently seen, revokes their families, inserts the new row |
| SessionStore.Database.Rotate | backend/app/session_auth.py:340-403 | Rotates just when due, and otherwise changes nothing |
| SessionStore.Database.UseSession | backend/app/session_auth.py:407-466 | Whether it rotates, touches or only resolves: who is accepted, the whole state after it, and the token to go on with |
| SessionStore.Database.RevokeSession | backend/app/session_auth.py:477-522 | Ends the whole family of any retained token |
| SessionStore.Database.PurgeInactive | backend/app/session_auth.py:639-673 | Deletes the inactive rows with the smallest ids, up to the batch |
| SessionStore.Database.ProvisionMember | backend/app/team_administration.py:290-334 | Adds a member below owner, refusing a full team or a subject already there |
| SessionStore.Database.ChangeMember | backend/app/team_administration.py:337-355 | Changes a member other than the owner and revokes its sessions in one transaction |
| SessionStore.Database.TransferOwnership | backend/app/team_administration.py:358-387 | Swaps owner and admin and revokes both members' sessions in one transaction |
| SessionStore.FirstInactive | backend/app/session_auth.py:639-673 | The batch is the smallest inactive ids, and all of them if they fit |
| ClientInvariants.RunKeepsValid | frontend/src/serverSession.ts:78-305 | Every interleaving keeps the queue chained, shared calls remembered, and what was sent matched to what is held |
| ClientGuarantees.QueueIsSerial | frontend/src/serverSession.ts:168-172 | Queued operations run one at a time, in the order they were made |
| ClientGuarantees.SharedCallsAreUnique | frontend/src/serverSession.ts:183-271 | At most one unfinished recovery, renewal and logout of the current epoch |
| ClientGuarantees.SentAtMostOnce | frontend/src/serverSession.ts:273-304 | No operation is sent twice in any run |
| ClientGuarantees.NothingOldSpeaks | frontend/src/serverSession.ts:105-171 | After a forget, a notice or a failed confirmation, no operation begun before changes session, proof, status, epoch or revision |
| ClientGuarantees.SessionMeansProof | frontend/src/serverSession.ts:148-162 | A session is held exactly when authenticated, and then with a proof |
| ClientGuarantees.ProofAloneExactly | frontend/src/serverSession.ts:226-234 | A proof comes to be held without a session exactly when a renewal of this epoch succeeds after its session is gone |
| ClientGuarantees.ProofAloneAlong | frontend/src/serverSession.ts:226-234 | Session and proof are held together in every state of a run exactly when no step of it is such a renewal |
| ClientGuarantees.ProofAloneHappens | frontend/src/serverSession.ts:214-304 | A concrete run that gets there: a read refused while a renewal is under way |
| ClientGuarantees.SessionComesFromRecovery | frontend/src/serverSession.ts:183-212 | Only a recovery of the current epoch brings a session in, and none that has expired |
| ClientGuarantees.RequestClearsOnlyItsOwn | frontend/src/serverSession.ts:286-302 | A 401 signs out only of the very session and proof the request was sent under |
| ClientGuarantees.NoWriteOutlivesLogout | frontend/src/serverSession.ts:247-304 | When a logout is answered, every write of its epoch is done, and a 204 leaves the page signed out |
| SessionClient.ServerSessionClient.Ask | frontend/src/serverSession.ts:183-304 | Shares a pending call, refuses requests behind a logout, and otherwise adds one operation |
| SessionClient.ServerSessionClient.Resume | frontend/src/serverSession.ts:216-223 | The first turn of an operation: stale ones end, expired sessions are cleared, the rest are sent |
| SessionClient.ServerSessionClient.OnResponse | frontend/src/serverSession.ts:189-303 | What each answer does to the session, by kind of operation |
| SessionClient.ServerSessionClient.OnBody | frontend/src/serverSession.ts:195-239 | What a recovered or renewed body does to session and proof |
| SessionClient.ServerSessionClient.ConfirmIssuedProof | frontend/src/serverSession.ts:123-131 | Confirms just the stored proof and expiry, and forgets everything otherwise |
| LocalThrottle.Throttle.Consume | backend/app/local_security.py:60-68 | Admits exactly when the whole history, not only the pruned log, leaves room in the window |
| LocalThrottle.WindowHoldsAtMostLimit | backend/app/local_security.py:60-68 | A history spaced as the throttle spaces it has at most the limit in any interval of one window length |
| LocalThrottle.FullLogIsBounded | backend/app/local_security.py:53-68 | Any calls in time order: never more than the limit in one window length |
| LocalSessions.BrowserSessions.Issue | backend/app/local_security.py:170-194 | Purges, evicts from the front, appends; at most eight, in order of last use |
| LocalSessions.BrowserSessions.Verify | backend/app/local_security.py:208-230 | Accepts exactly an unexpired entry with a matching proof, and moves it to the end when touching |
| LocalSessions.BrowserSessions.Purge | backend/app/local_security.py:242-250 | Deletes exactly the expired entries and keeps the order of the rest |
| LocalSessions.EvictsOnlyTheOldest | backend/app/local_security.py:180-183 | A live session is evicted only when eight are live, and then the one longest out of use |
| LocalSessions.RecentlyUsedStays | backend/app/local_security.py:170-250 | In every run, a session still in time is accepted as long as fewer than eight others were used after it |
| AddressBlocks.MeetingBlocksNest | backend/app/dockguard.py:365-372 | Two prefixes that share an address are one inside the other |
| AddressBlocks.ContainsIsPrefix | backend/app/dockguard.py:334-347 | An address lies in a block exactly when its leading bits are the block's prefix |
| BlockSubtraction.AddressExclude | backend/app/dockguard.py:365-372 | Repeated halving leaves exactly the network without the excluded block, disjoint, one piece a halving |
| BlockSubtraction.Subtract | backend/app/dockguard.py:365-372 | Removes exactly the excluded block from what a list covers, and keeps its blocks disjoint |
| BlockSubtraction.FullyExcluded | backend/app/dockguard.py:350-362 | True exactly when every address of the network is in some exclusion, in any order and of any length |
| DockGuard.Evaluate | backend/app/dockguard.py:107-193 | The decision loops compute the decision defined by coverage |
| DockGuard.CollectOverlapping | backend/app/dockguard.py:334-347 | Collects the exclusions that meet the network, in their order |
| DockGuard.OverlappingCoverAll | backend/app/dockguard.py:334-362 | The overlapping exclusions cover a network exactly when all exclusions do |
| ScopeGuarantees.AllowedNetworkIsSafe | backend/app/dockguard.py:107-193 | An allowed network is inside one include, outside denied space, keeps an address, and meets no exclusion beyond the reported ones |
| ScopeGuarantees.DecisionIgnoresOrder | backend/app/dockguard.py:299-308 | The order of the rules never changes a decision |
| ScopeGuarantees.DecisionIsMonotone | backend/app/dockguard.py:107-193 | More includes or fewer exclusions keep what was allowed |
| ScopeGuarantees.ExclusionOnlyDenies | backend/app/dockguard.py:334-362 | One more exclusion never turns a denial into an allowance |
| ScopeGuarantees.InclusionOnlyAllows | backend/app/dockguard.py:299-308 | One more include never turns an allowance into a denial |
| ScopeGuarantees.NetworkAllowedExactly | backend/app/dockguard.py:107-193 | A network is allowed exactly when it avoids denied space, lies in one include, and has an address outside every exclusion |
| ScopeGuarantees.AddressAllowedExactly | backend/app/dockguard.py:299-331 | An address is allowed exactly when it is outside denied space, in some include and in no exclusion, entries that are URLs counting for neither |
| ScopeGuarantees.NameAllowedExactly | backend/app/dockguard.py:196-271 | A name is allowed exactly when it has its own include, no exclusion of its own, and resolved only to usable addresses outside denied space and, save for answers with an IPv6 zone, outside exclusions |
| ScopeGuarantees.UrlAllowedExactly | backend/app/dockguard.py:107-331 | An origin is allowed exactly when its host is not denied, some include and no exclusion is the origin or covers its host, and a name to resolve may be contacted |
| ScopeGuarantees.AddressAndNetworkDiffer | backend/app/dockguard.py:311-331 | An address and its one-address network are decided differently exactly when the address is permitted and an exclusion is a URL of it |
| ScopeGuarantees.AddressAndNetworkDoDiffer | backend/app/dockguard.py:311-347 | Two concrete rules under which they are |
| NormalizationLaws.V4HasOneText | backend/app/targets.py:189-200 | An address is read from one text only, its canonical one |
| NormalizationLaws.CanonicalReadsBack | backend/app/targets.py:81-249 | The canonical text of every target that reading can end in reads as that target |
| NormalizationLaws.NormalizedIsCanonical | backend/app/targets.py:81-249 | Reading ends only in such targets |
| NormalizationLaws.NormalizationIsIdempotent | backend/app/targets.py:81-100 | Normalizing twice changes nothing, and different targets have different texts |
| NormalizationLaws.NamesAreNotAddresses | backend/app/targets.py:219-236 | A text read as a name is no address, nor made of address components only |
| NormalizationSpellings.CaseNeverMatters | backend/app/targets.py:107-110 | For every text, the case of its letters makes no difference to what it is read as |
| NormalizationSpellings.OriginDropsRest | backend/app/targets.py:132-143 | A path, query or fragment behind an origin makes no difference |
| NormalizationLaws.RenderIsSafe | backend/app/targets.py:252-259 | Every canonical text is a safe token, so that check never fails |
| Correlation.FindingCorrelations | backend/app/correlation/runner.py:333-397 | Each correlated pair once, lower id first, or nothing exactly when there are more than the limit |
| Correlation.AssetRelationships | backend/app/correlation/runner.py:267-330 | One relation for each web asset with stored evidence at the address of a host, in order, joined to that host |
| Correlation.Perform | backend/app/correlation/runner.py:150-207 | A run is rejected exactly when an input is too large or relations, subjects and pairs together exceed the edge limit |
| Correlation.GraphIsJoined | backend/app/correlation/runner.py:428-520 | Every edge joins two listed nodes exactly when evidence-backed findings name listed assets |

## Left out

- Restore: links, database sidecars, file modes, fsync, the temporary file of the marker, locks and preflights; a rename, an unlink and a marker write are atomic and durable, each with a fate that says whether it happened, failed or crashed around.
- Restore: what makes a database and its evidence valid; it is a parameter, a predicate on the pair. Verification of the archive is a flag of it, which `BackupRestore` derives for archives as they are written.
- Restore: a crash between making the staging directory and writing the marker leaves a staging directory nobody owns; the model counts such directories and does not follow them further.
- Archives: the ZIP container, compression, entry modes, archive and directory size limits, the fixed fields of the manifest, and links swapped in while a file is read. The size of the manifest's text and the hash are parameters.
- Archives: names beyond ASCII, where Unicode normalization matters. What a file system gives is taken as given: names in one directory differ and hold no slash.
- Backups.CreateBackup: the limits on the archive file and its central directory, and the database's own integrity and references into the evidence, which can also keep a backup from being published, are not modelled; they are properties of the ZIP format and of SQL.
- SQL: characters beyond ASCII, for which folding case can change the length; `_check_clauses`, column defaults and the comparison of whole schemas.
- SQL: the sorted tuple of clauses is a multiset.
- Rate limiter: row locks that skip a busy row, and hashing of keys; a call is one transaction, calls take effect in the order in which they read the clock, and times are integers.
- Sessions: hashes, CSRF derivation and token formats; tokens are abstract, never repeat, and a proof matches when it names its token. A transaction works with the clock it read before its locks and commits at that time or later, in one step; a touch is a read, an update and a second read. Audit rows, permission lists and issuer checks are not in the state, and the two reserved local identities are not members.
- Session client: roles, permissions and the shape of the bodies beyond what decides a branch; URL checks of a request; the text of a notice sent to other pages. An expiry is an integer rather than a text, so two spellings of one time count as equal.
- Local operator: the token file, cookies and headers; fresh digests are never in the table already. Times are integers. Calls are taken in the order of their times, which the code guarantees only as far as threads take the lock in the order in which they read the clock.
- Normalization.Normalize: does not read IPv6 text or international names; such a text is `Unmodelled`. IPv6 blocks are in the scope algebra and decision.
- Scope: who resolves names; the resolver is a parameter, and its answers may be anything. The code skips exclusions for answers with an IPv6 zone, and so does the model.
- Correlation: queries, confidence texts, framework mappings and publication. Which web assets have stored evidence is a parameter.
- HTTP routing, React pages, OIDC, lab grants, findings, detection and reporting runners: short updates or calls into libraries that would add only easier members.
