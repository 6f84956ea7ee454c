# Verified model of the development-agent harness and its control plane

This Dafny project models the parts of the repository that keep state or agree on bytes, and proves what they promise each other.

- **Approval store** (`ApprovalRecord`, `ApprovalStore`, `ApprovalRuns`, `ApprovalAnswers`, `ApprovalExample`, `CivilTime`): the record map, the clock, the snapshot file written through a temporary file, an fsync, a rename and a directory fsync, and the strict loader. The disk is a value with the state file, the temporary file and the older state files a power failure may bring back; every phase may fail or end the process. Runs are lists of calls, closes, power failures, clean-ups and reopenings.
- **Approval manifest** (`Manifest`, `ManifestText`, `Json`, `Text`, `Scanner`): the canonical printer and parser, down to the characters, and the three duplicate-key scanners over a decoder's tokens.
- **Approval protocol** (`Challenge`, `ChallengeRuns`, `ApprovalDecision`): one-time challenges with a verifier outside the lock, joined to the durable store by the coordinator, under every interleaving with cancellation, expiry, power failure and restart.
- **Control plane** (`ControlTasks`, `ControlAnswers`, `ControlTables`, `ControlMigrations`, `ControlExample`): tasks as whole values, the tables that stand for them, transactions that may fail at each statement and hook, optimistic versions, migrations and recovery.
- **Capabilities and egress** (`Base64`, `Capability`, `CapabilityUses`, `EgressPolicy`, `EgressExchange`, `EgressAnswers`, `ControlWire`, `ControlRequests`): handles, use accounting, the allowlist, one exchange, and the control protocol between client and server.
- **Bounded resources** (`AcceptLoop`, `ResponseHeader`, `ResponseText`): the two accept loops with slots and draining, and the header budget.

Classes follow the source's classes: their methods are proved equal to functions on values, and the theorems are about those functions and about runs of them. The modules named for answers, uses, requests and texts say what those functions come to in the terms of a caller, without naming them. Text is one character per byte; instants are seconds since the year 0, except where the source keeps nanoseconds. A hash is an arbitrary function with results of 32 bytes, random bytes and clock readings are parameters.

Some results differ from what the code or its comments suggest:

- A store can become unreadable by its own calls. `Create`, `Get` and a transition commit without expiring the other records, and the loader refuses a pending record that is already due at the observed time (`tools/dev-agent-harness/internal/approvalstate/store.go:679`). `ApprovalRuns.CommitReopensExactly` gives the exact condition on the records before the call, and `ApprovalExample.TheStoreCanBeLost` two requests for which it fails. The other way to fail is a decision at the very instant Go uses for an unset time, which the snapshot leaves out.
- The loader's size limit sets aside 1024 bytes per record beside the manifest; a record can need 1149 (`ApprovalRecord.OverheadExactly`, `ApprovalExample.GreatestOverheadIsReached`). `ApprovalRecord.SnapshotFits` still holds, because manifests stay far enough below their own limit.
- Creating a task is the one control-plane operation that does not check its contract's schema; a task is recovered if and only if that first schema is complete (`ControlTables.RecoverExactly`, with the input of `ControlExample.NamelessSchemaIsNotRecovered`).
- A version 1 database in which one agent owns two tasks cannot be migrated (`ControlMigrations.MigrateOne`, with the input of `ControlExample.SharedOwnerIsNotMigrated`).
- A prepared REST read with a body or a content type, and a Git credential shaped like a handle, spend a use and are then refused (`EgressExchange.PreparedGoesOutExactly`, with the inputs of `EgressExchange.ReadWithBodyIsWasted` and `EgressExchange.HandleShapedCredentialIsWasted`).
- The policy's comment says that instructions must be text; null is also allowed if the name is spelled with other letter case, because only the exact spelling is looked for (`tools/dev-agent-harness/internal/egresspolicy/egresspolicy.go:376-380`, `EgressPolicy.BodyExactly`, with the bodies of `EgressPolicy.NullInstructionsAllowed`).

`dafny verify dfyconfig.toml` checks the whole project.

## Model

| member | source | states |
|---|---|---|
| ApprovalRecord.ReloadExactly | tools/dev-agent-harness/internal/approvalstate/store.go:637-697 | what a commit writes, the strict loader reads back as the same records, generation and observed time if and only if every record is reloadable at that time (not pending and due, and not decided at the zero instant); otherwise it is corrupt |
| ApprovalRecord.SnapshotDetermines | tools/dev-agent-harness/internal/approvalstate/store.go:555-568 | two good stores with the same snapshot bytes are the same records, generation and time: nothing is lost or merged on disk |
| ApprovalRecord.SnapshotFits | tools/dev-agent-harness/internal/approvalstate/store.go:244-279 | for every good store the snapshot is non-empty and within the size the loader accepts, with every escape counted at six bytes |
| ApprovalRecord.OverheadExactly | tools/dev-agent-harness/internal/approvalstate/store.go:555-568 | exactly how many bytes a good record needs beside its manifest, from its identifier, state, decision and operator; never more than 1149 |
| ApprovalExample.GreatestOverheadIsReached | tools/dev-agent-harness/internal/approvalstate/store.go:244-279 | for every hash a good record needs exactly 1149 bytes beside its manifest: the bound is the greatest, and more than the 1024 the size limit sets aside |
| ApprovalRecord.LoadLoop | tools/dev-agent-harness/internal/approvalstate/store.go:637-675 | the loader's loop over the wire records gives the loaded map, or nothing as soon as one record is out of order, repeated, over-long or invalid |
| ApprovalRecord.LoadOfToWire | tools/dev-agent-harness/internal/approvalstate/store.go:677-697 | one good record goes through its wire form and back unchanged exactly when it is reloadable at the observed time |
| ApprovalRecord.DecodeSnapshotValue | tools/dev-agent-harness/internal/approvalstate/store.go:637-660 | the snapshot document decodes to the wire value it was encoded from, field for field |
| Text.SortedListIsUnique | tools/dev-agent-harness/internal/approvalstate/store.go:758-765 | the sorted list of identifiers is determined by the set, so map iteration order cannot show in a snapshot |
| ApprovalStore.PersistIsAtomic | tools/dev-agent-harness/internal/approvalstate/store.go:579-619 | whatever phase of a persist fails or ends the process, and whatever a power failure then leaves, the state file is complete: one it could have been before, or the new one; the new one after success; an old one after a plain failure |
| ApprovalAnswers.PersistEnds | tools/dev-agent-harness/internal/approvalstate/store.go:579-619 | which faults end a persist how: it is done only without any, only a failure of the rename or of the directory sync after it poisons the store, and a temporary file left over stops it |
| ApprovalStore.Store.PersistSnapshot | tools/dev-agent-harness/internal/approvalstate/store.go:579-619 | the phases in order on the disk: the resulting state and temporary files, the outcome, and that only a failure from the rename on poisons the store |
| ApprovalStore.Store.CommitNext | tools/dev-agent-harness/internal/approvalstate/store.go:555-577 | memory takes the new records, generation and time only after the snapshot is durable; a commit at the last generation is refused |
| ApprovalStore.Store.TrustedNow | tools/dev-agent-harness/internal/approvalstate/store.go:524-535 | the clock is believed exactly for years 1 to 9999 and never backwards; the last reading moves only then |
| ApprovalStore.Store.CreateRecord | tools/dev-agent-harness/internal/approvalstate/store.go:282-318 | the whole new memory and disk, and the answer, for every manifest, clock and fault |
| ApprovalStore.Store.GetRecord | tools/dev-agent-harness/internal/approvalstate/store.go:321-351 | the whole new memory and disk, and the answer; a due record is expired and committed before it is returned |
| ApprovalStore.Store.TransitionRecord | tools/dev-agent-harness/internal/approvalstate/store.go:354-423 | approve, deny, cancel and mark-stale: actor and clock checks first, then the whole new memory and disk and the answer |
| ApprovalStore.Store.Move | tools/dev-agent-harness/internal/approvalstate/store.go:373-423 | a due record is expired and the transition refused; otherwise digest and state are checked before anything is written |
| ApprovalStore.Store.ExpiredRecords | tools/dev-agent-harness/internal/approvalstate/store.go:720-734 | the loop over a copy of the map expires exactly the due records, keeps all others, and counts them |
| ApprovalStore.Store.ExpireAll | tools/dev-agent-harness/internal/approvalstate/store.go:426-447 | one commit for all due records, none when nothing is due, and the count it reports |
| ApprovalStore.Store.Snapshot | tools/dev-agent-harness/internal/approvalstate/store.go:450-474 | expires first, then lists the records held; the whole new memory and disk, and the answer |
| ApprovalStore.Store.Close | tools/dev-agent-harness/internal/approvalstate/store.go:477-512 | the store is closed whatever of the lock, the root and the directory cannot be released; that is reported once, and a second close does nothing |
| ApprovalAnswers.CreateAnswers | tools/dev-agent-harness/internal/approvalstate/store.go:282-318 | a successful Create, under any fault, answers with the pending record of just that manifest and has committed it beside all others, unchanged; without faults it succeeds if and only if the manifest is canonical, for these rules, open now and not for too long, its identifier fresh and room for it |
| ApprovalAnswers.GetAnswers | tools/dev-agent-harness/internal/approvalstate/store.go:321-351 | Get answers with the very record held and changes nothing but the clock; or, if it is overdue, with that record expired now, and has committed just that |
| ApprovalAnswers.TransitionAnswers | tools/dev-agent-harness/internal/approvalstate/store.go:354-423 | a successful transition answers with the record held, in the state asked for, decided now, and by that operator if it was approved or denied, and has committed just that; one that comes too late has committed the expiry; any other failure keeps the snapshot in memory; and it succeeds without faults exactly when it may |
| ApprovalAnswers.ExpireAnswers | tools/dev-agent-harness/internal/approvalstate/store.go:426-447 | ExpireDue answers with the number of overdue records and has expired exactly those |
| ApprovalAnswers.SnapshotAnswers | tools/dev-agent-harness/internal/approvalstate/store.go:450-474 | a snapshot lists each record of the resulting memory once, as it is there and no other, in strictly increasing order of identifiers, under that memory's generation and time; and it is refused exactly when nothing could be expired |
| ApprovalStore.CreatePlanIsGood | tools/dev-agent-harness/internal/approvalstate/store.go:282-318 | a created record satisfies everything the loader will demand of it, the others are untouched, and the limit on records holds |
| ApprovalStore.GetPlanIsGood | tools/dev-agent-harness/internal/approvalstate/store.go:321-351 | an expiry met by a read keeps every record good and makes one allowed move |
| ApprovalStore.TransitionPlanIsGood | tools/dev-agent-harness/internal/approvalstate/store.go:373-423 | every transition that writes keeps every record good and makes one allowed move of one record |
| ApprovalStore.ExpirePlanIsGood | tools/dev-agent-harness/internal/approvalstate/store.go:720-734 | expiring all due records keeps every record good and moves each by one allowed move |
| ApprovalRuns.StepKeeps | tools/dev-agent-harness/internal/approvalstate/store.go:514-619 | any call with any fault, close, power failure, clean-up or reopening keeps usable memory equal to the durable state file, and every state file that could still come back a complete good snapshot of one chain |
| ApprovalRuns.RunKeeps | tools/dev-agent-harness/internal/approvalstate/store.go:514-619 | the same over every run, and the oldest state that could come back only ever moves on |
| ApprovalRuns.EmptyIsKept | tools/dev-agent-harness/internal/approvalstate/store.go:244-279 | an empty directory is such a start |
| ApprovalRuns.OpenExactly | tools/dev-agent-harness/internal/approvalstate/store.go:174-279 | opening brings back exactly the stored snapshot if no temporary file is left and every record is reloadable, and reports corruption otherwise |
| ApprovalRuns.UnusableStaysUnused | tools/dev-agent-harness/internal/approvalstate/store.go:514-522 | a closed or poisoned store changes neither records nor disk and answers every call with its error, over every run of calls and closes |
| ApprovalRuns.AcknowledgedIsDurable | tools/dev-agent-harness/internal/approvalstate/store.go:555-577 | after a successful writing call the new snapshot is the only state a power failure can leave |
| ApprovalRuns.TransitionSucceedsExactly | tools/dev-agent-harness/internal/approvalstate/store.go:373-423 | without faults a transition succeeds if and only if the store is usable, the clock trusted, there is room for a generation and no temporary file, the digest is right, the move allowed, the actor well formed and the expiry not reached |
| ApprovalRuns.DecisionSurvives | tools/dev-agent-harness/internal/approvalstate/store.go:373-423 | the record a transition returned is held, as it is or in its allowed later life, by every state that could come back after any later run |
| ApprovalRuns.CommitReopensExactly | tools/dev-agent-harness/internal/approvalstate/store.go:426-474 | after any successful writing call, reopening gives back exactly the committed memory if and only if a check on the records before the call held: no record the call leaves alone is pending and due, and the time is not the zero instant |
| ApprovalRuns.ExpiryLeavesNothingDue | tools/dev-agent-harness/internal/approvalstate/store.go:426-474 | after ExpireDue or Snapshot no record is due at the time they read, so what they commit reopens unless a decision carries the zero instant |
| ApprovalRuns.ExpireDueIsGetOfEach | tools/dev-agent-harness/internal/approvalstate/store.go:321-351 | one pass of ExpireDue leaves the same memory as Get of every identifier, in any order and any number of times, at that instant, except for the generation, which counts the commits |
| ApprovalRuns.RecordsOnlyMoveOn | tools/dev-agent-harness/internal/approvalstate/store.go:393-416 | over every run each record moves only from pending to a decision or expiry and from approved to stale or expired; request, digest and times never change; people decide before its expiry, and it expires at or after it |
| ApprovalExample.CreateSucceeds | tools/dev-agent-harness/internal/approvalstate/store.go:282-318 | every valid proposal that fits the rules and the clock is created, pending, under a fresh identifier |
| ApprovalExample.SecondCreateLosesTheStore | tools/dev-agent-harness/internal/approvalstate/store.go:677-681 | creating a second request once the first is due succeeds twice and leaves a state file that can never be opened |
| ApprovalExample.TheStoreCanBeLost | tools/dev-agent-harness/internal/approvalstate/store.go:677-681 | two concrete requests of which this is true, so the condition of the reload theorem cannot be dropped |
| CivilTime.ParseFormatTime | tools/dev-agent-harness/internal/approvalstate/store.go:699-704 | every instant of a four-digit year is spelled in twenty characters and read back as itself |
| CivilTime.FormatParseTime | tools/dev-agent-harness/internal/approvalstate/store.go:701-704 | whatever text is accepted is the canonical spelling of its instant |
| CivilTime.ToFromCivil | tools/dev-agent-harness/internal/approvalstate/store.go:699-704 | every valid date and clock time is recovered from its second count |
| CivilTime.GregorianDays | tools/dev-agent-harness/internal/approvalstate/store.go:699-704 | the days counted year by year are those of the closed Gregorian leap-year rule |
| CivilTime.ZeroTimeHasAYear | tools/dev-agent-harness/internal/approvalstate/store.go:524-535 | the instant that stands for "unset" is midnight of the first of January of year 1 |
| CivilTime.FourDigitsExactly | tools/dev-agent-harness/internal/approvalstate/store.go:524-535 | the instants with a four-digit year are exactly those of 3,652,425 days |
| Json.DecodeOfEncode | tools/dev-agent-harness/internal/approvalmanifest/manifest.go:255-302 | every well-formed JSON value, whatever its strings, is decoded from its compact encoding as itself |
| Manifest.FaultlessMeansValid | tools/dev-agent-harness/internal/approvalmanifest/manifest.go:394-449 | the ordered checks report nothing exactly for the valid proposals: distinct well-formed refs and transitions, scalar fields, matching remote, times in order |
| Manifest.CheckRefUpdates | tools/dev-agent-harness/internal/approvalmanifest/manifest.go:412-440 | the loop with its seen set stops at the first bad or repeated ref and names its fault |
| Manifest.ValidateProposal | tools/dev-agent-harness/internal/approvalmanifest/manifest.go:394-449 | the first failing check in the source's order is the one reported, with field and index |
| Manifest.BuildNeverFails | tools/dev-agent-harness/internal/approvalmanifest/manifest.go:255-302 | every valid proposal is built, with its digest and encoding, and the encoding is well below the size limit: the size check never refuses |
| Manifest.ParseOfBuild | tools/dev-agent-harness/internal/approvalmanifest/manifest.go:202-253 | what Build emits, Parse reads back as the very same manifest |
| Manifest.ParseAcceptsExactly | tools/dev-agent-harness/internal/approvalmanifest/manifest.go:210-253 | Parse accepts exactly the byte strings that Build emits for some valid proposal, and returns what was built |
| Manifest.PayloadIsUnambiguous | tools/dev-agent-harness/internal/approvalmanifest/manifest.go:341-365 | distinct valid proposals, whatever their lists of refs, have distinct payload bytes, so the digested text names one proposal |
| ManifestText.PayloadSpelled | tools/dev-agent-harness/internal/approvalmanifest/manifest.go:341-365 | the digested text of every valid proposal is one object of eleven members in this order and spelling |
| ManifestText.BuiltExactly | tools/dev-agent-harness/internal/approvalmanifest/manifest.go:255-302 | what Build returns for a valid proposal: the proposal itself, the hexadecimal digest of its spelled-out payload under the manifest's own domain, and that text with the digest as a twelfth member |
| ManifestText.TransitionExactly | tools/dev-agent-harness/internal/approvalmanifest/manifest.go:530-561 | a ref update passes its check if and only if it is a creation, a deletion marked as one, or a move between different objects, and only a move is forced |
| Scanner.ScannerAcceptsExactly | tools/dev-agent-harness/internal/approvalmanifest/manifest.go:652-699 | a token list is accepted if and only if it is the flattening of one JSON value with no repeated key in any object at any depth |
| Scanner.ScanJSONValue | tools/dev-agent-harness/internal/approvalmanifest/manifest.go:652-699 | the recursive cursor scan consumes exactly that value, tells a repeated key from a syntax error, and ends |
| Scanner.ScanObjectContents | tools/dev-agent-harness/internal/egresspolicy/egresspolicy.go:401-419 | the second copy consumes exactly one object's members |
| Scanner.PolicyScanValue | tools/dev-agent-harness/internal/egresspolicy/egresspolicy.go:421-445 | the second copy accepts and consumes what the first does |
| Scanner.ScanSingleJSONObject | tools/dev-agent-harness/internal/egresspolicy/egresspolicy.go:386-399 | accepts exactly the flattenings of one object with no repeated key at any depth, and nothing after it |
| Scanner.ConfigScanValue | tools/dev-agent-harness/internal/config/config.go:177-219 | the third copy consumes exactly what its specification does and tells a repeated key from a syntax error |
| Scanner.ScannersAgree | tools/dev-agent-harness/internal/config/config.go:177-219 | on every token list a decoder can yield the third copy answers like the others; a mismatched bracket, which none yields, tells them apart |
| Challenge.ChallengeManager.TrustedNow | tools/dev-agent-harness/internal/approvalchallenge/challenge.go:328-335 | the clock is believed exactly when set, within years 1 to 9999 and not behind |
| Challenge.ChallengeManager.PurgeDue | tools/dev-agent-harness/internal/approvalchallenge/challenge.go:337-348 | the loop removes exactly the due challenges and says whether the wanted one was among them |
| Challenge.ChallengeManager.IssueChallenge | tools/dev-agent-harness/internal/approvalchallenge/challenge.go:203-249 | the whole new state and the answer, over the retries for a fresh challenge and every failure of the random source; a challenge is for just that request, from the second of the reading on and for the configured lifetime |
| Challenge.ChallengeManager.ReserveChallenge | tools/dev-agent-harness/internal/approvalchallenge/challenge.go:255-277 | the first locked section: due before missing before taken, and the challenge is gone once taken |
| Challenge.ChallengeManager.FinishChallenge | tools/dev-agent-harness/internal/approvalchallenge/challenge.go:290-309 | the second locked section: nothing after a close or an untrusted clock; otherwise the binding's own request |
| Challenge.ChallengeManager.CloseManager | tools/dev-agent-harness/internal/approvalchallenge/challenge.go:314-326 | closing drops every pending challenge, once |
| Challenge.IssuedExactly | tools/dev-agent-harness/internal/approvalchallenge/challenge.go:203-249 | a challenge is issued if and only if the request is well formed, the manager open, the clock readable, fewer challenges open than allowed and one of four draws fresh; it is that draw's, bound to just that request, and expires the configured lifetime after the second of the reading |
| Challenge.RequestExactly | tools/dev-agent-harness/internal/approvalchallenge/challenge.go:375-436 | a request is well formed if and only if its identifiers are short visible words, its digest is one, its decision one of the two, its relying party a domain name of lower-case labels that is no address, and its origin that domain's own |
| Challenge.TakenExactly | tools/dev-agent-harness/internal/approvalchallenge/challenge.go:255-277 | a challenge is taken if and only if it is pending and not expired, and is gone then; one met after its expiry is reported as expired, and everything expired is gone |
| Challenge.FinishedExactly | tools/dev-agent-harness/internal/approvalchallenge/challenge.go:290-309 | a proof is reported if and only if the manager is still open and the clock readable, with the bound request, the credential and the second of the reading |
| ChallengeRuns.ReservedExactly | tools/dev-agent-harness/internal/approvalchallenge/challenge.go:255-277 | a pending challenge is reserved at any readable time within the configured lifetime from when it was issued and only then, and nothing that is not pending is |
| ChallengeRuns.StepsAreTheManagers | tools/dev-agent-harness/internal/approvalchallenge/challenge.go:203-326 | the step system moves the manager exactly as its methods do |
| ChallengeRuns.StepKeeps | tools/dev-agent-harness/internal/approvalchallenge/challenge.go:203-347 | every step of every interleaving, a verifier that calls back included, keeps each issuance in exactly one place, its lifetime the configured one, its verifier run at most once, at most one result for it with the bound request, and the limit on pending challenges |
| ChallengeRuns.RunKeeps | tools/dev-agent-harness/internal/approvalchallenge/challenge.go:203-347 | the same over every run |
| ChallengeRuns.RunIsHistory | tools/dev-agent-harness/internal/approvalchallenge/challenge.go:255-326 | over every run issuances are never forgotten and fates only move forward, and after a close nothing is issued or returned, also for consumers then in flight |
| ChallengeRuns.Conservation | tools/dev-agent-harness/internal/approvalchallenge/challenge.go:255-347 | the number issued is the number pending, in flight, finished, purged and discarded |
| ApprovalDecision.Coordinator.BeginDecision | tools/dev-agent-harness/internal/approvaldecision/coordinator.go:164-195 | both new states whole; a challenge is issued for the pending record then held under that identifier, with its digest and the decision, operator and names given, and for the configured lifetime; without faults if and only if that record is pending and not overdue, the request well formed and the manager able to issue |
| ApprovalDecision.Coordinator.Complete | tools/dev-agent-harness/internal/approvaldecision/coordinator.go:200-228 | both new states whole; a result repeats the request the challenge was bound to, with the credential that was proved; without faults it is returned if and only if the challenge can be proved and the record still decided |
| ApprovalDecision.CompletedExactly | tools/dev-agent-harness/internal/approvaldecision/coordinator.go:200-228 | Complete succeeds without faults if and only if the challenge is pending and open, assertion and credential have their lengths, both readings are readable, and the record is pending, not overdue and the very one asked for; the result repeats identifier, digest, operator and decision of the request |
| ApprovalDecision.CredentialExactly | tools/dev-agent-harness/internal/approvalchallenge/challenge.go:364-369 | a credential is known by the hexadecimal digest of its bytes under the credentials' own domain |
| ApprovalDecision.DecidedOnce | tools/dev-agent-harness/internal/approvaldecision/coordinator.go:200-228 | a request whose decision is on disk can never be decided again, by any verified challenge |
| ApprovalDecision.DecisionIsLast | tools/dev-agent-harness/internal/approvaldecision/coordinator.go:216-228 | when a decision is returned it is already in the only state the disk can go back to |
| ApprovalDecision.StepKeeps | tools/dev-agent-harness/internal/approvaldecision/coordinator.go:164-259 | every interleaved step of callers, store, clock, power failure and restart keeps the store, the challenges and the log of results together |
| ApprovalDecision.RunKeeps | tools/dev-agent-harness/internal/approvaldecision/coordinator.go:164-259 | the same over every run: each returned decision is held by every state the disk could go back to |
| ApprovalDecision.AtMostOneResult | tools/dev-agent-harness/internal/approvaldecision/coordinator.go:164-259 | from an empty disk, under any run, at most one result is returned for a request, and it carries the request, digest, decision and operator its challenge was issued with |
| ApprovalDecision.ResultsAreAsked | tools/dev-agent-harness/internal/approvaldecision/coordinator.go:164-259 | over every run from an empty disk each result ever returned repeats a request that some Begin was given, for the record then pending under that identifier with that digest, or that someone issued directly; its challenge was taken within its lifetime, and its credential is the one the verifier returned to that same consumer |
| ControlTasks.AllowedMeansNext | core/internal/control/lifecycle.go:22-28 | the table allows a transition exactly when one of the life-cycle events leads from the one state to the other, and names that event |
| ControlTasks.PerformKeeps | core/internal/control/versioned.go:59-146 | whatever the request and wherever it fails, replaying a task's events yields its state, versions count their events, schemas are present, watermarks never go back nor pass an event that did not yet exist, the owner is active exactly while the task can move, and no agent owns two active tasks |
| ControlTasks.OwnersAfter | core/internal/control/store.go:193-233 | a task keeps its owner, becomes active only by being created, and only for an agent without an active task |
| ControlTasks.PerformExtends | core/internal/control/versioned.go:59-146 | histories and events only grow at their end |
| ControlTasks.RunKeeps | core/internal/control/versioned.go:59-146 | under every interleaving of transactions all of this holds, and every earlier committed state is a prefix of every later one |
| ControlTasks.OvertakenNeverSucceeds | core/internal/control/versioned.go:162-192 | once a version has been passed, no later attempt at it succeeds, in any interleaving |
| ControlTasks.AtMostOneWinner | core/internal/control/versioned.go:68-145 | of all transactions that ask for the same update of the same version of a task at most one succeeds, in any interleaving |
| ControlTasks.RetryLeavesNoGap | core/internal/control/versioned.go:59-146 | a failed transaction changes nothing, and its retry gets the version and the event number the first try would have had |
| ControlAnswers.CreatedExactly | core/internal/control/store.go:193-233 | a task is created if and only if its identifier is free and its agent holds no active task; it is ready, owned by that agent, with that workspace and contract, the initial progress and the two events of a creation |
| ControlAnswers.MovedExactly | core/internal/control/lifecycle.go:65-128 | a task moves if and only if it is in the expected state and a life-cycle event leads from it to the target and the payload has what that event requires; it gains just that event with just that payload and is released when it ends; the three refusals are told apart |
| ControlAnswers.ContractExactly | core/internal/control/versioned.go:59-100 | a contract is recorded if and only if it is the next version of the one expected, names its schema and is an object; the task gains just that contract and an event whose payload decodes to that version and schema |
| ControlAnswers.ProgressExactly | core/internal/control/versioned.go:102-146 | progress is recorded if and only if it is the next version of the one expected, names its schema, is an object, and neither watermark goes back nor the first past the events there are; the task gains just that progress and an event whose payload decodes to version, schema and both watermarks |
| ControlAnswers.FaultsExactly | core/internal/control/versioned.go:59-146 | an operation succeeds under a fault exactly if it would without and never goes through the failing statement, and then does the same |
| ControlAnswers.FaultsReported | core/internal/control/store.go:235-244 | a fault that is met is reported as a conflict if a write or the commit found the database locked, and as a failure of storage otherwise |
| ControlTables.ControlStore.CreateTask | core/internal/control/store.go:193-233 | the eight inserts in their order, each of which may fail or break a key: the inserted rows stand for the new task, the read-back model is that task, and a failure at any of them, in the hook, reading back or committing leaves the tables as they were |
| ControlTables.CreatedIs | core/internal/control/store.go:193-233 | the rows a creation writes, table by table: ready, owned and not released, with the given workspace and contract as version 1, the initial progress as version 0, and the two events of a creation |
| ControlTables.ControlStore.TransitionTask | core/internal/control/lifecycle.go:65-128 | the state row, one event row with the given payload, and the release on completion or cancellation are written, and every other row stays; the read-back model is the moved task; on any failure every row stays |
| ControlTables.ControlStore.UpdateContract | core/internal/control/versioned.go:59-100 | the given contract becomes the current row and the history row of that version, one event is added under the next number, and every other row stays; or, on any failure, every row stays |
| ControlTables.ControlStore.UpdateProgress | core/internal/control/versioned.go:102-146 | the same for the given progress, with both watermark checks and the check against existing events |
| ControlTables.ControlStore.ReadRows | core/internal/control/recovery.go:62-104 | the rows of one task, in the order of their numbers |
| ControlTables.ControlStore.ReadRecoveredTask | core/internal/control/recovery.go:33-106 | for any reachable store: the whole task as it is, if and only if its first contract names its schema completely; otherwise it is missing or corrupt |
| ControlTables.ValidateRecovered | core/internal/control/recovery.go:108-131 | the loops accept exactly dense histories with complete schemas, a current row equal to the last of each, and dense events |
| ControlTables.RecoverExactly | core/internal/control/recovery.go:108-135 | every task any run can produce is recovered as it is if and only if the contract it was created with names its schema completely; creating a task is the one operation that does not check that |
| ControlExample.NamelessSchemaIsNotRecovered | core/internal/control/recovery.go:108-135 | a task created with a contract that names no schema is accepted, and its recovery reports corruption: the condition cannot be dropped |
| ControlTables.ReadsAreTheTask | core/internal/control/recovery.go:49-106 | each read model of tables that stand for tasks is the task |
| ControlTables.HeldUntilTerminal | core/internal/control/lifecycle.go:105-118 | a task that can still move has an unreleased owner, so the "one released owner" conflict cannot arise |
| ControlMigrations.ControlFile.Migrate | core/internal/control/store.go:149-191 | whatever versions are recorded and whatever is stored: the file is fully upgraded and marked version 3, or exactly as it was; if it was marked as what it holds it is migrated unless a statement fails or the migration itself is impossible |
| ControlMigrations.MigrateOne | core/internal/control/store.go:149-191 | a version 1 database can be migrated if and only if no agent owns two tasks, and then becomes kept tasks, ready and owned |
| ControlMigrations.MigratedSays | core/internal/control/store.go:149-191 | each task of a version 1 database is ready afterwards, with the owner, workspace and contract it had, the initial progress and its two events |
| ControlExample.SharedOwnerIsNotMigrated | core/internal/control/store.go:149-191 | two tasks of one agent, as version 1 could write them, cannot be migrated |
| ControlMigrations.AddVersionsRepresents | core/internal/control/store.go:149-191 | a version 2 database stands for the very same tasks afterwards |
| ControlMigrations.MigratedRunsRecover | core/internal/control/recovery.go:108-131 | a migrated database is exactly the tables of its tasks, and from there, under every interleaving of transactions that fail where they may, every task stays kept and extends what was migrated, and is recovered as it is if and only if its first contract names its schema completely |
| Base64.DecodeOfEncode | tools/dev-agent-harness/internal/capability/capability.go:381-391 | bytes of any number are recovered from their encoding, padded and standard or unpadded and URL-safe |
| Base64.HandlesExactly | tools/dev-agent-harness/internal/connectsession/session.go:532-538 | the check accepts exactly the handles of the 32-byte strings |
| Base64.HandlesAreDistinct | tools/dev-agent-harness/internal/controlclient/client.go:313-319 | different bytes have different handles |
| Base64.ChecksAgree | tools/dev-agent-harness/internal/upstreamforwarder/upstreamforwarder.go:225-231 | the copies that test the prefix and those that slice it accept the same texts |
| Base64.DecoderIsLenient | tools/dev-agent-harness/internal/egresstransaction/egresstransaction.go:227-233 | the decoder alone takes many spellings of one byte, whatever the bits left over, and skips newlines; the re-encoding comparison is what makes handles unique |
| Base64.Examples | tools/dev-agent-harness/internal/capability/capability.go:381-391 | examples of RFC 4648, section 10, and the two digits in which the two alphabets differ |
| Capability.CapabilityRegistry.IssueHandle | tools/dev-agent-harness/internal/capability/capability.go:190-230 | the whole new registry and handle over the retries, with any calls of others served while the lock is free before each try; the entry under the handle is as specified: its uses, its lifetime from the reading on, and the destination of its provider and operation |
| Capability.IssuedExactly | tools/dev-agent-harness/internal/capability/capability.go:190-230 | a handle is issued if and only if subject, lifetime, uses, provider, repository and operation are within their bounds and one of five draws is fresh; it is that draw's, and the registry gains just its entry: as many uses as asked, from this reading for as long as asked on both clocks, for the subject, provider and repository given, and the one host of the operation |
| Capability.IssuedAmong | tools/dev-agent-harness/internal/capability/capability.go:190-230 | the same among the calls of others: the entry is in the registry they left, in its epoch |
| Capability.IssueIsARun | tools/dev-agent-harness/internal/capability/capability.go:190-230 | issuing among the calls of others is a run of them with at most one issuance at its end, so what every run keeps holds whenever others are served |
| Capability.CapabilityRegistry.ConsumeHandle | tools/dev-agent-harness/internal/capability/capability.go:234-279 | the whole new registry and grant: dead entries dropped, wrong scope or an early clock refused without spending |
| Capability.CapabilityRegistry.RevokeHandle | tools/dev-agent-harness/internal/capability/capability.go:282-297 | removes exactly the named entry |
| Capability.CapabilityRegistry.RevokeHandleForSubject | tools/dev-agent-harness/internal/capability/capability.go:302-327 | dead entries are dropped and refused, another subject's entry is left alone |
| Capability.CapabilityRegistry.AdvanceRevocationEpoch | tools/dev-agent-harness/internal/capability/capability.go:331-343 | only forward, and then every entry is gone |
| Capability.GrantedExactly | tools/dev-agent-harness/internal/capability/capability.go:234-279 | a live issuance is granted if and only if its own handle is presented for its own scope within its own time on both clocks, and the grant leaves the issued uses less those granted, less one |
| Capability.StepKeeps | tools/dev-agent-harness/internal/capability/capability.go:190-343 | grants and remaining uses of each live issuance add up to the uses issued, grants count down one by one to zero, and each fits the scope, deadline and expiry of its issuance |
| Capability.RunKeeps | tools/dev-agent-harness/internal/capability/capability.go:190-343 | the same over every run |
| Capability.GoneForEver | tools/dev-agent-harness/internal/capability/capability.go:234-343 | once an issuance is gone no later event of any run grants it again |
| Capability.WhatEnds | tools/dev-agent-harness/internal/capability/capability.go:234-343 | revocation of either kind, meeting the deadline, the last use and any new epoch make an issuance gone |
| Capability.EndedIsNeverGranted | tools/dev-agent-harness/internal/capability/capability.go:234-343 | over every run from a fresh registry, an issuance that was revoked, spent, met after its deadline or overtaken by a new epoch is never granted again, and every grant ever made fits its issuance |
| CapabilityUses.ExactlyTheFirstUses | tools/dev-agent-harness/internal/capability/capability.go:190-279 | of a new capability exactly the first uses are granted, as many as were asked for, that come in its scope and time, whatever else happens in between, over every run that does not end it otherwise |
| CapabilityUses.UsableUses | tools/dev-agent-harness/internal/capability/capability.go:234-279 | the same from any reachable state for the uses it has left |
| CapabilityUses.ConsumedExactly | tools/dev-agent-harness/internal/capability/capability.go:234-279 | of any registry whatever: a consume is granted if and only if the handle is canonical and its entry of the present epoch and policy, in its time, with uses left and for its own scope; it then has one use fewer or is gone with the last; an entry that can never be used again is dropped when met, and any other stays |
| CapabilityUses.RevokedExactly | tools/dev-agent-harness/internal/capability/capability.go:282-297 | a revocation succeeds exactly for the canonical handle of an entry, and removes that entry alone |
| CapabilityUses.RevokedMineExactly | tools/dev-agent-harness/internal/capability/capability.go:302-327 | a subject's revocation succeeds exactly for its own entry of the present epoch and policy, in its time; nothing but that entry is ever touched, and only one that can no longer be used is dropped on refusal |
| EgressPolicy.NewPolicy | tools/dev-agent-harness/internal/egresspolicy/egresspolicy.go:91-125 | a policy exists exactly for non-empty lists of valid, unrepeated names and positive limits, and holds exactly those names |
| EgressPolicy.AuthorizersAreExclusive | tools/dev-agent-harness/internal/egresspolicy/egresspolicy.go:136-152 | no request is allowed by two providers, so the order in which they are asked does not matter |
| EgressAnswers.EvaluatedExactly | tools/dev-agent-harness/internal/egresspolicy/egresspolicy.go:136-229 | the policy allows a request as a target if and only if it is of one of the three kinds: a read at or below a listed repository, one of the two fetch requests, or a strict body posted to the one address |
| EgressPolicy.AddressExactly | tools/dev-agent-harness/internal/egresspolicy/egresspolicy.go:234-269 | an accepted address is spelled exactly as its host, path and query, with or without the port: no two readings of one address |
| EgressPolicy.RestExactly | tools/dev-agent-harness/internal/egresspolicy/egresspolicy.go:187-215 | a REST read is allowed for a repository if and only if the repository is listed and the address is that of the repository or of a clean path below it |
| EgressPolicy.GitExactly | tools/dev-agent-harness/internal/egresspolicy/egresspolicy.go:154-185 | a Git read is allowed for a repository if and only if the repository is listed and the request is one of the two fetch requests at its two addresses |
| EgressPolicy.OpenAIExactly | tools/dev-agent-harness/internal/egresspolicy/egresspolicy.go:217-229 | an OpenAI request is allowed if and only if it posts a strict body within the limit to the one address |
| EgressPolicy.BodyExactly | tools/dev-agent-harness/internal/egresspolicy/egresspolicy.go:356-382 | an object whose names differ by more than letter case, in any order, is a strict body if and only if it has the five required members, whatever their letter case: a listed model, some input, storing and streaming off, and tokens within the limit; perhaps instructions; and nothing else |
| EgressPolicy.NullInstructionsAllowed | tools/dev-agent-harness/internal/egresspolicy/egresspolicy.go:376-382 | two bodies that differ in the letter case of one name: with null under the exact name of the instructions the body is refused, under another spelling it is allowed |
| EgressExchange.CaptureSink.Deliver | tools/dev-agent-harness/internal/brokerexchange/brokerexchange.go:130-140 | of all responses ever offered the first is kept, and each later one refused |
| EgressExchange.CaptureSink.Snapshot | tools/dev-agent-harness/internal/brokerexchange/brokerexchange.go:142-149 | after any number of deliveries it returns the first response ever offered, and nothing only if none was: what the exchange returns is what its one successful delivery took |
| EgressExchange.Broker.Forward | tools/dev-agent-harness/internal/upstreamforwarder/upstreamforwarder.go:102-193 | a round trip happens exactly for a request that is re-evaluated to its own scope with a fitting credential and no body on a REST read; a response is offered to the sink exactly if it passes every check, and success is reported only if the sink took it |
| EgressExchange.Broker.Do | tools/dev-agent-harness/internal/brokerexchange/brokerexchange.go:89-121 | the registry, the effects in their order, and the response of one exchange, for every request, credential and answer of the upstream |
| EgressExchange.ReturnsExactly | tools/dev-agent-harness/internal/brokerexchange/brokerexchange.go:89-121 | an exchange returns a response if and only if the policy allows the request, a live capability of the same scope is presented in its own time, the credential is valid, a REST read has neither body nor content type, a Git credential is not shaped like a handle, and the upstream's answer passes every check; it is that answer |
| EgressExchange.SpendsAtMostOneUse | tools/dev-agent-harness/internal/egresstransaction/egresstransaction.go:116-156 | an exchange adds exactly one grant to the registry's history if it consumed, and none otherwise |
| EgressExchange.PreparedGoesOutExactly | tools/dev-agent-harness/internal/upstreamforwarder/upstreamforwarder.go:102-150 | a prepared request reaches the round trip if and only if a REST read has neither body nor content type and a Git credential is not shaped like a handle |
| EgressAnswers.SentExactly | tools/dev-agent-harness/internal/upstreamforwarder/upstreamforwarder.go:102-150 | an exchange sends exactly one request, or none: the request as it came, to its own target, with the resolved credential in the scheme of the operation; and it does so if and only if the capability is granted, the credential valid, and both fit the operation |
| EgressAnswers.AcceptedExactly | tools/dev-agent-harness/internal/upstreamforwarder/upstreamforwarder.go:162-193 | an answer is passed on, status and body as they came, if and only if its status is a success, its body within the limit and empty where it must be, and its content the one the request calls for |
| EgressExchange.ReadWithBodyIsWasted | tools/dev-agent-harness/internal/upstreamforwarder/upstreamforwarder.go:109-117 | a REST read with a body is allowed by the policy, and with any valid credential never goes out |
| EgressExchange.HandleShapedCredentialIsWasted | tools/dev-agent-harness/internal/upstreamforwarder/upstreamforwarder.go:202-223 | a fetch with a valid credential that is shaped like a handle is allowed, and never goes out |
| EgressExchange.GitBasicPasses | tools/dev-agent-harness/internal/upstreamforwarder/upstreamforwarder.go:202-223 | the Basic value the transaction encodes passes the forwarder if and only if the credential is not shaped like a handle |
| EgressExchange.SpelledHandleIsExtracted | tools/dev-agent-harness/internal/egresstransaction/egresstransaction.go:165-225 | every canonical handle is extracted from the spelling of its operation |
| EgressAnswers.ExtractedExactly | tools/dev-agent-harness/internal/egresstransaction/egresstransaction.go:165-225 | a capability is taken from a header exactly in the spellings of its operation: one Basic value for Git, one of the provider's schemes otherwise; and from nothing else |
| ControlWire.ReadInitialHeader | tools/dev-agent-harness/internal/connectsession/session.go:319-338 | the bytes up to and including the first empty line, not one more, within the limit |
| ControlWire.ReadAllFields | tools/dev-agent-harness/internal/connectsession/session.go:369-431 | the field loop: each required field once, canonical length, nothing forbidden |
| ControlWire.CollectLoop | tools/dev-agent-harness/internal/connectsession/session.go:480-530 | the member loop: known names once, non-empty text |
| ControlWire.IssueHeaderParsed | tools/dev-agent-harness/internal/connectsession/session.go:369-431 | the client's header for a body of n bytes is accepted as an issue request of n bytes if and only if n is within the limit |
| ControlWire.IssueRead | tools/dev-agent-harness/internal/connectsession/session.go:480-530 | the server reads the client's issue request exactly when its body is within the limit and decodes |
| ControlRequests.IssueHeaderExactly | tools/dev-agent-harness/internal/connectsession/session.go:369-431 | a header is taken for that of an issue if and only if it is the issue line and two field lines, a length within the limit and the content type, in either order and any letter case |
| ControlRequests.RevokeHeaderExactly | tools/dev-agent-harness/internal/connectsession/session.go:369-431 | and for that of a revocation if and only if it names a canonical handle and has one field line, a length of zero |
| ControlRequests.IssueReadExactly | tools/dev-agent-harness/internal/connectsession/session.go:319-338 | a stream is taken for an issue request if and only if it is such a header of at most 16 KiB followed by exactly the body it announces, and the body decodes |
| ControlRequests.BodyExactly | tools/dev-agent-harness/internal/connectsession/session.go:480-530 | a body asks for something if and only if it is one object of exactly the members that ask for it, in any order, within the limit and in UTF-8 |
| ControlRequests.RequestsSpelled | tools/dev-agent-harness/internal/controlclient/client.go:58-105 | the client's requests, spelled out |
| ControlWire.GitIssueRecovered | tools/dev-agent-harness/internal/controlclient/client.go:58-64 | for every canonical repository the server recovers exactly the client's request if its body is within 512 bytes and refuses it otherwise |
| ControlWire.RestIssueRecovered | tools/dev-agent-harness/internal/controlclient/client.go:68-74 | the same for REST requests |
| ControlWire.OpenAIIssueRecovered | tools/dev-agent-harness/internal/controlclient/client.go:78-83 | the OpenAI request is always recovered |
| ControlWire.RevokeRecovered | tools/dev-agent-harness/internal/controlclient/client.go:96-105 | for every canonical handle the server recovers exactly the client's revocation |
| ControlWire.ReplyRecovered | tools/dev-agent-harness/internal/controlclient/client.go:107-156 | the client recovers every canonical handle from the server's reply |
| ControlRequests.ReplySpelled | tools/dev-agent-harness/internal/controlclient/client.go:107-156 | the server's reply, spelled out: a fixed header and the handle |
| ControlWire.OnlyRepliesAccepted | tools/dev-agent-harness/internal/controlclient/client.go:213-225 | whatever bytes the client takes for an issue reply are the server's reply for that very handle |
| ControlWire.HeaderOfLength | tools/dev-agent-harness/internal/controlclient/client.go:268-286 | the client accepts one header and no other |
| AcceptLoop.Server.Pass | tools/dev-agent-harness/internal/brokerlistener/brokerlistener.go:159-194 | one pass from acquiring a slot to hand-off, with whatever workers and watcher do between its points: the loop's own moves and theirs make the state, and it goes on exactly if it was not cancelled and Accept returned a connection |
| AcceptLoop.StepKeeps | tools/dev-agent-harness/internal/brokerlistener/brokerlistener.go:128-236 | the slots held are the live connections plus one while the loop is between acquiring and handing off, never above the maximum, and the shutdown keeps its order |
| AcceptLoop.ServeDrains | tools/dev-agent-harness/internal/brokerlistener/brokerlistener.go:128-210 | over every run of loop, workers and watcher: never more live connections than slots, and a return only with no connection, the listener closed and the watcher gone |
| AcceptLoop.StoppingMovesOn | tools/dev-agent-harness/internal/proxybridge/bridge.go:158-232 | once the loop is left, every possible move strictly lessens what is left to do |
| AcceptLoop.StoppingIsNeverStuck | tools/dev-agent-harness/internal/proxybridge/bridge.go:158-232 | and until the return some move is possible |
| AcceptLoop.DrainCompletes | tools/dev-agent-harness/internal/proxybridge/bridge.go:158-278 | so from every stopping state a bounded list of moves returns, with the failure mark unchanged |
| AcceptLoop.FailureExactly | tools/dev-agent-harness/internal/brokerlistener/brokerlistener.go:159-210 | over every run a failure is reported if and only if Accept failed before the caller had cancelled |
| AcceptLoop.NoneTakenOn | tools/dev-agent-harness/internal/brokerlistener/brokerlistener.go:159-194 | once the run is over and the loop not in Accept, no connection is ever taken on again |
| AcceptLoop.EachHandedOff | tools/dev-agent-harness/internal/brokerlistener/brokerlistener.go:180-194 | the workers ever started are as many as the connections Accept returned |
| AcceptLoop.WorkersInOrder | tools/dev-agent-harness/internal/brokerlistener/brokerlistener.go:212-236 | a worker starts only with an accepted connection, closes it before it gives the slot back, and goes only after that |
| AcceptLoop.BridgeStreams | tools/dev-agent-harness/internal/proxybridge/bridge.go:299-326 | both workers are drained whatever fails or is cancelled when, and both ends are closed early exactly when it was cancelled before the last report or the first report was a failure |
| ResponseHeader.ConsumeBudget | tools/dev-agent-harness/internal/connectsession/session.go:764-770 | the budget is lessened by the whole cost of a field or refuses it, without running below zero |
| ResponseHeader.ConsumeValues | tools/dev-agent-harness/internal/connectsession/session.go:740-762 | the inner loop accepts exactly visible values that together fit |
| ResponseHeader.CheckHeaders | tools/dev-agent-harness/internal/connectsession/session.go:740-762 | the walk in arbitrary order accepts exactly the valid headers that fit: the answer does not depend on the order |
| ResponseHeader.BlockFits | tools/dev-agent-harness/internal/connectsession/session.go:702-738 | every flushed block, fields and blank line, is at most 16 KiB, with the three rewritten fields counted |
| ResponseText.BlockSays | tools/dev-agent-harness/internal/connectsession/session.go:702-738 | a client that reads a flushed block finds, under every name there can be, exactly the response's values in their order, with the length, the connection and the transfer encoding rewritten |
| ResponseText.CanonicalExactly | tools/dev-agent-harness/internal/connectsession/session.go:740-762 | a header name is taken if and only if it is a token in its canonical spelling, each word between hyphens capitalized |
| ResponseHeader.RefusalIsNeeded | tools/dev-agent-harness/internal/connectsession/session.go:740-770 | for headers of valid names and values, each field with a value and none of the three rewritten ones, refusal means exactly that the block would not fit |
| ResponseHeader.ResponseBuffer.WriteHeader | tools/dev-agent-harness/internal/connectsession/session.go:678-686 | the first status is kept, and one outside 100 to 999 becomes 500 |
| ResponseHeader.ResponseBuffer.Write | tools/dev-agent-harness/internal/connectsession/session.go:688-700 | all of the data or none of it, and a refusal is remembered |
| ResponseHeader.ResponseBuffer.Flush | tools/dev-agent-harness/internal/connectsession/session.go:702-738 | the exact bytes written, or nothing if a write was refused or the headers are invalid |

## Left out

- Spellings of times and letter cases of field names that Go's decoders take beyond the canonical ones: the source refuses such manifests and snapshots when it compares them with their canonical encoding, the model at once, so only the class of the error can differ. For the policy's request body, where other letter case is accepted, it is modelled for ASCII names.
- JSON nesting depth limits, and non-ASCII text in JSON: escapes above 0x7f, invalid UTF-8, U+2028 and U+2029.
- `requireWireFields`, `asciiURL`, `validRepoSegment` and other loops that only look for a bad element are predicates, not loops.
- Embedded manifests in other JSON spacing: the source compares them with their own encoding and refuses them, the model never decodes them.
- Process end inside a call is an outcome of the call (`Died`, with the memory closed) that the source has no code for.
- SQL text, PRAGMAs, driver error codes and the foreign keys; `created_at` and `released_at`; the wrap of version counters after 2^63 updates; the nil payload.
- Control-plane transactions are serialised: one commits only if nothing committed since it began, and a conflict is otherwise reported.
- The checks before the accept loops start: the started flag, the early look at the context, and invalid arguments; the body of `copyDirection`, dialling and binding.
- ApprovalRuns.OpenExactly: refusals for the owner, mode or links of the directory and its files, and for a lock that is held, are not modelled; the file system's permissions are not part of this model.
- Manifest.ParseAcceptsExactly: the document is decoded before repeated keys are looked for, so which of two errors is reported can differ; what is accepted does not.
- SHA-256, randomness, X.509 certificates and the proxy CA's PEM text.
- The URL parser on addresses with `%` or `#`, which the policy refuses before parsing; `validOrigin`'s second parse.
- Parsing the media type out of a content type line: the result is a parameter. Network errors, a body that cannot be closed and the forwarder's timeout are an absent answer.
- Deadlines, network errors in the middle of a message, `Connect` requests and the inner HTTP requests.
- The WebAuthn verifier: its answer is a parameter. Error texts and `Format` methods.
- `governance`, `memory`, `plane`, the configuration validators, `launchsession`, `gitcredential`, `provision` and the other straight-line checks: they would only add easy members.
