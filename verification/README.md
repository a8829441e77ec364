# LocalSetup: verified models

Dafny models of the parts of LocalSetup whose safety spans several functions,
several processes or a crash, with proofs of what those parts promise. Check
everything with `dafny verify dfyconfig.toml`.

## What is modelled

**Signed configuration revisions.** A store of write-once objects, a `HEAD` and
an `intent` publishes each revision in three separate writes; a fault can fall
between any two. `LiveConfiguration` holds the store as a value, its invariant
and its single steps; `ConfigurationStores` is the class that performs `load`,
`commit` and `recover` and records every durable step. `ConfigurationPeers` and
`ConfigurationRuntimes` do the same for a runtime's accepted snapshot, staged
edits and transaction freeze. `ConfigurationRuns` lets any number of runtimes
and outside writers act in any order; `ConfigurationGroups` is the coordinator
that captures, prepares, commits, finishes or aborts across a cohort, with
arbitrary actions of everybody else (the cohort's own processes included) between
its calls; `ConfigurationSaves` is what such a save meets at one participant when
undisturbed. `ConfigurationEdits` is the editable working set. All statements are
about safety: another writer can leave a runtime that only reports conflicts, and
the code promises no progress there.

**The install transaction's undo journal.** `ApplyJournal` is a tree of paths, a
journal and a transaction class in which staging, copying and removing can stop
at every node. Reverse replay restores what was recorded.

**Two no-replay protocols.** `HeartbeatBlock` splits a crontab exactly as
Python's `splitlines` does and merges one marked block; `HeartbeatSchedule` is
the record, the crontab and every primitive step of `install_fragment`, with
other editors and a stop after any step. `IssueHandoff` is the text of an issue
body and what its reader, a pattern whose dots match any character, finds in it;
`HealthFeedback` is the plan, receipt, lock and remote state of any number of
feedback events, `FeedbackDesks` the two requests that drive it, and
`FeedbackDrafts` the renderer of the drafts they publish.

**Graph algorithms.** `DependencyLedger` is the stateful cycle search, the ledger
checks and the worklist closure, against walks and reachability.

**Content framing.** `Framing` holds big-endian lengths, frames, UTF-8 and their
inverses; `PackageDigests` the framed and the legacy stream of a package, with
the parser of the framed one; `MutablePackages` the fingerprint of a tree, and
the baselines made of it.

**Shared ownership.** `PackageRegistries` is the registry of packages, targets and
personal owners with its reference sets; `PersonalAdapters` the adapter
directories several owners share, and the detach of owners; `RepositoryAdapters`
the directories a repository writes and clears alone; `PersonalInstalls`
the installation of a target together with its owners, the detach of a target,
and whole runs of all three.

`Ordering` (lexicographic orders and sorted lists), `Text` and `Wrappers` are
shared helpers.

## Conventions

- A digest stands for what it was made from. In the configuration store a fresh
  digest is chosen when a record is sealed; in the heartbeat and feedback
  protocols the digest is its own preimage; in the framing modules the hash is
  an arbitrary function, assumed to tell apart only the byte strings at hand.
- A method parameter `calm` (or `authorized`, `read`, `landed`) stands for the
  environment: with `calm` nobody interferes and no fault happens, and the
  contract then says exactly when the call succeeds. Without it a method may
  stop, fail or be interleaved at any primitive step.
- Classes record every durable step in a ghost history, or are proved equal to a
  function of their old state; what holds over whole runs is proved about those
  values.

## Where the code does not keep a promise in general

Each has a concrete case and the exact condition.

- Two open issues can be created for one fingerprint although only the tool writes
  and everything is acknowledged: an observation may quote a handoff block, and
  readers take the first text the opening pattern matches. The condition on the
  draft is `HealthFeedback.DuplicateIffQuoted`; `FeedbackDrafts.RenderedDraftDuplicates`
  is a run at drafts as the renderer writes them.
- Two open issues can be read under one fingerprint through a comment: readers look
  into comments too. A publication that was rightly decided keeps open issues
  apart exactly when its body is not read under a foreign fingerprint that another
  open issue is read under (`HealthFeedback.DecidedKeepsOne`, over runs
  `HealthFeedback.ApartIffPlaced`); `FeedbackDrafts.RenderedCommentClashes` is a run
  to such a pair, after which no decision for that fingerprint is possible.
- The legacy package stream is not injective. It tells a package from every other
  exactly when the package holds at most one file and that file's content does
  not read on as a later file beside it (`PackageDigests.LegacyDetermines`);
  `PackageDigests.LegacyForgets` gives the collision of any larger package.
- "Referenced exactly when selected" survives an operation exactly when it
  registers no package anew that an owner it leaves alone already selects
  (`PackageRegistries.StepKeepsOwnerRefs`, over runs
  `PackageRegistries.RunKeepsOwnerRefs`);
  `PackageRegistries.UnregisteredSelectionIsDropped` is a run of three operations
  that breaks it and then drops a selected package.
- Adapter directories agree throughout a run exactly when every operation was
  harmless: an installation gives up only what is still wanted, leaves no unwanted
  entry managed and writes alone only where no other repository wants more, and a target's
  detach clears only what is nobody else's, links included
  (`PersonalInstalls.RunKeepsAgreement`). Recording an owner again at fewer paths
  leaves the old directory stale (`PersonalInstalls.FewerPathsLeaveStale`), a
  package copy put there by hand becomes managed when portable copies are
  installed beside it (`PersonalInstalls.HandMadeCopyTurnsManaged`), and a
  repository that changes from links to copies keeps the link of a package it
  drops (`PersonalInstalls.ModeSwitchLeavesLink`).
- A journalled item can be reported as lacking its backup although everything is
  restored (`ApplyJournal.ReportedYetRestored`); it is reported exactly when the
  backup it needs is gone at that point (`ApplyJournal.FaultIsMissingBackup`).

## Model

| member | source | states |
|---|---|---|
| `LiveConfiguration.StepKeepsInv` | ls/core/live_configuration.py:280-367 | every single write (seal, object, intent, HEAD) by any interleaving keeps the store invariant: HEAD and intent name stored objects, parents descend one revision at a time to revision 1, intent is HEAD or a child of HEAD, at most 1024 objects |
| `LiveConfiguration.NoCommittedRevisionLost` | ls/core/live_configuration.py:280-367 | over any run of single writes, interleaved and cut anywhere, the HEAD at an earlier point is an ancestor of the HEAD at every later point, at its own revision: nothing committed is lost or forked |
| `LiveConfiguration.StepDescends` | ls/core/live_configuration.py:280-298 | a step changes HEAD only to a child of the HEAD before it |
| `LiveConfiguration.AncestorIffPath` | ls/core/live_configuration.py:257-265 | the revision-indexed ancestor is exactly what some chain of parent links leads to |
| `LiveConfiguration.RevisionBounded` | ls/core/live_configuration.py:315-316 | a revision never exceeds the number of stored objects, so the 1024-object cap bounds every chain |
| `LiveConfiguration.LoadAcceptsExactlyAncestors` | ls/core/live_configuration.py:244-271 | `load(minimum_revision=r, ancestor_digest=d)` accepts if and only if `d` is HEAD's ancestor at revision `r`; the bounded walk rejects no genuine ancestor |
| `LiveConfiguration.CommitIsRun` | ls/core/live_configuration.py:300-341 | whatever a commit leaves behind, after any fault, is reached from the state before it by single store steps |
| `LiveConfiguration.RecoverIsRun` | ls/core/live_configuration.py:343-367 | the same for `recover` |
| `LiveConfiguration.CommitDescends` | ls/core/live_configuration.py:300-341 | a commit, completed or cut short, keeps every revision reachable and moves HEAD at most to a child |
| `LiveConfiguration.RecoverDescends` | ls/core/live_configuration.py:343-367 | the same for `recover` |
| `LiveConfiguration.CommitSealsOne` | ls/core/live_configuration.py:322-327 | a commit that stored anything sealed exactly one new record over the expected HEAD: the next revision, with the request's values, cadence and provenance, and its own extensions or those of the revision before |
| `LiveConfiguration.RefusalsMean` | ls/core/live_configuration.py:300-330 | the guards of a commit and of a recovery are exactly the stated refusals: another HEAD, another candidate's intent, 1024 objects, a cadence outside 1 to 3600, no or more than 64 values, an illegal name; nothing to finish, nothing retained under the name, another candidate or HEAD in the way |
| `LiveConfiguration.StoredIsBounded` | ls/core/live_configuration.py:217-235 | whatever is stored, in any state of the invariant, is within the format's bounds |
| `ConfigurationStores.ConfigurationStore.Load` | ls/core/live_configuration.py:244-271 | the loop over ancestors returns what the declarative reading of the store says, including every rejection |
| `ConfigurationStores.ConfigurationStore.Publish` | ls/core/live_configuration.py:280-298 | publishes only over the expected parent, reports uncertainty after the HEAD write was attempted, and never touches objects |
| `ConfigurationStores.ConfigurationStore.Commit` | ls/core/live_configuration.py:300-341 | new state and result are one of the outcomes of the three separate writes, so an error other than `configuration_uncertain` wrote nothing; a success answers with the record asked for, which is HEAD; without faults it succeeds, or is refused with the one code, exactly as the expected digest, intent, object count and settings say |
| `ConfigurationStores.ConfigurationStore.Recover` | ls/core/live_configuration.py:343-367 | finishes only the retained intent or the named candidate over its own parent; without faults it succeeds, or is refused with the one code, exactly as the state says |
| `ConfigurationPeers.ReconcileDropsOnlyLandedEdits` | ls/core/live_configuration_participant.py:125-141 | a reconcile that takes an edit away saw a HEAD whose parent is the captured base, which carries this transaction and equals the prepared proposal, and the edit's version is unchanged since capture |
| `ConfigurationPeers.ReconcileExact` | ls/core/live_configuration_participant.py:125-141 | a reconcile aggregates exactly where the seen revision is the child of the captured base with the transaction and the proposal; then a name stays staged if and only if it was staged and either not captured or staged again since, with its value, and the cadence likewise |
| `ConfigurationPeers.PeerInvStable` | ls/core/live_configuration_runtime.py:84-176 | what a runtime believes about its accepted, uncertain and frozen revisions stays true under every later store step |
| `ConfigurationPeers.ReadAdvances` | ls/core/live_configuration_runtime.py:113-129 | a successful read never moves the accepted revision backwards or sideways |
| `ConfigurationPeers.ReloadKeeps` | ls/core/live_configuration_runtime.py:113-132 | `reload` keeps the invariant, accepts HEAD and nothing else, moves only forward, drops only edits the accepted revision carries, and changes nothing when it fails |
| `ConfigurationPeers.ReloadExact` | ls/core/live_configuration_runtime.py:113-132 | `reload` succeeds exactly when the store answers with a complete, valid revision that overtakes nothing staged, and accepts just that; the uncertain revision clears everything staged, any other only what it delivers; every refusal has its one code |
| `ConfigurationPeers.StageKeeps` | ls/core/live_configuration_runtime.py:84-97 | staging keeps the invariant (nothing is staged beside an uncertain candidate) and leaves every other staged value alone |
| `ConfigurationPeers.StageExact` | ls/core/live_configuration_runtime.py:84-97 | staging succeeds exactly for a known, valid name with nothing uncertain; the name then holds the new value, under a version above every earlier one, and everything else is as before |
| `ConfigurationPeers.CadenceKeeps` | ls/core/live_configuration_runtime.py:99-110 | the same for the cadence |
| `ConfigurationPeers.CadenceExact` | ls/core/live_configuration_runtime.py:99-110 | the same for a cadence from 1 to 3600 seconds |
| `ConfigurationPeers.DiscardKeeps` | ls/core/live_configuration_runtime.py:134-141 | discarding keeps the invariant and the accepted revision still only moves forward |
| `ConfigurationPeers.DiscardExact` | ls/core/live_configuration_runtime.py:134-141 | a discard is refused beside an uncertain candidate or a freeze; otherwise nothing stays staged, whether the reload after it succeeds or not |
| `ConfigurationPeers.CaptureKeeps` | ls/core/live_configuration_participant.py:91-104 | a capture keeps the peer invariant and takes no staged edit that the accepted revision does not carry |
| `ConfigurationPeers.CaptureExact` | ls/core/live_configuration_participant.py:91-104 | a capture freezes exactly what is staged after the reload, with the versions at that time, over the accepted revision, and answers with it; it is refused exactly after a failed reload, beside another freeze or an uncertain candidate |
| `ConfigurationPeers.PrepareExact` | ls/core/live_configuration_participant.py:106-123 | a proposal is approved exactly when it is complete, valid, keeps every captured value and cadence and no other one was approved for the freeze; then the freeze holds it; otherwise nothing changes and the code names the first failing check |
| `ConfigurationPeers.AbortKeeps` | ls/core/live_configuration_participant.py:71-80 | an abort keeps the invariant and drops no edit, unless the frozen proposal turns out to be HEAD |
| `ConfigurationPeers.AbortExact` | ls/core/live_configuration_participant.py:71-80 | an abort releases the freeze and keeps the staged edits, unless HEAD delivers them after all; it waits exactly for another candidate's intent and a complete, valid store |
| `ConfigurationPeers.FinishKeeps` | ls/core/live_configuration_participant.py:81-88 | a finish keeps the invariant and drops only edits that the accepted revision carries |
| `ConfigurationPeers.FinishExact` | ls/core/live_configuration_participant.py:81-88 | a finish of a prepared freeze succeeds exactly when HEAD is the named revision and delivers the freeze; then exactly what was captured and not staged again since is gone, so that nothing is staged when nothing was staged since |
| `ConfigurationPeers.FinishUnprepared` | ls/core/live_configuration_participant.py:81-88 | a finish of a freeze nothing was proposed for releases it, edits and all, and succeeds exactly when the named revision is accepted |
| `ConfigurationPeers.AskKeeps` | ls/core/live_configuration_participant.py:42-89 | every request, in any order, keeps the peer invariant, moves the accepted revision only forward and drops only landed edits |
| `ConfigurationPeers.AskExact` | ls/core/live_configuration_participant.py:59-89 | only a capture, or a finish asked again for a transaction HEAD carries, is answered for anything but the transaction that holds the freeze |
| `ConfigurationPeers.TransactionLands` | ls/core/live_configuration_participant.py:42-141 | capture, prepare and finish of one transaction, all answered with success and nothing staged meanwhile: the accepted revision holds exactly the proposal over the captured base, which honours everything captured, and nothing stays staged |
| `ConfigurationPeers.PersistKeeps` | ls/core/live_configuration_runtime.py:153-168 | a flush's own commit or recovery, with any outcome, leaves a valid peer: a candidate it remembers as uncertain carries every staged value |
| `ConfigurationPeers.FlushLands` | ls/core/live_configuration_runtime.py:169-171 | a flush that reports success accepted a revision holding every value it had staged |
| `ConfigurationPeers.FlushSigns` | ls/core/live_configuration_runtime.py:157-166 | a flush with nothing uncertain seals at most one record: a child of the accepted revision in which each staged name has its staged value, every other name is as accepted, and the cadence is the staged one, else the accepted one, else 60 |
| `ConfigurationPeers.PersistRemembers` | ls/core/live_configuration_runtime.py:153-176 | whatever such a flush left in the store is remembered as uncertain until a reload accepts it |
| `ConfigurationRuntimes.ConfigurationRuntime.Stage` | ls/core/live_configuration_runtime.py:84-97 | the whole new state of the runtime, or the refusal with nothing changed |
| `ConfigurationRuntimes.ConfigurationRuntime.StageCadenceSeconds` | ls/core/live_configuration_runtime.py:99-110 | the same for the cadence, with its 1 to 3600 range |
| `ConfigurationRuntimes.ConfigurationRuntime.Reload` | ls/core/live_configuration_runtime.py:112-132 | refines the reload specification over what was actually read, which undisturbed is the store's exact answer |
| `ConfigurationRuntimes.ConfigurationRuntime.DiscardStaged` | ls/core/live_configuration_runtime.py:134-141 | refines the discard specification |
| `ConfigurationRuntimes.ConfigurationRuntime.Flush` | ls/core/live_configuration_runtime.py:143-176 | keeps the peer invariant and every committed revision in every outcome; a success accepted HEAD, which is the accepted revision with exactly the staged edits in place, or the uncertain candidate it recovered; what it wrote is accepted or remembered; a clean runtime, a pending freeze or a missing authorization writes nothing; undisturbed it succeeds exactly when every owner has a value and the store takes the commit, or the uncertain candidate can be recovered and is complete, or, beside a freeze, a reload delivers that first |
| `ConfigurationRuntimes.ConfigurationRuntime.FlushEdits` | ls/core/live_configuration_runtime.py:151-176 | one commit of a record that differs from the accepted one in the staged edits alone, or one recovery of the uncertain candidate, remembered, then a re-read |
| `ConfigurationRuntimes.ConfigurationParticipant.Reconcile` | ls/core/live_configuration_participant.py:125-141 | the in-place loop equals the reconcile specification, so it drops exactly what `ConfigurationPeers.ReconcileExact` says |
| `ConfigurationRuntimes.ConfigurationParticipant.Request` | ls/core/live_configuration_participant.py:42-89 | every message's effect and answer equal the request specification over one store reading, undisturbed the exact one; a successful finish of a prepared freeze leaves exactly the edits staged since and an accepted revision with everything captured; an abort is granted only while no other candidate's intent is pending |
| `ConfigurationRuntimes.ConfigurationParticipant.CaptureStaged` | ls/core/live_configuration_participant.py:91-104 | the freeze taken from the staged maps and their versions |
| `ConfigurationRuntimes.ConfigurationParticipant.AcceptProposal` | ls/core/live_configuration_participant.py:106-123 | accepts only a complete proposal that honours the captured values and cadence, and only one proposal per transaction |
| `ConfigurationRuns.HistoryKeeps` | ls/core/live_configuration_runtime.py:84-176 | in every world reached from a valid one by one store and any number of runtimes and outside writers, store and peer invariants hold |
| `ConfigurationRuns.AcceptedOnlyMovesForward` | ls/core/live_configuration_runtime.py:112-129 | over all runs, and until its process restarts, a runtime's accepted revision only moves forward along HEAD's ancestry |
| `ConfigurationRuns.StagedEditsSurvive` | ls/core/live_configuration_runtime.py:84-176 | over all runs a staged value that is gone went by a step of its own process: an explicit discard, a restart, a later staging of the same name, or an accepted revision that carries exactly that value |
| `ConfigurationRuns.StagedCadenceSurvives` | ls/core/live_configuration_runtime.py:99-176 | the same over all runs for a staged cadence: a discard, a restart, a later cadence, or an accepted revision with exactly that cadence |
| `ConfigurationRuns.CadenceLeavesOnlyWithCause` | ls/core/live_configuration_runtime.py:99-176 | its one-step form, for every action |
| `ConfigurationRuns.EditLeavesOnlyWithCause` | ls/core/live_configuration_participant.py:71-88 | the one-step form of `StagedEditsSurvive`, for every action |
| `ConfigurationRuns.LaterEditsSurviveRequests` | ls/core/live_configuration_participant.py:134-136 | an edit staged after the capture survives every request, abort and finish included |
| `ConfigurationRuns.DroppedEditIsInHead` | ls/core/live_configuration_participant.py:71-88 | an edit dropped by a request has an unchanged version, and HEAD delivers the freeze (parent, transaction, proposal) and carries its value |
| `ConfigurationGroups.FlushAll` | ls/core/live_configuration_group.py:26-125 | a success froze every peer for this transaction and had every peer confirm the result; if any peer captured a value or a cadence it committed, else it returns the accepted base unchanged; a commit's parent is the one base every peer captured, it carries this transaction and provenance, every peer approved it, and its settings are the base's (the empty settings without a base) overridden by exactly the captured proposals; conflicting captures dispatch nothing; abort is sent exactly before the commit or on a code that wrote nothing, and undisturbed releases every freeze; undisturbed the save succeeds whenever everybody can be captured, what is staged merges over HEAD into settings everybody can approve, and the store takes them; for any cohort, with stagings, reloads, discards, own flushes and requests of other coordinators between the calls |
| `ConfigurationGroups.DisagreementHasNoMerge` | ls/core/live_configuration_group.py:73-83 | captures that disagree on a value or cadence have no merge at all, so refusing them is necessary |
| `ConfigurationGroups.MergeUnique` | ls/core/live_configuration_group.py:85-87 | the merge of a base and its captures is unique |
| `ConfigurationGroups.MergeContained` | ls/core/live_configuration_group.py:85-87 | two merges of the same base and captures hold the same values |
| `ConfigurationGroups.OverrideIsMerge` | ls/core/live_configuration_group.py:84-87 | overriding the base with the collected updates is that merge |
| `ConfigurationGroups.Collect` | ls/core/live_configuration_group.py:66-83 | the loop over captures collects exactly their values and cadence over one base, and fails on every conflict |
| `ConfigurationGroups.MergeValues` | ls/core/live_configuration_group.py:73-77 | one capture is merged if and only if no shared name differs |
| `ConfigurationGroups.CaptureAll` | ls/core/live_configuration_group.py:55-60 | every peer froze for this transaction exactly what it replied |
| `ConfigurationGroups.CommittedStays` | ls/core/live_configuration_group.py:96-106 | what this transaction committed stays committed under every later store step |
| `ConfigurationSaves.CaptureAnswer` | ls/core/live_configuration_participant.py:91-104 | undisturbed, a participant without a freeze or an uncertain candidate, and not overtaken by HEAD, answers the capture with HEAD and all it has staged |
| `ConfigurationSaves.FinishAnswer` | ls/core/live_configuration_participant.py:81-88 | and confirms the finish once HEAD is the child of that HEAD with the approved proposal |
| `ConfigurationEdits.OwnWorkOnly` | ls/core/live_configuration_files.py:148-172 | over every interleaving with other writers, also between a flush's base check and its commit: every revision between a working set's base and any HEAD it may flush onto was written by that same working set |
| `ConfigurationEdits.EditRunKeepsLinked` | ls/core/live_configuration_files.py:148-172 | the invariant behind it, from the empty store on: what the working set signs sits on its base or on another of its own revisions |
| `ConfigurationEdits.FlushSignsEdit` | ls/core/live_configuration_files.py:163-172 | the revision a flush writes carries the operation digest of this directory, manifest and content, over the HEAD that was checked |
| `ConfigurationEdits.FlushEdit` | ls/core/live_configuration_files.py:91-178 | whatever others write between the reading of HEAD, the check and the commit, its own writes are one step of the working set; over a HEAD that is not allowed it writes nothing, and fails unless its recorded base lies above HEAD; a success accepted exactly the edited values and cadence. Undisturbed it succeeds exactly for a complete set over an allowed, complete HEAD with room in the store, and then leaves HEAD alone if the set changes nothing, else puts a child on it that differs in the edited names and the cadence alone |
| `ConfigurationEdits.CheckBase` | ls/core/live_configuration_files.py:149-157 | over a store that may have moved on since HEAD was read: passes only if that HEAD is the recorded base or this working set's own revision above it, or if HEAD has moved past it so that the commit must be refused; undisturbed, exactly in the first two cases |
| `ApplyJournal.ReplayItemUndoes` | ls/core/apply_journal.py:68-85 | replaying one item brings its node back to what it was when recorded and touches nothing else outside scratch names |
| `ApplyJournal.ReplayRestores` | ls/core/apply_journal.py:62-87 | reverse replay after a failure at any primitive step restores every recorded path, repeated paths and directories recorded with their own children included |
| `ApplyJournal.ReplayReports` | ls/core/apply_journal.py:72-87 | when only recorded mutations happened, an item is reported at most when an earlier item covers its path, so without such nesting nothing is reported |
| `ApplyJournal.FaultIsMissingBackup` | ls/core/apply_journal.py:73-76 | an item is reported, and left unreplayed, if and only if its required backup is gone |
| `ApplyJournal.LostBackupsAreSkipped` | ls/core/apply_journal.py:72-87 | any number of backups lost to somebody else, directories whose own children are recorded included: each lost item is reported and skipped, all other items are still replayed, and only what lies below a skipped path can differ from before |
| `ApplyJournal.DamageIsContained` | ls/core/apply_journal.py:62-87 | more generally, whatever was damaged, replay restores everything outside the damage as long as each record lies inside it or has its backup outside |
| `ApplyJournal.ReportedYetRestored` | ls/core/apply_journal.py:72-87 | a reported item can still be restored through a directory recorded before it |
| `ApplyJournal.InstallLeavesOthers` | ls/core/apply_packages.py:186-204 | installing one package keeps the earlier ones installed and the later ones ready |
| `ApplyJournal.Transaction.Record` | ls/core/apply_journal.py:90-151 | backup, existence check and journal append leave a restorable journal at every point, also when a primitive fails halfway; a success appends a record unless the state of that file is kept already, and then changes nothing |
| `ApplyJournal.Transaction.Stage` | ls/core/apply_packages.py:148-186 | the package's artifact is written node by node where it is staged, over what an earlier attempt left; the journal stays restorable wherever it stops |
| `ApplyJournal.Transaction.InstallPackage` | ls/core/apply_packages.py:148-204 | stage, backup, record, remove and replace in this order keep the journal restorable after every step; in the end exactly the artifact stands at the package's place |
| `ApplyJournal.Transaction.InstallAll` | ls/core/apply_packages.py:136-204 | either every package's artifact stands at its place, everything no package concerns is as it was, and the journal can still undo all of it, or the rollback leaves every path outside scratch names as it was and reports nothing; without faults it succeeds |
| `ApplyJournal.Transaction.RestoreFailedMutations` | ls/core/apply_journal.py:62-87 | the reverse loop computes exactly the replay and its fault list, and the tree is restored |
| `ApplyJournal.Transaction.CleanupBackups` | ls/core/apply_journal.py:51-59 | removes backups and nothing else |
| `DependencyLedger.CycleFinder.Visit` | ls/core/dependency_ledger.py:167-182 | with the visiting, visited and stack invariants: a returned list is a cycle reachable from where the search began, otherwise the node is finished and everything finished before it |
| `DependencyLedger.FindCycle` | ls/core/dependency_ledger.py:162-188 | returns a list whose consecutive nodes are edges, whose ends coincide, which repeats no other node and which the nodes reach, or none exactly when no cycle is reachable |
| `DependencyLedger.FinishedAcyclic` | ls/core/dependency_ledger.py:179-181 | nodes in finishing order start no cycle |
| `DependencyLedger.CheckLedger` | ls/core/dependency_ledger.py:215-239 | accepts if and only if ids and edges are distinct, known, not self-referential, and the declared edges have no cycle; otherwise it names the first check that fails, for edges at the first bad one |
| `DependencyLedger.DeclaredCycleIsReachable` | ls/core/dependency_ledger.py:226-237 | a cycle among the declared edges is one the search can reach |
| `DependencyLedger.DependencyClosure` | ls/core/dependency_ledger.py:249-268 | returns exactly the nodes reachable from the seeds, sorted, each once, and terminates on cyclic input |
| `DependencyLedger.ReachableIsLeast` | ls/core/dependency_ledger.py:254-267 | the reachable nodes are the least set holding the seeds and closed under edges |
| `Ordering.SortedUnique` | ls/core/dependency_ledger.py:268 | a sorted list without duplicates is determined by its elements |
| `Ordering.OrdersMean` | ls/core/dependency_ledger.py:258-268 | names are ordered by their first different character and paths by their first different part, a prefix first |
| `Framing.UnframeInverts` | ls/core/mutable_packages.py:25-27 | reading a frame gives back the value and the rest, for every length below 2^64 |
| `Framing.FrameInverts` | ls/core/mutable_packages.py:25-27 | the reader accepts nothing but frames |
| `Framing.Utf8Injective` | ls/core/package_digests.py:39 | the UTF-8 encoding of names is injective |
| `Framing.EncodesShortest` | ls/core/package_digests.py:39 | every character is encoded in its shortest form of RFC 3629, section 3: one byte for ASCII, else a lead byte of its range before continuation bytes |
| `PackageDigests.ParseInverts` | ls/core/package_digests.py:36-52 | the parser gives back the file list the framed stream was written from |
| `PackageDigests.ParseExact` | ls/core/package_digests.py:36-52 | every stream the parser accepts is the one written for what it read |
| `PackageDigests.FramedDetermines` | ls/core/package_digests.py:35-52 | two packages have equal framed streams if and only if they hold equal files |
| `PackageDigests.FramedDigestDetermines` | ls/core/package_digests.py:54 | and equal framed digests, for a hash that tells the two streams apart |
| `PackageDigests.LegacyDetermines` | ls/core/package_digests.py:42-46 | among the file sets a directory can hold, a package is told from every other by its legacy stream if and only if it holds at most one file and that file's content does not read on as a later legal path beside it, a zero byte and more content |
| `PackageDigests.LegacyForgets` | ls/core/package_digests.py:42-46 | every package of two or more files shares its legacy stream with a package of fewer files: a collision for each |
| `PackageDigests.PosixInjective` | ls/core/package_digests.py:39 | joined relative paths determine their parts |
| `PackageDigests.ExcludedMeans` | ls/core/package_digests.py:18-28 | a digest leaves out exactly the marker files at the top, whatever is in a cache directory, and compiled Python files |
| `PackageDigests.DomainMeans` | ls/core/package_digests.py:8 | the framed stream opens with the bytes of its domain text, a zero byte after each part |
| `PackageDigests.PackageDigests` | ls/core/package_digests.py:12-54 | the loops feed exactly these streams over the covered files in path order, whatever the listing order; both digests are absent exactly without covered files |
| `MutablePackages.StreamCancels` | ls/core/mutable_packages.py:54-86 | equal fingerprint streams come from equal trees: names, modes, kinds and contents |
| `MutablePackages.FingerprintDetermines` | ls/core/mutable_packages.py:40-97 | two accepted packages have one fingerprint if and only if they are equal |
| `MutablePackages.DecimalInjective` | ls/core/mutable_packages.py:71 | the decimal mode text determines the mode |
| `MutablePackages.HeaderReads` | ls/core/mutable_packages.py:69-72 | read back frame by frame, an entry opens with its path, its permission bits in decimal and its kind |
| `MutablePackages.HexReads` | ls/core/mutable_packages.py:97 | the digest text holds two digits a byte, the high one first |
| `MutablePackages.Inspection.Visit` | ls/core/mutable_packages.py:54-90 | succeeds if and only if the entry holds only directories and singly linked files within both limits, and then fed exactly the stream |
| `MutablePackages.PackageFingerprint` | ls/core/mutable_packages.py:40-97 | the fingerprint of exactly the acceptable packages |
| `MutablePackages.CaptureBaselines` | ls/core/mutable_packages.py:100-108 | captures exactly a safe, duplicate-free selection whose packages are all acceptable |
| `MutablePackages.RequireUnchanged` | ls/core/mutable_packages.py:111-119 | accepts if and only if every recorded package still has its recorded fingerprint |
| `MutablePackages.UnchangedMeansIdentical` | ls/core/mutable_packages.py:100-119 | a captured baseline is accepted later if and only if every recorded package is still identical |
| `HeartbeatBlock.LinesConcat` | ls/core/harness_schedule.py:19 | splitting at every Python line boundary is compositional where no "\r\n" is formed |
| `HeartbeatBlock.ScanFinds` | ls/core/harness_schedule.py:19-29 | a written block between texts without markers is found again, whole, and nothing else |
| `HeartbeatBlock.ScanShape` | ls/core/harness_schedule.py:19-29 | what is found splits the crontab at line ends and leaves no marker outside |
| `HeartbeatBlock.ScanExact` | ls/core/harness_schedule.py:19-29 | a block is found exactly where one line only starts with each marker, both stand alone on their lines, and in order; it is everything from the one to the other, and other markers are ambiguous |
| `HeartbeatBlock.MergeShape` | ls/core/harness_schedule.py:15-29 | the merged text holds exactly the block just written between the untouched outside texts, and merging an empty fragment gives those back |
| `HeartbeatBlock.MergeMeans` | ls/core/harness_schedule.py:15-29 | a successful merge leaves the fragment, without the newlines it ends in, between its two marker lines, and around it everything that was around the old block, or the whole crontab with its last line ended |
| `HeartbeatBlock.MergeIdempotent` | ls/core/harness_schedule.py:15-29 | merging the same fragment again changes nothing |
| `HeartbeatSchedule.StepKeepsInv` | ls/core/harness_schedule.py:47-86 | every primitive step, crashes and other editors included, keeps the invariant between record and crontab |
| `HeartbeatSchedule.BlockMatchesRecord` | ls/core/harness_schedule.py:63-67 | in every reachable state nobody else tampered with, the block's digest is the one the record holds for its status, or one of the two of a pending record |
| `HeartbeatSchedule.ReplacesOnlyOwnBlocks` | ls/core/harness_schedule.py:63-67 | whatever others do, a replaced block is one this owner generated |
| `HeartbeatSchedule.WritesKeepTheRest` | ls/core/harness_schedule.py:62-80 | a write lands between exactly the texts the snapshot held around the old block, or after all of it, behind a saved pending record of that very text |
| `HeartbeatSchedule.NoReplay` | ls/core/harness_schedule.py:52-61 | between any two dispatched writes the first one's effect or absence was read back and its record settled |
| `HeartbeatSchedule.RefusalMeansTouched` | ls/core/harness_schedule.py:63-67 | the ownership check refuses only after somebody else changed the block |
| `HeartbeatSchedule.WhyMeans` | ls/core/harness_schedule.py:32-70 | the stated reasons are exactly the checks the call makes, in its order: fragment, crontab, pending record, markers, ownership, size |
| `HeartbeatSchedule.EnteredSo` | ls/core/harness_schedule.py:62-86 | what an undisturbed write leaves: the merged text, and an applied record with the digests of both texts and both blocks; where nothing has to be written, the crontab as it was and the earlier record settled |
| `HeartbeatSchedule.HeartbeatOwner.Install` | ls/core/harness_schedule.py:32-86 | refines the step system with a stop after any step and at most one write; undisturbed it is refused for exactly the stated reason, with the crontab unchanged and a pending record settled by what was read, or it succeeds and leaves exactly the merged text and its applied record |
| `HeartbeatSchedule.HeartbeatOwner.ReadBack` | ls/core/terminal_ops/command_scheduler.py:835-855 | the crontab read back, not the writer's answer, decides the outcome and what the record says of it |
| `IssueHandoff.ExtractBody` | ls/core/github_repo/issue_writer.py:11-53 | readers of a published body find the first block of the draft the opening pattern matches, any character at its dots included, or else the request's own |
| `IssueHandoff.ReadBackOwn` | ls/core/github_repo/issue_writer.py:11-53 | a body is read back under its own fingerprint if and only if the draft quotes no block naming something else first |
| `IssueHandoff.QuotedDraft` | ls/core/github_repo/issue_writer.py:11-53 | a draft's first block, anywhere after text without an earlier opening line, is what its body is read as, and the body is read as its own request if and only if that block names it |
| `HealthFeedback.AtMostOneCall` | ls/core/health_feedback.py:275-330 | over any run of prepares, submissions, crashes and retries, at most one remote call per event |
| `HealthFeedback.CallsAreApproved` | ls/core/health_feedback.py:282-299 | every call published exactly the plan whose digest was approved, stored and receipted, and still the current material when checked |
| `HealthFeedback.NeverPreparedAgain` | ls/core/health_feedback.py:302-330 | once `dispatching` is saved the receipt keeps its plan and never returns to `prepared`; `verified` is final |
| `HealthFeedback.NoDuplicateIssues` | ls/core/health_feedback.py:180-208 | while only this tool writes, closed issues stay closed, created bodies are read back as their own and no publication was misdirected when it was checked, no run leaves two open issues read under one fingerprint, in a body or a comment, nor two that were created for one |
| `HealthFeedback.ApartIffPlaced` | ls/core/health_feedback.py:180-208 | over any run without foreign writers, no two open issues are ever read under one fingerprint if and only if every call that took effect was well placed: what its body is read under belongs to no other open issue |
| `HealthFeedback.DecidedKeepsOne` | ls/core/health_feedback.py:180-208 | the exact condition for one rightly decided publication, creation or comment: open issues stay apart if and only if its body's first block does not name a foreign fingerprint that another open issue is read under |
| `HealthFeedback.DecisionCases` | ls/core/health_feedback.py:180-208 | over the last word under the fingerprint: the decision is create exactly when nothing open is read under it and no closed issue ends with the very text; on the one open match it is noop if that issue's last word is the text and comment otherwise; with none open it is noop on the first settled issue; and it is refused for two open ones or more than 500 issues |
| `HealthFeedback.DecidedOnce` | ls/core/health_feedback.py:180-208 | a law across operations: once a creation or comment that reads back as its own request is published, the same event is decided to need nothing, on the issue just written |
| `HealthFeedback.PublishExact` | ls/core/health_feedback.py:309-318 | one call adds one open issue with the plan's title, body and labels, or one comment with the plan's body at the end of the one issue it names, and changes nothing else |
| `HealthFeedback.VerifiedIsPublished` | ls/core/health_feedback.py:253-330 | while only this tool writes, a verified receipt's issue or comment is on the remote |
| `HealthFeedback.SeenOnceMeans` | ls/core/health_feedback.py:253-272 | a retry settles exactly where one issue body, or one comment of the planned issue, is the planned text |
| `HealthFeedback.DuplicateIffQuoted` | ls/core/health_feedback.py:180-208 | the exact condition: a second event with the same fingerprint is told to create another issue if and only if the first draft quotes a block naming something else |
| `HealthFeedback.QuotedBlockDuplicates` | ls/core/health_feedback.py:180-250 | in a run where only this tool acts and every answer arrives, two open issues are created for one fingerprint whenever the first draft quotes such a block |
| `HealthFeedback.QuotedCommentClashes` | ls/core/health_feedback.py:180-250 | a run of two rightful creations and one rightful comment that quotes the second issue's block: both open issues are read under one fingerprint, and its decision is refused from then on |
| `FeedbackDrafts.QuotingObservation` | ls/core/handoff.py:20-43 | for an event whose own fields hold no backtick, a first observation that quotes a block anywhere in its text makes the rendered draft's body read as that block, and as its own request if and only if the block names it |
| `FeedbackDrafts.RenderedDraftDuplicates` | ls/core/handoff.py:20-43 | the run to two open issues for one fingerprint at drafts as the renderer writes them |
| `FeedbackDrafts.RenderedCommentClashes` | ls/core/handoff.py:20-43 | the run to two open issues read under one fingerprint through a comment, at a draft as the renderer writes it |
| `HealthFeedback.DecisionWarranted` | ls/core/health_feedback.py:195-208 | a decision to create means no open issue is read under the fingerprint, a decision to comment names the only open one that is, and a decision to do nothing an existing issue |
| `HealthFeedback.LatestIsLastWord` | ls/core/health_feedback.py:188-195 | what the decision compares is the last comment that hands the fingerprint on, and the body where none does |
| `HealthFeedback.MatchesMeans` | ls/core/health_feedback.py:188-195 | an issue is read under exactly what its body or one of its comments names |
| `FeedbackDesks.FeedbackDesk.Prepare` | ls/core/health_feedback.py:239-250 | saves plan then receipt with a stop possible between; a refusal changes neither; undisturbed it prepares exactly the action `HealthFeedback.DecisionCases` describes for the evidence and target as they stand, for an event that is free, not dispatched and decided |
| `FeedbackDesks.FeedbackDesk.Submit` | ls/core/health_feedback.py:275-330 | at most one call, none once dispatched or for a plan that is not the exact stored one; the answer is what the receipt then says, also after a lost answer or a stop; undisturbed a submittable plan ends published once and verified, a retry is answered by whether the text is there once, and everything else is refused with nothing changed |
| `FeedbackDesks.FeedbackDesk.ReconcileOnce` | ls/core/health_feedback.py:253-272 | only reads: it verifies the receipt only if the planned text is there exactly once, undisturbed if and only if, and changes nothing else |
| `PackageRegistries.GatherMeaning` | ls/core/personal_registry.py:36-76 | a gathered owner record has exactly the paths of the rows listing it, and one selection and mode for all of them |
| `PackageRegistries.GatherExact` | ls/core/personal_registry.py:36-76 | rows can be recorded if and only if each names its owners' packages exactly, all of them are available, and any two rows of an owner ask the same selection, mode and origins; the recorded origins are exactly the rows' own |
| `PackageRegistries.ApplyExact` | ls/core/registry.py:34-94 | exactly which packages are registered, which references they hold and what is recorded after each operation, reference by reference; one that fails changes nothing |
| `PackageRegistries.StepKeepsOwnerRefs` | ls/core/registry.py:34-94 | any registry operation keeps "referenced exactly when selected" if and only if it registers no package anew that some owner it does not record again already selects |
| `PackageRegistries.RunKeepsOwnerRefs` | ls/core/registry.py:34-94 | through any sequence of upserts, owner detaches and target detaches, an owner key is in a package's refs exactly when the package is in its recorded selection, throughout, if and only if every step was like that |
| `PackageRegistries.RecordKeepsInv` | ls/core/personal_registry.py:79-89 | recording owners in addition keeps everything selected or installed registered if and only if every selected identity is registered |
| `PackageRegistries.ApplyKeepsInv` | ls/core/registry.py:34-94 | the same for every registry operation: references exact and everything selected registered, before and after, if and only if the owners it records select registered identities |
| `PackageRegistries.RunKeepsInv` | ls/core/registry.py:34-94 | through any sequence of such operations references stay exact and everything selected or installed stays registered |
| `PackageRegistries.LiveReferencesStay` | ls/core/detach.py:89-108 | no operation loses anybody else's reference, so no package with a live reference is dropped |
| `PackageRegistries.UnregisteredSelectionIsDropped` | ls/core/personal_registry.py:79-86 | three operations from the empty registry after which an owner still selects a package that lost its reference and was dropped |
| `PackageRegistries.SelectedIsNotPruned` | ls/core/apply.py:235-263 | with exact references, what an owner or a target selects can be pruned if and only if it is not registered; so never while everything selected is registered |
| `PackageRegistries.Prune` | ls/core/apply.py:235-263 | removes exactly the unreferenced managed library entries, in name order |
| `PackageRegistries.PrunableMeans` | ls/core/apply.py:235-263 | pruning takes exactly managed packages without a reference, and never the tool's own names or a backup |
| `PackageRegistries.WithoutOwnersShape` | ls/core/personal_detach.py:20-40 | a receipt row keeps the remaining owners with their selections and the origins of what they select, or goes with its last owner |
| `PackageRegistries.RowsWithoutConcat` | ls/core/personal_detach.py:20-40 | every receipt row is taken on its own, in order |
| `PackageRegistries.DetachOwnersInSteps` | ls/core/personal_detach.py:65-95 | registry and receipt rows do not remember in which order owners were detached |
| `PackageRegistries.PackageRegistry.RecordPersonalOwners` | ls/core/personal_registry.py:46-89 | the in-place loops equal the specification, or change nothing |
| `PackageRegistries.PackageRegistry.UpsertTarget` | ls/core/registry.py:34-94 | the in-place loops equal the specification |
| `PackageRegistries.PackageRegistry.Detach` | ls/core/detach.py:89-108 | the in-place update equals the specification |
| `PackageRegistries.PackageRegistry.DetachPersonal` | ls/core/personal_detach.py:65-95 | the in-place update equals the specification, or changes nothing |
| `PersonalAdapters.WrittenAgrees` | ls/core/personal_adapter.py:141-163 | after a write marker and managed entries are exactly the written names, if and only if no entry left behind turns managed under the new marker |
| `PersonalAdapters.StrayIsNewlyPortable` | ls/core/personal_adapter.py:96-100 | in an agreeing directory only an unmanaged package copy under a new portable marker does |
| `PersonalAdapters.WrittenKeepsOthers` | ls/core/personal_adapter.py:144-147 | entries the marker does not name or nobody manages are left as they are, unless they are asked for |
| `PersonalAdapters.DetachKeepsAgreement` | ls/core/personal_detach.py:43-95 | a detach keeps marker, managed entries and the remaining owners' union in agreement at every path |
| `PersonalAdapters.DetachKeepsNeighbours` | ls/core/personal_adapter.py:144-147 | entries outside the marker survive a detach unchanged |
| `PersonalAdapters.DetachIsReady` | ls/core/personal_adapter.py:30-93 | in agreement a detach goes through if and only if its owners are recorded, no receipt row of theirs is malformed, and the library holds what stays selected wherever they were |
| `PersonalAdapters.DetachOrder` | ls/core/personal_detach.py:112-144 | detaching two groups of owners ends in the same world in either order |
| `PersonalInstalls.AttachKeepsAgreement` | ls/core/apply.py:474-541 | installing a target with its personal owners, repository rows paired, shared with owners or written alone, keeps agreement at every path if and only if what its owners and the target expose no more is still wanted there, no unwanted entry turns or stays managed, and no other repository wants more, or another mode, in a directory written alone |
| `PersonalInstalls.AttachedOwn` | ls/core/apply.py:266-335 | the same at one directory the repository writes alone |
| `RepositoryAdapters.ScopedAgrees` | ls/core/apply.py:266-335 | after the repository's own write marker and managed entries are exactly the written names, if and only if it left no managed entry behind |
| `RepositoryAdapters.SameModeLeavesNothing` | ls/core/apply.py:301-304 | in an agreeing directory a write in the mode of its marker leaves nothing but links a portable directory held by hand |
| `RepositoryAdapters.ScopedKeepsOthers` | ls/core/apply.py:301-304 | nothing but the marker's own packages in the new mode's form ever goes with a write |
| `RepositoryAdapters.ClearedAgrees` | ls/core/adapters.py:487-536 | after a removal nothing is marked, and nothing is managed if and only if no link stayed behind |
| `RepositoryAdapters.ClearedExact` | ls/core/adapters.py:487-536 | a removal takes away exactly what stands in the marker's form and is named by the marker or the record, or everything in that form when neither names anything |
| `RepositoryAdapters.LinksAreCleared` | ls/core/adapters.py:487-536 | and none stays behind in an agreeing directory of links |
| `RepositoryAdapters.ScopedDirectory.WriteScoped` | ls/core/apply.py:266-335 | the loops succeed if and only if all names are in the library; then every name is a managed copy when portable and a link otherwise, and the directory equals the specification |
| `RepositoryAdapters.ScopedDirectory.RemoveManaged` | ls/core/adapters.py:487-536 | the loop equals the specification |
| `PersonalInstalls.AttachedRow` | ls/core/personal_adapter.py:103-114 | the same at one written directory, whatever state it was in before |
| `PersonalInstalls.RowNamesMeaning` | ls/core/repository_overlap.py:13-56 | the names a write puts in place are the union of everybody at the path afterwards, and what is given up there |
| `PersonalInstalls.AttachIsReady` | ls/core/apply.py:474-541 | an installation of paired, recordable rows goes through if and only if in every directory the modes of everybody there meet, and what is written, the union afterwards and what is given up, is in the library and free or the tool's own |
| `PersonalInstalls.ReleaseKeepsAgreement` | ls/core/detach.py:113-196 | a target detach, which rewrites the directories it shares with personal owners and clears its own, keeps agreement at every path if and only if what it clears is no other repository's and keeps no link |
| `PersonalInstalls.ReleaseIsReady` | ls/core/detach.py:113-196 | a target detach goes through if and only if in every shared directory of a removed row whoever stays has its mode, and what stays selected is in the library and free or the tool's own |
| `PersonalInstalls.FewerPathsLeaveStale` | ls/core/personal_registry.py:87 | two installations that leave a directory exposing what nobody selects: the owner is recorded again at fewer paths |
| `PersonalInstalls.HandMadeCopyTurnsManaged` | ls/core/personal_adapter.py:96-100 | one portable installation that turns a package copy made by hand managed |
| `PersonalInstalls.ModeSwitchLeavesLink` | ls/core/apply.py:301-304 | two installations of a repository alone, from links to copies and without one package, that leave its link behind |
| `PersonalInstalls.RunKeepsAgreement` | ls/core/personal_adapter.py:117-163 | over any run of installations, personal detaches and target detaches, marker, managed entries and the union of everybody at the path agree throughout if and only if every operation was harmless in that sense |
| `PersonalInstalls.EverybodyIsServed` | ls/core/personal_adapter.py:117-163 | over any run of harmless operations every recorded owner finds each of its packages in each of its directories, and every repository row its own, as a managed copy or as a link, as the record says |
| `PersonalInstalls.RunKeepsForms` | ls/core/personal_adapter.py:149-163 | over any run whatever a marker names stands there in the marker's own form: copies under a portable marker, links otherwise |
| `PersonalInstalls.RunSparesForeign` | ls/core/personal_adapter.py:141-163 | over any run whatever else stands in a directory, a file, a foreign link or an unmarked copy, stays as it is |
| `PersonalAdapters.Select` | ls/core/personal_adapter.py:42-70 | the loops compute exactly the union of the given, the other recorded and the repository owners, without the excluded target's rows and with its new packages, or fail on a mode conflict |
| `PersonalAdapters.AdapterDirectory.WriteEntries` | ls/core/personal_adapter.py:117-163 | succeeds if and only if all names are in the library and each is free or taken by an entry of the tool's own; then every name is a managed copy when portable and a link otherwise, and the directory equals the specification |
| `PersonalInstalls.PersonalHome.DetachOwners` | ls/core/personal_detach.py:112-144 | succeeds if and only if every path can be rewritten, and then every path is rewritten, nothing foreign is touched and the registry saved; otherwise nothing changes |
| `PersonalInstalls.PersonalHome.AttachOwners` | ls/core/apply.py:474-541 | succeeds if and only if rows are paired, selections recordable and every directory writable, and then every row's directory is written, shared or alone, marked in the row's mode with the marked packages in that form, nothing foreign is touched and the registry saved; otherwise nothing changes |
| `PersonalInstalls.PersonalHome.ReleaseTarget` | ls/core/detach.py:131-196 | for receipts that agree on what goes, succeeds if and only if every shared directory can be rewritten, and then every removed row's directory is rewritten or cleared, nothing foreign is touched and the registry saved; otherwise nothing changes |

## Left out

- OpenPGP sealing, trust, secrets and SHA-256 itself: sealing is an accepted or refused step that yields a fresh digest.
- JSON: records, plans and manifests are values; payload limits, nesting limits and number forms are not modelled.
- Descriptor-level file safety (links, modes, inode comparison, fsync), the runtime lease, `flock` and the broker channel: they appear as atomic steps, held locks and messages that may be lost.
- Reads of the configuration store are one reading of HEAD and its ancestors; the re-check of HEAD at the end of `load` is the fault a reading may report.
- Wall-clock parts: deadlines, `poll`, cadence timing, audit events.
- `reconcile_channels` as its own loop: the run model lets any finish or abort request reach any participant at any time, which covers what that loop sends.
- Export of an editable working set and the JSON checks of its files; `ConfigurationEdits.FlushEdit` starts from the parsed files.
- Faults of the operating system during the rollback itself, and directories created by `ensure_dir` outside the journal; the undo theorems are about recorded paths and whole trees reached by recorded mutations.
- The legacy lockfile item of the journal and external snapshot publication.
- `required_skill_closure`, schema checks and declared names of the dependency ledger; Python's recursion limit in the cycle search and in the fingerprint scan.
- Concurrent writers during a package fingerprint: the scan sees one tree; the identity comparisons only reject.
- File names that are not valid Unicode text, and `PurePath.suffix` for names of dots only.
- A crontab write that takes effect after its outcome was read back, partial crontab writes, and a corrupted ownership record.
- HeartbeatSchedule.WritesKeepTheRest: an edit of somebody else between the second snapshot and the write is not protected by the code, so the statement is about the snapshot.
- Redaction and shortening of the fields of a feedback draft, request budgets, and deletion or rewriting of issues by other people; a remote call that takes effect after its answer was recorded.
- FeedbackDrafts.RenderedDraftDuplicates: the event's own fields hold no backtick, so that nothing before the observation can open a block; which drafts duplicate in general is `HealthFeedback.DuplicateIffQuoted`.
- HealthFeedback.NoDuplicateIssues: one home directory's target lock is assumed to cover every writer of this tool.
- PersonalInstalls.RunKeepsAgreement: the older `.localsetup-portable` mark, and directories that are themselves links.
- PersonalInstalls.PersonalHome.ReleaseTarget: the registry's rows and the receipt's are taken to be the same; lock file and snapshots are not modelled, the directories are put back in one assignment.
- PersonalInstalls.PersonalHome.AttachOwners: retiring historical adapters in the same plan.
- PersonalInstalls.PersonalHome.DetachOwners: the receipt files of affected targets, and the rollback as such, which is the journal replay of `ApplyJournal`; here the directories are put back in one assignment.
- PersonalAdapters.Select: package origins that conflict between owners at one path; a name stands for one package.
- PersonalAdapters.AdapterDirectory.WriteEntries: retired legacy aliases, external originals inside an adapter and mutable-copy receipts.
- ApplyJournal.Transaction.InstallAll: what a source package is transformed into (its artifact and marker) is given; the directory of each staging name exists, as `ensure_dir` and `mkdir` leave it.
- Client prerequisite probes, command-line handling, wizards, documentation, SBOM and archive building, subprocess and Git plumbing, health reports.
