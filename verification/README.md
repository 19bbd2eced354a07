# Verification model of foundryvtt-fetch and the login tables of foundry-circle

This project models four parts of the repository in Dafny and proves what they promise.

* **The package reconciler** (`crates/foundryvtt-fetch/src/reconcile.rs`). A manifest of
  wanted packages, a ledger of packages that were seeded once, and a directory tree that
  belongs to the user. The tree is an inductive `Node`; `Disk` is a class whose methods
  change it one file-system step at a time and note every state passed, so that "stopped
  after any step" is a statement about that record. `Reconcile` and everything it calls
  are methods proved against `MidRun` (what holds whenever a run stops) and `Outcome`
  (what holds when it succeeds). On these rest crash convergence, preservation of user
  data, the ledger as a fold over its history, seeding at most once, and the
  serialization of concurrent reconcilers.
* **Links and trees** (`safe_symlink_target` in `lib.rs`, `copy_tree`). The push/pop
  resolver is proved equal to a depth test, the depth test to containment, and lexical
  resolution to a walk that follows links as the kernel does.
* **The archive cache, its validator and the daemon** (`lib.rs`, `daemon.rs`). The
  64-bit validation loop is proved to accept exactly the archives a quantified
  specification accepts. `Cache` is a class over the files of the cache directory whose
  two renames per entry are separate steps. The daemon is a transition system of any
  number of handlers, crashes and restarts, with `Serve` as the sequential handler.
* **Logins and sessions** (`crates/foundry-circle/src/auth.rs`). `Database` is a class
  over the three tables, tied by its `Valid` to a run of committed operations, and
  `Callbacks` lets row locks, deletes, commits, identity checks and session inserts
  interleave.

Release identifiers and the retry loop are modelled as well.

## How to read the model

* Names of Rust functions appear in back quotes in the doc comments of their models.
  The files are `Paths`, `Trees`, `Texts`, `Temps`, `Packages`, `Hosts`, `Disks`, `Progress`,
  `Reconciler`, `Convergence`, `Shortfalls`, `Histories`, `Locking`, `Sessions`, `Releases`, `Archives`, `Caches`,
  `Daemon`, `Logins`, `Callbacks`, `Retry` and `Wrappers`.
* Errors are values. An input or output operation that the host refuses is a
  nondeterministic choice, which a `healthy` disk or cache does not make.
* Library code is a parameter: SHA-256, ZIP decoding, JSON and text decoding are the
  functions in `Library`, the sidecar encoding and the SRI form of a digest those in
  `Codec`. `Lawful` says what is assumed of them: a sidecar reads back as it was written,
  a digest is never empty and always has an SRI form; numbers have their widths.
* The maps of `reconcile_locked` are walked in key order; the model walks them in any
  order, so the theorems hold of that one too.

## Where the code differs from what one might read into it

* `check_seed_target` and `check_initialized_target` are the same test; the model has one
  (`TargetFault`).
* The README of the crate says a legacy link is materialized once. If the run stops
  between the two renames of that swap, a *recorded* target is missing and no later run
  puts it back: `CrashConvergence`, and `CrashesConverge` for any number of stops, hold
  exactly outside that case. Every run with such a link can stop there
  (`StopBetweenRenames`), and `LostLinkStaysMissing` states what it costs.
* A rerun of an accepted manifest passes preflight again exactly when foreign links among
  its targets still lead to directories (`RerunAccepted`). A foreign link to a target that
  was just being replaced does not (`RerunRefused`); `RefusedAfterStop` builds such an
  input, two modules of which the second is a link to the first. `ForeignLinkUndisturbed`
  gives a condition that can be checked beforehand.
* A package id may begin like a temporary name. A deleted recorded target of that id stays
  deleted as long as each run declares it (`DeletedStaysDeleted`); a stopped run that does
  not may leave a file of its own there (`TemporaryIdMayReappear`).
* `ReleaseId::parse` drops a prefix only together with `.zip`, and knows no Node prefix:
  the archive name the cache gives to a Node release is no release identifier
  (`PrefixAloneRejected`, `NodeNameRejected`).
* `get_with_max` trusts a stored SRI that is not empty (`StoredSriTrusted`). The truth of
  the SRI rests on what `put_at` writes, which is the invariant `Sound`.
* `safe_symlink_target` decides on a copy of the target with trailing NULs dropped and
  backslashes turned into slashes. For entry names of plain components it accepts a target
  if and only if that copy is not empty, is not absolute, has no colon, and never leaves
  the tree on the way (`SafeIffContained`); a harmless target with a colon is refused. The
  link that is created keeps its backslashes, and stays inside exactly when the same check
  accepts the text as it stands (`KeptBackslashesContained`); `BackslashEscapes` are
  targets for which it does not. A leading `./` of the entry name counts as a level: what
  is accepted stays inside exactly when it is accepted without the dot
  (`LeadingDotContained`), and `LeadingDotEscapes` is an input where it is not.
  `SafeLinksLeaveTogether` shows that the verdict is about one link at a time;
  `WalkIsLexical` says when the walk and the verdict agree.
* A token expiry claim beyond the signed range wraps to an instant before 1970
  (`WrappedClaimIsOver`); one that the calendar cannot represent is ignored.

## Model

| member | source | states |
|---|---|---|
| Paths.ComponentsOfJoin | crates/foundryvtt-fetch/src/reconcile.rs:382-393 | the relative path of a node of a package, joined by slashes, splits back into exactly its names |
| Paths.SplitOfJoin | crates/foundryvtt-fetch/src/lib.rs:913-915 | pieces without slashes, joined by slashes, split back into exactly those pieces, empty ones included |
| Paths.ComponentsOfPieces | crates/foundryvtt-fetch/src/lib.rs:929-938 | the components of any text: an empty first piece before a slash is the root, a first dot is itself, and every other piece speaks for itself in its place |
| Paths.OnePart | crates/foundryvtt-fetch/src/lib.rs:929-938 | an empty piece and a dot vanish, two dots are the parent, anything else is a name |
| Paths.ComponentsOfAbsolute | crates/foundryvtt-fetch/src/reconcile.rs:228-235 | an absolute path of plain names is the root and those names |
| Paths.CleanedExactly | crates/foundryvtt-fetch/src/lib.rs:924-926 | the text the check reads is the target without the NULs at its end and with a slash for each backslash |
| Paths.StaysIffEveryPrefix | crates/foundryvtt-fetch/src/lib.rs:929-940 | the depth test holds if and only if the running depth is non-negative after every prefix |
| Paths.ContainedIffStays | crates/foundryvtt-fetch/src/lib.rs:929-940 | the depth test holds if and only if no prefix of the resolution leaves the tree, whatever directory the tree hangs under |
| Paths.FirstEscape | crates/foundryvtt-fetch/src/lib.rs:929-940 | a refused component list has a first prefix that leaves the tree |
| Paths.SamePlaceEverywhere | crates/foundryvtt-fetch/src/reconcile.rs:382-398 | an accepted target resolves to the same relative place in the original and in the copy |
| Paths.PushPopAll | crates/foundryvtt-fetch/src/lib.rs:929-940 | the loop that pushes and pops components decides the depth test |
| Paths.SafeSymlinkTarget | crates/foundryvtt-fetch/src/lib.rs:924-942 | decides `SafeTarget`: not empty, not absolute, no colon, and the depth test from the directory of the link |
| Paths.SafeIffContained | crates/foundryvtt-fetch/src/lib.rs:924-942 | for an entry of plain names and any target, accepted if and only if the cleaned text is not empty, not absolute, without colon, and every prefix of its resolution stays inside, under any root |
| Paths.KeptBackslashesContained | crates/foundryvtt-fetch/src/lib.rs:924-926 | an accepted link as it is created stays inside if and only if the same check accepts its text with the backslashes kept |
| Paths.LeadingDotCountsAsALevel | crates/foundryvtt-fetch/src/lib.rs:927-940 | an entry name beginning with `./` is allowed exactly one level more than its directory has |
| Paths.LeadingDotContained | crates/foundryvtt-fetch/src/lib.rs:927-940 | what is accepted for `./` before a plain name stays inside if and only if it is accepted without the dot |
| Paths.LeadingDotEscapes | crates/foundryvtt-fetch/src/lib.rs:927-940 | an entry `./x` that points at `..` is accepted and leaves the tree |
| Paths.BackslashEscapes | crates/foundryvtt-fetch/src/lib.rs:924-926 | a target with a backslash can be accepted and still leave the tree, because the check reads slashes |
| Trees.CopyableEverywhere | crates/foundryvtt-fetch/src/reconcile.rs:363-406 | a tree is copyable if and only if every node of it is a directory, a file, or a link whose target is safe at its place |
| Trees.MutableNodeByNode | crates/foundryvtt-fetch/src/reconcile.rs:363-411 | the copy has a node exactly where the original has one, of the same kind, names, bytes and link text, with owner write added to files and directories |
| Trees.OwnerWriteIsBit7 | crates/foundryvtt-fetch/src/reconcile.rs:408-411 | the mode of the copy has bit 7, octal 200, and every other bit as in the original |
| Trees.MutableTwice | crates/foundryvtt-fetch/src/reconcile.rs:408-411 | copying a copy changes nothing more |
| Trees.WalkIsLexical | crates/foundryvtt-fetch/src/lib.rs:924-942 | where no strict prefix is a link, the walk arrives at a place if and only if it is the lexical resolution, it exists, and every strict prefix is a directory |
| Trees.FollowStep | crates/foundryvtt-fetch/src/reconcile.rs:304-309 | a link on the way is replaced by its target and one link fewer may follow |
| Trees.WalkInPlace | crates/foundryvtt-fetch/src/reconcile.rs:363-406 | a walk that stays in a package, through any number of links, goes the same way wherever the package lies |
| Trees.WalksAgreeInPlace | crates/foundryvtt-fetch/src/reconcile.rs:363-406 | with the package in the store and its copy at the target, every walk that stays in the package ends at the same relative place in both or fails alike |
| Trees.CopiedLink | crates/foundryvtt-fetch/src/reconcile.rs:382-398 | every link of a copied package has the same text at the same place, and without backslashes resolves to the same relative place, leaving neither tree on the way |
| Trees.SafeLinksLeaveTogether | crates/foundryvtt-fetch/src/reconcile.rs:382-398 | two links that both pass the check lead out of the package when one goes through the other |
| Disks.Disk.CopyTree | crates/foundryvtt-fetch/src/reconcile.rs:363-406 | succeeds only on a copyable directory and then leaves exactly its mutable copy at the target; on a working host it fails only on others; no step writes anywhere else, so the source stays |
| Disks.Disk.CopyEntry | crates/foundryvtt-fetch/src/reconcile.rs:374-404 | the same for one entry of any kind at a free place |
| Disks.Disk.Rename | crates/foundryvtt-fetch/src/reconcile.rs:332-333 | one step that moves a node to a free name or changes nothing |
| Disks.Disk.WriteLedger | crates/foundryvtt-fetch/src/reconcile.rs:421-433 | one step that replaces the whole ledger or leaves it |
| Packages.KeyInjective | crates/foundryvtt-fetch/src/reconcile.rs:237-239 | different packages have different keys |
| Packages.PlacesSpelled | crates/foundryvtt-fetch/src/reconcile.rs:237-249 | keys are the kind, a slash and the id; targets lie in `Data/modules` and `Data/systems` under the id |
| Packages.TargetsApart | crates/foundryvtt-fetch/src/reconcile.rs:241-249 | targets of different packages are different and none lies inside another |
| Packages.IdIsOneName | crates/foundryvtt-fetch/src/reconcile.rs:206-215 | the id of an accepted package is a single path name, so its target lies directly below its area |
| Packages.AcceptedExactly | crates/foundryvtt-fetch/src/reconcile.rs:196-235 | a package is accepted if and only if it is a module or system, present or absent, with a proper id, and if present a version that is not blank and an absolute store directory |
| Packages.IdCharsExactly | crates/foundryvtt-fetch/src/reconcile.rs:209-212 | an id is made of ASCII letters, digits, dot, underscore and hyphen, by code point |
| Packages.FaultsExactly | crates/foundryvtt-fetch/src/reconcile.rs:196-235 | the store path is complained of only when everything else is right; every other complaint is an unsafe id |
| Packages.FaultAtExactly | crates/foundryvtt-fetch/src/reconcile.rs:118-132 | after good packages the next is at fault for itself, or as an unsafe id if its kind and id were listed before |
| Packages.ManifestOkExactly | crates/foundryvtt-fetch/src/reconcile.rs:118-132 | the list is accepted if and only if no package is at fault and no two have both kind and id the same |
| Packages.AbsolutePlace | crates/foundryvtt-fetch/src/reconcile.rs:228-235 | an absolute text of plain names stands for exactly that place |
| Packages.RelativeHasNoPlace | crates/foundryvtt-fetch/src/reconcile.rs:231-231 | a text that is not absolute stands for no place |
| Packages.StoreIsDirExactly | crates/foundryvtt-fetch/src/reconcile.rs:228-235 | a plain absolute store path passes if and only if a directory itself lies there |
| Packages.OwnLinkMeans | crates/foundryvtt-fetch/src/reconcile.rs:284-284 | only a link can be the own link, and is if and only if its text has the components of the source |
| Packages.OwnLinkExactly | crates/foundryvtt-fetch/src/reconcile.rs:313-313 | for plain absolute texts the own link is exactly the one to the same place, and a relative text never is |
| Packages.PlanOfMeans | crates/foundryvtt-fetch/src/reconcile.rs:118-132 | the plan wants present and absent exactly the keys the list names so |
| Packages.AcceptedPlan | crates/foundryvtt-fetch/src/reconcile.rs:118-132 | an accepted list gives a plan whose keys belong to its own valid packages with store directories |
| Packages.AdmissibleExactly | crates/foundryvtt-fetch/src/reconcile.rs:94-144 | a run goes ahead if and only if both schemas are 1, the ledger reads, all packages are valid, no kind and id repeat, and every target passes |
| Packages.PreflightExactly | crates/foundryvtt-fetch/src/reconcile.rs:134-144 | each target is held against the recorded store path of its package, or the declared one if none is recorded |
| Reconciler.Classify | crates/foundryvtt-fetch/src/reconcile.rs:118-132 | accepts exactly the lists whose packages are all valid and distinct, and returns their plan |
| Reconciler.Preflight | crates/foundryvtt-fetch/src/reconcile.rs:134-144 | passes if and only if every target passes, without changing anything |
| Reconciler.SeedIfMissing | crates/foundryvtt-fetch/src/reconcile.rs:311-334 | fills a missing, unrecorded target with the copy of its store directory, leaves any other target, and every stopping point is one a stopped run may leave |
| Reconciler.MaterializeLegacyLink | crates/foundryvtt-fetch/src/reconcile.rs:336-361 | replaces the very link to the source by a copy of it and leaves every other target; every stopping point is one a stopped run may leave |
| Reconciler.SwapIn | crates/foundryvtt-fetch/src/reconcile.rs:348-360 | moving the link aside and the copy in finishes the package, or leaves a state a stopped run may leave |
| Reconciler.Install | crates/foundryvtt-fetch/src/reconcile.rs:348-355 | the second rename finishes the package or changes nothing, and leaves the link that was moved aside alone |
| Reconciler.Restore | crates/foundryvtt-fetch/src/reconcile.rs:354-356 | the link is renamed back to the target or stays lost |
| Reconciler.PutBack | crates/foundryvtt-fetch/src/reconcile.rs:354-360 | after a failed second rename every step, also of the clean-up, leaves a state a stopped run may leave |
| Reconciler.SeedAll | crates/foundryvtt-fetch/src/reconcile.rs:145-165 | finishes every present package in any order and adds unrecorded ones to the ledger; on a working host it fails only if some needed copy is impossible |
| Reconciler.RemoveAbsent | crates/foundryvtt-fetch/src/reconcile.rs:166-170 | exactly the absent keys leave the ledger |
| Reconciler.ReconcileLocked | crates/foundryvtt-fetch/src/reconcile.rs:112-176 | a bad manifest or target changes nothing and ends with the first package fault or a target fault; otherwise success means the whole outcome, and on a working host success is exactly that every needed copy is possible |
| Reconciler.Reconcile | crates/foundryvtt-fetch/src/reconcile.rs:89-110 | the same for the whole run, with the schema and state-file checks and their errors; every state passed on the way is one a stopped run may leave |
| Convergence.UserDataPreserved | crates/foundryvtt-fetch/README.md:48-52 | whenever a run stops, an existing node has changed only if it was exactly the link to its own store path, and new nodes lie only at targets that were to be filled or under temporary names |
| Convergence.OnlyOwnLinksChange | crates/foundryvtt-fetch/README.md:48-54 | in terms of the manifest: whenever a run stops, what changed was the link at a present package's target to that package's store directory, and what is new is temporary or at or below such a target or a missing, unrecorded one |
| Convergence.UpperDirectoriesKept | crates/foundryvtt-fetch/src/reconcile.rs:325-326 | directories on the way to the areas keep their mode, other nodes there are untouched, and what was missing may be a directory |
| Convergence.CompletedTarget | crates/foundryvtt-fetch/src/reconcile.rs:145-165 | what a completed run leaves at a target, case by case: anything but the own link as it was, the copy for the own link and for a missing unrecorded target, nothing for a missing recorded one |
| Convergence.StoreStays | crates/foundryvtt-fetch/README.md:52-54 | store trees are never changed |
| Convergence.TargetConverges | crates/foundryvtt-fetch/src/reconcile.rs:145-165 | a rerun aims at the same node for a target if and only if the target is not a lost link |
| Convergence.CrashConvergence | crates/foundryvtt-fetch/src/reconcile.rs:134-175 | a run stopped after any step and run again gives the ledger and the targets of an uninterrupted run, each target exactly when it is not a recorded link stopped between its two renames |
| Convergence.OneMoreStop | crates/foundryvtt-fetch/src/reconcile.rs:134-175 | one more stopped run keeps the directory on the way from the first start, and a lost link stays lost |
| Convergence.CrashesConverge | crates/foundryvtt-fetch/src/reconcile.rs:134-175 | the same for any number of stopped reruns: each target converges exactly when no stop fell between the two renames of its recorded link |
| Convergence.LostLinkStaysMissing | crates/foundryvtt-fetch/src/reconcile.rs:354-356 | in that one case the target stays missing where the uninterrupted run has a copy |
| Shortfalls.StopBetweenRenames | crates/foundryvtt-fetch/src/reconcile.rs:354-355 | every run with a recorded legacy link can stop with that link lost and nothing else changed |
| Shortfalls.RerunRefused | crates/foundryvtt-fetch/src/reconcile.rs:134-144 | if another package's target is a link to that entry, the accepted manifest is refused after that stop |
| Shortfalls.RefusedAfterStop | crates/foundryvtt-fetch/src/reconcile.rs:134-144 | there is such an input: two modules, the second a link to the first, accepted at first and refused after the stop |
| Convergence.RunTwice | crates/foundryvtt-fetch/README.md:48-52 | running the same manifest again changes no target and not the ledger |
| Convergence.RerunAccepted | crates/foundryvtt-fetch/src/reconcile.rs:134-144 | after a stop at any step the manifest is accepted again exactly when its foreign links still lead to directories |
| Convergence.RerunCopies | crates/foundryvtt-fetch/src/reconcile.rs:145-165 | what the rerun has to copy can still be copied |
| Convergence.TargetAccepted | crates/foundryvtt-fetch/src/reconcile.rs:276-309 | one target passes the rerun's preflight, except that a foreign link must still lead to a directory |
| Convergence.FaultMeans | crates/foundryvtt-fetch/src/reconcile.rs:276-309 | the preflight test passes a missing target with a clear way, the link to the source if the source is a directory, and whatever leads to a directory |
| Convergence.FaultErrors | crates/foundryvtt-fetch/src/reconcile.rs:276-309 | which fault it is: an own link without its store directory, anything else that leads to no directory, or no way to the target |
| Convergence.LeadsExactly | crates/foundryvtt-fetch/src/reconcile.rs:304-309 | a directory leads to itself, no other node but a link leads anywhere, and a link to a plain absolute place with no link in the way leads there |
| Convergence.WalkUndisturbed | crates/foundryvtt-fetch/src/reconcile.rs:304-309 | a walk that arrives without passing over replaced links arrives at the same place afterwards |
| Convergence.ForeignLinkUndisturbed | crates/foundryvtt-fetch/src/reconcile.rs:304-309 | a target that led to a directory without passing over a link the run replaces still does whenever the run stops |
| Histories.EntryStep | crates/foundryvtt-fetch/src/reconcile.rs:145-175 | what one run, stop or edit does to one ledger entry |
| Histories.DeclaredStep | crates/foundryvtt-fetch/src/reconcile.rs:145-175 | the entry called for by a history changes with one more declaration as the ledger does |
| Histories.LedgerIsFold | crates/foundryvtt-fetch/src/reconcile.rs:118-175 | after any history of runs, stops and edits each entry is the first present one since the last absent one, or the initial one |
| Histories.RecordedEntryIs | crates/foundryvtt-fetch/src/reconcile.rs:145-170 | a recorded entry is the initial one or has the kind, id, version and store path of the committed run that entered it, with no absent declaration since |
| Histories.RecordedIffLastPresent | crates/foundryvtt-fetch/src/reconcile.rs:145-175 | a key is recorded if and only if a committed run wanted it present with none after it naming it absent, or it was recorded at the start and never named absent |
| Histories.RecordedNeverFilled | crates/foundryvtt-fetch/README.md:48-50 | no run fills the missing target of a recorded package |
| Histories.StaysRecorded | crates/foundryvtt-fetch/README.md:48-51 | a recorded key stays recorded until a committed run names it absent |
| Histories.SeedAtMostOnce | crates/foundryvtt-fetch/README.md:48-51 | between two runs that fill one target, whatever users do, some committed run names the package absent |
| Histories.FillsExactly | crates/foundryvtt-fetch/src/reconcile.rs:145-165 | a completed run fills the target of a wanted package if and only if it is missing, unrecorded, and its store path holds something |
| Histories.StaysUnrecorded | crates/foundryvtt-fetch/README.md:50-51 | a key named absent stays unrecorded until a committed run wants it present |
| Histories.RefilledAfterAbsent | crates/foundryvtt-fetch/README.md:50-51 | after an absent declaration the next run that wants the package and finds its target missing fills it with the copy |
| Histories.StillMissing | crates/foundryvtt-fetch/README.md:48-50 | one run leaves a recorded, missing target missing, except under an id that looks temporary and that it does not declare |
| Histories.TemporaryIdMayReappear | crates/foundryvtt-fetch/src/reconcile.rs:341-347 | that exception is real: such a run may stop with a temporary file under that very name |
| Histories.DeletedStaysDeleted | crates/foundryvtt-fetch/README.md:48-50 | a recorded target that was deleted is missing after every later run until the package is named absent; an id that looks temporary has to be declared by those runs |
| Histories.OnlyUsersChange | crates/foundryvtt-fetch/README.md:48-52 | over any history a directory or file outside the directories above the areas is changed by no run of any manifest, only by edits |
| Histories.TargetDirectoryKept | crates/foundryvtt-fetch/README.md:48-52 | in particular a target that is a directory, whatever versions and store paths the runs declare |
| Locking.MoveFits | crates/foundryvtt-fetch/src/reconcile.rs:145-175 | every single step a process may take keeps its session a run of its plan on the world it found |
| Locking.StepKeepsGood | crates/foundryvtt-fetch/src/reconcile.rs:100-109 | every step of every process keeps the invariant of lock, ledger and finished sessions |
| Locking.SessionsSerialize | crates/foundryvtt-fetch/src/reconcile.rs:100-109 | every interleaving is one sequential history from the initial world to the present one, in the order the lock was let go |
| Locking.NoLostEntry | crates/foundryvtt-fetch/src/reconcile.rs:100-109 | with the lock free, every ledger entry is the one the committed sessions in that order call for |
| Locking.AlwaysMidRun | crates/foundryvtt-fetch/src/reconcile.rs:100-109 | at any moment inside a session user data is preserved as in a single run |
| Sessions.TempStepIsMove | crates/foundryvtt-fetch/src/reconcile.rs:363-406 | every step of a copy and of its removal is a move the protocol allows |
| Sessions.AsideIsMove | crates/foundryvtt-fetch/src/reconcile.rs:354-354 | so is the first rename of a swap, with the same result |
| Sessions.InstallIsMove | crates/foundryvtt-fetch/src/reconcile.rs:332-355 | so is the rename of a finished copy to its target |
| Sessions.CommitIsMove | crates/foundryvtt-fetch/src/reconcile.rs:166-175 | so is the write of the ledger, with the entries the run computes |
| Sessions.Session | crates/foundryvtt-fetch/src/reconcile.rs:89-110 | a whole run, accepted, is one more session of the log, and at each of its steps the log could end with it stopped there; refused, it leaves the world as the log has it |
| Releases.ParseExactly | crates/foundryvtt-fetch/src/lib.rs:69-98 | white space at the ends aside, exactly these texts name a release: a bare form, alone or between either prefix or none and the suffix |
| Releases.BareFormsExactly | crates/foundryvtt-fetch/src/lib.rs:77-98 | a bare form is the numerals of a 16-bit major and a 32-bit build with one dot between, or with a plus sign before the build and perhaps more after a dot behind the major |
| Releases.DottedBuildRejected | crates/foundryvtt-fetch/src/lib.rs:84-91 | three numbers with dots and no plus sign are no identifier |
| Releases.NamesSpelled | crates/foundryvtt-fetch/src/lib.rs:101-110 | the display and the four file names, letter by letter |
| Texts.ReadsExactly | crates/foundryvtt-fetch/src/lib.rs:92-97 | a text reads as a number if and only if it is the numeral of that number, after at most one plus sign and any zeros, and the number is in range |
| Texts.TrimExactly | crates/foundryvtt-fetch/src/lib.rs:70-70 | trimming takes off white space at both ends and nothing else |
| Releases.ParseShow | crates/foundryvtt-fetch/src/lib.rs:69-110 | parsing inverts display, for every major and build |
| Releases.AcceptedReparses | crates/foundryvtt-fetch/src/lib.rs:69-110 | the display of whatever was accepted is accepted as the same release |
| Releases.ParseArchiveName | crates/foundryvtt-fetch/src/lib.rs:71-103 | parsing inverts the Linux archive name |
| Releases.NodeNameRejected | crates/foundryvtt-fetch/src/lib.rs:71-76 | the cache's name for a Node archive is not a release identifier |
| Releases.PrefixAloneRejected | crates/foundryvtt-fetch/src/lib.rs:71-98 | after either prefix without the suffix, whatever follows, the text is no release identifier |
| Releases.ParseVersion | crates/foundryvtt-fetch/src/lib.rs:77-98 | `M.x.y+B` is read as major M and build B, whatever lies between |
| Releases.ArchiveNamesDistinct | crates/foundryvtt-fetch/src/lib.rs:291-297 | one archive name belongs to one release and platform |
| Releases.MetadataNamesDistinct | crates/foundryvtt-fetch/src/lib.rs:303-309 | one sidecar name belongs to one release and platform |
| Releases.ArchiveIsNotMetadata | crates/foundryvtt-fetch/src/lib.rs:291-309 | no archive name is a sidecar name |
| Archives.PackageNamesOne | crates/foundryvtt-fetch/src/lib.rs:502-543 | one package.json vouches for at most one release |
| Archives.JsonU32Exactly | crates/foundryvtt-fetch/src/lib.rs:545-552 | a JSON value says a 32-bit number as that number or as a text that spells it |
| Archives.ReleaseObjectExactly | crates/foundryvtt-fetch/src/lib.rs:502-523 | with a release object a package.json names a release if and only if both numbers in it say so |
| Archives.LegacyVersionExactly | crates/foundryvtt-fetch/src/lib.rs:524-543 | without one it names exactly the release before 13 that its version text parses to |
| Archives.ReleaseObjectNames | crates/foundryvtt-fetch/src/lib.rs:502-552 | a release object with both numbers, each as a number or as decimal text, names its release |
| Archives.LegacyVersionNames | crates/foundryvtt-fetch/src/lib.rs:524-543 | without a release object a version text names the release it spells, exactly when that is before 13 |
| Archives.SafeZipPathExactly | crates/foundryvtt-fetch/src/lib.rs:909-916 | an entry name is accepted if and only if it is not empty, not absolute, has no colon and no piece of two dots |
| Archives.SafeEntryStaysInside | crates/foundryvtt-fetch/src/lib.rs:909-916 | no prefix of an accepted entry name leaves the tree it is unpacked in |
| Archives.CheckEntry | crates/foundryvtt-fetch/src/lib.rs:452-493 | one turn of the loop finds the first fault of an entry, error by error |
| Archives.ValidateArchive | crates/foundryvtt-fetch/src/lib.rs:421-500 | the loop with the 64-bit running size returns the first fault of the entries in order, or digest and size |
| Archives.ScanMeans | crates/foundryvtt-fetch/src/lib.rs:452-493 | the scan finds no fault if and only if every entry is good by itself and the unbounded sum of sizes is within the limit |
| Archives.AcceptsExactly | crates/foundryvtt-fetch/src/lib.rs:421-500 | accepts exactly the archives that are within the limits, all of whose entries are good, and whose last package.json names the release; overflow of the 64-bit sum never changes the verdict |
| Archives.AcceptedByName | crates/foundryvtt-fetch/src/lib.rs:421-500 | accepted if and only if small enough, a ZIP of at most 100000 harmless entries whose sizes add up to no more than the limit, the last of which called `resources/app/package.json` or `package.json` names the release |
| Archives.HarmlessExactly | crates/foundryvtt-fetch/src/lib.rs:452-493 | an entry is good by itself if and only if its name, its link target and, for a package file, its size and readability are, in terms of its own fields |
| Archives.TotalSpelled | crates/foundryvtt-fetch/src/lib.rs:476-481 | sizes are added entry by entry |
| Archives.FaultKinds | crates/foundryvtt-fetch/src/lib.rs:452-493 | which refusal an entry meets: too large exactly for a 64-bit sum past the limit after a good name and link, unreadable exactly for a package file that cannot be read |
| Archives.ScanFirst | crates/foundryvtt-fetch/src/lib.rs:452-493 | the first entry at fault decides |
| Archives.RefusalKinds | crates/foundryvtt-fetch/src/lib.rs:421-500 | which refusal an archive meets |
| Archives.AcceptedForOne | crates/foundryvtt-fetch/src/lib.rs:487-500 | no archive is accepted for two releases |
| Archives.LimitMonotone | crates/foundryvtt-fetch/src/lib.rs:421-500 | what is accepted within a limit is accepted within a larger one |
| Caches.LookupTruthful | crates/foundryvtt-fetch/src/lib.rs:319-360 | whatever archive lies beside whatever sound sidecar, lookup answers nothing, an error, or the digest, size, release, platform and SRI of the bytes there |
| Caches.LookupInAnyCache | crates/foundryvtt-fetch/src/lib.rs:319-360 | in any cache all of that but the SRI is right, and the SRI is right if and only if none or the right one was stored |
| Caches.StoredSriTrusted | crates/foundryvtt-fetch/src/lib.rs:337-352 | any other stored SRI text is answered as it stands |
| Caches.StoredIsFound | crates/foundryvtt-fetch/src/lib.rs:319-416 | a stored entry is found again and describes what was stored |
| Caches.OthersUntouched | crates/foundryvtt-fetch/src/lib.rs:291-309 | storing an entry, or half of it, leaves every other entry's lookup as it was |
| Caches.PutKeepsSound | crates/foundryvtt-fetch/src/lib.rs:373-416 | each of the two renames keeps every sidecar sound |
| Caches.MidwaySound | crates/foundryvtt-fetch/src/lib.rs:373-416 | a put stopped anywhere leaves a sound cache |
| Caches.LookupLasting | crates/foundryvtt-fetch/src/lib.rs:319-360 | temporary files in the directory change no answer |
| Caches.MidwayAnswers | crates/foundryvtt-fetch/src/lib.rs:373-416 | in the real directory, temporary files and all, a put in progress leaves every other answer as it was, and its own as before, as with the new archive beside the old sidecar, or as the whole entry |
| Caches.GatherMeans | crates/foundryvtt-fetch/src/lib.rs:704-722 | gathering from any point gives all the chunks in order if all arrive and fit, otherwise the first of the two faults |
| Caches.NothingExactly | crates/foundryvtt-fetch/src/lib.rs:325-329 | nothing is found if and only if one of the two files is missing |
| Caches.EntryExactly | crates/foundryvtt-fetch/src/lib.rs:330-360 | with both files there the answer is an error if and only if the sidecar does not read or is for something else, the archive is not acceptable, a digest or size written down differs, or no SRI exists; otherwise the sidecar with each empty field filled in |
| Caches.EntryErrors | crates/foundryvtt-fetch/src/lib.rs:330-352 | which error it is |
| Caches.Cache.GetWithMax | crates/foundryvtt-fetch/src/lib.rs:319-360 | nothing exactly when a file is missing, an error exactly when an entry with both files is spoiled, and otherwise the answer the lemmas speak of |
| Caches.Cache.CopyFile | crates/foundryvtt-fetch/src/lib.rs:944-960 | copies exactly the input, never refuses one within the limit, and refuses every larger one unless the limit is the greatest 64-bit number |
| Caches.Cache.PutAt | crates/foundryvtt-fetch/src/lib.rs:373-416 | an input that does not validate changes nothing; success stores archive and sidecar of exactly these bytes; every state passed is the old cache, the new archive alone, or the whole entry |
| Caches.Cache.Download | crates/foundryvtt-fetch/src/lib.rs:704-722 | succeeds if and only if every chunk arrives and their total length is within the limit, and then gives exactly their concatenation; a broken stream or too many bytes is reported exactly when it comes first |
| Caches.Cache.Fetch | crates/foundryvtt-fetch/src/lib.rs:672-732 | success stores what was delivered and describes it; an invalid delivery changes nothing |
| Caches.ObtainedExactly | crates/foundryvtt-fetch/src/lib.rs:688-732 | a delivery comes to bytes if and only if all chunks arrive and fit and together are an acceptable archive |
| Caches.FetchedFields | crates/foundryvtt-fetch/src/lib.rs:388-415 | the artifact of what was stored, field by field |
| Caches.Cache.Acquire | crates/foundryvtt-fetch/src/lib.rs:641-669 | on a working host: the signed URL's artifact if it delivers, else the account's if usable credentials and it deliver; half a pair and bad credentials end it with their errors; otherwise the cached artifact, the cache's error, or the last route's error. Always, a success describes the stored bytes, and offline changes nothing |
| Daemon.AsksForExactly | crates/foundryvtt-fetch/src/daemon.rs:193-205 | a request passes the checks if and only if it has version 1, asks for Linux, names a release and expects a `sha256-` digest |
| Daemon.ServeRelease | crates/foundryvtt-fetch/src/daemon.rs:207-225 | a ready response names the stored, acceptable archive whose digest has the expected SRI; on a working, publishing host it is given exactly when the bytes available have that SRI; an entry with both files is left as it is |
| Daemon.Serve | crates/foundryvtt-fetch/src/daemon.rs:186-226 | a ready response is given, on a working host, exactly when the bytes available for the requested release have the requested SRI, and is then true; a request that fails a check, or whose entry has both files, changes nothing |
| Daemon.StepKeepsGood | crates/foundryvtt-fetch/src/daemon.rs:156-226 | every step of every handler, failures before, between and after the two renames, and a crash, keep the cache sound, the mutex exclusive and every answer given so far true |
| Daemon.PutIsSteps | crates/foundryvtt-fetch/src/lib.rs:373-416 | every directory a put passes through is, for readers, the cache before the handler's write steps, after the first, or after both |
| Daemon.ReadyIsTrueForEver | crates/foundryvtt-fetch/src/daemon.rs:186-226 | over all interleavings, a ready response answers a request that passed every check, names the archive of the requested release with the requested SRI, and the same bytes lie there in every later state |
| Daemon.EntryNeverReplaced | crates/foundryvtt-fetch/src/daemon.rs:206-210 | once both files of an entry are there and no put is between its two renames, readable or not, both stay as they are in every later state |
| Daemon.EveryReadyIsRecorded | crates/foundryvtt-fetch/src/daemon.rs:213-222 | every ready response is among the answers that theorem speaks of |
| Daemon.NeverVouchesFalsely | crates/foundryvtt-fetch/src/lib.rs:373-416 | in every reachable state, also between the two renames, lookup answers nothing, an error or the truth |
| Daemon.NotFoundUnanswered | crates/foundryvtt-fetch/src/daemon.rs:206-210 | a release that lookup does not find has had no ready response, so nothing vouched for is ever fetched again |
| Logins.SavedThenRestored | crates/foundry-circle/src/auth.rs:283-330 | a saved and taken login is the same login, issued in the second it was saved |
| Logins.SessionRowMeans | crates/foundry-circle/src/auth.rs:332-368 | after any run, a session row exists if and only if a sign-in made it, ends when that sign-in said, and is revoked if and only if it was signed out since |
| Logins.PrincipalRowMeans | crates/foundry-circle/src/auth.rs:350-357 | after any run, a principal is what the subject's last successful sign-in said |
| Logins.AlwaysReferenced | crates/foundry-circle/migrations/0001_control_plane.sql:24-31 | after any run every session belongs to a principal |
| Logins.ResolvesExactly | crates/foundry-circle/src/auth.rs:332-396 | after any run a token resolves if and only if its session was made, was not signed out since, and its end has not come, and then to the subject's last sign-in |
| Logins.ExpiryExactly | crates/foundry-circle/src/auth.rs:339-347 | in numbers: a session lives exactly until the first of its configured limit and the claimed one; there is no end exactly when the configured limit leaves the calendar |
| Logins.PlainEnd | crates/foundry-circle/src/auth.rs:339-347 | for a claim below 2^63 in the calendar, before both limits; for none, or one outside, before the configured limit |
| Logins.ResolvesOnlyInTime | crates/foundry-circle/src/auth.rs:339-396 | after any run a token resolves if and only if its session was made, was not signed out since, and both limits in numbers lie ahead |
| Logins.NeverAgain | crates/foundry-circle/src/auth.rs:370-396 | a session that stopped resolving never resolves again, whatever follows |
| Logins.WrappedClaimIsOver | crates/foundry-circle/src/auth.rs:342-347 | a claim past the signed range makes a session that never resolves |
| Logins.Database.SaveTransaction | crates/foundry-circle/src/auth.rs:283-298 | adds one row with the login's fields that expires ten minutes later, in numbers, unless the state is taken; a lost acknowledgement is an error |
| Logins.Database.TakeTransaction | crates/foundry-circle/src/auth.rs:300-330 | removes the row whether or not it has expired, and gives its fields back only strictly before its expiry |
| Logins.Database.SavePrincipalAndSession | crates/foundry-circle/src/auth.rs:332-368 | stores both rows or neither; the token then resolves to this principal exactly until the earlier limit, in numbers; panics exactly when the configured limit leaves the calendar |
| Logins.Database.SessionPrincipal | crates/foundry-circle/src/auth.rs:370-396 | computes the resolution the lemmas speak of |
| Logins.Database.RequireSession | crates/foundry-circle/src/auth.rs:217-257 | admits exactly a resolving token of a member of the access group; its session was then made, not signed out since, and not over |
| Logins.Database.Logout | crates/foundry-circle/src/auth.rs:195-215 | revokes this session and no other; it does not resolve at any later time |
| Logins.Database.OidcCallback | crates/foundry-circle/src/auth.rs:136-193 | uses up the login whatever comes of it; signs in exactly when it was in time, vouched for and stored; sessions and principals change only then |
| Callbacks.StepKeepsGood | crates/foundry-circle/src/auth.rs:136-193 | every step of every callback, and a restart, keeps rows, locks, logins and sessions accounted for |
| Callbacks.EveryLoginInOnePlace | crates/foundry-circle/src/auth.rs:300-330 | over all interleavings every saved login is outstanding or consumed by exactly one callback |
| Callbacks.RedeemedInTime | crates/foundry-circle/src/auth.rs:318-321 | an expired login is consumed and never redeemed; whoever is welcomed had redeemed one in time |
| Callbacks.OneSessionPerLogin | crates/foundry-circle/src/auth.rs:136-193 | two sessions come from two callbacks and two logins, each redeemed and gone from the table |
| Callbacks.OnlyTheGroupGetsIn | crates/foundry-circle/src/auth.rs:160-170 | over all interleavings every session in the table was made for a principal in the access group and belongs to that subject |
| Callbacks.SessionsNeverOutnumber | crates/foundry-circle/src/auth.rs:136-193 | sessions made are at most the logins redeemed, which with those outstanding are at most the logins saved |
| Retry.CheckedMulExact | crates/foundryvtt-fetch/src/lib.rs:213-223 | the product of a duration is exact, and missing exactly when it is longer than the longest duration |
| Retry.DelayExact | crates/foundryvtt-fetch/src/lib.rs:213-223 | each delay is the initial one doubled so many times, capped at the longest duration; past 32 doublings the factor is the greatest 32-bit number |
| Retry.DelayNumbers | crates/foundryvtt-fetch/src/lib.rs:213-223 | the unit, the longest duration, the doubling and the last factor in numbers |
| Retry.RetryableExactly | crates/foundryvtt-fetch/src/lib.rs:832-834 | retried are 429 and the five hundreds, nothing else |
| Retry.DelayMonotone | crates/foundryvtt-fetch/src/lib.rs:213-223 | no retry waits less than the one before |
| Retry.SendWithRetry | crates/foundryvtt-fetch/src/lib.rs:810-834 | stops at the first answer that is neither 429 nor a server error, at a request that cannot be cloned, or at the last attempt, and returns that outcome, with that many sends and delays |

## Left out

- Links or `..` in the data directory's own path, in the package areas or on the way to a
  store path: configuration paths are taken to be free of links.
- Store trees inside the data directory: `Reconcile` requires the store apart from it, as
  the configuration has it.
- Temporary names that collide with declared package ids: fresh names are taken to differ
  from them.
- Histories.DeletedStaysDeleted: does not cover an id that looks temporary and that some run does not
  declare, because it is false there (`Histories.TemporaryIdMayReappear`).
- Histories.StillMissing: has the same exception in its conclusion.
- Sessions: that each kind of step of a run is a move of the locking protocol is stated kind by kind;
  that a whole step record is a chain of such moves is not.
- User edits while a reconcile run is under way, and changes of store trees between preflight and
  copy: edits happen between runs.
- Permission bits as a reason for failure: a refused operation is one of the arbitrary failures.
- File names and link targets that are not valid UTF-8: names are sequences of characters.
- The lock file and the parent directory of the state file, and flushing to disk: a completed step
  is taken to last.
- `reconcile_files` and the JSON text of manifest and ledger: a ledger is missing, garbage, or a map.
- The second look at the target inside `seed_if_missing`: under the lock it sees what the first saw.
- Disks.Disk.WriteFile: a failing write may leave anything at the file's own place, which is more
  than the code can.
- The HTTP flow to the account and the signed URL, redirects, cookies and forms: a request is refused
  or delivers chunks with possible errors.
- Mode bits of the cache, read access for the build group and directory flushing: whether publishing
  works is an input of a response.
- Parsing of a daemon request line and the response limit: a request arrives decoded; one that does not
  decode is answered with an error and touches nothing.
- Writers to the cache or the store other than the modelled ones: none are assumed.
- SHA-256, ZIP, JSON, base64 and hex: functions of which only the laws in `Lawful` are assumed.
- Logins.Database.SavePrincipalAndSession: does not model the sub-microsecond part of instants, which the
  database drops.
- Logins.Database.SaveTransaction: does not model the byte encoding of the PKCE verifier, which is text
  on both sides.
- Waiting row locks that were queued on a row deleted before them: the wait is modelled by taking the
  lock, or finding no row, later.
- Identity provider, cookies, redirects, roles and environment parsing: user-interface and library code.
- The Chromium driver and database supervision: few states and small constants.
