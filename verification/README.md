# onevcs, modelled and proved

A Dafny model of the parts of onevcs whose correctness spans many steps: which copy of a branch
is the work and how it reaches the host, how a change request is drafted, checked, lifted and
merged against a host other people move, how the documents behind that host are shared and
checked, how review feedback is read a little at a time, how a history's commits are attributed
in one pass, and which names a branch may have.

`dafny verify dfyconfig.toml` checks everything.

| file | what it holds |
|---|---|
| `CommitGraph.dfy`, `CleanBaseMerges.dfy`, `Locate.dfy`, `SearchOrder.dfy` | commits as an acyclic graph with trees, object stores closed under parents, the walk that tells a spent copy, the search for the copy that is the work, and what its order decides |
| `LeasedPush.dfy` | observe, fetch, build and push, interleaved with other publications and anybody who moves the host |
| `Checks.dfy`, `StandingVerdicts.dfy` | the watch's rule, the standing verdict that restates it, and the host's own merge condition |
| `HostDocument.dfy`, `HostRuns.dfy`, `HostService.dfy`, `HostAnswers.dfy` | the host's document and every move on it, what every run keeps, the host as an object updated in place, and what each call is answered and leaves |
| `CheckScript.dfy` | the position of a scripted check list, scanned and counted |
| `Lifecycle.dfy`, `PublicationRules.dfy` | the language of a publication's record, and what its readings call for |
| `History.dfy`, `PublicationLog.dfy` | a run of calls to a host that others move between any two of them, and the log of one publication |
| `Publication.dfy`, `Republication.dfy`, `PublicationWitnesses.dfy` | the publication as a program that runs while others move the host, one branch published twice, and publications that end otherwise than one would expect |
| `DocumentStore.dfy` | the locked, staged and renamed document |
| `ReviewReads.dfy`, `ReviewDesk.dfy`, `Decimal.dfy` | review feedback, its markers, and the two stores it is kept in |
| `DocumentCheck.dfy` | which documents the host acts on, and which moves keep them so |
| `Attribution.dfy`, `BlobStream.dfy` | the streaming loops of the history scan |
| `BranchNames.dfy` | the ref grammar and the sanitizer |
| `Charges.dfy` | what a batched read costs |
| `Basics.dfy` | `Option` and `Result` |

A method that the source writes as a loop or an update in place is a method here, held to a
function of the values it starts from; the lemmas are about those functions, and say of each in terms
of refs, runs, names and documents what it answers and leaves. A host's moves are
atomic steps of a state machine, and everything other people do between two steps of one
publication is an arbitrary list of those moves. Commit hashes are ideal: a hash is the list of
what it was computed from. Trees, clean merges, the order in which checkouts are searched, what a
fetch brings and what the clock says are parameters.

What turned out otherwise than its own words, or than a reader would expect, is proved beside
the result it limits:

- Where no copy carries the rest, the commit chosen is the first that passes the others over. It
  is the same in every order that chooses one exactly where every such copy stands at one commit
  (`SameCommitInEveryOrderIff`), some order is refused exactly where a copy cannot be judged
  (`OneCommitWhateverTheOrderIff`), two can stand at different ones (`OrderDecidesBetweenRivals`),
  and the work in them is the same either way (`EligibleCopiesHoldTheSameWork`).
- A required check that fails is not always met by a refusal: after an early lift the draft's
  skips are left out before the reading is judged, and with them the marking that made the check
  required. What was missed, and when, is exact (`RedIsMissedIff`), and so is when a merge is asked
  for over it (`MergesOverRedIff`): a whole publication merges (`MergedOverARedReading`) and another
  has its merge held (`HeldOverARedReading`). A judgement that is red is never followed by one
  (`RedDecides`).
- A branch published again has the change it had exactly where that has not merged
  (`PublishedAgain`); a second lift is then never asked for (`PublishTwice`).
- A publication says its merge is armed whenever the host did not merge at once. The host holds it
  exactly where it had stored no `open` for the change (`ArmOnElapse`), which only a scenario
  stores (`RunStoresNoOpen`); over one that was, nothing is held (`ArmedOverAStoredOpen`).
- A merge asked of a number no change has yet is held, and may then be of a draft
  (`UnopenedMergeQueuesADraft`); every held merge is of a lifted change exactly where each one left
  held names an opened change (`StepKeepsQueuedLiftedIff`).
- The standing verdict and the watch agree over the same checks and declaration
  (`VerdictIsTheWatch`). On one host they agree, with the base there and no checks of the head's
  own, exactly where names marked only on other heads change nothing (`StandingIsTheWatchIff`);
  they disagree over a deleted base (`DeletedBaseDisagrees`) and over a head's own checks
  (`OwnHeadChecksDisagree`).
- A prefix its probe accepts is not one every sanitized name is accepted under: it is exactly where
  it ends in none of `.`, `.l`, `.lo` and `.loc` (`PrefixTakesEverySanitizedNameIff`).
- The host takes a branch name its own document check refuses (`AddressableIsNotNamed`), so a
  file store is stuck after it (`FileIsStuckAfterABadMove`) and a memory store is not.
- A reply's number may be taken by a comment already there (`StepKeepsDistinctIff`), and only
  that breaks the distinct identifiers a marker read needs.
- A refused reply leaves an empty list in memory, which no read can tell from none
  (`RefusalChangesNothing`).

## Model

| member | source | states |
|---|---|---|
| `CommitGraph.ReachesIsAntisymmetric` | crates/onevcs/src/branch.rs:932-945 | two commits each in the other's history are one commit, by descent on the commit graph: why equal tips are the only copies that can both carry the rest |
| `CommitGraph.StoreHoldsHistory` | crates/onevcs/src/branch.rs:1053-1103 | a store that holds a commit holds every commit behind it |
| `CleanBaseMerges.OnlyCleanBaseMerges` | crates/onevcs/src/branch.rs:1000-1043 | the loop answers true exactly where both commits are at hand and the copy is a chain of exact clean merges of base commits down to the chosen copy's history; it errs exactly where a view of the base resolves to nothing |
| `CleanBaseMerges.CleanIffSpent` | crates/onevcs/src/branch.rs:1000-1043 | the walk over everything beyond the two histories and the chain of side parents are one question, in both directions |
| `CleanBaseMerges.ChainIsEverythingBeyond` | crates/onevcs/src/branch.rs:1012-1043 | a chain holds every commit its tip has beyond the two histories and no other |
| `CleanBaseMerges.SideChain` | crates/onevcs/src/branch.rs:1025-1043 | following side parents from any commit beyond the histories is a finite chain that ends in the chosen history |
| `CleanBaseMerges.SpentHoldsNoWork` | crates/onevcs/src/branch.rs:989-999 | every commit of a passed-over copy that is not a merge is in the chosen history or the base's |
| `CleanBaseMerges.RivalBaseMergesPassEachOtherOver` | crates/onevcs/src/branch.rs:867-902 | two copies that each merged some base commit into one piece of work pass each other over |
| `Locate.LocateBranch` | crates/onevcs/src/branch.rs:800-930 | by refs, trees and histories: refused as unreadable where some copy has no base to be judged against, and otherwise only where a copy's own checkout names none; as nowhere exactly where no checkout holds the branch; the first copy where there is only one, or where each has the tree of the base it is judged against, the publication checkout's where its own objects hold that and else its own, and then nothing is written; the commit of a copy that shows all the others in its history, where there is one; whatever is chosen where some tree differs, every copy is in its history, or is kept under its own ref with all behind it and adds only clean base merges; a divergence names the first copy and one at another commit, with no copy the others could be passed over for; and a copy that could not be kept is one whose commit was neither there nor fetched |
| `Locate.LocateHeld` | crates/onevcs/src/branch.rs:800-930 | the same over the copies read, with which of those that could be chosen is: the one met first |
| `Locate.CopiesAreJudged` | crates/onevcs/src/branch.rs:810-839 | what is read is every copy in search order, each counted as work exactly where its tree is not that of the base it is judged against; and it is read exactly where each has such a base |
| `Locate.PassedOverIff` | crates/onevcs/src/branch.rs:955-987 | a copy shows another where the other's commit is among its own objects and in its history; it passes one over exactly where the host's copy of the branch is not known to have that commit, and what it adds is a chain of clean merges of the base as either of the two names it |
| `Locate.Decide` | crates/onevcs/src/branch.rs:842-930 | which copy: the first where there is nothing to compare, else the first that carries the rest, else the first that passes the rest over; unreadable where a copy met before that cannot be judged; else a divergence between the first copy and one at another commit, with no copy able to pass the others over |
| `Locate.ReadCopies` | crates/onevcs/src/branch.rs:810-839 | the first loop reads exactly the copies there are, in search order, and fails at the first that cannot be judged |
| `Locate.CopiesAreComplete` | crates/onevcs/src/branch.rs:814-839 | every checkout that has the branch is among the copies read, at its own commit |
| `Locate.ReadCarriesTheRest` | crates/onevcs/src/branch.rs:938-945 | true exactly where every copy is known in this copy's own store to be in its history |
| `Locate.ReadPassedOver` | crates/onevcs/src/branch.rs:955-987 | the passed-over copies are exactly those not carried, and each of them is off the host's history and spent; an error needs a base no ref resolves, for a copy off the host's history |
| `Locate.CopiesCarryingTheRestAgree` | crates/onevcs/src/branch.rs:932-945 | any two copies that carry the rest stand at one commit, so search order cannot change it |
| `Locate.SomeTipDiffers` | crates/onevcs/src/branch.rs:903-911 | where no copy carries the rest two tips differ, so the stand-in for the differing copy cannot be reached |
| `Locate.EligibleCopiesHoldTheSameWork` | crates/onevcs/src/branch.rs:867-902 | where several copies could pass the others over, either's commits that are neither merges nor in the base are in the other's history |
| `Locate.PassedOverRefsAreDistinct` | crates/onevcs/src/branch.rs:1045-1051 | two tips of a branch are never kept under one ref |
| `Locate.Repository.KeepPassedOver` | crates/onevcs/src/branch.rs:1060-1103 | the tip is named exactly where it was held or the fetch brought it, one ref is added and no object or other ref is let go |
| `Locate.KeepAll` | crates/onevcs/src/branch.rs:884-895 | each passed-over tip is kept in turn, and the first that was neither held nor fetched ends the search |
| `Locate.AccountedCopyLosesNothing` | crates/onevcs/src/branch.rs:867-902 | a commit of a copy not chosen is in the chosen history or is held, and one that is not a merge is in the chosen history or the base |
| `SearchOrder.FirstCandidateIsTheAnswer` | crates/onevcs/src/branch.rs:842-902 | of copies searched with one first that could be chosen, that one is the answer |
| `SearchOrder.SameCommitInEveryOrderIff` | crates/onevcs/src/branch.rs:842-902 | every order of the same copies that chooses one chooses the same commit exactly where every copy that could be chosen stands at it |
| `SearchOrder.OneCommitWhateverTheOrderIff` | crates/onevcs/src/branch.rs:842-930 | the search chooses, and chooses the same commit, in every order exactly where some copy could be chosen, all that could stand at one commit, and there is nothing to compare, or some copy carries the rest, or every copy can be judged: otherwise some order of them is refused |
| `SearchOrder.CarriersAreOneCommit` | crates/onevcs/src/branch.rs:932-945 | where some copy carries the rest, every order chooses one commit |
| `SearchOrder.OrderDecidesBetweenRivals` | crates/onevcs/src/branch.rs:867-902 | two checkouts searched in either order choose two different commits: each the one met first |
| `LeasedPush.NoRunRemovesUnseenWork` | crates/onevcs/src/branch.rs:317-429 | under every interleaving of publications and anybody who moves the host, an accepted push removes no host commit outside what it pushed and the tip that publication observed before its own fetch |
| `LeasedPush.UnreplayedPushRemovesNothing` | crates/onevcs/src/branch.rs:645-650 | a push that is not a replay removes nothing at all |
| `LeasedPush.OnlyALandedStackRemoves` | crates/onevcs/src/branch.rs:371-396 | only a branch recorded on a base that is not the root, whose stack the root carries, ever removes anything; it is pushed onto the root, from the tip that names that base, and removes what was in a tip it had observed |
| `LeasedPush.EveryPushIsOntoItsBase` | crates/onevcs/src/branch.rs:371-396 | over every run an accepted push is onto the root exactly where nothing is recorded, the root is, or the root carries the recorded stack, and otherwise onto the recorded base, which a ref names: so none onto the root is of an unlanded stack |
| `LeasedPush.NoPushIsOfALostStack` | crates/onevcs/src/branch.rs:371-396 | a recorded base no ref names ends the publication, whatever happens next |
| `LeasedPush.BuiltUnlessLostOrUnseen` | crates/onevcs/src/branch.rs:371-430 | any other goes on to be built, unless it is to replay over a host copy nobody here observed |
| `LeasedPush.WhichPushIsBuilt` | crates/onevcs/src/branch.rs:645-650 | a push replaces the commit observed exactly where the stack has landed and one was observed, and any other only moves forward |
| `LeasedPush.PushGoesThroughIff` | crates/onevcs/src/branch.rs:645-650 | a push is accepted exactly where the host has no copy or one behind what is pushed, or is still at the commit replaced; nothing else moves the host |
| `LeasedPush.ObservationsAreOfTheSource` | crates/onevcs/src/branch.rs:311-317 | every observation leased on is of where the source checkout had seen the host when the run began or at a fetch since, not of the publication's own fetch |
| `LeasedPush.UnobservedCopyIsNotReplacedBy` | crates/onevcs/src/branch.rs:398-430 | a host copy found by the fetch with no observation ends the publication, whatever happens next |
| `LeasedPush.LeaseFromTheFetchRemovesUnseenWork` | crates/onevcs/src/branch.rs:311-317 | a lease on what the fetch found would be accepted and would remove unseen work, while the lease on the observation is refused |
| `Checks.WorstIsLeast` | crates/onevcs-testing/src/repository.rs:1166-1197 | the state a name adds up to is attained by one of its runs and outranked by none |
| `Checks.StatesByConclusion` | crates/onevcs/src/host.rs:898-913 | which runs are passed, skipped, failed, running or without a verdict, by whether they completed and how: what is named nowhere else is a failure |
| `Checks.VerdictIsTheWatch` | crates/onevcs-testing/src/landings.rs:176-244 | for every check list and every declaration, with a complete rollup, the standing verdict is failed, settled or pending exactly where the watch of a ready change is, with the same skipped names |
| `Checks.OrderDoesNotMatter` | crates/onevcs-testing/src/landings.rs:176-244 | reordering or repeating runs changes neither the verdict nor the watch |
| `Checks.WaitedForIff` | crates/onevcs-testing/src/landings.rs:200-244 | which required names a pending verdict waits for, by their runs |
| `Checks.GreenIff` | crates/onevcs-testing/src/remote.rs:872-892 | a name is green to the host exactly where its worst run lets it through and no run of it ended without a verdict |
| `Checks.HostMergesIffWatchLetsThroughAndNothingIsHeld` | crates/onevcs-testing/src/remote.rs:868-892 | over a non-empty declaration the host's merge condition is the watch's together with exactly two more: no declared name has a run without a verdict, and every marked name outside the declaration is green |
| `Checks.RequiredChecksGreenIff` | crates/onevcs-testing/src/remote.rs:868-892 | whatever is declared, nothing included: the host is ready to merge exactly where some name is marked or declared, each such name has a run, and none of its runs failed, is running or ended without a verdict |
| `Checks.NothingDeclaredMergesIff` | crates/onevcs-testing/src/remote.rs:868-892 | where nothing is declared that is where a watch that reads the marking lets the change through and no marked name has a run without a verdict; a watch told that nothing is required lets every change through |
| `Checks.Counted` | crates/onevcs-testing/src/repository.rs:1462-1467 | the runs judged after an early lift are those that are not the draft's own skips |
| `Checks.CountedKeepsRed` | crates/onevcs-testing/src/repository.rs:1459-1471 | leaving those out never hides a red declared check; where the declaration could not be read it hides one exactly where no counted run of that name is marked required |
| `Checks.RedIff` | crates/onevcs-testing/src/repository.rs:1200-1217 | a reading is red exactly where some required name has a failed run |
| `Checks.JudgedRedIff` | crates/onevcs-testing/src/repository.rs:1462-1471 | the judgement after an early lift is red exactly where some required name of what is counted has a failed run among all that was answered |
| `Checks.RedIsMissedIff` | crates/onevcs-testing/src/repository.rs:1459-1471 | a red answer is judged not red exactly where the declaration could not be read and no counted run marked required is of a name that failed |
| `StandingVerdicts.StandingIsTheWatch` | crates/onevcs-testing/src/landings.rs:131-283 | a change's standing and the watch of the same host agree wherever its base is there, its head carries no checks of its own, and the scenario declares what is required or no head marks a name nothing else does |
| `StandingVerdicts.StandingIsTheWatchIff` | crates/onevcs-testing/src/landings.rs:131-283 | with the base there and no checks of the head's own, they agree exactly where the names marked only on other heads change nothing: nothing of a red watch, each passed under a settled one, none failed under an unsettled one |
| `StandingVerdicts.DeletedBaseDisagrees` | crates/onevcs-testing/src/landings.rs:145-173 | a deleted base: the watch waits for a required check and the standing requires none |
| `StandingVerdicts.OwnHeadChecksDisagree` | crates/onevcs-testing/src/landings.rs:128-141 | checks of the head's own: the watch waits for the change's and the standing passes on the head's |
| `StandingVerdicts.RequiredIff` | crates/onevcs-testing/src/remote.rs:439-465 | what a merge requires is what a scenario declares, and where it declares nothing, exactly what some check it seeds marks; only a declaration is ever answered in part |
| `StandingVerdicts.DeletedBaseReadsTheMarking` | crates/onevcs-testing/src/landings.rs:145-173 | once its base is deleted, a standing is what the watch would say of the marking alone |
| `StandingVerdicts.EveryStandingIsAsStored` | crates/onevcs-testing/src/landings.rs:246-283 | a standing is of the first change by its identifier: merged exactly where a merge is stored, by its commit and moment, and a landing exactly where its base is the root; closed where it is closed and unmerged; open otherwise; and refused exactly where no change has that identifier |
| `StandingVerdicts.DeclaredOnIff` | crates/onevcs-testing/src/landings.rs:145-173 | what it is read against: nothing exactly where the base is gone or a declaration is neither whole nor anything; else the declared names, or every name some check the host was given marks |
| `StandingVerdicts.StandingReadsItsHead` | crates/onevcs-testing/src/landings.rs:128-141 | its verdict is of its head commit's own checks where there are any, and otherwise of the change's |
| `HostDocument.RetargetIn` | crates/onevcs-testing/src/landings.rs:396-401 | nothing moves but the base of changes by that identifier |
| `HostDocument.RetargetMovesTheFirst` | crates/onevcs-testing/src/landings.rs:396-401 | it is the first change by that identifier that moves, and only it |
| `HostService.Host.Call` | crates/onevcs-testing/src/remote.rs:176-188 | one ledger entry is added, unless it names a change by no identifier |
| `HostService.Host.Open` | crates/onevcs-testing/src/remote.rs:241-293 | the document and the answer are the opening's: the next number, a draft for a reason or awaiting its checks, or one of three refusals |
| `HostService.Host.FindChanges` | crates/onevcs-testing/src/remote.rs:295-312 | the loop answers the unmerged changes of that head onto that base |
| `HostService.MatchingIff` | crates/onevcs-testing/src/remote.rs:295-312 | a change is among them exactly where it is held, unmerged, of that head and onto that base |
| `HostAnswers.FoundInOrder` | crates/onevcs-testing/src/remote.rs:295-312 | each of them once, in the order they were opened |
| `HostAnswers.OpensAsAsked` | crates/onevcs-testing/src/remote.rs:241-293 | a change opened stands last by the next number, with the base, head, title and body it was asked for, a draft exactly where one was, and no other change is touched |
| `HostService.Host.ChangeChecks` | crates/onevcs-testing/src/remote.rs:314-336 | the checks are the scripted ones after this very reading is counted; complete exactly where statuses are among the sources |
| `HostService.Host.Merge` | crates/onevcs-testing/src/remote.rs:351-408 | the document and the answer are the merge's: a held merge that is green lands, a decided one is repeated, and the policy decides the rest; a draft is refused |
| `HostService.Host.MergedAt` | crates/onevcs-testing/src/remote.rs:817-840 | a queued change whose checks are green lands when it is asked about |
| `HostService.Host.Ready` | crates/onevcs-testing/src/remote.rs:418-424 | the lift is recorded |
| `HostService.Host.IsDraft` | crates/onevcs-testing/src/remote.rs:432-435 | the answer is whether it is one, and asking changes nothing but the ledger |
| `HostService.KthActivityAnswers` | crates/onevcs-testing/src/remote.rs:589-624 | asked about a change's head for the k-th time, whatever else is called in between and since, the host answers entry min(k, length) of its script |
| `HostService.Host.Retarget` | crates/onevcs-testing/src/remote.rs:712-756 | the base moves, or one of six refusals, in their order |
| `HostService.Host.MoveBase` | crates/onevcs-testing/src/landings.rs:396-401 | the in-place loop is the retarget of the list |
| `HostService.Host.Reopen` | crates/onevcs-testing/src/remote.rs:761-788 | a closed change whose base is there is opened again |
| `HostService.Host.PersonMerges` | crates/onevcs-testing/src/landings.rs:332-394 | a person's merge is recorded at its own moment, and its head deleted where asked |
| `HostService.Host.MeetDeletion` | crates/onevcs-testing/src/landings.rs:371-392 | each open dependant of a deleted head is closed or moved, one at a time |
| `HostService.Host.PersonCloses` | crates/onevcs-testing/src/remote.rs:137-147 | an opened change is closed, merged or not |
| `HostService.Host.PersonRetargets` | crates/onevcs-testing/src/remote.rs:150-161 | an opened change is moved onto any branch git would accept |
| `HostAnswers.ClosesIff` | crates/onevcs-testing/src/remote.rs:137-147 | a person closes exactly any opened change, and no other stops being open |
| `HostAnswers.ReopensIff` | crates/onevcs-testing/src/remote.rs:761-788 | a closed change opens again exactly where the base of the first by its identifier is there, and no other does |
| `HostAnswers.RetargetsIff` | crates/onevcs-testing/src/remote.rs:712-756 | the host moves exactly an open change onto an addressable base that is there: the base of the first by that identifier, with the body that came, and nothing else |
| `HostAnswers.PersonRetargetsIff` | crates/onevcs-testing/src/remote.rs:150-161 | a person moves exactly any opened change onto any branch git would accept, and nothing else moves |
| `HostAnswers.PersonMergesIff` | crates/onevcs-testing/src/landings.rs:332-394 | a person merges exactly an open change at a moment there is; its commit and moment are stored and of no other; and where its head is deleted each open change based on it is closed, or moved onto the base of what merged, and no other is |
| `HostRuns.MergingChangesOneLanding` | crates/onevcs-testing/src/remote.rs:351-408 | what asking for a merge may change: at most one change that had not merged, which lands for a direct request or green checks, or is held |
| `HostRuns.MergeStands` | crates/onevcs-testing/src/remote.rs:351-408 | over every run, whoever moves the host, a merge commit and its time never change once set |
| `HostRuns.LaterAnswersAreThatMerge` | crates/onevcs-testing/src/remote.rs:351-408 | every later answer about a merged change is that commit, or a refusal, and no person merges it again, in any way, at any time, whatever becomes of its head |
| `HostRuns.NotADraftStaysSoOneStep` | crates/onevcs-testing/src/remote.rs:894-899 | on a host numbered consecutively an opened change that is no draft never becomes one |
| `HostRuns.RunEvolves` | crates/onevcs-testing/src/remote.rs:119-170 | what one publication may rely on of everything that happens between two of its calls: calls, lifts, gone branches and what a change was opened with are never taken back, nor is being out of a draft, nor a merge; no change goes away, and no open is newly stored |
| `HostRuns.ClosingsStand` | crates/onevcs-testing/src/remote.rs:756-788 | a closing is taken back by a reopening of that change and by nothing else |
| `HostRuns.MergingArmsIff` | crates/onevcs-testing/src/remote.rs:351-408 | a merge asked for is left held exactly where it is automated, names a change, is of no draft, nothing is stored of it and its checks are not green; otherwise nothing more is queued |
| `HostRuns.StepKeepsQueuedLiftedIff` | crates/onevcs-testing/src/remote.rs:351-408 | one move leaves every held merge one of an opened, lifted change exactly where a merge it would leave held names an opened change |
| `HostRuns.RunStoresNoOpen` | crates/onevcs-testing/src/remote.rs:351-408 | no run stores an answer of open that was not stored when it began |
| `HostRuns.QuietRunKeepsOpens` | crates/onevcs-testing/src/remote.rs:351-408 | and none takes one away but a person's merge of that change |
| `HostRuns.HostLandsOnlyLiftedChanges` | crates/onevcs-testing/src/remote.rs:822-854 | over every run of such moves, no queued change is a draft and every landing the host performs is of a lifted change, asked for directly or with no marked or declared name that has a run which neither passed nor was skipped, or has none |
| `HostRuns.MergingLandsIff` | crates/onevcs-testing/src/remote.rs:351-408 | asked to merge, the host lands a change exactly where it holds it and nothing required is held up, or has stored nothing of it and the policy asks directly, or once green and nothing required is held up; it then answers the commit it stores, at its own time |
| `HostRuns.AskedItLandsIff` | crates/onevcs-testing/src/remote.rs:830-854 | asked whether a change has merged, it lands a queued one that nothing required holds up, at its own time, and answers the commit then stored; of any other it answers what was stored |
| `HostRuns.UnopenedMergeQueuesADraft` | crates/onevcs-testing/src/remote.rs:351-408 | a merge held under a number not opened yet holds what is then opened as a draft |
| `HostRuns.StepKeepsNoDanglingIff` | crates/onevcs-testing/src/landings.rs:332-401 | one move leaves no open change on a deleted branch exactly where it meets a condition its maker can check |
| `HostRuns.NoRunLeavesADanglingChange` | crates/onevcs-testing/src/remote.rs:712-788 | over every run of such moves no open change ever targets a deleted branch |
| `CheckScript.ScanIsTheCounters` | crates/onevcs-testing/src/remote.rs:903-958 | scanning the ledger for a script's position is keeping two counters, for every ledger |
| `CheckScript.KthReadingAfterTheLift` | crates/onevcs-testing/src/remote.rs:903-958 | the k-th reading after the latest lift answers entry min(k, length), whatever came before |
| `CheckScript.KthReadingBeforeAnyLift` | crates/onevcs-testing/src/remote.rs:903-958 | and so does the k-th reading of a change never lifted |
| `CheckScript.KthReadingOfOneScript` | crates/onevcs-testing/src/remote.rs:903-958 | or of one with nothing scripted for after its lift, which a lift does not move back |
| `CheckScript.JudgedBeforeItIsRead` | crates/onevcs-testing/src/remote.rs:903-958 | judged after a lift and before any reading, a change shows the first entry for after it |
| `CheckScript.UnscriptedIsSeeded` | crates/onevcs-testing/src/remote.rs:943-958 | with no script, the checks seeded for after a lift once it is lifted, else those seeded |
| `CheckScript.JudgementsUseTheLatestReading` | crates/onevcs-testing/src/remote.rs:872-941 | every merge judged before the next reading or lift is judged on that same entry |
| `Lifecycle.AtMostOneLift` | crates/onevcs-testing/src/repository.rs:899-984 | a record in the language lifts its change at most once |
| `Lifecycle.AtMostOneMergeAsked` | crates/onevcs-testing/src/repository.rs:974-984 | a merge is asked for at most once |
| `Lifecycle.KeptExcludesLiftAndMerge` | crates/onevcs-testing/src/repository.rs:959-974 | a draft kept for review was neither lifted nor asked to merge, and nothing follows |
| `Lifecycle.MergeFollowsTheWatch` | crates/onevcs-testing/src/repository.rs:928-984 | every merge asked for comes after checks that settled, or a watch that elapsed with nothing skipped |
| `Lifecycle.RedReadingEndsIt` | crates/onevcs-testing/src/repository.rs:1200-1217 | a judged reading in which a required check stands failed is the last thing recorded |
| `Lifecycle.RedReadingIff` | crates/onevcs-testing/src/repository.rs:1200-1217 | a record stands at a red judgement exactly where the last it made is red, and then it has asked for no merge |
| `Lifecycle.StandsByItsReading` | crates/onevcs-testing/src/repository.rs:1394-1514 | a record reads at most twice, the second time only where nothing required had run; it settles only where nothing required waits, and elapses on what its reading shows skipped |
| `Lifecycle.RedReadingIsMissed` | crates/onevcs-testing/src/repository.rs:1462-1513 | an answer that is red as it stands and is judged to require nothing: the one marked run is the draft's skip |
| `Lifecycle.MissedRecordIsAllowed` | crates/onevcs-testing/src/repository.rs:1462-1513 | the record that goes on from it to a merge is one a publication may leave |
| `Publication.Publisher.Publish` | crates/onevcs-testing/src/repository.rs:803-984 | under any moves of the host between any two calls: the log tells every call made, what was done before each, and the host as it was met and left, from the host met first to the host left last; the record is in the language, ends where the outcome says, and holds as many lifts and merges as were asked for; the host never refuses a merge as a draft's; the change is the first held for the branch as find_changes left the host, or where none was the one opened by the next call, and with nobody else moving the first held when it began or one of the next number; what is recorded is what the host answered its own readings, in order; it reads again, ends, and asks for a merge exactly as what it heard calls for, over a red answer too; a merge or a draft it reports is one the host has, and armed is held unless the host had stored open when it was asked; and a change open and no draft when it began is asked for no lift |
| `Publication.Publisher.FindOrOpen` | crates/onevcs-testing/src/repository.rs:825-853 | the change is the first the host held as it was asked, or where it held none the one it then opened; a refusal is one the request earns; and one opened outside the lifecycle without a reason is no draft |
| `PublicationLog.ItIsItsChange` | crates/onevcs-testing/src/repository.rs:825-853 | what a log tells of its change: found first or opened, every later call about it, and a draft exactly as it was said to be |
| `PublicationLog.LatestIsConsistent` | crates/onevcs-testing/src/repository.rs:803-984 | over a whole publication the host stays consistently numbered and its change stays opened, whatever was done between the calls |
| `PublicationLog.SinceItBegan` | crates/onevcs-testing/src/repository.rs:803-984 | what held of the host when a publication began is not taken back by its end, nor when its last call was met; and where nobody else merges, every open stored then is stored still |
| `PublicationLog.AloneFinds` | crates/onevcs-testing/src/repository.rs:825-853 | with nobody else moving, the change is the first the host held when the publication began, and where it held none the one of the next number |
| `PublicationLog.AloneLeavesItFirst` | crates/onevcs-testing/src/repository.rs:825-853 | and it is still the first held for the branch when the publication ends, unless it has merged |
| `PublicationLog.LiftedIsNoDraftNow` | crates/onevcs-testing/src/repository.rs:1101-1113 | a change the publication asked a lift for is no draft when it ends, whatever others did since |
| `PublicationLog.PublishedAgain` | crates/onevcs-testing/src/repository.rs:825-926 | of two publications of a branch with nobody else moving, the second finds the first's change exactly where that has not merged, and as no draft where the first lifted it |
| `Republication.PublishTwice` | crates/onevcs-testing/src/repository.rs:803-984 | publish, and publish the same branch again: the second has the first's change exactly where that has not merged, and then asks for no lift wherever the first lifted it or left it no draft |
| `History.HistoryEvolves` | crates/onevcs-testing/src/remote.rs:119-170 | between any two moments of a publication nothing it relies on has gone back |
| `History.HeardIsReported` | crates/onevcs-testing/src/repository.rs:1380-1462 | every list a publication heard is what the host's checks said as one of its own readings left it, the one after so many others |
| `Publication.Publisher.HoldForReason` | crates/onevcs-testing/src/repository.rs:864-898 | a publication with a reason ends at once: held exactly where the host holds a draft |
| `Publication.Publisher.Watch` | crates/onevcs-testing/src/repository.rs:1348-1514 | the watch of one phase: where it ends and what it recorded, that it answers what everything it heard comes to, and that it heard again exactly where it should |
| `Publication.Publisher.WatchReadyChange` | crates/onevcs-testing/src/repository.rs:1382-1392 | red, settled or elapsed by the ready rule, with the skipped names, and a record that says so |
| `Publication.Publisher.WatchDraft` | crates/onevcs-testing/src/repository.rs:1394-1438 | a draft is red, settles or elapses by its rule, and is lifted early and read again exactly where nothing required ran and nothing is still running |
| `PublicationRules.DraftSettlesIff` | crates/onevcs-testing/src/repository.rs:1394-1425 | by runs: a draft's first reading settles exactly where nothing is required; or something is and every required name has a passed run and none failed or running; or the declaration is unreadable, nothing is marked, and checks ran with none skipped |
| `PublicationRules.DraftIsLiftedEarlyIff` | crates/onevcs-testing/src/repository.rs:1410-1440 | by runs: it calls for an early lift exactly where none is running, and some required name never ran with every other passed, or nothing is marked under an unreadable declaration with no checks or one skipped |
| `PublicationRules.ReadySettlesIff` | crates/onevcs-testing/src/repository.rs:1382-1392 | by runs: a ready reading settles exactly where no required name stops it, some name being required unless nothing is |
| `PublicationRules.AgainSettlesIff` | crates/onevcs-testing/src/repository.rs:1459-1514 | by runs: the reading after an early lift settles exactly where no name required of what is counted stops it, and a run of such a name, or of any where none is, is new since the draft's |
| `PublicationRules.SkippedEitherSideByRuns` | crates/onevcs-testing/src/repository.rs:1487-1513 | what an elapsed wait names as skipped: the required names, of all that was answered or of what is counted, whose every run was |
| `PublicationWitnesses.PublishedWhereNothingIsRequired` | crates/onevcs-testing/src/repository.rs:959-984 | a whole publication on a host that declares nothing required: the draft is lifted exactly once, and a merge is asked for under every policy but the open one, which leaves it open |
| `Publication.Publisher.JudgeAfterLift` | crates/onevcs-testing/src/repository.rs:1459-1514 | which of the five ends a reading after an early lift has, with what was said of the head's runs since: it settles only on a run attached since, and an elapsed wait names what stands on a draft's skip |
| `Publication.Publisher.StillRunning` | crates/onevcs-testing/src/repository.rs:1529-1534 | exactly where a check has not completed, or the host says work runs on that very head |
| `Publication.Publisher.Lift` | crates/onevcs-testing/src/repository.rs:1101-1113 | afterwards the change is no draft, and the lift is recorded |
| `Publication.Publisher.AskMerge` | crates/onevcs-testing/src/repository.rs:979-983 | the host was asked, holds what it answered, and where asked to hold the merge it does unless it had stored open |
| `Publication.Publisher.ArmOnElapse` | crates/onevcs-testing/src/repository.rs:1030-1098 | nothing is lifted or armed over a skipped check or a host without auto-merge; otherwise it ends merged or armed, and armed is held by the host exactly where it had stored no open when it was asked |
| `Publication.Publisher.HeldNowIsHeldThen` | crates/onevcs-testing/src/repository.rs:1073-1097 | armed is queued where no open was stored when the publication began; and where nobody else merges, an open that was stored stands, and nothing is reported merged |
| `PublicationRules.RedDecides` | crates/onevcs-testing/src/repository.rs:1348-1514 | a publication ends red exactly where what it judged is red, and what it heard then calls for no merge |
| `PublicationRules.RedAnswerEndsRedIff` | crates/onevcs-testing/src/repository.rs:1459-1471 | a second answer that is red as it stands ends red exactly where some required name of what is counted of it has a failed run |
| `PublicationRules.MergesOverRedIff` | crates/onevcs-testing/src/repository.rs:1459-1514 | over a second answer that is red as it stands a merge is asked for exactly where none of its failed runs is judged and either a run waited for came since and nothing waits, under a policy that merges, or something waits or runs still with nothing skipped on either side and the merge may be held |
| `Publication.StoredOpenIsAnswered` | crates/onevcs-testing/src/remote.rs:383-408 | asked to hold a merge, the host answers an open it has stored, and otherwise lands the change or holds it |
| `PublicationWitnesses.ArmedOverAStoredOpen` | crates/onevcs-testing/src/repository.rs:1073-1097 | a whole publication, on a host that was given open for its change, that answers armed with nothing held |
| `PublicationWitnesses.MergedOverARedReading` | crates/onevcs-testing/src/repository.rs:1462-1513 | a whole publication, on a host scripted so, that reads a failed check after its early lift and asks for the merge |
| `PublicationWitnesses.HeldOverARedReading` | crates/onevcs-testing/src/repository.rs:1487-1513 | and one that reads it beside another check still running, and has the merge held |
| `Publication.Publisher.FinishSettled` | crates/onevcs-testing/src/repository.rs:959-984 | kept for review exactly under an open policy with approvals, else lifted and merged by policy |
| `Publication.MergeAnswersItsDocument` | crates/onevcs-testing/src/remote.rs:351-408 | a merge answered, or an answer to being asked for one now or held, is what the document then stores |
| `DocumentStore.EveryRunIsLinearizable` | crates/onevcs-testing/src/store.rs:119-288 | over every run of concurrent calls, failed writes and crashes between any two steps, the document is the committed calls applied one at a time, and each call that returned took effect at one place in that order, within the call; a failed one committed nothing |
| `DocumentStore.CommitIsAlone` | crates/onevcs-testing/src/store.rs:169-209 | no other call holds the lock when a rename commits |
| `DocumentStore.OnlyRenamesCommit` | crates/onevcs-testing/src/store.rs:211-253 | only a rename commits, and it commits its action on the very document it replaces |
| `DocumentStore.CarriedThroughIsDue` | crates/onevcs-testing/src/store.rs:126-288 | a call carried through its steps with both writes taken, whatever other threads do between them, answers its action's result, what a reader is shown, or that it is ready, and leaves what the action made of the document carried forward, or nothing changed |
| `DocumentStore.AloneItIsDone` | crates/onevcs-testing/src/store.rs:126-288 | and so does one call alone on a store nobody holds |
| `DocumentStore.OnlyAFailedWriteIsAnswered` | crates/onevcs-testing/src/store.rs:211-253 | over every run a call answers that its write was not taken only where that very call met a stage or a rename that failed |
| `DocumentStore.LockIsTakenIff` | crates/onevcs-testing/src/store.rs:169-209 | a lock is taken exactly where nobody holds it, or by a reader beside readers |
| `ReviewReads.EveryRunIsCaughtUp` | crates/onevcs-testing/src/review.rs:38-82 | over every run of additions, edits, flags and replies with fresh numbers, overlaying a marker read on the client's copy gives the host's comments exactly, and it says nothing is new exactly where nothing changed |
| `ReviewReads.EveryReadOfASessionCatchesUp` | crates/onevcs-testing/src/review.rs:38-82 | a client that starts with nothing and reads as often as it likes, each time from the marker it was given last, has the host's comments exactly after every read, whatever moves come between |
| `ReviewReads.ReadingFromAMarkerCatchesUp` | crates/onevcs-testing/src/review.rs:38-82 | the same of any two states of which one follows the other |
| `ReviewReads.ReadingFromNothingIsEverything` | crates/onevcs-testing/src/review.rs:38-82 | a read with no marker is every comment |
| `ReviewReads.ReadsCompose` | crates/onevcs-testing/src/review.rs:38-82 | reading in two goes is reading once |
| `ReviewReads.UnchangedIff` | crates/onevcs-testing/src/review.rs:60-82 | an empty marker read is exactly an unchanged list |
| `ReviewReads.StepFollows` | crates/onevcs-testing/src/review.rs:86-277 | every move leaves comments where they stand and gives what it changed a later count |
| `ReviewReads.StepKeepsDistinctIff` | crates/onevcs-testing/src/review.rs:118-162 | every move keeps identifiers distinct but a reply, to a comment that is there and no reply inside a thread, whose number is already taken |
| `ReviewReads.EditChangesThatComment` | crates/onevcs-testing/src/review.rs:202-230 | an edit changes the one comment by that identifier, only its body, its time and its count, which is later than any |
| `ReviewReads.SettingReachesTheThread` | crates/onevcs-testing/src/review.rs:233-277 | every comment of the thread has the flags afterwards, only those that differed are counted, and none outside it is touched |
| `ReviewReads.ReplyJoinsWhatItAnswers` | crates/onevcs-testing/src/review.rs:86-162 | a reply stands last, in the thread of a comment that is no reply itself, or beside the conversation quoting what it answers |
| `ReviewReads.AddingPutsItLast` | crates/onevcs-testing/src/review.rs:165-199 | a comment is added exactly where it has its moments and a new identifier: last, as it was given, with a count later than any |
| `ReviewReads.ReadIsTheLaterOnes` | crates/onevcs-testing/src/review.rs:38-82 | a read is of exactly the comments whose count is later, in the order they stand |
| `ReviewReads.MarkerIsTakenIff` | crates/onevcs-testing/src/review.rs:330-348 | a marker is taken for a change exactly where it is this host's, for that change, and ends in a number that fits |
| `ReviewReads.MarkersRoundTrip` | crates/onevcs-testing/src/review.rs:330-348 | a marker names its own count for its own change and is refused for any other |
| `ReviewReads.Latest` | crates/onevcs-testing/src/review.rs:330-332 | the latest count is one a comment has, and none is later |
| `Decimal.SpellingRoundTrips` | crates/onevcs-testing/src/review.rs:335-348 | a number spelled is the number parsed, up to 64 bits |
| `Decimal.SpellingIsInjective` | crates/onevcs-testing/src/remote.rs:262-264 | two numbers are never spelled alike, so change requests numbered apart are told apart |
| `ReviewDesk.Desk.Post` | crates/onevcs-testing/src/review.rs:165-199 | a comment is added with the next count, or refused |
| `ReviewDesk.Desk.Rewrite` | crates/onevcs-testing/src/review.rs:202-230 | a comment is edited in place with the next count, or refused |
| `ReviewDesk.Desk.Flag` | crates/onevcs-testing/src/review.rs:233-277 | every comment of a thread whose flags differ gets them, with one new count |
| `ReviewDesk.Desk.Answer` | crates/onevcs-testing/src/review.rs:86-162 | a reply is posted in its thread or beside the conversation and recorded, or refused |
| `ReviewDesk.Desk.ReadFrom` | crates/onevcs-testing/src/review.rs:38-82 | the loop answers the comments since the marker, the next marker, and the next scripted charge |
| `ReviewDesk.AnsweredIff` | crates/onevcs-testing/src/review.rs:38-277 | each call is answered exactly where it names what is there: an opened change, a comment or thread of it, a comment that is no reply inside a thread, a marker this host wrote for it |
| `ReviewDesk.CallIsAboutItsChange` | crates/onevcs-testing/src/review.rs:38-277 | no call moves another change's comments, only a reply is recorded as one, and only a read is charged |
| `ReviewDesk.ReplyIsRecorded` | crates/onevcs-testing/src/review.rs:86-162 | what a reply answers and what is recorded of it is the comment it left last, by the host's user at that moment |
| `ReviewDesk.DeskReadCatchesUp` | crates/onevcs-testing/src/review.rs:38-82 | a desk's answer from the marker a client was given last, overlaid on its copy, is the comments as they stand, says nothing is new exactly where nothing is, hands on the marker of now, and takes one scripted charge or one point |
| `ReviewDesk.DeskFirstReadIsEverything` | crates/onevcs-testing/src/review.rs:38-82 | without a marker it is every comment, and never nothing new |
| `ReviewDesk.StepKeepsSoundIff` | crates/onevcs-testing/src/state.rs:1218-1264 | a review move leaves feedback the document check accepts exactly where it is not one the host makes, or brings a named comment that answers one there, or a fresh reply number |
| `ReviewDesk.CallKeepsAcceptedIff` | crates/onevcs-testing/src/state.rs:1218-1264 | and so does each call on the whole desk, by conditions its caller can check |
| `ReviewDesk.RefusalChangesNothing` | crates/onevcs-testing/src/store.rs:78-91 | a refused call leaves the document as it was to every reader, though in memory it may leave an empty list |
| `ReviewDesk.StoresAgree` | crates/onevcs-testing/src/store.rs:78-91 | over every run of calls that bring what they have to, the memory and the file store answer alike, and the file is always one its next read accepts |
| `DocumentCheck.StepKeepsAcceptedIff` | crates/onevcs-testing/src/state.rs:1152-1333 | every move leaves a document the next read accepts exactly where it brings valid branches, opened identifiers and a recorded head |
| `DocumentCheck.EveryRunIsAccepted` | crates/onevcs-testing/src/state.rs:1152-1333 | over every run of such moves each document is accepted |
| `DocumentCheck.FileKeepsUpWithMemory` | crates/onevcs-testing/src/store.rs:243-253 | over such a run the host in a file and the host in memory are one document |
| `DocumentCheck.FileIsStuckAfterABadMove` | crates/onevcs-testing/src/store.rs:263-287 | from the first move that brings less the file answers nothing more, and stays what that move left |
| `DocumentCheck.RefusedMovesOnlyRecordTheCall` | crates/onevcs-testing/src/remote.rs:351-408 | a refused move changes nothing but the ledger |
| `DocumentCheck.AddressableIsNotNamed` | crates/onevcs-testing/src/remote.rs:990-1000 | the host opens a change on a branch its own document check then refuses |
| `Attribution.AttributionIsExact` | crates/onevcs-exposure-audit/src/gitscan.rs:586-680 | over every written log whose commits stand together, a hit's total is the number of commits that write that blob or touch that path or below it, and its list is the first twenty of them, without repeats, in the order of the diffs that first do |
| `Attribution.Attribute` | crates/onevcs-exposure-audit/src/gitscan.rs:608-645 | the one-pass loop counts every blob waited for and every path met exactly as the entries of the walk do |
| `Attribution.MeetPath` | crates/onevcs-exposure-audit/src/gitscan.rs:625-635 | an entry's path and every directory above it is met, once each |
| `Attribution.AboveIff` | crates/onevcs-exposure-audit/src/gitscan.rs:626-634 | the paths met are the path itself and exactly those it is below |
| `Attribution.MetaNamesItsBlob` | crates/onevcs-exposure-audit/src/gitscan.rs:641-644 | the fourth field of an entry's metadata is the blob it writes |
| `Attribution.WalkMeetsTheLog` | crates/onevcs-exposure-audit/src/gitscan.rs:616-645 | the walk meets exactly the entries written, each with its commit, however their paths begin |
| `Attribution.CountingByRunIsCountingByCommit` | crates/onevcs-exposure-audit/src/gitscan.rs:792-811 | counting by generation is counting distinct commits where each commit's headers stand together |
| `Attribution.Emit` | crates/onevcs-exposure-audit/src/gitscan.rs:727-768 | a row for each term and commit, and the gap its total calls for |
| `Attribution.RowStands` | crates/onevcs-exposure-audit/src/gitscan.rs:727-768 | there are as many rows as terms times commits, each term's together and in each by commit |
| `Attribution.NoHitIsDropped` | crates/onevcs-exposure-audit/src/gitscan.rs:727-768 | a gap is reported exactly where no commit, or more than twenty, touches the hit; so every hit has a row or a gap |
| `BlobStream.ReadBlobs` | crates/onevcs-exposure-audit/src/gitscan.rs:508-541 | the framing loop is the reading of one header and its stated size at a time |
| `BlobStream.WholeStreamIsRead` | crates/onevcs-exposure-audit/src/gitscan.rs:508-541 | a stream git wrote in full is read as exactly its blobs, whatever newlines or headers their contents hold |
| `BlobStream.EveryTextIsScanned` | crates/onevcs-exposure-audit/src/gitscan.rs:535-541 | of such a stream the blobs scanned are exactly those with no NUL in their first 8000 characters, in order, with their sizes added up, and every other is counted as binary |
| `BlobStream.AbsentBlobFails` | crates/onevcs-exposure-audit/src/gitscan.rs:508-535 | an object git says is missing is a failure, and every blob around it is read all the same |
| `BlobStream.CutStreamFails` | crates/onevcs-exposure-audit/src/gitscan.rs:508-535 | a stream cut anywhere inside a frame is a failure, and no blob is made of the piece |
| `BranchNames.Component` | crates/onevcs/src/branches.rs:265-282 | the two loops collapse, trim and strip as one function does |
| `BranchNames.Sanitize` | crates/onevcs/src/branches.rs:251-263 | the name is the surviving components joined, or nothing |
| `BranchNames.SanitizedIsWhatWasProposed` | crates/onevcs/src/branches.rs:234-282 | the name has a component for each of the proposal's that holds a letter, a digit or _, in order and for no other, and there is a name exactly where one does; each is what stands in the proposal, accepted characters kept in order and any other made -, less repeats of - and of . and what is trimmed at either end |
| `BranchNames.SanitizedIsUsable` | crates/onevcs/src/branches.rs:234-263 | whatever is proposed, a sanitized name satisfies the ref grammar of git-check-ref-format(1) |
| `BranchNames.SanitizingIsIdempotent` | crates/onevcs/src/branches.rs:234-263 | sanitizing a sanitized name changes nothing |
| `BranchNames.PrefixTakesEverySanitizedName` | crates/onevcs/src/branches.rs:215-232 | a prefix ending in a slash that is accepted with the probe is accepted with every sanitized name |
| `BranchNames.PrefixTakesEverySanitizedNameIff` | crates/onevcs/src/branches.rs:215-232 | any prefix the probe accepts takes every sanitized name exactly where it ends in none of ., .l, .lo and .loc |
| `BranchNames.FinishedLockIsRefused` | crates/onevcs/src/branches.rs:215-232 | a name that finishes the .lock a prefix ends in is refused under it |
| `BranchNames.ProbeAcceptsADotThatRefuses` | crates/onevcs/src/branches.rs:215-232 | the probe accepts a. and the sanitized name lock is refused under it |
| `BranchNames.ProbeAcceptsALetterThatRefuses` | crates/onevcs/src/branches.rs:215-232 | nor need it end in a dot: the probe accepts a.lo and the sanitized name ck is refused under it |
| `BranchNames.SplitOfJoin` | crates/onevcs-testing/src/state.rs:945-971 | splitting joined components gives them back |
| `Charges.StandingsChargeIsOnePerBatch` | crates/onevcs-testing/src/landings.rs:85-111 | a standings read of n changes costs exactly n/50 rounded up |
| `Charges.ReviewChargeIsRounded` | crates/onevcs-testing/src/landings.rs:92-111 | a review read of n > 0 costs within half a point a query of (54n + 27)/100 |
| `Charges.ReviewChargeIsExact` | crates/onevcs-testing/src/landings.rs:92-111 | to the point: 81 for every full query of 150, and for what is left over a hundredth of its connections, halves rounded up, the declarations weighing on the first alone |
| `Charges.ReviewChargeIsMonotone` | crates/onevcs-testing/src/landings.rs:92-111 | reading more never costs less |

## Left out

- Locate.LocateBranch: git failures other than a base no ref resolves, run clones held against reclamation, and everything printed; a git call stands for the meaning its documentation gives it.
- LeasedPush.NoRunRemovesUnseenWork: how a replay rebuilds commits; the tip pushed is any commit, so the result needs nothing of it. The publication's leases, clones and worktrees are not modelled.
- Publication.Publisher.Publish: the payload of an emission and the order of names in it (names are sets), a host that does not implement a call, and sessions; the grace window is whether it is usable.
- HostService.Host.Call: what each call is charged; the charge of the two batched reads is in `Charges`.
- HostService.Host.MergedAt: each host call is one step, its ledger entry and its effect together, where the source takes the document twice.
- HostService.Host.ChangeChecks: check logs, and the spelling of a check's status and conclusion.
- DocumentStore.EveryRunIsLinearizable: a lock that cannot be taken, a panic inside an action, and JSON; checking and carrying forward are any functions of the document.
- DocumentCheck.StepKeepsAcceptedIff: the document's version and the descriptions kept beside a change request; review feedback is `ReviewDesk`'s.
- ReviewDesk.Desk.ReadFrom: whether a comment is this host's own and the marker in its body.
- Attribution.Attribute: bytes that are not UTF-8, exempt hits and tallies, the first path a blob was seen at, and the trees only a commitless ref names.
- BlobStream.ReadBlobs: a header that is not UTF-8, and matching terms in a blob once it is read.
- Charges.ReviewChargeIsExact: saturation at 32 bits.
- BranchNames.PrefixTakesEverySanitizedNameIff: where a prefix comes from, which is configuration.
- The repository's own document, its sessions, preserved branches and local landings: its check is a list of independent conditions.
- Describing a change request, standing comments, mergeability, visibility and the followed checks: reads and writes of single fields.
- Command rendering, reports, the network clients, private terms, fixtures and benchmarks.
