/** Publications that end otherwise than their outcome, or their own reading, would have it. */
module PublicationWitnesses {
  import opened Basics
  import opened Checks
  import opened HostDocument
  import opened StandingVerdicts
  import opened HostService
  import opened HostRuns
  import opened History
  import opened Lifecycle
  import opened PublicationRules
  import opened PublicationLog
  import opened Publication
  import BranchNames
  import Decimal

  /** Scenarios in which nothing has been opened yet, and what will be reads as scripted. */
  function Scenario(checks: map<ChangeId, seq<Check>>, readings: map<ChangeId, seq<seq<Check>>>, required: Requirement,
                    merges: map<ChangeId, MergeOutcome>): HostState {
    HostState(
      Seeds(checks, map[], readings, map[], Some(required), None, map[], true, "somebody"),
      Shelf([], {}, {}), Record(map[], map[], map[]), Drafting(map[], {}, []), Landings(merges, map[], {}), map[], [])
  }

  /** The publication of one branch, by an accepted request. */
  function Asking(policy: MergePolicy, draftsDisabled: bool): Request {
    Request("slug", "work", "main", "Publish work", None, None, policy, false, draftsDisabled, true, 0)
  }

  lemma AskingIsAccepted(policy: MergePolicy, draftsDisabled: bool)
    ensures var r := Asking(policy, draftsDisabled);
      Addressable(r.head) && Addressable(r.base) && !OnlyWhitespace(r.title)
    ensures !OnlyWhitespace("somebody")
  {
    assert "somebody"[0] == 's' && "Publish work"[0] == 'P';
    assert !BranchNames.IsWhitespace('s') && !BranchNames.IsWhitespace('P');
  }

  lemma NothingIsNumberedYet(s: HostState)
    requires s.shelf.changes == [] && s.drafting == Drafting(map[], {}, [])
    ensures Consistent(s) && NextId(s) == LONE
  {
    assert Decimal.Spell(1) == "1";
  }

  /** Nothing the host or the request refuses stops it before it reads. */
  lemma SomethingIsRead(p: Publisher, o: Outcome, change: Option<Change>)
    requires exists policy, disabled :: p.r == Asking(policy, disabled)
    requires p.host.seeds.sources.None? && p.host.seeds.authenticatedUser == "somebody" && p.EndsAs(o)
    requires change.None? ==> p.trace == [] && o.Failing? && !o.why.ChecksFailed?
    requires change.Some? && p.Heard(change.value) == [] ==> o.Failing? && o.why.HostRefused?
    requires change.Some? && p.Heard(change.value) == [] ==> p.TrueToTheHost(change.value)
    ensures change.Some? && p.Heard(change.value) != []
  {
    var policy, disabled :| p.r == Asking(policy, disabled);
    AskingIsAccepted(policy, disabled);
  }

  // ---- Armed over an answer of `open` ----

  const STILL_RUNNING: Check := Check("build", true, false, None, None)

  /** A host which requires one check of what will be opened, still running, and has been given the
      answer `open` for it. */
  function SeededOpen(): HostState {
    Scenario(map[LONE := [STILL_RUNNING]], map[], Requirement({"build"}, true), map[LONE := MergeOutcome.Open])
  }

  /** Where a scenario scripts nothing but a change's checks, those are what is reported of it. */
  lemma UnscriptedChecks(s: HostState, id: ChangeId)
    requires s.seeds.readings == map[] && s.seeds.readingsAfterLift == map[] && s.seeds.checksAfterLift == map[]
    ensures CurrentChecks(s, id) == if id in s.seeds.checks then s.seeds.checks[id] else []
  {
  }

  lemma ReadsTheSeeded(l: SoundLog, k: nat)
    requires l.begun == SeededOpen() && k < |HeardIn(l.turns, LONE)|
    ensures HeardIn(l.turns, LONE)[k] == [STILL_RUNNING]
  {
    var at := HeardIsReported(l.turns, LONE, k);
    SeedsStand(l, at);
    UnscriptedChecks(l.turns[at].left, LONE);
  }

  /** It is waited for, with nothing skipped. */
  lemma RunningIsWaitedFor()
    ensures ReadyWatched([STILL_RUNNING], Names({"build"})) == Elapsed({})
  {
    var standing := Standings([STILL_RUNNING], Names({"build"}));
    assert [STILL_RUNNING][1..] == [];
    assert Worst([STILL_RUNNING], "build") == Some(Pending);
    assert standing == map["build" := Some(Pending)];
    assert "build" in standing && standing["build"] == Some(Pending);
    assert SkippedNames(standing) == {};
  }

  /** What its one reading of that host calls for is the merge held. */
  lemma SeededOpenIsArmed(p: Publisher, change: Change, o: Outcome)
    requires p.log.begun == SeededOpen() && p.host.seeds == SeededOpen().seeds && p.r == Asking(ChangeAuto, true)
    requires change.id == LONE && 0 < |p.Heard(change)| <= 2
    requires var heard := p.Heard(change);
      && ReadsAgainAsItShould(heard, p.Declares(heard[0]), p.AsDraft(), p.Ran(change))
      && Concludes(p.r, true, Concluded(heard, p.Declares(heard[0]), p.AsDraft(), p.Ran(change)), o)
    ensures o.Armed? || o.MergedAt?
  {
    ReadsTheSeeded(p.log, 0);
    RunningIsWaitedFor();
    assert p.Declares([STILL_RUNNING]) == Names({"build"});
  }

  /** The publication that says its merge is held when the host holds nothing: it is told `open`,
      records the merge as armed, and answers so. */
  method ArmedOverAStoredOpen() returns (p: Publisher, o: Outcome, ghost change: Option<Change>)
    ensures p.log.begun == SeededOpen() && p.r == Asking(ChangeAuto, true)
    ensures change.Some? && o == Armed
    ensures OpenStored(p.host.Document(), change.value.id) && !IsQueued(p.host.Document(), change.value.id)
  {
    NothingIsNumberedYet(SeededOpen());
    var host := new Host(SeededOpen());
    p := new Publisher(host, Asking(ChangeAuto, true), []);
    o, change := p.Publish();
    SomethingIsRead(p, o, change);
    SeededOpenIsArmed(p, change.value, o);
  }

  // ---- Merged over a red reading ----

  /** A host which declares in part, requires nothing by name, and reads as the draft's skip first
      and then as given. */
  function SeededRed(after: seq<Check>): HostState {
    Scenario(map[], map[LONE := [[SKIPPED_ON_THE_DRAFT], after]], Requirement({}, false), map[])
  }

  /** What a publication of it reads: the skip, and then what was given. */
  lemma ReadsTheScript(l: SoundLog, after: seq<Check>)
    requires l.begun == SeededRed(after) && l.inStore == [] && l.mine.Some? && l.mine.value.change.id == LONE
    ensures var heard := HeardIn(l.turns, LONE);
      && (|heard| > 0 ==> heard[0] == [SKIPPED_ON_THE_DRAFT])
      && (|heard| > 1 ==> heard[1] == after)
  {
    AloneReadsTheScript(l);
    var heard, script := HeardIn(l.turns, LONE), l.begun.seeds.readings[LONE];
    assert script == [[SKIPPED_ON_THE_DRAFT], after];
    if |heard| > 0 {
      assert heard[0] == InOrder(script, 1);
    }
    if |heard| > 1 {
      assert heard[1] == InOrder(script, 2);
    }
  }

  lemma NothingIsSaidToRun(l: SoundLog, after: seq<Check>, change: Change)
    requires l.begun == SeededRed(after) && change.id == LONE
    ensures forall k :: 0 <= k < |RanIn(l.turns, change)| ==> RanIn(l.turns, change)[k] == Some(false)
  {
    forall k | 0 <= k < |l.turns|
      ensures LONE !in l.turns[k].left.seeds.activity
    {
      SeedsStand(l, k);
    }
    NothingRunsUnscripted(l.turns, change);
  }

  lemma TheSkipIsLiftedEarly()
    ensures LiftsEarly([SKIPPED_ON_THE_DRAFT], Unknown)
    ensures Given(DeclaredRequired(Some(Requirement({}, false))), true, [SKIPPED_ON_THE_DRAFT]) == Unknown
  {
    DraftOfTheMissed();
    RedReadingIsMissed();
  }

  /** So it is lifted early, and read again. */
  lemma ReadsAgain(p: Publisher, after: seq<Check>, change: Change)
    requires p.log.begun == SeededRed(after) && p.log.inStore == [] && p.host.seeds == SeededRed(after).seeds
    requires p.log.mine.Some? && p.log.mine.value.change == change && change.id == LONE
    requires p.log.r == p.r && p.r.reason.None? && !p.r.draftsDisabled
    requires !p.log.mine.value.adopted && p.log.mine.value.told.Some? && 0 < |p.Heard(change)| <= 2
    requires var heard := p.Heard(change); ReadsAgainAsItShould(heard, p.Declares(heard[0]), p.AsDraft(), p.Ran(change))
    ensures p.Heard(change) == [[SKIPPED_ON_THE_DRAFT], after] && p.Declares(p.Heard(change)[0]) == Unknown
  {
    ReadsTheScript(p.log, after);
    AloneOpensADraft(p.log);
    NothingIsSaidToRun(p.log, after, change);
    TheSkipIsLiftedEarly();
    assert p.Declares([SKIPPED_ON_THE_DRAFT]) == Unknown;
  }

  /** What that publication then tells. */
  lemma SeededTells(p: Publisher, after: seq<Check>, policy: MergePolicy, change: Change, o: Outcome)
    requires p.log.begun == SeededRed(after) && p.log.inStore == [] && p.host.seeds == SeededRed(after).seeds
    requires p.r == Asking(policy, false) && p.log.r == p.r && p.TellsOf(change, o)
    requires !p.log.mine.value.adopted && change.id == LONE && p.Heard(change) != []
    ensures p.Heard(change) == [[SKIPPED_ON_THE_DRAFT], after]
    ensures Count(p.trace, AskedMerge) == 1 <==>
      AsksMerge(p.r, true, AgainWatched(after, [SKIPPED_ON_THE_DRAFT], Unknown, false))
    ensures Concludes(p.r, true, AgainWatched(after, [SKIPPED_ON_THE_DRAFT], Unknown, false), o)
  {
    ReadsAgain(p, after, change);
    NothingIsSaidToRun(p.log, after, change);
  }

  /** A whole publication of such a host asks for a merge exactly where its second reading calls for
      one. */
  method PublishSeeded(after: seq<Check>, policy: MergePolicy) returns (p: Publisher, o: Outcome, ghost change: Option<Change>)
    ensures p.log.begun == SeededRed(after) && p.r == Asking(policy, false)
    ensures change.Some? && p.Heard(change.value) == [[SKIPPED_ON_THE_DRAFT], after]
    ensures Count(p.trace, AskedMerge) == 1 <==>
      AsksMerge(p.r, true, AgainWatched(after, [SKIPPED_ON_THE_DRAFT], Unknown, false))
    ensures Concludes(p.r, true, AgainWatched(after, [SKIPPED_ON_THE_DRAFT], Unknown, false), o)
  {
    NothingIsNumberedYet(SeededRed(after));
    var host := new Host(SeededRed(after));
    p := new Publisher(host, Asking(policy, false), []);
    o, change := p.Publish();
    SomethingIsRead(p, o, change);
    SeededTells(p, after, policy, change.value, o);
  }

  lemma FailedSinceSettles()
    ensures AgainWatched([SKIPPED_ON_THE_DRAFT, FAILED_SINCE], [SKIPPED_ON_THE_DRAFT], Unknown, false) == OnReady
  {
    var draft, after := [SKIPPED_ON_THE_DRAFT], [SKIPPED_ON_THE_DRAFT, FAILED_SINCE];
    RedReadingIsMissed();
    assert after[1] == FAILED_SINCE;
    assert Rerun(after, draft, map[]);
  }

  /** The publication that reads a failed required check after its early lift, judges the rest of
      that reading, finds nothing required in it, and asks for the merge. */
  method MergedOverARedReading() returns (p: Publisher, o: Outcome, ghost change: Option<Change>)
    ensures change.Some? && |p.Heard(change.value)| == 2 && Red(Standings(p.Heard(change.value)[1], Unknown))
    ensures Count(p.trace, AskedMerge) == 1 && (o.MergedAt? || o.Queueing? || o.LeftOpen?)
  {
    RedReadingIsMissed();
    FailedSinceSettles();
    p, o, change := PublishSeeded([SKIPPED_ON_THE_DRAFT, FAILED_SINCE], ChangeDirect);
  }

  // ---- Held over a red reading ----

  const OTHER_RUNNING: Check := Check("other", true, false, None, Some(8))

  function WithOther(): seq<Check> { [SKIPPED_ON_THE_DRAFT, FAILED_SINCE, OTHER_RUNNING] }

  lemma OtherIsCounted()
    ensures Counted(WithOther(), [SKIPPED_ON_THE_DRAFT]) == [FAILED_SINCE, OTHER_RUNNING]
  {
    var draft := [SKIPPED_ON_THE_DRAFT];
    assert SKIPPED_ON_THE_DRAFT in draft && !RanAfterTheLift(SKIPPED_ON_THE_DRAFT, draft);
    assert WithOther()[1..] == [FAILED_SINCE, OTHER_RUNNING] && [FAILED_SINCE, OTHER_RUNNING][1..] == [OTHER_RUNNING];
    assert [OTHER_RUNNING][1..] == [] && Counted([OTHER_RUNNING], draft) == [OTHER_RUNNING];
  }

  /** What is judged of it waits for the other alone. */
  lemma OtherIsJudged()
    ensures Standings([FAILED_SINCE, OTHER_RUNNING], Unknown) == map["other" := Some(Pending)]
  {
    var counted := [FAILED_SINCE, OTHER_RUNNING];
    assert counted[1] in counted;
    assert Marked(counted) == {"other"};
    assert counted[1..] == [OTHER_RUNNING] && [OTHER_RUNNING][1..] == [];
    assert Worst([OTHER_RUNNING], "other") == Some(Pending);
    assert |FAILED_SINCE.name| == 4 && Worst(counted, "other") == Some(Pending);
  }

  /** As it was answered it is red, and nothing in it stands skipped. */
  lemma OtherIsRed()
    ensures Red(Standings(WithOther(), Unknown)) && SkippedNames(Standings(WithOther(), Unknown)) == {}
  {
    var after := WithOther();
    assert after[0] == SKIPPED_ON_THE_DRAFT && after[1] == FAILED_SINCE && after[2] == OTHER_RUNNING;
    assert "test" in Marked(after) && HasFailedRun(after, "test");
    RedIff(after, Unknown);
    assert Marked(after) == {"test", "other"};
    assert after[1..] == [FAILED_SINCE, OTHER_RUNNING] && after[1..][1..] == [OTHER_RUNNING] && [OTHER_RUNNING][1..] == [];
    FailedIffSomeRunFailed(after, "test");
    assert Worst(after, "other") == Some(Pending);
  }

  lemma OneRunIsWaitedFor(after: seq<Check>, draft: seq<Check>, c: Check)
    requires Standings(Counted(after, draft), Unknown) == map[c.name := Some(Pending)]
    requires c in after && RanAfterTheLift(c, draft) && SkippedNames(Standings(after, Unknown)) == {}
    ensures AgainWatched(after, draft, Unknown, false) == Elapsed({})
  {
    var standing := Standings(Counted(after, draft), Unknown);
    OneIsWaitedFor(standing, c.name);
    assert Rerun(after, draft, standing);
  }

  lemma OneIsWaitedFor(standing: Checks.Standing, n: string)
    requires standing == map[n := Some(Pending)]
    ensures !Red(standing) && SkippedNames(standing) == {} && exists m :: m in standing && standing[m] !in LETS_THROUGH
  {
    assert n in standing && standing[n] == Some(Pending);
  }

  /** The same failed run beside another check's, marked and still running: the watch elapses, with
      nothing skipped on either side of the lift. */
  lemma OtherIsWaitedFor()
    ensures AgainWatched(WithOther(), [SKIPPED_ON_THE_DRAFT], Unknown, false) == Elapsed({})
  {
    OtherIsCounted();
    OtherIsJudged();
    OtherIsRed();
    assert WithOther()[2] == OTHER_RUNNING && OTHER_RUNNING.name == "other";
    OneRunIsWaitedFor(WithOther(), [SKIPPED_ON_THE_DRAFT], OTHER_RUNNING);
  }

  /** And the publication that reads it asks for the merge to be held. */
  method HeldOverARedReading() returns (p: Publisher, o: Outcome, ghost change: Option<Change>)
    ensures change.Some? && |p.Heard(change.value)| == 2 && Red(Standings(p.Heard(change.value)[1], Unknown))
    ensures Count(p.trace, AskedMerge) == 1 && (o.Armed? || o.MergedAt?)
  {
    OtherIsRed();
    OtherIsWaitedFor();
    p, o, change := PublishSeeded(WithOther(), ChangeAuto);
  }

  // ---- Lifted where nothing is required ----

  /** A host that requires nothing, and says that is all it requires. */
  function RequiringNothing(): HostState { Scenario(map[], map[], Requirement({}, true), map[]) }

  lemma NothingIsReported(l: SoundLog)
    requires l.begun == RequiringNothing() && HeardIn(l.turns, LONE) != []
    ensures HeardIn(l.turns, LONE)[0] == []
  {
    var at := HeardIsReported(l.turns, LONE, 0);
    SeedsStand(l, at);
    UnscriptedChecks(l.turns[at].left, LONE);
  }

  lemma NothingRequiredTells(p: Publisher, policy: MergePolicy, change: Change, o: Outcome)
    requires p.log.begun == RequiringNothing() && p.log.inStore == [] && p.host.seeds == RequiringNothing().seeds
    requires p.r == Asking(policy, false) && p.log.r == p.r && p.TellsOf(change, o)
    requires !p.log.mine.value.adopted && change.id == LONE && p.Heard(change) != []
    ensures Count(p.trace, DraftLifted) == 1 && Concludes(p.r, true, OnDraft, o)
    ensures Count(p.trace, AskedMerge) == if policy == ChangeOpen then 0 else 1
  {
    NothingIsReported(p.log);
    AloneOpensADraft(p.log);
    assert p.Declares([]) == Nothing;
    DraftSettlesIff([], Nothing);
    assert !LiftsEarly([], Nothing);
  }

  /** The publication there, whatever its policy: with nothing to wait for, the draft is lifted once,
      and left open or asked to merge as the policy has it. */
  method PublishedWhereNothingIsRequired(policy: MergePolicy) returns (p: Publisher, o: Outcome, ghost change: Option<Change>)
    ensures p.log.begun == RequiringNothing() && p.r == Asking(policy, false) && change.Some?
    ensures Count(p.trace, DraftLifted) == 1
    ensures Count(p.trace, AskedMerge) == if policy == ChangeOpen then 0 else 1
    ensures if policy == ChangeOpen then o == LeftOpen else o.MergedAt? || o.Queueing? || o.LeftOpen?
  {
    NothingIsNumberedYet(RequiringNothing());
    var host := new Host(RequiringNothing());
    p := new Publisher(host, Asking(policy, false), []);
    o, change := p.Publish();
    SomethingIsRead(p, o, change);
    NothingRequiredTells(p, policy, change.value, o);
  }
}
