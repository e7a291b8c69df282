/**
 What a publication as a change request may do, in what order: the language its record of
 events and host calls is written in.
 */
module Lifecycle {
  import opened Basics
  import opened Checks
  import opened HostDocument

  /** One thing a publication records, or asks the host that decides what it may do next. */
  datatype Event =
    | ChangeOpened
    | DraftedFor(reason: DraftReason)
    | DraftedAwaitingChecks
    | Read(checks: seq<Check>, declared: Declared)
    | ChecksSettled(skipped: set<string>)
    | WatchElapsed(skipped: set<string>)
    | DraftLifted
    | LiftedEarly(awaited: set<string>)
    | KeptForReview
    | AskedMerge
    | ChangeMerged(sha: Sha)
    | MergeCompleted(sha: Sha)
    | MergeArmed

  datatype Stage =
    | Unopened
    | Opened                                               // about to be read as a ready change
    | Awaiting                                             // about to be read as a draft
    | ReadReady(checks: seq<Check>, declared: Declared)
    | ReadDraft(checks: seq<Check>, declared: Declared)
    | LiftingEarly(checks: seq<Check>, declared: Declared)
    | LiftRecorded(declared: Declared)
    | ReadAfterLift(checks: seq<Check>, declared: Declared)
    | Green(draft: bool)
    | Waiting(skipped: set<string>)
    | Asked(arming: bool)
    | Landing(sha: Sha)
    | HeldForReason
    | HeldForReview
    | Landed(sha: Sha)
    | ArmedOnHost
    | Impossible

  /** Where a publication stands, and whether it ever lifted the change. */
  datatype Phase = Phase(stage: Stage, lifted: bool)

  /** The required checks with no run, or none but skipped ones. */
  function NotRun(standing: Standing): set<string> { Named(standing, {None, Some(Skipped)}) }

  /** Every required check of a draft passed, or the host's marking of the checks that ran on
      it, none of them skipped, is all there is to go by. */
  predicate DraftIsGreen(checks: seq<Check>, declared: Declared) {
    var standing := Standings(checks, declared);
    || declared.Nothing?
    || (standing != map[] && forall n :: n in standing ==> standing[n] == Some(Passed))
    || (declared.Unknown? && standing == map[] && checks != []
        && forall c :: c in checks ==> c.State() != Skipped)
  }

  /** Nothing required has run on the draft, and nothing required is still running. */
  predicate NothingRan(checks: seq<Check>, declared: Declared) {
    var standing := Standings(checks, declared);
    && (forall n :: n in standing ==> standing[n] !in {Some(Pending), Some(NoVerdict)})
    && (NotRun(standing) != {} || (declared.Unknown? && standing == map[]))
  }

  /** What one event makes of where a publication stands. */
  function Advance(p: Phase, e: Event): Phase {
    match e
    case DraftLifted =>
      if p.lifted then Phase(Impossible, true)
      else
        (match p.stage
         case Opened => Phase(Opened, true)
         case ReadDraft(checks, declared) =>
           if !Red(Standings(checks, declared)) && !DraftIsGreen(checks, declared) && NothingRan(checks, declared)
           then Phase(LiftingEarly(checks, declared), true) else Phase(Impossible, true)
         case Green(true) => Phase(Green(false), true)
         case Waiting(skipped) => if skipped == {} then Phase(Waiting({}), true) else Phase(Impossible, true)
         case _ => Phase(Impossible, true))
    case DraftedAwaitingChecks => p.(stage := if p.lifted then Impossible else Move(p.stage, e))
    case _ => p.(stage := Move(p.stage, e))
  }

  function Move(stage: Stage, e: Event): Stage {
    match (stage, e)
    case (Unopened, ChangeOpened) => Opened
    case (Opened, DraftedFor(_)) => HeldForReason
    case (Opened, DraftedAwaitingChecks) => Awaiting
    case (Opened, Read(checks, declared)) => ReadReady(checks, declared)
    case (Awaiting, Read(checks, declared)) => ReadDraft(checks, declared)
    case (ReadReady(checks, declared), ChecksSettled(skipped)) =>
      var standing := Standings(checks, declared);
      if !Red(standing) && Through(standing, declared) && skipped == SkippedNames(standing) then Green(false)
      else Impossible
    case (ReadReady(checks, declared), WatchElapsed(skipped)) =>
      var standing := Standings(checks, declared);
      if !Red(standing) && !Through(standing, declared) && skipped == SkippedNames(standing) then Waiting(skipped)
      else Impossible
    case (ReadDraft(checks, declared), ChecksSettled(skipped)) =>
      if !Red(Standings(checks, declared)) && DraftIsGreen(checks, declared) && skipped == {} then Green(true)
      else Impossible
    case (ReadDraft(checks, declared), WatchElapsed(skipped)) =>
      if !Red(Standings(checks, declared)) && !DraftIsGreen(checks, declared)
         && skipped == SkippedNames(Standings(checks, declared))
      then Waiting(skipped) else Impossible
    case (LiftingEarly(checks, declared), LiftedEarly(awaited)) =>
      if awaited == NotRun(Standings(checks, declared)) then LiftRecorded(declared) else Impossible
    case (LiftRecorded(held), Read(checks, declared)) =>
      if declared == held then ReadAfterLift(checks, declared) else Impossible
    case (ReadAfterLift(checks, declared), ChecksSettled(skipped)) =>
      var standing := Standings(checks, declared);
      if (forall n :: n in standing ==> standing[n] in LETS_THROUGH) && skipped == SkippedNames(standing)
      then Green(false) else Impossible
    case (ReadAfterLift(checks, declared), WatchElapsed(skipped)) =>
      var standing := Standings(checks, declared);
      if !Red(standing) && SkippedNames(standing) <= skipped then Waiting(skipped) else Impossible
    case (Green(true), KeptForReview) => HeldForReview
    case (Green(false), AskedMerge) => Asked(false)
    case (Waiting(skipped), AskedMerge) => if skipped == {} then Asked(true) else Impossible
    case (Asked(_), ChangeMerged(sha)) => Landing(sha)
    case (Landing(sha), MergeCompleted(again)) => if again == sha then Landed(sha) else Impossible
    case (Asked(true), MergeArmed) => ArmedOnHost
    case _ => Impossible
  }

  // Where single events lead, as a publication takes them.

  lemma FirstReadingMoves(p: Phase, checks: seq<Check>, declared: Declared)
    ensures p.stage.Opened? ==> Advance(p, Read(checks, declared)) == Phase(ReadReady(checks, declared), p.lifted)
    ensures p.stage.Awaiting? ==> Advance(p, Read(checks, declared)) == Phase(ReadDraft(checks, declared), p.lifted)
  {
  }

  lemma LiftMoves(p: Phase)
    requires !p.lifted
    ensures p.stage == Opened ==> Advance(p, DraftLifted) == Phase(Opened, true)
    ensures p.stage == Green(true) ==> Advance(p, DraftLifted) == Phase(Green(false), true)
    ensures p.stage == Waiting({}) ==> Advance(p, DraftLifted) == Phase(Waiting({}), true)
    ensures Advance(p, DraftLifted).lifted
    ensures !HasAsked(p.stage) ==> !HasAsked(Advance(p, DraftLifted).stage)
  {
  }

  lemma EarlyLiftMoves(checks: seq<Check>, declared: Declared)
    requires !Red(Standings(checks, declared)) && !DraftIsGreen(checks, declared) && NothingRan(checks, declared)
    ensures var lifting := Phase(LiftingEarly(checks, declared), true);
      && Advance(Phase(ReadDraft(checks, declared), false), DraftLifted) == lifting
      && Advance(lifting, LiftedEarly(NotRun(Standings(checks, declared)))) == Phase(LiftRecorded(declared), true)
  {
  }

  lemma ReadAfterLiftMoves(checks: seq<Check>, declared: Declared)
    ensures Advance(Phase(LiftRecorded(declared), true), Read(checks, declared)) == Phase(ReadAfterLift(checks, declared), true)
  {
  }

  lemma AskMoves(p: Phase)
    ensures p.stage == Green(false) ==> Advance(p, AskedMerge) == Phase(Asked(false), p.lifted)
    ensures p.stage == Waiting({}) ==> Advance(p, AskedMerge) == Phase(Asked(true), p.lifted)
  {
  }

  lemma MergeIsRecorded(p: Phase, sha: Sha)
    requires p.stage.Asked?
    ensures Advance(p, ChangeMerged(sha)) == Phase(Landing(sha), p.lifted)
    ensures Advance(Phase(Landing(sha), p.lifted), MergeCompleted(sha)) == Phase(Landed(sha), p.lifted)
  {
  }

  function PhaseAfter(trace: seq<Event>): Phase {
    if trace == [] then Phase(Unopened, false)
    else Advance(PhaseAfter(trace[..|trace| - 1]), trace[|trace| - 1])
  }

  /** The language: the traces that never do what a publication may not. */
  ghost predicate Allowed(trace: seq<Event>) { !PhaseAfter(trace).stage.Impossible? }

  function Count(trace: seq<Event>, e: Event): nat {
    if trace == [] then 0
    else Count(trace[..|trace| - 1], e) + (if trace[|trace| - 1] == e then 1 else 0)
  }

  lemma {:induction false} ImpossibleIsForever(trace: seq<Event>, n: nat)
    requires n <= |trace| && Allowed(trace)
    ensures Allowed(trace[..n])
    decreases |trace|
  {
    if n == |trace| {
      assert trace[..n] == trace;
    } else {
      ImpossibleIsForever(trace[..|trace| - 1], n);
      assert trace[..|trace| - 1][..n] == trace[..n];
    }
  }

  /** A change is lifted at most once, and the phase remembers whether it was. */
  lemma {:induction false} AtMostOneLift(trace: seq<Event>)
    requires Allowed(trace)
    ensures Count(trace, DraftLifted) == if PhaseAfter(trace).lifted then 1 else 0
    decreases |trace|
  {
    if trace != [] {
      ImpossibleIsForever(trace, |trace| - 1);
      AtMostOneLift(trace[..|trace| - 1]);
    }
  }

  /** Whether a merge has been asked for, by where a publication stands. */
  predicate HasAsked(stage: Stage) {
    stage.Asked? || stage.Landing? || stage.Landed? || stage.ArmedOnHost?
  }

  lemma OneEventAsks(p: Phase, e: Event)
    requires !Advance(p, e).stage.Impossible?
    ensures HasAsked(Advance(p, e).stage) <==> HasAsked(p.stage) || e == AskedMerge
    ensures e == AskedMerge ==> !HasAsked(p.stage)
  {
  }

  /** A merge is asked for at most once. */
  lemma {:induction false} AtMostOneMergeAsked(trace: seq<Event>)
    requires Allowed(trace)
    ensures Count(trace, AskedMerge) == if HasAsked(PhaseAfter(trace).stage) then 1 else 0
    decreases |trace|
  {
    if trace != [] {
      ImpossibleIsForever(trace, |trace| - 1);
      AtMostOneMergeAsked(trace[..|trace| - 1]);
      OneEventAsks(PhaseAfter(trace[..|trace| - 1]), trace[|trace| - 1]);
    }
  }

  /** A draft kept for review was neither lifted nor asked to merge, and nothing follows. */
  lemma KeptExcludesLiftAndMerge(trace: seq<Event>, i: nat)
    requires Allowed(trace) && i < |trace| && trace[i] == KeptForReview
    ensures i == |trace| - 1
    ensures Count(trace, DraftLifted) == 0 && Count(trace, AskedMerge) == 0
  {
    if i < |trace| - 1 {
      ImpossibleIsForever(trace, i + 2);
      ImpossibleIsForever(trace, i + 1);
      assert trace[..i + 2][..i + 1] == trace[..i + 1];
      KeptIsWhereItEnds(trace[..i + 1]);
    } else {
      ImpossibleIsForever(trace, i);
      GreenDraftWasNotLifted(trace[..i]);
      AtMostOneLift(trace);
      AtMostOneMergeAsked(trace);
    }
  }

  lemma KeptIsWhereItEnds(trace: seq<Event>)
    requires Allowed(trace) && trace != [] && trace[|trace| - 1] == KeptForReview
    ensures PhaseAfter(trace).stage == HeldForReview
    ensures forall e :: Advance(PhaseAfter(trace), e).stage.Impossible?
  {
  }

  /** Only what was never lifted is read, and found green, as a draft. */
  lemma {:induction false} GreenDraftWasNotLifted(trace: seq<Event>)
    requires Allowed(trace)
    ensures var p := PhaseAfter(trace);
      p.stage.Awaiting? || p.stage.ReadDraft? || p.stage == Green(true) || p.stage.Unopened? ==> !p.lifted
    decreases |trace|
  {
    if trace != [] {
      ImpossibleIsForever(trace, |trace| - 1);
      GreenDraftWasNotLifted(trace[..|trace| - 1]);
    }
  }

  /** Every merge asked for follows checks that settled, or a watch that elapsed with nothing
      red and nothing skipped. */
  lemma {:induction false} MergeFollowsTheWatch(trace: seq<Event>, j: nat)
    requires Allowed(trace) && j < |trace| && trace[j] == AskedMerge
    ensures exists i :: 0 <= i < j && (trace[i].ChecksSettled? || trace[i] == WatchElapsed({}))
  {
    ImpossibleIsForever(trace, j + 1);
    ImpossibleIsForever(trace, j);
    assert trace[..j + 1][..j] == trace[..j];
    WatchHasEnded(trace[..j]);
    var i :| 0 <= i < j && (trace[..j][i].ChecksSettled? || trace[..j][i] == WatchElapsed({}));
    assert trace[i] == trace[..j][i];
  }

  lemma {:induction false} WatchHasEnded(trace: seq<Event>)
    requires PhaseAfter(trace).stage.Green? || PhaseAfter(trace).stage == Waiting({})
    ensures exists i :: 0 <= i < |trace| && (trace[i].ChecksSettled? || trace[i] == WatchElapsed({}))
    decreases |trace|
  {
    var before, last := trace[..|trace| - 1], trace[|trace| - 1];
    if last.DraftLifted? {
      WatchHasEnded(before);
      var i :| 0 <= i < |before| && (before[i].ChecksSettled? || before[i] == WatchElapsed({}));
      assert trace[i] == before[i];
    }
  }

  /** A reading in which a required check stands failed is the last thing a publication does:
      no merge, no lift and no settlement follows it. */
  lemma RedReadingEndsIt(trace: seq<Event>, i: nat)
    requires Allowed(trace) && i < |trace| && trace[i].Read?
    requires Red(Standings(trace[i].checks, trace[i].declared))
    ensures i == |trace| - 1
  {
    if i < |trace| - 1 {
      ImpossibleIsForever(trace, i + 2);
      ImpossibleIsForever(trace, i + 1);
      assert trace[..i + 2][..i + 1] == trace[..i + 1];
      assert trace[..i + 1][..i] == trace[..i];
      var p := PhaseAfter(trace[..i + 1]);
      assert p == Advance(PhaseAfter(trace[..i]), trace[i]);
      assert PhaseAfter(trace[..i + 2]) == Advance(p, trace[i + 1]);
      RedStageIsStuck(p, trace[i].checks, trace[i].declared, trace[i + 1]);
    }
  }

  lemma RedStageIsStuck(p: Phase, checks: seq<Check>, declared: Declared, e: Event)
    requires p.stage in {ReadReady(checks, declared), ReadDraft(checks, declared), ReadAfterLift(checks, declared)}
    requires Red(Standings(checks, declared))
    ensures Advance(p, e).stage.Impossible?
  {
    var standing := Standings(checks, declared);
    assert exists n :: n in standing && standing[n] !in LETS_THROUGH by {
      var n :| n in standing && standing[n] == Some(Failed);
    }
    if p.stage.ReadReady? {
      assert Move(p.stage, e).Impossible?;
    } else if p.stage.ReadDraft? {
      assert Move(p.stage, e).Impossible?;
    } else {
      assert Move(p.stage, e).Impossible?;
    }
  }

  // ---- What a record read, and what it made of it ----

  /** The readings a record holds. */
  ghost function ReadingsOf(trace: seq<Event>): (readings: seq<Event>)
    ensures forall i :: 0 <= i < |readings| ==> readings[i].Read?
  {
    if trace == [] then []
    else
      var before, last := ReadingsOf(trace[..|trace| - 1]), trace[|trace| - 1];
      if last.Read? then before + [last] else before
  }

  /** The reading judged last. */
  ghost function LastReading(trace: seq<Event>): (last: Event)
    requires ReadingsOf(trace) != []
    ensures last.Read?
  {
    ReadingsOf(trace)[|ReadingsOf(trace)| - 1]
  }

  lemma {:induction false} LastReadingIsInTheRecord(trace: seq<Event>) returns (i: nat)
    requires ReadingsOf(trace) != []
    ensures i < |trace| && trace[i] == LastReading(trace) && trace[i].Read?
    decreases |trace|
  {
    if trace[|trace| - 1].Read? {
      i := |trace| - 1;
    } else {
      i := LastReadingIsInTheRecord(trace[..|trace| - 1]);
    }
  }

  predicate IsReading(stage: Stage) { stage.ReadReady? || stage.ReadDraft? || stage.ReadAfterLift? }

  /** A record that stands at a reading has just made it. */
  lemma ReadingStageHasJustRead(trace: seq<Event>)
    requires Allowed(trace) && IsReading(PhaseAfter(trace).stage)
    ensures ReadingsOf(trace) != []
    ensures LastReading(trace) == Read(PhaseAfter(trace).stage.checks, PhaseAfter(trace).stage.declared)
  {
    var p, e := PhaseAfter(trace[..|trace| - 1]), trace[|trace| - 1];
    ImpossibleIsForever(trace, |trace| - 1);
    OnlyAReadingReads(p, e);
  }

  lemma OnlyAReadingReads(p: Phase, e: Event)
    requires IsReading(Advance(p, e).stage)
    ensures e == Read(Advance(p, e).stage.checks, Advance(p, e).stage.declared)
  {
  }

  /** A record stands at a red reading exactly where the last one it made is red, and then it has
      asked for no merge. */
  lemma RedReadingIff(trace: seq<Event>)
    requires Allowed(trace) && ReadingsOf(trace) != []
    ensures var last, stage := LastReading(trace), PhaseAfter(trace).stage;
      && last.Read?
      && (Red(Standings(last.checks, last.declared)) <==>
            IsReading(stage) && Red(Standings(stage.checks, stage.declared)))
      && (Red(Standings(last.checks, last.declared)) ==> Count(trace, AskedMerge) == 0)
  {
    var i := LastReadingIsInTheRecord(trace);
    var last := trace[i];
    if Red(Standings(last.checks, last.declared)) {
      RedReadingEndsIt(trace, i);
      ReadingIsWhereItStands(trace);
      AtMostOneMergeAsked(trace);
    }
    if IsReading(PhaseAfter(trace).stage) {
      ReadingStageHasJustRead(trace);
    }
  }

  lemma ReadingIsWhereItStands(trace: seq<Event>)
    requires Allowed(trace) && trace != [] && trace[|trace| - 1].Read?
    ensures var stage, last := PhaseAfter(trace).stage, trace[|trace| - 1];
      IsReading(stage) && stage.checks == last.checks && stage.declared == last.declared
  {
    ReadingMoves(PhaseAfter(trace[..|trace| - 1]), trace[|trace| - 1]);
  }

  lemma ReadingMoves(p: Phase, e: Event)
    requires e.Read? && !Advance(p, e).stage.Impossible?
    ensures var stage := Advance(p, e).stage; IsReading(stage) && stage.checks == e.checks && stage.declared == e.declared
  {
  }

  /** Nothing required is still running, or ended with no verdict, or never ran. */
  predicate NothingWaits(checks: seq<Check>, declared: Declared) {
    forall n :: n in Standings(checks, declared) ==> Standings(checks, declared)[n] in LETS_THROUGH
  }

  /** What a stage says of the reading judged last, the second of its record where `again`:
      settled, and whatever follows from it, only where nothing required waits; lifted early only
      where nothing required ran; and elapsed on the checks that reading shows skipped. */
  ghost predicate StageIsTrueTo(stage: Stage, checks: seq<Check>, declared: Declared, again: bool) {
    match stage
    case Unopened => false
    case Opened => false
    case Awaiting => false
    case HeldForReason => false
    case ReadReady(_, _) => !again
    case ReadDraft(_, _) => !again
    case LiftingEarly(seen, said) => !again && seen == checks && said == declared && NothingRan(checks, declared)
    case LiftRecorded(_) => !again && NothingRan(checks, declared)
    case ReadAfterLift(_, _) => again
    case Green(_) => NothingWaits(checks, declared)
    case HeldForReview => NothingWaits(checks, declared)
    case Asked(arming) => arming || NothingWaits(checks, declared)
    case Waiting(skipped) =>
      var seen := SkippedNames(Standings(checks, declared));
      if again then seen <= skipped else seen == skipped
    case _ => true
  }

  lemma DraftIsGreenWaitsForNothing(checks: seq<Check>, declared: Declared)
    requires DraftIsGreen(checks, declared)
    ensures NothingWaits(checks, declared)
  {
  }

  lemma OneEventIsTrue(p: Phase, e: Event, checks: seq<Check>, declared: Declared, again: bool)
    requires !Advance(p, e).stage.Impossible?
    requires if e.Read? then e == Read(checks, declared) && (again <==> p.stage.LiftRecorded?)
      else StageIsTrueTo(p.stage, checks, declared, again) && (IsReading(p.stage) ==> p.stage.checks == checks && p.stage.declared == declared)
    ensures StageIsTrueTo(Advance(p, e).stage, checks, declared, again)
  {
    if p.stage.ReadDraft? && e.ChecksSettled? {
      DraftIsGreenWaitsForNothing(checks, declared);
    }
  }

  lemma LastReadingOf(trace: seq<Event>)
    requires trace != [] && ReadingsOf(trace) != []
    ensures var before, e := trace[..|trace| - 1], trace[|trace| - 1];
      if e.Read? then LastReading(trace) == e else ReadingsOf(before) == ReadingsOf(trace)
  {
  }

  /** A record that has read nothing yet stands before its first reading. */
  lemma {:induction false} UnreadStandsAtTheStart(trace: seq<Event>)
    requires Allowed(trace) && ReadingsOf(trace) == []
    ensures var stage := PhaseAfter(trace).stage;
      stage.Unopened? || stage.Opened? || stage.Awaiting? || stage.HeldForReason?
    decreases |trace|
  {
    if trace != [] {
      ImpossibleIsForever(trace, |trace| - 1);
      UnreadStandsAtTheStart(trace[..|trace| - 1]);
    }
  }

  lemma OnlyALiftIsReadAgain(p: Phase, e: Event, checks: seq<Check>, declared: Declared, again: bool)
    requires e.Read? && !Advance(p, e).stage.Impossible? && StageIsTrueTo(p.stage, checks, declared, again)
    ensures p.stage.LiftRecorded? && !again && NothingRan(checks, declared)
  {
  }

  lemma OnlyAStartIsReadFirst(p: Phase, e: Event)
    requires p.stage.Unopened? || p.stage.Opened? || p.stage.Awaiting? || p.stage.HeldForReason?
    ensures e.Read? && !Advance(p, e).stage.Impossible? ==> !p.stage.LiftRecorded?
  {
  }

  /** Every record stands where its last reading lets it, and reads again only once, after a first
      reading on which nothing required had run. */
  lemma {:induction false} StandsByItsReading(trace: seq<Event>)
    requires Allowed(trace) && ReadingsOf(trace) != []
    ensures |ReadingsOf(trace)| <= 2
    ensures |ReadingsOf(trace)| == 2 ==> NothingRan(ReadingsOf(trace)[0].checks, ReadingsOf(trace)[0].declared)
    ensures StageIsTrueTo(PhaseAfter(trace).stage, LastReading(trace).checks, LastReading(trace).declared, |ReadingsOf(trace)| == 2)
    decreases |trace|
  {
    var before, e, last := trace[..|trace| - 1], trace[|trace| - 1], LastReading(trace);
    var p := PhaseAfter(before);
    ImpossibleIsForever(trace, |trace| - 1);
    LastReadingOf(trace);
    if ReadingsOf(before) == [] {
      UnreadStandsAtTheStart(before);
      OnlyAStartIsReadFirst(p, e);
    } else {
      StandsByItsReading(before);
      if e.Read? {
        OnlyALiftIsReadAgain(p, e, LastReading(before).checks, LastReading(before).declared, |ReadingsOf(before)| == 2);
      } else if IsReading(p.stage) {
        ReadingStageHasJustRead(before);
      }
    }
    assert PhaseAfter(trace) == Advance(p, e);
    OneEventIsTrue(p, e, last.checks, last.declared, |ReadingsOf(trace)| == 2);
  }

  // ---- A red reading that is missed ----

  const SKIPPED_ON_THE_DRAFT: Check := Check("test", true, true, Some(SkippedRun), Some(1))
  const FAILED_SINCE: Check := Check("test", false, true, Some(Other("failure")), Some(7))

  /** The host declares in part, requires nothing by name, and marks only the draft's skip: after
      an early lift it answers a failed run of that check beside it, which is red as it stands and
      is judged to require nothing, since the one marked run is left out. */
  lemma RedReadingIsMissed()
    ensures var draft, after := [SKIPPED_ON_THE_DRAFT], [SKIPPED_ON_THE_DRAFT, FAILED_SINCE];
      && Given(DeclaredRequired(Some(Requirement({}, false))), true, draft) == Unknown
      && Red(Standings(after, Unknown))
      && Counted(after, draft) == [FAILED_SINCE] && Standings(Counted(after, draft), Unknown) == map[]
      && RanAfterTheLift(FAILED_SINCE, draft)
  {
    var draft, after := [SKIPPED_ON_THE_DRAFT], [SKIPPED_ON_THE_DRAFT, FAILED_SINCE];
    assert SKIPPED_ON_THE_DRAFT in draft && SKIPPED_ON_THE_DRAFT in after && FAILED_SINCE in after;
    assert "test" in Marked(draft) && "test" in Marked(after);
    assert after[1..] == [FAILED_SINCE] && [FAILED_SINCE][1..] == [];
    assert !RanAfterTheLift(SKIPPED_ON_THE_DRAFT, draft);
    assert Counted([FAILED_SINCE], draft) == [FAILED_SINCE];
    assert FAILED_SINCE.name == "test" && FAILED_SINCE.State() == Failed && HasFailedRun(after, "test");
    FailedIffSomeRunFailed(after, "test");
    assert Standings(after, Unknown)["test"] == Some(Failed);
    assert Marked([FAILED_SINCE]) == {};
  }

  /** The record of a publication that merges it. */
  function MissedRecord(sha: Sha): seq<Event> {
    [ChangeOpened, DraftedAwaitingChecks, Read([SKIPPED_ON_THE_DRAFT], Unknown), DraftLifted, LiftedEarly({"test"}),
     Read([FAILED_SINCE], Unknown), ChecksSettled({}), AskedMerge, ChangeMerged(sha), MergeCompleted(sha)]
  }

  lemma DraftOfTheMissed()
    ensures var draft := [SKIPPED_ON_THE_DRAFT];
      && !Red(Standings(draft, Unknown)) && !DraftIsGreen(draft, Unknown) && NothingRan(draft, Unknown)
      && NotRun(Standings(draft, Unknown)) == {"test"}
  {
    var draft := [SKIPPED_ON_THE_DRAFT];
    assert SKIPPED_ON_THE_DRAFT in draft;
    assert Marked(draft) == {"test"};
    assert draft[1..] == [] && SKIPPED_ON_THE_DRAFT.State() == Skipped;
    assert Worst(draft, "test") == Some(Skipped);
    var standing := Standings(draft, Unknown);
    assert standing == map["test" := Some(Skipped)];
    assert "test" in standing && standing["test"] == Some(Skipped);
    assert NotRun(standing) == {"test"};
  }

  lemma MissedUpToTheLift(sha: Sha)
    ensures PhaseAfter(MissedRecord(sha)[..5]) == Phase(LiftRecorded(Unknown), true)
  {
    var t, draft := MissedRecord(sha), [SKIPPED_ON_THE_DRAFT];
    DraftOfTheMissed();
    EarlyLiftMoves(draft, Unknown);
    Onward(t, 0, Phase(Unopened, false), Phase(Opened, false));
    Onward(t, 1, Phase(Opened, false), Phase(Awaiting, false));
    Onward(t, 2, Phase(Awaiting, false), Phase(ReadDraft(draft, Unknown), false));
    Onward(t, 3, Phase(ReadDraft(draft, Unknown), false), Phase(LiftingEarly(draft, Unknown), true));
    Onward(t, 4, Phase(LiftingEarly(draft, Unknown), true), Phase(LiftRecorded(Unknown), true));
  }

  lemma NothingRequiredSettles(checks: seq<Check>, declared: Declared)
    requires Standings(checks, declared) == map[]
    ensures Advance(Phase(ReadAfterLift(checks, declared), true), ChecksSettled({})) == Phase(Green(false), true)
  {
    assert SkippedNames(map[]) == {};
  }

  lemma MissedReadingSettles()
    ensures Advance(Phase(ReadAfterLift([FAILED_SINCE], Unknown), true), ChecksSettled({})) == Phase(Green(false), true)
  {
    RedReadingIsMissed();
    NothingRequiredSettles([FAILED_SINCE], Unknown);
  }

  lemma MissedUpToTheMerge(sha: Sha)
    ensures PhaseAfter(MissedRecord(sha)[..7]) == Phase(Green(false), true)
  {
    var t := MissedRecord(sha);
    MissedUpToTheLift(sha);
    ReadAfterLiftMoves([FAILED_SINCE], Unknown);
    MissedReadingSettles();
    Onward(t, 5, Phase(LiftRecorded(Unknown), true), Phase(ReadAfterLift([FAILED_SINCE], Unknown), true));
    Onward(t, 6, Phase(ReadAfterLift([FAILED_SINCE], Unknown), true), Phase(Green(false), true));
  }

  /** It is one the language allows, up to the merge. */
  lemma MissedRecordIsAllowed(sha: Sha)
    ensures Allowed(MissedRecord(sha)) && Count(MissedRecord(sha), AskedMerge) == 1
    ensures PhaseAfter(MissedRecord(sha)) == Phase(Landed(sha), true)
  {
    var t := MissedRecord(sha);
    MissedUpToTheMerge(sha);
    AskMoves(Phase(Green(false), true));
    Onward(t, 7, Phase(Green(false), true), Phase(Asked(false), true));
    MergeIsRecorded(Phase(Asked(false), true), sha);
    Onward(t, 8, Phase(Asked(false), true), Phase(Landing(sha), true));
    Onward(t, 9, Phase(Landing(sha), true), Phase(Landed(sha), true));
    assert t[..10] == t;
    AtMostOneMergeAsked(t);
  }

  lemma Onward(trace: seq<Event>, n: nat, p: Phase, q: Phase)
    requires n < |trace| && PhaseAfter(trace[..n]) == p && Advance(p, trace[n]) == q
    ensures PhaseAfter(trace[..n + 1]) == q
  {
    assert trace[..n + 1][..n] == trace[..n];
  }
}
