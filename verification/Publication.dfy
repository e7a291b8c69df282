/**
 A publication as a change request, run against a host that other people and other
 publications move between any two of its calls.
 */
module Publication {
  import opened Basics
  import opened Checks
  import opened HostDocument
  import opened StandingVerdicts
  import opened HostService
  import opened HostRuns
  import opened History
  import opened Lifecycle
  import opened PublicationRules
  import opened PublicationLog

  /** Where a red required check was just read. */
  ghost predicate IsRedStage(stage: Stage) {
    (stage.ReadReady? || stage.ReadDraft? || stage.ReadAfterLift?) && Red(Standings(stage.checks, stage.declared))
  }

  class Publisher {
    const host: Host
    const r: Request
    var others: seq<seq<Move>>   // what everybody else does before each of this run's calls
    var trace: seq<Event>
    ghost var log: SoundLog      // every call this run made: what its type asks of it always holds

    constructor (host: Host, r: Request, others: seq<seq<Move>>)
      ensures this.host == host && this.r == r && this.others == others
      ensures trace == []
    {
      this.host, this.r, this.others, this.trace := host, r, others, [];
      log := Fresh(NO_REQUEST, NO_HOST, []);
    }

    /** Where a publication's record ends, for each outcome it may answer. */
    ghost predicate EndsAs(o: Outcome)
      reads this`trace
    {
      var stage := Now().stage;
      match o
      case ChangeDraft => r.reason.Some? && stage.HeldForReason?
      case ChangeReviewDraft => stage.HeldForReview? && r.KeepsForReview()
      case LeftOpen => if r.policy == ChangeOpen then stage == Green(false) else stage == Asked(false)
      case Queueing => stage == Asked(false) && r.policy != ChangeOpen
      case MergedAt(sha) => stage == Landed(sha) && r.policy != ChangeOpen
      case Armed => stage.ArmedOnHost? && r.Automated() && host.seeds.allowAutoMerge
      case Failing(why) => FailsAs(why)
    }

    /** And for each way it may fail. */
    ghost predicate FailsAs(why: Failure)
      reads this`trace
    {
      var stage := Now().stage;
      match why
      case ChecksFailed => IsRedStage(stage)
      case ChecksUnsettled =>
        || (stage.Waiting? && !(r.Automated() && stage.skipped == {} && host.seeds.allowAutoMerge))
        || (stage.ReadAfterLift? && !Red(Standings(stage.checks, stage.declared)))
      case NotHeldAsADraft => r.reason.Some? && stage.Opened?
      case GraceUnusable => stage.Unopened? && !r.draftsDisabled && !r.graceUsable
      case HostRefused(refusal) =>
        || (stage.Unopened? && RefusesRequest(refusal))
        || (stage.Unopened? && refusal == NobodyAuthenticated && OnlyWhitespace(host.seeds.authenticatedUser))
        || (refusal == NoCheckSource && host.seeds.sources == Some({})
            && (stage.Opened? || stage.Awaiting? || stage.LiftRecorded?))
    }

    /** Which refusal of the host the request itself earns. */
    predicate RefusesRequest(why: Refusal) {
      match why
      case NotAddressable => !Addressable(r.head) || !Addressable(r.base)
      case Untitled => OnlyWhitespace(r.title)
      case UnusableReason => r.reason.Some? && !Printable(r.reason.value)
      case _ => false
    }

    ghost function Now(): Phase
      reads this`trace
    {
      PhaseAfter(trace)
    }

    ghost function Readings(): seq<Event>
      reads this`trace
    {
      ReadingsOf(trace)
    }

    /** What the host declares a merge requires, sharpened by a reading of the checks: what it
        declares is the scenario's, which nothing changes. */
    function Declares(checks: seq<Check>): Declared {
      Given(DeclaredRequired(Some(RequiredBy(host.seeds))), CompleteSources(host.seeds), checks)
    }

    /** Every list of checks the host answered this run about its change, in order. */
    ghost function Heard(change: Change): seq<seq<Check>>
      reads this`log
    {
      HeardIn(log.turns, change.id)
    }

    /** And every answer about what runs on its head. */
    ghost function Ran(change: Change): seq<Option<bool>>
      reads this`log
    {
      RanIn(log.turns, change)
    }

    /** The record holds every list the host answered, the second without the draft's skips, each
        against the declaration as the first sharpened it. */
    ghost predicate TrueToTheHost(change: Change)
      reads this`log, this`trace
    {
      var heard := Heard(change);
      && |heard| <= 2
      && Readings() ==
           (if heard == [] then []
            else if |heard| == 1 then [Read(heard[0], Declares(heard[0]))]
            else [Read(heard[0], Declares(heard[0])), Read(Counted(heard[1], heard[0]), Declares(heard[0]))])
    }

    /** The host was asked for a lift, and for a merge, exactly where the record holds one. */
    ghost predicate Tallied()
      reads this`log, this`trace
    {
      && LiftsIn(log.turns) == (if Now().lifted then 1 else 0)
      && MergesIn(log.turns) == (if HasAsked(Now().stage) then 1 else 0)
    }

    /** What the log is of, whatever calls it holds. */
    ghost function Start(): Log
      reads this`log
    {
      log.(turns := [])
    }

    /** What has been read, and recorded of it. */
    ghost function Said(change: Change): (seq<seq<Check>>, seq<Option<bool>>, seq<Event>, Log)
      reads this`log, this`trace
    {
      (Heard(change), Ran(change), Readings(), Start())
    }

    /** The log is this run's, up to a host that has come to this document. */
    ghost predicate CameTo(t: HostState)
      reads this`log, this`others
    {
      log.r == r && t == log.Latest() && others == log.Rest()
    }

    /** And it is about this change. */
    ghost predicate HeldIn(change: Change, t: HostState)
      reads this`log, this`others
    {
      CameTo(t) && log.mine.Some? && log.mine.value.change == change
    }

    ghost predicate Holds(change: Change)
      reads this, host
    {
      HeldIn(change, host.Document()) && Tallied()
    }

    ghost predicate Ready(change: Change)
      reads this, host
    {
      Holds(change) && !Drafted(host.Document(), change.id)
    }

    /** The host holds the change as merged at this commit. */
    ghost predicate HasMerged(change: Change, sha: Sha)
      reads host
    {
      IsMerged(host.Document(), change.id) && host.landings.merges[change.id] == Merged(sha)
    }

    method Emit(e: Event)
      modifies this`trace
      ensures trace == old(trace) + [e]
      ensures Now() == Advance(old(Now()), e)
      ensures Readings() == if e.Read? then old(Readings()) + [e] else old(Readings())
    {
      trace := trace + [e];
      assert trace[..|trace| - 1] == old(trace);
    }

    /** Whatever everybody else does before this run's next call. */
    method Meanwhile()
      modifies this`others, host
      ensures others == Later(old(others))
      ensures host.Document() == Run(old(host.Document()), Before(old(others)))
    {
      if others == [] {
        return;
      }
      var moves := others[0];
      others := others[1..];
      for i := 0 to |moves|
        invariant host.Document() == Run(old(host.Document()), moves[..i]) && others == old(others)[1..]
      {
        assert moves[..i + 1][..i] == moves[..i];
        host.Perform(moves[i]);
      }
      assert moves[..|moves|] == moves;
    }

    /** The last call this run made. */
    ghost function Last(): Turn
      requires log.turns != []
      reads this`log
    {
      log.turns[|log.turns| - 1]
    }

    /** Whatever everybody else does before a call of this run's, which is then its next. */
    method Wait(ghost m: Move)
      requires CameTo(host.Document())
      requires if log.mine.Some? then Concerns(m, log.mine.value.change) else !m.PersonMerging?
      modifies this`others, this`log, host
      ensures log == old(log).Then(m) && Last().met == host.Document()
      ensures CameTo(Step(host.Document(), m))
    {
      ThenIsSound(log, m);
      UpcomingHappens(log, m);
      log := log.Then(m);
      Meanwhile();
    }

    /** A call about this run's change, once everybody else has done what they do before it. */
    method Ask(ghost m: Move, change: Change)
      requires HeldIn(change, host.Document()) && Concerns(m, change)
      modifies this`others, this`log, host
      ensures |log.turns| == |old(log.turns)| + 1 && Last().own == m && Last().met == host.Document()
      ensures HeldIn(change, Step(host.Document(), m)) && Start() == old(Start()) && !IsBlank(change.id)
      ensures !old(Drafted(host.Document(), change.id)) ==>
        !Drafted(host.Document(), change.id) && !Drafted(Step(host.Document(), m), change.id)
      ensures old(IsMerged(host.Document(), change.id)) ==>
        IsMerged(host.Document(), change.id) && host.landings.merges[change.id] == old(host.landings.merges[change.id])
      ensures Heard(change) ==
        if m == Reading(ChecksCall, [change.id]) && host.seeds.sources != Some({})
        then old(Heard(change)) + [CurrentChecks(Step(host.Document(), m), change.id)] else old(Heard(change))
      ensures Ran(change) ==
        if m == Reading(ActivityCall, [change.id]) then old(Ran(change)) + [Running(Step(host.Document(), m), change)]
        else old(Ran(change))
      ensures LiftsIn(log.turns) == old(LiftsIn(log.turns)) + if m.Lifting? then 1 else 0
      ensures MergesIn(log.turns) == old(MergesIn(log.turns)) + if m.Merging? then 1 else 0
    {
      OneMoreTurn(log.turns, log.Upcoming(m), change);
      NoDraftStays(log, m);
      Wait(m);
    }

    method AskIsDraft(change: Change) returns (isDraft: bool)
      requires Holds(change)
      modifies this`others, this`log, host
      ensures Holds(change) && (old(Ready(change)) ==> Ready(change)) && Said(change) == old(Said(change))
      ensures isDraft == Drafted(host.Document(), change.id)
      ensures |log.turns| == |old(log.turns)| + 1 && Last().own == AsksIfDraft(change)
    {
      Ask(AsksIfDraft(change), change);
      var answer := host.IsDraft(change.id);
      return answer.value;
    }

    method AskChecks(change: Change) returns (answer: Result<(seq<Check>, bool), Refusal>)
      requires Holds(change)
      modifies this`others, this`log, host
      ensures Holds(change) && (old(Ready(change)) ==> Ready(change))
      ensures Heard(change) == (if answer.Ok? then old(Heard(change)) + [answer.value.0] else old(Heard(change)))
      ensures Ran(change) == old(Ran(change)) && Start() == old(Start())
      ensures answer.Ok? ==> (answer.value.1 <==> CompleteSources(host.seeds))
      ensures answer.Err? ==> answer.error == NoCheckSource && host.seeds.sources == Some({})
    {
      Ask(Reading(ChecksCall, [change.id]), change);
      answer := host.ChangeChecks(change.id);
    }

    /** A question of another kind, which leaves what was read and recorded as it was. */
    method AskOther(ghost name: string, change: Change)
      requires Holds(change)
      modifies this`others, this`log, host
      ensures HeldIn(change, Step(host.Document(), Reading(OtherCall(name), []))) && Tallied() && Said(change) == old(Said(change))
      ensures old(Ready(change)) ==> !Drafted(host.Document(), change.id)
    {
      Ask(Reading(OtherCall(name), []), change);
    }

    /** What the host declares a merge requires, sharpened by one reading. */
    method AskDeclared(change: Change, checks: seq<Check>, complete: bool) returns (declared: Declared)
      requires Holds(change) && (complete <==> CompleteSources(host.seeds))
      modifies this`others, this`log, host
      ensures Holds(change) && (old(Ready(change)) ==> Ready(change)) && Said(change) == old(Said(change))
      ensures declared == Declares(checks)
    {
      AskOther("required_checks_on", change);
      var answer := host.RequiredChecks();
      return Given(DeclaredRequired(Some(answer)), complete, checks);
    }

    /** Whether anything on the change's head is still running. */
    method StillRunning(change: Change, checks: seq<Check>) returns (yes: bool)
      requires Holds(change)
      modifies this`others, this`log, host
      ensures Holds(change) && (old(Ready(change)) ==> Ready(change)) && Heard(change) == old(Heard(change))
      ensures Ran(change) == old(Ran(change)) + (if AnyPending(checks) then [] else [Running(host.Document(), change)])
      ensures Start() == old(Start())
      ensures yes <==> AnyPending(checks) || Running(host.Document(), change) == Some(true)
    {
      if AnyPending(checks) {
        return true;
      }
      Ask(Reading(ActivityCall, [change.id]), change);
      var running := host.HeadActivity(change);
      return running == Some(true);
    }

    lemma LiftedIsNoDraft(s: HostState, id: ChangeId)
      requires !IsBlank(id)
      ensures !Drafted(Step(s, Lifting(id)), id)
    {
    }

    /** Take the change out of its draft on the host. */
    method CallReady(change: Change)
      requires HeldIn(change, host.Document())
      modifies this`others, this`log, host
      ensures HeldIn(change, host.Document()) && !Drafted(host.Document(), change.id)
      ensures Heard(change) == old(Heard(change)) && Ran(change) == old(Ran(change)) && Start() == old(Start())
      ensures LiftsIn(log.turns) == old(LiftsIn(log.turns)) + 1 && MergesIn(log.turns) == old(MergesIn(log.turns))
    {
      Ask(Lifting(change.id), change);
      LiftedIsNoDraft(host.Document(), change.id);
      var answer := host.Ready(change.id);
    }

    /** And record the lift. */
    method Lift(change: Change)
      requires Holds(change) && !Now().lifted && !HasAsked(Now().stage)
      modifies this`others, this`log, this`trace, host
      ensures Ready(change) && Now() == Advance(old(Now()), DraftLifted) && Said(change) == old(Said(change))
      ensures old(Now().stage) == Opened ==> Now() == Phase(Opened, true)
      ensures old(Now().stage) == Green(true) ==> Now() == Phase(Green(false), true)
      ensures old(Now().stage) == Waiting({}) ==> Now() == Phase(Waiting({}), true)
    {
      LiftMoves(Now());
      CallReady(change);
      Emit(DraftLifted);
    }

    /** The host's answer to the merge it was last asked for, as it met that call. */
    ghost predicate MergeWasAsked(change: Change, policy: MergePolicy, answer: MergeOutcome)
      reads this`log, host
    {
      && log.turns != [] && Last().own == Merging(change, policy, r.now)
      && MergeChange(Last().met, change, policy, r.now) == (host.Document(), Ok(answer))
    }

    /** What the host was left holding: the merge it answered, or the merge it was asked to hold. */
    ghost predicate HoldsAnswer(change: Change, policy: MergePolicy, answer: MergeOutcome)
      reads host
    {
      answer.Merged? || answer.Queued? || policy.ChangeAuto? || policy.ChangeDirect? ==>
        change.id in host.landings.merges && host.landings.merges[change.id] == answer
    }

    /** The last thing asked was for the merge to be held: the host holds it, unless it had stored an
        answer of `open` for the change when it was asked, and then that stands. */
    ghost predicate IsHeldUnlessOpen(change: Change)
      reads this`log, host
    {
      && log.turns != [] && Last().own == Merging(change, ChangeAuto, r.now)
      && if OpenStored(Last().met, change.id) then OpenStored(host.Document(), change.id)
         else IsQueued(host.Document(), change.id)
    }

    /** Ask the host to merge a change that is not a draft: it is never refused as one. */
    method CallMerge(change: Change, policy: MergePolicy) returns (answer: MergeOutcome)
      requires HeldIn(change, host.Document()) && !Drafted(host.Document(), change.id)
      modifies this`others, this`log, host
      ensures HeldIn(change, host.Document()) && MergeWasAsked(change, policy, answer) && HoldsAnswer(change, policy, answer)
      ensures policy.ChangeAuto? && !answer.Merged? ==> IsHeldUnlessOpen(change)
      ensures Heard(change) == old(Heard(change)) && Ran(change) == old(Ran(change)) && Start() == old(Start())
      ensures LiftsIn(log.turns) == old(LiftsIn(log.turns)) && MergesIn(log.turns) == old(MergesIn(log.turns)) + 1
    {
      Ask(Merging(change, policy, r.now), change);
      MergeRefusesOnlyDrafts(host.Document(), change, policy, r.now);
      MergeAnswersItsDocument(host.Document(), change, policy, r.now);
      if policy.ChangeAuto? {
        StoredOpenIsAnswered(host.Document(), change, r.now);
      }
      var outcome := host.Merge(change, policy, r.now);
      return outcome.value;
    }

    method AskMerge(change: Change, policy: MergePolicy) returns (answer: MergeOutcome)
      requires Ready(change) && (Now().stage == Green(false) || Now().stage == Waiting({}))
      modifies this`others, this`log, this`trace, host
      ensures Now() == Phase(Asked(old(Now().stage.Waiting?)), old(Now().lifted)) && Said(change) == old(Said(change))
      ensures Holds(change) && HoldsAnswer(change, policy, answer)
      ensures policy.ChangeAuto? && !answer.Merged? ==> IsHeldUnlessOpen(change)
    {
      AskMoves(Now());
      answer := CallMerge(change, policy);
      Emit(AskedMerge);
    }

    /** The merge the host performed, read back as it is recorded. */
    method CallMergeTime(change: Change, sha: Sha)
      requires Holds(change) && HasMerged(change, sha)
      modifies this`others, this`log, host
      ensures Holds(change) && HasMerged(change, sha) && Said(change) == old(Said(change))
    {
      Ask(Reading(OtherCall("merge_time"), [change.id]), change);
      var ok := host.Call(OtherCall("merge_time"), [change.id]);
    }

    /** Record a merge the host performed. */
    method RecordMerge(change: Change, sha: Sha)
      requires Holds(change) && HasMerged(change, sha) && Now().stage.Asked?
      modifies this`others, this`log, this`trace, host
      ensures Holds(change) && HasMerged(change, sha) && Said(change) == old(Said(change))
      ensures Now() == Phase(Landed(sha), old(Now().lifted))
    {
      CallMergeTime(change, sha);
      MergeIsRecorded(Now(), sha);
      Emit(ChangeMerged(sha));
      Emit(MergeCompleted(sha));
    }

    // ---- The watch ----

    /** What a watch leaves behind it, whatever it answers. */
    ghost predicate WatchEnds(change: Change, drafted: bool, wasLifted: bool, w: Watched)
      reads this, host
    {
      && Holds(change)
      && (!drafted ==> Now().lifted == wasLifted && Ready(change))
      && match w
         case OnDraft => drafted && Now() == Phase(Green(true), false)
         case OnReady => Now().stage == Green(false) && Ready(change)
         case Elapsed(skipped) => Now().stage == Waiting(skipped) && (Now().lifted && drafted ==> Ready(change))
         case Stopped(why) => FailsAs(why) && (why == ChecksUnsettled ==> drafted && Now().lifted)
    }

    /** It answers what everything it heard comes to, and heard again exactly where it should. */
    ghost predicate WatchSays(change: Change, drafted: bool, w: Watched)
      reads this`log, this`trace
    {
      var heard, ran := Heard(change), Ran(change);
      if heard == [] then w.Stopped? && w.why.HostRefused?
      else
        && |heard| <= 2
        && (w == Stopped(HostRefused(NoCheckSource))
            || (ReadsAgainAsItShould(heard, Declares(heard[0]), drafted, ran)
                && w == Concluded(heard, Declares(heard[0]), drafted, ran)
                && (drafted ==> (Now().lifted <==> |heard| == 2))))
    }

    /** The watch, one reading per phase. */
    method Watch(change: Change, drafted: bool) returns (w: Watched)
      requires Holds(change) && (!drafted ==> Ready(change))
      requires if drafted then Now() == Phase(Awaiting, false) else Now().stage == Opened
      requires Heard(change) == [] && Ran(change) == [] && Readings() == []
      modifies this`others, this`log, this`trace, host
      ensures WatchEnds(change, drafted, old(Now().lifted), w) && TrueToTheHost(change)
      ensures WatchSays(change, drafted, w) && Start() == old(Start())
    {
      var answered := AskChecks(change);
      if answered.Err? {
        return Stopped(HostRefused(answered.error));
      }
      w := JudgeReading(change, drafted, answered.value.0, answered.value.1);
    }

    method JudgeReading(change: Change, drafted: bool, checks: seq<Check>, complete: bool) returns (w: Watched)
      requires Holds(change) && (!drafted ==> Ready(change))
      requires if drafted then Now() == Phase(Awaiting, false) else Now().stage == Opened
      requires Heard(change) == [checks] && Ran(change) == [] && Readings() == [] && (complete <==> CompleteSources(host.seeds))
      modifies this`others, this`log, this`trace, host
      ensures WatchEnds(change, drafted, old(Now().lifted), w) && TrueToTheHost(change)
      ensures WatchSays(change, drafted, w) && Start() == old(Start())
    {
      var declared := AskDeclared(change, checks, complete);
      RecordReading(checks, declared);
      if drafted {
        w := WatchDraft(change, checks, declared);
      } else {
        w := WatchReadyChange(change, checks, declared);
      }
    }

    method RecordReading(checks: seq<Check>, declared: Declared)
      requires (Now().stage.Opened? || Now().stage.Awaiting?)
      requires Readings() == []
      modifies this`trace
      ensures old(Now().stage.Opened?) ==> Now() == Phase(ReadReady(checks, declared), old(Now().lifted))
      ensures old(Now().stage.Awaiting?) ==> Now() == Phase(ReadDraft(checks, declared), old(Now().lifted))
      ensures Readings() == [Read(checks, declared)]
    {
      FirstReadingMoves(Now(), checks, declared);
      Emit(Read(checks, declared));
    }

    /** A ready change's reading. */
    method WatchReadyChange(change: Change, checks: seq<Check>, declared: Declared) returns (w: Watched)
      requires Ready(change) && Now().stage == ReadReady(checks, declared)
      modifies this`trace
      ensures WatchEnds(change, false, old(Now().lifted), w) && Readings() == old(Readings())
      ensures w == ReadyWatched(checks, declared)
    {
      var standing := Standings(checks, declared);
      if Red(standing) {
        return Stopped(ChecksFailed);
      }
      if !Through(standing, declared) {
        Emit(WatchElapsed(SkippedNames(standing)));
        return Elapsed(SkippedNames(standing));
      }
      Emit(ChecksSettled(SkippedNames(standing)));
      return OnReady;
    }

    /** A draft's reading, where a skipped required check has not run. */
    method WatchDraft(change: Change, checks: seq<Check>, declared: Declared) returns (w: Watched)
      requires Holds(change) && Now() == Phase(ReadDraft(checks, declared), false)
      requires Heard(change) == [checks] && Ran(change) == [] && declared == Declares(checks) && TrueToTheHost(change)
      modifies this`others, this`log, this`trace, host
      ensures WatchEnds(change, true, false, w) && TrueToTheHost(change)
      ensures WatchSays(change, true, w) && Start() == old(Start())
    {
      var standing := Standings(checks, declared);
      if declared.Nothing? {
        w := SettleDraft(checks, declared);
        return;
      }
      if Red(standing) {
        return Stopped(ChecksFailed);
      }
      w := WatchUnredDraft(change, checks, declared, standing);
    }

    method WatchUnredDraft(change: Change, checks: seq<Check>, declared: Declared, standing: Checks.Standing) returns (w: Watched)
      requires Holds(change) && Now() == Phase(ReadDraft(checks, declared), false)
      requires !declared.Nothing? && standing == Standings(checks, declared) && !Red(standing)
      requires Heard(change) == [checks] && Ran(change) == [] && declared == Declares(checks) && TrueToTheHost(change)
      modifies this`others, this`log, this`trace, host
      ensures WatchEnds(change, true, false, w) && TrueToTheHost(change)
      ensures WatchSays(change, true, w) && Start() == old(Start())
    {
      if standing != map[] && forall n :: n in standing ==> standing[n] == Some(Passed) {
        w := SettleDraft(checks, declared);
        return;
      }
      var unseen := declared.Unknown? && standing == map[];
      if unseen && checks != [] && forall c :: c in checks ==> c.State() != Skipped {
        w := SettleDraft(checks, declared);
        return;
      }
      w := WatchUnsettledDraft(change, checks, declared, standing, unseen);
    }

    method WatchUnsettledDraft(change: Change, checks: seq<Check>, declared: Declared, standing: Checks.Standing, unseen: bool)
      returns (w: Watched)
      requires Holds(change) && Now() == Phase(ReadDraft(checks, declared), false)
      requires standing == Standings(checks, declared) && !Red(standing) && !DraftIsGreen(checks, declared)
      requires unseen <==> declared.Unknown? && standing == map[]
      requires Heard(change) == [checks] && Ran(change) == [] && declared == Declares(checks) && TrueToTheHost(change)
      modifies this`others, this`log, this`trace, host
      ensures WatchEnds(change, true, false, w) && TrueToTheHost(change)
      ensures WatchSays(change, true, w) && Start() == old(Start())
    {
      var notRun := NotRun(standing);
      var running := exists n :: n in standing && standing[n] in {Some(Pending), Some(NoVerdict)};
      if running || (notRun == {} && !unseen) {
        w := ElapseDraft(checks, declared);
      } else {
        w := WatchUnrun(change, checks, declared);
      }
    }

    method SettleDraft(checks: seq<Check>, declared: Declared) returns (w: Watched)
      requires Now() == Phase(ReadDraft(checks, declared), false)
      requires !Red(Standings(checks, declared)) && DraftIsGreen(checks, declared)
      modifies this`trace
      ensures w == OnDraft && Now() == Phase(Green(true), false) && Readings() == old(Readings())
    {
      Emit(ChecksSettled({}));
      return OnDraft;
    }

    method ElapseDraft(checks: seq<Check>, declared: Declared) returns (w: Watched)
      requires Now() == Phase(ReadDraft(checks, declared), false)
      requires !Red(Standings(checks, declared)) && !DraftIsGreen(checks, declared)
      modifies this`trace
      ensures w == Elapsed(SkippedNames(Standings(checks, declared)))
      ensures Now() == Phase(Waiting(w.skipped), false) && Readings() == old(Readings())
    {
      var skipped := SkippedNames(Standings(checks, declared));
      Emit(WatchElapsed(skipped));
      return Elapsed(skipped);
    }

    /** Nothing required ran on the draft: it is lifted early unless something is running still. */
    method WatchUnrun(change: Change, checks: seq<Check>, declared: Declared) returns (w: Watched)
      requires Holds(change) && Now() == Phase(ReadDraft(checks, declared), false)
      requires !Red(Standings(checks, declared)) && !DraftIsGreen(checks, declared) && NothingRan(checks, declared)
      requires Heard(change) == [checks] && Ran(change) == [] && declared == Declares(checks) && TrueToTheHost(change)
      modifies this`others, this`log, this`trace, host
      ensures WatchEnds(change, true, false, w) && TrueToTheHost(change)
      ensures WatchSays(change, true, w) && Start() == old(Start())
    {
      var waits := StillRunning(change, checks);
      if waits {
        w := ElapseRunning(change, checks, declared);
      } else {
        w := LiftEarly(change, checks, declared);
      }
    }

    /** It is left a draft while something on its head is still running. */
    method ElapseRunning(change: Change, checks: seq<Check>, declared: Declared) returns (w: Watched)
      requires Holds(change) && Now() == Phase(ReadDraft(checks, declared), false)
      requires !Red(Standings(checks, declared)) && !DraftIsGreen(checks, declared)
      requires Heard(change) == [checks] && (AnyPending(checks) || Ran(change) == [Some(true)])
      requires declared == Declares(checks) && TrueToTheHost(change)
      modifies this`trace
      ensures WatchEnds(change, true, false, w) && TrueToTheHost(change) && WatchSays(change, true, w)
    {
      HeardOnce(Heard(change), declared, Ran(change));
      w := ElapseDraft(checks, declared);
    }

    /** Lifted early, the host is read again as a ready change's, whose checks must run after
        the lift. */
    method LiftEarly(change: Change, snapshot: seq<Check>, declared: Declared) returns (w: Watched)
      requires Holds(change) && Now() == Phase(ReadDraft(snapshot, declared), false)
      requires LiftsEarly(snapshot, declared)
      requires Heard(change) == [snapshot] && |Ran(change)| == 1 && Ran(change)[0] != Some(true)
      requires declared == Declares(snapshot) && Readings() == [Read(snapshot, declared)]
      modifies this`others, this`log, this`trace, host
      ensures WatchEnds(change, true, false, w) && TrueToTheHost(change)
      ensures WatchSays(change, true, w) && Start() == old(Start())
    {
      LiftAndSaySo(change, snapshot, declared);
      w := ReadAgain(change, snapshot, declared);
    }

    /** The grace window elapsed with nothing required run: lift early and say so. */
    method LiftAndSaySo(change: Change, snapshot: seq<Check>, declared: Declared)
      requires Holds(change) && Now() == Phase(ReadDraft(snapshot, declared), false)
      requires LiftsEarly(snapshot, declared)
      modifies this`others, this`log, this`trace, host
      ensures Ready(change) && Now() == Phase(LiftRecorded(declared), true) && Said(change) == old(Said(change))
    {
      EarlyLiftMoves(snapshot, declared);
      Lift(change);
      Emit(LiftedEarly(NotRun(Standings(snapshot, declared))));
    }

    method ReadAgain(change: Change, snapshot: seq<Check>, declared: Declared) returns (w: Watched)
      requires Ready(change) && Now() == Phase(LiftRecorded(declared), true) && LiftsEarly(snapshot, declared)
      requires Heard(change) == [snapshot] && |Ran(change)| == 1 && Ran(change)[0] != Some(true)
      requires declared == Declares(snapshot) && Readings() == [Read(snapshot, declared)]
      modifies this`others, this`log, this`trace, host
      ensures WatchEnds(change, true, false, w) && TrueToTheHost(change)
      ensures WatchSays(change, true, w) && Start() == old(Start())
    {
      var answered := AskChecks(change);
      if answered.Err? {
        return Stopped(HostRefused(answered.error));
      }
      w := JudgeAgain(change, answered.value.0, snapshot, declared);
    }

    method JudgeAgain(change: Change, after: seq<Check>, snapshot: seq<Check>, declared: Declared) returns (w: Watched)
      requires Ready(change) && Now() == Phase(LiftRecorded(declared), true) && LiftsEarly(snapshot, declared)
      requires Heard(change) == [snapshot, after] && |Ran(change)| == 1 && Ran(change)[0] != Some(true)
      requires declared == Declares(snapshot) && Readings() == [Read(snapshot, declared)]
      modifies this`others, this`log, this`trace, host
      ensures WatchEnds(change, true, false, w) && TrueToTheHost(change)
      ensures WatchSays(change, true, w) && Start() == old(Start())
    {
      RecordReadAfterLift(after, snapshot, declared);
      ghost var ran;
      w, ran := JudgeAfterLift(change, after, snapshot, declared);
      HeardAgain(Heard(change), declared, Ran(change), ran);
    }

    method RecordReadAfterLift(after: seq<Check>, snapshot: seq<Check>, declared: Declared)
      requires Now() == Phase(LiftRecorded(declared), true) && Readings() == [Read(snapshot, declared)]
      modifies this`trace
      ensures Now() == Phase(ReadAfterLift(Counted(after, snapshot), declared), true)
      ensures Readings() == [Read(snapshot, declared), Read(Counted(after, snapshot), declared)]
    {
      ReadAfterLiftMoves(Counted(after, snapshot), declared);
      Emit(Read(Counted(after, snapshot), declared));
    }

    /** The reading after an early lift, judged on the runs that are not the draft's skips. */
    method JudgeAfterLift(change: Change, after: seq<Check>, snapshot: seq<Check>, declared: Declared)
      returns (w: Watched, ghost ran: seq<Option<bool>>)
      requires Ready(change)
      requires Now() == Phase(ReadAfterLift(Counted(after, snapshot), declared), true)
      modifies this`others, this`log, this`trace, host
      ensures WatchEnds(change, true, false, w) && Readings() == old(Readings()) && Now().lifted
      ensures Heard(change) == old(Heard(change)) && Start() == old(Start())
      ensures Ran(change) == old(Ran(change)) + ran && |ran| <= 1
      ensures w == AgainWatched(after, snapshot, declared, ran == [Some(true)])
    {
      var counted := Counted(after, snapshot);
      var standing := Standings(counted, declared);
      ran := [];
      if Red(standing) {
        w := Stopped(ChecksFailed);
      } else if !Rerun(after, snapshot, standing) {
        w, ran := WatchUnrerun(change, after, snapshot, declared);
      } else {
        w := WatchRerun(change, after, snapshot, declared);
      }
    }

    method WatchRerun(change: Change, after: seq<Check>, snapshot: seq<Check>, declared: Declared) returns (w: Watched)
      requires Ready(change)
      requires Now() == Phase(ReadAfterLift(Counted(after, snapshot), declared), true)
      requires !Red(Standings(Counted(after, snapshot), declared))
      modifies this`trace
      ensures WatchEnds(change, true, false, w) && Readings() == old(Readings()) && Now().lifted
      ensures var standing := Standings(Counted(after, snapshot), declared);
        w == if forall n :: n in standing ==> standing[n] in LETS_THROUGH then OnReady
             else Elapsed(SkippedEitherSide(after, snapshot, declared))
    {
      var standing := Standings(Counted(after, snapshot), declared);
      if exists n :: n in standing && standing[n] !in LETS_THROUGH {
        w := ElapseAfterLift(Counted(after, snapshot), declared, SkippedEitherSide(after, snapshot, declared));
      } else {
        w := SettleAfterLift(Counted(after, snapshot), declared);
      }
    }

    /** No run it waits for was attached after the lift: it waits on only while something runs. */
    method WatchUnrerun(change: Change, after: seq<Check>, snapshot: seq<Check>, declared: Declared)
      returns (w: Watched, ghost ran: seq<Option<bool>>)
      requires Ready(change)
      requires Now() == Phase(ReadAfterLift(Counted(after, snapshot), declared), true)
      requires !Red(Standings(Counted(after, snapshot), declared))
      modifies this`others, this`log, this`trace, host
      ensures WatchEnds(change, true, false, w) && Readings() == old(Readings()) && Now().lifted
      ensures Heard(change) == old(Heard(change)) && Start() == old(Start())
      ensures Ran(change) == old(Ran(change)) + ran && |ran| <= 1
      ensures w == if AnyPending(after) || ran == [Some(true)] then Elapsed(SkippedEitherSide(after, snapshot, declared))
        else Stopped(ChecksUnsettled)
    {
      var running := StillRunning(change, after);
      ran := if AnyPending(after) then [] else [Running(host.Document(), change)];
      if !running {
        return Stopped(ChecksUnsettled), ran;
      }
      w := ElapseAfterLift(Counted(after, snapshot), declared, SkippedEitherSide(after, snapshot, declared));
    }

    method ElapseAfterLift(counted: seq<Check>, declared: Declared, named: set<string>) returns (w: Watched)
      requires Now() == Phase(ReadAfterLift(counted, declared), true)
      requires !Red(Standings(counted, declared)) && SkippedNames(Standings(counted, declared)) <= named
      modifies this`trace
      ensures w == Elapsed(named) && Now() == Phase(Waiting(named), true) && Readings() == old(Readings())
    {
      Emit(WatchElapsed(named));
      return Elapsed(named);
    }

    method SettleAfterLift(counted: seq<Check>, declared: Declared) returns (w: Watched)
      requires Now() == Phase(ReadAfterLift(counted, declared), true)
      requires var standing := Standings(counted, declared); forall n :: n in standing ==> standing[n] in LETS_THROUGH
      modifies this`trace
      ensures w == OnReady && Now() == Phase(Green(false), true) && Readings() == old(Readings())
    {
      Emit(ChecksSettled(SkippedNames(Standings(counted, declared))));
      return OnReady;
    }

    // ---- What follows the watch ----

    method AskAllowsAutoMerge(change: Change) returns (yes: bool)
      requires Holds(change)
      modifies this`others, this`log, host
      ensures Holds(change) && (old(Ready(change)) ==> Ready(change)) && Said(change) == old(Said(change))
      ensures yes == host.seeds.allowAutoMerge
    {
      AskOther("allows_auto_merge", change);
      yes := host.AllowsAutoMerge();
    }

    /** What an outcome says of the host is so, as far as its own answers go: merged is merged,
        queued is queued, left open is an `open` it stored, a draft is a draft; and armed is held,
        unless it had stored an `open` when it was asked. */
    ghost predicate LeavesHeld(change: Change, o: Outcome)
      reads this`log, host
    {
      match o
      case MergedAt(sha) => HasMerged(change, sha)
      case Armed => IsHeldUnlessOpen(change)
      case Queueing => IsQueued(host.Document(), change.id)
      case LeftOpen => r.Automated() ==> OpenStored(host.Document(), change.id)
      case ChangeDraft => Drafted(host.Document(), change.id)
      case _ => true
    }

    /** What a merging publication does when its watch elapses with nothing red. */
    method ArmOnElapse(change: Change, skipped: set<string>) returns (o: Outcome)
      requires r.Automated() && Holds(change) && Now().stage == Waiting(skipped)
      requires Now().lifted ==> Ready(change)
      modifies this`others, this`log, this`trace, host
      ensures Holds(change) && EndsAs(o) && LeavesHeld(change, o) && Said(change) == old(Said(change))
      ensures if skipped == {} && host.seeds.allowAutoMerge then o.Armed? || o.MergedAt? else o == Failing(ChecksUnsettled)
      ensures old(Ready(change)) || o.Failing? ==> Now().lifted == old(Now().lifted)
      ensures old(Now().lifted) ==> Now().lifted
    {
      if skipped != {} {
        return Failing(ChecksUnsettled);
      }
      var allowed := AskAllowsAutoMerge(change);
      if !allowed {
        return Failing(ChecksUnsettled);
      }
      var isDraft := AskIsDraft(change);
      if isDraft {
        Lift(change);
      }
      o := HoldMerge(change);
    }

    /** Ask for the merge to be held, and record what came of it. */
    method HoldMerge(change: Change) returns (o: Outcome)
      requires r.Automated() && Ready(change) && Now().stage == Waiting({}) && host.seeds.allowAutoMerge
      modifies this`others, this`log, this`trace, host
      ensures Holds(change) && EndsAs(o) && LeavesHeld(change, o) && Said(change) == old(Said(change))
      ensures (o.Armed? || o.MergedAt?) && Now().lifted == old(Now().lifted)
    {
      var answer := AskMerge(change, ChangeAuto);
      if answer.Merged? {
        RecordMerge(change, answer.sha);
        return MergedAt(answer.sha);
      }
      RecordArmed();
      return Armed;
    }

    /** The merge is held by the host, which lands it once its required checks pass. */
    method RecordArmed()
      requires Now().stage == Asked(true)
      modifies this`trace
      ensures Now() == Phase(ArmedOnHost, old(Now().lifted)) && Readings() == old(Readings())
    {
      Emit(MergeArmed);
    }

    /** After a watch that elapsed: have the merge held where the policy asks for one. */
    method FinishElapsed(change: Change, skipped: set<string>) returns (o: Outcome)
      requires Holds(change) && Now().stage == Waiting(skipped)
      requires Now().lifted ==> Ready(change)
      modifies this`others, this`log, this`trace, host
      ensures Holds(change) && EndsAs(o) && LeavesHeld(change, o) && Said(change) == old(Said(change))
      ensures Concludes(r, host.seeds.allowAutoMerge, Elapsed(skipped), o)
      ensures old(Ready(change)) || o.Failing? ==> Now().lifted == old(Now().lifted)
      ensures old(Now().lifted) ==> Now().lifted
    {
      if r.policy == ChangeAuto || r.policy == ChangeDirect {
        o := ArmOnElapse(change, skipped);
      } else {
        o := Failing(ChecksUnsettled);
      }
    }

    /** After a watch that settled: keep the draft for review, or lift it and do what the
        policy asks. */
    method FinishSettled(change: Change, stillDraft: bool) returns (o: Outcome)
      requires Holds(change) && Now().stage == Green(stillDraft)
      requires if stillDraft then !Now().lifted else Ready(change)
      modifies this`others, this`log, this`trace, host
      ensures Holds(change) && EndsAs(o) && LeavesHeld(change, o) && Said(change) == old(Said(change))
      ensures Concludes(r, host.seeds.allowAutoMerge, if stillDraft then OnDraft else OnReady, o)
      ensures stillDraft ==> (Now().lifted <==> !o.ChangeReviewDraft?)
      ensures !stillDraft ==> Now().lifted == old(Now().lifted)
    {
      if stillDraft {
        if r.policy == ChangeOpen && r.approvalsRequired {
          Emit(KeptForReview);
          return ChangeReviewDraft;
        }
        Lift(change);
      }
      if r.policy == ChangeOpen {
        return LeftOpen;
      }
      o := FinishMerging(change);
    }

    method FinishMerging(change: Change) returns (o: Outcome)
      requires Ready(change) && Now().stage == Green(false) && r.policy != ChangeOpen
      modifies this`others, this`log, this`trace, host
      ensures Holds(change) && EndsAs(o) && LeavesHeld(change, o) && Said(change) == old(Said(change))
      ensures (o.MergedAt? || o.Queueing? || o.LeftOpen?) && Now().lifted == old(Now().lifted)
    {
      var answer := AskMerge(change, r.policy);
      match answer {
        case Merged(sha) =>
          RecordMerge(change, sha);
          o := MergedAt(sha);
        case Queued => o := Queueing;
        case Open => o := LeftOpen;
      }
    }

    // ---- A publication ----

    /** It ends as everything it heard calls for, and heard again exactly where it should. */
    ghost predicate ConcludesAs(change: Change, asDraft: bool, o: Outcome)
      reads this`log, this`trace
    {
      var heard, ran := Heard(change), Ran(change);
      if heard == [] then o.Failing? && o.why.HostRefused?
      else
        && |heard| <= 2
        && (o == Failing(HostRefused(NoCheckSource))
            || (ReadsAgainAsItShould(heard, Declares(heard[0]), asDraft, ran)
                && Concludes(r, host.seeds.allowAutoMerge, Concluded(heard, Declares(heard[0]), asDraft, ran), o)
                && (asDraft ==> DraftIsLiftedAsItConcludes(change))))
    }

    /** A change read as a draft is lifted where it was read again, or found green and not kept for its
        review; and where it elapsed or failed on one reading, only to have its merge held. */
    ghost predicate DraftIsLiftedAsItConcludes(change: Change)
      requires 0 < |Heard(change)| <= 2
      reads this`log, this`trace
    {
      var heard := Heard(change);
      var w := Concluded(heard, Declares(heard[0]), true, Ran(change));
      && (|heard| == 2 ==> Now().lifted)
      && (w.OnDraft? ==> (Now().lifted <==> !r.KeepsForReview()))
      && (|heard| == 1 && !w.OnDraft? && !AsksMerge(r, host.seeds.allowAutoMerge, w) ==> !Now().lifted)
    }

    method WatchAndFinish(change: Change, drafted: bool) returns (o: Outcome)
      requires Holds(change) && (!drafted ==> Ready(change))
      requires if drafted then Now() == Phase(Awaiting, false) else Now().stage == Opened
      requires Heard(change) == [] && Ran(change) == [] && Readings() == []
      modifies this`others, this`log, this`trace, host
      ensures Holds(change) && EndsAs(o) && LeavesHeld(change, o) && TrueToTheHost(change)
      ensures ConcludesAs(change, drafted, o) && Start() == old(Start())
      ensures !drafted ==> Now().lifted == old(Now().lifted)
    {
      var watched := Watch(change, drafted);
      match watched {
        case Stopped(why) => o := Failing(why);
        case Elapsed(skipped) => o := FinishElapsed(change, skipped);
        case OnDraft =>
          o := FinishSettled(change, true);
        case OnReady =>
          o := FinishSettled(change, false);
      }
    }

    /** This run has just come to its change: it has asked nothing more, and recorded nothing. */
    ghost predicate HasFound(change: Change)
      reads this, host
    {
      && Holds(change) && |log.turns| == log.mine.value.From() && log.mine.value.told.None?
      && Heard(change) == [] && Ran(change) == [] && Readings() == []
    }

    /** Whether the change is read as a draft awaiting its checks: the host said it was one. */
    ghost predicate AsDraft()
      reads this`log
    {
      !r.draftsDisabled && log.mine.Some? && log.mine.value.told == Some(true)
    }

    /** What the log is of, but for what was told of its change. */
    ghost predicate Continues(was: Log)
      reads this`log
    {
      && log.begun == was.begun && log.inStore == was.inStore
      && log.mine.Some? && was.mine.Some? && log.mine.value.adopted == was.mine.value.adopted
    }

    /** The first question about a change, before anything is read: whether it is a draft. */
    method AskTold(change: Change) returns (isDraft: bool)
      requires HasFound(change)
      modifies this`others, this`log, host
      ensures Holds(change) && (old(Ready(change)) ==> Ready(change)) && Continues(old(log))
      ensures Heard(change) == [] && Ran(change) == []
      ensures log.mine.value.told == Some(isDraft) && isDraft == Drafted(host.Document(), change.id)
    {
      isDraft := AskIsDraft(change);
      ToldIsSound(log, isDraft);
      log := log.Told(isDraft);
    }

    method PublishHeld(change: Change, adopted: bool) returns (o: Outcome)
      requires HasFound(change) && r.reason.None? && Now() == Phase(Opened, false)
      requires !adopted && r.draftsDisabled ==> Ready(change)
      modifies this`others, this`log, this`trace, host
      ensures Holds(change) && EndsAs(o) && LeavesHeld(change, o) && TrueToTheHost(change)
      ensures ConcludesAs(change, AsDraft(), o) && Continues(old(log))
      ensures !AsDraft() ==> (Now().lifted <==> log.mine.value.told == Some(true))
      ensures !r.draftsDisabled ==> log.mine.value.told.Some?
      ensures old(Ready(change)) ==> !Now().lifted
    {
      var lifecycle := !r.draftsDisabled;
      var isDraft := false;
      if lifecycle || adopted {
        isDraft := AskTold(change);
      }
      if isDraft {
        if lifecycle {
          Emit(DraftedAwaitingChecks);
        } else {
          Lift(change);
        }
      }
      o := WatchAndFinish(change, lifecycle && isDraft);
    }

    /** A publication that carries a reason holds its change as a draft and asks no more. */
    method HoldForReason(change: Change) returns (o: Outcome)
      requires HasFound(change) && r.reason.Some? && Now() == Phase(Opened, false)
      modifies this`others, this`log, this`trace, host
      ensures Holds(change) && EndsAs(o) && LeavesHeld(change, o) && !Now().lifted
      ensures Said(change) == old(Said(change))
      ensures o.ChangeDraft? || o == Failing(NotHeldAsADraft)
      ensures o.ChangeDraft? <==> Drafted(host.Document(), change.id)
    {
      var isDraft := AskIsDraft(change);
      if !isDraft {
        return Failing(NotHeldAsADraft);
      }
      Emit(DraftedFor(r.reason.value));
      return ChangeDraft;
    }

    method PublishFound(change: Change, adopted: bool) returns (o: Outcome)
      requires HasFound(change) && Now() == Phase(Unopened, false)
      requires r.reason.None? && !adopted && r.draftsDisabled ==> Ready(change)
      modifies this`others, this`log, this`trace, host
      ensures Holds(change) && EndsAs(o) && LeavesHeld(change, o) && TrueToTheHost(change) && Continues(old(log))
      ensures if r.reason.Some? then Heard(change) == [] && (o.ChangeDraft? || o == Failing(NotHeldAsADraft))
        else ConcludesAs(change, AsDraft(), o) && (!r.draftsDisabled ==> log.mine.value.told.Some?)
      ensures r.reason.None? && !AsDraft() ==> (Now().lifted <==> log.mine.value.told == Some(true))
      ensures old(Ready(change)) ==> !Now().lifted
    {
      Emit(ChangeOpened);
      if r.reason.Some? {
        o := HoldForReason(change);
      } else {
        o := PublishHeld(change, adopted);
      }
    }

    method AskUser() returns (author: Result<string, Refusal>)
      requires CameTo(host.Document()) && log.turns == [] && log.mine.None?
      modifies this`others, this`log, host
      ensures CameTo(host.Document()) && Start() == old(Start())
      ensures |log.turns| == 1 && log.turns[0].own == ASKS_WHO
      ensures author.Err? <==> OnlyWhitespace(host.seeds.authenticatedUser)
      ensures author.Err? ==> author.error == NobodyAuthenticated
    {
      Wait(ASKS_WHO);
      author := host.AuthenticatedUser();
    }

    /** The first change the host holds for the branch, if it holds any. */
    method FindFirst() returns (found: Result<Option<Change>, Refusal>)
      requires CameTo(host.Document()) && log.mine.None? && |log.turns| == 1 && log.turns[0].own == ASKS_WHO
      modifies this`others, this`log, host
      ensures CameTo(host.Document()) && Start() == old(Start())
      ensures |log.turns| == 2 && log.turns[0].own == ASKS_WHO && log.turns[1].own == FINDS
      ensures found.Err? ==> RefusesRequest(found.error)
      ensures found.Ok? ==> var held := HeldFor(r, log.turns[1].left);
        found.value == if held == [] then None else Some(held[0])
    {
      Wait(FINDS);
      var existing := host.FindChanges(r.head, r.base);
      if existing.Err? {
        return Err(existing.error);
      }
      return Ok(if existing.value == [] then None else Some(existing.value[0]));
    }

    /** The change this publication adopts, or opens. */
    method FindOrOpen() returns (found: Result<(Change, bool), Refusal>)
      requires CameTo(host.Document()) && log.mine.None? && |log.turns| == 1 && log.turns[0].own == ASKS_WHO && trace == []
      modifies this`others, this`log, host
      ensures CameTo(host.Document()) && log.begun == old(log.begun) && log.inStore == old(log.inStore)
      ensures found.Err? ==> RefusesRequest(found.error) && log.mine.None?
      ensures found.Ok? ==> HasFound(found.value.0) && log.mine.value.adopted == found.value.1
      // A change opened without a reason and without the lifecycle is no draft.
      ensures found.Ok? && !found.value.1 && r.reason.None? && r.draftsDisabled ==> Ready(found.value.0)
    {
      var first := FindFirst();
      if first.Err? {
        return Err(first.error);
      }
      if first.value.Some? {
        TakeUp(first.value.value, true);
        return Ok((first.value.value, true));
      }
      found := OpenNew();
    }

    /** From here on every call is about this change. */
    ghost method TakeUp(change: Change, adopted: bool)
      requires CameTo(host.Document()) && HasAskedFor(log, change, adopted) && trace == []
      modifies this`log
      ensures HasFound(change) && log.mine == Some(Mine(change, adopted, None))
      ensures log.begun == old(log.begun) && log.inStore == old(log.inStore)
    {
      AboutIsSound(log, change, adopted);
      log := log.About(change, adopted);
    }

    method OpenNew() returns (found: Result<(Change, bool), Refusal>)
      requires CameTo(host.Document()) && log.mine.None? && trace == []
      requires |log.turns| == 2 && log.turns[0].own == ASKS_WHO && log.turns[1].own == FINDS
      requires HeldFor(r, log.turns[1].left) == []
      modifies this`others, this`log, host
      ensures CameTo(host.Document()) && log.begun == old(log.begun) && log.inStore == old(log.inStore)
      ensures found.Err? ==> RefusesRequest(found.error) && log.mine.None?
      ensures found.Ok? ==> HasFound(found.value.0) && !log.mine.value.adopted && !found.value.1
      ensures found.Ok? && r.reason.None? && r.draftsDisabled ==> Ready(found.value.0)
    {
      var made := CallOpen();
      if made.Err? {
        return Err(made.error);
      }
      TakeUp(made.value, false);
      return Ok((made.value, false));
    }

    method CallOpen() returns (made: Result<Change, Refusal>)
      requires CameTo(host.Document()) && log.mine.None?
      requires |log.turns| == 2 && log.turns[0].own == ASKS_WHO && log.turns[1].own == FINDS
      requires HeldFor(r, log.turns[1].left) == []
      modifies this`others, this`log, host
      ensures CameTo(host.Document()) && Start() == old(Start())
      ensures made.Err? ==> RefusesRequest(made.error)
      ensures made.Ok? ==> HasAskedFor(log, made.value, false)
      ensures made.Ok? && r.reason.None? && r.draftsDisabled ==> !Drafted(host.Document(), made.value.id)
    {
      ConsistentWhenMet(log, Opening(r.slug, r.Spec()));
      Wait(Opening(r.slug, r.Spec()));
      OpeningAnswers(host.Document());
      made := host.Open(r.slug, r.Spec());
    }

    /** What the host answers to being asked to open a change. */
    lemma OpeningAnswers(s: HostState)
      ensures var (t, made) := OpenChange(s, r.slug, r.Spec());
        && (made.Err? ==> RefusesRequest(made.error))
        && (made.Ok? && Consistent(s) && r.reason.None? && r.draftsDisabled ==> !Drafted(t, made.value.id))
    {
      OpensTheNext(s, r.slug, r.Spec());
    }

    /** Once it has read anything it is refused nothing, and ends as what it read calls for. */
    lemma ItConcludes(change: Change, asDraft: bool, o: Outcome)
      requires CameTo(host.Document()) && EndsAs(o) && ConcludesAs(change, asDraft, o)
      ensures var heard := Heard(change); heard != [] ==>
        && |heard| <= 2 && ReadsAgainAsItShould(heard, Declares(heard[0]), asDraft, Ran(change))
        && Concludes(r, host.seeds.allowAutoMerge, Concluded(heard, Declares(heard[0]), asDraft, Ran(change)), o)
        && (asDraft ==> DraftIsLiftedAsItConcludes(change))
    {
      SinceItBegan(log, change.id);
      NothingIsHeardWithoutASource(log, change.id);
    }

    /** What a publication that has read so much has then asked of the host. */
    ghost predicate AsksAsItConcludes(change: Change)
      requires |Heard(change)| <= 2
      reads this`log, this`trace
    {
      var heard := Heard(change);
      Count(trace, AskedMerge) ==
        if heard != [] && AsksMerge(r, host.seeds.allowAutoMerge, Concluded(heard, Declares(heard[0]), AsDraft(), Ran(change)))
        then 1 else 0
    }

    lemma MergeIsAskedAsItConcludes(change: Change, o: Outcome)
      requires Allowed(trace) && EndsAs(o) && |Heard(change)| <= 2
      requires if Heard(change) == [] then o.ChangeDraft? || (o.Failing? && (o.why.HostRefused? || o.why.NotHeldAsADraft?))
        else Concludes(r, host.seeds.allowAutoMerge,
                       Concluded(Heard(change), Declares(Heard(change)[0]), AsDraft(), Ran(change)), o)
      ensures AsksAsItConcludes(change)
    {
      AtMostOneMergeAsked(trace);
      assert HasAsked(Now().stage) <==>
        o.MergedAt? || o.Armed? || o.Queueing? || (o.LeftOpen? && r.policy != ChangeOpen);
    }

    /** What is held at the end, against what was stored when this run began. */
    lemma HeldNowIsHeldThen(change: Change, o: Outcome)
      requires CameTo(host.Document()) && LeavesHeld(change, o)
      ensures OpenStored(host.Document(), change.id) ==> OpenStored(log.begun, change.id)
      ensures o.Armed? && !OpenStored(log.begun, change.id) ==> IsQueued(host.Document(), change.id)
      ensures NobodyElseMerges(log.inStore) && OpenStored(log.begun, change.id) ==>
        OpenStored(host.Document(), change.id) && !o.MergedAt?
    {
      SinceItBegan(log, change.id);
    }

    /** What it read of its change decides how it ends and whether it asks for a merge. */
    lemma ItEndsAsItConcludes(change: Change, o: Outcome)
      requires CameTo(host.Document()) && EndsAs(o) && |Heard(change)| <= 2
      requires if r.reason.Some? then Heard(change) == [] && (o.ChangeDraft? || o == Failing(NotHeldAsADraft))
        else ConcludesAs(change, AsDraft(), o)
      ensures Allowed(trace) && o != Failing(HostRefused(StillADraft)) && AsksAsItConcludes(change)
      ensures Heard(change) != [] ==>
        var heard, ran := Heard(change), Ran(change);
        && ReadsAgainAsItShould(heard, Declares(heard[0]), AsDraft(), ran)
        && Concludes(r, host.seeds.allowAutoMerge, Concluded(heard, Declares(heard[0]), AsDraft(), ran), o)
        && (AsDraft() ==> DraftIsLiftedAsItConcludes(change))
      ensures r.reason.None? && Heard(change) == [] ==> o.Failing? && o.why.HostRefused?
    {
      ItIsAllowed(o);
      if r.reason.None? {
        ItConcludes(change, AsDraft(), o);
      }
      MergeIsAskedAsItConcludes(change, o);
    }

    lemma ItIsAllowed(o: Outcome)
      requires EndsAs(o)
      ensures Allowed(trace) && o != Failing(HostRefused(StillADraft))
    {
    }

    /** What a red reading comes to: it ends red exactly where what it judged is red, and asks for no
        merge then; and where its second answer is red as the host gave it, it asks for one exactly
        where that red is not judged, and what is judged settled or may be held. */
    ghost predicate RedDecidesIt(change: Change, o: Outcome)
      requires 0 < |Heard(change)| <= 2
      reads this`log, this`trace
    {
      var heard, ran := Heard(change), Ran(change);
      var declared := Declares(heard[0]);
      && (o == Failing(ChecksFailed) <==> Red(Standings(Judged(heard), declared)))
      && (o == Failing(ChecksFailed) ==> Count(trace, AskedMerge) == 0)
      && (|heard| == 2 && Red(Standings(heard[1], declared)) ==>
            && (o == Failing(ChecksFailed) <==>
                  exists n :: n in RequiredNames(Counted(heard[1], heard[0]), declared) && HasFailedRun(heard[1], n))
            && (Count(trace, AskedMerge) == 1 <==>
                  MergesOverRed(r, host.seeds.allowAutoMerge, heard[1], heard[0], declared, |ran| == 2 && ran[1] == Some(true))))
    }

    lemma RedDecides(change: Change, o: Outcome)
      requires 0 < |Heard(change)| <= 2 && AsksAsItConcludes(change)
      requires var heard := Heard(change);
        Concludes(r, host.seeds.allowAutoMerge, Concluded(heard, Declares(heard[0]), AsDraft(), Ran(change)), o)
      ensures RedDecidesIt(change, o)
    {
      var heard, ran := Heard(change), Ran(change);
      var declared := Declares(heard[0]);
      PublicationRules.RedDecides(r, host.seeds.allowAutoMerge, heard, declared, AsDraft(), ran, o);
      if |heard| == 2 && Red(Standings(heard[1], declared)) {
        RedAnswerEndsRedIff(r, host.seeds.allowAutoMerge, heard, declared, AsDraft(), ran, o);
        MergesOverRedIff(r, host.seeds.allowAutoMerge, heard, declared, AsDraft(), ran);
      }
    }

    /** As many lifts and merges were asked of the host as the record holds. */
    ghost predicate Recorded()
      reads this`log, this`trace
    {
      LiftsIn(log.turns) == Count(trace, DraftLifted) && MergesIn(log.turns) == Count(trace, AskedMerge)
    }

    lemma TalliesAreRecorded()
      requires Allowed(trace) && Tallied()
      ensures Recorded() && Count(trace, DraftLifted) == if Now().lifted then 1 else 0
    {
      AtMostOneLift(trace);
      AtMostOneMergeAsked(trace);
    }

    /** A change opened, and no draft. */
    ghost predicate OpenAndNoDraft(s: HostState, change: Change) {
      HostDocument.Opened(s, change.id) && !Drafted(s, change.id)
    }

    /** Everything up to the change: who is publishing, and which change it adopts or opens. */
    method Begin() returns (found: Result<(Change, bool), Failure>)
      requires CameTo(host.Document()) && trace == [] && log.turns == [] && log.mine.None?
      modifies this`others, this`log, host
      ensures CameTo(host.Document()) && log.begun == old(log.begun) && log.inStore == old(log.inStore)
      ensures found.Err? ==> FailsAs(found.error) && found.error != HostRefused(StillADraft) && !found.error.ChecksFailed?
      ensures found.Ok? ==> HasFound(found.value.0) && log.mine.value.adopted == found.value.1
      ensures found.Ok? && r.reason.None? && !found.value.1 && r.draftsDisabled ==> Ready(found.value.0)
      ensures found.Ok? && OpenAndNoDraft(log.begun, found.value.0) ==> Ready(found.value.0)
    {
      var author := AskUser();
      if author.Err? {
        return Err(HostRefused(author.error));
      }
      if !r.draftsDisabled && !r.graceUsable {
        return Err(GraceUnusable);
      }
      var change := FindOrOpen();
      if change.Err? {
        return Err(HostRefused(change.error));
      }
      NoDraftSinceItBegan(log, change.value.0.id);
      return Ok(change.value);
    }

    /** Everything after it. */
    method PublishIt(change: Change, adopted: bool) returns (o: Outcome)
      requires HasFound(change) && Now() == Phase(Unopened, false)
      requires r.reason.None? && !adopted && r.draftsDisabled ==> Ready(change)
      modifies this`others, this`log, this`trace, host
      ensures Holds(change) && Continues(old(log)) && Allowed(trace) && EndsAs(o) && TrueToTheHost(change) && LeavesHeld(change, o)
      ensures o != Failing(HostRefused(StillADraft))
      ensures r.reason.None? && !r.draftsDisabled ==> log.mine.value.told.Some?
      ensures Heard(change) != [] ==>
        var heard, ran := Heard(change), Ran(change);
        && ReadsAgainAsItShould(heard, Declares(heard[0]), AsDraft(), ran)
        && Concludes(r, host.seeds.allowAutoMerge, Concluded(heard, Declares(heard[0]), AsDraft(), ran), o)
        && (AsDraft() ==> DraftIsLiftedAsItConcludes(change))
      ensures AsksAsItConcludes(change)
      ensures r.reason.None? && Heard(change) == [] ==> o.Failing? && o.why.HostRefused?
      ensures r.reason.None? && !AsDraft() ==> (Now().lifted <==> log.mine.value.told == Some(true))
      ensures old(Ready(change)) ==> !Now().lifted
    {
      o := PublishFound(change, adopted);
      ItEndsAsItConcludes(change, o);
    }

    /** What everything it heard decides: whether it heard again, how it ends, and what it asks for. */
    ghost predicate HeardDecides(change: Change, o: Outcome)
      requires 0 < |Heard(change)| <= 2
      reads this`log, this`trace
    {
      var heard, ran := Heard(change), Ran(change);
      && ReadsAgainAsItShould(heard, Declares(heard[0]), AsDraft(), ran)
      && Concludes(r, host.seeds.allowAutoMerge, Concluded(heard, Declares(heard[0]), AsDraft(), ran), o)
      && (AsDraft() ==> DraftIsLiftedAsItConcludes(change))
      && RedDecidesIt(change, o)
    }

    /** What the record, the log and the host tell of a publication that has its change. */
    ghost predicate TellsOf(change: Change, o: Outcome)
      reads this, host
    {
      // Its change is the first the host held for the branch when it was asked, or the one opened by
      // its next call, and it was as the host said it was.
      && log.mine.Some? && log.mine.value.change == change
      && IsItsChange(r, log.turns, log.mine.value) && IsAsTold(log.turns, log.mine.value)
      && (r.reason.None? && !r.draftsDisabled ==> log.mine.value.told.Some?)
      // What it read is what the host answered it, what it asked for is what it records, and what it
      // says of the host is so.
      && TrueToTheHost(change) && Recorded() && LeavesHeld(change, o)
      && Count(trace, DraftLifted) == (if Now().lifted then 1 else 0)
      // It ends as what it heard calls for, heard again exactly where it should, and asked for a
      // merge, and for a lift, exactly where that calls for one.
      && (Heard(change) != [] ==> HeardDecides(change, o))
      && AsksAsItConcludes(change)
      && (r.reason.None? && Heard(change) == [] ==> o.Failing? && o.why.HostRefused?)
      && (r.reason.None? && !AsDraft() ==> (Now().lifted <==> log.mine.value.told == Some(true)))
    }

    method PublishTold(change: Change, adopted: bool) returns (o: Outcome)
      requires HasFound(change) && Now() == Phase(Unopened, false)
      requires r.reason.None? && !adopted && r.draftsDisabled ==> Ready(change)
      modifies this`others, this`log, this`trace, host
      ensures Holds(change) && Continues(old(log)) && Allowed(trace) && EndsAs(o)
      ensures TellsOf(change, o) && o != Failing(HostRefused(StillADraft))
      ensures old(Ready(change)) ==> Count(trace, DraftLifted) == 0
    {
      o := PublishIt(change, adopted);
      ItIsItsChange(log);
      if Heard(change) != [] {
        RedDecides(change, o);
      }
      TalliesAreRecorded();
    }

    /** One publication, from finding its change to its outcome. */
    method Publish() returns (o: Outcome, ghost change: Option<Change>)
      requires trace == [] && Consistent(host.Document())
      modifies this`others, this`trace, this`log, host
      // Its log tells of every call it made and what everybody else did before each, from the host
      // it met to the host it left.
      ensures CameTo(host.Document()) && log.begun == old(host.Document()) && log.inStore == old(others)
      // Whatever everybody else does meanwhile, the record is one the lifecycle allows and the
      // outcome is the one it ends in; the host never refuses a merge as a draft's.
      ensures Allowed(trace) && EndsAs(o) && o != Failing(HostRefused(StillADraft))
      ensures change.None? ==> trace == [] && o.Failing? && !o.why.ChecksFailed?
      // What it tells of its change, of what it read and asked for, and of the host, is so.
      ensures change.Some? ==> TellsOf(change.value, o)
      // Where nobody else moves, its change is the first the host held when it began, or one of the
      // next number.
      ensures change.Some? && old(others) == [] ==>
        var held := HeldFor(r, old(host.Document()));
        && (log.mine.value.adopted <==> held != [])
        && change.value == if held != [] then held[0] else NewChange(old(host.Document()), r.slug, r.Spec())
      // A change that was open and no draft when this run began is asked for no lift.
      ensures change.Some? && OpenAndNoDraft(old(host.Document()), change.value) ==> Count(trace, DraftLifted) == 0
      // No `open` the host did not store when this run began is stored now, and where nobody else
      // merges anything every one it did store is.
      ensures change.Some? && OpenStored(host.Document(), change.value.id) ==> OpenStored(old(host.Document()), change.value.id)
      ensures change.Some? && o.Armed? && !OpenStored(old(host.Document()), change.value.id) ==>
        IsQueued(host.Document(), change.value.id)
      ensures change.Some? && NobodyElseMerges(old(others)) && OpenStored(old(host.Document()), change.value.id) ==>
        OpenStored(host.Document(), change.value.id) && !o.MergedAt?
    {
      log := Fresh(r, host.Document(), others);
      var found := Begin();
      if found.Err? {
        return Failing(found.error), None;
      }
      change := Some(found.value.0);
      o := PublishTold(found.value.0, found.value.1);
      HeldNowIsHeldThen(change.value, o);
      if old(others) == [] {
        AloneFinds(log);
      }
    }
  }

  /** A merge the host answers is the one its document then holds. */
  lemma MergeAnswersItsDocument(s: HostState, cr: Change, policy: MergePolicy, now: nat)
    ensures var (t, answer) := MergeChange(s, cr, policy, now);
      && (answer.Ok? && (answer.value.Merged? || answer.value.Queued? || policy.ChangeAuto? || policy.ChangeDirect?) ==>
            cr.id in t.landings.merges && t.landings.merges[cr.id] == answer.value)
  {
  }

  /** It is refused only for its identifier, or as a draft. */
  lemma MergeRefusesOnlyDrafts(s: HostState, cr: Change, policy: MergePolicy, now: nat)
    ensures MergeChange(s, cr, policy, now).1.Err? ==> IsBlank(cr.id) || Drafted(s, cr.id)
  {
  }

  /** An `open` the host has stored is what it answers to being asked to hold the merge, and where
      it has stored none it lands the change or holds it. */
  lemma StoredOpenIsAnswered(s: HostState, cr: Change, now: nat)
    requires MergeChange(s, cr, ChangeAuto, now).1.Ok?
    ensures var (t, answer) := MergeChange(s, cr, ChangeAuto, now);
      if OpenStored(s, cr.id) then answer == Ok(MergeOutcome.Open) && OpenStored(t, cr.id)
      else answer.value.Merged? || (answer == Ok(Queued) && IsQueued(t, cr.id))
  {
  }
}
