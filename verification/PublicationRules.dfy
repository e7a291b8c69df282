/**
 What a publication as a change request concludes from what it reads, and what its outcome may
 then be.
 */
module PublicationRules {
  import opened Basics
  import opened Checks
  import opened HostDocument
  import opened Lifecycle

  datatype Request = Request(
    slug: string,
    head: string,
    base: string,
    title: string,
    body: Option<string>,
    reason: Option<DraftReason>,
    policy: MergePolicy,
    approvalsRequired: bool,
    draftsDisabled: bool,
    graceUsable: bool,
    now: nat)
  {
    /** Whether the policy asks for the merge to be held where the watch elapses. */
    predicate Automated() { policy == ChangeAuto || policy == ChangeDirect }

    /** Whether a draft found green is kept as one for its review. */
    predicate KeepsForReview() { policy == ChangeOpen && approvalsRequired }

    /** What this publication opens where the host holds no change for its branch. */
    function Spec(): ChangeSpec {
      ChangeSpec(head, base, title, body, reason, !draftsDisabled && reason.None?)
    }
  }

  datatype Failure = HostRefused(why: Refusal) | ChecksFailed | ChecksUnsettled | NotHeldAsADraft | GraceUnusable

  datatype Outcome =
    | ChangeDraft
    | ChangeReviewDraft
    | LeftOpen
    | Queueing
    | MergedAt(sha: Sha)
    | Armed
    | Failing(why: Failure)

  datatype Watched = OnDraft | OnReady | Elapsed(skipped: set<string>) | Stopped(why: Failure)

  predicate AnyPending(checks: seq<Check>) { exists c :: c in checks && c.State() == Pending }

  /** Whether a run the watch waits for was attached after the lift. */
  predicate Rerun(after: seq<Check>, snapshot: seq<Check>, standing: Checks.Standing) {
    exists c :: c in after && RanAfterTheLift(c, snapshot) && (standing == map[] || c.name in standing)
  }

  /** The required checks skipped since the lift, or standing on nothing but a draft's skip. */
  function SkippedEitherSide(after: seq<Check>, snapshot: seq<Check>, declared: Declared): set<string> {
    SkippedNames(Standings(Counted(after, snapshot), declared)) + SkippedNames(Standings(after, declared))
  }

  // ---- What a watch concludes ----

  /** A ready change's reading. */
  function ReadyWatched(checks: seq<Check>, declared: Declared): Watched {
    var standing := Standings(checks, declared);
    if Red(standing) then Stopped(ChecksFailed)
    else if Through(standing, declared) then OnReady
    else Elapsed(SkippedNames(standing))
  }

  /** A draft's reading, where it is not lifted early. */
  function DraftWatched(checks: seq<Check>, declared: Declared): Watched {
    if Red(Standings(checks, declared)) then Stopped(ChecksFailed)
    else if DraftIsGreen(checks, declared) then OnDraft
    else Elapsed(SkippedNames(Standings(checks, declared)))
  }

  /** Whether a draft is lifted early on its reading, unless its head is still running. */
  predicate LiftsEarly(checks: seq<Check>, declared: Declared) {
    && !Red(Standings(checks, declared)) && !DraftIsGreen(checks, declared)
    && NothingRan(checks, declared) && !AnyPending(checks)
  }

  // What those come to, by the runs and the declaration.

  /** What a merge requires by one reading: what the host declared, or where that could not be read
      the names its runs are marked under. */
  ghost predicate Requires(checks: seq<Check>, declared: Declared, n: string) {
    match declared
    case Names(names) => n in names
    case Nothing => false
    case Unknown => exists c :: c in checks && c.required && c.name == n
  }

  ghost predicate HasRun(checks: seq<Check>, n: string, state: CheckState) {
    exists c :: c in checks && c.name == n && c.State() == state
  }

  /** A name some run of passed, and none of failed or is running still. */
  ghost predicate HasPassed(checks: seq<Check>, n: string) {
    HasRun(checks, n, Passed) && !HasRun(checks, n, Failed) && !HasRun(checks, n, Pending)
  }

  /** A name no run of which ran: it has none, or they are all skipped. */
  ghost predicate NeverRan(checks: seq<Check>, n: string) { forall c :: c in checks && c.name == n ==> c.State() == Skipped }

  lemma WorstByRuns(checks: seq<Check>, n: string)
    ensures Worst(checks, n) == Some(Failed) <==> HasRun(checks, n, Failed)
    ensures Worst(checks, n) == Some(Passed) <==> HasPassed(checks, n)
    ensures Worst(checks, n) in {None, Some(Skipped)} <==> NeverRan(checks, n)
    ensures Worst(checks, n) == Some(Pending) <==> HasRun(checks, n, Pending) && !HasRun(checks, n, Failed)
    ensures Worst(checks, n) == Some(Skipped) <==> NeverRan(checks, n) && exists c :: c in checks && c.name == n
  {
    WorstIsLeast(checks, n);
    assert forall c :: RunOf(checks, n, c) <==> c in checks && c.name == n;
    if Worst(checks, n).Some? {
      var c :| RunOf(checks, n, c) && c.State() == Worst(checks, n).value;
      assert HasRun(checks, n, c.State());
    }
  }

  lemma RequiredByRuns(checks: seq<Check>, declared: Declared)
    ensures forall n :: Requires(checks, declared, n) <==> n in RequiredNames(checks, declared)
    ensures Standings(checks, declared) == map[] <==> forall n :: !Requires(checks, declared, n)
  {
    forall n
      ensures Requires(checks, declared, n) <==> n in RequiredNames(checks, declared)
    {
    }
    if n :| Requires(checks, declared, n) {
      assert n in Standings(checks, declared);
    }
    if Standings(checks, declared) != map[] {
      var n :| n in Standings(checks, declared);
      assert Requires(checks, declared, n);
    }
  }

  /** A draft's first reading settles exactly where nothing is required; or something is, and some run
      of every required name passed with none of them failed or running; or the declaration could not
      be read, nothing is marked, and checks ran with none skipped. */
  lemma DraftSettlesIff(checks: seq<Check>, declared: Declared)
    ensures DraftWatched(checks, declared) == OnDraft <==>
      || declared == Nothing
      || ((exists n :: Requires(checks, declared, n)) && forall n :: Requires(checks, declared, n) ==> HasPassed(checks, n))
      || (declared == Unknown && (forall n :: !Requires(checks, declared, n)) && checks != []
          && forall c :: c in checks ==> c.State() != Skipped)
  {
    var standing := Standings(checks, declared);
    RequiredByRuns(checks, declared);
    forall n
      ensures Worst(checks, n) == Some(Passed) <==> HasPassed(checks, n)
    {
      WorstByRuns(checks, n);
    }
    assert forall n :: n in standing <==> Requires(checks, declared, n);
    assert forall n :: n in standing ==> standing[n] == Worst(checks, n);
  }

  /** What each required name stands at, and which never ran. */
  lemma StandingByRuns(checks: seq<Check>, declared: Declared)
    ensures var standing := Standings(checks, declared);
      && ((forall n :: n in standing ==> standing[n] in {None, Some(Skipped), Some(Passed)}) <==>
            forall n :: Requires(checks, declared, n) ==> NeverRan(checks, n) || HasPassed(checks, n))
      && (NotRun(standing) != {} <==> exists n :: Requires(checks, declared, n) && NeverRan(checks, n))
  {
    var standing := Standings(checks, declared);
    RequiredByRuns(checks, declared);
    forall n
      ensures Worst(checks, n) == Some(Passed) <==> HasPassed(checks, n)
      ensures Worst(checks, n) in {None, Some(Skipped)} <==> NeverRan(checks, n)
      ensures n in standing <==> Requires(checks, declared, n)
      ensures n in NotRun(standing) <==> Requires(checks, declared, n) && NeverRan(checks, n)
    {
      WorstByRuns(checks, n);
    }
    assert forall n :: n in standing ==> standing[n] == Worst(checks, n);
  }

  lemma LiftsEarlyByStanding(checks: seq<Check>, declared: Declared)
    ensures var standing := Standings(checks, declared);
      LiftsEarly(checks, declared) <==>
        && !AnyPending(checks)
        && ((NotRun(standing) != {} && forall n :: n in standing ==> standing[n] in {None, Some(Skipped), Some(Passed)})
            || (declared == Unknown && standing == map[] && (checks == [] || exists c :: c in checks && c.State() == Skipped)))
  {
    var standing := Standings(checks, declared);
    forall n | n in standing
      ensures !Red(standing) && standing[n] !in {Some(Pending), Some(NoVerdict)} ==>
        standing[n] in {None, Some(Skipped), Some(Passed)}
    {
      match standing[n]
      case None =>
      case Some(Failed) => assert Red(standing);
      case Some(Pending) =>
      case Some(Passed) =>
      case Some(NoVerdict) =>
      case Some(Skipped) =>
    }
    if NotRun(standing) != {} {
      var n :| n in NotRun(standing);
      assert n in standing && standing[n] != Some(Passed) && !DraftIsGreen(checks, declared);
    }
    assert NotRun(map[]) == {};
  }

  /** It is lifted early, unless its head is running, exactly where no run at all is still running,
      some required name never ran and every other has passed; or where the declaration could not be
      read and nothing is marked, with no check at all or some skipped. */
  lemma DraftIsLiftedEarlyIff(checks: seq<Check>, declared: Declared)
    ensures LiftsEarly(checks, declared) <==>
      && (forall c :: c in checks ==> c.State() != Pending)
      && (((exists n :: Requires(checks, declared, n) && NeverRan(checks, n))
           && forall n :: Requires(checks, declared, n) ==> NeverRan(checks, n) || HasPassed(checks, n))
          || (declared == Unknown && (forall n :: !Requires(checks, declared, n))
              && (checks == [] || exists c :: c in checks && c.State() == Skipped)))
  {
    StandingByRuns(checks, declared);
    RequiredByRuns(checks, declared);
    LiftsEarlyByStanding(checks, declared);
  }

  /** A name that stops nothing: it has passed, or it has runs and they were all skipped. */
  ghost predicate StopsNothing(checks: seq<Check>, n: string) {
    HasPassed(checks, n) || (NeverRan(checks, n) && exists c :: c in checks && c.name == n)
  }

  lemma ThroughByRuns(checks: seq<Check>, declared: Declared)
    ensures var standing := Standings(checks, declared);
      && ((forall n :: n in standing ==> standing[n] in LETS_THROUGH) <==>
            forall n :: Requires(checks, declared, n) ==> StopsNothing(checks, n))
      && ((forall n :: n in standing ==> standing[n] in LETS_THROUGH) ==> !Red(standing))
  {
    var standing := Standings(checks, declared);
    RequiredByRuns(checks, declared);
    forall n
      ensures Worst(checks, n) in LETS_THROUGH <==> StopsNothing(checks, n)
      ensures n in standing <==> Requires(checks, declared, n)
    {
      WorstByRuns(checks, n);
    }
    assert forall n :: n in standing ==> standing[n] == Worst(checks, n);
  }

  /** A ready change's reading settles exactly where no required name stops it, some name being
      required unless the host says nothing is. */
  lemma ReadySettlesIff(checks: seq<Check>, declared: Declared)
    ensures ReadyWatched(checks, declared) == OnReady <==>
      && (declared == Nothing || exists n :: Requires(checks, declared, n))
      && forall n :: Requires(checks, declared, n) ==> StopsNothing(checks, n)
  {
    ThroughByRuns(checks, declared);
    RequiredByRuns(checks, declared);
  }

  /** Whatever a reading elapses on, the names it says were skipped are the required ones whose every
      run was. */
  lemma SkippedByRuns(checks: seq<Check>, declared: Declared, n: string)
    ensures n in SkippedNames(Standings(checks, declared)) <==>
      Requires(checks, declared, n) && NeverRan(checks, n) && exists c :: c in checks && c.name == n
  {
    RequiredByRuns(checks, declared);
    WorstByRuns(checks, n);
  }

  /** The reading after an early lift, judged on the runs that are not the draft's skips, against
      what was declared before it; `running` where the head is said to be. */
  function AgainWatched(after: seq<Check>, snapshot: seq<Check>, declared: Declared, running: bool): Watched {
    var standing := Standings(Counted(after, snapshot), declared);
    if Red(standing) then Stopped(ChecksFailed)
    // Settled only where some run it waited for was attached after the lift.
    else if Rerun(after, snapshot, standing) then
      if forall n :: n in standing ==> standing[n] in LETS_THROUGH then OnReady
      else Elapsed(SkippedEitherSide(after, snapshot, declared))
    else if AnyPending(after) || running then Elapsed(SkippedEitherSide(after, snapshot, declared))
    else Stopped(ChecksUnsettled)
  }

  /** The reading after an early lift settles exactly where no name required of what is counted stops
      it, and some run of such a name, or of any where none is, is one the draft had none of: of a
      name it did not report, or started at a moment it reported for none of that name. */
  lemma AgainSettlesIff(after: seq<Check>, snapshot: seq<Check>, declared: Declared, running: bool)
    ensures AgainWatched(after, snapshot, declared, running) == OnReady <==>
      var counted := Counted(after, snapshot);
      && (forall n :: Requires(counted, declared, n) ==> StopsNothing(counted, n))
      && exists c :: c in after
           && (Requires(counted, declared, c.name) || forall n :: !Requires(counted, declared, n))
           && forall seen :: seen in snapshot && seen.name == c.name ==> c.startedAt.Some? && c.startedAt != seen.startedAt
  {
    var counted := Counted(after, snapshot);
    var standing := Standings(counted, declared);
    ThroughByRuns(counted, declared);
    RequiredByRuns(counted, declared);
    assert forall n :: n in standing <==> Requires(counted, declared, n);
    forall c: Check
      ensures RanAfterTheLift(c, snapshot) <==>
        forall seen :: seen in snapshot && seen.name == c.name ==> c.startedAt.Some? && c.startedAt != seen.startedAt
    {
    }
  }

  /** And elapsed, it names as skipped what is so of everything answered, or of what is counted. */
  lemma SkippedEitherSideByRuns(after: seq<Check>, snapshot: seq<Check>, declared: Declared, n: string)
    ensures n in SkippedEitherSide(after, snapshot, declared) <==>
      || (Requires(after, declared, n) && NeverRan(after, n) && exists c :: c in after && c.name == n)
      || (var counted := Counted(after, snapshot);
          Requires(counted, declared, n) && NeverRan(counted, n) && exists c :: c in counted && c.name == n)
  {
    SkippedByRuns(after, declared, n);
    SkippedByRuns(Counted(after, snapshot), declared, n);
  }

  /** What all its readings come to, with what the host said of the head's runs: the second of
      those answers is the one after an early lift. */
  function Concluded(heard: seq<seq<Check>>, declared: Declared, asDraft: bool, ran: seq<Option<bool>>): Watched
    requires 0 < |heard| <= 2
  {
    if |heard| == 2 then AgainWatched(heard[1], heard[0], declared, |ran| == 2 && ran[1] == Some(true))
    else if asDraft then DraftWatched(heard[0], declared)
    else ReadyWatched(heard[0], declared)
  }

  /** A second reading follows exactly an early lift, and that exactly a draft on which nothing
      required ran, with nothing running on its head. */
  predicate ReadsAgainAsItShould(heard: seq<seq<Check>>, declared: Declared, asDraft: bool, ran: seq<Option<bool>>)
    requires 0 < |heard| <= 2
  {
    var lifts := asDraft && LiftsEarly(heard[0], declared);
    && (lifts ==> ran != [])
    && (|heard| == 2 <==> lifts && ran[0] != Some(true))
  }

  /** What a draft's one reading comes to where it elapses: it is not lifted early only where its head
      is running. */
  lemma HeardOnce(heard: seq<seq<Check>>, declared: Declared, ran: seq<Option<bool>>)
    requires |heard| == 1 && !Red(Standings(heard[0], declared)) && !DraftIsGreen(heard[0], declared)
    requires LiftsEarly(heard[0], declared) ==> ran == [Some(true)]
    ensures ReadsAgainAsItShould(heard, declared, true, ran)
    ensures Concluded(heard, declared, true, ran) == Elapsed(SkippedNames(Standings(heard[0], declared)))
  {
  }

  /** What a second reading comes to, with whatever was said of the head's runs since the first. */
  lemma HeardAgain(heard: seq<seq<Check>>, declared: Declared, ran: seq<Option<bool>>, since: seq<Option<bool>>)
    requires |heard| == 2 && LiftsEarly(heard[0], declared)
    requires |ran| == 1 + |since| && ran[1..] == since && ran[0] != Some(true) && |since| <= 1
    ensures ReadsAgainAsItShould(heard, declared, true, ran)
    ensures Concluded(heard, declared, true, ran) == AgainWatched(heard[1], heard[0], declared, since == [Some(true)])
  {
    assert since != [] ==> ran[1] == since[0];
  }

  // ---- What follows from it ----

  /** Whether a watch that ended so is followed by a merge asked for. */
  predicate AsksMerge(r: Request, allowed: bool, w: Watched) {
    match w
    case OnDraft => r.policy != ChangeOpen
    case OnReady => r.policy != ChangeOpen
    case Elapsed(skipped) => skipped == {} && r.Automated() && allowed
    case Stopped(_) => false
  }

  /** Which outcomes may follow a watch that ended so: one, but for what the host answers to a
      merge it is asked for. */
  predicate Concludes(r: Request, allowed: bool, w: Watched, o: Outcome) {
    match w
    case Stopped(why) => o == Failing(why)
    case Elapsed(_) => if AsksMerge(r, allowed, w) then o.Armed? || o.MergedAt? else o == Failing(ChecksUnsettled)
    case _ =>
      if w.OnDraft? && r.KeepsForReview() then o == ChangeReviewDraft
      else if r.policy == ChangeOpen then o == LeftOpen
      else o.MergedAt? || o.Queueing? || o.LeftOpen?
  }

  /** What a publication judges: its first reading, and once it has lifted the change early, the
      runs of the second that are not the draft's skips. */
  function Judged(heard: seq<seq<Check>>): seq<Check>
    requires 0 < |heard| <= 2
  {
    if |heard| == 1 then heard[0] else Counted(heard[1], heard[0])
  }

  /** It ends red exactly where what it judged is red, and then asks for no merge. */
  lemma RedDecides(r: Request, allowed: bool, heard: seq<seq<Check>>, declared: Declared, asDraft: bool,
                   ran: seq<Option<bool>>, o: Outcome)
    requires 0 < |heard| <= 2 && Concludes(r, allowed, Concluded(heard, declared, asDraft, ran), o)
    ensures o == Failing(ChecksFailed) <==> Red(Standings(Judged(heard), declared))
    ensures o == Failing(ChecksFailed) ==> !AsksMerge(r, allowed, Concluded(heard, declared, asDraft, ran))
  {
  }

  /** A second answer that is red as the host gave it ends red exactly where some required name of
      what is counted of it has a failed run. */
  lemma RedAnswerEndsRedIff(r: Request, allowed: bool, heard: seq<seq<Check>>, declared: Declared, asDraft: bool,
                            ran: seq<Option<bool>>, o: Outcome)
    requires |heard| == 2 && Red(Standings(heard[1], declared))
    requires Concludes(r, allowed, Concluded(heard, declared, asDraft, ran), o)
    ensures o == Failing(ChecksFailed) <==>
      exists n :: n in RequiredNames(Counted(heard[1], heard[0]), declared) && HasFailedRun(heard[1], n)
  {
    RedDecides(r, allowed, heard, declared, asDraft, ran, o);
    JudgedRedIff(heard[1], heard[0], declared);
  }

  /** Whether some required name of what is counted of a reading holds it back. */
  predicate Waits(after: seq<Check>, snapshot: seq<Check>, declared: Declared) {
    exists n :: n in RequiredNames(Counted(after, snapshot), declared) && Worst(Counted(after, snapshot), n) !in LETS_THROUGH
  }

  /** When a merge is asked for over a second answer that is red as the host gave it: none of its
      failed runs is judged, and what is judged settled, or the watch elapsed with nothing skipped
      on either side of the lift and the merge may be held. */
  predicate MergesOverRed(r: Request, allowed: bool, after: seq<Check>, snapshot: seq<Check>, declared: Declared, running: bool) {
    var elapsing := SkippedEitherSide(after, snapshot, declared) == {} && r.Automated() && allowed;
    && declared.Unknown?
    && (forall n :: n in Marked(Counted(after, snapshot)) ==> !HasFailedRun(after, n))
    && if Rerun(after, snapshot, Standings(Counted(after, snapshot), declared))
       then if Waits(after, snapshot, declared) then elapsing else r.policy != ChangeOpen
       else (AnyPending(after) || running) && elapsing
  }

  lemma WaitsIff(after: seq<Check>, snapshot: seq<Check>, declared: Declared)
    ensures var standing := Standings(Counted(after, snapshot), declared);
      Waits(after, snapshot, declared) <==> !(forall n :: n in standing ==> standing[n] in LETS_THROUGH)
  {
    var standing := Standings(Counted(after, snapshot), declared);
    if Waits(after, snapshot, declared) {
      var n :| n in RequiredNames(Counted(after, snapshot), declared) && Worst(Counted(after, snapshot), n) !in LETS_THROUGH;
      assert n in standing && standing[n] !in LETS_THROUGH;
    }
    if n :| n in standing && standing[n] !in LETS_THROUGH {
      assert Worst(Counted(after, snapshot), n) !in LETS_THROUGH;
    }
  }

  lemma AsksAgainIff(r: Request, allowed: bool, after: seq<Check>, snapshot: seq<Check>, declared: Declared, running: bool)
    ensures var standing := Standings(Counted(after, snapshot), declared);
      var elapsing := SkippedEitherSide(after, snapshot, declared) == {} && r.Automated() && allowed;
      AsksMerge(r, allowed, AgainWatched(after, snapshot, declared, running)) <==>
        && !Red(standing)
        && (if Rerun(after, snapshot, standing)
            then (if Waits(after, snapshot, declared) then elapsing else r.policy != ChangeOpen)
            else (AnyPending(after) || running) && elapsing)
  {
    WaitsIff(after, snapshot, declared);
  }

  lemma MergesOverRedIff(r: Request, allowed: bool, heard: seq<seq<Check>>, declared: Declared, asDraft: bool, ran: seq<Option<bool>>)
    requires |heard| == 2 && Red(Standings(heard[1], declared))
    ensures AsksMerge(r, allowed, Concluded(heard, declared, asDraft, ran)) <==>
      MergesOverRed(r, allowed, heard[1], heard[0], declared, |ran| == 2 && ran[1] == Some(true))
  {
    RedIsMissedIff(heard[1], heard[0], declared);
    AsksAgainIff(r, allowed, heard[1], heard[0], declared, |ran| == 2 && ran[1] == Some(true));
  }
}
