/**
 What a change request's checks say: the publication watch's reading of them, the standing
 verdict that restates it, and the host's own condition for merging.
 */
module Checks {
  import opened Basics

  datatype Conclusion = Success | Neutral | SkippedRun | Cancelled | Stale | Other(text: string)

  datatype CheckState = Failed | Pending | Passed | NoVerdict | Skipped

  datatype Check = Check(name: string, required: bool, completed: bool, conclusion: Option<Conclusion>, startedAt: Option<nat>) {
    function State(): CheckState {
      if !completed then Pending
      else
        match conclusion
        case Some(Success) => Passed
        case Some(Neutral) => Passed
        case Some(SkippedRun) => Skipped
        case Some(Cancelled) => NoVerdict
        case Some(Stale) => NoVerdict
        case _ => Failed
    }
  }

  /** Which runs are which: one that has not completed is running whatever it says, and one that has
      is read by its conclusion, a settled conclusion nothing else names being a failure. */
  lemma StatesByConclusion(c: Check)
    ensures c.State() == Pending <==> !c.completed
    ensures c.State() == Passed <==> c.completed && c.conclusion in {Some(Success), Some(Neutral)}
    ensures c.State() == Skipped <==> c.completed && c.conclusion == Some(SkippedRun)
    ensures c.State() == NoVerdict <==> c.completed && c.conclusion in {Some(Cancelled), Some(Stale)}
    ensures c.State() == Failed <==>
      c.completed && (c.conclusion == None || exists text :: c.conclusion == Some(Other(text)))
  {
    if c.State() == Failed && c.conclusion.Some? {
      assert c.conclusion == Some(Other(c.conclusion.value.text));
    }
  }

  /** Red outranks running, running outranks passed, passed outranks no verdict. */
  function Rank(s: CheckState): nat {
    match s
    case Failed => 0
    case Pending => 1
    case Passed => 2
    case NoVerdict => 3
    case Skipped => 4
  }

  /** What the runs of one name add up to: their least rank, or `None` where it has none. */
  function Worst(checks: seq<Check>, name: string): Option<CheckState> {
    if checks == [] then None
    else
      var rest := Worst(checks[1..], name);
      if checks[0].name != name then rest
      else if rest.Some? && Rank(rest.value) < Rank(checks[0].State()) then rest
      else Some(checks[0].State())
  }

  /** A run of one name. */
  predicate RunOf(checks: seq<Check>, name: string, c: Check) {
    c in checks && c.name == name
  }

  /** `Worst` is attained by a run and is the least any run has. */
  lemma {:induction false} WorstIsLeast(checks: seq<Check>, name: string)
    ensures Worst(checks, name).None? <==> forall c :: !RunOf(checks, name, c)
    ensures Worst(checks, name).Some? ==>
      && (exists c :: RunOf(checks, name, c) && c.State() == Worst(checks, name).value)
      && (forall c :: RunOf(checks, name, c) ==> Rank(Worst(checks, name).value) <= Rank(c.State()))
  {
    if checks != [] {
      var first, rest := checks[0], checks[1..];
      WorstIsLeast(rest, name);
      assert RunOf(checks, name, first) <==> first.name == name;
      assert forall c :: RunOf(checks, name, c) <==> RunOf(rest, name, c) || (c == first && first.name == name);
    }
  }

  /** Each required check by name, and the state its runs add up to. */
  type Standing = map<string, Option<CheckState>>

  function Marked(checks: seq<Check>): set<string> {
    set c | c in checks && c.required :: c.name
  }

  function Rest(names: set<string>, checks: seq<Check>): Standing {
    map n | n in names :: Worst(checks, n)
  }

  function Named(standing: Standing, wanted: set<Option<CheckState>>): set<string> {
    set n | n in standing && standing[n] in wanted
  }

  const LETS_THROUGH: set<Option<CheckState>> := {Some(Passed), Some(Skipped)}

  // ---- The watch ----

  /** Which checks a merge requires, as the host said. */
  datatype Declared = Nothing | Names(names: set<string>) | Unknown

  /** A host's answer about what a merge requires; `complete` where every source answered. */
  datatype Requirement = Requirement(checks: set<string>, complete: bool)

  /** The watch's reading of that answer; `None` is a host that would not say. */
  function DeclaredRequired(answer: Option<Requirement>): Declared {
    match answer
    case Some(Requirement(names, complete)) =>
      if names != {} then Names(names) else if complete then Nothing else Unknown
    case None => Unknown
  }

  /** A declaration nobody could read is sharpened by a complete rollup that marks nothing. */
  function Given(declared: Declared, complete: bool, checks: seq<Check>): Declared {
    if declared.Unknown? && complete && checks != [] && Marked(checks) == {} then Nothing else declared
  }

  function RequiredNames(checks: seq<Check>, declared: Declared): set<string> {
    match declared
    case Names(names) => names
    case Nothing => {}
    case Unknown => Marked(checks)
  }

  function Standings(checks: seq<Check>, declared: Declared): Standing {
    Rest(RequiredNames(checks, declared), checks)
  }

  /** Whether some required check concluded red. */
  predicate Red(standing: Standing) {
    exists n :: n in standing && standing[n] == Some(Failed)
  }

  predicate Through(standing: Standing, declared: Declared) {
    (declared.Nothing? || standing != map[]) && forall n :: n in standing ==> standing[n] in LETS_THROUGH
  }

  function SkippedNames(standing: Standing): set<string> {
    Named(standing, {Some(Skipped)})
  }

  /** Where the watch of a change that is not a draft ends on one reading. */
  datatype ReadyEnd = RedEnd | Settled(skipped: set<string>) | Unsettled

  function WatchReady(checks: seq<Check>, answer: Option<Requirement>, complete: bool): ReadyEnd {
    var declared := Given(DeclaredRequired(answer), complete, checks);
    var standing := Standings(checks, declared);
    if Red(standing) then RedEnd
    else if Through(standing, declared) then Settled(SkippedNames(standing))
    else Unsettled
  }

  // ---- The standing verdict ----

  datatype Verdict =
    | VerdictFailed(failed: set<string>)
    | NoneRequired
    | VerdictPassed
    | PassedWithSkipped(skipped: set<string>)
    | VerdictPending(waiting: set<string>)

  /** The verdict against what the host declares, `None` where nothing can be read. */
  function VerdictOf(checks: seq<Check>, declared: Option<set<string>>): Verdict {
    var nothing := match declared
      case Some(names) => names == {}
      case None => checks != [] && forall c :: c in checks ==> !c.required;
    var names := match declared
      case Some(names) => names
      case None => if nothing then {} else Marked(checks);
    var standing := Rest(names, checks);
    var failed := Named(standing, {Some(Failed)});
    if failed != {} then VerdictFailed(failed)
    else if nothing && standing == map[] then NoneRequired
    else if (nothing || standing != map[]) && forall n :: n in standing ==> standing[n] in LETS_THROUGH then
      var skipped := Named(standing, {Some(Skipped)});
      if skipped == {} then VerdictPassed else PassedWithSkipped(skipped)
    else VerdictPending(Named(standing, {None, Some(Pending), Some(NoVerdict)}))
  }

  /** What the verdict is read against, out of the same answer the watch reads. */
  function DeclaredFor(answer: Option<Requirement>): Option<set<string>> {
    match answer
    case Some(Requirement(names, complete)) => if complete || names != {} then Some(names) else None
    case None => None
  }

  /** Where a verdict says the watch of that reading ends. */
  function EndOf(v: Verdict): ReadyEnd {
    match v
    case VerdictFailed(_) => RedEnd
    case NoneRequired => Settled({})
    case VerdictPassed => Settled({})
    case PassedWithSkipped(skipped) => Settled(skipped)
    case VerdictPending(_) => Unsettled
  }

  /** The rule stated twice is one rule: over every check list and every answer, with a
      complete rollup, the verdict is failed, settled or pending exactly as the watch of a
      ready change is, with the same skipped names. */
  lemma VerdictIsTheWatch(checks: seq<Check>, answer: Option<Requirement>)
    ensures EndOf(VerdictOf(checks, DeclaredFor(answer))) == WatchReady(checks, answer, true)
  {
    MarkedIsEmptyIff(checks);
    var declared := Given(DeclaredRequired(answer), true, checks);
    RedIffSomeFailed(Standings(checks, declared));
  }

  lemma RedIffSomeFailed(standing: Standing)
    ensures Red(standing) <==> Named(standing, {Some(Failed)}) != {}
    ensures standing == map[] ==> Named(standing, {Some(Skipped)}) == {}
  {
    if Red(standing) {
      var n :| n in standing && standing[n] == Some(Failed);
      assert n in Named(standing, {Some(Failed)});
    }
    if Named(standing, {Some(Failed)}) != {} {
      var n :| n in Named(standing, {Some(Failed)});
      assert standing[n] == Some(Failed);
    }
  }

  lemma MarkedIsEmptyIff(checks: seq<Check>)
    ensures Marked(checks) == {} <==> forall c :: c in checks ==> !c.required
  {
    if c :| c in checks && c.required {
      assert c.name in Marked(checks);
    }
  }

  /** A required check is waited for exactly where no run of it failed, none passed unless one
      is still running, and they are not all skipped. */
  lemma WaitedForIff(checks: seq<Check>, declared: set<string>, n: string)
    requires VerdictOf(checks, Some(declared)).VerdictPending? && n in declared
    ensures n in VerdictOf(checks, Some(declared)).waiting <==>
      && (forall c :: RunOf(checks, n, c) ==> c.State() != Failed)
      && ((exists c :: RunOf(checks, n, c) && c.State() == Pending)
          || ((forall c :: RunOf(checks, n, c) ==> c.State() != Passed)
              && ((exists c :: RunOf(checks, n, c) && c.State() == NoVerdict)
                  || (forall c :: !RunOf(checks, n, c)))))
  {
    WorstIsLeast(checks, n);
    var standing := Rest(declared, checks);
    assert VerdictOf(checks, Some(declared)).waiting == Named(standing, {None, Some(Pending), Some(NoVerdict)});
    assert standing[n] == Worst(checks, n);
    assert n !in Named(standing, {Some(Failed)});
    match Worst(checks, n)
    case None =>
    case Some(worst) =>
      var c :| RunOf(checks, n, c) && c.State() == worst;
  }

  /** Reordering or repeating runs changes nothing: only which runs there are matters. */
  lemma OrderDoesNotMatter(checks: seq<Check>, again: seq<Check>, declared: Option<set<string>>,
                           answer: Option<Requirement>, complete: bool)
    requires forall c :: c in checks <==> c in again
    ensures VerdictOf(checks, declared) == VerdictOf(again, declared)
    ensures WatchReady(checks, answer, complete) == WatchReady(again, answer, complete)
  {
    OrderLeavesTheVerdict(checks, again, declared);
    OrderLeavesTheWatch(checks, again, answer, complete);
  }

  lemma OrderLeavesTheVerdict(checks: seq<Check>, again: seq<Check>, declared: Option<set<string>>)
    requires forall c :: c in checks <==> c in again
    ensures VerdictOf(checks, declared) == VerdictOf(again, declared)
  {
    SameRunsSameMarks(checks, again);
    MarkedIsEmptyIff(checks);
    MarkedIsEmptyIff(again);
    var names := match declared case Some(names) => names case None => Marked(checks);
    SameRunsSameStanding(checks, again, names);
    SameRunsSameStanding(checks, again, {});
  }

  lemma OrderLeavesTheWatch(checks: seq<Check>, again: seq<Check>, answer: Option<Requirement>, complete: bool)
    requires forall c :: c in checks <==> c in again
    ensures WatchReady(checks, answer, complete) == WatchReady(again, answer, complete)
  {
    SameRunsSameMarks(checks, again);
    var declared := Given(DeclaredRequired(answer), complete, checks);
    SameRunsSameStanding(checks, again, RequiredNames(checks, declared));
  }

  lemma SameRunsSameMarks(checks: seq<Check>, again: seq<Check>)
    requires forall c :: c in checks <==> c in again
    ensures Marked(checks) == Marked(again)
    ensures checks == [] <==> again == []
  {
    if checks != [] { assert checks[0] in again; }
    if again != [] { assert again[0] in checks; }
  }

  lemma SameRunsSameStanding(checks: seq<Check>, again: seq<Check>, names: set<string>)
    requires forall c :: c in checks <==> c in again
    ensures Rest(names, checks) == Rest(names, again)
  {
    forall n | n in names
      ensures Worst(checks, n) == Worst(again, n)
    {
      WorstDependsOnTheRuns(checks, again, n);
    }
  }

  lemma WorstDependsOnTheRuns(checks: seq<Check>, again: seq<Check>, n: string)
    requires forall c :: c in checks <==> c in again
    ensures Worst(checks, n) == Worst(again, n)
  {
    WorstIsLeast(checks, n);
    WorstIsLeast(again, n);
    assert forall c :: RunOf(checks, n, c) <==> RunOf(again, n, c);
    if Worst(checks, n).Some? && Worst(again, n).Some? {
      RankIsInjective(Worst(checks, n).value, Worst(again, n).value);
    }
  }

  lemma RankIsInjective(a: CheckState, b: CheckState)
    ensures Rank(a) == Rank(b) ==> a == b
  {
  }

  // ---- The host's own merge condition ----

  /** Whether every required check lets the host merge: every marked and every declared name
      has a run, and every run of it passed or was skipped. */
  predicate RequiredChecksGreen(checks: seq<Check>, declared: set<string>) {
    var required := Marked(checks) + declared;
    && required != {}
    && forall n :: n in required ==> Green(checks, n)
  }

  predicate Green(checks: seq<Check>, name: string) {
    && (exists c :: c in checks && RunOf(checks, name, c))
    && forall c :: c in checks && RunOf(checks, name, c) ==> Some(c.State()) in LETS_THROUGH
  }

  ghost predicate HasNoVerdictRun(checks: seq<Check>, name: string) {
    exists c :: RunOf(checks, name, c) && c.State() == NoVerdict
  }

  /** The host and the watch differ about a name only over a run that ended without a verdict,
      which a pass outranks. */
  lemma GreenIff(checks: seq<Check>, name: string)
    ensures Green(checks, name) <==> Worst(checks, name) in LETS_THROUGH && !HasNoVerdictRun(checks, name)
  {
    WorstIsLeast(checks, name);
    if Green(checks, name) {
      var c :| RunOf(checks, name, c) && c.State() == Worst(checks, name).value;
      assert Some(c.State()) in LETS_THROUGH;
    }
  }

  /** What a merge requires: a name a run is marked under, or one declared. */
  ghost predicate IsRequiredName(checks: seq<Check>, declared: set<string>, n: string) {
    n in declared || exists c :: c in checks && c.required && c.name == n
  }

  /** A run of a name, and every one of them passed or was skipped. */
  ghost predicate RunsLetThrough(checks: seq<Check>, n: string) {
    && (exists c :: c in checks && c.name == n)
    && forall c :: c in checks && c.name == n ==> c.State() == Passed || c.State() == Skipped
  }

  /** The host is ready to merge exactly where something is required, and every name that is has a
      run, none of them failed, still running or without a verdict: whatever is declared, nothing
      included. */
  lemma RequiredChecksGreenIff(checks: seq<Check>, declared: set<string>)
    ensures RequiredChecksGreen(checks, declared) <==>
      && (exists n :: IsRequiredName(checks, declared, n))
      && forall n :: IsRequiredName(checks, declared, n) ==> RunsLetThrough(checks, n)
  {
    var required := Marked(checks) + declared;
    forall n
      ensures n in required <==> IsRequiredName(checks, declared, n)
      ensures Green(checks, n) <==> RunsLetThrough(checks, n)
    {
    }
    if required != {} {
      var n :| n in required;
      assert IsRequiredName(checks, declared, n);
    }
  }

  /** Where nothing is declared the host waits for the names runs are marked under, and merges exactly
      where a watch that reads the marking lets the change through and none of their runs ended
      without a verdict; a watch told that nothing is required lets every change through. */
  lemma NothingDeclaredMergesIff(checks: seq<Check>)
    ensures RequiredChecksGreen(checks, {}) <==>
      Through(Standings(checks, Unknown), Unknown) && forall n :: n in Marked(checks) ==> !HasNoVerdictRun(checks, n)
    ensures Through(Standings(checks, Nothing), Nothing)
  {
    var standing := Standings(checks, Unknown);
    assert Marked(checks) + {} == Marked(checks);
    if n :| n in Marked(checks) {
      assert n in standing;
    }
    forall n
      ensures Green(checks, n) <==> Worst(checks, n) in LETS_THROUGH && !HasNoVerdictRun(checks, n)
    {
      GreenIff(checks, n);
    }
    assert forall n :: n in Marked(checks) ==> n in standing && standing[n] == Worst(checks, n);
  }

  /** Over the same checks and a non-empty declaration, a host ready to merge is one the watch
      lets through, and a change the watch lets through is held by the host exactly where a
      declared name has a run without a verdict or a marked name outside the declaration is
      not green. */
  lemma HostMergesIffWatchLetsThroughAndNothingIsHeld(checks: seq<Check>, declared: set<string>)
    requires declared != {}
    ensures RequiredChecksGreen(checks, declared) <==>
      && Through(Standings(checks, Names(declared)), Names(declared))
      && (forall n :: n in declared ==> !HasNoVerdictRun(checks, n))
      && (forall n :: n in Marked(checks) - declared ==> Green(checks, n))
  {
    var standing := Standings(checks, Names(declared));
    var n0 :| n0 in declared;
    assert n0 in standing;
    forall n
      ensures Green(checks, n) <==> Worst(checks, n) in LETS_THROUGH && !HasNoVerdictRun(checks, n)
    {
      GreenIff(checks, n);
    }
    assert forall n :: n in declared ==> n in standing && standing[n] == Worst(checks, n);
  }

  // ---- The draft and the lift ----

  /** Whether a run was attached after the lift rather than by the draft in `snapshot`. */
  predicate RanAfterTheLift(check: Check, snapshot: seq<Check>) {
    || (forall seen :: seen in snapshot ==> seen.name != check.name)
    || (check.startedAt.Some?
        && forall seen :: seen in snapshot && seen.name == check.name ==> seen.startedAt != check.startedAt)
  }

  /** The runs a change read after its early lift is judged on: a skip left from the draft is
      no run. */
  function Counted(after: seq<Check>, snapshot: seq<Check>): (counted: seq<Check>)
    ensures forall c :: c in counted <==>
      c in after && (RanAfterTheLift(c, snapshot) || c.State() != Skipped)
  {
    if after == [] then []
    else
      assert after == [after[0]] + after[1..];
      var rest := Counted(after[1..], snapshot);
      if RanAfterTheLift(after[0], snapshot) || after[0].State() != Skipped then [after[0]] + rest else rest
  }

  /** Leaving the draft's skips out never hides a red check the host declared. Where the
      declaration could not be read, it hides one exactly where no counted run of a red name
      is itself marked required. */
  lemma CountedKeepsRed(after: seq<Check>, snapshot: seq<Check>, declared: Declared, n: string)
    requires n in Standings(after, declared) && Standings(after, declared)[n] == Some(Failed)
    ensures Worst(Counted(after, snapshot), n) == Some(Failed)
    ensures n in Standings(Counted(after, snapshot), declared) <==>
      !declared.Unknown? || n in Marked(Counted(after, snapshot))
  {
    var counted := Counted(after, snapshot);
    WorstIsLeast(after, n);
    WorstIsLeast(counted, n);
    var c :| RunOf(after, n, c) && c.State() == Failed;
    assert RunOf(counted, n, c);
    RankIsInjective(Worst(counted, n).value, Failed);
  }

  /** Whether some run of a name concluded red. */
  predicate HasFailedRun(checks: seq<Check>, n: string) { exists c :: c in checks && c.name == n && c.State() == Failed }

  lemma FailedIffSomeRunFailed(checks: seq<Check>, n: string)
    ensures Worst(checks, n) == Some(Failed) <==> HasFailedRun(checks, n)
  {
    WorstIsLeast(checks, n);
    if HasFailedRun(checks, n) {
      var c :| c in checks && c.name == n && c.State() == Failed;
      assert RunOf(checks, n, c);
      RankIsInjective(Worst(checks, n).value, Failed);
    }
  }

  /** A reading is red exactly where some required name has a run that failed. */
  lemma RedIff(checks: seq<Check>, declared: Declared)
    ensures Red(Standings(checks, declared)) <==>
      exists n :: n in RequiredNames(checks, declared) && HasFailedRun(checks, n)
  {
    forall n
      ensures Worst(checks, n) == Some(Failed) <==> HasFailedRun(checks, n)
    {
      FailedIffSomeRunFailed(checks, n);
    }
    if n :| n in RequiredNames(checks, declared) && HasFailedRun(checks, n) {
      assert n in Standings(checks, declared) && Standings(checks, declared)[n] == Some(Failed);
    }
  }

  /** No failed run is a draft's skip, so the judgement after an early lift has them all; what it
      may lack is the marking that makes one of their names required. */
  lemma JudgedRedIff(after: seq<Check>, snapshot: seq<Check>, declared: Declared)
    ensures Red(Standings(Counted(after, snapshot), declared)) <==>
      exists n :: n in RequiredNames(Counted(after, snapshot), declared) && HasFailedRun(after, n)
  {
    RedIff(Counted(after, snapshot), declared);
    forall n
      ensures HasFailedRun(Counted(after, snapshot), n) <==> HasFailedRun(after, n)
    {
      if HasFailedRun(after, n) {
        var c :| c in after && c.name == n && c.State() == Failed;
        assert c in Counted(after, snapshot);
      }
    }
  }

  /** So what the host answered is red and the judgement of it is not exactly where the declaration
      could not be read and no counted run of a red name is itself marked required. */
  lemma RedIsMissedIff(after: seq<Check>, snapshot: seq<Check>, declared: Declared)
    requires Red(Standings(after, declared))
    ensures !Red(Standings(Counted(after, snapshot), declared)) <==>
      declared.Unknown? && forall n :: n in Marked(Counted(after, snapshot)) ==> !HasFailedRun(after, n)
  {
    RedIff(after, declared);
    JudgedRedIff(after, snapshot, declared);
  }
}
