/**
 A change request's standing on the host, and when it is the answer a publication's watch of
 the same change would end on.
 */
module StandingVerdicts {
  import opened Basics
  import opened Checks
  import opened HostDocument

  /** Every check a scenario marks required, on either side of a lift. */
  function SeededRequired(seeds: Seeds): set<string> {
    (set id, c | id in seeds.checks && c in seeds.checks[id] && c.required :: c.name)
    + (set id, c | id in seeds.checksAfterLift && c in seeds.checksAfterLift[id] && c.required :: c.name)
    + (set id, r, c | id in seeds.readings && r in seeds.readings[id] && c in r && c.required :: c.name)
    + (set id, r, c | id in seeds.readingsAfterLift && r in seeds.readingsAfterLift[id] && c in r && c.required :: c.name)
  }

  /** Every check marked required on a head commit of its own. */
  function HeadRequired(headChecks: map<Sha, seq<Check>>): (names: set<string>)
    ensures headChecks == map[] ==> names == {}
  {
    set h, c | h in headChecks && c in headChecks[h] && c.required :: c.name
  }

  /** `required_checks_on`: what the host answers a watch that asks. */
  function RequiredChecksOn(s: HostState): Requirement { RequiredBy(s.seeds) }

  function RequiredBy(seeds: Seeds): Requirement {
    if seeds.required.Some? then seeds.required.value else Requirement(SeededRequired(seeds), true)
  }

  /** Whether some check a scenario seeds is of this name and marked required, wherever it is
      seeded: the checks before a lift or after one, or any reading scripted on either side. */
  ghost predicate SomeSeedMarks(seeds: Seeds, n: string) {
    exists checks :: IsSeeded(seeds, checks) && n in Marked(checks)
  }

  ghost predicate IsSeeded(seeds: Seeds, checks: seq<Check>) {
    || checks in seeds.checks.Values || checks in seeds.checksAfterLift.Values
    || (exists script :: script in seeds.readings.Values && checks in script)
    || (exists script :: script in seeds.readingsAfterLift.Values && checks in script)
  }

  /** What a merge requires is what the scenario declares, and where it declares nothing, exactly
      what some check it seeds marks; only a declaration can be answered in part. */
  lemma RequiredIff(seeds: Seeds, n: string)
    ensures n in RequiredBy(seeds).checks <==>
      if seeds.required.Some? then n in seeds.required.value.checks else SomeSeedMarks(seeds, n)
    ensures !RequiredBy(seeds).complete ==> seeds.required.Some?
  {
    if seeds.required.None? {
      if SomeSeedMarks(seeds, n) {
        var checks :| IsSeeded(seeds, checks) && n in Marked(checks);
        var c: Check :| c in checks && c.required && c.name == n;
        SeedIsRead(seeds, checks, c);
      }
      if n in SeededRequired(seeds) {
        var checks := SeedOf(seeds, n);
      }
    }
  }

  lemma SeedIsRead(seeds: Seeds, checks: seq<Check>, c: Check)
    requires IsSeeded(seeds, checks) && c in checks && c.required
    ensures c.name in SeededRequired(seeds)
  {
    if checks in seeds.checks.Values {
      var id :| id in seeds.checks && seeds.checks[id] == checks;
    } else if checks in seeds.checksAfterLift.Values {
      var id :| id in seeds.checksAfterLift && seeds.checksAfterLift[id] == checks;
    } else if script :| script in seeds.readings.Values && checks in script {
      var id :| id in seeds.readings && seeds.readings[id] == script;
    } else {
      var script :| script in seeds.readingsAfterLift.Values && checks in script;
      var id :| id in seeds.readingsAfterLift && seeds.readingsAfterLift[id] == script;
    }
  }

  lemma SeedOf(seeds: Seeds, n: string) returns (checks: seq<Check>)
    requires n in SeededRequired(seeds)
    ensures IsSeeded(seeds, checks) && n in Marked(checks)
  {
    if id, c :| id in seeds.checks && c in seeds.checks[id] && c.required && c.name == n {
      checks := seeds.checks[id];
    } else if id, c :| id in seeds.checksAfterLift && c in seeds.checksAfterLift[id] && c.required && c.name == n {
      checks := seeds.checksAfterLift[id];
    } else if id, r, c :| id in seeds.readings && r in seeds.readings[id] && c in r && c.required && c.name == n {
      checks := r;
      assert seeds.readings[id] in seeds.readings.Values;
    } else {
      var id, r, c :| id in seeds.readingsAfterLift && r in seeds.readingsAfterLift[id] && c in r && c.required && c.name == n;
      checks := r;
      assert seeds.readingsAfterLift[id] in seeds.readingsAfterLift.Values;
    }
  }

  /** Whether a reading of the checks is everything posted on a change. */
  predicate CompleteSources(seeds: Seeds) { seeds.sources.None? || StatusChecks in seeds.sources.value }

  /** `declared`: what a standing is read against. */
  function DeclaredOn(s: HostState, base: string): Option<set<string>> {
    if base in s.shelf.deleted then None
    else
      match s.seeds.required
      case Some(Requirement(names, complete)) => if complete || names != {} then Some(names) else None
      case None => Some(SeededRequired(s.seeds) + HeadRequired(s.headChecks))
  }

  /** That head commit's own checks where a journey seeded them, else the change's. */
  function ChecksOnHead(s: HostState, id: ChangeId): seq<Check> {
    match Find(s.shelf.changes, id)
    case Some(change) =>
      if change.headSha in s.headChecks then s.headChecks[change.headSha] else CurrentChecks(s, id)
    case None => CurrentChecks(s, id)
  }

  datatype ChangeState =
    | StandsMerged(base: string, commit: Sha, landing: bool, at: Option<Stamp>)
    | StandsClosed(baseDeleted: bool)
    | StandsOpen

  datatype Standing = Standing(state: ChangeState, checks: Verdict, draft: bool, base: string)

  /** Where one change stands; a merge outranks a closing. */
  function StandingOf(s: HostState, root: string, id: ChangeId): Result<Standing, Refusal> {
    match Find(s.shelf.changes, id)
    case None => Err(NotOpened)
    case Some(change) =>
      var state :=
        if IsMerged(s, id) then
          StandsMerged(change.base, s.landings.merges[id].sha, change.base == root,
                       if id in s.landings.times then Some(s.landings.times[id]) else None)
        else if id in s.shelf.closed then StandsClosed(change.base in s.shelf.deleted)
        else StandsOpen;
      Ok(Standing(state, VerdictOf(ChecksOnHead(s, id), DeclaredOn(s, change.base)), Drafted(s, id), change.base))
  }

  /** Whether the host stores a merge of a change, and the commit it landed as. */
  ghost predicate LandedAs(s: HostState, id: ChangeId, commit: Sha) {
    id in s.landings.merges && s.landings.merges[id] == Merged(commit)
  }

  /** A standing is of the first change by its identifier, and is what is stored of it: merged where
      a merge is, by its commit and its moment, and a landing where its base is the root; closed where it
      is closed and no merge is stored; and open otherwise. */
  ghost predicate StandsAsStored(s: HostState, root: string, id: ChangeId, k: nat, standing: Standing) {
    && IsTheFirst(s.shelf.changes, id, k)
    && standing.base == s.shelf.changes[k].base
    && (standing.draft <==> (id in s.drafting.reasons || id in s.drafting.awaiting) && id !in s.drafting.madeReady)
    && match standing.state
       case StandsMerged(base, commit, landing, at) =>
         && LandedAs(s, id, commit) && base == standing.base && (landing <==> base == root)
         && (at.Some? <==> id in s.landings.times) && (at.Some? ==> at.value == s.landings.times[id])
       case StandsClosed(baseDeleted) =>
         && id in s.shelf.closed && (forall commit :: !LandedAs(s, id, commit))
         && (baseDeleted <==> standing.base in s.shelf.deleted)
       case StandsOpen => id !in s.shelf.closed && forall commit :: !LandedAs(s, id, commit)
  }

  lemma EveryStandingIsAsStored(s: HostState, root: string, id: ChangeId) returns (k: nat)
    ensures StandingOf(s, root, id).Err? <==> forall i :: 0 <= i < |s.shelf.changes| ==> s.shelf.changes[i].id != id
    ensures StandingOf(s, root, id).Err? ==> StandingOf(s, root, id).error == NotOpened
    ensures StandingOf(s, root, id).Ok? ==> StandsAsStored(s, root, id, k, StandingOf(s, root, id).value)
  {
    k := FindsTheFirst(s.shelf.changes, id);
  }

  /** Whether some head commit's own checks mark a name. */
  ghost predicate SomeHeadMarks(s: HostState, n: string) {
    exists h :: h in s.headChecks && n in Marked(s.headChecks[h])
  }

  /** What it is read against: nothing where the base is gone, or where what is declared is neither
      whole nor anything; else what is declared, or every name any check the host was given marks. */
  lemma DeclaredOnIff(s: HostState, base: string, n: string)
    ensures DeclaredOn(s, base).None? <==> base in s.shelf.deleted || s.seeds.required == Some(Requirement({}, false))
    ensures DeclaredOn(s, base).Some? ==> (n in DeclaredOn(s, base).value <==>
      if s.seeds.required.Some? then n in s.seeds.required.value.checks
      else SomeSeedMarks(s.seeds, n) || SomeHeadMarks(s, n))
  {
    RequiredIff(s.seeds, n);
    if SomeHeadMarks(s, n) {
      var h :| h in s.headChecks && n in Marked(s.headChecks[h]);
      var c: Check :| c in s.headChecks[h] && c.required && c.name == n;
      assert n in HeadRequired(s.headChecks);
    }
    if n in HeadRequired(s.headChecks) {
      var h, c :| h in s.headChecks && c in s.headChecks[h] && c.required && c.name == n;
      assert n in Marked(s.headChecks[h]);
    }
  }

  /** Its verdict is of its head commit's own checks where there are any, else of the change's. */
  lemma StandingReadsItsHead(s: HostState, root: string, id: ChangeId, k: nat)
    requires IsTheFirst(s.shelf.changes, id, k) && StandingOf(s, root, id).Ok?
    ensures var change, verdict := s.shelf.changes[k], StandingOf(s, root, id).value.checks;
      && (change.headSha in s.headChecks ==> verdict == VerdictOf(s.headChecks[change.headSha], DeclaredOn(s, change.base)))
      && (change.headSha !in s.headChecks ==> verdict == VerdictOf(CurrentChecks(s, id), DeclaredOn(s, change.base)))
  {
    var j := FindsTheFirst(s.shelf.changes, id);
  }

  /** The watch of a ready change, reading this host as it stands with a complete rollup. */
  function WatchNow(s: HostState, id: ChangeId): ReadyEnd {
    WatchReady(CurrentChecks(s, id), Some(RequiredChecksOn(s)), true)
  }

  /** What a standing holds a change to beyond what the watch does: the names marked on head
      commits' own checks that nothing else marks, where the scenario declares nothing. */
  function HeldBesides(s: HostState): set<string> {
    if s.seeds.required.Some? then {} else HeadRequired(s.headChecks) - SeededRequired(s.seeds)
  }

  /** What more required names change of where a reading ends: nothing of a red one, a settled one
      exactly where each of them passed, and an unsettled one exactly where none of them failed. */
  lemma MoreNamesAgreeIff(checks: seq<Check>, names: set<string>, more: set<string>)
    requires names !! more
    ensures var watch := WatchReady(checks, Some(Requirement(names, true)), true);
      EndOf(VerdictOf(checks, Some(names + more))) == watch <==> AgreesOver(checks, more, watch)
  {
    var watch := WatchReady(checks, Some(Requirement(names, true)), true);
    var few, all := Rest(names, checks), Rest(names + more, checks);
    assert Standings(checks, Given(DeclaredRequired(Some(Requirement(names, true))), true, checks)) == few;
    assert forall n :: n in few ==> n in all && all[n] == few[n];
    RedIffSomeFailed(few);
    RedIffSomeFailed(all);
    if watch.RedEnd? {
      var n :| n in few && few[n] == Some(Failed);
      assert Red(all);
    } else if watch.Settled? {
      MoreNamesSettleIff(checks, names, more);
    } else {
      MoreNamesStayUnsettledIff(checks, names, more);
    }
  }

  predicate AgreesOver(checks: seq<Check>, more: set<string>, watch: ReadyEnd) {
    match watch
    case RedEnd => true
    case Settled(_) => forall n :: n in more ==> Worst(checks, n) == Some(Passed)
    case Unsettled => forall n :: n in more ==> Worst(checks, n) != Some(Failed)
  }

  lemma MoreNamesSettleIff(checks: seq<Check>, names: set<string>, more: set<string>)
    requires names !! more && WatchReady(checks, Some(Requirement(names, true)), true).Settled?
    ensures EndOf(VerdictOf(checks, Some(names + more))) == WatchReady(checks, Some(Requirement(names, true)), true) <==>
      forall n :: n in more ==> Worst(checks, n) == Some(Passed)
  {
    var few, all := Rest(names, checks), Rest(names + more, checks);
    assert forall n :: n in names ==> all[n] == few[n] && few[n] in LETS_THROUGH;
    if forall n :: n in more ==> Worst(checks, n) == Some(Passed) {
      assert forall n :: n in all ==> all[n] in LETS_THROUGH && (n in names <==> n in few);
      assert Named(all, {Some(Failed)}) == {};
      assert Named(all, {Some(Skipped)}) == Named(few, {Some(Skipped)});
      if names + more != {} {
        var n :| n in names + more;
        assert n in all;
      }
    } else {
      var n :| n in more && Worst(checks, n) != Some(Passed);
      assert n in all && n !in few && all[n] == Worst(checks, n);
      assert n !in Named(few, {Some(Skipped)});
      assert all[n] == Some(Skipped) ==> n in Named(all, {Some(Skipped)});
    }
  }

  lemma MoreNamesStayUnsettledIff(checks: seq<Check>, names: set<string>, more: set<string>)
    requires names !! more && WatchReady(checks, Some(Requirement(names, true)), true).Unsettled?
    ensures EndOf(VerdictOf(checks, Some(names + more))).Unsettled? <==>
      forall n :: n in more ==> Worst(checks, n) != Some(Failed)
  {
    var few, all := Rest(names, checks), Rest(names + more, checks);
    RedIffSomeFailed(few);
    if names != {} {
      var n :| n in names;
      assert n in few;
    }
    var waiting :| waiting in few && few[waiting] !in LETS_THROUGH;
    assert all[waiting] == few[waiting];
    if n :| n in more && Worst(checks, n) == Some(Failed) {
      assert n in Named(all, {Some(Failed)});
    } else {
      assert forall n :: n in all ==> all[n] != Some(Failed);
      assert Named(all, {Some(Failed)}) == {};
    }
  }

  /** Where its base is there and its head carries no checks of its own, a change's standing is
      where the watch of it ends, exactly where the names marked only on other heads change
      nothing. */
  lemma StandingIsTheWatchIff(s: HostState, root: string, id: ChangeId)
    requires StandingOf(s, root, id).Ok? && StandingOf(s, root, id).value.base !in s.shelf.deleted
    requires Find(s.shelf.changes, id).value.headSha !in s.headChecks
    ensures EndOf(StandingOf(s, root, id).value.checks) == WatchNow(s, id) <==>
      AgreesOver(CurrentChecks(s, id), HeldBesides(s), WatchNow(s, id))
  {
    var change := Find(s.shelf.changes, id).value;
    var checks := CurrentChecks(s, id);
    if s.seeds.required.Some? {
      assert DeclaredOn(s, change.base) == DeclaredFor(Some(RequiredChecksOn(s)));
      VerdictIsTheWatch(checks, Some(RequiredChecksOn(s)));
      assert HeldBesides(s) == {};
    } else {
      var names := SeededRequired(s.seeds);
      assert names + HeadRequired(s.headChecks) == names + HeldBesides(s);
      MoreNamesAgreeIff(checks, names, HeldBesides(s));
    }
  }

  /** So they never disagree where the scenario declares what is required, or no head marks a name
      that nothing else does. */
  lemma StandingIsTheWatch(s: HostState, root: string, id: ChangeId)
    requires StandingOf(s, root, id).Ok? && StandingOf(s, root, id).value.base !in s.shelf.deleted
    requires Find(s.shelf.changes, id).value.headSha !in s.headChecks
    requires s.seeds.required.Some? || HeadRequired(s.headChecks) <= SeededRequired(s.seeds)
    ensures EndOf(StandingOf(s, root, id).value.checks) == WatchNow(s, id)
  {
    StandingIsTheWatchIff(s, root, id);
  }

  /** Once the base is gone, a standing reads the marking alone. */
  lemma DeletedBaseReadsTheMarking(s: HostState, root: string, id: ChangeId)
    requires StandingOf(s, root, id).Ok? && StandingOf(s, root, id).value.base in s.shelf.deleted
    ensures StandingOf(s, root, id).value.checks == VerdictOf(ChecksOnHead(s, id), None)
    ensures EndOf(StandingOf(s, root, id).value.checks) == WatchReady(ChecksOnHead(s, id), None, true)
  {
    VerdictIsTheWatch(ChecksOnHead(s, id), None);
  }

  // ---- Where they disagree ----

  const LONE: ChangeId := ChangeId("1")

  /** A host that holds one change and requires one check of it, still running and marked by
      nothing. */
  function OneChange(deleted: set<string>, headChecks: map<Sha, seq<Check>>): HostState {
    HostState(
      Seeds(map[LONE := [Check("build", false, false, None, None)]], map[], map[], map[],
            Some(Requirement({"build"}, true)), None, map[], false, "somebody"),
      Shelf([Change(LONE, "main", Sha(["head"]), "url")], {}, deleted),
      Record(map[], map[], map[]), Drafting(map[], {}, []), Landings(map[], map[], {}), headChecks, [])
  }

  lemma OneChangeIsWatched(deleted: set<string>, headChecks: map<Sha, seq<Check>>)
    ensures var s := OneChange(deleted, headChecks);
      && Find(s.shelf.changes, LONE) == Some(s.shelf.changes[0])
      && CurrentChecks(s, LONE) == [Check("build", false, false, None, None)]
      && WatchNow(s, LONE) == Unsettled
  {
    var s := OneChange(deleted, headChecks);
    var check := Check("build", false, false, None, None);
    assert CurrentChecks(s, LONE) == [check];
    assert Worst([check], "build") == Some(Pending);
    var standing := Standings([check], Names({"build"}));
    assert "build" in standing && standing["build"] == Some(Pending);
  }

  /** A deleted base: the watch waits for the check the scenario requires, and the standing, which
      has only the marking to go by, requires none. */
  lemma DeletedBaseDisagrees()
    ensures var s := OneChange({"main"}, map[]);
      && WatchNow(s, LONE) == Unsettled
      && StandingOf(s, "main", LONE).Ok? && StandingOf(s, "main", LONE).value.checks == NoneRequired
  {
    OneChangeIsWatched({"main"}, map[]);
    var s := OneChange({"main"}, map[]);
    var check := Check("build", false, false, None, None);
    assert ChecksOnHead(s, LONE) == [check];
    assert Rest({}, [check]) == map[];
  }

  /** Checks of the head's own: the watch waits for the change's, and the standing reads the
      head's, which passed. */
  lemma OwnHeadChecksDisagree()
    ensures var s := OneChange({}, map[Sha(["head"]) := [Check("build", true, true, Some(Success), None)]]);
      && WatchNow(s, LONE) == Unsettled
      && StandingOf(s, "main", LONE).Ok? && StandingOf(s, "main", LONE).value.checks == VerdictPassed
  {
    var passed := Check("build", true, true, Some(Success), None);
    var headChecks := map[Sha(["head"]) := [passed]];
    OneChangeIsWatched({}, headChecks);
    var s := OneChange({}, headChecks);
    assert ChecksOnHead(s, LONE) == [passed] && DeclaredOn(s, "main") == Some({"build"});
    assert Worst([passed], "build") == Some(Passed);
    assert Rest({"build"}, [passed]) == map["build" := Some(Passed)];
  }
}
