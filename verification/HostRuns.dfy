/** What every run of the host keeps, whoever moves it. */
module HostRuns {
  import opened Basics
  import opened Checks
  import opened HostDocument
  import BranchNames
  import CheckScript
  import Decimal

  // ---- A merge never moves ----

  ghost predicate MergedAs(s: HostState, id: ChangeId, sha: Sha, at: Option<Stamp>) {
    && id in s.landings.merges && s.landings.merges[id] == Merged(sha)
    && at == (if id in s.landings.times then Some(s.landings.times[id]) else None)
  }

  lemma MergeStandsOneStep(s: HostState, m: Move, id: ChangeId, sha: Sha, at: Option<Stamp>)
    requires MergedAs(s, id, sha, at)
    ensures MergedAs(Step(s, m), id, sha, at)
  {
    if m.Merging? {
      MergingChangesOneLanding(s, m);
    }
  }

  /** What asking for a merge may change: nothing, or the call is recorded, and then one change
      that had not merged lands or is held. */
  lemma MergingChangesOneLanding(s: HostState, m: Move)
    requires m.Merging?
    ensures var t, id := Step(s, m), m.cr.id;
      && t == s.(ledger := t.ledger, landings := t.landings)
      && (t.landings == s.landings
          || (t.landings == Land(s, m.cr, m.now).landings && id !in s.landings.merges && !Drafted(s, id) && m.policy.ChangeDirect?)
          || (t.landings == Land(s, m.cr, m.now).landings
              && (IsQueued(s, id) || (id !in s.landings.merges && !Drafted(s, id))) && HostGreen(s.(ledger := t.ledger), id))
          || (t.landings == Arm(s, id).landings && id !in s.landings.merges && !Drafted(s, id)))
  {
    var called := Called(s, OtherCall("merge"), [m.cr.id]);
    if called.Some? {
      MergeDecidedLands(called.value, m.cr, m.policy, m.now, HostGreen(called.value, m.cr.id));
    }
  }

  lemma MergeDecidedLands(s: HostState, cr: Change, policy: MergePolicy, now: nat, green: bool)
    ensures var t := MergeDecided(s, cr, policy, now, green).0;
      || t == s
      || (t == Land(s, cr, now) && !IsMerged(s, cr.id)
          && ((policy.ChangeDirect? && cr.id !in s.landings.merges)
              || (green && (IsQueued(s, cr.id) || (policy.ChangeAuto? && cr.id !in s.landings.merges)))))
      || (t == Arm(s, cr.id) && cr.id !in s.landings.merges && policy.ChangeAuto?)
  {
  }

  /** Whether asking for a merge leaves the host holding it, as can be seen before it is asked. */
  predicate Arms(s: HostState, id: ChangeId, policy: MergePolicy) {
    policy.ChangeAuto? && !IsBlank(id) && !Drafted(s, id) && id !in s.landings.merges && !HostGreen(s, id)
  }

  /** A merge is judged on what was last read, which asking for it is not. */
  lemma AskingReadsNothing(s: HostState, id: ChangeId)
    ensures HostGreen(s.(ledger := s.ledger + [HostCall(OtherCall("merge"), [id])]), id) == HostGreen(s, id)
  {
    CheckScript.JudgementsUseTheLatestReading(s, [HostCall(OtherCall("merge"), [id])], id);
  }

  lemma DecidingArmsIff(s: HostState, cr: Change, policy: MergePolicy, now: nat, green: bool)
    ensures var t := MergeDecided(s, cr, policy, now, green).0;
      if policy.ChangeAuto? && cr.id !in s.landings.merges && !green then t == Arm(s, cr.id)
      else t.landings.armed <= s.landings.armed && forall id :: IsQueued(t, id) ==> IsQueued(s, id)
  {
  }

  /** The one merge that asking may leave held, and exactly when it does. */
  lemma MergingArmsIff(s: HostState, m: Move)
    requires m.Merging?
    ensures var t := Step(s, m);
      if Arms(s, m.cr.id, m.policy) then t.landings == Arm(s, m.cr.id).landings
      else t.landings.armed <= s.landings.armed && forall id :: IsQueued(t, id) ==> IsQueued(s, id)
  {
    var called := Called(s, OtherCall("merge"), [m.cr.id]);
    if called.Some? {
      AskingReadsNothing(s, m.cr.id);
      DecidingArmsIff(called.value, m.cr, m.policy, m.now, HostGreen(called.value, m.cr.id));
    }
  }

  /** Once a change has merged, no run changes the commit or the moment it merged at. */
  lemma {:induction false} MergeStands(s: HostState, moves: seq<Move>, id: ChangeId, sha: Sha, at: Option<Stamp>)
    requires MergedAs(s, id, sha, at)
    ensures MergedAs(Run(s, moves), id, sha, at)
    decreases |moves|
  {
    if moves != [] {
      MergeStands(s, moves[..|moves| - 1], id, sha, at);
      MergeStandsOneStep(Run(s, moves[..|moves| - 1]), moves[|moves| - 1], id, sha, at);
    }
  }

  /** And every later answer about it is that commit, or a refusal: of a blank identifier, or
      of a merge asked for a change a person merged while it was a draft. */
  lemma LaterAnswersAreThatMerge(s: HostState, moves: seq<Move>, cr: Change, sha: Sha, policy: MergePolicy, now: nat)
    requires cr.id in s.landings.merges && s.landings.merges[cr.id] == Merged(sha)
    ensures var t := Run(s, moves);
      && MergedNow(t, cr, now).1 in {Ok(Some(sha)), Err(Blank)}
      && MergeChange(t, cr, policy, now).1 in {Ok(Merged(sha)), Err(Blank), Err(StillADraft)}
      && (MergeChange(t, cr, policy, now).1 == Err(StillADraft) ==> Drafted(t, cr.id))
      && forall how, at, head :: MergeByPerson(t, cr.id, how, at, head).1.Err?
  {
    var at := if cr.id in s.landings.times then Some(s.landings.times[cr.id]) else None;
    MergeStands(s, moves, cr.id, sha, at);
    assert IsMerged(Run(s, moves), cr.id);
  }

  // ---- Numbering and drafts ----

  /** The host has numbered its change requests consecutively from one. */
  ghost predicate Numbered(s: HostState) {
    forall i :: 0 <= i < |s.shelf.changes| ==> s.shelf.changes[i].id == ChangeId(Decimal.Spell(i + 1))
  }

  /** Nothing is recorded as a draft but changes that were opened. */
  ghost predicate DraftsAreOpened(s: HostState) {
    && (forall id :: id in s.drafting.reasons ==> Opened(s, id))
    && (forall id :: id in s.drafting.awaiting ==> Opened(s, id))
  }

  ghost predicate Consistent(s: HostState) { Numbered(s) && DraftsAreOpened(s) }

  lemma NextIdIsFresh(s: HostState)
    requires Numbered(s)
    ensures !Opened(s, NextId(s))
  {
    if c :| c in s.shelf.changes && c.id == NextId(s) {
      var i :| 0 <= i < |s.shelf.changes| && s.shelf.changes[i] == c;
      Decimal.SpellingIsInjective(i + 1, |s.shelf.changes| + 1);
    }
  }

  lemma NumbersAreDistinct(s: HostState, i: nat, j: nat)
    requires Numbered(s) && i < |s.shelf.changes| && j < |s.shelf.changes| && s.shelf.changes[i].id == s.shelf.changes[j].id
    ensures i == j
  {
    Decimal.SpellingIsInjective(i + 1, j + 1);
  }

  /** Two lists that hold the same changes but for their bases. */
  ghost predicate SameButBases(before: seq<Change>, after: seq<Change>) {
    && |before| <= |after|
    && forall i :: 0 <= i < |before| ==>
         && after[i].id == before[i].id && after[i].headSha == before[i].headSha && after[i].url == before[i].url
  }

  lemma {:induction false} RetargetEachKeeps(changes: seq<Change>, ids: seq<ChangeId>, base: string)
    ensures |RetargetEach(changes, ids, base)| == |changes|
    ensures SameButBases(changes, RetargetEach(changes, ids, base))
    decreases |ids|
  {
    if ids != [] {
      RetargetEachKeeps(changes, ids[..|ids| - 1], base);
    }
  }

  lemma SameChangesAreOpened(s: HostState, t: HostState)
    requires SameButBases(s.shelf.changes, t.shelf.changes)
    ensures forall id :: Opened(s, id) ==> Opened(t, id)
    ensures |t.shelf.changes| == |s.shelf.changes| ==> forall id :: Opened(t, id) ==> Opened(s, id)
  {
    forall id | Opened(s, id)
      ensures Opened(t, id)
    {
      var i :| 0 <= i < |s.shelf.changes| && s.shelf.changes[i].id == id;
      assert t.shelf.changes[i] in t.shelf.changes;
    }
    if |t.shelf.changes| == |s.shelf.changes| {
      forall id | Opened(t, id)
        ensures Opened(s, id)
      {
        var i :| 0 <= i < |t.shelf.changes| && t.shelf.changes[i].id == id;
        assert s.shelf.changes[i] in s.shelf.changes;
      }
    }
  }

  lemma PersonMergingKeepsChanges(s: HostState, m: Move)
    requires m.PersonMerging?
    ensures SameButBases(s.shelf.changes, Step(s, m).shelf.changes)
    ensures |Step(s, m).shelf.changes| == |s.shelf.changes|
  {
    if m.head.HeadDeleted? && MergeByPerson(s, m.id, m.how, m.at, m.head).1.Ok? {
      var change := Find(s.shelf.changes, m.id).value;
      var merged := s.(landings := Step(s, m).landings);
      RetargetEachKeeps(s.shelf.changes, Based(merged, s.shelf.changes, HeadOf(s, m.id)), change.base);
    }
  }

  lemma OpeningAddsOne(s: HostState, m: Move)
    requires m.Opening?
    ensures Step(s, m).shelf.changes == s.shelf.changes
      || Step(s, m).shelf.changes == s.shelf.changes + [NewChange(s, m.slug, m.spec)]
    ensures NewChange(s, m.slug, m.spec).id == NextId(s)
  {
  }

  /** A change opened is the next, is opened, and is no draft where none was asked for. */
  lemma OpensTheNext(s: HostState, slug: string, spec: ChangeSpec)
    ensures var (t, made) := OpenChange(s, slug, spec);
      && (made.Ok? <==> Openable(spec))
      && (made.Ok? ==> made.value.id == NextId(s) && Opened(t, made.value.id))
      && (made.Ok? && Consistent(s) && spec.draft.None? && !spec.awaitingChecks ==> !Drafted(t, made.value.id))
  {
    var (t, made) := OpenChange(s, slug, spec);
    if made.Ok? {
      assert t.shelf.changes[|s.shelf.changes|] == made.value;
      if Numbered(s) {
        NextIdIsFresh(s);
      }
    }
  }

  /** Changes are only ever added, at the end, and keep everything but their base. */
  lemma StepKeepsChanges(s: HostState, m: Move)
    ensures SameButBases(s.shelf.changes, Step(s, m).shelf.changes)
    ensures var n := |s.shelf.changes|;
      || |Step(s, m).shelf.changes| == n
      || (m.Opening? && |Step(s, m).shelf.changes| == n + 1 && Step(s, m).shelf.changes[n].id == NextId(s))
  {
    match m
    case Opening(_, _) =>
      OpeningAddsOne(s, m);
      assert SameButBases(s.shelf.changes, Step(s, m).shelf.changes);
    case Merging(_, _, _) => MergingChangesOneLanding(s, m);
    case PersonMerging(_, _, _, _) => PersonMergingKeepsChanges(s, m);
    case _ => assert Step(s, m).shelf.changes == s.shelf.changes || m.Retargeting? || m.PersonRetargeting?;
  }

  lemma ConsistentAfter(s: HostState, t: HostState)
    requires Consistent(s) && SameButBases(s.shelf.changes, t.shelf.changes)
    requires var n := |s.shelf.changes|;
      |t.shelf.changes| == n || (|t.shelf.changes| == n + 1 && t.shelf.changes[n].id == NextId(s))
    requires forall id :: id in t.drafting.reasons || id in t.drafting.awaiting ==>
      || id in s.drafting.reasons || id in s.drafting.awaiting
      || (|t.shelf.changes| > |s.shelf.changes| && id == NextId(s))
    ensures Consistent(t)
  {
    SameChangesAreOpened(s, t);
    if |t.shelf.changes| > |s.shelf.changes| {
      assert t.shelf.changes[|s.shelf.changes|] in t.shelf.changes;
      assert Opened(t, NextId(s));
    }
  }

  lemma StepKeepsConsistent(s: HostState, m: Move)
    requires Consistent(s)
    ensures Consistent(Step(s, m))
  {
    StepKeepsChanges(s, m);
    StepDraftsOnlyNew(s, m);
    ConsistentAfter(s, Step(s, m));
  }

  /** Only opening records a draft, of the change it opens, and a lift is never taken back. */
  lemma StepDraftsOnlyNew(s: HostState, m: Move)
    ensures var t := Step(s, m);
      && (forall id :: id in t.drafting.reasons || id in t.drafting.awaiting ==>
            || id in s.drafting.reasons || id in s.drafting.awaiting
            || (|t.shelf.changes| > |s.shelf.changes| && id == NextId(s)))
      && s.drafting.madeReady <= t.drafting.madeReady
  {
    if m.Merging? {
      MergingChangesOneLanding(s, m);
    }
  }

  /** Being a draft is a one-way flag: once an opened change is not one, it never is again. */
  lemma NotADraftStaysSoOneStep(s: HostState, m: Move, id: ChangeId)
    requires Consistent(s) && Opened(s, id) && !Drafted(s, id)
    ensures Opened(Step(s, m), id) && !Drafted(Step(s, m), id)
  {
    StepKeepsChanges(s, m);
    SameChangesAreOpened(s, Step(s, m));
    StepDraftsOnlyNew(s, m);
    NextIdIsFresh(s);
  }

  // ---- A merge answered open ----

  /** The host holds an answer of `open` for a change: one a scenario seeded. */
  predicate OpenStored(s: HostState, id: ChangeId) { id in s.landings.merges && s.landings.merges[id] == MergeOutcome.Open }

  /** No move ever stores one. */
  lemma StepStoresNoOpen(s: HostState, m: Move, id: ChangeId)
    requires OpenStored(Step(s, m), id)
    ensures OpenStored(s, id)
  {
    if m.Merging? {
      MergingChangesOneLanding(s, m);
    }
  }

  /** And only a person who merges the change takes one away. */
  lemma OnlyAPersonClearsAnOpen(s: HostState, m: Move, id: ChangeId)
    requires OpenStored(s, id) && !m.PersonMerging?
    ensures OpenStored(Step(s, m), id)
  {
    if m.Merging? {
      MergingChangesOneLanding(s, m);
    }
  }

  /** From a host that stores none, over every run, it stores none. */
  lemma {:induction false} RunStoresNoOpen(s: HostState, moves: seq<Move>, id: ChangeId)
    requires OpenStored(Run(s, moves), id)
    ensures OpenStored(s, id)
    decreases |moves|
  {
    if moves != [] {
      StepStoresNoOpen(Run(s, moves[..|moves| - 1]), moves[|moves| - 1], id);
      RunStoresNoOpen(s, moves[..|moves| - 1], id);
    }
  }

  ghost predicate OpensKept(s: HostState, t: HostState) {
    forall id {:trigger OpenStored(t, id)} {:trigger OpenStored(s, id)} :: OpenStored(s, id) ==> OpenStored(t, id)
  }

  ghost predicate NobodyMerges(moves: seq<Move>) { forall i :: 0 <= i < |moves| ==> !moves[i].PersonMerging? }

  lemma {:induction false} QuietRunKeepsOpens(s: HostState, moves: seq<Move>)
    requires NobodyMerges(moves)
    ensures OpensKept(s, Run(s, moves))
    decreases |moves|
  {
    if moves != [] {
      var before, last := moves[..|moves| - 1], moves[|moves| - 1];
      QuietRunKeepsOpens(s, before);
      forall id | OpenStored(s, id)
        ensures OpenStored(Run(s, moves), id)
      {
        assert OpenStored(Run(s, before), id);
        OnlyAPersonClearsAnOpen(Run(s, before), last, id);
      }
    }
  }

  // ---- What people and other calls may have done meanwhile ----

  /** What an opened change was opened with is still what is recorded of it. */
  ghost predicate OpenedAsBefore(s: HostState, t: HostState, id: ChangeId) {
    && (id in s.record.heads ==> id in t.record.heads && t.record.heads[id] == s.record.heads[id])
    && (id in s.record.titles ==> id in t.record.titles && t.record.titles[id] == s.record.titles[id])
    && (id in s.drafting.reasons ==> id in t.drafting.reasons && t.drafting.reasons[id] == s.drafting.reasons[id])
  }

  /** What no move takes back: a call recorded, a lift, a branch gone, and what a change was opened
      with. */
  ghost predicate NothingTakenBack(s: HostState, t: HostState) {
    && s.ledger <= t.ledger
    && s.drafting.madeReady <= t.drafting.madeReady
    && s.drafting.awaiting <= t.drafting.awaiting
    && s.shelf.deleted <= t.shelf.deleted
    && (Consistent(s) ==> forall id :: Opened(s, id) ==> OpenedAsBefore(s, t, id))
  }

  /** What one publication may rely on of everything that happens between two of its calls. */
  ghost predicate Evolves(s: HostState, t: HostState) {
    && t.seeds == s.seeds
    && SameButBases(s.shelf.changes, t.shelf.changes)
    && NothingTakenBack(s, t)
    && (Consistent(s) ==> Consistent(t))
    && (Consistent(s) ==> forall id :: Opened(s, id) && !Drafted(s, id) ==> !Drafted(t, id))
    && (forall id :: IsMerged(s, id) ==> id in t.landings.merges && t.landings.merges[id] == s.landings.merges[id])
    && (forall id {:trigger OpenStored(t, id)} {:trigger OpenStored(s, id)} :: OpenStored(t, id) ==> OpenStored(s, id))
  }

  lemma OpeningTakesNothingBack(s: HostState, m: Move)
    requires m.Opening?
    ensures NothingTakenBack(s, Step(s, m))
  {
    if Consistent(s) {
      NextIdIsFresh(s);
    }
  }

  /** Where what was recorded stands as it was, nothing is taken back. */
  lemma StandingRecordsAreKept(s: HostState, t: HostState)
    requires s.ledger <= t.ledger && s.drafting.madeReady <= t.drafting.madeReady && s.shelf.deleted <= t.shelf.deleted
    requires t.drafting == s.drafting.(madeReady := t.drafting.madeReady)
    requires t.record.heads == s.record.heads && t.record.titles == s.record.titles
    ensures NothingTakenBack(s, t)
  {
  }

  lemma AskingTakesNothingBack(s: HostState, m: Move)
    requires m.Merging? || m.AskingMerged? || m.Reading? || m.Lifting?
    ensures NothingTakenBack(s, Step(s, m))
  {
    if m.Merging? {
      MergingChangesOneLanding(s, m);
      LedgerGrows(s, m);
    }
    StandingRecordsAreKept(s, Step(s, m));
  }

  lemma LedgerGrows(s: HostState, m: Move)
    requires m.Merging?
    ensures s.ledger <= Step(s, m).ledger
  {
    var called := Called(s, OtherCall("merge"), [m.cr.id]);
    if called.Some? {
      MergeDecidedLands(called.value, m.cr, m.policy, m.now, HostGreen(called.value, m.cr.id));
    }
  }

  lemma MovingTakesNothingBack(s: HostState, m: Move)
    requires m.Retargeting? || m.Reopening? || m.PersonClosing? || m.PersonRetargeting? || m.SettingHeadChecks?
    ensures NothingTakenBack(s, Step(s, m))
  {
    if m.Retargeting? {
      RetargetingShape(s, m.id, m.base, m.body);
    }
    StandingRecordsAreKept(s, Step(s, m));
  }

  lemma StepTakesNothingBack(s: HostState, m: Move)
    ensures NothingTakenBack(s, Step(s, m))
  {
    if m.Opening? {
      OpeningTakesNothingBack(s, m);
    } else if m.Merging? || m.AskingMerged? || m.Reading? || m.Lifting? {
      AskingTakesNothingBack(s, m);
    } else if m.PersonMerging? {
      StandingRecordsAreKept(s, Step(s, m));
    } else {
      MovingTakesNothingBack(s, m);
    }
  }

  lemma NothingTakenBackIsTransitive(s: HostState, t: HostState, u: HostState)
    requires SameButBases(s.shelf.changes, t.shelf.changes) && (Consistent(s) ==> Consistent(t))
    requires NothingTakenBack(s, t) && NothingTakenBack(t, u)
    ensures NothingTakenBack(s, u)
  {
    SameChangesAreOpened(s, t);
    if Consistent(s) {
      forall id | Opened(s, id)
        ensures OpenedAsBefore(s, u, id)
      {
        assert OpenedAsBefore(s, t, id) && OpenedAsBefore(t, u, id);
      }
    }
  }

  lemma OnlyReopeningOpensAgain(s: HostState, m: Move, id: ChangeId)
    requires id in s.shelf.closed && m != Reopening(id)
    ensures id in Step(s, m).shelf.closed
  {
    if m.Merging? {
      MergingChangesOneLanding(s, m);
    } else if m.Retargeting? {
      RetargetingShape(s, m.id, m.base, m.body);
    }
  }

  /** A closing is taken back by a reopening of that change and by nothing else. */
  lemma {:induction false} ClosingsStand(s: HostState, moves: seq<Move>, id: ChangeId)
    requires id in s.shelf.closed && Reopening(id) !in moves
    ensures id in Run(s, moves).shelf.closed
    decreases |moves|
  {
    if moves != [] {
      ClosingsStand(s, moves[..|moves| - 1], id);
      OnlyReopeningOpensAgain(Run(s, moves[..|moves| - 1]), moves[|moves| - 1], id);
    }
  }

  lemma StepKeepsMerges(s: HostState, m: Move)
    ensures forall id :: IsMerged(s, id) ==>
      id in Step(s, m).landings.merges && Step(s, m).landings.merges[id] == s.landings.merges[id]
    ensures forall id {:trigger OpenStored(Step(s, m), id)} {:trigger OpenStored(s, id)} ::
      OpenStored(Step(s, m), id) ==> OpenStored(s, id)
  {
    forall id | IsMerged(s, id)
      ensures id in Step(s, m).landings.merges && Step(s, m).landings.merges[id] == s.landings.merges[id]
    {
      var at := if id in s.landings.times then Some(s.landings.times[id]) else None;
      MergeStandsOneStep(s, m, id, s.landings.merges[id].sha, at);
    }
    forall id | OpenStored(Step(s, m), id)
      ensures OpenStored(s, id)
    {
      StepStoresNoOpen(s, m, id);
    }
  }

  lemma StepEvolves(s: HostState, m: Move)
    ensures Evolves(s, Step(s, m))
  {
    StepKeepsChanges(s, m);
    if Consistent(s) {
      StepKeepsConsistent(s, m);
      forall id | Opened(s, id) && !Drafted(s, id)
        ensures !Drafted(Step(s, m), id)
      {
        NotADraftStaysSoOneStep(s, m, id);
      }
    }
    StepKeepsMerges(s, m);
    StepTakesNothingBack(s, m);
  }

  lemma EvolvesIsTransitive(s: HostState, t: HostState, u: HostState)
    requires Evolves(s, t) && Evolves(t, u)
    ensures Evolves(s, u)
  {
    SameChangesAreOpened(s, t);
    NothingTakenBackIsTransitive(s, t, u);
  }

  lemma {:induction false} RunEvolves(s: HostState, moves: seq<Move>)
    ensures Evolves(s, Run(s, moves))
    decreases |moves|
  {
    if moves != [] {
      RunEvolves(s, moves[..|moves| - 1]);
      StepEvolves(Run(s, moves[..|moves| - 1]), moves[|moves| - 1]);
      EvolvesIsTransitive(s, Run(s, moves[..|moves| - 1]), Run(s, moves));
    }
  }

  // ---- What the host lands itself ----

  /** A merge this host holds is of an opened change that is not a draft. */
  ghost predicate QueuedAreLifted(s: HostState) {
    forall id :: IsQueued(s, id) ==> Opened(s, id) && !Drafted(s, id)
  }

  /** What keeps one move from leaving the host holding a merge of no lifted change: a merge it
      would be left holding names a change that was opened. */
  ghost predicate LeavesQueuedLifted(s: HostState, m: Move) {
    m.Merging? && Arms(s, m.cr.id, m.policy) ==> Opened(s, m.cr.id)
  }

  lemma StepQueuesOnlyWhatItArms(s: HostState, m: Move, id: ChangeId)
    requires IsQueued(Step(s, m), id) && !IsQueued(s, id)
    ensures m.Merging? && m.cr.id == id && Arms(s, id, m.policy)
  {
    if m.Merging? {
      MergingArmsIff(s, m);
    }
  }

  lemma QueuedIsLiftedAfter(s: HostState, m: Move, id: ChangeId)
    requires Consistent(s) && QueuedAreLifted(s) && LeavesQueuedLifted(s, m) && IsQueued(Step(s, m), id)
    ensures Opened(Step(s, m), id) && !Drafted(Step(s, m), id)
  {
    if !IsQueued(s, id) {
      StepQueuesOnlyWhatItArms(s, m, id);
    }
    NotADraftStaysSoOneStep(s, m, id);
  }

  /** One move leaves every held merge one of a lifted change exactly where it meets that. */
  lemma StepKeepsQueuedLiftedIff(s: HostState, m: Move)
    requires Consistent(s) && QueuedAreLifted(s)
    ensures QueuedAreLifted(Step(s, m)) <==> LeavesQueuedLifted(s, m)
  {
    if LeavesQueuedLifted(s, m) {
      forall id | IsQueued(Step(s, m), id)
        ensures Opened(Step(s, m), id) && !Drafted(Step(s, m), id)
      {
        QueuedIsLiftedAfter(s, m, id);
      }
    } else {
      MergingArmsIff(s, m);
      MergingChangesOneLanding(s, m);
      assert IsQueued(Step(s, m), m.cr.id) && !Opened(Step(s, m), m.cr.id);
    }
  }

  ghost predicate AllLeaveQueuedLifted(s: HostState, moves: seq<Move>) {
    forall i :: 0 <= i < |moves| ==> LeavesQueuedLifted(Run(s, moves[..i]), moves[i])
  }

  /** What the host reports on a change as it is asked: something is required, marked or declared by
      the scenario, and no run of a required name failed, is running still or ended without a
      verdict. */
  ghost predicate NothingRequiredIsHeldUp(s: HostState, id: ChangeId) {
    var checks, declared := CurrentChecks(s, id), if s.seeds.required.Some? then s.seeds.required.value.checks else {};
    && (exists n :: IsRequiredName(checks, declared, n))
    && forall n :: IsRequiredName(checks, declared, n) ==> RunsLetThrough(checks, n)
  }

  lemma HostGreenIff(s: HostState, id: ChangeId)
    ensures HostGreen(s, id) <==> NothingRequiredIsHeldUp(s, id)
  {
    RequiredChecksGreenIff(CurrentChecks(s, id), if s.seeds.required.Some? then s.seeds.required.value.checks else {});
  }

  /** Every landing the host itself performs is of a change that is not a draft, and that was
      either asked for directly or held up by nothing required at that moment. */
  ghost predicate LandsWellAt(s: HostState, m: Move) {
    forall id :: !IsMerged(s, id) && IsMerged(Step(s, m), id) && !m.PersonMerging? ==>
      && !Drafted(s, id)
      && ((m.Merging? && m.cr.id == id && m.policy == ChangeDirect)
          || NothingRequiredIsHeldUp(s.(ledger := Step(s, m).ledger), id))
  }

  lemma StepLandsWell(s: HostState, m: Move)
    requires QueuedAreLifted(s)
    ensures LandsWellAt(s, m)
  {
    forall id | !IsMerged(s, id) && IsMerged(Step(s, m), id) && !m.PersonMerging?
      ensures !Drafted(s, id)
      ensures (m.Merging? && m.cr.id == id && m.policy == ChangeDirect)
        || NothingRequiredIsHeldUp(s.(ledger := Step(s, m).ledger), id)
    {
      HostGreenIff(s.(ledger := Step(s, m).ledger), id);
      if m.Merging? {
        MergingChangesOneLanding(s, m);
      } else {
        OnlyAskingLandsBesides(s, m, id);
      }
    }
  }

  /** Besides a merge and a person, only being asked about a held merge makes a change merged. */
  lemma OnlyAskingLandsBesides(s: HostState, m: Move, id: ChangeId)
    requires !IsMerged(s, id) && IsMerged(Step(s, m), id) && !m.PersonMerging? && !m.Merging?
    ensures IsQueued(s, id) && HostGreen(s.(ledger := Step(s, m).ledger), id)
  {
    assert m.AskingMerged?;
    var t := Called(s, OtherCall("merged_at"), [m.cr.id]).value;
    assert s.(ledger := Step(s, m).ledger) == t;
  }

  /** What one landing by the host stores: the commit of that change, at the host's own time, held no
      longer, and nothing of any other change. */
  ghost predicate LandedBetween(s: HostState, t: HostState, cr: Change, sha: Sha, now: nat) {
    && sha == Sha(["merge", cr.id.text, cr.url])
    && IsMerged(t, cr.id) && t.landings.merges[cr.id] == Merged(sha)
    && cr.id in t.landings.times && t.landings.times[cr.id] == Moment(now)
    && cr.id !in t.landings.armed
    && (forall id :: id != cr.id ==> (IsMerged(t, id) <==> IsMerged(s, id)) && (IsQueued(t, id) <==> IsQueued(s, id)))
    && t == s.(ledger := t.ledger, landings := t.landings)
  }

  lemma AskingWhetherMergedReadsNothing(s: HostState, id: ChangeId)
    ensures HostGreen(s.(ledger := s.ledger + [HostCall(OtherCall("merged_at"), [id])]), id) == HostGreen(s, id)
  {
    CheckScript.JudgementsUseTheLatestReading(s, [HostCall(OtherCall("merged_at"), [id])], id);
  }

  /** Asked whether a change has merged, the host lands one it holds that nothing required holds up,
      and answers the commit it then stores; of any other it answers the commit stored, or none. */
  lemma AskedItLandsIff(s: HostState, cr: Change, now: nat)
    requires !IsBlank(cr.id)
    ensures var (t, answer) := MergedNow(s, cr, now);
      if IsQueued(s, cr.id) && NothingRequiredIsHeldUp(s, cr.id) then
        answer.Ok? && answer.value.Some? && LandedBetween(s, t, cr, answer.value.value, now)
      else
        && t.landings == s.landings
        && (answer == Ok(None) || (answer.Ok? && answer.value.Some? && IsMerged(s, cr.id)
              && s.landings.merges[cr.id] == Merged(answer.value.value)))
        && (IsMerged(s, cr.id) ==> answer != Ok(None))
  {
    HostGreenIff(s, cr.id);
    AskingWhetherMergedReadsNothing(s, cr.id);
  }

  /** Whether the host lands a change it is asked to merge, as can be seen before it is asked. */
  ghost predicate LandsWhenAsked(s: HostState, id: ChangeId, policy: MergePolicy) {
    && !IsBlank(id) && !((policy.ChangeAuto? || policy.ChangeDirect?) && Drafted(s, id))
    && ((id in s.landings.armed && IsQueued(s, id) && NothingRequiredIsHeldUp(s, id))
        || (id !in s.landings.merges && (policy.ChangeDirect? || (policy.ChangeAuto? && NothingRequiredIsHeldUp(s, id)))))
  }

  lemma DecidingLandsIff(s: HostState, cr: Change, policy: MergePolicy, now: nat, green: bool)
    ensures var (t, answer) := MergeDecided(s, cr, policy, now, green);
      if (cr.id in s.landings.armed && IsQueued(s, cr.id) && green)
         || (cr.id !in s.landings.merges && (policy.ChangeDirect? || (policy.ChangeAuto? && green)))
      then answer.Ok? && answer.value.Merged? && LandedBetween(s, t, cr, answer.value.sha, now)
      else forall id :: IsMerged(t, id) ==> IsMerged(s, id) && t.landings.merges[id] == s.landings.merges[id]
  {
  }

  /** Asked to merge a change, the host lands it exactly where it holds it green, or has decided
      nothing of it and the policy asks for it now, or for it once green and it is. */
  lemma MergingLandsIff(s: HostState, cr: Change, policy: MergePolicy, now: nat)
    ensures var (t, answer) := MergeChange(s, cr, policy, now);
      if LandsWhenAsked(s, cr.id, policy) then answer.Ok? && answer.value.Merged? && LandedBetween(s, t, cr, answer.value.sha, now)
      else forall id :: IsMerged(t, id) ==> IsMerged(s, id) && t.landings.merges[id] == s.landings.merges[id]
  {
    HostGreenIff(s, cr.id);
    AskingReadsNothing(s, cr.id);
    var called := Called(s, OtherCall("merge"), [cr.id]);
    if called.Some? {
      DecidingLandsIff(called.value, cr, policy, now, HostGreen(called.value, cr.id));
    }
  }

  /** Over every run of such moves, from a host that holds no merge of a draft, no queued change
      is ever a draft and every landing is of a lifted one. */
  lemma {:induction false} HostLandsOnlyLiftedChanges(s: HostState, moves: seq<Move>)
    requires Consistent(s) && QueuedAreLifted(s) && AllLeaveQueuedLifted(s, moves)
    ensures Consistent(Run(s, moves)) && QueuedAreLifted(Run(s, moves))
    ensures forall i :: 0 <= i < |moves| ==> LandsWellAt(Run(s, moves[..i]), moves[i])
    decreases |moves|
  {
    if moves != [] {
      var before := moves[..|moves| - 1];
      assert forall i :: 0 <= i < |before| ==> before[..i] == moves[..i];
      HostLandsOnlyLiftedChanges(s, before);
      StepKeepsConsistent(Run(s, before), moves[|moves| - 1]);
      StepKeepsQueuedLiftedIff(Run(s, before), moves[|moves| - 1]);
      forall i | 0 <= i < |moves|
        ensures LandsWellAt(Run(s, moves[..i]), moves[i])
      {
        if i == |before| {
          StepLandsWell(Run(s, before), moves[i]);
        }
      }
    }
  }

  /** A merge asked of a change not opened yet is held, and the change may then be opened under
      that number as a draft. */
  lemma UnopenedMergeQueuesADraft(s: HostState, cr: Change, slug: string, spec: ChangeSpec)
    requires Consistent(s) && cr.id == NextId(s) && Arms(s, cr.id, ChangeAuto)
    requires spec.awaitingChecks && spec.draft.None? && cr.id !in s.drafting.madeReady && Openable(spec)
    ensures var t := Step(Step(s, Merging(cr, ChangeAuto, 0)), Opening(slug, spec));
      IsQueued(t, cr.id) && Drafted(t, cr.id)
  {
    var m := Merging(cr, ChangeAuto, 0);
    MergingArmsIff(s, m);
    MergingChangesOneLanding(s, m);
    NextIdIsFresh(s);
    assert NextId(Step(s, m)) == NextId(s);
  }

  // ---- No open change targets a deleted branch ----

  ghost predicate NoDangling(s: HostState) {
    forall i :: 0 <= i < |s.shelf.changes| && IsOpen(s, s.shelf.changes[i].id) ==> s.shelf.changes[i].base !in s.shelf.deleted
  }

  /** What keeps one move from leaving an open change on a deleted branch, as whoever makes it
      can see before it: a change is opened on, and moved by a person onto, a branch that is
      there; and dependants are moved off a deleted head onto one that is not that head. */
  ghost predicate LeavesNoneDangling(s: HostState, m: Move) {
    match m
    case Opening(slug, spec) =>
      Openable(spec) && IsOpen(s, NextId(s)) ==> spec.base !in s.shelf.deleted
    case PersonRetargeting(id, base) =>
      BranchNames.NamedBranch(base) && Opened(s, id) && IsOpen(s, id) ==> base !in s.shelf.deleted
    case PersonMerging(id, how, at, HeadDeleted(RetargetThem)) =>
      at.Moment? && IsOpen(s, id) && Find(s.shelf.changes, id).Some? && Find(s.shelf.changes, id).value.base == HeadOf(s, id) ==>
        forall c :: c in s.shelf.changes && c.base == HeadOf(s, id) && c.id != id ==> !IsOpen(s, c.id)
    case _ => true
  }

  /** Where numbers are distinct, a retarget moves exactly the change it names. */
  lemma {:induction false} RetargetMovesOne(changes: seq<Change>, id: ChangeId, base: string, i: nat)
    requires i < |changes| && forall a, b :: 0 <= a < b < |changes| ==> changes[a].id != changes[b].id
    ensures RetargetIn(changes, id, base)[i] ==
      if changes[i].id == id then changes[i].(base := base) else changes[i]
    decreases |changes|
  {
    if i > 0 && changes[0].id != id {
      RetargetMovesOne(changes[1..], id, base, i - 1);
    }
  }

  lemma {:induction false} RetargetEachMovesThem(changes: seq<Change>, ids: seq<ChangeId>, base: string, i: nat)
    requires i < |changes| && forall a, b :: 0 <= a < b < |changes| ==> changes[a].id != changes[b].id
    ensures |RetargetEach(changes, ids, base)| == |changes|
    ensures RetargetEach(changes, ids, base)[i] ==
      if changes[i].id in ids then changes[i].(base := base) else changes[i]
    decreases |ids|
  {
    RetargetEachKeeps(changes, ids, base);
    if ids != [] {
      var before, last := ids[..|ids| - 1], ids[|ids| - 1];
      assert ids == before + [last];
      RetargetEachMovesThem(changes, before, base, i);
      RetargetEachKeeps(changes, before, base);
      RetargetMovesOne(RetargetEach(changes, before, base), last, base, i);
    }
  }

  lemma NumbersDistinct(s: HostState)
    requires Numbered(s)
    ensures forall a, b :: 0 <= a < b < |s.shelf.changes| ==> s.shelf.changes[a].id != s.shelf.changes[b].id
  {
    forall a, b | 0 <= a < b < |s.shelf.changes|
      ensures s.shelf.changes[a].id != s.shelf.changes[b].id
    {
      Decimal.SpellingIsInjective(a + 1, b + 1);
    }
  }

  lemma OpeningKeepsIff(s: HostState, m: Move)
    requires Numbered(s) && NoDangling(s) && m.Opening?
    ensures NoDangling(Step(s, m)) <==> LeavesNoneDangling(s, m)
  {
    var t := Step(s, m);
    if OpenChange(s, m.slug, m.spec).1.Ok? {
      assert forall id :: IsOpen(t, id) <==> IsOpen(s, id);
      assert t.shelf.changes == s.shelf.changes + [NewChange(s, m.slug, m.spec)];
      var last := |s.shelf.changes|;
      assert t.shelf.changes[last].base == m.spec.base && t.shelf.changes[last].id == NextId(s);
    }
  }

  lemma RetargetingKeepsIff(s: HostState, t: HostState, id: ChangeId, base: string)
    requires Numbered(s) && NoDangling(s) && Opened(s, id)
    requires t.shelf.changes == RetargetIn(s.shelf.changes, id, base)
    requires t.shelf.deleted == s.shelf.deleted && t.shelf.closed == s.shelf.closed && t.landings.merges == s.landings.merges
    ensures NoDangling(t) <==> (IsOpen(s, id) ==> base !in s.shelf.deleted)
  {
    NumbersDistinct(s);
    forall i | 0 <= i < |s.shelf.changes|
      ensures t.shelf.changes[i] == if s.shelf.changes[i].id == id then s.shelf.changes[i].(base := base) else s.shelf.changes[i]
    {
      RetargetMovesOne(s.shelf.changes, id, base, i);
    }
    assert forall x :: IsOpen(t, x) <==> IsOpen(s, x);
    var k :| 0 <= k < |s.shelf.changes| && s.shelf.changes[k].id == id;
    assert t.shelf.changes[k].base == base && t.shelf.changes[k].id == id;
  }

  lemma PersonMergingKeepsIff(s: HostState, m: Move)
    requires Numbered(s) && NoDangling(s) && m.PersonMerging?
    ensures NoDangling(Step(s, m)) <==> LeavesNoneDangling(s, m)
  {
    if MergeByPerson(s, m.id, m.how, m.at, m.head).1.Ok? && m.head.HeadDeleted? {
      DeletingKeepsIff(s, m);
    }
  }

  /** Which identifiers a deleted head's dependants are. */
  lemma {:induction false} BasedIff(s: HostState, changes: seq<Change>, branch: string, id: ChangeId)
    ensures id in Based(s, changes, branch) <==>
      exists i :: 0 <= i < |changes| && changes[i].id == id && changes[i].base == branch && IsOpen(s, id)
    decreases |changes|
  {
    if changes != [] {
      BasedIff(s, changes[1..], branch, id);
      var rest := changes[1..];
      if i :| 0 <= i < |rest| && rest[i].id == id && rest[i].base == branch && IsOpen(s, id) {
        assert changes[i + 1].id == id;
      }
      if i :| 0 <= i < |changes| && changes[i].id == id && changes[i].base == branch && IsOpen(s, id) {
        assert i > 0 ==> rest[i - 1] == changes[i];
      }
    }
  }

  /** What deleting a merged head leaves: its open dependants closed, or moved. */
  lemma DeletingMoves(s: HostState, branch: string, onto: string, dependants: Dependants, i: nat)
    requires Numbered(s) && i < |s.shelf.changes|
    ensures var t, c := DeleteHead(s, branch, onto, dependants), s.shelf.changes[i];
      var follows := c.base == branch && IsOpen(s, c.id);
      && |t.shelf.changes| == |s.shelf.changes|
      && t.shelf.deleted == s.shelf.deleted + {branch} && t.landings == s.landings
      && (dependants.CloseThem? ==> t.shelf.changes[i] == c && (IsOpen(t, c.id) <==> IsOpen(s, c.id) && !follows))
      && (dependants.RetargetThem? ==>
            && t.shelf.changes[i] == (if follows then c.(base := onto) else c)
            && (IsOpen(t, c.id) <==> IsOpen(s, c.id)))
  {
    var c := s.shelf.changes[i];
    var based := Based(s, s.shelf.changes, branch);
    BasedIff(s, s.shelf.changes, branch, c.id);
    NumbersDistinct(s);
    if c.id in based {
      var j :| 0 <= j < |s.shelf.changes| && s.shelf.changes[j].id == c.id && s.shelf.changes[j].base == branch;
      NumbersAreDistinct(s, i, j);
    }
    RetargetEachMovesThem(s.shelf.changes, based, onto, i);
  }

  lemma DeletingKeepsIff(s: HostState, m: Move)
    requires Numbered(s) && NoDangling(s) && m.PersonMerging? && m.head.HeadDeleted?
    requires MergeByPerson(s, m.id, m.how, m.at, m.head).1.Ok?
    ensures NoDangling(Step(s, m)) <==> LeavesNoneDangling(s, m)
  {
    var t := Step(s, m);
    var change, branch := Find(s.shelf.changes, m.id).value, HeadOf(s, m.id);
    var merged := s.(landings := t.landings);
    var k :| 0 <= k < |s.shelf.changes| && s.shelf.changes[k] == change;
    assert t == DeleteHead(merged, branch, change.base, m.head.dependants);
    forall i | 0 <= i < |s.shelf.changes|
      ensures var c := s.shelf.changes[i];
        && (IsOpen(merged, c.id) <==> IsOpen(s, c.id) && c.id != m.id)
        && |t.shelf.changes| == |s.shelf.changes| && t.shelf.deleted == s.shelf.deleted + {branch}
        && t.shelf.changes[i].id == c.id
    {
      DeletingMoves(merged, branch, change.base, m.head.dependants, i);
    }
    if m.head.dependants.CloseThem? {
      forall i | 0 <= i < |s.shelf.changes| && IsOpen(t, t.shelf.changes[i].id)
        ensures t.shelf.changes[i].base !in t.shelf.deleted
      {
        DeletingMoves(merged, branch, change.base, CloseThem, i);
      }
    } else {
      RetargetingDependantsKeepsIff(s, merged, t, m.id, change.base, branch);
    }
  }

  lemma RetargetingDependantsKeepsIff(s: HostState, merged: HostState, t: HostState, id: ChangeId, onto: string, branch: string)
    requires Numbered(s) && NoDangling(s) && Numbered(merged) && merged.shelf == s.shelf && onto !in s.shelf.deleted
    requires t == DeleteHead(merged, branch, onto, RetargetThem)
    requires forall i :: 0 <= i < |s.shelf.changes| ==>
      var c := s.shelf.changes[i]; IsOpen(merged, c.id) <==> IsOpen(s, c.id) && c.id != id
    ensures NoDangling(t) <==>
      (onto == branch ==> forall c :: c in s.shelf.changes && c.base == branch && c.id != id ==> !IsOpen(s, c.id))
  {
    forall i | 0 <= i < |s.shelf.changes|
      ensures var c := s.shelf.changes[i];
        && |t.shelf.changes| == |s.shelf.changes| && t.shelf.deleted == s.shelf.deleted + {branch}
        && t.shelf.changes[i] ==
             (if c.base == branch && IsOpen(s, c.id) && c.id != id then c.(base := onto) else c)
        && (IsOpen(t, c.id) <==> IsOpen(s, c.id) && c.id != id)
    {
      DeletingMoves(merged, branch, onto, RetargetThem, i);
    }
    if onto == branch {
      if c :| c in s.shelf.changes && c.base == branch && c.id != id && IsOpen(s, c.id) {
        var i :| 0 <= i < |s.shelf.changes| && s.shelf.changes[i] == c;
        assert t.shelf.changes[i].base == branch && IsOpen(t, t.shelf.changes[i].id);
      }
    }
  }

  /** What a retarget may change: nothing, or the call is recorded, and then the one base and
      that change's body. */
  lemma RetargetingShape(s: HostState, id: ChangeId, base: string, body: Option<string>)
    ensures var (t, answer) := RetargetChange(s, id, base, body);
      && t == s.(ledger := t.ledger, shelf := t.shelf, record := t.record)
      && (t.ledger == s.ledger || (!IsBlank(id) && t.ledger == s.ledger + [HostCall(OtherCall("retarget_change"), [id])]))
      && (answer.Err? ==> t.shelf == s.shelf && t.record == s.record)
      && (answer.Ok? ==>
            && Opened(s, id) && t.shelf == s.shelf.(changes := RetargetIn(s.shelf.changes, id, base))
            && t.record == s.record.(bodies := t.record.bodies) && t.record.bodies.Keys <= s.record.bodies.Keys + {id})
  {
  }

  lemma HostRetargetingKeeps(s: HostState, m: Move)
    requires Numbered(s) && NoDangling(s) && m.Retargeting?
    ensures NoDangling(Step(s, m))
  {
    var t := Step(s, m);
    RetargetingShape(s, m.id, m.base, m.body);
    if RetargetChange(s, m.id, m.base, m.body).1.Ok? {
      RetargetingKeepsIff(s, t, m.id, m.base);
    } else {
      StandingStillKeeps(s, t);
    }
  }

  lemma PersonRetargetingKeepsIff(s: HostState, m: Move)
    requires Numbered(s) && NoDangling(s) && m.PersonRetargeting?
    ensures NoDangling(Step(s, m)) <==> LeavesNoneDangling(s, m)
  {
    if RetargetByPerson(s, m.id, m.base).1.Ok? {
      RetargetingKeepsIff(s, Step(s, m), m.id, m.base);
    }
  }

  /** One move leaves no open change on a deleted branch exactly where it meets its condition. */
  lemma StepKeepsNoDanglingIff(s: HostState, m: Move)
    requires Numbered(s) && NoDangling(s)
    ensures NoDangling(Step(s, m)) <==> LeavesNoneDangling(s, m)
  {
    match m
    case Opening(_, _) => OpeningKeepsIff(s, m);
    case PersonMerging(_, _, _, _) => PersonMergingKeepsIff(s, m);
    case Retargeting(_, _, _) => HostRetargetingKeeps(s, m);
    case PersonRetargeting(_, _) => PersonRetargetingKeepsIff(s, m);
    case Reopening(id) =>
      if ReopenChange(s, id).1.Ok? {
        ReopeningKeeps(s, id);
      }
    case Merging(_, _, _) =>
      MergingChangesOneLanding(s, m);
      StandingStillKeeps(s, Step(s, m));
    case _ => StandingStillKeeps(s, Step(s, m));
  }

  /** Changes that stay where they are, none of them opened again, dangle no more than before. */
  lemma StandingStillKeeps(s: HostState, t: HostState)
    requires NoDangling(s) && t.shelf.changes == s.shelf.changes && t.shelf.deleted == s.shelf.deleted
    requires forall id :: IsOpen(t, id) ==> IsOpen(s, id)
    ensures NoDangling(t)
  {
  }

  lemma ReopeningKeeps(s: HostState, id: ChangeId)
    requires Numbered(s) && NoDangling(s) && ReopenChange(s, id).1.Ok?
    ensures NoDangling(ReopenChange(s, id).0)
  {
    var t := ReopenChange(s, id).0;
    NumbersDistinct(s);
    forall i | 0 <= i < |t.shelf.changes| && IsOpen(t, t.shelf.changes[i].id)
      ensures t.shelf.changes[i].base !in t.shelf.deleted
    {
      if s.shelf.changes[i].id == id {
        var k :| 0 <= k < |s.shelf.changes| && s.shelf.changes[k] == Find(s.shelf.changes, id).value;
        assert i == k;
      } else {
        assert IsOpen(s, s.shelf.changes[i].id);
      }
    }
  }

  ghost predicate AllLeaveNoneDangling(s: HostState, moves: seq<Move>) {
    forall i :: 0 <= i < |moves| ==> LeavesNoneDangling(Run(s, moves[..i]), moves[i])
  }

  /** Over every run of such moves no open change ever targets a deleted branch. */
  lemma {:induction false} NoRunLeavesADanglingChange(s: HostState, moves: seq<Move>)
    requires Consistent(s) && NoDangling(s) && AllLeaveNoneDangling(s, moves)
    ensures NoDangling(Run(s, moves)) && Consistent(Run(s, moves))
    decreases |moves|
  {
    if moves != [] {
      var before := moves[..|moves| - 1];
      assert forall i :: 0 <= i < |before| ==> before[..i] == moves[..i];
      NoRunLeavesADanglingChange(s, before);
      StepKeepsConsistent(Run(s, before), moves[|moves| - 1]);
      StepKeepsNoDanglingIff(Run(s, before), moves[|moves| - 1]);
    }
  }
}
