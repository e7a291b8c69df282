/**
 Which documents a host acts on: what its check refuses, and which calls leave a document the
 next read accepts.
 */
module DocumentCheck {
  import opened Basics
  import opened HostDocument
  import opened HostRuns
  import BranchNames
  import Decimal

  /** What was opened is what records may be kept about. */
  ghost predicate RecordsAreOpened(s: HostState) {
    && (forall id :: id in s.record.heads ==> Opened(s, id))
    && (forall id :: id in s.record.titles ==> Opened(s, id))
    && (forall id :: id in s.record.bodies ==> Opened(s, id))
    && (forall id :: id in s.drafting.reasons ==> Opened(s, id))
    && (forall id :: id in s.drafting.awaiting ==> Opened(s, id))
    && (forall id :: id in s.drafting.madeReady ==> Opened(s, id))
    && (forall id :: id in s.shelf.closed ==> Opened(s, id))
    && (forall id :: id in s.landings.armed ==> Opened(s, id))
  }

  ghost predicate BasesAreNamed(changes: seq<Change>) {
    forall i :: 0 <= i < |changes| ==> BranchNames.NamedBranch(changes[i].base)
  }

  /** Every branch named anywhere is one git would accept. */
  ghost predicate BranchesAreNamed(s: HostState) {
    && BasesAreNamed(s.shelf.changes)
    && (forall id :: id in s.record.heads ==> BranchNames.NamedBranch(s.record.heads[id]))
    && (forall b :: b in s.shelf.deleted ==> BranchNames.NamedBranch(b))
  }

  /** Every other value is one a host could hold. */
  ghost predicate ValuesAreUsable(s: HostState) {
    && (forall i :: 0 <= i < |s.shelf.changes| ==>
          s.shelf.changes[i].id.text != "" && s.shelf.changes[i].headSha.parts != [])
    && (forall id :: id in s.record.titles ==> !OnlyWhitespace(s.record.titles[id]))
    && (forall id :: id in s.drafting.reasons ==> Printable(s.drafting.reasons[id]))
    && (forall id :: id in s.landings.times ==> s.landings.times[id].Moment?)
    && (forall k, id :: 0 <= k < |s.ledger| && id in s.ledger[k].changes ==> !IsBlank(id))
    && (forall id :: id in s.seeds.readings ==> s.seeds.readings[id] != [])
    && (forall id :: id in s.seeds.readingsAfterLift ==> s.seeds.readingsAfterLift[id] != [])
    && (forall id :: id in s.seeds.activity ==> s.seeds.activity[id] != [])
    && (forall id, a :: id in s.seeds.activity && a in s.seeds.activity[id] && a.OnOther? ==> a.head.parts != [])
  }

  ghost predicate Accepted(s: HostState) {
    RecordsAreOpened(s) && BranchesAreNamed(s) && ValuesAreUsable(s)
  }

  /** Whether the host moves a change it is asked to. */
  predicate Retargetable(s: HostState, id: ChangeId, base: string) {
    && !IsBlank(id) && Addressable(base)
    && Opened(s, id) && IsOpen(s, id) && base !in s.shelf.deleted
  }

  /** What one move has to bring, as whoever makes it can see before it: branches git would
      accept, changes that were opened, and a recorded head where a head is deleted. */
  ghost predicate Brings(s: HostState, m: Move) {
    match m
    case Opening(slug, spec) =>
      Openable(spec) ==> BranchNames.NamedBranch(spec.base) && BranchNames.NamedBranch(spec.head)
    case Merging(cr, policy, now) => Arms(s, cr.id, policy) ==> Opened(s, cr.id)
    case Lifting(id) => !IsBlank(id) ==> Opened(s, id)
    case Retargeting(id, base, body) => Retargetable(s, id, base) ==> BranchNames.NamedBranch(base)
    case PersonMerging(id, how, at, HeadDeleted(_)) =>
      Opened(s, id) && at.Moment? && IsOpen(s, id) ==> id in s.record.heads
    case _ => true
  }

  lemma EmptyIsNoBranch()
    ensures !BranchNames.NamedBranch("")
  {
  }

  /** Records kept about changes that are still there, and about at most one new one. */
  lemma RecordsStayOpened(s: HostState, t: HostState, more: set<ChangeId>)
    requires RecordsAreOpened(s) && SameButBases(s.shelf.changes, t.shelf.changes)
    requires forall id :: id in more ==> Opened(t, id)
    requires t.record.heads.Keys <= s.record.heads.Keys + more && t.record.titles.Keys <= s.record.titles.Keys + more
    requires t.record.bodies.Keys <= s.record.bodies.Keys + more
    requires t.drafting.reasons.Keys <= s.drafting.reasons.Keys + more && t.drafting.awaiting <= s.drafting.awaiting + more
    requires forall id :: id in t.drafting.madeReady ==> id in s.drafting.madeReady || id in more
    requires t.shelf.closed <= s.shelf.closed + more && t.landings.armed <= s.landings.armed + more
    ensures RecordsAreOpened(t)
  {
    SameChangesAreOpened(s, t);
    assert forall id :: id in t.record.heads.Keys ==> id in s.record.heads.Keys || id in more;
    assert forall id :: id in t.record.titles.Keys ==> id in s.record.titles.Keys || id in more;
    assert forall id :: id in t.record.bodies.Keys ==> id in s.record.bodies.Keys || id in more;
    assert forall id :: id in t.drafting.reasons.Keys ==> id in s.drafting.reasons.Keys || id in more;
  }

  lemma OpeningKeepsRecords(s: HostState, slug: string, spec: ChangeSpec)
    requires RecordsAreOpened(s) && OpenChange(s, slug, spec).1.Ok?
    ensures RecordsAreOpened(OpenChange(s, slug, spec).0)
  {
    var t := OpenChange(s, slug, spec).0;
    var made := t.shelf.changes[|s.shelf.changes|];
    assert made in t.shelf.changes && made.id == NextId(s);
    RecordsStayOpened(s, t, {NextId(s)});
  }

  lemma OpeningKeepsValues(s: HostState, slug: string, spec: ChangeSpec)
    requires ValuesAreUsable(s) && OpenChange(s, slug, spec).1.Ok?
    ensures ValuesAreUsable(OpenChange(s, slug, spec).0)
  {
    var t, n := OpenChange(s, slug, spec).0, |s.shelf.changes|;
    assert t.shelf.changes == s.shelf.changes + [NewChange(s, slug, spec)];
    assert t.shelf.changes[n].id.text != "";
  }

  lemma OpeningKeepsBranchesIff(s: HostState, slug: string, spec: ChangeSpec)
    requires BranchesAreNamed(s) && OpenChange(s, slug, spec).1.Ok?
    ensures BranchesAreNamed(OpenChange(s, slug, spec).0) <==>
      BranchNames.NamedBranch(spec.base) && BranchNames.NamedBranch(spec.head)
  {
    var t, n := OpenChange(s, slug, spec).0, |s.shelf.changes|;
    assert t.shelf.changes == s.shelf.changes + [NewChange(s, slug, spec)];
    assert t.shelf.changes[n].base == spec.base;
    assert NextId(s) in t.record.heads && t.record.heads[NextId(s)] == spec.head;
  }

  lemma OpeningKeepsAcceptedIff(s: HostState, slug: string, spec: ChangeSpec)
    requires Accepted(s)
    ensures Accepted(OpenChange(s, slug, spec).0) <==> Brings(s, Opening(slug, spec))
  {
    if OpenChange(s, slug, spec).1.Ok? {
      OpeningKeepsRecords(s, slug, spec);
      OpeningKeepsValues(s, slug, spec);
      OpeningKeepsBranchesIff(s, slug, spec);
    } else {
      RefusedKeepsAccepted(s, OpenChange(s, slug, spec).0);
    }
  }

  /** A refused call leaves the document as it was but for the call it records. */
  lemma RefusedKeepsAccepted(s: HostState, t: HostState)
    requires Accepted(s) && t == s.(ledger := t.ledger) && s.ledger <= t.ledger
    requires forall k, id :: |s.ledger| <= k < |t.ledger| && id in t.ledger[k].changes ==> !IsBlank(id)
    ensures Accepted(t)
  {
    SameChangesAreOpened(s, t);
    assert forall k :: 0 <= k < |s.ledger| ==> t.ledger[k] == s.ledger[k];
  }

  /** What a call that only moves landings, drafts or the ledger leaves accepted. */
  lemma LandingsKeepAccepted(s: HostState, t: HostState)
    requires Accepted(s) && t == s.(ledger := t.ledger, landings := t.landings) && s.ledger <= t.ledger
    requires forall k, id :: |s.ledger| <= k < |t.ledger| && id in t.ledger[k].changes ==> !IsBlank(id)
    requires forall id :: id in t.landings.times ==> t.landings.times[id].Moment?
    ensures Accepted(t) <==> forall id :: id in t.landings.armed ==> Opened(s, id)
  {
    SameChangesAreOpened(s, t);
    assert forall k :: 0 <= k < |s.ledger| ==> t.ledger[k] == s.ledger[k];
  }

  /** A merge asked for is recorded once, by the name of its change. */
  lemma MergingIsRecorded(s: HostState, m: Move)
    requires m.Merging?
    ensures Step(s, m).ledger == s.ledger
      || (Step(s, m).ledger == s.ledger + [HostCall(OtherCall("merge"), [m.cr.id])] && !IsBlank(m.cr.id))
  {
    var called := Called(s, OtherCall("merge"), [m.cr.id]);
    if called.Some? {
      MergeDecidedLands(called.value, m.cr, m.policy, m.now, HostGreen(called.value, m.cr.id));
    }
  }

  lemma LedgerIsNamed(s: HostState, m: Move)
    requires m.Merging? || m.AskingMerged? || m.Reading?
    ensures var t := Step(s, m);
      s.ledger <= t.ledger && forall k, id :: |s.ledger| <= k < |t.ledger| && id in t.ledger[k].changes ==> !IsBlank(id)
  {
    if m.Merging? {
      MergingIsRecorded(s, m);
    }
  }

  lemma MergingKeepsAcceptedIff(s: HostState, m: Move)
    requires Accepted(s) && m.Merging?
    ensures Accepted(Step(s, m)) <==> Brings(s, m)
  {
    MergingChangesOneLanding(s, m);
    LedgerIsNamed(s, m);
    MergingArmsIff(s, m);
    LandingsKeepAccepted(s, Step(s, m));
  }

  lemma LiftingKeepsRecordsIff(s: HostState, id: ChangeId)
    requires RecordsAreOpened(s) && !IsBlank(id)
    ensures RecordsAreOpened(ReadyForReview(s, id).0) <==> Opened(s, id)
  {
    var t := ReadyForReview(s, id).0;
    SameChangesAreOpened(s, t);
    assert t.drafting.madeReady == s.drafting.madeReady + [id];
    assert forall x :: x in t.drafting.madeReady <==> x in s.drafting.madeReady || x == id;
  }

  lemma LiftingKeepsValues(s: HostState, id: ChangeId)
    requires ValuesAreUsable(s) && !IsBlank(id)
    ensures ValuesAreUsable(ReadyForReview(s, id).0)
  {
    var t := ReadyForReview(s, id).0;
    assert t.ledger == s.ledger + [HostCall(ReadyCall, [id])];
    assert forall k :: 0 <= k < |s.ledger| ==> t.ledger[k] == s.ledger[k];
  }

  lemma LiftingKeepsAcceptedIff(s: HostState, id: ChangeId)
    requires Accepted(s)
    ensures Accepted(ReadyForReview(s, id).0) <==> Brings(s, Lifting(id))
  {
    var t := ReadyForReview(s, id).0;
    if !IsBlank(id) {
      LiftingKeepsRecordsIff(s, id);
      LiftingKeepsValues(s, id);
      assert t.shelf == s.shelf && t.record == s.record;
    }
  }

  /** Values nothing but the shelf and the bodies are kept apart from. */
  lemma ValuesStay(s: HostState, t: HostState)
    requires ValuesAreUsable(s)
    requires SameButBases(s.shelf.changes, t.shelf.changes) && |t.shelf.changes| == |s.shelf.changes|
    requires t.record.titles == s.record.titles && t.drafting == s.drafting && t.landings == s.landings
    requires t.seeds == s.seeds && s.ledger <= t.ledger
    requires forall k, x :: |s.ledger| <= k < |t.ledger| && x in t.ledger[k].changes ==> !IsBlank(x)
    ensures ValuesAreUsable(t)
  {
    assert forall k :: 0 <= k < |s.ledger| ==> t.ledger[k] == s.ledger[k];
  }

  lemma OneBaseMovedIff(changes: seq<Change>, i: nat, base: string)
    requires BasesAreNamed(changes) && i < |changes|
    ensures BasesAreNamed(changes[i := changes[i].(base := base)]) <==> BranchNames.NamedBranch(base)
  {
    var moved := changes[i := changes[i].(base := base)];
    assert moved[i].base == base;
    assert forall j :: 0 <= j < |moved| && j != i ==> moved[j] == changes[j];
  }

  lemma RebasedBranchesIff(s: HostState, t: HostState, id: ChangeId, base: string)
    requires BranchesAreNamed(s) && Opened(s, id)
    requires t.shelf.changes == RetargetIn(s.shelf.changes, id, base)
    requires t.shelf.deleted == s.shelf.deleted && t.record.heads == s.record.heads
    ensures BranchesAreNamed(t) <==> BranchNames.NamedBranch(base)
  {
    var i := FirstIndex(s.shelf.changes, id);
    RetargetMovesTheFirst(s.shelf.changes, id, base, i);
    OneBaseMovedIff(s.shelf.changes, i, base);
  }

  /** Bases moved, and nothing else but what is kept about that change. */
  lemma RebasedKeepsAcceptedIff(s: HostState, t: HostState, id: ChangeId, base: string)
    requires Accepted(s) && Opened(s, id)
    requires t.shelf == s.shelf.(changes := RetargetIn(s.shelf.changes, id, base))
    requires t.record.heads == s.record.heads && t.record.titles == s.record.titles
    requires t.record.bodies.Keys <= s.record.bodies.Keys + {id}
    requires t.drafting == s.drafting && t.landings == s.landings && t.seeds == s.seeds && s.ledger <= t.ledger
    requires forall k, x :: |s.ledger| <= k < |t.ledger| && x in t.ledger[k].changes ==> !IsBlank(x)
    ensures Accepted(t) <==> BranchNames.NamedBranch(base)
  {
    SameChangesAreOpened(s, t);
    RecordsStayOpened(s, t, {id});
    ValuesStay(s, t);
    RebasedBranchesIff(s, t, id, base);
  }

  /** Where the first change by an identifier stands. */
  function FirstIndex(changes: seq<Change>, id: ChangeId): (i: nat)
    requires exists c :: c in changes && c.id == id
    ensures i < |changes| && changes[i].id == id && forall j :: 0 <= j < i ==> changes[j].id != id
  {
    if changes[0].id == id then 0
    else
      assert changes == [changes[0]] + changes[1..];
      var rest := FirstIndex(changes[1..], id);
      assert forall j :: 0 < j <= rest + 1 ==> changes[j] == changes[1..][j - 1];
      rest + 1
  }

  lemma RetargetingKeepsAcceptedIff(s: HostState, id: ChangeId, base: string, body: Option<string>)
    requires Accepted(s)
    ensures Accepted(RetargetChange(s, id, base, body).0) <==>
      (Retargetable(s, id, base) ==> BranchNames.NamedBranch(base))
  {
    RetargetingShape(s, id, base, body);
    var (t, answer) := RetargetChange(s, id, base, body);
    if answer.Ok? {
      RebasedKeepsAcceptedIff(s, t, id, base);
    } else {
      RefusedKeepsAccepted(s, t);
    }
  }

  lemma PersonRetargetingKeepsAccepted(s: HostState, id: ChangeId, base: string)
    requires Accepted(s)
    ensures Accepted(RetargetByPerson(s, id, base).0)
  {
    if RetargetByPerson(s, id, base).1.Ok? {
      RebasedKeepsAcceptedIff(s, RetargetByPerson(s, id, base).0, id, base);
    }
  }

  lemma ClosingOrReopeningKeepsAccepted(s: HostState, t: HostState)
    requires Accepted(s) && t == s.(ledger := t.ledger, shelf := s.shelf.(closed := t.shelf.closed))
    requires forall id :: id in t.shelf.closed ==> id in s.shelf.closed || Opened(s, id)
    requires s.ledger <= t.ledger
    requires forall k, x :: |s.ledger| <= k < |t.ledger| && x in t.ledger[k].changes ==> !IsBlank(x)
    ensures Accepted(t)
  {
    SameChangesAreOpened(s, t);
    RecordsStayOpened(s, t, t.shelf.closed);
    ValuesStay(s, t);
  }

  lemma ReopeningShape(s: HostState, id: ChangeId)
    ensures var t := ReopenChange(s, id).0;
      && t == s.(ledger := t.ledger, shelf := s.shelf.(closed := t.shelf.closed)) && t.shelf.closed <= s.shelf.closed
      && (t.ledger == s.ledger || (!IsBlank(id) && t.ledger == s.ledger + [HostCall(OtherCall("reopen_change"), [id])]))
  {
  }

  lemma ReopeningKeepsAccepted(s: HostState, id: ChangeId)
    requires Accepted(s)
    ensures Accepted(ReopenChange(s, id).0)
  {
    ReopeningShape(s, id);
    ClosingOrReopeningKeepsAccepted(s, ReopenChange(s, id).0);
  }

  lemma ClosingKeepsAccepted(s: HostState, id: ChangeId)
    requires Accepted(s)
    ensures Accepted(CloseUnmerged(s, id).0)
  {
    ClosingOrReopeningKeepsAccepted(s, CloseUnmerged(s, id).0);
  }

  lemma {:induction false} MovedBasesAreNamed(changes: seq<Change>, ids: seq<ChangeId>, base: string)
    requires BranchNames.NamedBranch(base) && BasesAreNamed(changes)
    ensures BasesAreNamed(RetargetEach(changes, ids, base))
    decreases |ids|
  {
    if ids != [] {
      MovedBasesAreNamed(changes, ids[..|ids| - 1], base);
    }
  }

  lemma DependantsAreOpened(s: HostState, branch: string)
    ensures forall id :: id in Based(s, s.shelf.changes, branch) ==> Opened(s, id)
  {
    forall id | id in Based(s, s.shelf.changes, branch)
      ensures Opened(s, id)
    {
      BasedIff(s, s.shelf.changes, branch, id);
      var i :| 0 <= i < |s.shelf.changes| && s.shelf.changes[i].id == id;
      assert s.shelf.changes[i] in s.shelf.changes;
    }
  }

  lemma DeletingKeepsBranchesIff(s: HostState, branch: string, onto: string, dependants: Dependants)
    requires BranchesAreNamed(s) && BranchNames.NamedBranch(onto)
    ensures BranchesAreNamed(DeleteHead(s, branch, onto, dependants)) <==> BranchNames.NamedBranch(branch)
  {
    MovedBasesAreNamed(s.shelf.changes, Based(s, s.shelf.changes, branch), onto);
    assert branch in DeleteHead(s, branch, onto, dependants).shelf.deleted;
  }

  /** A deleted head leaves an accepted document exactly where its name is one. */
  lemma DeletingKeepsAcceptedIff(s: HostState, branch: string, onto: string, dependants: Dependants)
    requires Accepted(s) && BranchNames.NamedBranch(onto)
    ensures Accepted(DeleteHead(s, branch, onto, dependants)) <==> BranchNames.NamedBranch(branch)
  {
    var t := DeleteHead(s, branch, onto, dependants);
    var based := Based(s, s.shelf.changes, branch);
    RetargetEachKeeps(s.shelf.changes, based, onto);
    SameChangesAreOpened(s, t);
    DependantsAreOpened(s, branch);
    RecordsStayOpened(s, t, set id | id in based);
    ValuesStay(s, t);
    DeletingKeepsBranchesIff(s, branch, onto, dependants);
  }

  /** What a person's merge leaves before anything becomes of its head. */
  lemma RecordingAMergeKeepsAccepted(s: HostState, id: ChangeId, sha: Sha, at: Stamp)
    requires Accepted(s) && at.Moment?
    ensures Accepted(s.(landings := s.landings.(merges := s.landings.merges[id := Merged(sha)], times := s.landings.times[id := at])))
  {
    LandingsKeepAccepted(s, s.(landings := s.landings.(merges := s.landings.merges[id := Merged(sha)], times := s.landings.times[id := at])));
  }

  lemma FoundBaseIsNamed(s: HostState, id: ChangeId)
    requires BranchesAreNamed(s) && Find(s.shelf.changes, id).Some?
    ensures BranchNames.NamedBranch(Find(s.shelf.changes, id).value.base)
  {
    var i :| 0 <= i < |s.shelf.changes| && s.shelf.changes[i] == Find(s.shelf.changes, id).value;
  }

  lemma PersonMergingKeepsAcceptedIff(s: HostState, m: Move)
    requires Accepted(s) && m.PersonMerging?
    ensures Accepted(Step(s, m)) <==> Brings(s, m)
  {
    if Find(s.shelf.changes, m.id).Some? && m.at.Moment? && IsOpen(s, m.id) {
      var change := Find(s.shelf.changes, m.id).value;
      var sha := Sha(["person-merge", m.how, m.id.text, change.url]);
      var merged := s.(landings := s.landings.(
        merges := s.landings.merges[m.id := Merged(sha)], times := s.landings.times[m.id := m.at]));
      RecordingAMergeKeepsAccepted(s, m.id, sha, m.at);
      if m.head.HeadDeleted? {
        FoundBaseIsNamed(s, m.id);
        EmptyIsNoBranch();
        DeletingKeepsAcceptedIff(merged, HeadOf(s, m.id), change.base, m.head.dependants);
        assert Step(s, m) == DeleteHead(merged, HeadOf(s, m.id), change.base, m.head.dependants);
      }
    }
  }

  lemma AskingKeepsAccepted(s: HostState, cr: Change, now: nat)
    requires Accepted(s)
    ensures Accepted(MergedNow(s, cr, now).0)
  {
    LedgerIsNamed(s, AskingMerged(cr, now));
    LandingsKeepAccepted(s, MergedNow(s, cr, now).0);
  }

  lemma ReadingKeepsAccepted(s: HostState, m: Move)
    requires Accepted(s) && m.Reading?
    ensures Accepted(Step(s, m))
  {
    LedgerIsNamed(s, m);
    RefusedKeepsAccepted(s, Step(s, m));
  }

  lemma HeadChecksKeepAccepted(s: HostState, m: Move)
    requires Accepted(s) && m.SettingHeadChecks?
    ensures Accepted(Step(s, m))
  {
    SameChangesAreOpened(s, Step(s, m));
  }

  /** Every move leaves a document the next read accepts exactly where it brings what it has to:
      the check is inductive for every other. */
  lemma StepKeepsAcceptedIff(s: HostState, m: Move)
    requires Accepted(s)
    ensures Accepted(Step(s, m)) <==> Brings(s, m)
  {
    match m
    case Opening(slug, spec) => OpeningKeepsAcceptedIff(s, slug, spec);
    case Merging(_, _, _) => MergingKeepsAcceptedIff(s, m);
    case Lifting(id) => LiftingKeepsAcceptedIff(s, id);
    case Retargeting(id, base, body) => RetargetingKeepsAcceptedIff(s, id, base, body);
    case PersonRetargeting(id, base) => PersonRetargetingKeepsAccepted(s, id, base);
    case PersonMerging(_, _, _, _) => PersonMergingKeepsAcceptedIff(s, m);
    case Reopening(id) => ReopeningKeepsAccepted(s, id);
    case PersonClosing(id) => ClosingKeepsAccepted(s, id);
    case Reading(_, _) => ReadingKeepsAccepted(s, m);
    case AskingMerged(cr, now) => AskingKeepsAccepted(s, cr, now);
    case SettingHeadChecks(_, _) => HeadChecksKeepAccepted(s, m);
  }

  ghost predicate AllBring(s: HostState, moves: seq<Move>) {
    forall i :: 0 <= i < |moves| ==> Brings(Run(s, moves[..i]), moves[i])
  }

  /** Over every run of such moves, each document is one the next read accepts. */
  lemma {:induction false} EveryRunIsAccepted(s: HostState, moves: seq<Move>)
    requires Accepted(s) && AllBring(s, moves)
    ensures Accepted(Run(s, moves))
    decreases |moves|
  {
    if moves != [] {
      var before := moves[..|moves| - 1];
      assert forall i :: 0 <= i < |before| ==> before[..i] == moves[..i];
      EveryRunIsAccepted(s, before);
      StepKeepsAcceptedIff(Run(s, before), moves[|moves| - 1]);
    }
  }

  /** In a file each move is made on what the check let through of the last one saved. */
  ghost function InAFile(s: HostState, moves: seq<Move>): HostState {
    if moves == [] then s
    else
      var before := InAFile(s, moves[..|moves| - 1]);
      if Accepted(before) then Step(before, moves[|moves| - 1]) else before
  }

  /** A host kept in a file and one kept in memory hold one document over every such run. */
  lemma {:induction false} FileKeepsUpWithMemory(s: HostState, moves: seq<Move>)
    requires Accepted(s) && AllBring(s, moves)
    ensures InAFile(s, moves) == Run(s, moves)
    decreases |moves|
  {
    if moves != [] {
      var before := moves[..|moves| - 1];
      assert forall i :: 0 <= i < |before| ==> before[..i] == moves[..i];
      FileKeepsUpWithMemory(s, before);
      EveryRunIsAccepted(s, before);
    }
  }

  lemma {:induction false} ARefusedDocumentStays(s: HostState, moves: seq<Move>, more: seq<Move>)
    requires !Accepted(InAFile(s, moves))
    ensures InAFile(s, moves + more) == InAFile(s, moves)
    decreases |more|
  {
    if more == [] {
      assert moves + [] == moves;
    } else {
      var earlier, last := more[..|more| - 1], more[|more| - 1];
      ARefusedDocumentStays(s, moves, earlier);
      OneMoveMore(s, moves + earlier, last);
      assert moves + more == moves + earlier + [last];
    }
  }

  /** The file takes the next move too, whatever it brings, and is stuck on what it leaves from
      the first that brings less. */
  lemma FileIsStuckAfterABadMove(s: HostState, moves: seq<Move>, m: Move, more: seq<Move>)
    requires Accepted(s) && AllBring(s, moves) && !Brings(Run(s, moves), m)
    ensures InAFile(s, moves + [m] + more) == Run(s, moves + [m])
  {
    FileKeepsUpWithMemory(s, moves);
    EveryRunIsAccepted(s, moves);
    OneMoveMore(s, moves, m);
    StepKeepsAcceptedIff(Run(s, moves), m);
    ARefusedDocumentStays(s, moves + [m], more);
  }

  lemma OneMoveMore(s: HostState, moves: seq<Move>, m: Move)
    ensures Run(s, moves + [m]) == Step(Run(s, moves), m)
    ensures InAFile(s, moves + [m]) == if Accepted(InAFile(s, moves)) then Step(InAFile(s, moves), m) else InAFile(s, moves)
  {
    assert (moves + [m])[..|moves|] == moves;
  }

  /** A move that is refused changes nothing but the ledger, so what a reader is answered about
      any change is as it was. */
  lemma RefusedMovesOnlyRecordTheCall(s: HostState, m: Move)
    ensures (m.Opening? && OpenChange(s, m.slug, m.spec).1.Err?)
      || (m.Merging? && MergeChange(s, m.cr, m.policy, m.now).1.Err?)
      || (m.Lifting? && ReadyForReview(s, m.id).1.Err?)
      || (m.Retargeting? && RetargetChange(s, m.id, m.base, m.body).1.Err?)
      || (m.Reopening? && ReopenChange(s, m.id).1.Err?)
      || (m.PersonMerging? && MergeByPerson(s, m.id, m.how, m.at, m.head).1.Err?)
      || (m.PersonClosing? && CloseUnmerged(s, m.id).1.Err?)
      || (m.PersonRetargeting? && RetargetByPerson(s, m.id, m.base).1.Err?)
      ==> Step(s, m) == s.(ledger := Step(s, m).ledger)
  {
    if m.Merging? {
      MergingChangesOneLanding(s, m);
      var called := Called(s, OtherCall("merge"), [m.cr.id]);
    }
  }

  /** What the host takes as an argument is more than what its document may hold: a branch such
      as this one is opened on, and the document it leaves is refused by every later read. */
  lemma AddressableIsNotNamed(s: HostState, slug: string, spec: ChangeSpec)
    requires Accepted(s) && spec.base == "a..b" && OpenChange(s, slug, spec).1.Ok?
    ensures Addressable("a..b") && !Accepted(OpenChange(s, slug, spec).0)
  {
    OpeningKeepsAcceptedIff(s, slug, spec);
    var base := "a..b";
    assert base[1] == '.' && base[2] == '.';
    assert BranchNames.HasPair(base, '.', '.');
  }
}
