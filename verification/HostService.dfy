/**
 The host as it runs: one object whose calls update its document in place. Each call is held
 to what the document becomes and what the caller is answered.
 */
module HostService {
  import opened Basics
  import opened Checks
  import opened HostDocument
  import opened StandingVerdicts
  import BranchNames

  /** How many calls of one kind a ledger holds about a change. */
  function CountCalls(ledger: seq<HostCall>, kind: CallKind, id: ChangeId): nat {
    if ledger == [] then 0
    else
      CountCalls(ledger[..|ledger| - 1], kind, id)
      + (if ledger[|ledger| - 1].kind == kind && id in ledger[|ledger| - 1].changes then 1 else 0)
  }

  /** One scripted answer about a change's head: whether work is running on that very head, or
      `None` where it is scripted to refuse. */
  function Answering(a: Activity, cr: Change): Option<bool> {
    match a
    case OnHead(yes) => Some(yes)
    case OnOther(head, yes) => Some(yes && head == cr.headSha)
    case ActivityRefused => None
  }

  /** What the script answers the call in hand. Unscripted, nothing is running. */
  function Running(s: HostState, cr: Change): Option<bool> {
    if cr.id !in s.seeds.activity || s.seeds.activity[cr.id] == [] then Some(false)
    else
      var script := s.seeds.activity[cr.id];
      var asked := CountCalls(s.ledger, ActivityCall, cr.id);
      var at := if asked == 0 then 0 else asked - 1;
      Answering(if at < |script| then script[at] else script[|script| - 1], cr)
  }

  lemma {:induction false} CountingCallsOn(ledger: seq<HostCall>, more: seq<HostCall>, kind: CallKind, id: ChangeId)
    ensures CountCalls(ledger + more, kind, id) == CountCalls(ledger, kind, id) + CountCalls(more, kind, id)
    decreases |more|
  {
    if more == [] {
      assert ledger + more == ledger;
    } else {
      CountingCallsOn(ledger, more[..|more| - 1], kind, id);
      assert (ledger + more)[..|ledger + more| - 1] == ledger + more[..|more| - 1];
    }
  }

  lemma {:induction false} OtherCallsCountNothing(calls: seq<HostCall>, kind: CallKind, id: ChangeId)
    requires forall call :: call in calls ==> call.kind != kind || id !in call.changes
    ensures CountCalls(calls, kind, id) == 0
    decreases |calls|
  {
    if calls != [] {
      OtherCallsCountNothing(calls[..|calls| - 1], kind, id);
    }
  }

  /** Asked about a change's head once more, after `k - 1` times and whatever else was called in
      between and since, the host answers entry min(k, length) of its script. */
  lemma KthActivityAnswers(s: HostState, cr: Change, more: seq<HostCall>)
    requires cr.id in s.seeds.activity && s.seeds.activity[cr.id] != []
    requires forall call :: call in more ==> call.kind != ActivityCall || cr.id !in call.changes
    ensures var k, script := CountCalls(s.ledger, ActivityCall, cr.id) + 1, s.seeds.activity[cr.id];
      Running(s.(ledger := s.ledger + [HostCall(ActivityCall, [cr.id])] + more), cr)
        == Answering(script[(if k <= |script| then k else |script|) - 1], cr)
  {
    var call := HostCall(ActivityCall, [cr.id]);
    assert (s.ledger + [call])[..|s.ledger|] == s.ledger;
    CountingCallsOn(s.ledger + [call], more, ActivityCall, cr.id);
    OtherCallsCountNothing(more, ActivityCall, cr.id);
  }

  /** The unmerged changes from `head` onto `base`, in the order they were opened. */
  function Matching(s: HostState, changes: seq<Change>, head: string, base: string): seq<Change> {
    if changes == [] then []
    else
      var before, c := Matching(s, changes[..|changes| - 1], head, base), changes[|changes| - 1];
      if c.base == base && HasHead(s, c.id, head) && !IsMerged(s, c.id) then before + [c] else before
  }

  predicate HasHead(s: HostState, id: ChangeId, head: string) { id in s.record.heads && s.record.heads[id] == head }

  lemma {:induction false} MatchingIff(s: HostState, changes: seq<Change>, head: string, base: string, c: Change)
    ensures c in Matching(s, changes, head, base) <==>
      c in changes && c.base == base && HasHead(s, c.id, head) && !IsMerged(s, c.id)
    decreases |changes|
  {
    if changes != [] {
      MatchingIff(s, changes[..|changes| - 1], head, base, c);
      assert changes == changes[..|changes| - 1] + [changes[|changes| - 1]];
    }
  }

  class Host {
    const seeds: Seeds
    var changes: seq<Change>
    var closed: set<ChangeId>
    var deleted: set<string>
    var record: Record
    var drafting: Drafting
    var landings: Landings
    var headChecks: map<Sha, seq<Check>>
    var ledger: seq<HostCall>

    /** The document this host keeps. */
    function Document(): HostState
      reads this
    {
      HostState(seeds, Shelf(changes, closed, deleted), record, drafting, landings, headChecks, ledger)
    }

    constructor (s: HostState)
      ensures Document() == s
    {
      seeds := s.seeds;
      changes, closed, deleted := s.shelf.changes, s.shelf.closed, s.shelf.deleted;
      record, drafting, landings := s.record, s.drafting, s.landings;
      headChecks, ledger := s.headChecks, s.ledger;
    }

    /** One call recorded, unless it names a change by no identifier. */
    method Call(kind: CallKind, ids: seq<ChangeId>) returns (ok: bool)
      modifies this`ledger
      ensures ok == Called(old(Document()), kind, ids).Some?
      ensures Document() == if ok then Called(old(Document()), kind, ids).value else old(Document())
    {
      if exists id :: id in ids && IsBlank(id) {
        return false;
      }
      ledger := ledger + [HostCall(kind, ids)];
      return true;
    }

    /** Who the host believes is calling. */
    method AuthenticatedUser() returns (r: Result<string, Refusal>)
      modifies this`ledger
      ensures Document() == Step(old(Document()), Reading(OtherCall("authenticated_user"), []))
      ensures r == if OnlyWhitespace(seeds.authenticatedUser) then Err(NobodyAuthenticated) else Ok(seeds.authenticatedUser)
    {
      var ok := Call(OtherCall("authenticated_user"), []);
      if OnlyWhitespace(seeds.authenticatedUser) {
        return Err(NobodyAuthenticated);
      }
      return Ok(seeds.authenticatedUser);
    }

    method Open(slug: string, spec: ChangeSpec) returns (r: Result<Change, Refusal>)
      modifies this
      ensures (Document(), r) == OpenChange(old(Document()), slug, spec)
    {
      ledger := ledger + [HostCall(OtherCall("open_change"), [])];
      if !Addressable(spec.head) || !Addressable(spec.base) {
        return Err(NotAddressable);
      }
      if OnlyWhitespace(spec.title) {
        return Err(Untitled);
      }
      if spec.draft.Some? && !Printable(spec.draft.value) {
        return Err(UnusableReason);
      }
      var change := NewChange(Document(), slug, spec);
      var id := change.id;
      var bodies := record.bodies;
      if spec.body.Some? {
        bodies := bodies[id := spec.body.value];
      }
      record := Record(record.heads[id := spec.head], record.titles[id := spec.title], bodies);
      if spec.draft.Some? {
        drafting := drafting.(reasons := drafting.reasons[id := spec.draft.value]);
      } else if spec.awaitingChecks {
        drafting := drafting.(awaiting := drafting.awaiting + {id});
      }
      changes := changes + [change];
      return Ok(change);
    }

    /** The changes from `head` onto `base` that have not merged, in the order opened. */
    method FindChanges(head: string, base: string) returns (r: Result<seq<Change>, Refusal>)
      modifies this`ledger
      ensures Document() == Step(old(Document()), Reading(OtherCall("find_changes"), []))
      ensures r.Err? <==> !Addressable(head) || !Addressable(base)
      ensures r.Err? ==> r.error == NotAddressable
      ensures r.Ok? ==> r.value == Matching(Document(), changes, head, base)
    {
      var ok := Call(OtherCall("find_changes"), []);
      if !Addressable(head) || !Addressable(base) {
        return Err(NotAddressable);
      }
      var found: seq<Change> := [];
      for i := 0 to |changes|
        invariant found == Matching(Document(), changes[..i], head, base)
      {
        assert changes[..i + 1][..i] == changes[..i];
        var c := changes[i];
        if c.base == base && HasHead(Document(), c.id, head) && !IsMerged(Document(), c.id) {
          found := found + [c];
        }
      }
      assert changes[..|changes|] == changes;
      return Ok(found);
    }

    /** What the checks say now, and whether that is everything posted on the change. */
    method ChangeChecks(id: ChangeId) returns (r: Result<(seq<Check>, bool), Refusal>)
      modifies this`ledger
      ensures Document() == Step(old(Document()), Reading(ChecksCall, [id]))
      ensures r.Ok? ==> r.value.0 == CurrentChecks(Document(), id)
      ensures r.Ok? ==> (r.value.1 <==> CompleteSources(seeds))
      ensures r.Ok? ==> (r.value.1 <==> seeds.sources.None? || StatusChecks in seeds.sources.value)
      ensures r.Err? <==> IsBlank(id) || seeds.sources == Some({})
      ensures r.Err? ==> r.error == if IsBlank(id) then Blank else NoCheckSource
    {
      var ok := Call(ChecksCall, [id]);
      if !ok {
        return Err(Blank);
      }
      var sources := if seeds.sources.Some? then seeds.sources.value else {StatusChecks};
      if sources == {} {
        return Err(NoCheckSource);
      }
      return Ok((CurrentChecks(Document(), id), StatusChecks in sources));
    }

    method Merge(cr: Change, policy: MergePolicy, now: nat) returns (r: Result<MergeOutcome, Refusal>)
      modifies this
      ensures (Document(), r) == MergeChange(old(Document()), cr, policy, now)
    {
      var ok := Call(OtherCall("merge"), [cr.id]);
      if !ok {
        return Err(Blank);
      }
      if (policy.ChangeAuto? || policy.ChangeDirect?) && Drafted(Document(), cr.id) {
        return Err(StillADraft);
      }
      var green := HostGreen(Document(), cr.id);
      if cr.id in landings.armed && IsQueued(Document(), cr.id) && green {
        Lands(cr, now);
        return Ok(Merged(LandingSha(cr)));
      }
      if cr.id in landings.merges {
        return Ok(landings.merges[cr.id]);
      }
      match policy {
        case LocalDirect => r := Ok(MergeOutcome.Open);
        case ChangeOpen => r := Ok(MergeOutcome.Open);
        case ChangeDirect =>
          Lands(cr, now);
          r := Ok(Merged(LandingSha(cr)));
        case ChangeAuto =>
          if green {
            Lands(cr, now);
            r := Ok(Merged(LandingSha(cr)));
          } else {
            landings := landings.(merges := landings.merges[cr.id := Queued], armed := landings.armed + {cr.id});
            r := Ok(Queued);
          }
      }
    }

    /** Record this change as merged now. */
    method Lands(cr: Change, now: nat)
      modifies this`landings
      ensures Document() == Land(old(Document()), cr, now)
    {
      landings := landings.(merges := landings.merges[cr.id := Merged(LandingSha(cr))]);
      landings := landings.(times := landings.times[cr.id := Moment(now)]);
      landings := landings.(armed := landings.armed - {cr.id});
    }

    method MergedAt(cr: Change, now: nat) returns (r: Result<Option<Sha>, Refusal>)
      modifies this
      ensures (Document(), r) == MergedNow(old(Document()), cr, now)
    {
      var ok := Call(OtherCall("merged_at"), [cr.id]);
      if !ok {
        return Err(Blank);
      }
      if IsQueued(Document(), cr.id) && HostGreen(Document(), cr.id) {
        Lands(cr, now);
        return Ok(Some(LandingSha(cr)));
      }
      if IsMerged(Document(), cr.id) {
        return Ok(Some(landings.merges[cr.id].sha));
      }
      return Ok(None);
    }

    method Ready(id: ChangeId) returns (r: Result<(), Refusal>)
      modifies this
      ensures (Document(), r) == ReadyForReview(old(Document()), id)
    {
      var ok := Call(ReadyCall, [id]);
      if !ok {
        return Err(Blank);
      }
      drafting := drafting.(madeReady := drafting.madeReady + [id]);
      return Ok(());
    }

    method IsDraft(id: ChangeId) returns (r: Result<bool, Refusal>)
      modifies this`ledger
      ensures Document() == Step(old(Document()), Reading(OtherCall("is_draft"), [id]))
      ensures r == if IsBlank(id) then Err(Blank) else Ok(Drafted(old(Document()), id))
    {
      var ok := Call(OtherCall("is_draft"), [id]);
      if !ok {
        return Err(Blank);
      }
      return Ok(Drafted(Document(), id));
    }

    method RequiredChecks() returns (r: Requirement)
      modifies this`ledger
      ensures Document() == Step(old(Document()), Reading(OtherCall("required_checks_on"), []))
      ensures r == RequiredChecksOn(old(Document()))
    {
      var ok := Call(OtherCall("required_checks_on"), []);
      return RequiredChecksOn(Document());
    }

    /** Whether anything is running on the change's own head, by the script's entry for this
        call; refused where it is scripted to be, and about another head where it is. */
    method HeadActivity(cr: Change) returns (running: Option<bool>)
      modifies this`ledger
      ensures Document() == Step(old(Document()), Reading(ActivityCall, [cr.id]))
      ensures running == (if IsBlank(cr.id) then None else Running(Document(), cr))
    {
      var ok := Call(ActivityCall, [cr.id]);
      if !ok {
        return None;
      }
      return Running(Document(), cr);
    }

    method AllowsAutoMerge() returns (yes: bool)
      modifies this`ledger
      ensures Document() == Step(old(Document()), Reading(OtherCall("allows_auto_merge"), []))
      ensures yes == seeds.allowAutoMerge
    {
      var ok := Call(OtherCall("allows_auto_merge"), []);
      return seeds.allowAutoMerge;
    }

    method Retarget(id: ChangeId, base: string, body: Option<string>) returns (r: Result<(), Refusal>)
      modifies this
      ensures (Document(), r) == RetargetChange(old(Document()), id, base, body)
    {
      var ok := Call(OtherCall("retarget_change"), [id]);
      if !ok {
        return Err(Blank);
      }
      if !Addressable(base) {
        return Err(NotAddressable);
      }
      if !Opened(Document(), id) {
        return Err(NotOpened);
      }
      if IsMerged(Document(), id) {
        return Err(AlreadyMerged);
      }
      if id in closed {
        return Err(AlreadyClosed);
      }
      if base in deleted {
        return Err(BaseDeleted);
      }
      MoveBase(id, base);
      if body.Some? {
        record := record.(bodies := record.bodies[id := body.value]);
      }
      return Ok(());
    }

    /** Move the base of the first change by that identifier, where there is one. */
    method MoveBase(id: ChangeId, base: string)
      modifies this`changes
      ensures changes == RetargetIn(old(changes), id, base)
    {
      for i := 0 to |changes|
        invariant changes == old(changes)
        invariant forall j :: 0 <= j < i ==> changes[j].id != id
      {
        if changes[i].id == id {
          RetargetMovesTheFirst(changes, id, base, i);
          changes := changes[i := changes[i].(base := base)];
          return;
        }
      }
      RetargetMovesTheFirst(changes, id, base, |changes|);
    }

    method Reopen(id: ChangeId) returns (r: Result<(), Refusal>)
      modifies this
      ensures (Document(), r) == ReopenChange(old(Document()), id)
    {
      var ok := Call(OtherCall("reopen_change"), [id]);
      if !ok {
        return Err(Blank);
      }
      match Find(changes, id)
      case None => return Err(NotOpened);
      case Some(held) =>
        if id !in closed {
          return Err(NotClosed);
        }
        if held.base in deleted {
          return Err(BaseDeleted);
        }
        closed := closed - {id};
        return Ok(());
    }

    method PersonMerges(id: ChangeId, how: string, at: Stamp, head: HeadAfter) returns (r: Result<Sha, Refusal>)
      modifies this
      ensures (Document(), r) == MergeByPerson(old(Document()), id, how, at, head)
    {
      var found := Find(changes, id);
      if found.None? {
        return Err(NotOpened);
      }
      if at.NotAMoment? {
        return Err(NoSuchMoment);
      }
      if !IsOpen(Document(), id) {
        return Err(NotOpen);
      }
      var sha := Sha(["person-merge", how, id.text, found.value.url]);
      landings := landings.(merges := landings.merges[id := Merged(sha)], times := landings.times[id := at]);
      if head.HeadDeleted? {
        var branch := HeadOf(Document(), id);
        MeetDeletion(branch, found.value.base, head.dependants);
      }
      return Ok(sha);
    }

    /** A head deleted: every open change based on it closed, or moved, one at a time. */
    method MeetDeletion(branch: string, onto: string, dependants: Dependants)
      modifies this`changes, this`closed, this`deleted
      ensures Document() == DeleteHead(old(Document()), branch, onto, dependants)
    {
      var based := Based(Document(), changes, branch);
      deleted := deleted + {branch};
      for i := 0 to |based|
        invariant deleted == old(deleted) + {branch}
        invariant dependants.CloseThem? ==>
          changes == old(changes) && closed == old(closed) + set id | id in based[..i]
        invariant dependants.RetargetThem? ==>
          changes == RetargetEach(old(changes), based[..i], onto) && closed == old(closed)
      {
        assert based[..i + 1] == based[..i] + [based[i]];
        match dependants
        case CloseThem => closed := closed + {based[i]};
        case RetargetThem => MoveBase(based[i], onto);
      }
      assert based[..|based|] == based;
      assert dependants.CloseThem? ==> closed == old(closed) + set id | id in based;
    }

    method PersonCloses(id: ChangeId) returns (r: Result<(), Refusal>)
      modifies this
      ensures (Document(), r) == CloseUnmerged(old(Document()), id)
    {
      if !Opened(Document(), id) {
        return Err(NotOpened);
      }
      closed := closed + {id};
      return Ok(());
    }

    method PersonRetargets(id: ChangeId, base: string) returns (r: Result<(), Refusal>)
      modifies this
      ensures (Document(), r) == RetargetByPerson(old(Document()), id, base)
    {
      if !BranchNames.NamedBranch(base) {
        return Err(NotABranchName);
      }
      if !Opened(Document(), id) {
        return Err(NotOpened);
      }
      MoveBase(id, base);
      return Ok(());
    }

    /** One move by anybody. */
    method Perform(m: Move)
      modifies this
      ensures Document() == Step(old(Document()), m)
    {
      match m {
        case Opening(slug, spec) => var _ := Open(slug, spec);
        case Reading(kind, ids) => var _ := Call(kind, ids);
        case Merging(cr, policy, now) => var _ := Merge(cr, policy, now);
        case AskingMerged(cr, now) => var _ := MergedAt(cr, now);
        case Lifting(id) => var _ := Ready(id);
        case Retargeting(id, base, body) => var _ := Retarget(id, base, body);
        case Reopening(id) => var _ := Reopen(id);
        case PersonMerging(id, how, at, head) => var _ := PersonMerges(id, how, at, head);
        case PersonClosing(id) => var _ := PersonCloses(id);
        case PersonRetargeting(id, base) => var _ := PersonRetargets(id, base);
        case SettingHeadChecks(sha, checks) => headChecks := headChecks[sha := checks];
      }
    }
  }
}
