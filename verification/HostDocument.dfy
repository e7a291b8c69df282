/**
 The document one host keeps, what is read out of it, and what each host call and each
 person's move makes of it.
 */
module HostDocument {
  import opened Basics
  import opened Checks
  import BranchNames
  import Decimal

  datatype ChangeId = ChangeId(text: string)

  /** A commit named by what it was computed from: the hash is ideal. */
  datatype Sha = Sha(parts: seq<string>)

  datatype Stamp = Moment(tick: nat) | NotAMoment(text: string)

  datatype MergeOutcome = Open | Queued | Merged(sha: Sha)

  datatype MergePolicy = LocalDirect | ChangeOpen | ChangeAuto | ChangeDirect

  datatype DraftReason = DraftReason(because: string)

  datatype Change = Change(id: ChangeId, base: string, headSha: Sha, url: string)

  datatype ChangeSpec = ChangeSpec(
    head: string,
    base: string,
    title: string,
    body: Option<string>,
    draft: Option<DraftReason>,
    awaitingChecks: bool)

  /** Which method a ledger entry names; one of the last kind is never read back. */
  datatype CallKind = ReadyCall | ChecksCall | FollowCall | ActivityCall | OtherCall(name: string)

  datatype HostCall = HostCall(kind: CallKind, changes: seq<ChangeId>)

  datatype CheckSource = StatusChecks | Actions

  datatype Activity = OnHead(running: bool) | OnOther(head: Sha, running: bool) | ActivityRefused

  /** What a scenario scripts and nothing here ever changes. */
  datatype Seeds = Seeds(
    checks: map<ChangeId, seq<Check>>,
    checksAfterLift: map<ChangeId, seq<Check>>,
    readings: map<ChangeId, seq<seq<Check>>>,
    readingsAfterLift: map<ChangeId, seq<seq<Check>>>,
    required: Option<Requirement>,
    sources: Option<set<CheckSource>>,
    activity: map<ChangeId, seq<Activity>>,
    allowAutoMerge: bool,
    authenticatedUser: string)

  /** The changes as they stand: which there are, which are closed, which branches are gone. */
  datatype Shelf = Shelf(changes: seq<Change>, closed: set<ChangeId>, deleted: set<string>)

  /** What each change was opened with. */
  datatype Record = Record(heads: map<ChangeId, string>, titles: map<ChangeId, string>, bodies: map<ChangeId, string>)

  /** What was opened as a draft, for a reason or awaiting its checks, and every lift. */
  datatype Drafting = Drafting(reasons: map<ChangeId, DraftReason>, awaiting: set<ChangeId>, madeReady: seq<ChangeId>)

  datatype Landings = Landings(merges: map<ChangeId, MergeOutcome>, times: map<ChangeId, Stamp>, armed: set<ChangeId>)

  datatype HostState = HostState(
    seeds: Seeds,
    shelf: Shelf,
    record: Record,
    drafting: Drafting,
    landings: Landings,
    headChecks: map<Sha, seq<Check>>,
    ledger: seq<HostCall>)

  datatype Refusal =
    | Blank | NotAddressable | Untitled | UnusableReason | NotOpened | StillADraft
    | NotOpen | AlreadyMerged | AlreadyClosed | NotClosed | BaseDeleted | NoSuchMoment
    | NotABranchName | NoCheckSource | NobodyAuthenticated

  // ---- Reading ----

  predicate OnlyWhitespace(s: string) { forall i :: 0 <= i < |s| ==> BranchNames.IsWhitespace(s[i]) }

  predicate IsBlank(id: ChangeId) { OnlyWhitespace(id.text) }

  predicate Addressable(value: string) {
    value != "" && value[0] != '-' && forall i :: 0 <= i < |value| ==> !BranchNames.IsWhitespace(value[i])
  }

  predicate Printable(r: DraftReason) {
    r.because != "" && forall i :: 0 <= i < |r.because| ==>
      r.because[i] >= ' ' && !('\U{7f}' <= r.because[i] <= '\U{9f}')
  }

  function Find(changes: seq<Change>, id: ChangeId): (found: Option<Change>)
    ensures found.Some? ==> found.value in changes && found.value.id == id
    ensures found.None? ==> forall c :: c in changes ==> c.id != id
  {
    if changes == [] then None
    else if changes[0].id == id then Some(changes[0])
    else
      assert changes == [changes[0]] + changes[1..];
      Find(changes[1..], id)
  }

  /** Where the first change by an identifier stands. */
  ghost predicate IsTheFirst(changes: seq<Change>, id: ChangeId, k: nat) {
    k < |changes| && changes[k].id == id && forall j :: 0 <= j < k ==> changes[j].id != id
  }

  lemma {:induction false} FindsTheFirst(changes: seq<Change>, id: ChangeId) returns (k: nat)
    ensures if Find(changes, id).Some? then IsTheFirst(changes, id, k) && Find(changes, id).value == changes[k]
            else forall c :: c in changes ==> c.id != id
  {
    k := 0;
    if changes != [] && changes[0].id != id {
      var later := FindsTheFirst(changes[1..], id);
      k := later + 1;
      assert forall j :: 0 < j <= later && j < |changes| ==> changes[j] == changes[1..][j - 1];
    }
  }

  predicate Opened(s: HostState, id: ChangeId) { exists c :: c in s.shelf.changes && c.id == id }

  predicate IsMerged(s: HostState, id: ChangeId) { id in s.landings.merges && s.landings.merges[id].Merged? }

  predicate IsQueued(s: HostState, id: ChangeId) { id in s.landings.merges && s.landings.merges[id].Queued? }

  /** Neither merged nor closed. */
  predicate IsOpen(s: HostState, id: ChangeId) { id !in s.shelf.closed && !IsMerged(s, id) }

  predicate Drafted(s: HostState, id: ChangeId) {
    (id in s.drafting.reasons || id in s.drafting.awaiting) && id !in s.drafting.madeReady
  }

  function HeadOf(s: HostState, id: ChangeId): string {
    if id in s.record.heads then s.record.heads[id] else ""
  }

  // ---- The scripted checks ----

  predicate Reads(call: HostCall, id: ChangeId) { (call.kind.ChecksCall? || call.kind.FollowCall?) && id in call.changes }

  predicate Lifts(call: HostCall, id: ChangeId) { call.kind.ReadyCall? && id in call.changes }

  /** How many readings of a change's checks a stretch of the ledger holds. */
  function CountReads(ledger: seq<HostCall>, id: ChangeId): nat {
    if ledger == [] then 0
    else CountReads(ledger[..|ledger| - 1], id) + (if Reads(ledger[|ledger| - 1], id) then 1 else 0)
  }

  /** Where the latest lift of a change stands in the ledger. */
  function LastLift(ledger: seq<HostCall>, id: ChangeId): (at: Option<nat>)
    ensures at.Some? ==> at.value < |ledger| && Lifts(ledger[at.value], id)
  {
    if ledger == [] then None
    else if Lifts(ledger[|ledger| - 1], id) then Some(|ledger| - 1)
    else LastLift(ledger[..|ledger| - 1], id)
  }

  /** The entry of a script the `read`-th reading answers: the last one once it runs out. */
  function Entry(script: seq<seq<Check>>, read: nat): Option<seq<Check>> {
    var at := if read == 0 then 0 else read - 1;
    if at < |script| then Some(script[at])
    else if script != [] then Some(script[|script| - 1])
    else None
  }

  /** The checks the host reports on a change right now, found by scanning its ledger. */
  function CurrentChecks(s: HostState, id: ChangeId): seq<Check> {
    var lifted := LastLift(s.ledger, id);
    var after :=
      if lifted.Some? && id in s.seeds.readingsAfterLift
      then Entry(s.seeds.readingsAfterLift[id], CountReads(s.ledger[lifted.value..], id))
      else None;
    if after.Some? then after.value
    else
      var script :=
        if id in s.seeds.readings then Entry(s.seeds.readings[id], CountReads(s.ledger, id)) else None;
      if script.Some? then script.value
      else if id in s.drafting.madeReady && id in s.seeds.checksAfterLift then s.seeds.checksAfterLift[id]
      else if id in s.seeds.checks then s.seeds.checks[id]
      else []
  }

  /** Whether the host would merge the change itself now. */
  predicate HostGreen(s: HostState, id: ChangeId) {
    RequiredChecksGreen(CurrentChecks(s, id), if s.seeds.required.Some? then s.seeds.required.value.checks else {})
  }

  // ---- Writing ----

  /** The call recorded, unless it names a change by no identifier. */
  function Called(s: HostState, kind: CallKind, ids: seq<ChangeId>): Option<HostState> {
    if exists id :: id in ids && IsBlank(id) then None
    else Some(s.(ledger := s.ledger + [HostCall(kind, ids)]))
  }

  function NextId(s: HostState): ChangeId { ChangeId(Decimal.Spell(|s.shelf.changes| + 1)) }

  function NewChange(s: HostState, slug: string, spec: ChangeSpec): Change {
    var id := NextId(s);
    Change(id, spec.base, Sha([slug, spec.head, id.text]), "https://github.com/" + slug + "/pull/" + id.text)
  }

  function Recorded(r: Record, id: ChangeId, spec: ChangeSpec): Record {
    Record(r.heads[id := spec.head], r.titles[id := spec.title],
           if spec.body.Some? then r.bodies[id := spec.body.value] else r.bodies)
  }

  function DraftedAs(d: Drafting, id: ChangeId, spec: ChangeSpec): Drafting {
    if spec.draft.Some? then d.(reasons := d.reasons[id := spec.draft.value])
    else if spec.awaitingChecks then d.(awaiting := d.awaiting + {id})
    else d
  }

  /** Whether the host opens a change by this specification. */
  predicate Openable(spec: ChangeSpec) {
    && Addressable(spec.head) && Addressable(spec.base)
    && !OnlyWhitespace(spec.title)
    && (spec.draft.Some? ==> Printable(spec.draft.value))
  }

  function OpenChange(s: HostState, slug: string, spec: ChangeSpec): (HostState, Result<Change, Refusal>) {
    var s := s.(ledger := s.ledger + [HostCall(OtherCall("open_change"), [])]);
    if !Addressable(spec.head) || !Addressable(spec.base) then (s, Err(NotAddressable))
    else if OnlyWhitespace(spec.title) then (s, Err(Untitled))
    else if spec.draft.Some? && !Printable(spec.draft.value) then (s, Err(UnusableReason))
    else
      var change := NewChange(s, slug, spec);
      var id := change.id;
      (s.(shelf := s.shelf.(changes := s.shelf.changes + [change]),
          record := Recorded(s.record, id, spec),
          drafting := DraftedAs(s.drafting, id, spec)),
       Ok(change))
  }

  function LandingSha(cr: Change): Sha { Sha(["merge", cr.id.text, cr.url]) }

  /** The change recorded as merged by the host itself. */
  function Land(s: HostState, cr: Change, now: nat): HostState {
    s.(landings := Landings(
      s.landings.merges[cr.id := Merged(LandingSha(cr))],
      s.landings.times[cr.id := Moment(now)],
      s.landings.armed - {cr.id}))
  }

  /** The merge held until the host's own required checks pass. */
  function Arm(s: HostState, id: ChangeId): HostState {
    s.(landings := s.landings.(merges := s.landings.merges[id := Queued], armed := s.landings.armed + {id}))
  }

  function MergeChange(s: HostState, cr: Change, policy: MergePolicy, now: nat)
    : (HostState, Result<MergeOutcome, Refusal>)
  {
    match Called(s, OtherCall("merge"), [cr.id])
    case None => (s, Err(Blank))
    case Some(s) =>
      if (policy.ChangeAuto? || policy.ChangeDirect?) && Drafted(s, cr.id) then (s, Err(StillADraft))
      else MergeDecided(s, cr, policy, now, HostGreen(s, cr.id))
  }

  /** The answer to a merge asked for a change that is no draft, by whether its checks are
      green: a merge already held or decided outranks the policy. */
  function MergeDecided(s: HostState, cr: Change, policy: MergePolicy, now: nat, green: bool)
    : (HostState, Result<MergeOutcome, Refusal>)
  {
    if cr.id in s.landings.armed && IsQueued(s, cr.id) && green then
      (Land(s, cr, now), Ok(Merged(LandingSha(cr))))
    else if cr.id in s.landings.merges then (s, Ok(s.landings.merges[cr.id]))
    else if policy.ChangeDirect? || (policy.ChangeAuto? && green) then
      (Land(s, cr, now), Ok(Merged(LandingSha(cr))))
    else if policy.ChangeAuto? then (Arm(s, cr.id), Ok(Queued))
    else (s, Ok(Open))
  }

  /** `merged_at`, and the merge half of `merged_head`: a change the host holds lands now if
      its checks are green. */
  function MergedNow(s: HostState, cr: Change, now: nat): (HostState, Result<Option<Sha>, Refusal>) {
    match Called(s, OtherCall("merged_at"), [cr.id])
    case None => (s, Err(Blank))
    case Some(s) =>
      if IsQueued(s, cr.id) && HostGreen(s, cr.id) then (Land(s, cr, now), Ok(Some(LandingSha(cr))))
      else if IsMerged(s, cr.id) then (s, Ok(Some(s.landings.merges[cr.id].sha)))
      else (s, Ok(None))
  }

  function ReadyForReview(s: HostState, id: ChangeId): (HostState, Result<(), Refusal>) {
    match Called(s, ReadyCall, [id])
    case None => (s, Err(Blank))
    case Some(s) => (s.(drafting := s.drafting.(madeReady := s.drafting.madeReady + [id])), Ok(()))
  }

  /** Move the base of the first change by that identifier. */
  function RetargetIn(changes: seq<Change>, id: ChangeId, base: string): (moved: seq<Change>)
    ensures |moved| == |changes|
    ensures forall i :: 0 <= i < |moved| ==>
      moved[i] == changes[i] || (changes[i].id == id && moved[i] == changes[i].(base := base))
  {
    if changes == [] then []
    else if changes[0].id == id then [changes[0].(base := base)] + changes[1..]
    else [changes[0]] + RetargetIn(changes[1..], id, base)
  }

  /** It is the first change by that identifier that moves, and no other. */
  lemma {:induction false} RetargetMovesTheFirst(changes: seq<Change>, id: ChangeId, base: string, i: nat)
    requires i <= |changes| && (forall j :: 0 <= j < i ==> changes[j].id != id)
    requires i < |changes| ==> changes[i].id == id
    ensures RetargetIn(changes, id, base) ==
      if i < |changes| then changes[i := changes[i].(base := base)] else changes
    decreases |changes|
  {
    if i > 0 {
      RetargetMovesTheFirst(changes[1..], id, base, i - 1);
      assert changes == [changes[0]] + changes[1..];
    } else if changes != [] {
      assert changes[0 := changes[0].(base := base)] == [changes[0].(base := base)] + changes[1..];
    }
  }

  function RetargetEach(changes: seq<Change>, ids: seq<ChangeId>, base: string): seq<Change> {
    if ids == [] then changes
    else RetargetIn(RetargetEach(changes, ids[..|ids| - 1], base), ids[|ids| - 1], base)
  }

  function RetargetChange(s: HostState, id: ChangeId, base: string, body: Option<string>)
    : (HostState, Result<(), Refusal>)
  {
    match Called(s, OtherCall("retarget_change"), [id])
    case None => (s, Err(Blank))
    case Some(s) =>
      if !Addressable(base) then (s, Err(NotAddressable))
      else if !Opened(s, id) then (s, Err(NotOpened))
      else if IsMerged(s, id) then (s, Err(AlreadyMerged))
      else if id in s.shelf.closed then (s, Err(AlreadyClosed))
      else if base in s.shelf.deleted then (s, Err(BaseDeleted))
      else
        (s.(shelf := s.shelf.(changes := RetargetIn(s.shelf.changes, id, base)),
            record := if body.Some? then s.record.(bodies := s.record.bodies[id := body.value]) else s.record),
         Ok(()))
  }

  function ReopenChange(s: HostState, id: ChangeId): (HostState, Result<(), Refusal>) {
    match Called(s, OtherCall("reopen_change"), [id])
    case None => (s, Err(Blank))
    case Some(s) =>
      match Find(s.shelf.changes, id)
      case None => (s, Err(NotOpened))
      case Some(held) =>
        if id !in s.shelf.closed then (s, Err(NotClosed))
        else if held.base in s.shelf.deleted then (s, Err(BaseDeleted))
        else (s.(shelf := s.shelf.(closed := s.shelf.closed - {id})), Ok(()))
  }

  // ---- People ----

  datatype Dependants = CloseThem | RetargetThem

  datatype HeadAfter = HeadKept | HeadDeleted(dependants: Dependants)

  /** The open changes based on a branch, in the order they were opened. */
  function Based(s: HostState, changes: seq<Change>, branch: string): seq<ChangeId> {
    if changes == [] then []
    else
      var rest := Based(s, changes[1..], branch);
      if changes[0].base == branch && IsOpen(s, changes[0].id) then [changes[0].id] + rest else rest
  }

  function MergeByPerson(s: HostState, id: ChangeId, how: string, at: Stamp, head: HeadAfter)
    : (HostState, Result<Sha, Refusal>)
  {
    match Find(s.shelf.changes, id)
    case None => (s, Err(NotOpened))
    case Some(change) =>
      if at.NotAMoment? then (s, Err(NoSuchMoment))
      else if !IsOpen(s, id) then (s, Err(NotOpen))
      else
        var sha := Sha(["person-merge", how, id.text, change.url]);
        var merged := s.(landings := s.landings.(
          merges := s.landings.merges[id := Merged(sha)], times := s.landings.times[id := at]));
        (match head
         case HeadKept => merged
         case HeadDeleted(dependants) => DeleteHead(merged, HeadOf(s, id), change.base, dependants),
         Ok(sha))
  }

  /** A merged change's head deleted, and what becomes of the open changes based on it. */
  function DeleteHead(s: HostState, branch: string, onto: string, dependants: Dependants): HostState {
    var based := Based(s, s.shelf.changes, branch);
    s.(shelf := match dependants
       case CloseThem =>
         Shelf(s.shelf.changes, s.shelf.closed + (set id | id in based), s.shelf.deleted + {branch})
       case RetargetThem =>
         Shelf(RetargetEach(s.shelf.changes, based, onto), s.shelf.closed, s.shelf.deleted + {branch}))
  }

  function CloseUnmerged(s: HostState, id: ChangeId): (HostState, Result<(), Refusal>) {
    if !Opened(s, id) then (s, Err(NotOpened)) else (s.(shelf := s.shelf.(closed := s.shelf.closed + {id})), Ok(()))
  }

  function RetargetByPerson(s: HostState, id: ChangeId, base: string): (HostState, Result<(), Refusal>) {
    if !BranchNames.NamedBranch(base) then (s, Err(NotABranchName))
    else if !Opened(s, id) then (s, Err(NotOpened))
    else (s.(shelf := s.shelf.(changes := RetargetIn(s.shelf.changes, id, base))), Ok(()))
  }

  // ---- Every move ----

  /** Anything that can happen to a host between two calls of one publication: any call by
      anybody, and any person's move. */
  datatype Move =
    | Opening(slug: string, spec: ChangeSpec)
    | Reading(kind: CallKind, ids: seq<ChangeId>)
    | Merging(cr: Change, policy: MergePolicy, now: nat)
    | AskingMerged(cr: Change, now: nat)
    | Lifting(id: ChangeId)
    | Retargeting(id: ChangeId, base: string, body: Option<string>)
    | Reopening(id: ChangeId)
    | PersonMerging(id: ChangeId, how: string, at: Stamp, head: HeadAfter)
    | PersonClosing(id: ChangeId)
    | PersonRetargeting(id: ChangeId, base: string)
    | SettingHeadChecks(sha: Sha, checks: seq<Check>)

  function Step(s: HostState, m: Move): HostState {
    match m
    case Opening(slug, spec) => OpenChange(s, slug, spec).0
    case Reading(kind, ids) => (match Called(s, kind, ids) case None => s case Some(t) => t)
    case Merging(cr, policy, now) => MergeChange(s, cr, policy, now).0
    case AskingMerged(cr, now) => MergedNow(s, cr, now).0
    case Lifting(id) => ReadyForReview(s, id).0
    case Retargeting(id, base, body) => RetargetChange(s, id, base, body).0
    case Reopening(id) => ReopenChange(s, id).0
    case PersonMerging(id, how, at, head) => MergeByPerson(s, id, how, at, head).0
    case PersonClosing(id) => CloseUnmerged(s, id).0
    case PersonRetargeting(id, base) => RetargetByPerson(s, id, base).0
    case SettingHeadChecks(sha, checks) => s.(headChecks := s.headChecks[sha := checks])
  }

  function Run(s: HostState, moves: seq<Move>): HostState {
    if moves == [] then s else Step(Run(s, moves[..|moves| - 1]), moves[|moves| - 1])
  }
}
