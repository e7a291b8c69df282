/**
 One run of calls to a host that everybody else moves between any two of them: the host as each
 call met it and left it, and what each was answered.
 */
module History {
  import opened Basics
  import opened Checks
  import opened HostDocument
  import opened HostService
  import opened HostRuns

  /** One call of the run, what everybody else did just before it, and the host as it was met and
      left. */
  datatype Turn = Turn(before: seq<Move>, own: Move, met: HostState, left: HostState)

  /** The host after so many calls. */
  function At(begun: HostState, turns: seq<Turn>, k: nat): HostState
    requires k <= |turns|
  {
    if k == 0 then begun else turns[k - 1].left
  }

  function Latest(begun: HostState, turns: seq<Turn>): HostState { At(begun, turns, |turns|) }

  /** What was in store for the run before one of its calls. */
  function InStore(inStore: seq<seq<Move>>, k: nat): seq<Move> { if k < |inStore| then inStore[k] else [] }

  /** One turn happened as it is told, from the document the one before it left. */
  ghost predicate Happened(begun: HostState, inStore: seq<seq<Move>>, turns: seq<Turn>, k: nat)
    requires k < |turns|
  {
    && turns[k].before == InStore(inStore, k) && !turns[k].own.PersonMerging?
    && turns[k].met == Run(At(begun, turns, k), turns[k].before)
    && turns[k].left == Step(turns[k].met, turns[k].own)
  }

  ghost predicate AllHappened(begun: HostState, inStore: seq<seq<Move>>, turns: seq<Turn>) {
    forall k :: 0 <= k < |turns| ==> Happened(begun, inStore, turns, k)
  }

  /** What everybody else does before the next call, and what they do after it. */
  function Before(others: seq<seq<Move>>): seq<Move> { if others == [] then [] else others[0] }

  function Later(others: seq<seq<Move>>): seq<seq<Move>> { if others == [] then [] else others[1..] }

  function Next(t: HostState, others: seq<seq<Move>>, own: Move): Turn {
    var met := Run(t, Before(others));
    Turn(Before(others), own, met, Step(met, own))
  }

  lemma TurnEvolves(begun: HostState, inStore: seq<seq<Move>>, turns: seq<Turn>, k: nat)
    requires k < |turns| && Happened(begun, inStore, turns, k)
    ensures Evolves(At(begun, turns, k), turns[k].met) && Evolves(turns[k].met, turns[k].left)
    ensures Evolves(At(begun, turns, k), At(begun, turns, k + 1))
  {
    RunEvolves(At(begun, turns, k), turns[k].before);
    StepEvolves(turns[k].met, turns[k].own);
    EvolvesIsTransitive(At(begun, turns, k), turns[k].met, turns[k].left);
  }

  /** Nothing a run relies on goes back while it runs. */
  lemma {:induction false} HistoryEvolves(begun: HostState, inStore: seq<seq<Move>>, turns: seq<Turn>, j: nat, k: nat)
    requires j <= k <= |turns| && AllHappened(begun, inStore, turns)
    ensures Evolves(At(begun, turns, j), At(begun, turns, k))
    decreases k
  {
    if j == k {
      RunEvolves(At(begun, turns, k), []);
    } else {
      HistoryEvolves(begun, inStore, turns, j, k - 1);
      TurnEvolves(begun, inStore, turns, k - 1);
      EvolvesIsTransitive(At(begun, turns, j), At(begun, turns, k - 1), At(begun, turns, k));
    }
  }

  ghost predicate NobodyElseMerges(inStore: seq<seq<Move>>) { forall k :: 0 <= k < |inStore| ==> NobodyMerges(inStore[k]) }

  lemma TurnKeepsOpens(begun: HostState, inStore: seq<seq<Move>>, turns: seq<Turn>, k: nat)
    requires k < |turns| && Happened(begun, inStore, turns, k) && NobodyElseMerges(inStore)
    ensures OpensKept(At(begun, turns, k), At(begun, turns, k + 1))
  {
    var t := turns[k];
    QuietRunKeepsOpens(At(begun, turns, k), t.before);
    forall id | OpenStored(At(begun, turns, k), id)
      ensures OpenStored(t.left, id)
    {
      assert OpenStored(t.met, id);
      OnlyAPersonClearsAnOpen(t.met, t.own, id);
    }
  }

  /** An `open` the host stored stays, where nobody else merges anything by hand. */
  lemma {:induction false} HistoryKeepsOpens(begun: HostState, inStore: seq<seq<Move>>, turns: seq<Turn>, k: nat)
    requires k <= |turns| && NobodyElseMerges(inStore) && AllHappened(begun, inStore, turns)
    ensures OpensKept(begun, At(begun, turns, k))
  {
    if k > 0 {
      HistoryKeepsOpens(begun, inStore, turns, k - 1);
      TurnKeepsOpens(begun, inStore, turns, k - 1);
      forall id | OpenStored(begun, id)
        ensures OpenStored(At(begun, turns, k), id)
      {
        assert OpenStored(At(begun, turns, k - 1), id);
      }
    }
  }

  // ---- What a run was answered ----

  /** Every list of checks the host answered about one change. A host with no source of checks
      answers none. */
  function HeardIn(turns: seq<Turn>, id: ChangeId): seq<seq<Check>> {
    if turns == [] then []
    else
      var before, last := HeardIn(turns[..|turns| - 1], id), turns[|turns| - 1];
      if last.own == Reading(ChecksCall, [id]) && last.left.seeds.sources != Some({})
      then before + [CurrentChecks(last.left, id)] else before
  }

  /** Every answer about what runs on one change's head. */
  function RanIn(turns: seq<Turn>, cr: Change): seq<Option<bool>> {
    if turns == [] then []
    else
      var before, last := RanIn(turns[..|turns| - 1], cr), turns[|turns| - 1];
      if last.own == Reading(ActivityCall, [cr.id]) then before + [Running(last.left, cr)] else before
  }

  function LiftsIn(turns: seq<Turn>): nat {
    if turns == [] then 0 else LiftsIn(turns[..|turns| - 1]) + if turns[|turns| - 1].own.Lifting? then 1 else 0
  }

  function MergesIn(turns: seq<Turn>): nat {
    if turns == [] then 0 else MergesIn(turns[..|turns| - 1]) + if turns[|turns| - 1].own.Merging? then 1 else 0
  }

  /** One more call, and what it adds to what the run was answered. */
  lemma OneMoreTurn(turns: seq<Turn>, t: Turn, cr: Change)
    ensures HeardIn(turns + [t], cr.id) ==
      if t.own == Reading(ChecksCall, [cr.id]) && t.left.seeds.sources != Some({})
      then HeardIn(turns, cr.id) + [CurrentChecks(t.left, cr.id)] else HeardIn(turns, cr.id)
    ensures RanIn(turns + [t], cr) ==
      if t.own == Reading(ActivityCall, [cr.id]) then RanIn(turns, cr) + [Running(t.left, cr)] else RanIn(turns, cr)
    ensures LiftsIn(turns + [t]) == LiftsIn(turns) + if t.own.Lifting? then 1 else 0
    ensures MergesIn(turns + [t]) == MergesIn(turns) + if t.own.Merging? then 1 else 0
  {
    assert (turns + [t])[..|turns|] == turns;
  }

  /** Every list heard is what the host's checks said as one call of the run left it, each a later
      one: it was heard by the call before the one counted here. */
  lemma {:induction false} HeardIsReported(turns: seq<Turn>, id: ChangeId, k: nat) returns (at: nat)
    requires k < |HeardIn(turns, id)|
    ensures at < |turns| && turns[at].own == Reading(ChecksCall, [id]) && turns[at].left.seeds.sources != Some({})
    ensures HeardIn(turns, id)[k] == CurrentChecks(turns[at].left, id)
    ensures |HeardIn(turns[..at], id)| == k
    decreases |turns|
  {
    var before := turns[..|turns| - 1];
    if k < |HeardIn(before, id)| {
      at := HeardIsReported(before, id, k);
      assert before[..at] == turns[..at];
    } else {
      at := |turns| - 1;
    }
  }

  // ---- A run nobody else disturbs ----

  /** A call about one change, of a run that opens nothing and follows nothing. */
  predicate Concerns(m: Move, change: Change) {
    || (m.Reading? && (m.kind.ChecksCall? || m.kind.ActivityCall? || m.kind.OtherCall?) && (m.kind.ChecksCall? ==> m.ids == [change.id]))
    || m == Lifting(change.id)
    || (m.Merging? && m.cr == change)
  }

  ghost predicate ConcernsFrom(turns: seq<Turn>, n: nat, change: Change) {
    forall k :: n <= k < |turns| ==> Concerns(turns[k].own, change)
  }

  /** Two documents that hold the same changes, opened alike, and merged alike but for one. */
  ghost predicate SameBut(s: HostState, t: HostState, id: ChangeId) {
    && t.seeds == s.seeds && t.shelf == s.shelf && t.record == s.record
    && forall other :: other != id ==> (IsMerged(s, other) <==> IsMerged(t, other))
  }

  lemma ConcerningMoves(s: HostState, m: Move, change: Change)
    requires Concerns(m, change)
    ensures SameBut(s, Step(s, m), change.id)
  {
    if m.Merging? {
      MergingChangesOneLanding(s, m);
    }
  }

  lemma AloneTurn(begun: HostState, turns: seq<Turn>, k: nat)
    requires k < |turns| && Happened(begun, [], turns, k)
    ensures turns[k].met == At(begun, turns, k) && At(begun, turns, k + 1) == Step(At(begun, turns, k), turns[k].own)
  {
  }

  /** Where nobody else moves, calls about one change leave every other as it was. */
  lemma {:induction false} AloneKeepsTheRest(begun: HostState, turns: seq<Turn>, n: nat, k: nat, change: Change)
    requires n <= k <= |turns| && AllHappened(begun, [], turns) && ConcernsFrom(turns, n, change)
    ensures SameBut(At(begun, turns, n), At(begun, turns, k), change.id)
    decreases k
  {
    if n < k {
      AloneKeepsTheRest(begun, turns, n, k - 1, change);
      AloneTurn(begun, turns, k - 1);
      ConcerningMoves(At(begun, turns, k - 1), turns[k - 1].own, change);
    }
  }

  /** A change not merged since is found where it was found before. */
  lemma {:induction false} FoundAgain(s: HostState, t: HostState, changes: seq<Change>, head: string, base: string, id: ChangeId)
    requires SameBut(s, t, id) && (IsMerged(s, id) <==> IsMerged(t, id))
    ensures Matching(t, changes, head, base) == Matching(s, changes, head, base)
    decreases |changes|
  {
    if changes != [] {
      FoundAgain(s, t, changes[..|changes| - 1], head, base, id);
    }
  }

  /** What such a call adds to the ledger. */
  lemma ConcerningCall(s: HostState, m: Move, change: Change) returns (call: HostCall)
    requires Concerns(m, change) && !IsBlank(change.id)
    ensures Step(s, m).ledger == s.ledger + [call] || (Step(s, m).ledger == s.ledger && m.Reading? && !m.kind.ChecksCall?)
    ensures Reads(call, change.id) <==> m == Reading(ChecksCall, [change.id])
  {
    match m
    case Reading(kind, ids) => call := HostCall(kind, ids);
    case Merging(cr, policy, now) =>
      call := HostCall(OtherCall("merge"), [cr.id]);
      var called := Called(s, OtherCall("merge"), [cr.id]).value;
      MergeDecidedLands(called, cr, policy, now, HostGreen(called, cr.id));
    case Lifting(id) => call := HostCall(ReadyCall, [id]);
  }

  lemma ConcerningReads(s: HostState, m: Move, change: Change)
    requires Concerns(m, change) && !IsBlank(change.id)
    ensures CountReads(Step(s, m).ledger, change.id) ==
      CountReads(s.ledger, change.id) + (if m == Reading(ChecksCall, [change.id]) then 1 else 0)
  {
    var call := ConcerningCall(s, m, change);
    if Step(s, m).ledger == s.ledger + [call] {
      assert Step(s, m).ledger[..|s.ledger|] == s.ledger;
    }
  }

  /** The entry of a script its k-th reading answers. */
  function InOrder(script: seq<seq<Check>>, k: nat): seq<Check>
    requires script != [] && k > 0
  {
    script[(if k <= |script| then k else |script|) - 1]
  }

  /** Where a change's checks are scripted on one side of its lifts only, its place in the script
      is how often it has been read. */
  lemma ReadingTheScript(s: HostState, id: ChangeId)
    requires id in s.seeds.readings && s.seeds.readings[id] != [] && id !in s.seeds.readingsAfterLift
    requires CountReads(s.ledger, id) > 0
    ensures CurrentChecks(s, id) == InOrder(s.seeds.readings[id], CountReads(s.ledger, id))
  {
  }

  ghost predicate IsTheScript(heard: seq<seq<Check>>, script: seq<seq<Check>>, n: nat)
    requires script != []
  {
    forall k :: 0 <= k < |heard| ==> heard[k] == InOrder(script, n + k + 1)
  }

  lemma OneMoreOfTheScript(heard: seq<seq<Check>>, script: seq<seq<Check>>, n: nat, checks: seq<Check>)
    requires script != [] && IsTheScript(heard, script, n) && checks == InOrder(script, n + |heard| + 1)
    ensures IsTheScript(heard + [checks], script, n)
  {
  }

  lemma OneMoreReadInOrder(s: HostState, m: Move, change: Change, heard: seq<seq<Check>>, n: nat)
    requires Concerns(m, change) && !IsBlank(change.id)
    requires change.id in s.seeds.readings && s.seeds.readings[change.id] != [] && change.id !in s.seeds.readingsAfterLift
    requires CountReads(s.ledger, change.id) == n + |heard| && IsTheScript(heard, s.seeds.readings[change.id], n)
    ensures var t, yes := Step(s, m), m == Reading(ChecksCall, [change.id]);
      var more := if yes then heard + [CurrentChecks(t, change.id)] else heard;
      t.seeds == s.seeds && CountReads(t.ledger, change.id) == n + |more| && IsTheScript(more, s.seeds.readings[change.id], n)
  {
    ConcerningMoves(s, m, change);
    ConcerningReads(s, m, change);
    if m == Reading(ChecksCall, [change.id]) {
      ReadingTheScript(Step(s, m), change.id);
      OneMoreOfTheScript(heard, s.seeds.readings[change.id], n, CurrentChecks(Step(s, m), change.id));
    }
  }

  /** What a run has read of a change is its script, from where the script stood. */
  ghost predicate HasReadTheScript(begun: HostState, turns: seq<Turn>, k: nat, id: ChangeId, n: nat)
    requires k <= |turns|
  {
    var t, heard := At(begun, turns, k), HeardIn(turns[..k], id);
    && t.seeds == begun.seeds && CountReads(t.ledger, id) == n + |heard|
    && id in begun.seeds.readings && begun.seeds.readings[id] != [] && IsTheScript(heard, begun.seeds.readings[id], n)
  }

  lemma OneMoreTurnOfTheScript(begun: HostState, turns: seq<Turn>, k: nat, change: Change, n: nat)
    requires k < |turns| && Happened(begun, [], turns, k) && Concerns(turns[k].own, change) && !IsBlank(change.id)
    requires HasReadTheScript(begun, turns, k, change.id, n)
    requires begun.seeds.sources != Some({}) && change.id !in begun.seeds.readingsAfterLift
    ensures HasReadTheScript(begun, turns, k + 1, change.id, n)
  {
    OneMoreReadInOrder(At(begun, turns, k), turns[k].own, change, HeardIn(turns[..k], change.id), n);
    HeardByTheNext(turns, k, change.id);
  }

  lemma HeardByTheNext(turns: seq<Turn>, k: nat, id: ChangeId)
    requires k < |turns|
    ensures HeardIn(turns[..k + 1], id) == HeardIn(turns[..k], id) +
      if turns[k].own == Reading(ChecksCall, [id]) && turns[k].left.seeds.sources != Some({})
      then [CurrentChecks(turns[k].left, id)] else []
  {
    assert turns[..k + 1][..k] == turns[..k];
  }

  /** A run nobody else disturbs reads a change's script in order: its k-th reading, of a change
      read `n` times before it, is entry min(n + k, length). */
  lemma {:induction false} ReadsTheScriptInOrder(begun: HostState, turns: seq<Turn>, from: nat, k: nat, change: Change, n: nat)
    requires from <= k <= |turns| && AllHappened(begun, [], turns) && ConcernsFrom(turns, from, change) && !IsBlank(change.id)
    requires begun.seeds.sources != Some({}) && change.id !in begun.seeds.readingsAfterLift
    requires HasReadTheScript(begun, turns, from, change.id, n)
    ensures HasReadTheScript(begun, turns, k, change.id, n)
    decreases k
  {
    if from < k {
      ReadsTheScriptInOrder(begun, turns, from, k - 1, change, n);
      OneMoreTurnOfTheScript(begun, turns, k - 1, change, n);
    }
  }
}
