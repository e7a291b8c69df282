/**
 Pushing a branch that was replayed onto its root, against a host other people move.

 Each publication reads where its source checkout last saw the host's copy, fetches, decides
 whether its branch is replayed, and pushes once. Anybody may move, rewrite or delete the
 host's copy between any two of those steps.
 */
module LeasedPush {
  import opened Basics
  import opened CommitGraph

  /** How a publication's branch reaches the host. */
  datatype Push = Forward | Replacing(replaced: Oid)

  datatype Refusal = StackBaseGone | NothingToLeaseOn

  /** What a preparation reads about the branch's base: the base its commits record, the one the
      session that cut it recorded, the root, where refs still name branches, and the stack tips the
      root is known to carry. */
  datatype Stack = Stack(trailer: Option<string>, session: Option<string>, root: string, tips: map<string, Oid>, carried: set<Oid>)

  /** The base recorded for the branch: what its commits say, else what its session did, where that is
      another base a ref still names. */
  function Recorded(stack: Stack): Option<string> {
    if stack.trailer.Some? then stack.trailer
    else if stack.session.Some? && stack.session.value != stack.root && stack.session.value in stack.tips then stack.session
    else None
  }

  /** The base the branch is published onto, and the stack tip its commits are replayed from. */
  function SettleBase(stack: Stack): Result<(string, Option<Oid>), Refusal> {
    match Recorded(stack)
    case None => Ok((stack.root, None))
    case Some(base) =>
      if base == stack.root then Ok((base, None))
      else if base !in stack.tips then Err(StackBaseGone)
      else if stack.tips[base] in stack.carried then Ok((stack.root, Some(stack.tips[base])))
      else Ok((base, None))
  }

  predicate Replays(stack: Stack) { SettleBase(stack).Ok? && SettleBase(stack).value.1.Some? }

  /** The push a prepared landing makes, or the refusal it meets before anything is built. */
  function Prepared(replay: Option<Oid>, observed: Option<Oid>, hosted: Option<Oid>): Result<Push, Refusal> {
    if replay.Some? && observed.None? && hosted.Some? then Err(NothingToLeaseOn)
    else if replay.Some? && observed.Some? then Ok(Replacing(observed.value))
    else Ok(Forward)
  }

  /** The base a landing is prepared onto, and the push it makes. */
  function Preparing(stack: Stack, observed: Option<Oid>, hosted: Option<Oid>): Result<(string, Push), Refusal> {
    match SettleBase(stack)
    case Err(e) => Err(e)
    case Ok((base, replay)) =>
      match Prepared(replay, observed, hosted)
      case Err(e) => Err(e)
      case Ok(push) => Ok((base, push))
  }

  /** Whether git takes a push of `tip`: a forward push only onto an ancestor, a replacing
      push only where the host is exactly at the commit it replaces. */
  predicate Accepts(w: World, host: Option<Oid>, tip: Oid, push: Push)
    requires w.Valid()
  {
    match push
    case Forward => host.None? || Reaches(w, tip, host.value)
    case Replacing(replaced) => host == Some(replaced)
  }

  type Pid = nat

  /** Where one publication stands. `at` and `fetchedAt` are the places in the log of its
      observation and its fetch. */
  datatype Phase =
    | Start
    | Observed(seen: Option<Oid>, at: nat)
    | Fetched(seen: Option<Oid>, hosted: Option<Oid>, at: nat, fetchedAt: nat)
    | Built(seen: Option<Oid>, stack: Stack, base: string, tip: Oid, push: Push, at: nat, fetchedAt: nat)
    | Ended

  datatype Event =
    | Saw(who: Pid, seen: Option<Oid>)
    | Fetch(who: Pid)
    | Pushed(who: Pid, before: Option<Oid>, tip: Oid, base: string, stack: Stack)

  datatype State = State(
    host: Option<Oid>,
    tracking: map<Pid, Option<Oid>>,
    phases: map<Pid, Phase>,
    log: seq<Event>)

  datatype Step =
    /** Somebody else pushes, forces or deletes the host's copy. */
    | Others(to: Option<Oid>)
    /** Something fetches in a publication's source checkout. */
    | SourceFetches(p: Pid)
    | Observe(p: Pid)
    | FetchClone(p: Pid)
    | Build(p: Pid, stack: Stack, tip: Oid)
    | PushBranch(p: Pid)

  function PhaseOf(s: State, p: Pid): Phase { if p in s.phases then s.phases[p] else Start }

  function Tracked(s: State, p: Pid): Option<Oid> { if p in s.tracking then s.tracking[p] else None }

  /** One step; a step a publication is not at changes nothing. */
  function Next(w: World, s: State, e: Step): State
    requires w.Valid()
  {
    match e
    case Others(to) => s.(host := to)
    case SourceFetches(p) => s.(tracking := s.tracking[p := s.host])
    case Observe(p) =>
      if PhaseOf(s, p) != Start then s
      else s.(phases := s.phases[p := Observed(Tracked(s, p), |s.log|)], log := s.log + [Saw(p, Tracked(s, p))])
    case FetchClone(p) => (
      match PhaseOf(s, p)
      case Observed(seen, at) =>
        s.(phases := s.phases[p := Fetched(seen, s.host, at, |s.log|)], log := s.log + [Fetch(p)])
      case _ => s)
    case Build(p, stack, tip) => (
      match PhaseOf(s, p)
      case Fetched(seen, hosted, at, fetchedAt) => (
        match Preparing(stack, seen, hosted)
        case Err(_) => s.(phases := s.phases[p := Ended])
        case Ok((base, push)) => s.(phases := s.phases[p := Built(seen, stack, base, tip, push, at, fetchedAt)]))
      case _ => s)
    case PushBranch(p) => (
      match PhaseOf(s, p)
      case Built(seen, stack, base, tip, push, at, fetchedAt) =>
        if Accepts(w, s.host, tip, push)
        then s.(phases := s.phases[p := Ended], host := Some(tip), log := s.log + [Pushed(p, s.host, tip, base, stack)])
        else s.(phases := s.phases[p := Ended])
      case _ => s)
  }

  function Run(w: World, s: State, steps: seq<Step>): State
    requires w.Valid()
  {
    if steps == [] then s else Next(w, Run(w, s, steps[..|steps| - 1]), steps[|steps| - 1])
  }

  /** What one accepted push keeps: every commit the host had is in what was pushed, or in the
      tip this publication observed before it fetched. */
  ghost predicate RemovesOnlyWhatItSaw(w: World, log: seq<Event>, j: nat)
    requires w.Valid() && j < |log| && log[j].Pushed?
  {
    exists k: nat, m: nat :: k < m && SawBeforeFetching(w, log, k, m, j)
  }

  /** The observation at `k` and the fetch at `m` account for all that push `j` removed. */
  ghost predicate SawBeforeFetching(w: World, log: seq<Event>, k: nat, m: nat, j: nat)
    requires w.Valid() && j < |log| && log[j].Pushed?
  {
    && k < m < j
    && log[k].Saw? && log[k].who == log[j].who && log[m] == Fetch(log[j].who)
    && Removes(w, log[j], log[k].seen)
  }

  /** What one push removes is in the tip `seen`, and only a replayed one removes anything. */
  ghost predicate Removes(w: World, pushed: Event, seen: Option<Oid>)
    requires w.Valid() && pushed.Pushed?
  {
    forall c :: pushed.before.Some? && Reaches(w, pushed.before.value, c) ==>
      Reaches(w, pushed.tip, c) || (Replays(pushed.stack) && seen.Some? && Reaches(w, seen.value, c))
  }

  ghost predicate PhaseHolds(s: State, p: Pid) {
    match PhaseOf(s, p)
    case Start => true
    case Observed(seen, at) => at < |s.log| && s.log[at] == Saw(p, seen)
    case Fetched(seen, hosted, at, fetchedAt) =>
      at < fetchedAt < |s.log| && s.log[at] == Saw(p, seen) && s.log[fetchedAt] == Fetch(p)
    case Built(seen, stack, base, tip, push, at, fetchedAt) =>
      && at < fetchedAt < |s.log| && s.log[at] == Saw(p, seen) && s.log[fetchedAt] == Fetch(p)
      && SettleBase(stack).Ok? && base == SettleBase(stack).value.0
      && (push.Replacing? ==> Replays(stack) && seen == Some(push.replaced))
    case Ended => true
  }

  ghost predicate Inv(w: World, s: State)
    requires w.Valid()
  {
    && (forall p :: p in s.phases ==> PhaseHolds(s, p))
    && (forall j :: 0 <= j < |s.log| && s.log[j].Pushed? ==> RemovesOnlyWhatItSaw(w, s.log, j))
    && (forall j :: 0 <= j < |s.log| && s.log[j].Pushed? ==> IsOntoItsBase(s.log[j]))
  }

  ghost predicate IsOntoItsBase(e: Event)
    requires e.Pushed?
  {
    SettleBase(e.stack).Ok? && e.base == SettleBase(e.stack).value.0
  }

  lemma LongerLogKeeps(w: World, log: seq<Event>, more: seq<Event>, j: nat)
    requires w.Valid() && j < |log| && log[j].Pushed? && RemovesOnlyWhatItSaw(w, log, j)
    ensures RemovesOnlyWhatItSaw(w, log + more, j)
  {
    var k: nat, m: nat :| k < m && SawBeforeFetching(w, log, k, m, j);
    var longer := log + more;
    assert longer[k] == log[k] && longer[m] == log[m] && longer[j] == log[j];
    assert SawBeforeFetching(w, longer, k, m, j);
  }

  /** An accepted push of a built branch removes only what its publication saw. */
  lemma AcceptedPushKeeps(w: World, s: State, p: Pid)
    requires w.Valid() && PhaseHolds(s, p) && PhaseOf(s, p).Built?
    requires Accepts(w, s.host, PhaseOf(s, p).tip, PhaseOf(s, p).push)
    ensures var b := PhaseOf(s, p);
      RemovesOnlyWhatItSaw(w, s.log + [Pushed(p, s.host, b.tip, b.base, b.stack)], |s.log|)
  {
    var b := PhaseOf(s, p);
    var log := s.log + [Pushed(p, s.host, b.tip, b.base, b.stack)];
    forall c | s.host.Some? && Reaches(w, s.host.value, c)
      ensures Reaches(w, b.tip, c) || (Replays(b.stack) && b.seen.Some? && Reaches(w, b.seen.value, c))
    {
      if b.push.Forward? {
        ReachesIsTransitive(w, b.tip, s.host.value, c);
      }
    }
    assert Removes(w, log[|s.log|], b.seen);
    assert log[b.at] == Saw(p, b.seen) && log[b.fetchedAt] == Fetch(p);
    assert SawBeforeFetching(w, log, b.at, b.fetchedAt, |s.log|);
  }

  /** The log only grows, by at most one event. */
  lemma LogGrows(w: World, s: State, e: Step)
    requires w.Valid()
    ensures var t := Next(w, s, e);
      |s.log| <= |t.log| <= |s.log| + 1 && t.log == s.log + t.log[|s.log|..]
  {
    assert Next(w, s, e).log[..|s.log|] == s.log;
  }

  lemma StepKeepsPhases(w: World, s: State, e: Step, p: Pid)
    requires w.Valid() && (p in s.phases ==> PhaseHolds(s, p))
    ensures PhaseHolds(Next(w, s, e), p)
  {
    LogGrows(w, s, e);
    var t := Next(w, s, e);
    assert forall i :: 0 <= i < |s.log| ==> t.log[i] == s.log[i];
  }

  lemma StepKeepsLog(w: World, s: State, e: Step, j: nat)
    requires w.Valid() && Inv(w, s) && j < |Next(w, s, e).log| && Next(w, s, e).log[j].Pushed?
    ensures RemovesOnlyWhatItSaw(w, Next(w, s, e).log, j) && IsOntoItsBase(Next(w, s, e).log[j])
  {
    LogGrows(w, s, e);
    var t := Next(w, s, e);
    if j < |s.log| {
      assert t.log[j] == s.log[j];
      LongerLogKeeps(w, s.log, t.log[|s.log|..], j);
    } else {
      assert e.PushBranch? && PhaseOf(s, e.p).Built?;
      AcceptedPushKeeps(w, s, e.p);
    }
  }

  lemma StepKeepsInv(w: World, s: State, e: Step)
    requires w.Valid() && Inv(w, s)
    ensures Inv(w, Next(w, s, e))
  {
    var t := Next(w, s, e);
    forall p | p in t.phases
      ensures PhaseHolds(t, p)
    {
      StepKeepsPhases(w, s, e, p);
    }
    forall j | 0 <= j < |t.log| && t.log[j].Pushed?
      ensures RemovesOnlyWhatItSaw(w, t.log, j) && IsOntoItsBase(t.log[j])
    {
      StepKeepsLog(w, s, e, j);
    }
  }

  /** Under every interleaving of any number of publications with one another and with anybody
      who moves the host, no publication's push removes a host commit that is neither in what
      it pushed nor in the tip it had observed before its own fetch. */
  lemma {:induction false} NoRunRemovesUnseenWork(w: World, s: State, steps: seq<Step>)
    requires w.Valid() && s.phases == map[] && s.log == []
    ensures Inv(w, Run(w, s, steps))
    decreases |steps|
  {
    if steps != [] {
      NoRunRemovesUnseenWork(w, s, steps[..|steps| - 1]);
      StepKeepsInv(w, Run(w, s, steps[..|steps| - 1]), steps[|steps| - 1]);
    }
  }

  /** A publication that was not replayed removes nothing at all. */
  lemma UnreplayedPushRemovesNothing(w: World, s: State, steps: seq<Step>, j: nat, c: Oid)
    requires w.Valid() && s.phases == map[] && s.log == []
    requires j < |Run(w, s, steps).log| && Run(w, s, steps).log[j].Pushed?
    requires !Replays(Run(w, s, steps).log[j].stack) && Run(w, s, steps).log[j].before.Some?
    requires Reaches(w, Run(w, s, steps).log[j].before.value, c)
    ensures Reaches(w, Run(w, s, steps).log[j].tip, c)
  {
    NoRunRemovesUnseenWork(w, s, steps);
    assert RemovesOnlyWhatItSaw(w, Run(w, s, steps).log, j);
  }

  /** The branch is stacked on a base other than the root: its commits say so, or where they say
      nothing its session does, of a base a ref still names. */
  ghost predicate StackedOn(stack: Stack, base: string) {
    && base != stack.root
    && (stack.trailer == Some(base) || (stack.trailer == None && stack.session == Some(base) && base in stack.tips))
  }

  /** What it is stacked on has landed: the root is known to carry the commits up to where a ref names
      it. */
  ghost predicate HasLanded(stack: Stack, base: string) { base in stack.tips && stack.tips[base] in stack.carried }

  /** Every accepted push, over every run, is onto the root exactly where the branch is stacked on
      nothing or on what has landed, and otherwise onto what it is stacked on, which a ref names. So
      no publication onto the root is of a stack that has not landed. */
  lemma EveryPushIsOntoItsBase(w: World, s: State, steps: seq<Step>, j: nat)
    requires w.Valid() && s.phases == map[] && s.log == []
    requires j < |Run(w, s, steps).log| && Run(w, s, steps).log[j].Pushed?
    ensures var e := Run(w, s, steps).log[j];
      && (e.base == e.stack.root <==> forall b :: StackedOn(e.stack, b) ==> HasLanded(e.stack, b))
      && (e.base != e.stack.root ==> StackedOn(e.stack, e.base) && e.base in e.stack.tips)
  {
    NoRunRemovesUnseenWork(w, s, steps);
    var e := Run(w, s, steps).log[j];
    assert IsOntoItsBase(e);
    match Recorded(e.stack)
    case None =>
    case Some(base) =>
      if base != e.stack.root {
        assert StackedOn(e.stack, base);
      }
  }

  /** A branch stacked on a base no ref names is never published: its publication ends where it would
      be built, whatever happens next. */
  lemma NoPushIsOfALostStack(w: World, s: State, p: Pid, stack: Stack, tip: Oid, base: string, more: seq<Step>)
    requires w.Valid() && PhaseOf(s, p).Fetched? && StackedOn(stack, base) && base !in stack.tips
    ensures var t := Next(w, s, Build(p, stack, tip)); t.log == s.log && PhaseOf(Run(w, t, more), p) == Ended
  {
    EndedStaysEnded(w, Next(w, s, Build(p, stack, tip)), p, more);
  }

  /** And any other goes on to be built, unless it is to replay over a host copy nobody here has
      observed. */
  lemma BuiltUnlessLostOrUnseen(w: World, s: State, p: Pid, stack: Stack, tip: Oid)
    requires w.Valid() && PhaseOf(s, p).Fetched? && forall b :: StackedOn(stack, b) ==> b in stack.tips
    requires PhaseOf(s, p).seen.Some? || PhaseOf(s, p).hosted.None? || !exists b :: StackedOn(stack, b) && HasLanded(stack, b)
    ensures PhaseOf(Next(w, s, Build(p, stack, tip)), p).Built?
  {
    match Recorded(stack)
    case None =>
    case Some(base) =>
      if base != stack.root {
        assert StackedOn(stack, base);
      }
  }

  /** Only a branch whose recorded stack has landed ever removes anything, and what it removes
      was in the tip it had observed: one stacked on nothing, on the root, or on a base the root
      does not carry removes nothing at all. */
  lemma OnlyALandedStackRemoves(w: World, s: State, steps: seq<Step>, j: nat, c: Oid)
    requires w.Valid() && s.phases == map[] && s.log == []
    requires j < |Run(w, s, steps).log| && Run(w, s, steps).log[j].Pushed?
    requires Run(w, s, steps).log[j].before.Some? && Reaches(w, Run(w, s, steps).log[j].before.value, c)
    requires !Reaches(w, Run(w, s, steps).log[j].tip, c)
    ensures var log := Run(w, s, steps).log;
      && (exists b :: StackedOn(log[j].stack, b) && HasLanded(log[j].stack, b)) && log[j].base == log[j].stack.root
      && exists k, seen :: 0 <= k < j && log[k] == Saw(log[j].who, Some(seen)) && Reaches(w, seen, c)
  {
    NoRunRemovesUnseenWork(w, s, steps);
    var log := Run(w, s, steps).log;
    assert RemovesOnlyWhatItSaw(w, log, j) && IsOntoItsBase(log[j]);
    var k: nat, m: nat :| k < m && SawBeforeFetching(w, log, k, m, j);
    assert StackedOn(log[j].stack, Recorded(log[j].stack).value);
    assert log[k] == Saw(log[j].who, Some(log[k].seen.value)) && Reaches(w, log[k].seen.value, c);
  }

  /** A host copy the fetch found and no observation vouches for is never pushed over by a
      replay: the branch is refused, whatever the host does next. */
  lemma UnobservedCopyIsNotReplacedBy(w: World, s: State, p: Pid, stack: Stack, tip: Oid)
    requires w.Valid() && PhaseOf(s, p).Fetched? && Replays(stack)
    requires PhaseOf(s, p).seen.None? && PhaseOf(s, p).hosted.Some?
    ensures PhaseOf(Next(w, s, Build(p, stack, tip)), p) == Ended
    ensures forall more: seq<Step> {:trigger Run(w, Next(w, s, Build(p, stack, tip)), more)} ::
      PhaseOf(Run(w, Next(w, s, Build(p, stack, tip)), more), p) == Ended
  {
    var t := Next(w, s, Build(p, stack, tip));
    forall more: seq<Step>
      ensures PhaseOf(Run(w, t, more), p) == Ended
    {
      EndedStaysEnded(w, t, p, more);
    }
  }

  lemma {:induction false} EndedStaysEnded(w: World, s: State, p: Pid, steps: seq<Step>)
    requires w.Valid() && PhaseOf(s, p) == Ended
    ensures PhaseOf(Run(w, s, steps), p) == Ended
    decreases |steps|
  {
    if steps != [] {
      EndedStaysEnded(w, s, p, steps[..|steps| - 1]);
    }
  }

  /** A lease taken from the fetch instead would authorize the very overwrite: any commit the
      host moved to unseen is replaced by it. */
  lemma LeaseFromTheFetchRemovesUnseenWork(w: World, seen: Oid, host: Oid, tip: Oid)
    requires w.Valid() && host in w.commits && !Reaches(w, tip, host) && !Reaches(w, seen, host)
    ensures Accepts(w, Some(host), tip, Replacing(host))
    ensures exists c :: Reaches(w, host, c) && !Reaches(w, tip, c) && !Reaches(w, seen, c)
    ensures !Accepts(w, Some(host), tip, Prepared(Some(seen), Some(seen), Some(host)).value)
  {
    assert Reaches(w, host, host);
  }

  // ---- What a push is, and when it goes through ----

  /** A branch whose stack has landed replaces the commit observed, where one was; any other push only
      moves the host forward. */
  lemma WhichPushIsBuilt(w: World, s: State, p: Pid, stack: Stack, tip: Oid)
    requires w.Valid() && PhaseOf(s, p).Fetched? && PhaseOf(Next(w, s, Build(p, stack, tip)), p).Built?
    ensures var built, seen := PhaseOf(Next(w, s, Build(p, stack, tip)), p), PhaseOf(s, p).seen;
      && built.tip == tip && built.stack == stack && built.seen == seen
      && (built.push == Forward <==> seen == None || !exists b :: StackedOn(stack, b) && HasLanded(stack, b))
      && (built.push != Forward ==> built.push == Replacing(seen.value))
  {
    match Recorded(stack)
    case None =>
    case Some(base) =>
      if base != stack.root {
        assert StackedOn(stack, base);
      }
  }

  /** It goes through exactly where the host has no copy or one in the history of what is pushed; or
      where it replaces and the host is still at the commit replaced. Nothing else moves the host. */
  lemma PushGoesThroughIff(w: World, s: State, p: Pid)
    requires w.Valid() && PhaseOf(s, p).Built?
    ensures var t, b := Next(w, s, PushBranch(p)), PhaseOf(s, p);
      && PhaseOf(t, p) == Ended
      && if (b.push == Forward && (s.host == None || Reaches(w, b.tip, s.host.value)))
            || (b.push != Forward && s.host == Some(b.push.replaced))
         then t.host == Some(b.tip) && t.log == s.log + [Pushed(p, s.host, b.tip, b.base, b.stack)]
         else t.host == s.host && t.log == s.log
  {
  }

  /** Where one publication's source checkout had seen the host's copy when this run began, or at a
      fetch made in it since. */
  ghost predicate WasSeen(w: World, s: State, steps: seq<Step>, p: Pid, seen: Option<Oid>)
    requires w.Valid()
  {
    seen == Tracked(s, p) || exists i :: 0 <= i < |steps| && steps[i] == SourceFetches(p) && Run(w, s, steps[..i]).host == seen
  }

  lemma WasSeenLater(w: World, s: State, steps: seq<Step>, e: Step, p: Pid, seen: Option<Oid>)
    requires w.Valid() && WasSeen(w, s, steps, p, seen)
    ensures WasSeen(w, s, steps + [e], p, seen)
  {
    if seen != Tracked(s, p) {
      var i :| 0 <= i < |steps| && steps[i] == SourceFetches(p) && Run(w, s, steps[..i]).host == seen;
      assert (steps + [e])[..i] == steps[..i] && (steps + [e])[i] == steps[i];
    }
  }

  lemma {:induction false} TrackedWasSeen(w: World, s: State, steps: seq<Step>, p: Pid)
    requires w.Valid()
    ensures WasSeen(w, s, steps, p, Tracked(Run(w, s, steps), p))
    decreases |steps|
  {
    if steps != [] {
      var before, e := steps[..|steps| - 1], steps[|steps| - 1];
      TrackedWasSeen(w, s, before, p);
      WasSeenLater(w, s, before, e, p, Tracked(Run(w, s, before), p));
      assert before + [e] == steps;
      if e == SourceFetches(p) {
        assert steps[..|steps| - 1] == before;
      }
    }
  }

  /** Every observation a publication leases on is of where its source checkout had seen the host, and
      not of what its own fetch found. */
  lemma {:induction false} ObservationsAreOfTheSource(w: World, s: State, steps: seq<Step>, j: nat)
    requires w.Valid() && s.log == [] && j < |Run(w, s, steps).log| && Run(w, s, steps).log[j].Saw?
    ensures WasSeen(w, s, steps, Run(w, s, steps).log[j].who, Run(w, s, steps).log[j].seen)
    decreases |steps|
  {
    var before, e := steps[..|steps| - 1], steps[|steps| - 1];
    var t := Run(w, s, before);
    LogGrows(w, t, e);
    assert before + [e] == steps;
    if j < |t.log| {
      assert Run(w, s, steps).log[j] == t.log[j];
      ObservationsAreOfTheSource(w, s, before, j);
      WasSeenLater(w, s, before, e, t.log[j].who, t.log[j].seen);
    } else {
      TrackedWasSeen(w, s, before, e.p);
      WasSeenLater(w, s, before, e, e.p, Tracked(t, e.p));
    }
  }
}
