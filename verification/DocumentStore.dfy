/**
 One document many threads and processes share: a writer reads, acts, stages and renames under
 an exclusive lock, a reader reads under a shared one, and any of them may die between steps.
 */
module DocumentStore {
  import opened Basics

  type Tid = nat

  /** What a document's type brings: which documents may be acted on, what an older readable
      one becomes, and what an action leaves and answers; `None` is an action that failed. */
  datatype Format<!S, !A, !R> = Format(check: S -> bool, carry: S -> S, apply: (A, S) -> (S, Option<R>))

  datatype Request<S, A> = With(act: A) | Snapshot | Attach(fallback: S) | Replace(state: S)

  /** Why a call is refused: a document that is missing or not this shape, an action that
      failed, or a write the disk would not take. */
  datatype Why = Unreadable | ActionFailed | NotWritten

  /** What a call answers: an action's result, a snapshot, or that the store is there. */
  datatype Answer<S, R> = Acted(result: R) | Seen(state: S) | Ready | Failed(why: Why)

  datatype Lock = Free | Exclusive(holder: Tid) | Shared(readers: set<Tid>)

  /** Where one thread's call stands. `called` is how much had been committed when it began;
      `at` is how much had been when it took effect. */
  datatype Phase<S, A, R> =
    | Idle
    | Crashed
    | Wants(req: Request<S, A>, called: nat)
    | Holding(req: Request<S, A>, called: nat)
    | HasRead(req: Request<S, A>, called: nat, state: S)
    | HasActed(req: Request<S, A>, called: nat, next: S, answer: Answer<S, R>)
    | HasStaged(req: Request<S, A>, called: nat, next: S, answer: Answer<S, R>)
    | Finished(req: Request<S, A>, called: nat, answer: Answer<S, R>, at: nat)

  datatype Commit<S, A, R> = Commit(who: Tid, req: Request<S, A>, after: S, answer: Answer<S, R>)

  /** A call that returned, and how much had been committed when it began, when it took
      effect, and when it returned. */
  datatype Returned<S, A, R> = Returned(who: Tid, req: Request<S, A>, answer: Answer<S, R>, called: nat, at: nat, returned: nat)

  datatype Store<S, A, R> = Store(
    initial: Option<S>,
    doc: Option<S>,
    lock: Lock,
    staged: map<Tid, S>,
    phases: map<Tid, Phase<S, A, R>>,
    log: seq<Commit<S, A, R>>,
    history: seq<Returned<S, A, R>>)

  datatype Step<S, A> =
    | Call(t: Tid, req: Request<S, A>)
    | TakeLock(t: Tid)
    | ReadDocument(t: Tid)
    | Act(t: Tid)
    | Stage(t: Tid, written: bool)
    | Rename(t: Tid, renamed: bool)
    | Return(t: Tid)
    | Crash(t: Tid)

  function PhaseOf<S, A, R>(s: Store<S, A, R>, t: Tid): Phase<S, A, R> {
    if t in s.phases then s.phases[t] else Idle
  }

  function At<S, A, R>(s: Store<S, A, R>, t: Tid, p: Phase<S, A, R>): Store<S, A, R> {
    s.(phases := s.phases[t := p])
  }

  predicate Available(lock: Lock, shared: bool) {
    lock.Free? || (shared && lock.Shared?)
  }

  function Taken(lock: Lock, t: Tid, shared: bool): Lock {
    if !shared then Exclusive(t) else Shared({t} + if lock.Shared? then lock.readers else {})
  }

  /** A lock given back, by its holder or by the system when the holder dies. */
  function Released(lock: Lock, t: Tid): Lock {
    match lock
    case Free => Free
    case Exclusive(o) => if o == t then Free else lock
    case Shared(readers) => if readers - {t} == {} then Free else Shared(readers - {t})
  }

  /** A read under the lock: a document that is missing or not this shape is refused. */
  function Reading<S, A, R>(f: Format<S, A, R>, s: Store<S, A, R>): Option<S> {
    if s.doc.Some? && f.check(s.doc.value) then Some(f.carry(s.doc.value)) else None
  }

  function Fail<S, A, R>(s: Store<S, A, R>, t: Tid, req: Request<S, A>, called: nat, why: Why): Store<S, A, R> {
    At(s, t, Finished(req, called, Failed(why), |s.log|))
  }

  /** One step; a step a thread is not at changes nothing. */
  function Next<S, A, R>(f: Format<S, A, R>, s: Store<S, A, R>, e: Step<S, A>): Store<S, A, R> {
    match e
    case Call(t, req) =>
      if PhaseOf(s, t).Idle? then At(s, t, Wants(req, |s.log|)) else s
    case TakeLock(t) => (
      match PhaseOf(s, t)
      case Wants(req, called) =>
        if Available(s.lock, req.Snapshot?)
        then At(s.(lock := Taken(s.lock, t, req.Snapshot?)), t, Holding(req, called)) else s
      case _ => s)
    case ReadDocument(t) => (
      match PhaseOf(s, t)
      case Holding(Attach(fallback), called) =>
        if s.doc.None? then At(s, t, HasActed(Attach(fallback), called, fallback, Ready))
        else if Reading(f, s).None? then Fail(s, t, Attach(fallback), called, Unreadable)
        else At(s, t, Finished(Attach(fallback), called, Ready, |s.log|))
      case Holding(Replace(state), called) => At(s, t, HasActed(Replace(state), called, state, Ready))
      case Holding(req, called) => (
        match Reading(f, s)
        case None => Fail(s, t, req, called, Unreadable)
        case Some(state) => At(s, t, HasRead(req, called, state)))
      case _ => s)
    case Act(t) => (
      match PhaseOf(s, t)
      case HasRead(With(act), called, state) => (
        match f.apply(act, state)
        case (_, None) => Fail(s, t, With(act), called, ActionFailed)
        case (next, Some(result)) => At(s, t, HasActed(With(act), called, next, Acted(result))))
      case HasRead(Snapshot, called, state) => At(s, t, Finished(Snapshot, called, Seen(state), |s.log|))
      case _ => s)
    case Stage(t, written) => (
      match PhaseOf(s, t)
      case HasActed(req, called, next, answer) =>
        if written then At(s.(staged := s.staged[t := next]), t, HasStaged(req, called, next, answer))
        else Fail(s, t, req, called, NotWritten)
      case _ => s)
    case Rename(t, renamed) => (
      match PhaseOf(s, t)
      case HasStaged(req, called, next, answer) =>
        var s := s.(staged := s.staged - {t});
        if renamed then
          At(s.(doc := Some(next), log := s.log + [Commit(t, req, next, answer)]), t,
             Finished(req, called, answer, |s.log| + 1))
        else Fail(s, t, req, called, NotWritten)
      case _ => s)
    case Return(t) => (
      match PhaseOf(s, t)
      case Finished(req, called, answer, at) =>
        At(s.(lock := Released(s.lock, t),
              history := s.history + [Returned(t, req, answer, called, at, |s.log|)]), t, Idle)
      case _ => s)
    case Crash(t) => At(s.(lock := Released(s.lock, t)), t, Crashed)
  }

  function Run<S, A, R>(f: Format<S, A, R>, s: Store<S, A, R>, steps: seq<Step<S, A>>): Store<S, A, R> {
    if steps == [] then s else Next(f, Run(f, s, steps[..|steps| - 1]), steps[|steps| - 1])
  }

  // ---- What it should mean ----

  /** The document after the first `k` commits. */
  function DocAt<S, A, R>(initial: Option<S>, log: seq<Commit<S, A, R>>, k: nat): Option<S>
    requires k <= |log|
  {
    if k == 0 then initial else Some(log[k - 1].after)
  }

  /** What one call makes of a document no other call touches meanwhile. */
  ghost predicate Serial<S, A, R>(f: Format<S, A, R>, before: Option<S>, req: Request<S, A>, after: S, answer: Answer<S, R>) {
    match req
    case With(act) =>
      && before.Some? && f.check(before.value)
      && answer.Acted?
      && f.apply(act, f.carry(before.value)) == (after, Some(answer.result))
    case Snapshot => false
    case Attach(fallback) => before.None? && after == fallback && answer == Ready
    case Replace(state) => after == state && answer == Ready
  }

  /** The commits are the calls that took effect, applied one after another. */
  ghost predicate LogIsSerial<S, A, R>(f: Format<S, A, R>, initial: Option<S>, log: seq<Commit<S, A, R>>) {
    forall k :: 0 <= k < |log| ==>
      Serial(f, DocAt(initial, log, k), log[k].req, log[k].after, log[k].answer)
  }

  /** What a call that has its answer did: it took effect at `at`, on what was there then. */
  ghost predicate Explained<S, A, R>(
    f: Format<S, A, R>, initial: Option<S>, log: seq<Commit<S, A, R>>,
    who: Tid, req: Request<S, A>, called: nat, answer: Answer<S, R>, at: nat, upTo: nat)
  {
    && called <= at <= upTo <= |log|
    && (match answer
        case Acted(_) => req.With? && called < at && log[at - 1] == Commit(who, req, log[at - 1].after, answer)
        case Seen(state) =>
          var doc := DocAt(initial, log, at);
          req.Snapshot? && doc.Some? && f.check(doc.value) && state == f.carry(doc.value)
        case Ready =>
          || (called < at && log[at - 1] == Commit(who, req, log[at - 1].after, answer))
          || (req.Attach? && DocAt(initial, log, at).Some? && f.check(DocAt(initial, log, at).value))
        case Failed(Unreadable) =>
          var doc := DocAt(initial, log, at);
          !req.Replace? && (if req.Attach? then doc.Some? else true) && (doc.Some? ==> !f.check(doc.value))
        case Failed(ActionFailed) =>
          var doc := DocAt(initial, log, at);
          && req.With? && doc.Some? && f.check(doc.value)
          && f.apply(req.act, f.carry(doc.value)).1 == None
        case Failed(NotWritten) => !req.Snapshot?)
    // Nothing else of this call was committed: a failed one, nothing at all.
    && (forall k {:trigger log[k]} :: called <= k < upTo && log[k].who == who ==> !answer.Failed? && k == at - 1)
  }

  /** Every call that returned is explained by one place in the commits, within the call. */
  ghost predicate Linearizable<S, A, R>(f: Format<S, A, R>, s: Store<S, A, R>) {
    && s.doc == DocAt(s.initial, s.log, |s.log|)
    && LogIsSerial(f, s.initial, s.log)
    && forall h :: h in s.history ==>
         Explained(f, s.initial, s.log, h.who, h.req, h.called, h.answer, h.at, h.returned)
  }

  // ---- Why it does ----

  ghost predicate Holds<S, A, R>(s: Store<S, A, R>, t: Tid, req: Request<S, A>) {
    if req.Snapshot? then s.lock.Shared? && t in s.lock.readers else s.lock == Exclusive(t)
  }

  ghost predicate HoldsNothing<S, A, R>(s: Store<S, A, R>, t: Tid) {
    s.lock != Exclusive(t) && (s.lock.Shared? ==> t !in s.lock.readers)
  }

  /** Nothing has been committed by this thread since its call began. */
  ghost predicate NothingYet<S, A, R>(s: Store<S, A, R>, t: Tid, called: nat) {
    called <= |s.log| && forall k {:trigger s.log[k]} :: called <= k < |s.log| ==> s.log[k].who != t
  }

  ghost predicate ThreadHolds<S, A, R>(f: Format<S, A, R>, s: Store<S, A, R>, t: Tid) {
    match PhaseOf(s, t)
    case Idle => HoldsNothing(s, t)
    case Crashed => HoldsNothing(s, t)
    case Wants(req, called) => HoldsNothing(s, t) && NothingYet(s, t, called)
    case Holding(req, called) => Holds(s, t, req) && NothingYet(s, t, called)
    case HasRead(req, called, state) =>
      Holds(s, t, req) && NothingYet(s, t, called) && Reading(f, s) == Some(state) && (req.With? || req.Snapshot?)
    case HasActed(req, called, next, answer) =>
      Holds(s, t, req) && NothingYet(s, t, called) && Serial(f, s.doc, req, next, answer)
    case HasStaged(req, called, next, answer) =>
      && Holds(s, t, req) && NothingYet(s, t, called) && Serial(f, s.doc, req, next, answer)
      && t in s.staged && s.staged[t] == next
    case Finished(req, called, answer, at) =>
      Holds(s, t, req) && Explained(f, s.initial, s.log, t, req, called, answer, at, |s.log|)
  }

  ghost predicate Inv<S(!new), A(!new), R(!new)>(f: Format<S, A, R>, s: Store<S, A, R>) {
    && Linearizable(f, s)
    && (s.lock.Shared? ==> s.lock.readers != {})
    && forall t: Tid :: ThreadHolds(f, s, t)
  }

  /** Everything a step may do to the rest of the store. */
  ghost predicate Extends<S, A, R>(s: Store<S, A, R>, u: Store<S, A, R>, t: Tid) {
    && u.initial == s.initial
    && s.log <= u.log
    && (u.log == s.log ==> u.doc == s.doc)
    && (forall k {:trigger u.log[k]} :: |s.log| <= k < |u.log| ==> u.log[k].who == t)
    && (forall o :: o != t ==> PhaseOf(u, o) == PhaseOf(s, o) && (o in s.staged ==> o in u.staged && u.staged[o] == s.staged[o]))
  }

  lemma StepExtends<S(!new), A(!new), R(!new)>(f: Format<S, A, R>, s: Store<S, A, R>, e: Step<S, A>)
    ensures Extends(s, Next(f, s, e), e.t)
  {
  }

  /** A commit needs the lock alone, so no other thread holds it then. */
  lemma CommitIsAlone<S(!new), A(!new), R(!new)>(f: Format<S, A, R>, s: Store<S, A, R>, e: Step<S, A>, o: Tid, req: Request<S, A>)
    requires Inv(f, s) && o != e.t && Holds(s, o, req)
    ensures Next(f, s, e).log == s.log && Next(f, s, e).doc == s.doc
    ensures Holds(Next(f, s, e), o, req)
  {
    assert ThreadHolds(f, s, e.t);
    if s.lock.Shared? {
      assert o in s.lock.readers - {e.t};
    }
  }

  lemma OtherThreadKeeps<S(!new), A(!new), R(!new)>(f: Format<S, A, R>, s: Store<S, A, R>, e: Step<S, A>, o: Tid)
    requires Inv(f, s) && o != e.t
    ensures ThreadHolds(f, Next(f, s, e), o)
  {
    var u := Next(f, s, e);
    StepExtends(f, s, e);
    assert ThreadHolds(f, s, o);
    match PhaseOf(s, o)
    case Idle => HoldsNothingKept(f, s, e, o);
    case Crashed => HoldsNothingKept(f, s, e, o);
    case Wants(req, called) => HoldsNothingKept(f, s, e, o);
    case Holding(req, called) => CommitIsAlone(f, s, e, o, req);
    case HasRead(req, called, state) => CommitIsAlone(f, s, e, o, req);
    case HasActed(req, called, next, answer) => CommitIsAlone(f, s, e, o, req);
    case HasStaged(req, called, next, answer) => CommitIsAlone(f, s, e, o, req);
    case Finished(req, called, answer, at) => CommitIsAlone(f, s, e, o, req);
  }

  lemma HoldsNothingKept<S(!new), A(!new), R(!new)>(f: Format<S, A, R>, s: Store<S, A, R>, e: Step<S, A>, o: Tid)
    requires Inv(f, s) && o != e.t && HoldsNothing(s, o)
    ensures HoldsNothing(Next(f, s, e), o)
  {
  }

  lemma LockingKeeps<S(!new), A(!new), R(!new)>(f: Format<S, A, R>, s: Store<S, A, R>, e: Step<S, A>)
    requires Inv(f, s) && (e.Call? || e.TakeLock?)
    ensures ThreadHolds(f, Next(f, s, e), e.t)
  {
    assert ThreadHolds(f, s, e.t);
  }

  lemma ReadingKeeps<S(!new), A(!new), R(!new)>(f: Format<S, A, R>, s: Store<S, A, R>, e: Step<S, A>)
    requires Inv(f, s) && e.ReadDocument?
    ensures ThreadHolds(f, Next(f, s, e), e.t)
  {
    assert ThreadHolds(f, s, e.t);
  }

  lemma ActingKeeps<S(!new), A(!new), R(!new)>(f: Format<S, A, R>, s: Store<S, A, R>, e: Step<S, A>)
    requires Inv(f, s) && e.Act?
    ensures ThreadHolds(f, Next(f, s, e), e.t)
  {
    assert ThreadHolds(f, s, e.t);
  }

  lemma StagingKeeps<S(!new), A(!new), R(!new)>(f: Format<S, A, R>, s: Store<S, A, R>, e: Step<S, A>)
    requires Inv(f, s) && e.Stage?
    ensures ThreadHolds(f, Next(f, s, e), e.t)
  {
    assert ThreadHolds(f, s, e.t);
  }

  lemma RenamingKeeps<S(!new), A(!new), R(!new)>(f: Format<S, A, R>, s: Store<S, A, R>, e: Step<S, A>)
    requires Inv(f, s) && e.Rename?
    ensures ThreadHolds(f, Next(f, s, e), e.t)
  {
    assert ThreadHolds(f, s, e.t);
  }

  lemma LettingGoKeeps<S(!new), A(!new), R(!new)>(f: Format<S, A, R>, s: Store<S, A, R>, e: Step<S, A>)
    requires Inv(f, s) && (e.Return? || e.Crash?)
    ensures ThreadHolds(f, Next(f, s, e), e.t)
  {
    assert ThreadHolds(f, s, e.t);
  }

  lemma OwnThreadKeeps<S(!new), A(!new), R(!new)>(f: Format<S, A, R>, s: Store<S, A, R>, e: Step<S, A>)
    requires Inv(f, s)
    ensures ThreadHolds(f, Next(f, s, e), e.t)
  {
    match e
    case Call(_, _) => LockingKeeps(f, s, e);
    case TakeLock(_) => LockingKeeps(f, s, e);
    case ReadDocument(_) => ReadingKeeps(f, s, e);
    case Act(_) => ActingKeeps(f, s, e);
    case Stage(_, _) => StagingKeeps(f, s, e);
    case Rename(_, _) => RenamingKeeps(f, s, e);
    case Return(_) => LettingGoKeeps(f, s, e);
    case Crash(_) => LettingGoKeeps(f, s, e);
  }

  lemma ExplainedLater<S(!new), A(!new), R(!new)>(f: Format<S, A, R>, s: Store<S, A, R>, u: Store<S, A, R>, h: Returned<S, A, R>)
    requires u.initial == s.initial && s.log <= u.log
    requires Explained(f, s.initial, s.log, h.who, h.req, h.called, h.answer, h.at, h.returned)
    ensures Explained(f, u.initial, u.log, h.who, h.req, h.called, h.answer, h.at, h.returned)
  {
  }

  /** The only step that commits is a rename, of what its thread staged. */
  lemma OnlyRenamesCommit<S(!new), A(!new), R(!new)>(f: Format<S, A, R>, s: Store<S, A, R>, e: Step<S, A>)
    requires Inv(f, s) && Next(f, s, e).log != s.log
    ensures var u := Next(f, s, e);
      && u.history == s.history && |u.log| == |s.log| + 1 && s.log <= u.log
      && var last := u.log[|s.log|];
      u.doc == Some(last.after) && Serial(f, s.doc, last.req, last.after, last.answer)
  {
    assert ThreadHolds(f, s, e.t);
  }

  /** The only step that adds to the history is a return, of what its thread finished. */
  lemma OnlyReturnsAnswer<S(!new), A(!new), R(!new)>(f: Format<S, A, R>, s: Store<S, A, R>, e: Step<S, A>, h: Returned<S, A, R>)
    requires Inv(f, s) && h in Next(f, s, e).history && h !in s.history
    ensures Next(f, s, e).log == s.log
    ensures Explained(f, s.initial, s.log, h.who, h.req, h.called, h.answer, h.at, h.returned)
  {
    assert ThreadHolds(f, s, e.t);
  }

  lemma SerialLogGrows<S(!new), A(!new), R(!new)>(f: Format<S, A, R>, initial: Option<S>, log: seq<Commit<S, A, R>>, last: Commit<S, A, R>)
    requires LogIsSerial(f, initial, log)
    requires Serial(f, DocAt(initial, log, |log|), last.req, last.after, last.answer)
    ensures LogIsSerial(f, initial, log + [last])
  {
    var longer := log + [last];
    forall k | 0 <= k < |longer|
      ensures Serial(f, DocAt(initial, longer, k), longer[k].req, longer[k].after, longer[k].answer)
    {
      assert DocAt(initial, longer, k) == DocAt(initial, log, k);
      if k < |log| {
        assert longer[k] == log[k];
      }
    }
  }

  lemma StepKeepsLogSerial<S(!new), A(!new), R(!new)>(f: Format<S, A, R>, s: Store<S, A, R>, e: Step<S, A>)
    requires Inv(f, s)
    ensures var u := Next(f, s, e);
      u.initial == s.initial && u.doc == DocAt(u.initial, u.log, |u.log|) && LogIsSerial(f, u.initial, u.log)
  {
    var u := Next(f, s, e);
    StepExtends(f, s, e);
    if u.log != s.log {
      OnlyRenamesCommit(f, s, e);
      assert u.log == s.log + [u.log[|s.log|]];
      SerialLogGrows(f, s.initial, s.log, u.log[|s.log|]);
    }
  }

  lemma StepKeepsLinearizable<S(!new), A(!new), R(!new)>(f: Format<S, A, R>, s: Store<S, A, R>, e: Step<S, A>)
    requires Inv(f, s)
    ensures Linearizable(f, Next(f, s, e))
  {
    var u := Next(f, s, e);
    StepExtends(f, s, e);
    StepKeepsLogSerial(f, s, e);
    forall h | h in u.history
      ensures Explained(f, u.initial, u.log, h.who, h.req, h.called, h.answer, h.at, h.returned)
    {
      if h in s.history {
        ExplainedLater(f, s, u, h);
      } else {
        OnlyReturnsAnswer(f, s, e, h);
      }
    }
  }

  lemma StepKeepsInv<S(!new), A(!new), R(!new)>(f: Format<S, A, R>, s: Store<S, A, R>, e: Step<S, A>)
    requires Inv(f, s)
    ensures Inv(f, Next(f, s, e))
  {
    StepKeepsLinearizable(f, s, e);
    OwnThreadKeeps(f, s, e);
    forall o: Tid
      ensures ThreadHolds(f, Next(f, s, e), o)
    {
      if o != e.t {
        OtherThreadKeeps(f, s, e, o);
      }
    }
  }

  /** A store nobody is using. */
  ghost predicate AtRest<S, A, R>(s: Store<S, A, R>) {
    s.doc == s.initial && s.lock == Free && s.staged == map[] && s.phases == map[] && s.log == [] && s.history == []
  }

  /** Over every run of any number of threads, with failing writes and crashes between any two
      steps, the document is the committed calls applied one at a time, and each call that
      returned did so for one place in that order between its start and its return. */
  lemma {:induction false} EveryRunIsLinearizable<S(!new), A(!new), R(!new)>(f: Format<S, A, R>, s: Store<S, A, R>, steps: seq<Step<S, A>>)
    requires AtRest(s)
    ensures Inv(f, Run(f, s, steps))
    decreases |steps|
  {
    if steps != [] {
      EveryRunIsLinearizable(f, s, steps[..|steps| - 1]);
      StepKeepsInv(f, Run(f, s, steps[..|steps| - 1]), steps[|steps| - 1]);
    }
  }

  /** A lock is taken where nobody holds it, and by a reader beside other readers. */
  lemma LockIsTakenIff<S(!new), A(!new), R(!new)>(f: Format<S, A, R>, s: Store<S, A, R>, t: Tid)
    requires PhaseOf(s, t).Wants?
    ensures var p, u := PhaseOf(s, t), Next(f, s, TakeLock(t));
      if s.lock == Free || (p.req == Snapshot && s.lock.Shared?)
      then PhaseOf(u, t) == Holding(p.req, p.called) && Holds(u, t, p.req)
      else u == s
  {
  }

  // ---- What a call comes to ----

  /** What a call that meets a document is to answer, and what it is to leave, where it leaves
      anything: an action is applied to the document as carried forward, which a reader is shown; a
      document that is missing or not this shape is refused, but not by one that replaces it; and a
      store is attached to a sound document as it stands, and to none by writing its own. */
  ghost function Due<S, A, R>(f: Format<S, A, R>, doc: Option<S>, req: Request<S, A>): (Answer<S, R>, Option<S>) {
    var sound := doc.Some? && f.check(doc.value);
    match req
    case Replace(state) => (Ready, Some(state))
    case Attach(fallback) => if doc.None? then (Ready, Some(fallback)) else if sound then (Ready, None) else (Failed(Unreadable), None)
    case Snapshot => if sound then (Seen(f.carry(doc.value)), None) else (Failed(Unreadable), None)
    case With(act) =>
      if !sound then (Failed(Unreadable), None)
      else
        var (next, result) := f.apply(act, f.carry(doc.value));
        if result.Some? then (Acted(result.value), Some(next)) else (Failed(ActionFailed), None)
  }

  /** The steps that take one call, once it has its lock, to its answer with every write taken. */
  function Carrying<S, A>(t: Tid): seq<Step<S, A>> {
    [ReadDocument(t), Act(t), Stage(t, true), Rename(t, true), Return(t)]
  }

  /** The steps of a run that are one thread's. */
  function Own<S, A>(steps: seq<Step<S, A>>, t: Tid): seq<Step<S, A>> {
    if steps == [] then []
    else
      var before, last := Own(steps[..|steps| - 1], t), steps[|steps| - 1];
      if last.t == t then before + [last] else before
  }

  /** A call finished with what was due, and has committed what was due of it and nothing else. */
  ghost predicate CameTo<S, A, R>(log: seq<Commit<S, A, R>>, t: Tid, req: Request<S, A>, called: nat, answer: Answer<S, R>, at: nat,
                                  upTo: nat, due: (Answer<S, R>, Option<S>)) {
    && answer == due.0 && called <= at <= upTo <= |log|
    && (due.1.Some? ==> called < at && log[at - 1] == Commit(t, req, due.1.value, answer))
    && forall k {:trigger log[k]} :: called <= k < upTo && log[k].who == t ==> due.1.Some? && k == at - 1
  }

  /** How far `k` of those steps have taken a call. */
  ghost predicate OnTheWay<S, A, R>(f: Format<S, A, R>, s: Store<S, A, R>, t: Tid, req: Request<S, A>, called: nat, k: nat,
                                    due: (Answer<S, R>, Option<S>)) {
    match PhaseOf(s, t)
    case Holding(q, c) => k == 0 && q == req && c == called && due == Due(f, s.doc, req)
    case HasRead(q, c, state) =>
      k == 1 && q == req && c == called && !req.Attach? && !req.Replace? && due == Due(f, s.doc, req) && Reading(f, s) == Some(state)
    case HasActed(q, c, next, answer) => 1 <= k <= 2 && q == req && c == called && due == (answer, Some(next))
    case HasStaged(q, c, next, answer) => k == 3 && q == req && c == called && due == (answer, Some(next))
    case Finished(q, c, answer, at) =>
      k >= 1 && k <= 4 && q == req && c == called && CameTo(s.log, t, req, called, answer, at, |s.log|, due)
    case _ => false
  }

  /** The call has returned, with what was due. */
  ghost predicate HasCome<S, A, R>(s: Store<S, A, R>, t: Tid, req: Request<S, A>, called: nat, due: (Answer<S, R>, Option<S>)) {
    exists h :: h in s.history && h.who == t && h.req == req && h.called == called
      && CameTo(s.log, t, req, called, h.answer, h.at, h.returned, due)
  }

  ghost predicate CarriedSoFar<S, A, R>(f: Format<S, A, R>, s: Store<S, A, R>, t: Tid, req: Request<S, A>, called: nat, k: nat,
                                        due: (Answer<S, R>, Option<S>)) {
    if k < 5 then OnTheWay(f, s, t, req, called, k, due) else HasCome(s, t, req, called, due)
  }

  lemma OthersDoNotUndo<S(!new), A(!new), R(!new)>(f: Format<S, A, R>, s: Store<S, A, R>, e: Step<S, A>, t: Tid, req: Request<S, A>,
                                        called: nat, due: (Answer<S, R>, Option<S>))
    requires HasCome(s, t, req, called, due)
    ensures HasCome(Next(f, s, e), t, req, called, due)
  {
    var u := Next(f, s, e);
    StepExtends(f, s, e);
    var h :| h in s.history && h.who == t && h.req == req && h.called == called
      && CameTo(s.log, t, req, called, h.answer, h.at, h.returned, due);
    assert s.history <= u.history && h in u.history;
    assert CameTo(u.log, t, req, called, h.answer, h.at, h.returned, due);
  }

  lemma OthersDoNotCarry<S(!new), A(!new), R(!new)>(f: Format<S, A, R>, s: Store<S, A, R>, e: Step<S, A>, t: Tid, req: Request<S, A>,
                                        called: nat, k: nat, due: (Answer<S, R>, Option<S>))
    requires Inv(f, s) && e.t != t && OnTheWay(f, s, t, req, called, k, due)
    ensures OnTheWay(f, Next(f, s, e), t, req, called, k, due)
  {
    var u := Next(f, s, e);
    StepExtends(f, s, e);
    assert ThreadHolds(f, s, t);
    CommitIsAlone(f, s, e, t, req);
    assert PhaseOf(u, t) == PhaseOf(s, t) && u.doc == s.doc && u.log == s.log;
  }

  lemma ReadingCarries<S(!new), A(!new), R(!new)>(f: Format<S, A, R>, s: Store<S, A, R>, t: Tid, req: Request<S, A>,
                                        called: nat, due: (Answer<S, R>, Option<S>))
    requires Inv(f, s) && OnTheWay(f, s, t, req, called, 0, due)
    ensures OnTheWay(f, Next(f, s, ReadDocument(t)), t, req, called, 1, due)
  {
    assert ThreadHolds(f, s, t);
  }

  lemma ActingCarries<S(!new), A(!new), R(!new)>(f: Format<S, A, R>, s: Store<S, A, R>, t: Tid, req: Request<S, A>,
                                        called: nat, due: (Answer<S, R>, Option<S>))
    requires Inv(f, s) && OnTheWay(f, s, t, req, called, 1, due)
    ensures OnTheWay(f, Next(f, s, Act(t)), t, req, called, 2, due)
  {
    assert ThreadHolds(f, s, t);
  }

  lemma WritingCarries<S(!new), A(!new), R(!new)>(f: Format<S, A, R>, s: Store<S, A, R>, t: Tid, req: Request<S, A>,
                                        called: nat, k: nat, due: (Answer<S, R>, Option<S>))
    requires Inv(f, s) && 2 <= k <= 3 && OnTheWay(f, s, t, req, called, k, due)
    ensures OnTheWay(f, Next(f, s, if k == 2 then Stage(t, true) else Rename(t, true)), t, req, called, k + 1, due)
  {
    assert ThreadHolds(f, s, t);
  }

  lemma ReturningCarries<S(!new), A(!new), R(!new)>(f: Format<S, A, R>, s: Store<S, A, R>, t: Tid, req: Request<S, A>,
                                        called: nat, due: (Answer<S, R>, Option<S>))
    requires OnTheWay(f, s, t, req, called, 4, due)
    ensures HasCome(Next(f, s, Return(t)), t, req, called, due)
  {
    var u := Next(f, s, Return(t));
    var h := u.history[|s.history|];
    assert h in u.history && CameTo(u.log, t, req, called, h.answer, h.at, h.returned, due);
  }

  lemma OneStepCarries<S(!new), A(!new), R(!new)>(f: Format<S, A, R>, s: Store<S, A, R>, t: Tid, req: Request<S, A>,
                                        called: nat, k: nat, due: (Answer<S, R>, Option<S>))
    requires Inv(f, s) && k < 5 && OnTheWay(f, s, t, req, called, k, due)
    ensures var steps: seq<Step<S, A>> := Carrying(t); CarriedSoFar(f, Next(f, s, steps[k]), t, req, called, k + 1, due)
  {
    if k == 0 {
      ReadingCarries(f, s, t, req, called, due);
    } else if k == 1 {
      ActingCarries(f, s, t, req, called, due);
    } else if k < 4 {
      WritingCarries(f, s, t, req, called, k, due);
    } else {
      ReturningCarries(f, s, t, req, called, due);
    }
  }

  lemma OwnOfTheLast<S, A>(steps: seq<Step<S, A>>, t: Tid, k: nat)
    requires steps != [] && k <= 5 && Own(steps, t) == Carrying<S, A>(t)[..k]
    ensures var before, e := steps[..|steps| - 1], steps[|steps| - 1];
      if e.t == t then k > 0 && e == Carrying<S, A>(t)[k - 1] && Own(before, t) == Carrying<S, A>(t)[..k - 1]
      else Own(before, t) == Carrying<S, A>(t)[..k]
  {
    var before, e := steps[..|steps| - 1], steps[|steps| - 1];
    if e.t == t {
      assert Own(steps, t)[..k - 1] == Own(before, t);
      assert Carrying<S, A>(t)[..k][..k - 1] == Carrying<S, A>(t)[..k - 1];
    }
  }

  /** A call that is carried through its steps with every write taken, whatever other threads do in
      between, answers what was due of the document it met under its lock, and has committed what it
      was due to leave and nothing else. */
  lemma {:induction false} CarriedThroughIsDue<S(!new), A(!new), R(!new)>(
    f: Format<S, A, R>, s: Store<S, A, R>, steps: seq<Step<S, A>>, t: Tid, req: Request<S, A>, called: nat, k: nat)
    requires Inv(f, s) && PhaseOf(s, t) == Holding(req, called)
    requires k <= 5 && Own(steps, t) == Carrying<S, A>(t)[..k]
    ensures Inv(f, Run(f, s, steps)) && CarriedSoFar(f, Run(f, s, steps), t, req, called, k, Due(f, s.doc, req))
    decreases |steps|
  {
    if steps == [] {
      assert ThreadHolds(f, s, t);
    } else {
      var before, e := steps[..|steps| - 1], steps[|steps| - 1];
      OwnOfTheLast(steps, t, k);
      if e.t == t {
        CarriedThroughIsDue(f, s, before, t, req, called, k - 1);
        OneStepCarries(f, Run(f, s, before), t, req, called, k - 1, Due(f, s.doc, req));
      } else {
        CarriedThroughIsDue(f, s, before, t, req, called, k);
        if k < 5 {
          OthersDoNotCarry(f, Run(f, s, before), e, t, req, called, k, Due(f, s.doc, req));
        } else {
          OthersDoNotUndo(f, Run(f, s, before), e, t, req, called, Due(f, s.doc, req));
        }
      }
      StepKeepsInv(f, Run(f, s, before), e);
    }
  }

  /** So one call alone, from a store nobody holds, answers and leaves what is due of its document. */
  lemma AloneItIsDone<S(!new), A(!new), R(!new)>(f: Format<S, A, R>, s: Store<S, A, R>, t: Tid, req: Request<S, A>)
    requires Inv(f, s) && s.lock == Free && PhaseOf(s, t) == Idle
    ensures var due := Due(f, s.doc, req);
      var u := Run(f, Next(f, Next(f, s, Call(t, req)), TakeLock(t)), Carrying(t));
      HasCome(u, t, req, |s.log|, due)
  {
    StepKeepsInv(f, s, Call(t, req));
    var b := Next(f, Next(f, s, Call(t, req)), TakeLock(t));
    StepKeepsInv(f, Next(f, s, Call(t, req)), TakeLock(t));
    AllOwn<S, A>(t);
    CarriedThroughIsDue(f, b, Carrying(t), t, req, |s.log|, 5);
  }

  lemma AllOwn<S, A>(t: Tid)
    ensures Own(Carrying<S, A>(t), t) == Carrying<S, A>(t)[..5]
  {
    var c := Carrying<S, A>(t);
    assert c[..4] == [c[0], c[1], c[2], c[3]] && c[..4][..3] == [c[0], c[1], c[2]];
    assert c[..4][..3][..2] == [c[0], c[1]] && c[..4][..3][..2][..1] == [c[0]] && c[..4][..3][..2][..1][..0] == [];
    assert Own(c[..4][..3][..2][..1], t) == [c[0]];
    assert Own(c[..4][..3][..2], t) == [c[0], c[1]];
    assert Own(c[..4][..3], t) == [c[0], c[1], c[2]];
    assert Own(c[..4], t) == [c[0], c[1], c[2], c[3]];
    assert Own(c, t) == c;
  }

  // ---- Writes the disk does not take ----

  predicate FailsToWrite<S, A>(e: Step<S, A>, t: Tid) { e == Stage(t, false) || e == Rename(t, false) }

  /** A step at which this very call, begun when so much had been committed, met a write that failed. */
  ghost predicate MetAFailedWrite<S, A, R>(f: Format<S, A, R>, s: Store<S, A, R>, steps: seq<Step<S, A>>, t: Tid, req: Request<S, A>,
                                           called: nat) {
    exists k :: 0 <= k < |steps| && FailsToWrite(steps[k], t) && IsWriting(Run(f, s, steps[..k]), t, req, called)
  }

  ghost predicate IsWriting<S, A, R>(s: Store<S, A, R>, t: Tid, req: Request<S, A>, called: nat) {
    match PhaseOf(s, t)
    case HasActed(q, c, _, _) => q == req && c == called
    case HasStaged(q, c, _, _) => q == req && c == called
    case _ => false
  }

  lemma MetLater<S(!new), A(!new), R(!new)>(f: Format<S, A, R>, s: Store<S, A, R>, steps: seq<Step<S, A>>, t: Tid, req: Request<S, A>,
                                            called: nat)
    requires steps != [] && MetAFailedWrite(f, s, steps[..|steps| - 1], t, req, called)
    ensures MetAFailedWrite(f, s, steps, t, req, called)
  {
    var before := steps[..|steps| - 1];
    var k :| 0 <= k < |before| && FailsToWrite(before[k], t) && IsWriting(Run(f, s, before[..k]), t, req, called);
    assert before[..k] == steps[..k];
  }

  lemma OnlyAFailureIsUnwritten<S(!new), A(!new), R(!new)>(f: Format<S, A, R>, s: Store<S, A, R>, e: Step<S, A>, t: Tid)
    requires Inv(f, s) && PhaseOf(Next(f, s, e), t) != PhaseOf(s, t)
    requires PhaseOf(Next(f, s, e), t).Finished? && PhaseOf(Next(f, s, e), t).answer == Failed(NotWritten)
    ensures var q := PhaseOf(Next(f, s, e), t); FailsToWrite(e, t) && IsWriting(s, t, q.req, q.called)
  {
    assert ThreadHolds(f, s, t);
  }

  lemma {:induction false} UnwrittenMetOne<S(!new), A(!new), R(!new)>(f: Format<S, A, R>, s: Store<S, A, R>, steps: seq<Step<S, A>>, t: Tid)
    requires AtRest(s)
    ensures var p := PhaseOf(Run(f, s, steps), t);
      p.Finished? && p.answer == Failed(NotWritten) ==> MetAFailedWrite(f, s, steps, t, p.req, p.called)
    decreases |steps|
  {
    if steps != [] {
      var before, e := steps[..|steps| - 1], steps[|steps| - 1];
      var p, q := PhaseOf(Run(f, s, before), t), PhaseOf(Run(f, s, steps), t);
      UnwrittenMetOne(f, s, before, t);
      if q.Finished? && q.answer == Failed(NotWritten) {
        if p == q {
          MetLater(f, s, steps, t, q.req, q.called);
        } else {
          EveryRunIsLinearizable(f, s, before);
          OnlyAFailureIsUnwritten(f, Run(f, s, before), e, t);
        }
      }
    }
  }

  /** Over every run, a call that answers that its write was not taken is one that met such a write. */
  lemma {:induction false} OnlyAFailedWriteIsAnswered<S(!new), A(!new), R(!new)>(
    f: Format<S, A, R>, s: Store<S, A, R>, steps: seq<Step<S, A>>, h: Returned<S, A, R>)
    requires AtRest(s) && h in Run(f, s, steps).history && h.answer == Failed(NotWritten)
    ensures MetAFailedWrite(f, s, steps, h.who, h.req, h.called)
    decreases |steps|
  {
    var before, e := steps[..|steps| - 1], steps[|steps| - 1];
    if h in Run(f, s, before).history {
      OnlyAFailedWriteIsAnswered(f, s, before, h);
    } else {
      assert e == Return(h.who);
      UnwrittenMetOne(f, s, before, h.who);
    }
    MetLater(f, s, steps, h.who, h.req, h.called);
  }
}
