/**
 The log of one publication: every call it made, what everybody else did before each, and which
 change it turned out to be about.
 */
module PublicationLog {
  import opened Basics
  import opened Checks
  import opened HostDocument
  import opened HostService
  import opened HostRuns
  import opened History
  import opened PublicationRules
  import CheckScript
  import Decimal

  const ASKS_WHO: Move := Reading(OtherCall("authenticated_user"), [])
  const FINDS: Move := Reading(OtherCall("find_changes"), [])

  function AsksIfDraft(change: Change): Move { Reading(OtherCall("is_draft"), [change.id]) }

  /** The unmerged changes a host holds for a publication's branch, in the order opened. */
  function HeldFor(r: Request, s: HostState): seq<Change> { Matching(s, s.shelf.changes, r.head, r.base) }

  /** The change a publication is about, whether the host held it already, and whether it said it
      was a draft, where it was asked before anything was read. */
  datatype Mine = Mine(change: Change, adopted: bool, told: Option<bool>)
  {
    /** How many calls had been made when the change was found, or opened. */
    function From(): nat { if adopted then 2 else 3 }
  }

  datatype Log = Log(r: Request, begun: HostState, inStore: seq<seq<Move>>, turns: seq<Turn>, mine: Option<Mine>)
  {
    function Latest(): HostState { History.Latest(begun, turns) }

    /** What everybody else is still to do. */
    function Rest(): seq<seq<Move>> { if |turns| <= |inStore| then inStore[|turns|..] else [] }

    function Upcoming(own: Move): Turn { Next(Latest(), Rest(), own) }

    /** One more call. */
    function Then(own: Move): Log { this.(turns := turns + [Upcoming(own)]) }

    /** What its change was just said to be. */
    function Told(isDraft: bool): Log
      requires mine.Some?
    {
      this.(mine := Some(mine.value.(told := Some(isDraft))))
    }

    /** The change it has just found, or opened. */
    function About(change: Change, adopted: bool): Log { this.(mine := Some(Mine(change, adopted, None))) }
  }

  /** The change is the first the host held for the branch when it was asked, or where it held none
      the one opened by the next call; and every later call is about it. */
  ghost predicate IsItsChange(r: Request, turns: seq<Turn>, m: Mine) {
    && |turns| >= m.From() && turns[0].own == ASKS_WHO && turns[1].own == FINDS
    && ConcernsFrom(turns, m.From(), m.change)
    && var held := HeldFor(r, turns[1].left);
       if m.adopted then held != [] && m.change == held[0]
       else held == [] && turns[2].own == Opening(r.slug, r.Spec()) && OpenChange(turns[2].met, r.slug, r.Spec()).1 == Ok(m.change)
  }

  ghost predicate IsAsTold(turns: seq<Turn>, m: Mine) {
    m.told.Some? ==>
      && |turns| > m.From() && turns[m.From()].own == AsksIfDraft(m.change)
      && m.told.value == Drafted(turns[m.From()].left, m.change.id)
  }

  /** What one of its calls is, for the change it turned out to be about. */
  ghost predicate IsPartOf(r: Request, turns: seq<Turn>, m: Mine, k: nat)
    requires k < |turns|
  {
    && (k == 0 ==> turns[k].own == ASKS_WHO)
    && (k == 1 ==> turns[k].own == FINDS)
    && (k == 1 ==> if m.adopted then HeldFor(r, turns[k].left) != [] && m.change == HeldFor(r, turns[k].left)[0]
                   else HeldFor(r, turns[k].left) == [])
    && (k == 2 && !m.adopted ==>
          turns[k].own == Opening(r.slug, r.Spec()) && OpenChange(turns[k].met, r.slug, r.Spec()).1 == Ok(m.change))
    && (k >= m.From() ==> Concerns(turns[k].own, m.change))
    && (k == m.From() && m.told.Some? ==>
          turns[k].own == AsksIfDraft(m.change) && m.told.value == Drafted(turns[k].left, m.change.id))
  }

  ghost predicate TurnIsRight(l: Log, k: nat)
    requires k < |l.turns|
  {
    Happened(l.begun, l.inStore, l.turns, k) && (l.mine.Some? ==> IsPartOf(l.r, l.turns, l.mine.value, k))
  }

  /** Every turn happened as it is told, one after the other, and is what it should be. */
  ghost predicate IsSound(l: Log) {
    && Consistent(l.begun)
    && (forall k :: 0 <= k < |l.turns| ==> TurnIsRight(l, k))
    && (l.mine.Some? ==> |l.turns| >= l.mine.value.From() + if l.mine.value.told.Some? then 1 else 0)
  }

  const NO_HOST: HostState :=
    HostState(
      Seeds(map[], map[], map[], map[], None, None, map[], false, ""),
      Shelf([], {}, {}), Record(map[], map[], map[]), Drafting(map[], {}, []), Landings(map[], map[], {}), map[], [])

  const NO_REQUEST: Request := Request("", "", "", "", None, None, ChangeOpen, false, false, false, 0)

  type SoundLog = l: Log | IsSound(l) ghost witness Log(NO_REQUEST, NO_HOST, [], [], None)

  /** A log about to be kept. */
  function Fresh(r: Request, begun: HostState, inStore: seq<seq<Move>>): Log { Log(r, begun, inStore, [], None) }

  /** What it comes to of its change. */
  lemma ItIsItsChange(l: SoundLog)
    ensures AllHappened(l.begun, l.inStore, l.turns)
    ensures l.mine.Some? ==> IsItsChange(l.r, l.turns, l.mine.value) && IsAsTold(l.turns, l.mine.value)
  {
    forall k | 0 <= k < |l.turns|
      ensures Happened(l.begun, l.inStore, l.turns, k)
      ensures l.mine.Some? ==> IsPartOf(l.r, l.turns, l.mine.value, k)
    {
      assert TurnIsRight(l, k);
    }
    if l.mine.Some? {
      PartsMakeItsChange(l.r, l.turns, l.mine.value);
    }
  }

  lemma PartsMakeItsChange(r: Request, turns: seq<Turn>, m: Mine)
    requires |turns| >= m.From() + (if m.told.Some? then 1 else 0)
    requires forall k :: 0 <= k < |turns| ==> IsPartOf(r, turns, m, k)
    ensures IsItsChange(r, turns, m) && IsAsTold(turns, m)
  {
    assert IsPartOf(r, turns, m, 0) && IsPartOf(r, turns, m, 1);
    if !m.adopted {
      assert IsPartOf(r, turns, m, 2);
    }
    if m.told.Some? {
      assert IsPartOf(r, turns, m, m.From());
    }
    forall k | m.From() <= k < |turns|
      ensures Concerns(turns[k].own, m.change)
    {
      assert IsPartOf(r, turns, m, k);
    }
  }

  /** The change a log is about is opened when it is found, or opened then. */
  lemma FoundIsOpened(r: Request, turns: seq<Turn>, m: Mine)
    requires IsItsChange(r, turns, m) && turns[m.From() - 1].left == Step(turns[m.From() - 1].met, turns[m.From() - 1].own)
    ensures HostDocument.Opened(turns[m.From() - 1].left, m.change.id)
  {
    var s := turns[m.From() - 1].left;
    if m.adopted {
      MatchingIff(s, s.shelf.changes, r.head, r.base, m.change);
    } else {
      OpensTheNext(turns[2].met, r.slug, r.Spec());
    }
  }

  /** The host a log has come to has opened its change. */
  lemma LatestIsConsistent(l: SoundLog)
    ensures Consistent(l.Latest()) && (l.mine.Some? ==> HostDocument.Opened(l.Latest(), l.mine.value.change.id))
  {
    ItIsItsChange(l);
    HistoryEvolves(l.begun, l.inStore, l.turns, 0, |l.turns|);
    if l.mine.Some? {
      var m := l.mine.value;
      assert Happened(l.begun, l.inStore, l.turns, m.From() - 1);
      FoundIsOpened(l.r, l.turns, m);
      HistoryEvolves(l.begun, l.inStore, l.turns, m.From(), |l.turns|);
      SameChangesAreOpened(At(l.begun, l.turns, m.From()), l.Latest());
    }
  }

  lemma ConsistentWhenMet(l: SoundLog, own: Move)
    ensures Consistent(l.Upcoming(own).met)
  {
    LatestIsConsistent(l);
    UpcomingEvolves(l, own);
  }

  lemma UpcomingHappens(l: Log, own: Move)
    requires !own.PersonMerging?
    ensures Happened(l.begun, l.inStore, l.Then(own).turns, |l.turns|)
    ensures l.Then(own).Rest() == Later(l.Rest()) && l.Then(own).Latest() == l.Upcoming(own).left
  {
    assert At(l.begun, l.Then(own).turns, |l.turns|) == l.Latest();
  }

  lemma EarlierStays(l: Log, own: Move, k: nat)
    requires k < |l.turns| && TurnIsRight(l, k)
    ensures TurnIsRight(l.Then(own), k)
  {
    assert At(l.begun, l.Then(own).turns, k) == At(l.begun, l.turns, k);
  }

  lemma UpcomingEvolves(l: Log, own: Move)
    ensures var t := l.Upcoming(own); Evolves(l.Latest(), t.met) && Evolves(t.met, t.left)
  {
    RunEvolves(l.Latest(), Before(l.Rest()));
    StepEvolves(l.Upcoming(own).met, own);
  }

  /** One more call, about its change once there is one, leaves a log sound. */
  lemma ThenIsSound(l: SoundLog, own: Move)
    requires if l.mine.Some? then Concerns(own, l.mine.value.change) else !own.PersonMerging?
    requires l.mine.Some? && |l.turns| == l.mine.value.From() ==> l.mine.value.told.None?
    ensures IsSound(l.Then(own))
  {
    var more := l.Then(own);
    UpcomingHappens(l, own);
    forall k | 0 <= k < |more.turns|
      ensures TurnIsRight(more, k)
    {
      if k < |l.turns| {
        assert TurnIsRight(l, k);
        EarlierStays(l, own, k);
      }
    }
  }

  /** The first call after a change is found may say whether it is a draft. */
  lemma ToldIsSound(l: SoundLog, isDraft: bool)
    requires l.mine.Some? && l.mine.value.told.None? && |l.turns| == l.mine.value.From() + 1
    requires l.turns[l.mine.value.From()].own == AsksIfDraft(l.mine.value.change)
    requires isDraft == Drafted(l.Latest(), l.mine.value.change.id)
    ensures IsSound(l.Told(isDraft))
  {
    forall k | 0 <= k < |l.turns|
      ensures TurnIsRight(l.Told(isDraft), k)
    {
      assert TurnIsRight(l, k);
    }
  }

  /** No number is blank, so no call about an opened change is refused for its identifier. */
  lemma OpenedIsNotBlank(s: HostState, id: ChangeId)
    requires Consistent(s) && HostDocument.Opened(s, id)
    ensures !IsBlank(id)
  {
    var i :| 0 <= i < |s.shelf.changes| && s.shelf.changes[i].id == id;
    assert Decimal.IsDigit(id.text[0]);
  }

  /** An opened change that is no draft is none after a call, nor was when it was met; and what has
      merged is met as merged. */
  lemma NoDraftStays(l: SoundLog, own: Move)
    requires l.mine.Some?
    ensures var t, id := l.Upcoming(own), l.mine.value.change.id;
      && !IsBlank(id)
      && (!Drafted(l.Latest(), id) ==> !Drafted(t.met, id) && !Drafted(t.left, id))
      && (IsMerged(l.Latest(), id) ==> IsMerged(t.met, id) && t.met.landings.merges[id] == l.Latest().landings.merges[id])
  {
    var t, id := l.Upcoming(own), l.mine.value.change.id;
    LatestIsConsistent(l);
    OpenedIsNotBlank(l.Latest(), id);
    UpcomingEvolves(l, own);
    SameChangesAreOpened(l.Latest(), t.met);
  }

  // ---- What a log begins with ----

  lemma {:induction false} NothingAskedYet(turns: seq<Turn>, cr: Change)
    requires forall k :: 0 <= k < |turns| ==> turns[k].own.Opening? || (turns[k].own.Reading? && turns[k].own.kind.OtherCall?)
    ensures HeardIn(turns, cr.id) == [] && RanIn(turns, cr) == [] && LiftsIn(turns) == 0 && MergesIn(turns) == 0
    decreases |turns|
  {
    if turns != [] {
      NothingAskedYet(turns[..|turns| - 1], cr);
    }
  }

  /** The log of a run that has asked who it is and which changes there are, and opened one where
      there were none. */
  ghost predicate HasAskedFor(l: Log, change: Change, adopted: bool) {
    && l.mine.None? && |l.turns| == (if adopted then 2 else 3) && l.turns[0].own == ASKS_WHO && l.turns[1].own == FINDS
    && if adopted then HeldFor(l.r, l.turns[1].left) != [] && change == HeldFor(l.r, l.turns[1].left)[0]
       else
         && HeldFor(l.r, l.turns[1].left) == [] && l.turns[2].own == Opening(l.r.slug, l.r.Spec())
         && OpenChange(l.turns[2].met, l.r.slug, l.r.Spec()).1 == Ok(change)
  }

  lemma AboutIsSound(l: SoundLog, change: Change, adopted: bool)
    requires HasAskedFor(l, change, adopted)
    ensures IsSound(l.About(change, adopted))
    ensures HeardIn(l.turns, change.id) == [] && RanIn(l.turns, change) == [] && LiftsIn(l.turns) == 0 && MergesIn(l.turns) == 0
  {
    NothingAskedYet(l.turns, change);
    forall k | 0 <= k < |l.turns|
      ensures TurnIsRight(l.About(change, adopted), k)
    {
      assert TurnIsRight(l, k);
    }
  }

  // ---- What a log may rely on ----

  /** What was stored as `open`, and out of its draft, when a run began. */
  lemma SinceItBegan(l: SoundLog, id: ChangeId)
    ensures Evolves(l.begun, l.Latest())
    ensures l.turns != [] ==> Evolves(l.begun, l.turns[|l.turns| - 1].met)
    ensures NobodyElseMerges(l.inStore) && OpenStored(l.begun, id) ==> OpenStored(l.Latest(), id)
  {
    ItIsItsChange(l);
    HistoryEvolves(l.begun, l.inStore, l.turns, 0, |l.turns|);
    if l.turns != [] {
      var k := |l.turns| - 1;
      HistoryEvolves(l.begun, l.inStore, l.turns, 0, k);
      TurnEvolves(l.begun, l.inStore, l.turns, k);
      EvolvesIsTransitive(l.begun, At(l.begun, l.turns, k), l.turns[k].met);
    }
    if NobodyElseMerges(l.inStore) {
      HistoryKeepsOpens(l.begun, l.inStore, l.turns, |l.turns|);
    }
  }

  lemma NoDraftSinceItBegan(l: SoundLog, id: ChangeId)
    ensures HostDocument.Opened(l.begun, id) && !Drafted(l.begun, id) ==> !Drafted(l.Latest(), id)
  {
    SinceItBegan(l, id);
  }

  /** A host with no source of checks answers no reading. */
  lemma NothingIsHeardWithoutASource(l: SoundLog, id: ChangeId)
    ensures HeardIn(l.turns, id) != [] ==> l.begun.seeds.sources != Some({})
  {
    ItIsItsChange(l);
    if HeardIn(l.turns, id) != [] {
      var k := HeardIsReported(l.turns, id, 0);
      HistoryEvolves(l.begun, l.inStore, l.turns, 0, k + 1);
    }
  }

  // ---- A publication nobody else disturbs ----

  lemma {:induction false} OnlyCalledMatchesTheSame(s: HostState, t: HostState, changes: seq<Change>, head: string, base: string)
    requires t == s.(ledger := t.ledger)
    ensures Matching(t, changes, head, base) == Matching(s, changes, head, base)
    decreases |changes|
  {
    if changes != [] {
      OnlyCalledMatchesTheSame(s, t, changes[..|changes| - 1], head, base);
    }
  }

  lemma OnlyAsked(s: HostState, m: Move)
    requires m == ASKS_WHO || m == FINDS
    ensures Step(s, m) == s.(ledger := Step(s, m).ledger)
  {
  }

  lemma AloneMeets(l: SoundLog)
    requires l.inStore == [] && l.mine.Some?
    ensures l.turns[1].left == l.begun.(ledger := l.turns[1].left.ledger)
    ensures HeldFor(l.r, l.turns[1].left) == HeldFor(l.r, l.begun) && NextId(l.turns[1].left) == NextId(l.begun)
    ensures !l.mine.value.adopted ==> l.turns[2].met == l.turns[1].left
  {
    ItIsItsChange(l);
    assert Happened(l.begun, [], l.turns, 0) && Happened(l.begun, [], l.turns, 1);
    OnlyAsked(l.begun, ASKS_WHO);
    OnlyAsked(l.turns[0].left, FINDS);
    OnlyCalledMatchesTheSame(l.begun, l.turns[1].left, l.begun.shelf.changes, l.r.head, l.r.base);
    if !l.mine.value.adopted {
      assert Happened(l.begun, [], l.turns, 2);
    }
  }

  /** Its change is the first the host held for the branch when it began, and where it held none, one
      of the next number. */
  lemma AloneFinds(l: SoundLog)
    requires l.inStore == [] && l.mine.Some?
    ensures var m, held := l.mine.value, HeldFor(l.r, l.begun);
      && (m.adopted <==> held != [])
      && if m.adopted then m.change == held[0] else m.change == NewChange(l.begun, l.r.slug, l.r.Spec())
  {
    ItIsItsChange(l);
    AloneMeets(l);
  }

  lemma {:induction false} OpeningMatchesBefore(s: HostState, t: HostState, changes: seq<Change>, head: string, base: string, id: ChangeId)
    requires forall c :: c in changes ==> c.id != id
    requires t.landings == s.landings && forall other :: other != id ==> (HasHead(t, other, head) <==> HasHead(s, other, head))
    ensures Matching(t, changes, head, base) == Matching(s, changes, head, base)
    decreases |changes|
  {
    if changes != [] {
      OpeningMatchesBefore(s, t, changes[..|changes| - 1], head, base, id);
    }
  }

  /** A change opened for a branch is the only one held for it where there was none. */
  lemma OpenedIsHeld(r: Request, s: HostState, change: Change)
    requires Consistent(s) && HeldFor(r, s) == [] && OpenChange(s, r.slug, r.Spec()).1 == Ok(change)
    ensures var t := OpenChange(s, r.slug, r.Spec()).0; !IsMerged(t, change.id) ==> HeldFor(r, t) == [change]
  {
    var t := OpenChange(s, r.slug, r.Spec()).0;
    NextIdIsFresh(s);
    OpeningMatchesBefore(s, t, s.shelf.changes, r.head, r.base, change.id);
    assert t.shelf.changes[..|t.shelf.changes| - 1] == s.shelf.changes;
  }

  /** Found or opened, it is the first the host then holds for the branch, unless recorded as merged. */
  lemma AloneFoundIsFirst(l: SoundLog)
    requires l.inStore == [] && l.mine.Some?
    ensures var m := l.mine.value; var t := At(l.begun, l.turns, m.From());
      !IsMerged(t, m.change.id) ==> HeldFor(l.r, t) != [] && HeldFor(l.r, t)[0] == m.change
  {
    ItIsItsChange(l);
    AloneMeets(l);
    if !l.mine.value.adopted {
      assert Happened(l.begun, [], l.turns, 2);
      HistoryEvolves(l.begun, [], l.turns, 0, 2);
      OpenedIsHeld(l.r, l.turns[2].met, l.mine.value.change);
    }
  }

  /** And it still is when the publication ends, unless it has merged by then. */
  lemma AloneLeavesItFirst(l: SoundLog)
    requires l.inStore == [] && l.mine.Some? && !IsMerged(l.Latest(), l.mine.value.change.id)
    ensures HeldFor(l.r, l.Latest()) != [] && HeldFor(l.r, l.Latest())[0] == l.mine.value.change
  {
    var m := l.mine.value;
    var t := At(l.begun, l.turns, m.From());
    ItIsItsChange(l);
    AloneFoundIsFirst(l);
    AloneKeepsTheRest(l.begun, l.turns, m.From(), |l.turns|, m.change);
    HistoryEvolves(l.begun, [], l.turns, m.From(), |l.turns|);
    FoundAgain(t, l.Latest(), t.shelf.changes, l.r.head, l.r.base, m.change.id);
  }

  /** A lift the run asked for leaves the change no draft. */
  lemma {:induction false} LiftIsAmongThem(turns: seq<Turn>, n: nat, change: Change) returns (k: nat)
    requires LiftsIn(turns) > 0 && (forall i :: 0 <= i < |turns| && i < n ==> !turns[i].own.Lifting?) && ConcernsFrom(turns, n, change)
    ensures k < |turns| && turns[k].own == Lifting(change.id)
    decreases |turns|
  {
    if turns[|turns| - 1].own.Lifting? {
      k := |turns| - 1;
    } else {
      k := LiftIsAmongThem(turns[..|turns| - 1], n, change);
    }
  }

  lemma LiftedIsNoDraftNow(l: SoundLog)
    requires l.mine.Some? && LiftsIn(l.turns) > 0
    ensures !Drafted(l.Latest(), l.mine.value.change.id)
  {
    var m := l.mine.value;
    ItIsItsChange(l);
    LatestIsConsistent(l);
    OpenedIsNotBlank(l.Latest(), m.change.id);
    var k := LiftIsAmongThem(l.turns, m.From(), m.change);
    LiftStays(l.begun, l.inStore, l.turns, k, m.change.id);
  }

  lemma LiftStays(begun: HostState, inStore: seq<seq<Move>>, turns: seq<Turn>, k: nat, id: ChangeId)
    requires k < |turns| && AllHappened(begun, inStore, turns) && turns[k].own == Lifting(id) && !IsBlank(id)
    ensures !Drafted(History.Latest(begun, turns), id)
  {
    assert Happened(begun, inStore, turns, k);
    LiftIsKept(turns[k].met, id);
    HistoryEvolves(begun, inStore, turns, k + 1, |turns|);
  }

  lemma LiftIsKept(s: HostState, id: ChangeId)
    requires !IsBlank(id)
    ensures id in Step(s, Lifting(id)).drafting.madeReady
  {
  }

  /** What it heard is its change's script in order, where that is scripted on one side of its lifts
      only and nothing has read it before. */
  lemma AloneReadsTheScript(l: SoundLog)
    requires l.inStore == [] && l.mine.Some? && l.begun.seeds.sources != Some({})
    requires var id, seeds := l.mine.value.change.id, l.begun.seeds;
      id in seeds.readings && seeds.readings[id] != [] && id !in seeds.readingsAfterLift
    requires forall call :: call in l.begun.ledger ==> !Reads(call, l.mine.value.change.id)
    ensures IsTheScript(HeardIn(l.turns, l.mine.value.change.id), l.begun.seeds.readings[l.mine.value.change.id], 0)
  {
    var m, id := l.mine.value, l.mine.value.change.id;
    ItIsItsChange(l);
    LatestIsConsistent(l);
    OpenedIsNotBlank(l.Latest(), id);
    UnreadAtTheStart(l);
    ReadsTheScriptInOrder(l.begun, l.turns, m.From(), |l.turns|, m.change, 0);
    assert l.turns[..|l.turns|] == l.turns;
  }

  lemma StartingCallsReadNothing(s: HostState, m: Move, id: ChangeId)
    requires m == ASKS_WHO || m == FINDS || m.Opening?
    requires forall call :: call in s.ledger ==> !Reads(call, id)
    ensures forall call :: call in Step(s, m).ledger ==> !Reads(call, id)
    ensures Step(s, m).seeds == s.seeds
  {
  }

  lemma UnreadAtTheStart(l: SoundLog)
    requires l.inStore == [] && l.mine.Some?
    requires forall call :: call in l.begun.ledger ==> !Reads(call, l.mine.value.change.id)
    requires l.mine.value.change.id in l.begun.seeds.readings && l.begun.seeds.readings[l.mine.value.change.id] != []
    ensures HasReadTheScript(l.begun, l.turns, l.mine.value.From(), l.mine.value.change.id, 0)
  {
    var m, id := l.mine.value, l.mine.value.change.id;
    ItIsItsChange(l);
    assert Happened(l.begun, [], l.turns, 0) && Happened(l.begun, [], l.turns, 1);
    StartingCallsReadNothing(l.begun, ASKS_WHO, id);
    StartingCallsReadNothing(l.turns[0].left, FINDS, id);
    if !m.adopted {
      assert Happened(l.begun, [], l.turns, 2);
      StartingCallsReadNothing(l.turns[1].left, l.turns[2].own, id);
    }
    CheckScript.NoReadsCountNothing(At(l.begun, l.turns, m.From()).ledger, id);
    NothingAskedYet(l.turns[..m.From()], m.change);
  }

  /** A change it opened to await its checks is one, when it is then asked. */
  lemma AloneOpensADraft(l: SoundLog)
    requires l.inStore == [] && l.mine.Some? && !l.mine.value.adopted && l.mine.value.told.Some?
    requires l.r.reason.None? && !l.r.draftsDisabled && l.mine.value.change.id !in l.begun.drafting.madeReady
    ensures l.mine.value.told == Some(true)
  {
    ItIsItsChange(l);
    AloneMeets(l);
    assert Happened(l.begun, [], l.turns, 2) && Happened(l.begun, [], l.turns, 3);
    OpensToAwait(l.turns[2].met, l.r, l.mine.value.change);
    OnlyCalled(l.turns[3].met, AsksIfDraft(l.mine.value.change));
  }

  lemma OpensToAwait(s: HostState, r: Request, change: Change)
    requires OpenChange(s, r.slug, r.Spec()).1 == Ok(change) && r.reason.None? && !r.draftsDisabled
    requires change.id !in s.drafting.madeReady
    ensures Drafted(OpenChange(s, r.slug, r.Spec()).0, change.id)
  {
  }

  lemma OnlyCalled(s: HostState, m: Move)
    requires m.Reading?
    ensures Step(s, m) == s.(ledger := Step(s, m).ledger)
  {
  }

  /** Where nothing is scripted to run on the change's head, nothing is said to. */
  lemma {:induction false} NothingRunsUnscripted(turns: seq<Turn>, cr: Change)
    requires forall k :: 0 <= k < |turns| ==> cr.id !in turns[k].left.seeds.activity
    ensures forall k :: 0 <= k < |RanIn(turns, cr)| ==> RanIn(turns, cr)[k] == Some(false)
    decreases |turns|
  {
    if turns != [] {
      NothingRunsUnscripted(turns[..|turns| - 1], cr);
    }
  }

  lemma SeedsStand(l: SoundLog, k: nat)
    requires k < |l.turns|
    ensures l.turns[k].left.seeds == l.begun.seeds
  {
    ItIsItsChange(l);
    HistoryEvolves(l.begun, l.inStore, l.turns, 0, k + 1);
  }

  // ---- Two publications, one after the other ----

  /** Published again with nobody else moving in either, the branch has the change it had exactly
      where that has not merged; and once lifted it is no draft when it is found again. */
  lemma PublishedAgain(first: SoundLog, second: SoundLog)
    requires first.inStore == [] && second.inStore == [] && first.mine.Some? && second.mine.Some?
    requires second.begun == first.Latest() && second.r.head == first.r.head && second.r.base == first.r.base
    ensures var c := first.mine.value.change;
      && (second.mine.value.change == c <==> !IsMerged(second.begun, c.id))
      && (second.mine.value.change == c ==> second.mine.value.adopted)
      && HostDocument.Opened(second.begun, c.id)
      && (LiftsIn(first.turns) > 0 ==> !Drafted(second.begun, c.id))
  {
    var c, s := first.mine.value.change, second.begun;
    AloneFinds(second);
    LatestIsConsistent(first);
    NextIdIsFresh(s);
    MatchingIff(s, s.shelf.changes, second.r.head, second.r.base, c);
    if HeldFor(second.r, s) != [] {
      assert HeldFor(second.r, s)[0] in HeldFor(second.r, s);
    }
    if !IsMerged(s, c.id) {
      AloneLeavesItFirst(first);
    }
    if LiftsIn(first.turns) > 0 {
      LiftedIsNoDraftNow(first);
    }
  }
}
