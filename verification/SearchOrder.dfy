/**
 What the order copies are searched in decides, and what it does not: the commit chosen is the
 same in every order exactly where every copy that could be chosen stands at one commit.
 */
module SearchOrder {
  import opened Basics
  import opened CommitGraph
  import opened CleanBaseMerges
  import opened Locate

  /** A copy that is chosen where it is searched first. */
  ghost predicate Candidate(s: Search, held: seq<Held>, c: Held)
    requires s.Valid() && s.Places(held)
  {
    && c in held
    && (if SettledEarly(held) then true
        else if NoCarrier(s, held) then s.CarriesTheRestButBaseMerges(c, held)
        else s.CarriesTheRest(c, held))
  }

  /** What a copy that is chosen passes over. */
  ghost function Uncarried(s: Search, c: Held, held: seq<Held>): (spent: seq<Held>)
    requires s.Valid() && c.at < |s.views|
    ensures forall o :: o in spent <==> o in held && !s.Carries(c, o)
  {
    if held == [] then []
    else
      var rest := Uncarried(s, c, held[1..]);
      assert held == [held[0]] + held[1..];
      if s.Carries(c, held[0]) then rest else [held[0]] + rest
  }

  /** Whatever the search answers of copies whose first is a candidate, it answers that copy. */
  lemma FirstCandidateIsTheAnswer(s: Search, held: seq<Held>, r: Choice)
    requires s.Valid() && s.Places(held) && held != [] && Candidate(s, held, held[0])
    requires Justified(s, held, r)
    ensures r.Chosen? && r.copy == held[0]
  {
  }

  /** And there is such an answer. */
  lemma FirstCandidateIsJustified(s: Search, held: seq<Held>)
    requires s.Valid() && s.Places(held) && held != [] && Candidate(s, held, held[0])
    ensures Justified(s, held, Chosen(held[0], if SettledEarly(held) then [] else Uncarried(s, held[0], held)))
  {
    if !SettledEarly(held) && NoCarrier(s, held) {
      assert NonePassesBefore(s, held, 0);
    } else if !SettledEarly(held) {
      assert NoCarrierBefore(s, held, 0);
    }
  }

  lemma ChosenIsACandidate(s: Search, held: seq<Held>, c: Held, spent: seq<Held>)
    requires s.Valid() && s.Places(held) && Justified(s, held, Chosen(c, spent))
    ensures Candidate(s, held, c)
  {
  }

  ghost predicate SameCopies(one: seq<Held>, other: seq<Held>) { multiset(one) == multiset(other) }

  /** Being a candidate is no matter of order. */
  lemma CandidatesDoNotMove(s: Search, one: seq<Held>, other: seq<Held>, c: Held)
    requires s.Valid() && s.Places(one) && SameCopies(one, other)
    ensures s.Places(other)
    ensures Candidate(s, one, c) <==> Candidate(s, other, c)
  {
    assert |one| == |multiset(one)| && |other| == |multiset(other)|;
    forall h
      ensures h in one <==> h in other
    {
      assert h in one <==> h in multiset(one);
      assert h in other <==> h in multiset(other);
    }
    MembersDecide(s, one, other);
  }

  lemma MembersDecide(s: Search, one: seq<Held>, other: seq<Held>)
    requires s.Valid() && s.Places(one) && s.Places(other) && |one| == |other|
    requires forall h :: h in one <==> h in other
    ensures SettledEarly(one) <==> SettledEarly(other)
    ensures NoCarrier(s, one) <==> NoCarrier(s, other)
    ensures forall c {:trigger s.CarriesTheRest(c, other)} :: c in one ==> (s.CarriesTheRest(c, one) <==> s.CarriesTheRest(c, other))
    ensures forall c {:trigger s.CarriesTheRestButBaseMerges(c, other)} ::
      c in one ==> (s.CarriesTheRestButBaseMerges(c, one) <==> s.CarriesTheRestButBaseMerges(c, other))
  {
    forall c | c in one
      ensures s.CarriesTheRest(c, one) <==> s.CarriesTheRest(c, other)
    {
    }
  }

  /** One of the copies searched before the others. */
  function Leading(held: seq<Held>, i: nat): seq<Held>
    requires i < |held|
  {
    [held[i]] + held[..i] + held[i + 1..]
  }

  lemma LeadingIsTheSameCopies(held: seq<Held>, i: nat)
    requires i < |held|
    ensures SameCopies(held, Leading(held, i))
  {
    assert held == held[..i] + [held[i]] + held[i + 1..];
  }

  /** In whatever order its copies are searched, a search that chooses one chooses one commit. */
  ghost predicate SameCommitInEveryOrder(s: Search, held: seq<Held>)
    requires s.Valid() && s.Places(held)
  {
    forall one: seq<Held>, other: seq<Held>, a: Choice, b: Choice ::
      IsAnAnswer(s, held, one, a) && IsAnAnswer(s, held, other, b) ==> a.copy.tip == b.copy.tip
  }

  /** A copy chosen when the copies are searched in this order. */
  ghost predicate IsAnAnswer(s: Search, held: seq<Held>, order: seq<Held>, r: Choice)
    requires s.Valid()
  {
    SameCopies(held, order) && s.Places(order) && r.Chosen? && Justified(s, order, r)
  }

  lemma EveryCandidateIsAnAnswer(s: Search, held: seq<Held>, c: Held) returns (order: seq<Held>, r: Choice)
    requires s.Valid() && s.Places(held) && Candidate(s, held, c)
    ensures IsAnAnswer(s, held, order, r) && r.copy == c
  {
    var i :| 0 <= i < |held| && held[i] == c;
    order := Leading(held, i);
    LeadingIsTheSameCopies(held, i);
    CandidatesDoNotMove(s, held, order, c);
    FirstCandidateIsJustified(s, order);
    r := Chosen(c, if SettledEarly(order) then [] else Uncarried(s, c, order));
  }

  /** The commit does not depend on the order exactly where every candidate stands at it. */
  lemma SameCommitInEveryOrderIff(s: Search, held: seq<Held>)
    requires s.Valid() && s.Places(held)
    ensures SameCommitInEveryOrder(s, held) <==>
      forall a, b :: Candidate(s, held, a) && Candidate(s, held, b) ==> a.tip == b.tip
  {
    if SameCommitInEveryOrder(s, held) {
      forall a, b | Candidate(s, held, a) && Candidate(s, held, b)
        ensures a.tip == b.tip
      {
        var one, ra := EveryCandidateIsAnAnswer(s, held, a);
        var other, rb := EveryCandidateIsAnAnswer(s, held, b);
      }
    }
    forall one: seq<Held>, a: Choice | IsAnAnswer(s, held, one, a)
      ensures Candidate(s, held, a.copy)
    {
      ChosenIsACandidate(s, one, a.copy, a.spent);
      CandidatesDoNotMove(s, held, one, a.copy);
    }
  }

  // ---- Orders in which the search is refused ----

  /** Whatever the search may answer of these copies in some order. */
  ghost predicate MayAnswer(s: Search, held: seq<Held>, order: seq<Held>, r: Choice)
    requires s.Valid()
  {
    SameCopies(held, order) && s.Places(order) && Justified(s, order, r)
  }

  /** In whatever order its copies are searched, the search chooses, and chooses the same commit. */
  ghost predicate OneCommitWhateverTheOrder(s: Search, held: seq<Held>)
    requires s.Valid() && s.Places(held)
  {
    && (forall order: seq<Held>, r: Choice :: MayAnswer(s, held, order, r) ==> r.Chosen?)
    && SameCommitInEveryOrder(s, held)
  }

  /** No copy is one the search would be refused over, were it searched first. */
  ghost predicate NoneUnjudged(s: Search, held: seq<Held>)
    requires s.Valid() && s.Places(held)
  {
    forall c {:trigger Unjudged(s, held, c)} :: c in held ==> !Unjudged(s, held, c)
  }

  lemma UnjudgedDoesNotMove(s: Search, one: seq<Held>, other: seq<Held>, c: Held)
    requires s.Valid() && s.Places(one) && SameCopies(one, other) && c in one
    ensures s.Places(other) && c in other && (Unjudged(s, one, c) <==> Unjudged(s, other, c))
  {
    forall h
      ensures h in one <==> h in other
    {
      assert h in one <==> h in multiset(one);
      assert h in other <==> h in multiset(other);
    }
  }

  lemma SettlingDoesNotMove(s: Search, one: seq<Held>, other: seq<Held>)
    requires s.Valid() && s.Places(one) && SameCopies(one, other)
    ensures s.Places(other) && (one == [] <==> other == [])
    ensures (SettledEarly(one) <==> SettledEarly(other)) && (NoCarrier(s, one) <==> NoCarrier(s, other))
  {
    assert |one| == |multiset(one)| && |other| == |multiset(other)|;
    forall h
      ensures h in one <==> h in other
    {
      assert h in one <==> h in multiset(one);
      assert h in other <==> h in multiset(other);
    }
    MembersDecide(s, one, other);
  }

  lemma WithoutCandidatesNonePasses(s: Search, held: seq<Held>)
    requires s.Valid() && s.Places(held) && held != [] && forall c :: !Candidate(s, held, c)
    ensures !SettledEarly(held) && NoCarrier(s, held) && NonePassesBefore(s, held, |held|)
  {
    assert !Candidate(s, held, held[0]);
    forall c | c in held
      ensures !s.CarriesTheRest(c, held)
    {
      assert !Candidate(s, held, c);
    }
    forall j | 0 <= j < |held|
      ensures NoCarrier(s, held) ==> !s.CarriesTheRestButBaseMerges(held[j], held)
    {
      assert !Candidate(s, held, held[j]);
    }
  }

  /** Where no copy can be chosen, the search of them as they stand is refused. */
  lemma WithoutCandidatesItIsRefused(s: Search, held: seq<Held>) returns (r: Choice)
    requires s.Valid() && s.Places(held) && forall c :: !Candidate(s, held, c)
    ensures MayAnswer(s, held, held, r) && r.Refused?
  {
    if held == [] {
      r := Refused(Nowhere);
    } else {
      WithoutCandidatesNonePasses(s, held);
      SomeTipDiffers(s, held);
      var from :| from in held && from.tip != held[0].tip;
      r := Refused(Diverged(held[0], from));
    }
  }

  /** And a copy that cannot be judged is refused over where it is searched first. */
  lemma UnjudgedFirstIsRefused(s: Search, held: seq<Held>, c: Held) returns (order: seq<Held>)
    requires s.Valid() && s.Places(held) && !SettledEarly(held) && NoCarrier(s, held) && c in held && Unjudged(s, held, c)
    ensures MayAnswer(s, held, order, Refused(Unreadable))
  {
    var i :| 0 <= i < |held| && held[i] == c;
    order := Leading(held, i);
    LeadingIsTheSameCopies(held, i);
    SettlingDoesNotMove(s, held, order);
    UnjudgedDoesNotMove(s, held, order, c);
    assert order[0] == c && !s.CarriesTheRestButBaseMerges(c, order);
    assert NonePassesBefore(s, order, 1);
  }

  /** What a refusal tells of the copies: none could be chosen, or one could not be judged. */
  lemma RefusedIsFor(s: Search, held: seq<Held>, order: seq<Held>, r: Choice)
    requires s.Valid() && s.Places(held) && MayAnswer(s, held, order, r) && r.Refused?
    ensures (forall c :: !Candidate(s, held, c)) || (!SettledEarly(held) && NoCarrier(s, held) && !NoneUnjudged(s, held))
  {
    SettlingDoesNotMove(s, held, order);
    if r.why.Unreadable? {
      var i: nat :| i < |order| && Unjudged(s, order, order[i]);
      assert SameCopies(order, held);
      UnjudgedDoesNotMove(s, order, held, order[i]);
    } else {
      forall c
        ensures !Candidate(s, order, c)
        ensures Candidate(s, held, c) <==> Candidate(s, order, c)
      {
        CandidatesDoNotMove(s, held, order, c);
        if c in order {
          var i :| 0 <= i < |order| && order[i] == c;
        }
      }
    }
  }

  /** The search chooses the same commit in every order exactly where some copy can be chosen, all
      that can stand at one commit, and no copy can be refused over: there is nothing to compare, or
      some copy carries the rest, or every one can be judged. */
  lemma OneCommitWhateverTheOrderIff(s: Search, held: seq<Held>)
    requires s.Valid() && s.Places(held)
    ensures OneCommitWhateverTheOrder(s, held) <==>
      && (exists c :: Candidate(s, held, c))
      && (forall a, b :: Candidate(s, held, a) && Candidate(s, held, b) ==> a.tip == b.tip)
      && (SettledEarly(held) || !NoCarrier(s, held) || NoneUnjudged(s, held))
  {
    SameCommitInEveryOrderIff(s, held);
    if forall c :: !Candidate(s, held, c) {
      var r := WithoutCandidatesItIsRefused(s, held);
    } else if !SettledEarly(held) && NoCarrier(s, held) && !NoneUnjudged(s, held) {
      var c :| c in held && Unjudged(s, held, c);
      var order := UnjudgedFirstIsRefused(s, held, c);
    } else {
      forall order: seq<Held>, r: Choice | MayAnswer(s, held, order, r)
        ensures r.Chosen?
      {
        if r.Refused? {
          RefusedIsFor(s, held, order, r);
        }
      }
    }
  }

  /** Where some copy carries the rest, that is always so. */
  lemma CarriersAreOneCommit(s: Search, held: seq<Held>)
    requires s.Valid() && s.Places(held) && !SettledEarly(held) && !NoCarrier(s, held)
    ensures SameCommitInEveryOrder(s, held)
  {
    forall a, b | Candidate(s, held, a) && Candidate(s, held, b)
      ensures a.tip == b.tip
    {
      CopiesCarryingTheRestAgree(s, a, b, held);
    }
    SameCommitInEveryOrderIff(s, held);
  }

  // ---- Two copies whose order decides ----

  const ROOT: Oid := Oid("0")
  const EARLIER: Oid := Oid("1")
  const LATER: Oid := Oid("2")
  const WORK: Oid := Oid("3")
  const MERGED_EARLIER: Oid := Oid("4")
  const MERGED_LATER: Oid := Oid("5")

  /** One piece of work, and two continuations of it that each merged another base commit. */
  function Rivalry(): World {
    World(
      map[ROOT := Commit([], Tree("0"), 0),
          EARLIER := Commit([ROOT], Tree("1"), 1),
          LATER := Commit([EARLIER], Tree("2"), 2),
          WORK := Commit([ROOT], Tree("3"), 1),
          MERGED_EARLIER := Commit([WORK, EARLIER], Tree("4"), 3),
          MERGED_LATER := Commit([WORK, LATER], Tree("5"), 3)],
      map[(WORK, EARLIER) := Tree("4"), (WORK, LATER) := Tree("5")])
  }

  lemma RivalryIsValid()
    ensures Rivalry().Valid()
    ensures ParentClosed(Rivalry(), Rivalry().commits.Keys)
  {
  }

  function Checkout(tip: Oid): View {
    View(true, Rivalry().commits.Keys, map[HeadRef("work") := tip, RemoteRef("main") := LATER])
  }

  function Publishing(): View { View(true, Rivalry().commits.Keys, map[RemoteRef("main") := LATER]) }

  /** The search that meets one of them first. */
  function RivalSearch(first: Oid, second: Oid): Search {
    Search(Rivalry(), [Checkout(first), Checkout(second)], Publishing(), "work", "main")
  }

  predicate IsRival(tip: Oid) { tip == MERGED_EARLIER || tip == MERGED_LATER }

  predicate AreRivals(first: Oid, second: Oid) { IsRival(first) && IsRival(second) && first != second }

  lemma RefsAreApart(a: string, b: string)
    ensures HeadRef(a) != RemoteRef(b)
    ensures RemoteRef(a) == RemoteRef(b) ==> a == b
  {
    assert HeadRef(a)[5] == 'h' && RemoteRef(b)[5] == 'r';
    assert RemoteRef(a)[20..] == a && RemoteRef(b)[20..] == b;
  }

  lemma RefsOfARival(tip: Oid)
    ensures var v := Checkout(tip); v.Base("main") == Some(LATER) && v.refs[HeadRef("work")] == tip
    ensures Publishing().Base("main") == Some(LATER) && Publishing().Tip(RemoteRef("work")) == None
  {
    RefsAreApart("work", "main");
    assert "work"[0] != "main"[0];
  }

  lemma RivalSearchIsValid(first: Oid, second: Oid)
    requires AreRivals(first, second)
    ensures RivalSearch(first, second).Valid()
  {
    RivalryIsValid();
  }

  lemma RivalCopy(first: Oid, second: Oid, i: nat)
    requires AreRivals(first, second) && RivalSearch(first, second).Valid() && i < 2
    ensures var s := RivalSearch(first, second);
      s.HasCopy(i) && s.CopyAt(i) == Ok(Held(i, if i == 0 then first else second, true))
  {
    RefsOfARival(first);
    RefsOfARival(second);
    var s := RivalSearch(first, second);
    assert s.views[i] == Checkout(if i == 0 then first else second);
    assert JudgedAgainst(s.views[i].objects, s.views[i], "main", s.Current()) == Some(LATER);
  }

  function RivalHeld(first: Oid, second: Oid): seq<Held> { [Held(0, first, true), Held(1, second, true)] }

  /** What the search reads: both copies, each with work of its own. */
  lemma RivalCopies(first: Oid, second: Oid)
    requires AreRivals(first, second) && RivalSearch(first, second).Valid()
    ensures RivalSearch(first, second).Copies(2) == Ok(RivalHeld(first, second))
    ensures RivalSearch(first, second).Places(RivalHeld(first, second))
  {
    var s := RivalSearch(first, second);
    RivalCopy(first, second, 0);
    RivalCopy(first, second, 1);
    var a, b := Held(0, first, true), Held(1, second, true);
    NextCopy(s, 0, [], a);
    assert [] + [a] == [a];
    NextCopy(s, 1, [a], b);
    assert [a] + [b] == RivalHeld(first, second);
    CopiesAreComplete(s, 2);
  }

  lemma NextCopy(s: Search, n: nat, before: seq<Held>, copy: Held)
    requires s.Valid() && n < |s.views| && s.Copies(n) == Ok(before) && s.HasCopy(n) && s.CopyAt(n) == Ok(copy)
    ensures s.Copies(n + 1) == Ok(before + [copy])
  {
  }

  lemma NoYoungerReaches(w: World, d: Oid, a: Oid)
    requires w.Valid() && d in w.commits && a in w.commits && a != d
    requires w.commits[a].generation >= w.commits[d].generation
    ensures !Reaches(w, d, a)
  {
    if Reaches(w, d, a) {
      HistoryIsOlder(w, d, a);
    }
  }

  lemma BaseOfTheRivals(x: Oid)
    requires Rivalry().Valid() && IsRival(x)
    ensures InBase(Rivalry(), [LATER, LATER], EARLIER) && InBase(Rivalry(), [LATER, LATER], LATER)
    ensures !InBase(Rivalry(), [LATER, LATER], x)
  {
    var w, bases := Rivalry(), [LATER, LATER];
    assert LATER == bases[0] && LATER in bases;
    assert Reaches(w, LATER, LATER) && Reaches(w, EARLIER, EARLIER);
    assert EARLIER in w.commits[LATER].parents;
    assert Reaches(w, LATER, EARLIER);
    NoYoungerReaches(w, LATER, x);
  }

  lemma RivalsAreSpent(first: Oid, second: Oid)
    requires Rivalry().Valid() && AreRivals(first, second)
    ensures Spent(Rivalry(), first, second, [LATER, LATER])
    ensures !Reaches(Rivalry(), first, second) && Reaches(Rivalry(), first, first)
  {
    var w, bases := Rivalry(), [LATER, LATER];
    NoYoungerReaches(w, first, second);
    NoYoungerReaches(w, second, first);
    BaseOfTheRivals(first);
    BaseOfTheRivals(second);
    assert CleanMergeOf(w, MERGED_EARLIER, WORK, bases) && CleanMergeOf(w, MERGED_LATER, WORK, bases);
    RivalBaseMergesPassEachOtherOver(w, WORK, first, second, bases);
  }

  lemma RivalBaseViews(first: Oid, second: Oid)
    requires AreRivals(first, second) && RivalSearch(first, second).Valid()
    ensures var s, held := RivalSearch(first, second), RivalHeld(first, second);
      && None !in s.BaseViews(held[0], held[1]) && Resolved(s.BaseViews(held[0], held[1])) == [LATER, LATER]
      && s.Hosted().None?
  {
    var s, held := RivalSearch(first, second), RivalHeld(first, second);
    RefsOfARival(first);
    RefsOfARival(second);
    assert s.BaseViews(held[0], held[1]) == [Some(LATER), Some(LATER)];
    assert [Some(LATER), Some(LATER)][1..] == [Some(LATER)];
    assert Resolved([Some(LATER)]) == [LATER];
  }

  lemma RivalIsPassedOver(first: Oid, second: Oid)
    requires AreRivals(first, second) && RivalSearch(first, second).Valid()
    ensures var s, held := RivalSearch(first, second), RivalHeld(first, second);
      && s.PassedOver(held[0], held[1]) && s.Carries(held[0], held[0])
      && !s.Carries(held[0], held[1]) && !s.Carries(held[1], held[0])
  {
    RivalBaseViews(first, second);
    RivalsAreSpent(first, second);
    RivalsAreSpent(second, first);
  }

  /** Of two copies that do not carry each other, one that passes the other over is chosen where it
      is searched first. */
  lemma FirstOfTwoIsACandidate(s: Search, a: Held, b: Held)
    requires s.Valid() && s.Places([a, b]) && a.at < |s.views| && b.at < |s.views| && a.work
    requires s.PassedOver(a, b) && s.Carries(a, a) && !s.Carries(a, b) && !s.Carries(b, a)
    ensures !SettledEarly([a, b]) && NoCarrier(s, [a, b]) && Candidate(s, [a, b], a)
  {
    var held := [a, b];
    assert a in held && b in held;
    assert !s.CarriesTheRest(a, held) && !s.CarriesTheRest(b, held);
  }

  /** The two are chosen between by which is met first, and the commit with it. */
  lemma OrderDecidesBetweenRivals(first: Oid, second: Oid, r: Choice)
    requires AreRivals(first, second)
    ensures var s := RivalSearch(first, second);
      && s.Valid() && s.Copies(|s.views|) == Ok(RivalHeld(first, second)) && s.Places(RivalHeld(first, second))
      && (Justified(s, RivalHeld(first, second), r) ==> r.Chosen? && r.copy.tip == first)
  {
    RivalSearchIsValid(first, second);
    RivalCopies(first, second);
    RivalIsPassedOver(first, second);
    FirstOfTwoIsACandidate(RivalSearch(first, second), RivalHeld(first, second)[0], RivalHeld(first, second)[1]);
    var s := RivalSearch(first, second);
    if Justified(s, RivalHeld(first, second), r) {
      FirstCandidateIsTheAnswer(s, RivalHeld(first, second), r);
    }
  }
}
