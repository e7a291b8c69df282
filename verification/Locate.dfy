/**
 Choosing which copy of a branch is the work: every checkout's copy is compared, and the one
 whose history carries the rest is chosen, or copies holding only clean base merges are kept
 and passed over, or the search is refused.
 */
module Locate {
  import opened Basics
  import opened CommitGraph
  import opened CleanBaseMerges

  /** One repository as the search reads it. */
  datatype View = View(isRepo: bool, objects: set<Oid>, refs: map<string, Oid>) {
    ghost predicate Valid(w: World) {
      ParentClosed(w, objects) && forall r :: r in refs ==> refs[r] in objects
    }

    /** `git::tip`: the commit a ref stands at. */
    function Tip(reference: string): Option<Oid> {
      if reference in refs then Some(refs[reference]) else None
    }

    /** `vcs::base_ref`, resolved: origin's copy where there is one, else the local one. */
    function Base(base: string): Option<Oid> {
      if RemoteRef(base) in refs then Some(refs[RemoteRef(base)]) else Tip(HeadRef(base))
    }
  }

  function HeadRef(branch: string): string { "refs/heads/" + branch }

  function RemoteRef(branch: string): string { "refs/remotes/origin/" + branch }

  /** The ref a passed-over copy's tip is kept under. */
  function PassedOverRef(branch: string, tip: Oid): string {
    "refs/onevcs/passed-over/" + branch + "/" + tip.hex
  }

  /** Two tips of one branch are never kept over one another. */
  lemma PassedOverRefsAreDistinct(branch: string, a: Oid, b: Oid)
    ensures PassedOverRef(branch, a) == PassedOverRef(branch, b) ==> a == b
  {
    var prefix := "refs/onevcs/passed-over/" + branch + "/";
    assert PassedOverRef(branch, a)[|prefix|..] == a.hex;
    assert PassedOverRef(branch, b)[|prefix|..] == b.hex;
  }

  /** `vcs::judged_against`: the base now, where the objects at hand can name it. */
  function JudgedAgainst(objects: set<Oid>, own: View, base: string, current: Option<Oid>): Option<Oid> {
    if current.Some? && current.value in objects then current else own.Base(base)
  }

  /** One checkout's copy of the branch: where it is, its commit, and whether it holds
      content the base does not. */
  datatype Held = Held(at: nat, tip: Oid, work: bool)

  /** Everything one search is asked with. */
  datatype Search = Search(w: World, views: seq<View>, publication: View, branch: string, base: string) {
    ghost predicate Valid() {
      && w.Valid()
      && publication.Valid(w)
      && forall v :: v in views ==> v.Valid(w)
    }

    /** `vcs::base_commit` of the publication checkout. */
    function Current(): Option<Oid> { publication.Base(base) }

    function Hosted(): Option<Oid> { publication.Tip(RemoteRef(branch)) }

    predicate HasCopy(i: nat)
      requires i < |views|
    {
      views[i].isRepo && HeadRef(branch) in views[i].refs
    }

    /** The copy in one checkout, judged against the base. */
    function CopyAt(i: nat): Result<Held, GitError>
      requires Valid() && i < |views| && HasCopy(i)
    {
      var tip := views[i].refs[HeadRef(branch)];
      match JudgedAgainst(views[i].objects, views[i], base, Current())
      case None => Err(GitFailed)
      case Some(compared) =>
        assert views[i] in views;
        Ok(Held(i, tip, w.commits[compared].tree != w.commits[tip].tree))
    }

    /** Every copy in the first `n` checkouts, in search order. */
    function Copies(n: nat): Result<seq<Held>, GitError>
      requires Valid() && n <= |views|
    {
      if n == 0 then Ok([])
      else
        match Copies(n - 1)
        case Err(e) => Err(e)
        case Ok(before) =>
          if !HasCopy(n - 1) then Ok(before)
          else
            match CopyAt(n - 1)
            case Err(e) => Err(e)
            case Ok(copy) => Ok(before + [copy])
    }

    /** The base as the passed-over copy's store and its own checkout have it. */
    function BaseViews(copy: Held, other: Held): seq<Option<Oid>>
      requires copy.at < |views| && other.at < |views|
    {
      [JudgedAgainst(views[other.at].objects + views[copy.at].objects, views[other.at], base, Current()),
       views[other.at].Base(base)]
    }

    /** What one copy can show about another: that it is in its history. */
    predicate Carries(copy: Held, other: Held)
      requires Valid() && copy.at < |views|
    {
      KnownToReach(w, views[copy.at].objects, other.tip, copy.tip)
    }

    ghost predicate CarriesTheRest(copy: Held, held: seq<Held>)
      requires Valid() && copy.at < |views|
    {
      forall o :: o in held ==> Carries(copy, o)
    }

    predicate OnTheHost(other: Held)
      requires Valid()
    {
      Hosted().Some? && KnownToReach(w, publication.objects, other.tip, Hosted().value)
    }

    ghost predicate PassedOver(copy: Held, other: Held)
      requires Valid() && copy.at < |views| && other.at < |views|
    {
      && !OnTheHost(other)
      && None !in BaseViews(copy, other)
      && other.tip in views[other.at].objects + views[copy.at].objects
      && copy.tip in views[other.at].objects + views[copy.at].objects
      && Spent(w, other.tip, copy.tip, Resolved(BaseViews(copy, other)))
    }

    /** The copy is the work, but for copies that add only clean base merges. */
    ghost predicate CarriesTheRestButBaseMerges(copy: Held, held: seq<Held>)
      requires Valid() && copy.at < |views| && Places(held)
    {
      forall o :: o in held ==> Carries(copy, o) || PassedOver(copy, o)
    }

    /** Each copy is where it says it is. */
    ghost predicate Places(held: seq<Held>) {
      forall h :: h in held ==>
        && h.at < |views|
        && HasCopy(h.at)
        && h.tip == views[h.at].refs[HeadRef(branch)]
    }
  }

  datatype Refusal =
    | Nowhere
    | Unreadable
    | Diverged(into: Held, from: Held)
    | NotKept(copy: Held)

  datatype Choice =
    | Chosen(copy: Held, spent: seq<Held>)
    | Refused(why: Refusal)

  /** Only an answer that passes copies over writes to the publication checkout. */
  predicate MayWrite(r: Choice) {
    match r
    case Chosen(_, spent) => spent != []
    case Refused(why) => why.NotKept?
  }

  lemma {:induction false} CopiesAreComplete(s: Search, n: nat)
    requires s.Valid() && n <= |s.views| && s.Copies(n).Ok?
    ensures s.Places(s.Copies(n).value)
    ensures forall i :: 0 <= i < n && s.HasCopy(i) ==>
      s.CopyAt(i).Ok? && s.CopyAt(i).value in s.Copies(n).value
  {
    if n > 0 {
      CopiesAreComplete(s, n - 1);
    }
  }

  /** The search's first loop. */
  method ReadCopies(s: Search) returns (r: Result<seq<Held>, GitError>)
    requires s.Valid()
    ensures r == s.Copies(|s.views|)
  {
    var held: seq<Held> := [];
    for i := 0 to |s.views|
      invariant s.Copies(i) == Ok(held)
    {
      if s.HasCopy(i) {
        match s.CopyAt(i)
        case Err(e) =>
          FailureStands(s, i + 1, |s.views|);
          return Err(e);
        case Ok(copy) =>
          held := held + [copy];
      }
    }
    return Ok(held);
  }

  lemma {:induction false} FailureStands(s: Search, n: nat, m: nat)
    requires s.Valid() && n <= m <= |s.views| && s.Copies(n).Err?
    ensures s.Copies(m) == s.Copies(n)
    decreases m
  {
    if n < m {
      FailureStands(s, n, m - 1);
    }
  }

  method ReadCarriesTheRest(s: Search, copy: Held, held: seq<Held>) returns (yes: bool)
    requires s.Valid() && copy.at < |s.views|
    ensures yes <==> s.CarriesTheRest(copy, held)
  {
    for i := 0 to |held|
      invariant forall j :: 0 <= j < i ==> s.Carries(copy, held[j])
    {
      if !s.Carries(copy, held[i]) {
        return false;
      }
    }
    return true;
  }

  /** The copies `copy` passes over, or `None` where some other copy holds more. */
  method ReadPassedOver(s: Search, copy: Held, held: seq<Held>) returns (r: Result<Option<seq<Held>>, GitError>)
    requires s.Valid() && copy.at < |s.views| && s.Places(held)
    ensures r.Ok? ==> (r.value.Some? <==> s.CarriesTheRestButBaseMerges(copy, held))
    ensures r.Ok? && r.value.Some? ==>
      forall o :: o in r.value.value <==> o in held && !s.Carries(copy, o)
    ensures r.Err? ==> Unjudged(s, held, copy)
  {
    var spent: seq<Held> := [];
    for i := 0 to |held|
      invariant forall j :: 0 <= j < i ==> s.Carries(copy, held[j]) || s.PassedOver(copy, held[j])
      invariant forall o :: o in spent <==> o in held[..i] && !s.Carries(copy, o)
    {
      var other := held[i];
      assert held[..i + 1] == held[..i] + [other];
      if !s.Carries(copy, other) {
        assert other in held;
        if s.OnTheHost(other) {
          return Ok(None);
        }
        var objects := s.views[other.at].objects + s.views[copy.at].objects;
        assert s.views[other.at] in s.views && s.views[copy.at] in s.views;
        assert ParentClosed(s.w, objects);
        var clean := OnlyCleanBaseMerges(s.w, objects, other.tip, copy.tip, s.BaseViews(copy, other));
        if clean.Err? {
          assert !s.Carries(copy, other) && !s.OnTheHost(other) && None in s.BaseViews(copy, other);
          return Err(clean.error);
        }
        if !clean.value {
          return Ok(None);
        }
        spent := spent + [other];
      }
    }
    return Ok(Some(spent));
  }

  /** The base could not be read for some copy this one does not carry. */
  ghost predicate Unjudged(s: Search, held: seq<Held>, copy: Held)
    requires s.Valid() && s.Places(held) && copy.at < |s.views|
  {
    exists o :: o in held && !s.Carries(copy, o) && !s.OnTheHost(o) && None in s.BaseViews(copy, o)
  }

  ghost predicate NoCarrier(s: Search, held: seq<Held>)
    requires s.Valid() && s.Places(held)
  {
    forall c {:trigger s.CarriesTheRest(c, held)} :: c in held ==> !s.CarriesTheRest(c, held)
  }

  /** No copy before the `n`th carries the rest. */
  ghost predicate NoCarrierBefore(s: Search, held: seq<Held>, n: nat)
    requires s.Valid() && s.Places(held) && n <= |held|
  {
    forall j {:trigger s.CarriesTheRest(held[j], held)} :: 0 <= j < n ==> !s.CarriesTheRest(held[j], held)
  }

  /** Nor any that carries the rest but copies it passes over. */
  ghost predicate NonePassesBefore(s: Search, held: seq<Held>, n: nat)
    requires s.Valid() && s.Places(held) && n <= |held|
  {
    forall j {:trigger s.CarriesTheRestButBaseMerges(held[j], held)} :: 0 <= j < n ==> !s.CarriesTheRestButBaseMerges(held[j], held)
  }

  ghost predicate FirstCarrier(s: Search, held: seq<Held>, copy: Held)
    requires s.Valid() && s.Places(held)
  {
    exists i: nat :: i < |held| && held[i] == copy && s.CarriesTheRest(held[i], held) && NoCarrierBefore(s, held, i)
  }

  ghost predicate FirstPasser(s: Search, held: seq<Held>, copy: Held)
    requires s.Valid() && s.Places(held)
  {
    exists i: nat :: i < |held| && held[i] == copy && s.CarriesTheRestButBaseMerges(held[i], held) && NonePassesBefore(s, held, i)
  }

  /** What each answer of the search means, over all the copies it read: the first of them where
      there is nothing to compare, else the first that carries the rest, else the first that
      carries the rest but copies it passes over. */
  ghost predicate Justified(s: Search, held: seq<Held>, r: Choice)
    requires s.Valid() && s.Places(held)
  {
    match r
    case Chosen(copy, spent) =>
      && copy in held
      && (if SettledEarly(held) then copy == held[0]
          else if NoCarrier(s, held) then FirstPasser(s, held, copy)
          else FirstCarrier(s, held, copy))
      && (forall o :: o in spent <==> o in held && !SettledEarly(held) && !s.Carries(copy, o))
    case Refused(Nowhere) => held == []
    case Refused(Unreadable) =>
      && !SettledEarly(held) && NoCarrier(s, held)
      && exists i: nat :: i < |held| && Unjudged(s, held, held[i]) && NonePassesBefore(s, held, i + 1)
    case Refused(Diverged(into, from)) =>
      && held != [] && into == held[0] && from in held && into.tip != from.tip
      && !SettledEarly(held) && NoCarrier(s, held)
      && NonePassesBefore(s, held, |held|)
    case Refused(NotKept(_)) => false
  }

  /** The first copy that carries every other. */
  method FindCarrier(s: Search, held: seq<Held>) returns (found: Option<Held>)
    requires s.Valid() && s.Places(held)
    ensures found.None? ==> NoCarrier(s, held)
    ensures found.Some? ==> found.value in held && FirstCarrier(s, held, found.value)
  {
    for i := 0 to |held|
      invariant NoCarrierBefore(s, held, i)
    {
      var all := ReadCarriesTheRest(s, held[i], held);
      if all {
        return Some(held[i]);
      }
    }
    return None;
  }

  lemma UnjudgedIsJustified(s: Search, held: seq<Held>, i: nat)
    requires s.Valid() && s.Places(held) && !SettledEarly(held) && NoCarrier(s, held)
    requires i < |held| && Unjudged(s, held, held[i]) && NonePassesBefore(s, held, i)
    ensures Justified(s, held, Refused(Unreadable))
  {
    assert held[i] in held;
    assert NonePassesBefore(s, held, i + 1);
  }

  lemma PasserIsJustified(s: Search, held: seq<Held>, i: nat, spent: seq<Held>)
    requires s.Valid() && s.Places(held) && !SettledEarly(held) && NoCarrier(s, held)
    requires i < |held| && s.CarriesTheRestButBaseMerges(held[i], held) && NonePassesBefore(s, held, i)
    requires forall o :: o in spent <==> o in held && !s.Carries(held[i], o)
    ensures Justified(s, held, Chosen(held[i], spent))
  {
    assert held[i] in held;
    assert FirstPasser(s, held, held[i]);
  }

  /** The first copy that carries every other but those it passes over. */
  method FindPasser(s: Search, held: seq<Held>) returns (r: Option<Choice>)
    requires s.Valid() && s.Places(held) && !SettledEarly(held)
    requires NoCarrier(s, held)
    ensures r.None? ==> NonePassesBefore(s, held, |held|)
    ensures r.Some? ==> Justified(s, held, r.value)
  {
    for i := 0 to |held|
      invariant NonePassesBefore(s, held, i)
    {
      assert held[i] in held;
      var passed := ReadPassedOver(s, held[i], held);
      if passed.Err? {
        UnjudgedIsJustified(s, held, i);
        return Some(Refused(Unreadable));
      }
      if passed.value.Some? {
        PasserIsJustified(s, held, i, passed.value.value);
        return Some(Chosen(held[i], passed.value.value));
      }
    }
    return None;
  }

  /** The first copy at another commit than the first, or the second where there is none. */
  method FindDiffering(held: seq<Held>) returns (differing: Held)
    requires |held| >= 2
    ensures differing in held
    ensures differing.tip == held[0].tip ==> forall o :: o in held ==> o.tip == held[0].tip
  {
    for i := 0 to |held|
      invariant forall j :: 0 <= j < i ==> held[j].tip == held[0].tip
    {
      if held[i].tip != held[0].tip {
        return held[i];
      }
    }
    return held[1];
  }

  /** Which copy is the work, once every copy is read. */
  method Decide(s: Search, held: seq<Held>) returns (r: Choice)
    requires s.Valid() && s.Places(held)
    ensures Justified(s, held, r)
  {
    if held == [] {
      return Refused(Nowhere);
    }
    if |held| == 1 || forall i :: 0 <= i < |held| ==> !held[i].work {
      assert SettledEarly(held);
      return Chosen(held[0], []);
    }
    var carrier := FindCarrier(s, held);
    if carrier.Some? {
      CarrierIsJustified(s, carrier.value, held);
      return Chosen(carrier.value, []);
    }
    var passer := FindPasser(s, held);
    if passer.Some? {
      return passer.value;
    }
    var differing := FindDiffering(held);
    SomeTipDiffers(s, held);
    return Refused(Diverged(held[0], differing));
  }

  /** The whole choice, before anything is written. */
  method Choose(s: Search) returns (r: Choice)
    requires s.Valid()
    ensures s.Copies(|s.views|).Err? ==> r == Refused(Unreadable)
    ensures s.Copies(|s.views|).Ok? ==>
      s.Places(s.Copies(|s.views|).value) && Justified(s, s.Copies(|s.views|).value, r)
  {
    var read := ReadCopies(s);
    if read.Err? {
      return Refused(Unreadable);
    }
    CopiesAreComplete(s, |s.views|);
    r := Decide(s, read.value);
  }

  lemma CarrierIsJustified(s: Search, copy: Held, held: seq<Held>)
    requires s.Valid() && s.Places(held) && !SettledEarly(held) && copy in held && FirstCarrier(s, held, copy)
    ensures Justified(s, held, Chosen(copy, []))
  {
    assert s.CarriesTheRest(copy, held);
  }

  /** One copy, or copies of which none holds anything the base does not. */
  ghost predicate SettledEarly(held: seq<Held>) {
    |held| == 1 || forall h :: h in held ==> !h.work
  }

  /** Any two copies that carry the rest stand at one commit. */
  lemma CopiesCarryingTheRestAgree(s: Search, a: Held, b: Held, held: seq<Held>)
    requires s.Valid() && a.at < |s.views| && b.at < |s.views|
    requires a in held && b in held && s.CarriesTheRest(a, held) && s.CarriesTheRest(b, held)
    ensures a.tip == b.tip
  {
    assert s.Carries(a, b) && s.Carries(b, a);
    ReachesIsAntisymmetric(s.w, a.tip, b.tip);
  }

  /** Copies all at one commit each carry the rest, so a divergence has two commits. */
  lemma EqualTipsCarryTheRest(s: Search, copy: Held, held: seq<Held>)
    requires s.Valid() && s.Places(held) && copy in held
    requires forall o :: o in held ==> o.tip == copy.tip
    ensures s.CarriesTheRest(copy, held)
  {
    assert s.views[copy.at] in s.views;
    assert copy.tip in s.views[copy.at].objects;
    assert copy.tip in s.w.commits;
  }

  lemma SomeTipDiffers(s: Search, held: seq<Held>)
    requires s.Valid() && s.Places(held) && held != [] && NoCarrier(s, held)
    ensures exists o :: o in held && o.tip != held[0].tip
  {
    if forall o :: o in held ==> o.tip == held[0].tip {
      EqualTipsCarryTheRest(s, held[0], held);
    }
  }

  /** Where more than one copy could pass the others over, they hold the same work: the
      commits of either that are not merges and that no view of the base reaches are in the
      history of the other. */
  lemma EligibleCopiesHoldTheSameWork(s: Search, a: Held, b: Held, held: seq<Held>, c: Oid)
    requires s.Valid() && s.Places(held) && a in held && b in held
    requires s.CarriesTheRestButBaseMerges(a, held)
    requires Reaches(s.w, b.tip, c) && c in s.w.commits && |s.w.commits[c].parents| <= 1
    requires !InBase(s.w, Resolved(s.BaseViews(a, b)), c)
    ensures Reaches(s.w, a.tip, c)
  {
    if s.Carries(a, b) {
      ReachesIsTransitive(s.w, a.tip, b.tip, c);
    } else {
      SpentHoldsNoWork(s.w, b.tip, a.tip, Resolved(s.BaseViews(a, b)), c);
    }
  }

  /** A checkout the search may write kept tips into. */
  class Repository {
    var view: View

    constructor (v: View)
      ensures view == v
    {
      view := v;
    }

    /** Fetch a copy's branch, then name its tip by commit. `arrived` is whatever that fetch
        brought: nothing where it failed, and another history where the branch had moved. */
    method KeepPassedOver(w: World, arrived: set<Oid>, branch: string, tip: Oid) returns (kept: bool)
      requires w.Valid() && view.Valid(w) && ParentClosed(w, arrived)
      modifies this
      ensures view.Valid(w) && view.isRepo == old(view.isRepo)
      ensures old(view.objects) <= view.objects <= old(view.objects) + arrived
      ensures kept <==> tip in old(view.objects) + arrived
      ensures kept ==> tip in view.objects
      ensures view.refs == if kept then old(view.refs)[PassedOverRef(branch, tip) := tip] else old(view.refs)
    {
      var reference := PassedOverRef(branch, tip);
      if view.Tip(reference) == Some(tip) {
        assert view.refs == view.refs[reference := tip];
        assert tip in view.objects;
        return true;
      }
      view := view.(objects := view.objects + arrived);
      if tip !in view.objects {
        return false;
      }
      view := view.(refs := view.refs[reference := tip]);
      return true;
    }
  }

  /** The tip is held in the publication checkout, under a ref of its own, with everything
      behind it. */
  ghost predicate Kept(w: World, v: View, branch: string, tip: Oid)
    requires w.Valid()
  {
    && v.Tip(PassedOverRef(branch, tip)) == Some(tip)
    && forall c :: Reaches(w, tip, c) ==> c in v.objects
  }

  /** What becomes of a copy that was not chosen. */
  ghost predicate AccountedFor(s: Search, after: View, chosen: Held, other: Held)
    requires s.Valid() && chosen.at < |s.views| && other.at < |s.views|
  {
    || Reaches(s.w, chosen.tip, other.tip)
    || (Kept(s.w, after, s.branch, other.tip) && s.PassedOver(chosen, other))
  }

  /** Only refs of passed-over copies are written, and nothing held is let go of. */
  ghost predicate OnlyAdds(branch: string, before: View, after: View) {
    && before.objects <= after.objects
    && before.refs.Keys <= after.refs.Keys
    && forall r :: r in after.refs ==>
         || (r in before.refs && after.refs[r] == before.refs[r])
         || r == PassedOverRef(branch, after.refs[r])
  }

  /** Keep each passed-over copy's tip, stopping at the first that cannot be kept. */
  method KeepAll(s: Search, publication: Repository, arrivals: seq<set<Oid>>, spent: seq<Held>)
    returns (failed: Option<Held>)
    requires s.w.Valid() && publication.view.Valid(s.w)
    requires forall o :: o in spent ==> o.at < |arrivals|
    requires forall a :: a in arrivals ==> ParentClosed(s.w, a)
    modifies publication
    ensures publication.view.Valid(s.w)
    ensures OnlyAdds(s.branch, old(publication.view), publication.view)
    ensures failed.Some? ==>
      failed.value in spent && failed.value.tip !in old(publication.view.objects) + arrivals[failed.value.at]
    ensures spent == [] ==> failed.None? && publication.view == old(publication.view)
    ensures failed.None? ==> forall o :: o in spent ==>
      publication.view.Tip(PassedOverRef(s.branch, o.tip)) == Some(o.tip)
  {
    for i := 0 to |spent|
      invariant publication.view.Valid(s.w)
      invariant OnlyAdds(s.branch, old(publication.view), publication.view)
      invariant i == 0 ==> publication.view == old(publication.view)
      invariant forall j :: 0 <= j < i ==>
        publication.view.Tip(PassedOverRef(s.branch, spent[j].tip)) == Some(spent[j].tip)
    {
      var other := spent[i];
      assert other in spent;
      forall j | 0 <= j < i
        ensures PassedOverRef(s.branch, spent[j].tip) == PassedOverRef(s.branch, other.tip)
          ==> spent[j].tip == other.tip
      {
        PassedOverRefsAreDistinct(s.branch, spent[j].tip, other.tip);
      }
      var kept := publication.KeepPassedOver(s.w, arrivals[other.at], s.branch, other.tip);
      if !kept {
        return Some(other);
      }
    }
    return None;
  }

  // ---- What is searched for, by refs and trees ----

  ghost predicate HoldsBranch(s: Search, i: nat) {
    i < |s.views| && s.views[i].isRepo && HeadRef(s.branch) in s.views[i].refs
  }

  ghost function TipIn(s: Search, i: nat): Oid
    requires HoldsBranch(s, i)
  {
    s.views[i].refs[HeadRef(s.branch)]
  }

  /** What a repository names a branch by: origin's copy of it, or where it has none its own. */
  ghost predicate NamesBase(v: View, base: string, c: Oid) {
    if RemoteRef(base) in v.refs then c == v.refs[RemoteRef(base)] else HeadRef(base) in v.refs && c == v.refs[HeadRef(base)]
  }

  /** The base a copy is judged against: the publication checkout's where the copy's own objects hold
      it, else its own checkout's. */
  ghost predicate IsJudgedBy(s: Search, i: nat, c: Oid)
    requires i < |s.views|
  {
    if exists p :: NamesBase(s.publication, s.base, p) && p in s.views[i].objects then NamesBase(s.publication, s.base, c)
    else NamesBase(s.views[i], s.base, c)
  }

  /** Every copy has a base to be judged against. */
  ghost predicate AllJudged(s: Search) { forall i :: HoldsBranch(s, i) ==> exists c :: IsJudgedBy(s, i, c) }

  /** A checkout with a copy that names no base of its own. */
  ghost predicate NamesNoBase(s: Search, i: nat) {
    HoldsBranch(s, i) && forall c :: !NamesBase(s.views[i], s.base, c)
  }

  /** The copy's tree is the tree of that base. */
  ghost predicate HasTheBasesTree(s: Search, i: nat)
    requires HoldsBranch(s, i)
  {
    exists c :: IsJudgedBy(s, i, c) && c in s.w.commits && TipIn(s, i) in s.w.commits
      && s.w.commits[c].tree == s.w.commits[TipIn(s, i)].tree
  }

  /** A copy in one checkout, at its commit there. */
  ghost predicate IsCopy(s: Search, o: Held) { HoldsBranch(s, o.at) && o.tip == TipIn(s, o.at) }

  ghost predicate IsTheFirst(s: Search, o: Held) { IsCopy(s, o) && forall i :: 0 <= i < o.at ==> !HoldsBranch(s, i) }

  ghost predicate HasTwoCopies(s: Search) { exists i, j :: i != j && HoldsBranch(s, i) && HoldsBranch(s, j) }

  /** Some copy, of two or more, holds something the base does not. */
  ghost predicate HasWork(s: Search) { HasTwoCopies(s) && exists i :: HoldsBranch(s, i) && !HasTheBasesTree(s, i) }

  /** A copy whose own objects show every copy to be in its history. */
  ghost predicate ShowsTheRest(s: Search, i: nat)
    requires s.Valid()
  {
    HoldsBranch(s, i) && forall j :: HoldsBranch(s, j) ==> TipIn(s, j) in s.views[i].objects && Reaches(s.w, TipIn(s, i), TipIn(s, j))
  }

  lemma CopyIsJudged(s: Search, i: nat)
    requires s.Valid() && HoldsBranch(s, i)
    ensures s.HasCopy(i) && (s.CopyAt(i).Ok? <==> exists c :: IsJudgedBy(s, i, c))
    ensures s.CopyAt(i).Ok? ==>
      IsCopy(s, s.CopyAt(i).value) && s.CopyAt(i).value.at == i && (s.CopyAt(i).value.work <==> !HasTheBasesTree(s, i))
  {
    var v := s.views[i];
    assert v in s.views;
    forall u: View, c
      ensures NamesBase(u, s.base, c) <==> u.Base(s.base) == Some(c)
    {
    }
    forall c
      ensures IsJudgedBy(s, i, c) <==> JudgedAgainst(v.objects, v, s.base, s.Current()) == Some(c)
    {
    }
  }

  /** What was read of the first `n` checkouts is every copy there, in search order, each with whether it is the base's
      content. */
  ghost predicate ReadsUpTo(s: Search, held: seq<Held>, n: nat) {
    && (forall h :: h in held ==> h.at < n && IsCopy(s, h) && (h.work <==> !HasTheBasesTree(s, h.at)))
    && (forall i :: 0 <= i < n && HoldsBranch(s, i) ==> exists h :: h in held && h.at == i)
    && (forall j, k :: 0 <= j < k < |held| ==> held[j].at < held[k].at)
  }

  lemma ReadsOneMore(s: Search, before: seq<Held>, copy: Held)
    requires ReadsUpTo(s, before, copy.at) && IsCopy(s, copy) && (copy.work <==> !HasTheBasesTree(s, copy.at))
    ensures ReadsUpTo(s, before + [copy], copy.at + 1)
  {
    assert copy in before + [copy];
    forall i | 0 <= i < copy.at && HoldsBranch(s, i)
      ensures exists h :: h in before + [copy] && h.at == i
    {
      var h :| h in before && h.at == i;
      assert h in before + [copy];
    }
    assert forall j :: 0 <= j < |before| ==> before[j] in before;
  }

  /** The copies are read exactly where each has a base to be judged against. */
  lemma {:induction false} CopiesAreJudged(s: Search, n: nat)
    requires s.Valid() && n <= |s.views|
    ensures s.Copies(n).Ok? <==> forall i :: 0 <= i < n && HoldsBranch(s, i) ==> exists c :: IsJudgedBy(s, i, c)
    ensures s.Copies(n).Ok? ==> ReadsUpTo(s, s.Copies(n).value, n)
  {
    if n > 0 {
      CopiesAreJudged(s, n - 1);
      if HoldsBranch(s, n - 1) {
        CopyIsJudged(s, n - 1);
        if s.Copies(n).Ok? {
          ReadsOneMore(s, s.Copies(n - 1).value, s.CopyAt(n - 1).value);
        }
      } else {
        assert !s.HasCopy(n - 1);
      }
    }
  }

  /** Origin's copy of the branch, as the publication checkout keeps it, has this commit. */
  ghost predicate IsHosted(s: Search, c: Oid)
    requires s.Valid()
  {
    && RemoteRef(s.branch) in s.publication.refs
    && c in s.publication.objects
    && Reaches(s.w, s.publication.refs[RemoteRef(s.branch)], c)
  }

  /** The base a copy is judged against with another checkout's objects lent to it. */
  ghost predicate IsJudgedWith(s: Search, lent: nat, i: nat, c: Oid)
    requires lent < |s.views| && i < |s.views|
  {
    if exists p :: NamesBase(s.publication, s.base, p) && (p in s.views[i].objects || p in s.views[lent].objects) then
      NamesBase(s.publication, s.base, c)
    else
      NamesBase(s.views[i], s.base, c)
  }

  /** What a copy shows and what it passes over, by refs and histories: the other's commit is among its own objects
      and in its history; or the host has no such commit, and what the other adds is a chain of
      clean merges of the base, as either of them names it. */
  lemma PassedOverIff(s: Search, copy: Held, other: Held)
    requires s.Valid() && IsCopy(s, copy) && IsCopy(s, other)
    ensures s.Carries(copy, other) <==> other.tip in s.views[copy.at].objects && Reaches(s.w, copy.tip, other.tip)
    ensures s.PassedOver(copy, other) <==>
      && !IsHosted(s, other.tip)
      && exists c, d ::
           && IsJudgedWith(s, copy.at, other.at, c)
           && NamesBase(s.views[other.at], s.base, d)
           && Spent(s.w, other.tip, copy.tip, [c, d])
  {
    HostedIff(s, other);
    BaseViewsIff(s, copy, other);
    assert s.views[copy.at] in s.views && s.views[other.at] in s.views;
  }

  lemma HostedIff(s: Search, other: Held)
    requires s.Valid()
    ensures s.OnTheHost(other) <==> IsHosted(s, other.tip)
  {
  }

  lemma BaseViewsIff(s: Search, copy: Held, other: Held)
    requires s.Valid() && IsCopy(s, copy) && IsCopy(s, other)
    ensures forall c, d :: s.BaseViews(copy, other) == [Some(c), Some(d)] <==>
      IsJudgedWith(s, copy.at, other.at, c) && NamesBase(s.views[other.at], s.base, d)
    ensures None !in s.BaseViews(copy, other) ==>
      exists c, d :: s.BaseViews(copy, other) == [Some(c), Some(d)]
    ensures forall c, d :: s.BaseViews(copy, other) == [Some(c), Some(d)] ==>
      None !in s.BaseViews(copy, other) && Resolved(s.BaseViews(copy, other)) == [c, d]
  {
    forall c, d | s.BaseViews(copy, other) == [Some(c), Some(d)]
      ensures Resolved(s.BaseViews(copy, other)) == [c, d]
    {
      TwoResolve(c, d);
    }
  }

  lemma TwoResolve(c: Oid, d: Oid)
    ensures Resolved([Some(c), Some(d)]) == [c, d]
  {
    assert [Some(c), Some(d)][1..] == [Some(d)];
    assert [Some(d)][1..] == [];
    assert Resolved([Some(d)]) == [d];
  }

  /** What was read is every copy, in search order, each with whether it is the base's content. */
  ghost predicate ReadsThem(s: Search, held: seq<Held>) {
    && (forall h :: h in held ==> IsCopy(s, h) && (h.work <==> !HasTheBasesTree(s, h.at)))
    && (forall i :: HoldsBranch(s, i) ==> exists h :: h in held && h.at == i)
    && (forall j, k :: 0 <= j < k < |held| ==> held[j].at < held[k].at)
  }

  lemma WhatIsRead(s: Search)
    requires s.Valid()
    ensures s.Copies(|s.views|).Ok? <==> AllJudged(s)
    ensures AllJudged(s) ==> ReadsThem(s, s.Copies(|s.views|).value)
  {
    CopiesAreJudged(s, |s.views|);
  }

  lemma FirstReadIsTheFirst(s: Search, held: seq<Held>)
    requires ReadsThem(s, held)
    ensures held == [] <==> forall i :: !HoldsBranch(s, i)
    ensures held != [] ==> IsTheFirst(s, held[0])
  {
    forall i | HoldsBranch(s, i)
      ensures held != [] && held[0].at <= i
    {
      var h :| h in held && h.at == i;
    }
    if held != [] {
      assert held[0] in held;
      assert HoldsBranch(s, held[0].at);
    }
  }

  lemma SettledEarlyIffNoWork(s: Search, held: seq<Held>)
    requires ReadsThem(s, held) && held != []
    ensures SettledEarly(held) <==> !HasWork(s)
    ensures HasWork(s) ==> exists h :: h in held && h.work
  {
    if HasWork(s) {
      var i, j :| i != j && HoldsBranch(s, i) && HoldsBranch(s, j);
      var g, h :| g in held && g.at == i && h in held && h.at == j;
      var k :| HoldsBranch(s, k) && !HasTheBasesTree(s, k);
      var x :| x in held && x.at == k;
      assert x.work;
    } else if |held| > 1 {
      assert held[0] in held && held[1] in held;
      assert held[0].at != held[1].at;
      assert HasTwoCopies(s);
    }
  }

  /** Every copy is one of those read. */
  lemma CopyIsRead(s: Search, held: seq<Held>, o: Held)
    requires ReadsThem(s, held) && IsCopy(s, o)
    ensures exists h :: h in held && h.at == o.at && h.tip == o.tip
  {
    var h :| h in held && h.at == o.at;
    assert IsCopy(s, h);
  }

  /** A copy whose own objects show the rest carries what was read, and so does whatever was chosen,
      which is at that commit too. */
  lemma TheRestDecides(s: Search, held: seq<Held>, i: nat, r: Choice)
    requires s.Valid() && s.Places(held) && ReadsThem(s, held) && ShowsTheRest(s, i) && HasWork(s)
    requires Justified(s, held, r)
    ensures r.Chosen? && r.spent == [] && r.copy.tip == TipIn(s, i)
  {
    var c :| c in held && c.at == i;
    assert IsCopy(s, c);
    assert s.views[i] in s.views;
    forall o | o in held
      ensures s.Carries(c, o)
    {
      assert HoldsBranch(s, o.at) && o.tip == TipIn(s, o.at);
    }
    SettledEarlyIffNoWork(s, held);
    assert s.CarriesTheRest(c, held);
    assert r.Chosen? && FirstCarrier(s, held, r.copy);
    CopiesCarryingTheRestAgree(s, c, r.copy, held);
    SomethingIsThere(r.spent);
  }

  lemma SomethingIsThere<T>(x: seq<T>)
    ensures x == [] || exists o :: o in x
  {
    if x != [] {
      assert x[0] in x;
    }
  }

  /** What a copy is judged by is at hand with more objects too. */
  lemma UnnamedIsOwn(s: Search, copy: Held, o: Held)
    requires s.Valid() && copy.at < |s.views| && IsCopy(s, o) && AllJudged(s)
    requires None in s.BaseViews(copy, o)
    ensures NamesNoBase(s, o.at)
  {
    var c :| IsJudgedBy(s, o.at, c);
    assert s.views[o.at].Base(s.base).None?;
  }

  /** A search is refused for want of a base only where a copy's own checkout names none. */
  lemma UnreadableNamesNoBase(s: Search, held: seq<Held>)
    requires s.Valid() && s.Places(held) && ReadsThem(s, held) && AllJudged(s)
    requires Justified(s, held, Refused(Unreadable))
    ensures exists i: nat :: NamesNoBase(s, i)
  {
    var k: nat :| k < |held| && Unjudged(s, held, held[k]);
    var o :| o in held && None in s.BaseViews(held[k], o);
    UnnamedIsOwn(s, held[k], o);
  }

  /** The copies a divergence names are two copies, the first and one at another commit. */
  ghost predicate Diverges(s: Search, into: Held, from: Held)
    requires s.Valid()
  {
    && HasWork(s) && IsTheFirst(s, into) && IsCopy(s, from) && into.tip != from.tip
    && (forall i :: !ShowsTheRest(s, i))
    && forall c {:trigger IsNotTheWork(s, c)} :: IsCopy(s, c) ==> IsNotTheWork(s, c)
  }

  /** Some copy is neither in this one's history nor passed over for it. */
  ghost predicate IsNotTheWork(s: Search, c: Held)
    requires s.Valid() && IsCopy(s, c)
  {
    exists o :: IsCopy(s, o) && !s.Carries(c, o) && !s.PassedOver(c, o)
  }

  lemma NobodyShowsTheRest(s: Search, held: seq<Held>, r: Choice)
    requires s.Valid() && s.Places(held) && ReadsThem(s, held) && Justified(s, held, r) && r.Refused? && HasWork(s)
    ensures forall i :: !ShowsTheRest(s, i)
  {
    forall i
      ensures !ShowsTheRest(s, i)
    {
      if ShowsTheRest(s, i) {
        TheRestDecides(s, held, i, r);
      }
    }
  }

  lemma NothingPassesRead(s: Search, held: seq<Held>, k: nat)
    requires s.Valid() && s.Places(held) && ReadsThem(s, held) && NonePassesBefore(s, held, |held|) && k < |held|
    ensures IsCopy(s, held[k]) && IsNotTheWork(s, held[k])
  {
    assert !s.CarriesTheRestButBaseMerges(held[k], held);
    var o :| o in held && !s.Carries(held[k], o) && !s.PassedOver(held[k], o);
    assert IsCopy(s, o);
  }

  lemma SameCopySameAnswer(s: Search, h: Held, c: Held)
    requires s.Valid() && IsCopy(s, h) && IsNotTheWork(s, h) && IsCopy(s, c) && h.at == c.at
    ensures IsNotTheWork(s, c)
  {
    var o :| IsCopy(s, o) && !s.Carries(h, o) && !s.PassedOver(h, o);
    assert s.BaseViews(c, o) == s.BaseViews(h, o);
  }

  lemma NothingPasses(s: Search, held: seq<Held>, c: Held)
    requires s.Valid() && s.Places(held) && ReadsThem(s, held) && NonePassesBefore(s, held, |held|) && IsCopy(s, c)
    ensures IsNotTheWork(s, c)
  {
    CopyIsRead(s, held, c);
    var k :| 0 <= k < |held| && held[k].at == c.at && held[k].tip == c.tip;
    NothingPassesRead(s, held, k);
    SameCopySameAnswer(s, held[k], c);
  }

  lemma DivergenceNamesTwo(s: Search, held: seq<Held>, into: Held, from: Held)
    requires s.Valid() && s.Places(held) && ReadsThem(s, held) && Justified(s, held, Refused(Diverged(into, from)))
    ensures HasWork(s) && IsTheFirst(s, into) && IsCopy(s, from) && into.tip != from.tip
    ensures NonePassesBefore(s, held, |held|)
  {
    FirstReadIsTheFirst(s, held);
    SettledEarlyIffNoWork(s, held);
  }

  lemma DivergenceIsReal(s: Search, held: seq<Held>, into: Held, from: Held)
    requires s.Valid() && s.Places(held) && ReadsThem(s, held) && Justified(s, held, Refused(Diverged(into, from)))
    ensures Diverges(s, into, from)
  {
    DivergenceNamesTwo(s, held, into, from);
    NobodyShowsTheRest(s, held, Refused(Diverged(into, from)));
    NoneIsTheWork(s, held);
  }

  lemma NoneIsTheWork(s: Search, held: seq<Held>)
    requires s.Valid() && s.Places(held) && ReadsThem(s, held) && NonePassesBefore(s, held, |held|)
    ensures forall c {:trigger IsNotTheWork(s, c)} :: IsCopy(s, c) ==> IsNotTheWork(s, c)
  {
    forall c | IsCopy(s, c)
      ensures IsNotTheWork(s, c)
    {
      NothingPasses(s, held, c);
    }
  }

  /** The search over the copies read, and the keeping of what it passes over. `arrivals` is what fetching each
      checkout's copy brings, which other processes may decide. */
  method LocateHeld(s: Search, publication: Repository, arrivals: seq<set<Oid>>) returns (r: Choice)
    requires s.Valid() && publication.view == s.publication
    requires |arrivals| == |s.views| && forall a :: a in arrivals ==> ParentClosed(s.w, a)
    modifies publication
    ensures OnlyAdds(s.branch, s.publication, publication.view)
    ensures s.Copies(|s.views|).Err? ==> r == Refused(Unreadable)
    ensures s.Copies(|s.views|).Ok? ==>
      && var held := s.Copies(|s.views|).value;
      && s.Places(held)
      && (if r.Refused? && r.why.NotKept? then
            && (exists chosen: Choice :: chosen.Chosen? && Justified(s, held, chosen) && r.why.copy in chosen.spent)
            && r.why.copy in held && r.why.copy.tip !in s.publication.objects + arrivals[r.why.copy.at]
          else Justified(s, held, r))
      && (r.Chosen? ==>
            || (forall o :: o in held ==> AccountedFor(s, publication.view, r.copy, o))
            || (forall o :: o in held ==> !o.work))
    ensures !MayWrite(r) ==> publication.view == s.publication
  {
    r := Choose(s);
    if r.Refused? {
      return;
    }
    ghost var held, chosen := s.Copies(|s.views|).value, r;
    var failed := KeepAll(s, publication, arrivals, r.spent);
    if failed.Some? {
      r := Refused(NotKept(failed.value));
      assert Justified(s, held, chosen) && failed.value in chosen.spent;
      return;
    }
    if exists h :: h in held && h.work {
      forall o | o in held
        ensures AccountedFor(s, publication.view, r.copy, o)
      {
        EveryCopyIsAccountedFor(s, publication.view, held, r, o);
      }
    }
  }

  lemma EveryCopyIsAccountedFor(s: Search, after: View, held: seq<Held>, r: Choice, o: Held)
    requires s.Valid() && after.Valid(s.w) && r.Chosen? && s.Places(held) && o in held
    requires Justified(s, held, r) && exists h :: h in held && h.work
    requires forall x :: x in r.spent ==> after.Tip(PassedOverRef(s.branch, x.tip)) == Some(x.tip)
    ensures AccountedFor(s, after, r.copy, o)
  {
    if |held| == 1 {
      assert o == r.copy;
      assert s.views[o.at] in s.views;
    } else if !s.Carries(r.copy, o) {
      assert o in r.spent;
      forall c | Reaches(s.w, o.tip, c)
        ensures c in after.objects
      {
        StoreHoldsHistory(s.w, after.objects, o.tip, c);
      }
    }
  }

  /** Nothing in a copy that was not chosen is lost: a commit of it is in the chosen history,
      or it is held in the publication checkout and, unless it is a merge, is the base's. */
  lemma AccountedCopyLosesNothing(s: Search, after: View, chosen: Held, other: Held, c: Oid)
    requires s.Valid() && chosen.at < |s.views| && other.at < |s.views|
    requires AccountedFor(s, after, chosen, other) && Reaches(s.w, other.tip, c)
    ensures Reaches(s.w, chosen.tip, c) || c in after.objects
    ensures c in s.w.commits && |s.w.commits[c].parents| <= 1 ==>
      Reaches(s.w, chosen.tip, c) || InBase(s.w, Resolved(s.BaseViews(chosen, other)), c)
  {
    if Reaches(s.w, chosen.tip, other.tip) {
      ReachesIsTransitive(s.w, chosen.tip, other.tip, c);
    } else if c in s.w.commits && |s.w.commits[c].parents| <= 1 {
      SpentHoldsNoWork(s.w, other.tip, chosen.tip, Resolved(s.BaseViews(chosen, other)), c);
    }
  }

  /** The search as its callers see it: by what the checkouts' refs and trees are. Without a base for some
      copy it is refused; where at most one copy is there, or every copy is only the base's content,
      the first is the answer; where one shows the rest in its history, its commit is; and otherwise
      whatever is chosen, every copy of the branch is in its history or kept and passed over. */
  method LocateBranch(s: Search, publication: Repository, arrivals: seq<set<Oid>>) returns (r: Choice)
    requires s.Valid() && publication.view == s.publication
    requires |arrivals| == |s.views| && forall a :: a in arrivals ==> ParentClosed(s.w, a)
    modifies publication
    ensures OnlyAdds(s.branch, s.publication, publication.view)
    ensures !MayWrite(r) ==> publication.view == s.publication
    ensures !AllJudged(s) ==> r == Refused(Unreadable)
    ensures AllJudged(s) && r == Refused(Unreadable) ==>
      exists i: nat :: NamesNoBase(s, i)
    ensures AllJudged(s) ==> (r == Refused(Nowhere) <==> forall i :: !HoldsBranch(s, i))
    ensures AllJudged(s) && (exists i :: HoldsBranch(s, i)) && !HasWork(s) ==>
      r.Chosen? && IsTheFirst(s, r.copy) && r.spent == []
    ensures AllJudged(s) && HasWork(s) && r.Chosen? ==>
      IsCopy(s, r.copy) && forall o :: IsCopy(s, o) ==> AccountedFor(s, publication.view, r.copy, o)
    ensures forall i :: AllJudged(s) && HasWork(s) && ShowsTheRest(s, i) ==>
      r.Chosen? && r.spent == [] && r.copy.tip == TipIn(s, i)
    ensures r.Refused? && r.why.Diverged? ==> Diverges(s, r.why.into, r.why.from)
    ensures r.Refused? && r.why.NotKept? ==>
      IsCopy(s, r.why.copy) && r.why.copy.tip !in s.publication.objects + arrivals[r.why.copy.at]
  {
    WhatIsRead(s);
    r := LocateHeld(s, publication, arrivals);
    if s.Copies(|s.views|).Ok? {
      AnswerByRefs(s, s.Copies(|s.views|).value, publication.view, r);
    }
  }

  lemma FirstIsChosen(s: Search, held: seq<Held>, r: Choice)
    requires s.Valid() && s.Places(held) && ReadsThem(s, held) && held != [] && !HasWork(s) && Justified(s, held, r)
    ensures r.Chosen? && IsTheFirst(s, r.copy) && r.spent == []
  {
    FirstReadIsTheFirst(s, held);
    SettledEarlyIffNoWork(s, held);
    if r.Chosen? {
      SomethingIsThere(r.spent);
    }
  }

  lemma ChosenByRefs(s: Search, held: seq<Held>, after: View, copy: Held)
    requires s.Valid() && s.Places(held) && ReadsThem(s, held) && copy in held
    requires (forall o :: o in held ==> AccountedFor(s, after, copy, o)) || (forall o :: o in held ==> !o.work)
    ensures IsCopy(s, copy)
    ensures HasWork(s) ==> forall o :: IsCopy(s, o) ==> AccountedFor(s, after, copy, o)
  {
    if HasWork(s) {
      SettledEarlyIffNoWork(s, held);
      forall o | IsCopy(s, o)
        ensures AccountedFor(s, after, copy, o)
      {
        CopyIsRead(s, held, o);
      }
    }
  }

  /** What an answer over the copies read says of the checkouts. */
  lemma AnswerByRefs(s: Search, held: seq<Held>, after: View, r: Choice)
    requires s.Valid() && s.Places(held) && ReadsThem(s, held) && AllJudged(s)
    requires if r.Refused? && r.why.NotKept? then
               r.why.copy in held
               && exists chosen: Choice :: chosen.Chosen? && Justified(s, held, chosen) && r.why.copy in chosen.spent
             else Justified(s, held, r)
    requires r.Chosen? ==>
      (forall o :: o in held ==> AccountedFor(s, after, r.copy, o)) || (forall o :: o in held ==> !o.work)
    ensures r == Refused(Unreadable) ==>
      exists i: nat :: NamesNoBase(s, i)
    ensures r == Refused(Nowhere) <==> forall i :: !HoldsBranch(s, i)
    ensures (exists i :: HoldsBranch(s, i)) && !HasWork(s) ==> r.Chosen? && IsTheFirst(s, r.copy) && r.spent == []
    ensures HasWork(s) && r.Chosen? ==>
      IsCopy(s, r.copy) && forall o :: IsCopy(s, o) ==> AccountedFor(s, after, r.copy, o)
    ensures forall i :: HasWork(s) && ShowsTheRest(s, i) ==> r.Chosen? && r.spent == [] && r.copy.tip == TipIn(s, i)
    ensures r.Refused? && r.why.Diverged? ==> Diverges(s, r.why.into, r.why.from)
    ensures r.Refused? && r.why.NotKept? ==> IsCopy(s, r.why.copy)
  {
    FirstReadIsTheFirst(s, held);
    var decided: Choice := r;
    if r.Refused? && r.why.NotKept? {
      var chosen: Choice :| chosen.Chosen? && Justified(s, held, chosen) && r.why.copy in chosen.spent;
      decided := chosen;
    }
    if held != [] && !HasWork(s) {
      FirstIsChosen(s, held, decided);
    }
    forall i | HasWork(s) && ShowsTheRest(s, i)
      ensures decided.Chosen? && decided.spent == [] && decided.copy.tip == TipIn(s, i)
    {
      TheRestDecides(s, held, i, decided);
    }
    match r
    case Chosen(copy, _) =>
      ChosenByRefs(s, held, after, copy);
    case Refused(Nowhere) =>
    case Refused(Unreadable) =>
      UnreadableNamesNoBase(s, held);
    case Refused(Diverged(into, from)) =>
      DivergenceIsReal(s, held, into, from);
    case Refused(NotKept(copy)) =>
  }
}
