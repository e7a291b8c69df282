/**
 Which copies of a branch may be passed over: those that hold, beyond the chosen copy,
 nothing but clean merges of base commits.
 */
module CleanBaseMerges {
  import opened Basics
  import opened CommitGraph

  /** A git call that could not be answered: a base no ref resolves. */
  datatype GitError = GitFailed

  predicate InBase(w: World, bases: seq<Oid>, c: Oid)
    requires w.Valid()
  {
    exists b :: b in bases && Reaches(w, b, c)
  }

  /** `git rev-list extra --not onto bases`. */
  function Beyond(w: World, extra: Oid, onto: Oid, bases: seq<Oid>): set<Oid>
    requires w.Valid()
  {
    set c | c in w.commits.Keys && Reaches(w, extra, c) && !Reaches(w, onto, c) && !InBase(w, bases, c)
  }

  predicate MergesBase(w: World, merged: Oid, side: Oid, onto: Oid, bases: seq<Oid>, local: set<Oid>)
    requires w.Valid()
  {
    InBase(w, bases, merged) && (side in local || Reaches(w, onto, side))
  }

  /** The test one commit beyond the two histories is put to. */
  predicate CleanStep(w: World, c: Oid, onto: Oid, bases: seq<Oid>, local: set<Oid>)
    requires w.Valid() && c in w.commits
  {
    var parents := w.commits[c].parents;
    && |parents| == 2
    && (MergesBase(w, parents[1], parents[0], onto, bases, local)
        || MergesBase(w, parents[0], parents[1], onto, bases, local))
    && (parents[0], parents[1]) in w.cleanMerges
    && w.cleanMerges[(parents[0], parents[1])] == w.commits[c].tree
  }

  ghost predicate AllClean(w: World, extra: Oid, onto: Oid, bases: seq<Oid>)
    requires w.Valid()
  {
    var local := Beyond(w, extra, onto, bases);
    local != {} && forall c :: c in local ==> CleanStep(w, c, onto, bases, local)
  }

  /** `c` records exactly the tree that merging a base commit and `side` cleanly writes. */
  ghost predicate CleanMergeOf(w: World, c: Oid, side: Oid, bases: seq<Oid>)
    requires w.Valid()
  {
    && c in w.commits
    && var parents := w.commits[c].parents;
    && |parents| == 2
    && (parents[0], parents[1]) in w.cleanMerges
    && w.cleanMerges[(parents[0], parents[1])] == w.commits[c].tree
    && ((side == parents[0] && InBase(w, bases, parents[1]))
        || (side == parents[1] && InBase(w, bases, parents[0])))
  }

  /** What makes a copy spent, said without the walk: a chain that starts at the copy's tip
      and ends in the chosen copy's history, each link a clean merge of a base commit and
      the next, and none of them already in either history. */
  ghost predicate BaseMergeChain(w: World, chain: seq<Oid>, onto: Oid, bases: seq<Oid>)
    requires w.Valid()
  {
    && |chain| >= 2
    && Reaches(w, onto, chain[|chain| - 1])
    && forall i :: 0 <= i < |chain| - 1 ==>
         && CleanMergeOf(w, chain[i], chain[i + 1], bases)
         && !Reaches(w, onto, chain[i])
         && !InBase(w, bases, chain[i])
  }

  /** The chain from `extra`, the commit a spent copy stands at. */
  ghost predicate Spent(w: World, extra: Oid, onto: Oid, bases: seq<Oid>)
    requires w.Valid()
  {
    exists chain: seq<Oid> :: BaseMergeChain(w, chain, onto, bases) && chain[0] == extra
  }

  /** The loop over the commits git lists, in whatever order it lists them. */
  method OnlyCleanBaseMerges(w: World, objects: set<Oid>, extra: Oid, onto: Oid, views: seq<Option<Oid>>)
    returns (r: Result<bool, GitError>)
    requires w.Valid() && ParentClosed(w, objects)
    ensures r.Err? <==> extra in objects && onto in objects && None in views
    ensures r.Ok? ==>
      (r.value <==> extra in objects && onto in objects && Spent(w, extra, onto, Resolved(views)))
  {
    if extra !in objects || onto !in objects {
      return Ok(false);
    }
    if exists i :: 0 <= i < |views| && views[i].None? {
      return Err(GitFailed);
    }
    var bases := Resolved(views);
    CleanIffSpent(w, extra, onto, bases);
    var local := Beyond(w, extra, onto, bases);
    if local == {} {
      return Ok(false);
    }
    var unread := local;
    while unread != {}
      invariant unread <= local
      invariant forall c :: c in local - unread ==> CleanStep(w, c, onto, bases, local)
    {
      var c :| c in unread;
      if !CleanStep(w, c, onto, bases, local) {
        return Ok(false);
      }
      unread := unread - {c};
    }
    return Ok(true);
  }

  /** The commits the views of the base resolved to. */
  function Resolved(views: seq<Option<Oid>>): (bases: seq<Oid>)
    ensures forall b :: b in bases <==> Some(b) in views
  {
    if views == [] then []
    else
      var rest := Resolved(views[1..]);
      assert views == [views[0]] + views[1..];
      match views[0]
      case None => rest
      case Some(b) => [b] + rest
  }

  /** The walk and the chain are one question: every commit beyond the two histories is a
      clean base merge exactly when they form one chain down to the chosen copy's history. */
  lemma CleanIffSpent(w: World, extra: Oid, onto: Oid, bases: seq<Oid>)
    requires w.Valid()
    ensures AllClean(w, extra, onto, bases) <==> Spent(w, extra, onto, bases)
  {
    if AllClean(w, extra, onto, bases) {
      TipIsBeyond(w, extra, onto, bases);
      var chain := SideChain(w, extra, extra, onto, bases);
    }
    if Spent(w, extra, onto, bases) {
      var chain :| BaseMergeChain(w, chain, onto, bases) && chain[0] == extra;
      ChainIsClean(w, chain, onto, bases);
    }
  }

  /** Where anything is beyond the two histories, the tip itself is. */
  lemma TipIsBeyond(w: World, extra: Oid, onto: Oid, bases: seq<Oid>)
    requires w.Valid() && Beyond(w, extra, onto, bases) != {}
    ensures extra in Beyond(w, extra, onto, bases)
  {
    var c :| c in Beyond(w, extra, onto, bases);
    if Reaches(w, onto, extra) {
      ReachesIsTransitive(w, onto, extra, c);
    }
    forall b | b in bases && Reaches(w, b, extra)
      ensures false
    {
      ReachesIsTransitive(w, b, extra, c);
    }
  }

  /** Following side parents from a commit beyond the histories gives the chain. */
  lemma {:induction false} SideChain(w: World, c: Oid, extra: Oid, onto: Oid, bases: seq<Oid>)
    returns (chain: seq<Oid>)
    requires w.Valid() && AllClean(w, extra, onto, bases) && c in Beyond(w, extra, onto, bases)
    ensures BaseMergeChain(w, chain, onto, bases) && chain[0] == c
    decreases w.commits[c].generation
  {
    var local := Beyond(w, extra, onto, bases);
    assert CleanStep(w, c, onto, bases, local);
    var parents := w.commits[c].parents;
    var side := if MergesBase(w, parents[1], parents[0], onto, bases, local) then parents[0] else parents[1];
    if Reaches(w, onto, side) {
      chain := [c, side];
    } else {
      var rest := SideChain(w, side, extra, onto, bases);
      chain := [c] + rest;
      assert forall i :: 0 < i < |chain| - 1 ==> chain[i] == rest[i - 1] && chain[i + 1] == rest[i];
    }
  }

  /** Beyond the base, a clean merge adds itself to its side parent's history. */
  lemma MergeAddsItself(w: World, c: Oid, side: Oid, bases: seq<Oid>, a: Oid)
    requires w.Valid() && CleanMergeOf(w, c, side, bases) && !InBase(w, bases, a)
    ensures Reaches(w, c, a) <==> a == c || Reaches(w, side, a)
  {
    var parents := w.commits[c].parents;
    assert side in parents;
    if Reaches(w, c, a) && a != c && !Reaches(w, side, a) {
      var p :| p in parents && Reaches(w, p, a);
      assert p != side && InBase(w, bases, p);
      var b :| b in bases && Reaches(w, b, p);
      ReachesIsTransitive(w, b, p, a);
    }
  }

  lemma ChainTail(w: World, chain: seq<Oid>, onto: Oid, bases: seq<Oid>)
    requires w.Valid() && BaseMergeChain(w, chain, onto, bases) && |chain| > 2
    ensures BaseMergeChain(w, chain[1..], onto, bases)
  {
    forall i | 0 <= i < |chain[1..]| - 1
      ensures CleanMergeOf(w, chain[1..][i], chain[1..][i + 1], bases)
      ensures !Reaches(w, onto, chain[1..][i]) && !InBase(w, bases, chain[1..][i])
    {
      assert chain[1..][i] == chain[i + 1] && chain[1..][i + 1] == chain[i + 1 + 1];
    }
  }

  /** A chain holds everything its tip has beyond the two histories, and nothing else. */
  lemma {:induction false} ChainIsEverythingBeyond(w: World, chain: seq<Oid>, onto: Oid, bases: seq<Oid>, c: Oid)
    requires w.Valid() && BaseMergeChain(w, chain, onto, bases)
    ensures c in Beyond(w, chain[0], onto, bases) <==> c in chain[..|chain| - 1]
    decreases |chain|
  {
    var rest := chain[1..];
    assert chain[..|chain| - 1] == [chain[0]] + rest[..|rest| - 1];
    assert CleanMergeOf(w, chain[0], chain[1], bases);
    if !InBase(w, bases, c) {
      MergeAddsItself(w, chain[0], chain[1], bases, c);
    }
    if |chain| > 2 {
      ChainTail(w, chain, onto, bases);
      ChainIsEverythingBeyond(w, rest, onto, bases, c);
    } else if Reaches(w, chain[1], c) {
      ReachesIsTransitive(w, onto, chain[1], c);
    }
    if c in Beyond(w, chain[0], onto, bases) || c in chain[..|chain| - 1] {
      assert c in w.commits.Keys;
    }
  }

  lemma ChainIsClean(w: World, chain: seq<Oid>, onto: Oid, bases: seq<Oid>)
    requires w.Valid() && BaseMergeChain(w, chain, onto, bases)
    ensures AllClean(w, chain[0], onto, bases)
  {
    var local := Beyond(w, chain[0], onto, bases);
    forall c
      ensures c in local <==> c in chain[..|chain| - 1]
    {
      ChainIsEverythingBeyond(w, chain, onto, bases, c);
    }
    assert chain[0] in chain[..|chain| - 1];
    assert chain[0] in local;
    forall c | c in local
      ensures CleanStep(w, c, onto, bases, local)
    {
      var i :| 0 <= i < |chain| - 1 && chain[i] == c;
      assert CleanMergeOf(w, c, chain[i + 1], bases);
      if i + 1 < |chain| - 1 {
        assert chain[i + 1] in chain[..|chain| - 1];
      }
    }
  }

  /** No independent work is passed over: every commit of a spent copy that is not a merge
      is in the chosen copy's history or the base's. */
  lemma SpentHoldsNoWork(w: World, extra: Oid, onto: Oid, bases: seq<Oid>, c: Oid)
    requires w.Valid() && Spent(w, extra, onto, bases)
    requires Reaches(w, extra, c) && c in w.commits && |w.commits[c].parents| <= 1
    ensures Reaches(w, onto, c) || InBase(w, bases, c)
  {
    CleanIffSpent(w, extra, onto, bases);
    assert c in Beyond(w, extra, onto, bases) ==> CleanStep(w, c, onto, bases, Beyond(w, extra, onto, bases));
  }

  /** Being passed over is not an order: two tips that each merged some base commit into one
      piece of work pass each other over, so the one searched first is the one chosen. */
  lemma RivalBaseMergesPassEachOtherOver(w: World, work: Oid, a: Oid, b: Oid, bases: seq<Oid>)
    requires w.Valid() && CleanMergeOf(w, a, work, bases) && CleanMergeOf(w, b, work, bases)
    requires !InBase(w, bases, a) && !InBase(w, bases, b)
    requires !Reaches(w, a, b) && !Reaches(w, b, a)
    ensures Spent(w, a, b, bases) && Spent(w, b, a, bases)
  {
    assert work in w.commits[a].parents && work in w.commits[b].parents;
    assert Reaches(w, work, work) && Reaches(w, a, work) && Reaches(w, b, work);
    assert BaseMergeChain(w, [a, work], b, bases);
    assert BaseMergeChain(w, [b, work], a, bases);
  }
}
