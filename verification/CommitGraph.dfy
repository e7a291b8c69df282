/**
 Commits as git keeps them: an acyclic parent graph with a tree on every commit, and the
 answers the git calls used when copies of a branch are compared give over it.
 */
module CommitGraph {
  import opened Basics

  datatype Oid = Oid(hex: string)

  datatype Tree = Tree(hex: string)

  /** `generation` is the commit's height above the roots, which witnesses that the graph
      has no cycle; nothing else is read out of it. */
  datatype Commit = Commit(parents: seq<Oid>, tree: Tree, generation: nat)

  /** Every commit any repository holds, and the tree each clean merge writes. A pair that
      is absent from `cleanMerges` is one that conflicts. */
  datatype World = World(commits: map<Oid, Commit>, cleanMerges: map<(Oid, Oid), Tree>) {
    ghost predicate Valid() {
      forall c, p :: c in commits && p in commits[c].parents ==>
        p in commits && commits[p].generation < commits[c].generation
    }
  }

  /** `git merge-base --is-ancestor a d`: whether `a` is in the history of `d`. */
  predicate Reaches(w: World, d: Oid, a: Oid)
    requires w.Valid()
    decreases if d in w.commits then w.commits[d].generation else 0
  {
    d in w.commits && (a == d || exists p :: p in w.commits[d].parents && Reaches(w, p, a))
  }

  lemma {:induction false} ReachesIsTransitive(w: World, a: Oid, b: Oid, c: Oid)
    requires w.Valid() && Reaches(w, a, b) && Reaches(w, b, c)
    ensures Reaches(w, a, c)
    decreases w.commits[a].generation
  {
    if a != b {
      var p :| p in w.commits[a].parents && Reaches(w, p, b);
      ReachesIsTransitive(w, p, b, c);
    }
  }

  lemma {:induction false} HistoryIsOlder(w: World, d: Oid, a: Oid)
    requires w.Valid() && Reaches(w, d, a)
    ensures a in w.commits
    ensures a == d || w.commits[a].generation < w.commits[d].generation
    decreases w.commits[d].generation
  {
    if a != d {
      var p :| p in w.commits[d].parents && Reaches(w, p, a);
      HistoryIsOlder(w, p, a);
    }
  }

  /** Two commits in each other's history are one commit. */
  lemma ReachesIsAntisymmetric(w: World, a: Oid, b: Oid)
    requires w.Valid() && Reaches(w, a, b) && Reaches(w, b, a)
    ensures a == b
  {
    HistoryIsOlder(w, a, b);
    HistoryIsOlder(w, b, a);
  }

  /** What an object store holds: with a commit, everything behind it. */
  ghost predicate ParentClosed(w: World, objects: set<Oid>) {
    && objects <= w.commits.Keys
    && forall c, p :: c in objects && p in w.commits[c].parents ==> p in objects
  }

  /** A store that holds a commit holds its whole history. */
  lemma {:induction false} StoreHoldsHistory(w: World, objects: set<Oid>, d: Oid, a: Oid)
    requires w.Valid() && ParentClosed(w, objects) && d in objects && Reaches(w, d, a)
    ensures a in objects
    decreases w.commits[d].generation
  {
    if a != d {
      var p :| p in w.commits[d].parents && Reaches(w, p, a);
      StoreHoldsHistory(w, objects, p, a);
    }
  }

  /** `git::known_to_reach`: whether this store can show that `d` reaches `a`. */
  predicate KnownToReach(w: World, objects: set<Oid>, a: Oid, d: Oid)
    requires w.Valid()
  {
    a in objects && d in objects && Reaches(w, d, a)
  }
}
