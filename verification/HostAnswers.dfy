/**
 What each call and each person's move on a host is answered, and what it leaves: said of the
 changes, branches and merges there are before it.
 */
module HostAnswers {
  import opened Basics
  import opened Checks
  import opened HostDocument
  import opened HostRuns
  import opened HostService
  import BranchNames

  /** The first change by an identifier, and where it stands. */
  ghost predicate Stands(s: HostState, id: ChangeId, k: nat, c: Change) {
    IsTheFirst(s.shelf.changes, id, k) && s.shelf.changes[k] == c
  }

  lemma OpenedStandsSomewhere(s: HostState, id: ChangeId) returns (k: nat)
    ensures Opened(s, id) <==> IsTheFirst(s.shelf.changes, id, k)
    ensures Opened(s, id) ==> Find(s.shelf.changes, id) == Some(s.shelf.changes[k])
  {
    k := FindsTheFirst(s.shelf.changes, id);
  }

  /** The first is the only first. */
  lemma FirstIsFound(s: HostState, id: ChangeId, k: nat)
    requires IsTheFirst(s.shelf.changes, id, k)
    ensures Opened(s, id) && Find(s.shelf.changes, id) == Some(s.shelf.changes[k])
  {
    var j := FindsTheFirst(s.shelf.changes, id);
    assert s.shelf.changes[k] in s.shelf.changes;
  }

  // ---- Opening and finding ----

  /** A change that is opened stands last, by the next number, as it was asked for: a draft exactly where one was,
      and nothing of any other change is touched. */
  lemma OpensAsAsked(s: HostState, slug: string, spec: ChangeSpec)
    requires Consistent(s) && Openable(spec) && NextId(s) !in s.drafting.madeReady
    ensures var (t, made) := OpenChange(s, slug, spec);
      && made.Ok? && t.shelf.changes == s.shelf.changes + [made.value]
      && made.value.base == spec.base && HasHead(t, made.value.id, spec.head)
      && made.value.id in t.record.titles && t.record.titles[made.value.id] == spec.title
      && (spec.body.Some? ==> made.value.id in t.record.bodies && t.record.bodies[made.value.id] == spec.body.value)
      && (Drafted(t, made.value.id) <==> spec.draft.Some? || spec.awaitingChecks)
      && (spec.draft.Some? ==>
            made.value.id in t.drafting.reasons && t.drafting.reasons[made.value.id] == spec.draft.value)
      && !Opened(s, made.value.id)
      && forall id :: id != made.value.id ==>
           (Opened(t, id) <==> Opened(s, id)) && (Drafted(t, id) <==> Drafted(s, id)) && HeadOf(t, id) == HeadOf(s, id)
  {
    NextIdIsFresh(s);
  }

  /** What is found is the unmerged changes from a head onto a base and no other, in the order they stand. */
  lemma {:induction false} FoundInOrder(s: HostState, changes: seq<Change>, head: string, base: string)
    returns (at: seq<nat>)
    ensures |at| == |Matching(s, changes, head, base)|
    ensures forall k :: 0 <= k < |at| ==> at[k] < |changes| && Matching(s, changes, head, base)[k] == changes[at[k]]
    ensures forall j, k :: 0 <= j < k < |at| ==> at[j] < at[k]
    ensures forall i :: 0 <= i < |changes| ==>
      (i in at <==> changes[i].base == base && HasHead(s, changes[i].id, head) && !IsMerged(s, changes[i].id))
    decreases |changes|
  {
    if changes == [] {
      at := [];
    } else {
      var before, last := changes[..|changes| - 1], |changes| - 1;
      at := FoundInOrder(s, before, head, base);
      assert forall i :: 0 <= i < last ==> changes[i] == before[i];
      if changes[last].base == base && HasHead(s, changes[last].id, head) && !IsMerged(s, changes[last].id) {
        at := at + [last];
      }
    }
  }

  // ---- Closing and reopening ----

  /** A person closes any change that was opened, and no other is touched. */
  lemma ClosesIff(s: HostState, id: ChangeId)
    ensures var (t, answer) := CloseUnmerged(s, id);
      && (answer.Ok? <==> Opened(s, id))
      && t == s.(shelf := s.shelf.(closed := t.shelf.closed))
      && forall other :: IsOpen(t, other) <==> IsOpen(s, other) && !(Opened(s, id) && other == id)
  {
  }

  /** A closed change is opened again exactly where its base is still there, and no other is touched. */
  lemma ReopensIff(s: HostState, id: ChangeId)
    ensures var (t, answer) := ReopenChange(s, id);
      var takes := !IsBlank(id) && id in s.shelf.closed
        && exists k: nat, c :: Stands(s, id, k, c) && c.base !in s.shelf.deleted;
      && (answer.Ok? <==> takes)
      && t == s.(ledger := t.ledger, shelf := s.shelf.(closed := t.shelf.closed))
      && forall other :: IsOpen(t, other) <==> IsOpen(s, other) || (takes && other == id && !IsMerged(s, id))
  {
    var k := OpenedStandsSomewhere(s, id);
    if Opened(s, id) {
      assert Stands(s, id, k, s.shelf.changes[k]);
    }
    forall j: nat, c | Stands(s, id, j, c)
      ensures Find(s.shelf.changes, id) == Some(c)
    {
      FirstIsFound(s, id, j);
    }
  }

  // ---- Moving a base ----

  /** One base moved: of the first change by that identifier, and nothing else of any. */
  ghost predicate MovedOne(s: HostState, t: HostState, id: ChangeId, base: string) {
    exists k: nat, c :: Stands(s, id, k, c) && t.shelf == s.shelf.(changes := s.shelf.changes[k := c.(base := base)])
  }

  lemma RetargetInMovesOne(s: HostState, t: HostState, id: ChangeId, base: string)
    requires Opened(s, id) && t.shelf == s.shelf.(changes := RetargetIn(s.shelf.changes, id, base))
    ensures MovedOne(s, t, id, base)
  {
    var k := OpenedStandsSomewhere(s, id);
    RetargetMovesTheFirst(s.shelf.changes, id, base, k);
    assert Stands(s, id, k, s.shelf.changes[k]);
  }

  /** The host moves a change that is open onto a base that is there, and gives it the body that came with it. */
  lemma RetargetsIff(s: HostState, id: ChangeId, base: string, body: Option<string>)
    ensures var (t, answer) := RetargetChange(s, id, base, body);
      && (answer.Ok? <==>
            !IsBlank(id) && Addressable(base) && Opened(s, id) && IsOpen(s, id) && base !in s.shelf.deleted)
      && (answer.Ok? ==>
            && MovedOne(s, t, id, base)
            && t.record == s.record.(bodies := t.record.bodies)
            && t.record.bodies == if body.Some? then s.record.bodies[id := body.value] else s.record.bodies)
      && (answer.Err? ==> t == s.(ledger := t.ledger))
  {
    var (t, answer) := RetargetChange(s, id, base, body);
    if answer.Ok? {
      RetargetInMovesOne(s, t, id, base);
    }
  }

  /** A person moves any change that was opened, merged or closed, onto any name git would accept. */
  lemma PersonRetargetsIff(s: HostState, id: ChangeId, base: string)
    ensures var (t, answer) := RetargetByPerson(s, id, base);
      && (answer.Ok? <==> BranchNames.NamedBranch(base) && Opened(s, id))
      && (answer.Ok? ==> MovedOne(s, t, id, base) && t == s.(shelf := t.shelf))
      && (answer.Err? ==> t == s)
  {
    var (t, answer) := RetargetByPerson(s, id, base);
    if answer.Ok? {
      RetargetInMovesOne(s, t, id, base);
    }
  }

  // ---- A person's merge ----

  /** A merge by a person: its commit and its moment stored, and of no other change. */
  ghost predicate PersonLanded(s: HostState, t: HostState, id: ChangeId, sha: Sha, at: Stamp) {
    && t.landings == s.landings.(merges := s.landings.merges[id := Merged(sha)], times := s.landings.times[id := at])
    && t == s.(shelf := t.shelf, landings := t.landings)
  }

  /** What becomes of another change where a merged head is deleted: one that is open and based on it is
      closed, or is moved onto the base of what merged. */
  ghost predicate MeetsDeletion(s: HostState, t: HostState, id: ChangeId, branch: string, onto: string,
                                dependants: Dependants, i: nat)
    requires i < |s.shelf.changes|
  {
    var c := s.shelf.changes[i];
    var follows := c.base == branch && c.id != id && IsOpen(s, c.id);
    && i < |t.shelf.changes|
    && t.shelf.changes[i] == (if follows && dependants.RetargetThem? then c.(base := onto) else c)
    && (c.id != id ==> (IsOpen(t, c.id) <==> IsOpen(s, c.id) && !(follows && dependants.CloseThem?)))
  }

  /** A person merges a change that is open at a moment there is, which the host stores; the head is kept, or is
      deleted with what becomes of the changes based on it. */
  lemma PersonMergesIff(s: HostState, id: ChangeId, how: string, at: Stamp, head: HeadAfter)
    requires Numbered(s)
    ensures var (t, answer) := MergeByPerson(s, id, how, at, head);
      && (answer.Ok? <==> Opened(s, id) && at.Moment? && IsOpen(s, id))
      && (answer.Err? ==> t == s)
      && (answer.Ok? ==> PersonLanded(s, t, id, answer.value, at))
      && (answer.Ok? && head.HeadKept? ==> t.shelf == s.shelf)
      && (answer.Ok? && head.HeadDeleted? ==>
            && t.shelf.deleted == s.shelf.deleted + {HeadOf(s, id)} && |t.shelf.changes| == |s.shelf.changes|
            && exists k: nat, c :: Stands(s, id, k, c) && forall i :: 0 <= i < |s.shelf.changes| ==>
                 MeetsDeletion(s, t, id, HeadOf(s, id), c.base, head.dependants, i))
  {
    var k := OpenedStandsSomewhere(s, id);
    var (t, answer) := MergeByPerson(s, id, how, at, head);
    if answer.Ok? && head.HeadDeleted? {
      var c := s.shelf.changes[k];
      assert Stands(s, id, k, c);
      forall i | 0 <= i < |s.shelf.changes|
        ensures MeetsDeletion(s, t, id, HeadOf(s, id), c.base, head.dependants, i)
      {
        DeletionIsMet(s, t, id, answer.value, at, c.base, head.dependants, i);
      }
      DeletionIsMet(s, t, id, answer.value, at, c.base, head.dependants, k);
    }
  }

  function PersonMerged(s: HostState, id: ChangeId, sha: Sha, at: Stamp): HostState {
    s.(landings := s.landings.(merges := s.landings.merges[id := Merged(sha)], times := s.landings.times[id := at]))
  }

  lemma DeletionIsMet(s: HostState, t: HostState, id: ChangeId, sha: Sha, at: Stamp, onto: string,
                      dependants: Dependants, i: nat)
    requires Numbered(s) && i < |s.shelf.changes| && IsOpen(s, id)
    requires t == DeleteHead(PersonMerged(s, id, sha, at), HeadOf(s, id), onto, dependants)
    ensures |t.shelf.changes| == |s.shelf.changes| && MeetsDeletion(s, t, id, HeadOf(s, id), onto, dependants, i)
  {
    var merged := PersonMerged(s, id, sha, at);
    DeletingMoves(merged, HeadOf(s, id), onto, dependants, i);
    var c := s.shelf.changes[i];
    assert IsOpen(merged, c.id) <==> IsOpen(s, c.id) && c.id != id;
  }
}
