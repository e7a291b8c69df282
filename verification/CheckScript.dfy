/**
 A scripted change's place in its script: scanning the host's whole ledger on every answer is
 the same as keeping two counters, one for every reading and one that each lift starts again.
 */
module CheckScript {
  import opened Basics
  import opened Checks
  import opened HostDocument

  /** `read` so far, and `sinceLift` where the change was ever lifted. */
  datatype Counters = Counters(read: nat, sinceLift: Option<nat>)

  function Tick(c: Counters, call: HostCall, id: ChangeId): Counters {
    if Lifts(call, id) then c.(sinceLift := Some(0))
    else if Reads(call, id) then
      Counters(c.read + 1, if c.sinceLift.Some? then Some(c.sinceLift.value + 1) else None)
    else c
  }

  function CountersOf(ledger: seq<HostCall>, id: ChangeId): Counters {
    if ledger == [] then Counters(0, None)
    else Tick(CountersOf(ledger[..|ledger| - 1], id), ledger[|ledger| - 1], id)
  }

  /** What those two counters answer. */
  function Scripted(seeds: Seeds, c: Counters, id: ChangeId): Option<seq<Check>> {
    var after :=
      if c.sinceLift.Some? && id in seeds.readingsAfterLift
      then Entry(seeds.readingsAfterLift[id], c.sinceLift.value) else None;
    if after.Some? then after
    else if id in seeds.readings then Entry(seeds.readings[id], c.read) else None
  }

  lemma {:induction false} ScanKeepsCounters(ledger: seq<HostCall>, id: ChangeId)
    ensures CountersOf(ledger, id).read == CountReads(ledger, id)
    ensures CountersOf(ledger, id).sinceLift ==
      match LastLift(ledger, id)
      case None => None
      case Some(at) => Some(CountReads(ledger[at..], id))
    decreases |ledger|
  {
    if ledger != [] {
      var before, last := ledger[..|ledger| - 1], ledger[|ledger| - 1];
      ScanKeepsCounters(before, id);
      if Lifts(last, id) {
        assert ledger[|ledger| - 1..] == [last];
        assert CountReads([last], id) == CountReads([last][..0], id);
      } else if LastLift(ledger, id).Some? {
        var at := LastLift(ledger, id).value;
        assert ledger[at..][..|ledger[at..]| - 1] == before[at..];
      }
    }
  }

  /** The scan refines the counters, for every ledger. */
  lemma ScanIsTheCounters(s: HostState, id: ChangeId)
    ensures Scripted(s.seeds, CountersOf(s.ledger, id), id).Some? ==>
      CurrentChecks(s, id) == Scripted(s.seeds, CountersOf(s.ledger, id), id).value
    ensures Scripted(s.seeds, CountersOf(s.ledger, id), id).None? ==>
      CurrentChecks(s, id) ==
        if id in s.drafting.madeReady && id in s.seeds.checksAfterLift then s.seeds.checksAfterLift[id]
        else if id in s.seeds.checks then s.seeds.checks[id] else []
  {
    ScanKeepsCounters(s.ledger, id);
  }

  /** Entries are answered in order, and the last again once they run out. */
  lemma EntryIsTheMinimum(script: seq<seq<Check>>, k: nat)
    requires script != []
    ensures k > 0 ==> Entry(script, k) == Some(script[(if k <= |script| then k else |script|) - 1])
    ensures k == 0 ==> Entry(script, k) == Some(script[0])
  {
  }

  /** A lifted change that is judged before it is read again is judged on the first entry of the script for after its
      lift. */
  lemma JudgedBeforeItIsRead(s: HostState, before: seq<HostCall>, lift: HostCall, more: seq<HostCall>, id: ChangeId)
    requires s.ledger == before + [lift] + more && Lifts(lift, id)
    requires forall call :: call in more ==> !Lifts(call, id) && !Reads(call, id)
    requires id in s.seeds.readingsAfterLift && s.seeds.readingsAfterLift[id] != []
    ensures CurrentChecks(s, id) == s.seeds.readingsAfterLift[id][0]
  {
    var lifted := before + [lift];
    assert lifted[..|lifted| - 1] == before && lifted[|lifted| - 1] == lift;
    NoReadsCountNothing(more, id);
    CountingOn(lifted, more, id);
    ScanIsTheCounters(s, id);
    EntryIsTheMinimum(s.seeds.readingsAfterLift[id], 0);
  }

  /** Where nothing is scripted for after a lift, every reading moves a change on in its one script, the lift
      notwithstanding. */
  lemma KthReadingOfOneScript(s: HostState, id: ChangeId)
    requires id !in s.seeds.readingsAfterLift && id in s.seeds.readings && s.seeds.readings[id] != []
    ensures var script, k := s.seeds.readings[id], CountReads(s.ledger, id);
      CurrentChecks(s, id) == script[if k == 0 then 0 else (if k <= |script| then k else |script|) - 1]
  {
    ScanKeepsCounters(s.ledger, id);
    ScanIsTheCounters(s, id);
    EntryIsTheMinimum(s.seeds.readings[id], CountReads(s.ledger, id));
  }

  /** A change with no script shows its seeded checks, those for after a lift once it is lifted. */
  lemma UnscriptedIsSeeded(s: HostState, id: ChangeId)
    requires id !in s.seeds.readingsAfterLift && id !in s.seeds.readings
    ensures id in s.drafting.madeReady && id in s.seeds.checksAfterLift ==> CurrentChecks(s, id) == s.seeds.checksAfterLift[id]
    ensures !(id in s.drafting.madeReady && id in s.seeds.checksAfterLift) && id in s.seeds.checks ==>
      CurrentChecks(s, id) == s.seeds.checks[id]
  {
  }

  lemma {:induction false} CountingOn(ledger: seq<HostCall>, more: seq<HostCall>, id: ChangeId)
    requires forall call :: call in more ==> !Lifts(call, id)
    ensures CountersOf(ledger + more, id) ==
      var c, k := CountersOf(ledger, id), CountReads(more, id);
      Counters(c.read + k, if c.sinceLift.Some? then Some(c.sinceLift.value + k) else None)
    decreases |more|
  {
    if more == [] {
      assert ledger + more == ledger;
    } else {
      var before, last := more[..|more| - 1], more[|more| - 1];
      CountingOn(ledger, before, id);
      assert (ledger + more)[..|ledger + more| - 1] == ledger + before;
      assert (ledger + more)[|ledger + more| - 1] == last;
    }
  }

  /** The k-th reading after the latest lift answers entry min(k, length) of the script for
      after it, whatever came before the lift and whatever else is called in between. */
  lemma KthReadingAfterTheLift(s: HostState, before: seq<HostCall>, lift: HostCall, more: seq<HostCall>, id: ChangeId)
    requires s.ledger == before + [lift] + more && Lifts(lift, id)
    requires forall call :: call in more ==> !Lifts(call, id)
    requires id in s.seeds.readingsAfterLift && s.seeds.readingsAfterLift[id] != []
    requires CountReads(more, id) > 0
    ensures var script, k := s.seeds.readingsAfterLift[id], CountReads(more, id);
      CurrentChecks(s, id) == script[(if k <= |script| then k else |script|) - 1]
  {
    var lifted := before + [lift];
    assert lifted[..|lifted| - 1] == before && lifted[|lifted| - 1] == lift;
    CountingOn(lifted, more, id);
    ScanIsTheCounters(s, id);
    EntryIsTheMinimum(s.seeds.readingsAfterLift[id], CountReads(more, id));
  }

  /** And so does the k-th reading of a change never lifted. */
  lemma KthReadingBeforeAnyLift(s: HostState, id: ChangeId)
    requires forall call :: call in s.ledger ==> !Lifts(call, id)
    requires id in s.seeds.readings && s.seeds.readings[id] != [] && CountReads(s.ledger, id) > 0
    ensures var script, k := s.seeds.readings[id], CountReads(s.ledger, id);
      CurrentChecks(s, id) == script[(if k <= |script| then k else |script|) - 1]
  {
    CountingOn([], s.ledger, id);
    assert [] + s.ledger == s.ledger;
    ScanIsTheCounters(s, id);
    EntryIsTheMinimum(s.seeds.readings[id], CountReads(s.ledger, id));
  }

  /** A merge is judged on what was last read: no call that neither reads nor lifts the change
      moves it on in its script. */
  lemma JudgementsUseTheLatestReading(s: HostState, more: seq<HostCall>, id: ChangeId)
    requires forall call :: call in more ==> !Lifts(call, id) && !Reads(call, id)
    ensures CurrentChecks(s.(ledger := s.ledger + more), id) == CurrentChecks(s, id)
    ensures HostGreen(s.(ledger := s.ledger + more), id) == HostGreen(s, id)
  {
    NoReadsCountNothing(more, id);
    CountingOn(s.ledger, more, id);
    ScanIsTheCounters(s, id);
    ScanIsTheCounters(s.(ledger := s.ledger + more), id);
  }

  lemma {:induction false} NoReadsCountNothing(more: seq<HostCall>, id: ChangeId)
    requires forall call :: call in more ==> !Reads(call, id)
    ensures CountReads(more, id) == 0
    decreases |more|
  {
    if more != [] {
      NoReadsCountNothing(more[..|more| - 1], id);
    }
  }
}
