/** One branch published twice, with nobody else moving. */
module Republication {
  import opened Basics
  import opened HostDocument
  import opened HostService
  import opened HostRuns
  import opened History
  import opened Lifecycle
  import opened PublicationRules
  import opened PublicationLog
  import opened Publication

  /** The second publication's change is the first's exactly where that has not merged by then, and
      where that is so and the first lifted it, or left it no draft, the second asks for no lift. */
  method PublishTwice(host: Host, first: Request, second: Request)
    returns (p: Publisher, q: Publisher, ghost had: Option<Change>, ghost has: Option<Change>, ghost between: HostState)
    requires Consistent(host.Document()) && second.head == first.head && second.base == first.base
    modifies host
    ensures p.r == first && p.log.begun == old(host.Document()) && p.log.Latest() == between
    ensures q.r == second && q.log.begun == between && q.log.Latest() == host.Document()
    ensures had.Some? && has.Some? ==> (has == had <==> !IsMerged(between, had.value.id))
    ensures had.Some? && has == had && Count(p.trace, DraftLifted) > 0 ==> !Drafted(between, had.value.id)
    ensures had.Some? && has == had && !Drafted(between, had.value.id) ==>
      Count(q.trace, DraftLifted) == 0 && LiftsIn(q.log.turns) == 0
  {
    var o: Outcome;
    p := new Publisher(host, first, []);
    o, had := p.Publish();
    between := host.Document();
    ghost var log := p.log;
    LatestIsConsistent(log);
    q := new Publisher(host, second, []);
    o, has := q.Publish();
    if had.Some? && has.Some? {
      PublishedAgain(log, q.log);
    }
  }
}
