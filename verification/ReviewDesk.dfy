/**
 The review feedback of every change on one host, as its calls update it in place, and what
 keeps the document one the next read accepts.
 */
module ReviewDesk {
  import opened Basics
  import opened HostDocument
  import opened ReviewReads
  import BranchNames
  import Decimal

  datatype Replied = Replied(change: ChangeId, comment: CommentId, key: string, reply: CommentId, threaded: bool)

  datatype Feedback = Feedback(
    urls: map<ChangeId, string>,
    user: string,
    comments: map<ChangeId, seq<Comment>>,
    replies: seq<Replied>,
    charges: seq<nat>)

  datatype DeskCall =
    | AddComment(change: ChangeId, comment: Shown)
    | EditComment(change: ChangeId, id: CommentId, body: string, now: nat)
    | SetFlags(change: ChangeId, thread: string, resolved: bool, outdated: bool)
    | ReplyTo(change: ChangeId, id: CommentId, body: string, key: string, now: nat)
    | ReadSince(change: ChangeId, marker: Option<string>)

  datatype DeskAnswer =
    | Kept
    | Posted(id: CommentId, url: string, threaded: bool)
    | Read(comments: seq<Shown>, next: string, nothingNew: bool, cost: nat)

  /** What a change's feedback reads as: a change with no entry carries none. */
  function Of(f: Feedback, change: ChangeId): seq<Comment> {
    if change in f.comments then f.comments[change] else []
  }

  /** The move a call makes on its change's comments. */
  function MoveOf(f: Feedback, call: DeskCall): Option<ReviewMove> {
    match call
    case AddComment(_, comment) => Some(Adding(comment))
    case EditComment(_, id, body, now) => Some(Editing(id, body, now))
    case SetFlags(_, thread, resolved, outdated) => Some(SettingThread(thread, resolved, outdated))
    case ReplyTo(change, id, body, key, now) =>
      if change in f.urls then Some(Replying(change, f.urls[change], id, body, f.user, now)) else None
    case ReadSince(_, _) => None
  }

  /** A change's comments once a move is made on them, where the host makes it. */
  function After(f: Feedback, change: ChangeId, m: ReviewMove): Feedback {
    f.(comments := f.comments[change := Revised(Of(f, change), m)])
  }

  /** One call: the document it leaves, in memory, and its answer; `None` is a refusal. A reply
      to a change with no feedback is refused with an empty list left behind. */
  function Acting(f: Feedback, call: DeskCall): (Feedback, Option<DeskAnswer>) {
    var change := call.change;
    match call
    case AddComment(_, comment) =>
      if change !in f.urls || Add(Of(f, change), comment).None? then (f, None)
      else (After(f, change, Adding(comment)), Some(Kept))
    case EditComment(_, id, body, now) =>
      if change !in f.comments || Edit(Of(f, change), id, body, now).None? then (f, None)
      else (After(f, change, Editing(id, body, now)), Some(Kept))
    case SetFlags(_, thread, resolved, outdated) =>
      if change !in f.comments || SetThread(Of(f, change), thread, resolved, outdated).None? then (f, None)
      else (After(f, change, SettingThread(thread, resolved, outdated)), Some(Kept))
    case ReplyTo(_, id, body, key, now) =>
      if change !in f.urls then (f, None)
      else
        var url := f.urls[change];
        var m := Replying(change, url, id, body, f.user, now);
        if Try(Of(f, change), m).None? then (f.(comments := f.comments[change := Of(f, change)]), None)
        else
          var posted := ReplyShown(change, url, Of(f, change), Of(f, change)[IndexOf(Of(f, change), id).value].shown, body, f.user, now);
          (After(f, change, m).(replies := f.replies + [Replied(change, id, key, posted.id, posted.kind.ReviewThread?)]),
           Some(Posted(posted.id, posted.url, posted.kind.ReviewThread?)))
    case ReadSince(_, marker) =>
      if change !in f.urls || (marker.Some? && RevisionOf(marker.value, change).None?) then (f, None)
      else
        var from := if marker.Some? then RevisionOf(marker.value, change) else None;
        var comments := Since(Of(f, change), from);
        (f.(charges := if f.charges == [] then [] else f.charges[1..]),
         Some(Read(comments, MarkerFor(change, Latest(Of(f, change))), from.Some? && comments == [],
                   if f.charges == [] then 1 else f.charges[0])))
  }

  /** Whether a comment by an identifier can be answered: the first that has it is in no thread, or begins one. */
  ghost predicate IsAnswerable(comments: seq<Comment>, id: CommentId, i: nat) {
    && i < |comments| && comments[i].shown.id == id && (forall j :: 0 <= j < i ==> comments[j].shown.id != id)
    && (comments[i].shown.kind.ReviewThread? ==> comments[i].shown.inReplyTo.None?)
  }

  ghost predicate InThread(c: Comment, thread: string) {
    c.shown.kind.ReviewThread? && c.shown.kind.thread == thread
  }

  /** What a call has to name to be answered. */
  ghost predicate NamesWhatIsThere(f: Feedback, call: DeskCall) {
    match call
    case AddComment(change, comment) =>
      && change in f.urls && comment.created.Moment? && comment.updated.Moment?
      && !HasComment(Of(f, change), comment.id)
    case EditComment(change, id, _, _) => HasComment(Of(f, change), id)
    case SetFlags(change, thread, _, _) =>
      exists i :: 0 <= i < |Of(f, change)| && InThread(Of(f, change)[i], thread)
    case ReplyTo(change, id, _, _, _) => change in f.urls && exists i: nat :: IsAnswerable(Of(f, change), id, i)
    case ReadSince(change, marker) =>
      change in f.urls && (marker.Some? ==> exists r :: RevisionOf(marker.value, change) == Some(r))
  }

  /** A call is answered exactly where it names what is there. */
  lemma AnsweredIff(f: Feedback, call: DeskCall)
    ensures Acting(f, call).1.Some? <==> NamesWhatIsThere(f, call)
  {
    match call
    case AddComment(change, comment) => AddingPutsItLast(Of(f, change), comment);
    case EditComment(change, id, _, _) =>
    case SetFlags(change, thread, _, _) =>
      var comments := Of(f, change);
      if c :| c in comments && InThread(c, thread) {
        var i :| 0 <= i < |comments| && comments[i] == c;
      }
    case ReplyTo(change, id, _, _, _) => RepliesIff(f, call);
    case ReadSince(change, marker) =>
  }

  lemma RepliesIff(f: Feedback, call: DeskCall)
    requires call.ReplyTo?
    ensures Acting(f, call).1.Some? <==> NamesWhatIsThere(f, call)
  {
    var comments := Of(f, call.change);
    var at := IndexOf(comments, call.id);
    if i: nat :| IsAnswerable(comments, call.id, i) {
      assert at == Some(i);
    }
    if at.Some? && !(comments[at.value].shown.kind.ReviewThread? && comments[at.value].shown.inReplyTo.Some?) {
      assert IsAnswerable(comments, call.id, at.value);
    }
  }

  /** A call is about its own change: no other's comments move, only a reply is recorded as one, and only
      a read is charged. */
  lemma CallIsAboutItsChange(f: Feedback, call: DeskCall, other: ChangeId)
    ensures var g := Acting(f, call).0;
      && g.urls == f.urls && g.user == f.user
      && (other != call.change ==> Of(g, other) == Of(f, other))
      && (call.ReadSince? ==> g.comments == f.comments)
      && (!call.ReplyTo? || Acting(f, call).1.None? ==> g.replies == f.replies)
      && (!call.ReadSince? || Acting(f, call).1.None? ==> g.charges == f.charges)
  {
  }

  /** What a reply answers and records is the comment it left last. */
  lemma ReplyIsRecorded(f: Feedback, call: DeskCall) returns (posted: Comment)
    requires call.ReplyTo? && Acting(f, call).1.Some?
    ensures var g, before := Acting(f, call).0, Of(f, call.change);
      && Of(g, call.change) == before + [posted] && BranchNames.EndsWith(posted.shown.body, call.body)
      && posted.shown.author == f.user && posted.shown.created == Moment(call.now)
      && Acting(f, call).1.value == Posted(posted.shown.id, posted.shown.url, posted.shown.kind.ReviewThread?)
      && g.replies == f.replies + [Replied(call.change, call.id, call.key, posted.shown.id, posted.shown.kind.ReviewThread?)]
  {
    posted := Of(Acting(f, call).0, call.change)[|Of(f, call.change)|];
  }

  /** A read from the marker a client was last given, overlaid on its copy, gives the comments as they stand now,
      says nothing is new exactly where nothing is, hands on the marker of now, and takes one charge. */
  lemma DeskReadCatchesUp(f: Feedback, change: ChangeId, before: seq<Comment>)
    requires change in f.urls && Follows(before, Of(f, change)) && Distinct(Of(f, change))
    requires Latest(before) <= Decimal.U64_MAX
    ensures var (g, answer) := Acting(f, ReadSince(change, Some(MarkerFor(change, Latest(before)))));
      && answer.Some? && answer.value.Read?
      && Overlay(ShownAll(before), answer.value.comments) == ShownAll(Of(f, change))
      && (answer.value.nothingNew <==> Of(f, change) == before)
      && answer.value.next == MarkerFor(change, Latest(Of(f, change)))
      && (if f.charges == [] then answer.value.cost == 1 && g == f
          else f.charges == [answer.value.cost] + g.charges && g == f.(charges := g.charges))
  {
    MarkersRoundTrip(change, change, Latest(before));
    MarkerIsReadFrom(f, change, MarkerFor(change, Latest(before)), Latest(before));
    ReadingFromAMarkerCatchesUp(before, Of(f, change));
    UnchangedIff(before, Of(f, change));
  }

  lemma MarkerIsReadFrom(f: Feedback, change: ChangeId, marker: string, r: nat)
    requires change in f.urls && RevisionOf(marker, change) == Some(r)
    ensures var (g, answer) := Acting(f, ReadSince(change, Some(marker)));
      && answer.Some? && answer.value.Read? && answer.value.comments == Since(Of(f, change), Some(r))
      && (answer.value.nothingNew <==> answer.value.comments == [])
      && answer.value.next == MarkerFor(change, Latest(Of(f, change)))
      && (if f.charges == [] then answer.value.cost == 1 && g == f
          else f.charges == [answer.value.cost] + g.charges && g == f.(charges := g.charges))
  {
  }

  /** And a read with no marker is of every comment, and is never of nothing new. */
  lemma DeskFirstReadIsEverything(f: Feedback, change: ChangeId)
    requires change in f.urls
    ensures var answer := Acting(f, ReadSince(change, None)).1;
      && answer.Some? && answer.value.Read? && answer.value.comments == ShownAll(Of(f, change)) && !answer.value.nothingNew
      && answer.value.next == MarkerFor(change, Latest(Of(f, change)))
  {
    ReadingFromNothingIsEverything(Of(f, change));
  }

  /** Two documents no call can tell apart: an empty list is no feedback. */
  ghost predicate SameToReaders(a: Feedback, b: Feedback) {
    && a.urls == b.urls && a.user == b.user && a.replies == b.replies && a.charges == b.charges
    && forall change :: Of(a, change) == Of(b, change)
  }

  /** A refused call leaves the document as it was, to every reader. */
  lemma RefusalChangesNothing(f: Feedback, call: DeskCall)
    requires Acting(f, call).1.None?
    ensures SameToReaders(Acting(f, call).0, f)
  {
  }

  /** Documents no call can tell apart answer alike and stay so. */
  lemma SameAnswers(a: Feedback, b: Feedback, call: DeskCall)
    requires SameToReaders(a, b)
    ensures Acting(a, call).1 == Acting(b, call).1
    ensures SameToReaders(Acting(a, call).0, Acting(b, call).0)
  {
    assert Of(a, call.change) == Of(b, call.change);
    forall change
      ensures Of(Acting(a, call).0, change) == Of(Acting(b, call).0, change)
    {
      assert Of(a, change) == Of(b, change);
    }
  }

  // ---- What the next read accepts ----

  /** One change's comments, as the document check holds them. */
  ghost predicate Sound(comments: seq<Comment>) {
    && Distinct(comments)
    && forall i :: 0 <= i < |comments| ==>
         var c := comments[i].shown;
         && !OnlyWhitespace(c.id.text) && c.created.Moment? && c.updated.Moment?
         && (c.inReplyTo.Some? ==> IndexOf(comments, c.inReplyTo.value).Some?)
  }

  ghost predicate Accepted(f: Feedback) {
    forall change :: change in f.comments ==> change in f.urls && Sound(f.comments[change])
  }

  /** What a move has to bring for the document to stay one the next read accepts. */
  ghost predicate BringsSound(comments: seq<Comment>, m: ReviewMove) {
    match m
    case Adding(c) =>
      && !OnlyWhitespace(c.id.text)
      && (c.inReplyTo.Some? ==> c.inReplyTo.value == c.id || IndexOf(comments, c.inReplyTo.value).Some?)
    case Replying(change, _, _, _, _, _) => IndexOf(comments, ReplyId(change, comments)).None?
    case _ => true
  }

  lemma SameIdsSameIndex(a: seq<Comment>, b: seq<Comment>, id: CommentId)
    requires |a| <= |b| && forall i :: 0 <= i < |a| ==> a[i].shown.id == b[i].shown.id
    ensures IndexOf(a, id).Some? ==> IndexOf(b, id).Some?
    ensures |a| == |b| ==> (IndexOf(b, id).Some? ==> IndexOf(a, id).Some?)
  {
  }

  lemma AppendingKeepsSoundIff(comments: seq<Comment>, c: Comment)
    requires Sound(comments) && c.shown.created.Moment? && c.shown.updated.Moment?
    ensures Sound(comments + [c]) <==>
      && IndexOf(comments, c.shown.id).None? && !OnlyWhitespace(c.shown.id.text)
      && (c.shown.inReplyTo.Some? ==>
            c.shown.inReplyTo.value == c.shown.id || IndexOf(comments, c.shown.inReplyTo.value).Some?)
  {
    var longer := comments + [c];
    assert longer[|comments|] == c;
    forall i | 0 <= i < |comments|
      ensures longer[i] == comments[i]
      ensures comments[i].shown.inReplyTo.Some? ==> IndexOf(longer, comments[i].shown.inReplyTo.value).Some?
    {
      if comments[i].shown.inReplyTo.Some? {
        SameIdsSameIndex(comments, longer, comments[i].shown.inReplyTo.value);
      }
    }
    if IndexOf(comments, c.shown.id).Some? {
      assert longer[IndexOf(comments, c.shown.id).value].shown.id == c.shown.id;
    }
  }

  lemma InPlaceKeepsSound(comments: seq<Comment>, after: seq<Comment>)
    requires Sound(comments) && |after| == |comments|
    requires forall i :: 0 <= i < |after| ==>
      && after[i].shown.id == comments[i].shown.id && after[i].shown.inReplyTo == comments[i].shown.inReplyTo
      && after[i].shown.created == comments[i].shown.created && after[i].shown.updated.Moment?
    ensures Sound(after)
  {
    forall i | 0 <= i < |after| && after[i].shown.inReplyTo.Some?
      ensures IndexOf(after, after[i].shown.inReplyTo.value).Some?
    {
      SameIdsSameIndex(comments, after, after[i].shown.inReplyTo.value);
    }
  }

  lemma ReplyIdIsNotBlank(change: ChangeId, comments: seq<Comment>)
    ensures !OnlyWhitespace(ReplyId(change, comments).text)
  {
    assert ReplyId(change, comments).text[0] == 'r';
  }

  lemma ReplyingKeepsSoundIff(comments: seq<Comment>, m: ReviewMove)
    requires Sound(comments) && m.Replying? && Try(comments, m).Some?
    ensures Sound(Revised(comments, m)) <==> BringsSound(comments, m)
  {
    var answered := comments[IndexOf(comments, m.to).value].shown;
    var posted := ReplyShown(m.change, m.changeUrl, comments, answered, m.body, m.author, m.now);
    ReplyIdIsNotBlank(m.change, comments);
    AppendingKeepsSoundIff(comments, Comment(posted, NextRevision(comments)));
  }

  /** A move leaves sound feedback exactly where it brings what it has to, or is not one the host
      makes. */
  lemma StepKeepsSoundIff(comments: seq<Comment>, m: ReviewMove)
    requires Sound(comments)
    ensures Sound(Revised(comments, m)) <==> (Takes(comments, m) ==> BringsSound(comments, m))
  {
    TakesIff(comments, m);
    if Takes(comments, m) {
      TakenKeepsSoundIff(comments, m);
    }
  }

  lemma AddingKeepsSoundIff(comments: seq<Comment>, m: ReviewMove)
    requires Sound(comments) && m.Adding? && Try(comments, m).Some?
    ensures Sound(Revised(comments, m)) <==> BringsSound(comments, m)
  {
    AppendingKeepsSoundIff(comments, Comment(m.comment, NextRevision(comments)));
  }

  lemma TakenKeepsSoundIff(comments: seq<Comment>, m: ReviewMove)
    requires Sound(comments) && Try(comments, m).Some?
    ensures Sound(Revised(comments, m)) <==> BringsSound(comments, m)
  {
    match m
    case Adding(_) => AddingKeepsSoundIff(comments, m);
    case Replying(_, _, _, _, _, _) => ReplyingKeepsSoundIff(comments, m);
    case Editing(_, _, _) => InPlaceKeepsSound(comments, Revised(comments, m));
    case SettingThread(_, _, _) => InPlaceKeepsSound(comments, Revised(comments, m));
  }

  /** Whether a call makes a move: it is about a change whose comments it can make one on, an opened
      change for a comment added or answered. */
  predicate MakesAMove(f: Feedback, call: DeskCall) {
    && MoveOf(f, call).Some?
    && (call.AddComment? ==> call.change in f.urls)
    && Takes(Of(f, call.change), MoveOf(f, call).value)
  }

  lemma MakesAMoveIff(f: Feedback, call: DeskCall)
    ensures MakesAMove(f, call) <==> Acting(f, call).1.Some? && MoveOf(f, call).Some?
    ensures MakesAMove(f, call) ==>
      Acting(f, call).0.comments == f.comments[call.change := Revised(Of(f, call.change), MoveOf(f, call).value)]
  {
    if MoveOf(f, call).Some? {
      TakesIff(Of(f, call.change), MoveOf(f, call).value);
    }
  }

  /** What a call has to bring for the document to stay one the next read accepts. */
  ghost predicate CallBringsSound(f: Feedback, call: DeskCall) {
    MakesAMove(f, call) ==> BringsSound(Of(f, call.change), MoveOf(f, call).value)
  }

  /** One call leaves a document the next read accepts exactly where it brings that. */
  lemma CallKeepsAcceptedIff(f: Feedback, call: DeskCall)
    requires Accepted(f)
    ensures Accepted(Acting(f, call).0) <==> CallBringsSound(f, call)
  {
    var g := Acting(f, call).0;
    assert Sound(Of(f, call.change));
    MakesAMoveIff(f, call);
    if MakesAMove(f, call) {
      var m := MoveOf(f, call).value;
      StepKeepsSoundIff(Of(f, call.change), m);
      assert call.change in g.comments;
    }
  }

  // ---- In memory and in a file ----

  /** In memory an action's every mark stays, a refused one's too. */
  function InMemory(f: Feedback, calls: seq<DeskCall>): (Feedback, seq<Option<DeskAnswer>>) {
    if calls == [] then (f, [])
    else
      var (before, answers) := InMemory(f, calls[..|calls| - 1]);
      var (after, answer) := Acting(before, calls[|calls| - 1]);
      (after, answers + [answer])
  }

  /** In a file the document is checked before each call, and saved only after one that worked. */
  ghost function InAFile(f: Feedback, calls: seq<DeskCall>): (Feedback, seq<Option<DeskAnswer>>) {
    if calls == [] then (f, [])
    else
      var (before, answers) := InAFile(f, calls[..|calls| - 1]);
      var call := calls[|calls| - 1];
      if !Accepted(before) then (before, answers + [None])
      else
        var (after, answer) := Acting(before, call);
        (if answer.Some? then after else before, answers + [answer])
  }

  /** Every call brings what the document check asks for. */
  ghost predicate AllBringSound(f: Feedback, calls: seq<DeskCall>) {
    forall k :: 0 <= k < |calls| ==> CallBringsSound(InAFile(f, calls[..k]).0, calls[k])
  }

  /** The two stores answer every run of calls alike, and every document the file holds is one
      its next read accepts. */
  lemma {:induction false} StoresAgree(f: Feedback, calls: seq<DeskCall>)
    requires Accepted(f) && AllBringSound(f, calls)
    ensures InMemory(f, calls).1 == InAFile(f, calls).1
    ensures SameToReaders(InMemory(f, calls).0, InAFile(f, calls).0)
    ensures Accepted(InAFile(f, calls).0)
    decreases |calls|
  {
    if calls != [] {
      var earlier, call := calls[..|calls| - 1], calls[|calls| - 1];
      assert forall k :: 0 <= k < |earlier| ==> earlier[..k] == calls[..k];
      StoresAgree(f, earlier);
      var memory, file := InMemory(f, earlier).0, InAFile(f, earlier).0;
      SameAnswers(memory, file, call);
      CallKeepsAcceptedIff(file, call);
      if Acting(file, call).1.None? {
        RefusalChangesNothing(file, call);
      }
    }
  }

  // ---- The desk ----

  class Desk {
    const urls: map<ChangeId, string>
    const user: string
    var comments: map<ChangeId, seq<Comment>>
    var replies: seq<Replied>
    var charges: seq<nat>

    function Document(): Feedback
      reads this
    {
      Feedback(urls, user, comments, replies, charges)
    }

    constructor (f: Feedback)
      ensures Document() == f
    {
      urls, user, comments, replies, charges := f.urls, f.user, f.comments, f.replies, f.charges;
    }

    method Post(change: ChangeId, comment: Shown) returns (ok: bool)
      modifies this`comments
      ensures Document() == Acting(old(Document()), AddComment(change, comment)).0
      ensures ok == Acting(old(Document()), AddComment(change, comment)).1.Some?
    {
      if change !in urls || comment.created.NotAMoment? || comment.updated.NotAMoment? {
        return false;
      }
      var held := Of(Document(), change);
      if IndexOf(held, comment.id).Some? {
        return false;
      }
      comments := comments[change := held + [Comment(comment, NextRevision(held))]];
      return true;
    }

    method Rewrite(change: ChangeId, id: CommentId, body: string, now: nat) returns (ok: bool)
      modifies this`comments
      ensures Document() == Acting(old(Document()), EditComment(change, id, body, now)).0
      ensures ok == Acting(old(Document()), EditComment(change, id, body, now)).1.Some?
    {
      if change !in comments {
        return false;
      }
      var held := comments[change];
      var revision := NextRevision(held);
      var at := IndexOf(held, id);
      if at.None? {
        return false;
      }
      var c := held[at.value];
      comments := comments[change := held[at.value := Comment(c.shown.(body := body, updated := Moment(now)), revision)]];
      return true;
    }

    /** Set a thread's flags on every comment in it, each with the one new count. */
    method Flag(change: ChangeId, thread: string, resolved: bool, outdated: bool) returns (ok: bool)
      modifies this`comments
      ensures Document() == Acting(old(Document()), SetFlags(change, thread, resolved, outdated)).0
      ensures ok == Acting(old(Document()), SetFlags(change, thread, resolved, outdated)).1.Some?
    {
      if change !in comments {
        return false;
      }
      var was := comments[change];
      var held, found := FlagEach(was, thread, resolved, outdated, NextRevision(was));
      if !found {
        return false;
      }
      assert held == SetThread(was, thread, resolved, outdated).value;
      comments := comments[change := held];
      return true;
    }

    static method FlagEach(was: seq<Comment>, thread: string, resolved: bool, outdated: bool, revision: nat)
      returns (held: seq<Comment>, found: bool)
      ensures |held| == |was|
      ensures forall j :: 0 <= j < |was| ==> held[j] == Flagged(was[j], thread, resolved, outdated, revision)
      ensures found <==> exists c :: c in was && c.shown.kind.ReviewThread? && c.shown.kind.thread == thread
    {
      held, found := was, false;
      for i := 0 to |was|
        invariant |held| == |was|
        invariant forall j :: 0 <= j < i ==> held[j] == Flagged(was[j], thread, resolved, outdated, revision)
        invariant forall j :: i <= j < |was| ==> held[j] == was[j]
        invariant found <==> exists j :: 0 <= j < i && was[j].shown.kind.ReviewThread? && was[j].shown.kind.thread == thread
      {
        var kind := held[i].shown.kind;
        if kind.ReviewThread? && kind.thread == thread {
          found := true;
          if (kind.resolved, kind.outdated) != (resolved, outdated) {
            held := held[i := Comment(held[i].shown.(kind := kind.(resolved := resolved, outdated := outdated)), revision)];
          }
        }
      }
    }

    method Answer(change: ChangeId, id: CommentId, body: string, key: string, now: nat) returns (r: Option<DeskAnswer>)
      modifies this`comments, this`replies
      ensures (Document(), r) == Acting(old(Document()), ReplyTo(change, id, body, key, now))
    {
      if change !in urls {
        return None;
      }
      var url := urls[change];
      if change !in comments {
        comments := comments[change := []];
      }
      var held := comments[change];
      assert old(comments)[change := held] == comments;
      var at := IndexOf(held, id);
      if at.None? {
        return None;
      }
      var answered := held[at.value].shown;
      if answered.kind.ReviewThread? && answered.inReplyTo.Some? {
        return None;
      }
      var posted := ReplyShown(change, url, held, answered, body, user, now);
      comments := comments[change := held + [Comment(posted, NextRevision(held))]];
      replies := replies + [Replied(change, id, key, posted.id, posted.kind.ReviewThread?)];
      return Some(Posted(posted.id, posted.url, posted.kind.ReviewThread?));
    }

    method ReadFrom(change: ChangeId, marker: Option<string>) returns (r: Option<DeskAnswer>)
      modifies this`charges
      ensures (Document(), r) == Acting(old(Document()), ReadSince(change, marker))
    {
      if change !in urls {
        return None;
      }
      var from: Option<nat> := None;
      if marker.Some? {
        from := RevisionOf(marker.value, change);
        if from.None? {
          return None;
        }
      }
      var held := Of(Document(), change);
      var shown: seq<Shown> := [];
      for i := 0 to |held|
        invariant shown == Since(held[..i], from)
      {
        assert held[..i + 1][..i] == held[..i];
        if from.None? || held[i].revision > from.value {
          shown := shown + [held[i].shown];
        }
      }
      assert held[..|held|] == held;
      var cost := 1;
      if charges != [] {
        cost := charges[0];
        charges := charges[1..];
      }
      return Some(Read(shown, MarkerFor(change, Latest(held)), from.Some? && shown == [], cost));
    }
  }
}
