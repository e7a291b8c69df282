/**
 A change request's review feedback, and reading it a little at a time: every comment remembers
 the count at which it last changed, and a marker names a count to read from.
 */
module ReviewReads {
  import opened Basics
  import opened HostDocument
  import Decimal

  datatype CommentId = CommentId(text: string)

  datatype CommentKind =
    | ReviewThread(thread: string, resolved: bool, outdated: bool)
    | ReviewSummary
    | Conversation

  /** What a read shows of a comment. */
  datatype Shown = Shown(
    id: CommentId,
    kind: CommentKind,
    author: string,
    body: string,
    url: string,
    created: Stamp,
    updated: Stamp,
    inReplyTo: Option<CommentId>)

  /** A comment as the host keeps it: with the count at which it last changed. */
  datatype Comment = Comment(shown: Shown, revision: nat)

  // ---- Counting changes ----

  function Latest(comments: seq<Comment>): (latest: nat)
    ensures forall i :: 0 <= i < |comments| ==> comments[i].revision <= latest
    ensures comments != [] ==> exists i :: 0 <= i < |comments| && comments[i].revision == latest
  {
    if comments == [] then 0
    else
      var before, last := Latest(comments[..|comments| - 1]), comments[|comments| - 1].revision;
      if before > last then before else last
  }

  function NextRevision(comments: seq<Comment>): nat { Latest(comments) + 1 }

  function IndexOf(comments: seq<Comment>, id: CommentId): (at: Option<nat>)
    ensures at.Some? ==> at.value < |comments| && comments[at.value].shown.id == id
    ensures at.Some? ==> forall j :: 0 <= j < at.value ==> comments[j].shown.id != id
    ensures at.None? ==> forall j :: 0 <= j < |comments| ==> comments[j].shown.id != id
  {
    if comments == [] then None
    else if comments[0].shown.id == id then Some(0)
    else
      match IndexOf(comments[1..], id)
      case None =>
        assert forall j :: 0 < j < |comments| ==> comments[j] == comments[1..][j - 1];
        None
      case Some(at) =>
        assert forall j :: 0 < j < |comments| ==> comments[j] == comments[1..][j - 1];
        Some(at + 1)
  }

  // ---- What people do to one change's feedback ----

  datatype ReviewMove =
    | Adding(comment: Shown)
    | Editing(id: CommentId, body: string, now: nat)
    | SettingThread(thread: string, resolved: bool, outdated: bool)
    | Replying(change: ChangeId, changeUrl: string, to: CommentId, body: string, author: string, now: nat)

  function Add(comments: seq<Comment>, comment: Shown): Option<seq<Comment>> {
    if comment.created.NotAMoment? || comment.updated.NotAMoment? || IndexOf(comments, comment.id).Some? then None
    else Some(comments + [Comment(comment, NextRevision(comments))])
  }

  function Edit(comments: seq<Comment>, id: CommentId, body: string, now: nat): Option<seq<Comment>> {
    match IndexOf(comments, id)
    case None => None
    case Some(at) =>
      Some(comments[at := Comment(comments[at].shown.(body := body, updated := Moment(now)), NextRevision(comments))])
  }

  /** One comment, with its thread's flags set where it is in that thread and they differ. */
  function Flagged(c: Comment, thread: string, resolved: bool, outdated: bool, revision: nat): Comment {
    if c.shown.kind.ReviewThread? && c.shown.kind.thread == thread
       && (c.shown.kind.resolved, c.shown.kind.outdated) != (resolved, outdated)
    then Comment(c.shown.(kind := ReviewThread(thread, resolved, outdated)), revision)
    else c
  }

  function SetThread(comments: seq<Comment>, thread: string, resolved: bool, outdated: bool): Option<seq<Comment>> {
    if forall c :: c in comments ==> !(c.shown.kind.ReviewThread? && c.shown.kind.thread == thread) then None
    else
      var revision := NextRevision(comments);
      Some(seq(|comments|, i requires 0 <= i < |comments| => Flagged(comments[i], thread, resolved, outdated, revision)))
  }

  function ReplyId(change: ChangeId, comments: seq<Comment>): CommentId {
    CommentId("reply-" + change.text + "-" + Decimal.Spell(|comments| + 1))
  }

  function ReplyShown(change: ChangeId, changeUrl: string, comments: seq<Comment>, answered: Shown, body: string,
                      author: string, now: nat): Shown {
    var id := ReplyId(change, comments);
    if answered.kind.ReviewThread? then
      Shown(id, answered.kind, author, body, changeUrl + "#discussion_" + id.text, Moment(now), Moment(now), Some(answered.id))
    else
      Shown(id, Conversation, author, "Re: " + answered.url + "\n\n" + body,
            changeUrl + "#issuecomment-" + id.text, Moment(now), Moment(now), None)
  }

  function Reply(comments: seq<Comment>, change: ChangeId, changeUrl: string, to: CommentId, body: string,
                 author: string, now: nat): Option<seq<Comment>> {
    match IndexOf(comments, to)
    case None => None
    case Some(at) =>
      var answered := comments[at].shown;
      if answered.kind.ReviewThread? && answered.inReplyTo.Some? then None
      else Some(comments + [Comment(ReplyShown(change, changeUrl, comments, answered, body, author, now), NextRevision(comments))])
  }

  /** One move, or `None` where the host refuses it. */
  function Try(comments: seq<Comment>, m: ReviewMove): Option<seq<Comment>> {
    match m
    case Adding(comment) => Add(comments, comment)
    case Editing(id, body, now) => Edit(comments, id, body, now)
    case SettingThread(thread, resolved, outdated) => SetThread(comments, thread, resolved, outdated)
    case Replying(change, url, to, body, author, now) => Reply(comments, change, url, to, body, author, now)
  }

  /** Whether a comment is there, and is no reply inside a thread. */
  predicate CanBeAnswered(comments: seq<Comment>, id: CommentId) {
    match IndexOf(comments, id)
    case None => false
    case Some(at) => !(comments[at].shown.kind.ReviewThread? && comments[at].shown.inReplyTo.Some?)
  }

  /** Which moves the host makes. */
  predicate Takes(comments: seq<Comment>, m: ReviewMove) {
    match m
    case Adding(c) => c.created.Moment? && c.updated.Moment? && IndexOf(comments, c.id).None?
    case Editing(id, _, _) => IndexOf(comments, id).Some?
    case SettingThread(thread, _, _) => exists c :: c in comments && c.shown.kind.ReviewThread? && c.shown.kind.thread == thread
    case Replying(_, _, to, _, _, _) => CanBeAnswered(comments, to)
  }

  lemma TakesIff(comments: seq<Comment>, m: ReviewMove)
    ensures Try(comments, m).Some? <==> Takes(comments, m)
  {
    if m.SettingThread? && Takes(comments, m) {
      var c :| c in comments && c.shown.kind.ReviewThread? && c.shown.kind.thread == m.thread;
    }
  }

  function Revised(comments: seq<Comment>, m: ReviewMove): seq<Comment> {
    match Try(comments, m)
    case None => comments
    case Some(after) => after
  }

  function AllRevised(comments: seq<Comment>, moves: seq<ReviewMove>): seq<Comment> {
    if moves == [] then comments else Revised(AllRevised(comments, moves[..|moves| - 1]), moves[|moves| - 1])
  }

  /** An edit is of the one comment by that identifier, and of nothing of it but its body, when
      it was updated, and its count, which no comment had before. */
  lemma EditChangesThatComment(comments: seq<Comment>, id: CommentId, body: string, now: nat, i: nat)
    requires Distinct(comments) && Edit(comments, id, body, now).Some? && i < |comments|
    ensures var after := Edit(comments, id, body, now).value;
      && |after| == |comments|
      && (comments[i].shown.id != id ==> after[i] == comments[i])
      && (comments[i].shown.id == id ==>
            && after[i].shown == comments[i].shown.(body := body, updated := Moment(now))
            && forall j :: 0 <= j < |comments| ==> comments[j].revision < after[i].revision)
  {
  }

  /** Setting a thread leaves every comment of it with those flags, counts only those that
      differed, and touches no comment outside it. */
  lemma SettingReachesTheThread(comments: seq<Comment>, thread: string, resolved: bool, outdated: bool, i: nat)
    requires SetThread(comments, thread, resolved, outdated).Some? && i < |comments|
    ensures var before, after := comments[i], SetThread(comments, thread, resolved, outdated).value[i];
      if before.shown.kind.ReviewThread? && before.shown.kind.thread == thread then
        && after.shown == before.shown.(kind := ReviewThread(thread, resolved, outdated))
        && (after.shown == before.shown ==> after == before)
        && (after.shown != before.shown ==> forall j :: 0 <= j < |comments| ==> comments[j].revision < after.revision)
      else after == before
  {
  }

  /** A reply stands last; in a thread it answers a comment that is no reply itself and has its
      thread's flags, and beside one it quotes what it answers. */
  lemma ReplyJoinsWhatItAnswers(comments: seq<Comment>, change: ChangeId, url: string, to: CommentId, body: string,
                                author: string, now: nat) returns (at: nat)
    requires Reply(comments, change, url, to, body, author, now).Some?
    ensures at < |comments| && comments[at].shown.id == to
    ensures var after, answered := Reply(comments, change, url, to, body, author, now).value, comments[at].shown;
      && |after| == |comments| + 1 && after[..|comments|] == comments
      && var posted := after[|comments|].shown;
      && posted.author == author && posted.created == Moment(now) && posted.updated == Moment(now)
      && (forall i :: 0 <= i < |comments| ==> comments[i].revision < after[|comments|].revision)
      && (answered.kind.ReviewThread? ==>
            && posted.kind == answered.kind && posted.inReplyTo == Some(to) && posted.body == body
            && answered.inReplyTo.None?)
      && (!answered.kind.ReviewThread? ==>
            && posted.kind == Conversation && posted.inReplyTo.None?
            && posted.body == "Re: " + answered.url + "\n\n" + body)
  {
    at := IndexOf(comments, to).value;
  }

  ghost predicate HasComment(comments: seq<Comment>, id: CommentId) {
    exists i :: 0 <= i < |comments| && comments[i].shown.id == id
  }

  /** A comment is added exactly where it has its moments and its identifier is nobody's, as it was given, last, and
      with a count none had before. */
  lemma AddingPutsItLast(comments: seq<Comment>, comment: Shown)
    ensures Add(comments, comment).Some? <==>
      comment.created.Moment? && comment.updated.Moment? && !HasComment(comments, comment.id)
    ensures Add(comments, comment).Some? ==>
      var after := Add(comments, comment).value;
      && |after| == |comments| + 1 && after[..|comments|] == comments && after[|comments|].shown == comment
      && forall i :: 0 <= i < |comments| ==> comments[i].revision < after[|comments|].revision
  {
  }

  // ---- Reading ----

  function ShownAll(comments: seq<Comment>): seq<Shown> {
    seq(|comments|, i requires 0 <= i < |comments| => comments[i].shown)
  }

  /** Every comment changed after a count, in the order they stand; from none, every comment. */
  function Since(comments: seq<Comment>, from: Option<nat>): seq<Shown> {
    if comments == [] then []
    else
      var before, last := Since(comments[..|comments| - 1], from), comments[|comments| - 1];
      if from.None? || last.revision > from.value then before + [last.shown] else before
  }

  /** A read is of the comments whose count is later than the one asked from, and of no other, in the order
      they stand. */
  lemma {:induction false} ReadIsTheLaterOnes(comments: seq<Comment>, from: Option<nat>) returns (at: seq<nat>)
    ensures |at| == |Since(comments, from)|
    ensures forall k :: 0 <= k < |at| ==> at[k] < |comments| && Since(comments, from)[k] == comments[at[k]].shown
    ensures forall j, k :: 0 <= j < k < |at| ==> at[j] < at[k]
    ensures forall i :: 0 <= i < |comments| ==> (i in at <==> from.None? || comments[i].revision > from.value)
    decreases |comments|
  {
    if comments == [] {
      at := [];
    } else {
      var before, last := comments[..|comments| - 1], |comments| - 1;
      at := ReadIsTheLaterOnes(before, from);
      assert forall i :: 0 <= i < last ==> comments[i] == before[i];
      if from.None? || comments[last].revision > from.value {
        at := at + [last];
      }
    }
  }

  /** A client's copy with one comment taken in: in its place where it is there, else last. */
  function Upsert(mirror: seq<Shown>, c: Shown): seq<Shown> {
    if mirror == [] then [c]
    else if mirror[0].id == c.id then [c] + mirror[1..]
    else [mirror[0]] + Upsert(mirror[1..], c)
  }

  function Overlay(mirror: seq<Shown>, read: seq<Shown>): seq<Shown> {
    if read == [] then mirror else Upsert(Overlay(mirror, read[..|read| - 1]), read[|read| - 1])
  }

  // ---- How one state of the feedback follows another ----

  /** Comments stay where they are, and what changed since has a later count. */
  ghost predicate Follows(before: seq<Comment>, after: seq<Comment>) {
    && |before| <= |after|
    && Latest(before) <= Latest(after)
    && (forall i :: 0 <= i < |before| ==> after[i].shown.id == before[i].shown.id)
    && forall i :: 0 <= i < |after| ==>
         after[i].revision > Latest(before) || (i < |before| && after[i] == before[i])
  }

  ghost predicate Distinct(comments: seq<Comment>) {
    forall i, j :: 0 <= i < j < |comments| ==> comments[i].shown.id != comments[j].shown.id
  }

  /** What makes one state follow another, where the latest count is left to be worked out. */
  lemma FollowsFrom(before: seq<Comment>, after: seq<Comment>)
    requires |before| <= |after|
    requires forall i :: 0 <= i < |before| ==> after[i].shown.id == before[i].shown.id
    requires forall i :: 0 <= i < |after| ==>
      after[i].revision > Latest(before) || (i < |before| && after[i] == before[i])
    ensures Follows(before, after)
  {
    LatestFollows(before, after);
  }

  lemma StepFollows(comments: seq<Comment>, m: ReviewMove)
    ensures Follows(comments, Revised(comments, m))
  {
    match m
    case Adding(comment) => FollowsFrom(comments, Revised(comments, m));
    case Editing(id, body, now) => FollowsFrom(comments, Revised(comments, m));
    case SettingThread(thread, resolved, outdated) => FollowsFrom(comments, Revised(comments, m));
    case Replying(change, url, to, body, author, now) => FollowsFrom(comments, Revised(comments, m));
  }

  lemma LatestFollows(before: seq<Comment>, after: seq<Comment>)
    requires |before| <= |after|
    requires forall i :: 0 <= i < |after| ==>
      after[i].revision > Latest(before) || (i < |before| && after[i] == before[i])
    ensures Latest(before) <= Latest(after)
  {
    if before != [] {
      var i :| 0 <= i < |before| && before[i].revision == Latest(before);
      assert after[i].revision <= Latest(after);
    }
  }

  lemma FollowsIsTransitive(a: seq<Comment>, b: seq<Comment>, c: seq<Comment>)
    requires Follows(a, b) && Follows(b, c)
    ensures Follows(a, c)
  {
  }

  lemma {:induction false} RunFollows(comments: seq<Comment>, moves: seq<ReviewMove>)
    ensures Follows(comments, AllRevised(comments, moves))
    decreases |moves|
  {
    if moves != [] {
      RunFollows(comments, moves[..|moves| - 1]);
      StepFollows(AllRevised(comments, moves[..|moves| - 1]), moves[|moves| - 1]);
      FollowsIsTransitive(comments, AllRevised(comments, moves[..|moves| - 1]), AllRevised(comments, moves));
    }
  }

  /** Every move keeps identifiers distinct but a reply, to a comment that can be answered, whose
      number is already taken. */
  lemma StepKeepsDistinctIff(comments: seq<Comment>, m: ReviewMove)
    requires Distinct(comments)
    ensures Distinct(Revised(comments, m)) <==>
      (m.Replying? && CanBeAnswered(comments, m.to) ==> IndexOf(comments, ReplyId(m.change, comments)).None?)
  {
    TakesIff(comments, m);
    var after := Revised(comments, m);
    if m.Replying? && Try(comments, m).Some? {
      assert after[|comments|].shown.id == ReplyId(m.change, comments);
      assert forall i :: 0 <= i < |comments| ==> after[i] == comments[i];
    }
  }

  ghost predicate FreshReplies(comments: seq<Comment>, moves: seq<ReviewMove>) {
    forall k :: 0 <= k < |moves| && moves[k].Replying? ==>
      IndexOf(AllRevised(comments, moves[..k]), ReplyId(moves[k].change, AllRevised(comments, moves[..k]))).None?
  }

  lemma {:induction false} RunKeepsDistinct(comments: seq<Comment>, moves: seq<ReviewMove>)
    requires Distinct(comments) && FreshReplies(comments, moves)
    ensures Distinct(AllRevised(comments, moves))
    decreases |moves|
  {
    if moves != [] {
      var before := moves[..|moves| - 1];
      assert forall k :: 0 <= k < |before| ==> before[..k] == moves[..k];
      RunKeepsDistinct(comments, before);
      StepKeepsDistinctIff(AllRevised(comments, before), moves[|moves| - 1]);
    }
  }

  // ---- A client that reads from its marker ----

  lemma {:induction false} UpsertInPlace(mirror: seq<Shown>, c: Shown, k: nat)
    requires k < |mirror| && mirror[k].id == c.id && forall j :: 0 <= j < k ==> mirror[j].id != c.id
    ensures Upsert(mirror, c) == mirror[k := c]
    decreases |mirror|
  {
    if k > 0 {
      UpsertInPlace(mirror[1..], c, k - 1);
    }
  }

  lemma {:induction false} UpsertLast(mirror: seq<Shown>, c: Shown)
    requires forall j :: 0 <= j < |mirror| ==> mirror[j].id != c.id
    ensures Upsert(mirror, c) == mirror + [c]
    decreases |mirror|
  {
    if mirror != [] {
      UpsertLast(mirror[1..], c);
    }
  }

  /** The first `k` comments caught up on, and the rest still as the client has them. */
  function CaughtUp(before: seq<Comment>, after: seq<Comment>, k: nat): (mirror: seq<Shown>)
    requires k <= |after|
    ensures |mirror| == if k < |before| then |before| else k
    ensures forall j :: 0 <= j < |mirror| ==> mirror[j] == if j < k then after[j].shown else before[j].shown
  {
    seq(if k < |before| then |before| else k,
        j requires 0 <= j < if k < |before| then |before| else k => if j < k then after[j].shown else before[j].shown)
  }

  /** Catching up on one more comment puts it where it stands. */
  lemma CaughtUpOnOneMore(before: seq<Comment>, after: seq<Comment>, k: nat)
    requires |before| <= |after| && k < |after|
    ensures var mirror := CaughtUp(before, after, k);
      CaughtUp(before, after, k + 1) ==
        if k < |before| then mirror[k := after[k].shown] else mirror + [after[k].shown]
  {
  }

  lemma CaughtUpHasTheirIds(before: seq<Comment>, after: seq<Comment>, k: nat, j: nat)
    requires Follows(before, after) && k <= |after| && j < |CaughtUp(before, after, k)|
    ensures j < |after| && CaughtUp(before, after, k)[j].id == after[j].shown.id
  {
  }

  lemma TakingInOneMore(before: seq<Comment>, after: seq<Comment>, k: nat)
    requires Follows(before, after) && Distinct(after) && k < |after|
    ensures var mirror, c := CaughtUp(before, after, k), after[k];
      CaughtUp(before, after, k + 1) ==
        if c.revision > Latest(before) then Upsert(mirror, c.shown) else mirror
  {
    var mirror, c := CaughtUp(before, after, k), after[k];
    CaughtUpOnOneMore(before, after, k);
    forall j | 0 <= j < |mirror| && j != k
      ensures mirror[j].id != c.shown.id
    {
      CaughtUpHasTheirIds(before, after, k, j);
    }
    if k >= |before| {
      UpsertLast(mirror, c.shown);
    } else if c.revision > Latest(before) {
      UpsertInPlace(mirror, c.shown, k);
    } else {
      assert mirror[k] == c.shown;
    }
  }

  /** A read of one more comment is what was read of those before it, and that one where it is
      later than the marker. */
  lemma SinceOneMore(comments: seq<Comment>, k: nat, from: Option<nat>)
    requires 0 < k <= |comments|
    ensures var c := comments[k - 1];
      Since(comments[..k], from) ==
        if from.None? || c.revision > from.value then Since(comments[..k - 1], from) + [c.shown] else Since(comments[..k - 1], from)
  {
    assert comments[..k][..k - 1] == comments[..k - 1];
  }

  lemma OverlayOneMore(mirror: seq<Shown>, read: seq<Shown>, c: Shown)
    ensures Overlay(mirror, read + [c]) == Upsert(Overlay(mirror, read), c)
  {
    assert (read + [c])[..|read|] == read;
  }

  lemma {:induction false} CatchingUp(before: seq<Comment>, after: seq<Comment>, k: nat)
    requires Follows(before, after) && Distinct(after) && k <= |after|
    ensures Overlay(ShownAll(before), Since(after[..k], Some(Latest(before)))) == CaughtUp(before, after, k)
    decreases k
  {
    if k == 0 {
      assert CaughtUp(before, after, 0) == ShownAll(before);
    } else {
      CatchingUp(before, after, k - 1);
      SinceOneMore(after, k, Some(Latest(before)));
      TakingInOneMore(before, after, k - 1);
      OverlayOneMore(ShownAll(before), Since(after[..k - 1], Some(Latest(before))), after[k - 1].shown);
    }
  }

  /** Overlaying a read from its marker on a client's copy gives the host's comments exactly,
      in order, whatever was done to them since. */
  lemma ReadingFromAMarkerCatchesUp(before: seq<Comment>, after: seq<Comment>)
    requires Follows(before, after) && Distinct(after)
    ensures Overlay(ShownAll(before), Since(after, Some(Latest(before)))) == ShownAll(after)
  {
    CatchingUp(before, after, |after|);
    assert after[..|after|] == after && CaughtUp(before, after, |after|) == ShownAll(after);
  }

  /** And from none, it gives them to a client that has nothing. */
  lemma {:induction false} ReadingFromNothingIsEverything(comments: seq<Comment>)
    ensures Since(comments, None) == ShownAll(comments)
    decreases |comments|
  {
    if comments != [] {
      ReadingFromNothingIsEverything(comments[..|comments| - 1]);
    }
  }

  /** Reading in two goes is reading once. */
  lemma ReadsCompose(a: seq<Comment>, b: seq<Comment>, c: seq<Comment>)
    requires Follows(a, b) && Follows(b, c) && Distinct(c)
    ensures Overlay(Overlay(ShownAll(a), Since(b, Some(Latest(a)))), Since(c, Some(Latest(b))))
      == Overlay(ShownAll(a), Since(c, Some(Latest(a))))
  {
    assert Distinct(b);
    FollowsIsTransitive(a, b, c);
    ReadingFromAMarkerCatchesUp(a, b);
    ReadingFromAMarkerCatchesUp(b, c);
    ReadingFromAMarkerCatchesUp(a, c);
  }

  lemma {:induction false} NothingSinceIff(comments: seq<Comment>, from: nat)
    ensures Since(comments, Some(from)) == [] <==> forall i :: 0 <= i < |comments| ==> comments[i].revision <= from
    decreases |comments|
  {
    if comments != [] {
      NothingSinceIff(comments[..|comments| - 1], from);
    }
  }

  /** A read says nothing changed exactly where nothing did. */
  lemma UnchangedIff(before: seq<Comment>, after: seq<Comment>)
    requires Follows(before, after)
    ensures Since(after, Some(Latest(before))) == [] <==> after == before
  {
    NothingSinceIff(after, Latest(before));
  }

  /** The whole of it, over any run of edits, additions, flags and replies. */
  lemma EveryRunIsCaughtUp(comments: seq<Comment>, moves: seq<ReviewMove>)
    requires Distinct(comments) && FreshReplies(comments, moves)
    ensures var after, read := AllRevised(comments, moves), Since(AllRevised(comments, moves), Some(Latest(comments)));
      && Overlay(ShownAll(comments), read) == ShownAll(after)
      && (read == [] <==> after == comments)
  {
    RunFollows(comments, moves);
    RunKeepsDistinct(comments, moves);
    ReadingFromAMarkerCatchesUp(comments, AllRevised(comments, moves));
    UnchangedIff(comments, AllRevised(comments, moves));
  }

  // ---- Markers ----

  const MARKER_PREFIX: string := "testing."

  function MarkerFor(change: ChangeId, revision: nat): string {
    MARKER_PREFIX + change.text + "." + Decimal.Spell(revision)
  }

  /** `str::rsplit_once('.')`. */
  function SplitAtLastDot(s: string): Option<(string, string)> {
    if s == "" then None
    else if s[|s| - 1] == '.' then Some((s[..|s| - 1], ""))
    else
      match SplitAtLastDot(s[..|s| - 1])
      case None => None
      case Some((of, rest)) => Some((of, rest + [s[|s| - 1]]))
  }

  /** The count a marker this host wrote for `change` names. */
  function RevisionOf(marker: string, change: ChangeId): Option<nat> {
    if !(MARKER_PREFIX <= marker) then None
    else
      match SplitAtLastDot(marker[|MARKER_PREFIX|..])
      case None => None
      case Some((of, rest)) => if of == change.text then Decimal.Parse(rest) else None
  }

  lemma {:induction false} SplitsAtADot(s: string)
    ensures SplitAtLastDot(s).Some? ==> s == SplitAtLastDot(s).value.0 + "." + SplitAtLastDot(s).value.1
    decreases |s|
  {
    if s != "" && s[|s| - 1] != '.' {
      SplitsAtADot(s[..|s| - 1]);
    }
  }

  lemma {:induction false} LastDotIsBeforeTheNumber(of: string, digits: string)
    requires '.' !in digits
    ensures SplitAtLastDot(of + "." + digits) == Some((of, digits))
    decreases |digits|
  {
    var whole := of + "." + digits;
    if digits == "" {
      assert whole[..|whole| - 1] == of;
    } else {
      var shorter := digits[..|digits| - 1];
      assert whole[..|whole| - 1] == of + "." + shorter;
      LastDotIsBeforeTheNumber(of, shorter);
      assert digits == shorter + [digits[|digits| - 1]];
    }
  }

  /** A marker names its own count for its own change, and is refused for any other. */
  lemma MarkersRoundTrip(change: ChangeId, other: ChangeId, revision: nat)
    requires revision <= Decimal.U64_MAX
    ensures RevisionOf(MarkerFor(change, revision), other) == if other == change then Some(revision) else None
  {
    var digits := Decimal.Spell(revision);
    var marker := MarkerFor(change, revision);
    assert marker[|MARKER_PREFIX|..] == change.text + "." + digits;
    assert forall i :: 0 <= i < |digits| ==> Decimal.IsDigit(digits[i]);
    LastDotIsBeforeTheNumber(change.text, digits);
    Decimal.SpellingRoundTrips(revision);
  }

  /** A marker is taken for a change exactly where it is this host's, for that change, and ends in a number. */
  lemma MarkerIsTakenIff(marker: string, change: ChangeId, r: nat)
    ensures RevisionOf(marker, change) == Some(r) <==>
      exists word :: marker == MARKER_PREFIX + change.text + "." + word && Decimal.Parse(word) == Some(r)
  {
    if RevisionOf(marker, change) == Some(r) {
      var rest := marker[|MARKER_PREFIX|..];
      SplitsAtADot(rest);
      var word := SplitAtLastDot(rest).value.1;
      assert marker == MARKER_PREFIX + rest;
      ReadTogether(MARKER_PREFIX, change.text, word);
    }
    if word :| marker == MARKER_PREFIX + change.text + "." + word && Decimal.Parse(word) == Some(r) {
      Decimal.NumbersHaveNoDot(word);
      ReadTogether(MARKER_PREFIX, change.text, word);
      LastDotIsBeforeTheNumber(change.text, word);
    }
  }

  lemma ReadTogether(a: string, b: string, c: string)
    ensures a + (b + "." + c) == a + b + "." + c
    ensures (a + b + "." + c)[|a|..] == b + "." + c
  {
  }

  // ---- A client, over a whole run ----

  /** What a client keeps of one change: its copy of the comments and the marker it was last given. */
  datatype Client = Client(mirror: seq<Shown>, marker: Option<string>)

  /** Anybody's move on the feedback, or the client reading it. */
  datatype ClientStep = Moving(m: ReviewMove) | ReadingOnce

  datatype Session = Session(comments: seq<Comment>, client: Client)

  /** One read: what is since the marker taken in, and the next marker kept; a marker the host
      does not take leaves the client as it was. */
  function ClientReads(s: Session, change: ChangeId): Client {
    var from := if s.client.marker.Some? then RevisionOf(s.client.marker.value, change) else None;
    if s.client.marker.Some? && from.None? then s.client
    else Client(Overlay(s.client.mirror, Since(s.comments, from)), Some(MarkerFor(change, Latest(s.comments))))
  }

  function Stepped(s: Session, change: ChangeId, e: ClientStep): Session {
    match e
    case Moving(m) => s.(comments := Revised(s.comments, m))
    case ReadingOnce => s.(client := ClientReads(s, change))
  }

  function SessionAfter(s: Session, change: ChangeId, steps: seq<ClientStep>): Session {
    if steps == [] then s else Stepped(SessionAfter(s, change, steps[..|steps| - 1]), change, steps[|steps| - 1])
  }

  /** No reply of the run takes a number that is already there. */
  ghost predicate RepliesAreFresh(s: Session, change: ChangeId, steps: seq<ClientStep>) {
    forall k :: 0 <= k < |steps| && steps[k].Moving? && steps[k].m.Replying? ==>
      var comments := SessionAfter(s, change, steps[..k]).comments;
      IndexOf(comments, ReplyId(steps[k].m.change, comments)).None?
  }

  /** The client holds the comments as they stood when it last read, or has never read. */
  ghost predicate Mirrors(s: Session, change: ChangeId) {
    || s.client == Client([], None)
    || exists before :: Follows(before, s.comments) && IsMirrorOf(s.client, before, change)
  }

  ghost predicate IsMirrorOf(client: Client, before: seq<Comment>, change: ChangeId) {
    client == Client(ShownAll(before), Some(MarkerFor(change, Latest(before)))) && Latest(before) <= Decimal.U64_MAX
  }

  /** Comments no two of which are one, taken into an empty copy, are that copy. */
  lemma {:induction false} TakingInAll(read: seq<Shown>)
    requires forall i, j :: 0 <= i < j < |read| ==> read[i].id != read[j].id
    ensures Overlay([], read) == read
    decreases |read|
  {
    if read != [] {
      var before, last := read[..|read| - 1], read[|read| - 1];
      TakingInAll(before);
      UpsertLast(before, last);
      assert read == before + [last];
    }
  }

  lemma FollowsItself(comments: seq<Comment>)
    ensures Follows(comments, comments)
  {
  }

  /** One read brings the client's copy up to the host's, and its marker with it. */
  lemma OneReadCatchesUp(s: Session, change: ChangeId)
    requires Distinct(s.comments) && Latest(s.comments) <= Decimal.U64_MAX && Mirrors(s, change)
    ensures IsMirrorOf(ClientReads(s, change), s.comments, change)
  {
    if s.client == Client([], None) {
      ReadingFromNothingIsEverything(s.comments);
      TakingInAll(ShownAll(s.comments));
    } else {
      var before :| Follows(before, s.comments) && IsMirrorOf(s.client, before, change);
      MarkersRoundTrip(change, change, Latest(before));
      ReadingFromAMarkerCatchesUp(before, s.comments);
    }
  }

  lemma StepKeepsMirrors(s: Session, change: ChangeId, e: ClientStep)
    requires Distinct(s.comments) && Latest(s.comments) <= Decimal.U64_MAX && Mirrors(s, change)
    ensures Mirrors(Stepped(s, change, e), change)
  {
    match e
    case Moving(m) =>
      StepFollows(s.comments, m);
      if s.client != Client([], None) {
        var before :| Follows(before, s.comments) && IsMirrorOf(s.client, before, change);
        FollowsIsTransitive(before, s.comments, Revised(s.comments, m));
        assert IsMirrorOf(s.client, before, change);
      }
    case ReadingOnce =>
      OneReadCatchesUp(s, change);
      FollowsItself(s.comments);
  }

  lemma CountOnlyGrows(s: Session, change: ChangeId, e: ClientStep)
    ensures Latest(s.comments) <= Latest(Stepped(s, change, e).comments)
  {
    if e.Moving? {
      StepFollows(s.comments, e.m);
    }
  }

  lemma {:induction false} EverySessionMirrors(comments: seq<Comment>, change: ChangeId, steps: seq<ClientStep>)
    requires var s := Session(comments, Client([], None));
      Distinct(comments) && RepliesAreFresh(s, change, steps) && Latest(SessionAfter(s, change, steps).comments) <= Decimal.U64_MAX
    ensures var t := SessionAfter(Session(comments, Client([], None)), change, steps);
      Distinct(t.comments) && Mirrors(t, change)
    decreases |steps|
  {
    if steps != [] {
      var s, before, last := Session(comments, Client([], None)), steps[..|steps| - 1], steps[|steps| - 1];
      var t := SessionAfter(s, change, before);
      assert forall k :: 0 <= k < |before| ==> before[..k] == steps[..k];
      CountOnlyGrows(t, change, last);
      EverySessionMirrors(comments, change, before);
      StepKeepsMirrors(t, change, last);
      if last.Moving? {
        StepKeepsDistinctIff(t.comments, last.m);
      }
    }
  }

  /** A client that starts with nothing and reads as often as it likes, each time from the marker
      it was given last, has the host's comments exactly after every read, whatever anybody does
      to them between any two. */
  lemma EveryReadOfASessionCatchesUp(comments: seq<Comment>, change: ChangeId, steps: seq<ClientStep>)
    requires var s := Session(comments, Client([], None));
      && Distinct(comments) && RepliesAreFresh(s, change, steps)
      && Latest(SessionAfter(s, change, steps).comments) <= Decimal.U64_MAX
    requires steps != [] && steps[|steps| - 1] == ReadingOnce
    ensures var t := SessionAfter(Session(comments, Client([], None)), change, steps);
      t.client.mirror == ShownAll(t.comments)
  {
    var s, before := Session(comments, Client([], None)), steps[..|steps| - 1];
    assert forall k :: 0 <= k < |before| ==> before[..k] == steps[..k];
    EverySessionMirrors(comments, change, before);
    LastReadCatchesUp(SessionAfter(s, change, before), SessionAfter(s, change, steps), change);
  }

  lemma LastReadCatchesUp(t: Session, u: Session, change: ChangeId)
    requires u == Stepped(t, change, ReadingOnce) && Distinct(t.comments) && Mirrors(t, change)
    requires Latest(u.comments) <= Decimal.U64_MAX
    ensures u.client.mirror == ShownAll(u.comments)
  {
    OneReadCatchesUp(t, change);
  }
}
