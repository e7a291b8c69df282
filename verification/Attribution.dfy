/**
 Finding the commits each hit came in with, in one pass over the history's raw log: a stream of
 tokens, in which a path is the token after its entry's metadata whatever it starts with.
 */
module Attribution {
  import opened Basics

  const MAX_ATTRIBUTION: nat := 20

  // ---- The log, and how it is written ----

  datatype Entry = Entry(oid: string, path: string)

  /** One header and the entries under it; a merge has one for each of its parents. */
  datatype Diff = Diff(commit: string, entries: seq<Entry>)

  const RS: char := '\U{1e}'

  function Unbroken(token: string): string { if token != "" && token[0] == '\n' then token[1..] else token }

  /** The `n`th space-separated field, or nothing where there are not that many. */
  function Field(s: string, n: nat): string
    decreases n, |s|
  {
    if s == "" then ""
    else if s[0] == ' ' then (if n == 0 then "" else Field(s[1..], n - 1))
    else if n == 0 then [s[0]] + Field(s[1..], 0)
    else Field(s[1..], n)
  }

  predicate IsHeader(token: string, commit: string) { Unbroken(token) == [RS] + commit }

  /** `:oldmode newmode oldoid newoid status`, on a line of its own or not. */
  ghost predicate IsMeta(token: string, oid: string) {
    exists a: string, b: string, c: string, rest: string ::
      && ' ' !in a && ' ' !in b && ' ' !in c && ' ' !in oid
      && Unbroken(token) == ":" + (a + " " + (b + " " + (c + " " + (oid + " " + rest))))
  }

  ghost predicate WritesEntries(tokens: seq<string>, entries: seq<Entry>) {
    && |tokens| == 2 * |entries|
    && forall i :: 0 <= i < |entries| ==>
         IsMeta(tokens[2 * i], entries[i].oid) && tokens[2 * i + 1] == entries[i].path
  }

  ghost predicate WritesDiff(tokens: seq<string>, d: Diff) {
    && tokens != [] && d.commit != "" && IsHeader(tokens[0], d.commit) && WritesEntries(tokens[1..], d.entries)
  }

  function Flatten(chunks: seq<seq<string>>): seq<string> {
    if chunks == [] then [] else Flatten(chunks[..|chunks| - 1]) + chunks[|chunks| - 1]
  }

  ghost predicate Writes(chunks: seq<seq<string>>, log: seq<Diff>) {
    |chunks| == |log| && forall i :: 0 <= i < |log| ==> WritesDiff(chunks[i], log[i])
  }

  /** Each commit's headers stand together, as one walk over the history writes them. */
  ghost predicate Contiguous(log: seq<Diff>) {
    forall i, j, l :: 0 <= i < j < l < |log| && log[i].commit == log[l].commit ==> log[j].commit == log[i].commit
  }

  // ---- What a hit's commits should be ----

  /** What a hit is about: a blob, or a path and everything below it. */
  datatype Hit = Blob(oid: string) | Path(path: string)

  predicate Touches(e: Entry, h: Hit) {
    match h
    case Blob(oid) => e.oid == oid
    case Path(path) => e.path == path || path + "/" <= e.path
  }

  predicate DiffTouches(d: Diff, h: Hit) { exists e :: e in d.entries && Touches(e, h) }

  /** Each commit that touches a hit, once, in the order the walk meets them. */
  function Order(log: seq<Diff>, h: Hit): seq<string> {
    if log == [] then []
    else
      var before, d := Order(log[..|log| - 1], h), log[|log| - 1];
      if DiffTouches(d, h) && d.commit !in before then before + [d.commit] else before
  }

  function Capped(order: seq<string>): seq<string> {
    if |order| <= MAX_ATTRIBUTION then order else order[..MAX_ATTRIBUTION]
  }

  // ---- The walk ----

  /** The first commits carrying a hit, how many there are, and the generation counted last. */
  datatype Attributed = Attributed(commits: seq<string>, total: nat, generation: nat)

  const NOBODY: Attributed := Attributed([], 0, 0)

  function Adding(a: Attributed, commit: string, generation: nat): Attributed {
    if a.generation == generation then a
    else
      Attributed(if |a.commits| < MAX_ATTRIBUTION then a.commits + [commit] else a.commits, a.total + 1, generation)
  }

  /** Where the walk stands, and an entry it met with the generation it met it in. */
  datatype Walk = Walk(commit: string, generation: nat, written: Option<string>)

  datatype Touch = Touch(commit: string, generation: nat, entry: Entry)

  function Taken(w: Walk, token: string): (Walk, Option<Touch>) {
    if w.written.Some? then
      (w.(written := None), Some(Touch(w.commit, w.generation, Entry(w.written.value, token))))
    else
      var token := Unbroken(token);
      if token != "" && token[0] == RS then
        (if token[1..] == w.commit then w else Walk(token[1..], w.generation + 1, None), None)
      else if token != "" && token[0] == ':' then (w.(written := Some(Field(token[1..], 3))), None)
      else (w, None)
  }

  function WalkOf(tokens: seq<string>): Walk {
    if tokens == [] then Walk("", 0, None)
    else Taken(WalkOf(tokens[..|tokens| - 1]), tokens[|tokens| - 1]).0
  }

  function TouchesOf(tokens: seq<string>): seq<Touch> {
    if tokens == [] then []
    else
      var before, touch := TouchesOf(tokens[..|tokens| - 1]), Taken(WalkOf(tokens[..|tokens| - 1]), tokens[|tokens| - 1]).1;
      if touch.Some? then before + [touch.value] else before
  }

  function AttributedTo(touches: seq<Touch>, h: Hit): Attributed {
    if touches == [] then NOBODY
    else
      var before, t := AttributedTo(touches[..|touches| - 1], h), touches[|touches| - 1];
      if Touches(t.entry, h) then Adding(before, t.commit, t.generation) else before
  }

  /** A path and every directory above it. */
  function Above(path: string): seq<string>
    decreases |path|
  {
    match LastSlash(path)
    case None => [path]
    case Some(at) => [path] + Above(path[..at])
  }

  function LastSlash(s: string): (at: Option<nat>)
    ensures at.Some? ==> at.value < |s| && s[at.value] == '/' && '/' !in s[at.value + 1..]
    ensures at.None? ==> '/' !in s
  {
    if s == "" then None
    else if s[|s| - 1] == '/' then Some(|s| - 1)
    else
      assert s == s[..|s| - 1] + [s[|s| - 1]];
      match LastSlash(s[..|s| - 1])
      case None => None
      case Some(at) =>
        assert s[at + 1..] == s[..|s| - 1][at + 1..] + [s[|s| - 1]];
        Some(at)
  }

  /** A directory of a path ends at one of its slashes, so at the last one or before it. */
  lemma DirectoryEndsAtASlash(path: string, p: string, at: nat)
    requires p + "/" <= path && at < |p|
    ensures '/' in path[at + 1..]
  {
    assert path[at + 1..][|p| - at - 1] == path[|p|] == (p + "/")[|p|];
  }

  /** Above a path's last slash stand the directories of what is before it. */
  lemma DirectoryOfTheParent(path: string, p: string, at: nat)
    requires at < |path| && path[at] == '/' && '/' !in path[at + 1..]
    ensures p + "/" <= path <==> p == path[..at] || p + "/" <= path[..at]
  {
    var parent := path[..at];
    assert path[..at + 1] == parent + "/";
    if p + "/" <= path && |p| < at {
      assert p + "/" == path[..|p| + 1] == parent[..|p| + 1];
    } else if p + "/" <= path && |p| > at {
      DirectoryEndsAtASlash(path, p, at);
    }
    if p + "/" <= parent {
      assert p + "/" == parent[..|p| + 1] == path[..|p| + 1];
    }
  }

  lemma {:induction false} AboveIff(path: string, p: string)
    ensures p in Above(path) <==> p == path || p + "/" <= path
    decreases |path|
  {
    if p + "/" <= path {
      assert path[|p|] == (p + "/")[|p|];
    }
    match LastSlash(path)
    case None =>
    case Some(at) =>
      AboveIff(path[..at], p);
      DirectoryOfTheParent(path, p, at);
  }

  type Seen = map<string, Option<Attributed>>

  function Before(seen: Seen, p: string): Attributed {
    if p in seen && seen[p].Some? then seen[p].value else NOBODY
  }

  /** What one path is once met again: nothing where it matches nothing, else counted. */
  function MeetOne(seen: Seen, matches: string -> bool, p: string, commit: string, generation: nat): Option<Attributed> {
    if p in seen && seen[p].None? then None
    else if p in seen || matches(p) then Some(Adding(Before(seen, p), commit, generation))
    else None
  }

  /** The entry's path and every directory above it met, and its commit counted where they match. */
  method MeetPath(seen: Seen, matches: string -> bool, path: string, commit: string, generation: nat) returns (r: Seen)
    ensures forall p :: p in r <==> p in seen || p in Above(path)
    ensures forall p :: p in r ==>
      r[p] == if p in Above(path) then MeetOne(seen, matches, p, commit, generation) else seen[p]
  {
    r := seen;
    var prefix := path;
    ghost var met: seq<string> := [];
    while true
      invariant met + Above(prefix) == Above(path)
      invariant forall p :: p in r <==> p in seen || p in met
      invariant forall p :: p in r ==>
        r[p] == if p in met then MeetOne(seen, matches, p, commit, generation) else seen[p]
      decreases |prefix|
    {
      if prefix !in r {
        r := r[prefix := if matches(prefix) then Some(NOBODY) else None];
      }
      if r[prefix].Some? {
        r := r[prefix := Some(Adding(r[prefix].value, commit, generation))];
      }
      met := met + [prefix];
      match LastSlash(prefix)
      case None =>
        assert met == Above(path);
        return;
      case Some(at) =>
        assert Above(prefix) == [prefix] + Above(prefix[..at]);
        prefix := prefix[..at];
    }
  }

  ghost predicate MetBy(touches: seq<Touch>, p: string) {
    exists t :: t in touches && Touches(t.entry, Path(p))
  }

  /** What the walk keeps of the entries met so far: each blob waited for with its commits. */
  ghost predicate BlobsCounted(found: map<string, Attributed>, blobs: set<string>, touches: seq<Touch>) {
    found.Keys == blobs && forall oid :: oid in blobs ==> found[oid] == AttributedTo(touches, Blob(oid))
  }

  /** And each distinct path met, with its commits where it matches. */
  ghost predicate PathsCounted(seen: Seen, matches: string -> bool, touches: seq<Touch>) {
    && (forall p :: p in seen <==> MetBy(touches, p))
    && forall p :: p in seen ==>
         seen[p] == if matches(p) then Some(AttributedTo(touches, Path(p))) else None
  }

  /** One entry: its blob counted where it is waited for, its path and those above it met. */
  method MeetEntry(found: map<string, Attributed>, seen: Seen, matches: string -> bool, touch: Touch,
                   ghost blobs: set<string>, ghost touches: seq<Touch>)
    returns (foundNow: map<string, Attributed>, seenNow: Seen)
    requires BlobsCounted(found, blobs, touches) && PathsCounted(seen, matches, touches)
    ensures BlobsCounted(foundNow, blobs, touches + [touch]) && PathsCounted(seenNow, matches, touches + [touch])
  {
    var oid := touch.entry.oid;
    foundNow := found;
    if oid in found {
      foundNow := found[oid := Adding(found[oid], touch.commit, touch.generation)];
    }
    assert (touches + [touch])[..|touches|] == touches;
    seenNow := MeetPath(seen, matches, touch.entry.path, touch.commit, touch.generation);
    OneMoreTouch(touches, touch, seen, seenNow, matches);
  }

  /** Each blob waited for, each distinct path, and the commits of those that match. */
  method Attribute(tokens: seq<string>, blobs: set<string>, matches: string -> bool)
    returns (found: map<string, Attributed>, seen: Seen)
    ensures BlobsCounted(found, blobs, TouchesOf(tokens))
    ensures PathsCounted(seen, matches, TouchesOf(tokens))
  {
    found := map oid | oid in blobs :: NOBODY;
    seen := map[];
    var commit, generation := "", 0;
    var written: Option<string> := None;
    for i := 0 to |tokens|
      invariant WalkOf(tokens[..i]) == Walk(commit, generation, written)
      invariant BlobsCounted(found, blobs, TouchesOf(tokens[..i]))
      invariant PathsCounted(seen, matches, TouchesOf(tokens[..i]))
    {
      assert tokens[..i + 1] == tokens[..i] + [tokens[i]];
      OneToken(tokens[..i], tokens[i]);
      if written.Some? {
        var touch := Touch(commit, generation, Entry(written.value, tokens[i]));
        written := None;
        found, seen := MeetEntry(found, seen, matches, touch, blobs, TouchesOf(tokens[..i]));
      } else {
        var token := Unbroken(tokens[i]);
        if token != "" && token[0] == RS {
          if token[1..] != commit {
            commit, generation := token[1..], generation + 1;
          }
        } else if token != "" && token[0] == ':' {
          written := Some(Field(token[1..], 3));
        }
        assert TouchesOf(tokens[..i + 1]) == TouchesOf(tokens[..i]);
      }
    }
    assert tokens[..|tokens|] == tokens;
  }

  lemma {:induction false} UntouchedIsNobody(touches: seq<Touch>, h: Hit)
    requires forall t :: t in touches ==> !Touches(t.entry, h)
    ensures AttributedTo(touches, h) == NOBODY
    decreases |touches|
  {
    if touches != [] {
      UntouchedIsNobody(touches[..|touches| - 1], h);
    }
  }

  /** What meeting one more entry leaves the paths as. */
  lemma OneMoreTouch(touches: seq<Touch>, touch: Touch, was: Seen, now: Seen, matches: string -> bool)
    requires PathsCounted(was, matches, touches)
    requires forall p :: p in now <==> p in was || p in Above(touch.entry.path)
    requires forall p :: p in now ==>
      now[p] == if p in Above(touch.entry.path) then MeetOne(was, matches, p, touch.commit, touch.generation) else was[p]
    ensures PathsCounted(now, matches, touches + [touch])
  {
    var more := touches + [touch];
    assert more[..|more| - 1] == touches;
    forall p
      ensures p in now <==> MetBy(more, p)
      ensures p in now ==> now[p] == if matches(p) then Some(AttributedTo(more, Path(p))) else None
    {
      AboveIff(touch.entry.path, p);
      assert touch in more;
      assert MetBy(more, p) <==> MetBy(touches, p) || Touches(touch.entry, Path(p));
      if p !in was {
        UntouchedIsNobody(touches, Path(p));
      }
    }
  }

  // ---- The walk of a written log ----

  /** How many runs of one commit a log holds: the generation after its last header. */
  function Runs(log: seq<Diff>): nat {
    if log == [] then 0
    else
      var before := log[..|log| - 1];
      if before != [] && before[|before| - 1].commit == log[|log| - 1].commit then Runs(before) else Runs(before) + 1
  }

  function EntriesTouched(d: Diff, generation: nat, n: nat): seq<Touch>
    requires n <= |d.entries|
  {
    if n == 0 then [] else EntriesTouched(d, generation, n - 1) + [Touch(d.commit, generation, d.entries[n - 1])]
  }

  /** Every entry, with its commit and its run. */
  function AllTouched(log: seq<Diff>): seq<Touch> {
    if log == [] then []
    else AllTouched(log[..|log| - 1]) + EntriesTouched(log[|log| - 1], Runs(log), |log[|log| - 1].entries|)
  }

  lemma {:induction false} FieldZero(a: string, rest: string)
    requires ' ' !in a
    ensures Field(a + " " + rest, 0) == a
    decreases |a|
  {
    var s := a + " " + rest;
    if a != "" {
      assert s[1..] == a[1..] + " " + rest;
      FieldZero(a[1..], rest);
    }
  }

  lemma {:induction false} FieldSkips(a: string, rest: string, n: nat)
    requires ' ' !in a
    ensures Field(a + " " + rest, n + 1) == Field(rest, n)
    decreases |a|
  {
    var s := a + " " + rest;
    if a != "" {
      assert s[1..] == a[1..] + " " + rest;
      FieldSkips(a[1..], rest, n);
    } else {
      assert s[1..] == rest;
    }
  }

  lemma FourthField(a: string, b: string, c: string, oid: string, rest: string)
    requires ' ' !in a && ' ' !in b && ' ' !in c && ' ' !in oid
    ensures Field(a + " " + (b + " " + (c + " " + (oid + " " + rest))), 3) == oid
  {
    FieldSkips(a, b + " " + (c + " " + (oid + " " + rest)), 2);
    FieldSkips(b, c + " " + (oid + " " + rest), 1);
    FieldSkips(c, oid + " " + rest, 0);
    FieldZero(oid, rest);
  }

  /** The fourth field of an entry's metadata is the blob it writes. */
  lemma MetaNamesItsBlob(token: string, oid: string)
    requires IsMeta(token, oid)
    ensures Unbroken(token) != "" && Unbroken(token)[0] == ':' && Field(Unbroken(token)[1..], 3) == oid
  {
    var a: string, b: string, c: string, rest: string :|
      && ' ' !in a && ' ' !in b && ' ' !in c && ' ' !in oid
      && Unbroken(token) == ":" + (a + " " + (b + " " + (c + " " + (oid + " " + rest))));
    assert Unbroken(token)[1..] == a + " " + (b + " " + (c + " " + (oid + " " + rest)));
    FourthField(a, b, c, oid, rest);
  }

  lemma OneToken(before: seq<string>, token: string)
    ensures WalkOf(before + [token]) == Taken(WalkOf(before), token).0
    ensures TouchesOf(before + [token]) == TouchesOf(before)
      + match Taken(WalkOf(before), token).1 case None => [] case Some(t) => [t]
  {
    assert (before + [token])[..|before|] == before;
  }

  /** An entry is two tokens, the second taken whole however it starts. */
  lemma WalkOneEntry(before: seq<string>, meta: string, path: string, oid: string)
    requires IsMeta(meta, oid) && WalkOf(before).written.None?
    ensures var w := WalkOf(before);
      && WalkOf(before + [meta, path]) == w
      && TouchesOf(before + [meta, path]) == TouchesOf(before) + [Touch(w.commit, w.generation, Entry(oid, path))]
  {
    MetaNamesItsBlob(meta, oid);
    OneToken(before, meta);
    OneToken(before + [meta], path);
    assert before + [meta] + [path] == before + [meta, path];
  }

  /** The walk goes through some tokens from one place to another, meeting these entries. */
  ghost predicate WalksOver(before: seq<string>, tokens: seq<string>, after: Walk, met: seq<Touch>) {
    WalkOf(before + tokens) == after && TouchesOf(before + tokens) == TouchesOf(before) + met
  }

  lemma OneAfterAnother<T>(a: seq<T>, b: seq<T>, c: seq<T>)
    ensures a + (b + c) == a + b + c
  {
  }

  lemma WalksOn(before: seq<string>, first: seq<string>, second: seq<string>, halfway: Walk, after: Walk,
                met: seq<Touch>, metSecond: seq<Touch>)
    requires WalksOver(before, first, halfway, met) && WalksOver(before + first, second, after, metSecond)
    ensures WalksOver(before, first + second, after, met + metSecond)
  {
    OneAfterAnother(before, first, second);
    OneAfterAnother(TouchesOf(before), met, metSecond);
  }

  lemma OneMoreEntry(before: seq<string>, first: seq<string>, meta: string, path: string, d: Diff, w: Walk, n: nat)
    requires n < |d.entries| && IsMeta(meta, d.entries[n].oid) && path == d.entries[n].path
    requires w.written.None? && w.commit == d.commit
    requires WalksOver(before, first, w, EntriesTouched(d, w.generation, n))
    ensures WalksOver(before, first + [meta, path], w, EntriesTouched(d, w.generation, n + 1))
  {
    WalkOneEntry(before + first, meta, path, d.entries[n].oid);
    WalksOn(before, first, [meta, path], w, w, EntriesTouched(d, w.generation, n), [Touch(d.commit, w.generation, d.entries[n])]);
  }

  lemma EntryAt(tokens: seq<string>, entries: seq<Entry>, n: nat)
    requires WritesEntries(tokens, entries) && n < |entries|
    ensures IsMeta(tokens[2 * n], entries[n].oid) && tokens[2 * n + 1] == entries[n].path
    ensures tokens[..2 * (n + 1)] == tokens[..2 * n] + [tokens[2 * n], tokens[2 * n + 1]]
  {
  }

  lemma WalksOverNothing(before: seq<string>, w: Walk)
    requires WalkOf(before) == w
    ensures WalksOver(before, [], w, [])
  {
    assert before + [] == before;
  }

  lemma OneEntryMore(before: seq<string>, tokens: seq<string>, d: Diff, w: Walk, n: nat)
    requires WritesEntries(tokens, d.entries) && n < |d.entries|
    requires w.written.None? && w.commit == d.commit
    requires WalksOver(before, tokens[..2 * n], w, EntriesTouched(d, w.generation, n))
    ensures WalksOver(before, tokens[..2 * (n + 1)], w, EntriesTouched(d, w.generation, n + 1))
  {
    EntryAt(tokens, d.entries, n);
    OneMoreEntry(before, tokens[..2 * n], tokens[2 * n], tokens[2 * n + 1], d, w, n);
  }

  lemma {:induction false} WalkEntries(before: seq<string>, tokens: seq<string>, d: Diff, w: Walk, n: nat)
    requires WritesEntries(tokens, d.entries) && n <= |d.entries|
    requires WalkOf(before) == w && w.written.None? && w.commit == d.commit
    ensures WalksOver(before, tokens[..2 * n], w, EntriesTouched(d, w.generation, n))
    decreases n
  {
    if n == 0 {
      WalksOverNothing(before, w);
      assert tokens[..0] == [];
    } else {
      WalkEntries(before, tokens, d, w, n - 1);
      OneEntryMore(before, tokens, d, w, n - 1);
    }
  }

  /** Where the walk stands after a log. */
  function Stands(log: seq<Diff>): Walk {
    Walk(if log == [] then "" else log[|log| - 1].commit, Runs(log), None)
  }

  /** A header begins a run where its commit is another than the one before. */
  lemma WalkOneHeader(before: seq<string>, header: string, log: seq<Diff>)
    requires log != [] && log[|log| - 1].commit != "" && IsHeader(header, log[|log| - 1].commit)
    requires WalkOf(before) == Stands(log[..|log| - 1])
    ensures WalksOver(before, [header], Stands(log), [])
  {
    assert Unbroken(header)[1..] == log[|log| - 1].commit;
    OneToken(before, header);
  }

  lemma WalkOneDiff(before: seq<string>, tokens: seq<string>, log: seq<Diff>, d: Diff, w: Walk)
    requires log != [] && WritesDiff(tokens, d) && d == log[|log| - 1] && w == Stands(log)
    requires WalkOf(before) == Stands(log[..|log| - 1])
    ensures WalksOver(before, tokens, w, EntriesTouched(d, w.generation, |d.entries|))
  {
    var header, entries, all := tokens[0], tokens[1..], EntriesTouched(d, w.generation, |d.entries|);
    WalkOneHeader(before, header, log);
    WalkEntries(before + [header], entries, d, w, |d.entries|);
    assert entries[..2 * |d.entries|] == entries;
    WalksOn(before, [header], entries, w, w, [], all);
    assert tokens == [header] + entries;
    assert [] + all == all;
  }

  /** One pass over a written log meets its entries exactly, each with its commit and its run. */
  lemma {:induction false} WalkMeetsTheLog(chunks: seq<seq<string>>, log: seq<Diff>)
    requires Writes(chunks, log)
    ensures WalkOf(Flatten(chunks)) == Stands(log)
    ensures TouchesOf(Flatten(chunks)) == AllTouched(log)
    decreases |log|
  {
    if log != [] {
      var last := |log| - 1;
      assert Writes(chunks[..last], log[..last]);
      WalkMeetsTheLog(chunks[..last], log[..last]);
      assert WritesDiff(chunks[last], log[last]);
      WalkOneDiff(Flatten(chunks[..last]), chunks[last], log, log[last], Stands(log));
      assert Flatten(chunks) == Flatten(chunks[..last]) + chunks[last];
    }
  }

  // ---- What it counts ----

  /** All of one diff's entries count its commit once, where any of them touches the hit. */
  lemma {:induction false} DiffCountsOnce(touches: seq<Touch>, d: Diff, generation: nat, h: Hit, n: nat)
    requires n <= |d.entries|
    ensures AttributedTo(touches + EntriesTouched(d, generation, n), h) ==
      if exists i :: 0 <= i < n && Touches(d.entries[i], h)
      then Adding(AttributedTo(touches, h), d.commit, generation) else AttributedTo(touches, h)
    decreases n
  {
    if n == 0 {
      assert touches + EntriesTouched(d, generation, 0) == touches;
    } else {
      DiffCountsOnce(touches, d, generation, h, n - 1);
      var all, before := touches + EntriesTouched(d, generation, n), touches + EntriesTouched(d, generation, n - 1);
      assert all[..|all| - 1] == before;
      assert all[|all| - 1] == Touch(d.commit, generation, d.entries[n - 1]);
    }
  }

  lemma {:induction false} OrderIsOfTheLog(log: seq<Diff>, h: Hit)
    ensures forall c :: c in Order(log, h) <==> exists i :: 0 <= i < |log| && log[i].commit == c && DiffTouches(log[i], h)
    decreases |log|
  {
    if log != [] {
      OrderIsOfTheLog(log[..|log| - 1], h);
      assert forall i :: 0 <= i < |log| - 1 ==> log[..|log| - 1][i] == log[i];
    }
  }

  lemma {:induction false} OrderHasNoRepeats(log: seq<Diff>, h: Hit)
    ensures forall i, j :: 0 <= i < j < |Order(log, h)| ==> Order(log, h)[i] != Order(log, h)[j]
    decreases |log|
  {
    if log != [] {
      OrderHasNoRepeats(log[..|log| - 1], h);
    }
  }

  /** A diff that touches a hit, the first of its commit to. */
  ghost predicate FirstTouch(log: seq<Diff>, h: Hit, i: nat) {
    && i < |log| && DiffTouches(log[i], h)
    && forall j :: 0 <= j < i ==> !(log[j].commit == log[i].commit && DiffTouches(log[j], h))
  }

  /** The order is that of the diffs each commit first touches the hit by. */
  lemma {:induction false} OrderIsByFirstTouch(log: seq<Diff>, h: Hit) returns (at: seq<nat>)
    ensures |at| == |Order(log, h)|
    ensures forall k :: 0 <= k < |at| ==> FirstTouch(log, h, at[k]) && log[at[k]].commit == Order(log, h)[k]
    ensures forall j, k :: 0 <= j < k < |at| ==> at[j] < at[k]
    decreases |log|
  {
    if log == [] {
      at := [];
    } else {
      var before, last := log[..|log| - 1], |log| - 1;
      at := OrderIsByFirstTouch(before, h);
      forall i: nat | FirstTouch(before, h, i)
        ensures FirstTouch(log, h, i) && log[i] == before[i]
      {
      }
      if DiffTouches(log[last], h) && log[last].commit !in Order(before, h) {
        OrderIsOfTheLog(before, h);
        assert forall j :: 0 <= j < last ==> before[j] == log[j];
        assert FirstTouch(log, h, last);
        at := at + [last];
      }
    }
  }

  /** A diff that begins a run, in a log whose commits stand together, is of a new commit. */
  lemma NewRunIsANewCommit(log: seq<Diff>, h: Hit)
    requires Contiguous(log) && log != []
    requires Runs(log) != Runs(log[..|log| - 1])
    ensures log[|log| - 1].commit !in Order(log[..|log| - 1], h)
  {
    var before, d := log[..|log| - 1], log[|log| - 1];
    OrderIsOfTheLog(before, h);
    forall i | 0 <= i < |before|
      ensures before[i].commit != d.commit
    {
      assert log[i] == before[i] && log[|before| - 1] == before[|before| - 1];
    }
  }

  /** The count by generation stands for the count by commit, and its last generation says
      whether the latest commit is in it. */
  ghost predicate CountStandsFor(a: Attributed, log: seq<Diff>, order: seq<string>) {
    && a.total == |order| && a.commits == Capped(order)
    && a.generation <= Runs(log)
    && (log != [] ==> (a.generation == Runs(log) <==> log[|log| - 1].commit in order))
  }

  lemma OneMoreCommit(a: Attributed, order: seq<string>, commit: string, generation: nat)
    requires a.total == |order| && a.commits == Capped(order) && a.generation != generation
    ensures var b := Adding(a, commit, generation);
      b.total == |order + [commit]| && b.commits == Capped(order + [commit]) && b.generation == generation
  {
    if |order| < MAX_ATTRIBUTION {
    } else {
      assert (order + [commit])[..MAX_ATTRIBUTION] == order[..MAX_ATTRIBUTION];
    }
  }

  lemma {:induction false} CountingByRunIsCountingByCommit(log: seq<Diff>, h: Hit)
    requires Contiguous(log)
    ensures CountStandsFor(AttributedTo(AllTouched(log), h), log, Order(log, h))
    decreases |log|
  {
    if log != [] {
      var before, d := log[..|log| - 1], log[|log| - 1];
      assert Contiguous(before) by {
        assert forall i :: 0 <= i < |before| ==> before[i] == log[i];
      }
      CountingByRunIsCountingByCommit(before, h);
      DiffCountsOnce(AllTouched(before), d, Runs(log), h, |d.entries|);
      assert DiffTouches(d, h) <==> exists i :: 0 <= i < |d.entries| && Touches(d.entries[i], h);
      OneMoreDiff(AttributedTo(AllTouched(before), h), log, h);
    }
  }

  lemma OneMoreDiff(a: Attributed, log: seq<Diff>, h: Hit)
    requires Contiguous(log) && log != []
    requires CountStandsFor(a, log[..|log| - 1], Order(log[..|log| - 1], h))
    ensures var d := log[|log| - 1];
      CountStandsFor(if DiffTouches(d, h) then Adding(a, d.commit, Runs(log)) else a, log, Order(log, h))
  {
    var before, d, order := log[..|log| - 1], log[|log| - 1], Order(log[..|log| - 1], h);
    if Runs(log) != Runs(before) {
      NewRunIsANewCommit(log, h);
    }
    if a.generation != Runs(log) {
      OneMoreCommit(a, order, d.commit, Runs(log));
    }
  }

  lemma AttributionIsOfTheOrder(chunks: seq<seq<string>>, log: seq<Diff>, h: Hit)
    requires Writes(chunks, log) && Contiguous(log)
    ensures var a, order := AttributedTo(TouchesOf(Flatten(chunks)), h), Order(log, h);
      a.total == |order| && a.commits == Capped(order)
  {
    WalkMeetsTheLog(chunks, log);
    CountingByRunIsCountingByCommit(log, h);
  }

  /** Over every written log whose commits stand together, each hit's total is how many commits
      touch it, and its list is the first of them in walk order, twenty at most. */
  lemma AttributionIsExact(chunks: seq<seq<string>>, log: seq<Diff>, h: Hit) returns (at: seq<nat>)
    requires Writes(chunks, log) && Contiguous(log)
    ensures var a, order := AttributedTo(TouchesOf(Flatten(chunks)), h), Order(log, h);
      && a.total == |order| && |a.commits| == (if |order| < 20 then |order| else 20) && a.commits <= order
      && (forall i, j :: 0 <= i < j < |order| ==> order[i] != order[j])
      && (forall c :: c in order <==> exists i :: 0 <= i < |log| && log[i].commit == c && DiffTouches(log[i], h))
      && |at| == |order| && (forall j, k :: 0 <= j < k < |at| ==> at[j] < at[k])
      && (forall k :: 0 <= k < |at| ==> FirstTouch(log, h, at[k]) && log[at[k]].commit == order[k])
  {
    at := OrderIsByFirstTouch(log, h);
    AttributionIsOfTheOrder(chunks, log, h);
    OrderHasNoRepeats(log, h);
    OrderIsOfTheLog(log, h);
  }

  // ---- What is reported ----

  datatype Gap = Unattributed | AttributionTruncated

  datatype Row = Row(term: string, commit: string)

  /** A row for each term and commit, term by term. */
  function RowsFor(terms: seq<string>, commits: seq<string>): seq<Row> {
    if terms == [] then []
    else RowsFor(terms[..|terms| - 1], commits) + RowsOf(terms[|terms| - 1], commits)
  }

  function RowsOf(term: string, commits: seq<string>): seq<Row> { seq(|commits|, j requires 0 <= j < |commits| => Row(term, commits[j])) }

  function GapOf(a: Attributed): Option<Gap> {
    if a.total == 0 then Some(Unattributed)
    else if a.total > |a.commits| then Some(AttributionTruncated)
    else None
  }

  /** One hit's history rows, and its gap row where its commits are not all listed. */
  method Emit(terms: seq<string>, a: Attributed) returns (rows: seq<Row>, gap: Option<Gap>)
    ensures rows == RowsFor(terms, a.commits)
    ensures gap == GapOf(a)
  {
    rows := [];
    for i := 0 to |terms|
      invariant rows == RowsFor(terms[..i], a.commits)
    {
      assert terms[..i + 1][..i] == terms[..i];
      for j := 0 to |a.commits|
        invariant rows == RowsFor(terms[..i], a.commits) + RowsOf(terms[i], a.commits[..j])
      {
        rows := rows + [Row(terms[i], a.commits[j])];
        assert RowsOf(terms[i], a.commits[..j + 1]) == RowsOf(terms[i], a.commits[..j]) + [Row(terms[i], a.commits[j])];
      }
      assert a.commits[..|a.commits|] == a.commits;
    }
    assert terms[..|terms|] == terms;
    if a.total == 0 {
      gap := Some(Unattributed);
    } else if a.total > |a.commits| {
      gap := Some(AttributionTruncated);
    } else {
      gap := None;
    }
  }

  lemma {:induction false} RowsAreOfTermsAndCommits(terms: seq<string>, commits: seq<string>, r: Row)
    ensures r in RowsFor(terms, commits) <==> r.term in terms && r.commit in commits
    decreases |terms|
  {
    if terms != [] {
      var last := terms[|terms| - 1];
      RowsAreOfTermsAndCommits(terms[..|terms| - 1], commits, r);
      assert terms == terms[..|terms| - 1] + [last];
      if r.term == last && r.commit in commits {
        var j :| 0 <= j < |commits| && commits[j] == r.commit;
        assert RowsOf(last, commits)[j] == r;
      }
    }
  }

  /** One row for each term and commit and no other, term by term and in each by commit. */
  lemma {:induction false} RowStands(terms: seq<string>, commits: seq<string>, i: nat, j: nat)
    requires i < |terms| && j < |commits|
    ensures |RowsFor(terms, commits)| == |terms| * |commits|
    ensures i * |commits| + j < |terms| * |commits|
    ensures RowsFor(terms, commits)[i * |commits| + j] == Row(terms[i], commits[j])
    decreases |terms|
  {
    var before, n := terms[..|terms| - 1], |commits|;
    RowsAreCounted(before, commits);
    assert |terms| * n == |before| * n + n;
    if i < |before| {
      RowStands(before, commits, i, j);
    }
  }

  lemma {:induction false} RowsAreCounted(terms: seq<string>, commits: seq<string>)
    ensures |RowsFor(terms, commits)| == |terms| * |commits|
    decreases |terms|
  {
    if terms != [] {
      var before := terms[..|terms| - 1];
      RowsAreCounted(before, commits);
      assert |terms| * |commits| == |before| * |commits| + |commits|;
    }
  }

  lemma NothingInOrderIff(log: seq<Diff>, h: Hit)
    ensures Order(log, h) == [] <==> forall i :: 0 <= i < |log| ==> !DiffTouches(log[i], h)
  {
    OrderIsOfTheLog(log, h);
    if Order(log, h) != [] {
      assert Order(log, h)[0] in Order(log, h);
    }
  }

  /** No hit is dropped: its rows are of the first twenty commits that touch it, and a gap is
      reported exactly where there are none, or more. */
  lemma NoHitIsDropped(terms: seq<string>, chunks: seq<seq<string>>, log: seq<Diff>, h: Hit)
    requires Writes(chunks, log) && Contiguous(log)
    ensures var a := AttributedTo(TouchesOf(Flatten(chunks)), h);
      && (forall r :: r in RowsFor(terms, a.commits) <==> r.term in terms && r.commit in Capped(Order(log, h)))
      && (GapOf(a) == Some(Unattributed) <==> forall i :: 0 <= i < |log| ==> !DiffTouches(log[i], h))
      && (GapOf(a) == Some(AttributionTruncated) <==> |Order(log, h)| > MAX_ATTRIBUTION)
      && (GapOf(a) == None && terms != [] ==> RowsFor(terms, a.commits) != [])
  {
    var a, order := AttributedTo(TouchesOf(Flatten(chunks)), h), Order(log, h);
    AttributionIsOfTheOrder(chunks, log, h);
    NothingInOrderIff(log, h);
    forall r: Row
      ensures r in RowsFor(terms, a.commits) <==> r.term in terms && r.commit in Capped(order)
    {
      RowsAreOfTermsAndCommits(terms, a.commits, r);
    }
    if order != [] && terms != [] {
      RowsAreOfTermsAndCommits(terms, a.commits, Row(terms[0], a.commits[0]));
    }
  }
}
