/**
 Names a branch may have: the grammar git holds a ref to, and the sanitizer that turns any
 proposed name into one.
 */
module BranchNames {
  import opened Basics

  // ---- Strings ----

  predicate StartsWith(s: string, prefix: string) { prefix <= s }

  predicate EndsWith(s: string, suffix: string) {
    |suffix| <= |s| && s[|s| - |suffix|..] == suffix
  }

  /** Whether one character stands directly before another somewhere. */
  predicate HasPair(s: string, a: char, b: char) {
    exists i :: 0 <= i < |s| - 1 && s[i] == a && s[i + 1] == b
  }

  /** `str::split('/')`: always at least one component. */
  function Split(s: string): (parts: seq<string>)
    ensures parts != [] && forall p :: p in parts ==> '/' !in p
  {
    if s == [] then [""]
    else
      var rest := Split(s[1..]);
      if s[0] == '/' then [""] + rest else [[s[0]] + rest[0]] + rest[1..]
  }

  function Join(parts: seq<string>): string {
    if parts == [] then ""
    else if |parts| == 1 then parts[0]
    else parts[0] + "/" + Join(parts[1..])
  }

  // ---- The ref grammar ----

  predicate IsWhitespace(c: char) {
    || '\U{09}' <= c <= '\U{0D}' || c == ' ' || c == '\U{85}' || c == '\U{A0}' || c == '\U{1680}'
    || '\U{2000}' <= c <= '\U{200A}' || c == '\U{2028}' || c == '\U{2029}' || c == '\U{202F}'
    || c == '\U{205F}' || c == '\U{3000}'
  }

  predicate Refused(c: char) {
    || IsWhitespace(c) || c < ' ' || c == '\U{7f}'
    || c == '~' || c == '^' || c == ':' || c == '?' || c == '*' || c == '[' || c == '\\'
  }

  predicate UsableComponent(c: string) {
    c != "" && !StartsWith(c, ".") && !EndsWith(c, ".lock")
  }

  /** `named_branch`: what git would accept, less a leading `-`. */
  predicate NamedBranch(name: string) {
    && name != ""
    && (forall c :: c in Split(name) ==> UsableComponent(c))
    && !StartsWith(name, "-")
    && !HasPair(name, '.', '.') && !HasPair(name, '@', '{')
    && !EndsWith(name, ".") && !EndsWith(name, "/")
    && forall i :: 0 <= i < |name| ==> !Refused(name[i])
  }

  // ---- The sanitizer ----

  predicate IsAlphanumeric(c: char) { 'a' <= c <= 'z' || 'A' <= c <= 'Z' || '0' <= c <= '9' }

  function Mapped(c: char): char {
    if IsAlphanumeric(c) || c == '-' || c == '_' || c == '.' || c == '/' then c else '-'
  }

  function MapAll(s: string): string { seq(|s|, i requires 0 <= i < |s| => Mapped(s[i])) }

  predicate Trimmable(c: char) { c == '-' || c == '.' }

  /** One run of `-` or of `.` becomes one character. */
  function Collapse(s: string): string {
    if s == [] then []
    else
      var before := Collapse(s[..|s| - 1]);
      var c := s[|s| - 1];
      if Trimmable(c) && before != [] && before[|before| - 1] == c then before else before + [c]
  }

  function TrimEnd(s: string): string {
    if s != [] && Trimmable(s[|s| - 1]) then TrimEnd(s[..|s| - 1]) else s
  }

  function TrimStart(s: string): string {
    if s != [] && Trimmable(s[0]) then TrimStart(s[1..]) else s
  }

  function StripLocks(s: string): string
    decreases |s|
  {
    if EndsWith(s, ".lock") then
      TrimEndIsShorter(s[..|s| - 5]);
      StripLocks(TrimEnd(s[..|s| - 5]))
    else s
  }

  lemma {:induction false} TrimEndIsShorter(s: string)
    ensures TrimEnd(s) <= s
    ensures TrimEnd(s) == [] || !Trimmable(TrimEnd(s)[|TrimEnd(s)| - 1])
    decreases |s|
  {
    if s != [] && Trimmable(s[|s| - 1]) {
      TrimEndIsShorter(s[..|s| - 1]);
    }
  }

  function ComponentOf(raw: string): Option<string> {
    var trimmed := StripLocks(TrimEnd(TrimStart(Collapse(raw))));
    if trimmed == [] then None else Some(trimmed)
  }

  /** One component: collapsed in one pass, trimmed, then stripped of every `.lock`. */
  method Component(raw: string) returns (r: Option<string>)
    ensures r == ComponentOf(raw)
  {
    var collapsed := "";
    for i := 0 to |raw|
      invariant collapsed == Collapse(raw[..i])
    {
      assert raw[..i + 1][..i] == raw[..i];
      var c := raw[i];
      var repeated := Trimmable(c) && EndsWith(collapsed, [c]);
      if !repeated {
        collapsed := collapsed + [c];
      }
    }
    assert raw[..|raw|] == raw;
    var trimmed := TrimEnd(TrimStart(collapsed));
    while EndsWith(trimmed, ".lock")
      invariant StripLocks(trimmed) == StripLocks(TrimEnd(TrimStart(Collapse(raw))))
      decreases |trimmed|
    {
      TrimEndIsShorter(trimmed[..|trimmed| - 5]);
      trimmed := TrimEnd(trimmed[..|trimmed| - 5]);
    }
    r := if trimmed == [] then None else Some(trimmed);
  }

  /** The components that are left, in order. */
  function Kept(parts: seq<string>): seq<string> {
    if parts == [] then []
    else
      match ComponentOf(parts[0])
      case None => Kept(parts[1..])
      case Some(c) => [c] + Kept(parts[1..])
  }

  function Sanitized(proposed: string): Option<string> {
    var name := Join(Kept(Split(MapAll(proposed))));
    if name == "" then None else Some(name)
  }

  method Sanitize(proposed: string) returns (r: Option<string>)
    ensures r == Sanitized(proposed)
  {
    var parts := Split(MapAll(proposed));
    var kept: seq<string> := [];
    for i := 0 to |parts|
      invariant kept + Kept(parts[i..]) == Kept(parts)
    {
      assert parts[i..][0] == parts[i] && parts[i..][1..] == parts[i + 1..];
      var c := Component(parts[i]);
      if c.Some? {
        kept := kept + [c.value];
      }
    }
    assert parts[|parts|..] == [] && kept == kept + [];
    var name := Join(kept);
    r := if name == "" then None else Some(name);
  }

  // ---- What a kept component is ----

  ghost predicate Plain(c: char) { IsAlphanumeric(c) || c == '-' || c == '_' || c == '.' }

  ghost predicate NoRuns(s: string) {
    forall i :: 0 <= i < |s| - 1 ==> !(Trimmable(s[i]) && s[i] == s[i + 1])
  }

  /** A component nothing is left to take out of. */
  ghost predicate Clean(c: string) {
    && c != ""
    && (forall i :: 0 <= i < |c| ==> Plain(c[i]))
    && NoRuns(c)
    && !Trimmable(c[0]) && !Trimmable(c[|c| - 1])
    && !EndsWith(c, ".lock")
  }

  lemma {:induction false} CollapseHasNoRuns(s: string)
    ensures NoRuns(Collapse(s))
    ensures forall i :: 0 <= i < |Collapse(s)| ==> Collapse(s)[i] in s
    decreases |s|
  {
    if s != [] {
      CollapseHasNoRuns(s[..|s| - 1]);
      forall c | c in s[..|s| - 1]
        ensures c in s
      {
      }
    }
  }

  lemma {:induction false} TrimStartIsSuffix(s: string)
    ensures EndsWith(s, TrimStart(s))
    ensures TrimStart(s) == [] || !Trimmable(TrimStart(s)[0])
    decreases |s|
  {
    if s != [] && Trimmable(s[0]) {
      TrimStartIsSuffix(s[1..]);
    }
  }

  lemma {:induction false} StripLocksKeeps(s: string)
    requires s != [] ==> !Trimmable(s[0]) && !Trimmable(s[|s| - 1])
    ensures StripLocks(s) <= s && !EndsWith(StripLocks(s), ".lock")
    ensures s != [] ==> StripLocks(s) != [] && !Trimmable(StripLocks(s)[|StripLocks(s)| - 1])
    decreases |s|
  {
    if EndsWith(s, ".lock") {
      var rest := s[..|s| - 5];
      assert s[|s| - 5..] == ".lock";
      assert s[|s| - 5] == '.';
      TrimEndIsShorter(rest);
      TrimEndKeepsAStart(rest);
      StripLocksKeeps(TrimEnd(rest));
    }
  }

  lemma {:induction false} TrimEndKeepsAStart(s: string)
    requires s != [] && !Trimmable(s[0])
    ensures TrimEnd(s) != []
    decreases |s|
  {
    if Trimmable(s[|s| - 1]) {
      TrimEndKeepsAStart(s[..|s| - 1]);
    }
  }

  lemma PieceHasNoRuns(s: string, from: nat, to: nat)
    requires from <= to <= |s| && NoRuns(s)
    ensures NoRuns(s[from..to])
    ensures forall i :: 0 <= i < to - from ==> s[from..to][i] == s[from + i]
  {
    var piece := s[from..to];
    forall i | 0 <= i < |piece| - 1
      ensures !(Trimmable(piece[i]) && piece[i] == piece[i + 1])
    {
      assert piece[i] == s[from + i] && piece[i + 1] == s[from + i + 1];
    }
  }

  lemma KeptComponentIsClean(raw: string)
    requires (forall i :: 0 <= i < |raw| ==> Plain(raw[i])) && ComponentOf(raw).Some?
    ensures Clean(ComponentOf(raw).value)
  {
    var collapsed := Collapse(raw);
    CollapseHasNoRuns(raw);
    var started := TrimStart(collapsed);
    TrimStartIsSuffix(collapsed);
    var trimmed := TrimEnd(started);
    TrimEndIsShorter(started);
    var at := |collapsed| - |started|;
    assert started == collapsed[at..];
    if trimmed != [] {
      assert trimmed[0] == started[0];
    }
    StripLocksKeeps(trimmed);
    var c := StripLocks(trimmed);
    assert c == collapsed[at..at + |c|];
    PieceHasNoRuns(collapsed, at, at + |c|);
  }

  /** A clean component is left as it is. */
  lemma CleanComponentIsKept(c: string)
    requires Clean(c)
    ensures ComponentOf(c) == Some(c)
  {
    CollapseKeeps(c);
  }

  lemma {:induction false} CollapseKeeps(c: string)
    requires NoRuns(c)
    ensures Collapse(c) == c
    decreases |c|
  {
    if c != [] {
      var before := c[..|c| - 1];
      CollapseKeeps(before);
      if before != [] {
        assert !(Trimmable(c[|c| - 2]) && c[|c| - 2] == c[|c| - 1]);
      }
      assert before + [c[|c| - 1]] == c;
    }
  }

  // ---- Splitting and joining ----

  lemma {:induction false} SplitOfPlain(p: string)
    requires '/' !in p
    ensures Split(p) == [p]
    decreases |p|
  {
    if p != [] {
      assert p == [p[0]] + p[1..];
      SplitOfPlain(p[1..]);
    }
  }

  lemma {:induction false} SplitAtSlash(p: string, rest: string)
    requires '/' !in p
    ensures Split(p + "/" + rest) == [p] + Split(rest)
    decreases |p|
  {
    var whole := p + "/" + rest;
    if p == [] {
      assert whole[1..] == rest;
    } else {
      assert p == [p[0]] + p[1..];
      assert whole[1..] == p[1..] + "/" + rest;
      SplitAtSlash(p[1..], rest);
    }
  }

  lemma {:induction false} SplitOfJoin(parts: seq<string>)
    requires parts != [] && forall p :: p in parts ==> '/' !in p
    ensures Split(Join(parts)) == parts
    decreases |parts|
  {
    if |parts| == 1 {
      SplitOfPlain(parts[0]);
    } else {
      SplitOfJoin(parts[1..]);
      SplitAtSlash(parts[0], Join(parts[1..]));
    }
  }

  lemma {:induction false} SplitKeepsCharacters(s: string)
    ensures forall p, i :: p in Split(s) && 0 <= i < |p| ==> p[i] in s
    decreases |s|
  {
    if s != [] {
      SplitKeepsCharacters(s[1..]);
      assert s == [s[0]] + s[1..];
    }
  }

  // ---- The three theorems ----

  ghost predicate CleanParts(parts: seq<string>) {
    parts != [] && forall p :: p in parts ==> Clean(p)
  }

  lemma {:induction false} KeptAreClean(parts: seq<string>)
    requires forall p, i :: p in parts && 0 <= i < |p| ==> Plain(p[i])
    ensures forall p :: p in Kept(parts) ==> Clean(p)
    decreases |parts|
  {
    if parts != [] {
      assert parts == [parts[0]] + parts[1..];
      KeptAreClean(parts[1..]);
      if ComponentOf(parts[0]).Some? {
        KeptComponentIsClean(parts[0]);
      }
    }
  }

  /** What a sanitized name is made of. */
  lemma SanitizedParts(proposed: string) returns (parts: seq<string>)
    requires Sanitized(proposed).Some?
    ensures CleanParts(parts) && Sanitized(proposed) == Some(Join(parts))
    ensures parts == Kept(Split(MapAll(proposed)))
  {
    var mapped := MapAll(proposed);
    SplitKeepsCharacters(mapped);
    forall p, i | p in Split(mapped) && 0 <= i < |p|
      ensures Plain(p[i])
    {
      assert p[i] in mapped && p[i] != '/';
    }
    parts := Kept(Split(mapped));
    KeptAreClean(Split(mapped));
  }

  lemma {:induction false} JoinOfClean(parts: seq<string>)
    requires CleanParts(parts)
    ensures var name := Join(parts);
      && name != "" && !Trimmable(name[0]) && !Trimmable(name[|name| - 1]) && name[|name| - 1] != '/'
      && (forall i :: 0 <= i < |name| ==> Plain(name[i]) || name[i] == '/')
      && NoRuns(name)
    decreases |parts|
  {
    assert Clean(parts[0]);
    if |parts| > 1 {
      var first, rest := parts[0], Join(parts[1..]);
      JoinOfClean(parts[1..]);
      var name := Join(parts);
      assert name == first + "/" + rest;
      forall i | 0 <= i < |name| - 1
        ensures !(Trimmable(name[i]) && name[i] == name[i + 1])
      {
        if i < |first| - 1 {
          assert name[i] == first[i] && name[i + 1] == first[i + 1];
        } else if i > |first| {
          var k := i - |first| - 1;
          assert name[i] == rest[k] && name[i + 1] == rest[k + 1];
        }
      }
    }
  }

  /** Whatever follows a usable prefix, a clean name keeps the whole usable. */
  lemma CleanNameIsUsable(parts: seq<string>)
    requires CleanParts(parts)
    ensures NamedBranch(Join(parts))
  {
    var name := Join(parts);
    JoinOfClean(parts);
    SplitOfJoin(parts);
    PlainHasNoRefusedPart(name);
  }

  lemma PlainHasNoRefusedPart(name: string)
    requires (forall i :: 0 <= i < |name| ==> Plain(name[i]) || name[i] == '/') && NoRuns(name)
    ensures !HasPair(name, '.', '.') && !HasPair(name, '@', '{')
    ensures forall i :: 0 <= i < |name| ==> !Refused(name[i])
  {
  }

  /** Whatever was proposed, a sanitized name is one git accepts. */
  lemma SanitizedIsUsable(proposed: string)
    ensures Sanitized(proposed).Some? ==> NamedBranch(Sanitized(proposed).value)
  {
    if Sanitized(proposed).Some? {
      var parts := SanitizedParts(proposed);
      CleanNameIsUsable(parts);
    }
  }

  lemma {:induction false} CleanPartsAreKept(parts: seq<string>)
    requires forall p :: p in parts ==> Clean(p)
    ensures Kept(parts) == parts
    decreases |parts|
  {
    if parts != [] {
      CleanComponentIsKept(parts[0]);
      CleanPartsAreKept(parts[1..]);
    }
  }

  /** One proposal becomes one name: sanitizing a sanitized name changes nothing. */
  lemma SanitizingIsIdempotent(proposed: string)
    ensures Sanitized(proposed).Some? ==> Sanitized(Sanitized(proposed).value) == Sanitized(proposed)
  {
    if Sanitized(proposed).Some? {
      var parts := SanitizedParts(proposed);
      var name := Join(parts);
      JoinOfClean(parts);
      SplitOfJoin(parts);
      CleanPartsAreKept(parts);
      assert MapAll(name) == name;
    }
  }

  // ---- Under a prefix ----

  /** What a prefix is probed with. */
  const PROBE: string := "branch"

  /** Whether a prefix ends in a `.lock` that wants only a name to finish it. */
  predicate LeavesALockToFinish(prefix: string) {
    EndsWith(prefix, ".") || EndsWith(prefix, ".l") || EndsWith(prefix, ".lo") || EndsWith(prefix, ".loc")
  }

  function Front(parts: seq<string>): seq<string>
    requires parts != []
  {
    parts[..|parts| - 1]
  }

  function Last(parts: seq<string>): string
    requires parts != []
  {
    parts[|parts| - 1]
  }

  /** One list of components after another, the last of the one joined to the first of the other. */
  function Joined(a: seq<string>, b: seq<string>): seq<string>
    requires a != [] && b != []
  {
    Front(a) + [Last(a) + b[0]] + b[1..]
  }

  lemma JoinedBehindAnEmpty(rest: seq<string>, b: seq<string>)
    requires rest != [] && b != []
    ensures Joined([""] + rest, b) == [""] + Joined(rest, b)
  {
    assert Front([""] + rest) == [""] + Front(rest);
  }

  lemma JoinedBehindACharacter(c: char, rest: seq<string>, b: seq<string>)
    requires rest != [] && b != []
    ensures Joined([[c] + rest[0]] + rest[1..], b) == [[c] + Joined(rest, b)[0]] + Joined(rest, b)[1..]
  {
    var longer := [[c] + rest[0]] + rest[1..];
    if |rest| == 1 {
      assert [c] + (rest[0] + b[0]) == ([c] + rest[0]) + b[0];
    } else {
      assert Front(longer) == [[c] + rest[0]] + Front(rest)[1..];
    }
  }

  /** Putting one string after another joins the last component of the one to the first of the
      other, and leaves every other as it was. */
  lemma {:induction false} SplitOfBoth(a: string, b: string)
    ensures Split(a + b) == Joined(Split(a), Split(b))
    decreases |a|
  {
    if a == "" {
      assert a + b == b && "" + Split(b)[0] == Split(b)[0];
    } else {
      SplitOfBoth(a[1..], b);
      assert (a + b)[1..] == a[1..] + b;
      JoinedBehindAnEmpty(Split(a[1..]), Split(b));
      JoinedBehindACharacter(a[0], Split(a[1..]), Split(b));
    }
  }

  lemma EndingOfTheRest(s: string, x: string)
    requires s != "" && EndsWith(s[1..], x)
    ensures EndsWith(s, x)
  {
  }

  lemma EndingOfAnEnding(s: string, last: string, x: string)
    requires EndsWith(s, last) && EndsWith(last, x)
    ensures EndsWith(s, x)
  {
    assert s[|s| - |x|..] == last[|last| - |x|..];
  }

  /** The last component is what a string ends with. */
  lemma {:induction false} EndsWithItsLast(s: string)
    ensures EndsWith(s, Last(Split(s)))
    ensures |Split(s)| == 1 ==> Split(s)[0] == s
    decreases |s|
  {
    if s != "" {
      EndsWithItsLast(s[1..]);
      if |Split(s)| == 1 {
        assert Split(s)[0] == [s[0]] + s[1..] == s;
      } else {
        assert Last(Split(s)) == Last(Split(s[1..]));
        EndingOfTheRest(s, Last(Split(s)));
      }
    }
  }

  lemma LongEnding(last: string, first: string)
    requires |first| >= 5 && EndsWith(last + first, ".lock")
    ensures EndsWith(first, ".lock")
  {
    assert (last + first)[|last + first| - 5..] == first[|first| - 5..];
  }

  lemma ShortEnding(last: string, first: string)
    requires 0 < |first| < 5 && EndsWith(last + first, ".lock")
    ensures EndsWith(last, ".lock"[..5 - |first|])
  {
    var joined, x := last + first, ".lock"[..5 - |first|];
    assert joined[|joined| - 5..][..|x|] == last[|last| - |x|..];
  }

  lemma UnfinishedLocks(n: nat)
    requires 0 < n < 5
    ensures ".lock"[..5 - n] == if n == 4 then "." else if n == 3 then ".l" else if n == 2 then ".lo" else ".loc"
  {
  }

  /** Only an unfinished `.lock` is finished by what does not end in one itself. */
  lemma FinishedLockWasUnfinished(last: string, first: string)
    requires first != "" && !EndsWith(first, ".lock") && EndsWith(last + first, ".lock")
    ensures LeavesALockToFinish(last)
  {
    if |first| >= 5 {
      LongEnding(last, first);
    } else {
      ShortEnding(last, first);
      UnfinishedLocks(|first|);
    }
  }

  /** What a clean component joined to the end of a prefix makes is usable where the probe's was
      and it finishes no `.lock`. */
  lemma JoinedIsUsable(last: string, first: string)
    requires UsableComponent(last + PROBE) && Clean(first) && !LeavesALockToFinish(last)
    ensures UsableComponent(last + first)
  {
    if last != "" {
      assert (last + first)[0] == (last + PROBE)[0];
    }
    if EndsWith(last + first, ".lock") {
      FinishedLockWasUnfinished(last, first);
    }
  }

  lemma PairsAcrossThePrefix(prefix: string, name: string, a: char, b: char)
    requires name != "" && name[0] != b && HasPair(prefix + name, a, b)
    ensures HasPair(prefix + PROBE, a, b) || HasPair(name, a, b)
  {
    var probed, whole := prefix + PROBE, prefix + name;
    var i :| 0 <= i < |whole| - 1 && whole[i] == a && whole[i + 1] == b;
    if i + 1 < |prefix| {
      assert probed[i] == a && probed[i + 1] == b;
    } else if i >= |prefix| {
      var k := i - |prefix|;
      assert name[k] == a && name[k + 1] == b;
    }
  }

  lemma LastLeavesNoLockEither(prefix: string)
    ensures LeavesALockToFinish(Last(Split(prefix))) ==> LeavesALockToFinish(prefix)
  {
    var last := Last(Split(prefix));
    EndsWithItsLast(prefix);
    if EndsWith(last, ".") {
      EndingOfAnEnding(prefix, last, ".");
    } else if EndsWith(last, ".l") {
      EndingOfAnEnding(prefix, last, ".l");
    } else if EndsWith(last, ".lo") {
      EndingOfAnEnding(prefix, last, ".lo");
    } else if EndsWith(last, ".loc") {
      EndingOfAnEnding(prefix, last, ".loc");
    }
  }

  lemma JoinedHolds(a: seq<string>, b: seq<string>, c: string)
    requires a != [] && b != []
    ensures c in Joined(a, b) <==> c in Front(a) || c == Last(a) + b[0] || c in b[1..]
  {
  }

  lemma JoinedComponentsAreUsable(a: seq<string>, parts: seq<string>, c: string)
    requires a != [] && CleanParts(parts) && !LeavesALockToFinish(Last(a))
    requires forall p :: p in Joined(a, [PROBE]) ==> UsableComponent(p)
    requires c in Joined(a, parts)
    ensures UsableComponent(c)
  {
    JoinedHolds(a, parts, c);
    if c in Front(a) {
      JoinedHolds(a, [PROBE], c);
    } else if c == Last(a) + parts[0] {
      JoinedHolds(a, [PROBE], Last(a) + PROBE);
      JoinedIsUsable(Last(a), parts[0]);
    } else {
      assert Clean(c);
    }
  }

  lemma PrefixedComponentsAreUsable(prefix: string, parts: seq<string>)
    requires NamedBranch(prefix + PROBE) && CleanParts(parts) && !LeavesALockToFinish(prefix)
    ensures forall c :: c in Split(prefix + Join(parts)) ==> UsableComponent(c)
  {
    SplitOfJoin(parts);
    SplitOfBoth(prefix, Join(parts));
    SplitOfBoth(prefix, PROBE);
    SplitOfPlain(PROBE);
    LastLeavesNoLockEither(prefix);
    var front := Split(prefix);
    forall c | c in Joined(front, parts)
      ensures UsableComponent(c)
    {
      JoinedComponentsAreUsable(front, parts, c);
    }
  }

  /** A prefix the probe was accepted under takes every sanitized name, where it leaves no `.lock`
      to finish. */
  lemma PrefixTakesCleanNames(prefix: string, parts: seq<string>)
    requires NamedBranch(prefix + PROBE) && CleanParts(parts) && !LeavesALockToFinish(prefix)
    ensures NamedBranch(prefix + Join(parts))
  {
    var name := Join(parts);
    var probed, whole := prefix + PROBE, prefix + name;
    JoinOfClean(parts);
    CleanNameIsUsable(parts);
    PrefixedComponentsAreUsable(prefix, parts);
    if HasPair(whole, '.', '.') {
      PairsAcrossThePrefix(prefix, name, '.', '.');
    }
    if HasPair(whole, '@', '{') {
      PairsAcrossThePrefix(prefix, name, '@', '{');
    }
    assert whole[|whole| - 1] == name[|name| - 1];
    assert whole[0] == if prefix == "" then name[0] else probed[0];
    forall i | 0 <= i < |whole|
      ensures !Refused(whole[i])
    {
      if i < |prefix| {
        assert whole[i] == probed[i];
      } else {
        assert whole[i] == name[i - |prefix|];
      }
    }
  }

  lemma CleanNameIsKept(c: string)
    requires Clean(c)
    ensures Sanitized(c) == Some(c)
  {
    CleanPartsAreKept([c]);
    assert '/' !in c;
    SplitOfPlain(c);
    assert MapAll(c) == c;
    assert Join([c]) == c;
  }

  /** A name that finishes the `.lock` a prefix ends in is refused under it. */
  lemma FinishedLockIsRefused(prefix: string, x: string, name: string)
    requires EndsWith(prefix, x) && x + name == ".lock"
    ensures !NamedBranch(prefix + name)
  {
    var front := prefix[..|prefix| - |x|];
    assert prefix == front + x;
    assert prefix + name == front + ".lock";
    SplitOfBoth(front, ".lock");
    assert '/' !in ".lock";
    SplitOfPlain(".lock");
    var c := Last(Split(front)) + ".lock";
    assert c in Split(front + ".lock") && c[|c| - 5..] == ".lock";
  }

  /** For each of them there is such a name, which the sanitizer answers. */
  lemma ANameFinishesIt(prefix: string) returns (name: string)
    requires LeavesALockToFinish(prefix)
    ensures Sanitized(name) == Some(name) && !NamedBranch(prefix + name)
  {
    if EndsWith(prefix, ".") {
      name := "lock";
      FinishedLockIsRefused(prefix, ".", name);
    } else if EndsWith(prefix, ".l") {
      name := "ock";
      FinishedLockIsRefused(prefix, ".l", name);
    } else if EndsWith(prefix, ".lo") {
      name := "ck";
      FinishedLockIsRefused(prefix, ".lo", name);
    } else {
      name := "k";
      FinishedLockIsRefused(prefix, ".loc", name);
    }
    ShortWordIsClean(name);
    CleanNameIsKept(name);
  }

  /** Whatever prefix is accepted by its probe, every sanitized name is accepted under it exactly
      where it does not end in what one of them would finish to `.lock`. */
  lemma PrefixTakesEverySanitizedNameIff(prefix: string)
    requires NamedBranch(prefix + PROBE)
    ensures (forall proposed: string {:trigger Sanitized(proposed)} ::
               Sanitized(proposed).Some? ==> NamedBranch(prefix + Sanitized(proposed).value))
            <==> !LeavesALockToFinish(prefix)
  {
    if LeavesALockToFinish(prefix) {
      var name := ANameFinishesIt(prefix);
    } else {
      forall proposed: string | Sanitized(proposed).Some?
        ensures NamedBranch(prefix + Sanitized(proposed).value)
      {
        var parts := SanitizedParts(proposed);
        PrefixTakesCleanNames(prefix, parts);
      }
    }
  }

  /** A prefix that ends in `/`, as prefixes are written, is never one of those. */
  lemma PrefixTakesEverySanitizedName(front: string, proposed: string)
    requires NamedBranch(front + "/" + PROBE) && Sanitized(proposed).Some?
    ensures NamedBranch(front + "/" + Sanitized(proposed).value)
  {
    SlashLeavesNoLock(front);
    PrefixTakesEverySanitizedNameIff(front + "/");
  }

  lemma SlashLeavesNoLock(front: string)
    ensures !LeavesALockToFinish(front + "/")
  {
    OtherEnding(front + "/", ".");
    OtherEnding(front + "/", ".l");
    OtherEnding(front + "/", ".lo");
    OtherEnding(front + "/", ".loc");
  }

  lemma OtherEnding(s: string, x: string)
    requires s != "" && x != "" && s[|s| - 1] != x[|x| - 1]
    ensures !EndsWith(s, x)
  {
    if |x| <= |s| {
      assert s[|s| - |x|..][|x| - 1] == s[|s| - 1];
    }
  }

  lemma AcceptedAndRefusing(prefix: string, x: string, name: string)
    requires Clean(prefix + PROBE) && EndsWith(prefix, x) && Clean(name) && x + name == ".lock"
    ensures NamedBranch(prefix + PROBE) && Sanitized(name) == Some(name) && !NamedBranch(prefix + name)
  {
    SingleComponentIsNamed(prefix + PROBE);
    CleanNameIsKept(name);
    FinishedLockIsRefused(prefix, x, name);
  }

  /** Such prefixes are accepted: the probe takes `a.`, and the name `lock` cut under it is
      refused. */
  lemma ProbeAcceptsADotThatRefuses() returns (prefix: string, name: string)
    ensures prefix == "a." && name == "lock"
    ensures NamedBranch(prefix + PROBE) && Sanitized(name) == Some(name) && !NamedBranch(prefix + name)
  {
    prefix, name := "a.", "lock";
    assert prefix + PROBE == "a.branch";
    PlainWordIsClean(prefix + PROBE, 1);
    ShortWordIsClean(name);
    AcceptedAndRefusing(prefix, ".", name);
  }

  /** Nor need they end in a dot: it takes `a.lo`, and the name `ck` is refused. */
  lemma ProbeAcceptsALetterThatRefuses() returns (prefix: string, name: string)
    ensures prefix == "a.lo" && name == "ck"
    ensures NamedBranch(prefix + PROBE) && Sanitized(name) == Some(name) && !NamedBranch(prefix + name)
  {
    prefix, name := "a.lo", "ck";
    assert prefix + PROBE == "a.lobranch";
    PlainWordIsClean(prefix + PROBE, 1);
    ShortWordIsClean(name);
    AcceptedAndRefusing(prefix, ".lo", name);
  }

  /** A word of letters too short to end in `.lock`. */
  lemma ShortWordIsClean(c: string)
    requires 0 < |c| < 5 && forall i :: 0 <= i < |c| ==> IsAlphanumeric(c[i])
    ensures Clean(c)
  {
  }

  /** A word of letters around one dot. */
  lemma PlainWordIsClean(c: string, dot: nat)
    requires 0 < dot < |c| - 1 && c[dot] == '.' && c[|c| - 1] != 'k'
    requires forall i :: 0 <= i < |c| && i != dot ==> IsAlphanumeric(c[i])
    ensures Clean(c)
  {
    OtherEnding(c, ".lock");
  }

  lemma SingleComponentIsNamed(c: string)
    requires Clean(c)
    ensures NamedBranch(c)
  {
    assert Join([c]) == c;
    CleanNameIsUsable([c]);
  }

  // ---- What of a proposal is left ----

  /** What the sanitizer makes of one character that is no slash: itself where a name may have it, else `-`. */
  ghost predicate Becomes(c: char, d: char) {
    if 'a' <= c <= 'z' || 'A' <= c <= 'Z' || '0' <= c <= '9' || c == '_' || c == '.' then d == c else d == '-'
  }

  /** A character nothing is left of at either end of a component: no letter, digit or `_`. */
  ghost predicate Loose(c: char) { !IsAlphanumeric(c) && c != '_' }

  /** An ending of such characters and of `.lock`s. */
  ghost predicate LooseEnd(t: string)
    decreases |t|
  {
    || t == ""
    || (Loose(t[|t| - 1]) && LooseEnd(t[..|t| - 1]))
    || (EndsWith(t, ".lock") && LooseEnd(t[..|t| - 5]))
  }

  /** A character that only goes on with a run of `-` or of `.` begun at the one before it. */
  ghost predicate RunsOn(raw: string, i: nat)
    requires i < |raw|
  {
    i > 0 && exists d :: (d == '-' || d == '.') && Becomes(raw[i - 1], d) && Becomes(raw[i], d)
  }

  /** `c` is made of the characters of `raw` from `a` to `b`, in order, each as it becomes and less what goes on
      with a run; before them is nothing that would be left, and after them only endings. */
  ghost predicate MadeOf(raw: string, c: string, a: nat, b: nat, at: seq<nat>) {
    && a <= b <= |raw| && |at| == |c|
    && (forall i :: 0 <= i < a ==> Loose(raw[i])) && LooseEnd(raw[b..])
    && (forall k :: 0 <= k < |at| ==> a <= at[k] < b && Becomes(raw[at[k]], c[k]))
    && (forall j, k :: 0 <= j < k < |at| ==> at[j] < at[k])
    && (forall i :: a <= i < b ==> i in at || RunsOn(raw, i))
  }

  ghost predicate MadeFrom(raw: string, c: string) { Clean(c) && exists a, b, at :: MadeOf(raw, c, a, b, at) }

  ghost predicate HasSubstance(raw: string) { exists i :: 0 <= i < |raw| && !Loose(raw[i]) }

  ghost predicate AllTrimmable(s: string) { forall i :: 0 <= i < |s| ==> Trimmable(s[i]) }

  /** What is collapsed ends as it did. */
  lemma {:induction false} CollapseEndsAsItDid(s: string)
    requires s != ""
    ensures Collapse(s) != "" && Collapse(s)[|Collapse(s)| - 1] == s[|s| - 1]
    decreases |s|
  {
    if |s| > 1 {
      CollapseEndsAsItDid(s[..|s| - 1]);
    }
  }

  /** Nothing is collapsed across a character that is in no run. */
  lemma {:induction false} CollapseOfBoth(a: string, b: string)
    requires a != "" && b != "" ==> !Trimmable(a[|a| - 1]) || !Trimmable(b[0])
    ensures Collapse(a + b) == Collapse(a) + Collapse(b)
    decreases |b|
  {
    if b == "" {
      assert a + b == a;
    } else {
      var before := b[..|b| - 1];
      assert (a + b)[..|a + b| - 1] == a + before;
      CollapseOfBoth(a, before);
      BothEndAlike(a, before);
      OneMoreCollapsed(Collapse(a), Collapse(before), b[|b| - 1]);
    }
  }

  lemma BothEndAlike(a: string, b: string)
    ensures a != "" ==> Collapse(a) != "" && Collapse(a)[|Collapse(a)| - 1] == a[|a| - 1]
    ensures b != "" ==> Collapse(b) != "" && Collapse(b)[|Collapse(b)| - 1] == b[|b| - 1]
  {
    if a != "" {
      CollapseEndsAsItDid(a);
    }
    if b != "" {
      CollapseEndsAsItDid(b);
    }
  }

  lemma OneMoreCollapsed(a: string, b: string, c: char)
    ensures a + (b + [c]) == a + b + [c]
    ensures b != "" ==> (a + b)[|a + b| - 1] == b[|b| - 1]
    ensures b == "" ==> a + b == a
  {
  }

  lemma {:induction false} TrimmableCollapses(s: string)
    requires AllTrimmable(s)
    ensures AllTrimmable(Collapse(s))
    decreases |s|
  {
    if s != "" {
      TrimmableCollapses(s[..|s| - 1]);
    }
  }

  lemma {:induction false} TrimStartOfBoth(a: string, b: string)
    requires AllTrimmable(a) && (b != "" ==> !Trimmable(b[0]))
    ensures TrimStart(a + b) == b
    decreases |a|
  {
    if a == "" {
      assert a + b == b;
    } else {
      assert (a + b)[1..] == a[1..] + b;
      TrimStartOfBoth(a[1..], b);
    }
  }

  lemma {:induction false} TrimEndOfBoth(a: string, b: string)
    requires AllTrimmable(b) && (a != "" ==> !Trimmable(a[|a| - 1]))
    ensures TrimEnd(a + b) == a
    decreases |b|
  {
    if b == "" {
      assert a + b == a;
    } else {
      assert (a + b)[..|a + b| - 1] == a + b[..|b| - 1];
      TrimEndOfBoth(a, b[..|b| - 1]);
    }
  }

  /** Where a string's last character that is in no run stands: what is after it is trimmed. */
  lemma {:induction false} TrimmedAt(s: string) returns (e: nat)
    ensures e <= |s| && AllTrimmable(s[e..]) && (e > 0 ==> !Trimmable(s[e - 1]))
    ensures TrimEnd(Collapse(s)) == Collapse(s[..e])
    decreases |s|
  {
    e := |s|;
    while e > 0 && Trimmable(s[e - 1])
      invariant e <= |s| && AllTrimmable(s[e..])
    {
      e := e - 1;
    }
    assert s == s[..e] + s[e..];
    CollapseOfBoth(s[..e], s[e..]);
    TrimmableCollapses(s[e..]);
    TrimEndOfBoth(Collapse(s[..e]), Collapse(s[e..]));
  }

  /** A character that is in no run, at the end of what is collapsed, is the last of what it is of. */
  lemma LastIsKept(s: string, x: string, c: char) returns (before: string)
    requires !Trimmable(c) && EndsWith(Collapse(s), x + [c])
    ensures s == before + [c] && Collapse(s) == Collapse(before) + [c] && EndsWith(Collapse(before), x)
  {
    before := s[..|s| - 1];
    CollapseEndsAsItDid(s);
    var all := Collapse(s);
    assert all[|all| - |x + [c]|..][|x|] == c;
    assert Collapse(before)[|Collapse(before)| - |x|..] == all[|all| - |x + [c]|..][..|x|] == x;
  }

  lemma TwoAreKept(s: string, x: string, c: char, d: char) returns (before: string)
    requires !Trimmable(c) && !Trimmable(d) && EndsWith(Collapse(s), x + [c, d])
    ensures s == before + [c, d] && Collapse(s) == Collapse(before) + [c, d] && EndsWith(Collapse(before), x)
  {
    assert x + [c, d] == x + [c] + [d];
    var further := LastIsKept(s, x + [c], d);
    before := LastIsKept(further, x, c);
  }

  lemma LockIsKept(s: string) returns (before: string)
    requires EndsWith(Collapse(s), ".lock")
    ensures s == before + "lock" && Collapse(s) == Collapse(before) + "lock" && EndsWith(Collapse(before), ".")
  {
    assert ".lock" == ".lo" + ['c', 'k'] && ".lo" == "." + ['l', 'o'];
    var lo := TwoAreKept(s, ".lo", 'c', 'k');
    before := TwoAreKept(lo, ".", 'l', 'o');
  }

  /** A `.` collapsed at the end is trimmed with what goes before it. */
  lemma DotIsTrimmed(s: string) returns (before: string)
    requires EndsWith(Collapse(s), ".")
    ensures s == before + "." && TrimEnd(Collapse(s)[..|Collapse(s)| - 1]) == TrimEnd(Collapse(before))
  {
    before := s[..|s| - 1];
    CollapseEndsAsItDid(s);
    if Collapse(s) == Collapse(before) {
      assert TrimEnd(Collapse(s)) == TrimEnd(Collapse(s)[..|Collapse(s)| - 1]);
    } else {
      assert Collapse(s)[..|Collapse(s)| - 1] == Collapse(before);
    }
  }

  /** A `.lock` at the end of what is collapsed is one at the end of what it is of. */
  lemma CollapsedLock(s: string) returns (before: string)
    requires EndsWith(Collapse(s), ".lock")
    ensures s == before + ".lock"
    ensures TrimEnd(Collapse(s)[..|Collapse(s)| - 5]) == TrimEnd(Collapse(before))
  {
    var dotted := LockIsKept(s);
    before := DotIsTrimmed(dotted);
    WithoutTheLock(Collapse(s), Collapse(dotted));
    assert "." + "lock" == ".lock";
    assert before + "." + "lock" == before + ("." + "lock");
  }

  lemma WithoutTheLock(all: string, dotted: string)
    requires all == dotted + "lock" && dotted != ""
    ensures all[..|all| - 5] == dotted[..|dotted| - 1]
  {
  }

  /** Stripping of `.lock`s takes off an ending. */
  lemma {:induction false} StrippedAt(s: string) returns (b: nat)
    requires s != "" ==> !Trimmable(s[|s| - 1])
    ensures b <= |s| && LooseEnd(s[b..]) && StripLocks(Collapse(s)) == Collapse(s[..b])
    decreases |s|
  {
    if EndsWith(Collapse(s), ".lock") {
      var shorter := CollapsedLock(s);
      var e := TrimmedAt(shorter);
      b := StrippedAt(shorter[..e]);
      StrippedFurther(s, shorter, e, b);
    } else {
      b := |s|;
      assert s[..b] == s && s[b..] == "";
    }
  }

  lemma StrippedFurther(s: string, shorter: string, e: nat, b: nat)
    requires s == shorter + ".lock" && b <= e <= |shorter| && AllTrimmable(shorter[e..]) && LooseEnd(shorter[..e][b..])
    ensures LooseEnd(s[b..]) && shorter[..e][..b] == s[..b]
  {
    assert s[b..] == shorter[b..] + ".lock";
    assert shorter[b..] == shorter[..e][b..] + shorter[e..];
    LooseEndThenTrimmable(shorter[..e][b..], shorter[e..]);
    LooseEndThenLock(shorter[b..]);
  }

  lemma {:induction false} LooseEndThenTrimmable(t: string, u: string)
    requires LooseEnd(t) && AllTrimmable(u)
    ensures LooseEnd(t + u)
    decreases |u|
  {
    if u == "" {
      assert t + u == t;
    } else {
      LooseEndThenTrimmable(t, u[..|u| - 1]);
      assert (t + u)[..|t + u| - 1] == t + u[..|u| - 1];
    }
  }

  lemma LooseEndThenLock(t: string)
    requires LooseEnd(t)
    ensures LooseEnd(t + ".lock")
  {
    assert (t + ".lock")[..|t + ".lock"| - 5] == t;
    assert EndsWith(t + ".lock", ".lock");
  }

  /** `c` is of the characters of `s` at these places, which are all but those that go on with a run. */
  ghost predicate IsOf(s: string, c: string, at: seq<nat>) {
    && |at| == |c|
    && (forall k :: 0 <= k < |at| ==> at[k] < |s| && s[at[k]] == c[k])
    && (forall j, k :: 0 <= j < k < |at| ==> at[j] < at[k])
    && forall i :: 0 <= i < |s| ==> i in at || GoesOn(s, i)
  }

  ghost predicate GoesOn(s: string, i: nat)
    requires i < |s|
  {
    i > 0 && Trimmable(s[i]) && s[i] == s[i - 1]
  }

  lemma OneMoreIsOf(s: string, collapsed: string, at: seq<nat>)
    requires s != "" && IsOf(s[..|s| - 1], collapsed, at)
    ensures IsOf(s, collapsed + [s[|s| - 1]], at + [|s| - 1])
    ensures GoesOn(s, |s| - 1) ==> IsOf(s, collapsed, at)
  {
    var before, more := s[..|s| - 1], at + [|s| - 1];
    forall i: nat | i < |before|
      ensures i in at || GoesOn(s, i)
    {
      assert i in at || GoesOn(before, i);
    }
    assert |s| - 1 in more && forall i :: i in at ==> i in more;
  }

  lemma {:induction false} CollapsedPlaces(s: string) returns (at: seq<nat>)
    ensures IsOf(s, Collapse(s), at)
    decreases |s|
  {
    if s == "" {
      at := [];
    } else {
      at := CollapsedPlaces(s[..|s| - 1]);
      OneMoreIsOf(s, Collapse(s[..|s| - 1]), at);
      if |s| > 1 {
        CollapseEndsAsItDid(s[..|s| - 1]);
      }
      if !GoesOn(s, |s| - 1) {
        at := at + [|s| - 1];
      }
    }
  }

  lemma {:induction false} CollapseStartsAsItDid(s: string)
    requires s != ""
    ensures Collapse(s) != "" && Collapse(s)[0] == s[0]
    decreases |s|
  {
    if |s| > 1 {
      CollapseStartsAsItDid(s[..|s| - 1]);
    }
  }

  lemma StartsAt(s: string) returns (a: nat)
    ensures a <= |s| && AllTrimmable(s[..a]) && (a < |s| ==> !Trimmable(s[a]))
    ensures TrimStart(Collapse(s)) == Collapse(s[a..])
  {
    a := 0;
    while a < |s| && Trimmable(s[a])
      invariant a <= |s| && AllTrimmable(s[..a])
    {
      a := a + 1;
    }
    assert s == s[..a] + s[a..];
    CollapseOfBoth(s[..a], s[a..]);
    TrimmableCollapses(s[..a]);
    if a < |s| {
      CollapseStartsAsItDid(s[a..]);
    }
    TrimStartOfBoth(Collapse(s[..a]), Collapse(s[a..]));
  }

  lemma StretchesJoin(raw: string, a: nat, e: nat, n: nat)
    requires a <= |raw| && n <= e <= |raw| - a
    requires LooseEnd(raw[a..][..e][n..]) && AllTrimmable(raw[a..][e..])
    ensures LooseEnd(raw[a + n..]) && raw[a..][..e][..n] == raw[a..a + n]
  {
    LooseEndThenTrimmable(raw[a..][..e][n..], raw[a..][e..]);
    assert raw[a..][..e][n..] == raw[a + n..a + e] && raw[a..][e..] == raw[a + e..];
    assert raw[a + n..a + e] + raw[a + e..] == raw[a + n..];
  }

  /** A component is a stretch of what it is of, collapsed; and there is none exactly where nothing is
      left. */
  lemma ComponentIsOf(raw: string) returns (a: nat, b: nat)
    ensures ComponentOf(raw).None? <==> AllTrimmable(raw)
    ensures ComponentOf(raw).Some? ==>
      a <= b <= |raw| && AllTrimmable(raw[..a]) && LooseEnd(raw[b..]) && ComponentOf(raw).value == Collapse(raw[a..b])
  {
    a := StartsAt(raw);
    var e := TrimmedAt(raw[a..]);
    var n := StrippedAt(raw[a..][..e]);
    StretchesJoin(raw, a, e, n);
    b := a + n;
    if e == 0 {
      NothingKept(raw, a, e);
    } else {
      SomethingKept(raw[a..][..e]);
    }
  }

  lemma NothingKept(raw: string, a: nat, e: nat)
    requires a <= |raw| && AllTrimmable(raw[..a]) && e <= |raw| - a && AllTrimmable(raw[a..][e..]) && raw[a..][..e] == ""
    ensures AllTrimmable(raw)
  {
    assert raw == raw[..a] + raw[a..][e..];
  }

  lemma SomethingKept(kept: string)
    requires kept != "" && !Trimmable(kept[0]) && !Trimmable(kept[|kept| - 1])
    ensures StripLocks(Collapse(kept)) != ""
  {
    CollapseStartsAsItDid(kept);
    CollapseEndsAsItDid(kept);
    StripLocksKeeps(Collapse(kept));
  }

  lemma {:induction false} LooseEndUnmapped(t: string)
    requires '/' !in t && LooseEnd(MapAll(t))
    ensures LooseEnd(t)
    decreases |t|
  {
    if t != "" {
      var m := MapAll(t);
      if EndsWith(m, ".lock") && LooseEnd(m[..|m| - 5]) {
        assert m[..|m| - 5] == MapAll(t[..|t| - 5]);
        LockIsUnmapped(t);
        LooseEndUnmapped(t[..|t| - 5]);
      } else {
        assert m[..|m| - 1] == MapAll(t[..|t| - 1]);
        LooseEndUnmapped(t[..|t| - 1]);
      }
    }
  }

  lemma LockIsUnmapped(t: string)
    requires EndsWith(MapAll(t), ".lock")
    ensures EndsWith(t, ".lock")
  {
    var m, n := MapAll(t), |t|;
    forall i | 0 <= i < 5
      ensures t[n - 5..][i] == ".lock"[i]
    {
      assert m[n - 5..][i] == ".lock"[i];
      assert m[n - 5 + i] == Mapped(t[n - 5 + i]);
    }
  }

  /** What is left of one component of a proposal. */
  lemma ComponentIsMadeFrom(raw: string)
    requires '/' !in raw
    ensures ComponentOf(MapAll(raw)).Some? <==> HasSubstance(raw)
    ensures ComponentOf(MapAll(raw)).Some? ==> MadeFrom(raw, ComponentOf(MapAll(raw)).value)
  {
    var m := MapAll(raw);
    forall i | 0 <= i < |raw|
      ensures Becomes(raw[i], m[i]) && Plain(m[i]) && (Trimmable(m[i]) <==> Loose(raw[i]))
    {
      assert raw[i] in raw;
    }
    var a, b := ComponentIsOf(m);
    if ComponentOf(m).Some? {
      var c := ComponentOf(m).value;
      KeptComponentIsClean(m);
      assert m[b..] == MapAll(raw[b..]);
      LooseEndUnmapped(raw[b..]);
      var at := CollapsedPlaces(m[a..b]);
      StretchIsMadeOf(raw, c, a, b, at);
    }
  }

  lemma StretchIsMadeOf(raw: string, c: string, a: nat, b: nat, at: seq<nat>)
    requires '/' !in raw && a <= b <= |raw| && AllTrimmable(MapAll(raw)[..a]) && LooseEnd(raw[b..])
    requires forall i :: 0 <= i < |raw| ==> Becomes(raw[i], MapAll(raw)[i]) && (Trimmable(MapAll(raw)[i]) <==> Loose(raw[i]))
    requires IsOf(MapAll(raw)[a..b], c, at)
    ensures exists moved :: MadeOf(raw, c, a, b, moved)
  {
    var m := MapAll(raw);
    var moved := Further(at, a);
    forall i | 0 <= i < a
      ensures Loose(raw[i])
    {
      assert m[..a][i] == m[i];
    }
    forall i: nat | a <= i < b && i !in moved
      ensures RunsOn(raw, i)
    {
      assert GoesOn(m[a..b], i - a);
      assert m[a..b][i - a] == m[i] && m[a..b][i - a - 1] == m[i - 1];
      assert Becomes(raw[i - 1], m[i]) && Becomes(raw[i], m[i]);
    }
    assert MadeOf(raw, c, a, b, moved);
  }

  /** The same places, so much further on. */
  lemma Further(at: seq<nat>, n: nat) returns (moved: seq<nat>)
    ensures |moved| == |at| && forall k :: 0 <= k < |at| ==> moved[k] == at[k] + n
    ensures forall i: nat :: i in moved <==> i >= n && i - n in at
  {
    moved := seq(|at|, k requires 0 <= k < |at| => at[k] + n);
    forall i: nat | i >= n && i - n in at
      ensures i in moved
    {
      var k :| 0 <= k < |at| && at[k] == i - n;
      assert moved[k] == i;
    }
  }

  ghost predicate MappedEach(mapped: seq<string>, raws: seq<string>) {
    |mapped| == |raws| && forall k :: 0 <= k < |raws| ==> mapped[k] == MapAll(raws[k])
  }

  lemma OneMoreMapped(c: char, t: string)
    ensures MapAll([c] + t) == [Mapped(c)] + MapAll(t)
  {
  }

  lemma {:induction false} SplitOfMapped(s: string)
    ensures MappedEach(Split(MapAll(s)), Split(s))
    decreases |s|
  {
    if s != "" {
      var rest := Split(s[1..]);
      SplitOfMapped(s[1..]);
      assert s == [s[0]] + s[1..];
      OneMoreMapped(s[0], s[1..]);
      OneMoreMapped(s[0], rest[0]);
      assert MapAll(s)[1..] == MapAll(s[1..]);
    }
  }

  /** These are the components that are kept, in order. */
  ghost predicate AreKept(parts: seq<string>, kept: seq<string>, which: seq<nat>) {
    && |which| == |kept|
    && (forall k :: 0 <= k < |which| ==> which[k] < |parts| && ComponentOf(parts[which[k]]) == Some(kept[k]))
    && forall j, k :: 0 <= j < k < |which| ==> which[j] < which[k]
  }

  lemma StillKept(parts: seq<string>, kept: seq<string>, which: seq<nat>, moved: seq<nat>)
    requires parts != [] && AreKept(parts[1..], kept, which)
    requires |moved| == |which| && forall k :: 0 <= k < |which| ==> moved[k] == which[k] + 1
    ensures AreKept(parts, kept, moved)
    ensures ComponentOf(parts[0]).Some? ==> AreKept(parts, [ComponentOf(parts[0]).value] + kept, [0] + moved)
  {
    if ComponentOf(parts[0]).Some? {
      var more, all := [0] + moved, [ComponentOf(parts[0]).value] + kept;
      forall k | 0 <= k < |more|
        ensures more[k] < |parts| && ComponentOf(parts[more[k]]) == Some(all[k])
      {
        assert k > 0 ==> more[k] == moved[k - 1] == which[k - 1] + 1 && all[k] == kept[k - 1];
      }
    }
  }

  lemma {:induction false} KeptPlaces(parts: seq<string>) returns (which: seq<nat>)
    ensures AreKept(parts, Kept(parts), which)
    ensures forall i :: 0 <= i < |parts| ==> (i in which <==> ComponentOf(parts[i]).Some?)
  {
    if parts == [] {
      which := [];
    } else {
      var later := KeptPlaces(parts[1..]);
      var moved := Further(later, 1);
      StillKept(parts, Kept(parts[1..]), later, moved);
      which := if ComponentOf(parts[0]).Some? then [0] + moved else moved;
      assert forall i :: 0 < i < |parts| ==> parts[i] == parts[1..][i - 1];
      assert forall i :: 0 < i < |parts| ==> (i in which <==> i in moved);
    }
  }

  lemma ComponentsAreMade(proposed: string, i: nat)
    requires i < |Split(proposed)|
    ensures i < |Split(MapAll(proposed))|
    ensures var c, raw := ComponentOf(Split(MapAll(proposed))[i]), Split(proposed)[i];
      (c.Some? <==> HasSubstance(raw)) && (c.Some? ==> MadeFrom(raw, c.value))
  {
    SplitOfMapped(proposed);
    assert Split(proposed)[i] in Split(proposed);
    ComponentIsMadeFrom(Split(proposed)[i]);
  }

  /** Components of a name, and those of a proposal they are made from, in order and leaving out none that has
      anything left. */
  ghost predicate MadeFromThem(raws: seq<string>, parts: seq<string>, which: seq<nat>) {
    && |which| == |parts|
    && (forall j, k :: 0 <= j < k < |which| ==> which[j] < which[k])
    && (forall i :: 0 <= i < |raws| ==> (i in which <==> HasSubstance(raws[i])))
    && forall k :: 0 <= k < |which| ==> which[k] < |raws| && MadeFrom(raws[which[k]], parts[k])
  }

  lemma KeptAreMadeFromThem(proposed: string) returns (which: seq<nat>)
    ensures MadeFromThem(Split(proposed), Kept(Split(MapAll(proposed))), which)
  {
    SplitOfMapped(proposed);
    which := KeptPlaces(Split(MapAll(proposed)));
    forall i | 0 <= i < |Split(proposed)|
      ensures var c, raw := ComponentOf(Split(MapAll(proposed))[i]), Split(proposed)[i];
        (c.Some? <==> HasSubstance(raw)) && (c.Some? ==> MadeFrom(raw, c.value))
    {
      ComponentsAreMade(proposed, i);
    }
  }

  /** A sanitized name is its proposal, component by component: each with a letter, a digit or `_` in it is there, in
      order, as what it is made of, and there is a name exactly where there is such a component. */
  lemma SanitizedIsWhatWasProposed(proposed: string) returns (which: seq<nat>)
    ensures Sanitized(proposed).Some? <==> HasSubstance(proposed)
    ensures Sanitized(proposed).Some? ==>
      MadeFromThem(Split(proposed), Split(Sanitized(proposed).value), which)
  {
    which := KeptAreMadeFromThem(proposed);
    NamedIffKept(proposed);
    SubstanceIsSomewhere(proposed);
    KeptIffSubstance(Split(proposed), Kept(Split(MapAll(proposed))), which);
  }

  lemma KeptIffSubstance(raws: seq<string>, parts: seq<string>, which: seq<nat>)
    requires MadeFromThem(raws, parts, which)
    ensures parts != [] <==> SomeHasSubstance(raws)
  {
    if parts != [] {
      assert which[0] in which;
    }
  }

  lemma NamedIffKept(proposed: string)
    ensures Sanitized(proposed).Some? <==> Kept(Split(MapAll(proposed))) != []
    ensures Sanitized(proposed).Some? ==> Split(Sanitized(proposed).value) == Kept(Split(MapAll(proposed)))
  {
    var parts := Kept(Split(MapAll(proposed)));
    if Sanitized(proposed).Some? {
      var same := SanitizedParts(proposed);
      SplitOfJoin(parts);
    } else if parts != [] {
      NamelessIsNothing(proposed);
    }
  }

  lemma NamelessIsNothing(proposed: string)
    ensures Join(Kept(Split(MapAll(proposed)))) == "" ==> Kept(Split(MapAll(proposed))) == []
  {
    var mapped := MapAll(proposed);
    SplitKeepsCharacters(mapped);
    forall p, i | p in Split(mapped) && 0 <= i < |p|
      ensures Plain(p[i])
    {
      assert p[i] in mapped && p[i] != '/';
    }
    KeptAreClean(Split(mapped));
    var parts := Kept(Split(mapped));
    if parts != [] {
      JoinOfClean(parts);
    }
  }

  lemma SubstanceOfMore(c: char, t: string)
    ensures HasSubstance([c] + t) <==> !Loose(c) || HasSubstance(t)
  {
    var more := [c] + t;
    assert more[0] == c;
    if HasSubstance(t) {
      var i :| 0 <= i < |t| && !Loose(t[i]);
      assert more[i + 1] == t[i];
    }
  }

  ghost predicate SomeHasSubstance(parts: seq<string>) { exists i :: 0 <= i < |parts| && HasSubstance(parts[i]) }

  lemma SomeOfMore(part: string, parts: seq<string>)
    ensures SomeHasSubstance([part] + parts) <==> HasSubstance(part) || SomeHasSubstance(parts)
  {
    var more := [part] + parts;
    assert more[0] == part;
    if SomeHasSubstance(parts) {
      var i :| 0 <= i < |parts| && HasSubstance(parts[i]);
      assert more[i + 1] == parts[i];
    }
  }

  /** A proposal has substance where a component of it does. */
  lemma {:induction false} SubstanceIsSomewhere(s: string)
    ensures HasSubstance(s) <==> SomeHasSubstance(Split(s))
    decreases |s|
  {
    if s != "" {
      var rest := Split(s[1..]);
      SubstanceIsSomewhere(s[1..]);
      assert s == [s[0]] + s[1..];
      SubstanceOfMore(s[0], s[1..]);
      if s[0] == '/' {
        SomeOfMore("", rest);
      } else {
        assert rest == [rest[0]] + rest[1..];
        SubstanceOfMore(s[0], rest[0]);
        SomeOfMore([s[0]] + rest[0], rest[1..]);
        SomeOfMore(rest[0], rest[1..]);
      }
    }
  }
}
