/**
 Reading every blob out of one `git cat-file --batch` stream, where only each header's size says
 where its content ends. A character stands for a byte.
 */
module BlobStream {
  import opened Basics
  import BranchNames
  import Decimal

  /** How far into a content a NUL makes it binary. */
  const SNIFFED: nat := 8000

  datatype Blob = Blob(oid: string, content: string)

  datatype Scan = Scan(scanned: seq<Blob>, binary: nat, bytes: nat, failed: bool)

  predicate Binary(content: string) { '\0' in content[..if |content| < SNIFFED then |content| else SNIFFED] }

  /** `read_line`: through the first newline, or to the end. */
  function Line(stream: string): (line: string)
    ensures line <= stream && (stream != "" ==> line != "")
  {
    if stream == "" then ""
    else if stream[0] == '\n' then "\n"
    else [stream[0]] + Line(stream[1..])
  }

  function TrimEnd(s: string): string {
    if s != "" && BranchNames.IsWhitespace(s[|s| - 1]) then TrimEnd(s[..|s| - 1]) else s
  }

  /** `str::split(' ')`. */
  function Fields(s: string): (fields: seq<string>)
    ensures fields != []
  {
    if s == "" then [""]
    else
      var rest := Fields(s[1..]);
      if s[0] == ' ' then [""] + rest else [[s[0]] + rest[0]] + rest[1..]
  }

  /** One blob counted: a binary one is only counted. */
  function Counting(t: Scan, b: Blob): Scan {
    if Binary(b.content) then t.(binary := t.binary + 1)
    else t.(scanned := t.scanned + [b], bytes := t.bytes + |b.content|)
  }

  /** What is left of a stream, and of a scan of it, once one header and its content are read. */
  function ReadOne(stream: string, t: Scan): (string, Scan)
    requires stream != ""
    ensures |ReadOne(stream, t).0| < |stream|
  {
    var line := Line(stream);
    var fields, rest := Fields(TrimEnd(line)), stream[|line|..];
    if |fields| != 3 then (rest, t.(failed := true))
    else
      match Decimal.Parse(fields[2])
      case None => ("", t.(failed := true))
      case Some(size) =>
        if |rest| < size + 1 then ("", t.(failed := true))
        else (rest[size + 1..], Counting(t, Blob(fields[0], rest[..size])))
  }

  function ReadAll(stream: string, t: Scan): Scan
    decreases |stream|
  {
    if stream == "" then t else var (rest, t) := ReadOne(stream, t); ReadAll(rest, t)
  }

  const NOTHING: Scan := Scan([], 0, 0, false)

  /** The reading loop. */
  method ReadBlobs(stream: string) returns (t: Scan)
    ensures t == ReadAll(stream, NOTHING)
  {
    t := NOTHING;
    var left := stream;
    while left != ""
      invariant ReadAll(left, t) == ReadAll(stream, NOTHING)
      decreases |left|
    {
      ghost var whole, was := left, t;
      var header := Line(left);
      left := left[|header|..];
      var fields := Fields(TrimEnd(header));
      if |fields| != 3 {
        t := t.(failed := true);
        continue;
      }
      var size := Decimal.Parse(fields[2]);
      if size.None? || |left| < size.value + 1 {
        t := t.(failed := true);
        return;
      }
      var content := left[..size.value];
      left := left[size.value + 1..];
      if Binary(content) {
        t := t.(binary := t.binary + 1);
        continue;
      }
      t := t.(scanned := t.scanned + [Blob(fields[0], content)], bytes := t.bytes + |content|);
    }
  }

  // ---- What git writes ----

  function Header(b: Blob): string { b.oid + " " + ("blob" + " " + Decimal.Spell(|b.content|)) }

  function Frame(b: Blob): string { Header(b) + "\n" + (b.content + "\n") }

  function Written(blobs: seq<Blob>): string {
    if blobs == [] then "" else Frame(blobs[0]) + Written(blobs[1..])
  }

  /** A name with nothing in it that could end it. */
  ghost predicate Nameable(b: Blob) {
    && (forall i :: 0 <= i < |b.oid| ==> !BranchNames.IsWhitespace(b.oid[i]))
    && |b.content| <= Decimal.U64_MAX
  }

  function Texts(blobs: seq<Blob>): seq<Blob> {
    if blobs == [] then []
    else if Binary(blobs[0].content) then Texts(blobs[1..])
    else [blobs[0]] + Texts(blobs[1..])
  }

  function Bytes(blobs: seq<Blob>): nat {
    if blobs == [] then 0 else |blobs[0].content| + Bytes(blobs[1..])
  }

  /** A scan that met these blobs, every one, besides what it had. */
  ghost predicate Met(before: Scan, blobs: seq<Blob>, after: Scan) {
    && after.scanned == before.scanned + Texts(blobs)
    && after.binary == before.binary + |blobs| - |Texts(blobs)|
    && after.bytes == before.bytes + Bytes(Texts(blobs))
    && after.failed == before.failed
  }

  lemma {:induction false} LineEndsAtItsNewline(line: string, rest: string)
    requires '\n' !in line
    ensures Line(line + "\n" + rest) == line + "\n"
    ensures Line(line) == line
    decreases |line|
  {
    if line != "" {
      assert line == [line[0]] + line[1..];
      assert (line + "\n" + rest)[1..] == line[1..] + "\n" + rest;
      LineEndsAtItsNewline(line[1..], rest);
    }
  }

  lemma {:induction false} FieldsAtASpace(first: string, rest: string)
    requires ' ' !in first
    ensures Fields(first + " " + rest) == [first] + Fields(rest)
    ensures Fields(first) == [first]
    decreases |first|
  {
    if first == "" {
      assert (first + " " + rest)[1..] == rest;
    } else {
      assert first == [first[0]] + first[1..];
      assert (first + " " + rest)[1..] == first[1..] + " " + rest;
      FieldsAtASpace(first[1..], rest);
    }
  }

  lemma DigitsAreNotSpace(n: nat)
    ensures var s := Decimal.Spell(n);
      forall i :: 0 <= i < |s| ==> s[i] != '\n' && s[i] != ' ' && !BranchNames.IsWhitespace(s[i])
  {
    assert forall i :: 0 <= i < |Decimal.Spell(n)| ==> Decimal.IsDigit(Decimal.Spell(n)[i]);
  }

  lemma HeaderHasNoNewline(b: Blob)
    requires Nameable(b)
    ensures '\n' !in Header(b)
  {
    DigitsAreNotSpace(|b.content|);
  }

  /** A header reads back as its name, its kind and its size. */
  lemma HeaderReadsBack(b: Blob)
    requires Nameable(b)
    ensures Fields(TrimEnd(Header(b) + "\n")) == [b.oid, "blob", Decimal.Spell(|b.content|)]
  {
    var digits := Decimal.Spell(|b.content|);
    DigitsAreNotSpace(|b.content|);
    assert (Header(b) + "\n")[..|Header(b)|] == Header(b);
    assert Header(b)[|Header(b)| - 1] == digits[|digits| - 1];
    assert TrimEnd(Header(b) + "\n") == Header(b);
    FieldsAtASpace(b.oid, "blob" + " " + digits);
    FieldsAtASpace("blob", digits);
    FieldsAtASpace(digits, "");
  }

  lemma StreamFromHere(b: Blob, tail: string)
    requires Nameable(b)
    ensures var stream := Header(b) + "\n" + tail;
      && Line(stream) == Header(b) + "\n" && stream[|Line(stream)|..] == tail
      && Fields(TrimEnd(Line(stream))) == [b.oid, "blob", Decimal.Spell(|b.content|)]
      && Decimal.Parse(Decimal.Spell(|b.content|)) == Some(|b.content|)
  {
    HeaderHasNoNewline(b);
    LineEndsAtItsNewline(Header(b), tail);
    HeaderReadsBack(b);
    Decimal.SpellingRoundTrips(|b.content|);
  }

  /** A whole frame is read as its blob, whatever its content holds, and the next is at hand. */
  lemma OneFrame(b: Blob, rest: string, t: Scan)
    requires Nameable(b)
    ensures Frame(b) + rest != "" && ReadOne(Frame(b) + rest, t) == (rest, Counting(t, b))
  {
    var tail := b.content + "\n" + rest;
    assert Frame(b) + rest == Header(b) + "\n" + tail;
    StreamFromHere(b, tail);
    assert tail[..|b.content|] == b.content && tail[|b.content| + 1..] == rest;
  }

  /** Every blob git writes is met, in order, whatever any of them holds. */
  lemma {:induction false} EveryBlobIsMet(blobs: seq<Blob>, rest: string, t: Scan) returns (after: Scan)
    requires forall b :: b in blobs ==> Nameable(b)
    ensures ReadAll(Written(blobs) + rest, t) == ReadAll(rest, after)
    ensures Met(t, blobs, after)
    decreases |blobs|
  {
    if blobs == [] {
      after := t;
      assert Written(blobs) + rest == rest;
    } else {
      after := EveryBlobIsMet(blobs[1..], rest, Counting(t, blobs[0]));
      MetOneMore(t, blobs, after);
      ReadOneMore(blobs, rest, t);
    }
  }

  lemma MetOneMore(t: Scan, blobs: seq<Blob>, after: Scan)
    requires blobs != [] && Met(Counting(t, blobs[0]), blobs[1..], after)
    ensures Met(t, blobs, after)
  {
  }

  lemma ReadOneMore(blobs: seq<Blob>, rest: string, t: Scan)
    requires blobs != [] && Nameable(blobs[0])
    ensures ReadAll(Written(blobs) + rest, t) == ReadAll(Written(blobs[1..]) + rest, Counting(t, blobs[0]))
  {
    var later := Written(blobs[1..]) + rest;
    assert Written(blobs) + rest == Frame(blobs[0]) + later;
    OneFrame(blobs[0], later, t);
  }

  /** A stream git wrote in full is read in full. */
  lemma WholeStreamIsRead(blobs: seq<Blob>)
    requires forall b :: b in blobs ==> Nameable(b)
    ensures Met(NOTHING, blobs, ReadAll(Written(blobs), NOTHING))
  {
    var after := EveryBlobIsMet(blobs, "", NOTHING);
    assert Written(blobs) + "" == Written(blobs);
  }

  /** A stream cut anywhere inside a frame is a failure, and no blob is made of the piece. */
  lemma CutStreamFails(blobs: seq<Blob>, cut: Blob, k: nat)
    requires (forall b :: b in blobs ==> Nameable(b)) && Nameable(cut) && 0 < k < |Frame(cut)|
    ensures var t := ReadAll(Written(blobs) + Frame(cut)[..k], NOTHING);
      t.failed && Met(NOTHING, blobs, t.(failed := false))
  {
    var piece := Frame(cut)[..k];
    var after := EveryBlobIsMet(blobs, piece, NOTHING);
    PieceFails(cut, k, after);
  }

  lemma PieceFails(cut: Blob, k: nat, t: Scan)
    requires Nameable(cut) && 0 < k < |Frame(cut)|
    ensures ReadAll(Frame(cut)[..k], t) == t.(failed := true)
  {
    var piece, header := Frame(cut)[..k], Header(cut);
    if k <= |header| {
      HeaderHasNoNewline(cut);
      assert piece == header[..k];
      LineEndsAtItsNewline(piece, "");
      assert piece[|Line(piece)|..] == "";
      assert ReadOne(piece, t) == ("", t.(failed := true));
    } else {
      var tail := (cut.content + "\n")[..k - |header| - 1];
      assert piece == header + "\n" + tail;
      StreamFromHere(cut, tail);
      assert ReadOne(piece, t) == ("", t.(failed := true));
    }
  }

  // ---- Which are scanned ----

  /** Nothing in the first 8000 characters ends a text. */
  ghost predicate IsText(b: Blob) { forall i :: 0 <= i < |b.content| && i < 8000 ==> b.content[i] != '\0' }

  /** The blobs at these places, in their order. */
  ghost predicate TheOnesAt(blobs: seq<Blob>, at: seq<nat>, chosen: seq<Blob>) {
    && |chosen| == |at|
    && (forall k :: 0 <= k < |at| ==> at[k] < |blobs| && chosen[k] == blobs[at[k]])
    && (forall j, k :: 0 <= j < k < |at| ==> at[j] < at[k])
  }

  lemma BinaryIff(b: Blob)
    ensures Binary(b.content) <==> !IsText(b)
  {
    var sniffed := b.content[..if |b.content| < SNIFFED then |b.content| else SNIFFED];
    if !IsText(b) {
      var i :| 0 <= i < |b.content| && i < 8000 && b.content[i] == '\0';
      assert sniffed[i] == '\0';
    }
  }

  lemma StillTheOnesAt(blobs: seq<Blob>, at: seq<nat>, moved: seq<nat>, chosen: seq<Blob>)
    requires blobs != [] && TheOnesAt(blobs[1..], at, chosen)
    requires |moved| == |at| && forall k :: 0 <= k < |at| ==> moved[k] == at[k] + 1
    ensures TheOnesAt(blobs, moved, chosen)
    ensures TheOnesAt(blobs, [0] + moved, [blobs[0]] + chosen)
  {
    var more, all := [0] + moved, [blobs[0]] + chosen;
    forall k | 0 <= k < |more|
      ensures more[k] < |blobs| && all[k] == blobs[more[k]]
    {
      assert k > 0 ==> more[k] == moved[k - 1] == at[k - 1] + 1 && all[k] == chosen[k - 1];
    }
  }

  lemma {:induction false} TextsAreTheOnesAt(blobs: seq<Blob>) returns (at: seq<nat>)
    ensures TheOnesAt(blobs, at, Texts(blobs))
    ensures forall i :: 0 <= i < |blobs| ==> (i in at <==> IsText(blobs[i]))
  {
    if blobs == [] {
      at := [];
    } else {
      var later := TextsAreTheOnesAt(blobs[1..]);
      var moved := BranchNames.Further(later, 1);
      StillTheOnesAt(blobs, later, moved, Texts(blobs[1..]));
      BinaryIff(blobs[0]);
      at := if IsText(blobs[0]) then [0] + moved else moved;
      assert forall i :: 0 < i < |blobs| ==> blobs[i] == blobs[1..][i - 1];
      assert forall i :: 0 < i < |blobs| ==> (i in at <==> i in moved);
    }
  }

  /** Of a stream git wrote in full, the blobs scanned are those with no NUL in their first 8000
      characters, in the order they were written, and every other is counted as binary. */
  lemma EveryTextIsScanned(blobs: seq<Blob>) returns (at: seq<nat>)
    requires forall b :: b in blobs ==> Nameable(b)
    ensures var t := ReadAll(Written(blobs), NOTHING);
      TheOnesAt(blobs, at, t.scanned) && t.binary == |blobs| - |t.scanned| && t.bytes == Bytes(t.scanned) && !t.failed
    ensures forall i :: 0 <= i < |blobs| ==> (i in at <==> IsText(blobs[i]))
  {
    WholeStreamIsRead(blobs);
    assert NOTHING.scanned + Texts(blobs) == Texts(blobs);
    at := TextsAreTheOnesAt(blobs);
  }

  // ---- What is no blob ----

  const MISSING: string := "missing"

  /** What git writes for an object it does not have. */
  function Absent(oid: string): string { oid + " " + MISSING }

  ghost predicate IsWord(w: string) { w != "" && forall i :: 0 <= i < |w| ==> !BranchNames.IsWhitespace(w[i]) }

  lemma TwoWordsReadAsTwo(a: string, w: string)
    requires IsWord(a) && IsWord(w)
    ensures '\n' !in a + " " + w && |Fields(TrimEnd(a + " " + w + "\n"))| == 2
  {
    var line := a + " " + w;
    assert (line + "\n")[..|line|] == line && line[|line| - 1] == w[|w| - 1];
    FieldsAtASpace(a, w);
    FieldsAtASpace(w, "");
  }

  lemma MissingIsAWord()
    ensures IsWord(MISSING)
  {
  }

  lemma AbsentIsPassed(oid: string, rest: string, t: Scan)
    requires IsWord(oid)
    ensures ReadAll(Absent(oid) + "\n" + rest, t) == ReadAll(rest, t.(failed := true))
  {
    var line := Absent(oid);
    MissingIsAWord();
    TwoWordsReadAsTwo(oid, MISSING);
    LineEndsAtItsNewline(line, rest);
    assert (line + "\n" + rest)[|line + "\n"|..] == rest;
  }

  lemma BothAreNameable(blobs: seq<Blob>, more: seq<Blob>)
    requires forall b :: b in blobs + more ==> Nameable(b)
    ensures forall b :: b in blobs ==> Nameable(b)
    ensures forall b :: b in more ==> Nameable(b)
  {
    assert forall b :: b in blobs || b in more ==> b in blobs + more;
  }

  /** A blob git could not give is a failure, and every other is met all the same. */
  lemma AbsentBlobFails(blobs: seq<Blob>, oid: string, more: seq<Blob>)
    requires (forall b :: b in blobs + more ==> Nameable(b)) && IsWord(oid)
    ensures var t := ReadAll(Written(blobs) + (Absent(oid) + "\n" + Written(more)), NOTHING);
      t.failed && t.scanned == Texts(blobs) + Texts(more) && t.binary == |blobs + more| - |t.scanned|
  {
    BothAreNameable(blobs, more);
    var before := EveryBlobIsMet(blobs, Absent(oid) + "\n" + Written(more), NOTHING);
    AbsentIsPassed(oid, Written(more), before);
    var after := WrittenIsMet(more, before.(failed := true));
    MetBoth(blobs, more, before, after);
  }

  lemma WrittenIsMet(blobs: seq<Blob>, t: Scan) returns (after: Scan)
    requires forall b :: b in blobs ==> Nameable(b)
    ensures after == ReadAll(Written(blobs), t) && Met(t, blobs, after)
  {
    after := EveryBlobIsMet(blobs, "", t);
    assert Written(blobs) + "" == Written(blobs);
  }

  lemma MetBoth(blobs: seq<Blob>, more: seq<Blob>, before: Scan, after: Scan)
    requires Met(NOTHING, blobs, before) && Met(before.(failed := true), more, after)
    ensures after.failed && after.scanned == Texts(blobs) + Texts(more) && after.binary == |blobs + more| - |after.scanned|
  {
    assert NOTHING.scanned + Texts(blobs) == Texts(blobs);
  }
}
