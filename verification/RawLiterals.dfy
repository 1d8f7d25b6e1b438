/**
  Writing a pattern as Python string literals: which literal is used, how a long one is cut,
  and what Python reads back (packages/contracts/scripts/generate.ts).
*/
module RawLiterals {
  const PY_LINE_LENGTH: nat := 100

  function TrailingBackslashes(value: string): (n: nat)
    ensures n <= |value|
  {
    if value == [] || value[|value| - 1] != '\\' then 0 else 1 + TrailingBackslashes(value[..|value| - 1])
  }

  method CountTrailingBackslashes(value: string) returns (count: nat)
    ensures count == TrailingBackslashes(value)
    ensures count <= |value| && forall i :: |value| - count <= i < |value| ==> value[i] == '\\'
    ensures count < |value| ==> value[|value| - count - 1] != '\\'
  {
    count := 0;
    var index := |value| - 1;
    assert value[..|value|] == value;
    while index >= 0 && value[index] == '\\'
      invariant -1 <= index < |value|
      invariant count + TrailingBackslashes(value[..index + 1]) == TrailingBackslashes(value)
      invariant count == |value| - 1 - index && forall i :: index < i < |value| ==> value[i] == '\\'
      decreases index
    {
      assert value[..index + 1][..index] == value[..index];
      count := count + 1;
      index := index - 1;
    }
  }

  predicate EndsOpen(value: string) {
    TrailingBackslashes(value) % 2 == 1
  }

  // ---------------------------------------------------------------------------
  // Chunks
  // ---------------------------------------------------------------------------

  function Joined(chunks: seq<string>): string {
    if chunks == [] then "" else Joined(chunks[..|chunks| - 1]) + chunks[|chunks| - 1]
  }

  /** The chunk is as long as it may be, or stops short of a backslash: by one character, unless little was left. */
  ghost predicate IsFull(chunks: seq<string>, c: nat, budget: nat)
    requires c + 1 < |chunks| && chunks[c + 1] != []
  {
    || |chunks[c]| == budget
    || (chunks[c + 1][0] == '\\' && (|chunks[c]| == budget - 1 || c == |chunks| - 2))
  }

  /** The chunks so far make up the value to here; the last one is full too, or stops short of what comes next. */
  ghost predicate CutSoFar(value: string, index: nat, chunks: seq<string>, budget: nat) {
    && index <= |value| && Joined(chunks) == value[..index]
    && (forall c :: 0 <= c < |chunks| ==> 0 < |chunks[c]| <= budget)
    && (forall c :: 0 <= c < |chunks| && EndsOpen(chunks[c]) ==> chunks[c] == "\\")
    && (forall c :: 0 <= c < |chunks| - 1 ==> IsFull(chunks, c, budget) && (|chunks[c]| >= budget - 1 || index == |value|))
    && (chunks != [] && index < |value| ==> EndsWell(value, index, chunks[|chunks| - 1], budget))
  }

  ghost predicate EndsWell(value: string, index: nat, chunk: string, budget: nat)
    requires index < |value|
  {
    || |chunk| == budget
    || (value[index] == '\\' && (|chunk| == budget - 1 || index == |value| - 1))
  }

  lemma OneMoreChunk(value: string, index: nat, end: nat, chunks: seq<string>, budget: nat)
    requires CutSoFar(value, index, chunks, budget) && index < end <= |value| && end - index <= budget
    requires EndsOpen(value[index..end]) ==> end == index + 1
    requires end < |value| ==> EndsWell(value, end, value[index..end], budget)
    ensures CutSoFar(value, end, chunks + [value[index..end]], budget)
  {
    var chunk := value[index..end];
    var more := chunks + [chunk];
    assert |chunk| == 1 && EndsOpen(chunk) ==> chunk == [chunk[0]];
    assert more[..|chunks|] == chunks && value[..index] + chunk == value[..end];
    forall c | 0 <= c < |more| - 1
      ensures IsFull(more, c, budget) && (|more[c]| >= budget - 1 || end == |value|)
    {
      assert more[c] == chunks[c];
      if c < |chunks| - 1 {
        assert IsFull(chunks, c, budget) && more[c + 1] == chunks[c + 1];
      } else {
        assert more[c + 1] == chunk && chunk[0] == value[index];
      }
    }
  }

  /** Where the chunk that starts here ends: at the budget or the value's end, or one short of an escape. */
  method ChunkEnd(value: string, index: nat, budget: nat) returns (end: nat)
    requires budget > 0 && index < |value|
    ensures index < end <= |value| && end - index <= budget
    ensures EndsOpen(value[index..end]) ==> end == index + 1
    ensures end < |value| ==> EndsWell(value, end, value[index..end], budget)
  {
    end := if index + budget < |value| then index + budget else |value|;
    ghost var furthest := end;
    var trailing := CountTrailingBackslashes(value[index..end]);
    while end > index + 1 && trailing % 2 == 1
      invariant index < end <= |value| && end - index <= budget
      invariant trailing == TrailingBackslashes(value[index..end])
      invariant end == furthest || (end == furthest - 1 && value[end] == '\\' && trailing % 2 == 0)
    {
      assert value[index..end][..end - index - 1] == value[index..end - 1];
      end := end - 1;
      trailing := CountTrailingBackslashes(value[index..end]);
    }
  }

  /**
    Whatever the value: it ends; no chunk is empty or over budget; together they are the value,
    byte for byte; a chunk that would end inside an escape is a single backslash; and a chunk
    before the last is full, or one short of an escape.
  */
  method SplitRawChunks(value: string, budget: nat) returns (chunks: seq<string>)
    requires budget > 0
    ensures Joined(chunks) == value
    ensures forall c :: 0 <= c < |chunks| ==> 0 < |chunks[c]| <= budget
    ensures forall c :: 0 <= c < |chunks| && EndsOpen(chunks[c]) ==> chunks[c] == "\\"
    ensures forall c :: 0 <= c < |chunks| - 1 ==> IsFull(chunks, c, budget)
  {
    chunks := [];
    var index := 0;
    while index < |value|
      invariant CutSoFar(value, index, chunks, budget)
    {
      var end := ChunkEnd(value, index, budget);
      OneMoreChunk(value, index, end, chunks, budget);
      chunks := chunks + [value[index..end]];
      index := end;
    }
    assert value[..|value|] == value;
  }

  // ---------------------------------------------------------------------------
  // Literals
  // ---------------------------------------------------------------------------

  const HEX: string := "0123456789abcdef"

  /** `JSON.stringify` of one character. */
  function Escaped(c: char): string {
    if c == '"' then "\\\""
    else if c == '\\' then "\\\\"
    else if c == '\n' then "\\n"
    else if c == '\r' then "\\r"
    else if c == '\t' then "\\t"
    else if c == 8 as char then "\\b"
    else if c == 12 as char then "\\f"
    else if c < ' ' then ['\\', 'u', '0', '0', HEX[c as int / 16], HEX[c as int % 16]]
    else [c]
  }

  /** Quotes, backslashes and the controls that have a letter take two characters, the other controls six, the rest one. */
  lemma EscapesAreShort(c: char)
    ensures |Escaped(c)| == 2 <==> c in {'"', '\\', '\n', '\r', '\t', 8 as char, 12 as char}
    ensures |Escaped(c)| == 6 <==> c < ' ' && c !in {'\n', '\r', '\t', 8 as char, 12 as char}
    ensures |Escaped(c)| != 2 && |Escaped(c)| != 6 ==> Escaped(c) == [c]
  {
  }

  function AllEscaped(value: string): string {
    if value == [] then "" else Escaped(value[0]) + AllEscaped(value[1..])
  }

  function JsonString(value: string): string {
    "\"" + AllEscaped(value) + "\""
  }

  function RawString(value: string): string {
    "r\"" + value + "\""
  }

  /** `pyRawString` */
  function PyRawString(value: string): string {
    if '"' in value || EndsOpen(value) then JsonString(value) else RawString(value)
  }

  // ---------------------------------------------------------------------------
  // Python
  // ---------------------------------------------------------------------------

  /** What Python reads; lost where it refuses the literal, or reads something else than was written. */
  datatype Decoded = Lost | Str(value: string)

  /** Python refuses source text that holds this character anywhere. */
  const NUL: char := 0 as char

  /** What ends a line of source, or may not stand in one. */
  predicate BreaksSource(c: char) {
    c == '\n' || c == '\r' || c == NUL
  }

  function Prefixed(c: string, rest: Decoded): Decoded {
    if rest.Lost? then Lost else Str(c + rest.value)
  }

  function DigitOf(c: char): int {
    if '0' <= c <= '9' then c as int - '0' as int
    else if 'a' <= c <= 'f' then c as int - 'a' as int + 10
    else -1
  }

  /** The body of a plain literal up to its closing quote, which must be the last character. */
  function PlainBody(s: string): Decoded
    decreases |s|
  {
    if s == [] || BreaksSource(s[0]) then Lost
    else if s[0] == '"' then (if |s| == 1 then Str("") else Lost)
    else if s[0] != '\\' then Prefixed([s[0]], PlainBody(s[1..]))
    else if |s| < 2 then Lost
    else if s[1] == '"' || s[1] == '\\' then Prefixed([s[1]], PlainBody(s[2..]))
    else if s[1] == 'n' then Prefixed("\n", PlainBody(s[2..]))
    else if s[1] == 'r' then Prefixed("\r", PlainBody(s[2..]))
    else if s[1] == 't' then Prefixed("\t", PlainBody(s[2..]))
    else if s[1] == 'b' then Prefixed([8 as char], PlainBody(s[2..]))
    else if s[1] == 'f' then Prefixed([12 as char], PlainBody(s[2..]))
    else if s[1] == 'u' && |s| >= 6 && s[2] == '0' && s[3] == '0' && DigitOf(s[4]) in {0, 1} && DigitOf(s[5]) >= 0 then
      Prefixed([(DigitOf(s[4]) * 16 + DigitOf(s[5])) as char], PlainBody(s[6..]))
    else Lost
  }

  /**
    The body of a raw literal: a backslash is kept and takes the next character with it, a bare
    line feed ends the line inside the literal, a carriage return in a source file is read as a
    line feed and never as itself, and a null character makes the source no source at all.
  */
  function RawBody(s: string): Decoded
    decreases |s|
  {
    if s == [] || BreaksSource(s[0]) then Lost
    else if s[0] == '"' then (if |s| == 1 then Str("") else Lost)
    else if s[0] != '\\' then Prefixed([s[0]], RawBody(s[1..]))
    else if |s| < 2 || s[1] == '\r' || s[1] == NUL then Lost
    else Prefixed(s[..2], RawBody(s[2..]))
  }

  function PyDecode(source: string): Decoded {
    if |source| >= 2 && source[0] == 'r' && source[1] == '"' then RawBody(source[2..])
    else if |source| >= 1 && source[0] == '"' then PlainBody(source[1..])
    else Lost
  }

  // ---------------------------------------------------------------------------
  // Round trips
  // ---------------------------------------------------------------------------

  lemma HexIsRead(n: nat)
    requires n < 16
    ensures DigitOf(HEX[n]) == n
  {
  }

  lemma EscapedIsRead(c: char, rest: string)
    ensures PlainBody(Escaped(c) + rest) == Prefixed([c], PlainBody(rest))
  {
    var s := Escaped(c) + rest;
    if |Escaped(c)| == 6 {
      HexIsRead(c as int / 16);
      HexIsRead(c as int % 16);
      assert s[6..] == rest;
    } else if |Escaped(c)| == 2 {
      assert s[2..] == rest;
    } else {
      assert s[1..] == rest;
    }
  }

  /** Any value at all survives as a plain literal. */
  lemma {:induction false} JsonRoundTrips(value: string)
    ensures PlainBody(AllEscaped(value) + "\"") == Str(value)
  {
    if value != [] {
      JsonRoundTrips(value[1..]);
      EscapedIsRead(value[0], AllEscaped(value[1..]) + "\"");
      assert AllEscaped(value) + "\"" == Escaped(value[0]) + (AllEscaped(value[1..]) + "\"");
      assert [value[0]] + value[1..] == value;
    } else {
      assert AllEscaped(value) + "\"" == "\"";
    }
  }

  /** No carriage return or null, and no line feed but straight after an unpaired backslash. */
  ghost predicate OneLine(value: string) {
    forall i :: 0 <= i < |value| ==>
      value[i] != '\r' && value[i] != NUL && (value[i] == '\n' ==> EndsOpen(value[..i]))
  }

  lemma {:induction false} TrailingSuffix(value: string, k: nat)
    requires k <= |value|
    requires k == 0 || value[k - 1] != '\\' || !EndsOpen(value[..k])
    ensures EndsOpen(value) <==> EndsOpen(value[k..])
    decreases |value|
  {
    var n := |value|;
    if k < n {
      if value[n - 1] == '\\' {
        assert value[..n - 1][..k] == value[..k] && value[..n - 1][k..] == value[k..][..n - k - 1];
        TrailingSuffix(value[..n - 1], k);
      }
    } else {
      assert value[..k] == value;
      assert value[k..] == "";
    }
  }

  lemma OneLineSuffix(value: string, k: nat)
    requires k <= |value| && (k == 0 || value[k - 1] != '\\' || !EndsOpen(value[..k]))
    requires k <= 2
    requires forall i :: 0 <= i < k ==> value[i] != '\r' && value[i] != NUL && (value[i] == '\n' ==> EndsOpen(value[..i]))
    ensures OneLine(value) <==> OneLine(value[k..])
  {
    var rest := value[k..];
    forall i | 0 <= i < |rest|
      ensures EndsOpen(value[..k + i]) <==> EndsOpen(rest[..i])
    {
      assert value[..k + i][..k] == value[..k] && value[..k + i][k..] == rest[..i];
      TrailingSuffix(value[..k + i], k);
    }
    if OneLine(value) {
      forall i | 0 <= i < |rest|
        ensures rest[i] != '\r' && rest[i] != NUL && (rest[i] == '\n' ==> EndsOpen(rest[..i]))
      {
        assert rest[i] == value[k + i];
      }
    }
    if OneLine(rest) {
      forall i | 0 <= i < |value|
        ensures value[i] != '\r' && value[i] != NUL && (value[i] == '\n' ==> EndsOpen(value[..i]))
      {
        assert i >= k ==> value[i] == rest[i - k];
      }
    }
  }

  /** What Python makes of the raw literal: the value itself, or nothing. */
  ghost predicate RawReads(value: string) {
    && (RawBody(value + "\"") == Str(value) <==> OneLine(value))
    && (RawBody(value + "\"") == Str(value) || RawBody(value + "\"").Lost?)
  }

  /** A raw literal that may be used is read back exactly when its value keeps to one line. */
  lemma {:induction false} RawRoundTripsIff(value: string)
    requires '"' !in value && !EndsOpen(value)
    ensures RawReads(value)
    decreases |value|
  {
    if value == [] {
      assert value + "\"" == "\"";
    } else if value[0] == '\\' {
      EscapePairCloses(value);
      RawRoundTripsIff(value[2..]);
      RawPair(value);
    } else {
      TrailingSuffix(value, 1);
      RawRoundTripsIff(value[1..]);
      RawSingle(value);
    }
  }

  lemma RawSingle(value: string)
    requires value != [] && value[0] != '\\' && value[0] != '"' && RawReads(value[1..])
    ensures RawReads(value)
  {
    var rest := value[1..];
    assert (value + "\"")[1..] == rest + "\"" && [value[0]] + rest == value;
    assert value[..0] == "";
    if !BreaksSource(value[0]) {
      OneLineSuffix(value, 1);
    }
  }

  lemma RawPair(value: string)
    requires |value| >= 2 && value[0] == '\\' && !EndsOpen(value[..2]) && EndsOpen(value[..1]) && RawReads(value[2..])
    ensures RawReads(value)
  {
    var rest := value[2..];
    assert (value + "\"")[2..] == rest + "\"" && value[..2] + rest == value && (value + "\"")[..2] == value[..2];
    if value[1] != '\r' && value[1] != NUL {
      OneLineSuffix(value, 2);
    }
  }

  /** A value that starts with a backslash and does not end open goes on, and the pair it starts with is closed. */
  lemma EscapePairCloses(value: string)
    requires value != [] && value[0] == '\\' && !EndsOpen(value)
    ensures |value| >= 2 && EndsOpen(value[..1]) && !EndsOpen(value[..2])
    ensures !EndsOpen(value[2..])
  {
    assert value[..1][..0] == "";
    assert value[..|value| - 1] == "" || |value| >= 2;
    assert TrailingBackslashes(value[..1]) == 1;
    assert value[..2][..1] == value[..1];
    TrailingSuffix(value, 2);
  }

  /** The literal written for this value is a plain one, or its value keeps to one line. */
  ghost predicate Readable(value: string) {
    '"' in value || EndsOpen(value) || OneLine(value)
  }

  /**
    The literal written for a value is read back as that value exactly when it is a plain one or
    the value keeps to one line; otherwise it is lost.
  */
  lemma LiteralRoundTripsIff(value: string)
    ensures PyDecode(PyRawString(value)) == if Readable(value) then Str(value) else Lost
  {
    if '"' in value || EndsOpen(value) {
      PlainIsRead(value);
    } else {
      RawRoundTripsIff(value);
      RawIsReadByItsBody(value);
    }
  }

  lemma PlainIsRead(value: string)
    ensures PyDecode(JsonString(value)) == Str(value)
  {
    JsonRoundTrips(value);
    assert JsonString(value)[1..] == AllEscaped(value) + "\"";
  }

  lemma RawIsReadByItsBody(value: string)
    ensures PyDecode(RawString(value)) == RawBody(value + "\"")
  {
    assert RawString(value)[2..] == value + "\"";
  }

  /** A pattern that holds a line feed, and one that holds a null, written raw, are lost. */
  lemma LineFeedAndNullAreLost()
    ensures PyDecode(PyRawString("\n")).Lost? && PyDecode(PyRawString([NUL])).Lost?
  {
    assert !EndsOpen("\n") && !EndsOpen([NUL]);
    assert RawString("\n")[2..] == "\n\"" && RawString([NUL])[2..] == [NUL] + "\"";
  }

  /** Python joins adjacent literals; one lost loses them all. */
  function AllDecoded(chunks: seq<string>): Decoded {
    if chunks == [] then Str("")
    else
      var before, last := AllDecoded(chunks[..|chunks| - 1]), PyDecode(PyRawString(chunks[|chunks| - 1]));
      if before.Lost? || last.Lost? then Lost else Str(before.value + last.value)
  }

  ghost predicate AllReadable(chunks: seq<string>) {
    forall c :: 0 <= c < |chunks| ==> Readable(chunks[c])
  }

  /** However a value is cut, the literals are read back as the value exactly when each is readable. */
  lemma {:induction false} ChunksRoundTripIff(chunks: seq<string>)
    ensures AllDecoded(chunks) == if AllReadable(chunks) then Str(Joined(chunks)) else Lost
  {
    if chunks != [] {
      var n := |chunks| - 1;
      ChunksRoundTripIff(chunks[..n]);
      LiteralRoundTripsIff(chunks[n]);
      AllReadableButLast(chunks);
    }
  }

  lemma AllReadableButLast(chunks: seq<string>)
    requires chunks != []
    ensures AllReadable(chunks) <==> AllReadable(chunks[..|chunks| - 1]) && Readable(chunks[|chunks| - 1])
  {
    var n := |chunks| - 1;
    if AllReadable(chunks) {
      assert forall c :: 0 <= c < n ==> Readable(chunks[c]) && chunks[..n][c] == chunks[c];
    }
    if AllReadable(chunks[..n]) && Readable(chunks[n]) {
      forall c | 0 <= c < |chunks|
        ensures Readable(chunks[c])
      {
        assert c < n ==> Readable(chunks[..n][c]);
      }
    }
  }

  ghost predicate NoLineBreak(value: string) {
    forall i :: 0 <= i < |value| ==> !BreaksSource(value[i])
  }

  lemma {:induction false} ChunkOfJoined(chunks: seq<string>, c: nat)
    requires c < |chunks| && NoLineBreak(Joined(chunks))
    ensures NoLineBreak(chunks[c])
  {
    var n := |chunks| - 1;
    var before := Joined(chunks[..n]);
    if c == n {
      assert forall i :: 0 <= i < |chunks[n]| ==> Joined(chunks)[|before| + i] == chunks[n][i];
    } else {
      assert forall i :: 0 <= i < |before| ==> Joined(chunks)[i] == before[i];
      ChunkOfJoined(chunks[..n], c);
    }
  }

  /**
    `pyRawStringAssignment`: whichever way a value is written, the literals join to it, no chunk
    is over its budget, and Python reads back the value exactly when every literal is readable,
    and loses it otherwise. A value without line breaks or nulls is always read back.
  */
  method PyRawStringAssignment(name: string, value: string) returns (literals: seq<string>)
    ensures Joined(literals) == value
    ensures AllDecoded(literals) == if AllReadable(literals) then Str(value) else Lost
    ensures NoLineBreak(value) ==> AllReadable(literals)
    ensures |name| + 3 + |PyRawString(value)| > 100 ==> forall c :: 0 <= c < |literals| ==> 0 < |literals[c]| <= 90
    ensures |name| + 3 + |PyRawString(value)| <= 100 ==> literals == [value]
  {
    if |name| + 3 + |PyRawString(value)| <= PY_LINE_LENGTH {
      literals := [value];
      assert literals[..0] == [] && "" + value == value;
    } else {
      literals := SplitRawChunks(value, PY_LINE_LENGTH - 10);
    }
    ChunksRoundTripIff(literals);
    if NoLineBreak(value) {
      forall c | 0 <= c < |literals|
        ensures Readable(literals[c])
      {
        ChunkOfJoined(literals, c);
      }
    }
  }
}
