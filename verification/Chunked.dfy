/**
 The decoder of chunked request bodies in conformance/shared/capture.py, `_read_chunked`, over a buffered
 stream; the coding is section 7.1 of RFC 9112.
 */
module Chunked {
  import opened Outcomes
  import opened Sequences

  const NL: byte := 10
  const SEMICOLON: byte := 59
  const CRLF: Bytes := [13, NL]

  /** A read of a length no buffered reader takes. */
  datatype Raised = Raised

  const MAX_READ: int := 0x7fff_ffff_ffff_ffff

  // ----- The stream -----

  /** The first line of `s` with its newline, or all there is: how many bytes it holds. */
  function LineLength(s: Bytes): (n: nat)
    ensures n <= |s| && (s != [] ==> n > 0)
  {
    if s == [] then 0 else if s[0] == NL then 1 else 1 + LineLength(s[1..])
  }

  lemma {:induction false} LineEndsAtItsNewline(line: Bytes, rest: Bytes)
    requires NL !in line
    ensures LineLength(line + [NL] + rest) == |line| + 1
  {
    var s := line + [NL] + rest;
    if line != [] {
      assert s[1..] == line[1..] + [NL] + rest;
      LineEndsAtItsNewline(line[1..], rest);
    }
  }

  /** `read(size)`: that many bytes or what is left, all of it for -1. */
  function ReadLength(s: Bytes, size: int): (n: nat)
    requires -1 <= size
    ensures n <= |s|
  {
    if 0 <= size < |s| then size else |s|
  }

  /** The socket's file object: the bytes not read yet. */
  class Stream {
    var rest: Bytes

    constructor (bytes: Bytes)
      ensures rest == bytes
    {
      rest := bytes;
    }

    method ReadLine() returns (line: Bytes)
      modifies this
      ensures line + rest == old(rest) && |line| == LineLength(old(rest))
    {
      var i := 0;
      while i < |rest| && rest[i] != NL
        invariant 0 <= i <= |rest| && rest == old(rest)
        invariant LineLength(rest) == i + LineLength(rest[i..])
      {
        assert rest[i..][1..] == rest[i + 1..];
        i := i + 1;
      }
      if i < |rest| { i := i + 1; }
      line, rest := rest[..i], rest[i..];
    }

    method Read(size: int) returns (out: Result<Bytes, Raised>)
      modifies this
      ensures out.Ok? <==> -1 <= size <= 0x7fff_ffff_ffff_ffff
      ensures out.Ok? ==> out.value + rest == old(rest) && |out.value| == ReadLength(old(rest), size)
      ensures out.Err? ==> rest == old(rest)
    {
      if size < -1 || size > MAX_READ { return Err(Raised); }
      var n := ReadLength(rest, size);
      out := Ok(rest[..n]);
      rest := rest[n..];
    }
  }

  // ----- The size line -----

  predicate IsSpace(b: byte) { 9 <= b <= 13 || b == 32 }

  function HexDigit(b: byte): Option<nat> {
    if 48 <= b <= 57 then Some(b - 48)
    else if 65 <= b <= 70 then Some(b - 55)
    else if 97 <= b <= 102 then Some(b - 87)
    else None
  }

  function StripStart(s: Bytes): Bytes { if s != [] && IsSpace(s[0]) then StripStart(s[1..]) else s }

  function StripEnd(s: Bytes): Bytes { if s != [] && IsSpace(s[|s| - 1]) then StripEnd(s[..|s| - 1]) else s }

  function Before(s: Bytes, mark: byte): Bytes {
    if s == [] || s[0] == mark then [] else [s[0]] + Before(s[1..], mark)
  }

  /** Digits, with single underscores between them. */
  function Digits(s: Bytes, value: nat): Option<nat> {
    if s == [] then Some(value)
    else if HexDigit(s[0]).Some? then Digits(s[1..], value * 16 + HexDigit(s[0]).value)
    else if s[0] == 95 && |s| > 1 && HexDigit(s[1]).Some? then Digits(s[1..], value)
    else None
  }

  /** `int(s, 16)` of text with no space around it: a sign, `0x` and an underscore behind it may come first. */
  function ParseHex(s: Bytes): Option<int> {
    var unsigned := if s != [] && s[0] in {43, 45} then s[1..] else s;
    var bare :=
      if |unsigned| < 2 || unsigned[0] != 48 || unsigned[1] !in {88, 120} then unsigned
      else if |unsigned| > 2 && unsigned[2] == 95 then unsigned[3..]
      else unsigned[2..];
    if bare == [] || HexDigit(bare[0]).None? then None
    else
      var value := Digits(bare, 0);
      if value.None? then None else var n: int := value.value; Some(if s[0] == 45 then -n else n)
  }

  function Size(line: Bytes): Option<int> {
    var text := StripEnd(StripStart(Before(line, SEMICOLON)));
    ParseHex(if text == [] then [48] else text)
  }

  // ----- The decoder -----

  /** What a stream decodes to, and what is left of it. */
  function Decode(s: Bytes, body: Bytes): (Result<Bytes, Raised>, Bytes)
    decreases |s|
  {
    var n := LineLength(s);
    var size := Size(s[..n]);
    if s == [] then (Ok(body), s)
    else if size.None? then (Ok(body), s[n..])
    else if size.value == 0 then (Ok(body), s[n..][LineLength(s[n..])..])
    else if size.value < -1 || size.value > MAX_READ then (Err(Raised), s[n..])
    else
      var k := ReadLength(s[n..], size.value);
      var behind := s[n..][k..];
      Decode(behind[LineLength(behind)..], body + s[n..][..k])
  }

  /** It ends on every stream, each round having read its size line. */
  method ReadChunked(stream: Stream) returns (out: Result<Bytes, Raised>)
    modifies stream
    ensures (out, stream.rest) == Decode(old(stream.rest), [])
  {
    hide Size, LineLength, ReadLength;
    var body: Bytes := [];
    while true
      invariant Decode(stream.rest, body) == Decode(old(stream.rest), [])
      decreases |stream.rest|
    {
      ghost var s, before := stream.rest, body;
      var line := stream.ReadLine();
      assert line == s[..LineLength(s)] && stream.rest == s[LineLength(s)..];
      if line == [] { return Ok(body); }
      var size := Size(line);
      if size.None? { return Ok(body); }
      if size.value == 0 {
        ghost var t := stream.rest;
        line := stream.ReadLine();
        assert stream.rest == t[LineLength(t)..];
        return Ok(body);
      }
      ghost var t := stream.rest;
      var data := stream.Read(size.value);
      if data.Err? { return Err(Raised); }
      assert data.value == t[..ReadLength(t, size.value)] && stream.rest == t[ReadLength(t, size.value)..];
      body := body + data.value;
      ghost var u := stream.rest;
      line := stream.ReadLine();
      assert stream.rest == u[LineLength(u)..];
    }
    assert false;
  }

  // ----- The coding -----

  /** A chunk as it is sent: its size line, its data, and what closes the line after it, newlines left out. */
  datatype Chunk = Chunk(size: Bytes, data: Bytes, close: Bytes)

  ghost predicate WellFormed(chunk: Chunk) {
    && NL !in chunk.size && NL !in chunk.close
    && 0 < |chunk.data| <= MAX_READ && Size(chunk.size + [NL]) == Some(|chunk.data|)
  }

  function Coded(chunks: seq<Chunk>): Bytes {
    if chunks == [] then []
    else chunks[0].size + [NL] + chunks[0].data + chunks[0].close + [NL] + Coded(chunks[1..])
  }

  function Carried(chunks: seq<Chunk>): Bytes {
    if chunks == [] then [] else chunks[0].data + Carried(chunks[1..])
  }

  /** `n` bytes in, what follows is what follows. */
  lemma Cut(a: Bytes, b: Bytes)
    ensures (a + b)[..|a|] == a && (a + b)[|a|..] == b
  {
  }

  lemma ReadsOneChunk(chunk: Chunk, tail: Bytes, body: Bytes)
    requires WellFormed(chunk)
    ensures Decode(chunk.size + [NL] + chunk.data + chunk.close + [NL] + tail, body) == Decode(tail, body + chunk.data)
  {
    hide Size, LineLength;
    var line, behind := chunk.size + [NL], chunk.close + [NL] + tail;
    var s := chunk.size + [NL] + chunk.data + chunk.close + [NL] + tail;
    LineEndsAtItsNewline(chunk.size, chunk.data + behind);
    assert s == line + (chunk.data + behind);
    Cut(line, chunk.data + behind);
    Cut(chunk.data, behind);
    LineEndsAtItsNewline(chunk.close, tail);
    assert behind == (chunk.close + [NL]) + tail;
    Cut(chunk.close + [NL], tail);
  }

  /** The chunks at the front of a stream are what is decoded of it first, whatever follows them. */
  lemma {:induction false} ChunksAreRead(chunks: seq<Chunk>, tail: Bytes, body: Bytes)
    requires forall i :: 0 <= i < |chunks| ==> WellFormed(chunks[i])
    ensures Decode(Coded(chunks) + tail, body) == Decode(tail, body + Carried(chunks))
  {
    hide Decode, WellFormed;
    if chunks == [] {
      assert Coded(chunks) + tail == tail && body + Carried(chunks) == body;
    } else {
      var c := chunks[0];
      assert Coded(chunks) + tail == c.size + [NL] + c.data + c.close + [NL] + (Coded(chunks[1..]) + tail);
      ReadsOneChunk(c, Coded(chunks[1..]) + tail, body);
      ChunksAreRead(chunks[1..], tail, body + c.data);
      assert body + c.data + Carried(chunks[1..]) == body + Carried(chunks);
    }
  }

  /** The last chunk: whatever one line follows it is taken for the end, and nothing behind that is read. */
  lemma TheLastChunkEnds(zero: Bytes, end: Bytes, rest: Bytes, body: Bytes)
    requires NL !in zero && NL !in end && Size(zero + [NL]) == Some(0)
    ensures Decode(zero + [NL] + end + [NL] + rest, body) == (Ok(body), rest)
  {
    hide Size, LineLength;
    LineEndsAtItsNewline(zero, end + [NL] + rest);
    assert zero + [NL] + end + [NL] + rest == (zero + [NL]) + (end + [NL] + rest);
    Cut(zero + [NL], end + [NL] + rest);
    LineEndsAtItsNewline(end, rest);
    Cut(end + [NL], rest);
  }

  /** A size line that is no number ends the body with the chunks before it. */
  lemma AMalformedSizeEnds(chunks: seq<Chunk>, line: Bytes, rest: Bytes)
    requires forall i :: 0 <= i < |chunks| ==> WellFormed(chunks[i])
    requires NL !in line && Size(line + [NL]) == None
    ensures Decode(Coded(chunks) + (line + [NL] + rest), []) == (Ok(Carried(chunks)), rest)
  {
    hide Size, LineLength, WellFormed;
    ChunksAreRead(chunks, line + [NL] + rest, []);
    LineEndsAtItsNewline(line, rest);
    Cut(line + [NL], rest);
    assert [] + Carried(chunks) == Carried(chunks);
  }

  predicate OutOfRange(size: Option<int>) { size.Some? && !(-1 <= size.value <= MAX_READ) }

  /** Behind some chunks stands a line, ended by its newline or by the stream, that asks for such a read. */
  ghost predicate AsksTooMuch(s: Bytes, chunks: seq<Chunk>, line: Bytes) {
    && (forall i :: 0 <= i < |chunks| ==> WellFormed(chunks[i]))
    && Coded(chunks) + line <= s && LineLength(s[|Coded(chunks)|..]) == |line| && OutOfRange(Size(line))
  }

  ghost predicate AsksTooMuchSomewhere(s: Bytes) { exists chunks, line :: AsksTooMuch(s, chunks, line) }

  lemma AskingRaises(s: Bytes, chunks: seq<Chunk>, line: Bytes)
    requires AsksTooMuch(s, chunks, line)
    ensures Decode(s, []) == (Err(Raised), s[|Coded(chunks) + line|..])
  {
    hide Size, LineLength, WellFormed, Coded;
    var behind := s[|Coded(chunks)|..];
    assert s == Coded(chunks) + behind && behind[..|line|] == line && behind[|line|..] == s[|Coded(chunks) + line|..];
    ChunksAreRead(chunks, behind, []);
    NoSizeInNothing();
  }

  lemma NoSizeInNothing()
    ensures Size([]) == Some(0)
  {
    assert Digits([48], 0) == Digits([], 0);
  }

  lemma {:induction false} LineOrEnd(s: Bytes)
    ensures var n := LineLength(s);
      && (n < |s| ==> n > 0 && s[n - 1] == NL)
      && (n > 0 ==> NL !in s[..n - 1])
  {
    if s != [] && s[0] != NL {
      LineOrEnd(s[1..]);
      var n := LineLength(s[1..]);
      assert n > 0 ==> s[..n] == [s[0]] + s[1..][..n - 1];
    }
  }

  /** The front chunk is all there, its closing line included, and more is left behind it. */
  ghost predicate GoesOn(s: Bytes) {
    var n := LineLength(s);
    var size := Size(s[..n]);
    && n < |s| && size.Some? && 0 < size.value <= MAX_READ
    && size.value <= |s| - n && LineLength(s[n..][size.value..]) < |s[n..][size.value..]|
  }

  ghost function Front(s: Bytes): Chunk
    requires GoesOn(s)
  {
    var n := LineLength(s);
    var k := Size(s[..n]).value;
    Chunk(s[..n - 1], s[n..][..k], s[n..][k..][..LineLength(s[n..][k..]) - 1])
  }

  ghost function Behind(s: Bytes): Bytes
    requires GoesOn(s)
  {
    var n := LineLength(s);
    var k := Size(s[..n]).value;
    s[n..][k..][LineLength(s[n..][k..])..]
  }

  lemma FrontIsWellFormed(s: Bytes)
    requires GoesOn(s)
    ensures WellFormed(Front(s)) && s == Coded([Front(s)]) + Behind(s)
  {
    hide Size, LineLength, Coded, ReadLength;
    var n := LineLength(s);
    var k := Size(s[..n]).value;
    LineOrEnd(s);
    LineOrEnd(s[n..][k..]);
    Rejoined(s, n, k, LineLength(s[n..][k..]));
    assert s[..n - 1] + [NL] == s[..n];
  }

  lemma Rejoined(s: Bytes, n: nat, k: nat, m: nat)
    requires 0 < n && 0 < m && n + k + m <= |s| && s[n - 1] == NL && s[n..][k..][m - 1] == NL
    ensures var c := Chunk(s[..n - 1], s[n..][..k], s[n..][k..][..m - 1]); s == Coded([c]) + s[n..][k..][m..]
  {
    var a, b, rest := s[..n - 1], s[n..][k..][..m - 1], s[n..][k..][m..];
    assert s == a + [NL] + s[n..][..k] + b + [NL] + rest;
    var c := Chunk(a, s[n..][..k], b);
    assert [c][1..] == [];
    assert Coded([c]) == c.size + [NL] + c.data + c.close + [NL] + [];
  }

  lemma {:induction false} OneMoreChunk(s: Bytes, c: Chunk, chunks: seq<Chunk>, line: Bytes)
    requires WellFormed(c) && Coded([c]) <= s && AsksTooMuch(s[|Coded([c])|..], chunks, line)
    ensures AsksTooMuch(s, [c] + chunks, line)
  {
    hide Size, LineLength, WellFormed;
    assert ([c] + chunks)[1..] == chunks;
    assert Coded([c] + chunks) == Coded([c]) + Coded(chunks);
    assert s[|Coded([c])|..][|Coded(chunks)|..] == s[|Coded([c] + chunks)|..];
  }

  /**
   The decoder raises exactly when some chunks are followed by a line whose size no buffered reader takes: the
   chunks before it are lost, and what follows that line is left.
   */
  lemma {:induction false} RaisesExactlyWhenAsked(s: Bytes, body: Bytes)
    ensures Decode(s, body).0.Err? <==> AsksTooMuchSomewhere(s)
    decreases |s|
  {
    if AsksTooMuchSomewhere(s) {
      var chunks, line :| AsksTooMuch(s, chunks, line);
      AskingRaises(s, chunks, line);
      BodyIsCarried(s, [], body);
    }
    if Decode(s, body).0.Err? { RaisingWasAsked(s, body); }
  }

  /** What was decoded before has no say in what follows. */
  lemma {:induction false} BodyIsCarried(s: Bytes, a: Bytes, b: Bytes)
    ensures Decode(s, a).0.Err? == Decode(s, b).0.Err? && Decode(s, a).1 == Decode(s, b).1
    decreases |s|
  {
    hide Size;
    var n := LineLength(s);
    var size := Size(s[..n]);
    if s != [] && size.Some? && size.value != 0 && -1 <= size.value <= MAX_READ {
      var k := ReadLength(s[n..], size.value);
      var behind := s[n..][k..];
      BodyIsCarried(behind[LineLength(behind)..], a + s[n..][..k], b + s[n..][..k]);
    }
  }

  lemma {:induction false} RaisingWasAsked(s: Bytes, body: Bytes)
    requires Decode(s, body).0.Err?
    ensures AsksTooMuchSomewhere(s)
    decreases |s|
  {
    hide Size, AsksTooMuch;
    var n := LineLength(s);
    var size := Size(s[..n]);
    if OutOfRange(size) {
      AskedAtOnce(s);
    } else {
      var k := ReadLength(s[n..], size.value);
      var rest := s[n..][k..][LineLength(s[n..][k..])..];
      RaisingWasAsked(rest, body + s[n..][..k]);
      if GoesOn(s) {
        FrontIsWellFormed(s);
        var c := Front(s);
        assert s[|Coded([c])|..] == rest;
        var chunks, line :| AsksTooMuch(rest, chunks, line);
        OneMoreChunk(s, c, chunks, line);
      }
    }
  }

  lemma AskedAtOnce(s: Bytes)
    requires OutOfRange(Size(s[..LineLength(s)]))
    ensures AsksTooMuch(s, [], s[..LineLength(s)])
  {
    hide Size, LineLength;
    assert Coded([]) + s[..LineLength(s)] == s[..LineLength(s)] && s[0..] == s;
  }

  /** A size of -1 takes all that is left for data, behind any chunks. */
  lemma AMinusOneTakesAll(chunks: seq<Chunk>, line: Bytes, rest: Bytes)
    requires forall i :: 0 <= i < |chunks| ==> WellFormed(chunks[i])
    requires NL !in line && Size(line + [NL]) == Some(-1)
    ensures Decode(Coded(chunks) + (line + [NL] + rest), []) == (Ok(Carried(chunks) + rest), [])
  {
    var body := Carried(chunks) + rest;
    assert Decode([], body) == (Ok(body), []) && LineLength([]) == 0;
    hide Size, WellFormed, Coded, Carried;
    ChunksAreRead(chunks, line + [NL] + rest, []);
    LineEndsAtItsNewline(line, rest);
    Cut(line + [NL], rest);
    assert [] + Carried(chunks) == Carried(chunks) && rest[|rest|..] == [] && rest[..|rest|] == rest;
  }

  // ----- Sizes as they are written -----

  function HexValue(digits: Bytes): nat {
    if digits == [] then 0 else
      var last := HexDigit(digits[|digits| - 1]);
      16 * HexValue(digits[..|digits| - 1]) + if last.Some? then last.value else 0
  }

  ghost predicate AllHex(digits: Bytes) { forall i :: 0 <= i < |digits| ==> HexDigit(digits[i]).Some? }

  ghost predicate AllSpace(s: Bytes) { forall i :: 0 <= i < |s| ==> IsSpace(s[i]) }

  /** Every size has a spelling. */
  function Hex(n: nat): (digits: Bytes)
    ensures digits != [] && AllHex(digits) && HexValue(digits) == n
  {
    var d: byte := if n % 16 < 10 then 48 + n % 16 else 87 + n % 16;
    if n < 16 then [d] else Hex(n / 16) + [d]
  }

  /** The sixteen digits, in both cases, and no others. */
  lemma TheSixteenDigits(b: byte)
    ensures HexDigit('0' as int) == Some(0) && HexDigit('1' as int) == Some(1) && HexDigit('2' as int) == Some(2)
    ensures HexDigit('3' as int) == Some(3) && HexDigit('4' as int) == Some(4) && HexDigit('5' as int) == Some(5)
    ensures HexDigit('6' as int) == Some(6) && HexDigit('7' as int) == Some(7) && HexDigit('8' as int) == Some(8)
    ensures HexDigit('9' as int) == Some(9)
    ensures HexDigit('a' as int) == HexDigit('A' as int) == Some(10)
    ensures HexDigit('b' as int) == HexDigit('B' as int) == Some(11)
    ensures HexDigit('c' as int) == HexDigit('C' as int) == Some(12)
    ensures HexDigit('d' as int) == HexDigit('D' as int) == Some(13)
    ensures HexDigit('e' as int) == HexDigit('E' as int) == Some(14)
    ensures HexDigit('f' as int) == HexDigit('F' as int) == Some(15)
    ensures HexDigit(b).Some? <==> 0 <= b < 128 && b as char in "0123456789abcdefABCDEF"
  {
    var digits := "0123456789abcdefABCDEF";
    if 48 <= b <= 57 {
      assert digits[b - 48] == b as char;
    } else if 97 <= b <= 102 {
      assert digits[b - 87] == b as char;
    } else if 65 <= b <= 70 {
      assert digits[b - 49] == b as char;
    }
  }

  /** The first of them weighs most. */
  lemma {:induction false} TheFirstDigitWeighsMost(b: byte, later: Bytes)
    requires HexDigit(b).Some?
    ensures HexValue([b] + later) == HexDigit(b).value * Pow16(|later|) + HexValue(later)
    decreases |later|
  {
    hide HexDigit;
    var all := [b] + later;
    if later == [] {
      assert all[..0] == [] && HexValue(all[..0]) == 0;
    } else {
      assert all[..|all| - 1] == [b] + later[..|later| - 1];
      TheFirstDigitWeighsMost(b, later[..|later| - 1]);
      OneMoreDigit(HexDigit(b).value, Pow16(|later| - 1));
    }
  }

  function Pow16(n: nat): nat { if n == 0 then 1 else 16 * Pow16(n - 1) }

  lemma OneMoreDigit(d: nat, weight: nat)
    ensures 16 * (d * weight) == d * (16 * weight)
  {
  }

  /** A digit, or an underscore with a digit behind it. */
  predicate DigitAt(s: Bytes, i: nat)
    requires i < |s|
  {
    HexDigit(s[i]).Some? || (s[i] == '_' as int && i + 1 < |s| && HexDigit(s[i + 1]).Some?)
  }

  /** Underscores are read only one at a time, with a digit behind each. */
  lemma {:induction false} WhatDigitsAre(s: Bytes, value: nat)
    ensures Digits(s, value).Some? <==> forall i :: 0 <= i < |s| ==> DigitAt(s, i)
    decreases |s|
  {
    if s != [] {
      WhatDigitsAre(s[1..], if HexDigit(s[0]).Some? then value * 16 + HexDigit(s[0]).value else value);
      assert forall i :: 0 <= i < |s| - 1 ==> DigitAt(s[1..], i) == DigitAt(s, i + 1);
      hide HexDigit;
      assert (forall i :: 0 <= i < |s| ==> DigitAt(s, i)) <==>
        DigitAt(s, 0) && forall i :: 0 <= i < |s| - 1 ==> DigitAt(s[1..], i) by
      {
        if forall i :: 0 <= i < |s| - 1 ==> DigitAt(s[1..], i) {
          assert forall i :: 0 < i < |s| ==> DigitAt(s, i) == DigitAt(s[1..], i - 1);
        }
      }
    }
  }

  /** The digits without the underscores between them. */
  function Dense(s: Bytes): Bytes {
    if s == [] then [] else (if s[0] == '_' as int then [] else [s[0]]) + Dense(s[1..])
  }

  lemma DigitAppended(a: Bytes, d: byte)
    requires HexDigit(d).Some?
    ensures HexValue(a + [d]) == HexValue(a) * 16 + HexDigit(d).value
  {
    hide HexDigit;
    assert (a + [d])[..|a|] == a;
  }

  lemma {:induction false} UnderscoresCountNothing(a: Bytes, s: Bytes)
    requires Digits(s, HexValue(a)).Some?
    ensures Digits(s, HexValue(a)) == Some(HexValue(a + Dense(s)))
    decreases |s|
  {
    hide HexDigit, HexValue;
    if s == [] {
      assert a + Dense(s) == a;
    } else if HexDigit(s[0]).Some? {
      ADigitIsNoSpace(s[0]);
      DigitAppended(a, s[0]);
      UnderscoresCountNothing(a + [s[0]], s[1..]);
      assert a + [s[0]] + Dense(s[1..]) == a + Dense(s);
    } else {
      assert Dense(s) == Dense(s[1..]);
      UnderscoresCountNothing(a, s[1..]);
    }
  }

  lemma {:induction false} DigitsAreRead(a: Bytes, b: Bytes)
    requires AllHex(a) && AllHex(b)
    ensures Digits(b, HexValue(a)) == Some(HexValue(a + b))
    decreases |b|
  {
    if b == [] {
      assert a + b == a;
    } else {
      assert (a + [b[0]])[..|a|] == a;
      assert a + [b[0]] + b[1..] == a + b;
      DigitsAreRead(a + [b[0]], b[1..]);
    }
  }

  lemma HexIsRead(digits: Bytes)
    requires AllHex(digits)
    ensures Digits(digits, 0) == Some(HexValue(digits))
  {
    assert HexValue([]) == 0 && [] + digits == digits;
    DigitsAreRead([], digits);
  }

  lemma {:induction false} BeforeStops(s: Bytes, mark: byte, rest: Bytes)
    requires mark !in s && (rest == [] || rest[0] == mark)
    ensures Before(s + rest, mark) == s
  {
    if s != [] {
      assert (s + rest)[1..] == s[1..] + rest;
      BeforeStops(s[1..], mark, rest);
    }
  }

  lemma {:induction false} PaddingIsStripped(digits: Bytes, pad: Bytes)
    requires digits != [] && AllHex(digits) && AllSpace(pad)
    ensures StripEnd(StripStart(digits + pad)) == digits
    decreases |pad|
  {
    hide HexDigit;
    ADigitIsNoSpace(digits[0]);
    assert (digits + pad)[0] == digits[0];
    assert StripStart(digits + pad) == digits + pad;
    if pad == [] {
      assert digits + pad == digits;
      ADigitIsNoSpace(digits[|digits| - 1]);
    } else {
      assert (digits + pad)[..|digits + pad| - 1] == digits + pad[..|pad| - 1];
      assert (digits + pad)[|digits + pad| - 1] == pad[|pad| - 1];
      PaddingIsStripped(digits, pad[..|pad| - 1]);
      assert StripStart(digits + pad[..|pad| - 1]) == digits + pad[..|pad| - 1];
    }
  }

  lemma ADigitIsNoSpace(b: byte)
    requires HexDigit(b).Some?
    ensures !IsSpace(b) && b !in {SEMICOLON, NL, 43, 45, 88, 95, 120}
  {
  }

  /**
   A size is read from its hexadecimal digits in either case and with any leading zeros, whatever space
   follows them and whatever extension follows that, the carriage return before the newline included.
   */
  lemma SizesAreRead(digits: Bytes, pad: Bytes, extension: Bytes)
    requires digits != [] && AllHex(digits) && AllSpace(pad)
    requires extension == [] || extension[0] == SEMICOLON
    ensures Size(digits + pad + extension) == Some(HexValue(digits))
  {
    hide StripStart, StripEnd, Digits, HexValue, Before;
    forall i | 0 <= i < |digits| ensures digits[i] != SEMICOLON { ADigitIsNoSpace(digits[i]); }
    BeforeStops(digits + pad, SEMICOLON, extension);
    PaddingIsStripped(digits, pad);
    HexIsRead(digits);
    ADigitIsNoSpace(digits[0]);
    if |digits| > 1 { ADigitIsNoSpace(digits[1]); }
  }

  /** Tab, newline, vertical tab, form feed, carriage return and space. */
  lemma TheSixSpaces(b: byte)
    ensures IsSpace(b) <==> b == 9 || b == 10 || b == 11 || b == 12 || b == 13 || b == 32
  {
  }

  /** Space in front of a size is skipped as well, and a line of nothing else is a zero. */
  lemma {:induction false} SpaceInFrontIsSkipped(pad: Bytes, line: Bytes)
    requires AllSpace(pad)
    ensures Size(pad + line) == Size(line) && Size(pad) == Some(0)
  {
    hide ParseHex, StripEnd;
    if pad == [] {
      assert pad + line == line;
      NoSizeInNothing();
    } else {
      SpaceInFrontIsSkipped(pad[1..], line);
      OneSpaceLess(pad[0], pad[1..] + line);
      OneSpaceLess(pad[0], pad[1..]);
      assert [pad[0]] + (pad[1..] + line) == pad + line && [pad[0]] + pad[1..] == pad;
    }
  }

  lemma OneSpaceLess(b: byte, line: Bytes)
    requires IsSpace(b)
    ensures Size([b] + line) == Size(line)
  {
    hide ParseHex, StripEnd;
    assert ([b] + line)[1..] == line;
    assert ([b] + Before(line, SEMICOLON))[1..] == Before(line, SEMICOLON);
  }

  /** What Python reads beside that: a sign, and `0x` with or without an underscore behind it. */
  lemma SignsAndPrefixesAreRead(digits: Bytes)
    requires digits != [] && AllHex(digits)
    ensures var n: int := HexValue(digits);
      && ParseHex(digits) == ParseHex([43] + digits) == Some(n) && ParseHex([45] + digits) == Some(-n)
      && ParseHex([48, 120] + digits) == ParseHex([48, 120, 95] + digits) == Some(n)
  {
    hide HexValue, Digits;
    HexIsRead(digits);
    ADigitIsNoSpace(digits[0]);
    if |digits| > 1 { ADigitIsNoSpace(digits[1]); }
    assert ([43] + digits)[1..] == digits && ([45] + digits)[1..] == digits;
    assert ([48, 120] + digits)[2..] == digits && ([48, 120, 95] + digits)[3..] == digits;
  }

  /** A chunk of section 7.1: the extension starts at a semicolon and holds no newline. */
  function Sent(digits: Bytes, extension: Bytes, data: Bytes): Chunk {
    Chunk(digits + extension + [13], data, [13])
  }

  ghost predicate Sendable(digits: Bytes, extension: Bytes, data: Bytes) {
    && digits != [] && AllHex(digits) && HexValue(digits) == |data| <= MAX_READ
    && (extension == [] || extension[0] == SEMICOLON) && NL !in extension
  }

  lemma SentIsWellFormed(digits: Bytes, extension: Bytes, data: Bytes)
    requires Sendable(digits, extension, data)
    ensures Size(Sent(digits, extension, data).size + [NL]) == Some(|data|)
    ensures NL !in Sent(digits, extension, data).size
    ensures data != [] ==> WellFormed(Sent(digits, extension, data))
  {
    hide Size, HexValue;
    forall i | 0 <= i < |digits| ensures digits[i] != NL { ADigitIsNoSpace(digits[i]); }
    var line := digits + extension + [13] + [NL];
    if extension == [] {
      assert line == digits + CRLF + [];
      SizesAreRead(digits, CRLF, []);
    } else {
      assert line == digits + [] + (extension + CRLF);
      SizesAreRead(digits, [], extension + CRLF);
    }
  }

  /**
   The decoder inverts the coding: the data of any chunks comes back whole, newlines and all, and the stream
   is left just past the line that ends the body.
   */
  lemma DecodingInvertsCoding(spellings: seq<(Bytes, Bytes, Bytes)>, zero: Bytes, last: Bytes, rest: Bytes)
    requires forall i :: 0 <= i < |spellings| ==>
      var s := spellings[i]; Sendable(s.0, s.1, s.2) && s.2 != []
    requires Sendable(zero, last, [])
    ensures var chunks := seq(|spellings|, i requires 0 <= i < |spellings| =>
              Sent(spellings[i].0, spellings[i].1, spellings[i].2));
      Decode(Coded(chunks) + (zero + last + CRLF + CRLF + rest), []) == (Ok(Carried(chunks)), rest)
  {
    hide Decode, Size, Sendable, WellFormed, Sent;
    var chunks := seq(|spellings|, i requires 0 <= i < |spellings| =>
      Sent(spellings[i].0, spellings[i].1, spellings[i].2));
    forall i | 0 <= i < |chunks| ensures WellFormed(chunks[i]) {
      SentIsWellFormed(spellings[i].0, spellings[i].1, spellings[i].2);
    }
    ZeroEnds(zero, last, rest, Carried(chunks));
    ChunksAreRead(chunks, zero + last + CRLF + CRLF + rest, []);
    assert [] + Carried(chunks) == Carried(chunks);
  }

  lemma ZeroEnds(zero: Bytes, last: Bytes, rest: Bytes, body: Bytes)
    requires Sendable(zero, last, [])
    ensures Decode(zero + last + CRLF + CRLF + rest, body) == (Ok(body), rest)
  {
    hide Decode, Size, Sendable;
    SentIsWellFormed(zero, last, []);
    TheLastChunkEnds(zero + last + [13], [13], rest, body);
    assert zero + last + CRLF + CRLF + rest == zero + last + [13] + [NL] + [13] + [NL] + rest;
  }
}
