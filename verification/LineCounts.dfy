/**
 Counting a file's lines off a buffered read, and remembering the counts: `count_lines_of`, `counted`,
 `remember_count` and `count_lines` of src/ui/extension_host.rs.
 */
module LineCounts {
  import opened Outcomes
  import opened Sequences

  const NEWLINE: byte := 10
  const U32_MAX: nat := 0xffff_ffff
  const KEPT: nat := 4096
  const BUFFER: nat := 16 * 1024

  type Path = string

  /** A file's length and modification time. */
  type Stamp = (nat, nat)

  // ----- What `str::lines` yields -----

  function FirstNewline(text: seq<byte>): (k: nat)
    ensures k <= |text| && NEWLINE !in text[..k]
    ensures k < |text| ==> text[k] == NEWLINE
  {
    if text == [] || text[0] == NEWLINE then 0 else 1 + FirstNewline(text[1..])
  }

  /** The lines of a text with their terminators, as `str::lines` cuts them before trimming each. */
  function Lines(text: seq<byte>): seq<seq<byte>> {
    var k := FirstNewline(text);
    if text == [] then []
    else if k == |text| then [text]
    else [text[..k + 1]] + Lines(text[k + 1..])
  }

  predicate IsLine(line: seq<byte>) {
    line != [] && NEWLINE !in line[..|line| - 1]
  }

  function FirstLine(text: seq<byte>): (first: seq<byte>)
    ensures first <= text && (text != [] ==> first != [])
  {
    var k := FirstNewline(text);
    if k < |text| then text[..k + 1] else text
  }

  lemma FrontLine(text: seq<byte>)
    requires text != []
    ensures var first := FirstLine(text); var rest := text[|first|..];
      && Lines(text) == [first] + Lines(rest) && first + rest == text
      && IsLine(first) && (rest != [] ==> NEWLINE in first)
  {
    var k := FirstNewline(text);
    var first := FirstLine(text);
    if k < |text| {
      assert first[..k] == text[..k] && first[k] == NEWLINE;
    } else {
      assert text[..k][..k - 1] == text[..k - 1] && text[|first|..] == [];
    }
  }

  lemma {:induction false} LinesAreTheText(text: seq<byte>)
    ensures Flat(Lines(text)) == text
    ensures Lines(text) == [] <==> text == []
  {
    hide FirstLine, IsLine;
    if text != [] {
      FrontLine(text);
      LinesAreTheText(text[|FirstLine(text)|..]);
      assert Lines(text)[1..] == Lines(text[|FirstLine(text)|..]);
    }
  }

  /** The lines are the whole text, cut after each newline and nowhere else. */
  lemma {:induction false} LinesCutAtNewlines(text: seq<byte>)
    ensures Flat(Lines(text)) == text
    ensures forall i :: 0 <= i < |Lines(text)| ==> IsLine(Lines(text)[i])
    ensures forall i :: 0 <= i < |Lines(text)| - 1 ==> NEWLINE in Lines(text)[i]
  {
    hide FirstLine, IsLine, Lines, Flat;
    LinesAreTheText(text);
    if text != [] {
      var rest := text[|FirstLine(text)|..];
      FrontLine(text);
      LinesAreTheText(rest);
      LinesCutAtNewlines(rest);
    }
  }

  function Newlines(text: seq<byte>): nat {
    if text == [] then 0 else (if text[0] == NEWLINE then 1 else 0) + Newlines(text[1..])
  }

  function Capped(n: nat): nat {
    if n <= U32_MAX then n else U32_MAX
  }

  lemma {:induction false} NewlinesAppend(a: seq<byte>, b: seq<byte>)
    ensures Newlines(a + b) == Newlines(a) + Newlines(b)
  {
    if a == [] {
      assert a + b == b;
    } else {
      assert (a + b)[1..] == a[1..] + b;
      NewlinesAppend(a[1..], b);
    }
  }

  lemma {:induction false} NoNewlines(text: seq<byte>)
    requires NEWLINE !in text
    ensures Newlines(text) == 0
  {
    if text != [] { NoNewlines(text[1..]); }
  }

  lemma NewlinesOfFirst(text: seq<byte>)
    requires text != []
    ensures var first := FirstLine(text); var rest := text[|first|..];
      && Newlines(text) == Newlines(rest) + (if first[|first| - 1] == NEWLINE then 1 else 0)
      && (first[|first| - 1] != NEWLINE ==> rest == [])
  {
    hide Newlines;
    var first := FirstLine(text);
    var rest := text[|first|..];
    var front, last := first[..|first| - 1], first[|first| - 1..];
    assert text == first + rest && first == front + last && last == [first[|first| - 1]];
    if first[|first| - 1] != NEWLINE {
      assert FirstNewline(text) == |text|;
      assert rest == [];
    }
    NewlinesAppend(first, rest);
    NewlinesAppend(front, last);
    NoNewlines(front);
    OneNewline(last[0]);
  }

  lemma OneNewline(b: byte)
    ensures Newlines([b]) == if b == NEWLINE then 1 else 0
  {
  }

  /** A line is a newline, but for one more when the text does not end in one. */
  lemma {:induction false} LinesAreNewlines(text: seq<byte>)
    ensures |Lines(text)| == Newlines(text) + if text != [] && text[|text| - 1] != NEWLINE then 1 else 0
  {
    hide FirstLine, IsLine;
    if text != [] {
      FrontLine(text);
      NewlinesOfFirst(text);
      var first, rest := FirstLine(text), text[|FirstLine(text)|..];
      LinesAreNewlines(rest);
      assert text[|text| - 1] == if rest == [] then first[|first| - 1] else rest[|rest| - 1];
    }
  }

  // ----- A reader that hands the content over in pieces -----

  class Reader {
    var pieces: seq<seq<byte>>  // what is still to come, as it will be split
    const failing: bool         // whether an error, rather than the end, is behind it

    predicate Valid()
      reads this
    {
      forall i :: 0 <= i < |pieces| ==> pieces[i] != []
    }

    constructor (pieces: seq<seq<byte>>, failing: bool)
      requires forall i :: 0 <= i < |pieces| ==> pieces[i] != []
      ensures Valid() && this.pieces == pieces && this.failing == failing
    {
      this.pieces := pieces;
      this.failing := failing;
    }

    /** `Read::read`: fills some of the buffer, `Ok(0)` only at the end. */
    method Read(buffer: array<byte>) returns (read: Result<nat, ()>)
      requires Valid() && buffer.Length > 0
      modifies this, buffer
      ensures Valid()
      ensures old(pieces) == [] ==> read == (if failing then Err(()) else Ok(0)) && pieces == []
      ensures old(pieces) != [] ==>
        && read.Ok? && 0 < read.value <= buffer.Length
        && buffer[..read.value] + Flat(pieces) == old(Flat(pieces))
        && |Flat(pieces)| < |old(Flat(pieces))|
    {
      if pieces == [] {
        read := if failing then Err(()) else Ok(0);
        return;
      }
      var piece := pieces[0];
      var n := if |piece| <= buffer.Length then |piece| else buffer.Length;
      forall i | 0 <= i < n { buffer[i] := piece[i]; }
      assert buffer[..n] == piece[..n];
      ghost var rest := pieces[1..];
      pieces := if n == |piece| then pieces[1..] else [piece[n..]] + pieces[1..];
      read := Ok(n);
      assert piece[..n] + piece[n..] == piece;
      assert n < |piece| ==> pieces[1..] == rest;
      assert n == |piece| ==> piece[..n] == piece;
    }
  }

  /** What a reading of a file finds: its bytes, or nothing when it cannot be opened or read to the end. */
  type Found = Option<seq<byte>>

  /** The number of lines the contract promises. */
  function LineCount(found: Found): nat {
    match found
    case None => 0
    case Some(text) => Capped(|Lines(text)|)
  }

  /** `count_lines_of`: whatever the content and however the reader splits it, the lines of the file. */
  method CountLinesOf(file: Option<Reader>) returns (lines: nat)
    requires file.Some? ==> file.value.Valid()
    modifies if file.Some? then {file.value} else {}
    ensures lines == LineCount(
      if file.None? || file.value.failing then None else Some(old(Flat(file.value.pieces))))
  {
    hide Newlines, Lines;
    NoNewlines([]);
    if file.None? { return 0; }
    var reader := file.value;
    var buffer := new byte[BUFFER];
    lines := 0;
    var last: Option<byte> := None;
    ghost var text, done := Flat(reader.pieces), [];
    while true
      invariant reader.Valid() && fresh(buffer) && buffer.Length == BUFFER
      invariant done + Flat(reader.pieces) == text
      invariant lines == Capped(Newlines(done))
      invariant last == if done == [] then None else Some(done[|done| - 1])
      decreases |Flat(reader.pieces)|, |reader.pieces|
    {
      var read := reader.Read(buffer);
      match read
      case Err(_) => return 0;
      case Ok(n) =>
        if n == 0 { break; }
        NewlinesAppend(done, buffer[..n]);
        lines := Capped(lines + Newlines(buffer[..n]));
        last := Some(buffer[n - 1]);
        assert done + (buffer[..n] + Flat(reader.pieces)) == (done + buffer[..n]) + Flat(reader.pieces);
        done := done + buffer[..n];
    }
    assert done == text;
    LinesAreNewlines(text);
    match last
    case None => lines := 0;
    case Some(b) => if b != NEWLINE { lines := Capped(lines + 1); }
  }

  // ----- The remembered counts -----

  type Counts = map<Path, (Stamp, nat)>

  function Lookup(counts: Counts, path: Path, stamp: Stamp): Option<nat> {
    if path in counts && counts[path].0 == stamp then Some(counts[path].1) else None
  }

  function Remembered(counts: Counts, path: Path, stamp: Stamp, count: nat): Counts {
    (if |counts| >= KEPT then map[] else counts)[path := (stamp, count)]
  }

  /** One call: what is asked, the stamp the file has (if it can be had), and what reading it would find. */
  datatype Call = Call(path: Path, stamp: Option<Stamp>, found: Found)

  function Answer(counts: Counts, call: Call): nat {
    if call.stamp.None? then LineCount(call.found)
    else match Lookup(counts, call.path, call.stamp.value)
      case Some(count) => count
      case None => LineCount(call.found)
  }

  function After(counts: Counts, call: Call): Counts {
    if call.stamp.None? || Lookup(counts, call.path, call.stamp.value).Some? then counts
    else Remembered(counts, call.path, call.stamp.value, LineCount(call.found))
  }

  class LineCounts {
    var counts: Counts

    constructor ()
      ensures counts == map[]
    {
      counts := map[];
    }

    method Counted(path: Path, stamp: Stamp) returns (count: Option<nat>)
      ensures count == Lookup(counts, path, stamp)
    {
      count := None;
      if path in counts {
        var (countedAt, was) := counts[path];
        if countedAt == stamp { count := Some(was); }
      }
    }

    method RememberCount(path: Path, stamp: Stamp, count: nat)
      modifies this
      ensures counts == Remembered(old(counts), path, stamp, count)
    {
      if |counts| >= KEPT { counts := map[]; }
      counts := counts[path := (stamp, count)];
    }

    /** `count_lines`, with the file opened as `file` for as long as it can be. */
    method CountLines(path: Path, stamp: Option<Stamp>, file: Option<Reader>, ghost found: Found) returns (lines: nat)
      requires file.Some? ==> file.value.Valid()
      requires found == if file.None? || file.value.failing then None else Some(Flat(file.value.pieces))
      modifies this, if file.Some? then {file.value} else {}
      ensures lines == Answer(old(counts), Call(path, stamp, found))
      ensures counts == After(old(counts), Call(path, stamp, found))
    {
      if stamp.Some? {
        var known := Counted(path, stamp.value);
        if known.Some? { return known.value; }
      }
      lines := CountLinesOf(file);
      if stamp.Some? { RememberCount(path, stamp.value, lines); }
    }
  }

  /** Below 4096 entries the counts of other files are kept; at 4096 they are all dropped first. */
  lemma OtherCountsAreKept(counts: Counts, call: Call, other: Path)
    requires call.stamp.Some? && Lookup(counts, call.path, call.stamp.value).None? && other != call.path
    ensures var after := After(counts, call);
      && call.path in after && after[call.path] == (call.stamp.value, LineCount(call.found))
      && (other in after <==> |counts| < 4096 && other in counts)
      && (other in after ==> after[other] == counts[other])
  {
  }

  /** Without a stamp, or with the one that is remembered, nothing is. */
  lemma NothingIsRemembered(counts: Counts, call: Call)
    requires call.stamp.Some? ==> call.path in counts && counts[call.path].0 == call.stamp.value
    ensures After(counts, call) == counts
    ensures call.stamp.Some? ==> Answer(counts, call) == counts[call.path].1
  {
  }

  /** The counter stops at the largest it holds. */
  lemma CountsStopAtTheLargest(text: seq<byte>)
    ensures LineCount(Some(text)) == if |Lines(text)| < 4294967296 then |Lines(text)| else 4294967295
  {
    hide Lines;
  }

  /** The counts after a sequence of calls. */
  function AfterAll(counts: Counts, calls: seq<Call>): Counts
    decreases |calls|
  {
    if calls == [] then counts else AfterAll(After(counts, calls[0]), calls[1..])
  }

  /** A path and a stamp decide what a reading finds. */
  ghost predicate StampDecides(calls: seq<Call>, found: (Path, Stamp) -> Found) {
    forall i :: 0 <= i < |calls| && calls[i].stamp.Some? ==>
      calls[i].found == found(calls[i].path, calls[i].stamp.value)
  }

  ghost predicate Faithful(counts: Counts, found: (Path, Stamp) -> Found) {
    && |counts| <= KEPT
    && forall path :: path in counts ==> counts[path].1 == LineCount(found(path, counts[path].0))
  }

  lemma CallKeepsFaithful(counts: Counts, call: Call, found: (Path, Stamp) -> Found)
    requires Faithful(counts, found)
    requires call.stamp.Some? ==> call.found == found(call.path, call.stamp.value)
    ensures Faithful(After(counts, call), found)
    ensures Answer(counts, call) == LineCount(call.found)
  {
    if call.stamp.Some? && Lookup(counts, call.path, call.stamp.value).None? {
      var kept := if |counts| >= KEPT then map[] else counts;
      var now := kept[call.path := (call.stamp.value, LineCount(call.found))];
      assert now.Keys == kept.Keys + {call.path};
    }
  }

  /** After any calls, asking again answers what an uncached count would, out of at most 4096 entries. */
  lemma {:induction false} CachedIsUncached(counts: Counts, calls: seq<Call>, found: (Path, Stamp) -> Found)
    requires Faithful(counts, found) && StampDecides(calls, found)
    ensures Faithful(AfterAll(counts, calls), found)
    ensures |AfterAll(counts, calls)| <= 4096
    ensures forall call: Call :: (call.stamp.Some? ==> call.found == found(call.path, call.stamp.value)) ==>
      Answer(AfterAll(counts, calls), call) == LineCount(call.found)
    decreases |calls|
  {
    if calls == [] {
      forall call: Call | call.stamp.Some? ==> call.found == found(call.path, call.stamp.value)
        ensures Answer(counts, call) == LineCount(call.found)
      {
        CallKeepsFaithful(counts, call, found);
      }
    } else {
      CallKeepsFaithful(counts, calls[0], found);
      CachedIsUncached(After(counts, calls[0]), calls[1..], found);
    }
  }

  /**
   The premise is needed: a count is remembered whatever came of the read, so a file that could not be
   read keeps counting nothing for as long as its stamp stays, readable again or not.
   */
  lemma AFailedReadIsRemembered(path: Path, stamp: Stamp)
    ensures Answer(After(map[], Call(path, Some(stamp), None)), Call(path, Some(stamp), Some([NEWLINE]))) == 0
    ensures LineCount(Some([NEWLINE])) == 1
  {
    LinesAreNewlines([NEWLINE]);
  }
}
