/**
 The server side of RFC 6455 in conformance/shared/websocket.py: reading one client message off a
 socket that splits its bytes anyhow, answering pings on the way, and writing unmasked frames.
 */
module WebSockets {
  import opened Outcomes
  import opened Octets
  import Sequences

  // Octets of the wire, as the bits the framing packs.
  type Bytes = seq<bv8>

  const TWO64: nat := 0x1_0000_0000_0000_0000

  // ----- Frames on the wire -----

  datatype Frame = Frame(fin: bool, opcode: bv8, mask: Option<Bytes>, payload: Bytes) {
    predicate Valid() {
      opcode <= 0x0F && |payload| < TWO64 && (mask.Some? ==> |mask.value| == 4)
    }
  }

  /** `n.to_bytes(width, "big")` */
  function BigEndian(n: nat, width: nat): (bytes: Bytes)
    ensures |bytes| == width
  {
    if width == 0 then [] else BigEndian(n / 256, width - 1) + [(n % 256) as bv8]
  }

  /** `int.from_bytes(bytes, "big")` */
  function FromBytes(bytes: Bytes): nat {
    if bytes == [] then 0 else 256 * FromBytes(bytes[..|bytes| - 1]) + bytes[|bytes| - 1] as nat
  }

  function Pow256(n: nat): nat {
    if n == 0 then 1 else 256 * Pow256(n - 1)
  }

  lemma {:induction false} FromBytesBelow(bytes: Bytes)
    ensures FromBytes(bytes) < Pow256(|bytes|)
  {
    if bytes != [] { FromBytesBelow(bytes[..|bytes| - 1]); }
  }

  lemma {:induction false} Pow256Grows(m: nat, n: nat)
    requires m <= n
    ensures 0 < Pow256(m) <= Pow256(n)
    decreases n
  {
    if m < n { Pow256Grows(m, n - 1); } else if n > 0 { Pow256Grows(m - 1, n - 1); }
  }

  lemma EightOctets(bytes: Bytes)
    requires |bytes| <= 8
    ensures FromBytes(bytes) < TWO64
  {
    FromBytesBelow(bytes);
    Pow256Grows(|bytes|, 8);
    assert Pow256(4) == 0x1_0000_0000;
    assert Pow256(8) == TWO64;
  }

  lemma {:induction false} BigEndianRoundTrip(n: nat, width: nat)
    requires n < Pow256(width)
    ensures FromBytes(BigEndian(n, width)) == n
  {
    if width > 0 {
      BigEndianRoundTrip(n / 256, width - 1);
      OctetRoundTrip(n % 256);
      var bytes := BigEndian(n, width);
      assert bytes[..width - 1] == BigEndian(n / 256, width - 1);
    }
  }

  /** Masking and unmasking, octet by octet (section 5.3). */
  function Masked(data: Bytes, mask: Bytes): (out: Bytes)
    requires |mask| == 4 || data == []
    ensures |out| == |data|
  {
    seq(|data|, i requires 0 <= i < |data| => data[i] ^ mask[i % 4])
  }

  /** The payload length in 7 bits, and in the 2 or 8 octets that follow when it does not fit (section 5.2). */
  function Length7(n: nat): (code: nat)
    ensures code < 128
  {
    if n < 126 then n else if n < 65536 then 126 else 127
  }

  function LengthRest(n: nat): Bytes {
    if n < 126 then [] else if n < 65536 then BigEndian(n, 2) else BigEndian(n, 8)
  }

  /** A frame as a client puts it on the wire, masked or not. */
  function Encode(f: Frame): Bytes
    requires f.Valid()
  {
    [(if f.fin then 0x80 else 0) | f.opcode, (if f.mask.Some? then 0x80 else 0) | (Length7(|f.payload|) as bv8)]
    + (LengthRest(|f.payload|) + Body(f))
  }

  /** The mask, when there is one, and the payload as it travels. */
  function Body(f: Frame): Bytes
    requires f.Valid()
  {
    if f.mask.Some? then f.mask.value + Masked(f.payload, f.mask.value) else f.payload
  }

  function EncodeAll(frames: seq<Frame>): Bytes
    requires forall i :: 0 <= i < |frames| ==> frames[i].Valid()
  {
    if frames == [] then [] else Encode(frames[0]) + EncodeAll(frames[1..])
  }

  /** An unmasked, final frame. */
  function ServerFrame(opcode: bv8, payload: Bytes): Bytes
    requires opcode <= 0x0F && |payload| < TWO64
  {
    Encode(Frame(true, opcode, None, payload))
  }

  // ----- What a read takes off a stream -----

  function Take(s: Bytes, n: nat): Bytes {
    if n <= |s| then s[..n] else s
  }

  function Drop(s: Bytes, n: nat): Bytes {
    if n <= |s| then s[n..] else []
  }

  datatype Got = Got(fin: bool, opcode: bv8, data: Bytes, rest: Bytes)

  /** The length a header announces, and how many octets after the header spell it. */
  function Announced(s: Bytes): (length: (nat, nat))
    requires |s| >= 2
    ensures length.0 < TWO64
  {
    var code := (s[1] & 0x7F) as nat;
    if code == 126 || code == 127 then
      var width := if code == 126 then 2 else 8;
      EightOctets(Take(s[2..], width));
      (FromBytes(Take(s[2..], width)), width)
    else (code, 0)
  }

  /** The unmasked payload behind a header, and what is left behind it. */
  function GetBody(s: Bytes, length: nat, masked: bool): (body: (Bytes, Bytes))
    ensures |body.0| <= length && |body.1| <= |s|
  {
    if masked then (Masked(Take(Drop(s, 4), length), Take(s, 4)), Drop(Drop(s, 4), length))
    else (Take(s, length), Drop(s, length))
  }

  /** One frame, cut short by the end of the stream wherever that comes. */
  function GetFrame(s: Bytes): (got: Got)
    requires |s| >= 2
    ensures |got.rest| <= |s| - 2 && |got.data| < TWO64
  {
    var (length, width) := Announced(s);
    var (data, rest) := GetBody(Drop(s[2..], width), length, s[1] & 0x80 != 0);
    Got(s[0] & 0x80 != 0, s[0] & 0x0F, data, rest)
  }

  /** `message` is the pair returned: none for `(None, None)`. */
  datatype Reading = Reading(message: Option<(Option<bv8>, Bytes)>, pongs: Bytes, rest: Bytes)

  function FirstOpcode(first: Option<bv8>, opcode: bv8): Option<bv8> {
    if first.None? && (opcode == 1 || opcode == 2) then Some(opcode) else first
  }

  predicate CarriesData(opcode: bv8) {
    opcode == 0 || opcode == 1 || opcode == 2
  }

  function Read(s: Bytes, first: Option<bv8>, payload: Bytes): Reading
    decreases |s|
  {
    if |s| < 2 then Reading(None, [], []) else
      var got := GetFrame(s);
      if got.opcode == 9 then
        var on := Read(got.rest, first, payload);
        on.(pongs := ServerFrame(0xA, got.data) + on.pongs)
      else if got.opcode == 8 then Reading(None, [], got.rest)
      else
        var opcode := FirstOpcode(first, got.opcode);
        var sofar := if CarriesData(got.opcode) then payload + got.data else payload;
        if got.fin then Reading(Some((opcode, sofar)), [], got.rest) else Read(got.rest, opcode, sofar)
  }

  // ----- The socket -----

  /** A connection: what will still arrive, in the pieces it arrives in, and what was sent. */
  class Conn {
    var pieces: seq<Bytes>
    var sent: Bytes

    predicate Valid()
      reads `pieces
    {
      forall i :: 0 <= i < |pieces| ==> pieces[i] != []
    }

    function Inbound(): Bytes
      reads `pieces
    {
      Sequences.Flat(pieces)
    }

    constructor (pieces: seq<Bytes>)
      requires forall i :: 0 <= i < |pieces| ==> pieces[i] != []
      ensures Valid() && Inbound() == Sequences.Flat(pieces) && sent == []
    {
      this.pieces := pieces;
      sent := [];
    }

    /** At most `n` octets, none only when the peer is gone. */
    method Recv(n: nat) returns (chunk: Bytes)
      requires Valid() && n > 0
      modifies `pieces
      ensures Valid() && |chunk| <= n && chunk + Inbound() == old(Inbound())
      ensures chunk == [] <==> old(Inbound()) == []
    {
      if pieces == [] { return []; }
      var piece, later := pieces[0], pieces[1..];
      if |piece| <= n {
        chunk, pieces := piece, later;
      } else {
        chunk, pieces := piece[..n], [piece[n..]] + later;
        assert pieces[1..] == later && piece == piece[..n] + piece[n..];
      }
    }

    method SendAll(bytes: Bytes)
      modifies `sent
      ensures sent == old(sent) + bytes
    {
      sent := sent + bytes;
    }
  }

  /** However the socket splits them: the next `n` octets, or all that were left. */
  method ReadExact(conn: Conn, n: nat) returns (bytes: Bytes)
    requires conn.Valid()
    modifies conn`pieces
    ensures conn.Valid()
    ensures bytes == Take(old(conn.Inbound()), n) && conn.Inbound() == Drop(old(conn.Inbound()), n)
  {
    hide Conn.Inbound, Take, Drop, Sequences.Flat;
    bytes := [];
    ghost var all := conn.Inbound();
    var remaining: int := n;
    while remaining > 0
      invariant conn.Valid() && remaining == n - |bytes| && 0 <= remaining
      invariant bytes + conn.Inbound() == all
    {
      var chunk := conn.Recv(if remaining < 65536 then remaining else 65536);
      if chunk == [] { break; }
      assert bytes + (chunk + conn.Inbound()) == (bytes + chunk) + conn.Inbound();
      bytes := bytes + chunk;
      remaining := remaining - |chunk|;
    }
    TakenAndLeft(bytes, conn.Inbound(), n);
  }

  lemma TakenAndLeft(bytes: Bytes, rest: Bytes, n: nat)
    requires |bytes| == n || (|bytes| < n && rest == [])
    ensures Take(bytes + rest, n) == bytes && Drop(bytes + rest, n) == rest
  {
  }

  /** The header and payload are written in one go. */
  method SendFrame(conn: Conn, opcode: bv8, payload: Bytes)
    requires opcode <= 0x0F && |payload| < TWO64
    modifies conn`sent
    ensures conn.sent == old(conn.sent) + ServerFrame(opcode, payload)
  {
    hide BigEndian;
    var header := [0x80 | opcode];
    var length := |payload|;
    if length < 126 {
      header := header + [length as bv8];
    } else if length < 65536 {
      header := header + [126] + BigEndian(length, 2);
    } else {
      header := header + [127] + BigEndian(length, 8);
    }
    NoMaskBit(Length7(length) as bv8);
    conn.SendAll(header + payload);
  }

  lemma FrameIsRead(s: Bytes)
    requires |s| >= 2
    ensures var (length, width) := Announced(s);
      var (data, rest) := GetBody(Drop(s[2..], width), length, s[1] & 0x80 != 0);
      GetFrame(s) == Got(s[0] & 0x80 != 0, s[0] & 0x0F, data, rest)
  {
  }

  method ReadLength(conn: Conn, header: Bytes) returns (length: nat)
    requires conn.Valid() && |header| == 2
    modifies conn`pieces
    ensures conn.Valid()
    ensures var (announced, width) := Announced(header + old(conn.Inbound()));
      length == announced && conn.Inbound() == Drop(old(conn.Inbound()), width)
  {
    assert (header + conn.Inbound())[2..] == conn.Inbound();
    length := (header[1] & 0x7F) as nat;
    if length == 126 {
      var spelled := ReadExact(conn, 2);
      length := FromBytes(spelled);
    } else if length == 127 {
      var spelled := ReadExact(conn, 8);
      length := FromBytes(spelled);
    }
  }

  method ReadBody(conn: Conn, length: nat, masked: bool) returns (data: Bytes)
    requires conn.Valid()
    modifies conn`pieces
    ensures conn.Valid() && (data, conn.Inbound()) == GetBody(old(conn.Inbound()), length, masked)
  {
    var mask := [];
    if masked { mask := ReadExact(conn, 4); }
    data := ReadExact(conn, length);
    if masked { data := Masked(data, mask); }
  }

  /** The part of `read_message` that takes one frame off the socket, its first two octets being read. */
  method ReadFrame(conn: Conn, header: Bytes) returns (fin: bool, opcode: bv8, data: Bytes)
    requires conn.Valid() && |header| == 2
    modifies conn`pieces
    ensures conn.Valid()
    ensures Got(fin, opcode, data, conn.Inbound()) == GetFrame(header + old(conn.Inbound()))
  {
    hide GetFrame, GetBody, Announced;
    ghost var s := header + conn.Inbound();
    FrameIsRead(s);
    assert s[2..] == conn.Inbound();
    fin := header[0] & 0x80 != 0;
    opcode := header[0] & 0x0F;
    var masked := header[1] & 0x80 != 0;
    var length := ReadLength(conn, header);
    data := ReadBody(conn, length, masked);
  }

  /** A reading that goes on from one that has answered these pings. */
  function Behind(pongs: Bytes, on: Reading): Reading {
    on.(pongs := pongs + on.pongs)
  }

  lemma BehindBoth(a: Bytes, b: Bytes, on: Reading)
    ensures Behind(a, Behind(b, on)) == Behind(a + b, on) && Behind([], on) == on
  {
    assert a + (b + on.pongs) == (a + b) + on.pongs && [] + on.pongs == on.pongs;
  }

  /** One round of the loop. */
  lemma ReadTakesAFrame(s: Bytes, first: Option<bv8>, payload: Bytes)
    requires |s| >= 2
    ensures var got := GetFrame(s);
      var opcode := if (got.opcode == 1 || got.opcode == 2) && first == None then Some(got.opcode) else first;
      var sofar := if got.opcode == 1 || got.opcode == 2 || got.opcode == 0 then payload + got.data else payload;
      Read(s, first, payload) ==
        (if got.opcode == 9 then Behind(ServerFrame(0xA, got.data), Read(got.rest, first, payload))
         else if got.opcode == 8 then Reading(None, [], got.rest)
         else if got.fin then Reading(Some((opcode, sofar)), [], got.rest)
         else Read(got.rest, opcode, sofar))
  {
    hide GetFrame, ServerFrame;
  }

  /** `read_message`: `(None, None)` is the pair of two nones. */
  method ReadMessage(conn: Conn) returns (opcode: Option<bv8>, payload: Option<Bytes>)
    requires conn.Valid()
    modifies conn
    ensures conn.Valid()
    ensures var reading := Read(old(conn.Inbound()), None, []);
      && conn.Inbound() == reading.rest && conn.sent == old(conn.sent) + reading.pongs
      && (if reading.message.Some? then opcode == reading.message.value.0 && payload == Some(reading.message.value.1)
          else opcode == None && payload == None)
  {
    hide GetFrame, ServerFrame, Read, Conn.Inbound, Sequences.Flat;
    ghost var whole := Read(conn.Inbound(), None, []);
    ghost var pongs: Bytes := [];
    var data, first := [], None;
    BehindBoth([], [], whole);
    while true
      invariant conn.Valid() && conn.sent == old(conn.sent) + pongs
      invariant whole == Behind(pongs, Read(conn.Inbound(), first, data))
      decreases |conn.Inbound()|
    {
      ghost var s := conn.Inbound();
      var header := ReadExact(conn, 2);
      if |header| < 2 {
        ReadEnds(s, first, data);
        return None, None;
      }
      assert s == header + conn.Inbound();
      ReadTakesAFrame(s, first, data);
      var fin, op, part := ReadFrame(conn, header);
      if op == 9 {
        SendFrame(conn, 0xA, part);
        BehindBoth(pongs, ServerFrame(0xA, part), Read(conn.Inbound(), first, data));
        pongs := pongs + ServerFrame(0xA, part);
        continue;
      }
      if op == 8 { return None, None; }
      if (op == 1 || op == 2) && first == None { first := Some(op); }
      if op == 1 || op == 2 || op == 0 { data := data + part; }
      if fin { return first, Some(data); }
    }
  }

  lemma ReadEnds(s: Bytes, first: Option<bv8>, payload: Bytes)
    requires |s| < 2
    ensures Read(s, first, payload) == Reading(None, [], [])
  {
  }

  // ----- Reading what a client writes -----

  lemma MaskingTwice(data: Bytes, mask: Bytes)
    requires |mask| == 4
    ensures Masked(Masked(data, mask), mask) == data
  {
    forall i | 0 <= i < |data| ensures Masked(Masked(data, mask), mask)[i] == data[i] {
      XorTwice(data[i], mask[i % 4]);
    }
  }

  /** All three spellings of a length announce it. */
  lemma LengthIsAnnounced(s: Bytes, n: nat, rest: Bytes)
    requires n < TWO64 && |s| >= 2 && (s[1] & 0x7F) as nat == Length7(n) && s[2..] == LengthRest(n) + rest
    ensures Announced(s) == (n, |LengthRest(n)|) && Drop(s[2..], |LengthRest(n)|) == rest
  {
    if n >= 126 {
      var width := if n < 65536 then 2 else 8;
      assert Pow256(4) == 0x1_0000_0000;
      assert Pow256(2) == 65536 && Pow256(8) == TWO64;
      BigEndianRoundTrip(n, width);
      assert Take(s[2..], width) == BigEndian(n, width);
    }
  }

  lemma GetOfBody(f: Frame, rest: Bytes)
    requires f.Valid()
    ensures GetBody(Body(f) + rest, |f.payload|, f.mask.Some?) == (f.payload, rest)
  {
    var s := Body(f) + rest;
    if f.mask.Some? {
      var masked := Masked(f.payload, f.mask.value);
      MaskingTwice(f.payload, f.mask.value);
      assert Take(s, 4) == f.mask.value && Drop(s, 4) == masked + rest;
      assert Take(masked + rest, |f.payload|) == masked;
    }
  }

  /** Taking a frame off the wire gives back the frame, unmasked, and what follows it. */
  lemma GetOfEncode(f: Frame, rest: Bytes)
    requires f.Valid()
    ensures GetFrame(Encode(f) + rest) == Got(f.fin, f.opcode, f.payload, rest)
  {
    hide GetFrame, GetBody, Announced, Body, LengthRest;
    var s := Encode(f) + rest;
    var n := |f.payload|;
    HeaderBits(f.fin, f.opcode, f.mask.Some?, Length7(n));
    assert s[2..] == LengthRest(n) + (Body(f) + rest);
    LengthIsAnnounced(s, n, Body(f) + rest);
    GetOfBody(f, rest);
    FrameIsRead(s);
  }

  /** What ends a read: a close, or any final frame but a ping. */
  predicate Ends(f: Frame) {
    f.opcode == 8 || (f.opcode != 9 && f.fin)
  }

  function Opcode(frames: seq<Frame>, first: Option<bv8>): Option<bv8> {
    if frames == [] then first else Opcode(frames[1..], FirstOpcode(first, frames[0].opcode))
  }

  /** The payloads of the data frames, in order. */
  function Collected(frames: seq<Frame>): Bytes {
    if frames == [] then [] else
      (if CarriesData(frames[0].opcode) then frames[0].payload else []) + Collected(frames[1..])
  }

  /** One pong for each ping, in order, with its payload. */
  function Pongs(frames: seq<Frame>): Bytes
    requires forall i :: 0 <= i < |frames| ==> frames[i].Valid()
  {
    if frames == [] then [] else
      assert frames[0].Valid();
      (if frames[0].opcode == 9 then ServerFrame(0xA, frames[0].payload) else []) + Pongs(frames[1..])
  }

  lemma ReadsOne(f: Frame, later: Bytes, first: Option<bv8>, payload: Bytes)
    requires f.Valid()
    ensures var opcode := FirstOpcode(first, f.opcode);
      var sofar := if CarriesData(f.opcode) then payload + f.payload else payload;
      Read(Encode(f) + later, first, payload) ==
        if f.opcode == 9 then
          var on := Read(later, first, payload); on.(pongs := ServerFrame(0xA, f.payload) + on.pongs)
        else if f.opcode == 8 then Reading(None, [], later)
        else if f.fin then Reading(Some((opcode, sofar)), [], later)
        else Read(later, opcode, sofar)
  {
    hide GetFrame, ServerFrame, Encode;
    GetOfEncode(f, later);
  }

  lemma PingsCarryNothing(first: Option<bv8>)
    ensures !CarriesData(9) && FirstOpcode(first, 9) == first
  {
  }

  /** A read takes frames up to the first that ends it, and not an octet more. */
  lemma {:induction false} ReadsToTheFirstEnd(frames: seq<Frame>, rest: Bytes, first: Option<bv8>, payload: Bytes)
    requires frames != [] && (forall i :: 0 <= i < |frames| ==> frames[i].Valid())
    requires (forall i :: 0 <= i < |frames| - 1 ==> !Ends(frames[i])) && Ends(frames[|frames| - 1])
    ensures Read(EncodeAll(frames) + rest, first, payload) == Reading(
      if frames[|frames| - 1].opcode == 8 then None
      else Some((Opcode(frames, first), payload + Collected(frames))),
      Pongs(frames), rest)
    decreases |frames|
  {
    hide Read, Encode, ServerFrame, CarriesData, FirstOpcode;
    var f := frames[0];
    var later := EncodeAll(frames[1..]) + rest;
    assert EncodeAll(frames) + rest == Encode(f) + later;
    ReadsOne(f, later, first, payload);
    PingsCarryNothing(first);
    var on := if CarriesData(f.opcode) then payload + f.payload else payload;
    var next := FirstOpcode(first, f.opcode);
    assert on + Collected(frames[1..]) == payload + Collected(frames);
    if |frames| == 1 {
      assert later == rest && frames[1..] == [];
      assert on + [] == on;
    } else {
      assert Ends(frames[1..][|frames| - 2]);
      assert !Ends(f);
      ReadsToTheFirstEnd(frames[1..], rest, next, on);
    }
  }

  // ----- Messages -----

  /**
   Section 5.4: frames spelling out one message, the first of its data frames with its opcode and the others
   continuing it, only the last of them final, with any frames but closes anywhere before that.
   */
  ghost predicate Spells(frames: seq<Frame>, opcode: bv8) {
    frames != [] &&
    var f := frames[0];
    f.Valid() &&
    if !CarriesData(f.opcode) then f.opcode != 8 && Spells(frames[1..], opcode)
    else f.opcode == opcode && (if |frames| == 1 then f.fin else !f.fin && Spells(frames[1..], 0))
  }

  /** No final frame but a ping comes before the last data frame. */
  ghost predicate Undisturbed(frames: seq<Frame>) {
    forall i :: 0 <= i < |frames| - 1 && frames[i].fin ==> frames[i].opcode == 9
  }

  ghost predicate AllValid(frames: seq<Frame>) { forall i :: 0 <= i < |frames| ==> frames[i].Valid() }

  lemma {:induction false} SpellingEnds(frames: seq<Frame>, opcode: bv8, first: Option<bv8>)
    requires Spells(frames, opcode) && (opcode == 0 || ((opcode == 1 || opcode == 2) && first.None?))
    ensures frames != [] && AllValid(frames) && forall i :: 0 <= i < |frames| ==> frames[i].opcode != 8
    ensures frames[|frames| - 1].fin && CarriesData(frames[|frames| - 1].opcode)
    ensures Opcode(frames, first) == if opcode == 0 then first else Some(opcode)
  {
    var f := frames[0];
    assert !CarriesData(f.opcode) ==> FirstOpcode(first, f.opcode) == first;
    if |frames| > 1 {
      SpellingEnds(frames[1..], if CarriesData(f.opcode) then 0 else opcode, FirstOpcode(first, f.opcode));
      assert forall i :: 0 < i < |frames| ==> frames[i] == frames[1..][i - 1];
    } else {
      assert Opcode(frames, first) == Opcode([], FirstOpcode(first, opcode));
    }
  }

  /** Where a read of these frames ends. */
  function FirstEnd(frames: seq<Frame>): (e: nat)
    ensures e <= |frames| && (forall i :: 0 <= i < e ==> !Ends(frames[i])) && (e < |frames| ==> Ends(frames[e]))
  {
    if frames == [] || Ends(frames[0]) then 0 else 1 + FirstEnd(frames[1..])
  }

  lemma {:induction false} EncodeAllJoins(a: seq<Frame>, b: seq<Frame>)
    requires AllValid(a) && AllValid(b)
    ensures AllValid(a + b) && EncodeAll(a + b) == EncodeAll(a) + EncodeAll(b)
  {
    hide Encode;
    if a == [] {
      assert a + b == b;
    } else {
      assert (a + b)[1..] == a[1..] + b;
      EncodeAllJoins(a[1..], b);
    }
  }

  lemma ReadsUpTo(frames: seq<Frame>, e: nat, rest: Bytes)
    requires AllValid(frames) && e < |frames| && Ends(frames[e]) && frames[e].opcode != 8
    requires forall i :: 0 <= i < e ==> !Ends(frames[i])
    ensures var read, left := frames[..e + 1], frames[e + 1..];
      Read(EncodeAll(frames) + rest, None, []) ==
        Reading(Some((Opcode(read, None), Collected(read))), Pongs(read), EncodeAll(left) + rest)
  {
    hide Read, EncodeAll, Opcode, Collected, Pongs, Frame.Valid, Ends;
    var read, left := frames[..e + 1], frames[e + 1..];
    assert frames == read + left;
    EncodeAllJoins(read, left);
    assert EncodeAll(frames) + rest == EncodeAll(read) + (EncodeAll(left) + rest);
    ReadsToTheFirstEnd(read, EncodeAll(left) + rest, None, []);
    assert [] + Collected(read) == Collected(read);
  }

  /** A message is read up to the first frame that ends a read, and what was not reached is left where it is. */
  lemma WhatIsReadOfAMessage(frames: seq<Frame>, opcode: bv8, rest: Bytes)
    requires Spells(frames, opcode) && (opcode == 1 || opcode == 2)
    ensures AllValid(frames) && FirstEnd(frames) < |frames|
    ensures var read, left := frames[..FirstEnd(frames) + 1], frames[FirstEnd(frames) + 1..];
      Read(EncodeAll(frames) + rest, None, []) ==
        Reading(Some((Opcode(read, None), Collected(read))), Pongs(read), EncodeAll(left) + rest)
  {
    hide Read, EncodeAll, Opcode, Collected, Pongs, Spells, Frame.Valid;
    SpellingEnds(frames, opcode, None);
    assert Ends(frames[|frames| - 1]);
    hide Ends;
    ReadsUpTo(frames, FirstEnd(frames), rest);
  }

  /**
   A message, however fragmented, masked, cut up by the socket and interleaved with other frames, is read whole
   (its opcode, its payload, a pong for each ping, the stream left just past it) exactly when no final frame but
   a ping comes before its last data frame.
   */
  lemma MessagesAreReadWhole(frames: seq<Frame>, opcode: bv8, rest: Bytes)
    requires Spells(frames, opcode) && (opcode == 1 || opcode == 2)
    ensures AllValid(frames)
    ensures Undisturbed(frames) <==>
      Read(EncodeAll(frames) + rest, None, []) == Reading(Some((Some(opcode), Collected(frames))), Pongs(frames), rest)
  {
    hide Read, Opcode, Collected, Pongs, Spells, Encode, Frame.Valid, EncodeAll;
    SpellingEnds(frames, opcode, None);
    WhatIsReadOfAMessage(frames, opcode, rest);
    assert Undisturbed(frames) <==> FirstEnd(frames) == |frames| - 1;
    hide Ends, Undisturbed;
    var e := FirstEnd(frames);
    if e == |frames| - 1 {
      assert frames[..e + 1] == frames && frames[e + 1..] == [];
      NothingEncodes(rest);
    } else {
      SomethingIsEncoded(frames[e + 1..]);
    }
  }

  lemma NothingEncodes(rest: Bytes)
    ensures EncodeAll([]) + rest == rest
  {
  }

  lemma SomethingIsEncoded(frames: seq<Frame>)
    requires AllValid(frames) && frames != []
    ensures |EncodeAll(frames)| > 0
  {
  }

  /** Reading inverts `send_frame`, in each of the three encodings of the length. */
  lemma ReadInvertsSend(opcode: bv8, payload: Bytes, rest: Bytes)
    requires (opcode == 1 || opcode == 2) && |payload| < TWO64
    ensures Read(ServerFrame(opcode, payload) + rest, None, []) == Reading(Some((Some(opcode), payload)), [], rest)
  {
    ReadsOne(Frame(true, opcode, None, payload), rest, None, []);
    assert [] + payload == payload;
  }

  /** A pong nobody asked for is such a frame: the message comes back with what had arrived of it. */
  lemma AnUnaskedPongCutsTheMessage(part: Bytes, pong: Bytes, more: Bytes, rest: Bytes)
    requires |part| < TWO64 && |pong| < TWO64 && |more| < TWO64
    ensures var frames := [Frame(false, 1, None, part), Frame(true, 0xA, None, pong), Frame(true, 0, None, more)];
      && Spells(frames, 1) && !Undisturbed(frames)
      && Read(EncodeAll(frames) + rest, None, []) ==
           Reading(Some((Some(1), part)), [], Encode(Frame(true, 0, None, more)) + rest)
  {
    var frames := [Frame(false, 1, None, part), Frame(true, 0xA, None, pong), Frame(true, 0, None, more)];
    hide Read, Encode, EncodeAll;
    assert frames[1..] == [frames[1], frames[2]] && frames[1..][1..] == [frames[2]];
    assert Spells([frames[2]], 0) && Spells(frames[1..], 0);
    assert frames[1].fin;
    WhatIsReadOfAMessage(frames, 1, rest);
    PongEndsThere(frames, part, more);
  }

  lemma PongEndsThere(frames: seq<Frame>, part: Bytes, more: Bytes)
    requires |frames| == 3 && AllValid(frames) && !Ends(frames[0]) && Ends(frames[1]) && frames[1].opcode == 0xA
    requires frames[0].opcode == 1 && frames[0].payload == part
    ensures var read, left := frames[..FirstEnd(frames) + 1], frames[FirstEnd(frames) + 1..];
      && Opcode(read, None) == Some(1) && Collected(read) == part && Pongs(read) == []
      && EncodeAll(left) == Encode(frames[2])
  {
    hide Encode, ServerFrame;
    assert FirstEnd(frames) == 1;
    var read, left := frames[..2], frames[2..];
    var f := frames[1];
    assert read[1..] == [f] && [f][1..] == [] && left == [frames[2]] && left[1..] == [];
    assert !CarriesData(0xA) && FirstOpcode(Some(1), 0xA) == Some(1) && FirstOpcode(None, 1) == Some(1);
    assert Opcode([f], Some(1)) == Opcode([], Some(1)) == Some(1);
    assert Pongs([f]) == [] + Pongs([]) == [];
    assert Collected([f]) == [] && part + [] == part;
    assert Encode(frames[2]) + [] == Encode(frames[2]);
  }

  // ----- Said of the octets alone -----

  /** The octet with the greatest weight comes first: in front of `m` others an octet counts 256^m times. */
  lemma {:induction false} TheFirstOctetWeighsMost(b: bv8, later: Bytes)
    ensures FromBytes([b] + later) == b as nat * Pow256(|later|) + FromBytes(later)
    decreases |later|
  {
    var all := [b] + later;
    if later == [] {
      assert all[..0] == [] && FromBytes(all[..0]) == 0;
    } else {
      assert all[..|all| - 1] == [b] + later[..|later| - 1];
      TheFirstOctetWeighsMost(b, later[..|later| - 1]);
      OneMoreOctet(b as nat, Pow256(|later| - 1));
    }
  }

  lemma OneMoreOctet(b: nat, weight: nat)
    ensures 256 * (b * weight) == b * (256 * weight)
  {
  }

  lemma TwoOctets(bytes: Bytes)
    requires |bytes| == 2
    ensures FromBytes(bytes) == 256 * bytes[0] as nat + bytes[1] as nat
  {
    TheFirstOctetWeighsMost(bytes[0], bytes[1..]);
    assert bytes == [bytes[0]] + bytes[1..] && bytes[1..][..0] == [] && FromBytes([]) == 0;
    assert FromBytes(bytes[1..]) == 256 * FromBytes(bytes[1..][..0]) + bytes[1] as nat;
    assert Pow256(1) == 256 * Pow256(0) == 256;
  }

  lemma SpelledInTwo(n: nat)
    requires n < 65536
    ensures BigEndian(n, 2) == [(n / 256) as bv8, (n % 256) as bv8]
  {
    assert BigEndian(n / 256, 1) == BigEndian(n / 256 / 256, 0) + [(n / 256 % 256) as bv8];
    assert n / 256 % 256 == n / 256;
  }

  /** A length as it is announced: in seven bits, or in two octets behind 126, or in eight behind 127. */
  ghost predicate Spelled(code: nat, ext: Bytes, length: nat) {
    || (code == length < 126 && ext == [])
    || (code == 126 && |ext| == 2 && length == 256 * ext[0] as nat + ext[1] as nat)
    || (code == 127 && |ext| == 8 && length == FromBytes(ext))
  }

  lemma SpelledIsAnnounced(s: Bytes, masked: bool, code: nat, ext: Bytes, length: nat, body: Bytes)
    requires |s| >= 2 && Spelled(code, ext, length) && s[2..] == ext + body
    requires s[1] as nat == (if masked then 128 else 0) + code
    ensures Announced(s) == (length, |ext|) && Drop(s[2..], |ext|) == body
    ensures s[1] & 0x80 != 0 <==> masked
  {
    LowSeven(s[1]);
    assert Take(s[2..], |ext|) == ext;
    if code == 126 { TwoOctets(ext); }
    if code == 127 { EightOctets(ext); }
  }

  /**
   A whole frame on the wire: its first octet is the final bit and the opcode, and each octet of its payload is the
   one that travelled, masked or not, with octet i under octet i mod 4 of the mask.
   */
  lemma AFrameOffItsOctets(
      b0: bv8, b1: bv8, code: nat, ext: Bytes, mask: Option<Bytes>, wire: Bytes, rest: Bytes)
    requires mask.Some? ==> |mask.value| == 4
    requires Spelled(code, ext, |wire|) && b1 as nat == (if mask.Some? then 128 else 0) + code
    ensures var got := GetFrame([b0, b1] + ext + (if mask.Some? then mask.value else []) + wire + rest);
      && (got.fin <==> b0 as nat >= 128) && got.opcode == b0 & 0x0F && got.rest == rest && |got.data| == |wire|
      && (forall i :: 0 <= i < |wire| ==>
            got.data[i] == if mask.Some? then wire[i] ^ mask.value[i % 4] else wire[i])
  {
    hide GetFrame, GetBody, Announced, Spelled;
    var key := if mask.Some? then mask.value else [];
    var s := [b0, b1] + ext + key + wire + rest;
    assert s[2..] == ext + (key + wire + rest);
    SpelledIsAnnounced(s, mask.Some?, code, ext, |wire|, key + wire + rest);
    FrameIsRead(s);
    HighBit(b0);
    BodyOffItsOctets(mask, wire, rest);
  }

  lemma BodyOffItsOctets(mask: Option<Bytes>, wire: Bytes, rest: Bytes)
    requires mask.Some? ==> |mask.value| == 4
    ensures var (data, left) :=
        GetBody((if mask.Some? then mask.value else []) + wire + rest, |wire|, mask.Some?);
      && left == rest && |data| == |wire|
      && (forall i :: 0 <= i < |wire| ==> data[i] == if mask.Some? then wire[i] ^ mask.value[i % 4] else wire[i])
  {
    var s := (if mask.Some? then mask.value else []) + wire + rest;
    if mask.Some? {
      assert Take(s, 4) == mask.value && Drop(s, 4) == wire + rest;
    }
    assert Take(wire + rest, |wire|) == wire && Drop(wire + rest, |wire|) == rest;
  }

  /** Such as two letters under the mask 1, 2, 3, 4. */
  lemma TwoLettersAreUnmasked()
    ensures Read([0x81, 0x82, 1, 2, 3, 4, 0x49, 0x6B], None, []) ==
      Reading(Some((Some(1), [0x48, 0x69])), [], [])
  {
    hide GetFrame;
    var mask: Bytes, wire: Bytes := [1, 2, 3, 4], [0x49, 0x6B];
    var s: Bytes := [0x81, 0x82, 1, 2, 3, 4, 0x49, 0x6B];
    AFrameOffItsOctets(0x81, 0x82, 2, [], Some(mask), wire, []);
    assert s == [0x81, 0x82] + [] + mask + wire + [];
    var got := GetFrame(s);
    assert got.data[0] == wire[0] ^ mask[0 % 4] == 0x49 ^ 1;
    assert got.data[1] == wire[1] ^ mask[1 % 4] == 0x6B ^ 2;
    assert got.data == [0x48, 0x69];
    assert [] + got.data == got.data;
  }

  lemma ServerFrameIs(opcode: bv8, payload: Bytes)
    requires opcode <= 0x0F && |payload| < TWO64
    ensures ServerFrame(opcode, payload) ==
      [0x80 | opcode] + ([Length7(|payload|) as bv8] + LengthRest(|payload|)) + payload
  {
    hide LengthRest, Length7;
    NoMaskBit(Length7(|payload|) as bv8);
  }

  lemma SpelledInTwoOrEight(n: nat)
    ensures [Length7(n) as bv8] + LengthRest(n) ==
      if n < 126 then [n as bv8]
      else if n < 65536 then [126, (n / 256) as bv8, (n % 256) as bv8]
      else [127] + BigEndian(n, 8)
  {
    hide BigEndian;
    if n < 65536 { SpelledInTwo(n); }
  }

  /** What is sent: a final bit and the opcode, the length in its shortest form, no mask, the payload as it is. */
  lemma ServerOctets(opcode: bv8, payload: Bytes)
    requires opcode <= 0x0F && |payload| < TWO64
    ensures ServerFrame(opcode, payload) ==
      [0x80 | opcode]
      + (if |payload| < 126 then [|payload| as bv8]
         else if |payload| < 65536 then [126, (|payload| / 256) as bv8, (|payload| % 256) as bv8]
         else [127] + BigEndian(|payload|, 8))
      + payload
  {
    hide BigEndian;
    SpelledInTwoOrEight(|payload|);
    hide LengthRest, Length7;
    ServerFrameIs(opcode, payload);
  }

  function Payloads(frames: seq<Frame>): seq<Bytes> {
    seq(|frames|, i requires 0 <= i < |frames| => frames[i].payload)
  }

  lemma {:induction false} ContinuationsAreJoined(frames: seq<Frame>, rest: Bytes, opcode: bv8, sofar: Bytes)
    requires frames != [] && AllValid(frames) && forall i :: 0 <= i < |frames| ==> frames[i].opcode == 0
    requires forall i :: 0 <= i < |frames| ==> (frames[i].fin <==> i == |frames| - 1)
    ensures Read(EncodeAll(frames) + rest, Some(opcode), sofar) ==
      Reading(Some((Some(opcode), sofar + Sequences.Flat(Payloads(frames)))), [], rest)
    decreases |frames|
  {
    hide Read, Encode, Frame.Valid;
    var f, later := frames[0], frames[1..];
    assert frames == [f] + later;
    FragmentIsAdded(f, later, rest, Some(opcode), sofar);
    OnePayload(f, later);
    var on := sofar + f.payload;
    assert on + Sequences.Flat(Payloads(later)) == sofar + Sequences.Flat(Payloads(frames));
    if later == [] {
      assert on + [] == on;
    } else {
      ContinuationsAreJoined(later, rest, opcode, on);
    }
  }

  lemma OnePayload(f: Frame, later: seq<Frame>)
    ensures Sequences.Flat(Payloads([f] + later)) == f.payload + Sequences.Flat(Payloads(later))
    ensures Sequences.Flat(Payloads([])) == []
  {
    assert Payloads([f] + later)[1..] == Payloads(later);
  }

  lemma FragmentIsAdded(f: Frame, later: seq<Frame>, rest: Bytes, first: Option<bv8>, sofar: Bytes)
    requires f.Valid() && AllValid(later)
    requires (f.opcode == 0 && first.Some?) || ((f.opcode == 1 || f.opcode == 2) && first.None?)
    requires f.fin ==> later == []
    ensures AllValid([f] + later)
    ensures var opcode := if first.Some? then first else Some(f.opcode);
      Read(EncodeAll([f] + later) + rest, first, sofar) ==
        if f.fin then Reading(Some((opcode, sofar + f.payload)), [], rest)
        else Read(EncodeAll(later) + rest, opcode, sofar + f.payload)
  {
    hide Read, Encode, ServerFrame;
    assert ([f] + later)[1..] == later;
    assert EncodeAll([f] + later) + rest == Encode(f) + (EncodeAll(later) + rest);
    ReadsOne(f, EncodeAll(later) + rest, first, sofar);
    if f.fin { NothingEncodes(rest); }
  }

  /** A fragmented message comes back as its fragments, one after the other, under the opcode of the first. */
  lemma FragmentsAreJoined(frames: seq<Frame>, opcode: bv8, rest: Bytes)
    requires frames != [] && AllValid(frames) && (opcode == 1 || opcode == 2)
    requires forall i :: 0 <= i < |frames| ==> frames[i].opcode == if i == 0 then opcode else 0
    requires forall i :: 0 <= i < |frames| ==> (frames[i].fin <==> i == |frames| - 1)
    ensures Read(EncodeAll(frames) + rest, None, []) ==
      Reading(Some((Some(opcode), Sequences.Flat(Payloads(frames)))), [], rest)
  {
    hide Read, Encode, Frame.Valid;
    var f, later := frames[0], frames[1..];
    assert frames == [f] + later;
    FragmentIsAdded(f, later, rest, None, []);
    OnePayload(f, later);
    assert [] + f.payload == f.payload;
    if later != [] {
      ContinuationsAreJoined(later, rest, opcode, f.payload);
    } else {
      assert f.payload + [] == f.payload;
    }
  }
}
