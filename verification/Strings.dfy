/**
 Cutting a text at every occurrence of a separator, as `str::split` and `str.split` do, and joining it again;
 trimming; and the order texts sort in.
 */
module Strings {
  import opened Outcomes

  function Split(s: string, sep: char): (pieces: seq<string>)
    ensures pieces != []
  {
    if s == "" then [""]
    else if s[0] == sep then [""] + Split(s[1..], sep)
    else var pieces := Split(s[1..], sep); [[s[0]] + pieces[0]] + pieces[1..]
  }

  function Join(pieces: seq<string>, sep: char): string {
    if pieces == [] then "" else if |pieces| == 1 then pieces[0] else pieces[0] + [sep] + Join(pieces[1..], sep)
  }

  lemma {:induction false} SplitPiece(piece: string, rest: string, sep: char)
    requires sep !in piece
    ensures Split(piece, sep) == [piece]
    ensures Split(piece + [sep] + rest, sep) == [piece] + Split(rest, sep)
  {
    var s := piece + [sep] + rest;
    if piece == "" {
      assert s[1..] == rest;
    } else {
      assert s[1..] == piece[1..] + [sep] + rest;
      SplitPiece(piece[1..], rest, sep);
      assert [piece[0]] + piece[1..] == piece;
    }
  }

  /** Pieces free of the separator come back as they were joined. */
  lemma {:induction false} SplitInvertsJoin(pieces: seq<string>, sep: char)
    requires pieces != [] && forall piece :: piece in pieces ==> sep !in piece
    ensures Split(Join(pieces, sep), sep) == pieces
  {
    if |pieces| == 1 {
      SplitPiece(pieces[0], "", sep);
    } else {
      assert pieces[0] in pieces && forall piece :: piece in pieces[1..] ==> piece in pieces;
      SplitPiece(pieces[0], Join(pieces[1..], sep), sep);
      SplitInvertsJoin(pieces[1..], sep);
    }
  }

  /** What comes before the first separator, and what after it: `split_once`. */
  function SplitOnce(s: string, sep: char): (string, Option<string>) {
    if s == "" then ("", None)
    else if s[0] == sep then ("", Some(s[1..]))
    else var (before, after) := SplitOnce(s[1..], sep); ([s[0]] + before, after)
  }

  lemma {:induction false} SplitOnceAtFirst(before: string, after: string, sep: char)
    requires sep !in before
    ensures SplitOnce(before, sep) == (before, None)
    ensures SplitOnce(before + [sep] + after, sep) == (before, Some(after))
  {
    var s := before + [sep] + after;
    if before == "" {
      assert s[1..] == after;
    } else {
      assert s[1..] == before[1..] + [sep] + after;
      SplitOnceAtFirst(before[1..], after, sep);
      assert [before[0]] + before[1..] == before;
    }
  }

  /** What Python's `str.isspace` says of a character. */
  predicate IsSpace(c: char) {
    '\U{09}' <= c <= '\U{0d}' || '\U{1c}' <= c <= ' ' || c == '\U{85}' || c == '\U{a0}' || c == '\U{1680}'
    || '\U{2000}' <= c <= '\U{200a}' || c == '\U{2028}' || c == '\U{2029}' || c == '\U{202f}' || c == '\U{205f}'
    || c == '\U{3000}'
  }

  /** `rstrip` and `trim_end`: without the trailing characters that `space` names. */
  function TrimEnd(s: string, space: char -> bool): string {
    if s != "" && space(s[|s| - 1]) then TrimEnd(s[..|s| - 1], space) else s
  }

  function TrimStart(s: string, space: char -> bool): string {
    if s != "" && space(s[0]) then TrimStart(s[1..], space) else s
  }

  lemma {:induction false} TrimStartDrops(pad: string, s: string, space: char -> bool)
    requires (forall i :: 0 <= i < |pad| ==> space(pad[i])) && (s == "" || !space(s[0]))
    ensures TrimStart(pad + s, space) == s
  {
    if pad == "" {
      assert pad + s == s;
    } else {
      assert (pad + s)[1..] == pad[1..] + s;
      TrimStartDrops(pad[1..], s, space);
    }
  }

  lemma {:induction false} TrimEndDrops(s: string, pad: string, space: char -> bool)
    requires (s == "" || !space(s[|s| - 1])) && forall i :: 0 <= i < |pad| ==> space(pad[i])
    ensures TrimEnd(s + pad, space) == s
  {
    if pad == "" {
      assert s + pad == s;
    } else {
      assert (s + pad)[..|s + pad| - 1] == s + pad[..|pad| - 1];
      TrimEndDrops(s, pad[..|pad| - 1], space);
    }
  }

  lemma {:induction false} TrimEndKeeps(s: string, tail: string, space: char -> bool)
    requires s != "" && !space(s[|s| - 1])
    ensures TrimEnd(s + tail, space) == s + TrimEnd(tail, space)
    decreases |tail|
  {
    if tail == "" {
      assert s + tail == s;
    } else {
      assert (s + tail)[..|s + tail| - 1] == s + tail[..|tail| - 1];
      TrimEndKeeps(s, tail[..|tail| - 1], space);
    }
  }

  /** `strip` */
  function Trim(s: string): string { TrimEnd(TrimStart(s, IsSpace), IsSpace) }

  predicate Bare(s: string) { s == "" || (!IsSpace(s[0]) && !IsSpace(s[|s| - 1])) }

  lemma BareIsKept(s: string)
    requires Bare(s)
    ensures Trim(s) == s
  {
  }

  // ----- The order texts sort in -----

  predicate Below(a: string, b: string) {
    if b == "" then false
    else if a == "" then true
    else if a[0] != b[0] then a[0] < b[0]
    else Below(a[1..], b[1..])
  }

  lemma {:induction false} BelowIsTotal(a: string, b: string)
    ensures a == b || Below(a, b) || Below(b, a)
    ensures Below(a, b) ==> a != b && !Below(b, a)
  {
    if a != "" && b != "" {
      BelowIsTotal(a[1..], b[1..]);
      assert a == [a[0]] + a[1..] && b == [b[0]] + b[1..];
    }
  }

  lemma {:induction false} BelowIsTransitive(a: string, b: string, c: string)
    requires Below(a, b) && Below(b, c)
    ensures Below(a, c)
  {
    if a != "" && b != "" && a[0] == b[0] && c[0] == b[0] { BelowIsTransitive(a[1..], b[1..], c[1..]); }
  }
}
