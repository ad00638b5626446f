/**
 The escape grammar (section 5.4 of ECMA-48, with xterm's strings and charset selections) that
 `ansi_strip` and `render_screen` of conformance/shared/common.py both scan by index, as a
 tokenisation of the text, and `ansi_strip` itself.
 */
module EscapeTokens {
  const ESC := '\U{1b}'
  const BEL := '\U{07}'

  datatype Token =
    | Char(c: char)
    | Csi(params: string, final: char)
    | OpenCsi(params: string)                             // the text ends before a final byte
    | ControlString(kind: char, body: string, bel: bool)  // DCS, PM, APC, SOS, OSC, to BEL or ST
    | OpenString(kind: char, body: string)
    | Charset(kind: char, which: char)
    | OpenCharset(kind: char)
    | Short(c: char)                                      // any other escape is two characters
    | LoneEsc                                             // the last character of the text
  {
    function Raw(): (raw: string)
      ensures raw != ""
    {
      match this
      case Char(c) => [c]
      case Csi(params, final) => [ESC, '['] + params + [final]
      case OpenCsi(params) => [ESC, '['] + params
      case ControlString(kind, body, bel) => [ESC, kind] + body + Terminator(bel)
      case OpenString(kind, body) => [ESC, kind] + body
      case Charset(kind, which) => [ESC, kind, which]
      case OpenCharset(kind) => [ESC, kind]
      case Short(c) => [ESC, c]
      case LoneEsc => [ESC]
    }

    /** Nothing that follows can become part of it. */
    predicate Complete() {
      !OpenCsi? && !OpenString? && !OpenCharset? && !LoneEsc?
    }

    predicate WellFormed() {
      match this
      case Char(c) => c != ESC
      case Csi(params, final) => IsFinal(final) && UntilFinal(params) == |params|
      case OpenCsi(params) => UntilFinal(params) == |params|
      case ControlString(kind, body, bel) => IsStringKind(kind) && UntilEnd(body + Terminator(bel)) == |body|
      case OpenString(kind, body) => IsStringKind(kind) && UntilEnd(body) == |body|
      case Charset(kind, which) => IsCharsetKind(kind)
      case OpenCharset(kind) => IsCharsetKind(kind)
      case Short(c) => c != '[' && !IsStringKind(c) && !IsCharsetKind(c)
      case LoneEsc => true
    }
  }

  function Terminator(bel: bool): string {
    if bel then [BEL] else [ESC, '\\']
  }

  predicate IsFinal(c: char) {
    '\U{40}' <= c <= '\U{7e}'
  }

  predicate IsStringKind(c: char) {
    c == 'P' || c == '^' || c == '_' || c == 'X' || c == ']'
  }

  predicate IsCharsetKind(c: char) {
    c == '(' || c == ')' || c == '#' || c == '%' || c == '*' || c == '+'
  }

  predicate EndsAt(s: string, k: nat)
    requires k < |s|
  {
    s[k] == BEL || (s[k] == ESC && k + 1 < |s| && s[k + 1] == '\\')
  }

  function UntilFinal(s: string): (k: nat)
    ensures k <= |s| && (forall i :: 0 <= i < k ==> !IsFinal(s[i])) && (k < |s| ==> IsFinal(s[k]))
  {
    if s == "" || IsFinal(s[0]) then 0 else 1 + UntilFinal(s[1..])
  }

  function UntilEnd(s: string): (k: nat)
    ensures k <= |s| && (forall i :: 0 <= i < k ==> !EndsAt(s, i)) && (k < |s| ==> EndsAt(s, k))
  {
    if s == "" || EndsAt(s, 0) then 0 else
      var k := UntilEnd(s[1..]);
      assert forall i :: 0 < i < |s| ==> (EndsAt(s, i) <==> EndsAt(s[1..], i - 1));
      1 + k
  }

  /** The token at the front of a text. */
  function Next(s: string): (token: Token)
    requires s != ""
  {
    if s[0] != ESC then Char(s[0])
    else if |s| == 1 then LoneEsc
    else if s[1] == '[' then
      var t := s[2..];
      var k := UntilFinal(t);
      if k < |t| then Csi(t[..k], t[k]) else OpenCsi(t)
    else if IsStringKind(s[1]) then
      var t := s[2..];
      var k := UntilEnd(t);
      if k < |t| then ControlString(s[1], t[..k], t[k] == BEL) else OpenString(s[1], t)
    else if IsCharsetKind(s[1]) then
      if 2 < |s| then Charset(s[1], s[2]) else OpenCharset(s[1])
    else Short(s[1])
  }

  lemma FinalIsFirst(s: string, k: nat)
    requires k <= |s| && (forall i :: 0 <= i < k ==> !IsFinal(s[i])) && (k < |s| ==> IsFinal(s[k]))
    ensures UntilFinal(s) == k
  {
  }

  lemma EndIsFirst(s: string, k: nat)
    requires k <= |s| && (forall i :: 0 <= i < k ==> !EndsAt(s, i)) && (k < |s| ==> EndsAt(s, k))
    ensures UntilEnd(s) == k
  {
  }

  lemma EndWithin(s: string, m: nat)
    requires m <= |s| && UntilEnd(s) < m && (s[UntilEnd(s)] == ESC ==> UntilEnd(s) + 1 < m)
    ensures UntilEnd(s[..m]) == UntilEnd(s)
  {
    var k := UntilEnd(s);
    forall i | 0 <= i < k ensures !EndsAt(s[..m], i) {
      assert !EndsAt(s, i);
    }
    EndIsFirst(s[..m], k);
  }

  lemma EndBeyond(s: string, rest: string)
    requires UntilEnd(s) < |s|
    ensures UntilEnd(s + rest) == UntilEnd(s)
  {
    var k := UntilEnd(s);
    forall i | 0 <= i < k ensures !EndsAt(s + rest, i) {
      assert !EndsAt(s, i);
    }
    EndIsFirst(s + rest, k);
  }

  lemma StringIsPrefix(s: string)
    requires |s| > 1 && s[0] == ESC && IsStringKind(s[1])
    ensures var raw := Next(s).Raw();
      Next(s).WellFormed() && raw <= s && (!Next(s).Complete() ==> raw == s)
  {
    hide UntilEnd, Next;
    var t := s[2..];
    var k := UntilEnd(t);
    assert s == [ESC, s[1]] + t;
    NextOfStringKind(s[1], t);
    if k < |t| {
      var bel := t[k] == BEL;
      var m := k + |Terminator(bel)|;
      assert t[..m] == t[..k] + Terminator(bel);
      EndWithin(t, m);
      assert Next(s).Raw() == [ESC, s[1]] + t[..m];
    }
  }

  lemma CsiIsPrefix(s: string)
    requires |s| > 1 && s[0] == ESC && s[1] == '['
    ensures var raw := Next(s).Raw();
      Next(s).WellFormed() && raw <= s && (!Next(s).Complete() ==> raw == s)
  {
    var t := s[2..];
    var k := UntilFinal(t);
    assert s == [ESC, '['] + t;
    if k < |t| {
      FinalIsFirst(t[..k], k);
      assert t[..k + 1] == t[..k] + [t[k]];
      assert Next(s).Raw() == [ESC, '['] + t[..k + 1];
    }
  }

  /** The front token is a well-formed prefix of the text, and incomplete only when it is all of it. */
  lemma NextIsPrefix(s: string)
    requires s != ""
    ensures var raw := Next(s).Raw();
      Next(s).WellFormed() && raw <= s && (!Next(s).Complete() ==> raw == s)
  {
    if |s| > 1 && s[0] == ESC {
      if s[1] == '[' { CsiIsPrefix(s); } else if IsStringKind(s[1]) { StringIsPrefix(s); }
    }
  }

  lemma NextOfStringKind(kind: char, t: string)
    requires IsStringKind(kind)
    ensures var k := UntilEnd(t);
      Next([ESC, kind] + t) == (if k < |t| then ControlString(kind, t[..k], t[k] == BEL) else OpenString(kind, t))
  {
    hide UntilEnd;
    assert ([ESC, kind] + t)[2..] == t;
  }

  lemma NextOfString(token: Token, rest: string)
    requires token.ControlString? && token.WellFormed()
    ensures Next(token.Raw() + rest) == token
  {
    hide Next, UntilEnd;
    var closed := token.body + Terminator(token.bel);
    EndBeyond(closed, rest);
    NextOfStringKind(token.kind, closed + rest);
    assert token.Raw() + rest == [ESC, token.kind] + (closed + rest);
    assert (closed + rest)[..|token.body|] == token.body;
  }

  lemma NextOfCsi(token: Token, rest: string)
    requires token.Csi? && token.WellFormed()
    ensures Next(token.Raw() + rest) == token
  {
    var s := token.Raw() + rest;
    var k := |token.params|;
    var t := token.params + [token.final] + rest;
    assert s[2..] == t;
    FinalIsFirst(t, k);
    assert t[..k] == token.params;
  }

  /** A token is what is found at the front of its own text, whatever follows once it is complete. */
  lemma NextOfRaw(token: Token, rest: string)
    requires token.WellFormed() && (token.Complete() || rest == "")
    ensures Next(token.Raw() + rest) == token
  {
    match token
    case Csi(_, _) => NextOfCsi(token, rest);
    case ControlString(_, _, _) => NextOfString(token, rest);
    case OpenCsi(params) => assert (token.Raw() + rest)[2..] == params;
    case OpenString(_, body) => assert (token.Raw() + rest)[2..] == body;
    case _ =>
  }

  // ----- Whole texts -----

  function Tokens(s: string): seq<Token>
    decreases |s|
  {
    if s == "" then [] else [Next(s)] + Tokens(s[|Next(s).Raw()|..])
  }

  function Raws(tokens: seq<Token>): string {
    if tokens == [] then "" else tokens[0].Raw() + Raws(tokens[1..])
  }

  /** The characters that are no part of an escape, in order. */
  function Plain(tokens: seq<Token>): string {
    if tokens == [] then "" else
      (if tokens[0].Char? then [tokens[0].c] else "") + Plain(tokens[1..])
  }

  /** Well-formed, and only the last may be cut off by the end of the text. */
  predicate Tokenised(tokens: seq<Token>) {
    && (forall i :: 0 <= i < |tokens| ==> tokens[i].WellFormed())
    && (forall i :: 0 <= i < |tokens| - 1 ==> tokens[i].Complete())
  }

  predicate EndsOnBoundary(s: string) {
    var tokens := Tokens(s);
    tokens == [] || tokens[|tokens| - 1].Complete()
  }

  /** Every text is the concatenation of its tokens. */
  lemma {:induction false} TokensAreTheText(s: string)
    ensures Tokenised(Tokens(s)) && Raws(Tokens(s)) == s
    decreases |s|
  {
    hide Next, Token.Raw, Token.WellFormed, Token.Complete;
    if s != "" {
      NextIsPrefix(s);
      var rest := s[|Next(s).Raw()|..];
      TokensAreTheText(rest);
      assert s == Next(s).Raw() + rest;
    }
  }

  /** And it is the concatenation of no other tokens. */
  lemma {:induction false} TokensAreUnique(tokens: seq<Token>)
    requires Tokenised(tokens)
    ensures Tokens(Raws(tokens)) == tokens
  {
    hide Next, Token.Raw, Token.WellFormed, Token.Complete;
    if tokens != [] {
      var rest := Raws(tokens[1..]);
      if |tokens| == 1 { assert rest == ""; }
      NextOfRaw(tokens[0], rest);
      assert Raws(tokens)[|tokens[0].Raw()|..] == rest;
      TokensAreUnique(tokens[1..]);
    }
  }

  lemma {:induction false} RawsAppend(a: seq<Token>, b: seq<Token>)
    ensures Raws(a + b) == Raws(a) + Raws(b)
  {
    if a == [] {
      assert a + b == b;
    } else {
      assert (a + b)[1..] == a[1..] + b;
      RawsAppend(a[1..], b);
    }
  }

  lemma {:induction false} PlainAppend(a: seq<Token>, b: seq<Token>)
    ensures Plain(a + b) == Plain(a) + Plain(b)
  {
    if a == [] {
      assert a + b == b;
    } else {
      assert (a + b)[1..] == a[1..] + b;
      PlainAppend(a[1..], b);
    }
  }

  /** Scanning a text that ends on a token boundary can be taken up from there. */
  lemma TokensResume(a: string, b: string)
    requires EndsOnBoundary(a)
    ensures Tokens(a + b) == Tokens(a) + Tokens(b)
  {
    hide Tokens, Raws;
    TokensAreTheText(a);
    TokensAreTheText(b);
    RawsAppend(Tokens(a), Tokens(b));
    TokenisedAppend(Tokens(a), Tokens(b));
    TokensAreUnique(Tokens(a) + Tokens(b));
  }

  lemma TokenisedAppend(a: seq<Token>, b: seq<Token>)
    requires Tokenised(a) && Tokenised(b) && (a == [] || a[|a| - 1].Complete())
    ensures Tokenised(a + b)
  {
    hide Token.WellFormed, Token.Complete;
  }

  // ----- ansi_strip -----

  /** What `ansi_strip` returns (see `AnsiStrip`). */
  function Strip(text: string): string {
    Plain(Tokens(text))
  }

  /** What is left of a text once the scan has reached `i`, which may be past the end. */
  function From(text: string, i: nat): string {
    if i < |text| then text[i..] else ""
  }

  lemma FromEdges(text: string, i: nat)
    requires |text| <= i
    ensures From(text, 0) == text && Tokens(From(text, i)) == [] && Strip(From(text, i)) == ""
  {
  }

  method AnsiStrip(text: string) returns (plain: string)
    ensures plain == Strip(text)
  {
    hide Next, Strip, Tokens, Plain, End, From;
    plain := "";
    var i, n := 0, |text|;
    FromEdges(text, n);
    while i < n
      invariant plain + Strip(From(text, i)) == Strip(text)
      decreases n - i
    {
      StripNext(text, i);
      Spans(text, i);
      var ch := text[i];
      if ch == ESC {
        if i + 1 >= n {
          i := i + 1;
          continue;
        }
        var nxt := text[i + 1];
        if nxt == '[' {
          var j := FindFinal(text, i);
          i := j + 1;
        } else if IsStringKind(nxt) {
          i := SkipString(text, i);
        } else if IsCharsetKind(nxt) {
          i := i + 3;
        } else {
          i := i + 2;
        }
      } else {
        plain := plain + [ch];
        i := i + 1;
      }
    }
    FromEdges(text, i);
  }

  /** The inner loop over a CSI, which both scanners carry. */
  method FindFinal(text: string, i: nat) returns (j: nat)
    requires i + 1 < |text| && text[i] == ESC && text[i + 1] == '['
    ensures i + 2 <= j <= |text|
    ensures Next(text[i..]) == if j < |text| then Csi(text[i + 2..j], text[j]) else OpenCsi(text[i + 2..])
    ensures From(text, j + 1) == From(text, End(text, i))
  {
    var n := |text|;
    j := i + 2;
    while j < n && (text[j] < '\U{40}' || text[j] > '\U{7e}')
      invariant i + 2 <= j <= n
      invariant forall k :: i + 2 <= k < j ==> !IsFinal(text[k])
    {
      j := j + 1;
    }
    CsiSpan(text, i, j);
  }

  /** The inner loop over a control string, which both scanners carry. */
  method SkipString(text: string, i: nat) returns (j: nat)
    requires i + 1 < |text| && text[i] == ESC && IsStringKind(text[i + 1])
    ensures j == End(text, i) && i < j && !Next(text[i..]).Csi?
  {
    hide Next, End, UntilEnd;
    j := i + 2;
    ghost var t := text[i + 2..];
    ghost var end := UntilEnd(t);
    var n := |text|;
    StringSpan(text, i);
    while j < n
      invariant i + 2 <= j <= n && j - (i + 2) <= end
    {
      if text[j] == BEL {
        assert EndsAt(t, j - (i + 2));
        j := j + 1;
        return;
      }
      if text[j] == ESC && j + 1 < n && text[j + 1] == '\\' {
        assert EndsAt(t, j - (i + 2));
        j := j + 2;
        return;
      }
      assert !EndsAt(t, j - (i + 2));
      j := j + 1;
    }
  }

  lemma StringSpan(text: string, i: nat)
    requires i + 1 < |text| && text[i] == ESC && IsStringKind(text[i + 1])
    ensures var t := text[i + 2..]; var k := UntilEnd(t);
      && !Next(text[i..]).Csi?
      && End(text, i) == i + 2 + k + if k == |t| then 0 else if t[k] == BEL then 1 else 2
  {
    hide UntilEnd, Next;
    var t := text[i + 2..];
    assert text[i..] == [ESC, text[i + 1]] + t;
    NextOfStringKind(text[i + 1], t);
  }

  /** Where the token at `i` ends. */
  function End(text: string, i: nat): nat
    requires i < |text|
  {
    i + |Next(text[i..]).Raw()|
  }

  /** Where the scan for a final byte stops is where the token does. */
  lemma CsiSpan(text: string, i: nat, j: nat)
    requires i + 2 <= j <= |text| && text[i] == ESC && text[i + 1] == '['
    requires forall k :: i + 2 <= k < j ==> !IsFinal(text[k])
    requires j < |text| ==> IsFinal(text[j])
    ensures Next(text[i..]) == if j < |text| then Csi(text[i + 2..j], text[j]) else OpenCsi(text[i + 2..])
    ensures From(text, j + 1) == From(text, End(text, i))
  {
    var t := text[i..][2..];
    assert t == text[i + 2..];
    FinalIsFirst(t, j - (i + 2));
    assert t[..j - (i + 2)] == text[i + 2..j];
  }

  /** The tokens whose length the character after the ESC decides. */
  lemma Spans(text: string, i: nat)
    requires i < |text|
    ensures text[i] != ESC ==> Next(text[i..]) == Char(text[i]) && End(text, i) == i + 1
    ensures text[i] == ESC ==> !Next(text[i..]).Char?
    ensures text[i] == ESC && i + 1 == |text| ==> Next(text[i..]) == LoneEsc && End(text, i) == i + 1
    ensures text[i] == ESC && i + 1 < |text| && IsCharsetKind(text[i + 1]) ==>
      !Next(text[i..]).Csi? && From(text, End(text, i)) == From(text, i + 3)
    ensures (text[i] == ESC && i + 1 < |text| && text[i + 1] != '['
             && !IsCharsetKind(text[i + 1]) && !IsStringKind(text[i + 1])) ==>
      Next(text[i..]) == Short(text[i + 1]) && End(text, i) == i + 2
  {
  }

  /** The scan moves on by one token; an index past the end is as good as the end. */
  lemma StripNext(text: string, i: nat)
    requires i < |text|
    ensures var token := Next(text[i..]); var end := End(text, i);
      && end <= |text|
      && Tokens(From(text, i)) == [token] + Tokens(From(text, end))
      && (if token.Char? then [token.c] + Strip(From(text, end)) else Strip(From(text, end))) == Strip(From(text, i))
  {
    NextIsPrefix(text[i..]);
    var end := End(text, i);
    assert text[i..][|Next(text[i..]).Raw()|..] == From(text, end);
    assert Tokens(From(text, i))[1..] == Tokens(From(text, end));
  }

  // ----- What stripping promises -----

  predicate Subsequence(a: string, b: string)
    decreases |b|
  {
    if b == "" then a == "" else
      Subsequence(a, b[1..]) || (a != "" && a[0] == b[0] && Subsequence(a[1..], b[1..]))
  }

  lemma {:induction false} SubsequenceOfMore(a: string, more: string, b: string)
    requires Subsequence(a, b)
    ensures Subsequence(a, more + b)
  {
    if more == "" {
      assert more + b == b;
    } else {
      assert (more + b)[1..] == more[1..] + b;
      SubsequenceOfMore(a, more[1..], b);
    }
  }

  lemma StripFront(text: string)
    requires text != ""
    ensures var token := Next(text); var rest := text[|token.Raw()|..];
      && token.WellFormed() && |rest| < |text| && text == token.Raw() + rest
      && Strip(text) == if token.Char? then [token.c] + Strip(rest) else Strip(rest)
  {
    hide Next, Token.Raw, Token.WellFormed, Token.Complete;
    NextIsPrefix(text);
    assert Tokens(text)[1..] == Tokens(text[|Next(text).Raw()|..]);
  }

  /** `ansi_strip` drops every ESC. */
  lemma {:induction false} StripDropsEscapes(text: string)
    ensures ESC !in Strip(text)
    decreases |text|
  {
    if text != "" {
      StripFront(text);
      StripDropsEscapes(text[|Next(text).Raw()|..]);
    }
  }

  /** And it only drops characters. */
  lemma {:induction false} StripOnlyDrops(text: string)
    ensures Subsequence(Strip(text), text)
    decreases |text|
  {
    if text != "" {
      StripFront(text);
      var token := Next(text);
      var rest := text[|token.Raw()|..];
      StripOnlyDrops(rest);
      if token.Char? {
        assert Strip(text)[1..] == Strip(rest) && text[1..] == rest;
      } else {
        SubsequenceOfMore(Strip(rest), token.Raw(), rest);
      }
    }
  }

  lemma {:induction false} PlainTextIsKept(text: string)
    requires ESC !in text
    ensures Strip(text) == text
    decreases |text|
  {
    if text != "" {
      StripFront(text);
      PlainTextIsKept(text[1..]);
    }
  }

  /** Stripping twice strips no more, and a text is left alone exactly when it holds no ESC. */
  lemma StripIsIdempotent(text: string)
    ensures Strip(Strip(text)) == Strip(text)
    ensures Strip(text) == text <==> ESC !in text
  {
    StripDropsEscapes(text);
    PlainTextIsKept(Strip(text));
    if ESC !in text { PlainTextIsKept(text); }
  }

  /** What becomes of a cut-off token when an `A` follows it after all. */
  function Swallowing(token: Token): Token
    requires !token.Complete()
  {
    match token
    case OpenCsi(params) => Csi(params, 'A')
    case OpenString(kind, body) => OpenString(kind, body + "A")
    case OpenCharset(kind) => Charset(kind, 'A')
    case LoneEsc => Short('A')
  }

  lemma SwallowingIsWellFormed(token: Token)
    requires token.WellFormed() && !token.Complete()
    ensures Swallowing(token).WellFormed() && Swallowing(token).Raw() == token.Raw() + "A"
  {
    if token.OpenString? {
      var body := token.body + "A";
      forall i | 0 <= i < |body| ensures !EndsAt(body, i) {
        assert i < |token.body| ==> !EndsAt(token.body, i);
      }
      EndIsFirst(body, |body|);
    }
  }

  lemma StripOfRaws(tokens: seq<Token>)
    requires Tokenised(tokens)
    ensures Strip(Raws(tokens)) == Plain(tokens)
  {
    hide Tokens, Raws, Plain;
    TokensAreUnique(tokens);
  }

  lemma CutOffSwallows(init: seq<Token>, last: Token)
    requires Tokenised(init + [last]) && !last.Complete()
    ensures Strip(Raws(init + [last]) + "A") == Strip(Raws(init + [last]))
  {
    hide Strip, Raws, Plain, Token.Raw, Token.WellFormed;
    var grown := Swallowing(last);
    assert (init + [last])[|init|] == last;
    SwallowingIsWellFormed(last);
    GrownIsTokenised(init, last, grown);
    StripOfRaws(init + [last]);
    StripOfRaws(init + [grown]);
    LastToken(init, last);
    LastToken(init, grown);
    assert Raws(init) + last.Raw() + "A" == Raws(init) + grown.Raw();
  }

  lemma GrownIsTokenised(init: seq<Token>, last: Token, grown: Token)
    requires Tokenised(init + [last]) && grown.WellFormed()
    ensures Tokenised(init + [grown])
  {
    hide Token.WellFormed, Token.Complete;
    forall i | 0 <= i < |init| ensures init[i].WellFormed() && init[i].Complete() {
      assert (init + [last])[i] == init[i];
    }
  }

  lemma LastToken(init: seq<Token>, last: Token)
    ensures Raws(init + [last]) == Raws(init) + last.Raw()
    ensures !last.Char? ==> Plain(init + [last]) == Plain(init)
  {
    RawsAppend(init, [last]);
    PlainAppend(init, [last]);
  }

  /** Stripping piece by piece is stripping the whole exactly when the first piece ends on a token boundary. */
  lemma StripsPiecewise(a: string)
    ensures EndsOnBoundary(a) <==> forall b: string :: Strip(a + b) == Strip(a) + Strip(b)
  {
    hide Next, Token.Raw, Token.WellFormed, Token.Complete, Raws, Tokens;
    if EndsOnBoundary(a) {
      forall b: string ensures Strip(a + b) == Strip(a) + Strip(b) {
        TokensResume(a, b);
        PlainAppend(Tokens(a), Tokens(b));
      }
    } else {
      var tokens := Tokens(a);
      TokensAreTheText(a);
      assert tokens == tokens[..|tokens| - 1] + [tokens[|tokens| - 1]];
      CutOffSwallows(tokens[..|tokens| - 1], tokens[|tokens| - 1]);
      PlainTextIsKept("A");
      assert Strip(a + "A") != Strip(a) + Strip("A");
    }
  }
}
