/**
 What `ansi_strip` of conformance/shared/common.py takes out of a text, family by family and character by
 character, and that it takes out nothing else.
 */
module Transcripts {
  import opened EscapeTokens

  /** What one token at the front of a text leaves of it. */
  lemma FrontToken(token: Token, rest: string)
    requires token.WellFormed() && (token.Complete() || rest == "")
    ensures Strip(token.Raw() + rest) == (if token.Char? then [token.c] else "") + Strip(rest)
  {
    hide Next, Token.Raw, Token.WellFormed, Token.Complete, Strip;
    var text := token.Raw() + rest;
    NextOfRaw(token, rest);
    StripFront(text);
    assert text[|token.Raw()|..] == rest;
    assert "" + Strip(rest) == Strip(rest);
  }

  /** Everything but an ESC stays. */
  lemma CharactersAreKept(c: char, rest: string)
    requires c != '\U{1b}'
    ensures Strip([c] + rest) == [c] + Strip(rest)
  {
    hide Strip;
    FrontToken(Char(c), rest);
  }

  /** A control sequence goes up to and with the first character from 0x40 to 0x7e; without one all goes. */
  lemma ControlSequencesGo(params: string, final: char, rest: string)
    requires forall i :: 0 <= i < |params| ==> params[i] < '\U{40}' || params[i] > '\U{7e}'
    requires '\U{40}' <= final <= '\U{7e}'
    ensures Strip("\U{1b}[" + params + [final] + rest) == Strip(rest)
    ensures Strip("\U{1b}[" + params) == ""
  {
    hide Strip, UntilFinal;
    FinalIsFirst(params, |params|);
    FrontToken(Csi(params, final), rest);
    assert Csi(params, final).Raw() + rest == "\U{1b}[" + params + [final] + rest;
    FrontToken(OpenCsi(params), "");
    assert OpenCsi(params).Raw() + "" == "\U{1b}[" + params;
    NothingIsLeft();
  }

  lemma NothingIsLeft()
    ensures Strip("") == ""
  {
  }

  /** No BEL, and no ESC with a backslash behind it. */
  ghost predicate Unended(body: string) {
    && (forall i :: 0 <= i < |body| ==> body[i] != '\U{07}')
    && (forall i :: 0 <= i < |body| - 1 ==> body[i] != '\U{1b}' || body[i + 1] != '\\')
  }

  /** DCS, PM, APC, SOS and OSC go up to and with the first BEL or ESC and backslash; without either all goes. */
  lemma ControlStringsGo(kind: char, body: string, rest: string)
    requires kind in "P^_X]" && Unended(body)
    ensures Strip([ESC, kind] + body + "\U{07}" + rest) == Strip(rest)
    ensures Strip([ESC, kind] + body + "\U{1b}\\" + rest) == Strip(rest)
    ensures Strip([ESC, kind] + body) == ""
  {
    hide Strip, UntilEnd;
    StringKinds(kind);
    StringEnds(body, "\U{07}");
    StringEnds(body, "\U{1b}\\");
    StringEnds(body, "");
    assert body + "" == body;
    FrontToken(ControlString(kind, body, true), rest);
    assert ControlString(kind, body, true).Raw() + rest == [ESC, kind] + body + "\U{07}" + rest;
    FrontToken(ControlString(kind, body, false), rest);
    assert ControlString(kind, body, false).Raw() + rest == [ESC, kind] + body + "\U{1b}\\" + rest;
    FrontToken(OpenString(kind, body), "");
    assert OpenString(kind, body).Raw() + "" == [ESC, kind] + body;
    NothingIsLeft();
  }

  lemma StringKinds(kind: char)
    ensures kind in "P^_X]" <==> IsStringKind(kind)
    ensures kind in "()#%*+" <==> IsCharsetKind(kind)
  {
  }

  lemma StringEnds(body: string, end: string)
    requires Unended(body) && (end == "" || end == "\U{07}" || end == "\U{1b}\\")
    ensures UntilEnd(body + end) == |body|
  {
    hide UntilEnd;
    var s := body + end;
    forall i | 0 <= i < |body| ensures !EndsAt(s, i) {
      assert s[i] == body[i];
      if i + 1 < |s| { assert s[i + 1] == if i + 1 < |body| then body[i + 1] else end[0]; }
    }
    EndIsFirst(s, |body|);
  }

  /** A character set selection goes with the character behind it, if there is one. */
  lemma CharacterSetsGo(kind: char, which: char, rest: string)
    requires kind in "()#%*+"
    ensures Strip([ESC, kind, which] + rest) == Strip(rest)
    ensures Strip([ESC, kind]) == ""
  {
    hide Strip;
    StringKinds(kind);
    FrontToken(Charset(kind, which), rest);
    FrontToken(OpenCharset(kind), "");
    assert [ESC, kind] + "" == [ESC, kind];
    NothingIsLeft();
  }

  /** Every other escape goes with the one character behind it, and one at the end by itself. */
  lemma OtherEscapesGo(c: char, rest: string)
    requires c !in "[P^_X]()#%*+"
    ensures Strip([ESC, c] + rest) == Strip(rest)
    ensures Strip([ESC]) == ""
  {
    hide Strip;
    StringKinds(c);
    FrontToken(Short(c), rest);
    FrontToken(LoneEsc, "");
    assert [ESC] + "" == [ESC];
    NothingIsLeft();
  }
}
