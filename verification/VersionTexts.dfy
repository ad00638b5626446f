/** Which texts `precedence` of src/self_update.rs reads as a version, and as which one. */
module VersionTexts {
  import opened Outcomes
  import opened Strings
  import opened Versions

  function Pow10(n: nat): nat { if n == 0 then 1 else 10 * Pow10(n - 1) }

  lemma OneMoreDigit(d: nat, weight: nat)
    ensures 10 * (d * weight) == d * (10 * weight)
  {
  }

  /** A number is read from its decimal digits, of which the first weighs most. */
  lemma {:induction false} TheFirstDigitWeighsMost(d: char, later: string)
    requires '0' <= d <= '9' && forall i :: 0 <= i < |later| ==> '0' <= later[i] <= '9'
    ensures AllDigits([d] + later)
    ensures Value([d] + later) == (d as int - '0' as int) * Pow10(|later|) + Value(later)
    decreases |later|
  {
    var all := [d] + later;
    if later == "" {
      assert all[..0] == "" && Value(all[..0]) == 0;
    } else {
      assert all[..|all| - 1] == [d] + later[..|later| - 1];
      TheFirstDigitWeighsMost(d, later[..|later| - 1]);
      OneMoreDigit(d as int - '0' as int, Pow10(|later| - 1));
    }
  }

  /** Decimal digits that spell a number below 2^64. */
  predicate IsNumber(s: string) {
    s != "" && (forall i :: 0 <= i < |s| ==> '0' <= s[i] <= '9') && Value(s) < 0x1_0000_0000_0000_0000
  }

  lemma NumbersAreRead(s: string)
    requires '+' !in s
    ensures ParseU64(s) == if IsNumber(s) then Some(Value(s)) else None
  {
    assert AllDigits(s) <==> forall i :: 0 <= i < |s| ==> '0' <= s[i] <= '9';
  }

  /** A piece of a version: no separator, no padding. */
  ghost predicate Piece(s: string, separators: string) {
    forall i :: 0 <= i < |s| ==> s[i] !in separators && s[i] != '+' && !IsWhitespace(s[i])
  }

  lemma {:induction false} JoinedFrom(pieces: seq<string>, separators: string, i: nat)
    requires forall k :: 0 <= k < |pieces| ==> Piece(pieces[k], separators)
    requires i < |Join(pieces, '.')|
    ensures var c := Join(pieces, '.')[i]; c == '.' || (c !in separators && c != '+' && !IsWhitespace(c))
  {
    if |pieces| > 1 && i > |pieces[0]| { JoinedFrom(pieces[1..], separators, i - |pieces[0]| - 1); }
  }

  lemma JoinedIsBare(pieces: seq<string>, separators: string)
    requires forall k :: 0 <= k < |pieces| ==> Piece(pieces[k], separators)
    ensures var s := Join(pieces, '.');
      && '+' !in s && (forall i :: 0 <= i < |s| ==> !IsWhitespace(s[i]))
      && forall c :: c in separators && c != '.' ==> c !in s
  {
    hide IsWhitespace, Join;
    var s := Join(pieces, '.');
    forall i | 0 <= i < |s| ensures s[i] == '.' || (s[i] !in separators && s[i] != '+' && !IsWhitespace(s[i])) {
      JoinedFrom(pieces, separators, i);
    }
    DotIsNoSpace();
  }

  lemma DotIsNoSpace()
    ensures !IsWhitespace('.') && !IsWhitespace('-')
  {
  }

  lemma CoreIsRead(pieces: seq<string>)
    requires pieces != [] && forall k :: 0 <= k < |pieces| ==> Piece(pieces[k], ".-")
    ensures ParseCore(Join(pieces, '.')) ==
      if |pieces| == 3 && IsNumber(pieces[0]) && IsNumber(pieces[1]) && IsNumber(pieces[2])
      then Some((Value(pieces[0]), Value(pieces[1]), Value(pieces[2]))) else None
  {
    hide IsWhitespace, ParseU64, Split, Join;
    forall k | 0 <= k < |pieces| ensures '.' !in pieces[k] && '+' !in pieces[k] {
      assert Piece(pieces[k], ".-");
      assert '.' in ".-";
    }
    SplitInvertsJoin(pieces, '.');
    if |pieces| == 3 {
      NumbersAreRead(pieces[0]);
      NumbersAreRead(pieces[1]);
      NumbersAreRead(pieces[2]);
    }
  }

  /** A release is three numbers between dots, whatever stands around them, and nothing else is. */
  lemma ReleasesThatAreRead(pieces: seq<string>, pad: string, vs: string, tail: string)
    requires pieces != [] && (forall k :: 0 <= k < |pieces| ==> Piece(pieces[k], ".-")) && Surrounds(pad, vs, tail)
    requires Join(pieces, '.') != "" && Join(pieces, '.')[0] != 'v'
    ensures Parse(pad + vs + Join(pieces, '.') + tail) ==
      if |pieces| == 3 && IsNumber(pieces[0]) && IsNumber(pieces[1]) && IsNumber(pieces[2])
      then Some(Precedence(Value(pieces[0]), Value(pieces[1]), Value(pieces[2]), [])) else None
  {
    hide *;
    var core := Join(pieces, '.');
    JoinedIsBare(pieces, ".-");
    assert '-' in ".-";
    SurroundingsAreDropped(pad, vs, core, tail);
    SplitOnceAtFirst(core, "", '-');
    CoreIsRead(pieces);
    ParsesAs(pad + vs + core + tail, core, None);
  }

  lemma ParsesAs(version: string, core: string, prerelease: Option<string>)
    requires SplitOnce(SplitOnce(Unadorned(version), '+').0, '-') == (core, prerelease)
    ensures Parse(version) ==
      if ParseCore(core).None? then None
      else
        var (major, minor, patch) := ParseCore(core).value;
        if prerelease.None? || prerelease.value == "" then Some(Precedence(major, minor, patch, []))
        else if ParseIdentifiers(Split(prerelease.value, '.')).None? then None
        else Some(Precedence(major, minor, patch, ParseIdentifiers(Split(prerelease.value, '.')).value))
  {
    hide ParseCore, ParseIdentifiers, Unadorned, SplitOnce, Split;
  }

  function FieldOf(field: string): Identifier {
    if IsNumber(field) then Numeric(Value(field)) else Alphanumeric(field)
  }

  function FieldsOf(fields: seq<string>): seq<Identifier> {
    seq(|fields|, i requires 0 <= i < |fields| => FieldOf(fields[i]))
  }

  lemma {:induction false} FieldsAreRead(fields: seq<string>)
    requires forall k :: 0 <= k < |fields| ==> '+' !in fields[k]
    ensures ParseIdentifiers(fields) == if "" in fields then None else Some(FieldsOf(fields))
  {
    hide ParseU64, IsNumber;
    if fields != [] {
      NumbersAreRead(fields[0]);
      AnEmptyFieldIsNoNumber();
      FieldsAreRead(fields[1..]);
      assert "" in fields <==> fields[0] == "" || "" in fields[1..];
      assert FieldsOf(fields) == [FieldOf(fields[0])] + FieldsOf(fields[1..]);
    }
  }

  lemma AnEmptyFieldIsNoNumber()
    ensures !IsNumber("")
  {
  }

  /**
   Behind a release and a hyphen stand fields between dots, none of them empty: a number, if it is one below 2^64, and
   otherwise the text it is. A hyphen with nothing behind it is a release.
   */
  lemma PrereleasesThatAreRead(core: seq<string>, fields: seq<string>, pad: string, vs: string, tail: string)
    requires |core| == 3 && IsNumber(core[0]) && IsNumber(core[1]) && IsNumber(core[2])
    requires fields != [] && (forall k :: 0 <= k < |fields| ==> Piece(fields[k], ".")) && Surrounds(pad, vs, tail)
    ensures Parse(pad + vs + (Join(core, '.') + "-" + Join(fields, '.')) + tail) ==
      var release := Precedence(Value(core[0]), Value(core[1]), Value(core[2]), []);
      if Join(fields, '.') == "" then Some(release)
      else if "" in fields then None
      else Some(release.(prerelease := FieldsOf(fields)))
  {
    hide *;
    var release, prerelease := Join(core, '.'), Join(fields, '.');
    forall k | 0 <= k < |core| ensures Piece(core[k], ".-") { NumbersArePieces(core[k]); }
    JoinedIsBare(core, ".-");
    JoinedIsBare(fields, ".");
    assert '-' in ".-";
    StartsWithADigit(core);
    DotIsNoSpace();
    var body := release + ['-'] + prerelease;
    assert body[0] == release[0];
    assert release + "-" + prerelease == body;
    SurroundingsAreDropped(pad, vs, body, tail);
    SplitOnceAtFirst(release, prerelease, '-');
    CoreIsRead(core);
    forall k | 0 <= k < |fields| ensures '.' !in fields[k] && '+' !in fields[k] { FieldIsBare(fields[k]); }
    SplitInvertsJoin(fields, '.');
    FieldsAreRead(fields);
    ParsesAs(pad + vs + body + tail, release, Some(prerelease));
  }

  lemma FieldIsBare(field: string)
    requires Piece(field, ".")
    ensures '.' !in field && '+' !in field
  {
    assert '.' in ".";
  }

  lemma NumbersArePieces(s: string)
    requires IsNumber(s)
    ensures Piece(s, ".-")
  {
  }

  lemma StartsWithADigit(core: seq<string>)
    requires |core| == 3 && IsNumber(core[0])
    ensures Join(core, '.') != "" && '0' <= Join(core, '.')[0] <= '9'
  {
  }

  /** What padding is, among the characters of ASCII. */
  lemma AsciiPadding(c: char)
    requires c < '\U{80}'
    ensures IsWhitespace(c) <==>
      c == ' ' || c == '\t' || c == '\n' || c == '\r' || c == '\U{0b}' || c == '\U{0c}'
  {
  }
}
