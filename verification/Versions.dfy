/**
 Release versions in src/self_update.rs: the ordering of `Precedence` and `Identifier` against section
 11 of Semantic Versioning 2.0.0, the parser `precedence`, and `newer`.
 */
module Versions {
  import opened Outcomes
  import opened Strings

  const TWO64: nat := 0x1_0000_0000_0000_0000

  datatype Ordering = Less | Equal | Greater {
    function Then(next: Ordering): Ordering {
      if Equal? then next else this
    }

    function Reverse(): Ordering {
      match this case Less => Greater case Equal => Equal case Greater => Less
    }
  }

  datatype Identifier = Numeric(number: nat) | Alphanumeric(text: string)

  datatype Precedence = Precedence(major: nat, minor: nat, patch: nat, prerelease: seq<Identifier>)

  // ----- The ordering the code derives and writes -----

  function CompareNumbers(a: nat, b: nat): Ordering {
    if a < b then Less else if a > b then Greater else Equal
  }

  /** `str`'s own order: the bytes of UTF-8 compare as the characters do. */
  function CompareText(a: string, b: string): Ordering {
    if Below(a, b) then Less else if Below(b, a) then Greater else Equal
  }

  /** Derived: the variant declared first is the lesser. */
  function CompareIdentifiers(a: Identifier, b: Identifier): Ordering {
    match (a, b)
    case (Numeric(m), Numeric(n)) => CompareNumbers(m, n)
    case (Numeric(_), Alphanumeric(_)) => Less
    case (Alphanumeric(_), Numeric(_)) => Greater
    case (Alphanumeric(s), Alphanumeric(t)) => CompareText(s, t)
  }

  /** `Vec`'s own order. */
  function CompareLists(a: seq<Identifier>, b: seq<Identifier>): Ordering {
    if a == [] && b == [] then Equal
    else if a == [] then Less
    else if b == [] then Greater
    else CompareIdentifiers(a[0], b[0]).Then(CompareLists(a[1..], b[1..]))
  }

  function Compare(a: Precedence, b: Precedence): Ordering {
    CompareNumbers(a.major, b.major).Then(CompareNumbers(a.minor, b.minor)).Then(CompareNumbers(a.patch, b.patch)).Then(
      match (a.prerelease == [], b.prerelease == [])
      case (true, true) => Equal
      case (true, false) => Greater
      case (false, true) => Less
      case (false, false) => CompareLists(a.prerelease, b.prerelease))
  }

  // ----- Section 11 -----

  /** Rule 4.2: lexically in ASCII sort order. */
  ghost predicate TextPrecedes(s: string, t: string) {
    exists k :: 0 <= k <= |s| && k < |t| && s[..k] == t[..k] && (k < |s| ==> s[k] < t[k])
  }

  /** Rules 4.1 to 4.3. */
  ghost predicate IdentifierPrecedes(a: Identifier, b: Identifier) {
    match (a, b)
    case (Numeric(m), Numeric(n)) => m < n
    case (Numeric(_), Alphanumeric(_)) => true
    case (Alphanumeric(_), Numeric(_)) => false
    case (Alphanumeric(s), Alphanumeric(t)) => TextPrecedes(s, t)
  }

  /** Rule 4: the first difference decides, and (rule 4.4) a larger set of fields wins over its own prefix. */
  ghost predicate FieldsPrecede(a: seq<Identifier>, b: seq<Identifier>) {
    exists k :: 0 <= k <= |a| && k < |b| && a[..k] == b[..k] && (k < |a| ==> IdentifierPrecedes(a[k], b[k]))
  }

  /** Rules 2 and 3 over the core, then rule 3 again for a pre-release of the same core, then rule 4. */
  ghost predicate Precedes(a: Precedence, b: Precedence) {
    || a.major < b.major
    || (a.major == b.major && a.minor < b.minor)
    || (a.major == b.major && a.minor == b.minor && a.patch < b.patch)
    || (a.major == b.major && a.minor == b.minor && a.patch == b.patch &&
        a.prerelease != [] && (b.prerelease == [] || FieldsPrecede(a.prerelease, b.prerelease)))
  }

  lemma {:induction false} BelowIsSection11(s: string, t: string)
    ensures Below(s, t) <==> TextPrecedes(s, t)
    decreases |s|
  {
    if s == "" || t == "" {
      if s == "" && t != "" { assert s[..0] == t[..0]; }
    } else if s[0] != t[0] {
      if s[0] < t[0] { assert s[..0] == t[..0]; }
    } else {
      BelowIsSection11(s[1..], t[1..]);
      if TextPrecedes(s[1..], t[1..]) {
        var k :| 0 <= k <= |s[1..]| && k < |t[1..]| && s[1..][..k] == t[1..][..k]
          && (k < |s[1..]| ==> s[1..][k] < t[1..][k]);
        assert s[..k + 1] == [s[0]] + s[1..][..k] && t[..k + 1] == [t[0]] + t[1..][..k];
      }
      if TextPrecedes(s, t) {
        var k :| 0 <= k <= |s| && k < |t| && s[..k] == t[..k] && (k < |s| ==> s[k] < t[k]);
        assert k > 0;
        assert s[1..][..k - 1] == s[..k][1..] && t[1..][..k - 1] == t[..k][1..];
      }
    }
  }

  lemma TextIsSection11(s: string, t: string)
    ensures CompareText(s, t).Less? <==> TextPrecedes(s, t)
    ensures CompareText(s, t).Equal? <==> s == t
    ensures CompareText(t, s) == CompareText(s, t).Reverse()
  {
    BelowIsSection11(s, t);
    BelowIsTotal(s, t);
    BelowIsTotal(t, s);
  }

  lemma IdentifiersAreSection11(a: Identifier, b: Identifier)
    ensures CompareIdentifiers(a, b).Less? <==> IdentifierPrecedes(a, b)
    ensures CompareIdentifiers(a, b).Equal? <==> a == b
    ensures CompareIdentifiers(b, a) == CompareIdentifiers(a, b).Reverse()
  {
    if a.Alphanumeric? && b.Alphanumeric? { TextIsSection11(a.text, b.text); }
  }

  lemma SameFirst<T>(a: seq<T>, b: seq<T>, k: nat)
    requires 0 < k <= |a| && k <= |b| && a[..k] == b[..k]
    ensures a[0] == b[0]
  {
    assert a[..k][0] == b[..k][0];
  }

  lemma {:induction false} FieldsAreSection11(a: seq<Identifier>, b: seq<Identifier>)
    ensures CompareLists(a, b).Less? <==> FieldsPrecede(a, b)
    ensures CompareLists(a, b).Equal? <==> a == b
    ensures CompareLists(b, a) == CompareLists(a, b).Reverse()
    decreases |a|
  {
    hide CompareIdentifiers, IdentifierPrecedes;
    if a == [] || b == [] {
      if a == [] && b != [] { assert a[..0] == b[..0]; }
    } else {
      IdentifiersAreSection11(a[0], b[0]);
      IdentifiersAreSection11(a[0], a[0]);
      if a[0] != b[0] {
        assert a[..0] == b[..0];
        if FieldsPrecede(a, b) {
          var k :| 0 <= k <= |a| && k < |b| && a[..k] == b[..k] && (k < |a| ==> IdentifierPrecedes(a[k], b[k]));
          if k > 0 { SameFirst(a, b, k); }
        }
      } else {
        FieldsAreSection11(a[1..], b[1..]);
        if FieldsPrecede(a[1..], b[1..]) {
          var k :| 0 <= k <= |a[1..]| && k < |b[1..]| && a[1..][..k] == b[1..][..k]
            && (k < |a[1..]| ==> IdentifierPrecedes(a[1..][k], b[1..][k]));
          assert a[..k + 1] == [a[0]] + a[1..][..k] && b[..k + 1] == [b[0]] + b[1..][..k];
        }
        if FieldsPrecede(a, b) {
          var k :| 0 <= k <= |a| && k < |b| && a[..k] == b[..k] && (k < |a| ==> IdentifierPrecedes(a[k], b[k]));
          assert k > 0;
          assert a[1..][..k - 1] == a[..k][1..] && b[1..][..k - 1] == b[..k][1..];
        }
        assert a == [a[0]] + a[1..] && b == [b[0]] + b[1..];
      }
    }
  }

  /** The ordering is section 11's, equal only between equals, and the same read from either side. */
  lemma OrderIsSection11(a: Precedence, b: Precedence)
    ensures Compare(a, b).Less? <==> Precedes(a, b)
    ensures Compare(a, b).Greater? <==> Precedes(b, a)
    ensures Compare(a, b).Equal? <==> a == b
  {
    FieldsAreSection11(a.prerelease, b.prerelease);
    FieldsAreSection11(b.prerelease, a.prerelease);
  }

  lemma IdentifiersAreTransitive(a: Identifier, b: Identifier, c: Identifier)
    requires CompareIdentifiers(a, b).Less? && CompareIdentifiers(b, c).Less?
    ensures CompareIdentifiers(a, c).Less?
  {
    if a.Alphanumeric? && b.Alphanumeric? && c.Alphanumeric? { BelowIsTransitive(a.text, b.text, c.text); }
  }

  lemma {:induction false} FieldsAreTransitive(a: seq<Identifier>, b: seq<Identifier>, c: seq<Identifier>)
    requires CompareLists(a, b).Less? && CompareLists(b, c).Less?
    ensures CompareLists(a, c).Less?
    decreases |a|
  {
    hide CompareIdentifiers;
    if a != [] {
      IdentifiersAreSection11(a[0], b[0]);
      IdentifiersAreSection11(b[0], c[0]);
      IdentifiersAreSection11(a[0], c[0]);
      if a[0] == b[0] == c[0] {
        FieldsAreTransitive(a[1..], b[1..], c[1..]);
      } else if a[0] != b[0] && b[0] != c[0] {
        IdentifiersAreTransitive(a[0], b[0], c[0]);
      }
    }
  }

  lemma OrderIsTransitive(a: Precedence, b: Precedence, c: Precedence)
    requires Compare(a, b).Less? && Compare(b, c).Less?
    ensures Compare(a, c).Less?
  {
    if a.prerelease != [] && b.prerelease != [] && c.prerelease != []
       && CompareLists(a.prerelease, b.prerelease).Less? && CompareLists(b.prerelease, c.prerelease).Less? {
      FieldsAreTransitive(a.prerelease, b.prerelease, c.prerelease);
    }
  }

  // ----- Reading a version -----

  /** The characters `str::trim` drops: Unicode's White_Space. */
  predicate IsWhitespace(c: char) {
    '\U{09}' <= c <= '\U{0d}' || c == ' ' || c == '\U{85}' || c == '\U{a0}' || c == '\U{1680}'
    || '\U{2000}' <= c <= '\U{200a}' || c == '\U{2028}' || c == '\U{2029}' || c == '\U{202f}' || c == '\U{205f}'
    || c == '\U{3000}'
  }

  predicate IsV(c: char) { c == 'v' }

  predicate IsDigit(c: char) {
    '0' <= c <= '9'
  }

  function DigitValue(c: char): nat
    requires IsDigit(c)
  {
    c as nat - '0' as nat
  }

  predicate AllDigits(s: string) {
    forall i :: 0 <= i < |s| ==> IsDigit(s[i])
  }

  function Value(digits: string): nat
    requires AllDigits(digits)
  {
    if digits == "" then 0 else 10 * Value(digits[..|digits| - 1]) + DigitValue(digits[|digits| - 1])
  }

  /** `parse::<u64>()`: an optional plus, then digits, not past 2^64. */
  function ParseU64(s: string): Option<nat> {
    var digits := if s != "" && s[0] == '+' then s[1..] else s;
    if digits != "" && AllDigits(digits) && Value(digits) < TWO64 then Some(Value(digits)) else None
  }

  function ParseIdentifier(part: string): Option<Identifier> {
    match ParseU64(part)
    case Some(number) => Some(Numeric(number))
    case None => if part != "" then Some(Alphanumeric(part)) else None
  }

  function ParseIdentifiers(parts: seq<string>): Option<seq<Identifier>> {
    if parts == [] then Some([]) else
      match (ParseIdentifier(parts[0]), ParseIdentifiers(parts[1..]))
      case (Some(first), Some(rest)) => Some([first] + rest)
      case _ => None
  }

  function ParseCore(core: string): Option<(nat, nat, nat)> {
    var parts := Split(core, '.');
    if |parts| != 3 then None else
      match (ParseU64(parts[0]), ParseU64(parts[1]), ParseU64(parts[2]))
      case (Some(major), Some(minor), Some(patch)) => Some((major, minor, patch))
      case _ => None
  }

  /** `trim`, then `trim_start_matches('v')` */
  function Unadorned(version: string): string {
    TrimStart(TrimEnd(TrimStart(version, IsWhitespace), IsWhitespace), IsV)
  }

  /** `precedence` */
  function Parse(version: string): Option<Precedence> {
    var bare := SplitOnce(Unadorned(version), '+').0;
    var (core, prerelease) := SplitOnce(bare, '-');
    match ParseCore(core)
    case None => None
    case Some((major, minor, patch)) =>
      if prerelease.None? || prerelease.value == "" then Some(Precedence(major, minor, patch, []))
      else match ParseIdentifiers(Split(prerelease.value, '.'))
        case None => None
        case Some(identifiers) => Some(Precedence(major, minor, patch, identifiers))
  }

  predicate Newer(candidate: string, current: string) {
    match (Parse(candidate), Parse(current))
    case (Some(a), Some(b)) => Compare(a, b).Greater?
    case _ => false
  }

  /** A later release is a strict order on version strings, and section 11's on what they spell. */
  lemma NewerIsStrict(a: string, b: string, c: string)
    ensures !Newer(a, a)
    ensures Newer(a, b) ==> !Newer(b, a)
    ensures Newer(a, b) && Newer(b, c) ==> Newer(a, c)
    ensures Newer(a, b) <==> Parse(a).Some? && Parse(b).Some? && Precedes(Parse(b).value, Parse(a).value)
  {
    hide Parse;
    if Parse(a).Some? {
      var p := Parse(a).value;
      OrderIsSection11(p, p);
      if Parse(b).Some? {
        var q := Parse(b).value;
        OrderIsSection11(p, q);
        OrderIsSection11(q, p);
        if Newer(a, b) && Newer(b, c) {
          var r := Parse(c).value;
          OrderIsSection11(q, r);
          OrderIsSection11(r, q);
          OrderIsSection11(p, r);
          OrderIsSection11(r, p);
          OrderIsTransitive(r, q, p);
        }
      }
    }
  }

  // ----- Printing one -----

  function Digits(n: nat): (digits: string)
    ensures digits != "" && AllDigits(digits)
  {
    var last := ['0' + (n % 10) as char];
    if n < 10 then last else Digits(n / 10) + last
  }

  function PrintIdentifier(identifier: Identifier): string {
    match identifier
    case Numeric(number) => Digits(number)
    case Alphanumeric(text) => text
  }

  function PrintCore(p: Precedence): string {
    Digits(p.major) + "." + Digits(p.minor) + "." + Digits(p.patch)
  }

  function PrintPrerelease(identifiers: seq<Identifier>): string {
    Join(seq(|identifiers|, i requires 0 <= i < |identifiers| => PrintIdentifier(identifiers[i])), '.')
  }

  function Print(p: Precedence): string {
    PrintCore(p) + if p.prerelease == [] then "" else "-" + PrintPrerelease(p.prerelease)
  }

  /** Section 9's characters. */
  predicate IsIdentifierCharacter(c: char) {
    IsDigit(c) || 'A' <= c <= 'Z' || 'a' <= c <= 'z' || c == '-'
  }

  ghost predicate WellFormed(p: Precedence) {
    && p.major < TWO64 && p.minor < TWO64 && p.patch < TWO64
    && forall i :: 0 <= i < |p.prerelease| ==> WellFormedIdentifier(p.prerelease[i])
  }

  ghost predicate WellFormedIdentifier(identifier: Identifier) {
    match identifier
    case Numeric(number) => number < TWO64
    case Alphanumeric(text) =>
      text != "" && !AllDigits(text) && forall i :: 0 <= i < |text| ==> IsIdentifierCharacter(text[i])
  }

  lemma {:induction false} ValueOfDigits(n: nat)
    ensures Value(Digits(n)) == n
  {
    if n >= 10 {
      var digits := Digits(n);
      assert digits[..|digits| - 1] == Digits(n / 10);
      ValueOfDigits(n / 10);
    }
  }

  lemma ParseDigits(n: nat)
    requires n < TWO64
    ensures ParseU64(Digits(n)) == Some(n)
  {
    ValueOfDigits(n);
    assert IsDigit(Digits(n)[0]);
  }

  lemma ParsePrintedIdentifier(identifier: Identifier)
    requires WellFormedIdentifier(identifier)
    ensures ParseIdentifier(PrintIdentifier(identifier)) == Some(identifier)
    ensures PrintIdentifier(identifier) != ""
    ensures forall i :: 0 <= i < |PrintIdentifier(identifier)| ==> IsIdentifierCharacter(PrintIdentifier(identifier)[i])
  {
    match identifier
    case Numeric(number) => ParseDigits(number);
    case Alphanumeric(text) =>
      assert IsIdentifierCharacter(text[0]);
      assert ParseU64(text) == None;
  }

  lemma {:induction false} ParsePrintedIdentifiers(identifiers: seq<Identifier>, parts: seq<string>)
    requires |parts| == |identifiers|
    requires forall i :: 0 <= i < |parts| ==>
      WellFormedIdentifier(identifiers[i]) && parts[i] == PrintIdentifier(identifiers[i])
    ensures ParseIdentifiers(parts) == Some(identifiers)
  {
    if parts != [] {
      ParsePrintedIdentifier(identifiers[0]);
      ParsePrintedIdentifiers(identifiers[1..], parts[1..]);
      assert [identifiers[0]] + identifiers[1..] == identifiers;
    }
  }

  // ----- What surrounds a version -----

  /** What may stand around a version: padding, then any number of `v`; behind it padding, or `+` and anything. */
  ghost predicate Surrounds(pad: string, vs: string, tail: string) {
    && (forall i :: 0 <= i < |pad| ==> IsWhitespace(pad[i]))
    && (forall i :: 0 <= i < |vs| ==> vs[i] == 'v')
    && ((forall i :: 0 <= i < |tail| ==> IsWhitespace(tail[i])) || tail[0] == '+')
  }

  lemma SurroundingsAreDropped(pad: string, vs: string, body: string, tail: string)
    requires Surrounds(pad, vs, tail)
    requires body != "" && body[0] != 'v' && '+' !in body
    requires forall i :: 0 <= i < |body| ==> !IsWhitespace(body[i])
    ensures SplitOnce(Unadorned(pad + vs + body + tail), '+').0 == body
  {
    hide TrimStart, TrimEnd, SplitOnce;
    assert pad + vs + body + tail == pad + ((vs + body) + tail);
    TrimStartDrops(pad, (vs + body) + tail, IsWhitespace);
    if tail != "" && tail[0] == '+' {
      TrimEndKeeps(vs + body, tail, IsWhitespace);
      TrimEndKeeps("+", tail[1..], IsWhitespace);
      assert tail == "+" + tail[1..];
      assert !IsWhitespace('+');
      var rest := TrimEnd(tail[1..], IsWhitespace);
      assert vs + body + ("+" + rest) == vs + (body + ['+'] + rest);
      TrimStartDrops(vs, body + ['+'] + rest, IsV);
      SplitOnceAtFirst(body, rest, '+');
    } else {
      TrimEndDrops(vs + body, tail, IsWhitespace);
      TrimStartDrops(vs, body, IsV);
      SplitOnceAtFirst(body, "", '+');
    }
  }

  // ----- The round trip -----

  lemma ParsePrintedCore(p: Precedence)
    requires WellFormed(p)
    ensures ParseCore(PrintCore(p)) == Some((p.major, p.minor, p.patch))
    ensures forall i :: 0 <= i < |PrintCore(p)| ==> IsDigit(PrintCore(p)[i]) || PrintCore(p)[i] == '.'
    ensures PrintCore(p) != "" && IsDigit(PrintCore(p)[0])
  {
    hide Digits;
    var parts := [Digits(p.major), Digits(p.minor), Digits(p.patch)];
    assert Join(parts[1..][1..], '.') == Digits(p.patch);
    assert Join(parts[1..], '.') == Digits(p.minor) + "." + Digits(p.patch);
    assert PrintCore(p) == Join(parts, '.') by { assert Join(parts, '.') == parts[0] + "." + Join(parts[1..], '.'); }
    SplitInvertsJoin(parts, '.');
    ParseDigits(p.major);
    ParseDigits(p.minor);
    ParseDigits(p.patch);
  }

  lemma {:induction false} JoinedCharacters(parts: seq<string>, i: nat)
    requires i < |Join(parts, '.')|
    requires forall k, j :: 0 <= k < |parts| && 0 <= j < |parts[k]| ==> IsIdentifierCharacter(parts[k][j])
    ensures IsIdentifierCharacter(Join(parts, '.')[i]) || Join(parts, '.')[i] == '.'
  {
    if |parts| > 1 && i > |parts[0]| { JoinedCharacters(parts[1..], i - |parts[0]| - 1); }
  }

  lemma ParsePrintedPrerelease(identifiers: seq<Identifier>)
    requires identifiers != [] && forall i :: 0 <= i < |identifiers| ==> WellFormedIdentifier(identifiers[i])
    ensures var s := PrintPrerelease(identifiers);
      && s != "" && ParseIdentifiers(Split(s, '.')) == Some(identifiers)
      && forall i :: 0 <= i < |s| ==> IsIdentifierCharacter(s[i]) || s[i] == '.'
  {
    var parts := seq(|identifiers|, i requires 0 <= i < |identifiers| => PrintIdentifier(identifiers[i]));
    forall i | 0 <= i < |parts|
      ensures parts[i] != "" && forall j :: 0 <= j < |parts[i]| ==> IsIdentifierCharacter(parts[i][j])
    {
      ParsePrintedIdentifier(identifiers[i]);
    }
    SplitInvertsJoin(parts, '.');
    ParsePrintedIdentifiers(identifiers, parts);
    forall i | 0 <= i < |Join(parts, '.')|
      ensures IsIdentifierCharacter(Join(parts, '.')[i]) || Join(parts, '.')[i] == '.'
    {
      JoinedCharacters(parts, i);
    }
  }

  /** Reading inverts printing, whatever spaces, leading `v`s and build metadata stand around the version. */
  lemma ParseInvertsPrint(p: Precedence, pad: string, vs: string, tail: string)
    requires WellFormed(p) && Surrounds(pad, vs, tail)
    ensures Parse(pad + vs + Print(p) + tail) == Some(p)
  {
    hide ParseCore, PrintCore, PrintPrerelease, ParseIdentifiers, Split, SplitOnce, Unadorned;
    var body, core := Print(p), PrintCore(p);
    ParsePrintedCore(p);
    if p.prerelease == [] {
      assert body == core;
      SurroundingsAreDropped(pad, vs, body, tail);
      SplitOnceAtFirst(core, "", '-');
    } else {
      var prerelease := PrintPrerelease(p.prerelease);
      ParsePrintedPrerelease(p.prerelease);
      assert body == core + ['-'] + prerelease;
      SurroundingsAreDropped(pad, vs, body, tail);
      SplitOnceAtFirst(core, prerelease, '-');
    }
  }
}
