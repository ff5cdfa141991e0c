/** Semantic versions: the texts the registry accepts, read and printed (SemVer 2.0.0). */
module SemVers {
  import opened Wrappers
  import opened Texts

  datatype SemVer = SemVer(major: nat, minor: nat, patch: nat, prerelease: seq<string>, build: Option<string>)

  // ---------- Decimal numerals ----------

  predicate IsDigit(c: char) {
    '0' <= c <= '9'
  }

  predicate AllDigits(s: string) {
    s != "" && forall i | 0 <= i < |s| :: IsDigit(s[i])
  }

  function DigitOf(n: nat): (c: char)
    requires n < 10
    ensures IsDigit(c) && (c as int) - ('0' as int) == n
  {
    ('0' as int + n) as char
  }

  /** `int(s)` on ASCII digits. */
  function Number(s: string): nat
    requires forall i | 0 <= i < |s| :: IsDigit(s[i])
  {
    if s == "" then 0
    else
      assert IsDigit(s[|s| - 1]);
      10 * Number(s[..|s| - 1]) + (s[|s| - 1] as int - '0' as int)
  }

  function Numeral(n: nat): (s: string)
    ensures AllDigits(s)
  {
    if n < 10 then [DigitOf(n)] else Numeral(n / 10) + [DigitOf(n % 10)]
  }

  /** `0|[1-9]\d*` */
  predicate IsNumeral(s: string) {
    AllDigits(s) && (|s| > 1 ==> s[0] != '0')
  }

  lemma {:induction false} NumeralRoundTrip(n: nat)
    ensures IsNumeral(Numeral(n)) && Number(Numeral(n)) == n
    ensures n > 0 ==> Numeral(n)[0] != '0'
  {
    if n >= 10 {
      NumeralRoundTrip(n / 10);
      assert Numeral(n)[..|Numeral(n)| - 1] == Numeral(n / 10);
    }
  }

  lemma {:induction false} NumberRoundTrip(s: string)
    requires IsNumeral(s)
    ensures Numeral(Number(s)) == s
    ensures |s| > 1 ==> Number(s) >= 10
  {
    var init, last := s[..|s| - 1], s[|s| - 1];
    assert s == init + [last];
    if |s| > 1 {
      NumberRoundTrip(init);
      if |init| == 1 {
        assert Number(init[..0]) == 0;
        assert Number(init) == init[0] as int - '0' as int;
      }
      assert Number(s) == 10 * Number(init) + (last as int - '0' as int);
      assert Number(s) / 10 == Number(init) && DigitOf(Number(s) % 10) == last;
    } else {
      assert Number(init) == 0;
    }
  }

  // ---------- Splitting and joining ----------

  /** The position of the first occurrence of a character, or the length of the text. */
  function Find(s: string, c: char): (r: nat)
    ensures r <= |s|
    ensures r < |s| ==> s[r] == c
    ensures forall i | 0 <= i < r :: s[i] != c
  {
    if s == "" || s[0] == c then 0 else 1 + Find(s[1..], c)
  }

  lemma {:induction false} FindAfter(a: string, c: char, b: string)
    requires c !in a
    ensures Find(a, c) == |a|
    ensures Find(a + [c] + b, c) == |a|
  {
    assert (a + [c] + b)[|a|] == c;
    assert forall i | 0 <= i < |a| :: (a + [c] + b)[i] == a[i] != c;
  }

  /** `s.split(".")` */
  function Split(s: string): (parts: seq<string>)
    ensures parts != []
    decreases |s|
  {
    var i := Find(s, '.');
    if i == |s| then [s] else [s[..i]] + Split(s[i + 1..])
  }

  function Dotted(parts: seq<string>): string {
    if parts == [] then ""
    else if |parts| == 1 then parts[0]
    else parts[0] + ['.'] + Dotted(parts[1..])
  }

  lemma {:induction false} DottedSplit(s: string)
    ensures Dotted(Split(s)) == s
    decreases |s|
  {
    var i := Find(s, '.');
    if i < |s| {
      DottedSplit(s[i + 1..]);
      assert Split(s)[1..] == Split(s[i + 1..]);
      assert s == s[..i] + ['.'] + s[i + 1..];
    }
  }

  lemma SplitFirst(first: string, rest: string)
    requires '.' !in first
    ensures Split(first + ['.'] + rest) == [first] + Split(rest)
  {
    hide Find;
    FindAfter(first, '.', rest);
    assert (first + ['.'] + rest)[..|first|] == first;
    assert (first + ['.'] + rest)[|first| + 1..] == rest;
  }

  lemma {:induction false} SplitDotted(parts: seq<string>)
    requires parts != [] && forall i | 0 <= i < |parts| :: '.' !in parts[i]
    ensures Split(Dotted(parts)) == parts
  {
    var first := parts[0];
    if |parts| == 1 {
      FindAfter(first, '.', "");
      assert [first] == parts;
    } else {
      var rest := Dotted(parts[1..]);
      SplitDotted(parts[1..]);
      SplitFirst(first, rest);
      assert [first] + parts[1..] == parts;
    }
  }

  // ---------- Parsing and printing ----------

  predicate IdentifierChar(c: char) {
    IsDigit(c) || 'A' <= c <= 'Z' || 'a' <= c <= 'z' || c == '-'
  }

  /** `[0-9A-Za-z-]+` */
  predicate IsIdentifier(s: string) {
    s != "" && forall i | 0 <= i < |s| :: IdentifierChar(s[i])
  }

  /** `[0-9A-Za-z-]+(\.[0-9A-Za-z-]+)*` */
  predicate IsDottedIdentifiers(s: string) {
    forall i | 0 <= i < |Split(s)| :: IsIdentifier(Split(s)[i])
  }

  /** The ASCII codes of digits. */
  predicate DigitCode(code: int) {
    48 <= code <= 57
  }

  /** The ASCII codes of digits, of upper and lower case letters, and of the hyphen. */
  predicate IdentifierCode(code: int) {
    DigitCode(code) || 65 <= code <= 90 || 97 <= code <= 122 || code == 45
  }

  /** A numeric identifier consists of digits, any identifier of letters, digits and hyphens. */
  lemma IdentifiersRead(s: string)
    ensures AllDigits(s) <==> s != "" && forall i | 0 <= i < |s| :: DigitCode(s[i] as int)
    ensures IsIdentifier(s) <==> s != "" && forall i | 0 <= i < |s| :: IdentifierCode(s[i] as int)
  {
    assert forall i | 0 <= i < |s| :: IsDigit(s[i]) <==> DigitCode(s[i] as int);
    assert forall i | 0 <= i < |s| :: IdentifierChar(s[i]) <==> IdentifierCode(s[i] as int);
  }

  function ParseCore(core: string, prerelease: seq<string>, build: Option<string>): Option<SemVer> {
    var parts := Split(core);
    if |parts| == 3 && IsNumeral(parts[0]) && IsNumeral(parts[1]) && IsNumeral(parts[2]) then
      Some(SemVer(Number(parts[0]), Number(parts[1]), Number(parts[2]), prerelease, build))
    else None
  }

  /** The text before the build metadata: no '+' occurs in it. */
  function ParseRelease(release: string, build: Option<string>): Option<SemVer> {
    var i := Find(release, '-');
    if i == |release| then ParseCore(release, [], build)
    else if IsDottedIdentifiers(release[i + 1..]) then ParseCore(release[..i], Split(release[i + 1..]), build)
    else None
  }

  /** The version a text denotes, or nothing when it does not match the pattern. Texts are ASCII. */
  function Parse(s: string): Option<SemVer> {
    var i := Find(s, '+');
    if i == |s| then ParseRelease(s, None)
    else if IsDottedIdentifiers(s[i + 1..]) then ParseRelease(s[..i], Some(s[i + 1..]))
    else None
  }

  function PrintCore(v: SemVer): string {
    Dotted([Numeral(v.major), Numeral(v.minor), Numeral(v.patch)])
  }

  function PrintRelease(v: SemVer): string {
    PrintCore(v) + if v.prerelease == [] then "" else ['-'] + Dotted(v.prerelease)
  }

  function Print(v: SemVer): string {
    PrintRelease(v) + if v.build.None? then "" else ['+'] + v.build.value
  }

  /** The versions that have a text. */
  predicate Printable(v: SemVer) {
    && (forall i | 0 <= i < |v.prerelease| :: IsIdentifier(v.prerelease[i]))
    && (v.build.Some? ==> IsDottedIdentifiers(v.build.value))
  }

  predicate CoreChars(s: string) {
    forall i | 0 <= i < |s| :: IsDigit(s[i]) || s[i] == '.'
  }

  lemma PrintCoreAppended(v: SemVer)
    ensures PrintCore(v) == Numeral(v.major) + ['.'] + (Numeral(v.minor) + ['.'] + Numeral(v.patch))
  {
    hide Numeral;
    var parts := [Numeral(v.major), Numeral(v.minor), Numeral(v.patch)];
    assert parts[1..][1..] == [parts[2]];
    assert Dotted(parts[1..]) == parts[1] + ['.'] + parts[2];
  }

  lemma CorePrinted(v: SemVer)
    ensures CoreChars(PrintCore(v))
    ensures ParseCore(PrintCore(v), v.prerelease, v.build) == Some(v)
  {
    hide Numeral, Number, Split, Dotted;
    NumeralRoundTrip(v.major);
    NumeralRoundTrip(v.minor);
    NumeralRoundTrip(v.patch);
    PrintCoreAppended(v);
    SplitDotted([Numeral(v.major), Numeral(v.minor), Numeral(v.patch)]);
  }

  lemma {:induction false} DottedChars(parts: seq<string>, c: char)
    requires forall i | 0 <= i < |parts| :: c !in parts[i]
    requires c != '.'
    ensures c !in Dotted(parts)
  {
    if |parts| > 1 {
      DottedChars(parts[1..], c);
    }
  }

  lemma ReleasePrinted(v: SemVer)
    requires Printable(v)
    ensures '+' !in PrintRelease(v)
    ensures ParseRelease(PrintRelease(v), v.build) == Some(v)
  {
    hide ParseCore, PrintCore;
    CorePrinted(v);
    var core := PrintCore(v);
    if v.prerelease == [] {
      assert PrintRelease(v) == core;
      FindAfter(core, '-', "");
    } else {
      var pre := Dotted(v.prerelease);
      DottedChars(v.prerelease, '+');
      SplitDotted(v.prerelease);
      FindAfter(core, '-', pre);
      assert PrintRelease(v) == core + ['-'] + pre;
      assert PrintRelease(v)[..|core|] == core && PrintRelease(v)[|core| + 1..] == pre;
    }
  }

  lemma PrintParse(v: SemVer)
    requires Printable(v)
    ensures Parse(Print(v)) == Some(v)
  {
    hide ParseRelease, PrintRelease;
    ReleasePrinted(v);
    var release := PrintRelease(v);
    if v.build.None? {
      assert Print(v) == release;
      FindAfter(release, '+', "");
    } else {
      FindAfter(release, '+', v.build.value);
      assert Print(v) == release + ['+'] + v.build.value;
      assert Print(v)[..|release|] == release && Print(v)[|release| + 1..] == v.build.value;
    }
  }

  lemma ParsedCore(core: string, prerelease: seq<string>, build: Option<string>)
    requires ParseCore(core, prerelease, build).Some?
    ensures PrintCore(ParseCore(core, prerelease, build).value) == core
  {
    var parts := Split(core);
    DottedSplit(core);
    NumberRoundTrip(parts[0]);
    NumberRoundTrip(parts[1]);
    NumberRoundTrip(parts[2]);
    assert parts == [parts[0], parts[1], parts[2]];
  }

  lemma ParsedRelease(release: string, build: Option<string>)
    requires ParseRelease(release, build).Some?
    ensures PrintRelease(ParseRelease(release, build).value) == release
  {
    hide ParseCore, PrintCore;
    var i := Find(release, '-');
    if i == |release| {
      ParsedCore(release, [], build);
      CoreFields(release, [], build);
    } else {
      var pre := release[i + 1..];
      ParsedCore(release[..i], Split(pre), build);
      CoreFields(release[..i], Split(pre), build);
      DottedSplit(pre);
      assert release == release[..i] + (['-'] + pre);
    }
  }

  lemma CoreFields(core: string, prerelease: seq<string>, build: Option<string>)
    requires ParseCore(core, prerelease, build).Some?
    ensures ParseCore(core, prerelease, build).value.prerelease == prerelease
    ensures ParseCore(core, prerelease, build).value.build == build
  {
  }

  /** Printing a parsed version gives back the text, so parsing loses nothing. */
  lemma ParsePrint(s: string)
    requires Parse(s).Some?
    ensures Print(Parse(s).value) == s && Printable(Parse(s).value)
  {
    hide ParseCore, PrintRelease;
    var i := Find(s, '+');
    var release, build := if i == |s| then s else s[..i], if i == |s| then None else Some(s[i + 1..]);
    ParsedRelease(release, build);
    var j := Find(release, '-');
    if j == |release| {
      CoreFields(release, [], build);
    } else {
      CoreFields(release[..j], Split(release[j + 1..]), build);
    }
    if i < |s| {
      assert s == release + (['+'] + s[i + 1..]);
    }
  }

  /** The accepted texts are exactly the printed versions, one text for each version. */
  lemma ParseExact(s: string, v: SemVer)
    ensures Parse(s) == Some(v) <==> Printable(v) && Print(v) == s
  {
    if Parse(s) == Some(v) {
      ParsePrint(s);
    }
    if Printable(v) && Print(v) == s {
      PrintParse(v);
    }
  }
}
