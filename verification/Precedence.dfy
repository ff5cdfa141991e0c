/** Precedence of semantic versions, and the bump from one version to a later one. */
module Precedence {
  import opened Enums
  import opened Wrappers
  import opened Texts
  import opened SemVers

  type Core = (nat, nat, nat)

  function CoreOf(v: SemVer): Core {
    (v.major, v.minor, v.patch)
  }

  predicate CoreLess(a: Core, b: Core) {
    a.0 < b.0 || (a.0 == b.0 && (a.1 < b.1 || (a.1 == b.1 && a.2 < b.2)))
  }

  /** `(a > b) - (a < b)`, given the two comparisons. */
  function Sign(greater: bool, less: bool): int {
    (if greater then 1 else 0) - (if less then 1 else 0)
  }

  function CompareIdentifiers(left: string, right: string): int {
    if AllDigits(left) && AllDigits(right) then Sign(Number(left) > Number(right), Number(left) < Number(right))
    else if AllDigits(left) then -1
    else if AllDigits(right) then 1
    else Sign(Less(right, left), Less(left, right))
  }

  /** The first difference of two identifier lists over their common length. */
  function CompareZipped(left: seq<string>, right: seq<string>): int {
    if left == [] || right == [] then 0
    else
      var c := CompareIdentifiers(left[0], right[0]);
      if c != 0 then c else CompareZipped(left[1..], right[1..])
  }

  function ComparePrereleases(left: seq<string>, right: seq<string>): int {
    var c := CompareZipped(left, right);
    if c != 0 then c else Sign(|left| > |right|, |left| < |right|)
  }

  function Compare(left: SemVer, right: SemVer): int {
    if CoreOf(left) != CoreOf(right) then
      Sign(CoreLess(CoreOf(right), CoreOf(left)), CoreLess(CoreOf(left), CoreOf(right)))
    else if left.prerelease == [] && right.prerelease == [] then 0
    else if left.prerelease == [] then 1
    else if right.prerelease == [] then -1
    else ComparePrereleases(left.prerelease, right.prerelease)
  }

  // ---------- Section 11 of SemVer 2.0.0, as a relation ----------

  predicate SameIdentifier(a: string, b: string) {
    if AllDigits(a) && AllDigits(b) then Number(a) == Number(b) else a == b
  }

  predicate IdentifierBelow(a: string, b: string) {
    || (AllDigits(a) && AllDigits(b) && Number(a) < Number(b))
    || (AllDigits(a) && !AllDigits(b))
    || (!AllDigits(a) && !AllDigits(b) && Less(a, b))
  }

  /** The lists agree before position k, and there the first one ends or is below the second. */
  predicate DiffersAt(a: seq<string>, b: seq<string>, k: nat) {
    && k <= |a| && k < |b|
    && (forall i | 0 <= i < k :: SameIdentifier(a[i], b[i]))
    && (k < |a| ==> IdentifierBelow(a[k], b[k]))
  }

  ghost predicate PrereleaseBelow(a: seq<string>, b: seq<string>) {
    exists k: nat :: DiffersAt(a, b, k)
  }

  predicate SamePrerelease(a: seq<string>, b: seq<string>) {
    |a| == |b| && forall i | 0 <= i < |a| :: SameIdentifier(a[i], b[i])
  }

  ghost predicate Precedes(a: SemVer, b: SemVer) {
    || CoreLess(CoreOf(a), CoreOf(b))
    || (CoreOf(a) == CoreOf(b) && a.prerelease != [] &&
        (b.prerelease == [] || PrereleaseBelow(a.prerelease, b.prerelease)))
  }

  predicate SamePrecedence(a: SemVer, b: SemVer) {
    CoreOf(a) == CoreOf(b) && SamePrerelease(a.prerelease, b.prerelease)
  }

  lemma IdentifiersExact(a: string, b: string)
    ensures CompareIdentifiers(a, b) == -1 <==> IdentifierBelow(a, b)
    ensures CompareIdentifiers(a, b) == 1 <==> IdentifierBelow(b, a)
    ensures CompareIdentifiers(a, b) == 0 <==> SameIdentifier(a, b)
    ensures -1 <= CompareIdentifiers(a, b) <= 1
  {
    LessTotal(a, b);
  }

  lemma {:induction false} BelowTail(a: seq<string>, b: seq<string>)
    requires a != [] && b != []
    ensures PrereleaseBelow(a, b) <==>
            IdentifierBelow(a[0], b[0]) || (SameIdentifier(a[0], b[0]) && PrereleaseBelow(a[1..], b[1..]))
  {
    if k: nat :| DiffersAt(a, b, k) {
      if k > 0 {
        assert DiffersAt(a[1..], b[1..], k - 1);
      }
    }
    if IdentifierBelow(a[0], b[0]) {
      assert DiffersAt(a, b, 0);
    }
    if k: nat :| SameIdentifier(a[0], b[0]) && DiffersAt(a[1..], b[1..], k) {
      assert forall i | 0 < i <= k :: a[i] == a[1..][i - 1] && b[i] == b[1..][i - 1];
      assert DiffersAt(a, b, k + 1);
    }
  }

  lemma {:induction false} PrereleasesExact(a: seq<string>, b: seq<string>)
    ensures ComparePrereleases(a, b) == -1 <==> PrereleaseBelow(a, b)
    ensures ComparePrereleases(a, b) == 1 <==> PrereleaseBelow(b, a)
    ensures ComparePrereleases(a, b) == 0 <==> SamePrerelease(a, b)
    ensures -1 <= ComparePrereleases(a, b) <= 1
  {
    if a == [] || b == [] {
      assert b != [] ==> (DiffersAt(a, b, 0) <==> a == []);
      assert a != [] ==> (DiffersAt(b, a, 0) <==> b == []);
    } else {
      hide PrereleaseBelow, IdentifierBelow, CompareIdentifiers, SameIdentifier;
      PrereleasesExact(a[1..], b[1..]);
      IdentifiersExact(a[0], b[0]);
      BelowTail(a, b);
      BelowTail(b, a);
      IdentifierSymmetry(a[0], b[0]);
      SamePrereleaseTail(a, b);
    }
  }

  lemma IdentifierSymmetry(a: string, b: string)
    ensures SameIdentifier(a, b) <==> SameIdentifier(b, a)
  {
  }

  lemma SamePrereleaseTail(a: seq<string>, b: seq<string>)
    requires a != [] && b != []
    ensures SamePrerelease(a, b) <==> SameIdentifier(a[0], b[0]) && SamePrerelease(a[1..], b[1..])
  {
    hide SameIdentifier;
    if SameIdentifier(a[0], b[0]) && SamePrerelease(a[1..], b[1..]) {
      assert forall i | 0 < i < |a| :: a[i] == a[1..][i - 1] && b[i] == b[1..][i - 1];
    }
    if SamePrerelease(a, b) {
      assert forall i | 0 <= i < |a| - 1 :: a[1..][i] == a[i + 1] && b[1..][i] == b[i + 1];
    }
  }

  /** The comparison is the precedence of the standard: below, above, or equal up to build and leading zeros. */
  lemma CompareExact(a: SemVer, b: SemVer)
    ensures Compare(a, b) < 0 <==> Precedes(a, b)
    ensures Compare(a, b) > 0 <==> Precedes(b, a)
    ensures Compare(a, b) == 0 <==> SamePrecedence(a, b)
  {
    hide ComparePrereleases, PrereleaseBelow;
    PrereleasesExact(a.prerelease, b.prerelease);
  }

  lemma SamePrereleaseSymmetric(a: seq<string>, b: seq<string>)
    requires SamePrerelease(a, b)
    ensures SamePrerelease(b, a)
  {
    forall i | 0 <= i < |a| ensures SameIdentifier(b[i], a[i]) {
      IdentifierSymmetry(a[i], b[i]);
    }
  }

  lemma PrereleaseSymmetry(a: seq<string>, b: seq<string>)
    ensures ComparePrereleases(a, b) == -ComparePrereleases(b, a)
  {
    hide ComparePrereleases, PrereleaseBelow, SamePrerelease;
    PrereleasesExact(a, b);
    PrereleasesExact(b, a);
    if SamePrerelease(a, b) {
      SamePrereleaseSymmetric(a, b);
    }
    if SamePrerelease(b, a) {
      SamePrereleaseSymmetric(b, a);
    }
  }

  lemma Antisymmetric(a: SemVer, b: SemVer)
    ensures Compare(a, b) == -Compare(b, a)
  {
    hide ComparePrereleases;
    PrereleaseSymmetry(a.prerelease, b.prerelease);
  }

  lemma IdentifiersTransitive(a: string, b: string, c: string)
    requires CompareIdentifiers(a, b) <= 0 && CompareIdentifiers(b, c) <= 0
    ensures CompareIdentifiers(a, c) <= 0
    ensures CompareIdentifiers(a, b) < 0 || CompareIdentifiers(b, c) < 0 ==> CompareIdentifiers(a, c) < 0
    ensures CompareIdentifiers(a, b) == 0 && CompareIdentifiers(b, c) == 0 ==> CompareIdentifiers(a, c) == 0
  {
    LessTotal(a, b);
    LessTotal(b, c);
    LessTotal(a, c);
    if Less(a, b) && Less(b, c) {
      LessTransitive(a, b, c);
    }
  }

  lemma {:induction false} PrereleasesTransitive(a: seq<string>, b: seq<string>, c: seq<string>)
    requires ComparePrereleases(a, b) <= 0 && ComparePrereleases(b, c) <= 0
    ensures ComparePrereleases(a, c) <= 0
    ensures ComparePrereleases(a, b) < 0 || ComparePrereleases(b, c) < 0 ==> ComparePrereleases(a, c) < 0
  {
    hide CompareIdentifiers;
    if a != [] && b != [] && c != [] {
      IdentifiersExact(a[0], b[0]);
      IdentifiersExact(b[0], c[0]);
      IdentifiersTransitive(a[0], b[0], c[0]);
      if CompareIdentifiers(a[0], b[0]) == 0 && CompareIdentifiers(b[0], c[0]) == 0 {
        PrereleasesTransitive(a[1..], b[1..], c[1..]);
      }
    }
  }

  /** A total preorder on versions; it is not antisymmetric, since builds and leading zeros are ignored. */
  lemma Transitive(a: SemVer, b: SemVer, c: SemVer)
    requires Compare(a, b) <= 0 && Compare(b, c) <= 0
    ensures Compare(a, c) <= 0
    ensures Compare(a, b) < 0 || Compare(b, c) < 0 ==> Compare(a, c) < 0
  {
    hide ComparePrereleases;
    if a.prerelease != [] && b.prerelease != [] && c.prerelease != [] && CoreOf(a) == CoreOf(b) == CoreOf(c) {
      PrereleasesTransitive(a.prerelease, b.prerelease, c.prerelease);
    }
  }

  // ---------- Version texts ----------

  function PlainText(major: nat, minor: nat, patch: nat): (s: string)
    ensures Parse(s) == Some(SemVer(major, minor, patch, [], None))
  {
    PrintParse(SemVer(major, minor, patch, [], None));
    Print(SemVer(major, minor, patch, [], None))
  }

  type VersionText = s: string | Parse(s).Some? witness PlainText(0, 0, 0)

  function Parsed(s: VersionText): SemVer {
    Parse(s).value
  }

  function CompareTexts(left: VersionText, right: VersionText): int {
    Compare(Parsed(left), Parsed(right))
  }

  function TextCore(s: VersionText): Core {
    CoreOf(Parsed(s))
  }

  /** The position of the first of the greatest texts: Python's `max` with the comparison as its key. */
  function MaxIndex(texts: seq<VersionText>): (m: nat)
    requires texts != []
    ensures m < |texts|
  {
    var last := |texts| - 1;
    if last == 0 then 0
    else
      var m := MaxIndex(texts[..last]);
      if CompareTexts(texts[last], texts[m]) > 0 then last else m
  }

  ghost predicate FirstGreatest(texts: seq<VersionText>, m: nat) {
    && m < |texts|
    && (forall i | 0 <= i < |texts| :: CompareTexts(texts[i], texts[m]) <= 0)
    && (forall i | 0 <= i < m :: CompareTexts(texts[i], texts[m]) < 0)
  }

  lemma {:induction false} MaxIndexGreatest(texts: seq<VersionText>)
    requires texts != []
    ensures FirstGreatest(texts, MaxIndex(texts))
  {
    hide Compare, Parse;
    var last := |texts| - 1;
    if last == 0 {
      Antisymmetric(Parsed(texts[0]), Parsed(texts[0]));
    } else {
      MaxIndexGreatest(texts[..last]);
      assert forall i | 0 <= i < last :: texts[..last][i] == texts[i];
      MaxStep(texts, MaxIndex(texts[..last]));
    }
  }

  lemma MaxStep(texts: seq<VersionText>, m: nat)
    requires m < |texts| - 1
    requires forall i | 0 <= i < |texts| - 1 :: CompareTexts(texts[i], texts[m]) <= 0
    ensures
      var last := |texts| - 1;
      CompareTexts(texts[last], texts[m]) > 0 ==>
        && CompareTexts(texts[last], texts[last]) <= 0
        && forall i | 0 <= i < last :: CompareTexts(texts[i], texts[last]) < 0
  {
    hide Compare, Parse;
    var last := |texts| - 1;
    Antisymmetric(Parsed(texts[last]), Parsed(texts[last]));
    Antisymmetric(Parsed(texts[last]), Parsed(texts[m]));
    if CompareTexts(texts[last], texts[m]) > 0 {
      forall i | 0 <= i < last ensures CompareTexts(texts[i], texts[last]) < 0 {
        Transitive(Parsed(texts[i]), Parsed(texts[m]), Parsed(texts[last]));
      }
    }
  }

  // ---------- Bumps ----------

  datatype BumpError = InvalidOrder | UnsupportedBump

  function DetectBump(base: VersionText, candidate: VersionText): Result<Bump, BumpError> {
    var b, c := Parsed(base), Parsed(candidate);
    if CompareTexts(candidate, base) <= 0 then Err(InvalidOrder)
    else if c.major != b.major then Ok(Major)
    else if c.minor != b.minor then Ok(Minor)
    else if c.patch != b.patch then Ok(Patch)
    else Err(UnsupportedBump)
  }

  /** A bump is found exactly when the core grows, and it names the first component that does. */
  lemma BumpExact(base: VersionText, candidate: VersionText)
    ensures DetectBump(base, candidate).Ok? <==> CoreLess(TextCore(base), TextCore(candidate))
    ensures DetectBump(base, candidate) == Ok(Major) <==> TextCore(base).0 < TextCore(candidate).0
    ensures DetectBump(base, candidate) == Ok(Minor) <==>
            TextCore(base).0 == TextCore(candidate).0 && TextCore(base).1 < TextCore(candidate).1
    ensures DetectBump(base, candidate) == Ok(Patch) <==>
            TextCore(base).0 == TextCore(candidate).0 && TextCore(base).1 == TextCore(candidate).1 &&
            TextCore(base).2 < TextCore(candidate).2
    ensures DetectBump(base, candidate) == Err(UnsupportedBump) <==>
            TextCore(base) == TextCore(candidate) && Compare(Parsed(base), Parsed(candidate)) < 0
  {
    hide ComparePrereleases, Parse;
    Antisymmetric(Parsed(base), Parsed(candidate));
  }
}
