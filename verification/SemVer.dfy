// src/plugin/validation.ts, compareSemVer: version precedence, set against section 11
// of Semantic Versioning 2.0.0.
module SemVer {
  import opened Wrappers

  datatype Version = Version(major: nat, minor: nat, patch: nat, preRelease: Option<string>, build: Option<string>)

  // How two strings collate: negative, zero or positive.
  type Collation = (string, string) -> int

  predicate IsDigit(c: char) {
    '0' <= c <= '9'
  }

  predicate IsLetter(c: char) {
    'A' <= c <= 'Z' || 'a' <= c <= 'z'
  }

  // The characters of identifiers, in groups: the hyphen, digits, letters.
  function Group(c: char): Option<nat> {
    if c == '-' then Some(0) else if IsDigit(c) then Some(1) else if IsLetter(c) then Some(2) else None
  }

  predicate IsIdentifier(x: string) {
    x != "" && forall i :: 0 <= i < |x| ==> Group(x[i]).Some?
  }

  predicate IsNumeric(x: string) {
    x != "" && forall i :: 0 <= i < |x| ==> IsDigit(x[i])
  }

  // What the version pattern lets between two dots: letters, digits and hyphens, or
  // nothing at all.
  predicate IsPart(x: string) {
    forall i :: 0 <= i < |x| ==> Group(x[i]).Some?
  }

  // What is taken from localeCompare: on parts, a total order in which the empty
  // string comes first and strings whose first characters are of different groups
  // compare as the groups do.
  ghost predicate Collates(lc: Collation) {
    && (forall x, y {:trigger OrdersPair(lc, x, y)} :: IsPart(x) && IsPart(y) ==> OrdersPair(lc, x, y))
    && (forall x, y, z {:trigger OrdersTriple(lc, x, y, z)} ::
          IsPart(x) && IsPart(y) && IsPart(z) ==> OrdersTriple(lc, x, y, z))
  }

  ghost predicate OrdersPair(lc: Collation, x: string, y: string) {
    && (lc(x, y) == 0 <==> x == y)
    && (lc(x, y) < 0 <==> lc(y, x) > 0)
    && (RankBefore(x, y) ==> lc(x, y) < 0)
  }

  ghost predicate OrdersTriple(lc: Collation, x: string, y: string, z: string) {
    lc(x, y) < 0 && lc(y, z) < 0 ==> lc(x, z) < 0
  }

  lemma BothWays(lc: Collation, x: string, y: string)
    requires Collates(lc) && IsPart(x) && IsPart(y)
    ensures OrdersPair(lc, x, y) && OrdersPair(lc, y, x)
  {
  }

  function Rank(x: string): Option<nat> {
    if x == "" then Some(0) else if Group(x[0]).None? then None else Some(Group(x[0]).value + 1)
  }

  predicate RankBefore(x: string, y: string) {
    Rank(x).Some? && Rank(y).Some? && Rank(x).value < Rank(y).value
  }

  // ---------- Numbers ----------

  function NumberOf(s: string): nat
    requires forall i :: 0 <= i < |s| ==> IsDigit(s[i])
  {
    if s == "" then 0
    else
      var last := s[|s| - 1];
      assert IsDigit(last);
      10 * NumberOf(s[..|s| - 1]) + (last - '0') as nat
  }

  function DigitPrefix(s: string): (r: string)
    ensures forall i :: 0 <= i < |r| ==> IsDigit(r[i])
  {
    if s != "" && IsDigit(s[0]) then [s[0]] + DigitPrefix(s[1..]) else ""
  }

  // parseInt in base ten: an optional sign and the digits that follow it.
  function ParseInt(s: string): Option<int> {
    var negative := s != "" && s[0] == '-';
    var digits := DigitPrefix(if negative || (s != "" && s[0] == '+') then s[1..] else s);
    var n: int := NumberOf(digits);
    if digits == "" then None else Some(if negative then -n else n)
  }

  function Numeral(n: nat): (s: string)
    ensures IsNumeric(s) && NumberOf(s) == n
  {
    var last := '0' + (n % 10) as char;
    if n < 10 then [last]
    else
      var s := Numeral(n / 10) + [last];
      assert s[..|s| - 1] == Numeral(n / 10);
      s
  }

  lemma {:induction false} PrefixOfDigits(s: string)
    requires forall i :: 0 <= i < |s| ==> IsDigit(s[i])
    ensures DigitPrefix(s) == s
  {
    if s != "" {
      PrefixOfDigits(s[1..]);
    }
  }

  lemma ParseNumeric(s: string)
    requires IsNumeric(s)
    ensures ParseInt(s) == Some(NumberOf(s))
  {
    PrefixOfDigits(s);
    assert s[0] != '-' && s[0] != '+';
  }

  // After a hyphen, digits are a negative number.
  lemma ParseNegative(s: string)
    requires IsNumeric(s)
    ensures var n: int := NumberOf(s); ParseInt("-" + s) == Some(-n)
  {
    assert ("-" + s)[1..] == s;
    PrefixOfDigits(s);
  }

  // ---------- The comparison ----------

  function CompareIdentifiers(lc: Collation, x: string, y: string): int {
    var a, b := ParseInt(x), ParseInt(y);
    if a.Some? && b.Some? then a.value - b.value else lc(x, y)
  }

  function CompareParts(lc: Collation, a: seq<string>, b: seq<string>): int {
    if a == [] && b == [] then 0
    else if a == [] then -1
    else if b == [] then 1
    else
      var c := CompareIdentifiers(lc, a[0], b[0]);
      if c != 0 then c else CompareParts(lc, a[1..], b[1..])
  }

  function Split(s: string): (parts: seq<string>)
    ensures |parts| > 0
  {
    if s == "" then [""]
    else
      var rest := Split(s[1..]);
      if s[0] == '.' then [""] + rest else [[s[0]] + rest[0]] + rest[1..]
  }

  predicate HasPreRelease(v: Version) {
    v.preRelease.Some? && v.preRelease.value != ""
  }

  function Parts(v: Version): seq<string> {
    if HasPreRelease(v) then Split(v.preRelease.value) else []
  }

  function Compare(lc: Collation, a: Version, b: Version): int {
    if a.major != b.major then a.major - b.major
    else if a.minor != b.minor then a.minor - b.minor
    else if a.patch != b.patch then a.patch - b.patch
    else if HasPreRelease(a) && !HasPreRelease(b) then -1
    else if !HasPreRelease(a) && HasPreRelease(b) then 1
    else if HasPreRelease(a) then CompareParts(lc, Parts(a), Parts(b))
    else 0
  }

  method CompareSemVer(lc: Collation, a: Version, b: Version) returns (r: int)
    ensures r == Compare(lc, a, b)
  {
    if a.major != b.major { return a.major - b.major; }
    if a.minor != b.minor { return a.minor - b.minor; }
    if a.patch != b.patch { return a.patch - b.patch; }
    if HasPreRelease(a) && !HasPreRelease(b) { return -1; }
    if !HasPreRelease(a) && HasPreRelease(b) { return 1; }
    if HasPreRelease(a) && HasPreRelease(b) {
      var aParts, bParts := Split(a.preRelease.value), Split(b.preRelease.value);
      var maxLen := if |aParts| > |bParts| then |aParts| else |bParts|;
      var i := 0;
      while i < maxLen
        invariant 0 <= i <= |aParts| && i <= |bParts| && i <= maxLen
        invariant CompareParts(lc, aParts, bParts) == CompareParts(lc, aParts[i..], bParts[i..])
      {
        if i >= |aParts| { return -1; }
        if i >= |bParts| { return 1; }
        var aNum, bNum := ParseInt(aParts[i]), ParseInt(bParts[i]);
        if aNum.Some? && bNum.Some? {
          if aNum.value != bNum.value { return aNum.value - bNum.value; }
        } else {
          var cmp := lc(aParts[i], bParts[i]);
          if cmp != 0 { return cmp; }
        }
        assert aParts[i..][1..] == aParts[i + 1..] && bParts[i..][1..] == bParts[i + 1..];
        i := i + 1;
      }
    }
    return 0;
  }

  // ---------- Section 11 ----------

  // By the ASCII codes of the first characters that differ; a prefix comes first.
  function AsciiOrder(x: string, y: string): int {
    if x == "" && y == "" then 0
    else if x == "" then -1
    else if y == "" then 1
    else if x[0] != y[0] then x[0] as int - y[0] as int
    else AsciiOrder(x[1..], y[1..])
  }

  // Numeric identifiers compare numerically and before all others, which compare
  // in ASCII order.
  function Section11Identifiers(x: string, y: string): int {
    if IsNumeric(x) && IsNumeric(y) then NumberOf(x) - NumberOf(y)
    else if IsNumeric(x) then -1
    else if IsNumeric(y) then 1
    else AsciiOrder(x, y)
  }

  // The first difference decides; a longer list with an equal beginning comes later.
  ghost predicate Section11Before(a: seq<string>, b: seq<string>) {
    exists n: nat :: DecidedAt(a, b, n)
  }

  ghost predicate DecidedAt(a: seq<string>, b: seq<string>, n: nat) {
    && n <= |a| && n < |b|
    && (forall i :: 0 <= i < n ==> Section11Identifiers(a[i], b[i]) == 0)
    && (n < |a| ==> Section11Identifiers(a[n], b[n]) < 0)
  }

  ghost predicate SameCore(a: Version, b: Version) {
    a.major == b.major && a.minor == b.minor && a.patch == b.patch
  }

  // A pre-release comes before the release; build metadata has no say.
  ghost predicate Section11Precedes(a: Version, b: Version) {
    || a.major < b.major
    || (a.major == b.major && a.minor < b.minor)
    || (a.major == b.major && a.minor == b.minor && a.patch < b.patch)
    || (SameCore(a, b) && HasPreRelease(a) && !HasPreRelease(b))
    || (SameCore(a, b) && HasPreRelease(a) && HasPreRelease(b) && Section11Before(Parts(a), Parts(b)))
  }

  ghost predicate SameSign(x: int, y: int) {
    (x < 0 <==> y < 0) && (x > 0 <==> y > 0)
  }

  // An identifier compares with every numeral as section 11 asks exactly when it is
  // a numeral or starts with a letter.
  lemma AgreesWithNumeralsIff(lc: Collation, x: string)
    requires Collates(lc) && IsIdentifier(x)
    ensures (forall n :: IsNumeric(n) ==> SameSign(CompareIdentifiers(lc, x, n), Section11Identifiers(x, n)))
            <==> IsNumeric(x) || IsLetter(x[0])
  {
    if IsNumeric(x) || IsLetter(x[0]) {
      forall n | IsNumeric(n)
        ensures SameSign(CompareIdentifiers(lc, x, n), Section11Identifiers(x, n))
      {
        GoodPairAgrees(lc, x, n);
      }
    } else {
      var n := if IsDigit(x[0]) then Numeral(NumberOf(DigitPrefix(x)) + 1) else Numeral(0);
      ParseNumeric(n);
      assert Section11Identifiers(x, n) == 1;
      BothWays(lc, x, n);
      if x[0] == '-' {
        assert RankBefore(x, n);
      } else {
        assert DigitPrefix(x) != "";
      }
      assert CompareIdentifiers(lc, x, n) <= 0;
    }
  }

  predicate LetterLed(x: string) {
    IsIdentifier(x) && IsLetter(x[0])
  }

  predicate GoodIdentifier(x: string) {
    IsNumeric(x) || LetterLed(x)
  }

  // What has to hold of the collation for section 11.
  ghost predicate LettersAsAscii(lc: Collation) {
    forall x, y :: LetterLed(x) && LetterLed(y) ==> SameSign(lc(x, y), AsciiOrder(x, y))
  }

  lemma LetterHasNoNumber(x: string)
    requires x != "" && IsLetter(x[0])
    ensures ParseInt(x) == None && !IsNumeric(x)
  {
  }

  lemma GoodPairAgrees(lc: Collation, x: string, y: string)
    requires Collates(lc) && GoodIdentifier(x) && GoodIdentifier(y)
    requires LetterLed(x) && LetterLed(y) ==> SameSign(lc(x, y), AsciiOrder(x, y))
    ensures SameSign(CompareIdentifiers(lc, x, y), Section11Identifiers(x, y))
  {
    if IsNumeric(x) { ParseNumeric(x); } else { LetterHasNoNumber(x); }
    if IsNumeric(y) { ParseNumeric(y); } else { LetterHasNoNumber(y); }
    BothWays(lc, x, y);
    if IsNumeric(x) && !IsNumeric(y) {
      assert RankBefore(x, y);
    } else if !IsNumeric(x) && IsNumeric(y) {
      assert RankBefore(y, x);
    }
  }

  ghost predicate PairAgrees(lc: Collation, x: string, y: string) {
    SameSign(CompareIdentifiers(lc, x, y), Section11Identifiers(x, y))
  }

  // Numerals and identifiers starting with a letter all compare as section 11 asks
  // exactly when the collation puts the latter in ASCII order.
  lemma IdentifiersAgreeIff(lc: Collation)
    requires Collates(lc)
    ensures (forall x, y :: GoodIdentifier(x) && GoodIdentifier(y) ==> PairAgrees(lc, x, y)) <==> LettersAsAscii(lc)
  {
    if LettersAsAscii(lc) {
      forall x, y | GoodIdentifier(x) && GoodIdentifier(y)
        ensures PairAgrees(lc, x, y)
      {
        GoodPairAgrees(lc, x, y);
      }
    }
    if forall x, y :: GoodIdentifier(x) && GoodIdentifier(y) ==> PairAgrees(lc, x, y) {
      forall x, y | LetterLed(x) && LetterLed(y)
        ensures SameSign(lc(x, y), AsciiOrder(x, y))
      {
        assert PairAgrees(lc, x, y);
        LetterHasNoNumber(x);
        LetterHasNoNumber(y);
      }
    }
  }

  ghost predicate GoodParts(a: seq<string>) {
    forall i :: 0 <= i < |a| ==> GoodIdentifier(a[i])
  }

  // The comparison of pre-releases is then the one of section 11.
  lemma {:induction false} PartsAgree(lc: Collation, a: seq<string>, b: seq<string>)
    requires Collates(lc) && LettersAsAscii(lc) && GoodParts(a) && GoodParts(b)
    ensures CompareParts(lc, a, b) < 0 <==> Section11Before(a, b)
  {
    if a != [] && b != [] {
      GoodPairAgrees(lc, a[0], b[0]);
      PartsAgree(lc, a[1..], b[1..]);
      if CompareParts(lc, a, b) < 0 {
        if CompareIdentifiers(lc, a[0], b[0]) == 0 {
          var n: nat :| DecidedAt(a[1..], b[1..], n);
          DecidedLater(a, b, n);
        } else {
          assert DecidedAt(a, b, 0);
        }
      }
      if Section11Before(a, b) {
        var n: nat :| DecidedAt(a, b, n);
        if n > 0 {
          DecidedLater(a, b, n - 1);
        }
      }
    } else if a == [] && b != [] {
      assert DecidedAt(a, b, 0);
    }
  }

  lemma DecidedLater(a: seq<string>, b: seq<string>, n: nat)
    requires a != [] && b != [] && Section11Identifiers(a[0], b[0]) == 0
    ensures DecidedAt(a, b, n + 1) <==> DecidedAt(a[1..], b[1..], n)
  {
    if DecidedAt(a, b, n + 1) {
      assert forall i :: 0 <= i < n ==> a[1..][i] == a[i + 1] && b[1..][i] == b[i + 1];
    }
    if DecidedAt(a[1..], b[1..], n) {
      forall i | 0 <= i < n + 1
        ensures Section11Identifiers(a[i], b[i]) == 0
      {
        if i > 0 {
          assert a[i] == a[1..][i - 1] && b[i] == b[1..][i - 1];
        }
      }
    }
  }

  ghost predicate GoodVersion(v: Version) {
    GoodParts(Parts(v))
  }

  ghost predicate VersionsAgree(lc: Collation, a: Version, b: Version) {
    Compare(lc, a, b) < 0 <==> Section11Precedes(a, b)
  }

  lemma CompareAgrees(lc: Collation, a: Version, b: Version)
    requires Collates(lc) && LettersAsAscii(lc) && GoodVersion(a) && GoodVersion(b)
    ensures VersionsAgree(lc, a, b)
  {
    PartsAgree(lc, Parts(a), Parts(b));
  }

  // All versions made of such identifiers compare as section 11 asks exactly when
  // the collation puts those starting with a letter in ASCII order.
  lemma VersionsAgreeIff(lc: Collation)
    requires Collates(lc)
    ensures (forall a, b :: GoodVersion(a) && GoodVersion(b) ==> VersionsAgree(lc, a, b)) <==> LettersAsAscii(lc)
  {
    if LettersAsAscii(lc) {
      forall a, b | GoodVersion(a) && GoodVersion(b)
        ensures VersionsAgree(lc, a, b)
      {
        CompareAgrees(lc, a, b);
      }
    }
    if forall a, b :: GoodVersion(a) && GoodVersion(b) ==> VersionsAgree(lc, a, b) {
      forall x, y | LetterLed(x) && LetterLed(y)
        ensures SameSign(lc(x, y), AsciiOrder(x, y))
      {
        OneLetterWord(x);
        OneLetterWord(y);
        assert VersionsAgree(lc, PreReleaseOf(x), PreReleaseOf(y));
        assert VersionsAgree(lc, PreReleaseOf(y), PreReleaseOf(x));
        WordsDecide(lc, x, y);
        WordsDecide(lc, y, x);
        AsciiBasics(x, y);
        AsciiBasics(y, x);
        BothWays(lc, x, y);
      }
    }
  }

  function PreReleaseOf(x: string): Version {
    Version(0, 0, 0, Some(x), None)
  }

  lemma OneLetterWord(x: string)
    requires LetterLed(x)
    ensures Parts(PreReleaseOf(x)) == [x] && GoodVersion(PreReleaseOf(x))
  {
    SplitUndotted(x);
  }

  lemma {:induction false} SplitUndotted(x: string)
    requires forall i :: 0 <= i < |x| ==> Group(x[i]).Some?
    ensures Split(x) == [x]
  {
    if x != "" {
      SplitUndotted(x[1..]);
      assert x == [x[0]] + x[1..];
    }
  }

  lemma WordsDecide(lc: Collation, x: string, y: string)
    requires LetterLed(x) && LetterLed(y)
    requires Parts(PreReleaseOf(x)) == [x] && Parts(PreReleaseOf(y)) == [y]
    ensures Compare(lc, PreReleaseOf(x), PreReleaseOf(y)) < 0 <==> lc(x, y) < 0
    ensures Section11Precedes(PreReleaseOf(x), PreReleaseOf(y)) <==> AsciiOrder(x, y) < 0
  {
    LetterHasNoNumber(x);
    LetterHasNoNumber(y);
    assert CompareIdentifiers(lc, x, y) == lc(x, y);
    assert [x][1..] == [] && [y][1..] == [] && CompareParts(lc, [], []) == 0;
    assert CompareParts(lc, [x], [y]) == lc(x, y);
    assert DecidedAt([x], [y], 0) <==> AsciiOrder(x, y) < 0;
  }

  // ---------- A preorder ----------

  predicate Numbered(x: string) {
    ParseInt(x).Some?
  }

  // A string without a number that comes before one with a number comes before all
  // higher ones.
  ghost predicate Monotone(lc: Collation, w: string, x: string, y: string) {
    !Numbered(w) && Numbered(x) && Numbered(y) && ParseInt(x).value <= ParseInt(y).value && lc(w, x) < 0 ==>
      lc(w, y) < 0
  }

  lemma IdentifiersFlip(lc: Collation, x: string, y: string)
    requires Collates(lc) && IsPart(x) && IsPart(y)
    ensures CompareIdentifiers(lc, x, y) < 0 <==> CompareIdentifiers(lc, y, x) > 0
    ensures CompareIdentifiers(lc, x, y) == 0 <==> CompareIdentifiers(lc, y, x) == 0
  {
    BothWays(lc, x, y);
  }

  lemma IdentifiersChain(lc: Collation, x: string, y: string, z: string)
    requires Collates(lc) && IsPart(x) && IsPart(y) && IsPart(z)
    requires Monotone(lc, x, y, z) && Monotone(lc, y, z, x) && Monotone(lc, z, x, y)
    requires CompareIdentifiers(lc, x, y) <= 0 && CompareIdentifiers(lc, y, z) <= 0
    ensures CompareIdentifiers(lc, x, z) <= 0
    ensures CompareIdentifiers(lc, x, z) == 0 <==>
            CompareIdentifiers(lc, x, y) == 0 && CompareIdentifiers(lc, y, z) == 0
  {
    BothWays(lc, x, y);
    BothWays(lc, y, z);
    BothWays(lc, x, z);
    assert OrdersTriple(lc, x, y, z);
  }

  ghost predicate Chains(lc: Collation, x: string, y: string, z: string) {
    CompareIdentifiers(lc, x, y) <= 0 && CompareIdentifiers(lc, y, z) <= 0 ==> CompareIdentifiers(lc, x, z) <= 0
  }

  // ---------- Where it is one ----------

  predicate HyphenNumber(x: string) {
    |x| > 1 && x[0] == '-' && IsDigit(x[1])
  }

  predicate HyphenWord(x: string) {
    x != "" && x[0] == '-' && !HyphenNumber(x)
  }

  // By number x comes up to y, which a collation may put before w and w before x.
  predicate Unsettled(w: string, x: string, y: string) {
    HyphenWord(w) && HyphenNumber(y) && Numbered(y) && Numbered(x) && x != y && ParseInt(x).value <= ParseInt(y).value
  }

  ghost predicate Settled(parts: iset<string>) {
    && (forall x :: x in parts ==> IsPart(x))
    && forall w, x, y :: w in parts && x in parts && y in parts ==> !Unsettled(w, x, y)
  }

  lemma NumberedIff(x: string)
    requires IsPart(x)
    ensures Numbered(x) <==> x != "" && (IsDigit(x[0]) || HyphenNumber(x))
  {
    if x != "" && x[0] == '-' {
      if |x| > 1 {
        assert x[1..][0] == x[1];
      }
      assert DigitPrefix(x[1..]) == "" <==> !HyphenNumber(x);
    }
    assert x != "" ==> Group(x[0]).Some?;
  }

  lemma SettledIsMonotone(lc: Collation, w: string, x: string, y: string)
    requires Collates(lc) && IsPart(w) && IsPart(x) && IsPart(y) && !Unsettled(w, x, y)
    ensures Monotone(lc, w, x, y)
  {
    NumberedIff(w);
    NumberedIff(x);
    NumberedIff(y);
    BothWays(lc, w, x);
    BothWays(lc, w, y);
    assert w != "" ==> Group(w[0]).Some?;
  }

  // By group, then y, w and x in this order before the others, then in ASCII order.
  function FavouringOrder(y: string, w: string, x: string, a: string, b: string): int {
    if RankOr(a) != RankOr(b) then RankOr(a) - RankOr(b)
    else if Place(y, w, x, a) != Place(y, w, x, b) then Place(y, w, x, a) - Place(y, w, x, b)
    else AsciiOrder(a, b)
  }

  function RankOr(a: string): int {
    if Rank(a).Some? then Rank(a).value else 4
  }

  function Place(y: string, w: string, x: string, a: string): int {
    if a == y then 0 else if a == w then 1 else if a == x then 2 else 3
  }

  function Favouring(y: string, w: string, x: string): Collation {
    (a, b) => FavouringOrder(y, w, x, a, b)
  }

  lemma FavouringCollates(y: string, w: string, x: string)
    ensures Collates(Favouring(y, w, x))
  {
    var lc := Favouring(y, w, x);
    forall a, b
      ensures OrdersPair(lc, a, b)
    {
      AsciiBasics(a, b);
    }
    forall a, b, c
      ensures OrdersTriple(lc, a, b, c)
    {
      if AsciiOrder(a, b) < 0 && AsciiOrder(b, c) < 0 {
        AsciiChain(a, b, c);
      }
    }
  }

  // Three unsettled parts make a cycle under some collation.
  lemma UnsettledBreaks(w: string, x: string, y: string)
    requires IsPart(w) && IsPart(x) && IsPart(y) && Unsettled(w, x, y)
    ensures Collates(Favouring(y, w, x)) && !Chains(Favouring(y, w, x), x, y, w)
  {
    FavouringCollates(y, w, x);
    NumberedIff(w);
    NumberedIff(x);
    NumberedIff(y);
  }

  ghost predicate TransitiveOn(lc: Collation, parts: iset<string>) {
    forall x, y, z :: x in parts && y in parts && z in parts ==> Chains(lc, x, y, z)
  }

  // The sets of parts on which the comparison is transitive under every collation:
  // those without a word and a number that both start with a hyphen, and another
  // number not above that one.
  lemma TransitiveIff(parts: iset<string>)
    requires forall x :: x in parts ==> IsPart(x)
    ensures (forall lc :: Collates(lc) ==> TransitiveOn(lc, parts)) <==> Settled(parts)
  {
    if Settled(parts) {
      forall lc, x, y, z | Collates(lc) && x in parts && y in parts && z in parts
        ensures Chains(lc, x, y, z)
      {
        if CompareIdentifiers(lc, x, y) <= 0 && CompareIdentifiers(lc, y, z) <= 0 {
          SettledChain(lc, parts, x, y, z);
        }
      }
    }
    if !Settled(parts) {
      var w, x, y :| w in parts && x in parts && y in parts && Unsettled(w, x, y);
      UnsettledBreaks(w, x, y);
      assert !TransitiveOn(Favouring(y, w, x), parts);
    }
  }

  lemma SettledChain(lc: Collation, parts: iset<string>, x: string, y: string, z: string)
    requires Collates(lc) && Settled(parts) && x in parts && y in parts && z in parts
    requires CompareIdentifiers(lc, x, y) <= 0 && CompareIdentifiers(lc, y, z) <= 0
    ensures CompareIdentifiers(lc, x, z) <= 0
    ensures CompareIdentifiers(lc, x, z) == 0 <==>
            CompareIdentifiers(lc, x, y) == 0 && CompareIdentifiers(lc, y, z) == 0
  {
    SettledIsMonotone(lc, x, y, z);
    SettledIsMonotone(lc, y, z, x);
    SettledIsMonotone(lc, z, x, y);
    IdentifiersChain(lc, x, y, z);
  }

  // The part 0 equals -0, which starts with a hyphen and so comes before -a, which
  // comes before 0.
  lemma HyphenNumberExample()
    ensures CompareIdentifiers(AsciiOrder, "0", "-0") == 0 && CompareIdentifiers(AsciiOrder, "-0", "-a") < 0
    ensures CompareIdentifiers(AsciiOrder, "0", "-a") > 0
    ensures Unsettled("-a", "0", "-0")
  {
    assert "-0"[1..] == "0" && "-a"[1..] == "a";
    ParseNumeric("0");
    assert DigitPrefix("0") == "0" by {
      PrefixOfDigits("0");
    }
    assert "0"[..0] == "" && NumberOf("0") == 0;
    assert ParseInt("-0") == Some(0);
    assert DigitPrefix("a") == "" && ParseInt("-a") == None;
  }

  ghost predicate Among(parts: iset<string>, a: seq<string>) {
    forall i :: 0 <= i < |a| ==> a[i] in parts
  }

  lemma {:induction false} PartsFlip(lc: Collation, a: seq<string>, b: seq<string>)
    requires Collates(lc) && (forall x :: x in a || x in b ==> IsPart(x))
    ensures CompareParts(lc, a, b) < 0 <==> CompareParts(lc, b, a) > 0
    ensures CompareParts(lc, a, b) == 0 <==> CompareParts(lc, b, a) == 0
  {
    if a != [] && b != [] {
      assert a[0] in a && b[0] in b;
      IdentifiersFlip(lc, a[0], b[0]);
      IdentifiersFlip(lc, b[0], a[0]);
      PartsFlip(lc, a[1..], b[1..]);
    }
  }

  lemma {:induction false} PartsChain(lc: Collation, parts: iset<string>,
                                      a: seq<string>, b: seq<string>, c: seq<string>)
    requires Collates(lc) && Settled(parts) && Among(parts, a) && Among(parts, b) && Among(parts, c)
    requires CompareParts(lc, a, b) <= 0 && CompareParts(lc, b, c) <= 0
    ensures CompareParts(lc, a, c) <= 0
  {
    if a != [] && b != [] && c != [] {
      SettledChain(lc, parts, a[0], b[0], c[0]);
      if CompareIdentifiers(lc, a[0], c[0]) == 0 {
        PartsChain(lc, parts, a[1..], b[1..], c[1..]);
      }
    }
  }

  // A version whose parts are all among the given ones.
  ghost predicate MadeOf(parts: iset<string>, v: Version) {
    Among(parts, Parts(v))
  }

  // The comparison is antisymmetric in sign and transitive.
  lemma CompareIsPreorder(lc: Collation, parts: iset<string>, a: Version, b: Version, c: Version)
    requires Collates(lc) && Settled(parts) && MadeOf(parts, a) && MadeOf(parts, b) && MadeOf(parts, c)
    ensures Compare(lc, a, b) < 0 <==> Compare(lc, b, a) > 0
    ensures Compare(lc, a, b) == 0 <==> Compare(lc, b, a) == 0
    ensures Compare(lc, a, b) <= 0 && Compare(lc, b, c) <= 0 ==> Compare(lc, a, c) <= 0
  {
    PartsFlip(lc, Parts(a), Parts(b));
    if CompareParts(lc, Parts(a), Parts(b)) <= 0 && CompareParts(lc, Parts(b), Parts(c)) <= 0 {
      PartsChain(lc, parts, Parts(a), Parts(b), Parts(c));
    }
  }

  ghost predicate VersionsChain(lc: Collation, a: Version, b: Version, c: Version) {
    Compare(lc, a, b) <= 0 && Compare(lc, b, c) <= 0 ==> Compare(lc, a, c) <= 0
  }

  ghost predicate VersionsTransitive(lc: Collation, parts: iset<string>) {
    forall a, b, c :: MadeOf(parts, a) && MadeOf(parts, b) && MadeOf(parts, c) ==> VersionsChain(lc, a, b, c)
  }

  // Likewise for all versions made of the parts.
  lemma VersionsTransitiveIff(parts: iset<string>)
    requires forall x :: x in parts ==> IsPart(x)
    ensures (forall lc :: Collates(lc) ==> VersionsTransitive(lc, parts)) <==> Settled(parts)
  {
    if Settled(parts) {
      forall lc, a, b, c | Collates(lc) && MadeOf(parts, a) && MadeOf(parts, b) && MadeOf(parts, c)
        ensures VersionsChain(lc, a, b, c)
      {
        CompareIsPreorder(lc, parts, a, b, c);
      }
    }
    if !Settled(parts) {
      var w, x, y :| w in parts && x in parts && y in parts && Unsettled(w, x, y);
      var lc := Favouring(y, w, x);
      UnsettledBreaks(w, x, y);
      OneWordVersions(lc, x, y);
      OneWordVersions(lc, y, w);
      OneWordVersions(lc, x, w);
      assert !VersionsChain(lc, PreReleaseOf(x), PreReleaseOf(y), PreReleaseOf(w));
      assert !VersionsTransitive(lc, parts);
    }
  }

  lemma OneWordVersions(lc: Collation, x: string, y: string)
    requires x != "" && y != "" && IsPart(x) && IsPart(y)
    ensures Parts(PreReleaseOf(x)) == [x] && Parts(PreReleaseOf(y)) == [y]
    ensures Compare(lc, PreReleaseOf(x), PreReleaseOf(y)) == CompareIdentifiers(lc, x, y)
  {
    SplitUndotted(x);
    SplitUndotted(y);
    assert [x][1..] == [] && [y][1..] == [] && CompareParts(lc, [], []) == 0;
  }

  // ---------- When versions compare as equal ----------

  // A numeral without superfluous zeros, or an identifier starting with a letter.
  predicate Canonical(x: string) {
    if IsNumeric(x) then |x| == 1 || x[0] != '0' else LetterLed(x)
  }

  lemma NumeralSnoc(n: nat, c: char)
    requires n > 0 && IsDigit(c)
    ensures Numeral(10 * n + (c - '0') as nat) == Numeral(n) + [c]
  {
    var d := (c - '0') as nat;
    assert (10 * n + d) / 10 == n && (10 * n + d) % 10 == d;
  }

  lemma {:induction false} PositiveNumber(x: string)
    requires IsNumeric(x) && x[0] != '0'
    ensures NumberOf(x) > 0
  {
    var front, last := x[..|x| - 1], x[|x| - 1];
    assert IsDigit(last);
    if |x| == 1 {
      assert front == "";
    } else {
      assert front[0] == x[0];
      PositiveNumber(front);
    }
  }

  lemma {:induction false} CanonicalNumeral(x: string)
    requires IsNumeric(x) && Canonical(x)
    ensures x == Numeral(NumberOf(x))
  {
    var front, last := x[..|x| - 1], x[|x| - 1];
    assert IsDigit(last);
    if |x| == 1 {
      assert front == "";
    } else {
      assert front[0] == x[0];
      CanonicalNumeral(front);
      PositiveNumber(front);
      NumeralSnoc(NumberOf(front), last);
      assert NumberOf(x) == 10 * NumberOf(front) + (last - '0') as nat;
      assert x == front + [last];
    }
  }

  lemma CanonicalParse(x: string)
    requires Canonical(x)
    ensures if IsNumeric(x) then ParseInt(x) == Some(NumberOf(x)) && x == Numeral(NumberOf(x)) else ParseInt(x) == None
  {
    if IsNumeric(x) {
      ParseNumeric(x);
      CanonicalNumeral(x);
    } else {
      LetterHasNoNumber(x);
    }
  }

  lemma {:induction false} EqualPartsIff(lc: Collation, a: seq<string>, b: seq<string>)
    requires Collates(lc) && (forall x :: x in a || x in b ==> Canonical(x))
    ensures CompareParts(lc, a, b) == 0 <==> a == b
  {
    if a != [] && b != [] {
      var x, y := a[0], b[0];
      assert x in a && y in b;
      EqualPartsIff(lc, a[1..], b[1..]);
      assert CompareIdentifiers(lc, x, y) == 0 <==> x == y by {
        BothWays(lc, x, y);
        CanonicalParse(x);
        CanonicalParse(y);
      }
      assert a == [x] + a[1..] && b == [y] + b[1..];
    }
  }

  function Join(parts: seq<string>): string {
    if parts == [] then ""
    else if |parts| == 1 then parts[0]
    else parts[0] + "." + Join(parts[1..])
  }

  lemma {:induction false} JoinSplit(s: string)
    ensures Join(Split(s)) == s
  {
    if s != "" {
      JoinSplit(s[1..]);
      var rest := Split(s[1..]);
      if s[0] == '.' {
        assert Join([""] + rest) == "" + "." + Join(rest);
      } else {
        var first := [s[0]] + rest[0];
        assert ([first] + rest[1..])[1..] == rest[1..];
        if |rest| > 1 {
          assert first + "." + Join(rest[1..]) == [s[0]] + (rest[0] + "." + Join(rest[1..]));
        }
      }
    }
  }

  // Versions with canonical identifiers compare as equal exactly when they are,
  // apart from build metadata.
  lemma ZeroIffEqual(lc: Collation, a: Version, b: Version)
    requires Collates(lc) && (forall x :: x in Parts(a) || x in Parts(b) ==> Canonical(x))
    ensures Compare(lc, a, b) == 0 <==>
      && a.major == b.major && a.minor == b.minor && a.patch == b.patch
      && HasPreRelease(a) == HasPreRelease(b)
      && (HasPreRelease(a) ==> a.preRelease == b.preRelease)
  {
    EqualPartsIff(lc, Parts(a), Parts(b));
    if HasPreRelease(a) && HasPreRelease(b) {
      JoinSplit(a.preRelease.value);
      JoinSplit(b.preRelease.value);
    }
  }

  // Section 11 puts the numeral 2 before 1a; the code compares their leading
  // numbers instead, by which 1a also equals 1.
  lemma LeadingDigitsExample(lc: Collation)
    ensures CompareIdentifiers(lc, "1a", "2") < 0 && Section11Identifiers("1a", "2") > 0
    ensures CompareIdentifiers(lc, "1a", "1") == 0
  {
    assert !IsNumeric("1a") by {
      assert !IsDigit("1a"[1]);
    }
    assert "1a"[1..] == "a" && DigitPrefix("a") == "";
    assert DigitPrefix("1a") == "1";
    assert "1"[..0] == "" && "2"[..0] == "";
    assert NumberOf("1") == 1 && NumberOf("2") == 2;
    ParseNumeric("1");
    ParseNumeric("2");
  }

  // ---------- Minimum versions ----------

  // parse is the version parser, None where it finds no version.
  predicate SatisfiesMinVersion(lc: Collation, parse: string -> Option<Version>, version: string, min: string) {
    parse(version).Some? && parse(min).Some? && Compare(lc, parse(version).value, parse(min).value) >= 0
  }

  // Whatever satisfies a minimum keeps satisfying it as it grows.
  lemma MinVersionIsUpwardClosed(lc: Collation, parts: iset<string>, parse: string -> Option<Version>,
                                 v: string, w: string, min: string)
    requires Collates(lc) && Settled(parts)
    requires forall x :: x in [v, w, min] && parse(x).Some? ==> MadeOf(parts, parse(x).value)
    requires SatisfiesMinVersion(lc, parse, v, min) && SatisfiesMinVersion(lc, parse, w, v)
    ensures SatisfiesMinVersion(lc, parse, w, min)
  {
    var a, b, c := parse(min).value, parse(v).value, parse(w).value;
    assert v in [v, w, min] && w in [v, w, min] && min in [v, w, min];
    CompareIsPreorder(lc, parts, a, b, c);
    CompareIsPreorder(lc, parts, b, c, a);
    CompareIsPreorder(lc, parts, a, c, b);
  }

  // In terms of section 11, under the condition of VersionsAgreeIff: a version meets a
  // minimum exactly when it does not precede it. A version meets itself.
  lemma SatisfiesIffNotBefore(lc: Collation, parse: string -> Option<Version>, version: string, min: string)
    requires Collates(lc) && LettersAsAscii(lc) && parse(version).Some? && parse(min).Some?
    requires GoodVersion(parse(version).value) && GoodVersion(parse(min).value)
    ensures SatisfiesMinVersion(lc, parse, version, min)
            <==> !Section11Precedes(parse(version).value, parse(min).value)
    ensures SatisfiesMinVersion(lc, parse, version, version)
  {
    CompareAgrees(lc, parse(version).value, parse(min).value);
    ComparesWithItself(lc, Parts(parse(version).value));
  }

  lemma {:induction false} ComparesWithItself(lc: Collation, a: seq<string>)
    requires Collates(lc) && GoodParts(a)
    ensures CompareParts(lc, a, a) == 0
  {
    if a != [] {
      BothWays(lc, a[0], a[0]);
      ComparesWithItself(lc, a[1..]);
    }
  }

  // A string without a version meets no minimum and is no minimum.
  lemma UnparsedNeverSatisfies(lc: Collation, parse: string -> Option<Version>, version: string, min: string)
    requires parse(version).None? || parse(min).None?
    ensures !SatisfiesMinVersion(lc, parse, version, min)
  {
  }

  // ---------- Such collations exist ----------

  lemma AsciiBasics(x: string, y: string)
    ensures AsciiOrder(x, y) == 0 <==> x == y
    ensures AsciiOrder(x, y) < 0 <==> AsciiOrder(y, x) > 0
  {
    AsciiEqual(x, y);
    AsciiFlip(x, y);
  }

  lemma {:induction false} AsciiEqual(x: string, y: string)
    ensures AsciiOrder(x, y) == 0 <==> x == y
  {
    if x != "" && y != "" {
      AsciiEqual(x[1..], y[1..]);
      assert x == [x[0]] + x[1..] && y == [y[0]] + y[1..];
    }
  }

  lemma {:induction false} AsciiFlip(x: string, y: string)
    ensures AsciiOrder(x, y) < 0 <==> AsciiOrder(y, x) > 0
  {
    if x != "" && y != "" {
      AsciiFlip(x[1..], y[1..]);
    }
  }

  lemma {:induction false} AsciiChain(x: string, y: string, z: string)
    requires AsciiOrder(x, y) < 0 && AsciiOrder(y, z) < 0
    ensures AsciiOrder(x, z) < 0
  {
    if x != "" && y != "" && z != "" && x[0] == y[0] == z[0] {
      AsciiChain(x[1..], y[1..], z[1..]);
    }
  }

  lemma AsciiCollates()
    ensures Collates(AsciiOrder)
  {
    forall x, y
      ensures AsciiOrder(x, y) == 0 <==> x == y
      ensures AsciiOrder(x, y) < 0 <==> AsciiOrder(y, x) > 0
    {
      AsciiBasics(x, y);
    }
    forall x, y, z | AsciiOrder(x, y) < 0 && AsciiOrder(y, z) < 0
      ensures AsciiOrder(x, z) < 0
    {
      AsciiChain(x, y, z);
    }
  }

  // ---------- A collation that is not ASCII ----------

  function Lower(c: char): char {
    if 'A' <= c <= 'Z' then c + ('a' - 'A') else c
  }

  function Swap(c: char): char {
    if 'A' <= c <= 'Z' then c + ('a' - 'A') else if 'a' <= c <= 'z' then c - ('a' - 'A') else c
  }

  function Mapped(f: char -> char, x: string): (r: string)
    ensures |r| == |x| && forall i :: 0 <= i < |x| ==> r[i] == f(x[i])
  {
    if x == "" then "" else [f(x[0])] + Mapped(f, x[1..])
  }

  // As in a dictionary: letters alphabetically whatever their case, and among words
  // that differ in case only the lower case first.
  function DictionaryOrder(x: string, y: string): int {
    var c := AsciiOrder(Mapped(Lower, x), Mapped(Lower, y));
    if c != 0 then c else AsciiOrder(Mapped(Swap, x), Mapped(Swap, y))
  }

  lemma SwapIsInjective(x: string, y: string)
    requires Mapped(Swap, x) == Mapped(Swap, y)
    ensures x == y
  {
    assert |x| == |y|;
    forall i | 0 <= i < |x|
      ensures x[i] == y[i]
    {
      assert Mapped(Swap, x)[i] == Mapped(Swap, y)[i];
    }
  }

  lemma AsciiTransitive(x: string, y: string, z: string)
    requires AsciiOrder(x, y) <= 0 && AsciiOrder(y, z) <= 0
    ensures AsciiOrder(x, z) <= 0
    ensures AsciiOrder(x, z) == 0 ==> x == y == z
  {
    AsciiBasics(x, y);
    AsciiBasics(y, z);
    AsciiBasics(x, z);
    if AsciiOrder(x, y) < 0 && AsciiOrder(y, z) < 0 {
      AsciiChain(x, y, z);
    }
  }

  lemma DictionaryChain(x: string, y: string, z: string)
    requires DictionaryOrder(x, y) < 0 && DictionaryOrder(y, z) < 0
    ensures DictionaryOrder(x, z) < 0
  {
    AsciiTransitive(Mapped(Lower, x), Mapped(Lower, y), Mapped(Lower, z));
    if AsciiOrder(Mapped(Lower, x), Mapped(Lower, z)) == 0 {
      AsciiBasics(Mapped(Lower, x), Mapped(Lower, y));
      AsciiBasics(Mapped(Lower, y), Mapped(Lower, z));
      AsciiChain(Mapped(Swap, x), Mapped(Swap, y), Mapped(Swap, z));
    }
  }

  lemma DictionaryBasics(x: string, y: string)
    ensures DictionaryOrder(x, y) == 0 <==> x == y
    ensures DictionaryOrder(x, y) < 0 <==> DictionaryOrder(y, x) > 0
    ensures RankBefore(x, y) ==> DictionaryOrder(x, y) < 0
  {
    AsciiBasics(Mapped(Lower, x), Mapped(Lower, y));
    AsciiBasics(Mapped(Lower, y), Mapped(Lower, x));
    AsciiBasics(Mapped(Swap, x), Mapped(Swap, y));
    AsciiBasics(Mapped(Swap, y), Mapped(Swap, x));
    if Mapped(Swap, x) == Mapped(Swap, y) {
      SwapIsInjective(x, y);
    }
    if RankBefore(x, y) && x != "" {
      assert Mapped(Lower, x)[0] == Lower(x[0]) && Mapped(Lower, y)[0] == Lower(y[0]);
    }
  }

  lemma DictionaryCollates()
    ensures Collates(DictionaryOrder)
  {
    forall x, y
      ensures DictionaryOrder(x, y) == 0 <==> x == y
      ensures DictionaryOrder(x, y) < 0 <==> DictionaryOrder(y, x) > 0
      ensures RankBefore(x, y) ==> DictionaryOrder(x, y) < 0
    {
      DictionaryBasics(x, y);
    }
    forall x, y, z | DictionaryOrder(x, y) < 0 && DictionaryOrder(y, z) < 0
      ensures DictionaryOrder(x, z) < 0
    {
      DictionaryChain(x, y, z);
    }
  }

  // By first letters of different case, the two orders can disagree.
  lemma FirstLetterDecides(x: string, y: string)
    requires LetterLed(x) && LetterLed(y) && Lower(x[0]) < Lower(y[0]) && x[0] > y[0]
    ensures CompareIdentifiers(DictionaryOrder, x, y) < 0 && Section11Identifiers(x, y) > 0
  {
    LetterHasNoNumber(x);
    LetterHasNoNumber(y);
    assert Mapped(Lower, x)[0] == Lower(x[0]) && Mapped(Lower, y)[0] == Lower(y[0]);
  }

  // Under a dictionary's collation alpha comes before Beta, against section 11.
  lemma MixedCaseExample()
    ensures Collates(DictionaryOrder) && !LettersAsAscii(DictionaryOrder)
    ensures CompareIdentifiers(DictionaryOrder, "alpha", "Beta") < 0 && Section11Identifiers("alpha", "Beta") > 0
  {
    DictionaryCollates();
    FirstLetterDecides("alpha", "Beta");
    assert !PairAgrees(DictionaryOrder, "alpha", "Beta");
    IdentifiersAgreeIff(DictionaryOrder);
  }
}
