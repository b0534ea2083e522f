// Strict release versions and their tags (Semantic Versioning 2.0.0, items 2, 6-8 and 11).
module Versions {
  import opened Options

  datatype Version = Version(major: nat, minor: nat, patch: nat)

  // Precedence compares major, minor and patch numerically, in this order.
  predicate Less(a: Version, b: Version) {
    a.major < b.major || (a.major == b.major && (a.minor < b.minor || (a.minor == b.minor && a.patch < b.patch)))
  }

  predicate AtMost(a: Version, b: Version) {
    Less(a, b) || a == b
  }

  datatype Bump = NoBump | Patch | Minor | Major

  function Rank(b: Bump): nat {
    match b
    case NoBump => 0
    case Patch => 1
    case Minor => 2
    case Major => 3
  }

  function MaxBump(left: Bump, right: Bump): Bump {
    if Rank(left) >= Rank(right) then left else right
  }

  // `Version.bump`; asking for no bump is an error.
  function BumpVersion(v: Version, kind: Bump): Option<Version> {
    match kind
    case Major => Some(Version(v.major + 1, 0, 0))
    case Minor => Some(Version(v.major, v.minor + 1, 0))
    case Patch => Some(Version(v.major, v.minor, v.patch + 1))
    case NoBump => None
  }

  // The least version above `v` that differs from it in the bumped part.
  lemma BumpIsNext(v: Version, kind: Bump, w: Version)
    requires kind != NoBump
    ensures Less(v, BumpVersion(v, kind).value)
    ensures Less(v, w) && (kind == Major ==> w.major > v.major)
            && (kind == Minor ==> w.major > v.major || w.minor > v.minor)
            ==> AtMost(BumpVersion(v, kind).value, w)
  {
  }

  lemma LessTransitive(a: Version, b: Version, c: Version)
    requires Less(a, b) && Less(b, c)
    ensures Less(a, c)
  {
  }

  // ----- Decimal numbers -----

  predicate IsDigit(c: char) { '0' <= c <= '9' }

  function DigitChar(d: nat): (c: char)
    requires d < 10
    ensures IsDigit(c) && c as int == '0' as int + d
  {
    '0' + d as char
  }

  function Decimal(n: nat): (s: string)
    ensures |s| > 0 && forall i :: 0 <= i < |s| ==> IsDigit(s[i])
    ensures s[0] == '0' ==> |s| == 1 && n == 0
  {
    if n < 10 then [DigitChar(n)] else Decimal(n / 10) + [DigitChar(n % 10)]
  }

  function DigitValue(c: char): nat
    requires IsDigit(c)
  {
    c as int - '0' as int
  }

  function DigitsValue(s: string): nat
    requires forall i :: 0 <= i < |s| ==> IsDigit(s[i])
  {
    if s == [] then 0 else 10 * DigitsValue(s[..|s| - 1]) + DigitValue(s[|s| - 1])
  }

  // The pattern for one number: zero, or digits that do not start with zero.
  predicate IsNumber(s: string) {
    && |s| > 0
    && (forall i :: 0 <= i < |s| ==> IsDigit(s[i]))
    && (s[0] == '0' ==> |s| == 1)
  }

  lemma {:induction false} ValueOfDecimal(n: nat)
    ensures DigitsValue(Decimal(n)) == n
  {
    if n < 10 {
      assert [DigitChar(n)][..0] == [];
    } else {
      ValueOfDecimal(n / 10);
      var s := Decimal(n);
      assert s[..|s| - 1] == Decimal(n / 10);
    }
  }

  // Rejecting leading zeros makes the notation unique.
  lemma {:induction false} DecimalOfValue(s: string)
    requires IsNumber(s)
    ensures Decimal(DigitsValue(s)) == s
    ensures |s| > 1 ==> DigitsValue(s) >= 10
    ensures s[0] != '0' ==> DigitsValue(s) > 0
  {
    var front, last := s[..|s| - 1], s[|s| - 1];
    if |s| == 1 {
      assert front == [];
      assert DigitsValue(s) == DigitValue(last);
    } else {
      assert front[0] == s[0];
      DecimalOfValue(front);
      var v := DigitsValue(front);
      assert (10 * v + DigitValue(last)) / 10 == v;
      assert s == front + [last];
    }
  }

  // ----- Tags -----

  function Tag(v: Version): string {
    "v" + Decimal(v.major) + "." + Decimal(v.minor) + "." + Decimal(v.patch)
  }

  // A tag as it is written.
  lemma TagExample()
    ensures Tag(Version(1, 20, 3)) == "v1.20.3"
  {
    assert Decimal(2) == "2" && Decimal(20) == "20" && Decimal(1) == "1" && Decimal(3) == "3";
  }

  // Strings that are not the tag of a release: a leading zero, no prefix, a suffix.
  lemma NotATag(rest: string)
    requires |rest| > 0 && !IsDigit(rest[0])
    ensures ParseTag("v01.2.3") == None && ParseTag("1.2.3") == None && ParseTag("v1.2.3" + rest) == None
  {
    LeadingZero();
    hide ParseNumber, Decimal;
    var minor, patch := "2." + ("3" + rest), "3" + rest;
    var tag := "v1.2.3" + rest;
    OneDigits();
    ParseNumberDecimal(1, "." + minor);
    ParseNumberDecimal(2, "." + patch);
    ParseNumberDecimal(3, rest);
    assert tag[1..] == "1" + ("." + minor);
    assert ("." + minor)[1..] == "2" + ("." + patch);
    assert ("." + patch)[1..] == "3" + rest;
  }

  lemma OneDigits()
    ensures Decimal(1) == "1" && Decimal(2) == "2" && Decimal(3) == "3"
  {
  }

  lemma LeadingZero()
    ensures ParseTag("v01.2.3") == None
  {
    var s := "v01.2.3"[1..];
    DigitRunUnique(s, 2);
    assert s[..2] == "01";
  }

  // The length of the longest prefix of digits.
  function DigitRun(s: string): (n: nat)
    ensures n <= |s|
    ensures forall i :: 0 <= i < n ==> IsDigit(s[i])
    ensures n < |s| ==> !IsDigit(s[n])
  {
    if s == [] || !IsDigit(s[0]) then 0 else 1 + DigitRun(s[1..])
  }

  lemma {:induction false} DigitRunUnique(s: string, n: nat)
    requires n <= |s| && (forall i :: 0 <= i < n ==> IsDigit(s[i])) && (n < |s| ==> !IsDigit(s[n]))
    ensures DigitRun(s) == n
  {
    if n > 0 {
      assert IsDigit(s[0]);
      DigitRunUnique(s[1..], n - 1);
    }
  }

  // A number at the start of `s`, and what follows it.
  function ParseNumber(s: string): Option<(nat, string)> {
    var n := DigitRun(s);
    if IsNumber(s[..n]) then Some((DigitsValue(s[..n]), s[n..])) else None
  }

  function ParseDot(s: string): Option<string> {
    if |s| > 0 && s[0] == '.' then Some(s[1..]) else None
  }

  // `parse_tag`: exactly "v", a number, ".", a number, ".", a number.
  function ParseTag(tag: string): Option<Version> {
    if |tag| == 0 || tag[0] != 'v' then None
    else match ParseNumber(tag[1..])
      case None => None
      case Some((major, afterMajor)) =>
        match ParseDot(afterMajor)
        case None => None
        case Some(minorText) =>
          match ParseNumber(minorText)
          case None => None
          case Some((minor, afterMinor)) =>
            match ParseDot(afterMinor)
            case None => None
            case Some(patchText) =>
              match ParseNumber(patchText)
              case None => None
              case Some((patch, rest)) => if rest == [] then Some(Version(major, minor, patch)) else None
  }

  lemma ParseNumberDecimal(n: nat, rest: string)
    requires rest == [] || !IsDigit(rest[0])
    ensures ParseNumber(Decimal(n) + rest) == Some((n, rest))
  {
    var s := Decimal(n) + rest;
    DigitRunUnique(s, |Decimal(n)|);
    assert s[..|Decimal(n)|] == Decimal(n) && s[|Decimal(n)|..] == rest;
    ValueOfDecimal(n);
  }

  lemma ParseNumberInverse(s: string)
    requires ParseNumber(s).Some?
    ensures var (n, rest) := ParseNumber(s).value; s == Decimal(n) + rest
  {
    var k := DigitRun(s);
    DecimalOfValue(s[..k]);
    assert s == s[..k] + s[k..];
  }

  lemma ParseTagOfTag(v: Version)
    ensures ParseTag(Tag(v)) == Some(v)
  {
    hide Decimal, ParseNumber;
    var patch := Decimal(v.patch);
    var minor := Decimal(v.minor) + ("." + patch);
    var major := Decimal(v.major) + ("." + minor);
    assert Tag(v) == "v" + major;
    assert Tag(v)[1..] == major;
    ParseNumberDecimal(v.major, "." + minor);
    assert ("." + minor)[1..] == minor;
    ParseNumberDecimal(v.minor, "." + patch);
    assert ("." + patch)[1..] == patch;
    ParseNumberDecimal(v.patch, []);
    assert patch + [] == patch;
  }

  lemma TagOfParseTag(tag: string)
    requires ParseTag(tag).Some?
    ensures Tag(ParseTag(tag).value) == tag
  {
    hide Decimal, ParseNumber;
    var s := tag[1..];
    assert tag == "v" + s;
    ParseNumberInverse(s);
    var (major, afterMajor) := ParseNumber(s).value;
    var minorText := ParseDot(afterMajor).value;
    assert afterMajor == "." + minorText;
    ParseNumberInverse(minorText);
    var (minor, afterMinor) := ParseNumber(minorText).value;
    var patchText := ParseDot(afterMinor).value;
    assert afterMinor == "." + patchText;
    ParseNumberInverse(patchText);
    var (patch, rest) := ParseNumber(patchText).value;
    assert patchText == Decimal(patch);
    calc {
      tag;
      "v" + (Decimal(major) + ("." + (Decimal(minor) + ("." + Decimal(patch)))));
      Tag(Version(major, minor, patch));
    }
  }

  // `parse_tag` and `Version.tag` are inverse to each other.
  lemma TagBijection(tag: string, v: Version)
    ensures ParseTag(tag) == Some(v) <==> tag == Tag(v)
  {
    ParseTagOfTag(v);
    if ParseTag(tag).Some? {
      TagOfParseTag(tag);
    }
  }
}
