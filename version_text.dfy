/**
 * Lexical pieces shared by the two version grammars: decimal digit runs (read the way
 * Python's `int()` reads `\d+`, written the way `str()` writes a non-negative int) and the
 * `MAJOR.MINOR.PATCH` release triple both grammars start with.
 */
module VersionText {
  import opened Wrappers

  predicate IsDigit(c: char) { '0' <= c <= '9' }

  predicate AllDigits(s: string) { forall i :: 0 <= i < |s| ==> IsDigit(s[i]) }

  function DigitValue(c: char): (d: nat)
    requires IsDigit(c)
    ensures d < 10
  {
    c as int - '0' as int
  }

  function DigitChar(d: nat): (c: char)
    requires d < 10
    ensures IsDigit(c) && DigitValue(c) == d
  {
    ('0' as int + d) as char
  }

  /** A digit run as `str()` writes numbers: non-empty, no leading zero unless it is "0". */
  predicate Canonical(s: string)
  {
    |s| > 0 && AllDigits(s) && (s[0] == '0' ==> |s| == 1)
  }

  /** The decimal value of a digit run; leading zeros are allowed, as with `int("007")`. */
  function Value(s: string): nat
    requires AllDigits(s)
  {
    if s == [] then 0 else Value(s[..|s| - 1]) * 10 + DigitValue(s[|s| - 1])
  }

  /** The decimal text of n. */
  function Show(n: nat): (r: string)
    ensures Canonical(r)
    ensures r[0] == '0' ==> n == 0
  {
    if n < 10 then [DigitChar(n)] else Show(n / 10) + [DigitChar(n % 10)]
  }

  lemma {:induction false} ValueOfShow(n: nat)
    ensures Value(Show(n)) == n
  {
    if n >= 10 {
      var s := Show(n);
      assert s[..|s| - 1] == Show(n / 10);
      ValueOfShow(n / 10);
    }
  }

  lemma {:induction false} ValuePositive(s: string)
    requires |s| > 0 && AllDigits(s) && s[0] != '0'
    ensures Value(s) >= 1
  {
    if |s| > 1 {
      ValuePositive(s[..|s| - 1]);
    }
  }

  /** Writing back the value of a canonical run gives the run itself. */
  lemma {:induction false} ShowOfValue(s: string)
    requires Canonical(s)
    ensures Show(Value(s)) == s
  {
    if |s| > 1 {
      var p := s[..|s| - 1];
      ValuePositive(p);
      ShowOfValue(p);
      var d := DigitValue(s[|s| - 1]);
      assert Value(s) == Value(p) * 10 + d;
      assert Value(s) / 10 == Value(p) && Value(s) % 10 == d;
      assert DigitChar(d) == s[|s| - 1];
      assert s == p + [s[|s| - 1]];
    } else {
      assert DigitChar(DigitValue(s[0])) == s[0];
    }
  }

  /** The number of digits at the front of s. */
  function DigitPrefix(s: string): (k: nat)
    ensures k <= |s| && AllDigits(s[..k])
    ensures k < |s| ==> !IsDigit(s[k])
  {
    if s == [] || !IsDigit(s[0]) then 0
    else
      var k := 1 + DigitPrefix(s[1..]);
      assert s[..k] == [s[0]] + s[1..][..k - 1];
      k
  }

  predicate StartsWithoutDigit(s: string) { s == [] || !IsDigit(s[0]) }

  lemma {:induction false} DigitPrefixOf(d: string, rest: string)
    requires AllDigits(d) && StartsWithoutDigit(rest)
    ensures DigitPrefix(d + rest) == |d|
  {
    if d != [] {
      assert (d + rest)[1..] == d[1..] + rest;
      DigitPrefixOf(d[1..], rest);
    }
  }

  /** Reads a non-empty digit run at the front of s: its value and the text after it. */
  function ReadNat(s: string): (r: Option<(nat, string)>)
    ensures r.Some? ==> |r.value.1| < |s| && StartsWithoutDigit(r.value.1)
  {
    var k := DigitPrefix(s);
    if k == 0 then None else Some((Value(s[..k]), s[k..]))
  }

  lemma ReadNatShow(n: nat, rest: string)
    requires StartsWithoutDigit(rest)
    ensures ReadNat(Show(n) + rest) == Some((n, rest))
  {
    DigitPrefixOf(Show(n), rest);
    var s := Show(n) + rest;
    assert s[..|Show(n)|] == Show(n);
    assert s[|Show(n)|..] == rest;
    ValueOfShow(n);
  }

  /** The number in `rest` when `rest` is exactly `tag` followed by a digit run. */
  function TaggedNumber(rest: string, tag: string): Option<nat>
  {
    if |tag| <= |rest| && rest[..|tag|] == tag then
      match ReadNat(rest[|tag|..])
      case Some((n, tail)) => if tail == [] then Some(n) else None
      case None => None
    else None
  }

  lemma TaggedNumberShow(tag: string, n: nat)
    ensures TaggedNumber(tag + Show(n), tag) == Some(n)
  {
    var rest := tag + Show(n);
    assert rest[..|tag|] == tag;
    assert rest[|tag|..] == Show(n) + [];
    ReadNatShow(n, []);
  }

  /** The release triple, `MAJOR.MINOR.PATCH`. */
  datatype Release = Release(major: nat, minor: nat, patch: nat)

  function ShowRelease(r: Release): string
  {
    Show(r.major) + "." + Show(r.minor) + "." + Show(r.patch)
  }

  /** Reads `.` followed by a non-empty digit run at the front of s. */
  function ReadDotNat(s: string): (r: Option<(nat, string)>)
    ensures r.Some? ==> |r.value.1| < |s| && StartsWithoutDigit(r.value.1)
  {
    if s != [] && s[0] == '.' then ReadNat(s[1..]) else None
  }

  lemma ReadDotNatShow(n: nat, rest: string)
    requires StartsWithoutDigit(rest)
    ensures ReadDotNat("." + (Show(n) + rest)) == Some((n, rest))
  {
    assert ("." + (Show(n) + rest))[1..] == Show(n) + rest;
    ReadNatShow(n, rest);
  }

  /** Reads `MAJOR.MINOR.PATCH` at the front of s: the triple and the text after it. */
  function ReadRelease(s: string): (r: Option<(Release, string)>)
    ensures r.Some? ==> StartsWithoutDigit(r.value.1)
  {
    match ReadNat(s)
    case None => None
    case Some((major, r1)) =>
      match ReadDotNat(r1)
      case None => None
      case Some((minor, r2)) =>
        match ReadDotNat(r2)
        case None => None
        case Some((patch, r3)) => Some((Release(major, minor, patch), r3))
  }

  lemma ConcatRelease(a: string, b: string, c: string, rest: string)
    ensures a + ("." + (b + ("." + (c + rest)))) == a + "." + b + "." + c + rest
  {
  }

  lemma ReadShowRelease(r: Release, rest: string)
    requires StartsWithoutDigit(rest)
    ensures ReadRelease(ShowRelease(r) + rest) == Some((r, rest))
  {
    var t2 := "." + (Show(r.patch) + rest);
    var t1 := "." + (Show(r.minor) + t2);
    ConcatRelease(Show(r.major), Show(r.minor), Show(r.patch), rest);
    assert ShowRelease(r) + rest == Show(r.major) + t1;
    ReadNatShow(r.major, t1);
    ReadDotNatShow(r.minor, t2);
    ReadDotNatShow(r.patch, rest);
  }

  /**
   * A release text read by ReadRelease whose three runs are canonical is the one ShowRelease
   * writes for the triple.
   */
  predicate CanonicalRuns(s: string)
  {
    forall i {:trigger s[i]} :: 0 <= i < |s| && s[i] == '0' && (i == 0 || !IsDigit(s[i - 1])) ==>
      i + 1 == |s| || !IsDigit(s[i + 1])
  }

  lemma CanonicalRunsSuffix(s: string, j: nat)
    requires CanonicalRuns(s) && 0 < j <= |s| && !IsDigit(s[j - 1])
    ensures CanonicalRuns(s[j..])
  {
    var t := s[j..];
    forall i | 0 <= i < |t| && t[i] == '0' && (i == 0 || !IsDigit(t[i - 1]))
      ensures i + 1 == |t| || !IsDigit(t[i + 1])
    {
      assert s[j + i] == '0';
    }
  }

  /** With canonical runs, the text ReadNat consumed is exactly the one Show writes. */
  lemma ReadNatCanonical(s: string)
    requires CanonicalRuns(s) && ReadNat(s).Some?
    ensures s == Show(ReadNat(s).value.0) + ReadNat(s).value.1
    ensures ReadNat(s).value.1 == [] || CanonicalRuns(ReadNat(s).value.1[1..])
  {
    var k := DigitPrefix(s);
    if s[0] == '0' {
      assert 1 == |s| || !IsDigit(s[1]);
      assert s[1..] == [] || !IsDigit(s[1..][0]);
    }
    assert Canonical(s[..k]);
    ShowOfValue(s[..k]);
    assert s == s[..k] + s[k..];
    if k + 1 <= |s| {
      CanonicalRunsSuffix(s, k + 1);
      assert s[k..][1..] == s[k + 1..];
    }
  }

  /** With canonical runs, the text ReadDotNat consumed is `.` and the one Show writes. */
  lemma ReadDotNatCanonical(s: string)
    requires CanonicalRuns(s) && ReadDotNat(s).Some?
    ensures s == "." + (Show(ReadDotNat(s).value.0) + ReadDotNat(s).value.1)
    ensures ReadDotNat(s).value.1 == [] || CanonicalRuns(ReadDotNat(s).value.1[1..])
  {
    CanonicalRunsSuffix(s, 1);
    ReadNatCanonical(s[1..]);
    assert s == "." + s[1..];
  }

  /** With canonical runs, the text ReadRelease consumed is exactly the one ShowRelease writes. */
  lemma ReadReleaseCanonical(s: string, rel: Release, rest: string)
    requires CanonicalRuns(s) && ReadRelease(s) == Some((rel, rest))
    ensures s == ShowRelease(rel) + rest
  {
    var (major, r1) := ReadNat(s).value;
    ReadNatCanonical(s);
    var (minor, r2) := ReadDotNat(r1).value;
    ReadDotNatCanonical(r1);
    ReadDotNatCanonical(r2);
    ConcatRelease(Show(major), Show(minor), Show(rel.patch), rest);
  }
}
