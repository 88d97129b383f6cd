/**
 * The versioning helpers of the packaging tools: `parse_version`, `format_version`,
 * `git_tag_to_pep440` and `pep440_to_git_tag`. Versions are `MAJOR.MINOR.PATCH`, optionally
 * followed by `.postN` (a post release) or `rcN` (a release candidate, no dot), in the
 * style of PEP 440; git tags carry a `v` prefix and write a post release as `-postN`.
 */
module Versioning {
  import opened Wrappers
  import opened VersionText

  /** The tuple `(major, minor, patch, post, rc)`; post and rc are 0 when absent. */
  datatype Version = Version(major: nat, minor: nat, patch: nat, post: nat, rc: nat)
  {
    function Release(): VersionText.Release { VersionText.Release(major, minor, patch) }
  }

  datatype VersionError = InvalidVersionFormat(text: string)

  /** The tuple for a release followed by `rest`, when `rest` is empty, `rcN` or `.postN`. */
  function WithSuffix(rel: VersionText.Release, rest: string): Option<Version>
  {
    if rest == [] then Some(Version(rel.major, rel.minor, rel.patch, 0, 0))
    else
      match TaggedNumber(rest, "rc")
      case Some(n) => Some(Version(rel.major, rel.minor, rel.patch, 0, n))
      case None =>
        match TaggedNumber(rest, ".post")
        case Some(n) => Some(Version(rel.major, rel.minor, rel.patch, n, 0))
        case None => None
  }

  /** `parse_version`: accepts `M.m.p`, `M.m.prcN` and `M.m.p.postN`, nothing else. */
  function ParseVersion(s: string): (r: Result<Version, VersionError>)
    ensures r.Ok? ==> SingleSuffix(r.value)
    ensures r.Err? ==> r.error == InvalidVersionFormat(s)
  {
    match ReadRelease(s)
    case None => Err(InvalidVersionFormat(s))
    case Some((rel, rest)) =>
      match WithSuffix(rel, rest)
      case Some(v) => Ok(v)
      case None => Err(InvalidVersionFormat(s))
  }

  lemma ParseReleaseThen(rel: VersionText.Release, rest: string)
    requires StartsWithoutDigit(rest)
    ensures ParseVersion(ShowRelease(rel) + rest) ==
      match WithSuffix(rel, rest)
      case Some(v) => Ok(v)
      case None => Err(InvalidVersionFormat(ShowRelease(rel) + rest))
  {
    ReadShowRelease(rel, rest);
  }

  function PostText(post: nat): string { if post != 0 then ".post" + Show(post) else "" }

  function RcText(rc: nat): string { if rc != 0 then "rc" + Show(rc) else "" }

  /** `format_version(major, minor, patch, post=0, rc=0)`. */
  function FormatVersion(major: nat, minor: nat, patch: nat, post: nat, rc: nat): string
  {
    ShowRelease(VersionText.Release(major, minor, patch)) + PostText(post) + RcText(rc)
  }

  function Format(v: Version): string
  {
    FormatVersion(v.major, v.minor, v.patch, v.post, v.rc)
  }

  /** A version parse_version can return: at most one of post and rc is set. */
  predicate SingleSuffix(v: Version) { v.post == 0 || v.rc == 0 }

  lemma FormatSplit(v: Version)
    ensures Format(v) == ShowRelease(v.Release()) + (PostText(v.post) + RcText(v.rc))
  {
  }

  /** Formatting a parsable tuple and parsing the text gives the tuple back. */
  lemma ParseFormat(v: Version)
    requires SingleSuffix(v)
    ensures ParseVersion(Format(v)) == Ok(v)
  {
    var suffix := PostText(v.post) + RcText(v.rc);
    FormatSplit(v);
    if v.post != 0 {
      assert suffix == ".post" + Show(v.post);
      TaggedNumberShow(".post", v.post);
      assert TaggedNumber(suffix, "rc").None?;
    } else if v.rc != 0 {
      assert suffix == "rc" + Show(v.rc);
      TaggedNumberShow("rc", v.rc);
    } else {
      assert suffix == [];
    }
    ParseReleaseThen(v.Release(), suffix);
  }

  /**
   * A text parse_version accepts, written with canonical digit runs, is the one
   * format_version writes for the tuple, except that `rc0` and `.post0` read as absent.
   */
  lemma FormatParse(s: string, v: Version)
    requires CanonicalRuns(s) && ParseVersion(s) == Ok(v)
    ensures s == Format(v) || s == Format(v) + "rc0" || s == Format(v) + ".post0"
  {
    var rel, rest := ParsedParts(s, v);
    ReadReleaseCanonical(s, rel, rest);
    var head := ShowRelease(rel);
    SuffixOfCanonical(s, head, rel, rest, v);
    FormatSplit(v);
    var f := Format(v);
    var x := PostText(v.post) + RcText(v.rc);
    assert s == head + rest && f == head + x;
    if rest == x {
      assert s == f;
    } else {
      assert x == [] by {
        assert v.post == 0 && v.rc == 0;
      }
      assert f == head;
    }
  }

  lemma ParsedParts(s: string, v: Version) returns (rel: VersionText.Release, rest: string)
    requires ParseVersion(s) == Ok(v)
    ensures ReadRelease(s) == Some((rel, rest)) && WithSuffix(rel, rest) == Some(v)
  {
    rel, rest := ReadRelease(s).value.0, ReadRelease(s).value.1;
  }

  lemma SuffixOfCanonical(s: string, head: string, rel: VersionText.Release, rest: string, v: Version)
    requires s == head + rest && CanonicalRuns(s) && WithSuffix(rel, rest) == Some(v)
    ensures v.Release() == rel
    ensures rest == PostText(v.post) + RcText(v.rc) || (rest == "rc0" && v.post == v.rc == 0)
      || (rest == ".post0" && v.post == v.rc == 0)
  {
    if rest == [] {
      assert v.post == 0 && v.rc == 0;
    } else if TaggedNumber(rest, "rc").Some? {
      var n := TaggedNumber(rest, "rc").value;
      assert v == Version(rel.major, rel.minor, rel.patch, 0, n);
      SuffixCanonical(s, head, rest, "rc");
      assert PostText(v.post) == [];
      if n == 0 {
        assert Show(0) == "0";
      }
    } else {
      var n := TaggedNumber(rest, ".post").value;
      assert v == Version(rel.major, rel.minor, rel.patch, n, 0);
      SuffixCanonical(s, head, rest, ".post");
      assert RcText(v.rc) == [];
      if n == 0 {
        assert Show(0) == "0";
      }
    }
  }

  lemma SuffixCanonical(s: string, head: string, rest: string, tag: string)
    requires s == head + rest && CanonicalRuns(s) && TaggedNumber(rest, tag).Some?
    requires |tag| > 0 && !IsDigit(tag[|tag| - 1])
    ensures rest == tag + Show(TaggedNumber(rest, tag).value)
  {
    var k := |head| + |tag|;
    assert s[k - 1] == tag[|tag| - 1];
    CanonicalRunsSuffix(s, k);
    assert s[k..] == rest[|tag|..];
    ReadNatCanonical(rest[|tag|..]);
    assert rest == rest[..|tag|] + rest[|tag|..];
  }

  /** Python's `str.replace(pat, rep)`: every occurrence, left to right, without overlaps. */
  function ReplaceAll(s: string, pat: string, rep: string): string
    requires pat != []
    decreases |s|
  {
    if s == [] then []
    else if |pat| <= |s| && s[..|pat|] == pat then rep + ReplaceAll(s[|pat|..], pat, rep)
    else [s[0]] + ReplaceAll(s[1..], pat, rep)
  }

  /** `git_tag_to_pep440`: drops a leading `v` and writes `-postN` as `.postN`. */
  function GitTagToPep440(tag: string): string
  {
    var version := if |tag| > 0 && tag[0] == 'v' then tag[1..] else tag;
    ReplaceAll(version, "-post", ".post")
  }

  /** `pep440_to_git_tag`: writes `.postN` as `-postN` and prefixes `v`. */
  function Pep440ToGitTag(version: string): string
  {
    "v" + ReplaceAll(version, ".post", "-post")
  }

  /** The git tag of a release with an optional post number: `vM.m.p` or `vM.m.p-postN`. */
  function GitTagText(rel: VersionText.Release, post: nat): string
  {
    "v" + BareTagText(rel, post)
  }

  function BareTagText(rel: VersionText.Release, post: nat): string
  {
    if post != 0 then ShowRelease(rel) + "-post" + Show(post) else ShowRelease(rel)
  }

  predicate Unmarked(s: string) { forall i :: 0 <= i < |s| ==> s[i] != 'p' }

  lemma ReleaseUnmarked(rel: VersionText.Release)
    ensures Unmarked(ShowRelease(rel))
  {
    var a, b, c := Show(rel.major), Show(rel.minor), Show(rel.patch);
    assert ShowRelease(rel) == a + "." + b + "." + c;
  }

  /** Text without a `p` is left alone by the two post-marker replacements. */
  lemma {:induction false} ReplaceUnmarked(s: string, pat: string, rep: string)
    requires |pat| >= 2 && pat[1] == 'p' && Unmarked(s)
    ensures ReplaceAll(s, pat, rep) == s
  {
    if s != [] {
      assert |pat| <= |s| ==> s[..|pat|][1] != pat[1];
      ReplaceUnmarked(s[1..], pat, rep);
    }
  }

  /** The first occurrence of the marker after unmarked text is the one replaced. */
  lemma {:induction false} ReplaceAfterUnmarked(a: string, pat: string, rep: string, b: string)
    requires |pat| >= 2 && pat[1] == 'p' && pat[0] != 'p' && Unmarked(a)
    ensures ReplaceAll(a + pat + b, pat, rep) == a + rep + ReplaceAll(b, pat, rep)
  {
    var s := a + pat + b;
    if a == [] {
      assert s == pat + b && s[..|pat|] == pat && s[|pat|..] == b;
    } else {
      assert s[1] != 'p';
      assert s[..|pat|][1] == s[1];
      assert s[1..] == a[1..] + pat + b;
      ReplaceAfterUnmarked(a[1..], pat, rep, b);
      assert a == [a[0]] + a[1..];
    }
  }

  /** pep440_to_git_tag on a release with an optional post number. */
  lemma GitTagOfVersion(v: Version)
    requires v.rc == 0
    ensures Pep440ToGitTag(Format(v)) == GitTagText(v.Release(), v.post)
  {
    var head := ShowRelease(v.Release());
    ReleaseUnmarked(v.Release());
    if v.post == 0 {
      assert Format(v) == head;
      ReplaceUnmarked(head, ".post", "-post");
    } else {
      var n := Show(v.post);
      assert Format(v) == head + ".post" + n;
      ReplaceAfterUnmarked(head, ".post", "-post", n);
      ReplaceUnmarked(n, ".post", "-post");
    }
  }

  lemma AppendAssoc(a: string, b: string, c: string)
    ensures a + b + c == a + (b + c)
  {
  }

  lemma FormatWithoutRc(rel: VersionText.Release, post: nat)
    ensures Format(Version(rel.major, rel.minor, rel.patch, post, 0)) == ShowRelease(rel) + PostText(post)
  {
    assert RcText(0) == [];
  }

  lemma ReplaceBareTag(rel: VersionText.Release, post: nat)
    ensures ReplaceAll(BareTagText(rel, post), "-post", ".post")
      == Format(Version(rel.major, rel.minor, rel.patch, post, 0))
  {
    var head := ShowRelease(rel);
    FormatWithoutRc(rel, post);
    ReleaseUnmarked(rel);
    if post == 0 {
      ReplaceUnmarked(head, "-post", ".post");
    } else {
      var n := Show(post);
      var bare := BareTagText(rel, post);
      assert bare == head + "-post" + n;
      ReplaceAfterUnmarked(head, "-post", ".post", n);
      ReplaceUnmarked(n, "-post", ".post");
      assert ReplaceAll(bare, "-post", ".post") == head + ".post" + n;
      AppendAssoc(head, ".post", n);
      assert PostText(post) == ".post" + n;
    }
  }

  /** git_tag_to_pep440 on a release tag, with or without its `v` prefix. */
  lemma VersionOfGitTag(rel: VersionText.Release, post: nat, prefixed: bool)
    ensures GitTagToPep440(if prefixed then GitTagText(rel, post) else BareTagText(rel, post))
      == Format(Version(rel.major, rel.minor, rel.patch, post, 0))
  {
    var bare := BareTagText(rel, post);
    ReplaceBareTag(rel, post);
    assert ("v" + bare)[1..] == bare;
    assert bare[0] == Show(rel.major)[0];
  }

  /** Converting a version to its git tag and back gives the version text. */
  lemma GitTagRoundTrip(v: Version)
    requires v.rc == 0
    ensures GitTagToPep440(Pep440ToGitTag(Format(v))) == Format(v)
  {
    GitTagOfVersion(v);
    VersionOfGitTag(v.Release(), v.post, true);
  }
}
