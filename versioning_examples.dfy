/**
 * The concrete cases the versioning helpers are expected to handle, each derived from the
 * general lemmas: a literal is first shown to be the text `format_version` writes for a tuple,
 * then the round trip, the git tag rule or the bump rule for that tuple gives the expected
 * answer.
 *
 * Literal texts are passed around as parameters fixed by the preconditions: a string literal
 * written into a proof makes the verifier unfold the parser over its characters, which costs
 * many times the resources of the same proof over a parameter. The extra parameters of the
 * rejection lemmas (`rest`, `tail`) name the part of the literal that is left once the release,
 * or the rc number, has been read.
 */
module VersioningExamples {
  import opened Wrappers
  import opened VersionText
  import opened Versioning
  import opened ScmVersion

  // ---------------------------------------------------------------------------------------
  // The texts format_version writes for the tuples of the examples.
  // ---------------------------------------------------------------------------------------

  lemma Format123(s: string)
    requires s == "1.2.3"
    ensures Format(Version(1, 2, 3, 0, 0)) == s
  {
    assert Show(1) == "1" && Show(2) == "2" && Show(3) == "3";
  }

  lemma Format001(s: string)
    requires s == "0.0.1"
    ensures Format(Version(0, 0, 1, 0, 0)) == s
  {
    assert Show(0) == "0" && Show(1) == "1";
  }

  lemma Format102030(s: string)
    requires s == "10.20.30"
    ensures Format(Version(10, 20, 30, 0, 0)) == s
  {
    assert Show(10) == "10" && Show(20) == "20" && Show(30) == "30";
  }

  lemma Format123Post1(s: string)
    requires s == "1.2.3.post1"
    ensures Format(Version(1, 2, 3, 1, 0)) == s
  {
    assert Show(1) == "1" && Show(2) == "2" && Show(3) == "3";
  }

  lemma Format123Post10(s: string)
    requires s == "1.2.3.post10"
    ensures Format(Version(1, 2, 3, 10, 0)) == s
  {
    assert Show(1) == "1" && Show(2) == "2" && Show(3) == "3" && Show(10) == "10";
  }

  lemma Format123Rc1(s: string)
    requires s == "1.2.3rc1"
    ensures Format(Version(1, 2, 3, 0, 1)) == s
  {
    assert Show(1) == "1" && Show(2) == "2" && Show(3) == "3";
  }

  lemma Format123Rc10(s: string)
    requires s == "1.2.3rc10"
    ensures Format(Version(1, 2, 3, 0, 10)) == s
  {
    assert Show(1) == "1" && Show(2) == "2" && Show(3) == "3" && Show(10) == "10";
  }

  lemma Format102030Post5(s: string)
    requires s == "10.20.30.post5"
    ensures Format(Version(10, 20, 30, 5, 0)) == s
  {
    assert Show(10) == "10" && Show(20) == "20" && Show(30) == "30" && Show(5) == "5";
  }

  lemma Format130(s: string)
    requires s == "1.3.0"
    ensures Format(Version(1, 3, 0, 0, 0)) == s
  {
    assert Show(0) == "0" && Show(1) == "1" && Show(3) == "3";
  }

  lemma Format124(s: string)
    requires s == "1.2.4"
    ensures Format(Version(1, 2, 4, 0, 0)) == s
  {
    assert Show(1) == "1" && Show(2) == "2" && Show(4) == "4";
  }

  lemma Format123Post2(s: string)
    requires s == "1.2.3.post2"
    ensures Format(Version(1, 2, 3, 2, 0)) == s
  {
    assert Show(1) == "1" && Show(2) == "2" && Show(3) == "3";
  }

  // ---------------------------------------------------------------------------------------
  // format_version
  // ---------------------------------------------------------------------------------------

  lemma FormatBasicExamples(a: string, b: string, c: string)
    requires a == "1.2.3" && b == "0.0.1" && c == "10.20.30"
    ensures FormatVersion(1, 2, 3, 0, 0) == a
    ensures FormatVersion(0, 0, 1, 0, 0) == b
    ensures FormatVersion(10, 20, 30, 0, 0) == c
  {
    Format123(a);
    Format001(b);
    Format102030(c);
  }

  lemma FormatPostExamples(a: string, b: string)
    requires a == "1.2.3.post1" && b == "1.2.3.post10"
    ensures FormatVersion(1, 2, 3, 1, 0) == a
    ensures FormatVersion(1, 2, 3, 10, 0) == b
  {
    Format123Post1(a);
    Format123Post10(b);
  }

  lemma FormatRcExamples(a: string, b: string)
    requires a == "1.2.3rc1" && b == "1.2.3rc10"
    ensures FormatVersion(1, 2, 3, 0, 1) == a
    ensures FormatVersion(1, 2, 3, 0, 10) == b
  {
    Format123Rc1(a);
    Format123Rc10(b);
  }

  // ---------------------------------------------------------------------------------------
  // parse_version
  // ---------------------------------------------------------------------------------------

  lemma ParseBasicExamples(a: string, b: string, c: string)
    requires a == "1.2.3" && b == "0.0.1" && c == "10.20.30"
    ensures ParseVersion(a) == Ok(Version(1, 2, 3, 0, 0))
    ensures ParseVersion(b) == Ok(Version(0, 0, 1, 0, 0))
    ensures ParseVersion(c) == Ok(Version(10, 20, 30, 0, 0))
  {
    Format123(a);
    Format001(b);
    Format102030(c);
    ParseFormat(Version(1, 2, 3, 0, 0));
    ParseFormat(Version(0, 0, 1, 0, 0));
    ParseFormat(Version(10, 20, 30, 0, 0));
  }

  lemma ParsePostExamples(a: string, b: string)
    requires a == "1.2.3.post1" && b == "1.2.3.post10"
    ensures ParseVersion(a) == Ok(Version(1, 2, 3, 1, 0))
    ensures ParseVersion(b) == Ok(Version(1, 2, 3, 10, 0))
  {
    Format123Post1(a);
    Format123Post10(b);
    ParseFormat(Version(1, 2, 3, 1, 0));
    ParseFormat(Version(1, 2, 3, 10, 0));
  }

  lemma ParseRcExamples(a: string, b: string)
    requires a == "1.2.3rc1" && b == "1.2.3rc10"
    ensures ParseVersion(a) == Ok(Version(1, 2, 3, 0, 1))
    ensures ParseVersion(b) == Ok(Version(1, 2, 3, 0, 10))
  {
    Format123Rc1(a);
    Format123Rc10(b);
    ParseFormat(Version(1, 2, 3, 0, 1));
    ParseFormat(Version(1, 2, 3, 0, 10));
  }

  /** Only two numbers. */
  lemma ShortReleaseRejected(s: string)
    requires s == "1.2"
    ensures ParseVersion(s) == Err(InvalidVersionFormat(s))
  {
    assert DigitPrefix(s) == 1;
    assert DigitPrefix(s[2..]) == 1;
  }

  /** A `v` prefix is a git tag, not a version. */
  lemma PrefixedRejected(s: string)
    requires s == "v1.2.3"
    ensures ParseVersion(s) == Err(InvalidVersionFormat(s))
  {
    assert DigitPrefix(s) == 0;
  }

  /** `1.2.3` followed by rest, spelled with the general release text. */
  lemma ReleaseOneTwoThen(s: string, rest: string)
    requires s == "1.2.3" + rest
    ensures s == ShowRelease(VersionText.Release(1, 2, 3)) + rest
  {
    assert Show(1) == "1" && Show(2) == "2" && Show(3) == "3";
  }

  /** A fourth number is refused. */
  lemma FourNumbersRejected(s: string, rest: string)
    requires s == "1.2.3.4" && rest == ".4"
    ensures ParseVersion(s) == Err(InvalidVersionFormat(s))
  {
    ReleaseOneTwoThen(s, rest);
    assert rest[0] == '.' && |rest| == 2;
    assert TaggedNumber(rest, "rc").None?;
    ParseReleaseThen(VersionText.Release(1, 2, 3), rest);
  }

  /** A suffix that is not PEP 440 is refused. */
  lemma AlphaSuffixRejected(s: string, rest: string)
    requires s == "1.2.3-alpha" && rest == "-alpha"
    ensures ParseVersion(s) == Err(InvalidVersionFormat(s))
  {
    ReleaseOneTwoThen(s, rest);
    assert rest[0] == '-';
    assert rest[..2] != "rc" && rest[..5] != ".post";
    ParseReleaseThen(VersionText.Release(1, 2, 3), rest);
  }

  /** A release candidate and a post release at once are refused. */
  lemma BothSuffixesRejected(s: string, rest: string, tail: string)
    requires s == "1.2.3rc5.post2" && rest == "rc5.post2" && tail == ".post2"
    ensures ParseVersion(s) == Err(InvalidVersionFormat(s))
  {
    ReleaseOneTwoThen(s, rest);
    assert Show(5) == "5";
    assert rest[..2] == "rc" && rest[2..] == Show(5) + tail;
    ReadNatShow(5, tail);
    assert rest[0] == 'r' && rest[..5] != ".post";
    ParseReleaseThen(VersionText.Release(1, 2, 3), rest);
  }

  // ---------------------------------------------------------------------------------------
  // git_tag_to_pep440 and pep440_to_git_tag
  // ---------------------------------------------------------------------------------------

  /** The tag texts of `1.2.3` and of its post releases. */
  lemma TagOfRelease(bare: string, tag: string)
    requires bare == "1.2.3" && tag == "v1.2.3"
    ensures BareTagText(VersionText.Release(1, 2, 3), 0) == bare
    ensures GitTagText(VersionText.Release(1, 2, 3), 0) == tag
  {
    assert Show(1) == "1" && Show(2) == "2" && Show(3) == "3";
  }

  lemma TagOfPost(post: nat, n: string, bare: string, tag: string)
    requires post != 0 && Show(post) == n && bare == "1.2.3-post" + n && tag == "v" + bare
    ensures BareTagText(VersionText.Release(1, 2, 3), post) == bare
    ensures GitTagText(VersionText.Release(1, 2, 3), post) == tag
  {
    assert Show(1) == "1" && Show(2) == "2" && Show(3) == "3";
    assert ShowRelease(VersionText.Release(1, 2, 3)) == "1.2.3";
  }

  lemma ShowOneTen(one: string, ten: string)
    requires one == "1" && ten == "10"
    ensures Show(1) == one && Show(10) == ten
  {
  }

  lemma GitTagToPep440Examples(a: string, b: string, c: string, d: string,
                               plain: string, post1: string, post10: string)
    requires a == "v1.2.3" && b == "1.2.3" && c == "v1.2.3-post1" && d == "1.2.3-post10"
    requires plain == "1.2.3" && post1 == "1.2.3.post1" && post10 == "1.2.3.post10"
    ensures GitTagToPep440(a) == plain
    ensures GitTagToPep440(b) == plain
    ensures GitTagToPep440(c) == post1
    ensures GitTagToPep440(d) == post10
  {
    var rel := VersionText.Release(1, 2, 3);
    var one, ten := "1", "10";
    ShowOneTen(one, ten);
    TagOfRelease(b, a);
    TagOfPost(1, one, c[1..], c);
    TagOfPost(10, ten, d, "v" + d);
    Format123(plain);
    Format123Post1(post1);
    Format123Post10(post10);
    VersionOfGitTag(rel, 0, true);
    VersionOfGitTag(rel, 0, false);
    VersionOfGitTag(rel, 1, true);
    VersionOfGitTag(rel, 10, false);
  }

  lemma Pep440ToGitTagExamples(a: string, b: string, c: string,
                               plain: string, post1: string, post10: string)
    requires a == "1.2.3" && b == "1.2.3.post1" && c == "1.2.3.post10"
    requires plain == "v1.2.3" && post1 == "v1.2.3-post1" && post10 == "v1.2.3-post10"
    ensures Pep440ToGitTag(a) == plain
    ensures Pep440ToGitTag(b) == post1
    ensures Pep440ToGitTag(c) == post10
  {
    var one, ten := "1", "10";
    ShowOneTen(one, ten);
    TagOfRelease(a, plain);
    TagOfPost(1, one, post1[1..], post1);
    TagOfPost(10, ten, post10[1..], post10);
    Format123(a);
    Format123Post1(b);
    Format123Post10(c);
    GitTagOfVersion(Version(1, 2, 3, 0, 0));
    GitTagOfVersion(Version(1, 2, 3, 1, 0));
    GitTagOfVersion(Version(1, 2, 3, 10, 0));
  }

  lemma RoundTripExamples(a: string, b: string, c: string)
    requires a == "1.2.3" && b == "1.2.3.post1" && c == "10.20.30.post5"
    ensures GitTagToPep440(Pep440ToGitTag(a)) == a
    ensures GitTagToPep440(Pep440ToGitTag(b)) == b
    ensures GitTagToPep440(Pep440ToGitTag(c)) == c
  {
    Format123(a);
    Format123Post1(b);
    Format102030Post5(c);
    GitTagRoundTrip(Version(1, 2, 3, 0, 0));
    GitTagRoundTrip(Version(1, 2, 3, 1, 0));
    GitTagRoundTrip(Version(10, 20, 30, 5, 0));
  }

  // ---------------------------------------------------------------------------------------
  // _bump_version
  // ---------------------------------------------------------------------------------------

  lemma BumpExactTagExamples(a: string, b: string, mainBranch: bool)
    requires a == "1.2.3" && b == "1.2.3.post1"
    ensures BumpVersion(a, 0, false, mainBranch) == Ok(a)
    ensures BumpVersion(b, 0, false, mainBranch) == Ok(b)
  {
    Format123(a);
    Format123Post1(b);
    ParseFormat(Version(1, 2, 3, 0, 0));
    ParseFormat(Version(1, 2, 3, 1, 0));
    BumpExactTag(a, mainBranch);
    BumpExactTag(b, mainBranch);
  }

  /** A bump away from a tag writes the `.devN` build of the version after it. */
  lemma BumpOf(v: Version, tag: string, distance: nat, dirty: bool, mainBranch: bool,
               next: string, n: string, version: string)
    requires SingleSuffix(v) && Format(v) == tag && (distance > 0 || dirty)
    requires Format(NextVersion(v, mainBranch)) == next && Show(distance) == n
    requires version == next + ".dev" + n
    ensures BumpVersion(tag, distance, dirty, mainBranch) == Ok(version)
  {
    ParseFormat(v);
    BumpDevelopment(tag, v, distance, dirty, mainBranch);
    AppendAssoc(next, ".dev", n);
  }

  lemma ShowSmall(n: nat, s: string)
    requires n <= 5 && |s| == 1 && s[0] as int == '0' as int + n
    ensures Show(n) == s
  {
  }

  /** Five commits after `1.2.3` on the main branch. */
  lemma BumpMainExample(tag: string, version: string, next: string, n: string)
    requires tag == "1.2.3" && version == "1.3.0.dev5" && next == "1.3.0" && n == "5"
    ensures BumpVersion(tag, 5, false, true) == Ok(version)
  {
    Format123(tag);
    Format130(next);
    ShowSmall(5, n);
    BumpOf(Version(1, 2, 3, 0, 0), tag, 5, false, true, next, n, version);
  }

  /** Three commits after the post release `1.2.3.post1`. */
  lemma BumpPostExample(tag: string, version: string, next: string, n: string)
    requires tag == "1.2.3.post1" && version == "1.2.3.post2.dev3" && next == "1.2.3.post2" && n == "3"
    ensures BumpVersion(tag, 3, false, true) == Ok(version)
  {
    Format123Post1(tag);
    Format123Post2(next);
    ShowSmall(3, n);
    BumpOf(Version(1, 2, 3, 1, 0), tag, 3, false, true, next, n, version);
  }

  /** Five commits after `1.2.3` on a release branch. */
  lemma BumpReleaseBranchExample(tag: string, version: string, next: string, n: string)
    requires tag == "1.2.3" && version == "1.2.4.dev5" && next == "1.2.4" && n == "5"
    ensures BumpVersion(tag, 5, false, false) == Ok(version)
  {
    Format123(tag);
    Format124(next);
    ShowSmall(5, n);
    BumpOf(Version(1, 2, 3, 0, 0), tag, 5, false, false, next, n, version);
  }

  /** Local changes on the tag `1.2.3` itself. */
  lemma BumpDirtyExample(tag: string, version: string, next: string, n: string)
    requires tag == "1.2.3" && version == "1.3.0.dev0" && next == "1.3.0" && n == "0"
    ensures BumpVersion(tag, 0, true, true) == Ok(version)
  {
    Format123(tag);
    Format130(next);
    ShowSmall(0, n);
    BumpOf(Version(1, 2, 3, 0, 0), tag, 0, true, true, next, n, version);
  }

  /** Local changes on the tag `1.2.3.post1` itself. */
  lemma BumpDirtyPostExample(tag: string, version: string, next: string, n: string)
    requires tag == "1.2.3.post1" && version == "1.2.3.post2.dev0" && next == "1.2.3.post2" && n == "0"
    ensures BumpVersion(tag, 0, true, true) == Ok(version)
  {
    Format123Post1(tag);
    Format123Post2(next);
    ShowSmall(0, n);
    BumpOf(Version(1, 2, 3, 1, 0), tag, 0, true, true, next, n, version);
  }

  /** A tag that is not a version is refused. */
  lemma BumpInvalidExample(tag: string, mainBranch: bool)
    requires tag == "invalid"
    ensures BumpVersion(tag, 0, false, mainBranch) == Err(IncorrectVersionFormat(tag))
  {
    assert DigitPrefix(tag) == 0;
  }
}
