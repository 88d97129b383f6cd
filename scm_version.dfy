/**
 * The development-version scheme the build hands to setuptools_scm (`_bump_version`): a
 * build exactly on a tag gets the tag itself, any other build a `.devN` pre-release of
 * the version that follows the tag, N being the number of commits since the tag.
 */
module ScmVersion {
  import opened Wrappers
  import opened VersionText
  import opened Versioning

  datatype BumpError = IncorrectVersionFormat(tag: string)

  /** The version development after the tag works towards: the next post release after a
    * post release, the next candidate after a candidate, otherwise the next minor release on
    * the main branch and the next patch release on a release branch. */
  function NextVersion(v: Version, mainBranch: bool): Version
  {
    if v.post != 0 then Version(v.major, v.minor, v.patch, v.post + 1, 0)
    else if v.rc != 0 then Version(v.major, v.minor, v.patch, 0, v.rc + 1)
    else if mainBranch then Version(v.major, v.minor + 1, 0, 0, 0)
    else Version(v.major, v.minor, v.patch + 1, 0, 0)
  }

  function DevText(distance: nat): string { ".dev" + Show(distance) }

  /**
   * `_bump_version(tag, distance, dirty)`, with the `MAIN_BRANCH_VERSIONING` setting passed
   * as mainBranch.
   */
  function BumpVersion(tag: string, distance: nat, dirty: bool, mainBranch: bool): (r: Result<string, BumpError>)
    ensures r.Err? <==> ParseVersion(tag).Err?
    ensures r.Err? ==> r.error == IncorrectVersionFormat(tag)
  {
    match ParseVersion(tag)
    case Err(_) => Err(IncorrectVersionFormat(tag))
    case Ok(v) =>
      if distance == 0 && !dirty then Ok(tag)
      else Ok(Format(NextVersion(v, mainBranch)) + DevText(distance))
  }

  // ---------------------------------------------------------------------------------------
  // PEP 440 order on the versions the scheme produces.
  // ---------------------------------------------------------------------------------------

  /** A version, possibly as a `.devN` build of it. */
  datatype Build = Build(version: Version, dev: Option<nat>)

  predicate ReleaseBefore(a: Release, b: Release)
  {
    a.major < b.major
    || (a.major == b.major && a.minor < b.minor)
    || (a.major == b.major && a.minor == b.minor && a.patch < b.patch)
  }

  /** The place of a build among those of its release: a dev build of the release itself
    * first, then the candidates, the release, and its post releases. */
  function Phase(b: Build): (nat, nat)
  {
    if b.version.rc != 0 then (1, b.version.rc)
    else if b.version.post != 0 then (3, b.version.post)
    else if b.dev.Some? then (0, 0)
    else (2, 0)
  }

  predicate PairBefore(a: (nat, nat), b: (nat, nat))
  {
    a.0 < b.0 || (a.0 == b.0 && a.1 < b.1)
  }

  /** Dev builds come before the version they develop, in the order of their numbers. */
  predicate DevBefore(a: Option<nat>, b: Option<nat>)
  {
    (a.Some? && b.None?) || (a.Some? && b.Some? && a.value < b.value)
  }

  /** PEP 440 order: release triple first, then phase, then dev number. */
  predicate Before(a: Build, b: Build)
  {
    var ra, rb := a.version.Release(), b.version.Release();
    ReleaseBefore(ra, rb)
    || (ra == rb && PairBefore(Phase(a), Phase(b)))
    || (ra == rb && Phase(a) == Phase(b) && DevBefore(a.dev, b.dev))
  }

  // ---------------------------------------------------------------------------------------
  // What the scheme promises.
  // ---------------------------------------------------------------------------------------

  /** A build exactly on a tag that parses is versioned as the tag, unchanged, whether or not
    * format_version would write the tag that way (`1.2.3rc0`, `01.2.3`). */
  lemma BumpExactTag(tag: string, mainBranch: bool)
    requires ParseVersion(tag).Ok?
    ensures BumpVersion(tag, 0, false, mainBranch) == Ok(tag)
    ensures ParseVersion(BumpVersion(tag, 0, false, mainBranch).value) == ParseVersion(tag)
  {
  }

  /** The version after a tag is one parse_version accepts. */
  lemma NextVersionParses(v: Version, mainBranch: bool)
    requires SingleSuffix(v)
    ensures SingleSuffix(NextVersion(v, mainBranch))
    ensures ParseVersion(Format(NextVersion(v, mainBranch))) == Ok(NextVersion(v, mainBranch))
  {
    ParseFormat(NextVersion(v, mainBranch));
  }

  /** A dev build of the version after a tag comes after the tag and before that version. */
  lemma DevBuildBetween(v: Version, mainBranch: bool, distance: nat)
    requires SingleSuffix(v)
    ensures Before(Build(v, None), Build(NextVersion(v, mainBranch), Some(distance)))
    ensures Before(Build(NextVersion(v, mainBranch), Some(distance)), Build(NextVersion(v, mainBranch), None))
  {
  }

  /**
   * A build after a tag, or with local changes, is the `.devN` build of the next version:
   * the next minor release on the main branch, the next patch release on a release branch,
   * the next post release after a post release (and the next candidate after a candidate).
   * It is later than the tag and earlier than the next version itself.
   */
  lemma BumpDevelopment(tag: string, v: Version, distance: nat, dirty: bool, mainBranch: bool)
    requires ParseVersion(tag) == Ok(v) && (distance > 0 || dirty)
    ensures v.post == 0 && v.rc == 0 && mainBranch ==>
      BumpVersion(tag, distance, dirty, mainBranch) == Ok(FormatVersion(v.major, v.minor + 1, 0, 0, 0) + DevText(distance))
    ensures v.post == 0 && v.rc == 0 && !mainBranch ==>
      BumpVersion(tag, distance, dirty, mainBranch) == Ok(FormatVersion(v.major, v.minor, v.patch + 1, 0, 0) + DevText(distance))
    ensures v.post != 0 ==>
      BumpVersion(tag, distance, dirty, mainBranch) == Ok(FormatVersion(v.major, v.minor, v.patch, v.post + 1, 0) + DevText(distance))
    ensures v.rc != 0 ==>
      BumpVersion(tag, distance, dirty, mainBranch) == Ok(FormatVersion(v.major, v.minor, v.patch, 0, v.rc + 1) + DevText(distance))
    ensures var n := NextVersion(v, mainBranch);
      && ParseVersion(Format(n)) == Ok(n)
      && Before(Build(v, None), Build(n, Some(distance)))
      && Before(Build(n, Some(distance)), Build(n, None))
  {
    BumpIsNext(tag, v, distance, dirty, mainBranch);
    NextShapes(v, mainBranch);
    NextVersionParses(v, mainBranch);
    DevBuildBetween(v, mainBranch, distance);
  }

  lemma BumpIsNext(tag: string, v: Version, distance: nat, dirty: bool, mainBranch: bool)
    requires ParseVersion(tag) == Ok(v) && (distance > 0 || dirty)
    ensures BumpVersion(tag, distance, dirty, mainBranch) == Ok(Format(NextVersion(v, mainBranch)) + DevText(distance))
  {
  }

  /** The text of the next version, by the kind of the tag. */
  lemma NextShapes(v: Version, mainBranch: bool)
    requires SingleSuffix(v)
    ensures v.post == 0 && v.rc == 0 && mainBranch ==>
      Format(NextVersion(v, mainBranch)) == FormatVersion(v.major, v.minor + 1, 0, 0, 0)
    ensures v.post == 0 && v.rc == 0 && !mainBranch ==>
      Format(NextVersion(v, mainBranch)) == FormatVersion(v.major, v.minor, v.patch + 1, 0, 0)
    ensures v.post != 0 ==> Format(NextVersion(v, mainBranch)) == FormatVersion(v.major, v.minor, v.patch, v.post + 1, 0)
    ensures v.rc != 0 ==> Format(NextVersion(v, mainBranch)) == FormatVersion(v.major, v.minor, v.patch, 0, v.rc + 1)
  {
  }
}
