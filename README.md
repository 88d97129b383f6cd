# Release-tooling core of the DuckDB Python packaging: a Dafny model

This project models two pieces of the `duckdb_packaging` helpers and proves properties about them.

1. **Package-index cleanup** (`pypi_cleanup`). It removes old development (`.devN`) and
   release-candidate (`rcN`) builds from the package index.
   - The retention policy (`_determine_versions_to_delete`) decides, release line by release line,
     which versions go. A package-wide safety check refuses a plan that deletes every version.
   - Around the policy sit the username and argument checks and the CSRF-token scanner used to log
     in. Then come the login decision (password, then an optional second factor), the deletion loop
     with its per-version safety check, and the workflow `FETCH -> PLAN -> (REPORT | AUTHENTICATE ->
     DELETE)`.
2. **Versioning** (`_versioning`, `setuptools_scm_version`). This covers `parse_version` and
   `format_version` on `MAJOR.MINOR.PATCH[.postN|rcN]`, and the git tag mapping (`v` prefix,
   `-postN` ↔ `.postN`). It also covers `_bump_version`, the development-version scheme driven by
   the distance from the tag, the dirty flag and the main-branch setting.

The implementation modules are not part of this model's sources. Their behaviour is fixed by the
two unit-test files, and every contract below follows what those tests assert. Where the tests
leave room, the choice the model makes is listed under the design decisions below. The concrete cases
of the validation, CSRF, login, deletion, workflow and versioning tests are proved as lemmas or
example methods about the model, next to the general properties (round trips, subset and safety,
ordering, invariants) they instantiate. The retention fixtures are covered release line by release
line, with the version texts as parameters and the builds of a line in any order. The fetch tests are covered by the contract of
`FetchReleasedVersions` alone.

Files:

| file | module | contents |
|---|---|---|
| `wrappers.dfy` | `Wrappers` | `Option`, `Result`, duplicate-free sequences |
| `version_text.dfy` | `VersionText` | decimal digit runs, `MAJOR.MINOR.PATCH` reading and writing |
| `versioning.dfy` | `Versioning` | `parse_version`, `format_version`, git tag conversion |
| `scm_version.dfy` | `ScmVersion` | `_bump_version` and the PEP 440 order of its results |
| `versioning_examples.dfy` | `VersioningExamples` | the concrete versioning cases |
| `retention.dfy` | `Retention` | version classification, the retention policy, the safety check |
| `retention_examples.dfy` | `RetentionExamples` | the release lines of the retention fixtures |
| `validation.dfy` | `Validation` | `validate_username`, `validate_arguments` |
| `csrf.dfy` | `CsrfScan` | `CsrfParser` as a class fed tag events, plus its document-level meaning |
| `cleanup.dfy` | `Cleanup` | login, `_fetch_released_versions`, `_delete_single_version`, `_delete_versions`, `_execute_cleanup` |
| `cleanup_examples.dfy` | `CleanupExamples` | the concrete deletion and workflow cases |

Design decisions, where the tests leave room:

- `validate_username` accepts a stripped name that matches `^[a-zA-Z0-9]([a-zA-Z0-9._-]*[a-zA-Z0-9])?$`.
  The tests only refuse a leading or trailing `-` and accept names made of letters, digits, `.`,
  `-` and `_`. The pattern is the model's choice, and it has two consequences:
  - A name must also begin and end with a letter or digit, so `_user` and `user.` are refused like
    `-invalid`.
  - The letters and digits are ASCII only, so a name holding `é` is refused.
- `validate_username` checks in a fixed order: empty after stripping, then longer than 100
  characters, then the pattern. So a 101-character name that begins with `-` is "too long". No
  test has a name that fails two checks.
- `validate_arguments` treats an empty username like a missing one. It checks the username before
  the nightly count, so a live run without a username and with `-1` nightlies gets "username is
  required". The tests pin neither choice.
- A Python `set` of versions is a duplicate-free `seq<string>` in iteration order. The policy's
  result does not depend on that order except between dev builds with equal numbers, such as
  `dev1` and `dev01`. Those ties are broken like a stable sort.
- A version is recognised as `M.m.p` followed by nothing, `.devN`, `.postN`, `rcN` or `.rcN`.
  Digit runs may carry leading zeros, as `int()` accepts them. An unrecognised version aborts the
  plan (`FormatError`) instead of being skipped.
- The safety check compares the plan's size with the number of versions. An empty listing would
  therefore trip it. The workflow returns before planning when the listing is empty, as the
  no-releases test shows.
- The retention rules follow the tests:
  - In an unreleased line with rc builds, every dev build is deleted, even a single one, while
    the rcs stay.
  - In a dev-only line, the `max_nightlies` highest numbers stay.
- `CsrfParser` takes the tag events an HTML tokenizer delivers:
  - A `<form>` start tag sets "inside the aimed form" exactly when its `action` equals the
    target, and `</form>` clears it.
  - Inside an aimed form, an `<input name="csrf_token">` sets the token to its `value`. When
    several qualify, the last one wins.
- The login treats a post landing on the login path as a rejection. A landing under
  `/account/two-factor/` leads to the second factor; anywhere else counts as logged in. Paths are
  compared without the host.
- An empty plan ends the workflow with nothing to do before any login.
- `_delete_single_version` classifies the version with the policy's own classifier and refuses
  anything but a dev or rc build.
- The `MAIN_BRANCH_VERSIONING` environment setting is the boolean parameter `mainBranch`.
- The tests never call `format_version` with both a post and an rc number. The model then writes
  `.postN` followed by `rcM`, and no lemma states anything about that text.

## Model

| member | source | states |
|---|---|---|
| Validation.ValidateUsername | tests/fast/test_pypi_cleanup.py:26-50 | accepted exactly when the stripped name is non-empty, at most 100 characters and matches `^[a-zA-Z0-9]([a-zA-Z0-9._-]*[a-zA-Z0-9])?$`, and then the result is the stripped name; "cannot be empty" exactly when the stripped name is empty; "too long" exactly when it is over 100 |
| Validation.StripBounds | tests/fast/test_pypi_cleanup.py:29 | stripping keeps one contiguous slice, removes only whitespace on either side, and leaves no whitespace at its ends |
| Validation.StripIdempotent | tests/fast/test_pypi_cleanup.py:29 | stripping a stripped name changes nothing |
| Validation.StripSurrounding | tests/fast/test_pypi_cleanup.py:29 | whitespace around a name with no whitespace at its ends is removed, and only that |
| Validation.ValidUsernameStable | tests/fast/test_pypi_cleanup.py:26-31 | an accepted name is accepted again unchanged, has 1 to 100 characters, and holds only letters, digits, `.`, `_` and `-` |
| Validation.NameCharactersAccepted | tests/fast/test_pypi_cleanup.py:26-31 | any run of letters, digits, `.`, `_` and `-` between two letters or digits is accepted as it is |
| Validation.HyphenAtEdgeRejected | tests/fast/test_pypi_cleanup.py:46-50 | a name that starts or ends with `-` once stripped is refused as malformed |
| Validation.BlankRejected | tests/fast/test_pypi_cleanup.py:37-41 | an empty or all-whitespace name is refused as empty |
| Validation.LongNameRejected | tests/fast/test_pypi_cleanup.py:43-44 | a name over 100 characters with no surrounding whitespace is refused as too long |
| Validation.AcceptedExamples | tests/fast/test_pypi_cleanup.py:28-31 | `user123`, `test-user_name` and `a` are accepted unchanged |
| Validation.PaddedExample | tests/fast/test_pypi_cleanup.py:29 | `  user.name  ` is accepted as `user.name` |
| Validation.TooLongExample | tests/fast/test_pypi_cleanup.py:43-44 | 101 letters `a` are refused as too long |
| Validation.LeadingHyphenExample | tests/fast/test_pypi_cleanup.py:46-47 | `-invalid` is refused as malformed |
| Validation.TrailingHyphenExample | tests/fast/test_pypi_cleanup.py:49-50 | `invalid-` is refused as malformed |
| Validation.ValidateArguments | tests/fast/test_pypi_cleanup.py:52-67 | passes exactly when (dry-run or a non-empty username) and `max_nightlies >= 0`, returning that count; "username is required" exactly when not dry-run and the username is missing or empty |
| Validation.ArgumentExamples | tests/fast/test_pypi_cleanup.py:52-67 | a dry run without a username passes with 2; a live run without one needs a username; `-1` nightlies is refused as negative |
| CsrfScan.Attr | tests/fast/test_pypi_cleanup.py:134-138 | an attribute that is absent has no value; a repeated one takes its last value |
| CsrfScan.Step | tests/fast/test_pypi_cleanup.py:132-163 | a form start tag sets "inside the aimed form" to whether its action is the target; a form end tag clears it; the token changes only at a `csrf_token` input inside the aimed form, and then to that input's value |
| CsrfScan.Run | tests/fast/test_pypi_cleanup.py:140-142 | the scanner state after a run of tag events, one Step at a time; its contract is carried by RunAppend, CsrfParser.Feed and ScanFindsDocToken |
| CsrfScan.RunAppend | tests/fast/test_pypi_cleanup.py:140-142 | feeding a page in two pieces leaves the scanner where feeding it whole does |
| CsrfScan.CsrfParser.constructor | tests/fast/test_pypi_cleanup.py:140 | a new parser is outside any form and has no token |
| CsrfScan.CsrfParser.HandleStartTag | tests/fast/test_pypi_cleanup.py:132-163 | the parser's new state is the scanner step for that start tag |
| CsrfScan.CsrfParser.HandleEndTag | tests/fast/test_pypi_cleanup.py:132-163 | the parser's new state is the scanner step for that end tag |
| CsrfScan.CsrfParser.Feed | tests/fast/test_pypi_cleanup.py:140-142 | after feeding, the parser's state is the scan of the fed tags from its state before |
| CsrfScan.ScrapeToken | tests/fast/test_pypi_cleanup.py:140-142 | a fresh parser fed a page reports the token the scan of the page finds |
| CsrfScan.BodyToken | tests/fast/test_pypi_cleanup.py:136 | a form body yields the prior token or the value of one of its `csrf_token` inputs |
| CsrfScan.DocToken | tests/fast/test_pypi_cleanup.py:144-156 | a page yields the prior token or a token offered inside a form whose action is the target, never one from another form |
| CsrfScan.ScanFindsDocToken | tests/fast/test_pypi_cleanup.py:132-163 | scanning a well-formed page (forms not nested) ends outside any form, holding exactly the token the page offers its target |
| CsrfScan.NoTargetNoToken | tests/fast/test_pypi_cleanup.py:158-163 | a page with no form aimed at the target yields no token |
| CsrfScan.SimpleForm | tests/fast/test_pypi_cleanup.py:132-142 | a form aimed at the target with a `csrf_token` and a `username` input yields the token |
| CsrfScan.AimedForm | tests/fast/test_pypi_cleanup.py:132-142 | a page made of one aimed form yields the token its body offers |
| CsrfScan.OtherFormIgnored | tests/fast/test_pypi_cleanup.py:144-156 | with a form aimed elsewhere first and the aimed form second, the aimed form's token is found |
| CsrfScan.FormWithoutToken | tests/fast/test_pypi_cleanup.py:158-163 | an aimed form with only a `username` input yields no token |
| Retention.Classify | tests/fast/test_pypi_cleanup.py:182-190 | a version text is read as `M.m.p` followed by nothing, `.devN`, `.postN`, `rcN` or `.rcN`; its contract is carried by ClassifyRender and ClassifyAll |
| Retention.ClassifyRender | tests/fast/test_pypi_cleanup.py:182-190 | the text of every final, post, rc and dev version is classified back to its line, kind and number; an rc also from the `.rcN` spelling the index lists |
| Retention.ClassifyAll | tests/fast/test_pypi_cleanup.py:182-190 | classifies every version in order, or names an unrecognised one that is among them |
| Retention.SortBySequence | tests/fast/test_pypi_cleanup.py:223-238 | dev builds sorted ascending by their number (numerically), a permutation of the input |
| Retention.Insert | tests/fast/test_pypi_cleanup.py:223-238 | inserting into a sorted sequence keeps it sorted and adds exactly that element |
| Retention.LineDeletions | tests/fast/test_pypi_cleanup.py:181-238 | one release line's deletions are versions of that line |
| Retention.Candidates | tests/fast/test_pypi_cleanup.py:181-238 | the union of every line's deletions holds listed versions only |
| Retention.CandidatesFollowRules | tests/fast/test_pypi_cleanup.py:181-238 | the candidate plan follows the policy: finals and posts are kept; an rc is deleted exactly when its line has a final; a dev is deleted when its line has a final or an rc; in a dev-only line exactly `min(count, max_nightlies)` devs survive and none has a smaller number than a deleted one |
| Retention.Plan | tests/fast/test_pypi_cleanup.py:181-250 | an error for an unrecognised version exactly when one is listed; otherwise a plan that is a proper subset of the versions and follows the policy; a safety error only when deleting every version is what the policy decides |
| Retention.DeleteAllOnlyDevs | tests/fast/test_pypi_cleanup.py:240-250 | a policy-following plan deleting every version means only dev builds and no nightly kept |
| Retention.NoNightlyDeletesAll | tests/fast/test_pypi_cleanup.py:202-221 | with no nightly kept, the policy deletes every version of dev-only listings |
| Retention.LineLocal | tests/fast/test_pypi_cleanup.py:181-238 | what a plan deletes within one release line follows the rules for the listing made of that line alone |
| Retention.SafetyAbortExactly | tests/fast/test_pypi_cleanup.py:240-250 | the plan fails the safety check exactly when every version is a dev build and no nightly is kept, or nothing is listed |
| RetentionExamples.ReleasedLine | tests/fast/test_pypi_cleanup.py:181-221 | for 1.0.0 (`dev1`, `dev2`, `rc1`, final), any plan following the rules deletes the dev and rc builds and keeps the final, whatever the other lines hold |
| RetentionExamples.ReleasedNightlies | tests/fast/test_pypi_cleanup.py:181-221 | for 1.0.1 (`dev3` to `dev21` and a final) every dev build goes and the final stays |
| RetentionExamples.PostReleasedLine | tests/fast/test_pypi_cleanup.py:181-221 | for 1.1.0 (`dev34`, `dev54`, `dev88`, final, `post1`) the dev builds go, the final and the post stay |
| RetentionExamples.CandidatesReleasedLine | tests/fast/test_pypi_cleanup.py:181-221 | for 2.0.0 (`dev602`, `rc1` to `rc4`, final) all but the final go |
| RetentionExamples.CandidateLine | tests/fast/test_pypi_cleanup.py:181-221 | for 2.0.1 (`dev974`, `rc1` to `rc3`, no final) the dev build goes and the rcs stay |
| RetentionExamples.ThreeNightliesKeepTwo | tests/fast/test_pypi_cleanup.py:181-238 | a dev-only line of three builds, two kept (1.1.1 in the mixed fixture, 1.1.0 and 1.1.1 in the dev-only one), loses exactly its lowest-numbered build |
| RetentionExamples.ThreeNightliesKeepNone | tests/fast/test_pypi_cleanup.py:202-221 | with `max_nightlies` 0, the three builds of 1.1.1 all go |
| RetentionExamples.FiveNightliesKeepTwo | tests/fast/test_pypi_cleanup.py:223-238 | the five builds of 1.0.1, two kept, lose exactly `dev3`, `dev5` and `dev8` |
| RetentionExamples.FewNightliesKept | tests/fast/test_pypi_cleanup.py:223-238 | a dev-only line with at most `max_nightlies` builds (1.0.0, 2.0.0, 2.0.1) loses none |
| Cleanup.Eligible | tests/fast/test_pypi_cleanup.py:355-358 | the single-deletion safety check, a dev or rc build; its contract is carried by PlanEligible, DeleteSingleVersion and FinalRefused |
| Cleanup.PlanEligible | tests/fast/test_pypi_cleanup.py:191-198 | every version a plan names is a dev or rc build, so it passes the single-deletion check |
| Cleanup.SecondFactor | tests/fast/test_pypi_cleanup.py:318-329 | without an OTP secret nothing more is sent and the login fails; otherwise the challenge page is fetched, and the login succeeds exactly when it carries a token and the code post lands elsewhere |
| Cleanup.Authenticate | tests/fast/test_pypi_cleanup.py:302-333 | refused before any call exactly when the username or password is missing; succeeds exactly when the login form has a token, the post does not land on the login page, and a second-factor landing is passed; the first calls are fetching and posting to `/account/login/`; every post follows a fetch of its own page |
| Cleanup.DirectLogin | tests/fast/test_pypi_cleanup.py:302-316 | a post landing on `/manage/` logs in without a second factor, after one post to the login path |
| Cleanup.ChallengedLogin | tests/fast/test_pypi_cleanup.py:318-329 | a post landing on a second-factor path fetches the challenge, unless the OTP secret is missing |
| Cleanup.IndexCleanup.FetchReleasedVersions | tests/fast/test_pypi_cleanup.py:274-300 | the listed versions when the index answers, "Failed to fetch package information" otherwise |
| Cleanup.IndexCleanup.DeleteSingleVersion | tests/fast/test_pypi_cleanup.py:355-358 | refuses a version that is not a dev or rc build before calling the index; the version leaves the listing exactly when the call succeeds |
| Cleanup.IndexCleanup.DeleteVersions | tests/fast/test_pypi_cleanup.py:335-353 | every version is attempted; the listing loses exactly the ones whose deletion succeeds; succeeds exactly when all do, else reports "failed k of n" with k the failures and n the versions |
| Cleanup.IndexCleanup.ExecuteCleanup | tests/fast/test_pypi_cleanup.py:252-272 | the phase outcome for every case (fetch failure, empty listing, plan error, empty plan, dry-run preview, login failure, deletion); a dry run never changes the listing; only dev and rc builds are ever removed and nothing is added; a non-empty listing stays non-empty |
| CleanupExamples.FinalRefused | tests/fast/test_pypi_cleanup.py:355-358 | a final release such as `1.0.0` fails the single-deletion safety check |
| CleanupExamples.RefuseFinalExample | tests/fast/test_pypi_cleanup.py:355-358 | deleting a final release is refused with "Refusing to delete non-[dev\|rc] version", and the listing is unchanged |
| CleanupExamples.DeleteBothExample | tests/fast/test_pypi_cleanup.py:335-343 | deleting two dev or rc builds the index accepts succeeds and empties the listing |
| CleanupExamples.PartialFailureExample | tests/fast/test_pypi_cleanup.py:345-353 | when the index fails the second of two deletions, the result is "failed 1 of 2" and only the first build is gone |
| CleanupExamples.DeleteNightliesExample | tests/fast/test_pypi_cleanup.py:335-343 | the builds `L.dev1` and `L.dev2` of any release line are both deleted, and nothing stays listed |
| CleanupExamples.PartialNightliesExample | tests/fast/test_pypi_cleanup.py:345-353 | when the index fails `L.dev2`, the result is "failed 1 of 2" and only `L.dev2` stays listed |
| CleanupExamples.PlanReleasedDev | tests/fast/test_pypi_cleanup.py:252-265 | the plan for a final release and one dev build of its line is to delete the dev build |
| CleanupExamples.DryRunExample | tests/fast/test_pypi_cleanup.py:252-265 | a dry run over such a listing previews the deletion of the dev build and leaves the listing unchanged |
| CleanupExamples.NoReleasesExample | tests/fast/test_pypi_cleanup.py:267-272 | with nothing listed the workflow ends with nothing to do |
| Cleanup.Kept | tests/fast/test_pypi_cleanup.py:240-250 | deleting within a proper subset of the listing leaves a version listed |
| Versioning.ParseVersion | tests/fast/test_versioning.py:27-54 | a parsed tuple carries at most one of post and rc; a rejection is "Invalid version format" for that text |
| Versioning.FormatVersion | tests/fast/test_versioning.py:56-70 | `format_version`: the release text followed by `.postN` and `rcN` for the numbers that are set; its contract is carried by ParseFormat and FormatParse |
| Versioning.Format | tests/fast/test_versioning.py:56-70 | `format_version` on a parsed tuple; its contract is carried by ParseFormat and FormatParse |
| Versioning.ParseFormat | tests/fast/test_versioning.py:27-70 | formatting a tuple with at most one of post and rc, then parsing it, gives the tuple back |
| Versioning.FormatParse | tests/fast/test_versioning.py:27-70 | a text it accepts, written without leading zeros, is what formatting its tuple writes, except for a trailing `rc0` or `.post0` |
| Versioning.GitTagToPep440 | tests/fast/test_versioning.py:76-84 | `git_tag_to_pep440`: drops a leading `v` and writes `-post` as `.post`; its contract is carried by VersionOfGitTag |
| Versioning.Pep440ToGitTag | tests/fast/test_versioning.py:86-93 | `pep440_to_git_tag`: writes `.post` as `-post` and prefixes `v`; its contract is carried by GitTagOfVersion |
| Versioning.GitTagOfVersion | tests/fast/test_versioning.py:86-93 | a version without rc maps to `v` + release + `-postN` when it has a post number |
| Versioning.VersionOfGitTag | tests/fast/test_versioning.py:76-84 | a release tag, with or without `v`, with an optional `-postN`, maps to the version text with `.postN` |
| Versioning.GitTagRoundTrip | tests/fast/test_versioning.py:95-101 | version to git tag and back is the identity on `M.m.p[.postN]` |
| VersioningExamples.FormatBasicExamples | tests/fast/test_versioning.py:56-60 | `1.2.3`, `0.0.1`, `10.20.30` |
| VersioningExamples.FormatPostExamples | tests/fast/test_versioning.py:62-65 | `1.2.3.post1`, `1.2.3.post10` |
| VersioningExamples.FormatRcExamples | tests/fast/test_versioning.py:67-70 | `1.2.3rc1`, `1.2.3rc10` |
| VersioningExamples.ParseBasicExamples | tests/fast/test_versioning.py:27-31 | `1.2.3`, `0.0.1`, `10.20.30` parse to their tuples with post and rc 0 |
| VersioningExamples.ParsePostExamples | tests/fast/test_versioning.py:33-36 | `1.2.3.post1` and `1.2.3.post10` parse with post 1 and 10 |
| VersioningExamples.ParseRcExamples | tests/fast/test_versioning.py:39-41 | `1.2.3rc1` and `1.2.3rc10` parse with rc 1 and 10 |
| VersioningExamples.ShortReleaseRejected | tests/fast/test_versioning.py:45-46 | `1.2` is rejected |
| VersioningExamples.FourNumbersRejected | tests/fast/test_versioning.py:47-48 | `1.2.3.4` is rejected |
| VersioningExamples.PrefixedRejected | tests/fast/test_versioning.py:49-50 | `v1.2.3` is rejected |
| VersioningExamples.AlphaSuffixRejected | tests/fast/test_versioning.py:51-52 | `1.2.3-alpha` is rejected |
| VersioningExamples.BothSuffixesRejected | tests/fast/test_versioning.py:53-54 | `1.2.3rc5.post2` is rejected |
| VersioningExamples.GitTagToPep440Examples | tests/fast/test_versioning.py:76-84 | `v1.2.3` and `1.2.3` give `1.2.3`; `v1.2.3-post1` gives `1.2.3.post1`; `1.2.3-post10` gives `1.2.3.post10` |
| VersioningExamples.Pep440ToGitTagExamples | tests/fast/test_versioning.py:86-93 | `1.2.3`, `1.2.3.post1`, `1.2.3.post10` give `v1.2.3`, `v1.2.3-post1`, `v1.2.3-post10` |
| VersioningExamples.RoundTripExamples | tests/fast/test_versioning.py:95-101 | `1.2.3`, `1.2.3.post1`, `10.20.30.post5` survive the round trip |
| ScmVersion.BumpVersion | tests/fast/test_versioning.py:143-146 | fails exactly when the tag does not parse, with "Incorrect version format" for that tag |
| ScmVersion.BumpExactTag | tests/fast/test_versioning.py:107-110 | on any tag that parses, at distance 0 on a clean tree, the result is the tag unchanged, even one `format_version` would write differently (`1.2.3rc0`, `01.2.3`) |
| ScmVersion.NextVersionParses | tests/fast/test_versioning.py:112-129 | the version after a tag is one the parser accepts and reads back |
| ScmVersion.DevBuildBetween | tests/fast/test_versioning.py:112-129 | in PEP 440 order the `.devN` build of the next version lies after the tag and before that next version |
| ScmVersion.BumpDevelopment | tests/fast/test_versioning.py:112-129 | away from the tag or dirty, the result is `M.(m+1).0.devN` on the main branch, `M.m.(p+1).devN` on a release branch and `M.m.p.post(K+1).devN` after a `.postK` tag, N being the distance; that next version parses back, and the build is ordered between the tag and it |
| VersioningExamples.BumpExactTagExamples | tests/fast/test_versioning.py:107-110 | `1.2.3` and `1.2.3.post1` at distance 0 stay as they are, on either branch setting |
| VersioningExamples.BumpMainExample | tests/fast/test_versioning.py:112-115 | `1.2.3` at distance 5 on the main branch gives `1.3.0.dev5` |
| VersioningExamples.BumpPostExample | tests/fast/test_versioning.py:112-118 | `1.2.3.post1` at distance 3 gives `1.2.3.post2.dev3` |
| VersioningExamples.BumpReleaseBranchExample | tests/fast/test_versioning.py:120-123 | `1.2.3` at distance 5 on a release branch gives `1.2.4.dev5` |
| VersioningExamples.BumpDirtyExample | tests/fast/test_versioning.py:125-128 | dirty `1.2.3` gives `1.3.0.dev0` |
| VersioningExamples.BumpDirtyPostExample | tests/fast/test_versioning.py:125-129 | dirty `1.2.3.post1` gives `1.2.3.post2.dev0` |
| VersioningExamples.BumpInvalidExample | tests/fast/test_versioning.py:143-146 | `invalid` is refused with "Incorrect version format" |

## Left out

- HTTP is not modelled: the retry session, the JSON of the read API, the login and delete requests
  on the wire. The index is a `PackageIndex` object holding its listing, its reachability, the
  delete calls it fails, and its login answers.
- The HTML tokenizer is not modelled. `CsrfParser` receives tag events (tag name, attribute pairs).
- TOTP code generation is not modelled (a clock and a secret). `PostCode` carries the form
  token but no code.
- `setup_logging`, `create_argument_parser`, `load_credentials` (process environment), `main`
  and its exit codes, and `KeyboardInterrupt` handling are I/O plumbing around the core.
- `get_current_version` and `get_git_describe` call git in a subprocess. `forced_version_from_env`
  and the `MAIN_BRANCH_VERSIONING` lookup read the process environment; the setting is the
  `mainBranch` parameter.
- `version_scheme` only reads the tag, distance and dirty flag from its argument and calls
  `_bump_version`. Its case (`1.2.3`, distance 5, main branch) is `BumpMainExample`.
- The two 29-version fixtures and the 15-version dev-only fixture are not restated as whole
  listings. `RetentionExamples` states the outcome for each of their release lines, in any
  listing, with the version texts as parameters. A line's builds are given as a multiset, so
  each lemma holds in every iteration order. `CandidatesFollowRules`, `Plan` and
  `SafetyAbortExactly` state the rules for every listing.
- The dry-run test replaces the plan of a one-version listing by a mock. The model cannot replace
  the plan, so `DryRunExample` lists a final release beside the dev build, whose plan is then
  that dev build.
- The deletion examples take a release line as a parameter. For line 1.0.0 they cover the texts
  `1.0.0.dev1` and `1.0.0.dev2`, but 1.0.0 is not written out. The number of delete calls the
  tests count is not part of the model's state.
- ScmVersion.BumpVersion: the tests do not pin the development version after an rc tag. The
  model writes `rc(N+1).devD`. The only lemmas about it are the rc case of `BumpDevelopment`,
  `NextVersionParses` and `DevBuildBetween`.
- The numeric Spark functions test (floating point inside the engine) and the connection
  interrupt test (concurrency inside the engine) are outside this core.
- Cleanup.IndexCleanup.DeleteVersions: the order in which the set is traversed is not modelled;
  the contract is stated for every order.
