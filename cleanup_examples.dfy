/**
 * The cases of the cleanup workflow that the tests exercise, on a release line `line` and
 * its builds: the refusal of a final release, the deletion of two dev builds with and without
 * a failure, a dry run, and a package with nothing listed. The tools and the index are built
 * here, and their methods' contracts decide the outcome.
 */
module CleanupExamples {
  import opened Wrappers
  import opened VersionText
  import opened Retention
  import opened Cleanup

  const NoExchange := Exchange([], "", [], "")

  const NoCredentials := Credentials(None, None, None)

  /** The text of a dev build, recognised as one. */
  lemma DevText(line: Release, n: nat)
    ensures Classify(Render(Descriptor(line, Dev, n))) == Some(Descriptor(line, Dev, n))
    ensures Eligible(Render(Descriptor(line, Dev, n)))
  {
    ClassifyRender(Descriptor(line, Dev, n));
  }

  /** Two dev builds with different numbers have different texts. */
  lemma DevTextsDiffer(line: Release, m: nat, n: nat)
    requires m != n
    ensures Render(Descriptor(line, Dev, m)) != Render(Descriptor(line, Dev, n))
  {
    DevText(line, m);
    DevText(line, n);
  }

  /** A final release such as 1.0.0 fails the single-deletion safety check. */
  lemma FinalRefused(line: Release)
    ensures !Eligible(ShowRelease(line))
  {
    ClassifyRender(Descriptor(line, Final, 0));
    assert Render(Descriptor(line, Final, 0)) == ShowRelease(line);
  }

  /** Deleting a final release is refused before the index is called, and nothing changes. */
  method RefuseFinalExample(line: Release) returns (r: Result<(), CleanupError>, after: seq<string>)
    ensures r == Err(RefusedNonPrerelease(ShowRelease(line)))
    ensures after == [ShowRelease(line)]
  {
    FinalRefused(line);
    var index := new PackageIndex([ShowRelease(line)], true, {}, NoExchange);
    var tool := new IndexCleanup(true, 2, NoCredentials);
    r := tool.DeleteSingleVersion(index, ShowRelease(line));
    after := index.releases;
  }

  /** Of two eligible versions listed, the index deletes those it does not fail. */
  lemma TwoDeletable(a: string, b: string, refused: set<string>, d: set<string>)
    requires Eligible(a) && Eligible(b) && a != b && refused <= {b}
    requires d == {a, b} - refused
    ensures DeletableAmong([a, b], refused, {a, b}) == d
  {
  }

  lemma TwoRemoved(a: string, b: string, d: set<string>)
    requires a != b && (d == {a, b} || d == {a})
    ensures Without([a, b], d) == if b in d then [] else [b]
  {
    var t := [b];
    assert [a, b][1..] == t && t[1..] == [];
    assert Without(t, d) == if b in d then [] else [b];
  }

  lemma OneOfTwoFailed(a: string, b: string)
    requires a != b
    ensures |{a, b} - {a}| == 1 && |{a, b}| == 2
  {
    assert {a, b} - {a} == {b};
  }

  /** A fresh index listing a and b, asked to delete both while it fails the refused ones. */
  method DeleteTwo(a: string, b: string, refused: set<string>, d: set<string>) returns (r: Result<(), CleanupError>, after: seq<string>)
    requires a != b && DeletableAmong([a, b], refused, {a, b}) == d
    ensures r.Ok? <==> d == {a, b}
    ensures r.Err? ==> r.error == DeleteFailures(|{a, b} - d|, |{a, b}|)
    ensures after == Without([a, b], d)
  {
    var index := new PackageIndex([a, b], true, refused, NoExchange);
    var tool := new IndexCleanup(true, 2, NoCredentials);
    r := tool.DeleteVersions(index, {a, b});
    after := index.releases;
  }

  /** Two dev or rc builds the index deletes, as 1.0.0.dev1 and 1.0.0.dev2: the deletion
    * succeeds and the listing is empty. */
  method DeleteBothExample(a: string, b: string) returns (r: Result<(), CleanupError>, after: seq<string>)
    requires Eligible(a) && Eligible(b) && a != b
    ensures r.Ok?
    ensures after == []
  {
    TwoDeletable(a, b, {}, {a, b});
    TwoRemoved(a, b, {a, b});
    r, after := DeleteTwo(a, b, {}, {a, b});
  }

  /** Two such builds of which the index fails the second: "failed 1 of 2", and the first is
    * gone. */
  method PartialFailureExample(a: string, b: string) returns (r: Result<(), CleanupError>, after: seq<string>)
    requires Eligible(a) && Eligible(b) && a != b
    ensures r == Err(DeleteFailures(1, 2))
    ensures after == [b]
  {
    FailSecond(a, b);
    TwoDeletable(a, b, {b}, {a});
    r, after := DeleteTwo(a, b, {b}, {a});
  }

  /** The counts and the listing when only the first of two versions is deleted. */
  lemma FailSecond(a: string, b: string)
    requires a != b
    ensures {a, b} - {b} == {a} != {a, b}
    ensures |{a, b} - {a}| == 1 && |{a, b}| == 2
    ensures Without([a, b], {a}) == [b]
  {
    TwoRemoved(a, b, {a});
    OneOfTwoFailed(a, b);
    assert b !in {a};
  }

  /** The two builds of the deletion tests, `L.dev1` and `L.dev2` for a release line L: both
    * deleted, nothing left listed. */
  method DeleteNightliesExample(line: Release) returns (r: Result<(), CleanupError>, after: seq<string>)
    ensures r.Ok?
    ensures after == []
  {
    DevText(line, 1);
    DevText(line, 2);
    DevTextsDiffer(line, 1, 2);
    r, after := DeleteBothExample(Render(Descriptor(line, Dev, 1)), Render(Descriptor(line, Dev, 2)));
  }

  /** The same two builds when the index fails `L.dev2`: one of two failed, and `L.dev2` is still
    * listed. */
  method PartialNightliesExample(line: Release) returns (r: Result<(), CleanupError>, after: seq<string>)
    ensures r == Err(DeleteFailures(1, 2))
    ensures after == [Render(Descriptor(line, Dev, 2))]
  {
    DevText(line, 1);
    DevText(line, 2);
    DevTextsDiffer(line, 1, 2);
    r, after := PartialFailureExample(Render(Descriptor(line, Dev, 1)), Render(Descriptor(line, Dev, 2)));
  }

  /** Classifying a listing one version longer. */
  lemma ClassifyCons(v: string, d: Descriptor, rest: seq<string>, es: seq<Entry>)
    requires Classify(v) == Some(d) && ClassifyAll(rest) == Ok(es)
    ensures ClassifyAll([v] + rest) == Ok([Entry(v, d.line, d.kind, d.sequence)] + es)
  {
    assert ([v] + rest)[1..] == rest;
  }

  /** The rules for a final release and one dev build of its line delete the dev build. */
  lemma RulesReleasedDev(es: seq<Entry>, keep: nat, p: set<string>, f: string, a: string, line: Release, n: nat)
    requires es == [Entry(f, line, Final, 0), Entry(a, line, Dev, n)] && f != a
    ensures RetentionRules(es, keep, p) ==> p == {a}
  {
    if RetentionRules(es, keep, p) {
      RulesDecideReleasedDev(es, keep, p, f, a, line, n);
    }
  }

  lemma RulesDecideReleasedDev(es: seq<Entry>, keep: nat, p: set<string>, f: string, a: string, line: Release, n: nat)
    requires es == [Entry(f, line, Final, 0), Entry(a, line, Dev, n)] && f != a
    requires RetentionRules(es, keep, p)
    ensures p == {a}
  {
    assert es[0] in es && es[1] in es;
    assert EntryRule(es, keep, p, es[0]) && EntryRule(es, keep, p, es[1]);
    assert LineHas(es, line, Final);
    assert TextSet(es) == {f, a};
  }

  /** The plan for a final release and one dev build of its line deletes the dev build. */
  lemma PlanReleasedDev(f: string, a: string, line: Release, n: nat, keep: nat)
    requires Classify(f) == Some(Descriptor(line, Final, 0))
    requires Classify(a) == Some(Descriptor(line, Dev, n))
    ensures NoDup([f, a]) && Plan([f, a], keep) == Ok({a})
  {
    ClassifiedReleasedDev(f, a, line, n);
    PlanOfReleasedDev([f, a], [Entry(f, line, Final, 0), Entry(a, line, Dev, n)], keep, f, a, line, n);
  }

  lemma ClassifiedReleasedDev(f: string, a: string, line: Release, n: nat)
    requires Classify(f) == Some(Descriptor(line, Final, 0))
    requires Classify(a) == Some(Descriptor(line, Dev, n))
    ensures f != a && ClassifyAll([f, a]) == Ok([Entry(f, line, Final, 0), Entry(a, line, Dev, n)])
  {
    var ea := Entry(a, line, Dev, n);
    ClassifyOne(a, Descriptor(line, Dev, n));
    ClassifyCons(f, Descriptor(line, Final, 0), [a], [ea]);
    ClassifyPair(f, a, [Entry(f, line, Final, 0)] + [ea]);
    assert [Entry(f, line, Final, 0)] + [ea] == [Entry(f, line, Final, 0), ea];
  }

  lemma ClassifyOne(v: string, d: Descriptor)
    requires Classify(v) == Some(d)
    ensures ClassifyAll([v]) == Ok([Entry(v, d.line, d.kind, d.sequence)])
  {
    var e := Entry(v, d.line, d.kind, d.sequence);
    ClassifyCons(v, d, [], []);
    assert [v] + [] == [v] && [e] + [] == [e];
  }

  lemma ClassifyPair(f: string, a: string, es: seq<Entry>)
    requires ClassifyAll([f] + [a]) == Ok(es)
    ensures ClassifyAll([f, a]) == Ok(es)
  {
    assert [f] + [a] == [f, a];
  }


  lemma PlanOfReleasedDev(vs: seq<string>, es: seq<Entry>, keep: nat, f: string, a: string, line: Release, n: nat)
    requires vs == [f, a] && f != a && ClassifyAll(vs) == Ok(es)
    requires es == [Entry(f, line, Final, 0), Entry(a, line, Dev, n)]
    ensures NoDup(vs) && Plan(vs, keep) == Ok({a})
  {
    var r := Plan(vs, keep);
    RulesReleasedDev(es, keep, Elements(vs), f, a, line, n);
    assert f in Elements(vs);
    assert r.Ok?;
    RulesReleasedDev(es, keep, r.value, f, a, line, n);
  }

  /** A dry run over a final release and a dev build of its line previews deleting the dev
    * build, and changes nothing. */
  method DryRunExample(line: Release) returns (r: Result<Outcome, CleanupError>, after: seq<string>)
    ensures r == Ok(Previewed({Render(Descriptor(line, Dev, 1))}))
    ensures after == [ShowRelease(line), Render(Descriptor(line, Dev, 1))]
  {
    ClassifyRender(Descriptor(line, Final, 0));
    assert Render(Descriptor(line, Final, 0)) == ShowRelease(line);
    DevText(line, 1);
    PlanReleasedDev(ShowRelease(line), Render(Descriptor(line, Dev, 1)), line, 1, 2);
    var listed := [ShowRelease(line), Render(Descriptor(line, Dev, 1))];
    var index := new PackageIndex(listed, true, {}, NoExchange);
    var tool := new IndexCleanup(false, 2, NoCredentials);
    r := tool.ExecuteCleanup(index);
    after := index.releases;
  }

  /** A package with nothing listed has nothing to do. */
  method NoReleasesExample() returns (r: Result<Outcome, CleanupError>)
    ensures r == Ok(NothingToDo)
  {
    var index := new PackageIndex([], true, {}, NoExchange);
    var tool := new IndexCleanup(false, 2, NoCredentials);
    r := tool.ExecuteCleanup(index);
  }
}
