/**
 * The retention policy of the package-index cleanup (`_determine_versions_to_delete`):
 * given every published version and the number of nightlies to keep, the versions that may
 * be deleted, decided release line by release line, and the package-wide safety check that
 * refuses a plan deleting every version.
 */
module Retention {
  import opened Wrappers
  import opened VersionText

  datatype Kind = Final | Post | Rc | Dev

  /** A classified version: its release line, its kind and its number within the kind. */
  datatype Descriptor = Descriptor(line: Release, kind: Kind, sequence: nat)

  /** The kind and number a suffix after `MAJOR.MINOR.PATCH` denotes: none, `.devN`,
    * `.postN`, `rcN` or `.rcN`. */
  function Qualifier(rest: string): Option<(Kind, nat)>
  {
    if rest == [] then Some((Final, 0))
    else
      match TaggedNumber(rest, ".dev")
      case Some(n) => Some((Dev, n))
      case None =>
        match TaggedNumber(rest, ".post")
        case Some(n) => Some((Post, n))
        case None =>
          match TaggedNumber(rest, "rc")
          case Some(n) => Some((Rc, n))
          case None =>
            match TaggedNumber(rest, ".rc")
            case Some(n) => Some((Rc, n))
            case None => None
  }

  /** The classification of a version text; None when it has none of the recognised shapes. */
  function Classify(s: string): Option<Descriptor>
  {
    match ReadRelease(s)
    case None => None
    case Some((line, rest)) =>
      match Qualifier(rest)
      case None => None
      case Some((kind, n)) => Some(Descriptor(line, kind, n))
  }

  function SuffixText(kind: Kind, n: nat): string
  {
    match kind
    case Final => ""
    case Post => ".post" + Show(n)
    case Rc => "rc" + Show(n)
    case Dev => ".dev" + Show(n)
  }

  /** The text of a descriptor, as the index lists it. */
  function Render(d: Descriptor): string
  {
    ShowRelease(d.line) + SuffixText(d.kind, d.sequence)
  }

  /** A final release carries no number. */
  predicate WellNumbered(d: Descriptor) { d.kind == Final ==> d.sequence == 0 }

  /** Every descriptor is recognised again from its text, and a release candidate also from
    * the `.rcN` spelling the index lists. */
  lemma ClassifyRender(d: Descriptor)
    requires WellNumbered(d)
    ensures Classify(Render(d)) == Some(d)
    ensures d.kind == Rc ==> Classify(ShowRelease(d.line) + (".rc" + Show(d.sequence))) == Some(d)
  {
    var rest := SuffixText(d.kind, d.sequence);
    QualifierOfSuffix(d.kind, d.sequence);
    ReadShowRelease(d.line, rest);
    if d.kind == Rc {
      QualifierOfDotRc(d.sequence);
      ReadShowRelease(d.line, ".rc" + Show(d.sequence));
    }
  }

  lemma QualifierOfDotRc(n: nat)
    ensures StartsWithoutDigit(".rc" + Show(n))
    ensures Qualifier(".rc" + Show(n)) == Some((Rc, n))
  {
    var rest := ".rc" + Show(n);
    TaggedNumberShow(".rc", n);
    assert rest[0] == '.' && rest[1] == 'r';
    assert TaggedNumber(rest, ".dev").None? by {
      assert |rest| >= 4 ==> rest[..4][1] == 'r';
    }
    assert TaggedNumber(rest, ".post").None? by {
      assert |rest| >= 5 ==> rest[..5][1] == 'r';
    }
    assert TaggedNumber(rest, "rc").None? by {
      assert rest[..2][0] == '.';
    }
  }

  lemma QualifierOfSuffix(kind: Kind, n: nat)
    requires kind == Final ==> n == 0
    ensures StartsWithoutDigit(SuffixText(kind, n))
    ensures Qualifier(SuffixText(kind, n)) == Some((kind, n))
  {
    var rest := SuffixText(kind, n);
    match kind
    case Final =>
    case Dev =>
      TaggedNumberShow(".dev", n);
    case Post =>
      TaggedNumberShow(".post", n);
      assert rest[..4] != ".dev" by { assert rest[1] == 'p'; }
    case Rc =>
      TaggedNumberShow("rc", n);
      assert rest != [] && rest[0] == 'r';
      assert TaggedNumber(rest, ".dev").None? by {
        assert |rest| >= 4 ==> rest[..4][0] == 'r';
      }
      assert TaggedNumber(rest, ".post").None? by {
        assert |rest| >= 5 ==> rest[..5][0] == 'r';
      }
  }

  /** A published version with its classification. */
  datatype Entry = Entry(text: string, line: Release, kind: Kind, sequence: nat)

  predicate Describes(e: Entry, s: string)
  {
    e.text == s && Classify(s) == Some(Descriptor(e.line, e.kind, e.sequence))
  }

  datatype PlanError =
    | FormatError(version: string)  // a version with none of the recognised shapes
    | SafetyError(total: nat)       // the plan would delete every one of `total` versions

  /** Classifies every version, in order; the first unrecognised one is the error. */
  function ClassifyAll(vs: seq<string>): (r: Result<seq<Entry>, PlanError>)
    ensures r.Ok? ==> |r.value| == |vs| && forall i :: 0 <= i < |vs| ==> Describes(r.value[i], vs[i])
    ensures r.Err? ==>
      r.error.FormatError? && r.error.version in vs && Classify(r.error.version).None?
  {
    if vs == [] then Ok([])
    else
      match Classify(vs[0])
      case None => Err(FormatError(vs[0]))
      case Some(d) =>
        match ClassifyAll(vs[1..])
        case Err(e) => Err(e)
        case Ok(es) =>
          assert forall i :: 1 <= i < |vs| ==> vs[1..][i - 1] == vs[i];
          Ok([Entry(vs[0], d.line, d.kind, d.sequence)] + es)
  }

  /** The entries of s that f selects, in order. */
  function Filter(s: seq<Entry>, f: Entry -> bool): (r: seq<Entry>)
    ensures |r| <= |s|
    ensures forall e :: e in r <==> e in s && f(e)
    ensures (exists e :: e in s && !f(e)) ==> |r| < |s|
    ensures NoDup(s) ==> NoDup(r)
  {
    if s == [] then []
    else if f(s[0]) then
      assert NoDup(s) ==> s[0] !in s[1..];
      [s[0]] + Filter(s[1..], f)
    else Filter(s[1..], f)
  }

  function InLine(es: seq<Entry>, line: Release): (r: seq<Entry>)
    ensures forall e :: e in r <==> e in es && e.line == line
    ensures NoDup(es) ==> NoDup(r)
  {
    Filter(es, (e: Entry) => e.line == line)
  }

  function OutsideLine(es: seq<Entry>, line: Release): (r: seq<Entry>)
    ensures forall e :: e in r <==> e in es && e.line != line
    ensures NoDup(es) ==> NoDup(r)
    ensures (exists e :: e in es && e.line == line) ==> |r| < |es|
  {
    Filter(es, (e: Entry) => e.line != line)
  }

  function OfKind(es: seq<Entry>, kind: Kind): (r: seq<Entry>)
    ensures forall e :: e in r <==> e in es && e.kind == kind
    ensures NoDup(es) ==> NoDup(r)
  {
    Filter(es, (e: Entry) => e.kind == kind)
  }

  /** The dev and rc builds among es. */
  function Prereleases(es: seq<Entry>): (r: seq<Entry>)
    ensures forall e :: e in r <==> e in es && (e.kind == Dev || e.kind == Rc)
  {
    Filter(es, (e: Entry) => e.kind == Dev || e.kind == Rc)
  }

  function TextSet(s: seq<Entry>): set<string>
  {
    set e | e in s :: e.text
  }

  /** No version listed twice, and no two entries for one version text. */
  predicate UniqueTexts(es: seq<Entry>)
  {
    NoDup(es) && forall e, f :: e in es && f in es && e.text == f.text ==> e == f
  }

  predicate Has(g: seq<Entry>, kind: Kind)
  {
    exists e :: e in g && e.kind == kind
  }

  predicate SortedBySequence(s: seq<Entry>)
  {
    forall i, j :: 0 <= i < j < |s| ==> s[i].sequence <= s[j].sequence
  }

  /** Inserts x before the first entry whose number is not smaller. */
  function Insert(x: Entry, s: seq<Entry>): (r: seq<Entry>)
    requires SortedBySequence(s)
    ensures SortedBySequence(r)
    ensures multiset(r) == multiset(s) + multiset{x}
    ensures NoDup(s) && x !in s ==> NoDup(r)
  {
    if s == [] || x.sequence <= s[0].sequence then
      InsertFront(x, s);
      [x] + s
    else
      SortedTail(s);
      var t := Insert(x, s[1..]);
      InsertStep(x, s, t);
      [s[0]] + t
  }

  lemma SortedTail(s: seq<Entry>)
    requires s != [] && SortedBySequence(s)
    ensures SortedBySequence(s[1..]) && forall y :: y in s ==> s[0].sequence <= y.sequence
  {
    forall y | y in s ensures s[0].sequence <= y.sequence {
      var i :| 0 <= i < |s| && s[i] == y;
      if i > 0 {
        assert s[0].sequence <= s[i].sequence;
      }
    }
  }

  lemma InsertFront(x: Entry, s: seq<Entry>)
    requires SortedBySequence(s) && (s == [] || x.sequence <= s[0].sequence)
    ensures SortedBySequence([x] + s)
    ensures NoDup(s) && x !in s ==> NoDup([x] + s)
  {
    if s != [] {
      SortedTail(s);
    }
    SortedCons(x, s);
    if NoDup(s) && x !in s {
      var r := [x] + s;
      forall i, j | 0 <= i < j < |r| ensures r[i] != r[j] {
        assert r[j] == s[j - 1];
        if i > 0 {
          assert r[i] == s[i - 1];
        }
      }
    }
  }

  lemma InsertStep(x: Entry, s: seq<Entry>, t: seq<Entry>)
    requires s != [] && SortedBySequence(s) && s[0].sequence < x.sequence
    requires SortedBySequence(t) && multiset(t) == multiset(s[1..]) + multiset{x}
    requires NoDup(s[1..]) && x !in s[1..] ==> NoDup(t)
    ensures SortedBySequence([s[0]] + t)
    ensures multiset([s[0]] + t) == multiset(s) + multiset{x}
    ensures NoDup(s) && x !in s ==> NoDup([s[0]] + t)
  {
    InsertBound(x, s, t);
    SortedCons(s[0], t);
    assert s == [s[0]] + s[1..];
    if NoDup(s) && x !in s {
      assert NoDup(s[1..]) by {
        forall i, j | 0 <= i < j < |s[1..]| ensures s[1..][i] != s[1..][j] {
          assert s[1..][i] == s[i + 1] && s[1..][j] == s[j + 1];
        }
      }
      NoDupCons(s[0], t, s);
    }
  }

  lemma InsertBound(x: Entry, s: seq<Entry>, t: seq<Entry>)
    requires s != [] && SortedBySequence(s) && s[0].sequence < x.sequence
    requires multiset(t) == multiset(s[1..]) + multiset{x}
    ensures forall y :: y in t ==> s[0].sequence <= y.sequence && (y == x || y in s[1..])
  {
    SortedTail(s);
    forall y | y in t ensures s[0].sequence <= y.sequence && (y == x || y in s[1..]) {
      assert y in multiset(t);
      if y != x {
        assert y in multiset(s[1..]);
      }
    }
  }

  lemma NoDupCons(h: Entry, t: seq<Entry>, s: seq<Entry>)
    requires s != [] && h == s[0] && forall y :: y in t ==> y in s[1..] || y !in s
    ensures NoDup(s) && NoDup(t) ==> NoDup([h] + t)
  {
    if NoDup(s) && NoDup(t) {
      assert s[0] !in s[1..];
      var r := [h] + t;
      forall i, j | 0 <= i < j < |r| ensures r[i] != r[j] {
        assert r[j] == t[j - 1];
        if i > 0 {
          assert r[i] == t[i - 1];
        }
      }
    }
  }

  lemma SortedCons(h: Entry, t: seq<Entry>)
    requires SortedBySequence(t) && forall y :: y in t ==> h.sequence <= y.sequence
    ensures SortedBySequence([h] + t)
  {
    var r := [h] + t;
    forall i, j | 0 <= i < j < |r| ensures r[i].sequence <= r[j].sequence {
      assert r[j] == t[j - 1];
      if i > 0 {
        assert r[i] == t[i - 1];
      }
    }
  }

  /** `sorted(devs, key=sequence)`: ascending by number, stable. */
  function SortBySequence(s: seq<Entry>): (r: seq<Entry>)
    ensures SortedBySequence(r)
    ensures multiset(r) == multiset(s)
    ensures NoDup(s) ==> NoDup(r)
  {
    if s == [] then []
    else
      var t := SortBySequence(s[1..]);
      SortStep(s, t);
      Insert(s[0], t)
  }

  lemma SortStep(s: seq<Entry>, t: seq<Entry>)
    requires s != [] && multiset(t) == multiset(s[1..])
    ensures multiset(t) + multiset{s[0]} == multiset(s)
    ensures NoDup(s) ==> s[0] !in t
  {
    assert s == [s[0]] + s[1..];
    if NoDup(s) {
      assert s[0] !in s[1..];
      assert s[0] !in multiset(t);
    }
  }

  /** How many of n builds go when keep of them stay. */
  function Excess(n: nat, keep: nat): nat
  {
    if n > keep then n - keep else 0
  }

  /** The versions of one release line g that are deleted. */
  function LineDeletions(g: seq<Entry>, keep: nat): (d: set<string>)
    ensures d <= TextSet(g)
  {
    if Has(g, Final) then TextSet(Prereleases(g))
    else if Has(g, Rc) then TextSet(OfKind(g, Dev))
    else
      var devs := SortBySequence(OfKind(g, Dev));
      var k := Excess(|devs|, keep);
      assert forall e :: e in devs[..k] ==> e in g by {
        forall e | e in devs[..k] ensures e in g {
          assert e in multiset(devs);
        }
      }
      TextSet(devs[..k])
  }

  /** The candidate plan: the union of every release line's deletions. */
  function Candidates(es: seq<Entry>, keep: nat): (c: set<string>)
    ensures c <= TextSet(es)
    decreases |es|
  {
    if es == [] then {}
    else
      var line := es[0].line;
      assert es[0] in es && es[0].line == line;
      LineDeletions(InLine(es, line), keep) + Candidates(OutsideLine(es, line), keep)
  }

  // ---------------------------------------------------------------------------------------
  // The policy stated rule by rule.
  // ---------------------------------------------------------------------------------------

  predicate LineHas(es: seq<Entry>, line: Release, kind: Kind)
  {
    exists e :: e in es && e.line == line && e.kind == kind
  }

  /** The dev builds of one release line. */
  function Devs(es: seq<Entry>, line: Release): seq<Entry>
  {
    OfKind(InLine(es, line), Dev)
  }

  /** How many of devs are not in p. */
  function Survivors(devs: seq<Entry>, p: set<string>): nat
  {
    if devs == [] then 0 else (if devs[0].text in p then 0 else 1) + Survivors(devs[1..], p)
  }

  function Min(a: nat, b: nat): nat { if a < b then a else b }

  /** In a line with dev builds only, keep of them survive (all when there are fewer), and
    * every survivor has a number at least that of every deleted build. */
  predicate NightlyRule(devs: seq<Entry>, keep: nat, p: set<string>)
  {
    && Survivors(devs, p) == Min(|devs|, keep)
    && forall i, j :: 0 <= i < |devs| && 0 <= j < |devs| && devs[i].text in p && devs[j].text !in p
         ==> devs[i].sequence <= devs[j].sequence
  }

  /** What the plan p decides for one version e of es. */
  predicate EntryRule(es: seq<Entry>, keep: nat, p: set<string>, e: Entry)
  {
    if e.kind == Final || e.kind == Post then e.text !in p
    else if e.kind == Rc then (e.text in p <==> LineHas(es, e.line, Final))
    else if LineHas(es, e.line, Final) || LineHas(es, e.line, Rc) then e.text in p
    else NightlyRule(Devs(es, e.line), keep, p)
  }

  /** The retention policy: p holds published versions only, and decides every one of them
    * by its kind and its release line. */
  predicate RetentionRules(es: seq<Entry>, keep: nat, p: set<string>)
  {
    p <= TextSet(es) && forall e :: e in es ==> EntryRule(es, keep, p, e)
  }

  // ---------------------------------------------------------------------------------------
  // The candidate plan follows the rules.
  // ---------------------------------------------------------------------------------------

  lemma UniqueFilter(s: seq<Entry>, t: seq<Entry>)
    requires UniqueTexts(t) && NoDup(s) && forall e :: e in s ==> e in t
    ensures UniqueTexts(s)
  {
  }

  /** When texts are unique in t, an entry of t is marked by a sub-list s exactly when it is in s. */
  lemma TextMarks(s: seq<Entry>, t: seq<Entry>, e: Entry)
    requires UniqueTexts(t) && e in t && forall x :: x in s ==> x in t
    ensures e.text in TextSet(s) <==> e in s
  {
    if e.text in TextSet(s) {
      var x :| x in s && x.text == e.text;
    }
  }

  lemma {:induction false} InLineOutside(es: seq<Entry>, a: Release, b: Release)
    requires a != b
    ensures InLine(OutsideLine(es, a), b) == InLine(es, b)
  {
    if es != [] {
      InLineOutside(es[1..], a, b);
      var rest := OutsideLine(es[1..], a);
      if es[0].line != a {
        assert OutsideLine(es, a) == [es[0]] + rest;
        assert ([es[0]] + rest)[1..] == rest;
      }
    }
  }

  /** A version is in the candidate plan exactly when its own line deletes it. */
  lemma {:induction false} CandidatesMember(es: seq<Entry>, keep: nat, e: Entry)
    requires UniqueTexts(es) && e in es
    ensures e.text in Candidates(es, keep) <==> e.text in LineDeletions(InLine(es, e.line), keep)
    decreases |es|
  {
    var line := es[0].line;
    assert es[0] in es && es[0].line == line;
    var out := OutsideLine(es, line);
    var g := InLine(es, line);
    assert Candidates(es, keep) == LineDeletions(g, keep) + Candidates(out, keep);
    if e.line == line {
      TextMarks(out, es, e);
    } else {
      UniqueFilter(out, es);
      CandidatesMember(out, keep, e);
      InLineOutside(es, line, e.line);
      TextMarks(g, es, e);
    }
  }

  /** What one line's deletions decide for each kind, when texts are unique. */
  lemma LineDeletionsKinds(g: seq<Entry>, keep: nat, e: Entry)
    requires UniqueTexts(g) && e in g
    ensures e.kind == Final || e.kind == Post ==> e.text !in LineDeletions(g, keep)
    ensures e.kind == Rc ==> (e.text in LineDeletions(g, keep) <==> Has(g, Final))
    ensures e.kind == Dev && (Has(g, Final) || Has(g, Rc)) ==> e.text in LineDeletions(g, keep)
  {
    if Has(g, Final) {
      TextMarks(Prereleases(g), g, e);
    } else if Has(g, Rc) {
      TextMarks(OfKind(g, Dev), g, e);
    } else {
      var devs := SortBySequence(OfKind(g, Dev));
      var k := Excess(|devs|, keep);
      forall x | x in devs[..k] ensures x in g && x.kind == Dev {
        assert x in multiset(devs);
      }
      TextMarks(devs[..k], g, e);
    }
  }

  lemma {:induction false} SurvivorsAppend(a: seq<Entry>, b: seq<Entry>, p: set<string>)
    ensures Survivors(a + b, p) == Survivors(a, p) + Survivors(b, p)
  {
    if a != [] {
      assert (a + b)[0] == a[0];
      assert (a + b)[1..] == a[1..] + b;
      SurvivorsAppend(a[1..], b, p);
    } else {
      assert a + b == b;
    }
  }

  lemma {:induction false} SurvivorsInsert(x: Entry, s: seq<Entry>, p: set<string>)
    requires SortedBySequence(s)
    ensures Survivors(Insert(x, s), p) == Survivors([x], p) + Survivors(s, p)
  {
    if s == [] || x.sequence <= s[0].sequence {
      SurvivorsAppend([x], s, p);
    } else {
      SurvivorsInsert(x, s[1..], p);
      assert ([s[0]] + Insert(x, s[1..]))[1..] == Insert(x, s[1..]);
    }
  }

  lemma {:induction false} SurvivorsSort(s: seq<Entry>, p: set<string>)
    ensures Survivors(SortBySequence(s), p) == Survivors(s, p)
  {
    if s != [] {
      SurvivorsSort(s[1..], p);
      SurvivorsInsert(s[0], SortBySequence(s[1..]), p);
    }
  }

  lemma {:induction false} SurvivorsNone(s: seq<Entry>, p: set<string>)
    requires forall i :: 0 <= i < |s| ==> s[i].text in p
    ensures Survivors(s, p) == 0
  {
    if s != [] {
      SurvivorsNone(s[1..], p);
    }
  }

  lemma {:induction false} SurvivorsAll(s: seq<Entry>, p: set<string>)
    requires forall i :: 0 <= i < |s| ==> s[i].text !in p
    ensures Survivors(s, p) == |s|
  {
    if s != [] {
      SurvivorsAll(s[1..], p);
    }
  }

  lemma {:induction false} SurvivorsZero(s: seq<Entry>, p: set<string>)
    requires Survivors(s, p) == 0
    ensures forall x :: x in s ==> x.text in p
  {
    if s != [] {
      SurvivorsZero(s[1..], p);
    }
  }

  lemma {:induction false} SurvivorsAgree(s: seq<Entry>, p: set<string>, q: set<string>)
    requires forall x :: x in s ==> (x.text in p <==> x.text in q)
    ensures Survivors(s, p) == Survivors(s, q)
  {
    if s != [] {
      SurvivorsAgree(s[1..], p, q);
    }
  }

  /** In a sorted duplicate-free list inside t, the first k entries are marked by their texts. */
  lemma SplitMarks(sorted: seq<Entry>, k: nat, t: seq<Entry>, b: nat)
    requires UniqueTexts(t) && NoDup(sorted) && k <= |sorted| && b < |sorted|
    requires forall x :: x in sorted ==> x in t
    ensures sorted[b].text in TextSet(sorted[..k]) <==> b < k
  {
    if sorted[b].text in TextSet(sorted[..k]) {
      var x :| x in sorted[..k] && x.text == sorted[b].text;
      var a :| 0 <= a < k && sorted[..k][a] == x;
      assert sorted[a] == sorted[b];
    }
    if b < k {
      assert sorted[b] == sorted[..k][b];
    }
  }

  /** A prefix of a sorted list, marked by its texts. */
  predicate MarksPrefix(sorted: seq<Entry>, k: nat, p: set<string>)
  {
    k <= |sorted| && forall b :: 0 <= b < |sorted| ==> (sorted[b].text in p <==> b < k)
  }

  lemma PrefixCount(sorted: seq<Entry>, k: nat, p: set<string>)
    requires MarksPrefix(sorted, k, p)
    ensures Survivors(sorted, p) == |sorted| - k
  {
    assert sorted == sorted[..k] + sorted[k..];
    SurvivorsAppend(sorted[..k], sorted[k..], p);
    SurvivorsNone(sorted[..k], p);
    assert forall i :: 0 <= i < |sorted[k..]| ==> sorted[k..][i] == sorted[k + i];
    SurvivorsAll(sorted[k..], p);
  }

  lemma PrefixOrder(devs: seq<Entry>, sorted: seq<Entry>, k: nat, p: set<string>)
    requires SortedBySequence(sorted) && multiset(sorted) == multiset(devs)
    requires MarksPrefix(sorted, k, p)
    ensures forall i, j ::
      0 <= i < |devs| && 0 <= j < |devs| && devs[i].text in p && devs[j].text !in p ==>
        devs[i].sequence <= devs[j].sequence
  {
    forall i, j | 0 <= i < |devs| && 0 <= j < |devs| && devs[i].text in p && devs[j].text !in p
      ensures devs[i].sequence <= devs[j].sequence
    {
      assert devs[i] in multiset(sorted) && devs[j] in multiset(sorted);
      var a :| 0 <= a < |sorted| && sorted[a] == devs[i];
      var b :| 0 <= b < |sorted| && sorted[b] == devs[j];
      assert a < k <= b;
    }
  }

  /** In a line with dev builds only, the deletions are the first builds in number order. */
  lemma NightlyMarks(g: seq<Entry>, keep: nat)
    requires UniqueTexts(g) && !Has(g, Final) && !Has(g, Rc)
    ensures var sorted := SortBySequence(OfKind(g, Dev));
      MarksPrefix(sorted, Excess(|sorted|, keep), LineDeletions(g, keep))
  {
    var sorted := SortBySequence(OfKind(g, Dev));
    var k := Excess(|sorted|, keep);
    var p := TextSet(sorted[..k]);
    assert LineDeletions(g, keep) == p;
    forall x | x in sorted ensures x in g {
      assert x in multiset(sorted);
    }
    forall b | 0 <= b < |sorted| ensures sorted[b].text in p <==> b < k {
      SplitMarks(sorted, k, g, b);
    }
  }

  /** A line with dev builds only keeps its keep highest-numbered ones. */
  lemma NightlyLine(g: seq<Entry>, keep: nat)
    requires UniqueTexts(g) && !Has(g, Final) && !Has(g, Rc)
    ensures NightlyRule(OfKind(g, Dev), keep, LineDeletions(g, keep))
  {
    var devs := OfKind(g, Dev);
    var sorted := SortBySequence(devs);
    assert |sorted| == |devs| by {
      assert |multiset(sorted)| == |multiset(devs)|;
    }
    var k := Excess(|sorted|, keep);
    var p := LineDeletions(g, keep);
    NightlyMarks(g, keep);
    SurvivorsSort(devs, p);
    PrefixCount(sorted, k, p);
    PrefixOrder(devs, sorted, k, p);
  }

  /** The same nightly rule holds of any plan that agrees on the line's dev builds. */
  lemma NightlyAgree(devs: seq<Entry>, keep: nat, p: set<string>, q: set<string>)
    requires NightlyRule(devs, keep, p)
    requires forall x :: x in devs ==> (x.text in p <==> x.text in q)
    ensures NightlyRule(devs, keep, q)
  {
    SurvivorsAgree(devs, p, q);
  }

  /** The candidate plan follows the retention policy. */
  lemma CandidatesFollowRules(es: seq<Entry>, keep: nat)
    requires UniqueTexts(es)
    ensures RetentionRules(es, keep, Candidates(es, keep))
  {
    var c := Candidates(es, keep);
    forall e | e in es ensures EntryRule(es, keep, c, e) {
      var g := InLine(es, e.line);
      UniqueFilter(g, es);
      CandidatesMember(es, keep, e);
      LineDeletionsKinds(g, keep, e);
      assert Has(g, Final) <==> LineHas(es, e.line, Final);
      assert Has(g, Rc) <==> LineHas(es, e.line, Rc);
      if e.kind == Dev && !Has(g, Final) && !Has(g, Rc) {
        NightlyLine(g, keep);
        var devs := Devs(es, e.line);
        forall x | x in devs ensures x.text in LineDeletions(g, keep) <==> x.text in c {
          CandidatesMember(es, keep, x);
        }
        NightlyAgree(devs, keep, LineDeletions(g, keep), c);
      }
    }
  }

  lemma {:induction false} InLineTwice(es: seq<Entry>, line: Release)
    ensures InLine(InLine(es, line), line) == InLine(es, line)
  {
    if es != [] {
      InLineTwice(es[1..], line);
      if es[0].line == line {
        var t := InLine(es[1..], line);
        assert InLine(es, line) == [es[0]] + t;
        assert ([es[0]] + t)[1..] == t;
      }
    }
  }

  /** The rules decide a release line from that line's versions alone: what a plan deletes in
    * one line follows the rules for the listing made of that line only. */
  lemma LineLocal(es: seq<Entry>, keep: nat, p: set<string>, line: Release)
    requires RetentionRules(es, keep, p)
    ensures RetentionRules(InLine(es, line), keep, p * TextSet(InLine(es, line)))
  {
    var g := InLine(es, line);
    var q := p * TextSet(g);
    InLineTwice(es, line);
    forall e | e in g ensures EntryRule(g, keep, q, e) {
      assert EntryRule(es, keep, p, e);
      assert e.text in TextSet(g);
      assert LineHas(g, e.line, Final) <==> LineHas(es, e.line, Final);
      assert LineHas(g, e.line, Rc) <==> LineHas(es, e.line, Rc);
      if e.kind == Dev && !LineHas(es, e.line, Final) && !LineHas(es, e.line, Rc) {
        var devs := Devs(es, e.line);
        assert Devs(g, e.line) == devs;
        forall x | x in devs ensures x.text in p <==> x.text in q {
          assert x in g;
        }
        NightlyAgree(devs, keep, p, q);
      }
    }
  }

  // ---------------------------------------------------------------------------------------
  // The plan and its safety check.
  // ---------------------------------------------------------------------------------------

  lemma UniqueEntries(vs: seq<string>, es: seq<Entry>)
    requires NoDup(vs) && |es| == |vs| && forall i :: 0 <= i < |vs| ==> es[i].text == vs[i]
    ensures UniqueTexts(es) && TextSet(es) == Elements(vs)
  {
    forall e, f | e in es && f in es && e.text == f.text ensures e == f {
      var i :| 0 <= i < |es| && es[i] == e;
      var j :| 0 <= j < |es| && es[j] == f;
      assert vs[i] == vs[j];
    }
  }

  lemma SubsetOfSameSize<T>(a: set<T>, b: set<T>)
    requires a <= b && |a| == |b|
    ensures a == b
  {
    assert a * b == a;
    assert |b - a| == |b| - |a * b|;
    assert b - a == {};
  }

  /**
   * `_determine_versions_to_delete(versions)`, the versions listed in the iteration order of
   * the set: the candidate plan, or FormatError for an unrecognised version, or SafetyError
   * when the plan would delete as many versions as there are.
   */
  function Plan(versions: seq<string>, keep: nat): (r: Result<set<string>, PlanError>)
    requires NoDup(versions)
    ensures r.Err? && r.error.FormatError? <==>
      exists i :: 0 <= i < |versions| && Classify(versions[i]).None?
    ensures r.Ok? ==> r.value < Elements(versions)
    ensures r.Ok? ==> ClassifyAll(versions).Ok? && RetentionRules(ClassifyAll(versions).value, keep, r.value)
    ensures r.Err? && r.error.SafetyError? ==>
      ClassifyAll(versions).Ok? && RetentionRules(ClassifyAll(versions).value, keep, Elements(versions))
  {
    ClassifyAllFails(versions);
    match ClassifyAll(versions)
    case Err(e) => Err(e)
    case Ok(es) =>
      var c := Candidates(es, keep);
      PlanFacts(versions, es, keep);
      if |c| == |versions| then
        SubsetOfSameSize(c, Elements(versions));
        Err(SafetyError(|versions|))
      else
        assert c <= Elements(versions) && c != Elements(versions);
        Ok(c)
  }

  lemma ClassifyAllFails(vs: seq<string>)
    ensures ClassifyAll(vs).Err? <==> exists i :: 0 <= i < |vs| && Classify(vs[i]).None?
  {
    if ClassifyAll(vs).Err? {
      var v := ClassifyAll(vs).error.version;
      var i :| 0 <= i < |vs| && vs[i] == v;
    }
  }

  lemma PlanFacts(versions: seq<string>, es: seq<Entry>, keep: nat)
    requires NoDup(versions) && ClassifyAll(versions) == Ok(es)
    ensures TextSet(es) == Elements(versions) && |Elements(versions)| == |versions|
    ensures RetentionRules(es, keep, Candidates(es, keep))
  {
    UniqueEntries(versions, es);
    CandidatesFollowRules(es, keep);
    ElementsCount(versions);
  }

  predicate AllDev(es: seq<Entry>)
  {
    forall e :: e in es ==> e.kind == Dev
  }

  /** A plan deleting everything leaves only dev builds, and keeps no nightly. */
  lemma DeleteAllOnlyDevs(es: seq<Entry>, keep: nat, all: set<string>)
    requires RetentionRules(es, keep, all) && TextSet(es) == all
    ensures AllDev(es) && (keep == 0 || es == [])
  {
    forall e | e in es ensures e.kind == Dev {
      assert EntryRule(es, keep, all, e);
      assert e.text in all;
    }
    if keep != 0 && es != [] {
      var e := es[0];
      assert EntryRule(es, keep, all, e);
      assert !LineHas(es, e.line, Final) && !LineHas(es, e.line, Rc);
      var devs := Devs(es, e.line);
      assert e in devs;
      forall i | 0 <= i < |devs| ensures devs[i].text in all {
        assert devs[i] in es;
      }
      SurvivorsNone(devs, all);
    }
  }

  /** With only dev builds and no nightly kept, the rules delete every version. */
  lemma NoNightlyDeletesAll(es: seq<Entry>, p: set<string>)
    requires RetentionRules(es, 0, p) && AllDev(es)
    ensures p == TextSet(es)
  {
    forall e | e in es ensures e.text in p {
      assert EntryRule(es, 0, p, e);
      assert !LineHas(es, e.line, Final) && !LineHas(es, e.line, Rc);
      SurvivorsZero(Devs(es, e.line), p);
    }
  }

  /** The safety check fires exactly when every version is a dev build and no nightly is to be
    * kept, or there are no versions at all. */
  lemma SafetyAbortExactly(versions: seq<string>, keep: nat)
    requires NoDup(versions) && ClassifyAll(versions).Ok?
    ensures Plan(versions, keep).Err? <==>
      AllDev(ClassifyAll(versions).value) && (keep == 0 || versions == [])
  {
    var es := ClassifyAll(versions).value;
    PlanFacts(versions, es, keep);
    var r := Plan(versions, keep);
    if r.Err? {
      DeleteAllOnlyDevs(es, keep, Elements(versions));
    } else if AllDev(es) && (keep == 0 || versions == []) {
      if keep == 0 {
        NoNightlyDeletesAll(es, r.value);
      }
    }
  }
}
