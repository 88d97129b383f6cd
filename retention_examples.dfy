/**
 * The release lines of the cleanup fixtures, one lemma per shape of line. Every lemma takes a
 * whole listing and any plan that follows the retention rules for it, and states what the plan
 * deletes in one release line, whatever the other lines hold. A line's builds are given as a
 * multiset, so each lemma holds for every order in which the listing holds them. The version texts are
 * parameters: the entry `Entry(a, L, Dev, 142)` stands for the text `L.dev142`, which
 * `ClassifyRender` classifies so.
 */
module RetentionExamples {
  import opened VersionText
  import opened Retention

  // ---------------------------------------------------------------------------------------
  // What the rules decide for one version.
  // ---------------------------------------------------------------------------------------

  lemma Stays(es: seq<Entry>, keep: nat, p: set<string>, e: Entry)
    requires RetentionRules(es, keep, p) && e in es && (e.kind == Final || e.kind == Post)
    ensures e.text !in p
  {
    assert EntryRule(es, keep, p, e);
  }

  lemma GoesBeforeFinal(es: seq<Entry>, keep: nat, p: set<string>, e: Entry, f: Entry)
    requires RetentionRules(es, keep, p) && e in es && (e.kind == Dev || e.kind == Rc)
    requires f in es && f.line == e.line && f.kind == Final
    ensures e.text in p
  {
    assert EntryRule(es, keep, p, e);
  }

  lemma DevGoesBeforeRc(es: seq<Entry>, keep: nat, p: set<string>, e: Entry, r: Entry)
    requires RetentionRules(es, keep, p) && e in es && e.kind == Dev
    requires r in es && r.line == e.line && r.kind == Rc
    ensures e.text in p
  {
    assert EntryRule(es, keep, p, e);
  }

  lemma RcStaysUnreleased(es: seq<Entry>, keep: nat, p: set<string>, e: Entry)
    requires RetentionRules(es, keep, p) && e in es && e.kind == Rc
    requires forall x :: x in InLine(es, e.line) ==> x.kind != Final
    ensures e.text !in p
  {
    assert EntryRule(es, keep, p, e);
    assert !LineHas(es, e.line, Final) by {
      forall x | x in es && x.line == e.line ensures x.kind != Final {
        assert x in InLine(es, e.line);
      }
    }
  }

  /** A build among a line's builds is listed. */
  lemma Listed(es: seq<Entry>, line: Release, m: multiset<Entry>, e: Entry)
    requires multiset(InLine(es, line)) == m && e in m
    ensures e in es
  {
    assert e in InLine(es, line);
  }

  // Which texts of a line a plan deletes, from what it decides for each one.

  lemma ThreeOfFour(p: set<string>, a: string, b: string, c: string, d: string)
    requires a in p && b in p && c in p && d !in p
    ensures p * {a, b, c, d} == {a, b, c}
  {
    assert d !in {a, b, c};
  }

  lemma OneOfFour(p: set<string>, a: string, b: string, c: string, d: string)
    requires a in p && b !in p && c !in p && d !in p
    ensures p * {a, b, c, d} == {a}
  {
    assert b !in {a} && c !in {a} && d !in {a};
  }

  lemma ThreeOfFive(p: set<string>, a: string, b: string, c: string, d: string, e: string)
    requires a in p && b in p && c in p && d !in p && e !in p
    ensures p * {a, b, c, d, e} == {a, b, c}
  {
    assert d !in {a, b, c} && e !in {a, b, c};
  }

  lemma FiveOfSix(p: set<string>, a: string, b: string, c: string, d: string, e: string, f: string)
    requires a in p && b in p && c in p && d in p && e in p && f !in p
    ensures p * {a, b, c, d, e, f} == {a, b, c, d, e}
  {
    assert f !in {a, b, c, d, e};
  }

  // ---------------------------------------------------------------------------------------
  // Lines with a final release or an rc build.
  // ---------------------------------------------------------------------------------------

  /** A released line with dev, rc and final builds, as 1.0.0 in the mixed fixtures: the dev
    * and rc builds go, the final stays. */
  lemma ReleasedLine(es: seq<Entry>, keep: nat, p: set<string>, line: Release, a: string, b: string, c: string, d: string)
    requires RetentionRules(es, keep, p)
    requires multiset(InLine(es, line)) ==
      multiset{Entry(a, line, Dev, 1), Entry(b, line, Dev, 2), Entry(c, line, Rc, 1), Entry(d, line, Final, 0)}
    requires d != a && d != b && d != c
    ensures p * {a, b, c, d} == {a, b, c}
  {
    var m := multiset(InLine(es, line));
    var final := Entry(d, line, Final, 0);
    Listed(es, line, m, Entry(a, line, Dev, 1));
    Listed(es, line, m, Entry(b, line, Dev, 2));
    Listed(es, line, m, Entry(c, line, Rc, 1));
    Listed(es, line, m, final);
    GoesBeforeFinal(es, keep, p, Entry(a, line, Dev, 1), final);
    GoesBeforeFinal(es, keep, p, Entry(b, line, Dev, 2), final);
    GoesBeforeFinal(es, keep, p, Entry(c, line, Rc, 1), final);
    Stays(es, keep, p, final);
    ThreeOfFour(p, a, b, c, d);
  }

  /** A released line of dev builds, as 1.0.1 in the mixed fixtures: every dev build goes. */
  lemma ReleasedNightlies(es: seq<Entry>, keep: nat, p: set<string>, line: Release,
                          a: string, b: string, c: string, d: string, e: string, f: string)
    requires RetentionRules(es, keep, p)
    requires multiset(InLine(es, line)) ==
      multiset{Entry(a, line, Dev, 3), Entry(b, line, Dev, 5), Entry(c, line, Dev, 8),
               Entry(d, line, Dev, 13), Entry(e, line, Dev, 21), Entry(f, line, Final, 0)}
    requires f != a && f != b && f != c && f != d && f != e
    ensures p * {a, b, c, d, e, f} == {a, b, c, d, e}
  {
    var m := multiset(InLine(es, line));
    var final := Entry(f, line, Final, 0);
    Listed(es, line, m, Entry(a, line, Dev, 3));
    Listed(es, line, m, Entry(b, line, Dev, 5));
    Listed(es, line, m, Entry(c, line, Dev, 8));
    Listed(es, line, m, Entry(d, line, Dev, 13));
    Listed(es, line, m, Entry(e, line, Dev, 21));
    Listed(es, line, m, final);
    GoesBeforeFinal(es, keep, p, Entry(a, line, Dev, 3), final);
    GoesBeforeFinal(es, keep, p, Entry(b, line, Dev, 5), final);
    GoesBeforeFinal(es, keep, p, Entry(c, line, Dev, 8), final);
    GoesBeforeFinal(es, keep, p, Entry(d, line, Dev, 13), final);
    GoesBeforeFinal(es, keep, p, Entry(e, line, Dev, 21), final);
    Stays(es, keep, p, final);
    FiveOfSix(p, a, b, c, d, e, f);
  }

  /** A released line with a post release, as 1.1.0: the dev builds go, the final and the
    * post stay. */
  lemma PostReleasedLine(es: seq<Entry>, keep: nat, p: set<string>, line: Release,
                         a: string, b: string, c: string, d: string, e: string)
    requires RetentionRules(es, keep, p)
    requires multiset(InLine(es, line)) ==
      multiset{Entry(a, line, Dev, 34), Entry(b, line, Dev, 54), Entry(c, line, Dev, 88),
               Entry(d, line, Final, 0), Entry(e, line, Post, 1)}
    requires d != a && d != b && d != c && e != a && e != b && e != c
    ensures p * {a, b, c, d, e} == {a, b, c}
  {
    var m := multiset(InLine(es, line));
    var final := Entry(d, line, Final, 0);
    Listed(es, line, m, Entry(a, line, Dev, 34));
    Listed(es, line, m, Entry(b, line, Dev, 54));
    Listed(es, line, m, Entry(c, line, Dev, 88));
    Listed(es, line, m, final);
    Listed(es, line, m, Entry(e, line, Post, 1));
    GoesBeforeFinal(es, keep, p, Entry(a, line, Dev, 34), final);
    GoesBeforeFinal(es, keep, p, Entry(b, line, Dev, 54), final);
    GoesBeforeFinal(es, keep, p, Entry(c, line, Dev, 88), final);
    Stays(es, keep, p, final);
    Stays(es, keep, p, Entry(e, line, Post, 1));
    ThreeOfFive(p, a, b, c, d, e);
  }

  /** A released line that went through dev and rc builds, as 2.0.0: all but the final go. */
  lemma CandidatesReleasedLine(es: seq<Entry>, keep: nat, p: set<string>, line: Release,
                               a: string, b: string, c: string, d: string, e: string, f: string)
    requires RetentionRules(es, keep, p)
    requires multiset(InLine(es, line)) ==
      multiset{Entry(a, line, Dev, 602), Entry(b, line, Rc, 1), Entry(c, line, Rc, 2),
               Entry(d, line, Rc, 3), Entry(e, line, Rc, 4), Entry(f, line, Final, 0)}
    requires f != a && f != b && f != c && f != d && f != e
    ensures p * {a, b, c, d, e, f} == {a, b, c, d, e}
  {
    var m := multiset(InLine(es, line));
    var final := Entry(f, line, Final, 0);
    Listed(es, line, m, Entry(a, line, Dev, 602));
    Listed(es, line, m, Entry(b, line, Rc, 1));
    Listed(es, line, m, Entry(c, line, Rc, 2));
    Listed(es, line, m, Entry(d, line, Rc, 3));
    Listed(es, line, m, Entry(e, line, Rc, 4));
    Listed(es, line, m, final);
    GoesBeforeFinal(es, keep, p, Entry(a, line, Dev, 602), final);
    GoesBeforeFinal(es, keep, p, Entry(b, line, Rc, 1), final);
    GoesBeforeFinal(es, keep, p, Entry(c, line, Rc, 2), final);
    GoesBeforeFinal(es, keep, p, Entry(d, line, Rc, 3), final);
    GoesBeforeFinal(es, keep, p, Entry(e, line, Rc, 4), final);
    Stays(es, keep, p, final);
    FiveOfSix(p, a, b, c, d, e, f);
  }

  /** An unreleased line with rc builds, as 2.0.1: the dev build goes, the rcs stay. */
  lemma CandidateLine(es: seq<Entry>, keep: nat, p: set<string>, line: Release, a: string, b: string, c: string, d: string)
    requires RetentionRules(es, keep, p)
    requires multiset(InLine(es, line)) ==
      multiset{Entry(a, line, Dev, 974), Entry(b, line, Rc, 1), Entry(c, line, Rc, 2), Entry(d, line, Rc, 3)}
    requires a != b && a != c && a != d
    ensures p * {a, b, c, d} == {a}
  {
    var m := multiset(InLine(es, line));
    var rc1 := Entry(b, line, Rc, 1);
    Listed(es, line, m, Entry(a, line, Dev, 974));
    Listed(es, line, m, rc1);
    Listed(es, line, m, Entry(c, line, Rc, 2));
    Listed(es, line, m, Entry(d, line, Rc, 3));
    assert forall x :: x in InLine(es, line) ==> x.kind != Final by {
      forall x | x in InLine(es, line) ensures x.kind != Final {
        assert x in m;
      }
    }
    DevGoesBeforeRc(es, keep, p, Entry(a, line, Dev, 974), rc1);
    RcStaysUnreleased(es, keep, p, rc1);
    RcStaysUnreleased(es, keep, p, Entry(c, line, Rc, 2));
    RcStaysUnreleased(es, keep, p, Entry(d, line, Rc, 3));
    OneOfFour(p, a, b, c, d);
  }

  // ---------------------------------------------------------------------------------------
  // Lines with dev builds only.
  // ---------------------------------------------------------------------------------------

  lemma {:induction false} OfKindAll(s: seq<Entry>, kind: Kind)
    requires forall x :: x in s ==> x.kind == kind
    ensures OfKind(s, kind) == s
  {
    if s != [] {
      OfKindAll(s[1..], kind);
      assert s == [s[0]] + s[1..];
    }
  }

  /** In a line of dev builds only, the plan follows the nightly rule on the whole line. */
  lemma NightlyFacts(es: seq<Entry>, keep: nat, p: set<string>, line: Release)
    requires RetentionRules(es, keep, p) && InLine(es, line) != []
    requires forall x :: x in InLine(es, line) ==> x.kind == Dev
    ensures NightlyRule(InLine(es, line), keep, p)
  {
    var g := InLine(es, line);
    assert g[0] in g;
    assert EntryRule(es, keep, p, g[0]);
    forall x | x in es && x.line == line ensures x.kind == Dev {
      assert x in g;
    }
    OfKindAll(g, Dev);
  }

  lemma {:induction false} SurvivorsAtMost(s: seq<Entry>, p: set<string>)
    ensures Survivors(s, p) <= |s|
    ensures Survivors(s, p) == |s| ==> forall x :: x in s ==> x.text !in p
  {
    if s != [] {
      SurvivorsAtMost(s[1..], p);
      assert forall x :: x in s ==> x == s[0] || x in s[1..];
    }
  }

  /** A line of at most keep dev builds loses none of them, as 1.0.0, 2.0.0 and 2.0.1 in the
    * dev-only fixture. */
  lemma FewNightliesKept(es: seq<Entry>, keep: nat, p: set<string>, line: Release)
    requires RetentionRules(es, keep, p) && |InLine(es, line)| <= keep
    requires forall x :: x in InLine(es, line) ==> x.kind == Dev
    ensures forall x :: x in InLine(es, line) ==> x.text !in p
  {
    if InLine(es, line) != [] {
      NightlyFacts(es, keep, p, line);
      SurvivorsAtMost(InLine(es, line), p);
    }
  }

  /** One survivor is counted for each of the first entries that the plan does not delete. */
  function Stays01(e: Entry, p: set<string>): nat { if e.text in p then 0 else 1 }

  /** Under the nightly rule, a deleted build means every lower-numbered one is deleted too. */
  lemma OrderedPair(devs: seq<Entry>, keep: nat, p: set<string>, e: Entry, f: Entry)
    requires NightlyRule(devs, keep, p) && e in devs && f in devs && f.sequence < e.sequence
    ensures e.text in p ==> f.text in p
  {
    var i :| 0 <= i < |devs| && devs[i] == e;
    var j :| 0 <= j < |devs| && devs[j] == f;
  }

  lemma {:induction false} SurvivorsConcat(s: seq<Entry>, t: seq<Entry>, p: set<string>)
    ensures Survivors(s + t, p) == Survivors(s, p) + Survivors(t, p)
  {
    if s == [] {
      assert s + t == t;
    } else {
      SurvivorsConcat(s[1..], t, p);
      assert (s + t)[0] == s[0] && (s + t)[1..] == s[1..] + t;
    }
  }

  /** The number of survivors does not depend on the order of the builds. */
  lemma {:induction false} SurvivorsPermuted(s: seq<Entry>, t: seq<Entry>, p: set<string>)
    requires multiset(s) == multiset(t)
    ensures Survivors(s, p) == Survivors(t, p)
    decreases |s|
  {
    if s != [] {
      assert s[0] in multiset(t);
      var k :| 0 <= k < |t| && t[k] == s[0];
      var rest := RemoveAt(t, k, p);
      assert s == [s[0]] + s[1..];
      assert multiset(s[1..]) == multiset(s) - multiset{s[0]};
      SurvivorsPermuted(s[1..], rest, p);
    }
  }

  /** t without its k-th build: one survivor fewer when that build survives. */
  lemma RemoveAt(t: seq<Entry>, k: nat, p: set<string>) returns (rest: seq<Entry>)
    requires k < |t|
    ensures multiset(rest) == multiset(t) - multiset{t[k]} && |rest| == |t| - 1
    ensures Survivors(t, p) == Stays01(t[k], p) + Survivors(rest, p)
  {
    rest := t[..k] + t[k + 1..];
    assert t == t[..k] + [t[k]] + t[k + 1..];
    SurvivorsConcat(t[..k] + [t[k]], t[k + 1..], p);
    SurvivorsConcat(t[..k], [t[k]], p);
    SurvivorsConcat(t[..k], t[k + 1..], p);
    assert [t[k]][1..] == [];
  }

  /** The survivors of a line's builds, counted in any order. */
  lemma NightlyCount(es: seq<Entry>, keep: nat, p: set<string>, line: Release, s: seq<Entry>)
    requires RetentionRules(es, keep, p) && multiset(InLine(es, line)) == multiset(s) && s != []
    requires forall x :: x in s ==> x.kind == Dev
    ensures NightlyRule(InLine(es, line), keep, p)
    ensures Survivors(s, p) == Min(|s|, keep)
  {
    var g := InLine(es, line);
    assert s[0] in multiset(g);
    forall x | x in g ensures x.kind == Dev {
      assert x in multiset(s);
    }
    NightlyFacts(es, keep, p, line);
    SurvivorsPermuted(g, s, p);
    assert |g| == |multiset(g)| == |s|;
  }

  lemma SurvivorsThree(s: seq<Entry>, p: set<string>)
    requires |s| == 3
    ensures Survivors(s, p) == Stays01(s[0], p) + Stays01(s[1], p) + Stays01(s[2], p)
  {
    var t := s[1..];
    assert t[0] == s[1] && t[1..][0] == s[2] && t[1..][1..] == [];
    assert Survivors(t[1..], p) == Stays01(s[2], p) + Survivors(t[1..][1..], p);
    assert Survivors(t, p) == Stays01(s[1], p) + Survivors(t[1..], p);
    assert Survivors(s, p) == Stays01(s[0], p) + Survivors(t, p);
  }

  /** Three dev builds of a line, two kept, as 1.1.0 and 1.1.1 in the dev-only fixture: the
    * lowest-numbered one goes. */
  lemma ThreeNightliesKeepTwo(es: seq<Entry>, p: set<string>, line: Release,
                              a: string, b: string, c: string, x: nat, y: nat, z: nat)
    requires RetentionRules(es, 2, p)
    requires multiset(InLine(es, line)) == multiset{Entry(a, line, Dev, x), Entry(b, line, Dev, y), Entry(c, line, Dev, z)}
    requires x < y < z
    ensures a in p && b !in p && c !in p
  {
    var g := InLine(es, line);
    var s := [Entry(a, line, Dev, x), Entry(b, line, Dev, y), Entry(c, line, Dev, z)];
    NightlyCount(es, 2, p, line, s);
    SurvivorsThree(s, p);
    assert s[0] in multiset(g) && s[1] in multiset(g) && s[2] in multiset(g);
    OrderedPair(g, 2, p, s[1], s[0]);
    OrderedPair(g, 2, p, s[2], s[0]);
    OrderedPair(g, 2, p, s[2], s[1]);
  }

  /** The same line with no nightly kept, as 1.1.1 in the max-0 fixture: every build goes. */
  lemma ThreeNightliesKeepNone(es: seq<Entry>, p: set<string>, line: Release,
                               a: string, b: string, c: string, x: nat, y: nat, z: nat)
    requires RetentionRules(es, 0, p)
    requires multiset(InLine(es, line)) == multiset{Entry(a, line, Dev, x), Entry(b, line, Dev, y), Entry(c, line, Dev, z)}
    ensures a in p && b in p && c in p
  {
    var s := [Entry(a, line, Dev, x), Entry(b, line, Dev, y), Entry(c, line, Dev, z)];
    NightlyCount(es, 0, p, line, s);
    SurvivorsZero(s, p);
    assert s[0] in s && s[1] in s && s[2] in s;
  }

  lemma SurvivorsFive(s: seq<Entry>, p: set<string>)
    requires |s| == 5
    ensures Survivors(s, p) ==
      Stays01(s[0], p) + Stays01(s[1], p) + Stays01(s[2], p) + Stays01(s[3], p) + Stays01(s[4], p)
  {
    SurvivorsThree(s[2..], p);
    assert s[1..][1..] == s[2..];
  }

  /** Five dev builds of a line, two kept, as 1.0.1 in the dev-only fixture: the three
    * lowest-numbered ones go. */
  lemma FiveNightliesKeepTwo(es: seq<Entry>, p: set<string>, line: Release,
                             a: string, b: string, c: string, d: string, e: string,
                             x: nat, y: nat, z: nat, u: nat, w: nat)
    requires RetentionRules(es, 2, p)
    requires multiset(InLine(es, line)) ==
      multiset{Entry(a, line, Dev, x), Entry(b, line, Dev, y), Entry(c, line, Dev, z),
               Entry(d, line, Dev, u), Entry(e, line, Dev, w)}
    requires x < y < z < u < w
    ensures a in p && b in p && c in p && d !in p && e !in p
  {
    var g := InLine(es, line);
    var s := [Entry(a, line, Dev, x), Entry(b, line, Dev, y), Entry(c, line, Dev, z),
              Entry(d, line, Dev, u), Entry(e, line, Dev, w)];
    NightlyCount(es, 2, p, line, s);
    SurvivorsFive(s, p);
    assert s[0] in multiset(g) && s[1] in multiset(g) && s[2] in multiset(g);
    assert s[3] in multiset(g) && s[4] in multiset(g);
    OrderedPair(g, 2, p, s[1], s[0]);
    OrderedPair(g, 2, p, s[2], s[1]);
    OrderedPair(g, 2, p, s[3], s[2]);
    OrderedPair(g, 2, p, s[4], s[3]);
  }
}
