/**
 * The cleanup workflow around the retention policy: fetching the published versions,
 * logging in through the index's web forms, deleting versions one at a time behind a last
 * safety check, and the phases `FETCH -> PLAN -> (REPORT | AUTHENTICATE -> DELETE)`.
 *
 * The remote index is a `PackageIndex` object: the versions it lists, whether its read API
 * answers, which delete calls it refuses, and what it answers during a login. HTTP itself is
 * not modelled.
 */
module Cleanup {
  import opened Wrappers
  import opened Retention
  import opened CsrfScan

  // ---------------------------------------------------------------------------------------
  // Versions that may be deleted, and the index's listing after deletions.
  // ---------------------------------------------------------------------------------------

  /** The safety check of a single deletion: only a dev or rc build may go. */
  predicate Eligible(version: string)
  {
    match Classify(version)
    case Some(d) => d.kind == Dev || d.kind == Rc
    case None => false
  }

  /** s without the elements of d, in order. */
  function Without(s: seq<string>, d: set<string>): (r: seq<string>)
    ensures forall x :: x in r <==> x in s && x !in d
    ensures NoDup(s) ==> NoDup(r)
  {
    if s == [] then []
    else if s[0] in d then Without(s[1..], d)
    else
      var t := Without(s[1..], d);
      assert NoDup(s) ==> s[0] !in s[1..];
      [s[0]] + t
  }

  /** Removing d and then v is removing d and v together. */
  lemma {:induction false} WithoutUnion(s: seq<string>, d: set<string>, v: string)
    ensures Without(Without(s, d), {v}) == Without(s, d + {v})
  {
    if s != [] {
      WithoutUnion(s[1..], d, v);
      if s[0] !in d {
        assert ([s[0]] + Without(s[1..], d))[1..] == Without(s[1..], d);
      }
    }
  }

  lemma {:induction false} WithoutNothing(s: seq<string>)
    ensures Without(s, {}) == s
  {
    if s != [] {
      WithoutNothing(s[1..]);
    }
  }

  /** Whether a delete call for v against the listing succeeds. */
  predicate Deletable(releases: seq<string>, refused: set<string>, v: string)
  {
    Eligible(v) && v in releases && v !in refused
  }

  /** The versions of vs whose delete call succeeds. */
  function DeletableAmong(releases: seq<string>, refused: set<string>, vs: set<string>): (d: set<string>)
    ensures d <= vs
    ensures forall v :: v in d <==> v in vs && Deletable(releases, refused, v)
  {
    set v | v in vs && Deletable(releases, refused, v)
  }

  /**
   * One turn of the delete loop: v leaves the remaining versions; it joins the deleted ones
   * exactly when its delete call succeeds.
   */
  lemma DeleteStep(listed: seq<string>, refused: set<string>, versions: set<string>, remaining: set<string>,
                   deleted: set<string>, v: string)
    requires v in remaining && remaining <= versions
    requires deleted == DeletableAmong(listed, refused, versions - remaining)
    ensures Deletable(Without(listed, deleted), refused, v) <==> Deletable(listed, refused, v)
    ensures Deletable(listed, refused, v) ==>
      && deleted + {v} == DeletableAmong(listed, refused, versions - (remaining - {v}))
      && Without(Without(listed, deleted), {v}) == Without(listed, deleted + {v})
      && |versions - (remaining - {v}) - (deleted + {v})| == |versions - remaining - deleted|
    ensures !Deletable(listed, refused, v) ==>
      && deleted == DeletableAmong(listed, refused, versions - (remaining - {v}))
      && |versions - (remaining - {v}) - deleted| == |versions - remaining - deleted| + 1
  {
    var done := versions - remaining;
    DoneStep(versions, remaining, v);
    AmongStep(listed, refused, done, v);
    CountStep(done, deleted, v);
    if Deletable(listed, refused, v) {
      WithoutUnion(listed, deleted, v);
    }
  }

  lemma DoneStep(versions: set<string>, remaining: set<string>, v: string)
    requires v in remaining && remaining <= versions
    ensures versions - (remaining - {v}) == (versions - remaining) + {v}
    ensures v !in versions - remaining
  {
  }

  lemma AmongStep(listed: seq<string>, refused: set<string>, done: set<string>, v: string)
    ensures DeletableAmong(listed, refused, done + {v})
      == DeletableAmong(listed, refused, done) + if Deletable(listed, refused, v) then {v} else {}
  {
  }

  lemma CountStep(done: set<string>, deleted: set<string>, v: string)
    requires v !in done && deleted <= done
    ensures |done + {v} - (deleted + {v})| == |done - deleted|
    ensures |done + {v} - deleted| == |done - deleted| + 1
  {
    assert done + {v} - (deleted + {v}) == done - deleted;
    assert done + {v} - deleted == (done - deleted) + {v};
  }

  lemma AllDone(versions: set<string>, remaining: set<string>)
    requires remaining == {}
    ensures versions - remaining == versions
  {
  }

  lemma NoneFailed(versions: set<string>, deleted: set<string>)
    requires deleted <= versions
    ensures |versions - deleted| == 0 <==> deleted == versions
  {
    if |versions - deleted| == 0 {
      assert versions - deleted == {};
    }
  }

  // ---------------------------------------------------------------------------------------
  // Logging in.
  // ---------------------------------------------------------------------------------------

  const LoginPath: string := "/account/login/"

  /** Paths under this prefix are second-factor challenges. */
  const TwoFactorPrefix: string := "/account/two-factor/"

  predicate StartsWith(s: string, prefix: string)
  {
    |prefix| <= |s| && s[..|prefix|] == prefix
  }

  /** A credential that is missing or empty counts as absent. */
  predicate Present(o: Option<string>)
  {
    o.Some? && o.value != []
  }

  datatype Credentials = Credentials(username: Option<string>, password: Option<string>, otp: Option<string>)

  /**
   * What the index answers during a login: the tags of the login page, the path the
   * credential post lands on, the tags of the second-factor page, and the path the code post
   * lands on.
   */
  datatype Exchange = Exchange(loginPage: seq<TagEvent>, landing: string, challengePage: seq<TagEvent>, challengeLanding: string)

  /** The calls a login makes; the one-time code itself is not modelled. */
  datatype Request =
    | GetPage(path: string)
    | PostCredentials(path: string, token: string, username: string, password: string)
    | PostCode(path: string, token: string)

  datatype AuthError =
    | MissingCredentials          // "Username and password are required"
    | TokenNotFound(path: string) // no csrf_token in the form aimed at path
    | LoginRejected               // the post landed on the login page again
    | MissingOtp                  // a second factor is asked for, and there is no secret
    | SecondFactorRejected        // the code post landed on the challenge again

  /** A login's outcome (Ok(true) when a second factor was passed) and the calls it made. */
  datatype Login = Login(result: Result<bool, AuthError>, requests: seq<Request>)

  function Token(target: string, page: seq<TagEvent>): Option<string>
  {
    Run(target, Initial, page).csrf
  }

  predicate IsPost(r: Request) { r.PostCredentials? || r.PostCode? }

  /** Every form post comes right after fetching its own page. */
  predicate PostsFollowPages(rs: seq<Request>)
  {
    forall i :: 0 <= i < |rs| && IsPost(rs[i]) ==> 0 < i && rs[i - 1] == GetPage(rs[i].path)
  }

  /** `_handle_two_factor_auth`: the challenge at the landing path, after the calls sent. */
  function SecondFactor(otp: Option<string>, ex: Exchange, sent: seq<Request>): (a: Login)
    ensures |sent| <= |a.requests| && a.requests[..|sent|] == sent
    ensures Present(otp) ==> |sent| < |a.requests|
    ensures a.result.Ok? <==> Present(otp) && Token(ex.landing, ex.challengePage).Some? && ex.challengeLanding != ex.landing
    ensures a.result.Ok? ==> a.result.value
    ensures !Present(otp) ==> a == Login(Err(MissingOtp), sent)
    ensures Present(otp) ==> a.requests[|sent|] == GetPage(ex.landing)
    ensures a.result.Ok? ==> a.requests == sent + [GetPage(ex.landing), PostCode(ex.landing, Token(ex.landing, ex.challengePage).value)]
  {
    if !Present(otp) then Login(Err(MissingOtp), sent)
    else
      var fetched := sent + [GetPage(ex.landing)];
      match Token(ex.landing, ex.challengePage)
      case None => Login(Err(TokenNotFound(ex.landing)), fetched)
      case Some(token) =>
        var posted := fetched + [PostCode(ex.landing, token)];
        if ex.challengeLanding == ex.landing then Login(Err(SecondFactorRejected), posted)
        else Login(Ok(true), posted)
  }

  /**
   * `_authenticate`: refuses without a username and password before any call; otherwise
   * scrapes the token of the form aimed at the login path, posts the credentials with it, and
   * reads where the post landed: the login page again is a rejection, a second-factor path
   * leads to the challenge, anything else is a session.
   */
  function Authenticate(creds: Credentials, ex: Exchange): (a: Login)
    ensures a.result == Err(MissingCredentials) <==> !Present(creds.username) || !Present(creds.password)
    ensures a.result == Err(MissingCredentials) ==> a.requests == []
    ensures a.result.Ok? <==>
      Present(creds.username) && Present(creds.password) && Token(LoginPath, ex.loginPage).Some?
      && ex.landing != LoginPath
      && (StartsWith(ex.landing, TwoFactorPrefix) ==>
            Present(creds.otp) && Token(ex.landing, ex.challengePage).Some? && ex.challengeLanding != ex.landing)
    ensures a.result.Ok? ==> (a.result.value <==> StartsWith(ex.landing, TwoFactorPrefix))
    ensures a.result.Ok? ==> |a.requests| == if a.result.value then 4 else 2
    ensures a.result.Ok? ==>
      a.requests[..2] == [GetPage(LoginPath),
        PostCredentials(LoginPath, Token(LoginPath, ex.loginPage).value, creds.username.value, creds.password.value)]
    ensures PostsFollowPages(a.requests)
  {
    if !Present(creds.username) || !Present(creds.password) then Login(Err(MissingCredentials), [])
    else
      var fetched := [GetPage(LoginPath)];
      match Token(LoginPath, ex.loginPage)
      case None => Login(Err(TokenNotFound(LoginPath)), fetched)
      case Some(token) =>
        var sent := fetched + [PostCredentials(LoginPath, token, creds.username.value, creds.password.value)];
        if ex.landing == LoginPath then Login(Err(LoginRejected), sent)
        else if !StartsWith(ex.landing, TwoFactorPrefix) then Login(Ok(false), sent)
        else
          var a := SecondFactor(creds.otp, ex, sent);
          assert a.requests[..|sent|] == sent;
          PostsFollowSecondFactor(creds.otp, ex, sent, a);
          a
  }

  lemma PostsFollowSecondFactor(otp: Option<string>, ex: Exchange, sent: seq<Request>, a: Login)
    requires PostsFollowPages(sent) && a == SecondFactor(otp, ex, sent)
    ensures PostsFollowPages(a.requests)
  {
    var rs := a.requests;
    forall i | 0 <= i < |rs| && IsPost(rs[i]) ensures 0 < i && rs[i - 1] == GetPage(rs[i].path) {
      if i < |sent| {
        assert rs[i] == sent[i] && rs[i - 1] == sent[i - 1];
      }
    }
  }

  /** A login that lands elsewhere than the login page and any challenge needs one post. */
  lemma DirectLogin(creds: Credentials, ex: Exchange, landing: string)
    requires Present(creds.username) && Present(creds.password) && Token(LoginPath, ex.loginPage).Some?
    requires landing == "/manage/" && ex.landing == landing
    ensures Authenticate(creds, ex).result == Ok(false)
    ensures |Authenticate(creds, ex).requests| == 2 && Authenticate(creds, ex).requests[1].path == LoginPath
  {
    assert landing[1] != LoginPath[1];
    assert landing[1] != TwoFactorPrefix[1];
  }

  /** A login landing on a second-factor path goes through the challenge. */
  lemma ChallengedLogin(creds: Credentials, ex: Exchange, rest: string)
    requires Present(creds.username) && Present(creds.password) && Token(LoginPath, ex.loginPage).Some?
    requires ex.landing == TwoFactorPrefix + rest
    ensures GetPage(ex.landing) in Authenticate(creds, ex).requests || Authenticate(creds, ex).result == Err(MissingOtp)
  {
    assert ex.landing[..|TwoFactorPrefix|] == TwoFactorPrefix;
    assert ex.landing[9] != LoginPath[9];
    var a := Authenticate(creds, ex);
    if Present(creds.otp) {
      assert a.requests[2] == GetPage(ex.landing);
    }
  }

  // ---------------------------------------------------------------------------------------
  // The index and the workflow.
  // ---------------------------------------------------------------------------------------

  /** The remote index as the workflow sees it. */
  class PackageIndex {
    /** The versions the read API lists, as the keys of its `releases` object. */
    var releases: seq<string>
    /** Whether the read API answers with a success status. */
    const reachable: bool
    /** The versions whose delete call fails. */
    const refused: set<string>
    /** What the index answers during a login. */
    const exchange: Exchange

    predicate Valid()
      reads this
    {
      NoDup(releases)
    }

    constructor(releases: seq<string>, reachable: bool, refused: set<string>, exchange: Exchange)
      requires NoDup(releases)
      ensures Valid()
      ensures this.releases == releases && this.reachable == reachable
      ensures this.refused == refused && this.exchange == exchange
    {
      this.releases := releases;
      this.reachable := reachable;
      this.refused := refused;
      this.exchange := exchange;
    }
  }

  datatype CleanupError =
    | FetchFailed                            // "Failed to fetch package information"
    | PlanFailed(planError: PlanError)
    | RefusedNonPrerelease(version: string)  // "Refusing to delete non-[dev|rc] version"
    | DeleteRejected(version: string)        // the index answered a delete call with a failure
    | DeleteFailures(failed: nat, total: nat) // "Failed to delete k/n versions"
    | AuthenticationFailed(authError: AuthError)

  datatype Outcome =
    | NothingToDo
    | Previewed(plan: set<string>)
    | Deleted(plan: set<string>)

  /** Every version a plan names passes the single-deletion safety check. */
  lemma PlanEligible(versions: seq<string>, keep: nat, v: string)
    requires NoDup(versions) && Plan(versions, keep).Ok? && v in Plan(versions, keep).value
    ensures Eligible(v)
  {
    var es := ClassifyAll(versions).value;
    RulesEligible(versions, es, keep, Plan(versions, keep).value, v);
  }

  lemma RulesEligible(versions: seq<string>, es: seq<Entry>, keep: nat, p: set<string>, v: string)
    requires |es| == |versions| && forall i :: 0 <= i < |versions| ==> Describes(es[i], versions[i])
    requires RetentionRules(es, keep, p) && v in p
    ensures Eligible(v)
  {
    var e :| e in es && e.text == v;
    var i :| 0 <= i < |es| && es[i] == e;
    assert Describes(es[i], versions[i]);
    assert EntryRule(es, keep, p, e);
    assert e.kind == Dev || e.kind == Rc;
  }

  /** The cleanup tool: whether it deletes or only reports, how many nightlies it keeps, and
    * the credentials it logs in with. */
  class IndexCleanup {
    const doDelete: bool
    const maxNightlies: nat
    const credentials: Credentials

    constructor(doDelete: bool, maxNightlies: nat, credentials: Credentials)
      ensures this.doDelete == doDelete && this.maxNightlies == maxNightlies && this.credentials == credentials
    {
      this.doDelete := doDelete;
      this.maxNightlies := maxNightlies;
      this.credentials := credentials;
    }

    /** `_fetch_released_versions`: the listed versions, or the failure of the read API. */
    method FetchReleasedVersions(index: PackageIndex) returns (r: Result<seq<string>, CleanupError>)
      requires index.Valid()
      ensures r.Ok? <==> index.reachable
      ensures r.Ok? ==> r.value == index.releases && NoDup(r.value)
      ensures r.Err? ==> r.error == FetchFailed
    {
      if !index.reachable {
        return Err(FetchFailed);
      }
      return Ok(index.releases);
    }

    /** `_delete_single_version`: refuses anything but a dev or rc build before calling the
      * index; otherwise the version is gone unless the index fails the call. */
    method DeleteSingleVersion(index: PackageIndex, version: string) returns (r: Result<(), CleanupError>)
      requires index.Valid()
      modifies index
      ensures index.Valid()
      ensures !Eligible(version) ==> r == Err(RefusedNonPrerelease(version))
      ensures r.Ok? <==> Deletable(old(index.releases), index.refused, version)
      ensures Eligible(version) && r.Err? ==> r == Err(DeleteRejected(version))
      ensures index.releases == if r.Ok? then Without(old(index.releases), {version}) else old(index.releases)
    {
      if !Eligible(version) {
        return Err(RefusedNonPrerelease(version));
      }
      if version in index.refused || version !in index.releases {
        return Err(DeleteRejected(version));
      }
      index.releases := Without(index.releases, {version});
      return Ok(());
    }

    /** `_delete_versions`: tries every version, whatever happened to the ones before, and
      * reports how many of them failed. */
    method DeleteVersions(index: PackageIndex, versions: set<string>) returns (r: Result<(), CleanupError>)
      requires index.Valid()
      modifies index
      ensures index.Valid()
      ensures index.releases == Without(old(index.releases), DeletableAmong(old(index.releases), index.refused, versions))
      ensures r.Ok? <==> DeletableAmong(old(index.releases), index.refused, versions) == versions
      ensures r.Err? ==>
        r.error == DeleteFailures(|versions - DeletableAmong(old(index.releases), index.refused, versions)|, |versions|)
    {
      ghost var listed := index.releases;
      var remaining := versions;
      var failed := 0;
      ghost var deleted: set<string> := {};
      WithoutNothing(listed);
      while remaining != {}
        invariant index.Valid()
        invariant remaining <= versions
        invariant deleted == DeletableAmong(listed, index.refused, versions - remaining)
        invariant failed == |versions - remaining - deleted|
        invariant index.releases == Without(listed, deleted)
        decreases remaining
      {
        var v :| v in remaining;
        DeleteStep(listed, index.refused, versions, remaining, deleted, v);
        var outcome := DeleteSingleVersion(index, v);
        if outcome.Ok? {
          deleted := deleted + {v};
        } else {
          failed := failed + 1;
        }
        remaining := remaining - {v};
      }
      AllDone(versions, remaining);
      NoneFailed(versions, deleted);
      if failed > 0 {
        return Err(DeleteFailures(failed, |versions|));
      }
      return Ok(());
    }

    /** `_execute_cleanup`: fetch, plan, then report (dry run) or log in and delete. */
    method ExecuteCleanup(index: PackageIndex) returns (r: Result<Outcome, CleanupError>)
      requires index.Valid()
      modifies index
      ensures index.Valid()
      ensures !index.reachable ==> r == Err(FetchFailed)
      ensures index.reachable && old(index.releases) == [] ==> r == Ok(NothingToDo)
      ensures index.reachable && old(index.releases) != [] ==>
        match Plan(old(index.releases), maxNightlies)
        case Err(e) => r == Err(PlanFailed(e))
        case Ok(p) =>
          if p == {} then r == Ok(NothingToDo)
          else if !doDelete then r == Ok(Previewed(p))
          else if Authenticate(credentials, index.exchange).result.Err? then
            r == Err(AuthenticationFailed(Authenticate(credentials, index.exchange).result.error))
          else
            index.releases == Without(old(index.releases), DeletableAmong(old(index.releases), index.refused, p))
            && (r.Ok? <==> DeletableAmong(old(index.releases), index.refused, p) == p)
            && (r.Ok? ==> r.value == Deleted(p))
      ensures !doDelete ==> index.releases == old(index.releases)
      ensures index.releases != old(index.releases) ==> doDelete && Authenticate(credentials, index.exchange).result.Ok?
      ensures forall v :: v in old(index.releases) && v !in index.releases ==> Eligible(v)
      ensures forall v :: v in index.releases ==> v in old(index.releases)
      ensures old(index.releases) != [] ==> index.releases != []
    {
      var fetched := FetchReleasedVersions(index);
      if fetched.Err? {
        return Err(fetched.error);
      }
      var versions := fetched.value;
      if versions == [] {
        return Ok(NothingToDo);
      }
      var planned := Plan(versions, maxNightlies);
      if planned.Err? {
        return Err(PlanFailed(planned.error));
      }
      var p := planned.value;
      if p == {} {
        return Ok(NothingToDo);
      }
      if !doDelete {
        return Ok(Previewed(p));
      }
      var login := Authenticate(credentials, index.exchange);
      if login.result.Err? {
        return Err(AuthenticationFailed(login.result.error));
      }
      ghost var before := index.releases;
      var deleted := DeleteVersions(index, p);
      Kept(before, index.refused, p, index.releases);
      forall v | v in before && v !in index.releases ensures Eligible(v) {
        PlanEligible(versions, maxNightlies, v);
      }
      if deleted.Err? {
        return Err(deleted.error);
      }
      return Ok(Deleted(p));
    }
  }

  /** Deleting part of a proper subset of the listing leaves something listed. */
  lemma Kept(before: seq<string>, refused: set<string>, p: set<string>, after: seq<string>)
    requires p < Elements(before)
    requires after == Without(before, DeletableAmong(before, refused, p))
    ensures after != []
  {
    assert !(Elements(before) <= p);
    var x :| x in Elements(before) && x !in p;
    assert x in after;
  }
}
