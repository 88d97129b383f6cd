/** The command-line input checks of the cleanup tool: `validate_username` and `validate_arguments`. */
module Validation {
  import opened Wrappers

  /** The characters Python's `str.isspace()` accepts, which `str.strip()` removes. */
  predicate IsSpace(c: char)
  {
    c == ' ' || ('\t' <= c <= '\r') || ('\U{1c}' <= c <= '\U{1f}') || c == '\U{85}' || c == '\U{a0}'
    || c == '\U{1680}' || ('\U{2000}' <= c <= '\U{200a}') || c == '\U{2028}' || c == '\U{2029}'
    || c == '\U{202f}' || c == '\U{205f}' || c == '\U{3000}'
  }

  /** s without its leading whitespace. */
  function TrimStart(s: string): (r: string)
    ensures |r| <= |s| && r == s[|s| - |r|..]
    ensures forall i :: 0 <= i < |s| - |r| ==> IsSpace(s[i])
    ensures r != [] ==> !IsSpace(r[0])
  {
    if s != [] && IsSpace(s[0]) then TrimStart(s[1..]) else s
  }

  /** s without its trailing whitespace. */
  function TrimEnd(s: string): (r: string)
    ensures |r| <= |s| && r == s[..|r|]
    ensures forall i :: |r| <= i < |s| ==> IsSpace(s[i])
    ensures r != [] ==> !IsSpace(r[|r| - 1])
  {
    if s != [] && IsSpace(s[|s| - 1]) then TrimEnd(s[..|s| - 1]) else s
  }

  /** `str.strip()`: s without surrounding whitespace. */
  function Strip(s: string): string
  {
    TrimEnd(TrimStart(s))
  }

  /** Strip removes a run of whitespace from each end and nothing else. */
  lemma StripBounds(s: string) returns (i: nat, j: nat)
    ensures i <= j <= |s| && Strip(s) == s[i..j]
    ensures forall k :: 0 <= k < i || j <= k < |s| ==> IsSpace(s[k])
    ensures Strip(s) != [] ==> !IsSpace(Strip(s)[0]) && !IsSpace(Strip(s)[|Strip(s)| - 1])
  {
    var t := TrimStart(s);
    var r := TrimEnd(t);
    i := |s| - |t|;
    j := i + |r|;
    assert r == s[i..j];
    if r != [] {
      assert r[0] == t[0];
    }
  }

  lemma StripIdempotent(s: string)
    ensures Strip(Strip(s)) == Strip(s)
  {
    var i, j := StripBounds(s);
    var r := Strip(s);
    assert TrimStart(r) == r;
    assert TrimEnd(r) == r;
  }

  predicate IsAsciiAlnum(c: char) { 'a' <= c <= 'z' || 'A' <= c <= 'Z' || '0' <= c <= '9' }

  predicate IsNameChar(c: char) { IsAsciiAlnum(c) || c == '.' || c == '_' || c == '-' }

  /** The pattern `^[a-zA-Z0-9]([a-zA-Z0-9._-]*[a-zA-Z0-9])?$`. */
  predicate UsernamePattern(s: string)
  {
    |s| >= 1 && IsAsciiAlnum(s[0]) && IsAsciiAlnum(s[|s| - 1])
    && forall i :: 0 <= i < |s| ==> IsNameChar(s[i])
  }

  const MaxUsernameLength: nat := 100

  datatype UsernameError =
    | EmptyUsername                  // "cannot be empty"
    | UsernameTooLong                // "too long"
    | InvalidUsernameFormat(name: string)

  /** `validate_username`: the stripped name, or why it is refused. */
  function ValidateUsername(value: string): (r: Result<string, UsernameError>)
    ensures r.Ok? ==> r.value == Strip(value)
    ensures r.Ok? <==> Strip(value) != [] && |Strip(value)| <= MaxUsernameLength && UsernamePattern(Strip(value))
    ensures r == Err(EmptyUsername) <==> Strip(value) == []
    ensures r == Err(UsernameTooLong) <==> |Strip(value)| > MaxUsernameLength
  {
    var name := Strip(value);
    if name == [] then Err(EmptyUsername)
    else if |name| > MaxUsernameLength then Err(UsernameTooLong)
    else if !UsernamePattern(name) then Err(InvalidUsernameFormat(name))
    else Ok(name)
  }

  /** An accepted name has no surrounding whitespace, only name characters, and is accepted
    * again as it is. */
  lemma ValidUsernameStable(value: string)
    requires ValidateUsername(value).Ok?
    ensures var name := ValidateUsername(value).value;
      && ValidateUsername(name) == Ok(name)
      && 1 <= |name| <= MaxUsernameLength
      && forall i :: 0 <= i < |name| ==> IsNameChar(name[i]) && !IsSpace(name[i])
  {
    StripIdempotent(value);
  }

  /** A name that begins or ends with a hyphen once stripped is refused as malformed. */
  lemma HyphenAtEdgeRejected(value: string)
    requires var name := Strip(value);
      name != [] && |name| <= MaxUsernameLength && (name[0] == '-' || name[|name| - 1] == '-')
    ensures ValidateUsername(value) == Err(InvalidUsernameFormat(Strip(value)))
  {
  }

  /** Any letter, digit, dot, hyphen and underscore in between two letters or digits is fine. */
  lemma NameCharactersAccepted(first: char, middle: string, last: char)
    requires IsAsciiAlnum(first) && IsAsciiAlnum(last)
    requires forall i :: 0 <= i < |middle| ==> IsNameChar(middle[i])
    requires |middle| + 2 <= MaxUsernameLength
    ensures ValidateUsername([first] + middle + [last]) == Ok([first] + middle + [last])
  {
    var s := [first] + middle + [last];
    assert s[0] == first && !IsSpace(first);
    assert TrimStart(s) == s;
    assert s[|s| - 1] == last && !IsSpace(last);
    assert TrimEnd(s) == s;
    assert forall i :: 0 <= i < |s| ==> IsNameChar(s[i]) by {
      forall i | 0 <= i < |s| ensures IsNameChar(s[i]) {
        if 0 < i < |s| - 1 {
          assert s[i] == middle[i - 1];
        }
      }
    }
  }

  /** When s has spaces exactly before k, TrimStart starts at k. */
  lemma TrimStartAt(s: string, k: nat)
    requires k <= |s| && (forall i :: 0 <= i < k ==> IsSpace(s[i])) && (k < |s| ==> !IsSpace(s[k]))
    ensures TrimStart(s) == s[k..]
  {
  }

  /** When s has spaces exactly from k on, TrimEnd stops at k. */
  lemma TrimEndAt(s: string, k: nat)
    requires k <= |s| && (forall i :: k <= i < |s| ==> IsSpace(s[i])) && (0 < k ==> !IsSpace(s[k - 1]))
    ensures TrimEnd(s) == s[..k]
  {
  }

  /** Strip takes off exactly the whitespace around a name that neither starts nor ends with
    * whitespace. */
  lemma StripSurrounding(lead: string, name: string, trail: string)
    requires forall i :: 0 <= i < |lead| ==> IsSpace(lead[i])
    requires forall i :: 0 <= i < |trail| ==> IsSpace(trail[i])
    requires name != [] ==> !IsSpace(name[0]) && !IsSpace(name[|name| - 1])
    ensures Strip(lead + name + trail) == name
  {
    var s := lead + name + trail;
    if name == [] {
      TrimStartAt(s, |s|);
      assert s[|s|..] == [];
    } else {
      assert s[|lead|] == name[0];
      TrimStartAt(s, |lead|);
      assert s[|lead|..] == name + trail;
      TrimEndOfName(name, trail);
    }
  }

  lemma TrimEndOfName(name: string, trail: string)
    requires forall i :: 0 <= i < |trail| ==> IsSpace(trail[i])
    requires name != [] && !IsSpace(name[|name| - 1])
    ensures TrimEnd(name + trail) == name
  {
    var t := name + trail;
    assert t[|name| - 1] == name[|name| - 1];
    TrimEndAt(t, |name|);
    assert t[..|name|] == name;
  }

  /** An empty or all-blank name is refused as empty. */
  lemma BlankRejected(value: string)
    requires forall i :: 0 <= i < |value| ==> IsSpace(value[i])
    ensures ValidateUsername(value) == Err(EmptyUsername)
  {
    TrimStartAt(value, |value|);
    assert value[|value|..] == [];
  }

  /** A name over the limit, once stripped, is refused as too long. */
  lemma LongNameRejected(value: string)
    requires |value| > MaxUsernameLength && !IsSpace(value[0]) && !IsSpace(value[|value| - 1])
    ensures ValidateUsername(value) == Err(UsernameTooLong)
  {
    NoSurroundingSpace(value);
  }

  /** A name with no whitespace at either end is its own stripped form. */
  lemma NoSurroundingSpace(s: string)
    requires s != [] && !IsSpace(s[0]) && !IsSpace(s[|s| - 1])
    ensures Strip(s) == s
  {
    TrimStartAt(s, 0);
    assert s[0..] == s;
    TrimEndAt(s, |s|);
    assert s[..|s|] == s;
  }

  lemma AcceptedExamples(a: string, b: string, c: string)
    requires a == "user123" && b == "test-user_name" && c == "a"
    ensures ValidateUsername(a) == Ok(a)
    ensures ValidateUsername(b) == Ok(b)
    ensures ValidateUsername(c) == Ok(c)
  {
    NoSurroundingSpace(a);
    NoSurroundingSpace(b);
    NoSurroundingSpace(c);
  }

  /** A hundred and one letters are refused as too long. */
  lemma TooLongExample(value: string)
    requires |value| == 101 && forall i :: 0 <= i < |value| ==> value[i] == 'a'
    ensures ValidateUsername(value) == Err(UsernameTooLong)
  {
    LongNameRejected(value);
  }

  lemma PaddedExample(padded: string, name: string)
    requires name == "user.name" && padded == "  " + name + "  "
    ensures ValidateUsername(padded) == Ok(name)
  {
    StripSurrounding("  ", name, "  ");
  }

  lemma LeadingHyphenExample(name: string)
    requires name == "-invalid"
    ensures ValidateUsername(name) == Err(InvalidUsernameFormat(name))
  {
    NoSurroundingSpace(name);
  }

  lemma TrailingHyphenExample(name: string)
    requires name == "invalid-"
    ensures ValidateUsername(name) == Err(InvalidUsernameFormat(name))
  {
    NoSurroundingSpace(name);
  }

  datatype ArgumentError =
    | UsernameRequired   // "username is required" outside dry-run mode
    | NegativeNightlies  // "must be non-negative"

  /** `validate_arguments`: a username is needed unless in dry-run mode (an empty one counts as
    * missing), and the number of nightlies kept must not be negative. */
  function ValidateArguments(dryRun: bool, username: Option<string>, maxNightlies: int): (r: Result<nat, ArgumentError>)
    ensures r.Ok? <==> (dryRun || (username.Some? && username.value != [])) && maxNightlies >= 0
    ensures r.Ok? ==> r.value == maxNightlies
    ensures r == Err(UsernameRequired) <==> !dryRun && (username.None? || username.value == [])
  {
    if !dryRun && (username.None? || username.value == []) then Err(UsernameRequired)
    else if maxNightlies < 0 then Err(NegativeNightlies)
    else Ok(maxNightlies)
  }

  /** The three argument checks of the tests: a dry run needs no username, a live run does,
    * and a negative nightly count is refused even with a username. */
  lemma ArgumentExamples()
    ensures ValidateArguments(true, None, 2) == Ok(2)
    ensures ValidateArguments(false, None, 2) == Err(UsernameRequired)
    ensures ValidateArguments(true, Some("test"), -1) == Err(NegativeNightlies)
  {
  }
}
