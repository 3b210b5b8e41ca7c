/** Bearer tokens: the recogniser, the header, and the configured token list. */
module Bearer {
  import opened Basics
  import opened Strings
  import opened ForwardedFor

  predicate TokenChar(c: char) {
    AsciiAlpha(c) || AsciiDigit(c) || c in "-._~+/"
  }

  /** ALPHA, DIGIT and the six marks of RFC 6750, section 2.1, by their ASCII codes. */
  lemma AlphabetExactly(c: char)
    ensures TokenChar(c) <==>
            || 0x41 <= c as int <= 0x5A || 0x61 <= c as int <= 0x7A || 0x30 <= c as int <= 0x39
            || c as int in {0x2D, 0x2E, 0x5F, 0x7E, 0x2B, 0x2F}
  {}

  /** b64token of RFC 6750, section 2.1: one or more token characters, then any number of `=`. */
  ghost predicate B64Token(t: string) {
    exists n :: 0 < n <= |t| && Body(t, n)
  }

  ghost predicate Body(t: string, n: nat)
    requires n <= |t|
  {
    (forall i | 0 <= i < n :: TokenChar(t[i])) && (forall i | n <= i < |t| :: t[i] == '=')
  }

  /** A character that is neither padding nor allowed here leaves no b64token. */
  lemma NoTokenHere(t: string, i: nat, body: nat)
    requires body <= i < |t| && Body(t[..i], body)
    requires t[i] != '=' && (body < i || !TokenChar(t[i]))
    ensures !B64Token(t)
  {
    assert body < i ==> t[..i][body] == t[body] == '=';
    forall n | 0 < n <= |t| ensures !Body(t, n) {
      var k := if body < i then body else i;
      assert k < n ==> !TokenChar(t[k]);
      assert n <= i ==> t[i] != '=';
    }
  }

  /** The loop of `valid_bearer_token`.  A character outside ASCII is a run of bytes none of which is accepted. */
  method ValidBearerToken(t: string) returns (valid: bool)
    ensures valid <==> B64Token(t)
  {
    var body := 0;
    var paddingStarted := false;
    for i := 0 to |t|
      invariant 0 <= body <= i && Body(t[..i], body)
      invariant paddingStarted <==> body < i
    {
      if t[i] == '=' {
        paddingStarted := true;
      } else if paddingStarted || !TokenChar(t[i]) {
        NoTokenHere(t, i, body);
        return false;
      } else {
        body := body + 1;
      }
    }
    assert t[..|t|] == t;
    if B64Token(t) {
      var n :| 0 < n <= |t| && Body(t, n);
      assert TokenChar(t[0]);
    }
    return body > 0;
  }

  datatype BearerError = Missing | Malformed

  /** What the Authorization values must look like: a single textual one, the scheme, one space, a token. */
  ghost predicate Carries(values: seq<Option<string>>, token: string) {
    && |values| == 1 && values[0].Some? && B64Token(token)
    && exists scheme: string :: EqIgnoreAsciiCase(scheme, "Bearer") && values[0].value == scheme + [' '] + token
  }

  lemma SchemeHasNoSpace(scheme: string)
    requires EqIgnoreAsciiCase(scheme, "Bearer")
    ensures ' ' !in scheme
  {}

  /** `bearer_token`: a token comes back exactly when the header carries it. */
  method BearerToken(values: seq<Option<string>>) returns (r: Result<string, BearerError>)
    ensures r == Err(Missing) <==> values == []
    ensures forall token :: r == Ok(token) <==> Carries(values, token)
  {
    if values == [] {
      return Err(Missing);
    }
    if |values| > 1 || values[0].None? {
      return Err(Malformed);
    }
    var raw := values[0].value;
    var split := SplitOnce(raw, ' ');
    forall token | Carries(values, token)
      ensures split.Some? && split.value.1 == token && EqIgnoreAsciiCase(split.value.0, "Bearer")
    {
      var scheme :| EqIgnoreAsciiCase(scheme, "Bearer") && raw == scheme + [' '] + token;
      SchemeHasNoSpace(scheme);
      SplitOnceUnique(scheme, token, ' ');
    }
    if split.None? {
      return Err(Malformed);
    }
    var (scheme, token) := split.value;
    var valid := ValidBearerToken(token);
    if !EqIgnoreAsciiCase(scheme, "Bearer") || !valid {
      return Err(Malformed);
    }
    return Ok(token);
  }

  // ----- Configured tokens ------------------------------------------------------------------

  datatype ConfigError = EmptyEntry | InvalidEntry

  function Trimmed(entries: seq<string>): seq<string> {
    if entries == [] then [] else [Trim(entries[0])] + Trimmed(entries[1..])
  }

  /** The configured tokens: the trimmed comma-separated entries of a value that is not blank. */
  function Entries(input: Option<string>): seq<string> {
    if input.None? || Trim(input.value) == "" then [] else Trimmed(Split(input.value, ','))
  }

  lemma {:induction false} TrimmedAt(entries: seq<string>, i: nat)
    requires i < |entries|
    ensures |Trimmed(entries)| == |entries| && Trimmed(entries)[i] == Trim(entries[i])
  {
    if i > 0 {
      TrimmedAt(entries[1..], i - 1);
    } else if |entries| > 1 {
      TrimmedAt(entries[1..], 0);
    }
  }

  /** The entries are the pieces between the commas without their surrounding blanks; a blank value has none. */
  lemma EntriesExactly(value: string, i: nat)
    ensures Entries(None) == [] && (Blank(value) ==> Entries(Some(value)) == [])
    ensures !Blank(value) ==>
              && |Entries(Some(value))| == |Split(value, ',')|
              && (i < |Split(value, ',')| ==> Entries(Some(value))[i] == Trim(Split(value, ',')[i]))
  {
    if Blank(value) {
      TrimExactly(value, "", "");
      assert value + "" + "" == value;
    } else {
      TrimKeepsText(value);
      if i < |Split(value, ',')| {
        TrimmedAt(Split(value, ','), i);
      } else {
        TrimmedAt(Split(value, ','), 0);
      }
    }
  }

  ghost predicate Acceptable(entries: seq<string>) {
    forall e | e in entries :: B64Token(e)
  }

  /** `AccessTokens::parse_env`: each entry must be a token; equal digests are stored once, in some order. */
  method ParseTokens(lib: NetLibrary, input: Option<string>) returns (r: Result<seq<string>, ConfigError>)
    ensures r.Ok? <==> Acceptable(Entries(input))
    ensures r == Err(EmptyEntry) <==> "" in Entries(input)
    ensures r.Ok? ==> forall d :: d in r.value <==> exists e :: e in Entries(input) && lib.tokenDigest(e) == d
    ensures r.Ok? ==> forall i, j | 0 <= i < j < |r.value| :: r.value[i] != r.value[j]
  {
    var entries := Entries(input);
    for i := 0 to |entries|
      invariant forall k | 0 <= k < i :: entries[k] != ""
    {
      if entries[i] == "" {
        assert !B64Token(entries[i]);
        return Err(EmptyEntry);
      }
    }
    var unique: set<string> := {};
    for i := 0 to |entries|
      invariant forall k | 0 <= k < i :: B64Token(entries[k])
      invariant forall d :: d in unique <==> exists k :: 0 <= k < i && lib.tokenDigest(entries[k]) == d
    {
      var valid := ValidBearerToken(entries[i]);
      if !valid {
        return Err(InvalidEntry);
      }
      unique := unique + {lib.tokenDigest(entries[i])};
    }
    var digests: seq<string> := [];
    var rest := unique;
    while rest != {}
      invariant forall d :: d in unique <==> d in rest || d in digests
      invariant forall d | d in digests :: d !in rest
      invariant forall i, j | 0 <= i < j < |digests| :: digests[i] != digests[j]
      decreases rest
    {
      var d :| d in rest;
      digests, rest := digests + [d], rest - {d};
    }
    return Ok(digests);
  }

  /** `AccessTokens::matches`: every digest is compared, whatever was found before. */
  method Matches(lib: NetLibrary, digests: seq<string>, token: string) returns (matched: bool)
    ensures matched <==> lib.tokenDigest(token) in digests
  {
    matched := false;
    var candidate := lib.tokenDigest(token);
    for i := 0 to |digests|
      invariant matched <==> candidate in digests[..i]
    {
      assert digests[..i + 1] == digests[..i] + [digests[i]];
      matched := matched || digests[i] == candidate;
    }
    assert digests[..|digests|] == digests;
  }

  ghost predicate TokenDigestsDistinguish(lib: NetLibrary) {
    forall t: string, t': string :: lib.tokenDigest(t) == lib.tokenDigest(t') ==> t == t'
  }

  /** Acceptable configuration lets a token in exactly when it is one of the configured entries, whatever their
      order or repetition. */
  method TokenAllowed(lib: NetLibrary, input: Option<string>, token: string) returns (r: Result<bool, ConfigError>)
    requires TokenDigestsDistinguish(lib)
    ensures r.Ok? <==> Acceptable(Entries(input))
    ensures r.Ok? ==> (r.value <==> token in Entries(input))
  {
    var parsed := ParseTokens(lib, input);
    if parsed.Err? {
      return Err(parsed.error);
    }
    var allowed := Matches(lib, parsed.value, token);
    return Ok(allowed);
  }
}
