/** Who is let in: the address allowlist and the access decision. */
module Admission {
  import opened Basics
  import opened Strings
  import opened ForwardedFor
  import opened Bearer

  datatype Allowlist = Any | Nets(nets: seq<Net>) {
    predicate Allows(ip: Ip) {
      Any? || InNets(ip, nets)
    }
  }

  datatype ListError = EmptyListEntry | Wildcard | InvalidNet

  /** A network, or a single address as its host network. */
  function ParseNet(lib: NetLibrary, raw: string): Option<Net> {
    var host := match lib.parseIp(raw)
                case None => None
                case Some(V4(bits)) => Some(Net(V4(bits), 32))
                case Some(V6(bits)) => Some(Net(V6(bits), 128));
    lib.parseNet(raw).Or(host)
  }

  /** A configured address admits exactly itself. */
  lemma AddressIsItsOwnNet(lib: NetLibrary, raw: string, ip: Ip, other: Ip)
    requires lib.parseNet(raw).None? && lib.parseIp(raw) == Some(ip)
    ensures ParseNet(lib, raw).Some? && (ParseNet(lib, raw).value.Contains(other) <==> other == ip)
  {}

  function NetOfEntry(lib: NetLibrary, entry: string): Result<Net, ListError> {
    if entry == "" then Err(EmptyListEntry)
    else if entry == "*" then Err(Wildcard)
    else match ParseNet(lib, entry) case None => Err(InvalidNet) case Some(net) => Ok(net)
  }

  ghost predicate GoodEntries(lib: NetLibrary, entries: seq<string>) {
    forall e | e in entries :: NetOfEntry(lib, e).Ok?
  }

  /** The networks are those of the entries, one for one. */
  ghost predicate NetsOf(lib: NetLibrary, entries: seq<string>, nets: seq<Net>) {
    && |nets| == |entries|
    && forall i | 0 <= i < |nets| :: NetOfEntry(lib, entries[i]) == Ok(nets[i])
  }

  /** The loop both network lists run over their trimmed entries; the first bad entry is reported. */
  method ParseEntries(lib: NetLibrary, entries: seq<string>) returns (r: Result<seq<Net>, ListError>)
    ensures r.Ok? <==> GoodEntries(lib, entries)
    ensures r.Ok? ==> NetsOf(lib, entries, r.value)
    ensures r.Err? ==>
              exists i ::
                0 <= i < |entries| && NetOfEntry(lib, entries[i]) == Err(r.error) && GoodEntries(lib, entries[..i])
  {
    var nets := [];
    for i := 0 to |entries|
      invariant NetsOf(lib, entries[..i], nets) && GoodEntries(lib, entries[..i])
    {
      var net := NetOfEntry(lib, entries[i]);
      if net.Err? {
        assert entries[i] in entries;
        return Err(net.error);
      }
      assert entries[..i + 1] == entries[..i] + [entries[i]];
      nets := nets + [net.value];
    }
    assert entries[..|entries|] == entries;
    return Ok(nets);
  }

  predicate Open(input: Option<string>) {
    input.None? || Trim(input.value) == "" || Trim(input.value) == "*"
  }

  /** Unset, blank and a lone star among blanks mean open access, and nothing else does. */
  lemma OpenExactly(value: string, before: string, after: string)
    requires Blank(before) && Blank(after)
    ensures Open(None) && Open(Some(before)) && Open(Some(before + "*" + after))
    ensures Trim(value) != "" && Trim(value) != "*" ==> !Open(Some(value))
  {
    TrimExactly(before, "", "");
    assert before + "" + "" == before;
    TrimExactly(before, "*", after);
  }

  /** What one entry means: nothing, a star and unreadable text are errors of their own; else a network as written, or
      an address as the network of itself alone. */
  lemma EntryExactly(lib: NetLibrary, entry: string)
    ensures NetOfEntry(lib, "") == Err(EmptyListEntry) && NetOfEntry(lib, "*") == Err(Wildcard)
    ensures entry != "" && entry != "*" ==>
              match (lib.parseNet(entry), lib.parseIp(entry))
              case (Some(net), _) => NetOfEntry(lib, entry) == Ok(net)
              case (None, Some(V4(bits))) => NetOfEntry(lib, entry) == Ok(Net(V4(bits), 32))
              case (None, Some(V6(bits))) => NetOfEntry(lib, entry) == Ok(Net(V6(bits), 128))
              case (None, None) => NetOfEntry(lib, entry) == Err(InvalidNet)
  {}

  function AllowlistEntries(input: string): seq<string> {
    Trimmed(Split(Trim(input), ','))
  }

  /** `ClientAllowlist::parse_env`: unset, blank and `*` are open; `*` among other entries is an error. */
  method ParseAllowlist(lib: NetLibrary, input: Option<string>) returns (r: Result<Allowlist, ListError>)
    ensures r == Ok(Any) <==> Open(input)
    ensures !Open(input) ==> (r.Ok? <==> GoodEntries(lib, AllowlistEntries(input.value)))
    ensures r.Ok? && r.value.Nets? ==> NetsOf(lib, AllowlistEntries(input.value), r.value.nets)
  {
    if Open(input) {
      return Ok(Any);
    }
    var nets := ParseEntries(lib, AllowlistEntries(input.value));
    if nets.Err? {
      return Err(nets.error);
    }
    return Ok(Nets(nets.value));
  }

  /** `parse_network_list`, for the trusted proxies: unset and blank mean none, and there is no wildcard. */
  method ParseNetworkList(lib: NetLibrary, input: Option<string>) returns (r: Result<seq<Net>, ListError>)
    ensures r.Ok? <==> GoodEntries(lib, Entries(input))
    ensures r.Ok? ==> NetsOf(lib, Entries(input), r.value)
  {
    if input.None? || Trim(input.value) == "" {
      return Ok([]);
    }
    r := ParseEntries(lib, Trimmed(Split(input.value, ',')));
  }

  // ----- Access decision --------------------------------------------------------------------

  predicate ProtectedPath(path: string) {
    path == "/metrics" || path == "/api/v1" || StartsWith(path, "/api/v1/")
  }

  /** The metrics and everything of the API under its version prefix are protected, and nothing else. */
  lemma ProtectedExactly(path: string)
    ensures ProtectedPath(path) <==>
            path == "/metrics" || path == "/api/v1" || exists rest :: path == "/api/v1/" + rest
  {
    if StartsWith(path, "/api/v1/") {
      assert path == "/api/v1/" + path[|"/api/v1/"|..];
    }
  }

  datatype Config = Config(allowlist: Allowlist, trusted: seq<Net>, tokens: seq<string>)

  datatype Request = Request(path: string, peer: Option<Ip>, forwarded: seq<Option<string>>,
                             authorization: seq<Option<string>>)

  datatype Reason =
    | ClientIpUnresolved | ClientIpNotAllowed
    | AccessTokenMissing | AccessTokenMalformed | AccessTokenInvalid

  datatype Access = Admit(clientIp: Option<Ip>) | Reject(reason: Reason)

  /** The client's address: none without a peer or behind a malformed chain. */
  function AddressOf(lib: NetLibrary, c: Config, q: Request): Option<Ip> {
    match Resolved(lib, q.peer, q.forwarded, c.trusted) case Ok(ip) => ip case Err(_) => None
  }

  /** The address rule: no list, or a resolved address on it. */
  predicate AddressAdmitted(lib: NetLibrary, c: Config, q: Request) {
    c.allowlist.Any? || (AddressOf(lib, c, q).Some? && c.allowlist.Allows(AddressOf(lib, c, q).value))
  }

  /** The token rule: no tokens configured, or the header carries one of them. */
  ghost predicate TokenAdmitted(lib: NetLibrary, c: Config, q: Request) {
    c.tokens == [] || exists token :: Carries(q.authorization, token) && lib.tokenDigest(token) in c.tokens
  }

  lemma OneTokenCarried(values: seq<Option<string>>, token: string, token': string)
    requires Carries(values, token) && Carries(values, token')
    ensures token == token'
  {
    var scheme :| EqIgnoreAsciiCase(scheme, "Bearer") && values[0].value == scheme + [' '] + token;
    var scheme' :| EqIgnoreAsciiCase(scheme', "Bearer") && values[0].value == scheme' + [' '] + token';
    SchemeHasNoSpace(scheme);
    SchemeHasNoSpace(scheme');
    SplitOnceUnique(scheme, token, ' ');
    SplitOnceUnique(scheme', token', ' ');
  }

  /** `AccessControlMiddlewareService::call`: a protected request is admitted exactly when both rules admit it,
      and the address rule is reported first. */
  method Decide(lib: NetLibrary, c: Config, q: Request) returns (a: Access)
    ensures a.Admit? <==> !ProtectedPath(q.path) || (AddressAdmitted(lib, c, q) && TokenAdmitted(lib, c, q))
    ensures a == Reject(ClientIpUnresolved) <==>
            ProtectedPath(q.path) && c.allowlist.Nets? && AddressOf(lib, c, q).None?
    ensures a == Reject(ClientIpNotAllowed) <==>
            ProtectedPath(q.path) && AddressOf(lib, c, q).Some? && !c.allowlist.Allows(AddressOf(lib, c, q).value)
    ensures a == Reject(AccessTokenMissing) <==>
            ProtectedPath(q.path) && AddressAdmitted(lib, c, q) && c.tokens != [] && q.authorization == []
    ensures a == Reject(AccessTokenMalformed) <==>
            && ProtectedPath(q.path) && AddressAdmitted(lib, c, q) && c.tokens != [] && q.authorization != []
            && !exists token :: Carries(q.authorization, token)
    ensures a.Admit? && ProtectedPath(q.path) && c.allowlist.Nets? ==> a.clientIp == AddressOf(lib, c, q)
  {
    if !ProtectedPath(q.path) {
      return Admit(None);
    }
    var clientIp := None;
    if c.allowlist.Nets? {
      var resolved := ResolveClientIp(lib, q.peer, q.forwarded, c.trusted);
      if resolved.Err? || resolved.value.None? {
        return Reject(ClientIpUnresolved);
      }
      if !c.allowlist.Allows(resolved.value.value) {
        return Reject(ClientIpNotAllowed);
      }
      clientIp := resolved.value;
    }
    if c.tokens != [] {
      var bearer := BearerToken(q.authorization);
      if bearer.Err? {
        assert forall token :: !Carries(q.authorization, token);
        return Reject(if bearer.error.Missing? then AccessTokenMissing else AccessTokenMalformed);
      }
      assert Carries(q.authorization, bearer.value);
      var matched := Matches(lib, c.tokens, bearer.value);
      if !matched {
        forall token | Carries(q.authorization, token) ensures token == bearer.value {
          OneTokenCarried(q.authorization, token, bearer.value);
        }
        return Reject(AccessTokenInvalid);
      }
    }
    return Admit(clientIp);
  }
}
