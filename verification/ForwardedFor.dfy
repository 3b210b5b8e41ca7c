/** Resolving the client address behind trusted proxies. */
module ForwardedFor {
  import opened Basics
  import opened Strings

  datatype Ip = V4(bits: nat) | V6(bits: nat)

  datatype Net = Net(address: Ip, prefix: nat) {
    /** Same family and same leading `prefix` bits. */
    predicate Contains(ip: Ip) {
      match (address, ip)
      case (V4(a), V4(b)) => prefix <= 32 && a / Pow2(32 - prefix) == b / Pow2(32 - prefix)
      case (V6(a), V6(b)) => prefix <= 128 && a / Pow2(128 - prefix) == b / Pow2(128 - prefix)
      case _ => false
    }
  }

  function Pow2(n: nat): (r: nat)
    ensures r > 0
  {
    if n == 0 then 1 else 2 * Pow2(n - 1)
  }

  /** The block of addresses with these leading bits: `size` of them, from the multiple of `size` below the address. */
  lemma NetIsBlock(address: nat, prefix: nat, ip: nat)
    requires prefix <= 32
    ensures var size := Pow2(32 - prefix);
            Net(V4(address), prefix).Contains(V4(ip)) <==>
            address / size * size <= ip < address / size * size + size
  {
    BlockArithmetic(address, ip, Pow2(32 - prefix));
  }

  lemma NetIsBlock6(address: nat, prefix: nat, ip: nat)
    requires prefix <= 128
    ensures var size := Pow2(128 - prefix);
            Net(V6(address), prefix).Contains(V6(ip)) <==>
            address / size * size <= ip < address / size * size + size
  {
    BlockArithmetic(address, ip, Pow2(128 - prefix));
  }

  /** The blocks a reader knows by heart: everything, 2^24, 65536, 256 addresses, and one. */
  lemma FamiliarBlocks(a: nat, b: nat)
    requires a < 0x1_0000_0000 && b < 0x1_0000_0000
    ensures Net(V4(a), 0).Contains(V4(b))
    ensures Net(V4(a), 8).Contains(V4(b)) <==> a / 0x100_0000 == b / 0x100_0000
    ensures Net(V4(a), 16).Contains(V4(b)) <==> a / 0x1_0000 == b / 0x1_0000
    ensures Net(V4(a), 24).Contains(V4(b)) <==> a / 0x100 == b / 0x100
    ensures Net(V4(a), 32).Contains(V4(b)) <==> a == b
  {
    assert Pow2(0) == 1;
    assert Pow2(4) == 16;
    assert Pow2(8) == 0x100;
    assert Pow2(12) == 0x1000;
    assert Pow2(16) == 0x1_0000;
    assert Pow2(20) == 0x10_0000;
    assert Pow2(24) == 0x100_0000;
    assert Pow2(28) == 0x1000_0000;
    assert Pow2(32) == 0x1_0000_0000;
  }

  lemma BlockArithmetic(a: nat, b: nat, size: nat)
    requires size > 0
    ensures a / size == b / size <==> a / size * size <= b < a / size * size + size
  {
    if a / size * size <= b < a / size * size + size {
      assert b == a / size * size + (b - a / size * size);
      DivisionUnique(b, a / size, size);
    }
    assert b == b / size * size + b % size;
  }

  lemma ProductGrows(x: nat, y: nat, size: nat)
    requires x <= y
    ensures x * size <= y * size
  {}

  lemma DivisionUnique(b: nat, q: nat, size: nat)
    requires size > 0 && q * size <= b < q * size + size
    ensures b / size == q
  {
    var p := b / size;
    assert b == p * size + b % size;
    ProductGrows(if p < q then p + 1 else q, q, size);
    ProductGrows(if q < p then q + 1 else p, p, size);
  }

  /** Networks never mix the two families. */
  lemma FamiliesApart(a: nat, b: nat, prefix: nat)
    ensures !Net(V4(a), prefix).Contains(V6(b)) && !Net(V6(a), prefix).Contains(V4(b))
  {}

  /** Address parsing and token hashing belong to the standard library and SHA-256. */
  datatype NetLibrary = NetLibrary(
    parseIp: string -> Option<Ip>,
    parseSocket: string -> Option<Ip>,
    parseNet: string -> Option<Net>,
    tokenDigest: string -> string)

  predicate InNets(ip: Ip, nets: seq<Net>) {
    exists net | net in nets :: net.Contains(ip)
  }

  function ParseSocket(lib: NetLibrary, raw: string): Option<Ip> {
    if lib.parseSocket(raw).Some? then lib.parseSocket(raw)
    else if |raw| >= 2 && raw[0] == '[' && raw[|raw| - 1] == ']' then lib.parseIp(raw[1..|raw| - 1])
    else None
  }

  function ParseToken(lib: NetLibrary, raw: string): Option<Ip> {
    var token := Trim(raw);
    if token == "" then None else lib.parseIp(token).Or(ParseSocket(lib, token))
  }

  /** Blanks around a token do not matter, and a blank token is no address. */
  lemma BlanksIgnored(lib: NetLibrary, before: string, token: string, after: string)
    requires Blank(before) && Blank(after) && (token != "" ==> !White(token[0]) && !White(token[|token| - 1]))
    ensures ParseToken(lib, before + token + after) == ParseToken(lib, token)
    ensures token == "" ==> ParseToken(lib, before + token + after).None?
  {
    TrimExactly(before, token, after);
    TrimExactly("", token, "");
    assert "" + token + "" == token;
  }

  /** A token is read as an address, else as an address with a port, else as an address in brackets. */
  lemma TokenForms(lib: NetLibrary, token: string, inner: string)
    requires token != "" && !White(token[0]) && !White(token[|token| - 1])
    ensures lib.parseIp(token).Some? ==> ParseToken(lib, token) == lib.parseIp(token)
    ensures lib.parseIp(token).None? && lib.parseSocket(token).Some? ==>
              ParseToken(lib, token) == lib.parseSocket(token)
    ensures lib.parseIp(token).None? && lib.parseSocket(token).None? ==>
              && (token == "[" + inner + "]" ==> ParseToken(lib, token) == lib.parseIp(inner))
              && ((token[0] != '[' || token[|token| - 1] != ']' || |token| == 1) ==> ParseToken(lib, token).None?)
  {
    TrimExactly("", token, "");
    assert "" + token + "" == token;
    if token == "[" + inner + "]" {
      assert token[1..|token| - 1] == inner;
    }
  }

  /** The tokens of all header lines in order; `None` if a line is not text. */
  function Tokens(lines: seq<Option<string>>): Option<seq<string>> {
    if lines == [] then Some([])
    else
      var before, line := Tokens(lines[..|lines| - 1]), lines[|lines| - 1];
      if before.None? || line.None? then None else Some(before.value + Split(line.value, ','))
  }

  /** The addresses of a token list; `None` if one does not parse. */
  function Addresses(lib: NetLibrary, tokens: seq<string>): (r: Option<seq<Ip>>)
    ensures r.Some? ==> |r.value| == |tokens|
  {
    if tokens == [] then Some([])
    else
      var before, ip := Addresses(lib, tokens[..|tokens| - 1]), ParseToken(lib, tokens[|tokens| - 1]);
      if before.None? || ip.None? then None else Some(before.value + [ip.value])
  }

  function Chain(lib: NetLibrary, lines: seq<Option<string>>): Option<seq<Ip>> {
    match Tokens(lines) case None => None case Some(tokens) => Addresses(lib, tokens)
  }

  /** The trusted-chain walk: from the right, past trusted proxies, to the first address not trusted;
      the leftmost address if all are trusted. */
  function Walk(chain: seq<Ip>, trusted: seq<Net>): Option<Ip> {
    if chain == [] then None
    else if |chain| == 1 || !InNets(chain[|chain| - 1], trusted) then Some(chain[|chain| - 1])
    else Walk(chain[..|chain| - 1], trusted)
  }

  // ----- The one-pass scan ------------------------------------------------------------------

  /** What the scan has in `first` and `rightmost_untrusted` after a chain. */
  function First(chain: seq<Ip>): Option<Ip> {
    if chain == [] then None else Some(chain[0])
  }

  function RightmostUntrusted(chain: seq<Ip>, trusted: seq<Net>): Option<Ip> {
    if chain == [] then None
    else if !InNets(chain[|chain| - 1], trusted) then Some(chain[|chain| - 1])
    else RightmostUntrusted(chain[..|chain| - 1], trusted)
  }

  lemma {:induction false} ScanIsWalk(chain: seq<Ip>, trusted: seq<Net>)
    ensures RightmostUntrusted(chain, trusted).Or(First(chain)) == Walk(chain, trusted)
  {
    if |chain| > 1 {
      ScanIsWalk(chain[..|chain| - 1], trusted);
    }
  }

  lemma {:induction false} BadTokenSpoils(lib: NetLibrary, tokens: seq<string>, n: nat)
    requires n < |tokens| && ParseToken(lib, tokens[n]).None?
    ensures Addresses(lib, tokens).None?
  {
    if n < |tokens| - 1 {
      BadTokenSpoils(lib, tokens[..|tokens| - 1], n);
    }
  }

  lemma {:induction false} TokensGrow(lines: seq<Option<string>>, n: nat)
    requires n <= |lines| && Tokens(lines).Some?
    ensures Tokens(lines[..n]).Some? && Tokens(lines[..n]).value <= Tokens(lines).value
  {
    if n < |lines| {
      var m := |lines| - 1;
      assert lines[..m][..n] == lines[..n];
      TokensGrow(lines[..m], n);
    } else {
      assert lines[..n] == lines;
    }
  }

  lemma NonTextSpoils(lines: seq<Option<string>>, n: nat)
    requires n < |lines| && lines[n].None?
    ensures Tokens(lines).None?
  {}

  lemma OneMoreToken(lib: NetLibrary, seen: seq<string>, tokens: seq<string>, j: nat, chain: seq<Ip>, trusted: seq<Net>)
    requires j < |tokens| && ParseToken(lib, tokens[j]).Some? && Addresses(lib, seen + tokens[..j]) == Some(chain)
    ensures var ip := ParseToken(lib, tokens[j]).value;
            && Addresses(lib, seen + tokens[..j + 1]) == Some(chain + [ip])
            && First(chain + [ip]) == First(chain).Or(Some(ip))
            && RightmostUntrusted(chain + [ip], trusted)
               == if InNets(ip, trusted) then RightmostUntrusted(chain, trusted) else Some(ip)
  {
    var longer := seen + tokens[..j + 1];
    assert longer[..|longer| - 1] == seen + tokens[..j] && longer[|longer| - 1] == tokens[j];
    var ip := ParseToken(lib, tokens[j]).value;
    assert (chain + [ip])[..|chain|] == chain;
  }

  /** The nested loop of `forwarded_client_ip`: every token is parsed, one pass keeps the first address and the
      last one not trusted. */
  method ForwardedClientIp(lib: NetLibrary, lines: seq<Option<string>>, trusted: seq<Net>)
    returns (r: Result<Option<Ip>, ()>)
    ensures r == match Chain(lib, lines) case None => Err(()) case Some(chain) => Ok(Walk(chain, trusted))
  {
    var first, rightmostUntrusted := None, None;
    ghost var seen: seq<string>, chain: seq<Ip> := [], [];
    for i := 0 to |lines|
      invariant Tokens(lines[..i]) == Some(seen) && Addresses(lib, seen) == Some(chain)
      invariant first == First(chain) && rightmostUntrusted == RightmostUntrusted(chain, trusted)
    {
      if lines[i].None? {
        NonTextSpoils(lines, i);
        return Err(());
      }
      var tokens := Split(lines[i].value, ',');
      assert seen + tokens[..0] == seen;
      for j := 0 to |tokens|
        invariant Addresses(lib, seen + tokens[..j]) == Some(chain)
        invariant first == First(chain) && rightmostUntrusted == RightmostUntrusted(chain, trusted)
      {
        var ip := ParseToken(lib, tokens[j]);
        if ip.None? {
          ChainSpoiled(lib, lines, i, j);
          return Err(());
        }
        OneMoreToken(lib, seen, tokens, j, chain, trusted);
        chain := chain + [ip.value];
        first := first.Or(ip);
        if !InNets(ip.value, trusted) {
          rightmostUntrusted := ip;
        }
      }
      assert tokens[..|tokens|] == tokens && lines[..i + 1][..i] == lines[..i];
      seen := seen + tokens;
    }
    assert lines[..|lines|] == lines;
    ScanIsWalk(chain, trusted);
    return Ok(rightmostUntrusted.Or(first));
  }

  lemma ChainSpoiled(lib: NetLibrary, lines: seq<Option<string>>, i: nat, j: nat)
    requires i < |lines| && lines[i].Some? && j < |Split(lines[i].value, ',')|
    requires ParseToken(lib, Split(lines[i].value, ',')[j]).None?
    ensures Chain(lib, lines).None?
  {
    if Tokens(lines).Some? {
      TokensGrow(lines, i + 1);
      assert lines[..i + 1][..i] == lines[..i];
      var before := Tokens(lines[..i]).value;
      assert Tokens(lines[..i + 1]).value == before + Split(lines[i].value, ',');
      BadTokenSpoils(lib, Tokens(lines).value, |before| + j);
    }
  }

  // ----- What the result depends on ---------------------------------------------------------

  /** A client may put anything well-formed in front: while some address is not trusted it changes nothing. */
  lemma {:induction false} PrefixIgnored(forged: seq<Ip>, chain: seq<Ip>, trusted: seq<Net>)
    requires exists ip | ip in chain :: !InNets(ip, trusted)
    ensures Walk(forged + chain, trusted) == Walk(chain, trusted)
  {
    var n := |chain| - 1;
    assert (forged + chain)[|forged + chain| - 1] == chain[n];
    if InNets(chain[n], trusted) {
      assert (forged + chain)[..|forged + chain| - 1] == forged + chain[..n];
      var ip :| ip in chain && !InNets(ip, trusted);
      assert ip in chain[..n];
      PrefixIgnored(forged, chain[..n], trusted);
    }
  }

  /** When every address is trusted, the leftmost one is the answer. */
  lemma {:induction false} AllTrusted(chain: seq<Ip>, trusted: seq<Net>)
    requires chain != [] && forall ip | ip in chain :: InNets(ip, trusted)
    ensures Walk(chain, trusted) == Some(chain[0])
  {
    if |chain| > 1 {
      AllTrusted(chain[..|chain| - 1], trusted);
    }
  }

  lemma {:induction false} TokensOfSum(lines: seq<Option<string>>, lines': seq<Option<string>>)
    ensures Tokens(lines + lines') ==
            if Tokens(lines).None? || Tokens(lines').None? then None
            else Some(Tokens(lines).value + Tokens(lines').value)
  {
    if lines' == [] {
      assert lines + lines' == lines;
      if Tokens(lines).Some? { assert Tokens(lines).value + [] == Tokens(lines).value; }
    } else {
      var n := |lines'| - 1;
      assert (lines + lines')[..|lines + lines'| - 1] == lines + lines'[..n];
      TokensOfSum(lines, lines'[..n]);
      if Tokens(lines).Some? && Tokens(lines').Some? {
        assert Tokens(lines).value + (Tokens(lines'[..n]).value + Split(lines'[n].value, ','))
            == Tokens(lines).value + Tokens(lines'[..n]).value + Split(lines'[n].value, ',');
      }
    }
  }

  function Texts(values: seq<string>): seq<Option<string>> {
    if values == [] then [] else [Some(values[0])] + Texts(values[1..])
  }

  /** Several header lines mean the same as one line with their values joined by commas. */
  lemma {:induction false} LinesJoin(values: seq<string>)
    requires values != []
    ensures Tokens(Texts(values)) == Tokens([Some(Join(values, ','))])
  {
    assert Texts(values) == [Some(values[0])] + Texts(values[1..]);
    LineTokens(values[0]);
    LineTokens(Join(values, ','));
    if |values| > 1 {
      LinesJoin(values[1..]);
      LineTokens(Join(values[1..], ','));
      TokensOfSum([Some(values[0])], Texts(values[1..]));
      SplitAtSeparator(values[0], Join(values[1..], ','), ',');
    } else {
      assert Texts(values) == [Some(values[0])];
    }
  }

  lemma LineTokens(line: string)
    ensures Tokens([Some(line)]) == Some(Split(line, ','))
  {
    assert [Some(line)][..0] == [];
    assert Tokens([]) == Some([]);
    assert [] + Split(line, ',') == Split(line, ',');
  }

  /** `resolve_client_ip`: only a trusted peer's header is read. */
  method ResolveClientIp(lib: NetLibrary, peer: Option<Ip>, lines: seq<Option<string>>, trusted: seq<Net>)
    returns (r: Result<Option<Ip>, ()>)
    ensures r == Resolved(lib, peer, lines, trusted)
  {
    if peer.None? {
      return Ok(None);
    }
    if !InNets(peer.value, trusted) {
      return Ok(peer);
    }
    r := ForwardedClientIp(lib, lines, trusted);
  }

  function Resolved(lib: NetLibrary, peer: Option<Ip>, lines: seq<Option<string>>,
                    trusted: seq<Net>): Result<Option<Ip>, ()>
  {
    if peer.None? || !InNets(peer.value, trusted) then Ok(peer)
    else match Chain(lib, lines) case None => Err(()) case Some(chain) => Ok(Walk(chain, trusted))
  }

  /** An untrusted peer is the client whatever the header says, and a peer behind the proxies is never the answer
      while the chain names an address that is not trusted. */
  lemma PeerDecides(lib: NetLibrary, peer: Ip, lines: seq<Option<string>>, trusted: seq<Net>)
    ensures !InNets(peer, trusted) ==> Resolved(lib, Some(peer), lines, trusted) == Ok(Some(peer))
    ensures Resolved(lib, None, lines, trusted) == Ok(None)
    ensures InNets(peer, trusted) && Chain(lib, lines).None? ==> Resolved(lib, Some(peer), lines, trusted).Err?
    ensures InNets(peer, trusted) && Chain(lib, lines).Some?
            && (exists ip | ip in Chain(lib, lines).value :: !InNets(ip, trusted)) ==>
              && Resolved(lib, Some(peer), lines, trusted).Ok?
              && Resolved(lib, Some(peer), lines, trusted).value.Some?
              && !InNets(Resolved(lib, Some(peer), lines, trusted).value.value, trusted)
  {
    if Chain(lib, lines).Some? && exists ip | ip in Chain(lib, lines).value :: !InNets(ip, trusted) {
      ResolvedIsUntrusted(Chain(lib, lines).value, trusted);
    }
  }

  lemma {:induction false} AddressesOfSum(lib: NetLibrary, tokens: seq<string>, tokens': seq<string>)
    ensures Addresses(lib, tokens + tokens') ==
            if Addresses(lib, tokens).None? || Addresses(lib, tokens').None? then None
            else Some(Addresses(lib, tokens).value + Addresses(lib, tokens').value)
  {
    if tokens' == [] {
      assert tokens + tokens' == tokens;
      if Addresses(lib, tokens).Some? { assert Addresses(lib, tokens).value + [] == Addresses(lib, tokens).value; }
    } else {
      var n := |tokens'| - 1;
      assert (tokens + tokens')[..|tokens + tokens'| - 1] == tokens + tokens'[..n];
      AddressesOfSum(lib, tokens, tokens'[..n]);
      if Addresses(lib, tokens).Some? && Addresses(lib, tokens').Some? {
        var ip := ParseToken(lib, tokens'[n]).value;
        assert Addresses(lib, tokens).value + (Addresses(lib, tokens'[..n]).value + [ip])
            == Addresses(lib, tokens).value + Addresses(lib, tokens'[..n]).value + [ip];
      }
    }
  }

  /** Header lines in front contribute their addresses in front; a malformed line spoils the chain wherever it is. */
  lemma ChainOfSum(lib: NetLibrary, lines: seq<Option<string>>, lines': seq<Option<string>>)
    ensures Chain(lib, lines + lines') ==
            if Chain(lib, lines).None? || Chain(lib, lines').None? then None
            else Some(Chain(lib, lines).value + Chain(lib, lines').value)
  {
    TokensOfSum(lines, lines');
    if Tokens(lines).Some? && Tokens(lines').Some? {
      AddressesOfSum(lib, Tokens(lines).value, Tokens(lines').value);
    }
  }

  /** What a client puts in front of the header, on whatever lines, changes the resolved address not at all once
      the proxies have appended an address that is not trusted; if it is malformed, the request is refused. */
  lemma ForgedLinesIgnored(lib: NetLibrary, peer: Option<Ip>, forged: seq<Option<string>>, lines: seq<Option<string>>,
                           trusted: seq<Net>)
    requires Chain(lib, lines).Some? && exists ip | ip in Chain(lib, lines).value :: !InNets(ip, trusted)
    ensures Resolved(lib, peer, forged + lines, trusted) ==
            if Chain(lib, forged).None? && peer.Some? && InNets(peer.value, trusted) then Err(())
            else Resolved(lib, peer, lines, trusted)
  {
    ChainOfSum(lib, forged, lines);
    if Chain(lib, forged).Some? {
      PrefixIgnored(Chain(lib, forged).value, Chain(lib, lines).value, trusted);
    }
  }

  /** Where the walk ends: everything to the right of that place is trusted. */
  lemma {:induction false} WalkEnd(chain: seq<Ip>, trusted: seq<Net>) returns (k: nat)
    requires chain != []
    ensures k < |chain| && Walk(chain, trusted) == Some(chain[k])
    ensures forall i | k < i < |chain| :: InNets(chain[i], trusted)
    ensures !InNets(chain[k], trusted) || k == 0
  {
    var n := |chain| - 1;
    k := n;
    if n > 0 && InNets(chain[n], trusted) {
      k := WalkEnd(chain[..n], trusted);
      forall i | k < i < |chain| ensures InNets(chain[i], trusted) {
        if i < n { assert chain[..n][i] == chain[i]; }
      }
    }
  }

  /** The answer is never a trusted proxy's address unless the whole chain is trusted. */
  lemma ResolvedIsUntrusted(chain: seq<Ip>, trusted: seq<Net>)
    requires exists ip | ip in chain :: !InNets(ip, trusted)
    ensures Walk(chain, trusted).Some? && !InNets(Walk(chain, trusted).value, trusted)
    ensures exists k | 0 <= k < |chain| ::
              chain[k] == Walk(chain, trusted).value && forall i | k < i < |chain| :: InNets(chain[i], trusted)
  {
    var k := WalkEnd(chain, trusted);
    var j :| 0 <= j < |chain| && !InNets(chain[j], trusted);
    assert chain[k] == Walk(chain, trusted).value;
  }
}
