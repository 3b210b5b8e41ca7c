/** The `action` label of the evaluation metrics: percent codec, fast entity-UID splitter, collisions. */
module MetricLabels {
  import opened Basics
  import opened Strings

  // ----- Percent codec ----------------------------------------------------------------------

  /** `char::is_control`: general category Cc. */
  predicate Control(c: char) {
    c as int < 0x20 || 0x7F <= c as int < 0xA0
  }

  /** What a label component may hold as it is. */
  predicate LabelSafe(c: char) {
    c != '"' && c != '\\' && !Control(c)
  }

  const UPPER_HEX := "0123456789ABCDEF"

  /** A UTF-8 code unit. */
  type Unit = n: nat | n < 256

  /** `write!("%{byte:02X}")`. */
  function PercentByte(b: Unit): string {
    ['%', UPPER_HEX[b / 16], UPPER_HEX[b % 16]]
  }

  /** UTF-8 of the first two ranges; no control character lies beyond them. */
  function Utf8(c: char): seq<Unit>
    requires c as int < 0x800
  {
    var n := c as int;
    if n < 0x80 then [n] else [0xC0 + n / 64, 0x80 + n % 64]
  }

  function PercentAll(bytes: seq<Unit>): string {
    if bytes == [] then "" else PercentAll(bytes[..|bytes| - 1]) + PercentByte(bytes[|bytes| - 1])
  }

  /** Percent signs and unsafe characters are replaced by their percent-encoded UTF-8 bytes. */
  function EncodeChar(c: char): string {
    if LabelSafe(c) && c != '%' then [c] else PercentAll(Utf8(c))
  }

  function Encode(value: string): string {
    Flat(EncodeChar, value)
  }

  lemma PercentAllOf(b: Unit, b': Unit)
    ensures PercentAll([b]) == PercentByte(b)
    ensures PercentAll([b, b']) == PercentByte(b) + PercentByte(b')
  {}

  /** The arms of the character match. */
  method AppendEncoded(before: string, c: char) returns (encoded: string)
    ensures encoded == before + EncodeChar(c)
  {
    if c == '%' {
      PercentAllOf(0x25, 0);
      encoded := before + "%25";
    } else if c == '"' {
      PercentAllOf(0x22, 0);
      encoded := before + "%22";
    } else if c == '\\' {
      PercentAllOf(0x5C, 0);
      encoded := before + "%5C";
    } else if Control(c) {
      encoded := before;
      var bytes := Utf8(c);
      for i := 0 to |bytes|
        invariant encoded == before + PercentAll(bytes[..i])
      {
        assert bytes[..i + 1][..i] == bytes[..i];
        encoded := encoded + PercentByte(bytes[i]);
      }
      assert bytes[..|bytes|] == bytes;
    } else {
      encoded := before + [c];
    }
  }

  /** `encode_metric_label_component`: appends the encoding character by character. */
  method EncodeInto(before: string, value: string) returns (encoded: string)
    ensures encoded == before + Encode(value)
  {
    encoded := before;
    for i := 0 to |value|
      invariant encoded == before + Encode(value[..i])
    {
      FlatNext(EncodeChar, value, i);
      encoded := AppendEncoded(encoded, value[i]);
    }
    assert value[..|value|] == value;
  }

  function HexValue(c: char): Option<nat> {
    if '0' <= c <= '9' then Some(c as int - '0' as int)
    else if 'A' <= c <= 'F' then Some(c as int - 'A' as int + 10)
    else None
  }

  /** A percent-encoded byte at the front. */
  function FrontByte(s: string): (r: Option<nat>)
    ensures r.Some? ==> |s| >= 3 && r.value < 256
  {
    if && |s| >= 3 && s[0] == '%' && HexValue(s[1]).Some? && HexValue(s[2]).Some?
       && HexValue(s[1]).value < 16 && HexValue(s[2]).value < 16
    then Some(16 * HexValue(s[1]).value + HexValue(s[2]).value) else None
  }

  function Prepend(c: char, rest: Option<string>): Option<string> {
    match rest case None => None case Some(text) => Some([c] + text)
  }

  /** An independent percent-decoder: one byte below 0x80, or a two-byte UTF-8 sequence. */
  function Decode(s: string): Option<string> {
    if s == "" then Some("")
    else if s[0] != '%' then Prepend(s[0], Decode(s[1..]))
    else
      match FrontByte(s)
      case None => None
      case Some(b) =>
        if b < 0x80 then Prepend(b as char, Decode(s[3..]))
        else
          match FrontByte(s[3..])
          case None => None
          case Some(b') =>
            if 0xC2 <= b < 0xE0 && 0x80 <= b' < 0xC0
            then Prepend(((b - 0xC0) * 64 + (b' - 0x80)) as char, Decode(s[6..])) else None
  }

  lemma HexValueOfDigit(d: nat)
    requires d < 16
    ensures HexValue(UPPER_HEX[d]) == Some(d)
  {}

  lemma FrontOfPercentByte(b: Unit, rest: string)
    ensures FrontByte(PercentByte(b) + rest) == Some(b)
    ensures (PercentByte(b) + rest)[3..] == rest
  {
    HexValueOfDigit(b / 16);
    HexValueOfDigit(b % 16);
  }

  lemma DecodeOneByte(b: Unit, rest: string)
    requires b < 0x80
    ensures Decode(PercentByte(b) + rest) == Prepend(b as char, Decode(rest))
  {
    FrontOfPercentByte(b, rest);
  }

  lemma DecodeTwoBytes(b: Unit, b': Unit, rest: string)
    requires 0xC2 <= b < 0xE0 && 0x80 <= b' < 0xC0
    ensures Decode(PercentByte(b) + PercentByte(b') + rest)
            == Prepend(((b - 0xC0) * 64 + (b' - 0x80)) as char, Decode(rest))
  {
    var tail := PercentByte(b') + rest;
    var s := PercentByte(b) + tail;
    assert PercentByte(b) + PercentByte(b') + rest == s;
    FrontOfPercentByte(b, tail);
    FrontOfPercentByte(b', rest);
    assert s[6..] == tail[3..] == rest;
  }

  lemma DecodeFirst(c: char, rest: string)
    ensures Decode(EncodeChar(c) + rest) == Prepend(c, Decode(rest))
  {
    var n := c as int;
    if LabelSafe(c) && c != '%' {
      assert (EncodeChar(c) + rest)[1..] == rest;
    } else if n < 0x80 {
      PercentAllOf(n, 0);
      DecodeOneByte(n, rest);
    } else {
      PercentAllOf(0xC0 + n / 64, 0x80 + n % 64);
      assert n / 64 == 2 && n % 64 == n - 0x80;
      DecodeTwoBytes(0xC2, n, rest);
    }
  }

  /** The decoder undoes the encoder on every string. */
  lemma {:induction false} DecodeOfEncode(value: string)
    ensures Decode(Encode(value)) == Some(value)
  {
    if value != "" {
      FlatFirst(EncodeChar, value);
      DecodeOfEncode(value[1..]);
      DecodeFirst(value[0], Encode(value[1..]));
      assert value == [value[0]] + value[1..];
    }
  }

  lemma EncodeInjective(value: string, value': string)
    requires Encode(value) == Encode(value')
    ensures value == value'
  {
    DecodeOfEncode(value);
    DecodeOfEncode(value');
  }

  lemma EncodeCharSafe(c: char)
    ensures forall d | d in EncodeChar(c) :: LabelSafe(d)
  {
    assert forall d: nat | d < 16 :: LabelSafe(UPPER_HEX[d]);
    var n := c as int;
    if !LabelSafe(c) || c == '%' {
      if n < 0x80 { PercentAllOf(n, 0); } else { PercentAllOf(0xC0 + n / 64, 0x80 + n % 64); }
    }
  }

  /** Encoded text has no quote, no backslash and no control character. */
  lemma {:induction false} EncodeSafe(value: string)
    ensures forall d | d in Encode(value) :: LabelSafe(d)
  {
    if value != "" {
      EncodeSafe(value[..|value| - 1]);
      EncodeCharSafe(value[|value| - 1]);
    }
  }

  lemma {:induction false} PercentTriples(bytes: seq<Unit>)
    ensures |PercentAll(bytes)| == 3 * |bytes|
    ensures bytes != [] ==> PercentAll(bytes)[0] == '%'
  {
    if bytes != [] { PercentTriples(bytes[..|bytes| - 1]); }
  }

  /** Which characters stay as they are: space to tilde and everything from U+00A0 on, except quote, percent sign and
      backslash.  Any other becomes one or two percent triples. */
  lemma EscapedExactly(c: char)
    ensures var kept := (0x20 <= c as int <= 0x7E || 0xA0 <= c as int) && c != '"' && c != '%' && c != '\\';
            if kept then EncodeChar(c) == [c]
            else |EncodeChar(c)| == (if c as int < 0x80 then 3 else 6) && EncodeChar(c)[0] == '%'
  {
    if !LabelSafe(c) || c == '%' { PercentTriples(Utf8(c)); }
  }

  // ----- Type names -------------------------------------------------------------------------

  /** `split("::")`. */
  function SplitPath(s: string): (parts: seq<string>)
    ensures parts != []
  {
    if s == "" then [""]
    else if |s| >= 2 && s[0] == ':' && s[1] == ':' then [""] + SplitPath(s[2..])
    else
      var rest := SplitPath(s[1..]);
      [[s[0]] + rest[0]] + rest[1..]
  }

  function JoinPath(parts: seq<string>): string
    requires parts != []
  {
    if |parts| == 1 then parts[0] else parts[0] + "::" + JoinPath(parts[1..])
  }

  predicate IdentChar(c: char) {
    c == '_' || AsciiAlpha(c) || AsciiDigit(c)
  }

  const RESERVED := {"true", "false", "if", "then", "else", "in", "is", "like", "has", "__cedar"}

  predicate Identifier(s: string) {
    s != "" && !AsciiDigit(s[0]) && (forall c | c in s :: IdentChar(c)) && s !in RESERVED
  }

  predicate ValidTypeName(t: string) {
    forall part | part in SplitPath(t) :: Identifier(part)
  }

  lemma {:induction false} JoinOfSplitPath(s: string)
    ensures JoinPath(SplitPath(s)) == s
  {
    if s != "" {
      if |s| >= 2 && s[0] == ':' && s[1] == ':' {
        JoinOfSplitPath(s[2..]);
        assert SplitPath(s)[1..] == SplitPath(s[2..]);
        assert s == "" + "::" + s[2..];
      } else {
        JoinOfSplitPath(s[1..]);
        var rest := SplitPath(s[1..]);
        assert SplitPath(s)[1..] == rest[1..];
        assert s == [s[0]] + s[1..];
      }
    }
  }

  lemma {:induction false} SplitPathAfterName(name: string, tail: string)
    requires ':' !in name && (tail == "" || StartsWithPair(tail))
    ensures SplitPath(name + tail) == if tail == "" then [name] else [name] + SplitPath(tail[2..])
  {
    if name == "" {
      assert name + tail == tail;
    } else {
      assert (name + tail)[1..] == name[1..] + tail;
      SplitPathAfterName(name[1..], tail);
      assert [name[0]] + name[1..] == name;
    }
  }

  predicate StartsWithPair(s: string) {
    |s| >= 2 && s[0] == ':' && s[1] == ':'
  }

  lemma {:induction false} SplitOfJoinPath(parts: seq<string>)
    requires parts != [] && forall p | p in parts :: ':' !in p
    ensures SplitPath(JoinPath(parts)) == parts
  {
    if |parts| == 1 {
      assert JoinPath(parts) == parts[0] + "";
      SplitPathAfterName(parts[0], "");
    } else {
      var tail := "::" + JoinPath(parts[1..]);
      assert JoinPath(parts) == parts[0] + tail && tail[2..] == JoinPath(parts[1..]);
      SplitPathAfterName(parts[0], tail);
      SplitOfJoinPath(parts[1..]);
    }
  }

  /** A valid type name is exactly a path of identifiers. */
  lemma TypeNameIsPath(t: string)
    ensures ValidTypeName(t) <==>
            exists parts: seq<string> ::
              parts != [] && (forall p | p in parts :: Identifier(p)) && JoinPath(parts) == t
  {
    JoinOfSplitPath(t);
    forall parts: seq<string> | parts != [] && (forall p | p in parts :: Identifier(p)) && JoinPath(parts) == t
      ensures ValidTypeName(t)
    {
      forall p | p in parts ensures ':' !in p {
        assert forall c | c in p :: IdentChar(c);
      }
      SplitOfJoinPath(parts);
    }
  }

  // ----- Fast splitter ----------------------------------------------------------------------

  const MARK := "::\""

  predicate MarkAt(s: string, i: nat) {
    i + 3 <= |s| && s[i..i + 3] == MARK
  }

  /** The last mark below `n`, as `rsplit_once` finds it. */
  function LastMark(s: string, n: nat): (r: Option<nat>)
    ensures r.Some? ==> r.value < n && MarkAt(s, r.value) && forall i | r.value < i < n :: !MarkAt(s, i)
    ensures r.None? ==> forall i | 0 <= i < n :: !MarkAt(s, i)
  {
    if n == 0 then None else if MarkAt(s, n - 1) then Some(n - 1) else LastMark(s, n - 1)
  }

  predicate PlainId(id: string) {
    forall c | c in id :: LabelSafe(c)
  }

  /** `simple_entity_uid_parts`. */
  function SimpleParts(action: string): Option<(string, string)> {
    if !EndsWith(action, "\"") then None
    else
      var inner := action[..|action| - 1];
      match LastMark(inner, |inner|)
      case None => None
      case Some(i) =>
        if ValidTypeName(inner[..i]) && PlainId(inner[i + 3..]) then Some((inner[..i], inner[i + 3..])) else None
  }

  function Canonical(typeName: string, id: string): string {
    typeName + MARK + id + "\""
  }

  lemma MarkedOnce(typeName: string, id: string)
    requires PlainId(id)
    ensures var inner := typeName + MARK + id; LastMark(inner, |inner|) == Some(|typeName|)
  {
    var inner := typeName + MARK + id;
    assert inner[|typeName|..|typeName| + 3] == MARK;
    assert MarkAt(inner, |typeName|);
    forall i | |typeName| < i < |inner| ensures !MarkAt(inner, i) {
      if i + 3 <= |inner| {
        assert inner[i..i + 3][2] == inner[i + 2] == id[i - |typeName| - 1];
        assert id[i - |typeName| - 1] in id;
      }
    }
  }

  /** The splitter finds type and id exactly when the input is the canonical form of a valid type name
      and an id with no quote, backslash or control character. */
  lemma SimplePartsExactly(action: string, typeName: string, id: string)
    ensures SimpleParts(action) == Some((typeName, id)) <==>
            action == Canonical(typeName, id) && ValidTypeName(typeName) && PlainId(id)
  {
    if SimpleParts(action) == Some((typeName, id)) {
      var inner := action[..|action| - 1];
      var i := LastMark(inner, |inner|).value;
      assert inner == inner[..i] + inner[i..i + 3] + inner[i + 3..];
      assert action == inner + action[|action| - 1..];
    }
    if action == Canonical(typeName, id) && PlainId(id) {
      var inner := typeName + MARK + id;
      assert action[..|action| - 1] == inner && action[|action| - 1..] == "\"";
      MarkedOnce(typeName, id);
      assert inner[..|typeName|] == typeName && inner[|typeName| + 3..] == id;
    }
  }

  // ----- Labels -----------------------------------------------------------------------------

  function Label(typeName: string, id: string): string {
    typeName + "::" + Encode(id)
  }

  /** `metric_action_id`: the fast split, else Cedar's parser, else the whole text encoded. */
  function MetricActionId(parseUid: string -> Option<(string, string)>, action: string): string {
    match SimpleParts(action)
    case Some((typeName, id)) => Label(typeName, id)
    case None =>
      match parseUid(action)
      case Some((typeName, id)) => Label(typeName, id)
      case None => Encode(action)
  }

  /** With one type name, distinct canonical action ids get distinct labels. */
  lemma SameTypeDistinctLabels(parseUid: string -> Option<(string, string)>, typeName: string, id: string, id': string)
    requires ValidTypeName(typeName) && PlainId(id) && PlainId(id')
    requires MetricActionId(parseUid, Canonical(typeName, id)) == MetricActionId(parseUid, Canonical(typeName, id'))
    ensures id == id'
  {
    SimplePartsExactly(Canonical(typeName, id), typeName, id);
    SimplePartsExactly(Canonical(typeName, id'), typeName, id');
    assert Label(typeName, id)[|typeName| + 2..] == Encode(id) && Label(typeName, id')[|typeName| + 2..] == Encode(id');
    EncodeInjective(id, id');
  }

  predicate Safe(s: string) {
    forall c | c in s :: LabelSafe(c)
  }

  /** Whatever the action, its label has no quote, backslash or control character, if the type names the parser returns
      have none. */
  lemma LabelAlwaysSafe(parseUid: string -> Option<(string, string)>, action: string)
    requires parseUid(action).Some? ==> Safe(parseUid(action).value.0)
    ensures Safe(MetricActionId(parseUid, action))
  {
    if SimpleParts(action).Some? {
      var (typeName, id) := SimpleParts(action).value;
      SimplePartsExactly(action, typeName, id);
      NameCharacters(typeName);
      EncodeSafe(id);
    } else if parseUid(action).Some? {
      EncodeSafe(parseUid(action).value.1);
    } else {
      EncodeSafe(action);
    }
  }

  /** Off the fast path the parser's type and id make the label, the id readable back; text that is no entity id at
      all is its own label, readable back. */
  lemma SlowPathLabels(parseUid: string -> Option<(string, string)>, action: string)
    requires SimpleParts(action).None?
    ensures match parseUid(action)
            case Some((typeName, id)) =>
              var text := MetricActionId(parseUid, action);
              && |text| >= |typeName| + 2 && text[..|typeName| + 2] == typeName + "::"
              && Decode(text[|typeName| + 2..]) == Some(id)
            case None => Decode(MetricActionId(parseUid, action)) == Some(action)
  {
    if parseUid(action).Some? {
      var (typeName, id) := parseUid(action).value;
      assert Label(typeName, id)[|typeName| + 2..] == Encode(id);
      DecodeOfEncode(id);
    } else {
      DecodeOfEncode(action);
    }
  }

  /** The ten words no component of a type name may be, and the shape of the others. */
  lemma IdentifierExactly(s: string)
    ensures s in {"true", "false", "if", "then", "else", "in", "is", "like", "has", "__cedar"} ==> !Identifier(s)
    ensures s !in {"true", "false", "if", "then", "else", "in", "is", "like", "has", "__cedar"} ==>
              (Identifier(s) <==>
               && s != "" && (s[0] == '_' || AsciiAlpha(s[0]))
               && forall i | 0 <= i < |s| :: s[i] == '_' || AsciiAlpha(s[i]) || AsciiDigit(s[i]))
  {
    if s != "" { assert s[0] in s; }
    assert forall i | 0 <= i < |s| :: s[i] in s;
  }

  lemma {:induction false} EncodePlain(value: string)
    requires forall c | c in value :: LabelSafe(c) && c != '%'
    ensures Encode(value) == value
  {
    if value != "" {
      var n := |value| - 1;
      EncodePlain(value[..n]);
      assert value[n] in value;
      assert value == value[..n] + [value[n]];
    }
  }

  /** A path of identifiers has only identifier characters and colons, and does not end in a colon. */
  lemma {:induction false} PathCharacters(parts: seq<string>)
    requires parts != [] && forall p | p in parts :: Identifier(p)
    ensures var t := JoinPath(parts); t != "" && t[|t| - 1] != ':' && forall c | c in t :: c == ':' || IdentChar(c)
  {
    assert Identifier(parts[0]);
    if |parts| == 1 {
      assert parts[0][|parts[0]| - 1] in parts[0];
    } else {
      PathCharacters(parts[1..]);
      var rest := JoinPath(parts[1..]);
      assert JoinPath(parts) == (parts[0] + "::") + rest;
    }
  }

  lemma NameCharacters(t: string)
    requires ValidTypeName(t)
    ensures t != "" && t[|t| - 1] != ':' && forall c | c in t :: c == ':' || IdentChar(c)
  {
    JoinOfSplitPath(t);
    PathCharacters(SplitPath(t));
  }

  /** `longer` continues `shorter` by a path, and the id under `shorter` starts with that path. */
  predicate PathMovedIntoId(shorter: string, id: string, longer: string, id': string) {
    |longer| >= |shorter| + 2 && longer[..|shorter| + 2] == shorter + "::" && id == longer[|shorter| + 2..] + "::" + id'
  }

  lemma MovedPathCollides(shorter: string, id: string, longer: string, id': string)
    requires ValidTypeName(longer) && PathMovedIntoId(shorter, id, longer, id')
    ensures Label(shorter, id) == Label(longer, id')
  {
    var path := longer[|shorter| + 2..];
    NameCharacters(longer);
    forall c | c in path + "::" ensures LabelSafe(c) && c != '%' {
      assert c == ':' || c in longer;
    }
    EncodePlain(path + "::");
    FlatOfSum(EncodeChar, path + "::", id');
    assert longer == shorter + "::" + path;
  }

  lemma CollisionMovesPath(shorter: string, id: string, longer: string, id': string)
    requires ValidTypeName(shorter) && ValidTypeName(longer) && |shorter| < |longer|
    requires Label(shorter, id) == Label(longer, id')
    ensures PathMovedIntoId(shorter, id, longer, id')
  {
    var text := Label(shorter, id);
    assert text == Label(longer, id');
    var n := |shorter|;
    NameCharacters(longer);
    assert text[n] == longer[n] == ':';
    assert |longer| >= n + 2;
    assert text[n + 1] == longer[n + 1] == ':';
    assert longer[..n + 2] == text[..n + 2] == shorter + "::";
    var path := longer[n + 2..];
    var moved := path + "::" + id';
    assert PathMovedIntoId(shorter, moved, longer, id');
    MovedPathCollides(shorter, moved, longer, id');
    assert Label(shorter, id)[n + 2..] == Encode(id) && Label(shorter, moved)[n + 2..] == Encode(moved);
    EncodeInjective(id, moved);
  }

  /** Two actions of different types share a label exactly when the id under the shorter type name starts with
      the rest of the longer type name, followed by `::`. */
  lemma TypesCollideExactly(shorter: string, id: string, longer: string, id': string)
    requires ValidTypeName(shorter) && ValidTypeName(longer) && |shorter| < |longer|
    ensures Label(shorter, id) == Label(longer, id') <==> PathMovedIntoId(shorter, id, longer, id')
  {
    if Label(shorter, id) == Label(longer, id') {
      CollisionMovesPath(shorter, id, longer, id');
    } else if PathMovedIntoId(shorter, id, longer, id') {
      MovedPathCollides(shorter, id, longer, id');
    }
  }

  lemma FastLabel(parseUid: string -> Option<(string, string)>, typeName: string, id: string)
    requires ValidTypeName(typeName) && PlainId(id)
    ensures MetricActionId(parseUid, Canonical(typeName, id)) == Label(typeName, id)
  {
    SimplePartsExactly(Canonical(typeName, id), typeName, id);
  }

  predicate HasPair(s: string) {
    exists i :: 0 <= i < |s| - 1 && s[i] == ':' && s[i + 1] == ':'
  }

  lemma MovedIdHasPair(shorter: string, id: string, longer: string, id': string)
    requires PathMovedIntoId(shorter, id, longer, id')
    ensures HasPair(id)
  {
    var k := |longer| - |shorter| - 2;
    assert id[k] == ':' && id[k + 1] == ':';
  }

  /** Canonical actions whose ids hold no `::` have labels of their own. */
  lemma DistinctLabels(parseUid: string -> Option<(string, string)>, typeName: string, id: string, typeName': string,
                       id': string)
    requires ValidTypeName(typeName) && ValidTypeName(typeName') && PlainId(id) && PlainId(id')
    requires !HasPair(id) && !HasPair(id')
    requires MetricActionId(parseUid, Canonical(typeName, id)) == MetricActionId(parseUid, Canonical(typeName', id'))
    ensures typeName == typeName' && id == id'
  {
    FastLabel(parseUid, typeName, id);
    FastLabel(parseUid, typeName', id');
    if |typeName| < |typeName'| {
      CollisionMovesPath(typeName, id, typeName', id');
      MovedIdHasPair(typeName, id, typeName', id');
    } else if |typeName'| < |typeName| {
      CollisionMovesPath(typeName', id', typeName, id);
      MovedIdHasPair(typeName', id', typeName, id);
    } else {
      assert Label(typeName, id)[..|typeName|] == typeName && Label(typeName', id')[..|typeName'|] == typeName';
      SameTypeDistinctLabels(parseUid, typeName, id, id');
    }
  }

  lemma ShortNames()
    ensures ValidTypeName("A") && ValidTypeName("A::B")
  {
    assert Identifier("A") && Identifier("B");
    TypeNameIsPath("A");
    assert JoinPath(["A"]) == "A";
    TypeNameIsPath("A::B");
    assert ["A", "B"][1..] == ["B"];
    assert JoinPath(["A", "B"]) == "A::B";
  }

  /** Two canonical actions of different types with one label. */
  lemma {:induction false} TypesMayCollide(parseUid: string -> Option<(string, string)>)
    ensures MetricActionId(parseUid, Canonical("A", "B::c")) == MetricActionId(parseUid, Canonical("A::B", "c"))
  {
    ShortNames();
    FastLabel(parseUid, "A", "B::c");
    FastLabel(parseUid, "A::B", "c");
    MovedPathCollides("A", "B::c", "A::B", "c");
  }
}
