/** The string operations of Rust's standard library that the source uses, with their laws. */
module Strings {
  import opened Basics

  /** `str::split(sep)`: the pieces between separators. */
  function Split(s: string, sep: char): (parts: seq<string>)
    ensures parts != []
  {
    if s == "" then [""]
    else
      var rest := Split(s[1..], sep);
      if s[0] == sep then [""] + rest else [[s[0]] + rest[0]] + rest[1..]
  }

  function Join(parts: seq<string>, sep: char): string {
    if parts == [] then ""
    else if |parts| == 1 then parts[0]
    else parts[0] + [sep] + Join(parts[1..], sep)
  }

  lemma {:induction false} SplitAtSeparator(a: string, b: string, sep: char)
    ensures Split(a + [sep] + b, sep) == Split(a, sep) + Split(b, sep)
  {
    if a == "" {
      assert (a + [sep] + b)[1..] == b;
    } else {
      SplitAtSeparator(a[1..], b, sep);
      SplitStep(a, sep);
      SplitStep(a + [sep] + b, sep);
      assert (a + [sep] + b)[1..] == a[1..] + [sep] + b;
      StepOfSum(a[0], Split(a[1..], sep), Split(b, sep), sep);
    }
  }

  /** One more character in front of a split string. */
  function Step(c: char, rest: seq<string>, sep: char): seq<string>
    requires rest != []
  {
    if c == sep then [""] + rest else [[c] + rest[0]] + rest[1..]
  }

  lemma SplitStep(s: string, sep: char)
    requires s != ""
    ensures Split(s, sep) == Step(s[0], Split(s[1..], sep), sep)
  {}

  lemma StepOfSum(c: char, rest: seq<string>, tail: seq<string>, sep: char)
    requires rest != []
    ensures Step(c, rest + tail, sep) == Step(c, rest, sep) + tail
  {}

  lemma {:induction false} SplitWithoutSeparator(s: string, sep: char)
    requires sep !in s
    ensures Split(s, sep) == [s]
  {
    if s != "" {
      SplitWithoutSeparator(s[1..], sep);
      assert [s[0]] + s[1..] == s;
    }
  }

  lemma {:induction false} JoinOfSplit(s: string, sep: char)
    ensures Join(Split(s, sep), sep) == s
  {
    if s != "" {
      JoinOfSplit(s[1..], sep);
      var rest := Split(s[1..], sep);
      if s[0] == sep {
        assert ([""] + rest)[1..] == rest;
      } else {
        var parts := [[s[0]] + rest[0]] + rest[1..];
        assert parts[1..] == rest[1..];
      }
    }
  }

  /** Unicode White_Space, as `char::is_whitespace`. */
  predicate White(c: char) {
    || '\t' <= c <= '\r' || c == ' ' || c == '\U{85}' || c == '\U{A0}' || c == '\U{1680}'
    || '\U{2000}' <= c <= '\U{200A}' || c == '\U{2028}' || c == '\U{2029}' || c == '\U{202F}'
    || c == '\U{205F}' || c == '\U{3000}'
  }

  function TrimStart(s: string): string {
    if s != "" && White(s[0]) then TrimStart(s[1..]) else s
  }

  function TrimEnd(s: string): string {
    if s != "" && White(s[|s| - 1]) then TrimEnd(s[..|s| - 1]) else s
  }

  function Trim(s: string): string {
    TrimEnd(TrimStart(s))
  }

  predicate Blank(s: string) {
    forall c | c in s :: White(c)
  }

  /** The twenty-five code points of White_Space. */
  lemma WhiteExactly(c: char)
    ensures White(c) <==>
            c as int in [9, 10, 11, 12, 13, 0x20, 0x85, 0xA0, 0x1680, 0x2000, 0x2001, 0x2002, 0x2003, 0x2004, 0x2005,
                         0x2006, 0x2007, 0x2008, 0x2009, 0x200A, 0x2028, 0x2029, 0x202F, 0x205F, 0x3000]
  {}

  lemma {:induction false} TrimStartOf(blank: string, s: string)
    requires Blank(blank) && (s != "" ==> !White(s[0]))
    ensures TrimStart(blank + s) == s
  {
    if blank == "" {
      assert blank + s == s;
    } else {
      assert White(blank[0]);
      assert (blank + s)[1..] == blank[1..] + s;
      TrimStartOf(blank[1..], s);
    }
  }

  lemma {:induction false} TrimEndOf(s: string, blank: string)
    requires Blank(blank) && (s != "" ==> !White(s[|s| - 1]))
    ensures TrimEnd(s + blank) == s
  {
    if blank == "" {
      assert s + blank == s;
    } else {
      var n := |blank| - 1;
      assert White(blank[n]);
      assert (s + blank)[..|s| + n] == s + blank[..n];
      TrimEndOf(s, blank[..n]);
    }
  }

  /** Blanks around a text that neither starts nor ends blank are all that trimming takes away. */
  lemma TrimExactly(before: string, s: string, after: string)
    requires Blank(before) && Blank(after) && (s != "" ==> !White(s[0]) && !White(s[|s| - 1]))
    ensures Trim(before + s + after) == s
  {
    if s == "" {
      assert before + s + after == (before + after) + "";
      TrimStartOf(before + after, "");
    } else {
      assert before + s + after == before + (s + after);
      TrimStartOf(before, s + after);
      TrimEndOf(s, after);
    }
  }

  lemma {:induction false} TrimEndKeeps(s: string)
    ensures TrimEnd(s) == "" ==> Blank(s)
  {
    if s != "" && White(s[|s| - 1]) {
      TrimEndKeeps(s[..|s| - 1]);
    }
  }

  lemma {:induction false} TrimStartNotBlank(s: string)
    requires !Blank(s)
    ensures !Blank(TrimStart(s))
  {
    if White(s[0]) {
      assert !Blank(s[1..]);
      TrimStartNotBlank(s[1..]);
    }
  }

  /** Only blank text is trimmed away altogether. */
  lemma TrimKeepsText(s: string)
    requires !Blank(s)
    ensures Trim(s) != ""
  {
    TrimStartNotBlank(s);
    TrimEndKeeps(TrimStart(s));
  }

  predicate StartsWith(s: string, prefix: string) {
    prefix <= s
  }

  predicate EndsWith(s: string, suffix: string) {
    |suffix| <= |s| && s[|s| - |suffix|..] == suffix
  }

  /** `split_once(sep)`: around the first separator. */
  function SplitOnce(s: string, sep: char): (r: Option<(string, string)>)
    ensures r.Some? ==> s == r.value.0 + [sep] + r.value.1 && sep !in r.value.0
    ensures r.None? ==> sep !in s
  {
    if s == "" then None
    else if s[0] == sep then Some(("", s[1..]))
    else
      match SplitOnce(s[1..], sep)
      case None => None
      case Some((a, b)) => Some(([s[0]] + a, b))
  }

  /** Only one split leaves no separator on the left. */
  lemma {:induction false} SplitOnceUnique(a: string, b: string, sep: char)
    requires sep !in a
    ensures SplitOnce(a + [sep] + b, sep) == Some((a, b))
  {
    var s := a + [sep] + b;
    if a == "" {
      assert s[1..] == b;
    } else {
      assert s[1..] == a[1..] + [sep] + b;
      SplitOnceUnique(a[1..], b, sep);
      assert [a[0]] + a[1..] == a;
    }
  }

  /** Only one split leaves no separator on the right. */
  lemma LastSplitUnique(a: string, b: string, a': string, b': string, sep: char)
    requires a + [sep] + b == a' + [sep] + b' && sep !in b && sep !in b'
    ensures a == a' && b == b'
  {
    var s := a + [sep] + b;
    assert s == a' + [sep] + b';
    assert s[|a|] == sep && s[|a'|] == sep;
    assert forall i | |a| < i < |s| :: s[i] == b[i - |a| - 1];
    assert forall i | |a'| < i < |s| :: s[i] == b'[i - |a'| - 1];
    assert s[..|a|] == a && s[..|a'|] == a' && s[|a| + 1..] == b && s[|a'| + 1..] == b';
  }

  /** A join cut after some of its pieces. */
  lemma {:induction false} JoinOfSum(front: seq<string>, back: seq<string>, sep: char)
    requires front != [] && back != []
    ensures Join(front + back, sep) == Join(front, sep) + [sep] + Join(back, sep)
  {
    assert (front + back)[1..] == front[1..] + back;
    if |front| == 1 {
      assert front[1..] + back == back;
    } else {
      JoinOfSum(front[1..], back, sep);
    }
  }

  lemma JoinLastTwo(front: seq<string>, a: string, b: string, sep: char)
    requires front != []
    ensures Join(front + [a, b], sep) == Join(front, sep) + [sep] + a + [sep] + b
  {
    JoinOfSum(front, [a, b], sep);
    assert [a, b][1..] == [b];
    assert Join([a, b], sep) == a + [sep] + b;
    assert Join(front, sep) + [sep] + (a + [sep] + b) == Join(front, sep) + [sep] + a + [sep] + b;
  }

  /** A split string without its last two pieces. */
  lemma LastTwoPieces(s: string, sep: char)
    requires |Split(s, sep)| >= 3
    ensures var parts := Split(s, sep);
            var n := |parts|;
            s == Join(parts[..n - 2], sep) + [sep] + parts[n - 2] + [sep] + parts[n - 1]
  {
    var parts := Split(s, sep);
    var n := |parts|;
    JoinOfSplit(s, sep);
    assert parts == parts[..n - 2] + [parts[n - 2], parts[n - 1]];
    JoinLastTwo(parts[..n - 2], parts[n - 2], parts[n - 1], sep);
  }

  function LowerAscii(c: char): char {
    if 'A' <= c <= 'Z' then (c as int + 32) as char else c
  }

  /** `eq_ignore_ascii_case`. */
  predicate EqIgnoreAsciiCase(a: string, b: string) {
    |a| == |b| && forall i | 0 <= i < |a| :: LowerAscii(a[i]) == LowerAscii(b[i])
  }

  /** Two characters are the same but for case exactly if they are equal or an ASCII letter and its other case. */
  lemma SameButCase(c: char, d: char)
    ensures LowerAscii(c) == LowerAscii(d) <==>
            || c == d
            || (AsciiAlpha(c) && AsciiAlpha(d) && (c as int - d as int == 32 || d as int - c as int == 32))
  {}

  predicate AsciiDigit(c: char) {
    '0' <= c <= '9'
  }

  predicate AsciiAlpha(c: char) {
    'a' <= c <= 'z' || 'A' <= c <= 'Z'
  }

  /** Every character replaced by a string, in order. */
  function Flat(f: char -> string, s: string): string {
    if s == "" then "" else Flat(f, s[..|s| - 1]) + f(s[|s| - 1])
  }

  lemma FlatNext(f: char -> string, s: string, i: nat)
    requires i < |s|
    ensures Flat(f, s[..i + 1]) == Flat(f, s[..i]) + f(s[i])
  {
    assert s[..i + 1][..i] == s[..i];
  }

  lemma {:induction false} FlatOfSum(f: char -> string, a: string, b: string)
    ensures Flat(f, a + b) == Flat(f, a) + Flat(f, b)
  {
    if b == "" {
      assert a + b == a;
    } else {
      var n := |b| - 1;
      var s := a + b;
      FlatOfSum(f, a, b[..n]);
      assert s[..|s| - 1] == a + b[..n] && s[|s| - 1] == b[n];
      assert Flat(f, s) == Flat(f, a) + Flat(f, b[..n]) + f(b[n]);
    }
  }

  lemma {:induction false} FlatFirst(f: char -> string, s: string)
    requires s != ""
    ensures Flat(f, s) == f(s[0]) + Flat(f, s[1..])
  {
    FlatOfSum(f, [s[0]], s[1..]);
    assert s == [s[0]] + s[1..];
    assert Flat(f, [s[0]]) == "" + f(s[0]);
  }
}
