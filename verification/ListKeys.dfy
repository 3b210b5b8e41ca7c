/** Normalisation of the group and namespace filters into a cache key. */
module ListKeys {
  import opened Engines

  /** `String` order: byte order, which on UTF-8 is code-point order. */
  predicate Leq(a: string, b: string) {
    a == [] || (b != [] && (a[0] < b[0] || (a[0] == b[0] && Leq(a[1..], b[1..]))))
  }

  lemma LeqAntisymmetric(a: string, b: string)
    requires Leq(a, b) && Leq(b, a)
    ensures a == b
  {}

  lemma LeqTransitive(a: string, b: string, c: string)
    requires Leq(a, b) && Leq(b, c)
    ensures Leq(a, c)
  {}

  lemma LeqTotal(a: string, b: string)
    ensures Leq(a, b) || Leq(b, a)
  {}

  ghost predicate Sorted(s: seq<string>) {
    forall i, j | 0 <= i < j < |s| :: Leq(s[i], s[j])
  }

  ghost predicate StrictlySorted(s: seq<string>) {
    forall i, j | 0 <= i < j < |s| :: Leq(s[i], s[j]) && s[i] != s[j]
  }

  ghost function Members(s: seq<string>): set<string> {
    set x | x in s
  }

  /** `dedup`: of each run of equal neighbours the first is kept. */
  function Dedup(s: seq<string>): (r: seq<string>)
    ensures forall x :: x in r <==> x in s
    ensures s != [] ==> r != [] && r[0] == s[0]
  {
    if |s| <= 1 then s
    else if s[0] == s[1] then Dedup(s[1..])
    else [s[0]] + Dedup(s[1..])
  }

  lemma {:induction false} DedupStrictlySorts(s: seq<string>)
    requires Sorted(s)
    ensures StrictlySorted(Dedup(s))
  {
    if |s| > 1 {
      DedupStrictlySorts(s[1..]);
      if s[0] != s[1] {
        var rest := Dedup(s[1..]);
        forall j | 0 <= j < |rest| ensures Leq(s[0], rest[j]) && s[0] != rest[j] {
          assert rest[j] in s[1..];
          var k :| 0 <= k < |s[1..]| && s[1..][k] == rest[j];
          assert Leq(s[0], s[k + 1]) && Leq(s[0], s[1]);
          if rest[j] == s[0] {
            assert k > 0 ==> Leq(s[1], s[k + 1]);
            LeqAntisymmetric(s[0], s[1]);
          }
        }
      }
    }
  }

  lemma DedupMembers(s: seq<string>)
    ensures Members(Dedup(s)) == Members(s)
  {}

  /** A strictly sorted sequence is determined by its members. */
  lemma {:induction false} StrictlySortedUnique(s: seq<string>, t: seq<string>)
    requires StrictlySorted(s) && StrictlySorted(t) && Members(s) == Members(t)
    ensures s == t
  {
    NoMembers(s);
    NoMembers(t);
    if s != [] {
      assert s[0] in Members(t) && t[0] in Members(s);
      var i :| 0 <= i < |t| && t[i] == s[0];
      var j :| 0 <= j < |s| && s[j] == t[0];
      if s[0] != t[0] {
        assert Leq(t[0], t[i]) && Leq(s[0], s[j]);
        LeqAntisymmetric(s[0], t[0]);
      }
      TailMembers(s);
      TailMembers(t);
      StrictlySortedUnique(s[1..], t[1..]);
      assert s == [s[0]] + s[1..] && t == [t[0]] + t[1..];
    }
  }

  lemma NoMembers(s: seq<string>)
    ensures s == [] <==> Members(s) == {}
  {
    if s != [] { assert s[0] in Members(s); }
  }

  lemma TailMembers(s: seq<string>)
    requires StrictlySorted(s) && s != []
    ensures Members(s[1..]) == Members(s) - {s[0]}
  {}

  function Insert(x: string, s: seq<string>): (r: seq<string>)
    ensures multiset(r) == multiset(s) + multiset{x}
  {
    if s == [] then [x]
    else if Leq(x, s[0]) then [x] + s
    else
      assert s == [s[0]] + s[1..];
      [s[0]] + Insert(x, s[1..])
  }

  /** A sort; the key below is the same for every sort of the same filters (`NormalizeAnySort`). */
  function Sort(s: seq<string>): (r: seq<string>)
    ensures multiset(r) == multiset(s)
  {
    if s == [] then []
    else
      assert s == [s[0]] + s[1..];
      Insert(s[0], Sort(s[1..]))
  }

  lemma {:induction false} InsertSorts(x: string, s: seq<string>)
    requires Sorted(s)
    ensures Sorted(Insert(x, s))
  {
    if s != [] {
      LeqTotal(x, s[0]);
      if Leq(x, s[0]) {
        forall j | 0 <= j < |s| ensures Leq(x, s[j]) {
          if j > 0 { LeqTransitive(x, s[0], s[j]); }
        }
      } else {
        InsertSorts(x, s[1..]);
        var rest := Insert(x, s[1..]);
        forall j | 0 <= j < |rest| ensures Leq(s[0], rest[j]) {
          assert rest[j] in multiset(rest);
          assert rest[j] == x || rest[j] in s[1..];
        }
      }
    }
  }

  lemma {:induction false} SortSorts(s: seq<string>)
    ensures Sorted(Sort(s))
    ensures Members(Sort(s)) == Members(s)
  {
    if s != [] {
      SortSorts(s[1..]);
      InsertSorts(s[0], Sort(s[1..]));
    }
    SameElements(Sort(s), s);
  }

  lemma SameElements(s: seq<string>, t: seq<string>)
    requires multiset(s) == multiset(t)
    ensures Members(s) == Members(t)
  {
    forall x ensures x in s <==> x in t {
      assert x in s <==> x in multiset(s);
      assert x in t <==> x in multiset(t);
    }
  }

  function Normalize(filters: seq<string>): seq<string> {
    Dedup(Sort(filters))
  }

  function NewKey(user: string, groups: seq<string>, namespaces: seq<string>): ListKey {
    ListKey(user, Normalize(groups), Normalize(namespaces))
  }

  /** Any sort of the filters, followed by `dedup`, gives the normal form. */
  lemma NormalizeAnySort(filters: seq<string>, sorted: seq<string>)
    requires Sorted(sorted) && multiset(sorted) == multiset(filters)
    ensures Dedup(sorted) == Normalize(filters)
  {
    NormalForm(filters);
    SortSorts(filters);
    SameElements(sorted, filters);
    DedupMembers(sorted);
    DedupStrictlySorts(sorted);
    StrictlySortedUnique(Dedup(sorted), Normalize(filters));
  }

  lemma NormalForm(filters: seq<string>)
    ensures StrictlySorted(Normalize(filters)) && Members(Normalize(filters)) == Members(filters)
  {
    SortSorts(filters);
    DedupStrictlySorts(Sort(filters));
    DedupMembers(Sort(filters));
  }

  /** Two requests share a cache key exactly when user, group set and namespace set agree. */
  lemma KeyIsCanonical(user: string, groups: seq<string>, namespaces: seq<string>,
                       user': string, groups': seq<string>, namespaces': seq<string>)
    ensures NewKey(user, groups, namespaces) == NewKey(user', groups', namespaces') <==>
            user == user' && Members(groups) == Members(groups') && Members(namespaces) == Members(namespaces')
  {
    NormalForm(groups);
    NormalForm(groups');
    NormalForm(namespaces);
    NormalForm(namespaces');
    if Members(groups) == Members(groups') && Members(namespaces) == Members(namespaces') {
      StrictlySortedUnique(Normalize(groups), Normalize(groups'));
      StrictlySortedUnique(Normalize(namespaces), Normalize(namespaces'));
    }
  }

  /** A key asks for this user with exactly these groups and these namespaces, each in order and without repetition. */
  ghost predicate AsksFor(k: ListKey, user: string, groups: seq<string>, namespaces: seq<string>) {
    && k.user == user
    && StrictlySorted(k.groups) && Members(k.groups) == Members(groups)
    && StrictlySorted(k.namespaces) && Members(k.namespaces) == Members(namespaces)
  }

  /** The key of a request is the one key that asks for what the request asked for. */
  lemma KeyAsksForRequest(user: string, groups: seq<string>, namespaces: seq<string>, k: ListKey)
    ensures AsksFor(k, user, groups, namespaces) <==> k == NewKey(user, groups, namespaces)
  {
    NormalForm(groups);
    NormalForm(namespaces);
    if AsksFor(k, user, groups, namespaces) {
      StrictlySortedUnique(k.groups, Normalize(groups));
      StrictlySortedUnique(k.namespaces, Normalize(namespaces));
    }
  }
}
