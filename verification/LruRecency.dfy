/** The bounded cache holds the most recently used keys, in order of use. */
module LruRecency {
  import opened Basics
  import opened Engines
  import opened Lru
  import StoreSpec

  function KeysOf<K, V>(c: Cache<K, V>): seq<K> {
    if c == [] then [] else [c[0].0] + KeysOf(c[1..])
  }

  function Drop<K(==)>(keys: seq<K>, k: K): seq<K> {
    if keys == [] then [] else if keys[0] == k then Drop(keys[1..], k) else [keys[0]] + Drop(keys[1..], k)
  }

  function Take<K>(keys: seq<K>, n: nat): seq<K> {
    if keys == [] || n == 0 then [] else [keys[0]] + Take(keys[1..], n - 1)
  }

  /** The distinct keys of a history of uses, the last used first. */
  function Recent<K(==)>(uses: seq<K>): seq<K> {
    if uses == [] then []
    else [uses[|uses| - 1]] + Drop(Recent(uses[..|uses| - 1]), uses[|uses| - 1])
  }

  /** One use: a hit is touched, a miss is put. */
  function Use<K(==), V>(c: Cache<K, V>, k: K, v: V, limit: nat): Cache<K, V>
    requires limit > 0
  {
    if Lookup(c, k).Some? then Touch(c, k) else Put(c, k, v, limit)
  }

  function UseAll<K(==), V>(uses: seq<(K, V)>, limit: nat): Cache<K, V>
    requires limit > 0
  {
    if uses == [] then []
    else Use(UseAll(uses[..|uses| - 1], limit), uses[|uses| - 1].0, uses[|uses| - 1].1, limit)
  }

  // ----- Keys of a cache --------------------------------------------------------------------

  lemma {:induction false} KeysFront<K, V>(e: (K, V), c: Cache<K, V>)
    ensures KeysOf([e] + c) == [e.0] + KeysOf(c)
  {
    assert ([e] + c)[1..] == c;
  }

  lemma {:induction false} KeysOfWithout<K, V>(c: Cache<K, V>, k: K)
    ensures KeysOf(Without(c, k)) == Drop(KeysOf(c), k)
  {
    if c != [] {
      KeysOfWithout(c[1..], k);
      KeysFront(c[0], Without(c[1..], k));
      assert KeysOf(c)[1..] == KeysOf(c[1..]);
    }
  }

  lemma {:induction false} KeysOfCrop<K, V>(c: Cache<K, V>, limit: nat)
    requires limit > 0
    ensures KeysOf(Crop(c, limit)) == Take(KeysOf(c), limit - 1)
  {
    if c != [] && limit > 1 {
      KeysOfCrop(c[1..], limit - 1);
      KeysFront(c[0], Crop(c[1..], limit - 1));
      assert KeysOf(c)[1..] == KeysOf(c[1..]);
    }
  }

  lemma {:induction false} LookupIsMembership<K, V>(c: Cache<K, V>, k: K)
    ensures Lookup(c, k).Some? <==> k in KeysOf(c)
  {
    if c != [] {
      LookupIsMembership(c[1..], k);
    }
  }

  // ----- Taking and dropping ----------------------------------------------------------------

  predicate Once<K(==)>(keys: seq<K>) {
    keys != [] ==> keys[0] !in keys[1..] && Once(keys[1..])
  }

  lemma {:induction false} DropAbsent<K>(keys: seq<K>, k: K)
    requires k !in keys
    ensures Drop(keys, k) == keys
  {
    if keys != [] {
      DropAbsent(keys[1..], k);
    }
  }

  lemma {:induction false} DropOnce<K>(keys: seq<K>, k: K)
    requires Once(keys)
    ensures Once(Drop(keys, k)) && k !in Drop(keys, k) && forall x | x in Drop(keys, k) :: x in keys
  {
    if keys != [] {
      DropOnce(keys[1..], k);
      if keys[0] != k {
        assert Drop(keys, k)[1..] == Drop(keys[1..], k);
      }
    }
  }

  lemma {:induction false} RecentOnce<K>(uses: seq<K>)
    ensures Once(Recent(uses))
  {
    if uses != [] {
      var n := |uses| - 1;
      RecentOnce(uses[..n]);
      DropOnce(Recent(uses[..n]), uses[n]);
      assert Recent(uses)[1..] == Drop(Recent(uses[..n]), uses[n]);
    }
  }

  lemma {:induction false} TakeWithin<K>(keys: seq<K>, n: nat)
    ensures forall x | x in Take(keys, n) :: x in keys
  {
    if keys != [] && n > 0 {
      TakeWithin(keys[1..], n - 1);
    }
  }

  /** Dropping a key that is among the first n moves the rest up by one. */
  lemma {:induction false} TakeOfDropPresent<K>(keys: seq<K>, k: K, n: nat)
    requires Once(keys) && n > 0 && k in Take(keys, n)
    ensures Take(Drop(keys, k), n - 1) == Drop(Take(keys, n), k)
  {
    var rest := keys[1..];
    assert Take(keys, n)[1..] == Take(rest, n - 1);
    if keys[0] == k {
      DropAbsent(rest, k);
      TakeWithin(rest, n - 1);
      DropAbsent(Take(rest, n - 1), k);
    } else {
      assert k in Take(rest, n - 1);
      assert n > 1;
      TakeOfDropPresent(rest, k, n - 1);
      assert Drop(keys, k)[1..] == Drop(rest, k);
    }
  }

  /** Dropping a key that is not among the first n leaves them as they are. */
  lemma {:induction false} TakeOfDropAbsent<K>(keys: seq<K>, k: K, n: nat)
    requires k !in Take(keys, n)
    ensures Take(Drop(keys, k), n) == Take(keys, n)
  {
    if keys != [] && n > 0 {
      assert Take(keys, n)[1..] == Take(keys[1..], n - 1);
      TakeOfDropAbsent(keys[1..], k, n - 1);
      assert Drop(keys, k)[1..] == Drop(keys[1..], k);
    }
  }

  lemma {:induction false} TakeOfTake<K>(keys: seq<K>, m: nat, n: nat)
    requires m <= n
    ensures Take(Take(keys, n), m) == Take(keys, m)
  {
    if keys != [] && m > 0 {
      assert Take(keys, n)[1..] == Take(keys[1..], n - 1);
      TakeOfTake(keys[1..], m - 1, n - 1);
    }
  }

  // ----- Recency ----------------------------------------------------------------------------

  lemma TakeFront<K>(k: K, keys: seq<K>, n: nat)
    requires n > 0
    ensures Take([k] + keys, n) == [k] + Take(keys, n - 1)
  {
    assert ([k] + keys)[1..] == keys;
  }

  lemma TouchMovesToFront<K, V>(c: Cache<K, V>, keys: seq<K>, k: K, limit: nat)
    requires limit > 0 && Once(keys) && KeysOf(c) == Take(keys, limit) && k in KeysOf(c)
    ensures KeysOf(Touch(c, k)) == [k] + Take(Drop(keys, k), limit - 1)
  {
    LookupIsMembership(c, k);
    KeysOfWithout(c, k);
    TakeOfDropPresent(keys, k, limit);
    KeysFront((k, Lookup(c, k).value), Without(c, k));
  }

  lemma PutMovesToFront<K, V>(c: Cache<K, V>, keys: seq<K>, k: K, v: V, limit: nat)
    requires limit > 0 && KeysOf(c) == Take(keys, limit) && k !in KeysOf(c)
    ensures KeysOf(Put(c, k, v, limit)) == [k] + Take(Drop(keys, k), limit - 1)
  {
    KeysOfWithout(c, k);
    DropAbsent(KeysOf(c), k);
    KeysOfCrop(Without(c, k), limit);
    KeysFront((k, v), Crop(Without(c, k), limit));
    TakeOfTake(keys, limit - 1, limit);
    TakeOfDropAbsent(keys, k, limit);
    TakeOfTake(Drop(keys, k), limit - 1, limit);
  }

  lemma UseMovesToFront<K, V>(c: Cache<K, V>, keys: seq<K>, k: K, v: V, limit: nat)
    requires limit > 0 && Once(keys) && KeysOf(c) == Take(keys, limit)
    ensures KeysOf(Use(c, k, v, limit)) == Take([k] + Drop(keys, k), limit)
  {
    LookupIsMembership(c, k);
    TakeFront(k, Drop(keys, k), limit);
    if k in KeysOf(c) {
      TouchMovesToFront(c, keys, k, limit);
    } else {
      PutMovesToFront(c, keys, k, v, limit);
    }
  }

  function UsedKeys<K, V>(uses: seq<(K, V)>): seq<K> {
    if uses == [] then [] else UsedKeys(uses[..|uses| - 1]) + [uses[|uses| - 1].0]
  }

  /** After any uses the cache holds the most recently used distinct keys, as many as fit, the last used first. */
  lemma {:induction false} CacheHoldsMostRecent<K, V>(uses: seq<(K, V)>, limit: nat)
    requires limit > 0
    ensures KeysOf(UseAll(uses, limit)) == Take(Recent(UsedKeys(uses)), limit)
  {
    if uses != [] {
      var n := |uses| - 1;
      var keys := UsedKeys(uses[..n]);
      CacheHoldsMostRecent(uses[..n], limit);
      RecentOnce(keys);
      UseMovesToFront(UseAll(uses[..n], limit), Recent(keys), uses[n].0, uses[n].1, limit);
      assert UsedKeys(uses)[..|keys|] == keys;
    }
  }

  /** A listing that is answered uses its key in the cache of its form, and no listing touches the other cache or
      anything else; one that fails leaves both caches. */
  lemma ListingUsesCache(lib: Libraries, s: StoreSpec.Store, form: ListForm, other: ListForm, key: ListKey)
    requires other != form
    ensures var (s', answer) := StoreSpec.List(lib, s, form, key);
            && s'.caches.Of(other) == s.caches.Of(other)
            && s' == s.(caches := s'.caches)
            && (answer.Err? ==> s' == s)
            && (answer.Ok? ==>
                  s'.caches.Of(form) == Use(s.caches.Of(form), key, answer.value, 128))
  {}
}
