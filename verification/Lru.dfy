/**
 * The bounded LRU cache behind the two listing caches: entries most recent first,
 * with the three calls the store makes on it.
 */
module Lru {
  import opened Basics

  type Cache<K, V> = seq<(K, V)>

  function Lookup<K(==), V>(c: Cache<K, V>, k: K): Option<V> {
    if c == [] then None
    else if c[0].0 == k then Some(c[0].1)
    else Lookup(c[1..], k)
  }

  function Without<K(==), V>(c: Cache<K, V>, k: K): (r: Cache<K, V>)
    ensures |r| <= |c|
  {
    if c == [] then [] else if c[0].0 == k then Without(c[1..], k) else [c[0]] + Without(c[1..], k)
  }

  /** `get`: a hit becomes the most recent entry. */
  function Touch<K(==), V>(c: Cache<K, V>, k: K): Cache<K, V> {
    var hit := Lookup(c, k);
    if hit.Some? then [(k, hit.value)] + Without(c, k) else c
  }

  /** The most recent entries, one fewer than the limit. */
  function Crop<K, V>(c: Cache<K, V>, limit: nat): Cache<K, V>
    requires limit > 0
  {
    if c == [] || limit == 1 then [] else [c[0]] + Crop(c[1..], limit - 1)
  }

  /** `put`: the entry becomes the most recent one; a full cache drops its least recent entry. */
  function Put<K(==), V>(c: Cache<K, V>, k: K, v: V, limit: nat): Cache<K, V>
    requires limit > 0
  {
    [(k, v)] + Crop(Without(c, k), limit)
  }

  lemma {:induction false} LookupFinds<K, V>(c: Cache<K, V>, k: K)
    ensures Lookup(c, k).Some? ==> (k, Lookup(c, k).value) in c
  {
    if c != [] && c[0].0 != k { LookupFinds(c[1..], k); }
  }

  lemma {:induction false} WithoutEntries<K, V>(c: Cache<K, V>, k: K)
    ensures forall e | e in Without(c, k) :: e in c && e.0 != k
  {
    if c != [] { WithoutEntries(c[1..], k); }
  }

  lemma TouchEntries<K, V>(c: Cache<K, V>, k: K)
    ensures forall e | e in Touch(c, k) :: e in c
  {
    LookupFinds(c, k);
    WithoutEntries(c, k);
  }

  lemma {:induction false} CropEntries<K, V>(c: Cache<K, V>, limit: nat)
    requires limit > 0
    ensures forall e | e in Crop(c, limit) :: e in c
    ensures |Crop(c, limit)| == if |c| < limit then |c| else limit - 1
  {
    if c != [] && limit > 1 { CropEntries(c[1..], limit - 1); }
  }

  lemma PutEntries<K, V>(c: Cache<K, V>, k: K, v: V, limit: nat)
    requires limit > 0
    ensures forall e | e in Put(c, k, v, limit) :: e == (k, v) || (e in c && e.0 != k)
  {
    WithoutEntries(c, k);
    CropEntries(Without(c, k), limit);
  }

  /** One entry per key. */
  ghost predicate Distinct<K, V>(c: Cache<K, V>) {
    c != [] ==> (forall e | e in c[1..] :: e.0 != c[0].0) && Distinct(c[1..])
  }

  /** One entry per key, and no more entries than the limit. */
  ghost predicate WellFormed<K, V>(c: Cache<K, V>, limit: nat) {
    |c| <= limit && Distinct(c)
  }

  lemma {:induction false} WithoutDistinct<K, V>(c: Cache<K, V>, k: K)
    requires Distinct(c)
    ensures Distinct(Without(c, k))
  {
    if c != [] {
      WithoutDistinct(c[1..], k);
      WithoutEntries(c[1..], k);
      assert c[0].0 != k ==> Without(c, k)[1..] == Without(c[1..], k);
    }
  }

  lemma {:induction false} CropDistinct<K, V>(c: Cache<K, V>, limit: nat)
    requires Distinct(c) && limit > 0
    ensures Distinct(Crop(c, limit))
  {
    if c != [] && limit > 1 {
      CropDistinct(c[1..], limit - 1);
      CropEntries(c[1..], limit - 1);
      assert Crop(c, limit)[1..] == Crop(c[1..], limit - 1);
    }
  }

  lemma {:induction false} WithoutLookup<K, V>(c: Cache<K, V>, k: K, k': K)
    ensures Lookup(Without(c, k), k') == if k' == k then None else Lookup(c, k')
    ensures Lookup(c, k).Some? ==> |Without(c, k)| < |c|
  {
    if c != [] {
      WithoutLookup(c[1..], k, k');
      assert c[0].0 != k ==> Without(c, k)[1..] == Without(c[1..], k);
    }
  }

  /** A lookup moves entries but changes no answer, and leaves the cache well formed. */
  lemma TouchIsTransparent<K, V>(c: Cache<K, V>, k: K, limit: nat)
    requires WellFormed(c, limit)
    ensures WellFormed(Touch(c, k), limit)
    ensures forall k' :: Lookup(Touch(c, k), k') == Lookup(c, k')
  {
    var hit := Lookup(c, k);
    if hit.Some? {
      WithoutDistinct(c, k);
      WithoutEntries(c, k);
      WithoutLookup(c, k, k);
      assert Touch(c, k)[1..] == Without(c, k);
      forall k' ensures Lookup(Touch(c, k), k') == Lookup(c, k') {
        WithoutLookup(c, k, k');
        LookupFront((k, hit.value), Without(c, k), k');
      }
    }
  }

  lemma {:induction false} CropLookup<K, V>(c: Cache<K, V>, limit: nat, k: K)
    requires limit > 0
    ensures Lookup(Crop(c, limit), k) == Lookup(c, k) || (Lookup(Crop(c, limit), k).None? && |c| >= limit)
  {
    if c != [] && limit > 1 {
      CropLookup(c[1..], limit - 1, k);
      LookupFront(c[0], Crop(c[1..], limit - 1), k);
    }
  }

  lemma LookupFront<K, V>(e: (K, V), rest: Cache<K, V>, k: K)
    ensures Lookup([e] + rest, k) == if e.0 == k then Some(e.1) else Lookup(rest, k)
  {}

  lemma PutWellFormed<K, V>(c: Cache<K, V>, k: K, v: V, limit: nat)
    requires WellFormed(c, limit) && limit > 0
    ensures WellFormed(Put(c, k, v, limit), limit)
  {
    var rest := Without(c, k);
    WithoutDistinct(c, k);
    WithoutEntries(c, k);
    CropDistinct(rest, limit);
    CropEntries(rest, limit);
    assert Put(c, k, v, limit)[1..] == Crop(rest, limit);
  }

  /** After `put`, its key finds its value; any other key finds what it found before or,
      only when a full cache took a new key, nothing. */
  lemma PutLookup<K, V>(c: Cache<K, V>, k: K, v: V, limit: nat, other: K)
    requires WellFormed(c, limit) && limit > 0
    ensures Lookup(Put(c, k, v, limit), k) == Some(v)
    ensures other != k ==>
      || Lookup(Put(c, k, v, limit), other) == Lookup(c, other)
      || (Lookup(Put(c, k, v, limit), other).None? && |c| == limit && Lookup(c, k).None?)
  {
    var rest := Without(c, k);
    LookupFront((k, v), Crop(rest, limit), k);
    LookupFront((k, v), Crop(rest, limit), other);
    CropLookup(rest, limit, other);
    WithoutLookup(c, k, other);
    WithoutLookup(c, k, k);
  }
}
