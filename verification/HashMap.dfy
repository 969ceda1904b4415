/**
 * The Robin Hood hash map: open addressing where an entry farther from its home takes the bucket of
 * one that is nearer.  Deletion shifts the following run back; the table grows and shrinks.
 */
module HashMap {
  import opened Wrappers

  /** A bucket; `dib` is one more than its distance from the entry's home bucket, 0 in a free bucket. */
  datatype Bucket<K, V> = Free | Used(hash: nat, dib: nat, key: K, value: V)

  const HASH_LIMIT := 0x1_0000_0000_0000
  const MIN_BUCKETS := 16

  function Clip(hash: nat): nat {
    hash % HASH_LIMIT
  }

  function Dib<K, V>(b: Bucket<K, V>): nat {
    if b.Used? then b.dib else 0
  }

  predicate IsKey<K(==), V>(b: Bucket<K, V>, key: K) {
    b.Used? && b.key == key
  }

  // ---------- the ring of buckets ----------

  /** `hash & mask`; the number of buckets is a power of two. */
  function Home(hash: nat, n: nat): (r: nat)
    requires n > 0
    ensures r < n
  {
    hash % n
  }

  function Next(i: nat, n: nat): (r: nat)
    requires i < n
    ensures r < n && r == (i + 1) % n
  {
    if i + 1 == n then 0 else i + 1
  }

  function Prev(i: nat, n: nat): (r: nat)
    requires i < n
    ensures r < n && Next(r, n) == i
  {
    if i == 0 then n - 1 else i - 1
  }

  /** The number of steps from bucket `a` to bucket `b`. */
  function Dist(a: nat, b: nat, n: nat): (r: nat)
    requires a < n && b < n
    ensures r < n && (r == 0 <==> a == b)
  {
    if a <= b then b - a else b + n - a
  }

  /** The entry in bucket `i` is where its `dib` says. */
  predicate InPlace<K, V>(b: seq<Bucket<K, V>>, i: nat)
    requires i < |b|
  {
    b[i].Used? ==> b[i].dib == Dist(Home(b[i].hash, |b|), i, |b|) + 1
  }

  /** From bucket `i` to the next, `dib` rises by at most one. */
  predicate Gentle<K, V>(b: seq<Bucket<K, V>>, i: nat)
    requires i < |b|
  {
    Dib(b[Next(i, |b|)]) <= Dib(b[i]) + 1
  }

  /** The local invariant of the table. */
  ghost predicate Ring<K, V>(b: seq<Bucket<K, V>>) {
    && |b| >= MIN_BUCKETS
    && (forall i :: 0 <= i < |b| ==> InPlace(b, i))
    && (forall i :: 0 <= i < |b| ==> Gentle(b, i))
  }

  /** The buckets hold exactly the bindings of `m`, each once, with their hashes. */
  ghost predicate Stores<K, V>(b: seq<Bucket<K, V>>, m: map<K, V>, hash: K -> nat) {
    && (forall i :: 0 <= i < |b| && b[i].Used? ==> b[i].key in m && m[b[i].key] == b[i].value && b[i].hash == Clip(hash(b[i].key)))
    && (forall i, j :: 0 <= i < j < |b| && b[i].Used? && b[j].Used? ==> b[i].key != b[j].key)
    && (forall k <- m :: exists i :: 0 <= i < |b| && IsKey(b[i], k))
  }

  /** Between its home and its bucket an entry passed only entries at least as far from their homes. */
  lemma {:induction false} RunUsed<K, V>(b: seq<Bucket<K, V>>, i: nat, j: nat)
    requires Ring(b) && i < |b| && j < |b| && b[i].Used?
    requires Dist(Home(b[i].hash, |b|), j, |b|) < b[i].dib
    ensures Dib(b[j]) >= Dist(Home(b[i].hash, |b|), j, |b|) + 1
    decreases b[i].dib - Dist(Home(b[i].hash, |b|), j, |b|)
  {
    var n := |b|;
    var home := Home(b[i].hash, n);
    assert InPlace(b, i);
    if j != i {
      assert Dist(home, Next(j, n), n) == Dist(home, j, n) + 1;
      RunUsed(b, i, Next(j, n));
      assert Gentle(b, j);
    }
  }

  /** All buckets passed from `home` up to, but without, bucket `i` hold other keys. */
  ghost predicate Passed<K, V>(b: seq<Bucket<K, V>>, key: K, home: nat, i: nat)
    requires home < |b| && i < |b|
  {
    forall j :: 0 <= j < |b| && Dist(home, j, |b|) < Dist(home, i, |b|) ==> !IsKey(b[j], key)
  }

  /**
   * A probe for `key` that meets a free bucket, or an entry nearer its home than `key` would be,
   * has passed every bucket where the key could be.
   */
  lemma Absent<K, V>(b: seq<Bucket<K, V>>, m: map<K, V>, hash: K -> nat, key: K, i: nat)
    requires Ring(b) && Stores(b, m, hash) && i < |b|
    requires var home := Home(Clip(hash(key)), |b|); Passed(b, key, home, i) && Dib(b[i]) <= Dist(home, i, |b|)
    ensures key !in m
  {
    if key in m {
      var j :| 0 <= j < |b| && IsKey(b[j], key);
      assert InPlace(b, j);
      RunUsed(b, j, i);
      assert false;
    }
  }

  // ---------- every free bucket ends a probe ----------

  function Keys<K, V>(b: seq<Bucket<K, V>>): set<K> {
    set i | 0 <= i < |b| && b[i].Used? :: b[i].key
  }

  lemma {:induction false} FullKeys<K, V>(b: seq<Bucket<K, V>>)
    requires forall i :: 0 <= i < |b| ==> b[i].Used?
    requires forall i, j :: 0 <= i < j < |b| ==> b[i].key != b[j].key
    ensures |Keys(b)| == |b|
    decreases |b|
  {
    if b != [] {
      var last := |b| - 1;
      FullKeys(b[..last]);
      assert Keys(b) == Keys(b[..last]) + {b[last].key};
    }
  }

  /** A table with fewer bindings than buckets has a free bucket. */
  lemma FreeExists<K, V>(b: seq<Bucket<K, V>>, m: map<K, V>, hash: K -> nat)
    requires Stores(b, m, hash) && |m| < |b|
    ensures exists e :: 0 <= e < |b| && b[e].Free?
  {
    if forall e :: 0 <= e < |b| ==> b[e].Used? {
      FullKeys(b);
      SubsetSize(Keys(b), m.Keys);
      assert false;
    }
  }

  lemma SubsetSize<T>(a: set<T>, b: set<T>)
    requires a <= b
    ensures |a| <= |b|
  {
    assert b == a + (b - a);
  }

  // ---------- the steps of an insertion ----------

  /** `e` may take bucket `i`: it would be in place, and gently above its predecessor. */
  ghost predicate MayTake<K, V>(b: seq<Bucket<K, V>>, e: Bucket<K, V>, i: nat) {
    && i < |b| && e.Used? && e.dib == Dist(Home(e.hash, |b|), i, |b|) + 1
    && e.dib <= Dib(b[Prev(i, |b|)]) + 1
  }

  /** The carried entry has not yet gone past the free bucket `f`. */
  ghost predicate Before<K, V>(n: nat, e: Bucket<K, V>, i: nat, f: nat)
    requires n > 0 && i < n && f < n
  {
    e.Used? && Dist(Home(e.hash, n), i, n) <= Dist(Home(e.hash, n), f, n)
  }

  /** An entry put where it may be, over a free bucket or an entry nearer its home, keeps the ring. */
  lemma PutKeepsRing<K, V>(b: seq<Bucket<K, V>>, e: Bucket<K, V>, i: nat)
    requires Ring(b) && MayTake(b, e, i) && Dib(b[i]) < e.dib
    ensures Ring(b[i := e])
  {
    var n, b' := |b|, b[i := e];
    forall j | 0 <= j < n ensures InPlace(b', j) {
      assert InPlace(b, j);
    }
    forall j | 0 <= j < n ensures Gentle(b', j) {
      assert Gentle(b, j);
      if Next(j, n) == i {
        assert j == Prev(i, n);
      }
    }
  }

  /** Passing on: the carried entry may take the next bucket if it may not take this one. */
  lemma MoveOn<K, V>(b: seq<Bucket<K, V>>, e: Bucket<K, V>, i: nat, f: nat)
    requires Ring(b) && MayTake(b, e, i) && f < |b| && b[f].Free? && b[i].Used? && e.dib <= b[i].dib && Before(|b|, e, i, f)
    ensures MayTake(b, e.(dib := e.dib + 1), Next(i, |b|)) && Before(|b|, e.(dib := e.dib + 1), Next(i, |b|), f)
    ensures Dist(Next(i, |b|), f, |b|) < Dist(i, f, |b|)
  {
    assert i != f;
  }

  /** Displacing: the entry that was here is carried on from the next bucket. */
  lemma Displace<K, V>(b: seq<Bucket<K, V>>, e: Bucket<K, V>, i: nat, f: nat)
    requires Ring(b) && MayTake(b, e, i) && f < |b| && b[f].Free? && b[i].Used? && b[i].dib < e.dib
    ensures var b' := b[i := e]; var e' := b[i].(dib := b[i].dib + 1);
            Ring(b') && b'[f].Free? && MayTake(b', e', Next(i, |b|)) && Before(|b|, e', Next(i, |b|), f)
    ensures Dist(Next(i, |b|), f, |b|) < Dist(i, f, |b|)
  {
    var n := |b|;
    PutKeepsRing(b, e, i);
    assert InPlace(b, i);
    if Dist(Home(b[i].hash, n), f, n) < b[i].dib {
      RunUsed(b, i, f);
      assert false;
    }
  }

  lemma PutStores<K, V>(b: seq<Bucket<K, V>>, m: map<K, V>, hash: K -> nat, e: Bucket<K, V>, i: nat)
    requires Stores(b, m, hash) && i < |b| && b[i].Free? && e.Used? && e.key !in m && e.hash == Clip(hash(e.key))
    ensures Stores(b[i := e], m[e.key := e.value], hash)
  {
    var b', m' := b[i := e], m[e.key := e.value];
    forall k <- m' ensures exists j :: 0 <= j < |b'| && IsKey(b'[j], k) {
      if k == e.key {
        assert IsKey(b'[i], k);
      } else {
        var j :| 0 <= j < |b| && IsKey(b[j], k);
        assert IsKey(b'[j], k);
      }
    }
  }

  lemma TakeStores<K, V>(b: seq<Bucket<K, V>>, m: map<K, V>, hash: K -> nat, i: nat)
    requires Stores(b, m, hash) && i < |b| && b[i].Used?
    ensures Stores(b[i := Free], m - {b[i].key}, hash) && b[i].key in m && m[b[i].key] == b[i].value && b[i].hash == Clip(hash(b[i].key))
  {
    var b', m' := b[i := Free], m - {b[i].key};
    forall k <- m' ensures exists j :: 0 <= j < |b'| && IsKey(b'[j], k) {
      var j :| 0 <= j < |b| && IsKey(b[j], k);
      assert IsKey(b'[j], k);
    }
  }

  /** Displacing neither loses nor duplicates: table and carried entry together hold the same bindings. */
  lemma SwapStores<K, V>(b: seq<Bucket<K, V>>, m: map<K, V>, hash: K -> nat, e: Bucket<K, V>, i: nat)
    requires Stores(b, m, hash) && i < |b| && b[i].Used? && e.Used? && e.key !in m && e.hash == Clip(hash(e.key))
    ensures var rest := m[e.key := e.value] - {b[i].key};
            && Stores(b[i := e], rest, hash) && b[i].key !in rest
            && rest[b[i].key := b[i].value] == m[e.key := e.value]
            && b[i].hash == Clip(hash(b[i].key))
  {
    TakeStores(b, m, hash, i);
    PutStores(b[i := Free], m - {b[i].key}, hash, e, i);
    assert b[i := Free][i := e] == b[i := e];
    assert (m - {b[i].key})[e.key := e.value] == m[e.key := e.value] - {b[i].key};
  }

  lemma ReplaceStores<K, V>(b: seq<Bucket<K, V>>, m: map<K, V>, hash: K -> nat, i: nat, v: V)
    requires Ring(b) && Stores(b, m, hash) && i < |b| && b[i].Used?
    ensures var b' := b[i := b[i].(value := v)]; Ring(b') && Stores(b', m[b[i].key := v], hash)
  {
    var b' := b[i := b[i].(value := v)];
    forall j | 0 <= j < |b| ensures InPlace(b', j) && Gentle(b', j) {
      assert InPlace(b, j) && Gentle(b, j);
    }
    TakeStores(b, m, hash, i);
    PutStores(b[i := Free], m - {b[i].key}, hash, b[i].(value := v), i);
    assert b[i := Free][i := b[i].(value := v)] == b';
    assert (m - {b[i].key})[b[i].key := v] == m[b[i].key := v];
  }

  // ---------- the steps of a deletion ----------

  /** A ring with a hole at `p` that the next entries are about to fill. */
  ghost predicate Holed<K, V>(b: seq<Bucket<K, V>>, p: nat) {
    && |b| >= MIN_BUCKETS && p < |b| && b[p].Free?
    && (forall i :: 0 <= i < |b| ==> InPlace(b, i))
    && (forall i :: 0 <= i < |b| && i != p ==> Gentle(b, i))
    && Dib(b[Next(p, |b|)]) <= Dib(b[Prev(p, |b|)]) + 2
  }

  lemma HoleMade<K, V>(b: seq<Bucket<K, V>>, p: nat)
    requires Ring(b) && p < |b| && b[p].Used?
    ensures Holed(b[p := Free], p)
  {
    var n, b' := |b|, b[p := Free];
    assert Gentle(b, p) && Gentle(b, Prev(p, n));
    forall i | 0 <= i < n ensures InPlace(b', i) && (i != p ==> Gentle(b', i)) {
      assert InPlace(b, i) && Gentle(b, i);
    }
  }

  /** The hole moves on: the next entry comes one bucket nearer its home. */
  lemma HoleMoves<K, V>(b: seq<Bucket<K, V>>, p: nat)
    requires Holed(b, p) && Dib(b[Next(p, |b|)]) > 1
    ensures var q := Next(p, |b|); var e := b[q]; Holed(b[p := e.(dib := e.dib - 1)][q := Free], q)
  {
    var n, q := |b|, Next(p, |b|);
    var e := b[q];
    var b' := b[p := e.(dib := e.dib - 1)][q := Free];
    assert InPlace(b, q) && Gentle(b, q);
    forall i | 0 <= i < n ensures InPlace(b', i) && (i != q ==> Gentle(b', i)) {
      assert InPlace(b, i) && (i != p ==> Gentle(b, i));
      if Next(i, n) == p {
        assert i == Prev(p, n);
      }
    }
  }

  /** The hole may stay in front of an entry that is at home, or of a free bucket. */
  lemma HoleStays<K, V>(b: seq<Bucket<K, V>>, p: nat)
    requires Holed(b, p) && Dib(b[Next(p, |b|)]) <= 1
    ensures Ring(b)
  {
    forall i | 0 <= i < |b| ensures Gentle(b, i) {
      if i != p {
        assert Gentle(b, i);
      }
    }
  }

  lemma MoveStores<K, V>(b: seq<Bucket<K, V>>, m: map<K, V>, hash: K -> nat, p: nat, q: nat, dib: nat)
    requires Stores(b, m, hash) && p < |b| && q < |b| && p != q && b[p].Free? && b[q].Used?
    ensures Stores(b[p := b[q].(dib := dib)][q := Free], m, hash)
  {
    var e := b[q];
    TakeStores(b, m, hash, q);
    PutStores(b[q := Free], m - {e.key}, hash, e.(dib := dib), p);
    assert b[q := Free][p := e.(dib := dib)] == b[p := e.(dib := dib)][q := Free];
    assert (m - {e.key})[e.key := e.value] == m;
  }

  // ---------- sizes ----------

  ghost predicate PowerOfTwo(n: nat) {
    n == 1 || (n > 0 && n % 2 == 0 && PowerOfTwo(n / 2))
  }

  function GrowAt(n: nat): nat {
    n * 60 / 100
  }

  function ShrinkAt(n: nat): nat {
    n * 10 / 100
  }

  class Table<K(==,!new), V(!new)> {
    const hash: K -> nat
    const cap: nat
    var buckets: array<Bucket<K, V>>
    var count: nat
    var growat: nat
    var shrinkat: nat
    ghost var bindings: map<K, V>

    ghost predicate Valid()
      reads this, buckets
    {
      && Ring(buckets[..]) && Stores(buckets[..], bindings, hash) && count == |bindings|
      && PowerOfTwo(buckets.Length) && PowerOfTwo(cap) && buckets.Length >= cap >= MIN_BUCKETS
      && growat == GrowAt(buckets.Length) && shrinkat == ShrinkAt(buckets.Length)
      && count <= growat < buckets.Length
    }

    /** The capacity wanted is rounded up to a power of two, 16 at least. */
    constructor (hash: K -> nat, cap: nat)
      ensures Valid() && bindings == map[] && this.hash == hash && fresh(buckets)
      ensures buckets.Length == this.cap && buckets.Length >= 16 && buckets.Length >= cap && (buckets.Length > 16 ==> buckets.Length / 2 < cap)
    {
      var n := Capacity(cap);
      this.hash, this.cap := hash, n;
      buckets := new Bucket<K, V>[n](_ => Free);
      count, growat, shrinkat, bindings := 0, GrowAt(n), ShrinkAt(n), map[];
      new;
      FreshRing(buckets[..], hash);
    }

    /** Looks a key up: from its home on, until the key or a free bucket is met. */
    method Get(key: K) returns (r: Option<V>)
      requires Valid()
      ensures r == if key in bindings then Some(bindings[key]) else None
    {
      var i := Find(key);
      if i.None? {
        return None;
      }
      r := Some(buckets[i.value].value);
    }

    method Find(key: K) returns (r: Option<nat>)
      requires Valid()
      ensures r.Some? ==> r.value < buckets.Length && IsKey(buckets[r.value], key)
      ensures r.Some? <==> key in bindings
    {
      hide Ring, Stores, Passed, Dist, Home, Clip;
      var n, h := buckets.Length, Clip(hash(key));
      var i: nat := Home(h, n);
      FreeExists(buckets[..], bindings, hash);
      ghost var free :| 0 <= free < n && buckets[..][free].Free?;
      LookStarts(buckets[..], key, hash, free);
      while buckets[i].Used?
        invariant i < n && Looking(buckets[..], key, hash, i, free)
        decreases Dist(i, free, n)
      {
        if buckets[i].hash == h && buckets[i].key == key {
          TakeStores(buckets[..], bindings, hash, i);
          return Some(i);
        }
        LookOn(buckets[..], bindings, key, hash, i, free);
        i := (i + 1) % n;
      }
      LookFails(buckets[..], bindings, key, hash, i, free);
      r := None;
    }

    /**
     * Adds or replaces a binding, and returns the value replaced.  The table is doubled first if six tenths
     * of its buckets are used.
     */
    method Set(key: K, value: V) returns (replaced: Option<V>)
      requires Valid()
      modifies this, buckets
      ensures Valid() && bindings == old(bindings)[key := value]
      ensures replaced == if key in old(bindings) then Some(old(bindings)[key]) else None
      ensures buckets == old(buckets) || fresh(buckets)
      ensures buckets.Length == if |old(bindings)| >= old(buckets.Length) * 60 / 100 then old(buckets.Length) * 2 else old(buckets.Length)
    {
      if count >= growat {
        Resize(buckets.Length * 2);
      }
      replaced := Insert(key, value);
    }

    /** The probe loop of an insertion, with its two exits. */
    method Insert(key: K, value: V) returns (replaced: Option<V>)
      requires Valid() && count < growat
      modifies this`count, this`bindings, buckets
      ensures Valid() && bindings == old(bindings)[key := value]
      ensures replaced == if key in old(bindings) then Some(old(bindings)[key]) else None
    {
      hide Ring, Stores, Passed, MayTake, Before, Dist, Home, Clip, Probing;
      ghost var m := bindings;
      FreeExists(buckets[..], m, hash);
      ghost var free :| 0 <= free < buckets.Length && buckets[..][free].Free?;
      var i: nat := Home(Clip(hash(key)), buckets.Length);
      var entry := Used(Clip(hash(key)), 1, key, value);
      ghost var displaced := false;
      ProbeStarts(buckets[..], m, hash, key, value, free);
      while buckets[i].Used?
        invariant i < buckets.Length && entry.Used? && Probing(buckets[..], m, hash, key, value, entry, i, free, displaced)
        invariant bindings == m
        decreases Dist(i, free, buckets.Length)
        modifies this`bindings, buckets
      {
        ghost var b := buckets[..];
        var bucket := buckets[i];
        if bucket.hash == entry.hash && bucket.key == entry.key {
          ProbeMeetsKey(b, m, hash, key, value, entry, i, free, displaced);
          replaced := Some(bucket.value);
          buckets[i] := bucket.(value := entry.value);
          assert buckets[..] == b[i := bucket.(value := value)];
          bindings := m[key := value];
          return;
        }
        if bucket.dib < entry.dib {
          ProbeDisplaces(b, m, hash, key, value, entry, i, free, displaced);
          buckets[i] := entry;
          assert buckets[..] == b[i := entry];
          entry, displaced := bucket, true;
        } else {
          ProbePasses(b, m, hash, key, value, entry, i, free, displaced);
        }
        i := (i + 1) % buckets.Length;
        entry := entry.(dib := entry.dib + 1);
      }
      ghost var b := buckets[..];
      ProbeEnds(b, m, hash, key, value, entry, i, free, displaced);
      buckets[i] := entry;
      assert buckets[..] == b[i := entry];
      count := count + 1;
      bindings := m[key := value];
      replaced := None;
    }

    /**
     * Removes a binding and returns its value; the run behind it moves up, and the table is halved if no more
     * than a tenth of its buckets is left in use.
     */
    method Delete(key: K) returns (removed: Option<V>)
      requires Valid()
      modifies this, buckets
      ensures Valid() && bindings == old(bindings) - {key}
      ensures removed == if key in old(bindings) then Some(old(bindings)[key]) else None
      ensures buckets == old(buckets) || fresh(buckets)
      ensures buckets.Length ==
              if key in old(bindings) && old(buckets.Length) > cap && |bindings| <= old(buckets.Length) * 10 / 100 then old(buckets.Length) / 2
              else old(buckets.Length)
    {
      var found := Find(key);
      if found.None? {
        return None;
      }
      removed := Some(buckets[found.value].value);
      Remove(found.value, key);
      if buckets.Length > cap && count <= shrinkat {
        HalfPower(buckets.Length);
        PowersApart(cap, buckets.Length);
        Resize(buckets.Length / 2);
      }
    }

    /** Frees bucket `at` and shifts the following entries back until one is at home or a bucket is free. */
    method Remove(at: nat, ghost key: K)
      requires Valid() && at < buckets.Length && IsKey(buckets[at], key)
      modifies this`count, this`bindings, buckets
      ensures Valid() && bindings == old(bindings) - {key}
    {
      hide Ring, Stores, Shifting, Dist;
      ghost var (m, start) := (bindings, buckets[..]);
      FreeExists(start, m, hash);
      ghost var free :| 0 <= free < buckets.Length && start[free].Free?;
      ShiftStarts(start, m, hash, at, free);
      buckets[at] := Free;
      assert buckets[..] == start[at := Free];
      var prev, i := at, (at + 1) % buckets.Length;
      while Dib(buckets[i]) > 1
        invariant prev < buckets.Length && i == Next(prev, buckets.Length)
        invariant Shifting(buckets[..], m - {key}, hash, prev, free)
        decreases Dist(prev, free, buckets.Length)
        modifies buckets
      {
        ghost var b := buckets[..];
        ShiftOn(b, m - {key}, hash, prev, free);
        buckets[prev] := buckets[i].(dib := buckets[i].dib - 1);
        buckets[i] := Free;
        assert buckets[..] == b[prev := b[i].(dib := b[i].dib - 1)][i := Free];
        prev := i;
        i := (i + 1) % buckets.Length;
      }
      ShiftEnds(buckets[..], m - {key}, hash, prev, free);
      count := count - 1;
      bindings := m - {key};
    }

    /** Moves all entries to a table of another size; no key can be met twice, so none is compared. */
    method Resize(wanted: nat)
      requires Ring(buckets[..]) && Stores(buckets[..], bindings, hash) && count == |bindings|
      requires MIN_BUCKETS <= wanted && PowerOfTwo(wanted) && count <= GrowAt(wanted) && cap <= wanted
      requires cap >= MIN_BUCKETS && PowerOfTwo(cap)
      modifies this`buckets, this`growat, this`shrinkat
      ensures Valid() && bindings == old(bindings) && fresh(buckets) && buckets.Length == wanted
    {
      hide Ring, Stores, Moved, PowerOfTwo;
      var n := Capacity(wanted);
      CapacityExact(wanted, n);
      var bigger := new Bucket<K, V>[n](_ => Free);
      FreshRing(bigger[..], hash);
      ghost var m: map<K, V> := map[];
      MoveStarts<K, V>(buckets[..], bindings);
      for i := 0 to buckets.Length
        invariant bigger.Length == n && Ring(bigger[..]) && Stores(bigger[..], m, hash)
        invariant Moved(buckets[..], bindings, i, m)
        modifies bigger
      {
        MoveStep(buckets[..], bindings, hash, i, m);
        if buckets[i].Used? {
          Place(bigger, hash, buckets[i], m);
          m := m[buckets[i].key := buckets[i].value];
        }
      }
      MoveEnds(buckets[..], bindings, hash, m);
      buckets, growat, shrinkat := bigger, GrowAt(n), ShrinkAt(n);
    }

    /** The iterator: the next used bucket at or after the cursor. */
    method Iterate(cursor: nat) returns (found: Option<(K, V)>, cursor': nat)
      requires Valid() && cursor <= buckets.Length
      ensures cursor <= cursor' <= buckets.Length
      ensures match found
              case None => cursor' == buckets.Length && forall j :: cursor <= j < buckets.Length ==> buckets[j].Free?
              case Some(item) =>
                && cursor < cursor' && buckets[cursor' - 1].Used? && item == (buckets[cursor' - 1].key, buckets[cursor' - 1].value)
                && forall j :: cursor <= j < cursor' - 1 ==> buckets[j].Free?
    {
      cursor' := cursor;
      while cursor' < buckets.Length && buckets[cursor'].Free?
        invariant cursor <= cursor' <= buckets.Length && forall j :: cursor <= j < cursor' ==> buckets[j].Free?
      {
        cursor' := cursor' + 1;
      }
      if cursor' >= buckets.Length {
        return None, cursor';
      }
      return Some((buckets[cursor'].key, buckets[cursor'].value)), cursor' + 1;
    }

    /** Iterating from the start meets every binding exactly once. */
    method Items() returns (items: seq<(K, V)>)
      requires Valid()
      ensures forall p <- items :: p.0 in bindings && p.1 == bindings[p.0]
      ensures forall k <- bindings :: (k, bindings[k]) in items
      ensures forall a, b :: 0 <= a < b < |items| ==> items[a].0 != items[b].0
    {
      hide Ring, Stores;
      items := [];
      ghost var at: seq<nat> := [];
      var found, cursor := Iterate(0);
      ghost var from := 0;
      while found.Some?
        invariant from <= cursor <= buckets.Length && Collected(buckets[..], from, at, items)
        invariant found.None? ==> forall j :: from <= j < buckets.Length ==> buckets[j].Free?
        invariant found.Some? ==> from < cursor && buckets[cursor - 1].Used? && found.value == (buckets[cursor - 1].key, buckets[cursor - 1].value)
        invariant found.Some? ==> forall j :: from <= j < cursor - 1 ==> buckets[j].Free?
        decreases buckets.Length - from
      {
        CollectOne(buckets[..], from, at, items, cursor);
        items, at, from := items + [found.value], at + [cursor - 1], cursor;
        found, cursor := Iterate(cursor);
      }
      CollectedAll(buckets[..], bindings, hash, from, at, items);
    }
  }

  // ---------- whole runs ----------

  datatype Operation<K, V> = SetOp(key: K, value: V) | GetOp(key: K) | DeleteOp(key: K)

  function LookUp<K, V>(m: map<K, V>, key: K): Option<V> {
    if key in m then Some(m[key]) else None
  }

  /** What the mathematical map becomes. */
  function Applied<K, V>(m: map<K, V>, op: Operation<K, V>): map<K, V> {
    match op
    case SetOp(k, v) => m[k := v]
    case GetOp(_) => m
    case DeleteOp(k) => m - {k}
  }

  function AppliedAll<K, V>(m: map<K, V>, ops: seq<Operation<K, V>>): map<K, V> {
    if ops == [] then m else Applied(AppliedAll(m, ops[..|ops| - 1]), ops[|ops| - 1])
  }

  /** What the mathematical map answers: every operation returns the binding it finds. */
  function Answers<K, V>(m: map<K, V>, ops: seq<Operation<K, V>>): seq<Option<V>> {
    if ops == [] then []
    else Answers(m, ops[..|ops| - 1]) + [LookUp(AppliedAll(m, ops[..|ops| - 1]), ops[|ops| - 1].key)]
  }

  method Do<K(==,!new), V(!new)>(t: Table<K, V>, op: Operation<K, V>) returns (answer: Option<V>)
    requires t.Valid()
    modifies t, t.buckets
    ensures t.Valid() && (t.buckets == old(t.buckets) || fresh(t.buckets))
    ensures t.bindings == Applied(old(t.bindings), op) && answer == LookUp(old(t.bindings), op.key)
  {
    match op
    case SetOp(k, v) => answer := t.Set(k, v);
    case GetOp(k) => answer := t.Get(k);
    case DeleteOp(k) => answer := t.Delete(k);
  }

  /** Over any run of operations the table answers as the mathematical map does, whatever it moves, grows or shrinks. */
  method Perform<K(==,!new), V(!new)>(t: Table<K, V>, ops: seq<Operation<K, V>>) returns (answers: seq<Option<V>>)
    requires t.Valid()
    modifies t, t.buckets
    ensures t.Valid() && t.bindings == AppliedAll(old(t.bindings), ops) && answers == Answers(old(t.bindings), ops)
  {
    hide Ring, Stores, LookUp, Applied, PowerOfTwo, GrowAt, ShrinkAt;
    answers := [];
    for n := 0 to |ops|
      invariant t.Valid() && (t.buckets == old(t.buckets) || fresh(t.buckets))
      invariant t.bindings == AppliedAll(old(t.bindings), ops[..n]) && answers == Answers(old(t.bindings), ops[..n])
    {
      assert ops[..n + 1][..n] == ops[..n];
      var answer := Do(t, ops[n]);
      answers := answers + [answer];
    }
    assert ops[..|ops|] == ops;
  }

  /** `items` are the entries of the used buckets below `from`, whose positions are `at`. */
  ghost predicate Collected<K, V>(b: seq<Bucket<K, V>>, from: nat, at: seq<nat>, items: seq<(K, V)>) {
    && from <= |b| && |at| == |items|
    && (forall a :: 0 <= a < |at| ==> at[a] < from && b[at[a]].Used? && items[a] == (b[at[a]].key, b[at[a]].value))
    && (forall a, c :: 0 <= a < c < |at| ==> at[a] < at[c])
    && (forall j :: 0 <= j < from && b[j].Used? ==> j in at)
  }

  lemma CollectOne<K, V>(b: seq<Bucket<K, V>>, from: nat, at: seq<nat>, items: seq<(K, V)>, cursor: nat)
    requires Collected(b, from, at, items) && from < cursor <= |b| && b[cursor - 1].Used?
    requires forall j :: from <= j < cursor - 1 ==> b[j].Free?
    ensures Collected(b, cursor, at + [cursor - 1], items + [(b[cursor - 1].key, b[cursor - 1].value)])
  {
    var at' := at + [cursor - 1];
    forall j | 0 <= j < cursor && b[j].Used? ensures j in at' {
      if j < from {
        assert j in at;
      } else {
        assert j == at'[|at|];
      }
    }
  }

  lemma CollectedAll<K, V>(b: seq<Bucket<K, V>>, m: map<K, V>, hash: K -> nat, from: nat, at: seq<nat>, items: seq<(K, V)>)
    requires Stores(b, m, hash) && Collected(b, from, at, items) && forall j :: from <= j < |b| ==> b[j].Free?
    ensures forall p <- items :: p.0 in m && p.1 == m[p.0]
    ensures forall k <- m :: (k, m[k]) in items
    ensures forall a, c :: 0 <= a < c < |items| ==> items[a].0 != items[c].0
  {
    forall k <- m ensures (k, m[k]) in items {
      var j :| 0 <= j < |b| && IsKey(b[j], k);
      assert j in at;
      var a :| 0 <= a < |at| && at[a] == j;
      assert items[a] == (k, m[k]);
    }
  }

  /** Puts an entry into a table that does not have its key. */
  method Place<K(==,!new), V(!new)>(b: array<Bucket<K, V>>, hash: K -> nat, e: Bucket<K, V>, ghost m: map<K, V>)
    requires Ring(b[..]) && Stores(b[..], m, hash) && |m| < b.Length
    requires e.Used? && e.key !in m && e.hash == Clip(hash(e.key))
    modifies b
    ensures Ring(b[..]) && Stores(b[..], m[e.key := e.value], hash)
  {
    hide Ring, Stores, MayTake, Before;
    ghost var all := m[e.key := e.value];
    FreeExists(b[..], m, hash);
    ghost var free :| 0 <= free < b.Length && b[..][free].Free?;
    var entry: Bucket<K, V>, i: nat := e.(dib := 1), Home(e.hash, b.Length);
    StartPlace(b[..], m, hash, entry, i, free);
    while b[i].Used?
      invariant i < b.Length && b[free].Free? && Ring(b[..]) && entry.Used?
      invariant MayTake(b[..], entry, i) && Before(b.Length, entry, i, free)
      invariant Carried(b[..], all, hash, entry)
      decreases Dist(i, free, b.Length)
    {
      ghost var s := b[..];
      var bucket := b[i];
      if bucket.dib < entry.dib {
        CarrySwap(s, all, hash, entry, i);
        Displace(s, entry, i, free);
        b[i] := entry;
        assert b[..] == s[i := entry];
        entry := bucket;
      } else {
        MoveOn(s, entry, i, free);
      }
      i := (i + 1) % b.Length;
      entry := entry.(dib := entry.dib + 1);
    }
    ghost var s := b[..];
    CarryPut(s, all, hash, entry, i);
    b[i] := entry;
    assert b[..] == s[i := entry];
  }

  /** The table and the carried entry together hold `all`. */
  ghost predicate Carried<K, V>(b: seq<Bucket<K, V>>, all: map<K, V>, hash: K -> nat, e: Bucket<K, V>) {
    e.Used? && e.key in all && all[e.key] == e.value && e.hash == Clip(hash(e.key)) && Stores(b, all - {e.key}, hash)
  }

  lemma CarrySwap<K, V>(b: seq<Bucket<K, V>>, all: map<K, V>, hash: K -> nat, e: Bucket<K, V>, i: nat)
    requires Carried(b, all, hash, e) && i < |b| && b[i].Used?
    ensures Carried(b[i := e], all, hash, b[i].(dib := b[i].dib + 1))
  {
    var m := all - {e.key};
    SwapStores(b, m, hash, e, i);
    TakeStores(b, m, hash, i);
    assert m[e.key := e.value] == all;
  }

  lemma CarryPut<K, V>(b: seq<Bucket<K, V>>, all: map<K, V>, hash: K -> nat, e: Bucket<K, V>, i: nat)
    requires Ring(b) && MayTake(b, e, i) && Carried(b, all, hash, e) && b[i].Free?
    ensures Ring(b[i := e]) && Stores(b[i := e], all, hash)
  {
    PutKeepsRing(b, e, i);
    PutStores(b, all - {e.key}, hash, e, i);
    assert (all - {e.key})[e.key := e.value] == all;
  }

  lemma StartPlace<K, V>(b: seq<Bucket<K, V>>, m: map<K, V>, hash: K -> nat, e: Bucket<K, V>, i: nat, f: nat)
    requires Ring(b) && Stores(b, m, hash) && e.Used? && e.key !in m && e.hash == Clip(hash(e.key)) && e.dib == 1
    requires i == Home(e.hash, |b|) && f < |b|
    ensures MayTake(b, e, i) && Before(|b|, e, i, f) && Carried(b, m[e.key := e.value], hash, e)
  {
    assert m[e.key := e.value] - {e.key} == m;
  }

  // ---------- the loops, step by step ----------

  /** A lookup has reached bucket `i`, and the free bucket `f` is still ahead. */
  ghost predicate Looking<K, V>(b: seq<Bucket<K, V>>, key: K, hash: K -> nat, i: nat, f: nat) {
    && i < |b| && f < |b| && b[f].Free?
    && var home := Home(Clip(hash(key)), |b|);
       Passed(b, key, home, i) && Dist(home, i, |b|) <= Dist(home, f, |b|)
  }

  lemma LookStarts<K, V>(b: seq<Bucket<K, V>>, key: K, hash: K -> nat, f: nat)
    requires f < |b| && b[f].Free?
    ensures Looking(b, key, hash, Home(Clip(hash(key)), |b|), f)
  {
  }

  lemma LookOn<K, V>(b: seq<Bucket<K, V>>, m: map<K, V>, key: K, hash: K -> nat, i: nat, f: nat)
    requires Stores(b, m, hash) && Looking(b, key, hash, i, f) && b[i].Used? && !(b[i].hash == Clip(hash(key)) && b[i].key == key)
    ensures Looking(b, key, hash, Next(i, |b|), f) && Dist(Next(i, |b|), f, |b|) < Dist(i, f, |b|)
  {
    TakeStores(b, m, hash, i);
  }

  lemma LookFails<K, V>(b: seq<Bucket<K, V>>, m: map<K, V>, key: K, hash: K -> nat, i: nat, f: nat)
    requires Ring(b) && Stores(b, m, hash) && Looking(b, key, hash, i, f) && b[i].Free?
    ensures key !in m
  {
    Absent(b, m, hash, key, i);
  }

  /**
   * An insertion carries `e` to bucket `i`.  Until an entry is displaced this is the new binding, and
   * the table is as it was; from then on the key is new and table and carried entry hold everything.
   */
  ghost predicate Probing<K, V>(b: seq<Bucket<K, V>>, m: map<K, V>, hash: K -> nat, key: K, value: V,
                                e: Bucket<K, V>, i: nat, f: nat, displaced: bool)
  {
    && Ring(b) && i < |b| && f < |b| && b[f].Free? && e.Used? && e.dib > 0
    && MayTake(b, e, i) && Before(|b|, e, i, f) && e.hash == Clip(hash(e.key))
    && if displaced then key !in m && Carried(b, m[key := value], hash, e)
       else Stores(b, m, hash) && e.key == key && e.value == value && Passed(b, key, Home(Clip(hash(key)), |b|), i)
  }

  lemma ProbeStarts<K, V>(b: seq<Bucket<K, V>>, m: map<K, V>, hash: K -> nat, key: K, value: V, f: nat)
    requires Ring(b) && Stores(b, m, hash) && f < |b| && b[f].Free?
    ensures Probing(b, m, hash, key, value, Used(Clip(hash(key)), 1, key, value), Home(Clip(hash(key)), |b|), f, false)
  {
    hide Ring, Stores;
    assert |b| > 0;
  }

  /** Only the new binding can meet its own key: a displaced entry is never dropped for another. */
  lemma ProbeMeetsKey<K, V>(b: seq<Bucket<K, V>>, m: map<K, V>, hash: K -> nat, key: K, value: V,
                            e: Bucket<K, V>, i: nat, f: nat, displaced: bool)
    requires Probing(b, m, hash, key, value, e, i, f, displaced) && b[i].Used? && b[i].key == e.key
    ensures !displaced && e.key == key && e.value == value && key in m && m[key] == b[i].value
    ensures var b' := b[i := b[i].(value := value)]; Ring(b') && Stores(b', m[key := value], hash) && |m[key := value]| == |m|
  {
    hide Ring, Stores, Passed, MayTake, Before;
    if displaced {
      TakeStores(b, m[key := value] - {e.key}, hash, i);
      assert false;
    }
    TakeStores(b, m, hash, i);
    ReplaceStores(b, m, hash, i, value);
    SameSize(m, key, value);
  }

  /** Once an entry nearer its home is met, the key being set is not in the table; that entry is carried on. */
  lemma ProbeDisplaces<K, V>(b: seq<Bucket<K, V>>, m: map<K, V>, hash: K -> nat, key: K, value: V,
                             e: Bucket<K, V>, i: nat, f: nat, displaced: bool)
    requires Probing(b, m, hash, key, value, e, i, f, displaced) && b[i].Used? && b[i].dib < e.dib
    ensures Probing(b[i := e], m, hash, key, value, b[i].(dib := b[i].dib + 1), Next(i, |b|), f, true)
    ensures Dist(Next(i, |b|), f, |b|) < Dist(i, f, |b|)
  {
    hide Ring, Stores, Passed, Before, Dist;
    Displace(b, e, i, f);
    if !displaced {
      Absent(b, m, hash, key, i);
      assert m[key := value] - {key} == m;
    }
    CarrySwap(b, m[key := value], hash, e, i);
  }

  lemma ProbePasses<K, V>(b: seq<Bucket<K, V>>, m: map<K, V>, hash: K -> nat, key: K, value: V,
                          e: Bucket<K, V>, i: nat, f: nat, displaced: bool)
    requires Probing(b, m, hash, key, value, e, i, f, displaced) && b[i].Used? && b[i].dib >= e.dib
    requires !(b[i].hash == e.hash && b[i].key == e.key)
    ensures Probing(b, m, hash, key, value, e.(dib := e.dib + 1), Next(i, |b|), f, displaced)
    ensures Dist(Next(i, |b|), f, |b|) < Dist(i, f, |b|)
  {
    hide Ring, Stores, MayTake, Before;
    MoveOn(b, e, i, f);
    if !displaced {
      TakeStores(b, m, hash, i);
    }
  }

  lemma ProbeEnds<K, V>(b: seq<Bucket<K, V>>, m: map<K, V>, hash: K -> nat, key: K, value: V,
                        e: Bucket<K, V>, i: nat, f: nat, displaced: bool)
    requires Probing(b, m, hash, key, value, e, i, f, displaced) && b[i].Free?
    ensures Ring(b[i := e]) && Stores(b[i := e], m[key := value], hash) && key !in m && |m[key := value]| == |m| + 1
  {
    hide Ring, Stores, Passed, Before;
    if !displaced {
      Absent(b, m, hash, key, i);
      assert m[key := value] - {key} == m;
    }
    CarryPut(b, m[key := value], hash, e, i);
    NewBinding(m, key, value);
  }

  /** A deletion has its hole at `p`, and the free bucket `f` is still ahead. */
  ghost predicate Shifting<K, V>(b: seq<Bucket<K, V>>, m: map<K, V>, hash: K -> nat, p: nat, f: nat) {
    Holed(b, p) && Stores(b, m, hash) && f < |b| && b[f].Free? && f != p
  }

  lemma ShiftStarts<K, V>(b: seq<Bucket<K, V>>, m: map<K, V>, hash: K -> nat, p: nat, f: nat)
    requires Ring(b) && Stores(b, m, hash) && p < |b| && b[p].Used? && f < |b| && b[f].Free?
    ensures Shifting(b[p := Free], m - {b[p].key}, hash, p, f) && |m| > 0 && |m - {b[p].key}| == |m| - 1
  {
    hide Ring, Stores, Holed;
    HoleMade(b, p);
    TakeStores(b, m, hash, p);
    KeyCounted(m, b[p].key);
  }

  lemma ShiftOn<K, V>(b: seq<Bucket<K, V>>, m: map<K, V>, hash: K -> nat, p: nat, f: nat)
    requires Shifting(b, m, hash, p, f) && Dib(b[Next(p, |b|)]) > 1
    ensures var q := Next(p, |b|); var e := b[q];
            Shifting(b[p := e.(dib := e.dib - 1)][q := Free], m, hash, q, f) && Dist(q, f, |b|) < Dist(p, f, |b|)
  {
    hide Stores;
    var q := Next(p, |b|);
    HoleMoves(b, p);
    MoveStores(b, m, hash, p, q, b[q].dib - 1);
  }

  lemma ShiftEnds<K, V>(b: seq<Bucket<K, V>>, m: map<K, V>, hash: K -> nat, p: nat, f: nat)
    requires Shifting(b, m, hash, p, f) && Dib(b[Next(p, |b|)]) <= 1
    ensures Ring(b) && Stores(b, m, hash)
  {
    hide Stores;
    HoleStays(b, p);
  }

  /** `m` has the bindings of the first `i` buckets. */
  ghost predicate Moved<K, V>(b: seq<Bucket<K, V>>, all: map<K, V>, i: nat, m: map<K, V>) {
    && i <= |b|
    && (forall k <- m :: k in all && m[k] == all[k] && Among(b, i, k))
    && (forall j :: 0 <= j < i && b[j].Used? ==> b[j].key in m)
  }

  ghost predicate Among<K, V>(b: seq<Bucket<K, V>>, i: nat, k: K) {
    exists j :: 0 <= j < i && j < |b| && IsKey(b[j], k)
  }

  lemma MoveStarts<K, V>(b: seq<Bucket<K, V>>, all: map<K, V>)
    ensures Moved(b, all, 0, map[])
  {
  }

  /** The next entry is new to the table that is being filled, and there is room for it. */
  lemma MoveStep<K, V>(b: seq<Bucket<K, V>>, all: map<K, V>, hash: K -> nat, i: nat, m: map<K, V>)
    requires Stores(b, all, hash) && Moved(b, all, i, m) && i < |b|
    ensures b[i].Used? ==> b[i].key !in m && b[i].hash == Clip(hash(b[i].key)) && Moved(b, all, i + 1, m[b[i].key := b[i].value])
    ensures b[i].Free? ==> Moved(b, all, i + 1, m)
    ensures |m| <= |all|
  {
    SubMap(m, all);
    forall k | Among(b, i, k) ensures Among(b, i + 1, k) {
      var j :| 0 <= j < i && j < |b| && IsKey(b[j], k);
      assert j < i + 1;
    }
    if b[i].Used? {
      MoveUsed(b, all, hash, i, m);
    }
  }

  lemma MoveUsed<K, V>(b: seq<Bucket<K, V>>, all: map<K, V>, hash: K -> nat, i: nat, m: map<K, V>)
    requires Stores(b, all, hash) && Moved(b, all, i, m) && i < |b| && b[i].Used?
    requires forall k <- m :: Among(b, i + 1, k)
    ensures b[i].key !in m && b[i].hash == Clip(hash(b[i].key)) && Moved(b, all, i + 1, m[b[i].key := b[i].value])
  {
    assert IsKey(b[i], b[i].key);
    assert b[i].key in m ==> Among(b, i, b[i].key);
  }

  lemma MoveEnds<K, V>(b: seq<Bucket<K, V>>, all: map<K, V>, hash: K -> nat, m: map<K, V>)
    requires Stores(b, all, hash) && Moved(b, all, |b|, m)
    ensures m == all
  {
    forall k <- all ensures k in m {
      var j :| 0 <= j < |b| && IsKey(b[j], k);
    }
  }

  lemma KeyCounted<K, V>(m: map<K, V>, key: K)
    ensures key in m ==> |m - {key}| == |m| - 1 && |m| > 0
  {
    if key in m {
      assert m.Keys == (m - {key}).Keys + {key};
    }
  }

  lemma NewBinding<K, V>(m: map<K, V>, key: K, value: V)
    requires key !in m
    ensures |m[key := value]| == |m| + 1
  {
    assert m[key := value].Keys == m.Keys + {key};
  }

  lemma SameSize<K, V>(m: map<K, V>, key: K, value: V)
    requires key in m
    ensures |m[key := value]| == |m|
  {
    assert m[key := value].Keys == m.Keys;
  }

  lemma SubMap<K, V>(m: map<K, V>, all: map<K, V>)
    requires forall k <- m :: k in all
    ensures |m| <= |all|
  {
    SubsetSize(m.Keys, all.Keys);
    assert |m| == |m.Keys| && |all| == |all.Keys|;
  }

  lemma FreshRing<K, V>(b: seq<Bucket<K, V>>, hash: K -> nat)
    requires |b| >= MIN_BUCKETS && forall i :: 0 <= i < |b| ==> b[i].Free?
    ensures Ring(b) && Stores(b, map[], hash)
  {
  }

  /** The smallest power of two from 16 on that is not below `cap`. */
  method Capacity(cap: nat) returns (n: nat)
    ensures n >= cap && n >= MIN_BUCKETS && PowerOfTwo(n) && (n > MIN_BUCKETS ==> n / 2 < cap)
    ensures 0 < GrowAt(n) < n
  {
    n := MIN_BUCKETS;
    assert PowerOfTwo(8) by { assert PowerOfTwo(2) && PowerOfTwo(4); }
    while n < cap
      invariant n >= MIN_BUCKETS && PowerOfTwo(n) && (n > MIN_BUCKETS ==> n / 2 < cap)
      decreases cap - n
    {
      assert n * 2 / 2 == n;
      n := n * 2;
    }
  }

  lemma {:induction false} PowersApart(a: nat, b: nat)
    requires PowerOfTwo(a) && PowerOfTwo(b) && a < b
    ensures a <= b / 2
    decreases a
  {
    if a > 1 {
      PowersApart(a / 2, b / 2);
    }
  }

  lemma CapacityExact(wanted: nat, n: nat)
    requires PowerOfTwo(wanted) && PowerOfTwo(n) && wanted >= MIN_BUCKETS && n >= wanted && (n > MIN_BUCKETS ==> n / 2 < wanted)
    ensures n == wanted
  {
    if wanted < n {
      PowersApart(wanted, n);
    }
  }

  lemma HalfPower(n: nat)
    requires PowerOfTwo(n) && n > MIN_BUCKETS
    ensures PowerOfTwo(n / 2) && n / 2 >= MIN_BUCKETS && ShrinkAt(n) < GrowAt(n / 2)
  {
    assert PowerOfTwo(MIN_BUCKETS) by { assert PowerOfTwo(2) && PowerOfTwo(4) && PowerOfTwo(8); }
    PowersApart(MIN_BUCKETS, n);
  }

  // ---------- probe distances ----------

  /** The buckets fewer than `d` steps behind `home`. */
  function Arc(home: nat, d: nat, n: nat): set<nat>
    requires home < n
  {
    set j: nat | j < n && Dist(home, j, n) < d
  }

  lemma {:induction false} ArcSize(home: nat, d: nat, n: nat)
    requires home < n && d <= n
    ensures |Arc(home, d, n)| == d
    decreases d
  {
    if d == 0 {
      assert Arc(home, d, n) == {};
    } else {
      ArcSize(home, d - 1, n);
      var last := if home + (d - 1) < n then home + (d - 1) else home + (d - 1) - n;
      assert Dist(home, last, n) == d - 1;
      forall j: nat | j < n ensures Dist(home, j, n) < d <==> Dist(home, j, n) < d - 1 || j == last {
      }
      assert Arc(home, d, n) == Arc(home, d - 1, n) + {last};
    }
  }

  /** No entry is farther from its home than there are entries, so 16 bits hold `dib` below 65535 of them. */
  lemma DibBound<K, V>(b: seq<Bucket<K, V>>, m: map<K, V>, hash: K -> nat, i: nat)
    requires Ring(b) && Stores(b, m, hash) && i < |b|
    ensures Dib(b[i]) <= |m|
  {
    if b[i].Used? {
      var home, d := Home(b[i].hash, |b|), b[i].dib;
      assert InPlace(b, i);
      forall j <- Arc(home, d, |b|) ensures j < |b| && b[j].Used? {
        RunUsed(b, i, j);
      }
      ArcSize(home, d, |b|);
      ArcKeys(b, Arc(home, d, |b|), m, hash);
    }
  }

  /** So a carried entry's `dib` is at most one more than the number of entries in the table. */
  lemma CarriedDibBound<K, V>(b: seq<Bucket<K, V>>, m: map<K, V>, hash: K -> nat, e: Bucket<K, V>, i: nat)
    requires Ring(b) && Stores(b, m, hash) && MayTake(b, e, i)
    ensures e.dib <= |m| + 1
  {
    DibBound(b, m, hash, Prev(i, |b|));
  }

  lemma {:induction false} ArcKeys<K, V>(b: seq<Bucket<K, V>>, s: set<nat>, m: map<K, V>, hash: K -> nat)
    requires Stores(b, m, hash) && forall j <- s :: j < |b| && b[j].Used?
    ensures |s| <= |m|
    decreases s
  {
    if s != {} {
      var j :| j in s;
      TakeStores(b, m, hash, j);
      assert m.Keys == (m - {b[j].key}).Keys + {b[j].key};
      ArcKeys(b[j := Free], s - {j}, m - {b[j].key}, hash);
    }
  }
}
