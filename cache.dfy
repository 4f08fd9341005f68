/** TLRUCache: a least-recently-used list of entries, most recent first,
    with an index from key to entry; entries expire lazily when a get finds
    them past their expiry time, and a put that overflows the capacity
    evicts the last entry of the list. The clock is a parameter `now`, in
    seconds. */
module Cache {
  import opened Wire

  /** cacheKey: a name and a record type. */
  datatype CacheKey = CacheKey(name: string, qtype: u16)

  /** cacheKey::operator==: names byte for byte, with case, and types. */
  predicate SameKey(a: CacheKey, b: CacheKey): (r: bool)
    ensures r <==> a == b
  {
    a.name == b.name && a.qtype == b.qtype
  }

  /** CacheEntry: the key, the value and the absolute expiry time. */
  datatype CacheEntry<V> = CacheEntry(key: CacheKey, value: V, expire: int)

  /** No key occurs twice in the list. */
  predicate Distinct<V>(l: seq<CacheEntry<V>>)
  {
    forall i, j :: 0 <= i < j < |l| ==> l[i].key != l[j].key
  }

  /** The keys of the list. */
  function Keys<V>(l: seq<CacheEntry<V>>): (ks: set<CacheKey>)
    ensures forall k :: k in ks <==> exists i :: 0 <= i < |l| && l[i].key == k
  {
    if l == [] then {} else {l[0].key} + Keys(l[1..])
  }

  /** The first entry with key `k`, if any: what cacheMap.find(k) points to. */
  function Find<V>(l: seq<CacheEntry<V>>, k: CacheKey): (r: Option<CacheEntry<V>>)
    ensures r.None? <==> k !in Keys(l)
    ensures r.Some? ==> r.value in l && r.value.key == k
  {
    if l == [] then None
    else if l[0].key == k then Some(l[0])
    else Find(l[1..], k)
  }

  /** The list without the entries of key `k`: list.erase(it) on the entry
      the index holds for `k`. */
  function Remove<V>(l: seq<CacheEntry<V>>, k: CacheKey): seq<CacheEntry<V>>
  {
    if l == [] then []
    else if l[0].key == k then Remove(l[1..], k)
    else [l[0]] + Remove(l[1..], k)
  }

  /** cacheMap: each key of the list to its entry, as the index the list
      keeps beside it. */
  function Index<V>(l: seq<CacheEntry<V>>): map<CacheKey, CacheEntry<V>>
  {
    if l == [] then map[] else Index(l[1..])[l[0].key := l[0]]
  }

  /** static_cast<size_t>(capacity): a negative capacity becomes a size
      near 2^64, which no cache reaches. */
  function Limit(capacity: int): (n: nat)
    requires -0x8000_0000 <= capacity < 0x8000_0000
    ensures capacity >= 0 ==> n == capacity
    ensures capacity < 0 ==> n >= 0x1_0000_0000_0000_0000 - 0x8000_0000
  {
    if capacity >= 0 then capacity else capacity + 0x1_0000_0000_0000_0000
  }

  /** get, on the list: a miss for an absent key, changing nothing; a miss
      that erases the entry when `now` is past its expiry time; otherwise
      the entry's value, with the entry spliced to the front. */
  function Lookup<V>(l: seq<CacheEntry<V>>, k: CacheKey, now: int): (Option<V>, seq<CacheEntry<V>>)
  {
    match Find(l, k)
    case None => (None, l)
    case Some(e) =>
      if now > e.expire then (None, Remove(l, k))
      else (Some(e.value), [e] + Remove(l, k))
  }

  /** put, on the list: the old entry of the key erased, the new one pushed
      to the front with expiry now + TTL, and the back popped when the size
      passes the limit. */
  function Insert<V>(l: seq<CacheEntry<V>>, k: CacheKey, value: V, ttl: u32, now: int, limit: nat): seq<CacheEntry<V>>
  {
    var pushed := [CacheEntry(k, value, now + ttl as int)] + Remove(l, k);
    if |pushed| > limit then pushed[..|pushed| - 1] else pushed
  }

  /** Erasing key `k` deletes exactly the one entry that holds it, keeping
      the others in their order. */
  lemma {:induction false} RemoveAt<V>(l: seq<CacheEntry<V>>, i: nat)
    requires Distinct(l) && i < |l|
    ensures Remove(l, l[i].key) == l[..i] + l[i + 1..]
  {
    if i == 0 {
      RemoveAbsent(l[1..], l[0].key);
      assert l[..0] + l[1..] == l[1..];
    } else {
      assert Distinct(l[1..]);
      RemoveAt(l[1..], i - 1);
      assert l[1..][i - 1] == l[i];
      assert l[..i] == [l[0]] + l[1..][..i - 1];
      assert l[i + 1..] == l[1..][i..];
    }
  }

  /** Erasing a key the list does not hold changes nothing. */
  lemma {:induction false} RemoveAbsent<V>(l: seq<CacheEntry<V>>, k: CacheKey)
    requires k !in Keys(l)
    ensures Remove(l, k) == l
  {
    if l != [] {
      assert l[0].key != k;
      assert k !in Keys(l[1..]);
      RemoveAbsent(l[1..], k);
      assert [l[0]] + l[1..] == l;
    }
  }

  /** After erasing `k` the list holds every other key it held, and no `k`. */
  lemma {:induction false} RemoveKeys<V>(l: seq<CacheEntry<V>>, k: CacheKey)
    ensures Keys(Remove(l, k)) == Keys(l) - {k}
    ensures |Remove(l, k)| <= |l|
    ensures k in Keys(l) ==> |Remove(l, k)| < |l|
  {
    if l != [] {
      RemoveKeys(l[1..], k);
    }
  }

  /** Erasing keeps the keys distinct. */
  lemma {:induction false} RemoveDistinct<V>(l: seq<CacheEntry<V>>, k: CacheKey)
    requires Distinct(l)
    ensures Distinct(Remove(l, k))
  {
    if l != [] {
      assert Distinct(l[1..]);
      RemoveDistinct(l[1..], k);
      if l[0].key != k {
        RemoveKeys(l[1..], k);
        assert l[0].key !in Keys(l[1..]);
        var r := [l[0]] + Remove(l[1..], k);
        forall i, j | 0 <= i < j < |r|
          ensures r[i].key != r[j].key
        {
          if i == 0 {
            assert r[j] == Remove(l[1..], k)[j - 1];
          }
        }
      }
    }
  }

  /** Pushing an entry whose key the list lacks keeps the keys distinct. */
  lemma PushDistinct<V>(e: CacheEntry<V>, l: seq<CacheEntry<V>>)
    requires Distinct(l) && e.key !in Keys(l)
    ensures Distinct([e] + l)
  {
    var r := [e] + l;
    forall i, j | 0 <= i < j < |r|
      ensures r[i].key != r[j].key
    {
      if i == 0 {
        assert r[j] == l[j - 1];
      }
    }
  }

  /** The index holds exactly the list's keys, each to the first entry that
      has it. */
  lemma {:induction false} IndexFind<V>(l: seq<CacheEntry<V>>, k: CacheKey)
    ensures k in Index(l) <==> k in Keys(l)
    ensures k in Index(l) ==> Find(l, k) == Some(Index(l)[k])
  {
    if l != [] {
      IndexFind(l[1..], k);
    }
  }

  /** The index has as many entries as the list when no key repeats:
      cacheMap.size() is the list's length. */
  lemma {:induction false} IndexSize<V>(l: seq<CacheEntry<V>>)
    requires Distinct(l)
    ensures |Index(l)| == |l|
  {
    if l != [] {
      assert Distinct(l[1..]);
      IndexSize(l[1..]);
      IndexFind(l[1..], l[0].key);
      assert l[0].key !in Keys(l[1..]);
    }
  }

  /** The index of the list with `k` erased is the index with `k` erased. */
  lemma {:induction false} IndexRemove<V>(l: seq<CacheEntry<V>>, k: CacheKey)
    requires Distinct(l)
    ensures Index(Remove(l, k)) == Index(l) - {k}
  {
    if l != [] {
      assert Distinct(l[1..]);
      IndexRemove(l[1..], k);
      if l[0].key == k {
        IndexFind(l[1..], k);
        assert k !in Keys(l[1..]);
      }
    }
  }

  /** Pushing an entry to the front of the list with its key erased: the
      index maps the key to the new entry and keeps the others, and keeps
      the size of the list. */
  lemma PushIndex<V>(l: seq<CacheEntry<V>>, e: CacheEntry<V>)
    requires Distinct(l)
    ensures Index(Remove(l, e.key)) == Index(l) - {e.key}
    ensures e.key !in Index(l) ==> Remove(l, e.key) == l
    ensures Distinct([e] + Remove(l, e.key))
    ensures Index([e] + Remove(l, e.key)) == Index(l)[e.key := e]
    ensures |Index([e] + Remove(l, e.key))| == 1 + |Remove(l, e.key)|
  {
    var k := e.key;
    IndexFind(l, k);
    if k !in Index(l) {
      RemoveAbsent(l, k);
    }
    IndexRemove(l, k);
    RemoveDistinct(l, k);
    RemoveKeys(l, k);
    PushDistinct(e, Remove(l, k));
    var r := [e] + Remove(l, k);
    assert r[1..] == Remove(l, k);
    IndexSize(r);
  }

  /** Popping the back of a list without repeated keys erases the back's key
      from its index. */
  lemma {:induction false} IndexPop<V>(l: seq<CacheEntry<V>>)
    requires Distinct(l) && l != []
    ensures Index(l[..|l| - 1]) == Index(l) - {l[|l| - 1].key}
    ensures Distinct(l[..|l| - 1])
  {
    var last := |l| - 1;
    RemoveAt(l, last);
    assert l[last + 1..] == [];
    assert l[..last] + [] == l[..last];
    IndexRemove(l, l[last].key);
  }

  /** A get that misses an absent key changes nothing; one that finds an
      entry past its time erases it and nothing else; one that finds a live
      entry, its expiry time included, returns its value and moves it to the
      front, the others keeping their order. */
  lemma LookupMeaning<V>(l: seq<CacheEntry<V>>, i: nat, now: int)
    requires Distinct(l) && i < |l|
    ensures var (r, l') := Lookup(l, l[i].key, now);
      && (now > l[i].expire ==> r == None && l' == l[..i] + l[i + 1..])
      && (now <= l[i].expire ==> r == Some(l[i].value) && l' == [l[i]] + l[..i] + l[i + 1..])
  {
    var k := l[i].key;
    FindAt(l, i);
    RemoveAt(l, i);
    assert [l[i]] + (l[..i] + l[i + 1..]) == [l[i]] + l[..i] + l[i + 1..];
  }

  /** In a list without repeated keys, the entry found for a key is the
      one at its position. */
  lemma {:induction false} FindAt<V>(l: seq<CacheEntry<V>>, i: nat)
    requires Distinct(l) && i < |l|
    ensures Find(l, l[i].key) == Some(l[i])
  {
    if i > 0 {
      assert Distinct(l[1..]);
      assert l[0].key != l[i].key;
      FindAt(l[1..], i - 1);
    }
  }

  /** A get never changes which keys are distinct, and the list it leaves
      is never longer. */
  lemma LookupKeeps<V>(l: seq<CacheEntry<V>>, k: CacheKey, now: int)
    requires Distinct(l)
    ensures Distinct(Lookup(l, k, now).1) && |Lookup(l, k, now).1| <= |l|
    ensures Keys(Lookup(l, k, now).1) <= Keys(l)
  {
    RemoveDistinct(l, k);
    RemoveKeys(l, k);
    if Find(l, k).Some? {
      var e := Find(l, k).value;
      PushDistinct(e, Remove(l, k));
      assert ([e] + Remove(l, k))[1..] == Remove(l, k);
    }
  }

  /** After a put the keys are still distinct and, with a capacity of at
      least one, the new entry is at the front; its key occurs once. */
  lemma InsertFront<V>(l: seq<CacheEntry<V>>, k: CacheKey, value: V, ttl: u32, now: int, limit: nat)
    requires Distinct(l)
    ensures Distinct(Insert(l, k, value, ttl, now, limit))
    ensures limit >= 1 ==> Insert(l, k, value, ttl, now, limit)[0] == CacheEntry(k, value, now + ttl as int)
    ensures limit >= 1 ==> Find(Insert(l, k, value, ttl, now, limit), k) == Some(CacheEntry(k, value, now + ttl as int))
  {
    var e := CacheEntry(k, value, now + ttl as int);
    RemoveDistinct(l, k);
    RemoveKeys(l, k);
    PushDistinct(e, Remove(l, k));
    var pushed := [e] + Remove(l, k);
    if |pushed| > limit {
      var r := pushed[..|pushed| - 1];
      assert forall i, j :: 0 <= i < j < |r| ==> r[i] == pushed[i] && r[j] == pushed[j];
    }
  }

  /** A put grows the list by at most one entry, and a cache that was
      within a non-negative capacity stays within it. */
  lemma InsertBound<V>(l: seq<CacheEntry<V>>, k: CacheKey, value: V, ttl: u32, now: int, limit: nat)
    ensures |Insert(l, k, value, ttl, now, limit)| <= |l| + 1
    ensures |l| <= limit ==> |Insert(l, k, value, ttl, now, limit)| <= limit
  {
    RemoveKeys(l, k);
  }

  /** The entry a put evicts is the least recently used one: what remains
      is the pushed list without its last entry, and only when it was over
      the limit. */
  lemma InsertEvictsBack<V>(l: seq<CacheEntry<V>>, k: CacheKey, value: V, ttl: u32, now: int, limit: nat)
    ensures var pushed := [CacheEntry(k, value, now + ttl as int)] + Remove(l, k);
      var r := Insert(l, k, value, ttl, now, limit);
      && r <= pushed
      && (|r| < |pushed| <==> |pushed| > limit)
      && |pushed| - 1 <= |r|
  {
  }

  /** Expiry is strict: a put with TTL t at time `now` hits at any time up to
      now + t, that instant included, and misses after it. */
  lemma PutThenGet<V>(l: seq<CacheEntry<V>>, k: CacheKey, value: V, ttl: u32, now: int, later: int, limit: nat)
    requires Distinct(l) && limit >= 1
    ensures Lookup(Insert(l, k, value, ttl, now, limit), k, later).0
      == if later > now + ttl as int then None else Some(value)
  {
    InsertFront(l, k, value, ttl, now, limit);
  }

  /** TLRUCache: the capacity given at construction, the list and the
      index. */
  class TLRUCache<V(==)> {
    const capacity: int
    var list: seq<CacheEntry<V>>
    var cacheMap: map<CacheKey, CacheEntry<V>>

    /** No key repeats in the list, and the index is the list's. */
    predicate Valid()
      reads this
    {
      -0x8000_0000 <= capacity < 0x8000_0000 && Distinct(list) && cacheMap == Index(list)
    }

    /** A new cache is empty. */
    constructor (capacity: int)
      requires -0x8000_0000 <= capacity < 0x8000_0000
      ensures this.capacity == capacity && list == [] && cacheMap == map[]
      ensures Valid()
    {
      this.capacity := capacity;
      list := [];
      cacheMap := map[];
    }

    /** TLRUCache::get. */
    method Get(key: CacheKey, now: int) returns (r: Option<V>)
      requires Valid()
      modifies this
      ensures Valid()
      ensures (r, list) == Lookup(old(list), key, now)
    {
      IndexFind(list, key);
      if key !in cacheMap {
        return None;
      }
      var entry := cacheMap[key];
      RemoveDistinct(list, key);
      IndexRemove(list, key);
      RemoveKeys(list, key);
      if now > entry.expire {
        list := Remove(list, key);
        cacheMap := cacheMap - {key};
        return None;
      }
      list := [entry] + Remove(list, key);
      PushDistinct(entry, Remove(old(list), key));
      return Some(entry.value);
    }

    /** TLRUCache::put. */
    method Put(key: CacheKey, value: V, ttl: u32, now: int)
      requires Valid()
      modifies this
      ensures Valid()
      ensures list == Insert(old(list), key, value, ttl, now, Limit(capacity))
    {
      var entry := CacheEntry(key, value, now + ttl as int);
      PushIndex(list, entry);
      if key in cacheMap {
        list := Remove(list, key);
        cacheMap := cacheMap - {key};
      }
      list := [entry] + list;
      cacheMap := cacheMap[key := entry];
      if |cacheMap| > Limit(capacity) {
        var keyToEvict := list[|list| - 1].key;
        IndexPop(list);
        cacheMap := cacheMap - {keyToEvict};
        list := list[..|list| - 1];
      }
    }
  }

  /** A get or a put leaves the index the same size as the list, and a put
      on a cache within a non-negative capacity keeps it within. */
  lemma PutBound<V>(l: seq<CacheEntry<V>>, k: CacheKey, value: V, ttl: u32, now: int, capacity: int)
    requires -0x8000_0000 <= capacity < 0x8000_0000 && Distinct(l)
    requires capacity >= 0 && |l| <= capacity
    ensures var l' := Insert(l, k, value, ttl, now, Limit(capacity));
      |Index(l')| == |l'| <= capacity
  {
    InsertFront(l, k, value, ttl, now, Limit(capacity));
    InsertBound(l, k, value, ttl, now, Limit(capacity));
    IndexSize(Insert(l, k, value, ttl, now, Limit(capacity)));
  }
}
