/** The small timestamp LRU cache behind the translation caches. */
module LruCache {
  import opened Wrappers

  datatype Entry<K(==), V> = Entry(key: K, value: V, stamp: nat)

  function IndexOf<K(==), V>(entries: seq<Entry<K, V>>, key: K): (i: nat)
    ensures i <= |entries|
  {
    if entries == [] then 0 else if entries[0].key == key then 0 else 1 + IndexOf(entries[1..], key)
  }

  lemma {:induction false} IndexOfKey<K, V>(entries: seq<Entry<K, V>>, key: K)
    ensures
      var i := IndexOf(entries, key);
      && (i < |entries| ==> entries[i].key == key)
      && forall j :: 0 <= j < i ==> entries[j].key != key
  {
    if entries == [] || entries[0].key == key {
    } else {
      IndexOfKey(entries[1..], key);
      var i := IndexOf(entries, key);
      forall j | 0 <= j < i
        ensures entries[j].key != key
      {
        if j > 0 { assert entries[j] == entries[1..][j - 1]; }
      }
    }
  }

  /** The live entries, in array order, and the number of hits so far. */
  datatype Lru<K(==), V> = Lru(entries: seq<Entry<K, V>>, clock: nat) {

    predicate Has(key: K) { IndexOf(entries, key) < |entries| }

    /** The first entry with the key, or |entries|. */
    function Value(key: K): V
      requires Has(key)
    {
      IndexOfKey(entries, key);
      entries[IndexOf(entries, key)].value
    }

    /** No key is cached twice, and no stamp is ahead of the clock. */
    predicate Valid()
    {
      && (forall i, j :: 0 <= i < j < |entries| ==> entries[i].key != entries[j].key)
      && forall i :: 0 <= i < |entries| ==> entries[i].stamp <= clock
    }
  }

  /** The position of a cached key. */
  lemma IndexIs<K, V>(entries: seq<Entry<K, V>>, key: K, i: nat)
    requires i < |entries| && entries[i].key == key
    requires forall j :: 0 <= j < i ==> entries[j].key != key
    ensures IndexOf(entries, key) == i
  {
    IndexOfKey(entries, key);
  }

  /** A hit stamps the entry with the advanced clock; a miss changes nothing. */
  function Get<K(==), V>(l: Lru<K, V>, key: K): Lru<K, V>
  {
    if !l.Has(key) then l
    else
      var i := IndexOf(l.entries, key);
      Lru(l.entries[i := l.entries[i].(stamp := l.clock + 1)], l.clock + 1)
  }

  function Lookup<K(==), V>(l: Lru<K, V>, key: K): Option<V>
  {
    if l.Has(key) then Some(l.Value(key)) else None
  }

  /** The first of the entries with the lowest stamp. */
  function Oldest<K(==), V>(entries: seq<Entry<K, V>>): (i: nat)
    requires entries != []
    ensures i < |entries|
    ensures forall j :: 0 <= j < |entries| ==> entries[i].stamp <= entries[j].stamp
    ensures forall j :: 0 <= j < i ==> entries[i].stamp < entries[j].stamp
  {
    var last := |entries| - 1;
    if last == 0 then 0
    else
      var i := Oldest(entries[..last]);
      assert forall j :: 0 <= j < last ==> entries[..last][j] == entries[j];
      if entries[last].stamp < entries[i].stamp then last else i
  }

  /** An insertion takes a new entry, or a full cache's oldest; the clock does not advance. */
  function Insert<K(==), V>(l: Lru<K, V>, size: nat, key: K, value: V): Lru<K, V>
    requires size > 0
  {
    var entry := Entry(key, value, l.clock);
    if |l.entries| < size then l.(entries := l.entries + [entry])
    else l.(entries := l.entries[Oldest(l.entries) := entry])
  }

  // ---------------------------------------------------------------- one operation

  lemma SameKeysSameIndex<K, V>(a: seq<Entry<K, V>>, b: seq<Entry<K, V>>, key: K)
    requires |a| == |b| && forall i :: 0 <= i < |a| ==> a[i].key == b[i].key
    ensures IndexOf(a, key) == IndexOf(b, key)
  {
    IndexOfKey(a, key);
    IndexOfKey(b, key);
  }

  /** The i-th entry has another key and a stamp that is not below the key's. */
  predicate Newer<K(==), V>(l: Lru<K, V>, i: nat, key: K)
    requires i < |l.entries| && l.Has(key)
  {
    l.entries[i].key != key && l.entries[i].stamp >= l.entries[IndexOf(l.entries, key)].stamp
  }

  /** The key's entry has a stamp above every other entry's. */
  predicate Newest<K(==), V>(l: Lru<K, V>, key: K)
  {
    l.Has(key) && forall i :: 0 <= i < |l.entries| ==> !Newer(l, i, key)
  }

  /** A hit returns the cached value and keeps every entry but for the hit one's stamp, which is now
      above all others. */
  lemma GetKeeps<K, V>(l: Lru<K, V>, key: K)
    requires l.Valid()
    ensures
      var l' := Get(l, key);
      && l'.Valid() && |l'.entries| == |l.entries|
      && (forall k :: l'.Has(k) == l.Has(k))
      && (forall k :: l.Has(k) ==> l'.Value(k) == l.Value(k))
      && (l.Has(key) ==> Newest(l', key))
  {
    var l' := Get(l, key);
    forall k
      ensures l'.Has(k) == l.Has(k) && (l.Has(k) ==> l'.Value(k) == l.Value(k))
    {
      IndexOfKey(l.entries, k);
      IndexOfKey(l'.entries, k);
      IndexOfKey(l.entries, key);
      SameKeysSameIndex(l.entries, l'.entries, k);
    }
    if l.Has(key) {
      IndexOfKey(l.entries, key);
      IndexIs(l'.entries, key, IndexOf(l.entries, key));
    }
  }

  /** A new entry is stamped with the clock as it is: no entry is newer, but the one hit last, if any,
      is as new. */
  lemma InsertedIsRecent<K, V>(l: Lru<K, V>, size: nat, key: K, value: V)
    requires l.Valid() && size > 0 && !l.Has(key)
    ensures
      var l' := Insert(l, size, key, value);
      && l'.clock == l.clock && l'.Has(key) && l'.entries[IndexOf(l'.entries, key)] == Entry(key, value, l.clock)
      && forall i :: 0 <= i < |l'.entries| ==> l'.entries[i].stamp <= l.clock
  {
    var l' := Insert(l, size, key, value);
    IndexOfKey(l.entries, key);
    IndexIs(l'.entries, key, if |l.entries| < size then |l.entries| else Oldest(l.entries));
  }

  /** The entry that an insertion replaces. */
  function Victim<K(==), V>(l: Lru<K, V>, size: nat): Option<Entry<K, V>>
    requires size > 0
  {
    if |l.entries| < size then None else Some(l.entries[Oldest(l.entries)])
  }

  predicate IsVictim<K(==), V>(l: Lru<K, V>, size: nat, key: K)
    requires size > 0
  {
    Victim(l, size).Some? && Victim(l, size).value.key == key
  }

  lemma InsertKeepsKey<K, V>(l: Lru<K, V>, size: nat, key: K, value: V, k: K)
    requires size > 0 && l.Valid() && |l.entries| <= size && !l.Has(key) && k != key
    ensures
      var l' := Insert(l, size, key, value);
      && (l'.Has(k) <==> l.Has(k) && !IsVictim(l, size, k))
      && (l'.Has(k) ==> l'.Value(k) == l.Value(k) && l'.entries[IndexOf(l'.entries, k)] == l.entries[IndexOf(l.entries, k)])
  {
    var l' := Insert(l, size, key, value);
    IndexOfKey(l.entries, k);
    IndexOfKey(l'.entries, k);
    var i := IndexOf(l.entries, k);
    var i' := IndexOf(l'.entries, k);
    if i < |l.entries| && !IsVictim(l, size, k) {
      IndexIs(l'.entries, k, i);
    }
  }

  /** Inserting a missing key caches it and loses at most the victim, which has the lowest stamp. */
  lemma InsertKeeps<K, V>(l: Lru<K, V>, size: nat, key: K, value: V)
    requires size > 0 && l.Valid() && |l.entries| <= size && !l.Has(key)
    ensures
      var l' := Insert(l, size, key, value);
      && l'.Valid() && |l'.entries| <= size
      && l'.Has(key) && l'.Value(key) == value
      && (forall k :: k != key ==> (l'.Has(k) <==> l.Has(k) && !IsVictim(l, size, k)))
      && (forall k :: k != key && l'.Has(k) ==> l'.Value(k) == l.Value(k))
  {
    var l' := Insert(l, size, key, value);
    var slot := if |l.entries| < size then |l.entries| else Oldest(l.entries);
    IndexOfKey(l.entries, key);
    forall i, j | 0 <= i < j < |l'.entries|
      ensures l'.entries[i].key != l'.entries[j].key
    {
      if i != slot && j != slot { assert l.entries[i].key != l.entries[j].key; }
    }
    IndexIs(l'.entries, key, slot);
    forall k | k != key
      ensures l'.Has(k) <==> l.Has(k) && !IsVictim(l, size, k)
      ensures l'.Has(k) ==> l'.Value(k) == l.Value(k)
    {
      InsertKeepsKey(l, size, key, value, k);
    }
  }

  // ---------------------------------------------------------------- runs

  /** An access inserts its key on a miss. */
  datatype Op<K, V> = Access(key: K, value: V)

  function Apply<K(==), V>(l: Lru<K, V>, size: nat, op: Op<K, V>): Lru<K, V>
    requires size > 0
  {
    if l.Has(op.key) then Get(l, op.key) else Insert(l, size, op.key, op.value)
  }

  function Run<K(==), V>(size: nat, ops: seq<Op<K, V>>): Lru<K, V>
    requires size > 0
  {
    if ops == [] then Lru([], 0) else Apply(Run(size, ops[..|ops| - 1]), size, ops[|ops| - 1])
  }

  /** The value of the last access to a key that missed it. */
  function LastInserted<K(==), V>(size: nat, ops: seq<Op<K, V>>, key: K): Option<V>
    requires size > 0
  {
    if ops == [] then None
    else
      var (before, op) := (ops[..|ops| - 1], ops[|ops| - 1]);
      if op.key == key && !Run(size, before).Has(key) then Some(op.value) else LastInserted(size, before, key)
  }

  /** In every run keys stay distinct, stamps stay within the clock, the size stays within bounds,
      and a cached value is the one most recently inserted for its key. */
  lemma {:induction false} RunValid<K, V>(size: nat, ops: seq<Op<K, V>>)
    requires size > 0
    ensures
      var l := Run(size, ops);
      && l.Valid() && |l.entries| <= size
      && forall k :: l.Has(k) ==> LastInserted(size, ops, k) == Some(l.Value(k))
    decreases |ops|
  {
    if ops == [] {
    } else {
      var (before, op) := (ops[..|ops| - 1], ops[|ops| - 1]);
      RunValid(size, before);
      var l := Run(size, before);
      if l.Has(op.key) { GetKeeps(l, op.key); } else { InsertKeeps(l, size, op.key, op.value); }
    }
  }

  // ---------------------------------------------------------------- recency

  function Touched<K(==), V>(ops: seq<Op<K, V>>): set<K>
  {
    set i | 0 <= i < |ops| :: ops[i].key
  }

  /** Every entry with a stamp not below the key's has been accessed. */
  predicate Recent<K(==), V>(l: Lru<K, V>, key: K, touched: set<K>)
  {
    l.Has(key) && forall i :: 0 <= i < |l.entries| && Newer(l, i, key) ==> l.entries[i].key in touched
  }

  function RunFrom<K(==), V>(l: Lru<K, V>, size: nat, ops: seq<Op<K, V>>): Lru<K, V>
    requires size > 0
  {
    if ops == [] then l else Apply(RunFrom(l, size, ops[..|ops| - 1]), size, ops[|ops| - 1])
  }

  lemma HitRecent<K, V>(l: Lru<K, V>, other: K, key: K, touched: set<K>)
    requires l.Valid() && Recent(l, key, touched) && other != key && l.Has(other)
    ensures Recent(Get(l, other), key, touched + {other})
  {
    var l' := Get(l, other);
    GetKeeps(l, other);
    IndexOfKey(l.entries, key);
    IndexOfKey(l.entries, other);
    SameKeysSameIndex(l.entries, l'.entries, key);
  }

  lemma MissRecent<K, V>(l: Lru<K, V>, size: nat, op: Op<K, V>, key: K, touched: set<K>)
    requires size > 0 && l.Valid() && |l.entries| <= size && Recent(l, key, touched)
    requires op.key != key && !l.Has(op.key) && !IsVictim(l, size, key)
    ensures Recent(Insert(l, size, op.key, op.value), key, touched + {op.key})
  {
    var l' := Insert(l, size, op.key, op.value);
    IndexOfKey(l.entries, key);
    IndexOfKey(l'.entries, key);
    InsertKeepsKey(l, size, op.key, op.value, key);
  }

  lemma AccessRecent<K, V>(l: Lru<K, V>, size: nat, op: Op<K, V>, key: K, touched: set<K>)
    requires size > 0 && l.Valid() && |l.entries| <= size && Recent(l, key, touched) && op.key != key
    ensures
      var l' := Apply(l, size, op);
      && l'.Valid() && |l'.entries| <= size
      && (l'.Has(key) ==> Recent(l', key, touched + {op.key}))
      && (!l'.Has(key) ==> !l.Has(op.key) && |l.entries| == size && IsVictim(l, size, key))
  {
    if l.Has(op.key) {
      GetKeeps(l, op.key);
      HitRecent(l, op.key, key, touched);
    } else {
      InsertKeeps(l, size, op.key, op.value);
      if !IsVictim(l, size, key) { MissRecent(l, size, op, key, touched); }
    }
  }

  lemma {:induction false} DistinctIn<K, V>(es: seq<Entry<K, V>>, s: set<K>)
    requires forall i, j :: 0 <= i < j < |es| ==> es[i].key != es[j].key
    requires forall i :: 0 <= i < |es| ==> es[i].key in s
    ensures |es| <= |s|
  {
    if es == [] {
    } else {
      var last := |es| - 1;
      DistinctIn(es[..last], s - {es[last].key});
    }
  }

  /** The keys other than `key` in a full cache that is about to evict it. */
  lemma VictimHasOldCompany<K, V>(l: Lru<K, V>, size: nat, key: K, touched: set<K>)
    requires size > 0 && l.Valid() && |l.entries| == size && Recent(l, key, touched) && IsVictim(l, size, key)
    ensures |touched| >= size - 1
    ensures forall i :: 0 <= i < size && l.entries[i].key != key ==> l.entries[i].key in touched
  {
    IndexOfKey(l.entries, key);
    var v := Oldest(l.entries);
    assert IndexOf(l.entries, key) == v by { IndexIs(l.entries, key, v); }
    var others := l.entries[..v] + l.entries[v + 1..];
    forall i, j | 0 <= i < j < |others|
      ensures others[i].key != others[j].key
    {
      var a := if i < v then i else i + 1;
      var b := if j < v then j else j + 1;
      assert l.entries[a].key != l.entries[b].key;
    }
    forall i | 0 <= i < |others|
      ensures others[i].key in touched
    {
      var a := if i < v then i else i + 1;
      assert others[i] == l.entries[a];
    }
    DistinctIn(others, touched);
  }

  lemma VictimCount<K, V>(l: Lru<K, V>, size: nat, key: K, other: K, touched: set<K>)
    requires size > 0 && l.Valid() && |l.entries| == size && Recent(l, key, touched) && IsVictim(l, size, key)
    requires !l.Has(other) && other != key
    ensures |touched + {other}| >= size
  {
    var rest := touched - {other};
    forall i | 0 <= i < |l.entries| && l.entries[i].key != key && l.entries[i].key in touched
      ensures l.entries[i].key in rest
    {
      IndexOfKey(l.entries, other);
    }
    assert Recent(l, key, rest);
    VictimHasOldCompany(l, size, key, rest);
    assert touched + {other} == rest + {other};
  }

  lemma {:induction false} SubsetSize<K>(a: set<K>, b: set<K>)
    requires a <= b
    ensures |a| <= |b|
  {
    if a == {} {
    } else {
      var x :| x in a;
      SubsetSize(a - {x}, b - {x});
    }
  }

  /** Once evicted, a key that is not accessed stays out. */
  lemma Lost<K, V>(l: Lru<K, V>, size: nat, op: Op<K, V>, key: K, before: seq<Op<K, V>>, ops: seq<Op<K, V>>)
    requires size > 0 && l.Valid() && |l.entries| <= size && !l.Has(key) && op.key != key
    requires Touched(ops) == Touched(before) + {op.key} && |Touched(before)| >= size
    ensures
      var l' := Apply(l, size, op);
      l'.Valid() && |l'.entries| <= size && !l'.Has(key) && |Touched(ops)| >= size
  {
    if l.Has(op.key) { GetKeeps(l, op.key); } else { InsertKeeps(l, size, op.key, op.value); }
    SubsetSize(Touched(before), Touched(ops));
  }

  /** The LRU guarantee, in spite of tied stamps: after a hit, a key is evicted only once at least
      as many other keys have been accessed as the cache has entries. */
  lemma {:induction false} EvictedOnlyWhenOld<K, V>(l: Lru<K, V>, size: nat, key: K, ops: seq<Op<K, V>>)
    requires size > 0 && l.Valid() && |l.entries| <= size && l.Has(key)
    requires forall i :: 0 <= i < |ops| ==> ops[i].key != key
    ensures
      var l' := RunFrom(Get(l, key), size, ops);
      && l'.Valid() && |l'.entries| <= size
      && if l'.Has(key) then Recent(l', key, Touched(ops)) else |Touched(ops)| >= size
    decreases |ops|
  {
    if ops == [] {
      GetKeeps(l, key);
    } else {
      var last := |ops| - 1;
      var (before, op) := (ops[..last], ops[last]);
      EvictedOnlyWhenOld(l, size, key, before);
      assert Touched(ops) == Touched(before) + {op.key};
      var l1 := RunFrom(Get(l, key), size, before);
      if l1.Has(key) {
        AccessRecent(l1, size, op, key, Touched(before));
        if !RunFrom(Get(l, key), size, ops).Has(key) {
          VictimCount(l1, size, key, op.key, Touched(before));
        }
      } else {
        Lost(l1, size, op, key, before, ops);
      }
    }
  }

  /** The entry hit most recently, if nothing has been hit since, is evicted exactly when it is the
      first entry and all stamps in the full cache are equal. */
  lemma LastHitEvictedExactly<K, V>(l: Lru<K, V>, size: nat, key: K)
    requires size > 0 && l.Valid() && |l.entries| == size && l.Has(key)
    requires l.entries[IndexOf(l.entries, key)].stamp == l.clock
    ensures
      IsVictim(l, size, key) <==>
        IndexOf(l.entries, key) == 0 && forall i :: 0 <= i < size ==> l.entries[i].stamp == l.clock
  {
    IndexOfKey(l.entries, key);
    var v := Oldest(l.entries);
    if IsVictim(l, size, key) {
      IndexIs(l.entries, key, v);
    }
  }

  // ---------------------------------------------------------------- the class

  class TimestampLruCache<K(==, 0), V(0)> {
    var totalCacheAccess: nat
    var currentCacheSize: nat
    const cache: array<Entry<K, V>>

    ghost predicate Valid()
      reads this
    {
      currentCacheSize <= cache.Length && cache.Length > 0
    }

    ghost function View(): Lru<K, V>
      reads this, cache
      requires Valid()
    {
      Lru(cache[..currentCacheSize], totalCacheAccess)
    }

    constructor (size: nat, blank: Entry<K, V>)
      requires size > 0
      ensures Valid() && fresh(cache) && cache.Length == size && View() == Lru([], 0)
    {
      cache := new Entry<K, V>[size](i => blank);
      totalCacheAccess, currentCacheSize := 0, 0;
    }

    /** The position of the first live entry with the key. */
    method FindKey(key: K) returns (i: nat)
      requires Valid()
      ensures i == IndexOf(cache[..currentCacheSize], key)
    {
      i := 0;
      while i < currentCacheSize && cache[i].key != key
        invariant i <= currentCacheSize
        invariant forall j :: 0 <= j < i ==> cache[j].key != key
      {
        i := i + 1;
      }
      IndexOfKey(cache[..currentCacheSize], key);
      if i < currentCacheSize {
        IndexIs(cache[..currentCacheSize], key, i);
      }
    }

    method GetEntry(key: K) returns (value: Option<V>)
      requires Valid()
      modifies this, cache
      ensures Valid() && View() == Get(old(View()), key) && value == Lookup(old(View()), key)
    {
      var i := FindKey(key);
      IndexOfKey(cache[..currentCacheSize], key);
      if i == currentCacheSize {
        return None;
      }
      totalCacheAccess := totalCacheAccess + 1;
      cache[i] := cache[i].(stamp := totalCacheAccess);
      assert cache[..currentCacheSize] == old(cache[..currentCacheSize])[i := cache[i]];
      value := Some(cache[i].value);
    }

    method InsertEntry(key: K, value: V)
      requires Valid()
      modifies this, cache
      ensures Valid() && View() == Insert(old(View()), cache.Length, key, value)
    {
      var i := FindEvictionEntry();
      cache[i] := Entry(key, value, totalCacheAccess);
    }

    /** The next free entry if there is one, otherwise the first with the lowest stamp. */
    method FindEvictionEntry() returns (i: nat)
      requires Valid()
      modifies `currentCacheSize
      ensures Valid() && i < currentCacheSize
      ensures
        var size := old(currentCacheSize);
        if size < cache.Length then i == size && currentCacheSize == size + 1
        else currentCacheSize == size && i == Oldest(cache[..size])
    {
      if currentCacheSize >= cache.Length {
        i := 0;
        for j := 1 to currentCacheSize
          invariant i < j && i == Oldest(cache[..j])
        {
          assert cache[..j + 1][..j] == cache[..j];
          if cache[j].stamp < cache[i].stamp {
            i := j;
          }
        }
      } else {
        currentCacheSize := currentCacheSize + 1;
        i := currentCacheSize - 1;
      }
    }
  }
}
