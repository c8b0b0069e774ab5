/** libsd's own hash table (hash_table.c): linear probing, doubling, and removal without tombstones. */
module HashTable {
  import opened Wrappers
  import opened Probe
  import opened OpenTable

  const INIT_SIZE: nat := 8
  const WORD: nat := 0x1_0000_0000_0000_0000

  /** The only supported keys are longs. */
  type Key = int

  /** Linear probing. */
  function Linear(power: nat, hash: Key -> nat): Scheme<Key> {
    Scheme(power, hash, key => 1)
  }

  /** Multiples of a power of two up to 2^64 survive the wrap-around of a 64-bit sum. */
  lemma {:induction false} WordIsMultiple(power: nat) returns (q: nat)
    requires power <= 64
    ensures WORD == q * Pow2(power)
    decreases 64 - power
  {
    if power == 64 {
      WordIsPow2();
      q := 1;
    } else {
      var q' := WordIsMultiple(power + 1);
      q := 2 * q';
      MoveTwo(q', Pow2(power));
    }
  }

  lemma MoveTwo(q: nat, x: nat)
    ensures q * (2 * x) == (2 * q) * x
  {
  }

  lemma WordIsPow2()
    ensures Pow2(64) == WORD
  {
    hide Pow2;
    Pow2Zero();
    Pow2Step(0);
    Pow2Step(16);
    Pow2Step(32);
    Pow2Step(48);
    assert Pow2(32) == 0x1_0000_0000 && Pow2(48) == 0x1_0000_0000_0000;
  }

  lemma Pow2Zero()
    ensures Pow2(0) == 1
  {
  }

  lemma Pow2Step(p: nat)
    ensures Pow2(p + 16) == 0x1_0000 * Pow2(p)
  {
    Pow2Four(p); Pow2Four(p + 4); Pow2Four(p + 8); Pow2Four(p + 12);
  }

  lemma Pow2Four(p: nat)
    ensures Pow2(p + 4) == 16 * Pow2(p)
  {
    assert Pow2(p + 1) == 2 * Pow2(p) && Pow2(p + 2) == 2 * Pow2(p + 1) && Pow2(p + 3) == 2 * Pow2(p + 2);
  }

  /** The slot the code computes, with its 64-bit sum, is the slot of the probe sequence. */
  lemma WrapIsHarmless(h: nat, i: nat, power: nat)
    requires power <= 64
    ensures ((h + i) % WORD) % Pow2(power) == Slot(h, 1, Pow2(power), i)
  {
    var q := WordIsMultiple(power);
    ModOfMod(h + i, WORD, Pow2(power), q);
  }

  lemma ModOfMod(a: nat, w: nat, n: nat, q: nat)
    requires n > 0 && w > 0 && w == q * n
    ensures (a % w) % n == a % n
  {
    var r, c := a % w, a / w;
    Regroup(c, q, n, r / n);
    assert a == c * w + r && r == (r / n) * n + r % n;
    ModUnique(a, r % n, c * q + r / n, n);
  }

  lemma Regroup(c: nat, q: nat, n: nat, d: nat)
    ensures (c * q + d) * n == c * (q * n) + d * n
  {
    assert (c * q) * n == c * (q * n);
  }

  /** The loop of `ht_index`, on a table where the probe stops. */
  method ProbeLoop<V>(tbl: array<Entry<Key, V>>, h1: nat, key: Key, ghost s: Scheme<Key>) returns (hash: nat)
    requires tbl.Length == s.Size() && s.power <= 64 && s.hash(key) == h1 && s.stride(key) == 1
    requires Find(s, KeysOf(tbl[..]), key, 0).Some?
    ensures hash < tbl.Length && Find(s, KeysOf(tbl[..]), key, 0) == Some(hash)
  {
    var n := tbl.Length;
    ghost var keys := KeysOf(tbl[..]);
    ghost var k := FindPasses(s, keys, key, 0);
    var i := 0;
    while i < n * 16
      invariant 0 <= i <= k
    {
      hash := ((h1 + i) % WORD) % n;
      WrapIsHarmless(h1, i, s.power);
      assert hash == s.At(key, i) && keys[hash] == if tbl[hash].Used? then Some(tbl[hash].key) else None;
      if tbl[hash].Free? || tbl[hash].key == key {
        StopsAt(s, keys, key, i);
        return;
      }
      i := i + 1;
    }
    assert false;
  }

  class HashTable<V> {
    const hashFn: Key -> nat
    var tbl: array<Entry<Key, V>>
    var size: nat
    ghost var power: nat
    ghost var contents: map<Key, V>

    ghost function Probing(): Scheme<Key>
      reads this
    {
      Linear(power, hashFn)
    }

    /** The table holds the contents and has a free slot; its size is a power of two that 64 bits can index. */
    ghost predicate Valid()
      reads this, tbl
    {
      && 3 <= power <= 58
      && Holds(Probing(), tbl[..], contents)
      && size == |contents| < tbl.Length
    }

    /** The load after an insertion; `ht_double_table` starts from a table that may be over it. */
    ghost predicate Loaded()
      reads this, tbl
    {
      5 * (size + 1) <= 3 * tbl.Length
    }

    /** `sd_hash_table_new`. */
    constructor (hashFn: Key -> nat)
      ensures Valid() && Loaded() && fresh(tbl) && contents == map[] && this.hashFn == hashFn && tbl.Length == INIT_SIZE
    {
      this.hashFn := hashFn;
      tbl := new Entry<Key, V>[INIT_SIZE](_ => Free);
      size, power, contents := 0, 3, map[];
      new;
      assert Pow2(3) == 8 by { assert Pow2(1) == 2 && Pow2(2) == 4; }
      EmptyHolds(Probing(), tbl[..]);
    }

    /** `ht_index`: the probe always stops, so -1 is never returned. */
    method Index(key: Key) returns (hash: nat)
      requires Valid()
      ensures hash < tbl.Length && Find(Probing(), KeysOf(tbl[..]), key, 0) == Some(hash)
    {
      ProbeStops(Probing(), tbl[..], contents, key);
      hash := ProbeLoop(tbl, hashFn(key), key, Probing());
    }

    /** `sd_hash_table_lookup`; `sd_hash_table_contains` is whether it finds something. */
    method Lookup(key: Key) returns (val: Option<V>)
      requires Valid()
      ensures val == if key in contents then Some(contents[key]) else None
    {
      var i := Index(key);
      ProbeDecides(Probing(), tbl[..], contents, key, i);
      return if tbl[i].Used? then Some(tbl[i].val) else None;
    }

    /** The first half of `sd_hash_table_insert`: whether the key is new. */
    method Store(key: Key, val: V) returns (isNew: bool)
      requires Valid() && size + 1 < tbl.Length
      modifies this`size, this`contents, tbl
      ensures Valid() && contents == old(contents)[key := val]
      ensures isNew <==> key !in old(contents)
      ensures size == old(size) + if isNew then 1 else 0
    {
      var i := Index(key);
      ProbeDecides(Probing(), tbl[..], contents, key, i);
      StoreUpdates(Probing(), tbl[..], contents, key, val, i);
      isNew := tbl[i].Free?;
      tbl[i] := Used(key, val);
      contents := contents[key := val];
      if isNew {
        size := size + 1;
      }
    }

    /**
     * `sd_hash_table_remove`: the slot of the key becomes free, which leaves the table right exactly when no other
     * entry's probe crosses that slot.
     */
    method Remove(key: Key) returns (ghost slot: nat)
      requires Valid()
      modifies this`size, this`contents, tbl
      ensures slot < tbl.Length && Find(Probing(), KeysOf(old(tbl[..])), key, 0) == Some(slot)
      ensures key !in old(contents) ==> Valid() && contents == old(contents) && tbl[..] == old(tbl[..])
      ensures key in old(contents) ==> tbl[..] == old(tbl[..])[slot := Free] && size == old(size) - 1
      ensures key in old(contents) ==> contents == old(contents) - {key} && (Valid() <==> SafeToFree(Probing(), old(tbl[..]), slot))
    {
      var i := Index(key);
      slot := i;
      ProbeDecides(Probing(), tbl[..], contents, key, i);
      if tbl[i].Used? {
        Release(i);
      }
    }

    /** The body of `sd_hash_table_remove`. */
    method Release(i: nat)
      requires Valid() && i < tbl.Length && tbl[i].Used? && tbl[i].key in contents
      modifies this`size, this`contents, tbl
      ensures tbl[..] == old(tbl[..])[i := Free] && size == old(size) - 1 && contents == old(contents) - {old(tbl[i].key)}
      ensures Valid() <==> SafeToFree(Probing(), old(tbl[..]), i)
    {
      RemoveExact(Probing(), tbl[..], contents, i);
      RemoveCounts(contents, tbl[i].key);
      contents := contents - {tbl[i].key};
      tbl[i] := Free;
      size := size - 1;
    }

    /** `sd_hash_table_insert`: the map is updated; the table doubles when it is too full. */
    method Insert(key: Key, val: V)
      requires Valid() && Loaded() && (5 * (size + 2) > 3 * tbl.Length ==> tbl.Length < Pow2(58))
      modifies this, tbl
      ensures Valid() && Loaded() && contents == old(contents)[key := val]
      ensures tbl == old(tbl) || (fresh(tbl) && tbl.Length == 2 * old(tbl.Length))
      ensures tbl != old(tbl) <==> key !in old(contents) && 5 * (old(size) + 2) > 3 * old(tbl.Length)
      decreases if 5 * (size + 2) > 3 * tbl.Length then 4 else 0
    {
      var isNew := Store(key, val);
      if isNew && 5 * (size + 1) > 3 * tbl.Length {
        DoubleTable();
      }
    }

    /** `ht_double_table`: the entries are inserted again, and none of these insertions doubles the table. */
    method DoubleTable()
      requires Valid() && 5 * size <= 3 * tbl.Length && tbl.Length < Pow2(58)
      modifies this
      ensures Valid() && Loaded() && contents == old(contents) && fresh(tbl) && tbl.Length == 2 * old(tbl.Length)
      decreases 3
    {
      AtLeastEight(power);
      ghost var all, s := contents, Probing();
      var oldTbl := tbl;
      StartDouble();
      Rehash(oldTbl, s, all);
    }

    /** The rehashing loop. */
    method Rehash(oldTbl: array<Entry<Key, V>>, ghost s: Scheme<Key>, ghost all: map<Key, V>)
      requires Valid() && Loaded() && contents == map[]
      requires oldTbl != tbl && tbl.Length == 2 * oldTbl.Length >= 16
      requires Holds(s, oldTbl[..], all) && 5 * |all| <= 3 * oldTbl.Length
      modifies this, tbl
      ensures Valid() && Loaded() && tbl == old(tbl) && contents == all
      decreases 2
    {
      ghost var slots := oldTbl[..];
      var i := 0;
      while i < oldTbl.Length
        invariant 0 <= i <= oldTbl.Length && oldTbl[..] == slots
        invariant Valid() && Loaded() && tbl == old(tbl)
        invariant contents == Entries(slots, i)
      {
        EntriesOfTable(s, slots, all, i);
        Reinsert(oldTbl[i], slots, i);
        i := i + 1;
      }
      EntriesOfTable(s, slots, all, i);
    }

    /** The body of the rehashing loop. */
    method Reinsert(e: Entry<Key, V>, ghost slots: seq<Entry<Key, V>>, ghost i: nat)
      requires Valid() && Loaded() && 5 * (|contents| + 2) <= 3 * tbl.Length
      requires i < |slots| && e == slots[i] && contents == Entries(slots, i)
      modifies this, tbl
      ensures Valid() && Loaded() && tbl == old(tbl) && contents == Entries(slots, i + 1)
      decreases 1
    {
      if e.Used? {
        Insert(e.key, e.val);
      }
    }

    lemma TableSize()
      requires Valid()
      ensures tbl.Length == Pow2(power) && Pow2(power + 1) == 2 * Pow2(power)
    {
    }

    /** The empty table of twice the size. */
    method StartDouble()
      requires Valid() && tbl.Length < Pow2(58)
      modifies this
      ensures Valid() && Loaded() && contents == map[] && fresh(tbl) && tbl.Length == 2 * old(tbl.Length)
    {
      hide Holds, Pow2;
      TableSize();
      PowerBelow(power, 58);
      power, size, contents := power + 1, 0, map[];
      tbl := new Entry<Key, V>[2 * tbl.Length](_ => Free);
      EmptyHolds(Probing(), tbl[..]);
    }
  }

  /** It is enough that the next slot, cyclically, is free. */
  lemma NextFreeIsSafe<V>(power: nat, hash: Key -> nat, tbl: seq<Entry<Key, V>>, i: nat)
    requires |tbl| == Linear(power, hash).Size() && i < |tbl| && tbl[(i + 1) % |tbl|].Free?
    ensures SafeToFree(Linear(power, hash), tbl, i)
  {
    var s, keys := Linear(power, hash), KeysOf(tbl);
    forall j | 0 <= j < |tbl| && j != i && tbl[j].Used?
      ensures !Crosses(s, keys, tbl[j].key, i)
    {
      var key := tbl[j].key;
      forall k, last | 0 <= k < last < |keys| && Passes(s, keys, key, last) && keys[s.At(key, last)] == Some(key)
        ensures s.At(key, k) != i
      {
        NextSlot(hash(key), k, |tbl|);
        assert k + 1 < last ==> keys[s.At(key, k + 1)].Some?;
      }
    }
  }

  lemma NextSlot(h: nat, k: nat, n: nat)
    requires n > 0
    ensures Slot(h, 1, n, k + 1) == (Slot(h, 1, n, k) + 1) % n
  {
    var a := h + k * 1;
    var r, q := a % n, a / n;
    assert a == q * n + r;
    if r + 1 < n {
      ModUnique(a + 1, r + 1, q, n);
      ModUnique(r + 1, r + 1, 0, n);
    } else {
      assert (q + 1) * n == q * n + n;
      ModUnique(a + 1, 0, q + 1, n);
      ModUnique(n, 0, 1, n);
    }
  }

  /** A table of eight slots with two keys of one hash. */
  function TwoKeys<V>(a: V, b: V): (tbl: seq<Entry<Key, V>>)
    ensures |tbl| == 8
  {
    [Used(1, a), Used(2, b), Free, Free, Free, Free, Free, Free]
  }

  lemma OneKeyHolds<V>(a: V)
    ensures Pow2(3) == 8 && Holds(Linear(3, k => 0), TwoKeys(a, a)[1 := Free], map[1 := a])
  {
    var s, empty := Linear(3, k => 0), [Free, Free, Free, Free, Free, Free, Free, Free];
    assert Pow2(3) == 8 by { assert Pow2(1) == 2 && Pow2(2) == 4; }
    EmptyHolds<Key, V>(s, empty);
    StopsAt(s, KeysOf(empty), 1, 0);
    StoreUpdates(s, empty, map[], 1, a, 0);
    assert TwoKeys(a, a)[1 := Free] == empty[0 := Used(1, a)];
  }

  /** The second key finds the slot of the first one taken and the next one free. */
  lemma SecondStops<V>(a: V)
    ensures |TwoKeys(a, a)| == 8 == Linear(3, k => 0).Size()
    ensures Find(Linear(3, k => 0), KeysOf(TwoKeys(a, a)[1 := Free]), 2, 0) == Some(1)
  {
    hide Pow2, Find, Holds, Scheme.At;
    var s, one := Linear(3, k => 0), TwoKeys(a, a)[1 := Free];
    FirstSlots();
    assert KeysOf(one)[0] == Some(1) && KeysOf(one)[1] == None;
    assert Passes(s, KeysOf(one), 2, 1);
    StopsAt(s, KeysOf(one), 2, 1);
  }

  lemma FirstSlots()
    ensures Linear(3, k => 0).Size() == 8 && Linear(3, k => 0).At(2, 0) == 0 && Linear(3, k => 0).At(2, 1) == 1
  {
    assert Pow2(3) == 8 by { assert Pow2(1) == 2 && Pow2(2) == 4; }
  }

  lemma TwoKeysHold<V>(a: V, b: V)
    ensures Pow2(3) == 8 && Holds(Linear(3, k => 0), TwoKeys(a, b), map[1 := a, 2 := b])
  {
    hide Holds, Find, Pow2;
    OneKeyHolds(a);
    SecondStops(a);
    var one := TwoKeys(a, a)[1 := Free];
    StoreUpdates(Linear(3, k => 0), one, map[1 := a], 2, b, 1);
    assert one[1 := Used(2, b)] == TwoKeys(a, b);
  }

  /** A key that was pushed out of its home slot into the next one is lost when the home slot is freed. */
  lemma PushedOutIsUnsafe<V>(power: nat, hash: Key -> nat, tbl: seq<Entry<Key, V>>, i: nat, j: nat)
    requires |tbl| == Linear(power, hash).Size() > 1 && i < |tbl| && j == (i + 1) % |tbl| && j != i
    requires tbl[i].Used? && tbl[j].Used? && tbl[i].key != tbl[j].key && hash(tbl[j].key) % |tbl| == i
    ensures !SafeToFree(Linear(power, hash), tbl, i)
  {
    var s, keys, key := Linear(power, hash), KeysOf(tbl), tbl[j].key;
    NextSlot(hash(key), 0, |tbl|);
    assert s.At(key, 0) == i && s.At(key, 1) == j;
    assert Passes(s, keys, key, 1);
    assert Crosses(s, keys, key, i);
  }

  /** Without the condition an entry can be lost: two keys of one hash, the first removed. */
  lemma RemoveCanLose<V>(a: V, b: V)
    ensures var s, m := Linear(3, k => 0), map[1 := a, 2 := b];
            Pow2(3) == 8 && Holds(s, TwoKeys(a, b), m) && !Holds(s, TwoKeys(a, b)[0 := Free], m - {1})
  {
    TwoKeysHold(a, b);
    PushedOutIsUnsafe(3, k => 0, TwoKeys(a, b), 0, 1);
    RemoveExact(Linear(3, k => 0), TwoKeys(a, b), map[1 := a, 2 := b], 0);
  }

  lemma {:induction false} AtLeastEight(p: nat)
    requires p >= 3
    ensures Pow2(p) >= 8
  {
    if p > 3 {
      AtLeastEight(p - 1);
    } else {
      assert Pow2(1) == 2 && Pow2(2) == 4;
    }
  }

  lemma {:induction false} PowerBelow(p: nat, q: nat)
    requires Pow2(p) < Pow2(q)
    ensures p < q
  {
    if p > 0 && q > 0 {
      PowerBelow(p - 1, q - 1);
    }
  }

  /** An iterator remembers the size of its table, to notice some modifications. */
  class TableIter<V> {
    const ht: HashTable<V>
    const size: nat
    const tblSize: nat
    var i: nat

    /** `sd_hash_table_iter_init`. */
    constructor (ht: HashTable<V>)
      ensures this.ht == ht && size == ht.size && tblSize == ht.tbl.Length && i == 0
    {
      this.ht, size, tblSize, i := ht, ht.size, ht.tbl.Length, 0;
    }

    /** `sd_hash_table_iter_next`: the next used entry; None at the end, or when the table's size has changed. */
    method Next() returns (e: Option<Entry<Key, V>>)
      requires i <= tblSize
      modifies this`i
      ensures i <= tblSize
      ensures size != ht.size || tblSize != ht.tbl.Length ==> e == None && i == old(i)
      ensures size == ht.size && tblSize == ht.tbl.Length ==>
                UsedFrom(ht.tbl[..], old(i)) == (if e.Some? then [e.value] else []) + UsedFrom(ht.tbl[..], i)
                && (e == None ==> UsedFrom(ht.tbl[..], old(i)) == [])
    {
      if size != ht.size || tblSize != ht.tbl.Length {
        return None;
      }
      while i < tblSize
        invariant old(i) <= i <= tblSize
        invariant UsedFrom(ht.tbl[..], old(i)) == UsedFrom(ht.tbl[..], i)
      {
        var entry := ht.tbl[i];
        i := i + 1;
        if entry.Used? {
          return Some(entry);
        }
      }
      return None;
    }
  }
}
