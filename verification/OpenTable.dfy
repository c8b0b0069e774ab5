/** Open-addressing tables of entries: when one holds a finite map, and what storing, freeing and iterating do to that. */
module OpenTable {
  import opened Wrappers
  import opened Probe

  datatype Entry<+K, +V> = Free | Used(key: K, val: V)

  /** The keys in the slots. */
  function KeysOf<K, V>(tbl: seq<Entry<K, V>>): (keys: seq<Option<K>>)
    ensures |keys| == |tbl|
    ensures forall j :: 0 <= j < |tbl| ==> keys[j] == if tbl[j].Used? then Some(tbl[j].key) else None
  {
    seq(|tbl|, j requires 0 <= j < |tbl| => if tbl[j].Used? then Some(tbl[j].key) else None)
  }

  /** The table holds exactly the entries of the map, each where its probe finds it. */
  ghost predicate Holds<K(!new), V>(s: Scheme<K>, tbl: seq<Entry<K, V>>, m: map<K, V>) {
    && WellPlaced(s, KeysOf(tbl))
    && |m| == InUse(KeysOf(tbl), |tbl|)
    && Values(tbl, m, |tbl|)
  }

  /** The values in the first slots are those of the map. */
  ghost predicate Values<K(!new), V>(tbl: seq<Entry<K, V>>, m: map<K, V>, n: nat)
    requires n <= |tbl|
  {
    n == 0 || (Values(tbl, m, n - 1) && (tbl[n - 1].Used? ==> tbl[n - 1].key in m && m[tbl[n - 1].key] == tbl[n - 1].val))
  }

  lemma {:induction false} ValuesBySlot<K(!new), V>(tbl: seq<Entry<K, V>>, m: map<K, V>, n: nat)
    requires n <= |tbl|
    ensures Values(tbl, m, n)
       <==> forall j :: 0 <= j < n && tbl[j].Used? ==> tbl[j].key in m && m[tbl[j].key] == tbl[j].val
  {
    if n > 0 {
      ValuesBySlot(tbl, m, n - 1);
    }
  }

  /** So the keys of the map are those in the slots. */
  lemma HoldsKeys<K(!new), V>(s: Scheme<K>, tbl: seq<Entry<K, V>>, m: map<K, V>)
    requires Holds(s, tbl, m)
    ensures m.Keys == Keys(KeysOf(tbl), |tbl|)
  {
    var keys := KeysOf(tbl);
    InUseCounts(s, keys, |tbl|);
    KeysAre(keys, |tbl|);
    ValuesBySlot(tbl, m, |tbl|);
    assert |m| == |m.Keys|;
    SameSize(Keys(keys, |tbl|), m.Keys);
  }

  lemma KeysHold<K(!new), V>(s: Scheme<K>, tbl: seq<Entry<K, V>>, m: map<K, V>)
    requires WellPlaced(s, KeysOf(tbl)) && Values(tbl, m, |tbl|) && m.Keys == Keys(KeysOf(tbl), |tbl|)
    ensures Holds(s, tbl, m)
  {
    InUseCounts(s, KeysOf(tbl), |tbl|);
    assert |m| == |m.Keys|;
  }

  lemma {:induction false} Smaller<T>(a: set<T>, b: set<T>)
    requires a <= b
    ensures |a| <= |b|
  {
    if a != {} {
      var x :| x in a;
      Smaller(a - {x}, b - {x});
    }
  }

  lemma SameSize<T>(a: set<T>, b: set<T>)
    requires a <= b && |a| == |b|
    ensures a == b
  {
    forall x | x in b
      ensures x in a
    {
      if x !in a {
        Smaller(a, b - {x});
      }
    }
  }

  /** Where the probe for a key stops tells whether the map has it. */
  lemma ProbeDecides<K(!new), V>(s: Scheme<K>, tbl: seq<Entry<K, V>>, m: map<K, V>, key: K, j: nat)
    requires Holds(s, tbl, m) && Find(s, KeysOf(tbl), key, 0) == Some(j)
    ensures j < |tbl| && (key in m <==> tbl[j].Used?)
    ensures tbl[j].Used? ==> tbl[j].key == key && key in m && m[key] == tbl[j].val
  {
    HoldsKeys(s, tbl, m);
    KeysAre(KeysOf(tbl), |tbl|);
    PlacedBySlot(s, KeysOf(tbl), |tbl|);
    ValuesBySlot(tbl, m, |tbl|);
    if key in m {
      var i :| 0 <= i < |tbl| && KeysOf(tbl)[i] == Some(key);
    }
  }

  /** Storing a key adds it to the keys. */
  lemma StoreAddsKey<K(!new)>(keys: seq<Option<K>>, key: K, j: nat)
    requires j < |keys| && (keys[j] == None || keys[j] == Some(key))
    ensures Keys(keys[j := Some(key)], |keys|) == Keys(keys, |keys|) + {key}
  {
    var keys' := keys[j := Some(key)];
    KeysAre(keys, |keys|);
    KeysAre(keys', |keys|);
    assert keys'[j] == Some(key);
    forall k | k in Keys(keys, |keys|)
      ensures k in Keys(keys', |keys|)
    {
      var i :| 0 <= i < |keys| && keys[i] == Some(k);
      assert keys'[i] == Some(k);
    }
  }

  /** Storing an entry where its probe stops updates the map. */
  lemma StoreUpdates<K(!new), V>(s: Scheme<K>, tbl: seq<Entry<K, V>>, m: map<K, V>, key: K, val: V, j: nat)
    requires Holds(s, tbl, m) && Find(s, KeysOf(tbl), key, 0) == Some(j)
    ensures Holds(s, tbl[j := Used(key, val)], m[key := val])
  {
    HoldsKeys(s, tbl, m);
    StoreKeys(s, KeysOf(tbl), key, j);
    StoreValues(s, tbl, m, key, val, j);
    KeysOfStored(tbl, key, val, j);
    assert m[key := val].Keys == m.Keys + {key};
    KeysHold(s, tbl[j := Used(key, val)], m[key := val]);
  }

  lemma KeysOfStored<K, V>(tbl: seq<Entry<K, V>>, key: K, val: V, j: nat)
    requires j < |tbl|
    ensures KeysOf(tbl[j := Used(key, val)]) == KeysOf(tbl)[j := Some(key)]
  {
  }

  lemma StoreKeys<K(!new)>(s: Scheme<K>, keys: seq<Option<K>>, key: K, j: nat)
    requires WellPlaced(s, keys) && Find(s, keys, key, 0) == Some(j)
    ensures WellPlaced(s, keys[j := Some(key)]) && Keys(keys[j := Some(key)], |keys|) == Keys(keys, |keys|) + {key}
  {
    InsertKeeps(s, keys, key, j);
    StoreAddsKey(keys, key, j);
  }

  lemma StoreValues<K(!new), V>(s: Scheme<K>, tbl: seq<Entry<K, V>>, m: map<K, V>, key: K, val: V, j: nat)
    requires WellPlaced(s, KeysOf(tbl)) && Values(tbl, m, |tbl|) && Find(s, KeysOf(tbl), key, 0) == Some(j)
    ensures Values(tbl[j := Used(key, val)], m[key := val], |tbl|)
  {
    var keys, tbl' := KeysOf(tbl), tbl[j := Used(key, val)];
    ValuesBySlot(tbl, m, |tbl|);
    ValuesBySlot(tbl', m[key := val], |tbl|);
    PlacedBySlot(s, keys, |tbl|);
    forall i | 0 <= i < |tbl| && tbl'[i].Used?
      ensures tbl'[i].key in m[key := val] && m[key := val][tbl'[i].key] == tbl'[i].val
    {
      if i != j {
        assert keys[i] == Some(tbl[i].key);
      }
    }
  }

  /** With fewer entries than slots every probe stops. */
  lemma ProbeStops<K(!new), V>(s: Scheme<K>, tbl: seq<Entry<K, V>>, m: map<K, V>, key: K)
    requires Holds(s, tbl, m) && s.Odd() && |m| < |tbl|
    ensures Find(s, KeysOf(tbl), key, 0).Some?
  {
    var free := FreeSlot(KeysOf(tbl));
    FindStops(s, KeysOf(tbl), key, free);
  }

  /** An empty table. */
  lemma EmptyHolds<K(!new), V>(s: Scheme<K>, tbl: seq<Entry<K, V>>)
    requires |tbl| == s.Size() && forall j :: 0 <= j < |tbl| ==> tbl[j].Free?
    ensures Holds<K, V>(s, tbl, map[])
  {
    PlacedBySlot(s, KeysOf(tbl), |tbl|);
    ValuesBySlot<K, V>(tbl, map[], |tbl|);
    KeysAre(KeysOf(tbl), |tbl|);
    KeysHold<K, V>(s, tbl, map[]);
  }

  /** The entries of the first slots, as the rehashing loop collects them. */
  ghost function Entries<K(!new), V>(tbl: seq<Entry<K, V>>, n: nat): map<K, V>
    requires n <= |tbl|
  {
    if n == 0 then map[]
    else if tbl[n - 1].Used? then Entries(tbl, n - 1)[tbl[n - 1].key := tbl[n - 1].val]
    else Entries(tbl, n - 1)
  }

  lemma {:induction false} EntriesAgree<K(!new), V>(tbl: seq<Entry<K, V>>, m: map<K, V>, n: nat)
    requires n <= |tbl| && Values(tbl, m, n)
    ensures Entries(tbl, n).Keys == Keys(KeysOf(tbl), n)
    ensures forall key :: key in Entries(tbl, n) ==> key in m && Entries(tbl, n)[key] == m[key]
  {
    if n > 0 {
      EntriesAgree(tbl, m, n - 1);
    }
  }

  lemma {:induction false} ValuesBefore<K(!new), V>(tbl: seq<Entry<K, V>>, m: map<K, V>, n: nat, k: nat)
    requires k <= n <= |tbl| && Values(tbl, m, n)
    ensures Values(tbl, m, k)
  {
    if k < n {
      ValuesBefore(tbl, m, n - 1, k);
    }
  }

  /** Collecting part of a table never counts more entries than it has, and collecting all of it gives its map. */
  lemma EntriesOfTable<K(!new), V>(s: Scheme<K>, tbl: seq<Entry<K, V>>, m: map<K, V>, n: nat)
    requires Holds(s, tbl, m) && n <= |tbl|
    ensures |Entries(tbl, n)| <= |m|
    ensures n == |tbl| ==> Entries(tbl, n) == m
  {
    ValuesBefore(tbl, m, |tbl|, n);
    EntriesAgree(tbl, m, n);
    HoldsKeys(s, tbl, m);
    var part := Entries(tbl, n);
    forall key | key in part.Keys
      ensures key in m.Keys
    {
      assert key in part;
    }
    Smaller(part.Keys, m.Keys);
    assert |part| == |part.Keys| && |m| == |m.Keys|;
    if n == |tbl| {
      assert part.Keys == m.Keys;
      assert forall key :: key in m ==> key in part && part[key] == m[key];
    }
  }

  lemma RemoveCounts<K(!new), V>(m: map<K, V>, key: K)
    requires key in m
    ensures |m - {key}| == |m| - 1
  {
    assert (m - {key}).Keys == m.Keys - {key};
    assert |m| == |m.Keys| && |m - {key}| == |(m - {key}).Keys|;
  }

  /** The probe for a stored key passes over a slot on the way to its own. */
  ghost predicate Crosses<K(!new)>(s: Scheme<K>, keys: seq<Option<K>>, key: K, i: nat)
    requires |keys| == s.Size()
  {
    exists k, last ::
      0 <= k < last < |keys| && Passes(s, keys, key, last) && keys[s.At(key, last)] == Some(key) && s.At(key, k) == i
  }

  /** A key whose probe does not cross a slot is still found when the slot is freed. */
  lemma FreeKeeps<K(!new)>(s: Scheme<K>, keys: seq<Option<K>>, i: nat, j: nat)
    requires |keys| == s.Size() && i < |keys| && j < |keys| && i != j && keys[j].Some?
    requires Find(s, keys, keys[j].value, 0) == Some(j) && !Crosses(s, keys, keys[j].value, i)
    ensures Find(s, keys[i := None], keys[j].value, 0) == Some(j)
  {
    var key := keys[j].value;
    var last := FindPasses(s, keys, key, 0);
    assert forall k :: 0 <= k < last ==> s.At(key, k) != i;
    StopsAt(s, keys[i := None], key, last);
  }

  /** A key whose probe crosses a slot is lost when the slot is freed. */
  lemma FreeLoses<K(!new)>(s: Scheme<K>, keys: seq<Option<K>>, key: K, i: nat)
    requires |keys| == s.Size() && i < |keys| && Crosses(s, keys, key, i)
    ensures Find(s, keys[i := None], key, 0) == Some(i)
  {
    var k, last :| 0 <= k < last < |keys| && Passes(s, keys, key, last) && keys[s.At(key, last)] == Some(key) && s.At(key, k) == i;
    var first := FirstVisit(s, key, i, k);
    StopsAt(s, keys[i := None], key, first);
  }

  /** The first time a probe comes to a slot. */
  lemma FirstVisit<K(!new)>(s: Scheme<K>, key: K, i: nat, k: nat) returns (first: nat)
    requires s.At(key, k) == i
    ensures first <= k && s.At(key, first) == i && forall e :: 0 <= e < first ==> s.At(key, e) != i
  {
    first := 0;
    while s.At(key, first) != i
      invariant first <= k && forall e :: 0 <= e < first ==> s.At(key, e) != i
      decreases k - first
    {
      first := first + 1;
    }
  }

  lemma FreeDropsKey<K(!new)>(keys: seq<Option<K>>, i: nat)
    requires i < |keys| && keys[i].Some?
    requires forall j :: 0 <= j < |keys| && j != i ==> keys[j] != keys[i]
    ensures Keys(keys[i := None], |keys|) == Keys(keys, |keys|) - {keys[i].value}
  {
    var keys' := keys[i := None];
    KeysAre(keys, |keys|);
    KeysAre(keys', |keys|);
    forall k | k in Keys(keys, |keys|) && k != keys[i].value
      ensures k in Keys(keys', |keys|)
    {
      var j :| 0 <= j < |keys| && keys[j] == Some(k);
      assert keys'[j] == Some(k);
    }
    forall k | k in Keys(keys', |keys|)
      ensures k in Keys(keys, |keys|) && k != keys[i].value
    {
      var j :| 0 <= j < |keys| && keys'[j] == Some(k);
      assert keys[j] == Some(k);
    }
  }

  /** No other stored key's probe crosses the slot. */
  ghost predicate SafeToFree<K(!new), V>(s: Scheme<K>, tbl: seq<Entry<K, V>>, i: nat)
    requires |tbl| == s.Size()
  {
    forall j :: 0 <= j < |tbl| && j != i && tbl[j].Used? ==> !Crosses(s, KeysOf(tbl), tbl[j].key, i)
  }

  /** Removing an entry without a tombstone is right exactly when no other entry's probe crosses its slot. */
  lemma RemoveExact<K(!new), V>(s: Scheme<K>, tbl: seq<Entry<K, V>>, m: map<K, V>, i: nat)
    requires Holds(s, tbl, m) && i < |tbl| && tbl[i].Used?
    ensures Holds(s, tbl[i := Free], m - {tbl[i].key}) <==> SafeToFree(s, tbl, i)
  {
    var keys, tbl' := KeysOf(tbl), tbl[i := Free];
    assert KeysOf(tbl') == keys[i := None];
    PlacedBySlot(s, keys, |tbl|);
    PlacedBySlot(s, keys[i := None], |tbl|);
    if SafeToFree(s, tbl, i) {
      forall j | 0 <= j < |tbl| && keys[i := None][j].Some?
        ensures Find(s, keys[i := None], keys[j].value, 0) == Some(j)
      {
        FreeKeeps(s, keys, i, j);
      }
      RemoveRest(s, tbl, m, i);
      KeysHold(s, tbl', m - {tbl[i].key});
    } else {
      var j :| 0 <= j < |tbl| && j != i && tbl[j].Used? && Crosses(s, keys, tbl[j].key, i);
      FreeLoses(s, keys, tbl[j].key, i);
      assert keys[i := None][j].Some?;
    }
  }

  lemma RemoveRest<K(!new), V>(s: Scheme<K>, tbl: seq<Entry<K, V>>, m: map<K, V>, i: nat)
    requires Holds(s, tbl, m) && i < |tbl| && tbl[i].Used?
    ensures (m - {tbl[i].key}).Keys == Keys(KeysOf(tbl)[i := None], |tbl|)
    ensures Values(tbl[i := Free], m - {tbl[i].key}, |tbl|)
  {
    var keys := KeysOf(tbl);
    HoldsKeys(s, tbl, m);
    forall j | 0 <= j < |tbl| && j != i
      ensures keys[j] != keys[i]
    {
      if keys[j] == keys[i] {
        OneSlotEach(s, keys, i, j);
      }
    }
    FreeDropsKey(keys, i);
    ValuesBySlot(tbl, m, |tbl|);
    ValuesBySlot(tbl[i := Free], m - {tbl[i].key}, |tbl|);
  }

  /** The used entries from a slot on. */
  function UsedFrom<K, V>(tbl: seq<Entry<K, V>>, i: nat): (es: seq<Entry<K, V>>)
    requires i <= |tbl|
    decreases |tbl| - i
  {
    if i == |tbl| then [] else (if tbl[i].Used? then [tbl[i]] else []) + UsedFrom(tbl, i + 1)
  }

  /** The slot of an entry met by the iteration. */
  lemma {:induction false} WhereUsed<K, V>(tbl: seq<Entry<K, V>>, i: nat, b: nat) returns (j: nat)
    requires i <= |tbl| && b < |UsedFrom(tbl, i)|
    ensures i <= j < |tbl| && tbl[j] == UsedFrom(tbl, i)[b] && tbl[j].Used?
    decreases |tbl| - i
  {
    if tbl[i].Used? && b == 0 {
      j := i;
    } else {
      j := WhereUsed(tbl, i + 1, if tbl[i].Used? then b - 1 else b);
    }
  }

  /** Iteration from a slot on meets each used slot once. */
  lemma {:induction false} UsedFromSlots<K(!new), V>(s: Scheme<K>, tbl: seq<Entry<K, V>>, i: nat)
    requires |tbl| == s.Size() && WellPlaced(s, KeysOf(tbl)) && i <= |tbl|
    ensures forall e :: e in UsedFrom(tbl, i) <==> e.Used? && exists j :: i <= j < |tbl| && tbl[j] == e
    ensures forall a, b :: 0 <= a < b < |UsedFrom(tbl, i)| ==> UsedFrom(tbl, i)[a].key != UsedFrom(tbl, i)[b].key
    decreases |tbl| - i
  {
    if i < |tbl| {
      UsedFromSlots(s, tbl, i + 1);
      var rest := UsedFrom(tbl, i + 1);
      if tbl[i].Used? {
        forall b | 0 <= b < |rest|
          ensures rest[b].Used? && rest[b].key != tbl[i].key
        {
          var j := WhereUsed(tbl, i + 1, b);
          if rest[b].key == tbl[i].key {
            OneSlotEach(s, KeysOf(tbl), i, j);
          }
        }
      }
    }
  }

  /** A whole iteration visits each entry of the map exactly once, and nothing else. */
  lemma IterationIsTheMap<K(!new), V>(s: Scheme<K>, tbl: seq<Entry<K, V>>, m: map<K, V>)
    requires Holds(s, tbl, m)
    ensures forall e :: e in UsedFrom(tbl, 0) <==> e.Used? && e.key in m && m[e.key] == e.val
    ensures forall a, b :: 0 <= a < b < |UsedFrom(tbl, 0)| ==> UsedFrom(tbl, 0)[a].key != UsedFrom(tbl, 0)[b].key
  {
    UsedFromSlots(s, tbl, 0);
    forall e: Entry<K, V>
      ensures e in UsedFrom(tbl, 0) <==> e.Used? && e.key in m && m[e.key] == e.val
    {
      StoredIffMapped(s, tbl, m, e);
    }
  }

  /** An entry is in a slot exactly when the map has it. */
  lemma StoredIffMapped<K(!new), V>(s: Scheme<K>, tbl: seq<Entry<K, V>>, m: map<K, V>, e: Entry<K, V>)
    requires Holds(s, tbl, m)
    ensures e.Used? && (exists j :: 0 <= j < |tbl| && tbl[j] == e) <==> e.Used? && e.key in m && m[e.key] == e.val
  {
    ValuesBySlot(tbl, m, |tbl|);
    if e.Used? && e.key in m && m[e.key] == e.val {
      HoldsKeys(s, tbl, m);
      KeysAre(KeysOf(tbl), |tbl|);
      assert e.key in Keys(KeysOf(tbl), |tbl|);
      var j :| 0 <= j < |tbl| && KeysOf(tbl)[j] == Some(e.key);
      assert tbl[j] == e;
    }
  }
}
