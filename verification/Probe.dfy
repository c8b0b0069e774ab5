/** Open addressing: probe sequences over tables whose size is a power of two, and what a table of keys holds. */
module Probe {
  import opened Wrappers

  function Pow2(p: nat): (n: nat)
    ensures n > 0
  {
    if p == 0 then 1 else 2 * Pow2(p - 1)
  }

  /** The k-th slot of a probe that starts at `h` and moves by `stride`. */
  function Slot(h: nat, stride: nat, n: nat, k: nat): (j: nat)
    requires n > 0
    ensures j < n
  {
    (h + k * stride) % n
  }

  lemma ModUnique(a: int, j: int, q: int, n: int)
    requires n > 0 && a == j + q * n && 0 <= j < n
    ensures a % n == j
  {
    var d := a / n - q;
    assert d * n == j - a % n by {
      assert a == (a / n) * n + a % n;
      assert d * n == (a / n) * n - q * n;
    }
    assert d > 0 ==> d * n >= n;
    assert d < 0 ==> d * n <= 0 - n;
  }

  /** An odd stride solves every congruence modulo a power of two. */
  lemma {:induction false} Solve(h: int, stride: int, p: nat, j: int) returns (k: nat, q: int)
    requires stride % 2 == 1
    ensures k < Pow2(p) && h + k * stride == j + q * Pow2(p)
  {
    if p == 0 {
      k, q := 0, h - j;
    } else {
      var n := Pow2(p - 1);
      var k0, q0 := Solve(h, stride, p - 1, j);
      if q0 % 2 == 0 {
        k, q := k0, q0 / 2;
        assert q0 == 2 * q;
        assert q0 * n == q * (2 * n);
      } else {
        k, q := k0 + n, (q0 + stride) / 2;
        assert q0 + stride == 2 * q;
        assert (k0 + n) * stride == k0 * stride + n * stride;
        assert (q0 + stride) * n == q0 * n + stride * n;
        assert (2 * q) * n == q * (2 * n);
      }
    }
  }

  /** An odd step over a power-of-two table visits every slot within one round. */
  lemma VisitsEverySlot(h: nat, stride: nat, p: nat, j: nat) returns (k: nat)
    requires stride % 2 == 1 && j < Pow2(p)
    ensures k < Pow2(p) && Slot(h, stride, Pow2(p), k) == j
  {
    var q;
    k, q := Solve(h, stride, p, j);
    ModUnique(h + k * stride, j, q, Pow2(p));
  }

  /** How keys are probed for: a table of `2^power` slots, a hash and an odd stride for every key. */
  datatype Scheme<!K(!new)> = Scheme(power: nat, hash: K -> nat, stride: K -> nat) {
    function Size(): (n: nat)
      ensures n > 0
    {
      Pow2(power)
    }

    /** The k-th slot for a key. */
    function At(key: K, k: nat): (j: nat)
      ensures j < Size()
    {
      Slot(hash(key), stride(key), Size(), k)
    }

    ghost predicate Odd() {
      forall key :: stride(key) % 2 == 1
    }
  }

  /** Where a probe stops: at the key or at a free slot; None if it meets neither in one round. */
  function Find<K(==,!new)>(s: Scheme<K>, keys: seq<Option<K>>, key: K, k: nat): (j: Option<nat>)
    requires |keys| == s.Size() && k <= |keys|
    ensures j.Some? ==> j.value < |keys| && (keys[j.value] == None || keys[j.value] == Some(key))
    decreases |keys| - k
  {
    if k == |keys| then None
    else if keys[s.At(key, k)] == None || keys[s.At(key, k)] == Some(key) then Some(s.At(key, k))
    else Find(s, keys, key, k + 1)
  }

  /** The probe passes over the slots it meets before `k`. */
  ghost predicate Passes<K(!new)>(s: Scheme<K>, keys: seq<Option<K>>, key: K, k: nat)
    requires |keys| == s.Size()
  {
    forall i :: 0 <= i < k ==> keys[s.At(key, i)].Some? && keys[s.At(key, i)] != Some(key)
  }

  /** Passing over slots does not change where the probe stops. */
  lemma {:induction false} FindSkips<K(!new)>(s: Scheme<K>, keys: seq<Option<K>>, key: K, k: nat)
    requires |keys| == s.Size() && k <= |keys| && Passes(s, keys, key, k)
    ensures Find(s, keys, key, 0) == Find(s, keys, key, k)
  {
    if k > 0 {
      FindSkips(s, keys, key, k - 1);
      assert keys[s.At(key, k - 1)].Some? && keys[s.At(key, k - 1)] != Some(key);
    }
  }

  /** How far the probe goes. */
  lemma {:induction false} FindPasses<K(!new)>(s: Scheme<K>, keys: seq<Option<K>>, key: K, from: nat) returns (k: nat)
    requires |keys| == s.Size() && from <= |keys| && Passes(s, keys, key, from)
    ensures k <= |keys| && Passes(s, keys, key, k)
    ensures Find(s, keys, key, from) == if k < |keys| then Some(s.At(key, k)) else None
    ensures k < |keys| ==> keys[s.At(key, k)] == None || keys[s.At(key, k)] == Some(key)
    decreases |keys| - from
  {
    k := from;
    if from < |keys| && keys[s.At(key, from)].Some? && keys[s.At(key, from)] != Some(key) {
      k := FindPasses(s, keys, key, from + 1);
    }
  }

  /** While a slot is free every probe stops. */
  lemma FindStops<K(!new)>(s: Scheme<K>, keys: seq<Option<K>>, key: K, free: nat)
    requires |keys| == s.Size() && s.Odd() && free < |keys| && keys[free] == None
    ensures Find(s, keys, key, 0).Some?
  {
    var k := FindPasses(s, keys, key, 0);
    var i := VisitsEverySlot(s.hash(key), s.stride(key), s.power, free);
    assert s.At(key, i) == free;
  }

  /** Every key in the table is where its own probe stops. */
  ghost predicate WellPlaced<K(!new)>(s: Scheme<K>, keys: seq<Option<K>>) {
    |keys| == s.Size() && PlacedUpTo(s, keys, |keys|)
  }

  ghost predicate PlacedUpTo<K(!new)>(s: Scheme<K>, keys: seq<Option<K>>, n: nat)
    requires |keys| == s.Size() && n <= |keys|
  {
    n == 0 || (PlacedUpTo(s, keys, n - 1) && (keys[n - 1].Some? ==> Find(s, keys, keys[n - 1].value, 0) == Some(n - 1)))
  }

  /** The same, slot by slot. */
  lemma {:induction false} PlacedBySlot<K(!new)>(s: Scheme<K>, keys: seq<Option<K>>, n: nat)
    requires |keys| == s.Size() && n <= |keys|
    ensures PlacedUpTo(s, keys, n)
       <==> forall j :: 0 <= j < n && keys[j].Some? ==> Find(s, keys, keys[j].value, 0) == Some(j)
  {
    hide Find;
    if n > 0 {
      PlacedBySlot(s, keys, n - 1);
    }
  }

  /** What stops a probe: the slots before it are passed over, the slot itself stops it. */
  lemma StopsAt<K(!new)>(s: Scheme<K>, keys: seq<Option<K>>, key: K, k: nat)
    requires |keys| == s.Size() && k < |keys| && Passes(s, keys, key, k)
    requires keys[s.At(key, k)] == None || keys[s.At(key, k)] == Some(key)
    ensures Find(s, keys, key, 0) == Some(s.At(key, k))
  {
    FindSkips(s, keys, key, k);
  }

  /** A key put into a free slot does not get in the way of a key found elsewhere. */
  lemma InsertKeepsOther<K(!new)>(s: Scheme<K>, keys: seq<Option<K>>, key: K, j: nat, i: nat)
    requires |keys| == s.Size() && j < |keys| && keys[j] == None
    requires i < |keys| && keys[i].Some? && keys[i] != Some(key) && Find(s, keys, keys[i].value, 0) == Some(i)
    ensures Find(s, keys[j := Some(key)], keys[i].value, 0) == Some(i)
  {
    var other := keys[i].value;
    var k := FindPasses(s, keys, other, 0);
    StopsAt(s, keys[j := Some(key)], other, k);
  }

  /** A key put where its probe stops leaves every other key where its own probe stops. */
  lemma InsertKeeps<K(!new)>(s: Scheme<K>, keys: seq<Option<K>>, key: K, j: nat)
    requires WellPlaced(s, keys) && Find(s, keys, key, 0) == Some(j)
    ensures WellPlaced(s, keys[j := Some(key)])
  {
    var keys' := keys[j := Some(key)];
    PlacedBySlot(s, keys, |keys|);
    PlacedBySlot(s, keys', |keys|);
    if keys[j] == None {
      var k := FindPasses(s, keys, key, 0);
      StopsAt(s, keys', key, k);
      forall i | 0 <= i < |keys'| && keys'[i].Some?
        ensures Find(s, keys', keys'[i].value, 0) == Some(i)
      {
        if i != j {
          InsertKeepsOther(s, keys, key, j, i);
        }
      }
    } else {
      assert keys' == keys;
    }
  }

  /** No key is in two slots. */
  lemma OneSlotEach<K(!new)>(s: Scheme<K>, keys: seq<Option<K>>, i: nat, j: nat)
    requires WellPlaced(s, keys) && i < |keys| && j < |keys| && keys[i].Some? && keys[i] == keys[j]
    ensures i == j
  {
    PlacedBySlot(s, keys, |keys|);
  }

  /** The keys of a table. */
  function Keys<K(==)>(keys: seq<Option<K>>, n: nat): (ks: set<K>)
    requires n <= |keys|
  {
    if n == 0 then {} else Keys(keys, n - 1) + if keys[n - 1].Some? then {keys[n - 1].value} else {}
  }

  lemma {:induction false} KeysAre<K>(keys: seq<Option<K>>, n: nat)
    requires n <= |keys|
    ensures forall key :: key in Keys(keys, n) <==> exists j :: 0 <= j < n && keys[j] == Some(key)
  {
    if n > 0 {
      KeysAre(keys, n - 1);
    }
  }

  /** How many slots are in use. */
  function InUse<K>(keys: seq<Option<K>>, n: nat): (c: nat)
    requires n <= |keys|
    ensures c <= n
  {
    if n == 0 then 0 else InUse(keys, n - 1) + if keys[n - 1].Some? then 1 else 0
  }

  /** As many as there are keys, no key being in two slots. */
  lemma {:induction false} InUseCounts<K(!new)>(s: Scheme<K>, keys: seq<Option<K>>, n: nat)
    requires WellPlaced(s, keys) && n <= |keys|
    ensures |Keys(keys, n)| == InUse(keys, n)
  {
    hide WellPlaced;
    if n > 0 {
      InUseCounts(s, keys, n - 1);
      if keys[n - 1].Some? {
        KeyIsNew(s, keys, n - 1);
        assert Keys(keys, n) == Keys(keys, n - 1) + {keys[n - 1].value};
      }
    }
  }

  lemma KeyIsNew<K(!new)>(s: Scheme<K>, keys: seq<Option<K>>, i: nat)
    requires WellPlaced(s, keys) && i < |keys| && keys[i].Some?
    ensures keys[i].value !in Keys(keys, i)
  {
    KeysAre(keys, i);
    if keys[i].value in Keys(keys, i) {
      var j :| 0 <= j < i && keys[j] == Some(keys[i].value);
      OneSlotEach(s, keys, j, i);
    }
  }

  lemma {:induction false} FullCounts<K>(keys: seq<Option<K>>, n: nat)
    requires n <= |keys| && forall j :: 0 <= j < n ==> keys[j].Some?
    ensures InUse(keys, n) == n
  {
    if n > 0 {
      FullCounts(keys, n - 1);
    }
  }

  /** A table that is not all in use has a free slot. */
  lemma FreeSlot<K>(keys: seq<Option<K>>) returns (free: nat)
    requires InUse(keys, |keys|) < |keys|
    ensures free < |keys| && keys[free] == None
  {
    if forall j :: 0 <= j < |keys| ==> keys[j].Some? {
      FullCounts(keys, |keys|);
    }
    free :| 0 <= free < |keys| && keys[free] == None;
  }
}
