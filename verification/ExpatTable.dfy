/** Expat's hash table (xmlparse.c): double hashing over a power-of-two table that is never more than half full. */
module ExpatTable {
  import opened Wrappers
  import opened Probe
  import opened OpenTable

  const INIT_POWER: nat := 6

  /** SECOND_HASH: the bits of the hash above the table's mask. */
  function SecondHash(hash: nat, power: nat): (h: nat)
    requires power >= 2
    ensures h < Pow2(power - 2)
  {
    Above(hash, Pow2(power), Pow2(power - 1)) % Pow2(power - 2)
  }

  function Above(hash: nat, size: nat, half: nat): nat
    requires size > 0 && half > 0
  {
    (hash - hash % size) / half
  }

  /** PROBE_STEP: the second hash made odd and cut to a byte. */
  function ProbeStep(hash: nat, power: nat): nat
    requires power >= 2
  {
    OddByte(SecondHash(hash, power))
  }

  function OddByte(h: nat): (step: nat)
    ensures step % 2 == 1 && step <= h + 1 && (h % 2 == 1 ==> step <= h)
  {
    (if h % 2 == 0 then h + 1 else h) % 256
  }

  /** A probe step is odd and less than a quarter of the table. */
  lemma StepIsOdd(hash: nat, power: nat)
    requires power >= 3
    ensures ProbeStep(hash, power) % 2 == 1 && 0 < 4 * ProbeStep(hash, power) < Pow2(power)
  {
    hide SecondHash, Pow2;
    var h := SecondHash(hash, power);
    Quarters(power);
  }

  lemma Quarters(power: nat)
    requires power >= 3
    ensures Pow2(power) == 4 * Pow2(power - 2) && Pow2(power - 2) % 2 == 0
  {
    assert Pow2(power) == 2 * Pow2(power - 1) && Pow2(power - 1) == 2 * Pow2(power - 2);
    assert Pow2(power - 2) == 2 * Pow2(power - 3);
  }

  /** Quotient and remainder. */
  function Quot(x: nat, n: nat): nat
    requires n > 0
  {
    x / n
  }

  function Rem(x: nat, n: nat): (r: nat)
    requires n > 0
    ensures r < n
  {
    x % n
  }

  /** A bit of a number. */
  predicate Bit(x: nat, j: nat) {
    Quot(x, Pow2(j)) % 2 == 1
  }

  lemma DivMod(x: nat, n: nat)
    requires n > 0
    ensures x == Quot(x, n) * n + Rem(x, n)
  {
  }

  lemma Multiply(a: int, b: int, c: int)
    ensures a * (b * c) == (a * b) * c == (b * a) * c
    ensures (a + b) * c == a * c + b * c
  {
  }

  lemma QuotUnique(x: nat, q: nat, r: nat, n: nat)
    requires r < n && x == q * n + r
    ensures Quot(x, n) == q && Rem(x, n) == r
  {
    ModUnique(x, r, q, n);
    DivMod(x, n);
    Cancel(Quot(x, n), q, n);
  }

  lemma Cancel(a: int, b: int, n: nat)
    requires n > 0 && a * n == b * n
    ensures a == b
  {
    assert (a - b) * n == 0;
  }

  lemma InBlock(r: nat, s: nat, a: nat, b: nat)
    requires s < a && r < b
    ensures 0 <= r * a + s < a * b
  {
    var left := b - 1 - r;
    assert a * b == (r + 1 + left) * a == r * a + a + left * a;
    assert left * a >= 0;
  }

  /** Dividing twice. */
  lemma DivDiv(x: nat, a: nat, b: nat)
    requires a > 0 && b > 0
    ensures a * b > 0 && Quot(x, a * b) == Quot(Quot(x, a), b)
  {
    hide Quot, Rem;
    DivMod(x, a);
    DivMod(Quot(x, a), b);
    TwoDivisions(x, a, b, Quot(x, a), Rem(x, a), Quot(Quot(x, a), b), Rem(Quot(x, a), b));
  }

  lemma TwoDivisions(x: nat, a: nat, b: nat, y: nat, s: nat, q: nat, r: nat)
    requires x == y * a + s && s < a && y == q * b + r && r < b
    ensures a * b > 0 && Quot(x, a * b) == q
  {
    hide Quot, Rem;
    Multiply(q * b, r, a);
    Multiply(q, b, a);
    InBlock(r, s, a, b);
    QuotUnique(x, q, r * a + s, a * b);
  }

  lemma {:induction false} PowersMultiply(p: nat, i: nat)
    ensures Pow2(p + i) == Pow2(p) * Pow2(i)
  {
    if i > 0 {
      PowersMultiply(p, i - 1);
      Multiply(Pow2(p), 2, Pow2(i - 1));
      Multiply(2, Pow2(p), Pow2(i - 1));
    }
  }

  lemma HighBit(hash: nat, p: nat, i: nat)
    ensures Bit(Quot(hash, Pow2(p)), i) <==> Bit(hash, p + i)
  {
    hide Quot, Pow2;
    PowersMultiply(p, i);
    DivDiv(hash, Pow2(p), Pow2(i));
  }

  /** The bits of a remainder by a power of two. */
  lemma LowBits(a: nat, k: nat, i: nat)
    ensures Bit(Rem(a, Pow2(k)), i) <==> i < k && Bit(a, i)
  {
    hide Quot, Rem;
    var r := Rem(a, Pow2(k));
    if i < k {
      PowersMultiply(i, k - i);
      LowBitKept(a, Pow2(i), Pow2(k - i - 1), Pow2(k));
    } else {
      PowersMultiply(k, i - k);
      AtLeast(Pow2(k), Pow2(i - k));
      QuotUnique(r, 0, r, Pow2(i));
    }
  }

  lemma AtLeast(n: nat, m: nat)
    requires m > 0
    ensures n <= n * m
  {
    assert n * (m - 1) >= 0;
  }

  lemma LowBitKept(a: nat, w: nat, m: nat, n: nat)
    requires w > 0 && m > 0 && n == w * (2 * m)
    ensures n > 0 && Quot(Rem(a, n), w) % 2 == Quot(a, w) % 2
  {
    hide Quot, Rem;
    InBlock(0, 0, w, 2 * m);
    DivMod(a, n);
    DivMod(Rem(a, n), w);
    KeptAt(a, w, m, Quot(a, n), Quot(Rem(a, n), w), Rem(Rem(a, n), w));
  }

  lemma KeptAt(a: nat, w: nat, m: nat, q: nat, c: nat, d: nat)
    requires d < w && a == q * (w * (2 * m)) + (c * w + d)
    ensures Quot(a, w) % 2 == c % 2
  {
    hide Quot, Rem;
    Multiply(2, m, w);
    Multiply(q, 2 * m, w);
    Multiply(q * (2 * m), c, w);
    QuotUnique(a, q * (2 * m) + c, d, w);
    EvenMore(q, m, c);
  }

  lemma EvenMore(q: nat, m: nat, c: nat)
    ensures q * (2 * m) + c >= 0 && (q * (2 * m) + c) % 2 == c % 2
  {
    Multiply(q, 2, m);
    Multiply(2, q, m);
  }

  /**
   * The probe step in bits: the lowest is set, the ones above it are those of the hash that its slot does not show, up
   * to a quarter of the table and to a byte, and all others are clear.
   */
  lemma StepBits(hash: nat, power: nat, j: nat)
    requires power >= 3
    ensures Bit(ProbeStep(hash, power), j) <==> j == 0 || (j < 8 && j < power - 2 && Bit(hash, power + j - 1))
  {
    StepIsTwiceAndOne(hash, power);
    var a := Quot(hash, Pow2(power));
    var b := Rem(Rem(a, Pow2(power - 3)), Pow2(7));
    if j == 0 {
      assert Pow2(0) == 1;
    } else {
      hide Quot, Rem, ProbeStep, Pow2;
      TwiceAndOneBit(b, j - 1);
      LowBits(Rem(a, Pow2(power - 3)), 7, j - 1);
      LowBits(a, power - 3, j - 1);
      HighBit(hash, power, j - 1);
    }
  }

  lemma StepIsTwiceAndOne(hash: nat, power: nat)
    requires power >= 3
    ensures ProbeStep(hash, power) == 2 * Rem(Rem(Quot(hash, Pow2(power)), Pow2(power - 3)), Pow2(7)) + 1
  {
    var n, half, m, a := Pow2(power), Pow2(power - 1), Pow2(power - 3), Quot(hash, Pow2(power));
    assert Pow2(power - 2) == 2 * m && n == 2 * half;
    WithoutLowPart(hash, n, half);
    HalfOfEven(a, m);
    assert Pow2(7) == 128 by { assert Pow2(1) == 2 && Pow2(3) == 8 && Pow2(5) == 32; }
    ByteOfTwice(Rem(a, m));
  }

  lemma WithoutLowPart(hash: nat, n: nat, half: nat)
    requires half > 0 && n == 2 * half
    ensures Above(hash, n, half) == 2 * Quot(hash, n)
  {
    DivMod(hash, n);
    Multiply(Quot(hash, n), 2, half);
    Multiply(2, Quot(hash, n), half);
    QuotUnique(2 * Quot(hash, n) * half, 2 * Quot(hash, n), 0, half);
  }

  lemma HalfOfEven(a: nat, m: nat)
    requires m > 0
    ensures (2 * a) % (2 * m) == 2 * Rem(a, m)
  {
    DivMod(a, m);
    Multiply(2, Quot(a, m), m);
    Multiply(Quot(a, m), 2, m);
    ModUnique(2 * a, 2 * Rem(a, m), Quot(a, m), 2 * m);
  }

  lemma ByteOfTwice(c: nat)
    ensures OddByte(2 * c) == 2 * Rem(c, 128) + 1
  {
  }

  lemma TwiceAndOneBit(b: nat, i: nat)
    ensures Bit(2 * b + 1, i + 1) <==> Bit(b, i)
  {
    DivDiv(2 * b + 1, 2, Pow2(i));
    assert Quot(2 * b + 1, 2) == b;
  }

  /** Stepping back by the probe step is moving forward by what is left of the table: an odd stride. */
  function Stride(hash: nat, power: nat): nat {
    if power < 3 then 1 else Gap(Pow2(power), ProbeStep(hash, power))
  }

  function Gap(size: nat, step: nat): nat {
    if size % 2 == 0 && step <= size then size - step else 1
  }

  function Double(power: nat, hash: string -> nat): Scheme<string> {
    Scheme(power, hash, key => Stride(hash(key), power))
  }

  lemma StrideIsOdd(hash: nat, power: nat)
    ensures Stride(hash, power) % 2 == 1
  {
    if power >= 3 {
      GapIsOdd(Pow2(power), ProbeStep(hash, power));
    }
  }

  lemma GapIsOdd(size: nat, step: nat)
    requires step % 2 == 1
    ensures Gap(size, step) % 2 == 1
  {
  }

  /** So every probe visits every slot. */
  lemma DoubleIsOdd(power: nat, hash: string -> nat)
    ensures Double(power, hash).Odd()
  {
    forall key: string
      ensures Stride(hash(key), power) % 2 == 1
    {
      StrideIsOdd(hash(key), power);
    }
  }

  /** One step of a probe, as the code computes it. */
  function StepBack(i: nat, step: nat, size: nat): (j: int)
    requires i < size && step < size
  {
    if i < step then i + (size - step) else i - step
  }

  /** ... is the next slot of the probe sequence. */
  lemma StepBackIsNext(hash: nat, power: nat, k: nat)
    requires power >= 3
    ensures var n, step := Pow2(power), ProbeStep(hash, power);
            step < n && StepBack(Slot(hash, Stride(hash, power), n, k), step, n) == Slot(hash, Stride(hash, power), n, k + 1)
  {
    StrideIs(hash, power);
    NextByStride(hash, Stride(hash, power), Pow2(power), k);
  }

  lemma StrideIs(hash: nat, power: nat)
    requires power >= 3
    ensures 0 < ProbeStep(hash, power) < Pow2(power) && Stride(hash, power) == Pow2(power) - ProbeStep(hash, power)
  {
    hide ProbeStep, Pow2;
    StepIsOdd(hash, power);
    Quarters(power);
  }

  lemma NextByStride(h: nat, stride: nat, n: nat, k: nat)
    requires 0 < stride < n
    ensures var i, step := Slot(h, stride, n, k), n - stride; StepBack(i, step, n) == Slot(h, stride, n, k + 1)
  {
    var a, step := h + k * stride, n - stride;
    var i, q := a % n, a / n;
    assert a == i + q * n;
    assert h + (k + 1) * stride == a + stride;
    assert (q + 1) * n == q * n + n;
    if i < step {
      ModUnique(a + stride, i + n - step, q, n);
    } else {
      ModUnique(a + stride, i - step, q + 1, n);
    }
  }

  /** NAMED: entries are objects, known by identity. */
  class Named {
    const name: string

    constructor (name: string)
      ensures this.name == name
    {
      this.name := name;
    }
  }

  /** The slots as entries. */
  function EntriesOf(v: seq<Named?>): (es: seq<Entry<string, Named>>)
    ensures |es| == |v|
    ensures forall j :: 0 <= j < |v| ==> es[j] == EntryOf(v[j])
  {
    seq(|v|, j requires 0 <= j < |v| => EntryOf(v[j]))
  }

  function EntryOf(x: Named?): Entry<string, Named> {
    if x == null then Free else Used(x.name, x)
  }

  /** The probing loop of `lookup`, on a table where the probe stops. */
  method ProbeLoop(v: array<Named?>, power: nat, h: nat, name: string, ghost s: Scheme<string>) returns (i: nat)
    requires s.power == power >= 3 && v.Length == Pow2(s.power) && s.hash(name) == h && s.stride(name) == Stride(h, s.power)
    requires Find(s, KeysOf(EntriesOf(v[..])), name, 0).Some?
    ensures i < v.Length && Find(s, KeysOf(EntriesOf(v[..])), name, 0) == Some(i)
  {
    ghost var keys := KeysOf(EntriesOf(v[..]));
    ghost var last := FindPasses(s, keys, name, 0);
    ghost var k := 0;
    i := h % v.Length;
    var step := 0;
    while v[i] != null && v[i].name != name
      invariant k <= last && i == s.At(name, k)
      invariant step == 0 || step == ProbeStep(h, s.power)
      decreases last - k
    {
      assert keys[i] == Some(v[i].name);
      StepBackIsNext(h, s.power, k);
      StepIsOdd(h, s.power);
      if step == 0 {
        step := ProbeStep(h, power);
      }
      i := StepBack(i, step, v.Length);
      k := k + 1;
    }
    assert keys[i] == if v[i] == null then None else Some(v[i].name);
    StopsAt(s, keys, name, k);
  }

  /** The probing loop for a name that is not in the table, which compares no names. */
  method FreeLoop(v: array<Named?>, power: nat, h: nat, ghost name: string, ghost s: Scheme<string>) returns (i: nat)
    requires s.power == power >= 3 && v.Length == Pow2(s.power) && s.hash(name) == h && s.stride(name) == Stride(h, s.power)
    requires Find(s, KeysOf(EntriesOf(v[..])), name, 0).Some?
    requires forall j :: 0 <= j < v.Length && v[j] != null ==> v[j].name != name
    ensures i < v.Length && v[i] == null && Find(s, KeysOf(EntriesOf(v[..])), name, 0) == Some(i)
  {
    ghost var keys := KeysOf(EntriesOf(v[..]));
    ghost var last := FindPasses(s, keys, name, 0);
    ghost var k := 0;
    i := h % v.Length;
    var step := 0;
    while v[i] != null
      invariant k <= last && i == s.At(name, k)
      invariant step == 0 || step == ProbeStep(h, s.power)
      decreases last - k
    {
      assert keys[i] == Some(v[i].name);
      StepBackIsNext(h, s.power, k);
      StepIsOdd(h, s.power);
      if step == 0 {
        step := ProbeStep(h, power);
      }
      i := StepBack(i, step, v.Length);
      k := k + 1;
    }
    assert keys[i] == None;
    StopsAt(s, keys, name, k);
  }

  /** The slots hold the entries of the map. */
  ghost predicate Stores(power: nat, hash: string -> nat, v: seq<Named?>, m: map<string, Named>) {
    Holds(Double(power, hash), EntriesOf(v), m)
  }

  /** Writing an entry where the probe for its name stopped. */
  lemma WriteStores(power: nat, hash: string -> nat, v: seq<Named?>, m: map<string, Named>, x: Named, i: nat)
    requires Stores(power, hash, v, m) && Find(Double(power, hash), KeysOf(EntriesOf(v)), x.name, 0) == Some(i)
    ensures i < |v| && Stores(power, hash, v[i := x], m[x.name := x])
  {
    StoreUpdates(Double(power, hash), EntriesOf(v), m, x.name, x, i);
    assert EntriesOf(v[i := x]) == EntriesOf(v)[i := Used(x.name, x)];
  }

  lemma NullsStoreNothing(power: nat, hash: string -> nat, v: seq<Named?>)
    requires |v| == Pow2(power) && forall j :: 0 <= j < |v| ==> v[j] == null
    ensures Stores(power, hash, v, map[])
  {
    EmptyHolds(Double(power, hash), EntriesOf(v));
  }

  /** A name that is not in the map is not in the slots. */
  lemma AbsentName(power: nat, hash: string -> nat, v: seq<Named?>, m: map<string, Named>, name: string)
    requires Stores(power, hash, v, m) && name !in m
    ensures forall j :: 0 <= j < |v| && v[j] != null ==> v[j].name != name
  {
    ValuesBySlot(EntriesOf(v), m, |v|);
    forall j | 0 <= j < |v| && v[j] != null
      ensures v[j].name != name
    {
      assert EntriesOf(v)[j] == Used(v[j].name, v[j]);
    }
  }

  /** The entry of a slot is not among those of the slots before it. */
  lemma NotYetCollected(power: nat, hash: string -> nat, v: seq<Named?>, m: map<string, Named>, i: nat)
    requires Stores(power, hash, v, m) && i < |v| && v[i] != null
    ensures v[i].name !in Entries(EntriesOf(v), i)
  {
    var es := EntriesOf(v);
    ValuesBefore(es, m, |v|, i);
    EntriesAgree(es, m, i);
    KeyIsNew(Double(power, hash), KeysOf(es), i);
    assert v[i].name !in Entries(es, i).Keys;
  }

  /** One round of the growing loop. */
  method Move(v: array<Named?>, i: nat, newV: array<Named?>, newPower: nat, hash: string -> nat, ghost m: map<string, Named>)
    requires newPower >= 3 && newV.Length == Pow2(newPower) && |m| < newV.Length
    requires i < v.Length && v != newV && m == Entries(EntriesOf(v[..]), i) && Stores(newPower, hash, newV[..], m)
    requires v[i] != null ==> v[i].name !in m
    modifies newV
    ensures Stores(newPower, hash, newV[..], Entries(EntriesOf(v[..]), i + 1))
  {
    var x := v[i];
    if x != null {
      DoubleIsOdd(newPower, hash);
      ProbeStops(Double(newPower, hash), EntriesOf(newV[..]), m, x.name);
      AbsentName(newPower, hash, newV[..], m, x.name);
      var j := FreeLoop(newV, newPower, hash(x.name), x.name, Double(newPower, hash));
      WriteStores(newPower, hash, newV[..], m, x, j);
      newV[j] := x;
    }
  }

  /** What a round of the growing loop starts from. */
  lemma RoundIsSafe(power: nat, hash: string -> nat, v: seq<Named?>, m: map<string, Named>, i: nat)
    requires Stores(power, hash, v, m) && i < |v|
    ensures |Entries(EntriesOf(v), i)| <= |m|
    ensures v[i] != null ==> v[i].name !in Entries(EntriesOf(v), i)
  {
    EntriesOfTable(Double(power, hash), EntriesOf(v), m, i);
    if v[i] != null {
      NotYetCollected(power, hash, v, m, i);
    }
  }

  /** The growing loop: every entry moves to a table of twice the size. */
  method Rehash(v: array<Named?>, power: nat, hash: string -> nat, ghost m: map<string, Named>) returns (newV: array<Named?>)
    requires power >= 3 && v.Length == Pow2(power) && Stores(power, hash, v[..], m) && |m| < 2 * v.Length
    ensures fresh(newV) && newV.Length == Pow2(power + 1) && Stores(power + 1, hash, newV[..], m)
  {
    hide Stride, Holds;
    newV := new Named?[2 * v.Length](_ => null);
    NullsStoreNothing(power + 1, hash, newV[..]);
    ghost var slots := v[..];
    var i := 0;
    while i < v.Length
      invariant i <= v.Length && v[..] == slots
      invariant Stores(power + 1, hash, newV[..], Entries(EntriesOf(slots), i))
    {
      RoundIsSafe(power, hash, slots, m, i);
      Move(v, i, newV, power + 1, hash, Entries(EntriesOf(slots), i));
      i := i + 1;
    }
    EntriesOfTable(Double(power, hash), EntriesOf(slots), m, i);
  }

  class HashTable {
    const hash: string -> nat
    var v: array?<Named?>
    var power: nat
    var size: nat
    var used: nat
    ghost var contents: map<string, Named>

    /** No table yet, or one that holds the contents and is at most half full. */
    ghost predicate Valid()
      reads this, v
    {
      && used == |contents|
      && 2 * used <= size
      && (size == 0 ==> v == null)
      && (size > 0 ==> v != null && 6 <= power && size == v.Length == Pow2(power) && Stores(power, hash, v[..], contents))
    }

    /** `hashTableInit`. */
    constructor (hash: string -> nat)
      ensures Valid() && contents == map[] && size == 0 && this.hash == hash
    {
      this.hash := hash;
      v, power, size, used, contents := null, 0, 0, 0, map[];
    }

    /** Where the probe for a name stops, and what that says. */
    method Probe(name: string) returns (i: nat)
      requires Valid() && size > 0
      ensures i < v.Length && Find(Double(power, hash), KeysOf(EntriesOf(v[..])), name, 0) == Some(i)
      ensures if name in contents then v[i] == contents[name] else v[i] == null
    {
      DoubleIsOdd(power, hash);
      ProbeStops(Double(power, hash), EntriesOf(v[..]), contents, name);
      i := ProbeLoop(v, power, hash(name), name, Double(power, hash));
      ProbeDecides(Double(power, hash), EntriesOf(v[..]), contents, name, i);
    }

    /** The first table. */
    method Start()
      requires Valid() && size == 0
      modifies this
      ensures Valid() && contents == old(contents) && fresh(v) && size == 64 && 2 * (used + 1) <= size
    {
      assert contents == map[] by { assert contents.Keys == {}; }
      power, size := INIT_POWER, 64;
      assert Pow2(6) == 64 by { assert Pow2(2) == 4 && Pow2(4) == 16; }
      v := new Named?[64](_ => null);
      NullsStoreNothing(power, hash, v[..]);
    }

    /** Growth: nothing is lost. */
    method Grow()
      requires Valid() && size > 0
      modifies this
      ensures Valid() && contents == old(contents) && fresh(v) && size == 2 * old(size) && 2 * (used + 1) <= size
    {
      hide Stride, Stores;
      var newV := Rehash(v, power, hash, contents);
      ghost var slots := newV[..];
      v, power, size := newV, power + 1, newV.Length;
      assert v[..] == slots;
    }

    /** The end of `lookup`: a new entry in a free slot. */
    method Put(i: nat, name: string) returns (r: Named)
      requires Valid() && name !in contents && 2 * (used + 1) <= size && i < size
      requires Find(Double(power, hash), KeysOf(EntriesOf(v[..])), name, 0) == Some(i)
      modifies this`used, this`contents, v
      ensures Valid() && fresh(r) && r.name == name && contents == old(contents)[name := r]
    {
      r := new Named(name);
      ghost var slots := v[..][i := r];
      WriteStores(power, hash, v[..], contents, r, i);
      v[i] := r;
      used, contents := used + 1, contents[name := r];
      assert v[..] == slots;
      assert Stores(power, hash, v[..], contents);
    }

    /** `lookup` without a table. */
    method LookupFirst(name: string, create: bool, mallocTable: bool, mallocEntry: bool) returns (r: Named?)
      requires Valid() && size == 0
      modifies this
      ensures Valid() && (v == old(v) || fresh(v)) && old(contents) == map[]
      ensures size == if create && mallocTable then 64 else 0
      ensures r != null <==> create && mallocEntry && mallocTable
      ensures r == null ==> contents == old(contents)
      ensures r != null ==> fresh(r) && r.name == name && contents == old(contents)[name := r]
    {
      assert contents == map[] by { assert contents.Keys == {}; }
      if !create || !mallocTable {
        return null;
      }
      Start();
      if !mallocEntry {
        return null;
      }
      var i := Probe(name);
      r := Put(i, name);
    }

    /** `lookup` of a name that the table does not have: the table grows first when it is half full. */
    method Add(i: nat, name: string, mallocTable: bool, mallocEntry: bool) returns (r: Named?)
      requires Valid() && size > 0 && name !in contents && i < size
      requires Find(Double(power, hash), KeysOf(EntriesOf(v[..])), name, 0) == Some(i)
      modifies this, v
      ensures Valid() && (v == old(v) || fresh(v))
      ensures size == if 2 * old(used) >= old(size) && mallocTable then 2 * old(size) else old(size)
      ensures r != null <==> mallocEntry && (2 * old(used) >= old(size) ==> mallocTable)
      ensures r == null ==> contents == old(contents)
      ensures r != null ==> fresh(r) && r.name == name && contents == old(contents)[name := r]
    {
      hide Stride, Stores;
      var j := i;
      if used >= Pow2(power - 1) {
        if !mallocTable {
          return null;
        }
        Grow();
        j := Probe(name);
      }
      if !mallocEntry {
        return null;
      }
      r := Put(j, name);
    }

    /**
     * `lookup`. A stored name always gives its entry; a new one is added when the caller asks for it and the
     * allocations succeed, and a failed allocation loses nothing.
     */
    method Lookup(name: string, create: bool, mallocTable: bool, mallocEntry: bool) returns (r: Named?)
      requires Valid()
      modifies this, v
      ensures Valid() && (v == old(v) || fresh(v))
      ensures size == if name in old(contents) || !create || !mallocTable then old(size)
                      else if old(size) == 0 then 64 else if 2 * old(used) >= old(size) then 2 * old(size) else old(size)
      ensures name in old(contents) ==> r == old(contents)[name] && contents == old(contents) && v == old(v)
      ensures name !in old(contents) ==>
                (r != null <==> create && mallocEntry && (2 * old(used) >= old(size) ==> mallocTable))
      ensures name !in old(contents) && r == null ==> contents == old(contents)
      ensures name !in old(contents) && r != null ==> fresh(r) && r.name == name && contents == old(contents)[name := r]
    {
      if size == 0 {
        r := LookupFirst(name, create, mallocTable, mallocEntry);
        return;
      }
      var i := Probe(name);
      if v[i] != null {
        return v[i];
      }
      if !create {
        return null;
      }
      r := Add(i, name, mallocTable, mallocEntry);
    }

    /** `hashTableClear`: the table keeps its size. */
    method Clear()
      requires Valid()
      modifies this`used, this`contents, v
      ensures Valid() && contents == map[] && size == old(size)
    {
      var i := 0;
      while i < size
        invariant i <= size && (size > 0 ==> v != null && v.Length == size)
        invariant forall j :: 0 <= j < i ==> v[j] == null
      {
        v[i] := null;
        i := i + 1;
      }
      used, contents := 0, map[];
      if size > 0 {
        NullsStoreNothing(power, hash, v[..]);
      }
    }
  }
}
