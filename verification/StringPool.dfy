/**
 * Expat's string pool (xmlparse.c): blocks of characters, the newest of which ends in an open string that can grow and
 * is then finished in place.
 */
module StringPool {
  import opened Lists

  const INIT_BLOCK_SIZE: nat := 1024

  /** A non-empty finished string: where it is, and what it says. */
  datatype Finished = Finished(block: array<char>, offset: nat, text: string)

  ghost predicate Kept(f: Finished)
    reads f.block
  {
    f.text != "" && f.offset + |f.text| <= f.block.Length && f.block[f.offset..f.offset + |f.text|] == f.text
  }

  /** A finished string is in one of the blocks, and in the newest block before the open string. */
  ghost predicate Located(f: Finished, blocks: seq<array<char>>, start: nat) {
    f.block in blocks && (f.block == blocks[0] ==> f.offset + |f.text| <= start)
  }

  lemma OneMore(before: string, s: string, from: nat, i: nat)
    requires from <= i < |s|
    ensures before + s[from..i] + [s[i]] == before + s[from..i + 1]
  {
    assert s[from..i] + [s[i]] == s[from..i + 1];
  }

  lemma SomeMore(before: string, s: string, i: nat, j: nat)
    requires i <= j <= |s|
    ensures before + s[..i] + s[i..j] == before + s[..j]
  {
    assert s[..i] + s[i..j] == s[..j];
  }

  class Pool {
    /** The lists `blocks` and `freeBlocks`, and the three pointers as offsets in the first block: NULL without blocks. */
    var blocks: seq<array<char>>
    var freeBlocks: seq<array<char>>
    var start: nat
    var ptr: nat
    var end: nat
    ghost var finished: seq<Finished>
    ghost var repr: set<array<char>>

    ghost predicate Lists()
      reads this
    {
      && Distinct(blocks, freeBlocks)
      && (forall b :: b in blocks ==> b in repr && b.Length > 0)
      && (forall b :: b in freeBlocks ==> b in repr && b.Length > 0)
    }

    ghost predicate Pointers()
      reads this
    {
      start <= ptr <= end && end == if blocks == [] then 0 else blocks[0].Length
    }

    /** Every finished string is where it was and says what it said. */
    ghost predicate AllKept()
      reads this, repr
      requires Lists()
    {
      forall k :: 0 <= k < |finished| ==> Located(finished[k], blocks, start) && Kept(finished[k])
    }

    ghost predicate Valid()
      reads this, repr
    {
      Lists() && Pointers() && AllKept()
    }

    /** The open string. */
    ghost function Open(): string
      reads this, repr
      requires Valid()
    {
      if blocks == [] then "" else blocks[0][start..ptr]
    }

    /** `poolInit`. */
    constructor ()
      ensures Valid() && Open() == "" && finished == [] && repr == {} && blocks == freeBlocks == []
    {
      blocks, freeBlocks, start, ptr, end := [], [], 0, 0, 0;
      finished, repr := [], {};
    }

    /** `poolGrow` without blocks: the first free block. */
    method TakeFree()
      requires Valid() && blocks == [] && freeBlocks != []
      modifies this
      ensures Valid() && Open() == old(Open()) && ptr < end && finished == old(finished) && repr == old(repr)
    {
      assert finished == [] by { assert |finished| > 0 ==> Located(finished[0], blocks, start); }
      ShiftDistinct(blocks, freeBlocks);
      assert [freeBlocks[0]] + blocks == [freeBlocks[0]];
      blocks, freeBlocks := [freeBlocks[0]], freeBlocks[1..];
      start, ptr, end := 0, 0, blocks[0].Length;
    }

    /** `poolGrow`, moving the open string to a bigger free block. */
    method MoveToFree()
      requires Valid() && blocks != [] && freeBlocks != [] && end - start < freeBlocks[0].Length
      modifies this, repr
      ensures Valid() && Open() == old(Open()) && ptr < end && finished == old(finished) && repr == old(repr)
    {
      var from, to := blocks[0], freeBlocks[0];
      ShiftDistinct(blocks, freeBlocks);
      forall i | 0 <= i < end - start {
        to[i] := from[start + i];
      }
      blocks, freeBlocks := [to] + blocks, freeBlocks[1..];
      start, ptr, end := 0, ptr - start, to.Length;
    }

    /** `poolGrow` when the open string has its block for itself: the block is reallocated at twice its size. */
    method Reallocate()
      requires Valid() && blocks != [] && start == 0
      modifies this
      ensures Valid() && Open() == old(Open()) && ptr < end && finished == old(finished) && fresh(repr - old(repr))
    {
      var from, size := blocks[0], 2 * (end - start);
      var to := new char[size];
      forall i | 0 <= i < from.Length {
        to[i] := from[i];
      }
      NewDistinct(blocks, freeBlocks, to);
      blocks, repr := [to] + blocks[1..], repr + {to};
      start, end := 0, size;
    }

    /** A new block with a copy of the open string. */
    method CopyOpen(size: nat) returns (to: array<char>)
      requires Valid() && ptr - start < size
      ensures fresh(to) && to.Length == size && to[..ptr - start] == Open()
    {
      to := new char[size];
      if ptr != start {
        var from := blocks[0];
        forall i | 0 <= i < ptr - start {
          to[i] := from[start + i];
        }
      }
    }

    /** `poolGrow` otherwise: a new block of twice the room, or of the initial size. */
    method AddBlock()
      requires Valid()
      modifies this
      ensures Valid() && Open() == old(Open()) && ptr < end && finished == old(finished) && fresh(repr - old(repr))
    {
      var size := if end - start < INIT_BLOCK_SIZE then INIT_BLOCK_SIZE else 2 * (end - start);
      var to := CopyOpen(size);
      NewDistinct(blocks, freeBlocks, to);
      blocks, repr := [to] + blocks, repr + {to};
      start, ptr, end := 0, ptr - start, size;
    }

    /**
     * `poolGrow`. Success leaves room for one more character; failure changes nothing, and happens only when an
     * allocation is needed and fails.
     */
    method Grow(malloc: bool) returns (ok: bool)
      requires Valid()
      modifies this, repr
      ensures Valid() && Open() == old(Open()) && finished == old(finished) && fresh(repr - old(repr))
      ensures ok ==> ptr < end
      ensures old(blocks) != [] ==> blocks != []
      ensures !ok <==> !malloc && (old(freeBlocks) == [] || (old(blocks) != [] && old(end - start) >= old(freeBlocks)[0].Length))
    {
      if freeBlocks != [] {
        if blocks == [] {
          TakeFree();
          return true;
        }
        if end - start < freeBlocks[0].Length {
          MoveToFree();
          return true;
        }
      }
      if !malloc {
        return false;
      }
      if blocks != [] && start == 0 {
        Reallocate();
      } else {
        AddBlock();
      }
      return true;
    }

    /** A character written where the open string ends. */
    method Put(c: char)
      requires Valid() && ptr < end
      modifies this`ptr, repr
      ensures Valid() && Open() == old(Open()) + [c] && ptr == old(ptr) + 1
    {
      blocks[0][ptr] := c;
      ptr := ptr + 1;
    }

    /** `poolAppendChar`. */
    method AppendChar(c: char, malloc: bool) returns (ok: bool)
      requires Valid()
      modifies this, repr
      ensures Valid() && finished == old(finished) && fresh(repr - old(repr))
      ensures ok ==> Open() == old(Open()) + [c]
      ensures old(blocks) != [] ==> blocks != []
      ensures !ok ==> Open() == old(Open()) && !malloc
    {
      if ptr == end {
        ok := Grow(malloc);
        if !ok {
          return;
        }
      }
      Put(c);
      ok := true;
    }

    /** `poolFinish`: the open string stays where it is for good, and a new one starts after it. */
    method Finish()
      requires Valid()
      modifies this`start, this`finished
      ensures Valid() && Open() == "" && start == ptr
      ensures old(Open()) == "" ==> finished == old(finished)
      ensures old(Open()) != "" ==> blocks != [] && finished == old(finished) + [Finished(blocks[0], old(start), old(Open()))]
    {
      if start < ptr {
        finished := finished + [Finished(blocks[0], start, Open())];
      }
      start := ptr;
    }

    /** `poolDiscard`. */
    method Discard()
      requires Valid()
      modifies this`ptr
      ensures Valid() && Open() == ""
    {
      ptr := start;
    }

    /** `poolLastChar`. */
    method LastChar() returns (c: char)
      requires Valid() && Open() != ""
      ensures c == Open()[|Open()| - 1]
    {
      c := blocks[0][ptr - 1];
    }

    /** `poolChop`. */
    method Chop()
      requires Valid() && Open() != ""
      modifies this`ptr
      ensures Valid() && Open() == old(Open())[..|old(Open())| - 1]
    {
      ptr := ptr - 1;
    }

    /** `poolAppendString`; `malloc` says for each character whether an allocation made for it would succeed. */
    method AppendString(s: string, malloc: nat -> bool) returns (ok: bool, ghost done: nat)
      requires Valid()
      modifies this, repr
      ensures Valid() && finished == old(finished) && fresh(repr - old(repr))
      ensures done <= |s| && Open() == old(Open()) + s[..done]
      ensures if ok then done == |s| else done < |s| && !malloc(done)
      ensures old(blocks) != [] ==> blocks != []
    {
      var i := 0;
      while i < |s|
        invariant i <= |s| && Valid() && finished == old(finished) && fresh(repr - old(repr))
        invariant Open() == old(Open()) + s[0..i] && (old(blocks) != [] ==> blocks != [])
      {
        ok := AppendChar(s[i], malloc(i));
        if !ok {
          return false, i;
        }
        OneMore(old(Open()), s, 0, i);
        i := i + 1;
      }
      return true, i;
    }

    /**
     * `poolCopyString`: the open string goes on with the string and its terminator, and is finished; `at` is where it
     * starts in the newest block.
     */
    method CopyString(s: string, malloc: nat -> bool) returns (ok: bool, at: nat, ghost done: nat)
      requires Valid()
      modifies this, repr
      ensures Valid() && fresh(repr - old(repr))
      ensures ok ==> blocks != [] && Open() == ""
      ensures ok ==> finished == old(finished) + [Finished(blocks[0], at, old(Open()) + s + ['\0'])]
      ensures !ok ==> finished == old(finished) && done <= |s| && !malloc(done) && Open() == old(Open()) + s[..done]
    {
      ok, done := AppendString(s, malloc);
      assert s[..|s|] == s;
      if ok {
        ok := AppendChar('\0', malloc(|s|));
      }
      at := start;
      if ok {
        Finish();
      }
    }

    /** `poolCopyStringN`: without a terminator, so that the finished string can be empty. */
    method CopyStringN(s: string, malloc: nat -> bool) returns (ok: bool, at: nat, ghost done: nat)
      requires Valid()
      modifies this, repr
      ensures Valid() && fresh(repr - old(repr))
      ensures ok ==> blocks != [] && Open() == ""
      ensures ok && old(Open()) + s != "" ==> finished == old(finished) + [Finished(blocks[0], at, old(Open()) + s)]
      ensures ok && old(Open()) + s == "" ==> finished == old(finished)
      ensures !ok ==> finished == old(finished) && done <= |s| && !malloc(done) && Open() == old(Open()) + s[..done]
    {
      done := 0;
      if blocks == [] {
        ok := Grow(malloc(0));
        if !ok {
          at := 0;
          return;
        }
      }
      ok, done := AppendString(s, malloc);
      assert s[..|s|] == s;
      at := start;
      if ok {
        Finish();
      }
    }

    /** What one round of `poolAppend` converts: as much as there is room for. */
    method Convert(s: string, from: nat) returns (i: nat)
      requires Valid() && blocks != [] && from <= |s|
      modifies this`ptr, repr
      ensures Valid() && from <= i <= |s| && Open() == old(Open()) + s[from..i]
      ensures i == |s| || ptr == end
      ensures from < |s| && old(ptr) < end ==> from < i
    {
      i := from;
      while i < |s| && ptr < end
        invariant ptr == old(ptr) + i - from
        invariant from <= i <= |s| && Valid() && Open() == old(Open()) + s[from..i]
      {
        OneMore(old(Open()), s, from, i);
        Put(s[i]);
        i := i + 1;
      }
    }

    /** `poolAppend`, for an encoding that converts character by character. */
    method Append(s: string, malloc: nat -> bool) returns (ok: bool, ghost done: nat)
      requires Valid()
      modifies this, repr
      ensures Valid() && finished == old(finished) && fresh(repr - old(repr))
      ensures done <= |s| && Open() == old(Open()) + s[..done]
      ensures if ok then done == |s| && blocks != [] else !malloc(done)
    {
      done := 0;
      if blocks == [] {
        ok := Grow(malloc(0));
        if !ok {
          return;
        }
      }
      var i := Convert(s, 0);
      while i < |s|
        invariant i <= |s| && Valid() && finished == old(finished) && fresh(repr - old(repr)) && blocks != []
        invariant Open() == old(Open()) + s[..i] && (i == |s| || ptr == end)
      {
        ghost var was := i;
        ok, i := GrowAndConvert(s, i, malloc(i));
        if !ok {
          return false, was;
        }
        SomeMore(old(Open()), s, was, i);
      }
      return true, i;
    }

    /** One round of `poolAppend`, which makes progress. */
    method GrowAndConvert(s: string, from: nat, malloc: bool) returns (ok: bool, i: nat)
      requires Valid() && blocks != [] && from < |s|
      modifies this, repr
      ensures Valid() && finished == old(finished) && fresh(repr - old(repr)) && blocks != []
      ensures if ok then from < i <= |s| && (i == |s| || ptr == end) else i == from && !malloc
      ensures Open() == old(Open()) + s[from..i]
    {
      i := from;
      ok := Grow(malloc);
      if ok {
        i := Convert(s, from);
      }
    }

    /** `poolStoreString`: the text and its terminator, left open. */
    method StoreString(s: string, malloc: nat -> bool) returns (ok: bool)
      requires Valid()
      modifies this, repr
      ensures Valid() && finished == old(finished) && fresh(repr - old(repr))
      ensures ok ==> Open() == old(Open()) + s + ['\0']
    {
      ghost var done;
      ok, done := Append(s, malloc);
      if ok {
        ok := AppendChar('\0', malloc(|s|));
      }
    }

    /** `poolClear`: every block becomes free, none is lost. */
    method Clear()
      requires Valid()
      modifies this
      ensures Valid() && blocks == [] && finished == [] && repr == old(repr) && Open() == ""
      ensures forall b :: b in freeBlocks <==> b in old(blocks) || b in old(freeBlocks)
    {
      if freeBlocks == [] {
        freeBlocks := blocks;
      } else {
        var p := blocks;
        while p != []
          invariant Distinct(p, freeBlocks) && repr == old(repr)
          invariant forall b :: b in p ==> b in repr && b.Length > 0
          invariant forall b :: b in freeBlocks ==> b in repr && b.Length > 0
          invariant forall b :: b in p || b in freeBlocks <==> b in old(blocks) || b in old(freeBlocks)
          decreases |p|
        {
          ShiftDistinct(freeBlocks, p);
          p, freeBlocks := p[1..], [p[0]] + freeBlocks;
        }
      }
      blocks, start, ptr, end, finished := [], 0, 0, 0, [];
    }
  }

  /** What the users of a pool do with it. */
  datatype Op = AppendOp(c: char) | FinishOp | DiscardOp | GrowOp

  /** The open string after some operations: what was appended since the last finish or discard. */
  function OpenAfter(open: string, ops: seq<Op>): string
    decreases ops
  {
    if ops == [] then open
    else match ops[0] {
      case AppendOp(c) => OpenAfter(open + [c], ops[1..])
      case FinishOp => OpenAfter("", ops[1..])
      case DiscardOp => OpenAfter("", ops[1..])
      case GrowOp => OpenAfter(open, ops[1..])
    }
  }

  /** The texts that some operations finish, in order, without empty ones. */
  function FinishedBy(open: string, ops: seq<Op>): seq<string>
    decreases ops
  {
    if ops == [] then []
    else match ops[0] {
      case AppendOp(c) => FinishedBy(open + [c], ops[1..])
      case FinishOp => (if open == "" then [] else [open]) + FinishedBy("", ops[1..])
      case DiscardOp => FinishedBy("", ops[1..])
      case GrowOp => FinishedBy(open, ops[1..])
    }
  }

  function Texts(fs: seq<Finished>): (ts: seq<string>)
    ensures |ts| == |fs|
  {
    if fs == [] then [] else [fs[0].text] + Texts(fs[1..])
  }

  /** One operation on a pool. */
  method Apply(pool: Pool, op: Op, malloc: bool) returns (ok: bool)
    requires pool.Valid()
    modifies pool, pool.repr
    ensures pool.Valid() && fresh(pool.repr - old(pool.repr)) && (!ok ==> !malloc)
    ensures old(pool.finished) <= pool.finished
    ensures ok ==> pool.Open() == OpenAfter(old(pool.Open()), [op])
    ensures ok ==> Texts(pool.finished[|old(pool.finished)|..]) == FinishedBy(old(pool.Open()), [op])
    ensures !ok ==> pool.Open() == old(pool.Open()) && pool.finished == old(pool.finished)
  {
    ok := true;
    match op
    case AppendOp(c) => ok := pool.AppendChar(c, malloc);
    case FinishOp => pool.Finish();
    case DiscardOp => pool.Discard();
    case GrowOp => ok := pool.Grow(malloc);
  }

  /**
   * Any run of operations, up to the first allocation that fails: the strings that were finished before it are still
   * where they were and say what they said, the new ones are those that the operations spell, and the open string is
   * what was appended since the last finish or discard.
   */
  method Run(pool: Pool, ops: seq<Op>, malloc: nat -> bool) returns (ghost done: nat)
    requires pool.Valid()
    modifies pool, pool.repr
    ensures pool.Valid() && fresh(pool.repr - old(pool.repr))
    ensures done <= |ops| && (done < |ops| ==> !malloc(done))
    ensures old(pool.finished) <= pool.finished
    ensures pool.Open() == OpenAfter(old(pool.Open()), ops[..done])
    ensures Texts(pool.finished[|old(pool.finished)|..]) == FinishedBy(old(pool.Open()), ops[..done])
  {
    ghost var before, open := pool.finished, pool.Open();
    var k := 0;
    while k < |ops|
      invariant k <= |ops| && pool.Valid() && fresh(pool.repr - old(pool.repr))
      invariant before <= pool.finished && pool.Open() == OpenAfter(open, ops[..k])
      invariant Texts(pool.finished[|before|..]) == FinishedBy(open, ops[..k])
    {
      ghost var sofar := pool.finished;
      var ok := Apply(pool, ops[k], malloc(k));
      if !ok {
        return k;
      }
      RunOn(open, ops[..k], [ops[k]]);
      assert ops[..k + 1] == ops[..k] + [ops[k]];
      TextsOn(before, sofar, pool.finished);
      k := k + 1;
    }
    assert ops[..k] == ops;
    return k;
  }

  /** Running on. */
  lemma {:induction false} RunOn(open: string, ops: seq<Op>, more: seq<Op>)
    ensures OpenAfter(open, ops + more) == OpenAfter(OpenAfter(open, ops), more)
    ensures FinishedBy(open, ops + more) == FinishedBy(open, ops) + FinishedBy(OpenAfter(open, ops), more)
    decreases ops
  {
    if ops == [] {
      assert ops + more == more;
    } else {
      var next := match ops[0] case AppendOp(c) => open + [c] case FinishOp => "" case DiscardOp => "" case GrowOp => open;
      RunOn(next, ops[1..], more);
      assert (ops + more)[0] == ops[0] && (ops + more)[1..] == ops[1..] + more;
    }
  }

  lemma TextsOn(before: seq<Finished>, sofar: seq<Finished>, now: seq<Finished>)
    requires before <= sofar <= now
    ensures Texts(now[|before|..]) == Texts(sofar[|before|..]) + Texts(now[|sofar|..])
  {
    assert now[|before|..] == sofar[|before|..] + now[|sofar|..];
    TextsJoin(sofar[|before|..], now[|sofar|..]);
  }

  lemma {:induction false} TextsJoin(a: seq<Finished>, b: seq<Finished>)
    ensures Texts(a + b) == Texts(a) + Texts(b)
  {
    if a == [] {
      assert a + b == b;
    } else {
      TextsJoin(a[1..], b);
      FrontOfJoin(a, b);
      Assoc([a[0].text], Texts(a[1..]), Texts(b));
    }
  }
}
