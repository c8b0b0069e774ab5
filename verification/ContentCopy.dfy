/** The copy of a scaffold into one block of memory (xmlparse.c): nodes first, then the characters of their names. */
module ContentCopy {
  import opened Wrappers
  import opened Lists
  import opened ContentModel
  import opened Scaffold

  /** XML_Content; pointers are offsets in the characters and in the nodes. */
  datatype Node = Node(kind: Kind, quant: Quant, name: Option<nat>, numchildren: nat, children: Option<nat>)

  /** What the nodes and characters say about a particle. */
  predicate Reads(nodes: seq<Node>, chars: seq<char>, at: nat, cp: CP)
    decreases cp, 1
  {
    at < |nodes| &&
    match cp
    case Leaf(name, quant) =>
      && nodes[at].kind == NameKind && nodes[at].quant == quant && nodes[at].numchildren == 0 && nodes[at].children == None
      && nodes[at].name.Some?
      && var o := nodes[at].name.value; o + |name| < |chars| && chars[o..o + |name| + 1] == name + ['\0']
    case Group(kind, quant, children) =>
      && nodes[at].kind == kind && nodes[at].quant == quant && nodes[at].name == None
      && nodes[at].numchildren == |children| && nodes[at].children.Some?
      && ReadsAll(nodes, chars, nodes[at].children.value, children)
  }

  predicate ReadsAll(nodes: seq<Node>, chars: seq<char>, at: nat, cps: seq<CP>)
    decreases cps, 0
  {
    cps == [] || (Reads(nodes, chars, at, cps[0]) && ReadsAll(nodes, chars, at + 1, cps[1..]))
  }

  /** The positions of the nodes that say so: that of the particle and those of all that is under it. */
  function Places(nodes: seq<Node>, chars: seq<char>, at: nat, cp: CP): seq<nat>
    requires Reads(nodes, chars, at, cp)
    decreases cp, 1
  {
    match cp
    case Leaf(_, _) => [at]
    case Group(_, _, children) => [at] + AllPlaces(nodes, chars, nodes[at].children.value, children)
  }

  function AllPlaces(nodes: seq<Node>, chars: seq<char>, at: nat, cps: seq<CP>): seq<nat>
    requires ReadsAll(nodes, chars, at, cps)
    decreases cps, 0
  {
    if cps == [] then [] else Places(nodes, chars, at, cps[0]) + AllPlaces(nodes, chars, at + 1, cps[1..])
  }

  /** The positions of the characters of its names, with their terminators. */
  function Spans(nodes: seq<Node>, chars: seq<char>, at: nat, cp: CP): seq<nat>
    requires Reads(nodes, chars, at, cp)
    decreases cp, 1
  {
    match cp
    case Leaf(name, _) => Range(nodes[at].name.value, nodes[at].name.value + |name| + 1)
    case Group(_, _, children) => AllSpans(nodes, chars, nodes[at].children.value, children)
  }

  function AllSpans(nodes: seq<Node>, chars: seq<char>, at: nat, cps: seq<CP>): seq<nat>
    requires ReadsAll(nodes, chars, at, cps)
    decreases cps, 0
  {
    if cps == [] then [] else Spans(nodes, chars, at, cps[0]) + AllSpans(nodes, chars, at + 1, cps[1..])
  }

  /** The numbers from `a` up to `b`, without `b`. */
  function Range(a: nat, b: nat): (r: seq<nat>)
    requires a <= b
    ensures |r| == b - a
  {
    seq(b - a, i requires 0 <= i => a + i)
  }

  lemma RangesJoin(a: nat, b: nat, c: nat)
    requires a <= b <= c
    ensures Range(a, b) + Range(b, c) == Range(a, c)
    ensures multiset(Range(a, b)) + multiset(Range(b, c)) == multiset(Range(a, c))
  {
    assert Range(a, b) + Range(b, c) == Range(a, c);
  }

  /** The numbers of two stretches. */
  function Stretches(a: nat, b: nat, a': nat, b': nat): multiset<nat>
    requires a <= b && a' <= b'
  {
    multiset(Range(a, b)) + multiset(Range(a', b'))
  }

  /** The first parts of two stretches, and the rest of both. */
  lemma Regroup(a: nat, b: nat, c: nat, a': nat, b': nat, c': nat)
    requires a <= b <= c && a' <= b' <= c'
    ensures Stretches(a, b, a', b') + Stretches(b, c, b', c') == Stretches(a, c, a', c')
  {
    hide Range;
    RangesJoin(a, b, c);
    RangesJoin(a', b', c');
  }

  lemma NoStretch(a: nat, a': nat)
    ensures Stretches(a, a, a', a') == multiset{}
  {
    RangeEmpty(a);
    RangeEmpty(a');
  }

  lemma AddUp(a: seq<nat>, b: seq<nat>)
    ensures multiset(a + b) == multiset(a) + multiset(b)
  {
  }

  lemma RangeEmpty(a: nat)
    ensures Range(a, a) == []
  {
  }

  lemma RangeOfOne(a: nat)
    ensures Range(a, a + 1) == [a]
  {
  }

  /** A block that says a particle, reading each of its nodes and each of its characters exactly once. */
  predicate Fills(nodes: seq<Node>, chars: seq<char>, cp: CP) {
    && |nodes| == Size(cp) && |chars| == Chars(cp)
    && Reads(nodes, chars, 0, cp)
    && multiset(Places(nodes, chars, 0, cp)) == multiset(Range(0, Size(cp)))
    && Spans(nodes, chars, 0, cp) == Range(0, Chars(cp))
  }

  // The layout: the children of a node are next to each other, and below them what is under each of them in turn.

  function Head(cp: CP, pos: nat, spos: nat): Node {
    match cp
    case Leaf(_, quant) => Node(NameKind, quant, Some(spos), 0, None)
    case Group(kind, quant, children) => Node(kind, quant, None, |children|, Some(pos))
  }

  function Tail(cp: CP, pos: nat, spos: nat): (nodes: seq<Node>)
    ensures |nodes| == Size(cp) - 1
    decreases cp, 1
  {
    match cp
    case Leaf(_, _) => []
    case Group(_, _, children) =>
      SizesCount(children);
      Heads(children, pos + |children|, spos) + Tails(children, pos + |children|, spos)
  }

  lemma TailOf(cp: CP, pos: nat, spos: nat)
    requires cp.Group?
    ensures Tail(cp, pos, spos) == Heads(cp.children, pos + |cp.children|, spos) + Tails(cp.children, pos + |cp.children|, spos)
  {
  }

  function Heads(cps: seq<CP>, pos: nat, spos: nat): (nodes: seq<Node>)
    ensures |nodes| == |cps|
  {
    if cps == [] then []
    else [Head(cps[0], pos, spos)] + Heads(cps[1..], pos + Size(cps[0]) - 1, spos + Chars(cps[0]))
  }

  function Tails(cps: seq<CP>, pos: nat, spos: nat): (nodes: seq<Node>)
    ensures |nodes| == Sizes(cps) - |cps|
    decreases cps, 0
  {
    if cps == [] then []
    else Tail(cps[0], pos, spos) + Tails(cps[1..], pos + Size(cps[0]) - 1, spos + Chars(cps[0]))
  }

  function Letters(cp: CP): (chars: seq<char>)
    ensures |chars| == Chars(cp)
    decreases cp, 1
  {
    match cp
    case Leaf(name, _) => name + ['\0']
    case Group(_, _, children) => AllLetters(children)
  }

  function AllLetters(cps: seq<CP>): (chars: seq<char>)
    ensures |chars| == AllChars(cps)
    decreases cps, 0
  {
    if cps == [] then [] else Letters(cps[0]) + AllLetters(cps[1..])
  }

  lemma {:induction false} SizesCount(cps: seq<CP>)
    ensures Sizes(cps) >= |cps|
  {
    if cps != [] {
      SizesCount(cps[1..]);
    }
  }

  lemma SplitSlice<T>(s: seq<T>, from: nat, to: nat, a: seq<T>, b: seq<T>)
    requires from <= to <= |s| && s[from..to] == a + b
    ensures from + |a| <= to && s[from..from + |a|] == a && s[from + |a|..to] == b
  {
    assert s[from..from + |a|] == s[from..to][..|a|];
    assert s[from + |a|..to] == s[from..to][|a|..];
  }

  /** Where a block laid out like this keeps what it reads: each child list from its own place on, each name in turn. */
  predicate Spread(nodes: seq<Node>, at: nat, cp: CP, pos: nat, spos: nat)
    decreases cp, 1
  {
    at < |nodes| &&
    match cp
    case Leaf(_, _) => nodes[at].name == Some(spos)
    case Group(_, _, children) => nodes[at].children == Some(pos) && AllSpread(nodes, pos, children, pos + |children|, spos)
  }

  predicate AllSpread(nodes: seq<Node>, at: nat, cps: seq<CP>, pos: nat, spos: nat)
    decreases cps, 0
  {
    cps == [] ||
    ( && Spread(nodes, at, cps[0], pos, spos)
      && AllSpread(nodes, at + 1, cps[1..], pos + Size(cps[0]) - 1, spos + Chars(cps[0])))
  }

  /** A block laid out like this reads back as the particle. */
  lemma {:induction false} LayoutReads(nodes: seq<Node>, chars: seq<char>, at: nat, cp: CP, pos: nat, spos: nat)
    requires at < |nodes| && nodes[at] == Head(cp, pos, spos)
    requires pos + Size(cp) - 1 <= |nodes| && nodes[pos..pos + Size(cp) - 1] == Tail(cp, pos, spos)
    requires spos + Chars(cp) <= |chars| && chars[spos..spos + Chars(cp)] == Letters(cp)
    ensures Reads(nodes, chars, at, cp) && Spread(nodes, at, cp, pos, spos)
    decreases cp, 1
  {
    if cp.Group? {
      var n := |cp.children|;
      SizesCount(cp.children);
      SplitSlice(nodes, pos, pos + Sizes(cp.children), Heads(cp.children, pos + n, spos), Tails(cp.children, pos + n, spos));
      LayoutsRead(nodes, chars, pos, cp.children, pos + n, spos);
    }
  }

  lemma {:induction false} LayoutsRead(nodes: seq<Node>, chars: seq<char>, at: nat, cps: seq<CP>, pos: nat, spos: nat)
    requires at + |cps| <= |nodes| && nodes[at..at + |cps|] == Heads(cps, pos, spos)
    requires Sizes(cps) >= |cps| && pos + Sizes(cps) - |cps| <= |nodes|
    requires nodes[pos..pos + Sizes(cps) - |cps|] == Tails(cps, pos, spos)
    requires spos + AllChars(cps) <= |chars| && chars[spos..spos + AllChars(cps)] == AllLetters(cps)
    ensures ReadsAll(nodes, chars, at, cps) && AllSpread(nodes, at, cps, pos, spos)
    decreases cps, 0
  {
    hide Reads, Spread, Heads, Tails, AllLetters, Sizes, AllChars;
    if cps != [] {
      HeadsSplit(nodes, at, cps, pos, spos);
      TailsSplit(nodes, cps, pos, spos, pos + Sizes(cps) - |cps|);
      LettersSplit(chars, cps, spos, spos + AllChars(cps));
      LayoutReads(nodes, chars, at, cps[0], pos, spos);
      LayoutsRead(nodes, chars, at + 1, cps[1..], pos + Size(cps[0]) - 1, spos + Chars(cps[0]));
    }
  }

  // The first of several siblings, and the others.

  lemma HeadsSplit(nodes: seq<Node>, at: nat, cps: seq<CP>, pos: nat, spos: nat)
    requires cps != [] && at + |cps| <= |nodes| && nodes[at..at + |cps|] == Heads(cps, pos, spos)
    ensures nodes[at] == Head(cps[0], pos, spos)
    ensures nodes[at + 1..at + |cps|] == Heads(cps[1..], pos + Size(cps[0]) - 1, spos + Chars(cps[0]))
  {
    SplitSlice(nodes, at, at + |cps|, [Head(cps[0], pos, spos)], Heads(cps[1..], pos + Size(cps[0]) - 1, spos + Chars(cps[0])));
  }

  lemma TailsSplit(nodes: seq<Node>, cps: seq<CP>, pos: nat, spos: nat, end: nat)
    requires cps != [] && pos <= end <= |nodes| && end == pos + Sizes(cps) - |cps| && nodes[pos..end] == Tails(cps, pos, spos)
    ensures Sizes(cps[1..]) >= |cps| - 1 && pos + Size(cps[0]) - 1 + Sizes(cps[1..]) - (|cps| - 1) == end
    ensures nodes[pos..pos + Size(cps[0]) - 1] == Tail(cps[0], pos, spos)
    ensures nodes[pos + Size(cps[0]) - 1..end] == Tails(cps[1..], pos + Size(cps[0]) - 1, spos + Chars(cps[0]))
  {
    SizesCount(cps[1..]);
    SplitSlice(nodes, pos, end, Tail(cps[0], pos, spos), Tails(cps[1..], pos + Size(cps[0]) - 1, spos + Chars(cps[0])));
  }

  lemma LettersSplit(chars: seq<char>, cps: seq<CP>, spos: nat, end: nat)
    requires cps != [] && spos <= end <= |chars| && end == spos + AllChars(cps) && chars[spos..end] == AllLetters(cps)
    ensures spos + Chars(cps[0]) + AllChars(cps[1..]) == end
    ensures chars[spos..spos + Chars(cps[0])] == Letters(cps[0]) && chars[spos + Chars(cps[0])..end] == AllLetters(cps[1..])
  {
    SplitSlice(chars, spos, end, Letters(cps[0]), AllLetters(cps[1..]));
  }

  /** It is read out of its own node and the stretch below it: no node is read twice, none is left unread. */
  lemma {:induction false} PlacesOnce(nodes: seq<Node>, chars: seq<char>, at: nat, cp: CP, pos: nat, spos: nat)
    requires Reads(nodes, chars, at, cp) && Spread(nodes, at, cp, pos, spos)
    ensures multiset(Places(nodes, chars, at, cp)) == Stretches(at, at + 1, pos, pos + Size(cp) - 1)
    decreases cp, 1
  {
    hide Range, AllPlaces, AllSpread;
    RangeOfOne(at);
    if cp.Group? {
      var n := |cp.children|;
      SizesCount(cp.children);
      AllPlacesOnce(nodes, chars, pos, cp.children, pos + n, spos);
      AddUp([at], AllPlaces(nodes, chars, pos, cp.children));
      RangesJoin(pos, pos + n, pos + Sizes(cp.children));
    } else {
      RangeEmpty(pos);
    }
  }

  lemma {:induction false} AllPlacesOnce(nodes: seq<Node>, chars: seq<char>, at: nat, cps: seq<CP>, pos: nat, spos: nat)
    requires ReadsAll(nodes, chars, at, cps) && AllSpread(nodes, at, cps, pos, spos)
    ensures Sizes(cps) >= |cps|
    ensures multiset(AllPlaces(nodes, chars, at, cps)) == Stretches(at, at + |cps|, pos, pos + Sizes(cps) - |cps|)
    decreases cps, 0
  {
    hide Places, Range, Spread, Stretches;
    if cps == [] {
      NoStretch(at, pos);
    } else {
      var pos', end := pos + Size(cps[0]) - 1, pos + Sizes(cps) - |cps|;
      PlacesOnce(nodes, chars, at, cps[0], pos, spos);
      AllPlacesOnce(nodes, chars, at + 1, cps[1..], pos', spos + Chars(cps[0]));
      assert at + 1 + |cps[1..]| == at + |cps| && pos' + Sizes(cps[1..]) - |cps[1..]| == end;
      var first, others := Places(nodes, chars, at, cps[0]), AllPlaces(nodes, chars, at + 1, cps[1..]);
      assert AllPlaces(nodes, chars, at, cps) == first + others;
      AddUp(first, others);
      Regroup(at, at + 1, at + |cps|, pos, pos', end);
    }
  }

  /** Its characters are read front to back, from the first to the last. */
  lemma {:induction false} SpansInOrder(nodes: seq<Node>, chars: seq<char>, at: nat, cp: CP, pos: nat, spos: nat)
    requires Reads(nodes, chars, at, cp) && Spread(nodes, at, cp, pos, spos)
    ensures Spans(nodes, chars, at, cp) == Range(spos, spos + Chars(cp))
    decreases cp, 1
  {
    if cp.Group? {
      AllSpansInOrder(nodes, chars, pos, cp.children, pos + |cp.children|, spos);
    }
  }

  lemma {:induction false} AllSpansInOrder(nodes: seq<Node>, chars: seq<char>, at: nat, cps: seq<CP>, pos: nat, spos: nat)
    requires ReadsAll(nodes, chars, at, cps) && AllSpread(nodes, at, cps, pos, spos)
    ensures AllSpans(nodes, chars, at, cps) == Range(spos, spos + AllChars(cps))
    decreases cps, 0
  {
    if cps == [] {
      RangeEmpty(spos);
    } else {
      var spos' := spos + Chars(cps[0]);
      SpansInOrder(nodes, chars, at, cps[0], pos, spos);
      AllSpansInOrder(nodes, chars, at + 1, cps[1..], pos + Size(cps[0]) - 1, spos');
      RangesJoin(spos, spos', spos + AllChars(cps));
    }
  }

  /** A block laid out like this from end to end says the particle, with each node and each character read once. */
  lemma LayoutFills(nodes: seq<Node>, chars: seq<char>, cp: CP)
    requires nodes == [Head(cp, 1, 0)] + Tail(cp, 1, 0) && chars == Letters(cp)
    ensures Fills(nodes, chars, cp)
  {
    hide Reads, Spread, Places, Spans, Range, Head, Letters;
    WholeReads(nodes, chars, cp);
    PlacesOnce(nodes, chars, 0, cp, 1, 0);
    SpansInOrder(nodes, chars, 0, cp, 1, 0);
    RangesJoin(0, 1, Size(cp));
  }

  lemma WholeReads(nodes: seq<Node>, chars: seq<char>, cp: CP)
    requires nodes == [Head(cp, 1, 0)] + Tail(cp, 1, 0) && chars == Letters(cp)
    ensures |nodes| == Size(cp) && |chars| == Chars(cp) && Reads(nodes, chars, 0, cp) && Spread(nodes, 0, cp, 1, 0)
  {
    hide Reads, Spread, Head, Tail, Letters;
    assert nodes[1..1 + Size(cp) - 1] == Tail(cp, 1, 0) && chars[0..0 + Chars(cp)] == chars;
    LayoutReads(nodes, chars, 0, cp, 1, 0);
  }

  /** The names are ended by their terminators, and no group passes for a name. */
  predicate Copyable(cp: CP)
    decreases cp, 1
  {
    match cp
    case Leaf(name, _) => '\0' !in name
    case Group(kind, _, children) => kind != NameKind && AllCopyable(children)
  }

  predicate AllCopyable(cps: seq<CP>)
    decreases cps, 0
  {
    cps == [] || (Copyable(cps[0]) && AllCopyable(cps[1..]))
  }

  /** The loop that copies a name and its terminator. */
  method CopyName(str: array<char>, strpos: nat, name: string) returns (strpos': nat)
    requires '\0' !in name && strpos + |name| + 1 <= str.Length
    modifies str
    ensures strpos' == strpos + |name| + 1 && str[..] == Splice(old(str[..]), strpos, name + ['\0'])
  {
    ghost var before := str[..];
    var i := 0;
    strpos' := strpos;
    while true
      invariant i <= |name| && strpos' == strpos + i && str[..] == Splice(before, strpos, name[..i])
      decreases |name| - i
    {
      var c := if i < |name| then name[i] else '\0';
      SplicesJoin(before, strpos, name[..i], [c]);
      str[strpos'] := c;
      assert str[..] == Splice(Splice(before, strpos, name[..i]), strpos + i, [c]);
      strpos' := strpos' + 1;
      if c == '\0' {
        break;
      }
      assert name[..i + 1] == name[..i] + [c];
      i := i + 1;
    }
    assert name[..i] == name;
  }

  /** `build_node`: the node at `dest`, and from `contpos` and `strpos` on all that is under it. */
  method BuildNode(scaffold: seq<Cell>, src: nat, ret: array<Node>, str: array<char>, dest: nat, contpos: nat, strpos: nat,
                   ghost cp: CP, ghost next: nat, ghost junk: Cell)
    returns (contpos': nat, strpos': nat)
    requires src + Size(cp) <= |scaffold| && scaffold[src..src + Size(cp)] == Cells(cp, src, next, junk)
    requires dest < contpos && contpos + Size(cp) - 1 <= ret.Length && strpos + Chars(cp) <= str.Length && Copyable(cp)
    modifies ret, str
    ensures contpos' == contpos + Size(cp) - 1 && strpos' == strpos + Chars(cp)
    ensures ret[..] == Splice(Splice(old(ret[..]), dest, [Head(cp, contpos, strpos)]), contpos, Tail(cp, contpos, strpos))
    ensures str[..] == Splice(old(str[..]), strpos, Letters(cp))
    decreases Size(cp), 1
  {
    var cell := scaffold[src];
    assert cell == Cells(cp, src, next, junk)[0];
    if cell.kind == NameKind {
      WriteNode(ret, dest, Node(cell.kind, cell.quant, Some(strpos), 0, None));
      assert Splice(ret[..], contpos, []) == ret[..];
      strpos' := CopyName(str, strpos, cell.name);
      contpos' := contpos;
    } else {
      contpos', strpos' := BuildGroup(scaffold, src, ret, str, dest, contpos, strpos, cp, next, junk);
    }
  }

  method WriteNode(ret: array<Node>, dest: nat, node: Node)
    requires dest < ret.Length
    modifies ret
    ensures ret[..] == Splice(old(ret[..]), dest, [node])
  {
    ret[dest] := node;
  }

  method BuildGroup(scaffold: seq<Cell>, src: nat, ret: array<Node>, str: array<char>, dest: nat, contpos: nat, strpos: nat,
                    ghost cp: CP, ghost next: nat, ghost junk: Cell)
    returns (contpos': nat, strpos': nat)
    requires cp.Group? && src + Size(cp) <= |scaffold| && scaffold[src..src + Size(cp)] == Cells(cp, src, next, junk)
    requires dest < contpos && contpos + Size(cp) - 1 <= ret.Length && strpos + Chars(cp) <= str.Length && Copyable(cp)
    modifies ret, str
    ensures contpos' == contpos + Size(cp) - 1 && strpos' == strpos + Chars(cp)
    ensures ret[..] == Splice(Splice(old(ret[..]), dest, [Head(cp, contpos, strpos)]), contpos, Tail(cp, contpos, strpos))
    ensures str[..] == Splice(old(str[..]), strpos, Letters(cp))
    decreases Size(cp), 0
  {
    hide Splice, Heads, Tails, AllLetters, Kids;
    var cell := scaffold[src];
    assert cell == Cells(cp, src, next, junk)[0];
    SizesCount(cp.children);
    SplitSlice(scaffold, src, src + Size(cp), [cell], Kids(cp.children, src + 1, 0, junk));
    WriteNode(ret, dest, Node(cell.kind, cell.quant, None, cell.childcnt, Some(contpos)));
    ghost var headed, below := ret[..], contpos + cell.childcnt;
    contpos', strpos' := BuildChildren(scaffold, cell.firstchild, cell.childcnt, ret, str, contpos, contpos + cell.childcnt, strpos,
                                       cp.children, 0, junk);
    TailOf(cp, contpos, strpos);
    SplicesJoin(headed, contpos, Heads(cp.children, below, strpos), Tails(cp.children, below, strpos));
  }

  /** The loop of `build_node`: the children next to each other from `block` on, and from `contpos` on what is under them. */
  method BuildChildren(scaffold: seq<Cell>, first: nat, n: nat, ret: array<Node>, str: array<char>, block: nat, contpos: nat,
                       strpos: nat, ghost cps: seq<CP>, ghost last: nat, ghost junk: Cell)
    returns (contpos': nat, strpos': nat)
    requires n == |cps| <= Sizes(cps) && AllCopyable(cps)
    requires n > 0 ==> SpellsKids(scaffold, cps, first, last, junk)
    requires block + n <= contpos && contpos + Sizes(cps) - n <= ret.Length && strpos + AllChars(cps) <= str.Length
    modifies ret, str
    ensures contpos' == contpos + Sizes(cps) - n && strpos' == strpos + AllChars(cps)
    ensures ret[..] == Splice(Splice(old(ret[..]), block, Heads(cps, contpos, strpos)), contpos, Tails(cps, contpos, strpos))
    ensures str[..] == Splice(old(str[..]), strpos, AllLetters(cps))
    decreases Sizes(cps), 4
  {
    ghost var ret0, str0 := ret[..], str[..];
    var i: nat, cn: nat := 0, first;
    contpos', strpos' := contpos, strpos;
    ghost var rest, heads, tails, letters := cps, [], [], [];
    assert Splice(Splice(ret0, block, heads), contpos, tails) == ret0 && Splice(str0, strpos, letters) == str0;
    while i < n
      invariant |rest| == n - i && (rest != [] ==> SpellsKids(scaffold, rest, cn, last, junk))
      invariant Progress(cps, contpos, strpos, rest, contpos', strpos', heads, tails, letters)
      invariant |tails| <= Sizes(cps) - n && |letters| <= AllChars(cps)
      invariant ret[..] == Splice(Splice(ret0, block, heads), contpos, tails) && str[..] == Splice(str0, strpos, letters)
    {
      contpos', strpos', cn, heads, tails, letters := BuildNext(scaffold, cn, ret, str, block, i, contpos', strpos', contpos, strpos,
                                                                cps, rest, last, junk, ret0, str0, heads, tails, letters);
      i := i + 1;
      rest := rest[1..];
    }
    AllWritten(cps, contpos, strpos, contpos', strpos', heads, tails, letters);
  }

  lemma AllWritten(cps: seq<CP>, pos0: nat, spos0: nat, pos: nat, spos: nat, heads: seq<Node>, tails: seq<Node>, letters: seq<char>)
    requires Progress(cps, pos0, spos0, [], pos, spos, heads, tails, letters)
    ensures heads == Heads(cps, pos0, spos0) && tails == Tails(cps, pos0, spos0) && letters == AllLetters(cps)
    ensures pos == pos0 + Sizes(cps) - |cps| && spos == spos0 + AllChars(cps)
  {
    assert heads + [] == heads && tails + [] == tails && letters + [] == letters;
  }

  /** One round of the loop, with what has been written so far. */
  method BuildNext(scaffold: seq<Cell>, cn: nat, ret: array<Node>, str: array<char>, block: nat, i: nat, contpos: nat, strpos: nat,
                   ghost pos0: nat, ghost spos0: nat, ghost cps: seq<CP>, ghost rest: seq<CP>, ghost last: nat, ghost junk: Cell,
                   ghost ret0: seq<Node>, ghost str0: seq<char>, ghost heads: seq<Node>, ghost tails: seq<Node>, ghost letters: seq<char>)
    returns (contpos': nat, strpos': nat, cn': nat, ghost heads': seq<Node>, ghost tails': seq<Node>, ghost letters': seq<char>)
    requires |rest| == |cps| - i > 0 && SpellsKids(scaffold, rest, cn, last, junk)
    requires block + |cps| <= pos0 && |cps| <= Sizes(cps) && pos0 + Sizes(cps) - |cps| <= ret.Length == |ret0|
    requires spos0 + AllChars(cps) <= str.Length == |str0|
    requires Progress(cps, pos0, spos0, rest, contpos, strpos, heads, tails, letters)
    requires |tails| <= Sizes(cps) - |cps| && |letters| <= AllChars(cps)
    requires ret[..] == Splice(Splice(ret0, block, heads), pos0, tails) && str[..] == Splice(str0, spos0, letters)
    modifies ret, str
    ensures |rest| > 1 ==> SpellsKids(scaffold, rest[1..], cn', last, junk)
    ensures Progress(cps, pos0, spos0, rest[1..], contpos', strpos', heads', tails', letters')
    ensures |tails'| <= Sizes(cps) - |cps| && |letters'| <= AllChars(cps)
    ensures ret[..] == Splice(Splice(ret0, block, heads'), pos0, tails') && str[..] == Splice(str0, spos0, letters')
    decreases Sizes(rest), 3
  {
    hide Splice, Letters, Head, Tail;
    Room(cps, pos0, spos0, rest, contpos, strpos, heads, tails, letters);
    SizesCount(rest[1..]);
    contpos', strpos', cn' := BuildChild(scaffold, cn, ret, str, block + i, contpos, strpos, rest, last, junk);
    heads', tails', letters' := Round(cps, pos0, spos0, rest, contpos, strpos, contpos', strpos', heads, tails, letters);
    SplicesGrow(ret0, block, heads, [Head(rest[0], contpos, strpos)], pos0, tails, Tail(rest[0], contpos, strpos));
    SplicesJoin(str0, spos0, letters, Letters(rest[0]));
  }

  /** The cells of the siblings that are left. */
  ghost predicate SpellsKids(scaffold: seq<Cell>, cps: seq<CP>, at: nat, last: nat, junk: Cell) {
    at + Sizes(cps) <= |scaffold| && scaffold[at..at + Sizes(cps)] == Kids(cps, at, last, junk)
  }

  /** What has been written, and what is left to write. */
  ghost predicate Progress(cps: seq<CP>, pos0: nat, spos0: nat, rest: seq<CP>, pos: nat, spos: nat,
                           heads: seq<Node>, tails: seq<Node>, letters: seq<char>) {
    && AllCopyable(rest) && |rest| <= Sizes(rest) <= Sizes(cps)
    && |heads| == |cps| - |rest| && pos == pos0 + |tails| && spos == spos0 + |letters|
    && heads + Heads(rest, pos, spos) == Heads(cps, pos0, spos0)
    && tails + Tails(rest, pos, spos) == Tails(cps, pos0, spos0)
    && letters + AllLetters(rest) == AllLetters(cps)
  }

  lemma RoundHeads(heads: seq<Node>, rest: seq<CP>, pos: nat, spos: nat)
    requires rest != []
    ensures heads + Heads(rest, pos, spos)
         == heads + [Head(rest[0], pos, spos)] + Heads(rest[1..], pos + Size(rest[0]) - 1, spos + Chars(rest[0]))
  {
    Assoc(heads, [Head(rest[0], pos, spos)], Heads(rest[1..], pos + Size(rest[0]) - 1, spos + Chars(rest[0])));
  }

  lemma RoundTails(tails: seq<Node>, rest: seq<CP>, pos: nat, spos: nat)
    requires rest != []
    ensures tails + Tails(rest, pos, spos)
         == tails + Tail(rest[0], pos, spos) + Tails(rest[1..], pos + Size(rest[0]) - 1, spos + Chars(rest[0]))
  {
    Assoc(tails, Tail(rest[0], pos, spos), Tails(rest[1..], pos + Size(rest[0]) - 1, spos + Chars(rest[0])));
  }

  lemma RoundLetters(letters: string, rest: seq<CP>)
    requires rest != []
    ensures letters + AllLetters(rest) == letters + Letters(rest[0]) + AllLetters(rest[1..])
  {
    Assoc(letters, Letters(rest[0]), AllLetters(rest[1..]));
  }

  /** What has been written fits. */
  lemma Room(cps: seq<CP>, pos0: nat, spos0: nat, rest: seq<CP>, pos: nat, spos: nat,
             heads: seq<Node>, tails: seq<Node>, letters: seq<char>)
    requires Progress(cps, pos0, spos0, rest, pos, spos, heads, tails, letters)
    ensures |tails| + Sizes(rest) - |rest| == Sizes(cps) - |cps| && |letters| + AllChars(rest) == AllChars(cps)
  {
    assert |tails + Tails(rest, pos, spos)| == |Tails(cps, pos0, spos0)|;
    assert |letters + AllLetters(rest)| == |AllLetters(cps)|;
  }

  lemma Round(cps: seq<CP>, pos0: nat, spos0: nat, rest: seq<CP>, pos: nat, spos: nat, pos': nat, spos': nat,
              heads: seq<Node>, tails: seq<Node>, letters: seq<char>)
    returns (heads': seq<Node>, tails': seq<Node>, letters': seq<char>)
    requires rest != [] && Progress(cps, pos0, spos0, rest, pos, spos, heads, tails, letters)
    requires pos' == pos + Size(rest[0]) - 1 && spos' == spos + Chars(rest[0])
    ensures Progress(cps, pos0, spos0, rest[1..], pos', spos', heads', tails', letters')
    ensures heads' == heads + [Head(rest[0], pos, spos)] && tails' == tails + Tail(rest[0], pos, spos)
    ensures letters' == letters + Letters(rest[0])
    ensures |tails'| <= Sizes(cps) - |cps| && |letters'| <= AllChars(cps)
  {
    SizesCount(rest[1..]);
    Room(cps, pos0, spos0, rest, pos, spos, heads, tails, letters);
    RoundHeads(heads, rest, pos, spos);
    RoundTails(tails, rest, pos, spos);
    RoundLetters(letters, rest);
    heads', tails', letters' := heads + [Head(rest[0], pos, spos)], tails + Tail(rest[0], pos, spos), letters + Letters(rest[0]);
  }

  /** One round of the loop. */
  method BuildChild(scaffold: seq<Cell>, cn: nat, ret: array<Node>, str: array<char>, dest: nat, contpos: nat, strpos: nat,
                    ghost cps: seq<CP>, ghost last: nat, ghost junk: Cell)
    returns (contpos': nat, strpos': nat, cn': nat)
    requires cps != [] && AllCopyable(cps) && SpellsKids(scaffold, cps, cn, last, junk)
    requires dest < contpos && contpos + Size(cps[0]) - 1 <= ret.Length && strpos + Chars(cps[0]) <= str.Length
    modifies ret, str
    ensures contpos' == contpos + Size(cps[0]) - 1 && strpos' == strpos + Chars(cps[0])
    ensures ret[..] == Splice(Splice(old(ret[..]), dest, [Head(cps[0], contpos, strpos)]), contpos, Tail(cps[0], contpos, strpos))
    ensures str[..] == Splice(old(str[..]), strpos, Letters(cps[0]))
    ensures |cps| > 1 ==> SpellsKids(scaffold, cps[1..], cn', last, junk)
    decreases Sizes(cps), 2
  {
    hide Head, Tail, Letters, Splice, Chars, Reads, Copyable;
    ghost var cp := cps[0];
    ghost var nx := if |cps| == 1 then last else cn + Size(cp);
    SplitSlice(scaffold, cn, cn + Sizes(cps), Cells(cp, cn, nx, junk), Kids(cps[1..], cn + Size(cp), last, junk));
    contpos', strpos' := BuildNode(scaffold, cn, ret, str, dest, contpos, strpos, cp, nx, junk);
    cn' := scaffold[cn].nextsib;
    assert scaffold[cn] == Cells(cp, cn, nx, junk)[0];
  }

  /** `build_model`: one block with exactly as many nodes as the scaffold has cells and as many characters as its names. */
  method BuildModel(scaffold: seq<Cell>, contentStringLen: nat, ghost cp: CP, ghost junk: Cell)
    returns (ret: array<Node>, str: array<char>)
    requires scaffold == Cells(cp, 0, 0, junk) && contentStringLen == Chars(cp) && Copyable(cp)
    ensures fresh(ret) && fresh(str) && ret.Length == Size(cp) && str.Length == Chars(cp)
    ensures ret[..] == [Head(cp, 1, 0)] + Tail(cp, 1, 0) && str[..] == Letters(cp)
    ensures Fills(ret[..], str[..], cp)
  {
    ret := new Node[|scaffold|](_ => Node(EmptyKind, NoQuant, None, 0, None));
    str := new char[contentStringLen](_ => '\0');
    assert scaffold[0..0 + Size(cp)] == scaffold;
    ghost var ret0, str0 := ret[..], str[..];
    var contpos, strpos := BuildNode(scaffold, 0, ret, str, 0, 1, 0, cp, 0, junk);
    SplicesJoin(ret0, 0, [Head(cp, 1, 0)], Tail(cp, 1, 0));
    SpliceAll(ret0, [Head(cp, 1, 0)] + Tail(cp, 1, 0));
    SpliceAll(str0, Letters(cp));
    LayoutFills(ret[..], str[..], cp);
  }
}
