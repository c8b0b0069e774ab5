/**
 * The scaffold of a content model (xmlparse.c): one array of cells in the order of the tokens, linked by indices, that
 * the roles of the declaration fill in step by step.
 */
module Scaffold {
  import opened Wrappers
  import opened Lists
  import opened ContentModel

  /** CONTENT_SCAFFOLD; `nextsib` and the child links are indices, zero for none. */
  datatype Cell = Cell(kind: Kind, quant: Quant, name: string, firstchild: nat, lastchild: nat, childcnt: nat, nextsib: nat)

  /** How many cells, and how many characters of names with their terminators, particles take. */
  function Size(cp: CP): (n: nat)
    ensures n > 0
  {
    match cp
    case Leaf(_, _) => 1
    case Group(_, _, children) => 1 + Sizes(children)
  }

  function Sizes(cps: seq<CP>): nat {
    if cps == [] then 0 else Size(cps[0]) + Sizes(cps[1..])
  }

  function Chars(cp: CP): nat {
    match cp
    case Leaf(name, _) => |name| + 1
    case Group(_, _, children) => AllChars(children)
  }

  function AllChars(cps: seq<CP>): nat {
    if cps == [] then 0 else Chars(cps[0]) + AllChars(cps[1..])
  }

  /** The index of the last of some siblings that start at `at`. */
  function LastAt(cps: seq<CP>, at: nat): (k: nat)
    requires cps != []
    ensures k >= at
  {
    at + Sizes(cps[..|cps| - 1])
  }

  /** The cells of a particle at `at`; what is not set keeps the values of `junk`. */
  function Cells(cp: CP, at: nat, next: nat, junk: Cell): (cells: seq<Cell>)
    ensures |cells| == Size(cp)
    decreases cp, 1
  {
    match cp
    case Leaf(name, quant) => [Cell(NameKind, quant, name, 0, 0, 0, next)]
    case Group(kind, quant, children) =>
      [GroupCell(kind, quant, children, at, next, junk)] + Kids(children, at + 1, 0, junk)
  }

  function GroupCell(kind: Kind, quant: Quant, children: seq<CP>, at: nat, next: nat, junk: Cell): Cell {
    if children == [] then Cell(kind, quant, junk.name, 0, 0, 0, next)
    else Cell(kind, quant, junk.name, at + 1, LastAt(children, at + 1), |children|, next)
  }

  /** Siblings follow each other; the last one points to `last`. */
  function Kids(cps: seq<CP>, at: nat, last: nat, junk: Cell): (cells: seq<Cell>)
    ensures |cells| == Sizes(cps)
    decreases cps, 0
  {
    if cps == [] then []
    else
      Cells(cps[0], at, if |cps| == 1 then last else at + Size(cps[0]), junk)
      + Kids(cps[1..], at + Size(cps[0]), last, junk)
  }

  /** The cells of an open group, whose last child may be the next open group. */
  function Body(f: Frame, at: nat, inner: bool, junk: Cell): (cells: seq<Cell>)
    ensures |cells| == 1 + Sizes(f.children)
  {
    Headed(HeadCell(f, at, inner, junk), f.children, at + 1, if inner then at + 1 + Sizes(f.children) else 0, junk)
  }

  function Headed(head: Cell, cps: seq<CP>, at: nat, last: nat, junk: Cell): (cells: seq<Cell>)
    ensures |cells| == 1 + Sizes(cps)
  {
    [head] + Kids(cps, at, last, junk)
  }

  function KindOf(f: Frame): Kind {
    if f.kind.Some? then f.kind.value else Seq
  }

  function HeadCell(f: Frame, at: nat, inner: bool, junk: Cell): Cell {
    if inner then Cell(KindOf(f), junk.quant, junk.name, at + 1, at + 1 + Sizes(f.children), |f.children| + 1, 0)
    else GroupCell(KindOf(f), junk.quant, f.children, at, 0, junk)
  }

  /** The cells of open groups (innermost first), when one more is open inside them, and when none is. */
  function Outer(frames: seq<Frame>, junk: Cell): seq<Cell> {
    if frames == [] then [] else var outer := Outer(frames[1..], junk); outer + Body(frames[0], |outer|, true, junk)
  }

  function Open(frames: seq<Frame>, junk: Cell): seq<Cell>
    requires frames != []
  {
    var outer := Outer(frames[1..], junk);
    outer + Body(frames[0], |outer|, false, junk)
  }

  lemma {:induction false} SizesSnoc(cps: seq<CP>, cp: CP)
    ensures Sizes(cps + [cp]) == Sizes(cps) + Size(cp) && AllChars(cps + [cp]) == AllChars(cps) + Chars(cp)
  {
    if cps == [] {
      assert cps + [cp] == [cp];
    } else {
      SizesSnoc(cps[1..], cp);
      assert (cps + [cp])[1..] == cps[1..] + [cp];
    }
  }

  lemma {:induction false} KidsSnoc(cps: seq<CP>, cp: CP, at: nat, last: nat, junk: Cell)
    ensures Kids(cps + [cp], at, last, junk) == Kids(cps, at, at + Sizes(cps), junk) + Cells(cp, at + Sizes(cps), last, junk)
  {
    hide Cells;
    if cps == [] {
      assert cps + [cp] == [cp];
    } else {
      var rest, at' := cps[1..], at + Size(cps[0]);
      KidsSnoc(rest, cp, at', last, junk);
      assert (cps + [cp])[1..] == rest + [cp];
      Assoc(Cells(cps[0], at, at', junk), Kids(rest, at', at + Sizes(cps), junk), Cells(cp, at + Sizes(cps), last, junk));
    }
  }

  /** Where the last sibling is in the cells of its siblings. */
  lemma LastIsIn(cps: seq<CP>, at: nat)
    requires cps != []
    ensures LastAt(cps, at) - at < Sizes(cps)
  {
    SizesSnoc(cps[..|cps| - 1], cps[|cps| - 1]);
    assert cps == cps[..|cps| - 1] + [cps[|cps| - 1]];
  }

  lemma CellsNext(cp: CP, at: nat, next: nat, junk: Cell)
    ensures Cells(cp, at, next, junk) == Cells(cp, at, 0, junk)[0 := Cells(cp, at, 0, junk)[0].(nextsib := next)]
  {
  }

  /** Linking the last sibling to a new one changes one cell. */
  lemma LastLinks(init: seq<CP>, cp: CP, at: nat, last: nat, junk: Cell)
    ensures Sizes(init) < |Kids(init + [cp], at, 0, junk)|
    ensures var kids, k := Kids(init + [cp], at, 0, junk), Sizes(init);
            Kids(init + [cp], at, last, junk) == kids[k := kids[k].(nextsib := last)]
  {
    hide Cells, Kids;
    SizesSnoc(init, cp);
    KidsSnoc(init, cp, at, 0, junk);
    KidsSnoc(init, cp, at, last, junk);
    CellsNext(cp, at + Sizes(init), last, junk);
    var cells := Cells(cp, at + Sizes(init), 0, junk);
    UpdateSecond(Kids(init, at, at + Sizes(init), junk), cells, 0, cells[0].(nextsib := last));
  }

  lemma KidsLast(cps: seq<CP>, at: nat, last: nat, junk: Cell)
    requires cps != []
    ensures var kids, k := Kids(cps, at, 0, junk), LastAt(cps, at) - at;
            k < |kids| && Kids(cps, at, last, junk) == kids[k := kids[k].(nextsib := last)]
  {
    var init, cp := cps[..|cps| - 1], cps[|cps| - 1];
    LastLinks(init, cp, at, last, junk);
    assert cps == init + [cp];
  }

  /** What `nextScaffoldPart` does to the parent of a new cell and to the sibling before it. */
  function Link(cells: seq<Cell>, parent: nat): (r: seq<Cell>)
    requires parent < |cells|
    ensures |r| == |cells|
  {
    var p, next := cells[parent], |cells|;
    var linked := if 0 < p.lastchild < |cells| then cells[p.lastchild := cells[p.lastchild].(nextsib := next)] else cells;
    linked[parent := p.(firstchild := if p.childcnt == 0 then next else p.firstchild, lastchild := next, childcnt := p.childcnt + 1)]
  }

  lemma LinkFirst(cells: seq<Cell>, at: nat)
    requires at < |cells| && cells[at].lastchild == 0 && cells[at].childcnt == 0
    ensures Link(cells, at) == cells[at := cells[at].(firstchild := |cells|, lastchild := |cells|, childcnt := 1)]
  {
  }

  lemma LinkNext(cells: seq<Cell>, at: nat, k: nat)
    requires at < |cells| && 0 < cells[at].lastchild == k < |cells| && cells[at].childcnt > 0
    ensures Link(cells, at)
         == cells[k := cells[k].(nextsib := |cells|)][at := cells[at].(lastchild := |cells|, childcnt := cells[at].childcnt + 1)]
  {
  }

  lemma HeadedLinks(head: Cell, head': Cell, cps: seq<CP>, at: nat, next: nat, junk: Cell)
    requires cps != []
    ensures var b, k := Headed(head, cps, at, 0, junk), 1 + LastAt(cps, at) - at;
            k < |b| && Headed(head', cps, at, next, junk) == b[k := b[k].(nextsib := next)][0 := head']
  {
    LastIsIn(cps, at);
    KidsLast(cps, at, next, junk);
    var kids, k := Kids(cps, at, 0, junk), LastAt(cps, at) - at;
    var linked := kids[k := kids[k].(nextsib := next)];
    UpdateSecond([head], kids, k, kids[k].(nextsib := next));
    assert ([head] + linked)[0 := head'] == [head'] + linked;
  }

  /** The same with cells before it. */
  lemma LinkBehind(outer: seq<Cell>, b: seq<Cell>, head: Cell, k: nat, next: nat)
    requires 0 < k < |b|
    ensures (outer + b)[|outer| + k] == b[k] && (outer + b)[|outer|] == b[0]
    ensures outer + b[k := b[k].(nextsib := next)][0 := head]
         == (outer + b)[|outer| + k := b[k].(nextsib := next)][|outer| := head]
  {
    var linked := b[k := b[k].(nextsib := next)];
    UpdateSecond(outer, b, 0, head);
    UpdateSecond(outer, b, k, b[k].(nextsib := next));
    UpdateSecond(outer, linked, 0, head);
  }

  /** The cells of a group that has a child, when it gets another. */
  lemma BodyLinks(outer: seq<Cell>, f: Frame, junk: Cell)
    requires f.children != []
    ensures outer + Body(f, |outer|, true, junk) == Link(outer + Body(f, |outer|, false, junk), |outer|)
  {
    var at := |outer|;
    var b, head := Body(f, at, false, junk), HeadCell(f, at, true, junk);
    var k, next := LastAt(f.children, at + 1) - at, at + |b|;
    HeadedLinks(HeadCell(f, at, false, junk), head, f.children, at + 1, next, junk);
    LinkBehind(outer, b, head, k, next);
    LinkNext(outer + b, at, at + k);
  }

  lemma FirstLinks(outer: seq<Cell>, f: Frame, junk: Cell)
    requires f.children == []
    ensures outer + Body(f, |outer|, true, junk) == Link(outer + Body(f, |outer|, false, junk), |outer|)
  {
    var at := |outer|;
    var b, head := Body(f, at, false, junk), HeadCell(f, at, true, junk);
    UpdateSecond(outer, b, 0, head);
    LinkFirst(outer + b, at);
    assert b[0 := head] == Body(f, at, true, junk);
  }

  /** A new cell inside the innermost group is linked to its parent and to the sibling before it. */
  lemma OpenLinks(frames: seq<Frame>, junk: Cell)
    requires frames != []
    ensures |Outer(frames[1..], junk)| < |Open(frames, junk)| == |Outer(frames, junk)|
    ensures Outer(frames, junk) == Link(Open(frames, junk), |Outer(frames[1..], junk)|)
  {
    if frames[0].children == [] {
      FirstLinks(Outer(frames[1..], junk), frames[0], junk);
    } else {
      BodyLinks(Outer(frames[1..], junk), frames[0], junk);
    }
  }

  /** A new group. */
  function NewGroup(junk: Cell): Cell {
    Cell(Seq, junk.quant, junk.name, 0, 0, 0, 0)
  }

  lemma OpenGroup(frames: seq<Frame>, junk: Cell)
    ensures Open([Frame(None, [])] + frames, junk) == Outer(frames, junk) + [NewGroup(junk)]
  {
    assert ([Frame(None, [])] + frames)[1..] == frames;
  }

  lemma HeadJoins(f: Frame, cp: CP, at: nat, junk: Cell)
    ensures HeadCell(Frame(f.kind, f.children + [cp]), at, false, junk) == HeadCell(f, at, true, junk)
  {
    assert (f.children + [cp])[..|f.children + [cp]| - 1] == f.children;
  }

  lemma HeadedSnoc(head: Cell, cps: seq<CP>, cp: CP, at: nat, junk: Cell)
    ensures Headed(head, cps + [cp], at, 0, junk) == Headed(head, cps, at, at + Sizes(cps), junk) + Cells(cp, at + Sizes(cps), 0, junk)
  {
    KidsSnoc(cps, cp, at, 0, junk);
    Assoc([head], Kids(cps, at, at + Sizes(cps), junk), Cells(cp, at + Sizes(cps), 0, junk));
  }

  lemma BodyJoins(f: Frame, cp: CP, at: nat, junk: Cell)
    ensures Body(Frame(f.kind, f.children + [cp]), at, false, junk)
         == Body(f, at, true, junk) + Cells(cp, at + 1 + Sizes(f.children), 0, junk)
  {
    HeadJoins(f, cp, at, junk);
    HeadedSnoc(HeadCell(f, at, true, junk), f.children, cp, at + 1, junk);
  }

  /** A particle at the end of the cells becomes a child of the innermost group. */
  lemma ChildJoins(frames: seq<Frame>, cp: CP, junk: Cell)
    requires frames != []
    ensures Open(AddChild(frames, cp), junk) == Outer(frames, junk) + Cells(cp, |Outer(frames, junk)|, 0, junk)
  {
    assert AddChild(frames, cp)[1..] == frames[1..];
    BodyJoins(frames[0], cp, |Outer(frames[1..], junk)|, junk);
  }

  /** Setting the quantifier of the innermost group closes it. */
  lemma GroupCloses(frames: seq<Frame>, quant: Quant, junk: Cell)
    requires frames != []
    ensures var cells, at := Open(frames, junk), |Outer(frames[1..], junk)|;
            at < |cells| && cells[at := cells[at].(quant := quant)]
                            == Outer(frames[1..], junk) + Cells(Closed(frames[0], quant), at, 0, junk)
  {
    var outer, f := Outer(frames[1..], junk), frames[0];
    assert Open(frames, junk) == outer + Body(f, |outer|, false, junk);
  }

  /** Setting the type of the innermost group. */
  lemma KindSets(frames: seq<Frame>, kind: Kind, junk: Cell)
    requires frames != []
    ensures var cells, at := Open(frames, junk), |Outer(frames[1..], junk)|;
            at < |cells| && cells[at := cells[at].(kind := kind)]
                            == Open([Frame(Some(kind), frames[0].children)] + frames[1..], junk)
  {
    var outer, f := Outer(frames[1..], junk), frames[0];
    assert Open(frames, junk) == outer + Body(f, |outer|, false, junk);
    assert ([Frame(Some(kind), f.children)] + frames[1..])[1..] == frames[1..];
  }
}
