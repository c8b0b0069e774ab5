/**
 * Element declarations as they are parsed: the states of xmlrole.c name a role for each token, and the roles of xmlparse.c
 * fill the scaffold and hand over its copy.
 */
module ElementDecl {
  import opened Wrappers
  import opened ContentModel
  import opened Scaffold
  import opened ContentCopy

  const INIT_GROUPS: nat := 32
  const INIT_SCAFFOLD_ELEMENTS: nat := 32

  datatype Handler = Element1 | Element2 | Element3 | Element4 | Element5 | Element6 | Element7 | DeclClose | ErrorHandler

  datatype Role =
    | ElementNone
    | GroupOpen
    | ContentEmpty
    | ContentAny
    | ContentPcdata
    | ContentElement(quant: Quant)
    | GroupClose(quant: Quant)
    | GroupSequence
    | GroupChoice
    | RoleError

  /** The state that a configuration is in. */
  ghost function HandlerOf(c: Config): Handler {
    match c
    case Start => Element1
    case First => Element2
    case InMixed(names, true) => Element4
    case InMixed(names, false) => if names == [] then Element3 else Element5
    case InGroup(_, expecting) => if expecting then Element6 else Element7
    case Done(_) => DeclClose
    case Failed => ErrorHandler
  }

  ghost function FramesOf(c: Config): seq<Frame> {
    match c
    case First => [Frame(None, [])]
    case InMixed(names, _) => [Frame(Some(Mixed), names)]
    case InGroup(frames, _) => frames
    case _ => []
  }

  /** The level counts the open groups; the close of mixed content forgets to count down. */
  ghost predicate LevelFits(c: Config, level: nat) {
    match c
    case Done(Tree(cp)) => level == if cp.Group? && cp.kind == Mixed then 1 else 0
    case Start => true
    case Done(_) => true
    case Failed => true
    case _ => level == |FramesOf(c)| > 0
  }

  /** A separator that differs from the earlier ones is not an error of the states. */
  predicate Mismatch(c: Config, tok: Tok) {
    c.InGroup? && c.frames != [] && !c.expecting && (tok == Comma || tok == Or)
  }

  /** The role of a token. */
  function RoleOf(c: Config, tok: Tok): Role {
    if tok == Space then ElementNone
    else if Step(c, tok) == Failed && !Mismatch(c, tok) then RoleError
    else match tok {
      case OpenParen => GroupOpen
      case Pcdata => ContentPcdata
      case Name(text, quant) => if c.Start? then if text == "EMPTY" then ContentEmpty else ContentAny else ContentElement(quant)
      case CloseParen(quant) => GroupClose(quant)
      case Comma => GroupSequence
      case Or => if c.InMixed? then ElementNone else GroupChoice
      case _ => RoleError
    }
  }

  /** What a state does with a token. */
  ghost predicate Answer(c: Config, tok: Tok, role: Role, handler: Handler, level: nat) {
    && role == RoleOf(c, tok)
    && (Step(c, tok) != Failed ==> handler == HandlerOf(Step(c, tok)) && LevelFits(Step(c, tok), level))
    && (Mismatch(c, tok) ==> level == |FramesOf(c)|)
  }

  /** The part of PROLOG_STATE that element declarations use. */
  class PrologState {
    var handler: Handler
    var level: nat

    constructor ()
      ensures handler == Element1 && level == 0
    {
      handler, level := Element1, 0;
    }

    ghost predicate Fits(c: Config)
      reads this
    {
      c != Failed && handler == HandlerOf(c) && LevelFits(c, level)
    }

    /** `common`, without the parameter entity references of the external subset. */
    method Common() returns (role: Role)
      modifies this
      ensures role == RoleError && handler == ErrorHandler
    {
      handler := ErrorHandler;
      return RoleError;
    }

    method Element1State(tok: Tok, ghost c: Config) returns (role: Role)
      requires Fits(c) && handler == Element1
      modifies this
      ensures Answer(c, tok, role, handler, level)
    {
      match tok {
        case Space => return ElementNone;
        case Name(text, NoQuant) =>
          if text == "EMPTY" {
            handler := DeclClose;
            return ContentEmpty;
          }
          if text == "ANY" {
            handler := DeclClose;
            return ContentAny;
          }
        case OpenParen =>
          handler, level := Element2, 1;
          return GroupOpen;
        case _ =>
      }
      role := Common();
    }

    method Element2State(tok: Tok, ghost c: Config) returns (role: Role)
      requires Fits(c) && handler == Element2
      modifies this
      ensures Answer(c, tok, role, handler, level)
    {
      match tok {
        case Space => return ElementNone;
        case Pcdata =>
          handler := Element3;
          return ContentPcdata;
        case OpenParen =>
          handler, level := Element6, 2;
          return GroupOpen;
        case Name(_, quant) =>
          handler := Element7;
          return ContentElement(quant);
        case _ =>
      }
      role := Common();
    }

    method Element3State(tok: Tok, ghost c: Config) returns (role: Role)
      requires Fits(c) && handler == Element3
      modifies this
      ensures Answer(c, tok, role, handler, level)
    {
      match tok {
        case Space => return ElementNone;
        case CloseParen(NoQuant) =>
          handler := DeclClose;
          return GroupClose(NoQuant);
        case CloseParen(Rep) =>
          handler := DeclClose;
          return GroupClose(Rep);
        case Or =>
          handler := Element4;
          return ElementNone;
        case _ =>
      }
      role := Common();
    }

    method Element4State(tok: Tok, ghost c: Config) returns (role: Role)
      requires Fits(c) && handler == Element4
      modifies this
      ensures Answer(c, tok, role, handler, level)
    {
      match tok {
        case Space => return ElementNone;
        case Name(_, NoQuant) =>
          handler := Element5;
          return ContentElement(NoQuant);
        case _ =>
      }
      role := Common();
    }

    method Element5State(tok: Tok, ghost c: Config) returns (role: Role)
      requires Fits(c) && handler == Element5
      modifies this
      ensures Answer(c, tok, role, handler, level)
    {
      match tok {
        case Space => return ElementNone;
        case CloseParen(Rep) =>
          handler := DeclClose;
          return GroupClose(Rep);
        case Or =>
          handler := Element4;
          return ElementNone;
        case _ =>
      }
      role := Common();
    }

    method Element6State(tok: Tok, ghost c: Config) returns (role: Role)
      requires Fits(c) && handler == Element6
      modifies this
      ensures Answer(c, tok, role, handler, level)
    {
      match tok {
        case Space => return ElementNone;
        case OpenParen =>
          level := level + 1;
          return GroupOpen;
        case Name(_, quant) =>
          handler := Element7;
          return ContentElement(quant);
        case _ =>
      }
      role := Common();
    }

    method Element7State(tok: Tok, ghost c: Config) returns (role: Role)
      requires Fits(c) && handler == Element7
      requires Good(c)
      modifies this
      ensures Answer(c, tok, role, handler, level)
    {
      match tok {
        case Space => return ElementNone;
        case CloseParen(quant) =>
          level := level - 1;
          if level == 0 {
            handler := DeclClose;
          }
          return GroupClose(quant);
        case Comma =>
          handler := Element6;
          return GroupSequence;
        case Or =>
          handler := Element6;
          return GroupChoice;
        case _ =>
      }
      role := Common();
    }

    /** The state for one token. */
    method NextRole(tok: Tok, ghost c: Config) returns (role: Role)
      requires Fits(c)
      requires Good(c)
      modifies this
      ensures Answer(c, tok, role, handler, level)
    {
      if handler == Element1 {
        role := Element1State(tok, c);
      } else if handler == Element2 {
        role := Element2State(tok, c);
      } else if handler == Element3 {
        role := Element3State(tok, c);
      } else if handler == Element4 {
        role := Element4State(tok, c);
      } else if handler == Element5 {
        role := Element5State(tok, c);
      } else if handler == Element6 {
        role := Element6State(tok, c);
      } else if handler == Element7 {
        role := Element7State(tok, c);
      } else if tok == Space {
        role := ElementNone;
      } else {
        role := Common();
      }
    }
  }

  /** The connectors of the open groups and the indices of their cells, outermost first. */
  function Connector(f: Frame): char {
    match f.kind
    case Some(Seq) => ','
    case Some(Choice) => '|'
    case _ => '\0'
  }

  function Connectors(frames: seq<Frame>): (r: seq<char>)
    ensures |r| == |frames|
  {
    if frames == [] then [] else Connectors(frames[1..]) + [Connector(frames[0])]
  }

  function Indices(frames: seq<Frame>, junk: Cell): (r: seq<nat>)
    ensures |r| == |frames|
  {
    if frames == [] then [] else Indices(frames[1..], junk) + [|Outer(frames[1..], junk)|]
  }

  lemma LastIndex(frames: seq<Frame>, junk: Cell)
    requires frames != []
    ensures Indices(frames, junk)[|frames| - 1] == |Outer(frames[1..], junk)|
  {
  }

  lemma OpenHead(frames: seq<Frame>, junk: Cell)
    requires frames != []
    ensures var cells, at := Open(frames, junk), |Outer(frames[1..], junk)|;
            at < |cells| && cells[at] == HeadCell(frames[0], at, false, junk) && cells[at].lastchild < |cells|
  {
    var f, at := frames[0], |Outer(frames[1..], junk)|;
    if f.children != [] {
      LastIsIn(f.children, at + 1);
    }
  }

  /** The characters of the names so far. */
  function FrameChars(frames: seq<Frame>): nat {
    if frames == [] then 0 else FrameChars(frames[1..]) + AllChars(frames[0].children)
  }

  predicate FramesCopyable(frames: seq<Frame>) {
    frames == [] || (AllCopyable(frames[0].children) && FramesCopyable(frames[1..]))
  }

  lemma {:induction false} CopyableSnoc(cps: seq<CP>, cp: CP)
    requires AllCopyable(cps) && Copyable(cp)
    ensures AllCopyable(cps + [cp])
  {
    if cps == [] {
      assert cps + [cp] == [cp];
    } else {
      CopyableSnoc(cps[1..], cp);
      assert (cps + [cp])[1..] == cps[1..] + [cp];
    }
  }

  /** What a new child of the innermost group leaves alone, and what it adds. */
  lemma ChildKeeps(frames: seq<Frame>, cp: CP, junk: Cell)
    requires frames != []
    ensures var frames' := AddChild(frames, cp);
            && Connectors(frames') == Connectors(frames) && Indices(frames', junk) == Indices(frames, junk)
            && FrameChars(frames') == FrameChars(frames) + Chars(cp)
            && (FramesCopyable(frames) && Copyable(cp) ==> FramesCopyable(frames'))
  {
    var f := frames[0];
    assert AddChild(frames, cp)[1..] == frames[1..];
    SizesSnoc(f.children, cp);
    if AllCopyable(f.children) && Copyable(cp) {
      CopyableSnoc(f.children, cp);
    }
  }

  /** The group has shown no separator, or one. */
  predicate Connects(f: Frame) {
    f.kind == None || f.kind == Some(Seq) || f.kind == Some(Choice)
  }

  function WithKind(frames: seq<Frame>, kind: Kind): seq<Frame>
    requires frames != []
  {
    [Frame(Some(kind), frames[0].children)] + frames[1..]
  }

  lemma KindKeeps(frames: seq<Frame>, kind: Kind, junk: Cell)
    requires frames != []
    ensures var frames' := WithKind(frames, kind);
            && frames'[1..] == frames[1..]
            && Connectors(frames') == Connectors(frames)[..|frames| - 1] + [Connector(frames'[0])]
            && Indices(frames', junk) == Indices(frames, junk)
            && FrameChars(frames') == FrameChars(frames) && FramesCopyable(frames') == FramesCopyable(frames)
            && (KindOf(frames[0]) == kind ==> Open(frames', junk) == Open(frames, junk))
  {
    assert WithKind(frames, kind)[1..] == frames[1..];
  }

  /** The block that is handed over. */
  datatype Built = Built(nodes: array<Node>, chars: array<char>) {
    ghost predicate Says(cp: CP)
      reads nodes, chars
    {
      Fills(nodes[..], chars[..], cp)
    }
  }

  datatype Status = Going | SyntaxError | NoMemory

  /** The DTD's scaffold and the parser's group arrays; memory that is not yet set reads as `junk`. */
  class Builder {
    const junk: Cell
    var groupConnector: seq<char>
    var groupSize: nat
    var inEldecl: bool
    var scaffold: seq<Cell>
    var scaffSize: nat
    var scaffIndex: seq<nat>
    var scaffLevel: nat
    var contentStringLen: nat

    /** The arrays are what the open groups say. */
    ghost predicate Holds(frames: seq<Frame>)
      reads this
    {
      && (scaffold == if frames == [] then [] else Open(frames, junk))
      && |scaffold| <= scaffSize
      && contentStringLen == FrameChars(frames)
      && scaffLevel == |frames| <= |scaffIndex| && scaffIndex[..scaffLevel] == Indices(frames, junk)
      && FramesCopyable(frames)
    }

    /** The connectors of the open groups; slot 0 is never used. */
    ghost predicate Joined(frames: seq<Frame>)
      reads this
    {
      && |groupConnector| == groupSize && (|scaffIndex| == 0 || |scaffIndex| == groupSize)
      && (frames != [] ==> |frames| < groupSize && groupConnector[1..|frames| + 1] == Connectors(frames))
    }

    /** The links of the innermost group to its new child. */
    method LinkParent(next: nat, ghost frames: seq<Frame>)
      requires Holds(frames) && frames != [] && next == |scaffold|
      modifies this`scaffold
      ensures scaffold == Outer(frames, junk) && |scaffold| == next
    {
      LastIndex(frames, junk);
      OpenLinks(frames, junk);
      OpenHead(frames, junk);
      var parent := scaffIndex[..scaffLevel][scaffLevel - 1];
      var p := scaffold[parent];
      if p.lastchild > 0 {
        scaffold := scaffold[p.lastchild := scaffold[p.lastchild].(nextsib := next)];
      }
      scaffold := scaffold[parent := p.(firstchild := if p.childcnt == 0 then next else p.firstchild,
                                        lastchild := next, childcnt := p.childcnt + 1)];
    }

    /** `nextScaffoldPart`: a new cell, linked into the innermost group. */
    method NextScaffoldPart(malloc: bool, ghost frames: seq<Frame>) returns (next: int)
      requires Holds(frames) && groupSize > 0
      modifies this`scaffold, this`scaffSize, this`scaffIndex
      ensures next < 0 <==> !malloc && (old(scaffIndex) == [] || old(|scaffold|) >= old(scaffSize))
      ensures next >= 0 ==> next == |Outer(frames, junk)| && |scaffold| <= scaffSize
      ensures next >= 0 ==> scaffold == Outer(frames, junk) + [junk.(firstchild := 0, lastchild := 0, childcnt := 0, nextsib := 0)]
      ensures next >= 0 ==> scaffIndex == if old(scaffIndex) == [] then seq(groupSize, _ => 0) else old(scaffIndex)
    {
      if scaffIndex == [] {
        if !malloc {
          return -1;
        }
        scaffIndex := seq(groupSize, _ => 0);
      }
      if |scaffold| >= scaffSize {
        if !malloc {
          return -1;
        }
        scaffSize := if scaffSize > 0 then 2 * scaffSize else INIT_SCAFFOLD_ELEMENTS;
      }
      next := |scaffold|;
      if scaffLevel > 0 {
        LinkParent(next, frames);
      }
      scaffold := scaffold + [junk.(firstchild := 0, lastchild := 0, childcnt := 0, nextsib := 0)];
    }

    /** Room for one more group. */
    method GrowGroups(level: nat, malloc: bool, ghost frames: seq<Frame>) returns (ok: bool)
      requires Holds(frames) && Joined(frames) && level == |frames| + 1
      modifies this`groupConnector, this`groupSize, this`scaffIndex
      ensures ok ==> Holds(frames) && Joined(frames) && level < groupSize
      ensures !ok ==> !malloc
    {
      if level >= groupSize {
        if !malloc {
          return false;
        }
        if groupSize > 0 {
          groupConnector := groupConnector + seq(groupSize, _ => '\0');
          if scaffIndex != [] {
            scaffIndex := scaffIndex + seq(groupSize, _ => 0);
          }
          groupSize := 2 * groupSize;
        } else {
          groupSize := INIT_GROUPS;
          groupConnector := seq(groupSize, _ => '\0');
        }
      }
      return true;
    }

    /** XML_ROLE_GROUP_OPEN. */
    method OpenGroupPart(level: nat, malloc: bool, ghost frames: seq<Frame>) returns (ok: bool)
      requires Holds(frames) && Joined(frames) && level == |frames| + 1 && inEldecl
      modifies this`groupConnector, this`groupSize, this`scaffIndex, this`scaffold, this`scaffSize, this`scaffLevel
      ensures ok ==> Holds([Frame(None, [])] + frames) && Joined([Frame(None, [])] + frames)
      ensures !ok ==> !malloc
    {
      ok := GrowGroups(level, malloc, frames);
      if !ok {
        return;
      }
      groupConnector := groupConnector[level := '\0'];
      assert ([Frame(None, [])] + frames)[1..] == frames;
      ok := OpenCell(malloc, frames);
    }

    /** The cell of a new group. */
    method OpenCell(malloc: bool, ghost frames: seq<Frame>) returns (ok: bool)
      requires Holds(frames) && |frames| < groupSize && (|scaffIndex| == 0 || |scaffIndex| == groupSize)
      modifies this`scaffIndex, this`scaffold, this`scaffSize, this`scaffLevel
      ensures ok ==> Holds([Frame(None, [])] + frames) && |scaffIndex| == groupSize
      ensures !ok ==> !malloc
    {
      var myindex := NextScaffoldPart(malloc, frames);
      if myindex < 0 {
        return false;
      }
      scaffIndex := scaffIndex[scaffLevel := myindex];
      scaffLevel := scaffLevel + 1;
      scaffold := scaffold[myindex := scaffold[myindex].(kind := Seq)];
      OpenGroup(frames, junk);
      assert ([Frame(None, [])] + frames)[1..] == frames;
      return true;
    }

    /** XML_ROLE_CONTENT_ELEMENT and its variants. */
    method AddElement(text: string, quant: Quant, malloc: bool, ghost frames: seq<Frame>) returns (ok: bool)
      requires Holds(frames) && Joined(frames) && frames != [] && '\0' !in text
      modifies this`scaffIndex, this`scaffold, this`scaffSize, this`contentStringLen
      ensures ok ==> Holds(AddChild(frames, Leaf(text, quant))) && Joined(AddChild(frames, Leaf(text, quant)))
      ensures !ok ==> !malloc
    {
      var myindex := NextScaffoldPart(malloc, frames);
      if myindex < 0 {
        return false;
      }
      scaffold := scaffold[myindex := scaffold[myindex].(kind := NameKind, quant := quant, name := text)];
      contentStringLen := contentStringLen + |text| + 1;
      ChildJoins(frames, Leaf(text, quant), junk);
      ChildKeeps(frames, Leaf(text, quant), junk);
      return true;
    }

    /** XML_ROLE_GROUP_CLOSE and its variants, inside another group. */
    method CloseInner(quant: Quant, ghost frames: seq<Frame>)
      requires Holds(frames) && Joined(frames) && |frames| > 1 && KindOf(frames[0]) != NameKind
      modifies this`scaffold, this`scaffLevel
      ensures Holds(AddChild(frames[1..], Closed(frames[0], quant)))
      ensures Joined(AddChild(frames[1..], Closed(frames[0], quant)))
    {
      SetQuant(quant, frames);
      ChildJoins(frames[1..], Closed(frames[0], quant), junk);
      ChildKeeps(frames[1..], Closed(frames[0], quant), junk);
      assert groupConnector[1..|frames|] == groupConnector[1..|frames| + 1][..|frames| - 1];
    }

    /** The quantifier of the innermost group. */
    method SetQuant(quant: Quant, ghost frames: seq<Frame>)
      requires Holds(frames) && frames != []
      modifies this`scaffold, this`scaffLevel
      ensures scaffLevel == |frames| - 1 && |scaffold| == old(|scaffold|) && scaffIndex[..scaffLevel] == Indices(frames[1..], junk)
      ensures scaffold == Outer(frames[1..], junk) + Cells(Closed(frames[0], quant), |Outer(frames[1..], junk)|, 0, junk)
    {
      LastIndex(frames, junk);
      GroupCloses(frames, quant, junk);
      assert scaffIndex[..scaffLevel][..scaffLevel - 1] == scaffIndex[..scaffLevel - 1];
      scaffLevel := scaffLevel - 1;
      var index := scaffIndex[scaffLevel];
      scaffold := scaffold[index := scaffold[index].(quant := quant)];
    }

    /** The close of the outermost group: the scaffold is copied and handed over. */
    method CloseOuter(quant: Quant, malloc: bool, ghost f: Frame) returns (model: Option<Built>)
      requires Holds([f]) && KindOf(f) != NameKind
      modifies this`scaffold, this`scaffLevel, this`inEldecl, this`contentStringLen
      ensures model.Some? <==> malloc
      ensures model.Some? ==> model.value.Says(Closed(f, quant)) && !inEldecl && contentStringLen == 0
    {
      SetQuant(quant, [f]);
      assert [f][1..] == [];
      var cp := Closed(f, quant);
      assert scaffold == Cells(cp, 0, 0, junk);
      if !malloc {
        return None;
      }
      assert FrameChars([f]) == Chars(cp);
      var ret, str := BuildModel(scaffold, contentStringLen, cp, junk);
      inEldecl, contentStringLen := false, 0;
      return Some(Built(ret, str));
    }

    /** XML_ROLE_CONTENT_PCDATA. */
    method PcdataPart()
      requires Holds([Frame(None, [])]) && Joined([Frame(None, [])])
      modifies this`scaffold
      ensures Holds([Frame(Some(Mixed), [])]) && Joined([Frame(Some(Mixed), [])])
    {
      ghost var frames := [Frame(None, [])];
      LastIndex(frames, junk);
      KindSets(frames, Mixed, junk);
      assert [Frame(Some(Mixed), [])] + frames[1..] == [Frame(Some(Mixed), [])];
      var index := scaffIndex[..scaffLevel][scaffLevel - 1];
      scaffold := scaffold[index := scaffold[index].(kind := Mixed)];
    }

    /** XML_ROLE_GROUP_SEQUENCE. */
    method SequencePart(level: nat, ghost frames: seq<Frame>) returns (ok: bool)
      requires Holds(frames) && Joined(frames) && frames != [] && level == |frames| && Connects(frames[0])
      modifies this`groupConnector
      ensures ok <==> frames[0].kind != Some(Choice)
      ensures ok ==> Holds(WithKind(frames, Seq)) && Joined(WithKind(frames, Seq))
    {
      assert groupConnector[level] == groupConnector[1..level + 1][level - 1];
      if groupConnector[level] == '|' {
        return false;
      }
      groupConnector := groupConnector[level := ','];
      KindKeeps(frames, Seq, junk);
      return true;
    }

    /** XML_ROLE_GROUP_CHOICE. */
    method ChoicePart(level: nat, ghost frames: seq<Frame>) returns (ok: bool)
      requires Holds(frames) && Joined(frames) && frames != [] && level == |frames| && Connects(frames[0])
      modifies this`groupConnector, this`scaffold
      ensures ok <==> frames[0].kind != Some(Seq)
      ensures ok ==> Holds(WithKind(frames, Choice)) && Joined(WithKind(frames, Choice))
    {
      hide Open, AllCopyable;
      assert groupConnector[level] == groupConnector[1..level + 1][level - 1];
      if groupConnector[level] == ',' {
        return false;
      }
      KindKeeps(frames, Choice, junk);
      LastIndex(frames, junk);
      OpenHead(frames, junk);
      var index := scaffIndex[..scaffLevel][scaffLevel - 1];
      if groupConnector[level] == '\0' && scaffold[index].kind != Mixed {
        KindSets(frames, Choice, junk);
        scaffold := scaffold[index := scaffold[index].(kind := Choice)];
      }
      groupConnector := groupConnector[level := '|'];
      return true;
    }
  }

  /** A declaration being parsed. */
  class Declaration {
    const prolog: PrologState
    const builder: Builder
    ghost var config: Config

    ghost predicate Valid()
      reads this, prolog, builder
    {
      config != Failed ==> Ready(config)
    }

    /** The states and the builder are where a configuration is. */
    ghost predicate Ready(c: Config)
      reads this, prolog, builder
    {
      prolog.Fits(c) && Good(c) && if c.Done? then Idle() else Busy(FramesOf(c))
    }

    /** The builder is in the middle of a declaration, or ready for the next one. */
    ghost predicate Busy(frames: seq<Frame>)
      reads this, builder
    {
      builder.inEldecl && builder.Holds(frames) && builder.Joined(frames)
    }

    ghost predicate Idle()
      reads this, builder
    {
      !builder.inEldecl && builder.contentStringLen == 0 && builder.Joined([])
    }

    /** XML_ROLE_ELEMENT_NAME, with the arrays that earlier declarations have left. */
    constructor (prolog: PrologState, builder: Builder)
      requires prolog.handler == Element1 && builder.contentStringLen == 0
      requires builder.Joined([])
      modifies builder
      ensures Valid() && config == Start && this.prolog == prolog && this.builder == builder
    {
      this.prolog, this.builder, config := prolog, builder, Start;
      new;
      builder.scaffLevel, builder.scaffold, builder.inEldecl := 0, [], true;
    }

    /** XML_ROLE_CONTENT_ANY and XML_ROLE_CONTENT_EMPTY: a content without particles. */
    method Whole(kind: Kind, malloc: bool) returns (model: Option<Built>)
      requires Busy([])
      modifies builder
      ensures model.Some? <==> malloc
      ensures model.Some? ==> Idle() && model.value.nodes[..] == [Node(kind, NoQuant, None, 0, None)]
    {
      if !malloc {
        return None;
      }
      var nodes := new Node[1](_ => Node(kind, NoQuant, None, 0, None));
      var chars := new char[0];
      builder.inEldecl := false;
      return Some(Built(nodes, chars));
    }

    /** A group closes. */
    method CloseGroup(quant: Quant, malloc: bool, ghost frames: seq<Frame>) returns (ok: bool, model: Option<Built>)
      requires frames != [] && Busy(frames) && KindOf(frames[0]) != NameKind
      modifies builder
      ensures !ok ==> !malloc
      ensures ok && |frames| > 1 ==> model == None && Busy(AddChild(frames[1..], Closed(frames[0], quant)))
      ensures ok && |frames| == 1 ==> Idle() && model.Some? && model.value.Says(Closed(frames[0], quant))
    {
      model := None;
      if builder.scaffLevel > 1 {
        builder.CloseInner(quant, frames);
        ok := true;
      } else {
        assert frames == [frames[0]];
        model := builder.CloseOuter(quant, malloc, frames[0]);
        ok := model.Some?;
      }
    }

    /** What the roles other than closing do; a separator may still be refused. */
    method Act(role: Role, tok: Tok, malloc: bool) returns (status: Status)
      requires Good(config) && !config.Done? && config != Failed && Busy(FramesOf(config))
      requires tok != Space && role == RoleOf(config, tok) && role != RoleError && !role.GroupClose? && !role.ContentEmpty? && !role.ContentAny?
      requires Step(config, tok) != Failed ==> LevelFits(Step(config, tok), prolog.level)
      requires Mismatch(config, tok) ==> prolog.level == |FramesOf(config)|
      requires tok.Name? ==> '\0' !in tok.text
      modifies builder
      ensures status == SyntaxError <==> Step(config, tok) == Failed
      ensures status == NoMemory ==> !malloc
      ensures status == Going ==> Busy(FramesOf(Step(config, tok)))
    {
      hide Open, Indices, Connectors, FramesCopyable, FrameChars;
      ghost var frames := FramesOf(config);
      StepFrames(config, tok);
      var ok := true;
      if role == GroupOpen {
        ok := builder.OpenGroupPart(prolog.level, malloc, frames);
      } else if role.ContentElement? {
        ok := builder.AddElement(tok.text, role.quant, malloc, frames);
      } else if role == ContentPcdata {
        builder.PcdataPart();
      } else if role == GroupSequence {
        ok := builder.SequencePart(prolog.level, frames);
        return if ok then Going else SyntaxError;
      } else if role == GroupChoice {
        ok := builder.ChoicePart(prolog.level, frames);
        return if ok then Going else SyntaxError;
      }
      return if ok then Going else NoMemory;
    }

    /** The roles that can end a declaration. */
    method ActLast(role: Role, tok: Tok, malloc: bool) returns (ok: bool, model: Option<Built>)
      requires Good(config) && !config.Done? && config != Failed && Busy(FramesOf(config))
      requires tok != Space && role == RoleOf(config, tok) && (role.GroupClose? || role.ContentEmpty? || role.ContentAny?)
      modifies builder
      ensures Step(config, tok) != Failed
      ensures !ok ==> !malloc
      ensures ok && !Step(config, tok).Done? ==> Busy(FramesOf(Step(config, tok))) && model == None
      ensures ok && Step(config, tok).Done? ==> Idle() && model.Some? && Tells(model.value, Step(config, tok).content)
    {
      StepCloses(config, tok);
      if role.GroupClose? {
        ok, model := CloseGroup(role.quant, malloc, FramesOf(config));
      } else {
        model := Whole(if role.ContentEmpty? then EmptyKind else AnyKind, malloc);
        ok := model.Some?;
      }
    }

    /** What the parser does with a role. */
    method Handle(role: Role, tok: Tok, malloc: bool) returns (status: Status, model: Option<Built>)
      requires Good(config) && config != Failed && (config.Done? ==> Idle()) && (!config.Done? ==> Busy(FramesOf(config)))
      requires Answer(config, tok, role, prolog.handler, prolog.level) && tok != Space && role != RoleError
      requires tok.Name? ==> '\0' !in tok.text
      modifies builder
      ensures status == SyntaxError <==> Step(config, tok) == Failed
      ensures status == NoMemory ==> !malloc
      ensures status == Going ==> if Step(config, tok).Done? then Idle() else Busy(FramesOf(Step(config, tok)))
      ensures status == Going ==> (model.Some? <==> Step(config, tok).Done?) && !config.Done?
      ensures status == Going && model.Some? ==> Tells(model.value, Step(config, tok).content)
    {
      model := None;
      if role.GroupClose? || role.ContentEmpty? || role.ContentAny? {
        var ok;
        ok, model := ActLast(role, tok, malloc);
        status := if ok then Going else NoMemory;
      } else {
        NotLast(config, tok);
        status := Act(role, tok, malloc);
      }
    }

    /** The role of a token, and what the parser does with it. */
    method Advance(tok: Tok, malloc: bool) returns (status: Status, model: Option<Built>)
      requires Ready(config) && tok != Space && (tok.Name? ==> '\0' !in tok.text)
      modifies prolog, builder
      ensures status == Going ==> Step(config, tok) != Failed && Ready(Step(config, tok))
      ensures status == SyntaxError <==> Step(config, tok) == Failed
      ensures status == NoMemory ==> !malloc
      ensures status == Going ==> (model.Some? <==> Step(config, tok).Done? && !config.Done?)
      ensures status == Going && model.Some? ==> Tells(model.value, Step(config, tok).content)
    {
      model, status := None, SyntaxError;
      if Step(config, tok) != Failed {
        StepSpells(config, tok);
      }
      var role := prolog.NextRole(tok, config);
      if role == RoleError {
        RoleErrors(config, tok);
      } else {
        status, model := Handle(role, tok, malloc);
      }
    }

    method SkipSpace()
      requires Ready(config)
      modifies prolog
      ensures Ready(config)
    {
      var role := prolog.NextRole(Space, config);
    }

    /**
     * One token. The levels, the connectors, the scaffold and its indices follow the declaration; what is refused is
     * what the grammar refuses; and at the end the copy says what the tokens spell.
     */
    method Token(tok: Tok, malloc: bool) returns (status: Status, model: Option<Built>)
      requires Valid() && config != Failed && (tok.Name? ==> '\0' !in tok.text)
      modifies this`config, prolog, builder
      ensures Valid()
      ensures status == Going ==> config == Step(old(config), tok) != Failed
      ensures status != Going ==> config == Failed
      ensures status == SyntaxError <==> Step(old(config), tok) == Failed
      ensures status == NoMemory ==> !malloc
      ensures status == Going ==> (model.Some? <==> config.Done? && !old(config).Done?)
      ensures status == Going && model.Some? ==> Tells(model.value, config.content)
    {
      if tok == Space {
        SkipSpace();
        return Going, None;
      }
      status, model := Advance(tok, malloc);
      config := if status == Going then Step(config, tok) else Failed;
    }

    /** A declaration, token by token. */
    method Parse(toks: seq<Tok>, malloc: nat -> bool) returns (status: Status, model: Option<Built>)
      requires Valid() && config == Start
      requires forall k :: 0 <= k < |toks| && toks[k].Name? ==> '\0' !in toks[k].text
      modifies this`config, prolog, builder
      ensures Valid()
      ensures status == Going ==> config == Run(Start, toks) != Failed
      ensures status == SyntaxError ==> Run(Start, toks) == Failed
      ensures status == NoMemory ==> exists k :: 0 <= k < |toks| && !malloc(k)
      ensures status == Going ==> (model.Some? <==> config.Done?)
      ensures model.Some? ==> status == Going && Tells(model.value, config.content)
      ensures model.Some? ==> Legal(config.content) && Strip(toks) == SpellContent(config.content)
    {
      model := None;
      var k := 0;
      while k < |toks|
        invariant k <= |toks| && Valid() && config != Failed
        invariant Run(config, toks[k..]) == Run(Start, toks)
        invariant model.Some? <==> config.Done?
        invariant model.Some? ==> Tells(model.value, config.content)
      {
        assert toks[k..][0] == toks[k] && toks[k..][1..] == toks[k + 1..];
        var made;
        status, made := Token(toks[k], malloc(k));
        if status != Going {
          FailedStays(toks[k + 1..]);
          return status, None;
        }
        if made.Some? {
          model := made;
        }
        k := k + 1;
      }
      status := Going;
      if model.Some? {
        AcceptsTheGrammar(toks, config.content);
      }
    }
  }

  /** The block that is handed over says what the content is. */
  ghost predicate Tells(b: Built, m: Content)
    reads b.nodes, b.chars
  {
    match m
    case Empty => b.nodes[..] == [Node(EmptyKind, NoQuant, None, 0, None)]
    case Any => b.nodes[..] == [Node(AnyKind, NoQuant, None, 0, None)]
    case Tree(cp) => b.Says(cp)
  }

  lemma RoleErrors(c: Config, tok: Tok)
    requires tok != Space && RoleOf(c, tok) == RoleError
    ensures Step(c, tok) == Failed
  {
  }

  lemma NotLast(c: Config, tok: Tok)
    requires tok != Space && RoleOf(c, tok) != RoleError
    requires !RoleOf(c, tok).GroupClose? && !RoleOf(c, tok).ContentEmpty? && !RoleOf(c, tok).ContentAny?
    ensures !c.Done? && !Step(c, tok).Done?
  {
  }

  /** The tokens that end a group or the declaration. */
  lemma StepCloses(c: Config, tok: Tok)
    requires Good(c) && !c.Done? && c != Failed && tok != Space
    requires RoleOf(c, tok).GroupClose? || RoleOf(c, tok).ContentEmpty? || RoleOf(c, tok).ContentAny?
    ensures var c', frames := Step(c, tok), FramesOf(c);
            && c' != Failed
            && (RoleOf(c, tok).ContentEmpty? ==> frames == [] && c' == Done(Empty))
            && (RoleOf(c, tok).ContentAny? ==> frames == [] && c' == Done(Any))
            && (RoleOf(c, tok).GroupClose? ==>
                  && frames != [] && KindOf(frames[0]) != NameKind && RoleOf(c, tok).quant == tok.quant
                  && (|frames| == 1 ==> c' == Done(Tree(Closed(frames[0], tok.quant))))
                  && (|frames| > 1 ==> !c'.Done? && FramesOf(c') == AddChild(frames[1..], Closed(frames[0], tok.quant))))
  {
  }

  /** The open groups after a token. */
  lemma StepFrames(c: Config, tok: Tok)
    requires Good(c) && !c.Done? && c != Failed && tok != Space
    ensures var c', frames := Step(c, tok), FramesOf(c);
            && (tok == OpenParen && c' != Failed ==> FramesOf(c') == [Frame(None, [])] + frames)
            && (tok.Name? && c' != Failed && !c.Start? ==> frames != [] && FramesOf(c') == AddChild(frames, Leaf(tok.text, tok.quant)))
            && (tok == Pcdata && c' != Failed ==> frames == [Frame(None, [])] && FramesOf(c') == [Frame(Some(Mixed), [])])
            && (Mismatch(c, tok) ==> Connects(frames[0]))
            && (Mismatch(c, tok) && tok == Comma ==>
                  if frames[0].kind == Some(Choice) then c' == Failed else c' != Failed && FramesOf(c') == WithKind(frames, Seq))
            && (Mismatch(c, tok) && tok == Or ==>
                  if frames[0].kind == Some(Seq) then c' == Failed else c' != Failed && FramesOf(c') == WithKind(frames, Choice))
            && (c.InMixed? && tok == Or && c' != Failed ==> FramesOf(c') == frames)
  {
    if c.Start? {
      assert [Frame(None, [])] + [] == [Frame(None, [])];
    }
  }
}
