/**
 * The content models of element declarations: what the role machine of expat (xmlrole.c) accepts, and that this is
 * sections 3.2.1 and 3.2.2 of XML 1.0.
 */
module ContentModel {
  import opened Wrappers
  import opened Lists

  datatype Quant = NoQuant | Opt | Rep | Plus

  datatype Kind = EmptyKind | AnyKind | Mixed | NameKind | Choice | Seq

  /** A content particle; a group of one particle is a sequence. */
  datatype CP =
    | Leaf(name: string, quant: Quant)
    | Group(kind: Kind, quant: Quant, children: seq<CP>)

  datatype Content = Empty | Any | Tree(cp: CP)

  datatype Tok =
    | Space
    | Name(text: string, quant: Quant)
    | OpenParen
    | Pcdata
    | CloseParen(quant: Quant)
    | Comma
    | Or
    | Other

  /** The separator of a group. */
  function Sep(kind: Kind): Tok {
    if kind == Seq then Comma else Or
  }

  /** The tokens of a particle. */
  function Spell(cp: CP): (ts: seq<Tok>)
    ensures ts != []
  {
    match cp
    case Leaf(name, quant) => [Name(name, quant)]
    case Group(kind, quant, children) => [OpenParen] + Join(children, kind) + [CloseParen(quant)]
  }

  function Join(cps: seq<CP>, kind: Kind): seq<Tok> {
    if cps == [] then []
    else Spell(cps[0]) + if |cps| == 1 then [] else [Sep(kind)] + Join(cps[1..], kind)
  }

  /** The names of mixed content. */
  function Alternatives(cps: seq<CP>): seq<Tok> {
    if cps == [] then [] else [Or] + Spell(cps[0]) + Alternatives(cps[1..])
  }

  function SpellContent(m: Content): seq<Tok> {
    match m
    case Empty => [Name("EMPTY", NoQuant)]
    case Any => [Name("ANY", NoQuant)]
    case Tree(Leaf(_, _)) => []
    case Tree(Group(Mixed, quant, children)) => [OpenParen, Pcdata] + Alternatives(children) + [CloseParen(quant)]
    case Tree(Group(kind, quant, children)) => Spell(m.cp)
  }

  /** The productions `cp`, `choice` and `seq`. */
  predicate WellFormed(cp: CP) {
    match cp
    case Leaf(_, _) => true
    case Group(kind, _, children) =>
      (kind == Seq || (kind == Choice && |children| >= 2)) && |children| >= 1 && AllWellFormed(children)
  }

  predicate AllWellFormed(cps: seq<CP>) {
    cps == [] || (WellFormed(cps[0]) && AllWellFormed(cps[1..]))
  }

  /** The names of mixed content have no quantifiers. */
  predicate PlainNames(cps: seq<CP>) {
    cps == [] || (cps[0].Leaf? && cps[0].quant == NoQuant && PlainNames(cps[1..]))
  }

  /** The productions `contentspec`, `children` and `Mixed`. */
  predicate Legal(m: Content) {
    match m
    case Empty => true
    case Any => true
    case Tree(cp) =>
      && cp.Group?
      && if cp.kind == Mixed then PlainNames(cp.children) && (cp.quant == Rep || (cp.quant == NoQuant && cp.children == []))
         else WellFormed(cp)
  }

  /** An open group: the separator it has shown, and the particles so far. */
  datatype Frame = Frame(kind: Option<Kind>, children: seq<CP>)

  /** Where a declaration stands after the name of its element; open groups are innermost first. */
  datatype Config =
    | Start
    | First
    | InMixed(names: seq<CP>, expecting: bool)
    | InGroup(frames: seq<Frame>, expecting: bool)
    | Done(content: Content)
    | Failed

  function AddChild(frames: seq<Frame>, cp: CP): (r: seq<Frame>)
    requires frames != []
    ensures |r| == |frames|
  {
    [Frame(frames[0].kind, frames[0].children + [cp])] + frames[1..]
  }

  /** A closed group. */
  function Closed(f: Frame, quant: Quant): CP {
    Group(if f.kind.Some? then f.kind.value else Seq, quant, f.children)
  }

  /** A group closes: it is a particle of the group around it, or the whole content. */
  function Close(frames: seq<Frame>, quant: Quant): Config
    requires frames != []
  {
    if |frames| == 1 then Done(Tree(Closed(frames[0], quant)))
    else InGroup(AddChild(frames[1..], Closed(frames[0], quant)), false)
  }

  /** A separator may not differ from the one the group has shown. */
  function Separate(frames: seq<Frame>, kind: Kind): Config
    requires frames != []
  {
    if frames[0].kind.Some? && frames[0].kind.value != kind then Failed
    else InGroup([Frame(Some(kind), frames[0].children)] + frames[1..], true)
  }

  /** One token. */
  function Step(c: Config, tok: Tok): Config {
    if tok == Space then c
    else match c {
      case Start =>
        if tok == Name("EMPTY", NoQuant) then Done(Empty)
        else if tok == Name("ANY", NoQuant) then Done(Any)
        else if tok == OpenParen then First
        else Failed
      case First =>
        if tok == Pcdata then InMixed([], false)
        else StepExpecting([Frame(None, [])], tok)
      case InMixed(names, true) =>
        if tok.Name? && tok.quant == NoQuant then InMixed(names + [Leaf(tok.text, NoQuant)], false) else Failed
      case InMixed(names, false) =>
        if tok == Or then InMixed(names, true)
        else if tok == CloseParen(Rep) || (tok == CloseParen(NoQuant) && names == [])
        then Done(Tree(Group(Mixed, tok.quant, names)))
        else Failed
      case InGroup(frames, true) => if frames == [] then Failed else StepExpecting(frames, tok)
      case InGroup(frames, false) =>
        if frames == [] then Failed
        else if tok.CloseParen? then Close(frames, tok.quant)
        else if tok == Comma then Separate(frames, Seq)
        else if tok == Or then Separate(frames, Choice)
        else Failed
      case Done(_) => Failed
      case Failed => Failed
    }
  }

  function StepExpecting(frames: seq<Frame>, tok: Tok): Config
    requires frames != []
  {
    if tok == OpenParen then InGroup([Frame(None, [])] + frames, true)
    else if tok.Name? then InGroup(AddChild(frames, Leaf(tok.text, tok.quant)), false)
    else Failed
  }

  function Run(c: Config, toks: seq<Tok>): Config
    decreases toks
  {
    if toks == [] then c else Run(Step(c, toks[0]), toks[1..])
  }

  function Strip(toks: seq<Tok>): (r: seq<Tok>)
    ensures Space !in r
  {
    if toks == [] then [] else (if toks[0] == Space then [] else [toks[0]]) + Strip(toks[1..])
  }

  // Soundness: what has been read is what the configuration spells.

  /** The tokens of an open group before its next particle. */
  function Before(f: Frame): seq<Tok> {
    [OpenParen] + if f.children == [] || f.kind.None? then [] else Join(f.children, f.kind.value) + [Sep(f.kind.value)]
  }

  /** The tokens of an open group up to its last particle. */
  function After(f: Frame): seq<Tok> {
    [OpenParen] + Join(f.children, if f.kind.Some? then f.kind.value else Seq)
  }

  function Around(frames: seq<Frame>): seq<Tok> {
    if frames == [] then [] else Around(frames[1..]) + Before(frames[0])
  }

  function Consumed(c: Config): seq<Tok> {
    match c
    case Start => []
    case First => [OpenParen]
    case InMixed(names, expecting) => [OpenParen, Pcdata] + Alternatives(names) + if expecting then [Or] else []
    case InGroup(frames, expecting) =>
      if frames == [] then []
      else if expecting then Around(frames)
      else Around(frames[1..]) + After(frames[0])
    case Done(m) => SpellContent(m)
    case Failed => []
  }

  /** A group that expects a particle, and one that has just had one. */
  predicate GoodBefore(f: Frame) {
    && AllWellFormed(f.children)
    && (f.kind.None? <==> f.children == [])
    && (f.kind.None? || f.kind == Some(Seq) || f.kind == Some(Choice))
  }

  predicate GoodAfter(f: Frame) {
    && AllWellFormed(f.children) && f.children != []
    && (f.kind.None? <==> |f.children| == 1)
    && (f.kind.None? || f.kind == Some(Seq) || f.kind == Some(Choice))
  }

  predicate AllGood(frames: seq<Frame>) {
    frames == [] || (GoodBefore(frames[0]) && AllGood(frames[1..]))
  }

  predicate Good(c: Config) {
    match c
    case Start => true
    case First => true
    case InMixed(names, expecting) => PlainNames(names)
    case InGroup(frames, expecting) =>
      frames != [] && AllGood(frames[1..]) && if expecting then GoodBefore(frames[0]) else GoodAfter(frames[0])
    case Done(m) => Legal(m)
    case Failed => true
  }

  lemma {:induction false} JoinSnoc(cps: seq<CP>, cp: CP, kind: Kind)
    ensures Join(cps + [cp], kind) == if cps == [] then Spell(cp) else Join(cps, kind) + [Sep(kind)] + Spell(cp)
  {
    if cps == [] {
      assert cps + [cp] == [cp];
    } else {
      var rest, sep := cps[1..], [Sep(kind)];
      JoinSnoc(rest, cp, kind);
      assert (cps + [cp])[1..] == rest + [cp];
      if rest == [] {
        Assoc(Spell(cps[0]), sep, Spell(cp));
      } else {
        Assoc(sep, Join(rest, kind) + sep, Spell(cp));
        Assoc(sep, Join(rest, kind), sep);
        Assoc(Spell(cps[0]), sep + Join(rest, kind) + sep, Spell(cp));
        Assoc(Spell(cps[0]), sep + Join(rest, kind), sep);
      }
    }
  }

  lemma {:induction false} WellFormedSnoc(cps: seq<CP>, cp: CP)
    requires AllWellFormed(cps) && WellFormed(cp)
    ensures AllWellFormed(cps + [cp])
  {
    if cps == [] {
      assert cps + [cp] == [cp];
    } else {
      WellFormedSnoc(cps[1..], cp);
      assert (cps + [cp])[1..] == cps[1..] + [cp];
    }
  }

  lemma {:induction false} AlternativesSnoc(cps: seq<CP>, cp: CP)
    ensures Alternatives(cps + [cp]) == Alternatives(cps) + [Or] + Spell(cp)
    ensures PlainNames(cps) && cp.Leaf? && cp.quant == NoQuant ==> PlainNames(cps + [cp])
  {
    if cps == [] {
      assert cps + [cp] == [cp];
    } else {
      AlternativesSnoc(cps[1..], cp);
      FrontOfJoin(cps, [cp]);
      var first, others := [Or] + Spell(cps[0]), Alternatives(cps[1..]);
      Assoc(first, others + [Or], Spell(cp));
      Assoc(first, others, [Or]);
    }
  }

  /** ... so what has been read of it goes on with the particle. */
  lemma AfterChild(f: Frame, cp: CP)
    requires GoodBefore(f) && WellFormed(cp)
    ensures GoodAfter(Frame(f.kind, f.children + [cp]))
    ensures After(Frame(f.kind, f.children + [cp])) == Before(f) + Spell(cp)
  {
    hide Spell, WellFormed;
    WellFormedSnoc(f.children, cp);
    JoinSnoc(f.children, cp, if f.kind.Some? then f.kind.value else Seq);
  }

  /** The innermost group takes a particle. */
  lemma AddChildSpells(frames: seq<Frame>, cp: CP)
    requires frames != [] && AllGood(frames) && WellFormed(cp)
    ensures Good(InGroup(AddChild(frames, cp), false))
    ensures Consumed(InGroup(AddChild(frames, cp), false)) == Around(frames) + Spell(cp)
  {
    hide Spell, WellFormed, GoodBefore, GoodAfter, After, Before;
    AfterChild(frames[0], cp);
    assert AddChild(frames, cp)[1..] == frames[1..];
    Assoc(Around(frames[1..]), Before(frames[0]), Spell(cp));
  }

  /** A group closes. */
  lemma CloseSpells(frames: seq<Frame>, quant: Quant)
    requires frames != [] && Good(InGroup(frames, false))
    ensures Good(Close(frames, quant))
    ensures Consumed(Close(frames, quant)) == Consumed(InGroup(frames, false)) + [CloseParen(quant)]
  {
    var cp := Closed(frames[0], quant);
    assert Spell(cp) == After(frames[0]) + [CloseParen(quant)];
    if |frames| == 1 {
      assert Around(frames[1..]) == [];
    } else {
      AddChildSpells(frames[1..], cp);
    }
  }

  lemma SeparateSpells(frames: seq<Frame>, kind: Kind)
    requires frames != [] && Good(InGroup(frames, false)) && (kind == Seq || kind == Choice)
    requires Separate(frames, kind) != Failed
    ensures Good(Separate(frames, kind))
    ensures Consumed(Separate(frames, kind)) == Consumed(InGroup(frames, false)) + [Sep(kind)]
  {
    var f := frames[0];
    if f.kind.None? {
      assert f.children == [f.children[0]];
    }
  }

  /** Each token that is not refused is added to what the configuration spells. */
  lemma StepSpells(c: Config, tok: Tok)
    requires Good(c) && Step(c, tok) != Failed && tok != Space
    ensures Good(Step(c, tok)) && Consumed(Step(c, tok)) == Consumed(c) + [tok]
  {
    match c
    case Start =>
    case First =>
      if tok != Pcdata {
        StepSpellsExpecting([Frame(None, [])], tok);
      }
    case InMixed(names, expecting) =>
      if expecting {
        AlternativesSnoc(names, Leaf(tok.text, NoQuant));
      }
    case InGroup(frames, expecting) =>
      if expecting {
        StepSpellsExpecting(frames, tok);
      } else if tok.CloseParen? {
        CloseSpells(frames, tok.quant);
      } else {
        SeparateSpells(frames, if tok == Comma then Seq else Choice);
      }
    case Done(_) =>
    case Failed =>
  }

  lemma StepSpellsExpecting(frames: seq<Frame>, tok: Tok)
    requires frames != [] && AllGood(frames) && StepExpecting(frames, tok) != Failed
    ensures var c := StepExpecting(frames, tok); Good(c) && Consumed(c) == Around(frames) + [tok]
  {
    if tok.Name? {
      AddChildSpells(frames, Leaf(tok.text, tok.quant));
    }
  }

  lemma {:induction false} FailedStays(toks: seq<Tok>)
    ensures Run(Failed, toks) == Failed
    decreases toks
  {
    if toks != [] {
      FailedStays(toks[1..]);
    }
  }

  lemma {:induction false} RunSpells(c: Config, toks: seq<Tok>)
    requires Good(c) && Run(c, toks) != Failed
    ensures Good(Run(c, toks)) && Consumed(Run(c, toks)) == Consumed(c) + Strip(toks)
    decreases toks
  {
    if toks != [] {
      var tok := toks[0];
      if Step(c, tok) == Failed {
        FailedStays(toks[1..]);
      }
      if tok != Space {
        StepSpells(c, tok);
        Assoc(Consumed(c), [tok], Strip(toks[1..]));
      } else {
        assert Strip(toks) == Strip(toks[1..]);
      }
      RunSpells(Step(c, tok), toks[1..]);
    }
  }

  // Completeness: what is spelled is read.

  lemma RunFirst(c: Config, tok: Tok, rest: seq<Tok>)
    ensures Run(c, [tok] + rest) == Run(Step(c, tok), rest)
  {
    assert ([tok] + rest)[1..] == rest;
  }

  lemma {:induction false} RunSpaces(c: Config, toks: seq<Tok>)
    ensures Run(c, toks) == Run(c, Strip(toks))
    decreases toks
  {
    if toks != [] {
      RunSpaces(Step(c, toks[0]), toks[1..]);
      if toks[0] != Space {
        RunFirst(c, toks[0], Strip(toks[1..]));
      } else {
        assert Strip(toks) == Strip(toks[1..]);
      }
    }
  }

  /** A particle is read where one is expected. */
  lemma {:induction false} RunParticle(frames: seq<Frame>, cp: CP, rest: seq<Tok>)
    requires frames != [] && WellFormed(cp)
    ensures Run(InGroup(frames, true), Spell(cp) + rest) == Run(InGroup(AddChild(frames, cp), false), rest)
    decreases cp, 1
  {
    var c := InGroup(frames, true);
    if cp.Leaf? {
      RunFirst(c, Name(cp.name, cp.quant), rest);
    } else {
      var f := Frame(None, []);
      assert Spell(cp) + rest == [OpenParen] + (Join(cp.children, cp.kind) + ([CloseParen(cp.quant)] + rest));
      RunFirst(c, OpenParen, Join(cp.children, cp.kind) + ([CloseParen(cp.quant)] + rest));
      RunParticles(f, frames, cp.children, cp, [CloseParen(cp.quant)] + rest);
      var kind := if |cp.children| >= 2 then Some(cp.kind) else None;
      assert [] + cp.children == cp.children;
      var closing := [Frame(kind, cp.children)] + frames;
      RunFirst(InGroup(closing, false), CloseParen(cp.quant), rest);
      assert closing[1..] == frames;
    }
  }

  /** The particles of a group are read one by one. */
  lemma {:induction false} RunParticles(f: Frame, outer: seq<Frame>, cps: seq<CP>, cp: CP, rest: seq<Tok>)
    requires cp.Group? && cps != [] && AllWellFormed(cps) && (cp.kind == Seq || cp.kind == Choice)
    requires forall k :: 0 <= k < |cps| ==> cps[k] < cp
    requires f.kind == None || f.kind == Some(cp.kind)
    ensures var kind := if |cps| >= 2 then Some(cp.kind) else f.kind;
            Run(InGroup([f] + outer, true), Join(cps, cp.kind) + rest)
            == Run(InGroup([Frame(kind, f.children + cps)] + outer, false), rest)
    decreases cp, 0, |cps|
  {
    var frames := [f] + outer;
    var after := Frame(f.kind, f.children + [cps[0]]);
    assert AddChild(frames, cps[0]) == [after] + outer;
    if |cps| == 1 {
      assert cps == [cps[0]] && Join(cps, cp.kind) == Spell(cps[0]);
      RunParticle(frames, cps[0], rest);
    } else {
      var more := Join(cps[1..], cp.kind) + rest;
      assert Join(cps, cp.kind) + rest == Spell(cps[0]) + ([Sep(cp.kind)] + more);
      RunParticle(frames, cps[0], [Sep(cp.kind)] + more);
      RunFirst(InGroup([after] + outer, false), Sep(cp.kind), more);
      var next := Frame(Some(cp.kind), after.children);
      assert ([after] + outer)[1..] == outer;
      RunParticles(next, outer, cps[1..], cp, rest);
      assert next.children + cps[1..] == f.children + cps;
    }
  }

  lemma {:induction false} RunNames(names: seq<CP>, cps: seq<CP>, rest: seq<Tok>)
    requires PlainNames(cps)
    ensures Run(InMixed(names, false), Alternatives(cps) + rest) == Run(InMixed(names + cps, false), rest)
    decreases cps
  {
    if cps == [] {
      assert Alternatives(cps) + rest == rest && names + cps == names;
    } else {
      var tok, more := Name(cps[0].name, NoQuant), Alternatives(cps[1..]) + rest;
      assert Alternatives(cps) + rest == [Or] + ([tok] + more);
      RunFirst(InMixed(names, false), Or, [tok] + more);
      RunFirst(InMixed(names, true), tok, more);
      RunNames(names + [cps[0]], cps[1..], rest);
      assert names + [cps[0]] + cps[1..] == names + cps;
    }
  }

  lemma MixedSpells(names: seq<CP>, quant: Quant)
    ensures SpellContent(Tree(Group(Mixed, quant, names))) == [OpenParen] + ([Pcdata] + (Alternatives(names) + [CloseParen(quant)]))
  {
    hide Alternatives;
    assert [OpenParen] + [Pcdata] == [OpenParen, Pcdata];
    Assoc([OpenParen], [Pcdata], Alternatives(names) + [CloseParen(quant)]);
    Assoc([OpenParen, Pcdata], Alternatives(names), [CloseParen(quant)]);
  }

  lemma RunMixed(names: seq<CP>, quant: Quant)
    requires PlainNames(names) && (quant == Rep || (quant == NoQuant && names == []))
    ensures Run(Start, SpellContent(Tree(Group(Mixed, quant, names)))) == Done(Tree(Group(Mixed, quant, names)))
  {
    hide SpellContent, Alternatives;
    var rest := Alternatives(names) + [CloseParen(quant)];
    MixedSpells(names, quant);
    RunFirst(Start, OpenParen, [Pcdata] + rest);
    RunFirst(First, Pcdata, rest);
    RunNames([], names, [CloseParen(quant)]);
    assert [] + names == names;
    RunFirst(InMixed(names, false), CloseParen(quant), []);
    assert [CloseParen(quant)] + [] == [CloseParen(quant)];
  }

  /** The first token of a group is read as inside one. */
  lemma RunFirstGroup(cps: seq<CP>, kind: Kind, rest: seq<Tok>)
    requires cps != []
    ensures Run(First, Join(cps, kind) + rest) == Run(InGroup([Frame(None, [])], true), Join(cps, kind) + rest)
  {
    var toks := Join(cps, kind) + rest;
    JoinStarts(cps, kind);
    assert toks[0] == Join(cps, kind)[0];
    assert Step(First, toks[0]) == Step(InGroup([Frame(None, [])], true), toks[0]);
  }

  lemma RunGroup(cp: CP)
    requires cp.Group? && cp.kind != Mixed && WellFormed(cp)
    ensures Run(Start, SpellContent(Tree(cp))) == Done(Tree(cp))
  {
    var f, last := Frame(None, []), [CloseParen(cp.quant)];
    assert SpellContent(Tree(cp)) == [OpenParen] + (Join(cp.children, cp.kind) + last);
    RunFirst(Start, OpenParen, Join(cp.children, cp.kind) + last);
    RunFirstGroup(cp.children, cp.kind, last);
    assert [f] + [] == [f];
    RunParticles(f, [], cp.children, cp, last);
    RunLast(cp);
  }

  lemma RunLast(cp: CP)
    requires cp.Group? && cp.kind != Mixed && WellFormed(cp)
    ensures var kind := if |cp.children| >= 2 then Some(cp.kind) else None;
            Run(InGroup([Frame(kind, [] + cp.children)] + [], false), [CloseParen(cp.quant)]) == Done(Tree(cp))
  {
    assert [] + cp.children == cp.children;
    var closing := Frame(if |cp.children| >= 2 then Some(cp.kind) else None, cp.children);
    assert [closing] + [] == [closing];
    RunFirst(InGroup([closing], false), CloseParen(cp.quant), []);
    assert [CloseParen(cp.quant)] + [] == [CloseParen(cp.quant)];
  }

  lemma JoinStarts(cps: seq<CP>, kind: Kind)
    requires cps != []
    ensures Join(cps, kind) != [] && (Join(cps, kind)[0] == OpenParen || Join(cps, kind)[0].Name?)
  {
    assert Spell(cps[0])[0] == OpenParen || Spell(cps[0])[0].Name?;
  }

  /** The declarations that are accepted are those of the grammar, and each has the content it spells. */
  lemma AcceptsTheGrammar(toks: seq<Tok>, m: Content)
    ensures Run(Start, toks) == Done(m) <==> Legal(m) && Strip(toks) == SpellContent(m)
  {
    if Run(Start, toks) == Done(m) {
      RunSpells(Start, toks);
    }
    if Legal(m) && Strip(toks) == SpellContent(m) {
      RunSpaces(Start, toks);
      match m
      case Empty => RunFirst(Start, Name("EMPTY", NoQuant), []);
      case Any => RunFirst(Start, Name("ANY", NoQuant), []);
      case Tree(cp) =>
        if cp.kind == Mixed {
          RunMixed(cp.children, cp.quant);
        } else {
          RunGroup(cp);
        }
    }
  }

  /** A choice of two names. */
  lemma SampleChoice(b: string, c: string)
    ensures var cp := Group(Choice, Rep, [Leaf(b, Opt), Leaf(c, NoQuant)]);
            WellFormed(cp) && Spell(cp) == [OpenParen, Name(b, Opt), Or, Name(c, NoQuant), CloseParen(Rep)]
  {
    var inner := [Leaf(b, Opt), Leaf(c, NoQuant)];
    assert inner[1..] == [Leaf(c, NoQuant)];
    assert Join(inner[1..], Choice) == [Name(c, NoQuant)];
    assert Join(inner, Choice) == [Name(b, Opt), Or, Name(c, NoQuant)];
    assert AllWellFormed(inner[1..]) && AllWellFormed(inner);
  }

  /** ... in a sequence. */
  lemma SampleContent(a: string, b: string, c: string)
    ensures Run(Start, [OpenParen, Name(a, NoQuant), Comma, OpenParen, Name(b, Opt), Or, Name(c, NoQuant), CloseParen(Rep), CloseParen(Plus)])
         == Done(Tree(Group(Seq, Plus, [Leaf(a, NoQuant), Group(Choice, Rep, [Leaf(b, Opt), Leaf(c, NoQuant)])])))
  {
    var toks := [OpenParen, Name(a, NoQuant), Comma, OpenParen, Name(b, Opt), Or, Name(c, NoQuant), CloseParen(Rep), CloseParen(Plus)];
    var cp := Group(Choice, Rep, [Leaf(b, Opt), Leaf(c, NoQuant)]);
    SampleChoice(b, c);
    SampleSequence(Leaf(a, NoQuant), cp, Plus);
    assert [OpenParen] + (Spell(Leaf(a, NoQuant)) + [Comma] + Spell(cp)) + [CloseParen(Plus)] == toks;
    NoSpaces(toks);
    hide Run;
    AcceptsTheGrammar(toks, Tree(Group(Seq, Plus, [Leaf(a, NoQuant), cp])));
  }

  lemma SampleSequence(one: CP, two: CP, quant: Quant)
    requires WellFormed(one) && WellFormed(two)
    ensures var cp := Group(Seq, quant, [one, two]);
            WellFormed(cp) && Spell(cp) == [OpenParen] + (Spell(one) + [Comma] + Spell(two)) + [CloseParen(quant)]
  {
    var both := [one, two];
    assert both[1..] == [two] && Join(both[1..], Seq) == Spell(two);
    assert Spell(one) + ([Comma] + Spell(two)) == Spell(one) + [Comma] + Spell(two);
    assert AllWellFormed(both[1..]) && AllWellFormed(both);
  }

  lemma {:induction false} NoSpaces(toks: seq<Tok>)
    requires forall i :: 0 <= i < |toks| ==> toks[i] != Space
    ensures Strip(toks) == toks
  {
    if toks != [] {
      NoSpaces(toks[1..]);
    }
  }
}
