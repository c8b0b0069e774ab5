/** The lexer of parse.c, on ASCII text, with its one token of look-ahead. */
module Lexer {
  import opened Wrappers
  import opened Equation
  import opened Grammar
  import opened Lists

  datatype TokenType = TOKEN | IDENT | RESERVED | NUMBER

  datatype Token = Token(kind: TokenType, text: string)

  const END: char := '\0'

  /** A C string of ASCII characters. */
  predicate Ascii(s: string) {
    forall i :: 0 <= i < |s| ==> END < s[i] < '\U{80}'
  }

  /** `tolowerrune`, `isspacerune` and `isalpharune` on ASCII. */
  function Lower(c: char): char {
    if 'A' <= c <= 'Z' then (c as int + 32) as char else c
  }

  predicate IsSpace(c: char) {
    c == ' ' || c == '\t' || c == '\n'
  }

  predicate IsAlpha(c: char) {
    'a' <= c <= 'z' || 'A' <= c <= 'Z'
  }

  predicate IsDigit(c: char) {
    '0' <= c <= '9'
  }

  predicate NumStart(c: char) {
    IsDigit(c) || c == '.'
  }

  predicate IdentStart(c: char) {
    IsAlpha(c) || c == '_' || c == '"'
  }

  /** `utf8_tolower`. */
  function LowerAll(s: string): (out: string)
    ensures |out| == |s|
  {
    seq(|s|, i requires 0 <= i < |s| => Lower(s[i]))
  }

  /** Where `skip_whitespace` stops: past blanks and comments, which need not be closed at the end of the text. */
  function Skip(s: string, pos: nat, inComment: bool): (p: nat)
    requires pos <= |s|
    ensures pos <= p <= |s|
    decreases |s| - pos
  {
    if pos == |s| then pos
    else if inComment then Skip(s, pos + 1, s[pos] != '}')
    else if s[pos] == '{' then Skip(s, pos + 1, true)
    else if IsSpace(s[pos]) then Skip(s, pos + 1, false)
    else pos
  }

  /** Where the loop of `lex_number` stops when it looks at position `p` next. */
  function NumEnd(s: string, p: nat, haveE: bool, haveDot1: bool, haveDot2: bool): (e: nat)
    requires p <= |s|
    ensures p <= e <= |s|
    decreases |s| - p
  {
    if p == |s| then p
    else if IsDigit(s[p]) then NumEnd(s, p + 1, haveE, haveDot1, haveDot2)
    else if s[p] == '.' && !haveE && !haveDot1 then NumEnd(s, p + 1, haveE, true, haveDot2)
    else if s[p] == '.' && haveE && !haveDot2 then NumEnd(s, p + 1, haveE, haveDot1, true)
    else if s[p] == 'e' && !haveE then NumEnd(s, p + 1, true, haveDot1, haveDot2)
    else p
  }

  /** Where the loop of `lex_ident` stops when it looks at position `p` next. */
  function IdentEnd(s: string, p: nat, quoted: bool): (e: nat)
    requires p <= |s|
    ensures p <= e <= |s|
    decreases |s| - p
  {
    if p == |s| then p
    else if IsAlpha(s[p]) || s[p] == '_' || IsDigit(s[p]) then IdentEnd(s, p + 1, quoted)
    else if quoted && s[p] == '"' then p + 1
    else if quoted && IsSpace(s[p]) then IdentEnd(s, p + 1, quoted)
    else p
  }

  /** Whether two characters are one of the operators ==, <=, <> and >=. */
  predicate TwoRunes(s: string, p: nat)
    requires p < |s|
  {
    p + 1 < |s| &&
    match s[p]
    case '=' => s[p + 1] == '='
    case '<' => s[p + 1] == '=' || s[p + 1] == '>'
    case '>' => s[p + 1] == '='
    case _ => false
  }

  /** Where the token that starts at `p` ends. The character after an opening quote is never looked at. */
  function LexEnd(s: string, p: nat): (e: nat)
    requires p < |s|
    ensures p < e <= |s|
  {
    if NumStart(s[p]) then NumEnd(s, p + 1, false, false, false)
    else if IdentStart(s[p]) then
      if s[p] != '"' then IdentEnd(s, p + 1, false) else IdentEnd(s, if p + 2 <= |s| then p + 2 else |s|, true)
    else if TwoRunes(s, p) then p + 2
    else p + 1
  }

  // What a number and an identifier look like, apart from how the loops find their ends.

  /** Digits and no more dots than allowed, which is one or none. */
  predicate Decimal(t: string, dot: bool) {
    && (forall i :: 0 <= i < |t| ==> IsDigit(t[i]) || (dot && t[i] == '.'))
    && (forall i, j :: 0 <= i < j < |t| ==> t[i] != '.' || t[j] != '.')
  }

  /** A decimal and, perhaps, `e` and another one, which may have a dot of its own. */
  predicate Scientific(t: string, dot: bool) {
    Decimal(t, dot) || exists k :: 0 <= k < |t| && t[k] == 'e' && Decimal(t[..k], dot) && Decimal(t[k + 1..], true)
  }

  /** A number: the first rune, a digit or a dot, does not count. */
  predicate IsNumber(t: string) {
    t != "" && NumStart(t[0]) && Scientific(t[1..], true)
  }

  predicate IsWordRune(c: char) {
    IsAlpha(c) || c == '_' || IsDigit(c)
  }

  /** A word, or a quote, any rune, and words and blanks up to a closing quote or not. */
  predicate IsIdent(t: string) {
    t != "" &&
    if t[0] == '"'
    then forall i :: 2 <= i < |t| ==> IsWordRune(t[i]) || IsSpace(t[i]) || (t[i] == '"' && i == |t| - 1)
    else IdentStart(t[0]) && forall i :: 1 <= i < |t| ==> IsWordRune(t[i])
  }

  lemma DecimalStep(t: string, dot: bool)
    requires t != ""
    ensures Decimal(t, dot) <==> if t[0] == '.' then dot && Decimal(t[1..], false) else IsDigit(t[0]) && Decimal(t[1..], dot)
  {
    if t[0] == '.' {
      if Decimal(t, dot) {
        assert forall i :: 0 <= i < |t[1..]| ==> t[1..][i] == t[i + 1] && t[i + 1] != '.';
      }
      if dot && Decimal(t[1..], false) {
        assert forall i :: 1 <= i < |t| ==> t[i] == t[1..][i - 1];
      }
    } else {
      if IsDigit(t[0]) && Decimal(t[1..], dot) {
        assert forall i :: 1 <= i < |t| ==> t[i] == t[1..][i - 1];
      }
    }
  }

  /** Where the exponent starts, after the first rune. */
  lemma ScientificShift(t: string, dot: bool, k: nat)
    requires 0 < k < |t| && t[k] == 'e' && Decimal(t[k + 1..], true)
    ensures t[1..][k - 1] == 'e' && t[1..][k..] == t[k + 1..]
    ensures Decimal(t[..k], dot) <==> if t[0] == '.' then dot && Decimal(t[1..][..k - 1], false)
                                      else IsDigit(t[0]) && Decimal(t[1..][..k - 1], dot)
  {
    assert t[..k][1..] == t[1..][..k - 1];
    DecimalStep(t[..k], dot);
  }

  /** What may follow the first rune of the rest of a number. */
  lemma ScientificStep(t: string, dot: bool)
    requires t != ""
    ensures Scientific(t, dot) <==>
              if t[0] == '.' then dot && Scientific(t[1..], false)
              else if t[0] == 'e' then Decimal(t[1..], true)
              else IsDigit(t[0]) && Scientific(t[1..], dot)
  {
    DecimalStep(t, dot);
    if Scientific(t, dot) && !Decimal(t, dot) {
      var k :| 0 <= k < |t| && t[k] == 'e' && Decimal(t[..k], dot) && Decimal(t[k + 1..], true);
      if k > 0 {
        ScientificShift(t, dot, k);
      }
    }
    var dot' := dot && t[0] != '.';
    if t[0] == 'e' {
      assert t[..0] == "";
    } else if Scientific(t[1..], dot') && !Decimal(t[1..], dot') {
      var k :| 0 <= k < |t[1..]| && t[1..][k] == 'e' && Decimal(t[1..][..k], dot') && Decimal(t[1..][k + 1..], true);
      assert t[1..][k + 1..] == t[k + 2..];
      ScientificShift(t, dot, k + 1);
    }
  }

  /** The loop of `lex_number` goes as far as the pattern. */
  lemma {:induction false} NumEndIsLongest(s: string, p: nat, q: nat, haveE: bool, haveDot1: bool, haveDot2: bool)
    requires p <= q <= |s| && (haveDot2 ==> haveE)
    ensures q <= NumEnd(s, p, haveE, haveDot1, haveDot2)
         <==> if haveE then Decimal(s[p..q], !haveDot2) else Scientific(s[p..q], !haveDot1)
    decreases q - p
  {
    if p < q {
      var t := s[p..q];
      assert t[0] == s[p] && t[1..] == s[p + 1..q];
      DecimalStep(t, !haveDot2);
      ScientificStep(t, !haveDot1);
      if IsDigit(s[p]) {
        NumEndIsLongest(s, p + 1, q, haveE, haveDot1, haveDot2);
      } else if s[p] == '.' && !haveE && !haveDot1 {
        NumEndIsLongest(s, p + 1, q, haveE, true, haveDot2);
      } else if s[p] == '.' && haveE && !haveDot2 {
        NumEndIsLongest(s, p + 1, q, haveE, haveDot1, true);
      } else if s[p] == 'e' && !haveE {
        NumEndIsLongest(s, p + 1, q, true, haveDot1, haveDot2);
      }
    } else {
      assert s[p..q] == "";
    }
  }

  /** A lexeme that begins like a number is the longest number there is. */
  lemma NumberIsLongest(s: string, p: nat, q: nat)
    requires p < q <= |s| && NumStart(s[p])
    ensures IsNumber(s[p..q]) <==> q <= LexEnd(s, p)
  {
    assert s[p..q][1..] == s[p + 1..q];
    NumEndIsLongest(s, p + 1, q, false, false, false);
  }

  /** The loop of `lex_ident` goes on over words, and in quotes over blanks, and through the closing quote. */
  lemma {:induction false} IdentEndIsLongest(s: string, p: nat, q: nat, quoted: bool)
    requires p <= q <= |s|
    ensures q <= IdentEnd(s, p, quoted) <==>
              forall i :: p <= i < q ==> IsWordRune(s[i]) || (quoted && (IsSpace(s[i]) || (s[i] == '"' && i == q - 1)))
    decreases q - p
  {
    if p < q && (IsWordRune(s[p]) || (quoted && IsSpace(s[p]))) {
      IdentEndIsLongest(s, p + 1, q, quoted);
    }
  }

  /** A lexeme that begins like an identifier is the longest identifier there is. */
  lemma IdentIsLongest(s: string, p: nat, q: nat)
    requires p < q <= |s| && IdentStart(s[p])
    ensures IsIdent(s[p..q]) <==> q <= LexEnd(s, p)
  {
    var t := s[p..q];
    assert forall i :: p <= i < q ==> s[i] == t[i - p];
    assert forall i :: 0 <= i < |t| ==> t[i] == s[p + i];
    if s[p] != '"' {
      IdentEndIsLongest(s, p + 1, q, false);
    } else if p + 2 <= q {
      IdentEndIsLongest(s, p + 2, q, true);
    }
  }

  /** The token a lexeme stands for: words for operators and two-rune operators become one rune. */
  function TokenOf(lexeme: string): (t: Token)
    requires lexeme != []
    ensures t.text != []
  {
    if NumStart(lexeme[0]) then Token(NUMBER, lexeme)
    else if IdentStart(lexeme[0]) then
      if lexeme == "not" then Token(TOKEN, "!")
      else if lexeme == "and" then Token(TOKEN, "&")
      else if lexeme == "or" then Token(TOKEN, "|")
      else if lexeme == "mod" then Token(TOKEN, "%")
      else if lexeme == "if" || lexeme == "then" || lexeme == "else" then Token(RESERVED, lexeme)
      else Token(IDENT, lexeme)
    else if lexeme == ">=" then Token(TOKEN, [AT_LEAST])
    else if lexeme == "<=" then Token(TOKEN, [AT_MOST])
    else if lexeme == "<>" then Token(TOKEN, [NOT_EQUAL])
    else Token(TOKEN, lexeme)
  }

  /** What the parser sees of a token. */
  function View(t: Token): Symbol
    requires t.text != []
  {
    match t.kind
    case TOKEN => Op(t.text[0])
    case IDENT => Name(t.text)
    case RESERVED => Word(t.text)
    case NUMBER => Num(t.text)
  }

  /** A stretch of skipped characters and the lexeme after it. */
  datatype Piece = Piece(blank: string, lexeme: string)

  /** The pieces of the text from a position to the last token. */
  function Pieces(s: string, pos: nat): (ps: seq<Piece>)
    requires pos <= |s|
    ensures forall i :: 0 <= i < |ps| ==> ps[i].lexeme != []
    decreases |s| - pos
  {
    var p := Skip(s, pos, false);
    if p == |s| then []
    else [Piece(s[pos..p], s[p..LexEnd(s, p)])] + Pieces(s, LexEnd(s, p))
  }

  function TokensOf(ps: seq<Piece>): (ts: seq<Token>)
    requires forall i :: 0 <= i < |ps| ==> ps[i].lexeme != []
    ensures |ts| == |ps|
    ensures forall i :: 0 <= i < |ts| ==> ts[i].text != []
  {
    if ps == [] then [] else [TokenOf(ps[0].lexeme)] + TokensOf(ps[1..])
  }

  /** All the tokens of a text from a position. */
  function Tokens(s: string, pos: nat): (ts: seq<Token>)
    requires pos <= |s|
    ensures forall i :: 0 <= i < |ts| ==> ts[i].text != []
  {
    TokensOf(Pieces(s, pos))
  }

  function Spelling(ps: seq<Piece>): string {
    if ps == [] then [] else ps[0].blank + ps[0].lexeme + Spelling(ps[1..])
  }

  /** Blanks and whole comments; the last comment may be open. */
  predicate Blank(s: string, inComment: bool) {
    s == [] ||
    if inComment then Blank(s[1..], s[0] != '}')
    else if s[0] == '{' then Blank(s[1..], true)
    else IsSpace(s[0]) && Blank(s[1..], false)
  }

  lemma {:induction false} SkippedIsBlank(s: string, pos: nat, inComment: bool)
    requires pos <= |s|
    ensures Blank(s[pos..Skip(s, pos, inComment)], inComment)
    decreases |s| - pos
  {
    var p := Skip(s, pos, inComment);
    if pos < p {
      assert s[pos..p][1..] == s[pos + 1..p];
      SkippedIsBlank(s, pos + 1, if inComment then s[pos] != '}' else s[pos] == '{');
    }
  }

  /** Skipping goes on as long as there are blanks and comments. */
  lemma {:induction false} SkipIsLongest(s: string, pos: nat, q: nat, inComment: bool)
    requires pos <= q <= |s|
    ensures q <= Skip(s, pos, inComment) <==> Blank(s[pos..q], inComment)
    decreases q - pos
  {
    if pos < q {
      assert s[pos..q][0] == s[pos] && s[pos..q][1..] == s[pos + 1..q];
      SkipIsLongest(s, pos + 1, q, if inComment then s[pos] != '}' else s[pos] == '{');
    }
  }

  /** One more piece before a stretch that is spelled out. */
  lemma SpellFirst(s: string, pos: nat, p: nat, e: nat, ps: seq<Piece>, tail: string)
    requires pos <= p <= e <= |s| && s[e..] == Spelling(ps) + tail
    ensures s[pos..] == Spelling([Piece(s[pos..p], s[p..e])] + ps) + tail
  {
    assert ([Piece(s[pos..p], s[p..e])] + ps)[1..] == ps;
    assert s[pos..] == s[pos..p] + s[p..e] + s[e..];
  }

  /** The pieces partition the text: in order, every character is in a lexeme or in the blanks before or after one. */
  lemma {:induction false} PiecesPartition(s: string, pos: nat) returns (tail: string)
    requires pos <= |s|
    ensures s[pos..] == Spelling(Pieces(s, pos)) + tail && Blank(tail, false)
    decreases |s| - pos
  {
    var p := Skip(s, pos, false);
    if p == |s| {
      SkippedIsBlank(s, pos, false);
      tail := s[pos..p];
    } else {
      var e := LexEnd(s, p);
      tail := PiecesPartition(s, e);
      SpellFirst(s, pos, p, e, Pieces(s, e), tail);
    }
  }

  /**
   * ... and what is before a lexeme is blanks and comments, as many as there are: with the first rune of the lexeme it
   * would be none, so the comments are closed and the lexeme begins with neither a space nor a comment.
   */
  lemma {:induction false} PiecesAreBlank(s: string, pos: nat, i: nat)
    requires pos <= |s| && i < |Pieces(s, pos)|
    ensures var piece := Pieces(s, pos)[i];
      && Blank(piece.blank, false) && !Blank(piece.blank + [piece.lexeme[0]], false)
      && !IsSpace(piece.lexeme[0]) && piece.lexeme[0] != '{'
    decreases |s| - pos
  {
    var p := Skip(s, pos, false);
    if i == 0 {
      SkipIsLongest(s, pos, p, false);
      SkipIsLongest(s, pos, p + 1, false);
      assert s[pos..p + 1] == s[pos..p] + [s[p]];
      BlankGoesOn(s[pos..p], s[p], false);
    } else {
      PiecesAreBlank(s, LexEnd(s, p), i - 1);
    }
  }

  /** A space or an opening brace after blanks is blank, too. */
  lemma {:induction false} BlankGoesOn(b: string, c: char, inComment: bool)
    requires Blank(b, inComment)
    ensures IsSpace(c) || c == '{' ==> Blank(b + [c], inComment)
  {
    if b == "" {
      assert b + [c] == [c] && [c][1..] == "";
    } else {
      assert (b + [c])[0] == b[0] && (b + [c])[1..] == b[1..] + [c];
      BlankGoesOn(b[1..], c, if inComment then b[0] != '}' else b[0] == '{');
    }
  }

  // The kinds of runes.

  lemma DigitRunes(c: char)
    ensures IsDigit(c) <==> c in "0123456789"
    ensures NumStart(c) <==> c == '.' || c in "0123456789"
  {
    var digits := "0123456789";
    if IsDigit(c) {
      assert digits[c as int - '0' as int] == c;
    }
  }

  lemma OtherRunes(c: char)
    ensures IsAlpha(c) <==> 'a' <= Lower(c) <= 'z'
    ensures IdentStart(c) <==> IsAlpha(c) || c in "_\""
    ensures IsSpace(c) <==> c in " \t\n"
  {
  }

  /** Capital letters become the small letters of the same place in the alphabet; nothing else changes. */
  lemma LowerLetters(s: string, i: nat)
    requires i < |s|
    ensures 'A' <= s[i] <= 'Z' ==> 'a' <= LowerAll(s)[i] <= 'z' && LowerAll(s)[i] - 'a' == s[i] - 'A'
    ensures !('A' <= s[i] <= 'Z') ==> LowerAll(s)[i] == s[i]
  {
  }

  /** Where an operator ends. */
  lemma OperatorEnds(s: string, p: nat)
    requires p < |s| && !NumStart(s[p]) && !IdentStart(s[p])
    ensures LexEnd(s, p) == p + 2 <==> p + 2 <= |s| && s[p..p + 2] in ["==", "<=", "<>", ">="]
    ensures LexEnd(s, p) == p + 1 || LexEnd(s, p) == p + 2
  {
    if p + 2 <= |s| {
      var t := s[p..p + 2];
      assert t == [s[p], s[p + 1]];
      assert "==" == ['=', '='] && "<=" == ['<', '='] && "<>" == ['<', '>'] && ">=" == ['>', '='];
    }
  }

  /** What the parser sees of a lexeme: the words and two-rune operators by their one rune, the others as they are. */
  lemma LexemesMean(lexeme: string)
    requires lexeme != ""
    ensures View(TokenOf("not")) == Op('!') && View(TokenOf("and")) == Op('&')
    ensures View(TokenOf("or")) == Op('|') && View(TokenOf("mod")) == Op('%')
    ensures View(TokenOf(">=")) == Op(AT_LEAST) && View(TokenOf("<=")) == Op(AT_MOST) && View(TokenOf("<>")) == Op(NOT_EQUAL)
    ensures lexeme in ["if", "then", "else"] <==> View(TokenOf(lexeme)).Word?
    ensures View(TokenOf(lexeme)).Word? ==> View(TokenOf(lexeme)) == Word(lexeme)
    ensures NumStart(lexeme[0]) ==> View(TokenOf(lexeme)) == Num(lexeme)
    ensures IdentStart(lexeme[0]) && lexeme !in ["not", "and", "or", "mod", "if", "then", "else"] ==> View(TokenOf(lexeme)) == Name(lexeme)
    ensures !NumStart(lexeme[0]) && !IdentStart(lexeme[0]) && lexeme !in [">=", "<=", "<>"] ==> View(TokenOf(lexeme)) == Op(lexeme[0])
  {
    assert "not"[0] == 'n' && "and"[0] == 'a' && "or"[0] == 'o' && "mod"[0] == 'm';
    assert "if"[0] == 'i' && "then"[0] == 't' && "else"[0] == 'e';
    assert |"not"| == 3 && |"and"| == 3 && |"or"| == 2 && |"mod"| == 3 && |"if"| == 2 && |"then"| == 4 && |"else"| == 4;
    assert ">="[0] == '>' && ">="[1] == '=' && "<="[0] == '<' && "<="[1] == '=' && "<>"[0] == '<' && "<>"[1] == '>';
  }

  class Lexer {
    const orig: string
    const src: string
    var peek: char
    var pos: nat
    var tpeek: Token
    var havetpeek: bool

    /** Past the first rune, `peek` is the rune at `pos`; the first is taken from the text before lower-casing. */
    ghost predicate Valid()
      reads this
    {
      && Ascii(orig) && src == LowerAll(orig)
      && pos <= |src|
      && (pos == |src| ==> peek == END)
      && (pos < |src| ==> Lower(peek) == src[pos] && (pos > 0 ==> peek == src[pos]))
      && tpeek.text != []
    }

    /** The tokens still to be delivered. */
    ghost function Rest(): (ts: seq<Token>)
      requires Valid()
      ensures forall i :: 0 <= i < |ts| ==> ts[i].text != []
      reads this
    {
      if havetpeek then [tpeek] + Tokens(src, pos) else Tokens(src, pos)
    }

    /** `lexer_init`. */
    constructor (text: string)
      requires Ascii(text)
      ensures Valid() && orig == text && Rest() == Tokens(LowerAll(text), 0)
    {
      orig := text;
      src := LowerAll(text);
      peek := if |text| > 0 then text[0] else END;
      pos := 0;
      tpeek := Token(TOKEN, [END]);
      havetpeek := false;
    }

    /** `nextrune`. */
    method NextRune() returns (r: char)
      requires Valid()
      modifies this`pos, this`peek
      ensures Valid() && r == peek
      ensures pos == if old(pos) < |src| then old(pos) + 1 else old(pos)
      ensures peek == END <==> pos == |src|
    {
      if pos < |src| {
        pos := pos + 1;
        peek := if pos < |src| then src[pos] else END;
      } else {
        peek := END;
      }
      assert pos < |src| ==> Lower(src[pos]) == src[pos];
      return peek;
    }

    /** `skip_whitespace`. */
    method SkipWhitespace()
      requires Valid()
      modifies this`pos, this`peek
      ensures Valid() && pos == Skip(src, old(pos), false)
    {
      var inComment, more := false, true;
      while more
        invariant Valid() && old(pos) <= pos
        invariant Skip(src, pos, inComment) == Skip(src, old(pos), false)
        invariant !more ==> pos == |src|
        decreases |src| - pos, more
      {
        if inComment {
          if peek == '}' {
            inComment := false;
          }
        } else if peek == '{' {
          inComment := true;
        } else if !IsSpace(peek) {
          break;
        }
        var r := NextRune();
        more := r != END;
      }
    }

    /** `lex_number`, on a rune that starts a number. */
    method LexNumber() returns (t: Token)
      requires Valid() && pos < |src| && NumStart(src[pos])
      modifies this`pos, this`peek
      ensures Valid() && pos == LexEnd(src, old(pos)) && t == TokenOf(src[old(pos)..pos])
      ensures forall q :: old(pos) < q <= |src| ==> (IsNumber(src[old(pos)..q]) <==> q <= pos)
    {
      var start := pos;
      var haveE, haveDot1, haveDot2 := false, false, false;
      var r := NextRune();
      while r != END
        invariant Valid() && start < pos && r == peek
        invariant NumEnd(src, pos, haveE, haveDot1, haveDot2) == LexEnd(src, start)
        invariant r == END ==> pos == |src|
        decreases |src| - pos
      {
        if IsDigit(r) {
        } else if r == '.' {
          if !haveE && !haveDot1 {
            haveDot1 := true;
          } else if haveE && !haveDot2 {
            haveDot2 := true;
          } else {
            break;
          }
        } else if r == 'e' {
          if haveE {
            break;
          }
          haveE := true;
        } else {
          break;
        }
        r := NextRune();
      }
      forall q | start < q <= |src|
        ensures IsNumber(src[start..q]) <==> q <= pos
      {
        NumberIsLongest(src, start, q);
      }
      return Token(NUMBER, src[start..pos]);
    }

    /** `lex_ident`, on a rune that starts an identifier. */
    method LexIdent() returns (t: Token)
      requires Valid() && pos < |src| && IdentStart(src[pos]) && !NumStart(src[pos])
      modifies this`pos, this`peek
      ensures Valid() && pos == LexEnd(src, old(pos)) && t == TokenOf(src[old(pos)..pos])
      ensures forall q :: old(pos) < q <= |src| ==> (IsIdent(src[old(pos)..q]) <==> q <= pos)
    {
      var quoted := peek == '"';
      var start := pos;
      var r;
      if quoted {
        r := NextRune();
      }
      r := NextRune();
      while r != END
        invariant Valid() && start < pos && r == peek
        invariant IdentEnd(src, pos, quoted) == LexEnd(src, start)
        invariant r == END ==> pos == |src|
        decreases |src| - pos
      {
        if IsAlpha(r) || r == '_' || IsDigit(r) {
        } else if quoted && r == '"' {
          r := NextRune();
          break;
        } else if quoted && IsSpace(r) {
        } else {
          break;
        }
        r := NextRune();
      }
      forall q | start < q <= |src|
        ensures IsIdent(src[start..q]) <==> q <= pos
      {
        IdentIsLongest(src, start, q);
      }
      return TokenOf(src[start..pos]);
    }

    /** The last part of `lexer_nexttok`: operators of one or two runes. */
    method LexOperator() returns (t: Token)
      requires Valid() && pos < |src| && !NumStart(src[pos]) && !IdentStart(src[pos])
      modifies this`pos, this`peek
      ensures Valid() && pos == LexEnd(src, old(pos)) && t == TokenOf(src[old(pos)..pos])
    {
      var start, first := pos, peek;
      var second := NextRune();
      if (first == '=' && second == '=') || (first == '<' && (second == '=' || second == '>')) || (first == '>' && second == '=') {
        var r := NextRune();
      }
      return TokenOf(src[start..pos]);
    }

    /** `lexer_nexttok`: the next token, or None at the end of input. */
    method NextTok() returns (t: Option<Token>)
      requires Valid()
      modifies this
      ensures Valid()
      ensures old(Rest()) == [] ==> t == None && Rest() == []
      ensures old(Rest()) != [] ==> t == Some(old(Rest())[0]) && Rest() == old(Rest())[1..] && !havetpeek
    {
      if havetpeek {
        havetpeek := false;
        return Some(tpeek);
      }
      SkipWhitespace();
      if peek == END {
        return None;
      }
      var tok;
      if NumStart(peek) {
        tok := LexNumber();
      } else if IdentStart(peek) {
        tok := LexIdent();
      } else {
        tok := LexOperator();
      }
      return Some(tok);
    }

    /** `lexer_peek`: the same token, which stays. */
    method Peek() returns (t: Option<Token>)
      requires Valid()
      modifies this
      ensures Valid() && Rest() == old(Rest())
      ensures t == if Rest() == [] then None else Some(Rest()[0])
      ensures t.Some? ==> havetpeek
    {
      if !havetpeek {
        var tok := NextTok();
        if tok.None? {
          return None;
        }
        tpeek := tok.value;
        havetpeek := true;
      }
      return Some(tpeek);
    }
  }

  /** One call of `lexer_nexttok` or of `lexer_peek`, and what it consumed. */
  method OneCall(l: Lexer, consume: bool) returns (got: seq<Token>)
    requires l.Valid()
    modifies l
    ensures l.Valid() && got + l.Rest() == old(l.Rest())
    ensures |got| == if consume && old(l.Rest()) != [] then 1 else 0
  {
    if consume {
      var t := l.NextTok();
      got := if t.Some? then [t.value] else [];
    } else {
      var t := l.Peek();
      got := [];
    }
  }

  /**
   * Any interleaving of `lexer_peek` (false) and `lexer_nexttok` (true) delivers the tokens of the text in order:
   * looking ahead neither drops, repeats nor changes a token.
   */
  method Interleave(l: Lexer, calls: seq<bool>) returns (delivered: seq<Token>)
    requires l.Valid()
    modifies l
    ensures l.Valid() && delivered + l.Rest() == old(l.Rest())
    ensures |delivered| == Count(calls, |old(l.Rest())|)
  {
    if calls == [] {
      return [];
    }
    ghost var all := l.Rest();
    var got := OneCall(l, calls[0]);
    ghost var rest := l.Rest();
    var more := Interleave(l, calls[1..]);
    Assoc(got, more, l.Rest());
    return got + more;
  }

  /** How many of the calls consume one of `left` tokens. */
  function Count(calls: seq<bool>, left: nat): nat {
    if calls == [] then 0
    else if calls[0] && left > 0 then 1 + Count(calls[1..], left - 1)
    else Count(calls[1..], left)
  }
}
