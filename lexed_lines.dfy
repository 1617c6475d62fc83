/** The parser on lines of text as the lexer delivers them: the parse of a
    stream depends only on its kinds and on the texts of its numbers and
    names, so what is proved on built token sequences carries over to the
    tokens of a lexed line. */
module LexedLines {
  import opened Results
  import opened Lexing
  import opened Parsing
  import opened ParsingProps

  /** Two tokens the parser cannot tell apart: the same kind and, for a
      number or a name, the same text. Offsets and lines may differ. */
  ghost predicate Twin(t: Token, u: Token) {
    && t.InBounds() && u.InBounds() && t.kind == u.kind
    && (t.kind == TokenKind.Nb || t.kind == Id ==> t.Splice() == u.Splice())
  }

  ghost predicate Alike(a: seq<Token>, b: seq<Token>) {
    |a| == |b| && forall j | 0 <= j < |a| :: Twin(a[j], b[j])
  }

  /** Both reads fail, or both give the same expression and leave alike
      streams. */
  ghost predicate SameOutcome<N>(r: Result<Parsed<N>>, q: Result<Parsed<N>>) {
    && r.Ok? == q.Ok?
    && (r.Ok? ==> r.value.expr == q.value.expr && Alike(r.value.rest, q.value.rest))
  }

  lemma AlikeTail(a: seq<Token>, b: seq<Token>)
    requires Alike(a, b) && |a| > 0
    ensures Alike(a[1..], b[1..])
  {
    assert forall j | 0 <= j < |a| - 1 :: a[1..][j] == a[j + 1] && b[1..][j] == b[j + 1];
  }

  lemma {:induction false} AtomAlike<N>(parseNumber: string -> Option<N>, a: seq<Token>, b: seq<Token>, assoc: Assoc)
    requires IsStream(a) && IsStream(b) && Alike(a, b)
    ensures SameOutcome(ParseAtom(parseNumber, a, assoc), ParseAtom(parseNumber, b, assoc))
    decreases |a|, 1
  {
    assert Twin(a[0], b[0]);
    if a[0].kind != Eof {
      StreamTail(a);
      StreamTail(b);
      AlikeTail(a, b);
      AtomTake(parseNumber, a, assoc);
      AtomTake(parseNumber, b, assoc);
      match a[0].kind
      case Sep(Open) =>
        GroupAlike(parseNumber, a[1..], b[1..], assoc);
      case Id =>
        CallAlike(parseNumber, a[0], b[0], a[1..], b[1..], assoc);
      case Op(op) =>
        ExprAlike(parseNumber, a[1..], b[1..], PrefixBindingPower(op), assoc);
      case _ =>
    }
  }

  lemma {:induction false} ExprAlike<N>(parseNumber: string -> Option<N>, a: seq<Token>, b: seq<Token>,
                                        minBp: nat, assoc: Assoc)
    requires IsStream(a) && IsStream(b) && Alike(a, b)
    ensures SameOutcome(ParseExpr(parseNumber, a, minBp, assoc), ParseExpr(parseNumber, b, minBp, assoc))
    decreases |a|, 2
  {
    AtomAlike(parseNumber, a, b, assoc);
    var ra := ParseAtom(parseNumber, a, assoc);
    var rb := ParseAtom(parseNumber, b, assoc);
    if ra.Ok? {
      InfixAlike(parseNumber, ra.value.expr, ra.value.rest, rb.value.rest, minBp, assoc);
    }
  }

  lemma {:induction false} InfixAlike<N>(parseNumber: string -> Option<N>, lhs: Expr<N>, a: seq<Token>,
                                         b: seq<Token>, minBp: nat, assoc: Assoc)
    requires IsStream(a) && IsStream(b) && Alike(a, b)
    ensures SameOutcome(ParseInfix(parseNumber, lhs, a, minBp, assoc), ParseInfix(parseNumber, lhs, b, minBp, assoc))
    decreases |a|, 0
  {
    assert Twin(a[0], b[0]);
    if a[0].kind.Op? && InfixBindingPower(a[0].kind.op) >= minBp {
      var op := a[0].kind.op;
      var bp := OperandPower(InfixBindingPower(op), assoc);
      StreamTail(a);
      StreamTail(b);
      AlikeTail(a, b);
      InfixTake(parseNumber, lhs, a, minBp, assoc);
      InfixTake(parseNumber, lhs, b, minBp, assoc);
      ExprAlike(parseNumber, a[1..], b[1..], bp, assoc);
      var ra := ParseExpr(parseNumber, a[1..], bp, assoc);
      var rb := ParseExpr(parseNumber, b[1..], bp, assoc);
      if ra.Ok? {
        InfixAlike(parseNumber, BinaryOp(op, lhs, ra.value.expr), ra.value.rest, rb.value.rest, minBp, assoc);
      }
    }
  }

  lemma {:induction false} GroupAlike<N>(parseNumber: string -> Option<N>, a: seq<Token>, b: seq<Token>, assoc: Assoc)
    requires IsStream(a) && IsStream(b) && Alike(a, b)
    ensures SameOutcome(ParseGroup(parseNumber, a, assoc), ParseGroup(parseNumber, b, assoc))
    decreases |a|, 3
  {
    ExprAlike(parseNumber, a, b, 0, assoc);
    var ra := ParseExpr(parseNumber, a, 0, assoc);
    var rb := ParseExpr(parseNumber, b, 0, assoc);
    if ra.Ok? {
      assert Twin(ra.value.rest[0], rb.value.rest[0]);
      if ra.value.rest[0].kind == Sep(Close) {
        AlikeTail(ra.value.rest, rb.value.rest);
      }
    }
  }

  lemma {:induction false} CallAlike<N>(parseNumber: string -> Option<N>, ia: Token, ib: Token,
                                        a: seq<Token>, b: seq<Token>, assoc: Assoc)
    requires IsStream(a) && IsStream(b) && Alike(a, b)
    requires Twin(ia, ib) && ia.kind == Id
    ensures SameOutcome(ParseCall(parseNumber, ia, a, assoc), ParseCall(parseNumber, ib, b, assoc))
    decreases |a|, 3
  {
    assert Twin(a[0], b[0]);
    if a[0].kind == Sep(Open) {
      StreamTail(a);
      StreamTail(b);
      AlikeTail(a, b);
      ExprAlike(parseNumber, a[1..], b[1..], 0, assoc);
      var ra := ParseExpr(parseNumber, a[1..], 0, assoc);
      var rb := ParseExpr(parseNumber, b[1..], 0, assoc);
      if ra.Ok? {
        assert Twin(ra.value.rest[0], rb.value.rest[0]);
        if ra.value.rest[0].kind == Sep(Close) {
          AlikeTail(ra.value.rest, rb.value.rest);
        }
      }
    }
  }

  /** Alike streams parse alike: both fail or neither does, both are
      comments or neither is, and an empty line or an expression is the same
      on both. Only error messages and comment positions, which point into
      the line, can differ. */
  lemma LineAlike<N>(parseNumber: string -> Option<N>, a: seq<Token>, b: seq<Token>, assoc: Assoc)
    requires IsStream(a) && IsStream(b) && Alike(a, b)
    ensures var r, q := ParseTokens(parseNumber, a, assoc), ParseTokens(parseNumber, b, assoc);
            && (r.Ok? <==> q.Ok?)
            && (r.Ok? ==> (r.value.Comment? <==> q.value.Comment?))
            && (r.Ok? && !r.value.Comment? ==> r == q)
  {
    assert Twin(a[0], b[0]);
    if a[0].kind != Eof && a[0].kind != Sep(Sep.Comment) {
      ExprAlike(parseNumber, a, b, 0, assoc);
      var ra := ParseExpr(parseNumber, a, 0, assoc);
      var rb := ParseExpr(parseNumber, b, 0, assoc);
      if ra.Ok? {
        assert Twin(ra.value.rest[0], rb.value.rest[0]);
      }
    }
  }

  lemma AlikeCons(t: Token, u: Token, a: seq<Token>, b: seq<Token>)
    requires Twin(t, u) && Alike(a, b)
    ensures Alike([t] + a, [u] + b)
  {
    assert forall j | 1 <= j <= |a| :: ([t] + a)[j] == a[j - 1] && ([u] + b)[j] == b[j - 1];
  }

  /** Alike streams whose `b` part is replaced by an alike `q`. */
  lemma AlikeThen(a: seq<Token>, p: seq<Token>, b: seq<Token>, q: seq<Token>)
    requires Alike(a, p + b) && Alike(b, q)
    requires forall j | 0 <= j < |p| :: p[j].InBounds()
    ensures Alike(a, p + q)
  {
    assert forall j | 0 <= j < |p| :: (p + b)[j] == p[j] && (p + q)[j] == p[j];
    assert forall j | |p| <= j < |p| + |b| :: (p + b)[j] == b[j - |p|] && (p + q)[j] == q[j - |p|];
  }

  lemma AlikeRefl(a: seq<Token>)
    requires IsStream(a)
    ensures Alike(a, a)
  {
  }

  // One token of a line at a time: the stream from `i` is that token, as the
  // parser sees it, followed by the stream after it.

  /** A token alike `u`, then a stream alike `q`, lexes alike `[u] + q`. */
  lemma LexStep(s: string, i: nat, u: Token, q: seq<Token>)
    requires i <= |s| && TokenAt(s, i).kind != Eof && Twin(TokenAt(s, i), u)
    requires Alike(Tokenize(s, TokenAt(s, i).span.end), q)
    ensures Alike(Tokenize(s, i), [u] + q)
  {
    TokenizeStep(s, i);
    AlikeCons(TokenAt(s, i), u, Tokenize(s, TokenAt(s, i).span.end), q);
  }

  lemma LexMark(s: string, i: nat, j: nat, q: seq<Token>)
    requires j == i + 1 <= |s| && Punctuation(s[i]).Some?
    requires Alike(Tokenize(s, j), q)
    ensures Alike(Tokenize(s, i), [Mark(Punctuation(s[i]).value)] + q)
  {
    PunctuationAt(s, i, i);
    LexStep(s, i, Mark(Punctuation(s[i]).value), q);
  }

  /** A number text at `i`, not run on, is read as a token alike its
      stand-alone token. */
  lemma NumberTwin(s: string, i: nat, t: string, j: nat)
    requires j == i + |t| <= |s| && s[i..j] == t && NumberText(t)
    requires j < |s| ==> !IsNb(s[j]) && s[j] != '.'
    ensures TokenAt(s, i).kind != Eof && TokenAt(s, i).span.end == j
    ensures Twin(TokenAt(s, i), NbToken(t))
  {
    NumberAt(s, i, i, t);
    assert NbToken(t).Splice() == t[..|t|] == t;
    assert Token(s, TokenKind.Nb, Span(i, j)).Splice() == s[i..j];
  }

  /** A name text at `i`, not run on, is read as a token alike its
      stand-alone token. */
  lemma NameTwin(s: string, i: nat, t: string, j: nat)
    requires j == i + |t| <= |s| && s[i..j] == t && NameText(t)
    requires j < |s| ==> !IsIdContent(s[j])
    ensures TokenAt(s, i).kind != Eof && TokenAt(s, i).span.end == j
    ensures Twin(TokenAt(s, i), IdToken(t))
  {
    NameAt(s, i, i, t);
    assert IdToken(t).Splice() == t[..|t|] == t;
    assert Token(s, Id, Span(i, j)).Splice() == s[i..j];
  }

  lemma LexNumber(s: string, i: nat, t: string, j: nat, q: seq<Token>)
    requires j == i + |t| <= |s| && s[i..j] == t && NumberText(t)
    requires j < |s| ==> !IsNb(s[j]) && s[j] != '.'
    requires Alike(Tokenize(s, j), q)
    ensures Alike(Tokenize(s, i), [NbToken(t)] + q)
  {
    NumberTwin(s, i, t, j);
    LexStep(s, i, NbToken(t), q);
  }

  lemma LexName(s: string, i: nat, t: string, j: nat, q: seq<Token>)
    requires j == i + |t| <= |s| && s[i..j] == t && NameText(t)
    requires j < |s| ==> !IsIdContent(s[j])
    requires Alike(Tokenize(s, j), q)
    ensures Alike(Tokenize(s, i), [IdToken(t)] + q)
  {
    NameTwin(s, i, t, j);
    LexStep(s, i, IdToken(t), q);
  }

  lemma LexEnd(s: string)
    ensures Alike(Tokenize(s, |s|), [Mark(Eof)])
  {
  }

  /** A piece of a line: a number, a name or one punctuation character. */
  datatype Word = Number(text: string) | Name(text: string) | Punct(c: char)

  predicate WordOk(w: Word) {
    match w
    case Number(t) => NumberText(t)
    case Name(t) => NameText(t)
    case Punct(c) => Punctuation(c).Some?
  }

  function WordText(w: Word): (t: string)
    ensures WordOk(w) ==> |t| > 0
  {
    match w
    case Number(t) => t
    case Name(t) => t
    case Punct(c) => [c]
  }

  /** The token the parser is to see for a word. */
  function WordToken(w: Word): Token {
    match w
    case Number(t) => NbToken(t)
    case Name(t) => IdToken(t)
    case Punct(c) => Mark(if Punctuation(c).Some? then Punctuation(c).value else Err)
  }

  /** Words written one after the other, without spaces. */
  function Spell(ws: seq<Word>): string {
    if |ws| == 0 then "" else WordText(ws[0]) + Spell(ws[1..])
  }

  function Tokens(ws: seq<Word>): seq<Token> {
    if |ws| == 0 then [] else [WordToken(ws[0])] + Tokens(ws[1..])
  }

  /** Every word is well formed, and a number or a name is followed by
      punctuation or ends the line, so that it does not run on into the next
      word. */
  predicate Spaced(ws: seq<Word>) {
    && (forall k | 0 <= k < |ws| :: WordOk(ws[k]))
    && (forall k | 0 <= k < |ws| - 1 :: !ws[k].Punct? ==> ws[k + 1].Punct?)
  }

  lemma WordsCons(w: Word, ws: seq<Word>)
    ensures Spell([w] + ws) == WordText(w) + Spell(ws)
    ensures Tokens([w] + ws) == [WordToken(w)] + Tokens(ws)
  {
    assert ([w] + ws)[1..] == ws;
  }

  /** `WordsCons` with the spelling of the tail already known. */
  lemma SpellFold(w: Word, ws: seq<Word>, text: string)
    requires Spell(ws) == text
    ensures Spell([w] + ws) == WordText(w) + text
  {
    WordsCons(w, ws);
  }

  /** `WordsCons` with the tokens of the tail already known. */
  lemma TokensFold(w: Word, ws: seq<Word>, toks: seq<Token>)
    requires Tokens(ws) == toks
    ensures Tokens([w] + ws) == [WordToken(w)] + toks
  {
    WordsCons(w, ws);
  }

  lemma TokensOne(w: Word)
    ensures Tokens([w]) == [WordToken(w)]
  {
    WordsCons(w, []);
    assert [w] + [] == [w];
  }

  lemma TokensTwo(v: Word, w: Word)
    ensures Tokens([v, w]) == [WordToken(v), WordToken(w)]
  {
    TokensOne(w);
    WordsCons(v, [w]);
    assert [v, w] == [v] + [w];
  }

  lemma {:induction false} TokensAppend(a: seq<Word>, b: seq<Word>)
    ensures Tokens(a + b) == Tokens(a) + Tokens(b)
    decreases |a|
  {
    if |a| == 0 {
      assert a + b == b;
    } else {
      var w, tail := a[0], a[1..];
      assert a + b == [w] + (tail + b) && a == [w] + tail;
      WordsCons(w, tail + b);
      WordsCons(w, tail);
      TokensAppend(tail, b);
      var x, y, z := [WordToken(w)], Tokens(tail), Tokens(b);
      assert x + (y + z) == (x + y) + z;
    }
  }

  /** Two spaced spellings stay spaced when written one after the other, if
      punctuation stands on one side of the seam. */
  lemma SpacedAppend(a: seq<Word>, b: seq<Word>)
    requires Spaced(a) && Spaced(b)
    requires |a| > 0 && |b| > 0 ==> a[|a| - 1].Punct? || b[0].Punct?
    ensures Spaced(a + b)
  {
    var ab := a + b;
    assert forall k | 0 <= k < |a| :: ab[k] == a[k];
    assert forall k | |a| <= k < |ab| :: ab[k] == b[k - |a|];
  }

  lemma PunctuationApart(c: char)
    requires Punctuation(c).Some?
    ensures !IsIdContent(c) && !IsNb(c) && c != '.'
  {
  }

  /** One word of a line, followed by punctuation or by the end of the line. */
  lemma LexWord(s: string, i: nat, w: Word, j: nat, q: seq<Token>)
    requires WordOk(w) && j == i + |WordText(w)| <= |s| && s[i..j] == WordText(w)
    requires j < |s| && !w.Punct? ==> Punctuation(s[j]).Some?
    requires Alike(Tokenize(s, j), q)
    ensures Alike(Tokenize(s, i), [WordToken(w)] + q)
  {
    var t := WordText(w);
    match w
    case Number(_) =>
      if j < |s| { PunctuationApart(s[j]); }
      LexNumber(s, i, t, j, q);
    case Name(_) =>
      if j < |s| { PunctuationApart(s[j]); }
      LexName(s, i, t, j, q);
    case Punct(c) =>
      LexMark(s, i, j, q);
  }

  /** The first word of a spaced spelling, and the spelling after it. */
  lemma SpellFirst(s: string, i: nat, ws: seq<Word>, j: nat)
    requires i <= |s| && s[i..] == Spell(ws) && Spaced(ws) && |ws| > 0
    requires j == i + |WordText(ws[0])|
    ensures j <= |s| && s[i..j] == WordText(ws[0]) && s[j..] == Spell(ws[1..])
    ensures Spaced(ws[1..])
    ensures j < |s| && !ws[0].Punct? ==> Punctuation(s[j]).Some?
  {
    var w, more := ws[0], ws[1..];
    var t := WordText(w);
    assert s[i..] == t + Spell(more);
    assert s[i..j] == t by {
      assert s[i..j] == s[i..][..|t|];
    }
    assert s[j..] == Spell(more) by {
      assert s[j..] == s[i..][|t|..];
    }
    assert Spaced(more) by {
      assert forall k | 0 <= k < |more| :: more[k] == ws[k + 1];
    }
    if j < |s| && !w.Punct? {
      assert |more| > 0 && more[0].Punct?;
      assert s[j] == Spell(more)[0] == more[0].c;
    }
  }

  lemma TokensFirst(ws: seq<Word>)
    requires |ws| > 0
    ensures Tokens(ws) + [Mark(Eof)] == [WordToken(ws[0])] + (Tokens(ws[1..]) + [Mark(Eof)])
  {
  }

  /** A line spelled by spaced words lexes to the words' tokens, then Eof. */
  lemma {:induction false} LexWords(s: string, i: nat, ws: seq<Word>)
    requires i <= |s| && s[i..] == Spell(ws) && Spaced(ws)
    ensures Alike(Tokenize(s, i), Tokens(ws) + [Mark(Eof)])
    decreases |ws|
  {
    if |ws| == 0 {
      assert |s[i..]| == 0;
      LexEnd(s);
      assert Tokens(ws) + [Mark(Eof)] == [Mark(Eof)];
    } else {
      var j := i + |WordText(ws[0])|;
      SpellFirst(s, i, ws, j);
      LexWords(s, j, ws[1..]);
      var q := Tokens(ws[1..]) + [Mark(Eof)];
      LexWord(s, i, ws[0], j, q);
      TokensFirst(ws);
    }
  }

  /** The line `x o1 y o2 z`, written without spaces. */
  function ChainLine(tx: string, o1: Op, ty: string, o2: Op, tz: string): string {
    tx + [OpChar(o1)] + ty + [OpChar(o2)] + tz
  }

  function ChainWords(tx: string, o1: Op, ty: string, o2: Op, tz: string): seq<Word> {
    [Number(tx), Punct(OpChar(o1)), Number(ty), Punct(OpChar(o2)), Number(tz)]
  }

  lemma ChainSpell(tx: string, o1: Op, ty: string, o2: Op, tz: string)
    ensures Spell(ChainWords(tx, o1, ty, o2, tz)) == ChainLine(tx, o1, ty, o2, tz)
  {
    var ws := ChainWords(tx, o1, ty, o2, tz);
    var w4 := [ws[4]];
    var w3 := [ws[3]] + w4;
    var w2 := [ws[2]] + w3;
    var w1 := [ws[1]] + w2;
    assert ws == [ws[0]] + w1;
    var s3 := [OpChar(o2)] + tz;
    var s2 := ty + s3;
    var s1 := [OpChar(o1)] + s2;
    SpellFold(ws[4], [], "");
    assert w4 == [ws[4]] + [] && tz + "" == tz;
    SpellFold(ws[3], w4, tz);
    SpellFold(ws[2], w3, s3);
    SpellFold(ws[1], w2, s2);
    SpellFold(ws[0], w1, s1);
    assert tx + s1 == ChainLine(tx, o1, ty, o2, tz);
  }

  lemma ChainTokens(tx: string, o1: Op, ty: string, o2: Op, tz: string)
    ensures Tokens(ChainWords(tx, o1, ty, o2, tz)) + [Mark(Eof)] == Chain(tx, o1, ty, o2, tz)
  {
    var ws := ChainWords(tx, o1, ty, o2, tz);
    var w4 := [ws[4]];
    var w3 := [ws[3]] + w4;
    var w2 := [ws[2]] + w3;
    var w1 := [ws[1]] + w2;
    assert ws == [ws[0]] + w1;
    var t4 := [NbToken(tz)];
    var t3 := [Mark(Op(o2))] + t4;
    var t2 := [NbToken(ty)] + t3;
    var t1 := [Mark(Op(o1))] + t2;
    TokensFold(ws[4], [], []);
    assert w4 == [ws[4]] + [] && t4 == t4 + [];
    TokensFold(ws[3], w4, t4);
    TokensFold(ws[2], w3, t3);
    TokensFold(ws[1], w2, t2);
    TokensFold(ws[0], w1, t1);
    assert [NbToken(tx)] + t1 + [Mark(Eof)] == Chain(tx, o1, ty, o2, tz);
  }

  lemma ChainLexed(tx: string, o1: Op, ty: string, o2: Op, tz: string)
    requires NumberText(tx) && NumberText(ty) && NumberText(tz)
    ensures Alike(Tokenize(ChainLine(tx, o1, ty, o2, tz), 0), Chain(tx, o1, ty, o2, tz))
  {
    var ws := ChainWords(tx, o1, ty, o2, tz);
    var s := ChainLine(tx, o1, ty, o2, tz);
    assert Spaced(ws);
    ChainSpell(tx, o1, ty, o2, tz);
    ChainTokens(tx, o1, ty, o2, tz);
    assert s[0..] == s;
    LexWords(s, 0, ws);
  }

  /** The line `o x o2 y`, written without spaces. */
  function PrefixLine(o: Op, tx: string, o2: Op, ty: string): string {
    [OpChar(o)] + tx + [OpChar(o2)] + ty
  }

  function PrefixWords(o: Op, tx: string, o2: Op, ty: string): seq<Word> {
    [Punct(OpChar(o)), Number(tx), Punct(OpChar(o2)), Number(ty)]
  }

  lemma PrefixSpell(o: Op, tx: string, o2: Op, ty: string)
    ensures Spell(PrefixWords(o, tx, o2, ty)) == PrefixLine(o, tx, o2, ty)
  {
    var ws := PrefixWords(o, tx, o2, ty);
    var w3 := [ws[3]];
    var w2 := [ws[2]] + w3;
    var w1 := [ws[1]] + w2;
    assert ws == [ws[0]] + w1;
    var s2 := [OpChar(o2)] + ty;
    var s1 := tx + s2;
    SpellFold(ws[3], [], "");
    assert w3 == [ws[3]] + [] && ty + "" == ty;
    SpellFold(ws[2], w3, ty);
    SpellFold(ws[1], w2, s2);
    SpellFold(ws[0], w1, s1);
    assert [OpChar(o)] + s1 == PrefixLine(o, tx, o2, ty);
  }

  lemma PrefixTokens(o: Op, tx: string, o2: Op, ty: string)
    ensures Tokens(PrefixWords(o, tx, o2, ty)) + [Mark(Eof)] == Prefixed(o, tx, o2, ty)
  {
    var ws := PrefixWords(o, tx, o2, ty);
    var w3 := [ws[3]];
    var w2 := [ws[2]] + w3;
    var w1 := [ws[1]] + w2;
    assert ws == [ws[0]] + w1;
    var t3 := [NbToken(ty)];
    var t2 := [Mark(Op(o2))] + t3;
    var t1 := [NbToken(tx)] + t2;
    TokensFold(ws[3], [], []);
    assert w3 == [ws[3]] + [] && t3 == t3 + [];
    TokensFold(ws[2], w3, t3);
    TokensFold(ws[1], w2, t2);
    TokensFold(ws[0], w1, t1);
    assert [Mark(Op(o))] + t1 + [Mark(Eof)] == Prefixed(o, tx, o2, ty);
  }

  lemma PrefixLexed(o: Op, tx: string, o2: Op, ty: string)
    requires NumberText(tx) && NumberText(ty)
    ensures Alike(Tokenize(PrefixLine(o, tx, o2, ty), 0), Prefixed(o, tx, o2, ty))
  {
    var ws := PrefixWords(o, tx, o2, ty);
    var s := PrefixLine(o, tx, o2, ty);
    assert Spaced(ws);
    PrefixSpell(o, tx, o2, ty);
    PrefixTokens(o, tx, o2, ty);
    assert s[0..] == s;
    LexWords(s, 0, ws);
  }

  /** `x o1 y o2 z` as a line of text nests to the right exactly when the
      power of `o2` reaches the power at which the right operand of `o1` is
      parsed. */
  lemma TextChainNesting<N>(parseNumber: string -> Option<N>, tx: string, x: N,
                            o1: Op, ty: string, y: N, o2: Op, tz: string, z: N, assoc: Assoc)
    requires NumberText(tx) && NumberText(ty) && NumberText(tz)
    requires parseNumber(tx) == Some(x)
    requires parseNumber(ty) == Some(y)
    requires parseNumber(tz) == Some(z)
    ensures ParseTokens(parseNumber, Tokenize(ChainLine(tx, o1, ty, o2, tz), 0), assoc)
         == Ok(Line.Expr(
              if InfixBindingPower(o2) >= OperandPower(InfixBindingPower(o1), assoc)
              then BinaryOp(o1, Expr.Nb(x), BinaryOp(o2, Expr.Nb(y), Expr.Nb(z)))
              else BinaryOp(o2, BinaryOp(o1, Expr.Nb(x), Expr.Nb(y)), Expr.Nb(z))))
  {
    ChainLexed(tx, o1, ty, o2, tz);
    ChainNesting(parseNumber, tx, x, o1, ty, y, o2, tz, z, assoc);
    LineAlike(parseNumber, Tokenize(ChainLine(tx, o1, ty, o2, tz), 0), Chain(tx, o1, ty, o2, tz), assoc);
  }

  /** A prefix `+` or `-` at the start of a line takes only the number after
      it; a prefix `*`, `/` or `%` takes the whole rest of the line. */
  lemma TextPrefixScope<N>(parseNumber: string -> Option<N>,
                           o: Op, tx: string, x: N, o2: Op, ty: string, y: N, assoc: Assoc)
    requires NumberText(tx) && NumberText(ty)
    requires parseNumber(tx) == Some(x)
    requires parseNumber(ty) == Some(y)
    ensures ParseTokens(parseNumber, Tokenize(PrefixLine(o, tx, o2, ty), 0), assoc)
         == Ok(Line.Expr(
              if o == Add || o == Sub
              then BinaryOp(o2, UnaryOp(o, Expr.Nb(x)), Expr.Nb(y))
              else UnaryOp(o, BinaryOp(o2, Expr.Nb(x), Expr.Nb(y)))))
  {
    PrefixLexed(o, tx, o2, ty);
    PrefixScope(parseNumber, o, tx, x, o2, ty, y, assoc);
    LineAlike(parseNumber, Tokenize(PrefixLine(o, tx, o2, ty), 0), Prefixed(o, tx, o2, ty), assoc);
  }

  /** As written (`Right`), `x o1 y o2 z` on a line nests to the right
      exactly when the power of `o1` is at most that of `o2`: operators of
      equal power nest to the right. */
  lemma ChainAsWritten<N>(parseNumber: string -> Option<N>, tx: string, x: N,
                          o1: Op, ty: string, y: N, o2: Op, tz: string, z: N)
    requires NumberText(tx) && NumberText(ty) && NumberText(tz)
    requires parseNumber(tx) == Some(x)
    requires parseNumber(ty) == Some(y)
    requires parseNumber(tz) == Some(z)
    ensures ParseText(parseNumber, ChainLine(tx, o1, ty, o2, tz))
         == Ok(Line.Expr(
              if InfixBindingPower(o1) <= InfixBindingPower(o2)
              then BinaryOp(o1, Expr.Nb(x), BinaryOp(o2, Expr.Nb(y), Expr.Nb(z)))
              else BinaryOp(o2, BinaryOp(o1, Expr.Nb(x), Expr.Nb(y)), Expr.Nb(z))))
  {
    TextChainNesting(parseNumber, tx, x, o1, ty, y, o2, tz, z, Right);
  }

  /** With the right operand parsed one power higher (`Left`), `x o1 y o2 z`
      nests to the right only when `o2` binds strictly tighter than `o1`. */
  lemma ChainLeft<N>(parseNumber: string -> Option<N>, tx: string, x: N,
                     o1: Op, ty: string, y: N, o2: Op, tz: string, z: N)
    requires NumberText(tx) && NumberText(ty) && NumberText(tz)
    requires parseNumber(tx) == Some(x)
    requires parseNumber(ty) == Some(y)
    requires parseNumber(tz) == Some(z)
    ensures ParseTokens(parseNumber, Tokenize(ChainLine(tx, o1, ty, o2, tz), 0), Left)
         == Ok(Line.Expr(
              if InfixBindingPower(o1) < InfixBindingPower(o2)
              then BinaryOp(o1, Expr.Nb(x), BinaryOp(o2, Expr.Nb(y), Expr.Nb(z)))
              else BinaryOp(o2, BinaryOp(o1, Expr.Nb(x), Expr.Nb(y)), Expr.Nb(z))))
  {
    TextChainNesting(parseNumber, tx, x, o1, ty, y, o2, tz, z, Left);
  }

  /** `8-4-2` is read as `8-(4-2)` as written, and as `(8-4)-2` with `Left`. */
  lemma SubtractionChain<N>(parseNumber: string -> Option<N>, eight: N, four: N, two: N)
    requires parseNumber("8") == Some(eight)
    requires parseNumber("4") == Some(four)
    requires parseNumber("2") == Some(two)
    ensures ParseText(parseNumber, "8-4-2")
         == Ok(Line.Expr(BinaryOp(Sub, Expr.Nb(eight), BinaryOp(Sub, Expr.Nb(four), Expr.Nb(two)))))
    ensures ParseTokens(parseNumber, Tokenize("8-4-2", 0), Left)
         == Ok(Line.Expr(BinaryOp(Sub, BinaryOp(Sub, Expr.Nb(eight), Expr.Nb(four)), Expr.Nb(two))))
  {
    assert ChainLine("8", Sub, "4", Sub, "2") == "8-4-2";
    assert NumberText("8") && NumberText("4") && NumberText("2");
    ChainAsWritten(parseNumber, "8", eight, Sub, "4", four, Sub, "2", two);
    ChainLeft(parseNumber, "8", eight, Sub, "4", four, Sub, "2", two);
  }

  /** `2+3*4` is `2+(3*4)` and `2*3+4` is `(2*3)+4`. */
  lemma Precedence<N>(parseNumber: string -> Option<N>, two: N, three: N, four: N)
    requires parseNumber("2") == Some(two)
    requires parseNumber("3") == Some(three)
    requires parseNumber("4") == Some(four)
    ensures ParseText(parseNumber, "2+3*4")
         == Ok(Line.Expr(BinaryOp(Add, Expr.Nb(two), BinaryOp(Mul, Expr.Nb(three), Expr.Nb(four)))))
    ensures ParseText(parseNumber, "2*3+4")
         == Ok(Line.Expr(BinaryOp(Add, BinaryOp(Mul, Expr.Nb(two), Expr.Nb(three)), Expr.Nb(four))))
  {
    assert ChainLine("2", Add, "3", Mul, "4") == "2+3*4";
    assert ChainLine("2", Mul, "3", Add, "4") == "2*3+4";
    assert NumberText("2") && NumberText("3") && NumberText("4");
    TextChainNesting(parseNumber, "2", two, Add, "3", three, Mul, "4", four, Right);
    TextChainNesting(parseNumber, "2", two, Mul, "3", three, Add, "4", four, Right);
  }

  /** `-2*3` is `(-2)*3`, and `*2-3` is `*(2-3)`. */
  lemma PrefixExamples<N>(parseNumber: string -> Option<N>, two: N, three: N)
    requires parseNumber("2") == Some(two)
    requires parseNumber("3") == Some(three)
    ensures ParseText(parseNumber, "-2*3")
         == Ok(Line.Expr(BinaryOp(Mul, UnaryOp(Sub, Expr.Nb(two)), Expr.Nb(three))))
    ensures ParseText(parseNumber, "*2-3")
         == Ok(Line.Expr(UnaryOp(Mul, BinaryOp(Sub, Expr.Nb(two), Expr.Nb(three)))))
  {
    assert PrefixLine(Sub, "2", Mul, "3") == "-2*3";
    assert PrefixLine(Mul, "2", Sub, "3") == "*2-3";
    assert NumberText("2") && NumberText("3");
    TextPrefixScope(parseNumber, Sub, "2", two, Mul, "3", three, Right);
    TextPrefixScope(parseNumber, Mul, "2", two, Sub, "3", three, Right);
  }

  /** The words of `Render`: every operation in parentheses, numbers written
      by `show`. */
  function RenderWords<N>(show: N -> string, e: Expr<N>): seq<Word> {
    match e
    case Nb(n) => [Number(show(n))]
    case UnaryOp(op, x) => [Punct('('), Punct(OpChar(op))] + RenderWords(show, x) + [Punct(')')]
    case BinaryOp(op, l, r) =>
      [Punct('(')] + RenderWords(show, l) + [Punct(OpChar(op))] + RenderWords(show, r) + [Punct(')')]
    case Fun(name, x) => [Name(name), Punct('(')] + RenderWords(show, x) + [Punct(')')]
  }

  /** The fully parenthesised line of `e`, without spaces. */
  function RenderLine<N>(show: N -> string, e: Expr<N>): string {
    Spell(RenderWords(show, e))
  }

  /** Every number of `e` is written as the lexer reads a number, and every
      function name as it reads a name. */
  ghost predicate Written<N>(show: N -> string, e: Expr<N>) {
    match e
    case Nb(n) => NumberText(show(n))
    case UnaryOp(_, x) => Written(show, x)
    case BinaryOp(_, l, r) => Written(show, l) && Written(show, r)
    case Fun(name, x) => NameText(name) && Written(show, x)
  }

  /** Words between an opening that ends in punctuation and a closing
    punctuation mark. */
  lemma SpacedAround(a: seq<Word>, xs: seq<Word>, c: Word)
    requires Spaced(a) && |a| > 0 && a[|a| - 1].Punct? && Spaced(xs)
    requires c.Punct? && WordOk(c)
    ensures Spaced(a + xs + [c])
  {
    SpacedAppend(a, xs);
    SpacedAppend(a + xs, [c]);
  }

  lemma TokensAround(a: seq<Word>, xs: seq<Word>, c: Word)
    ensures Tokens(a + xs + [c]) == Tokens(a) + Tokens(xs) + [WordToken(c)]
  {
    TokensAppend(a, xs);
    TokensAppend(a + xs, [c]);
    TokensOne(c);
  }

  /** The words of a written expression are spaced. */
  lemma {:induction false} RenderSpaced<N>(show: N -> string, e: Expr<N>)
    requires Written(show, e)
    ensures Spaced(RenderWords(show, e))
  {
    match e
    case Nb(n) =>
    case UnaryOp(op, x) =>
      RenderSpaced(show, x);
      SpacedAround([Punct('('), Punct(OpChar(op))], RenderWords(show, x), Punct(')'));
    case BinaryOp(op, l, r) =>
      RenderSpaced(show, l);
      RenderSpaced(show, r);
      var ls := RenderWords(show, l);
      SpacedAround([Punct('(')], ls, Punct(OpChar(op)));
      SpacedAround([Punct('(')] + ls + [Punct(OpChar(op))], RenderWords(show, r), Punct(')'));
    case Fun(name, x) =>
      RenderSpaced(show, x);
      SpacedAround([Name(name), Punct('(')], RenderWords(show, x), Punct(')'));
  }

  lemma TokensOfUnary(op: Op, xs: seq<Word>)
    ensures Tokens([Punct('('), Punct(OpChar(op))] + xs + [Punct(')')])
            == [Mark(Sep(Open)), Mark(Op(op))] + Tokens(xs) + [Mark(Sep(Close))]
  {
    TokensAround([Punct('('), Punct(OpChar(op))], xs, Punct(')'));
    TokensTwo(Punct('('), Punct(OpChar(op)));
  }

  lemma TokensOfBinary(op: Op, ls: seq<Word>, rs: seq<Word>)
    ensures Tokens([Punct('(')] + ls + [Punct(OpChar(op))] + rs + [Punct(')')])
            == [Mark(Sep(Open))] + Tokens(ls) + [Mark(Op(op))] + Tokens(rs) + [Mark(Sep(Close))]
  {
    var open, mid, close := Punct('('), Punct(OpChar(op)), Punct(')');
    assert WordToken(open) == Mark(Sep(Open)) && WordToken(close) == Mark(Sep(Close));
    assert WordToken(mid) == Mark(Op(op));
    TokensAround([open], ls, mid);
    TokensOne(open);
    TokensAround([open] + ls + [mid], rs, close);
  }

  lemma TokensOfCall(name: string, xs: seq<Word>)
    ensures Tokens([Name(name), Punct('(')] + xs + [Punct(')')])
            == [IdToken(name), Mark(Sep(Open))] + Tokens(xs) + [Mark(Sep(Close))]
  {
    TokensAround([Name(name), Punct('(')], xs, Punct(')'));
    TokensTwo(Name(name), Punct('('));
  }

  lemma UnaryWordTokens<N>(show: N -> string, op: Op, x: Expr<N>)
    requires Tokens(RenderWords(show, x)) == Render(show, x)
    ensures Tokens(RenderWords(show, UnaryOp(op, x))) == Render(show, UnaryOp(op, x))
  {
    TokensOfUnary(op, RenderWords(show, x));
  }

  lemma BinaryWordTokens<N>(show: N -> string, op: Op, l: Expr<N>, r: Expr<N>)
    requires Tokens(RenderWords(show, l)) == Render(show, l)
    requires Tokens(RenderWords(show, r)) == Render(show, r)
    ensures Tokens(RenderWords(show, BinaryOp(op, l, r))) == Render(show, BinaryOp(op, l, r))
  {
    TokensOfBinary(op, RenderWords(show, l), RenderWords(show, r));
  }

  lemma CallWordTokens<N>(show: N -> string, name: string, x: Expr<N>)
    requires Tokens(RenderWords(show, x)) == Render(show, x)
    ensures Tokens(RenderWords(show, Fun(name, x))) == Render(show, Fun(name, x))
  {
    TokensOfCall(name, RenderWords(show, x));
  }

  /** The words of an expression stand for the tokens of its rendering. */
  lemma {:induction false} RenderTokens<N>(show: N -> string, e: Expr<N>)
    ensures Tokens(RenderWords(show, e)) == Render(show, e)
  {
    match e
    case Nb(n) =>
      TokensOne(Number(show(n)));
    case UnaryOp(op, x) =>
      RenderTokens(show, x);
      UnaryWordTokens(show, op, x);
    case BinaryOp(op, l, r) =>
      RenderTokens(show, l);
      RenderTokens(show, r);
      BinaryWordTokens(show, op, l, r);
    case Fun(name, x) =>
      RenderTokens(show, x);
      CallWordTokens(show, name, x);
  }

  /** A fully parenthesised line, as text, parses back to the expression it
      renders, under either nesting rule. */
  lemma TextRoundTrip<N>(parseNumber: string -> Option<N>, show: N -> string, e: Expr<N>, assoc: Assoc)
    requires forall n :: parseNumber(show(n)) == Some(n)
    requires Written(show, e)
    ensures ParseTokens(parseNumber, Tokenize(RenderLine(show, e), 0), assoc) == Ok(Line.Expr(e))
    ensures ParseText(parseNumber, RenderLine(show, e)) == Ok(Line.Expr(e))
  {
    var s := RenderLine(show, e);
    var ws := RenderWords(show, e);
    RenderSpaced(show, e);
    RenderTokens(show, e);
    assert s[0..] == s;
    LexWords(s, 0, ws);
    RoundTrip(parseNumber, show, e, assoc);
    LineAlike(parseNumber, Tokenize(s, 0), Render(show, e) + [Mark(Eof)], assoc);
    RoundTrip(parseNumber, show, e, Right);
    LineAlike(parseNumber, Tokenize(s, 0), Render(show, e) + [Mark(Eof)], Right);
  }
}
