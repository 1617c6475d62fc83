/** What the parser of tml/src/parser.rs promises: how it treats the first
    token of a line, precedence and nesting, the errors of unclosed groups and
    calls, whole-line consumption and a round trip through a fully
    parenthesised rendering. */
module ParsingProps {
  import opened Results
  import opened Lexing
  import opened Parsing

  // Tokens built for the statements below. Each one carries its own text as
  // its source, so that `Splice` gives that text back.

  function NbToken(text: string): Token {
    Token(text, TokenKind.Nb, Span(0, |text|))
  }

  function IdToken(name: string): Token {
    Token(name, Id, Span(0, |name|))
  }

  function Mark(kind: TokenKind): Token {
    Token([], kind, Span(0, 0))
  }

  /** The tokens of an expression with every operation in parentheses:
      `(op x)`, `(l op r)`, `name(x)`; numbers are written by `show`. */
  function Render<N>(show: N -> string, e: Expr<N>): (r: seq<Token>)
    ensures |r| > 0 && r[0].kind in {TokenKind.Nb, Sep(Open), Id}
    ensures forall j | 0 <= j < |r| :: r[j].kind != Eof && r[j].InBounds()
  {
    match e
    case Nb(n) => [NbToken(show(n))]
    case UnaryOp(op, x) => [Mark(Sep(Open)), Mark(Op(op))] + Render(show, x) + [Mark(Sep(Close))]
    case BinaryOp(op, l, r) =>
      [Mark(Sep(Open))] + Render(show, l) + [Mark(Op(op))] + Render(show, r) + [Mark(Sep(Close))]
    case Fun(name, x) => [IdToken(name), Mark(Sep(Open))] + Render(show, x) + [Mark(Sep(Close))]
  }

  lemma StreamCons(t: Token, rest: seq<Token>)
    requires t.kind != Eof && t.InBounds() && IsStream(rest)
    ensures IsStream([t] + rest) && ([t] + rest)[0] == t && ([t] + rest)[1..] == rest
  {
    var toks := [t] + rest;
    assert forall j | 1 <= j < |toks| :: toks[j] == rest[j - 1];
  }

  lemma RenderStream<N>(show: N -> string, e: Expr<N>, tail: seq<Token>)
    requires IsStream(tail)
    ensures IsStream(Render(show, e) + tail)
  {
    var r := Render(show, e);
    assert forall j | 0 <= j < |r| :: (r + tail)[j] == r[j];
    assert forall j | |r| <= j < |r| + |tail| :: (r + tail)[j] == tail[j - |r|];
  }

  lemma Regroup<T>(a: seq<T>, b: seq<T>, c: seq<T>, d: seq<T>, e: seq<T>, f: seq<T>)
    ensures a + b + c + d + e + f == a + (b + (c + (d + (e + f))))
  {
  }

  /** The tokens of `e` followed by a `)` and then `tail`. */
  function Closed<N>(show: N -> string, e: Expr<N>, tail: seq<Token>): seq<Token> {
    Render(show, e) + ([Mark(Sep(Close))] + tail)
  }

  lemma ClosedStream<N>(show: N -> string, e: Expr<N>, tail: seq<Token>)
    requires IsStream(tail)
    ensures IsStream([Mark(Sep(Close))] + tail)
    ensures IsStream(Closed(show, e, tail))
  {
    var close := [Mark(Sep(Close))] + tail;
    assert forall j | 1 <= j < |close| :: close[j] == tail[j - 1];
    RenderStream(show, e, close);
  }

  /** A rendered operand read up to its `)`. */
  lemma ReadClosed<N>(parseNumber: string -> Option<N>, show: N -> string,
                      e: Expr<N>, tail: seq<Token>, minBp: nat, assoc: Assoc)
    requires IsStream(tail) && IsStream(Closed(show, e, tail))
    requires ParseExpr(parseNumber, Closed(show, e, tail), minBp, assoc)
          == ParseInfix(parseNumber, e, [Mark(Sep(Close))] + tail, minBp, assoc)
    ensures ParseExpr(parseNumber, Closed(show, e, tail), minBp, assoc)
         == Ok(Parsed(e, [Mark(Sep(Close))] + tail))
  {
  }

  // One step of the parser each, on a stream whose first token and tail are
  // named, so that the lemmas below never unfold the parser on a concatenation.

  lemma OpenStep<N>(parseNumber: string -> Option<N>, toks: seq<Token>, e: Expr<N>, rest: seq<Token>,
                    minBp: nat, assoc: Assoc)
    requires IsStream(toks) && toks[0] == Mark(Sep(Open)) && IsStream(toks[1..])
    requires ParseGroup(parseNumber, toks[1..], assoc) == Ok(Parsed(e, rest))
    ensures ParseExpr(parseNumber, toks, minBp, assoc) == ParseInfix(parseNumber, e, rest, minBp, assoc)
  {
    assert ParseAtom(parseNumber, toks, assoc) == Ok(Parsed(e, rest));
  }

  lemma IdStep<N>(parseNumber: string -> Option<N>, toks: seq<Token>, e: Expr<N>, rest: seq<Token>,
                  minBp: nat, assoc: Assoc)
    requires IsStream(toks) && toks[0].kind == Id && IsStream(toks[1..])
    requires ParseCall(parseNumber, toks[0], toks[1..], assoc) == Ok(Parsed(e, rest))
    ensures ParseExpr(parseNumber, toks, minBp, assoc) == ParseInfix(parseNumber, e, rest, minBp, assoc)
  {
    assert ParseAtom(parseNumber, toks, assoc) == Ok(Parsed(e, rest));
  }

  lemma PrefixStep<N>(parseNumber: string -> Option<N>, toks: seq<Token>, op: Op, x: Expr<N>,
                      rest: seq<Token>, assoc: Assoc)
    requires IsStream(toks) && toks[0] == Mark(Op(op)) && IsStream(toks[1..])
    requires ParseExpr(parseNumber, toks[1..], PrefixBindingPower(op), assoc) == Ok(Parsed(x, rest))
    ensures ParseAtom(parseNumber, toks, assoc) == Ok(Parsed(UnaryOp(op, x), rest))
  {
  }

  lemma AtomStep<N>(parseNumber: string -> Option<N>, toks: seq<Token>, e: Expr<N>, rest: seq<Token>,
                    minBp: nat, assoc: Assoc)
    requires IsStream(toks) && ParseAtom(parseNumber, toks, assoc) == Ok(Parsed(e, rest))
    ensures IsStream(rest)
    ensures ParseExpr(parseNumber, toks, minBp, assoc) == ParseInfix(parseNumber, e, rest, minBp, assoc)
  {
  }

  lemma CloseStops<N>(parseNumber: string -> Option<N>, e: Expr<N>, toks: seq<Token>, minBp: nat, assoc: Assoc)
    requires IsStream(toks) && !toks[0].kind.Op?
    ensures ParseInfix(parseNumber, e, toks, minBp, assoc) == Ok(Parsed(e, toks))
  {
  }

  lemma WeakerStops<N>(parseNumber: string -> Option<N>, e: Expr<N>, toks: seq<Token>, minBp: nat, assoc: Assoc)
    requires IsStream(toks) && toks[0].kind.Op? && InfixBindingPower(toks[0].kind.op) < minBp
    ensures ParseInfix(parseNumber, e, toks, minBp, assoc) == Ok(Parsed(e, toks))
  {
  }

  lemma AtomError<N>(parseNumber: string -> Option<N>, toks: seq<Token>, m: string, minBp: nat, assoc: Assoc)
    requires IsStream(toks) && ParseAtom(parseNumber, toks, assoc) == Error(m)
    ensures ParseExpr(parseNumber, toks, minBp, assoc) == Error(m)
  {
  }

  lemma GroupUnclosed<N>(parseNumber: string -> Option<N>, toks: seq<Token>, e: Expr<N>, rest: seq<Token>, assoc: Assoc)
    requires IsStream(toks) && ParseExpr(parseNumber, toks, 0, assoc) == Ok(Parsed(e, rest))
    requires rest[0].kind != Sep(Close)
    ensures ParseGroup(parseNumber, toks, assoc) == Error(rest[0].ErrThere("An opened block miss its end, a ')' is missing"))
  {
  }

  lemma OpenError<N>(parseNumber: string -> Option<N>, toks: seq<Token>, m: string, assoc: Assoc)
    requires IsStream(toks) && toks[0] == Mark(Sep(Open)) && IsStream(toks[1..])
    requires ParseGroup(parseNumber, toks[1..], assoc) == Error(m)
    ensures ParseAtom(parseNumber, toks, assoc) == Error(m)
  {
  }

  lemma CallUnclosed<N>(parseNumber: string -> Option<N>, id: Token, toks: seq<Token>, e: Expr<N>,
                        rest: seq<Token>, assoc: Assoc)
    requires IsStream(toks) && id.InBounds() && toks[0] == Mark(Sep(Open)) && IsStream(toks[1..])
    requires ParseExpr(parseNumber, toks[1..], 0, assoc) == Ok(Parsed(e, rest))
    requires rest[0].kind != Sep(Close)
    ensures ParseCall(parseNumber, id, toks, assoc)
         == Error(rest[0].ErrThere("An function invocation miss its end, a ')' is missing"))
  {
  }

  lemma IdError<N>(parseNumber: string -> Option<N>, toks: seq<Token>, m: string, assoc: Assoc)
    requires IsStream(toks) && toks[0].kind == Id && IsStream(toks[1..])
    requires ParseCall(parseNumber, toks[0], toks[1..], assoc) == Error(m)
    ensures ParseAtom(parseNumber, toks, assoc) == Error(m)
  {
  }

  lemma IncompleteAtom<N>(parseNumber: string -> Option<N>, toks: seq<Token>, assoc: Assoc)
    requires IsStream(toks) && toks[0].kind in {Str, Sep(Close), Sep(Sep.Comment), Err, Eof}
    ensures ParseAtom(parseNumber, toks, assoc) == Error(toks[0].ErrThere("Incomplete expression"))
  {
  }

  lemma InfixError<N>(parseNumber: string -> Option<N>, lhs: Expr<N>, toks: seq<Token>, op: Op,
                      m: string, minBp: nat, assoc: Assoc)
    requires IsStream(toks) && toks[0] == Mark(Op(op)) && IsStream(toks[1..])
    requires InfixBindingPower(op) >= minBp
    requires ParseExpr(parseNumber, toks[1..], OperandPower(InfixBindingPower(op), assoc), assoc) == Error(m)
    ensures ParseInfix(parseNumber, lhs, toks, minBp, assoc) == Error(m)
  {
  }

  lemma LineStep<N>(parseNumber: string -> Option<N>, toks: seq<Token>, r: Result<Parsed<N>>, assoc: Assoc)
    requires IsStream(toks) && toks[0].kind != Eof && toks[0].kind != Sep(Sep.Comment)
    requires ParseExpr(parseNumber, toks, 0, assoc) == r
    ensures r.Error? ==> ParseTokens(parseNumber, toks, assoc) == Error(r.msg)
    ensures r.Ok? && r.value.rest[0].kind == Eof ==>
              ParseTokens(parseNumber, toks, assoc) == Ok(Line.Expr(r.value.expr))
    ensures r.Ok? && r.value.rest[0].kind != Eof ==>
              ParseTokens(parseNumber, toks, assoc) == Error(r.value.rest[0].ErrThere("Invalid expression"))
  {
  }

  lemma InfixStep<N>(parseNumber: string -> Option<N>, lhs: Expr<N>, toks: seq<Token>, op: Op,
                     rhs: Expr<N>, rest: seq<Token>, minBp: nat, assoc: Assoc)
    requires IsStream(toks) && toks[0] == Mark(Op(op)) && IsStream(toks[1..])
    requires InfixBindingPower(op) >= minBp
    requires ParseExpr(parseNumber, toks[1..], OperandPower(InfixBindingPower(op), assoc), assoc)
          == Ok(Parsed(rhs, rest))
    ensures IsStream(rest)
    ensures ParseInfix(parseNumber, lhs, toks, minBp, assoc)
         == ParseInfix(parseNumber, BinaryOp(op, lhs, rhs), rest, minBp, assoc)
  {
  }

  lemma GroupStep<N>(parseNumber: string -> Option<N>, toks: seq<Token>, e: Expr<N>, close: seq<Token>, assoc: Assoc)
    requires IsStream(toks) && ParseExpr(parseNumber, toks, 0, assoc) == Ok(Parsed(e, close))
    requires close[0] == Mark(Sep(Close))
    ensures IsStream(close[1..])
    ensures ParseGroup(parseNumber, toks, assoc) == Ok(Parsed(e, close[1..]))
  {
    StreamTail(close);
  }

  lemma ArgsStep<N>(parseNumber: string -> Option<N>, id: Token, toks: seq<Token>, x: Expr<N>,
                    close: seq<Token>, assoc: Assoc)
    requires IsStream(toks) && id.InBounds() && toks[0] == Mark(Sep(Open)) && IsStream(toks[1..])
    requires ParseExpr(parseNumber, toks[1..], 0, assoc) == Ok(Parsed(x, close))
    requires close[0] == Mark(Sep(Close))
    ensures IsStream(close[1..])
    ensures ParseCall(parseNumber, id, toks, assoc) == Ok(Parsed(Fun(id.Splice(), x), close[1..]))
  {
    StreamTail(close);
  }

  lemma UnaryTokens<N>(show: N -> string, op: Op, x: Expr<N>, tail: seq<Token>)
    ensures Render(show, UnaryOp(op, x)) + tail == [Mark(Sep(Open))] + ([Mark(Op(op))] + Closed(show, x, tail))
  {
    var a, b, c := [Mark(Sep(Open))], [Mark(Op(op))], Render(show, x);
    var d := [Mark(Sep(Close))];
    assert Render(show, UnaryOp(op, x)) == a + b + c + d by {
      assert [Mark(Sep(Open)), Mark(Op(op))] == a + b;
    }
    assert a + b + c + d + tail == a + (b + (c + (d + tail)));
  }

  lemma UnaryStep<N>(parseNumber: string -> Option<N>, show: N -> string,
                     op: Op, x: Expr<N>, tail: seq<Token>, minBp: nat, assoc: Assoc)
    requires IsStream(tail) && IsStream(Closed(show, x, tail))
    requires IsStream(Render(show, UnaryOp(op, x)) + tail)
    requires ParseExpr(parseNumber, Closed(show, x, tail), PrefixBindingPower(op), assoc)
          == Ok(Parsed(x, [Mark(Sep(Close))] + tail))
    ensures ParseExpr(parseNumber, Render(show, UnaryOp(op, x)) + tail, minBp, assoc)
         == ParseInfix(parseNumber, UnaryOp(op, x), tail, minBp, assoc)
  {
    var e := UnaryOp(op, x);
    var toks := Render(show, e) + tail;
    var inner := [Mark(Op(op))] + Closed(show, x, tail);
    var close := [Mark(Sep(Close))] + tail;
    UnaryTokens(show, op, x, tail);
    assert toks[0] == Mark(Sep(Open)) && toks[1..] == inner;
    StreamTail(toks);
    assert inner[0] == Mark(Op(op)) && inner[1..] == Closed(show, x, tail);
    PrefixStep(parseNumber, inner, op, x, close, assoc);
    AtomStep(parseNumber, inner, e, close, 0, assoc);
    CloseStops(parseNumber, e, close, 0, assoc);
    GroupStep(parseNumber, inner, e, close, assoc);
    assert close[1..] == tail;
    OpenStep(parseNumber, toks, e, tail, minBp, assoc);
  }

  lemma BinaryTokens<N>(show: N -> string, op: Op, l: Expr<N>, r: Expr<N>, tail: seq<Token>)
    ensures Render(show, BinaryOp(op, l, r)) + tail
         == [Mark(Sep(Open))] + (Render(show, l) + ([Mark(Op(op))] + Closed(show, r, tail)))
  {
    Regroup([Mark(Sep(Open))], Render(show, l), [Mark(Op(op))], Render(show, r), [Mark(Sep(Close))], tail);
  }

  lemma BinaryStep<N>(parseNumber: string -> Option<N>, show: N -> string,
                      op: Op, l: Expr<N>, r: Expr<N>, tail: seq<Token>, minBp: nat, assoc: Assoc)
    requires IsStream(tail) && IsStream(Closed(show, r, tail))
    requires IsStream([Mark(Op(op))] + Closed(show, r, tail))
    requires IsStream(Render(show, l) + ([Mark(Op(op))] + Closed(show, r, tail)))
    requires IsStream(Render(show, BinaryOp(op, l, r)) + tail)
    requires ParseExpr(parseNumber, Render(show, l) + ([Mark(Op(op))] + Closed(show, r, tail)), 0, assoc)
          == ParseInfix(parseNumber, l, [Mark(Op(op))] + Closed(show, r, tail), 0, assoc)
    requires ParseExpr(parseNumber, Closed(show, r, tail), OperandPower(InfixBindingPower(op), assoc), assoc)
          == Ok(Parsed(r, [Mark(Sep(Close))] + tail))
    ensures ParseExpr(parseNumber, Render(show, BinaryOp(op, l, r)) + tail, minBp, assoc)
         == ParseInfix(parseNumber, BinaryOp(op, l, r), tail, minBp, assoc)
  {
    var e := BinaryOp(op, l, r);
    var toks := Render(show, e) + tail;
    var close := [Mark(Sep(Close))] + tail;
    var mid := [Mark(Op(op))] + Closed(show, r, tail);
    var inner := Render(show, l) + mid;
    BinaryTokens(show, op, l, r, tail);
    assert toks[0] == Mark(Sep(Open)) && toks[1..] == inner;
    assert mid[0] == Mark(Op(op)) && mid[1..] == Closed(show, r, tail);
    InfixStep(parseNumber, l, mid, op, r, close, 0, assoc);
    CloseStops(parseNumber, e, close, 0, assoc);
    GroupStep(parseNumber, inner, e, close, assoc);
    assert close[1..] == tail;
    OpenStep(parseNumber, toks, e, tail, minBp, assoc);
  }

  lemma CallTokens<N>(show: N -> string, name: string, x: Expr<N>, tail: seq<Token>)
    ensures Render(show, Fun(name, x)) + tail == [IdToken(name)] + ([Mark(Sep(Open))] + Closed(show, x, tail))
  {
    var a, b, c := [IdToken(name)], [Mark(Sep(Open))], Render(show, x);
    var d := [Mark(Sep(Close))];
    assert Render(show, Fun(name, x)) == a + b + c + d by {
      assert [IdToken(name), Mark(Sep(Open))] == a + b;
    }
    assert a + b + c + d + tail == a + (b + (c + (d + tail)));
  }

  lemma CallStep<N>(parseNumber: string -> Option<N>, show: N -> string,
                    name: string, x: Expr<N>, tail: seq<Token>, minBp: nat, assoc: Assoc)
    requires IsStream(tail) && IsStream(Closed(show, x, tail))
    requires IsStream(Render(show, Fun(name, x)) + tail)
    requires ParseExpr(parseNumber, Closed(show, x, tail), 0, assoc)
          == Ok(Parsed(x, [Mark(Sep(Close))] + tail))
    ensures ParseExpr(parseNumber, Render(show, Fun(name, x)) + tail, minBp, assoc)
         == ParseInfix(parseNumber, Fun(name, x), tail, minBp, assoc)
  {
    var e := Fun(name, x);
    var toks := Render(show, e) + tail;
    var close := [Mark(Sep(Close))] + tail;
    var args := [Mark(Sep(Open))] + Closed(show, x, tail);
    CallTokens(show, name, x, tail);
    assert toks[0] == IdToken(name) && toks[1..] == args;
    StreamTail(toks);
    assert args[0] == Mark(Sep(Open)) && args[1..] == Closed(show, x, tail);
    assert IdToken(name).Splice() == name;
    ArgsStep(parseNumber, IdToken(name), args, x, close, assoc);
    assert close[1..] == tail;
    IdStep(parseNumber, toks, e, tail, minBp, assoc);
  }

  /** Parsing the rendering of `e` yields `e` and carries on after it exactly
      as if `e` had already been read, whatever follows and whatever the
      power and the nesting rule. */
  lemma {:induction false} ParseRendered<N>(parseNumber: string -> Option<N>, show: N -> string,
                                            e: Expr<N>, tail: seq<Token>, minBp: nat, assoc: Assoc)
    requires forall n :: parseNumber(show(n)) == Some(n)
    requires IsStream(tail)
    ensures IsStream(Render(show, e) + tail)
    ensures ParseExpr(parseNumber, Render(show, e) + tail, minBp, assoc)
         == ParseInfix(parseNumber, e, tail, minBp, assoc)
  {
    RenderStream(show, e, tail);
    match e
    case Nb(n) =>
      assert NbToken(show(n)).Splice() == show(n);
    case UnaryOp(op, x) =>
      ClosedStream(show, x, tail);
      ParseRendered(parseNumber, show, x, [Mark(Sep(Close))] + tail, PrefixBindingPower(op), assoc);
      ReadClosed(parseNumber, show, x, tail, PrefixBindingPower(op), assoc);
      UnaryStep(parseNumber, show, op, x, tail, minBp, assoc);
    case BinaryOp(op, l, r) =>
      var bp := OperandPower(InfixBindingPower(op), assoc);
      ClosedStream(show, r, tail);
      ParseRendered(parseNumber, show, r, [Mark(Sep(Close))] + tail, bp, assoc);
      ReadClosed(parseNumber, show, r, tail, bp, assoc);
      var mid := [Mark(Op(op))] + Closed(show, r, tail);
      StreamCons(Mark(Op(op)), Closed(show, r, tail));
      ParseRendered(parseNumber, show, l, mid, 0, assoc);
      BinaryStep(parseNumber, show, op, l, r, tail, minBp, assoc);
    case Fun(name, x) =>
      ClosedStream(show, x, tail);
      ParseRendered(parseNumber, show, x, [Mark(Sep(Close))] + tail, 0, assoc);
      ReadClosed(parseNumber, show, x, tail, 0, assoc);
      CallStep(parseNumber, show, name, x, tail, minBp, assoc);
  }

  /** A fully parenthesised rendering, alone on its line, parses back to the
      expression it renders. */
  lemma RoundTrip<N>(parseNumber: string -> Option<N>, show: N -> string, e: Expr<N>, assoc: Assoc)
    requires forall n :: parseNumber(show(n)) == Some(n)
    ensures IsStream(Render(show, e) + [Mark(Eof)])
    ensures ParseTokens(parseNumber, Render(show, e) + [Mark(Eof)], assoc) == Ok(Line.Expr(e))
  {
    ParseRendered(parseNumber, show, e, [Mark(Eof)], 0, assoc);
  }

  /** The tokens of `x o1 y o2 z`, the numbers written `tx`, `ty`, `tz`. */
  function Chain(tx: string, o1: Op, ty: string, o2: Op, tz: string): seq<Token> {
    [NbToken(tx), Mark(Op(o1)), NbToken(ty), Mark(Op(o2)), NbToken(tz), Mark(Eof)]
  }

  /** A number token is read as that number. */
  lemma NumberFirst<N>(parseNumber: string -> Option<N>, tx: string,
                       x: N, rest: seq<Token>, minBp: nat, assoc: Assoc)
    requires parseNumber(tx) == Some(x)
    requires IsStream(rest)
    ensures IsStream([NbToken(tx)] + rest)
    ensures ParseExpr(parseNumber, [NbToken(tx)] + rest, minBp, assoc)
         == ParseInfix(parseNumber, Expr.Nb(x), rest, minBp, assoc)
  {
    var toks := [NbToken(tx)] + rest;
    assert forall j | 1 <= j < |toks| :: toks[j] == rest[j - 1];
    assert toks[1..] == rest;
    assert NbToken(tx).Splice() == tx;
  }

  /** The three streams that end `x o1 y o2 z`. */
  lemma ChainStreams(tx: string, o1: Op, ty: string, o2: Op, tz: string)
    ensures var toks := Chain(tx, o1, ty, o2, tz);
            && IsStream(toks) && IsStream(toks[1..]) && IsStream(toks[2..])
            && IsStream(toks[3..]) && IsStream(toks[4..]) && IsStream(toks[5..])
            && toks[1..][1..] == toks[2..] && toks[3..][1..] == toks[4..]
            && toks == [NbToken(tx)] + toks[1..]
            && toks[2..] == [NbToken(ty)] + toks[3..]
            && toks[4..] == [NbToken(tz)] + toks[5..]
  {
  }

  lemma ChainRightNested<N>(parseNumber: string -> Option<N>, tx: string, x: N,
                            o1: Op, ty: string, y: N, o2: Op, tz: string, z: N, assoc: Assoc)
    requires parseNumber(tx) == Some(x)
    requires parseNumber(ty) == Some(y)
    requires parseNumber(tz) == Some(z)
    requires InfixBindingPower(o2) >= OperandPower(InfixBindingPower(o1), assoc)
    ensures IsStream(Chain(tx, o1, ty, o2, tz))
    ensures ParseTokens(parseNumber, Chain(tx, o1, ty, o2, tz), assoc)
         == Ok(Line.Expr(BinaryOp(o1, Expr.Nb(x), BinaryOp(o2, Expr.Nb(y), Expr.Nb(z)))))
  {
    var toks := Chain(tx, o1, ty, o2, tz);
    ChainStreams(tx, o1, ty, o2, tz);
    var bp1 := OperandPower(InfixBindingPower(o1), assoc);
    var bp2 := OperandPower(InfixBindingPower(o2), assoc);
    NumberFirst(parseNumber, tz, z, toks[5..], bp2, assoc);
    NumberFirst(parseNumber, ty, y, toks[3..], bp1, assoc);
    NumberFirst(parseNumber, tx, x, toks[1..], 0, assoc);
    var yz := BinaryOp(o2, Expr.Nb(y), Expr.Nb(z));
    assert ParseInfix(parseNumber, Expr.Nb(y), toks[3..], bp1, assoc) == Ok(Parsed(yz, toks[5..]));
    assert ParseInfix(parseNumber, Expr.Nb(x), toks[1..], 0, assoc)
        == Ok(Parsed(BinaryOp(o1, Expr.Nb(x), yz), toks[5..]));
  }

  lemma ChainLeftNested<N>(parseNumber: string -> Option<N>, tx: string, x: N,
                           o1: Op, ty: string, y: N, o2: Op, tz: string, z: N, assoc: Assoc)
    requires parseNumber(tx) == Some(x)
    requires parseNumber(ty) == Some(y)
    requires parseNumber(tz) == Some(z)
    requires InfixBindingPower(o2) < OperandPower(InfixBindingPower(o1), assoc)
    ensures IsStream(Chain(tx, o1, ty, o2, tz))
    ensures ParseTokens(parseNumber, Chain(tx, o1, ty, o2, tz), assoc)
         == Ok(Line.Expr(BinaryOp(o2, BinaryOp(o1, Expr.Nb(x), Expr.Nb(y)), Expr.Nb(z))))
  {
    var toks := Chain(tx, o1, ty, o2, tz);
    ChainStreams(tx, o1, ty, o2, tz);
    var bp1 := OperandPower(InfixBindingPower(o1), assoc);
    var bp2 := OperandPower(InfixBindingPower(o2), assoc);
    NumberFirst(parseNumber, tz, z, toks[5..], bp2, assoc);
    NumberFirst(parseNumber, ty, y, toks[3..], bp1, assoc);
    NumberFirst(parseNumber, tx, x, toks[1..], 0, assoc);
    var xy := BinaryOp(o1, Expr.Nb(x), Expr.Nb(y));
    assert ParseInfix(parseNumber, xy, toks[3..], 0, assoc)
        == Ok(Parsed(BinaryOp(o2, xy, Expr.Nb(z)), toks[5..]));
    assert ParseInfix(parseNumber, Expr.Nb(x), toks[1..], 0, assoc)
        == Ok(Parsed(BinaryOp(o2, xy, Expr.Nb(z)), toks[5..]));
  }

  /** `x o1 y o2 z` nests to the right exactly when the power of `o2` reaches
      the power at which the right operand of `o1` is parsed. */
  lemma ChainNesting<N>(parseNumber: string -> Option<N>, tx: string, x: N,
                        o1: Op, ty: string, y: N, o2: Op, tz: string, z: N, assoc: Assoc)
    requires parseNumber(tx) == Some(x)
    requires parseNumber(ty) == Some(y)
    requires parseNumber(tz) == Some(z)
    ensures IsStream(Chain(tx, o1, ty, o2, tz))
    ensures ParseTokens(parseNumber, Chain(tx, o1, ty, o2, tz), assoc)
         == Ok(Line.Expr(
              if InfixBindingPower(o2) >= OperandPower(InfixBindingPower(o1), assoc)
              then BinaryOp(o1, Expr.Nb(x), BinaryOp(o2, Expr.Nb(y), Expr.Nb(z)))
              else BinaryOp(o2, BinaryOp(o1, Expr.Nb(x), Expr.Nb(y)), Expr.Nb(z))))
  {
    if InfixBindingPower(o2) >= OperandPower(InfixBindingPower(o1), assoc) {
      ChainRightNested(parseNumber, tx, x, o1, ty, y, o2, tz, z, assoc);
    } else {
      ChainLeftNested(parseNumber, tx, x, o1, ty, y, o2, tz, z, assoc);
    }
  }

  /** The tokens of `o x o2 y`, the numbers written `tx` and `ty`. */
  function Prefixed(o: Op, tx: string, o2: Op, ty: string): seq<Token> {
    [Mark(Op(o)), NbToken(tx), Mark(Op(o2)), NbToken(ty), Mark(Eof)]
  }

  lemma PrefixedStreams(o: Op, tx: string, o2: Op, ty: string)
    ensures var toks := Prefixed(o, tx, o2, ty);
            && IsStream(toks) && IsStream(toks[1..]) && IsStream(toks[2..])
            && IsStream(toks[3..]) && IsStream(toks[4..])
            && toks[0] == Mark(Op(o)) && toks[2..][0] == Mark(Op(o2))
            && toks[2..][1..] == toks[3..] && toks[4..][0].kind == Eof
            && toks[1..] == [NbToken(tx)] + toks[2..]
            && toks[3..] == [NbToken(ty)] + toks[4..]
  {
  }

  /** `o x o2 y` for a prefix `+` or `-`: `(o x) o2 y`. */
  lemma PrefixTight<N>(parseNumber: string -> Option<N>,
                       o: Op, tx: string, x: N, o2: Op, ty: string, y: N, assoc: Assoc)
    requires parseNumber(tx) == Some(x)
    requires parseNumber(ty) == Some(y)
    requires o == Add || o == Sub
    ensures IsStream(Prefixed(o, tx, o2, ty))
    ensures ParseTokens(parseNumber, Prefixed(o, tx, o2, ty), assoc)
         == Ok(Line.Expr(BinaryOp(o2, UnaryOp(o, Expr.Nb(x)), Expr.Nb(y))))
  {
    var toks := Prefixed(o, tx, o2, ty);
    PrefixedStreams(o, tx, o2, ty);
    var bp2 := OperandPower(InfixBindingPower(o2), assoc);
    NumberFirst(parseNumber, ty, y, toks[4..], bp2, assoc);
    CloseStops(parseNumber, Expr.Nb(y), toks[4..], bp2, assoc);
    NumberFirst(parseNumber, tx, x, toks[2..], PrefixBindingPower(o), assoc);
    WeakerStops(parseNumber, Expr.Nb(x), toks[2..], PrefixBindingPower(o), assoc);
    var ux := UnaryOp(o, Expr.Nb(x));
    var e := BinaryOp(o2, ux, Expr.Nb(y));
    PrefixStep(parseNumber, toks, o, Expr.Nb(x), toks[2..], assoc);
    AtomStep(parseNumber, toks, ux, toks[2..], 0, assoc);
    InfixStep(parseNumber, ux, toks[2..], o2, Expr.Nb(y), toks[4..], 0, assoc);
    CloseStops(parseNumber, e, toks[4..], 0, assoc);
    LineStep(parseNumber, toks, Ok(Parsed(e, toks[4..])), assoc);
  }

  /** `o x o2 y` for a prefix `*`, `/` or `%`: `o (x o2 y)`. */
  lemma PrefixLoose<N>(parseNumber: string -> Option<N>,
                       o: Op, tx: string, x: N, o2: Op, ty: string, y: N, assoc: Assoc)
    requires parseNumber(tx) == Some(x)
    requires parseNumber(ty) == Some(y)
    requires !(o == Add || o == Sub)
    ensures IsStream(Prefixed(o, tx, o2, ty))
    ensures ParseTokens(parseNumber, Prefixed(o, tx, o2, ty), assoc)
         == Ok(Line.Expr(UnaryOp(o, BinaryOp(o2, Expr.Nb(x), Expr.Nb(y)))))
  {
    var toks := Prefixed(o, tx, o2, ty);
    PrefixedStreams(o, tx, o2, ty);
    var bp2 := OperandPower(InfixBindingPower(o2), assoc);
    NumberFirst(parseNumber, ty, y, toks[4..], bp2, assoc);
    CloseStops(parseNumber, Expr.Nb(y), toks[4..], bp2, assoc);
    NumberFirst(parseNumber, tx, x, toks[2..], 0, assoc);
    var xy := BinaryOp(o2, Expr.Nb(x), Expr.Nb(y));
    var e := UnaryOp(o, xy);
    InfixStep(parseNumber, Expr.Nb(x), toks[2..], o2, Expr.Nb(y), toks[4..], 0, assoc);
    CloseStops(parseNumber, xy, toks[4..], 0, assoc);
    PrefixStep(parseNumber, toks, o, xy, toks[4..], assoc);
    AtomStep(parseNumber, toks, e, toks[4..], 0, assoc);
    CloseStops(parseNumber, e, toks[4..], 0, assoc);
    LineStep(parseNumber, toks, Ok(Parsed(e, toks[4..])), assoc);
  }

  /** A prefix `+` or `-` takes only the number after it (`-2*3` is
      `(-2)*3`); a prefix `*`, `/` or `%` takes the whole rest of the line. */
  lemma PrefixScope<N>(parseNumber: string -> Option<N>,
                       o: Op, tx: string, x: N, o2: Op, ty: string, y: N, assoc: Assoc)
    requires parseNumber(tx) == Some(x)
    requires parseNumber(ty) == Some(y)
    ensures IsStream(Prefixed(o, tx, o2, ty))
    ensures ParseTokens(parseNumber, Prefixed(o, tx, o2, ty), assoc)
         == Ok(Line.Expr(
              if o == Add || o == Sub
              then BinaryOp(o2, UnaryOp(o, Expr.Nb(x)), Expr.Nb(y))
              else UnaryOp(o, BinaryOp(o2, Expr.Nb(x), Expr.Nb(y)))))
  {
    if o == Add || o == Sub {
      PrefixTight(parseNumber, o, tx, x, o2, ty, y, assoc);
    } else {
      PrefixLoose(parseNumber, o, tx, x, o2, ty, y, assoc);
    }
  }

  /** What the first token of a line decides on its own: only Eof gives an
      empty line, only `#` a comment at its position, and a string, a `)` or
      an error token cannot start an expression. */
  lemma LeadingToken<N>(parseNumber: string -> Option<N>, toks: seq<Token>, assoc: Assoc, p: nat)
    requires IsStream(toks)
    ensures ParseTokens(parseNumber, toks, assoc) == Ok(Empty) <==> toks[0].kind == Eof
    ensures ParseTokens(parseNumber, toks, assoc) == Ok(Line.Comment(p)) <==>
              toks[0].kind == Sep(Sep.Comment) && p == toks[0].span.start
    ensures toks[0].kind in {Str, Sep(Close), Err} ==>
              ParseTokens(parseNumber, toks, assoc) == Error(toks[0].ErrThere("Incomplete expression"))
  {
    var first := toks[0];
    if first.kind != Eof && first.kind != Sep(Sep.Comment) {
      if first.kind in {Str, Sep(Close), Err} {
        assert ParseAtom(parseNumber, toks, assoc) == Error(first.ErrThere("Incomplete expression"));
      }
      match ParseExpr(parseNumber, toks, 0, assoc)
      case Error(m) =>
      case Ok(Parsed(e, rest)) =>
    }
  }

  /** An operator followed by a token that cannot start an operand: `2+`,
      `2*)`, `2-#`, `2+"a"`. */
  lemma MissingOperand<N>(parseNumber: string -> Option<N>, tx: string,
                          x: N, op: Op, rest: seq<Token>, assoc: Assoc)
    requires parseNumber(tx) == Some(x)
    requires IsStream(rest) && rest[0].kind in {Str, Sep(Close), Sep(Sep.Comment), Err, Eof}
    ensures IsStream([NbToken(tx), Mark(Op(op))] + rest)
    ensures ParseTokens(parseNumber, [NbToken(tx), Mark(Op(op))] + rest, assoc)
         == Error(rest[0].ErrThere("Incomplete expression"))
  {
    var toks := [NbToken(tx), Mark(Op(op))] + rest;
    var tail := [Mark(Op(op))] + rest;
    StreamCons(Mark(Op(op)), rest);
    assert toks == [NbToken(tx)] + tail;
    NumberFirst(parseNumber, tx, x, tail, 0, assoc);
    var m := rest[0].ErrThere("Incomplete expression");
    IncompleteAtom(parseNumber, rest, assoc);
    AtomError(parseNumber, rest, m, OperandPower(InfixBindingPower(op), assoc), assoc);
    InfixError(parseNumber, Expr.Nb(x), tail, op, m, 0, assoc);
    LineStep(parseNumber, toks, Error(m), assoc);
  }

  /** A group whose content is not followed by `)`. */
  lemma UnclosedGroup<N>(parseNumber: string -> Option<N>, show: N -> string,
                         e: Expr<N>, rest: seq<Token>, assoc: Assoc)
    requires forall n :: parseNumber(show(n)) == Some(n)
    requires IsStream(rest) && rest[0].kind != Sep(Close) && !rest[0].kind.Op?
    ensures IsStream([Mark(Sep(Open))] + (Render(show, e) + rest))
    ensures ParseTokens(parseNumber, [Mark(Sep(Open))] + (Render(show, e) + rest), assoc)
         == Error(rest[0].ErrThere("An opened block miss its end, a ')' is missing"))
  {
    var inner := Render(show, e) + rest;
    ParseRendered(parseNumber, show, e, rest, 0, assoc);
    CloseStops(parseNumber, e, rest, 0, assoc);
    var toks := [Mark(Sep(Open))] + inner;
    StreamCons(Mark(Sep(Open)), inner);
    var m := rest[0].ErrThere("An opened block miss its end, a ')' is missing");
    GroupUnclosed(parseNumber, inner, e, rest, assoc);
    OpenError(parseNumber, toks, m, assoc);
    AtomError(parseNumber, toks, m, 0, assoc);
    LineStep(parseNumber, toks, Error(m), assoc);
  }

  /** A name that is not followed by `(`; a bare name such as `PI` is one. */
  lemma CallWithoutArguments<N>(parseNumber: string -> Option<N>, name: string,
                                rest: seq<Token>, assoc: Assoc)
    requires IsStream(rest) && rest[0].kind != Sep(Open)
    ensures IsStream([IdToken(name)] + rest)
    ensures ParseTokens(parseNumber, [IdToken(name)] + rest, assoc)
         == Error(rest[0].ErrThere("A function invocation miss its arguments, a '(' is missing"))
  {
    var toks := [IdToken(name)] + rest;
    assert toks[1..] == rest;
    assert IsStream(toks) by {
      assert forall j | 1 <= j < |toks| :: toks[j] == rest[j - 1];
    }
    var err := Error(rest[0].ErrThere("A function invocation miss its arguments, a '(' is missing"));
    assert ParseCall(parseNumber, IdToken(name), rest, assoc) == err;
    assert ParseAtom(parseNumber, toks, assoc) == err;
    assert ParseExpr(parseNumber, toks, 0, assoc) == err;
  }

  /** A call whose argument is not followed by `)`. */
  lemma UnclosedCall<N>(parseNumber: string -> Option<N>, show: N -> string,
                        name: string, e: Expr<N>, rest: seq<Token>, assoc: Assoc)
    requires forall n :: parseNumber(show(n)) == Some(n)
    requires IsStream(rest) && rest[0].kind != Sep(Close) && !rest[0].kind.Op?
    ensures IsStream([IdToken(name)] + ([Mark(Sep(Open))] + (Render(show, e) + rest)))
    ensures ParseTokens(parseNumber, [IdToken(name)] + ([Mark(Sep(Open))] + (Render(show, e) + rest)), assoc)
         == Error(rest[0].ErrThere("An function invocation miss its end, a ')' is missing"))
  {
    var inner := Render(show, e) + rest;
    ParseRendered(parseNumber, show, e, rest, 0, assoc);
    CloseStops(parseNumber, e, rest, 0, assoc);
    var args := [Mark(Sep(Open))] + inner;
    var toks := [IdToken(name)] + args;
    StreamCons(Mark(Sep(Open)), inner);
    StreamCons(IdToken(name), args);
    var m := rest[0].ErrThere("An function invocation miss its end, a ')' is missing");
    CallUnclosed(parseNumber, IdToken(name), args, e, rest, assoc);
    IdError(parseNumber, toks, m, assoc);
    AtomError(parseNumber, toks, m, 0, assoc);
    LineStep(parseNumber, toks, Error(m), assoc);
  }

  /** A complete expression followed by a token that neither continues it
      nor ends the line. */
  lemma TrailingToken<N>(parseNumber: string -> Option<N>, show: N -> string,
                         e: Expr<N>, rest: seq<Token>, assoc: Assoc)
    requires forall n :: parseNumber(show(n)) == Some(n)
    requires IsStream(rest) && rest[0].kind != Eof && !rest[0].kind.Op?
    ensures IsStream(Render(show, e) + rest)
    ensures ParseTokens(parseNumber, Render(show, e) + rest, assoc)
         == Error(rest[0].ErrThere("Invalid expression"))
  {
    ParseRendered(parseNumber, show, e, rest, 0, assoc);
  }

  /** A number token that `parseNumber` refuses. */
  lemma InvalidNumber<N>(parseNumber: string -> Option<N>, text: string, rest: seq<Token>, assoc: Assoc)
    requires parseNumber(text) == None
    requires IsStream(rest)
    ensures IsStream([NbToken(text)] + rest)
    ensures ParseTokens(parseNumber, [NbToken(text)] + rest, assoc)
         == Error(NbToken(text).ErrThere("Invalid Number"))
  {
    var toks := [NbToken(text)] + rest;
    assert IsStream(toks) by {
      assert forall j | 1 <= j < |toks| :: toks[j] == rest[j - 1];
    }
    assert NbToken(text).Splice() == text;
    var err := Error(NbToken(text).ErrThere("Invalid Number"));
    assert ParseAtom(parseNumber, toks, assoc) == err;
    assert ParseExpr(parseNumber, toks, 0, assoc) == err;
  }

  /** A line parses as a comment at `p` exactly when its first character
      that is not whitespace is a `#` at `p`. */
  lemma CommentLine<N>(parseNumber: string -> Option<N>, line: string, p: nat)
    ensures ParseText(parseNumber, line) == Ok(Line.Comment(p)) <==>
              && p < |line| && line[p] == '#'
              && forall k | 0 <= k < p :: IsWhitespace(line[k])
  {
    LeadingToken(parseNumber, Tokenize(line, 0), Right, p);
    CommentShape(line, p);
  }

  /** `rest` is what is left of `toks` after reading some of it. */
  ghost predicate SuffixOf(rest: seq<Token>, toks: seq<Token>) {
    |rest| <= |toks| && rest == toks[|toks| - |rest|..]
  }

  lemma SuffixTrans(a: seq<Token>, b: seq<Token>, c: seq<Token>)
    requires SuffixOf(a, b) && SuffixOf(b, c)
    ensures SuffixOf(a, c)
  {
    assert c[|c| - |b|..][|b| - |a|..] == c[|c| - |a|..];
  }

  lemma {:induction false} AtomSuffix<N>(parseNumber: string -> Option<N>, toks: seq<Token>, assoc: Assoc)
    requires IsStream(toks)
    ensures ParseAtom(parseNumber, toks, assoc).Ok? ==>
              SuffixOf(ParseAtom(parseNumber, toks, assoc).value.rest, toks)
    decreases |toks|, 1
  {
    var token := toks[0];
    if token.kind != Eof {
      StreamTail(toks);
      match token.kind
      case Sep(Open) =>
        GroupSuffix(parseNumber, toks[1..], assoc);
        if ParseGroup(parseNumber, toks[1..], assoc).Ok? {
          SuffixTrans(ParseGroup(parseNumber, toks[1..], assoc).value.rest, toks[1..], toks);
        }
      case Id =>
        CallSuffix(parseNumber, token, toks[1..], assoc);
        if ParseCall(parseNumber, token, toks[1..], assoc).Ok? {
          SuffixTrans(ParseCall(parseNumber, token, toks[1..], assoc).value.rest, toks[1..], toks);
        }
      case Op(op) =>
        ExprSuffix(parseNumber, toks[1..], PrefixBindingPower(op), assoc);
        if ParseExpr(parseNumber, toks[1..], PrefixBindingPower(op), assoc).Ok? {
          SuffixTrans(ParseExpr(parseNumber, toks[1..], PrefixBindingPower(op), assoc).value.rest, toks[1..], toks);
        }
      case _ =>
    }
  }

  lemma {:induction false} GroupSuffix<N>(parseNumber: string -> Option<N>, toks: seq<Token>, assoc: Assoc)
    requires IsStream(toks)
    ensures ParseGroup(parseNumber, toks, assoc).Ok? ==>
              SuffixOf(ParseGroup(parseNumber, toks, assoc).value.rest, toks)
    decreases |toks|, 3
  {
    ExprSuffix(parseNumber, toks, 0, assoc);
    var r := ParseExpr(parseNumber, toks, 0, assoc);
    if r.Ok? && r.value.rest[0].kind == Sep(Close) {
      StreamTail(r.value.rest);
      SuffixTrans(r.value.rest[1..], r.value.rest, toks);
    }
  }

  lemma {:induction false} CallSuffix<N>(parseNumber: string -> Option<N>, id: Token, toks: seq<Token>, assoc: Assoc)
    requires IsStream(toks) && id.InBounds()
    ensures ParseCall(parseNumber, id, toks, assoc).Ok? ==>
              SuffixOf(ParseCall(parseNumber, id, toks, assoc).value.rest, toks)
    decreases |toks|, 3
  {
    if toks[0].kind == Sep(Open) {
      StreamTail(toks);
      ExprSuffix(parseNumber, toks[1..], 0, assoc);
      var r := ParseExpr(parseNumber, toks[1..], 0, assoc);
      if r.Ok? && r.value.rest[0].kind == Sep(Close) {
        StreamTail(r.value.rest);
        SuffixTrans(r.value.rest[1..], r.value.rest, toks[1..]);
        SuffixTrans(r.value.rest[1..], toks[1..], toks);
      }
    }
  }

  lemma {:induction false} ExprSuffix<N>(parseNumber: string -> Option<N>, toks: seq<Token>, minBp: nat, assoc: Assoc)
    requires IsStream(toks)
    ensures ParseExpr(parseNumber, toks, minBp, assoc).Ok? ==>
              SuffixOf(ParseExpr(parseNumber, toks, minBp, assoc).value.rest, toks)
    decreases |toks|, 2
  {
    AtomSuffix(parseNumber, toks, assoc);
    var a := ParseAtom(parseNumber, toks, assoc);
    if a.Ok? {
      InfixSuffix(parseNumber, a.value.expr, a.value.rest, minBp, assoc);
      var r := ParseInfix(parseNumber, a.value.expr, a.value.rest, minBp, assoc);
      if r.Ok? {
        SuffixTrans(r.value.rest, a.value.rest, toks);
      }
    }
  }

  lemma {:induction false} InfixSuffix<N>(parseNumber: string -> Option<N>, lhs: Expr<N>, toks: seq<Token>,
                                          minBp: nat, assoc: Assoc)
    requires IsStream(toks)
    ensures ParseInfix(parseNumber, lhs, toks, minBp, assoc).Ok? ==>
              SuffixOf(ParseInfix(parseNumber, lhs, toks, minBp, assoc).value.rest, toks)
    decreases |toks|, 0
  {
    if toks[0].kind.Op? && InfixBindingPower(toks[0].kind.op) >= minBp {
      var op := toks[0].kind.op;
      StreamTail(toks);
      var bp := OperandPower(InfixBindingPower(op), assoc);
      ExprSuffix(parseNumber, toks[1..], bp, assoc);
      var r := ParseExpr(parseNumber, toks[1..], bp, assoc);
      if r.Ok? {
        InfixSuffix(parseNumber, BinaryOp(op, lhs, r.value.expr), r.value.rest, minBp, assoc);
        var q := ParseInfix(parseNumber, BinaryOp(op, lhs, r.value.expr), r.value.rest, minBp, assoc);
        if q.Ok? {
          SuffixTrans(q.value.rest, r.value.rest, toks[1..]);
          SuffixTrans(q.value.rest, toks[1..], toks);
        }
      }
    } else {
      assert toks[|toks| - |toks|..] == toks;
    }
  }

  /** A line that parses as an expression is read up to its Eof: the parse
      of the expression leaves exactly the final token. */
  lemma WholeLine<N>(parseNumber: string -> Option<N>, toks: seq<Token>, assoc: Assoc, e: Expr<N>)
    requires IsStream(toks)
    ensures ParseTokens(parseNumber, toks, assoc) == Ok(Line.Expr(e)) ==>
              ParseExpr(parseNumber, toks, 0, assoc) == Ok(Parsed(e, [toks[|toks| - 1]]))
  {
    ExprSuffix(parseNumber, toks, 0, assoc);
    var r := ParseExpr(parseNumber, toks, 0, assoc);
    if ParseTokens(parseNumber, toks, assoc) == Ok(Line.Expr(e)) {
      assert toks[0].kind != Eof && toks[0].kind != Sep(Sep.Comment);
      assert r.Ok? && r.value.expr == e && r.value.rest[0].kind == Eof;
      var rest := r.value.rest;
      assert rest == toks[|toks| - 1..] == [toks[|toks| - 1]];
    }
  }
}
