/** The precedence-climbing parser of one line (tml/src/parser.rs).

    Numbers are abstract: the parser is given `parseNumber`, which stands for
    Rust's `str::parse::<f64>` and may fail. */
module Parsing {
  import opened Results
  import opened Lexing

  datatype Line<N> = Expr(expr: Expr<N>) | Comment(pos: nat) | Empty

  datatype Expr<N> =
    | Nb(n: N)
    | UnaryOp(op: Op, operand: Expr<N>)
    | BinaryOp(op: Op, lhs: Expr<N>, rhs: Expr<N>)
    | Fun(name: string, arg: Expr<N>)

  /** Prefix `+` and `-` bind tighter than every infix operator; any other
      prefix operator binds loosest and takes everything to its right. */
  function PrefixBindingPower(op: Op): (bp: nat)
    ensures op == Add || op == Sub ==> forall o :: bp > InfixBindingPower(o)
    ensures !(op == Add || op == Sub) ==> forall o :: bp < InfixBindingPower(o)
  {
    match op
    case Add | Sub => 3
    case _ => 0
  }

  /** `* / %` bind tighter than `+ -`. */
  function InfixBindingPower(op: Op): (bp: nat)
    ensures 1 <= bp <= 2
    ensures bp == 2 <==> (op == Mul || op == Div || op == Mod)
  {
    match op
    case Add | Sub => 1
    case Mul | Div | Mod => 2
  }

  /** How operators of equal power nest. `parser_expr` parses the right
      operand of an operator of power `bp` at `bp` itself, so that `a-b-c` is
      `a-(b-c)`: that is `Right`. `Left` parses it at `bp + 1`, which gives
      `(a-b)-c`. */
  datatype Assoc = Right | Left

  function OperandPower(bp: nat, assoc: Assoc): nat {
    if assoc == Left then bp + 1 else bp
  }

  /** An expression and the tokens left after it. */
  datatype Parsed<N> = Parsed(expr: Expr<N>, rest: seq<Token>)

  /** The token after a parsed expression is never an operator that binds at
      least `minBp`: the loop of `parser_expr` would have taken it. */
  ghost predicate Stops(rest: seq<Token>, minBp: nat)
    requires |rest| > 0
  {
    !(rest[0].kind.Op? && InfixBindingPower(rest[0].kind.op) >= minBp)
  }

  lemma StreamTail(toks: seq<Token>)
    requires IsStream(toks) && toks[0].kind != Eof
    ensures |toks| >= 2 && IsStream(toks[1..])
  {
  }

  /** The operand that `parser_expr` reads before its loop: a number, a
      parenthesised group, a function call or a prefix operator with its
      operand. */
  function ParseAtom<N>(parseNumber: string -> Option<N>, toks: seq<Token>, assoc: Assoc): (r: Result<Parsed<N>>)
    requires IsStream(toks)
    ensures r.Ok? ==> && IsStream(r.value.rest)
                      && |r.value.rest| < |toks|
    decreases |toks|, 1
  {
    var token := toks[0];
    if token.kind == Eof then
      Error(token.ErrThere("Incomplete expression"))
    else
      StreamTail(toks);
      match token.kind
      case Nb =>
        (match parseNumber(token.Splice())
         case None => Error(token.ErrThere("Invalid Number"))
         case Some(n) => Ok(Parsed(Expr.Nb(n), toks[1..])))
      case Sep(Open) => ParseGroup(parseNumber, toks[1..], assoc)
      case Id => ParseCall(parseNumber, token, toks[1..], assoc)
      case Op(op) =>
        (match ParseExpr(parseNumber, toks[1..], PrefixBindingPower(op), assoc)
         case Error(m) => Error(m)
         case Ok(Parsed(operand, rest)) => Ok(Parsed(UnaryOp(op, operand), rest)))
      case _ => Error(token.ErrThere("Incomplete expression"))
  }

  /** `parser_expr(lexer, minBp)` on the token stream `toks`. Every recursive
      call follows the consumption of a non-Eof token, so the stream that is
      left strictly shrinks. */
  function ParseExpr<N>(parseNumber: string -> Option<N>, toks: seq<Token>, minBp: nat, assoc: Assoc): (r: Result<Parsed<N>>)
    requires IsStream(toks)
    ensures r.Ok? ==> && IsStream(r.value.rest)
                      && |r.value.rest| < |toks|
                      && Stops(r.value.rest, minBp)
    decreases |toks|, 2
  {
    match ParseAtom(parseNumber, toks, assoc)
    case Error(m) => Error(m)
    case Ok(Parsed(lhs, rest)) => ParseInfix(parseNumber, lhs, rest, minBp, assoc)
  }

  /** The `loop` of `parser_expr`: while the next token is an operator whose
      power is not below `minBp`, take it and a right operand parsed at that
      power, and fold them into `lhs`. */
  function ParseInfix<N>(parseNumber: string -> Option<N>, lhs: Expr<N>, toks: seq<Token>, minBp: nat, assoc: Assoc): (r: Result<Parsed<N>>)
    requires IsStream(toks)
    ensures r.Ok? ==> && IsStream(r.value.rest)
                      && |r.value.rest| <= |toks|
                      && Stops(r.value.rest, minBp)
    decreases |toks|, 0
  {
    match toks[0].kind
    case Op(op) =>
      var bp := InfixBindingPower(op);
      if bp < minBp then
        Ok(Parsed(lhs, toks))
      else
        StreamTail(toks);
        (match ParseExpr(parseNumber, toks[1..], OperandPower(bp, assoc), assoc)
         case Error(m) => Error(m)
         case Ok(Parsed(rhs, rest)) => ParseInfix(parseNumber, BinaryOp(op, lhs, rhs), rest, minBp, assoc))
    case _ => Ok(Parsed(lhs, toks))
  }

  /** The rest of a parenthesised group, after its `(`. */
  function ParseGroup<N>(parseNumber: string -> Option<N>, toks: seq<Token>, assoc: Assoc): (r: Result<Parsed<N>>)
    requires IsStream(toks)
    ensures r.Ok? ==> && IsStream(r.value.rest)
                      && |r.value.rest| < |toks|
    decreases |toks|, 3
  {
    match ParseExpr(parseNumber, toks, 0, assoc)
    case Error(m) => Error(m)
    case Ok(Parsed(inner, rest)) =>
      if rest[0].kind != Sep(Close) then
        Error(rest[0].ErrThere("An opened block miss its end, a ')' is missing"))
      else
        StreamTail(rest);
        Ok(Parsed(inner, rest[1..]))
  }

  /** The rest of a function call, after the name `id`. */
  function ParseCall<N>(parseNumber: string -> Option<N>, id: Token, toks: seq<Token>, assoc: Assoc): (r: Result<Parsed<N>>)
    requires IsStream(toks) && id.InBounds()
    ensures r.Ok? ==> && IsStream(r.value.rest)
                      && |r.value.rest| < |toks|
    decreases |toks|, 3
  {
    var next := toks[0];
    if next.kind != Sep(Open) then
      Error(next.ErrThere("A function invocation miss its arguments, a '(' is missing"))
    else
      StreamTail(toks);
      match ParseExpr(parseNumber, toks[1..], 0, assoc)
      case Error(m) => Error(m)
      case Ok(Parsed(arg, rest)) =>
        if rest[0].kind != Sep(Close) then
          Error(rest[0].ErrThere("An function invocation miss its end, a ')' is missing"))
        else
          StreamTail(rest);
          Ok(Parsed(Fun(id.Splice(), arg), rest[1..]))
  }

  /** `parse`: an empty line, a comment, or one expression that takes the
      whole line. */
  function ParseTokens<N>(parseNumber: string -> Option<N>, toks: seq<Token>, assoc: Assoc): (r: Result<Line<N>>)
    requires IsStream(toks)
    ensures r == Ok(Empty) <==> toks[0].kind == Eof
    ensures r.Ok? && r.value.Comment? <==> toks[0].kind == Sep(Sep.Comment)
    ensures r.Ok? && r.value.Comment? ==> r.value.pos == toks[0].span.start
  {
    var first := toks[0];
    if first.kind == Eof then
      Ok(Empty)
    else if first.kind == Sep(Sep.Comment) then
      Ok(Line.Comment(first.span.start))
    else
      match ParseExpr(parseNumber, toks, 0, assoc)
      case Error(m) => Error(m)
      case Ok(Parsed(e, rest)) =>
        if rest[0].kind != Eof then Error(rest[0].ErrThere("Invalid expression")) else Ok(Line.Expr(e))
  }

  /** Parsing a line of text: `parse(Lexer::load(line))`. */
  function ParseText<N>(parseNumber: string -> Option<N>, line: string): (r: Result<Line<N>>)
    ensures r == Ok(Empty) <==> forall k | 0 <= k < |line| :: IsWhitespace(line[k])
  {
    EofShape(line, 0);
    ParseTokens(parseNumber, Tokenize(line, 0), Right)
  }

  /** The operand read after a first token that is not Eof. */
  lemma AtomTake<N>(parseNumber: string -> Option<N>, toks: seq<Token>, assoc: Assoc)
    requires IsStream(toks) && toks[0].kind != Eof
    ensures |toks| >= 2 && IsStream(toks[1..])
    ensures toks[0].kind == Sep(Open) ==>
              ParseAtom(parseNumber, toks, assoc) == ParseGroup(parseNumber, toks[1..], assoc)
    ensures toks[0].kind == Id ==>
              ParseAtom(parseNumber, toks, assoc) == ParseCall(parseNumber, toks[0], toks[1..], assoc)
    ensures toks[0].kind.Op? ==>
              var sub := ParseExpr(parseNumber, toks[1..], PrefixBindingPower(toks[0].kind.op), assoc);
              ParseAtom(parseNumber, toks, assoc)
              == if sub.Error? then Error(sub.msg) else Ok(Parsed(UnaryOp(toks[0].kind.op, sub.value.expr), sub.value.rest))
  {
    StreamTail(toks);
  }

  /** One turn of the loop of `parser_expr`: an operator that binds at least
      `minBp` is taken with the right operand parsed after it. */
  lemma InfixTake<N>(parseNumber: string -> Option<N>, lhs: Expr<N>, toks: seq<Token>, minBp: nat, assoc: Assoc)
    requires IsStream(toks) && toks[0].kind.Op? && InfixBindingPower(toks[0].kind.op) >= minBp
    ensures |toks| >= 2 && IsStream(toks[1..])
    ensures var sub := ParseExpr(parseNumber, toks[1..], OperandPower(InfixBindingPower(toks[0].kind.op), assoc), assoc);
            ParseInfix(parseNumber, lhs, toks, minBp, assoc)
            == if sub.Error? then Error(sub.msg)
               else ParseInfix(parseNumber, BinaryOp(toks[0].kind.op, lhs, sub.value.expr), sub.value.rest, minBp, assoc)
  {
    StreamTail(toks);
  }

  /** A call whose name is followed by `(`: its argument, then `)`. */
  lemma CallTake<N>(parseNumber: string -> Option<N>, id: Token, toks: seq<Token>, assoc: Assoc)
    requires IsStream(toks) && id.InBounds() && toks[0].kind == Sep(Open)
    ensures |toks| >= 2 && IsStream(toks[1..])
    ensures var sub := ParseExpr(parseNumber, toks[1..], 0, assoc);
            ParseCall(parseNumber, id, toks, assoc)
            == if sub.Error? then Error(sub.msg)
               else if sub.value.rest[0].kind != Sep(Close)
               then Error(sub.value.rest[0].ErrThere("An function invocation miss its end, a ')' is missing"))
               else Ok(Parsed(Fun(id.Splice(), sub.value.expr), sub.value.rest[1..]))
  {
    StreamTail(toks);
  }

  /** The result of a parsing method agrees with the result of the parsing
      function on the token stream, and the lexer has been advanced to the
      stream the function leaves. */
  ghost predicate Agrees<N>(r: Result<Expr<N>>, s: Result<Parsed<N>>, left: seq<Token>)
  {
    && (r.Ok? <==> s.Ok?)
    && (r.Error? ==> r.msg == s.msg)
    && (r.Ok? ==> r.value == s.value.expr && left == s.value.rest)
  }

  /** The operand part of `parser_expr`, before its loop. */
  method ParserAtom<N>(parseNumber: string -> Option<N>, lexer: Lexer, assoc: Assoc) returns (r: Result<Expr<N>>)
    requires lexer.Valid()
    modifies lexer
    ensures lexer.Valid()
    ensures Agrees(r, ParseAtom(parseNumber, old(lexer.Remaining()), assoc), lexer.Remaining())
    ensures r.Ok? ==> old(lexer.cursor) < lexer.cursor
    decreases |lexer.input| - lexer.cursor, 1
  {
    ghost var toks := lexer.Remaining();
    var token := lexer.Next();
    if token.kind == Eof {
      return Error(token.ErrThere("Incomplete expression"));
    }
    AtomTake(parseNumber, toks, assoc);
    assert toks[0] == token && lexer.Remaining() == toks[1..];
    match token.kind {
      case Nb =>
        var n := parseNumber(token.Splice());
        if n.None? {
          return Error(token.ErrThere("Invalid Number"));
        }
        return Ok(Expr.Nb(n.value));
      case Sep(Open) =>
        r := ParserGroup(parseNumber, lexer, assoc);
      case Id =>
        r := ParserCall(parseNumber, token, lexer, assoc);
      case Op(op) =>
        var operand := ParserExpr(parseNumber, lexer, PrefixBindingPower(op), assoc);
        if operand.Error? {
          return Error(operand.msg);
        }
        return Ok(UnaryOp(op, operand.value));
      case _ =>
        return Error(token.ErrThere("Incomplete expression"));
    }
  }

  /** The `(` branch of `parser_expr`, after the `(`. */
  method ParserGroup<N>(parseNumber: string -> Option<N>, lexer: Lexer, assoc: Assoc) returns (r: Result<Expr<N>>)
    requires lexer.Valid()
    modifies lexer
    ensures lexer.Valid()
    ensures Agrees(r, ParseGroup(parseNumber, old(lexer.Remaining()), assoc), lexer.Remaining())
    ensures r.Ok? ==> old(lexer.cursor) < lexer.cursor
    decreases |lexer.input| - lexer.cursor, 3
  {
    var inner := ParserExpr(parseNumber, lexer, 0, assoc);
    if inner.Error? {
      return Error(inner.msg);
    }
    ghost var rest := lexer.Remaining();
    var next := lexer.Next();
    if next.kind != Sep(Close) {
      return Error(next.ErrThere("An opened block miss its end, a ')' is missing"));
    }
    StreamTail(rest);
    return Ok(inner.value);
  }

  /** The identifier branch of `parser_expr`, after the name `id`. */
  method ParserCall<N>(parseNumber: string -> Option<N>, id: Token, lexer: Lexer, assoc: Assoc) returns (r: Result<Expr<N>>)
    requires lexer.Valid() && id.InBounds()
    modifies lexer
    ensures lexer.Valid()
    ensures Agrees(r, ParseCall(parseNumber, id, old(lexer.Remaining()), assoc), lexer.Remaining())
    ensures r.Ok? ==> old(lexer.cursor) < lexer.cursor
    decreases |lexer.input| - lexer.cursor, 3
  {
    ghost var toks := lexer.Remaining();
    var next := lexer.Next();
    if next.kind != Sep(Open) {
      return Error(next.ErrThere("A function invocation miss its arguments, a '(' is missing"));
    }
    CallTake(parseNumber, id, toks, assoc);
    var arg := ParserExpr(parseNumber, lexer, 0, assoc);
    if arg.Error? {
      return Error(arg.msg);
    }
    ghost var rest := lexer.Remaining();
    next := lexer.Next();
    if next.kind != Sep(Close) {
      return Error(next.ErrThere("An function invocation miss its end, a ')' is missing"));
    }
    StreamTail(rest);
    return Ok(Fun(id.Splice(), arg.value));
  }

  /** `parser_expr` over the lexer. With `Right` this is the code as written;
      with `Left` the right operand of an operator is parsed one power higher. */
  method ParserExpr<N>(parseNumber: string -> Option<N>, lexer: Lexer, minBp: nat, assoc: Assoc) returns (r: Result<Expr<N>>)
    requires lexer.Valid()
    modifies lexer
    ensures lexer.Valid()
    ensures Agrees(r, ParseExpr(parseNumber, old(lexer.Remaining()), minBp, assoc), lexer.Remaining())
    ensures r.Ok? ==> old(lexer.cursor) < lexer.cursor
    decreases |lexer.input| - lexer.cursor, 2
  {
    ghost var toks := lexer.Remaining();
    var atom := ParserAtom(parseNumber, lexer, assoc);
    if atom.Error? {
      return Error(atom.msg);
    }
    var lhs := atom.value;
    while true
      invariant lexer.Valid() && old(lexer.cursor) < lexer.cursor
      invariant ParseExpr(parseNumber, toks, minBp, assoc) == ParseInfix(parseNumber, lhs, lexer.Remaining(), minBp, assoc)
      decreases |lexer.input| - lexer.cursor
    {
      ghost var here := lexer.Remaining();
      var peek := lexer.Peek();
      if !peek.kind.Op? {
        break;
      }
      var op := peek.kind.op;
      var bp := InfixBindingPower(op);
      if bp < minBp {
        break;
      }
      var _ := lexer.Next();
      InfixTake(parseNumber, lhs, here, minBp, assoc);
      var rhs := ParserExpr(parseNumber, lexer, OperandPower(bp, assoc), assoc);
      if rhs.Error? {
        return Error(rhs.msg);
      }
      lhs := BinaryOp(op, lhs, rhs.value);
    }
    return Ok(lhs);
  }

  /** `parse` over the lexer. */
  method Parse<N>(parseNumber: string -> Option<N>, lexer: Lexer, assoc: Assoc) returns (r: Result<Line<N>>)
    requires lexer.Valid()
    modifies lexer
    ensures r == ParseTokens(parseNumber, old(lexer.Remaining()), assoc)
  {
    var peek := lexer.Peek();
    if peek.kind == Eof {
      return Ok(Empty);
    } else if peek.kind == Sep(Sep.Comment) {
      return Ok(Line.Comment(peek.span.start));
    }
    var expr := ParserExpr(parseNumber, lexer, 0, assoc);
    if expr.Error? {
      return Error(expr.msg);
    }
    var next := lexer.Next();
    if next.kind != Eof {
      return Error(next.ErrThere("Invalid expression"));
    }
    return Ok(Line.Expr(expr.value));
  }
}
