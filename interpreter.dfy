/** The evaluator of tml/src/interpreter.rs.

    Numbers are abstract: the `f64` operations, the sixteen library functions,
    the two constants and the `Display` formatting are fields of an `Arith`
    record that the caller supplies. What is modelled is the order in which
    a literal is evaluated, which errors it gives and how print parts are
    put together. */
module Interpreter {
  import opened Results

  datatype UnOp = Add | Sub

  datatype BinOp = Add | Sub | Mul | Div | Mod

  datatype Literal<N> =
    | Nb(n: N)
    | UnaryOp(uop: UnOp, operand: Literal<N>)
    | BinaryOp(bop: BinOp, lhs: Literal<N>, rhs: Literal<N>)
    | Fun(name: string, arg: Literal<N>)
    | Var(name: string)

  datatype Print<N> = Literal(lit: Literal<N>) | Str(text: string)

  /** The functions a `Fun` literal can name. */
  datatype MathFn =
    | Floor | Ceil | Round | Trunc | Fract | Sqrt | Exp | Ln
    | Log2 | Log10 | Cos | Sin | Tan | Acos | Asin | Atan

  /** The name under which each function is called. */
  function FunctionName(f: MathFn): string {
    match f
    case Floor => "floor"
    case Ceil => "ceil"
    case Round => "round"
    case Trunc => "trunc"
    case Fract => "fract"
    case Sqrt => "sqrt"
    case Exp => "exp"
    case Ln => "ln"
    case Log2 => "log2"
    case Log10 => "log10"
    case Cos => "cos"
    case Sin => "sin"
    case Tan => "tan"
    case Acos => "acos"
    case Asin => "asin"
    case Atan => "atan"
  }

  /** The `match name.as_str()` of a `Fun` literal: the function with that
      name, if any. */
  function FunctionNamed(name: string): (r: Option<MathFn>)
    ensures r.Some? ==> FunctionName(r.value) == name
    ensures r.None? ==> forall f: MathFn :: FunctionName(f) != name
  {
    match name
    case "floor" => Some(Floor)
    case "ceil" => Some(Ceil)
    case "round" => Some(Round)
    case "trunc" => Some(Trunc)
    case "fract" => Some(Fract)
    case "sqrt" => Some(Sqrt)
    case "exp" => Some(Exp)
    case "ln" => Some(Ln)
    case "log2" => Some(Log2)
    case "log10" => Some(Log10)
    case "cos" => Some(Cos)
    case "sin" => Some(Sin)
    case "tan" => Some(Tan)
    case "acos" => Some(Acos)
    case "asin" => Some(Asin)
    case "atan" => Some(Atan)
    case _ => None
  }

  /** Every function of the table is found under its own name, so the table
      has sixteen different names. */
  lemma FunctionTable(f: MathFn, g: MathFn)
    ensures FunctionNamed(FunctionName(f)) == Some(f)
    ensures FunctionName(f) == FunctionName(g) ==> f == g
  {
    var r := FunctionNamed(FunctionName(f));
    assert r.Some? && FunctionName(r.value) == FunctionName(f);
    if FunctionName(f) == FunctionName(g) {
      assert FunctionNamed(FunctionName(g)).Some?;
    }
  }

  /** The number operations the evaluator applies. */
  datatype Arith<!N> = Arith(
    neg: N -> N,
    add: (N, N) -> N,
    sub: (N, N) -> N,
    mul: (N, N) -> N,
    div: (N, N) -> N,
    rem: (N, N) -> N,
    apply: (MathFn, N) -> N,
    pi: N,
    e: N,
    show: N -> string)

  function UnknownFunction(name: string): string {
    "Unknown function '" + name + "'"
  }

  function UnknownVariable(name: string): string {
    "Unknown variable '" + name + "'"
  }

  function ApplyBinary<N>(a: Arith<N>, op: BinOp, l: N, r: N): N {
    match op
    case Add => a.add(l, r)
    case Sub => a.sub(l, r)
    case Mul => a.mul(l, r)
    case Div => a.div(l, r)
    case Mod => a.rem(l, r)
  }

  /** `compute_literal`. Every `?` of the source returns the first error met;
      the operands of a binary operation are evaluated left then right, and
      the argument of a call before its name is looked up. */
  function ComputeLiteral<N>(a: Arith<N>, lit: Literal<N>): (r: Result<N>)
    ensures lit.Nb? ==> r == Ok(lit.n)
    ensures lit.Var? ==> (r.Ok? <==> lit.name == "PI" || lit.name == "E")
    ensures lit.Fun? && r.Ok? ==> FunctionNamed(lit.name).Some?
  {
    match lit
    case Nb(x) => Ok(x)
    case UnaryOp(op, operand) =>
      (match ComputeLiteral(a, operand)
       case Error(m) => Error(m)
       case Ok(v) => Ok(if op == UnOp.Add then v else a.neg(v)))
    case BinaryOp(op, lhs, rhs) =>
      (match ComputeLiteral(a, lhs)
       case Error(m) => Error(m)
       case Ok(l) =>
         match ComputeLiteral(a, rhs)
         case Error(m) => Error(m)
         case Ok(r) => Ok(ApplyBinary(a, op, l, r)))
    case Fun(name, arg) =>
      (match ComputeLiteral(a, arg)
       case Error(m) => Error(m)
       case Ok(v) =>
         match FunctionNamed(name)
         case None => Error(UnknownFunction(name))
         case Some(f) => Ok(a.apply(f, v)))
    case Var(name) =>
      if name == "PI" then Ok(a.pi)
      else if name == "E" then Ok(a.e)
      else Error(UnknownVariable(name))
  }

  /** An error message of `compute_literal`. */
  ghost predicate UnknownMessage(m: string) {
    exists name: string :: m == UnknownFunction(name) || m == UnknownVariable(name)
  }

  /** The unknown names of a literal, as error messages, in the order in
      which evaluation meets them. */
  function Unknowns<N>(lit: Literal<N>): (r: seq<string>)
    ensures forall k | 0 <= k < |r| :: UnknownMessage(r[k])
  {
    match lit
    case Nb(_) => []
    case UnaryOp(_, operand) => Unknowns(operand)
    case BinaryOp(_, lhs, rhs) => Unknowns(lhs) + Unknowns(rhs)
    case Fun(name, arg) =>
      Unknowns(arg) + (if FunctionNamed(name).None? then [UnknownFunction(name)] else [])
    case Var(name) => if name == "PI" || name == "E" then [] else [UnknownVariable(name)]
  }

  /** A literal fails exactly when it names an unknown function or variable,
      and the error is the first such name in evaluation order. The numbers
      play no part in it. */
  lemma {:induction false} FirstError<N>(a: Arith<N>, lit: Literal<N>)
    ensures ComputeLiteral(a, lit).Error? <==> |Unknowns(lit)| > 0
    ensures ComputeLiteral(a, lit).Error? ==> ComputeLiteral(a, lit).msg == Unknowns(lit)[0]
  {
    match lit
    case Nb(_) =>
    case UnaryOp(_, operand) =>
      FirstError(a, operand);
    case BinaryOp(_, lhs, rhs) =>
      FirstError(a, lhs);
      FirstError(a, rhs);
    case Fun(name, arg) =>
      FirstError(a, arg);
    case Var(name) =>
  }

  /** The value of a literal that names no unknown function or variable:
      `compute_literal` succeeds with it. A number is itself, a prefix `+`
      keeps its operand's value and a prefix `-` negates it, an operation or
      a function is applied to the values of its operands, and `PI` and `E`
      are the two constants. */
  function Value<N>(a: Arith<N>, lit: Literal<N>): (r: N)
    requires Unknowns(lit) == []
    ensures ComputeLiteral(a, lit) == Ok(r)
  {
    match lit
    case Nb(x) => x
    case UnaryOp(op, operand) =>
      if op == UnOp.Add then Value(a, operand) else a.neg(Value(a, operand))
    case BinaryOp(op, lhs, rhs) =>
      assert |Unknowns(lhs)| + |Unknowns(rhs)| == 0;
      ApplyBinary(a, op, Value(a, lhs), Value(a, rhs))
    case Fun(name, arg) =>
      assert |Unknowns(arg)| == 0;
      a.apply(FunctionNamed(name).value, Value(a, arg))
    case Var(name) => if name == "PI" then a.pi else a.e
  }

  /** The literal's error does not depend on the number operations. */
  lemma ErrorIndependent<N>(a: Arith<N>, b: Arith<N>, lit: Literal<N>)
    ensures ComputeLiteral(a, lit).Error? <==> ComputeLiteral(b, lit).Error?
    ensures ComputeLiteral(a, lit).Error? ==> ComputeLiteral(a, lit).msg == ComputeLiteral(b, lit).msg
  {
    FirstError(a, lit);
    FirstError(b, lit);
  }

  /** What one print part contributes: a string verbatim, a literal as its
      formatted value. */
  function PartText<N>(a: Arith<N>, part: Print<N>): (r: Result<string>)
    ensures part.Str? ==> r == Ok(part.text)
    ensures part.Literal? ==> (r.Ok? <==> ComputeLiteral(a, part.lit).Ok?)
  {
    match part
    case Str(text) => Ok(text)
    case Literal(lit) =>
      match ComputeLiteral(a, lit)
      case Error(m) => Error(m)
      case Ok(v) => Ok(a.show(v))
  }

  /** The result of `compute_print` on `parts`: the parts in order, or the
      error of the first one that fails. */
  function Printed<N>(a: Arith<N>, parts: seq<Print<N>>): (r: Result<string>)
    ensures r.Ok? <==> forall i | 0 <= i < |parts| :: PartText(a, parts[i]).Ok?
    decreases |parts|
  {
    if |parts| == 0 then Ok("")
    else
      match Printed(a, parts[..|parts| - 1])
      case Error(m) => Error(m)
      case Ok(s) =>
        match PartText(a, parts[|parts| - 1])
        case Error(m) => Error(m)
        case Ok(t) => Ok(s + t)
  }

  /** `compute_print`. */
  method ComputePrint<N>(a: Arith<N>, parts: seq<Print<N>>) returns (r: Result<string>)
    ensures r == Printed(a, parts)
  {
    var buf := "";
    for i := 0 to |parts|
      invariant Printed(a, parts[..i]) == Ok(buf)
    {
      assert parts[..i + 1][..i] == parts[..i];
      match parts[i] {
        case Literal(lit) =>
          var v := ComputeLiteral(a, lit);
          if v.Error? {
            PrintedStops(a, parts[..i + 1], parts[i + 1..]);
            assert parts[..i + 1] + parts[i + 1..] == parts;
            return Error(v.msg);
          }
          buf := buf + a.show(v.value);
        case Str(text) =>
          buf := buf + text;
      }
    }
    assert parts[..|parts|] == parts;
    return Ok(buf);
  }

  /** Once a prefix of the parts fails, nothing after it is looked at. */
  lemma {:induction false} PrintedStops<N>(a: Arith<N>, parts: seq<Print<N>>, more: seq<Print<N>>)
    requires Printed(a, parts).Error?
    ensures Printed(a, parts + more) == Printed(a, parts)
    decreases |more|
  {
    if |more| > 0 {
      var init := parts + more[..|more| - 1];
      PrintedStops(a, parts, more[..|more| - 1]);
      assert (parts + more)[..|parts + more| - 1] == init;
    } else {
      assert parts + more == parts;
    }
  }

  /** Printing a sequence of parts is printing its two halves one after the
      other: the left half's error first, then the right half's, otherwise
      the two texts joined. */
  lemma {:induction false} PrintedAppend<N>(a: Arith<N>, p: seq<Print<N>>, q: seq<Print<N>>)
    ensures Printed(a, p + q) ==
              match Printed(a, p)
              case Error(m) => Error(m)
              case Ok(s) =>
                match Printed(a, q)
                case Error(m) => Error(m)
                case Ok(t) => Ok(s + t)
    decreases |q|
  {
    if |q| == 0 {
      assert p + q == p;
      if Printed(a, p).Ok? {
        assert Printed(a, p).value + "" == Printed(a, p).value;
      }
    } else {
      var q' := q[..|q| - 1];
      PrintedAppend(a, p, q');
      assert (p + q)[..|p + q| - 1] == p + q';
      assert (p + q)[|p + q| - 1] == q[|q| - 1];
      if Printed(a, p).Ok? && Printed(a, q').Ok? {
        var s := Printed(a, p).value;
        var t := Printed(a, q').value;
        if PartText(a, q[|q| - 1]).Ok? {
          assert s + t + PartText(a, q[|q| - 1]).value == s + (t + PartText(a, q[|q| - 1]).value);
        }
      }
    }
  }

  /** The error of `compute_print` is the error of the first failing part,
      and only a failing part can make it fail. */
  lemma {:induction false} PrintedFirstError<N>(a: Arith<N>, parts: seq<Print<N>>, k: nat)
    requires k < |parts| && PartText(a, parts[k]).Error?
    requires forall i | 0 <= i < k :: PartText(a, parts[i]).Ok?
    ensures Printed(a, parts) == PartText(a, parts[k])
  {
    assert parts[..k + 1][..k] == parts[..k];
    PrintedStops(a, parts[..k + 1], parts[k + 1..]);
    assert parts[..k + 1] + parts[k + 1..] == parts;
  }

  /** The texts of string parts, joined in order. */
  function Joined<N>(parts: seq<Print<N>>): string
    requires forall i | 0 <= i < |parts| :: parts[i].Str?
    decreases |parts|
  {
    if |parts| == 0 then "" else parts[0].text + Joined(parts[1..])
  }

  /** Print parts that are all strings never fail, and give their texts in
      order. */
  lemma {:induction false} AllStrings<N>(a: Arith<N>, parts: seq<Print<N>>)
    requires forall i | 0 <= i < |parts| :: parts[i].Str?
    ensures Printed(a, parts) == Ok(Joined(parts))
    decreases |parts|
  {
    if |parts| > 0 {
      AllStrings(a, parts[1..]);
      PrintedAppend(a, parts[..1], parts[1..]);
      assert parts[..1] + parts[1..] == parts;
      assert parts[..1][..0] == [] && parts[..1][0] == parts[0];
      assert "" + parts[0].text == parts[0].text;
      assert Printed(a, parts[..1]) == Ok(parts[0].text);
    }
  }
}
