/** The syntax highlighter of tml/src/highlighter.rs: a line is lexed again
    and every token is written out, wrapped in a `<span>` whose class names
    its kind, with the text between tokens copied as it is. */
module Highlighter {
  import opened Results
  import opened Lexing

  /** A piece of the output: text as it is, or text inside a styled span. */
  datatype Segment = Plain(text: string) | Styled(style: string, text: string)

  function Html(seg: Segment): string {
    match seg
    case Plain(text) => text
    case Styled(style, text) => "<span class=\"" + style + "\">" + text + "</span>"
  }

  /** The HTML of a sequence of segments. */
  function Render(segs: seq<Segment>): string
    decreases |segs|
  {
    if |segs| == 0 then "" else Html(segs[0]) + Render(segs[1..])
  }

  /** The text of a sequence of segments, markup left out. */
  function Texts(segs: seq<Segment>): string
    decreases |segs|
  {
    if |segs| == 0 then "" else segs[0].text + Texts(segs[1..])
  }

  lemma {:induction false} RenderAppend(a: seq<Segment>, b: seq<Segment>)
    ensures Render(a + b) == Render(a) + Render(b)
    decreases |a|
  {
    if |a| == 0 {
      assert a + b == b;
    } else {
      assert (a + b)[0] == a[0];
      assert (a + b)[1..] == a[1..] + b;
      RenderAppend(a[1..], b);
      calc {
        Render(a + b);
        Html(a[0]) + Render(a[1..] + b);
        Html(a[0]) + (Render(a[1..]) + Render(b));
        (Html(a[0]) + Render(a[1..])) + Render(b);
      }
    }
  }

  lemma {:induction false} TextsAppend(a: seq<Segment>, b: seq<Segment>)
    ensures Texts(a + b) == Texts(a) + Texts(b)
    decreases |a|
  {
    if |a| == 0 {
      assert a + b == b;
    } else {
      var tail := a[1..] + b;
      assert (a + b)[0] == a[0] && (a + b)[1..] == tail;
      TextsAppend(a[1..], b);
      var x, y, z := a[0].text, Texts(a[1..]), Texts(b);
      assert Texts(a + b) == x + (y + z);
      assert Texts(a) == x + y;
      assert x + (y + z) == (x + y) + z;
    }
  }

  /** The class of a token, given the kind of the token after it; separators
      and error tokens are written without a span. */
  function ClassOf(kind: TokenKind, next: TokenKind): (r: Option<string>)
    ensures r == Some("number") <==> kind == Nb
    ensures r == Some("operator") <==> kind.Op?
    ensures r == Some("function") <==> kind == Id && next == Sep(Open)
    ensures r == Some("variable") <==> kind == Id && next != Sep(Open)
    ensures r == Some("string") <==> kind == Str
    ensures r == None <==> kind.Sep? || kind == Err || kind == Eof
  {
    match kind
    case Nb => Some("number")
    case Op(_) => Some("operator")
    case Id => if next == Sep(Open) then Some("function") else Some("variable")
    case Str => Some("string")
    case _ => None
  }

  function TokenSegment(t: Token, next: TokenKind): (r: Segment)
    requires t.InBounds()
    ensures r.text == t.Splice()
  {
    match ClassOf(t.kind, next)
    case None => Plain(t.Splice())
    case Some(style) => Styled(style, t.Splice())
  }

  /** The text skipped between offset `i` and the token that starts there,
      as at most one plain segment. */
  function Gap(code: string, i: nat): (r: seq<Segment>)
    requires i <= |code|
    ensures |r| <= 1 && forall k | 0 <= k < |r| :: r[k].Plain?
    ensures Texts(r) == code[i..TokenAt(code, i).span.start]
  {
    var t := TokenAt(code, i);
    if i < t.span.start then
      var r := [Plain(code[i..t.span.start])];
      assert Texts(r) == code[i..t.span.start] + Texts([]);
      r
    else []
  }

  /** The segments of the line `code` from offset `i` on: for each token, the
      text skipped before it, then the token itself. No span of a walk is a
      comment, and a walk over a line that is not blank from `i` on writes
      something. */
  function Walk(code: string, i: nat): (r: seq<Segment>)
    requires i <= |code|
    ensures forall k | 0 <= k < |r| :: r[k].Plain? || r[k].style != "comment"
    ensures TokenAt(code, i).kind != Eof ==> |r| > 0
    decreases |code| - i
  {
    var t := TokenAt(code, i);
    if t.kind == Eof then Gap(code, i)
    else
      var gap, seg, rest := Gap(code, i), TokenSegment(t, TokenAt(code, t.span.end).kind), Walk(code, t.span.end);
      var r := gap + [seg] + rest;
      assert forall k | 0 <= k < |r| :: r[k] == if k < |gap| then gap[k] else if k == |gap| then seg else rest[k - |gap| - 1];
      r
  }

  /** `highlight`, as segments: nothing for a blank line, one `comment` span
      for a line that starts with `#`, the walk over its tokens otherwise. */
  function Highlighted(code: string): (r: seq<Segment>)
    ensures r == [] <==> forall k | 0 <= k < |code| :: IsWhitespace(code[k])
    ensures forall k | 0 <= k < |r| :: r[k].Styled? && r[k].style == "comment" ==> r == [Styled("comment", code)]
  {
    EofShape(code, 0);
    var first := TokenAt(code, 0);
    if first.kind == Eof then []
    else if first.kind == Sep(Sep.Comment) then [Styled("comment", code)]
    else
      Walk(code, 0)
  }

  /** `highlight`. */
  method Highlight(code: string) returns (html: string)
    ensures html == Render(Highlighted(code))
  {
    var lexer := new Lexer.Load(code);
    var peek := lexer.Peek();
    if peek.kind == Eof {
      return "";
    } else if peek.kind == Sep(Sep.Comment) {
      assert Render([Styled("comment", code)]) == Html(Styled("comment", code)) + Render([]);
      return Html(Styled("comment", code));
    }
    var buf := "";
    var c := 0;
    assert Highlighted(code) == Walk(code, 0);
    while true
      invariant lexer.Valid() && lexer.input == code && c == lexer.cursor
      invariant buf + Render(Walk(code, c)) == Render(Highlighted(code))
      decreases |code| - c
    {
      ghost var before := c;
      ghost var start := buf;
      var token := lexer.Next();
      var span := token.span;
      if c < span.start {
        buf := buf + code[c..span.start];
      }
      RenderGap(code, before);
      assert buf == start + Render(Gap(code, before));
      c := span.end;
      if token.kind == Eof {
        assert Walk(code, before) == Gap(code, before);
        return buf;
      }
      var seg := Classify(lexer, token);
      WalkStep(code, before);
      assert Render(Walk(code, before)) == Render(Gap(code, before)) + Html(seg) + Render(Walk(code, c));
      buf := buf + Html(seg);
      JoinRight(start, Render(Gap(code, before)), Html(seg), Render(Walk(code, c)));
    }
  }

  /** The `match` on the kind of a token just returned by the lexer: the
      segment written for it, looking at the next token for an identifier. */
  method Classify(lexer: Lexer, token: Token) returns (seg: Segment)
    requires lexer.Valid() && token.InBounds() && token.kind != Eof
    requires token.source == lexer.input && lexer.cursor == token.span.end
    modifies lexer
    ensures lexer.Valid() && lexer.cursor == old(lexer.cursor)
    ensures seg == TokenSegment(token, TokenAt(lexer.input, lexer.cursor).kind)
  {
    match token.kind {
      case Nb =>
        seg := Styled("number", token.Splice());
      case Op(_) =>
        seg := Styled("operator", token.Splice());
      case Id =>
        var next := lexer.Peek();
        if next.kind == Sep(Open) {
          seg := Styled("function", token.Splice());
        } else {
          seg := Styled("variable", token.Splice());
        }
      case Str =>
        seg := Styled("string", token.Splice());
      case Sep(_) =>
        seg := Plain(token.Splice());
      case Err =>
        seg := Plain(token.Splice());
    }
  }

  lemma JoinRight(a: string, b: string, c: string, d: string)
    ensures a + b + c + d == a + (b + c + d)
  {
  }

  lemma RenderGap(code: string, i: nat)
    requires i <= |code|
    ensures Render(Gap(code, i))
            == if i < TokenAt(code, i).span.start then code[i..TokenAt(code, i).span.start] else ""
  {
    var t := TokenAt(code, i);
    if i < t.span.start {
      assert Render(Gap(code, i)) == code[i..t.span.start] + Render([]);
    }
  }

  lemma RenderStep(gap: seq<Segment>, seg: Segment, rest: seq<Segment>)
    ensures Render(gap + [seg] + rest) == Render(gap) + Html(seg) + Render(rest)
  {
    assert gap + [seg] + rest == gap + ([seg] + rest);
    RenderAppend(gap, [seg] + rest);
    RenderAppend([seg], rest);
    assert Render([seg]) == Html(seg) + Render([]);
  }

  /** One turn of the loop of `highlight`, as the walk sees it. */
  lemma WalkStep(code: string, i: nat)
    requires i <= |code| && TokenAt(code, i).kind != Eof
    ensures Render(Walk(code, i))
            == Render(Gap(code, i))
               + Html(TokenSegment(TokenAt(code, i), TokenAt(code, TokenAt(code, i).span.end).kind))
               + Render(Walk(code, TokenAt(code, i).span.end))
  {
    var t := TokenAt(code, i);
    var seg := TokenSegment(t, TokenAt(code, t.span.end).kind);
    var rest := Walk(code, t.span.end);
    assert Walk(code, i) == Gap(code, i) + [seg] + rest;
    RenderStep(Gap(code, i), seg, rest);
  }

  lemma TextsStep(gap: seq<Segment>, seg: Segment, rest: seq<Segment>)
    ensures Texts(gap + [seg] + rest) == Texts(gap) + seg.text + Texts(rest)
  {
    assert gap + [seg] + rest == gap + ([seg] + rest);
    TextsAppend(gap, [seg] + rest);
    TextsAppend([seg], rest);
    assert Texts([seg]) == seg.text + Texts([]);
  }

  lemma Slices(s: string, i: nat, j: nat, k: nat)
    requires i <= j <= k <= |s|
    ensures s[i..] == s[i..j] + s[j..k] + s[k..]
  {
  }

  /** Markup left out, the walk from `i` gives back the line from `i` on. */
  lemma {:induction false} WalkTexts(code: string, i: nat)
    requires i <= |code|
    ensures Texts(Walk(code, i)) == code[i..]
    decreases |code| - i
  {
    var t := TokenAt(code, i);
    if t.kind != Eof {
      var seg := TokenSegment(t, TokenAt(code, t.span.end).kind);
      var rest := Walk(code, t.span.end);
      WalkTexts(code, t.span.end);
      assert Walk(code, i) == Gap(code, i) + [seg] + rest;
      TextsStep(Gap(code, i), seg, rest);
      assert seg.text == code[t.span.start..t.span.end];
      Slices(code, i, t.span.start, t.span.end);
    }
  }

  /** Every line that is not blank comes out with its text unchanged once
      the markup is removed: a comment whole, any other line token by token
      with the text between tokens copied. */
  lemma Reassembly(code: string)
    requires exists k | 0 <= k < |code| :: !IsWhitespace(code[k])
    ensures Texts(Highlighted(code)) == code
  {
    EofShape(code, 0);
    var first := TokenAt(code, 0);
    if first.kind == Sep(Sep.Comment) {
      assert Texts([Styled("comment", code)]) == code + Texts([]);
    } else {
      WalkTexts(code, 0);
      assert code[0..] == code;
    }
  }

  /** A blank line, and only a blank line, gives the empty string. */
  lemma BlankLine(code: string)
    ensures Render(Highlighted(code)) == "" <==> forall k | 0 <= k < |code| :: IsWhitespace(code[k])
  {
    EofShape(code, 0);
    var first := TokenAt(code, 0);
    if first.kind == Sep(Sep.Comment) {
      assert Render([Styled("comment", code)]) == Html(Styled("comment", code)) + Render([]);
    } else if first.kind != Eof {
      WalkStep(code, 0);
      var seg := TokenSegment(first, TokenAt(code, first.span.end).kind);
      assert |Html(seg)| > 0;
    }
  }

  /** The first segment of a walk over a line that is not blank: the text
      before the first token if there is any, the first token otherwise. */
  lemma WalkHead(code: string, i: nat)
    requires i <= |code| && TokenAt(code, i).kind != Eof
    ensures |Walk(code, i)| > 0
    ensures Walk(code, i)[0].Plain? || Walk(code, i)[0].style != "comment"
  {
    var t := TokenAt(code, i);
    var seg := TokenSegment(t, TokenAt(code, t.span.end).kind);
    assert Walk(code, i) == Gap(code, i) + [seg] + Walk(code, t.span.end);
    if i == t.span.start {
      assert Walk(code, i)[0] == seg;
    }
  }

  /** A line is written as one `comment` span exactly when its first
      character that is not whitespace is a `#`. */
  lemma CommentLine(code: string)
    ensures Highlighted(code) == [Styled("comment", code)] <==>
              exists p | 0 <= p < |code| :: code[p] == '#' && forall k | 0 <= k < p :: IsWhitespace(code[k])
  {
    var first := TokenAt(code, 0);
    if first.kind == Sep(Sep.Comment) {
      CommentShape(code, first.span.start);
    } else {
      if exists p | 0 <= p < |code| :: code[p] == '#' && forall k | 0 <= k < p :: IsWhitespace(code[k]) {
        var p :| 0 <= p < |code| && code[p] == '#' && forall k | 0 <= k < p :: IsWhitespace(code[k]);
        CommentShape(code, p);
        assert false;
      }
      if first.kind != Eof {
        WalkHead(code, 0);
      }
    }
  }
}
