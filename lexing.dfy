/** The pull-based tokenizer of one source line (tml/src/lexer.rs).

    Offsets are character indices into the line; the Rust code uses UTF-8
    byte offsets, which coincide with them on ASCII input. */
module Lexing {
  import opened Results
  import opened Strings

  datatype Op = Add | Sub | Mul | Div | Mod

  datatype Sep = Open | Close | Comment

  datatype TokenKind = Nb | Op(op: Op) | Id | Str | Sep(sep: Sep) | Err | Eof

  /** The half-open range `start..end` of a token. */
  datatype Span = Span(start: nat, end: nat) {
    /** Rust's `Range::len`: zero when the range is empty or reversed. */
    function Len(): nat {
      if start <= end then end - start else 0
    }
  }

  function Max(a: int, b: int): int {
    if a < b then b else a
  }

  /** A token is a kind and a span; it borrows the whole line it came from. */
  datatype Token = Token(source: string, kind: TokenKind, span: Span) {

    predicate InBounds() {
      span.start <= span.end <= |source|
    }

    /** The text of the token (Rust panics on a span outside the line). */
    function Splice(): (r: string)
      requires InBounds()
      ensures |r| == span.Len()
      ensures forall k | 0 <= k < |r| :: r[k] == source[span.start + k]
    {
      source[span.start..span.end]
    }

    /** The one-character position just past this token, same kind. */
    function After(): (r: Token)
      ensures r.source == source && r.kind == kind
      ensures r.span.start == span.end && r.span.Len() == 1
    {
      Token(source, kind, Span(span.end, span.end + 1))
    }

    /** The error rendering: the message, the line, then a caret line that
        marks the columns of the token, at least one caret wide. */
    function ErrThere(err: string): (r: string)
      ensures var head := err + "\n" + source + "\n";
              && |r| == |head| + span.start + Max(1, span.Len())
              && r[..|head|] == head
              && (forall k | |head| <= k < |head| + span.start :: r[k] == ' ')
              && (forall k | |head| + span.start <= k < |r| :: r[k] == '^')
    {
      err + "\n" + source + "\n" + Repeat(' ', span.start) + Repeat('^', Max(1, span.Len()))
    }
  }

  predicate IsNb(c: char) {
    '0' <= c <= '9'
  }

  predicate IsIdInit(c: char) {
    'a' <= c <= 'z' || 'A' <= c <= 'Z' || c == '_'
  }

  predicate IsIdContent(c: char) {
    'a' <= c <= 'z' || 'A' <= c <= 'Z' || '0' <= c <= '9' || c == '_'
  }

  /** Rust's `char::is_whitespace`: the Unicode White_Space property. */
  predicate IsWhitespace(c: char) {
    ('\t' <= c <= '\r') || c == ' ' || c == '\U{0085}' || c == '\U{00A0}' || c == '\U{1680}'
    || ('\U{2000}' <= c <= '\U{200A}') || c == '\U{2028}' || c == '\U{2029}'
    || c == '\U{202F}' || c == '\U{205F}' || c == '\U{3000}'
  }

  /** Space, tab and the line breaks are whitespace, and no character that
      starts or continues a token is. */
  lemma WhitespaceApart(c: char)
    ensures c == ' ' || c == '\t' || c == '\n' || c == '\r' ==> IsWhitespace(c)
    ensures IsWhitespace(c) ==> !IsIdContent(c) && c !in "+-*/%()#\"."
  {
  }

  // The stop conditions of the scans of `lex_next`.
  predicate NotWhitespace(c: char) { !IsWhitespace(c) }
  predicate NotNb(c: char) { !IsNb(c) }
  predicate NotIdContent(c: char) { !IsIdContent(c) }
  predicate IsQuote(c: char) { c == '"' }

  /** The first offset at or after `i` whose character satisfies `p`, or the
      length of `s` when there is none (iterator `find` and `skip_while`). */
  function Find(s: string, i: nat, p: char -> bool): (k: nat)
    requires i <= |s|
    ensures i <= k <= |s|
    ensures forall j | i <= j < k :: !p(s[j])
    ensures k < |s| ==> p(s[k])
    decreases |s| - i
  {
    if i == |s| || p(s[i]) then i else Find(s, i + 1, p)
  }

  /** Any offset with the two properties of `Find` is the one `Find` gives. */
  lemma FindIsFirst(s: string, i: nat, p: char -> bool, k: nat)
    requires i <= k <= |s|
    requires forall j | i <= j < k :: !p(s[j])
    requires k < |s| ==> p(s[k])
    ensures k == Find(s, i, p)
  {
  }

  /** The kinds of the eight one-character tokens. */
  function Punctuation(c: char): (r: Option<TokenKind>)
    ensures r.Some? <==> c in "+-*/%()#"
  {
    match c
    case '+' => Some(Op(Add))
    case '-' => Some(Op(Sub))
    case '*' => Some(Op(Mul))
    case '/' => Some(Op(Div))
    case '%' => Some(Op(Mod))
    case '(' => Some(Sep(Open))
    case ')' => Some(Sep(Close))
    case '#' => Some(Sep(Comment))
    case _ => None
  }

  /** The token `lex_next` produces when the cursor is at `i`. */
  function TokenAt(s: string, i: nat): (t: Token)
    requires i <= |s|
    ensures t.source == s
    ensures i <= t.span.start <= t.span.end <= |s|
    ensures forall k | i <= k < t.span.start :: IsWhitespace(s[k])
    ensures t.kind == Eof <==> t.span.start == |s|
    ensures t.kind == Eof ==> t.span == Span(|s|, |s|)
    ensures t.kind != Eof ==> t.span.start < t.span.end && !IsWhitespace(s[t.span.start])
  {
    var start := Find(s, i, NotWhitespace);
    if start == |s| then Token(s, Eof, Span(|s|, |s|)) else Scan(s, start)
  }

  /** The token whose first character is at `start`. */
  function Scan(s: string, start: nat): (t: Token)
    requires start < |s|
    ensures t.source == s && t.kind != Eof
    ensures t.span.start == start < t.span.end <= |s|
  {
    var c := s[start];
    match Punctuation(c)
    case Some(kind) => Token(s, kind, Span(start, start + 1))
    case None =>
      if c == '"' then
        var close := Find(s, start + 1, IsQuote);
        Token(s, Str, Span(start, if close < |s| then close + 1 else |s|))
      else if IsNb(c) then
        var d := Find(s, start + 1, NotNb);
        Token(s, Nb, Span(start, if d < |s| && s[d] == '.' then Find(s, d + 1, NotNb) else d))
      else if IsIdInit(c) then
        Token(s, Id, Span(start, Find(s, start + 1, NotIdContent)))
      else
        Token(s, Err, Span(start, |s|))
  }

  /** Only whitespace is left exactly when the next token is Eof, and Eof is
      then returned again and again. */
  lemma EofShape(s: string, i: nat)
    requires i <= |s|
    ensures TokenAt(s, i).kind == Eof <==> forall k | i <= k < |s| :: IsWhitespace(s[k])
    ensures TokenAt(s, i).kind == Eof ==> TokenAt(s, TokenAt(s, i).span.end) == TokenAt(s, i)
  {
    var t := TokenAt(s, i);
    if t.kind != Eof {
      assert !IsWhitespace(s[t.span.start]);
    }
  }

  /** Each of `+ - * / % ( ) #` is a token of its own kind and of length one. */
  lemma PunctuationShape(s: string, i: nat)
    requires i <= |s|
    ensures TokenAt(s, i).kind.Op? || TokenAt(s, i).kind.Sep? <==>
              TokenAt(s, i).kind != Eof && s[TokenAt(s, i).span.start] in "+-*/%()#"
    ensures var t := TokenAt(s, i);
            t.kind != Eof && s[t.span.start] in "+-*/%()#" ==>
              t.kind == Punctuation(s[t.span.start]).value && t.span.end == t.span.start + 1
  {
  }

  /** A line starts with a comment token at `p` exactly when its first
      character that is not whitespace is a `#` at `p`. */
  lemma CommentShape(s: string, p: nat)
    ensures TokenAt(s, 0).kind == Sep(Sep.Comment) && TokenAt(s, 0).span.start == p <==>
              && p < |s| && s[p] == '#'
              && forall k | 0 <= k < p :: IsWhitespace(s[k])
  {
    var t := TokenAt(s, 0);
    if p < |s| && s[p] == '#' && forall k | 0 <= k < p :: IsWhitespace(s[k]) {
      FindIsFirst(s, 0, NotWhitespace, p);
      assert t == Token(s, Sep(Sep.Comment), Span(p, p + 1));
    }
    if t.kind == Sep(Sep.Comment) {
      PunctuationShape(s, 0);
      assert Punctuation(s[t.span.start]) == Some(Sep(Sep.Comment));
    }
  }

  /** A string token runs from a quote to just after the next quote, or to the
      end of the line when there is none. */
  lemma StrShape(s: string, i: nat)
    requires i <= |s|
    ensures var t := TokenAt(s, i);
            t.kind == Str <==> t.kind != Eof && s[t.span.start] == '"'
    ensures var t := TokenAt(s, i);
            t.kind == Str ==>
              && (forall k | t.span.start < k < t.span.end - 1 :: s[k] != '"')
              && ((t.span.start < t.span.end - 1 && s[t.span.end - 1] == '"')
                  || (t.span.end == |s| && forall k | t.span.start < k < |s| :: s[k] != '"'))
  {
  }

  /** A number is a maximal digit run, optionally followed by one dot and a
      further maximal digit run. */
  lemma NbShape(s: string, i: nat)
    requires i <= |s|
    ensures var t := TokenAt(s, i);
            t.kind == Nb <==> t.kind != Eof && IsNb(s[t.span.start])
    ensures var t := TokenAt(s, i);
            t.kind == Nb ==>
              && (forall k | t.span.start <= k < t.span.end :: IsNb(s[k]) || s[k] == '.')
              && (forall k1, k2 | t.span.start <= k1 < k2 < t.span.end && s[k1] == '.' :: s[k2] != '.')
              && (t.span.end < |s| ==> !IsNb(s[t.span.end]))
              && (t.span.end < |s| && s[t.span.end] == '.' ==> '.' in s[t.span.start..t.span.end])
  {
    var t := TokenAt(s, i);
    if t.kind == Nb {
      var start := t.span.start;
      var d := Find(s, start + 1, NotNb);
      if d < |s| && s[d] == '.' {
        assert s[t.span.start..t.span.end][d - start] == '.';
      }
    }
  }

  /** An identifier starts with a letter or `_` and is a maximal run of
      letters, digits and `_`. */
  lemma IdShape(s: string, i: nat)
    requires i <= |s|
    ensures var t := TokenAt(s, i);
            t.kind == Id <==> t.kind != Eof && IsIdInit(s[t.span.start])
    ensures var t := TokenAt(s, i);
            t.kind == Id ==>
              && (forall k | t.span.start <= k < t.span.end :: IsIdContent(s[k]))
              && (t.span.end < |s| ==> !IsIdContent(s[t.span.end]))
  {
  }

  /** Any other character starts an error token that takes the rest of the
      line, so the token after it is Eof. */
  lemma ErrShape(s: string, i: nat)
    requires i <= |s|
    ensures var t := TokenAt(s, i);
            t.kind == Err <==>
              && t.kind != Eof
              && s[t.span.start] !in "+-*/%()#\""
              && !IsNb(s[t.span.start])
              && !IsIdInit(s[t.span.start])
    ensures var t := TokenAt(s, i);
            t.kind == Err ==> t.span.end == |s| && TokenAt(s, t.span.end).kind == Eof
  {
  }

  /** The character of each operator. */
  function OpChar(op: Op): (c: char)
    ensures Punctuation(c) == Some(Op(op))
    ensures !IsWhitespace(c) && !IsIdContent(c) && c != '.'
  {
    match op
    case Add => '+'
    case Sub => '-'
    case Mul => '*'
    case Div => '/'
    case Mod => '%'
  }

  /** The text of a number as the lexer reads one: a digit, then digits with
      at most one dot among them. */
  predicate NumberText(t: string) {
    && |t| > 0 && IsNb(t[0])
    && (forall k | 0 <= k < |t| :: IsNb(t[k]) || t[k] == '.')
    && (forall k1, k2 | 0 <= k1 < k2 < |t| && t[k1] == '.' :: t[k2] != '.')
  }

  /** The text of a name: a letter or `_`, then letters, digits and `_`. */
  predicate NameText(t: string) {
    |t| > 0 && IsIdInit(t[0]) && forall k | 0 <= k < |t| :: IsIdContent(t[k])
  }

  /** A punctuation character, after whitespace only, is read as its own
      one-character token. */
  lemma PunctuationAt(s: string, i: nat, j: nat)
    requires i <= j < |s| && Punctuation(s[j]).Some?
    requires forall k | i <= k < j :: IsWhitespace(s[k])
    ensures TokenAt(s, i) == Token(s, Punctuation(s[j]).value, Span(j, j + 1))
  {
    FindIsFirst(s, i, NotWhitespace, j);
  }

  /** The digits from `j` to `e`, with at most one dot among them and
      followed by neither a digit nor a dot, are scanned as one number. */
  lemma NumberScan(s: string, j: nat, e: nat)
    requires j < e <= |s| && IsNb(s[j])
    requires forall k | j <= k < e :: IsNb(s[k]) || s[k] == '.'
    requires forall k1, k2 | j <= k1 < k2 < e && s[k1] == '.' :: s[k2] != '.'
    requires e < |s| ==> !IsNb(s[e]) && s[e] != '.'
    ensures Scan(s, j) == Token(s, Nb, Span(j, e))
  {
    if k :| j < k < e && s[k] == '.' {
      FindIsFirst(s, j + 1, NotNb, k);
      FindIsFirst(s, k + 1, NotNb, e);
    } else {
      FindIsFirst(s, j + 1, NotNb, e);
    }
  }

  /** A number text, after whitespace only and followed by neither a digit
      nor a dot, is read as one number token. */
  lemma NumberAt(s: string, i: nat, j: nat, t: string)
    requires i <= j && j + |t| <= |s| && s[j..j + |t|] == t && NumberText(t)
    requires forall k | i <= k < j :: IsWhitespace(s[k])
    requires j + |t| < |s| ==> !IsNb(s[j + |t|]) && s[j + |t|] != '.'
    ensures TokenAt(s, i) == Token(s, Nb, Span(j, j + |t|))
  {
    assert s[j] == t[0];
    FindIsFirst(s, i, NotWhitespace, j);
    var e := j + |t|;
    assert forall k | j <= k < e :: s[k] == t[k - j];
    NumberScan(s, j, e);
  }

  /** The name characters from `j` to `e`, starting with a letter or `_`
      and not followed by a name character, are scanned as one name. */
  lemma NameScan(s: string, j: nat, e: nat)
    requires j < e <= |s| && IsIdInit(s[j])
    requires forall k | j <= k < e :: IsIdContent(s[k])
    requires e < |s| ==> !IsIdContent(s[e])
    ensures Scan(s, j) == Token(s, Id, Span(j, e))
  {
    FindIsFirst(s, j + 1, NotIdContent, e);
  }

  /** A name text, after whitespace only and not followed by a name
      character, is read as one identifier token. */
  lemma NameAt(s: string, i: nat, j: nat, t: string)
    requires i <= j && j + |t| <= |s| && s[j..j + |t|] == t && NameText(t)
    requires forall k | i <= k < j :: IsWhitespace(s[k])
    requires j + |t| < |s| ==> !IsIdContent(s[j + |t|])
    ensures TokenAt(s, i) == Token(s, Id, Span(j, j + |t|))
  {
    assert s[j] == t[0];
    FindIsFirst(s, i, NotWhitespace, j);
    assert forall k | j <= k < j + |t| :: s[k] == t[k - j];
    NameScan(s, j, j + |t|);
  }

  /** A token stream as the lexer delivers it: tokens within their line, and
      Eof last and only last. */
  ghost predicate IsStream(toks: seq<Token>) {
    && |toks| > 0
    && toks[|toks| - 1].kind == Eof
    && (forall j | 0 <= j < |toks| - 1 :: toks[j].kind != Eof)
    && (forall j | 0 <= j < |toks| :: toks[j].InBounds())
  }

  /** Every token from offset `i` up to and including Eof. */
  function Tokenize(s: string, i: nat): (r: seq<Token>)
    requires i <= |s|
    ensures IsStream(r) && r[0] == TokenAt(s, i)
    decreases |s| - i
  {
    var t := TokenAt(s, i);
    if t.kind == Eof then [t] else [t] + Tokenize(s, t.span.end)
  }

  /** A stream that does not start with Eof is its first token followed by
      the stream after that token. */
  lemma TokenizeStep(s: string, i: nat)
    requires i <= |s| && TokenAt(s, i).kind != Eof
    ensures Tokenize(s, i) == [TokenAt(s, i)] + Tokenize(s, TokenAt(s, i).span.end)
  {
  }

  /** Every token of a line comes from it, at or after the starting offset. */
  lemma {:induction false} TokenizeFrom(s: string, i: nat)
    requires i <= |s|
    ensures forall j | 0 <= j < |Tokenize(s, i)| ::
              Tokenize(s, i)[j].source == s && i <= Tokenize(s, i)[j].span.start
    decreases |s| - i
  {
    var t := TokenAt(s, i);
    if t.kind != Eof {
      var rest := Tokenize(s, t.span.end);
      TokenizeFrom(s, t.span.end);
      assert Tokenize(s, i) == [t] + rest;
    }
  }

  /** Every token before Eof covers at least one character. */
  lemma {:induction false} TokenizeNonEmpty(s: string, i: nat)
    requires i <= |s|
    ensures forall j | 0 <= j < |Tokenize(s, i)| - 1 ::
              Tokenize(s, i)[j].span.start < Tokenize(s, i)[j].span.end
    decreases |s| - i
  {
    var t := TokenAt(s, i);
    if t.kind != Eof {
      var rest := Tokenize(s, t.span.end);
      TokenizeNonEmpty(s, t.span.end);
      assert Tokenize(s, i) == [t] + rest;
    }
  }

  /** The tokens of a line follow each other without overlapping. */
  lemma {:induction false} TokenizeOrdered(s: string, i: nat)
    requires i <= |s|
    ensures forall j, k | 0 <= j < k < |Tokenize(s, i)| ::
              Tokenize(s, i)[j].span.end <= Tokenize(s, i)[k].span.start
    decreases |s| - i
  {
    var t := TokenAt(s, i);
    if t.kind != Eof {
      var rest := Tokenize(s, t.span.end);
      TokenizeOrdered(s, t.span.end);
      TokenizeFrom(s, t.span.end);
      assert Tokenize(s, i) == [t] + rest;
    }
  }

  /** Stopping anywhere in a run of trailing whitespace gives the same stream. */
  lemma TokenizeAtEof(s: string, i: nat)
    requires i <= |s| && TokenAt(s, i).kind == Eof
    ensures Tokenize(s, |s|) == Tokenize(s, i) == [TokenAt(s, i)]
  {
    EofShape(s, i);
  }

  /** The scans of `lex_next`: advance from `i` while `p` does not hold. */
  method FindFirst(s: string, i: nat, p: char -> bool) returns (k: nat)
    requires i <= |s|
    ensures i <= k <= |s|
    ensures forall j | i <= j < k :: !p(s[j])
    ensures k < |s| ==> p(s[k])
    ensures k == Find(s, i, p)
  {
    k := i;
    while k < |s| && !p(s[k])
      invariant i <= k <= |s|
      invariant forall j | i <= j < k :: !p(s[j])
    {
      k := k + 1;
    }
    FindIsFirst(s, i, p, k);
  }

  /** The token computation of `lex_next`, without the cursor update. */
  method ScanToken(input: string, index: nat) returns (t: Token)
    requires index <= |input|
    ensures t == TokenAt(input, index)
  {
    var start := FindFirst(input, index, NotWhitespace);
    if start == |input| {
      return Token(input, Eof, Span(|input|, |input|));
    }
    t := ScanAt(input, start);
  }

  /** The token whose first character is at `start`, as `lex_next` reads it. */
  method ScanAt(input: string, start: nat) returns (t: Token)
    requires start < |input|
    ensures t == Scan(input, start)
  {
    var c := input[start];
    var single := Punctuation(c);
    if single.Some? {
      t := Token(input, single.value, Span(start, start + 1));
    } else if c == '"' {
      var close := FindFirst(input, start + 1, IsQuote);
      t := Token(input, Str, Span(start, if close < |input| then close + 1 else |input|));
    } else if IsNb(c) {
      var end := FindFirst(input, start + 1, NotNb);
      if end < |input| && input[end] == '.' {
        end := FindFirst(input, end + 1, NotNb);
      }
      t := Token(input, Nb, Span(start, end));
    } else if IsIdInit(c) {
      var end := FindFirst(input, start + 1, NotIdContent);
      t := Token(input, Id, Span(start, end));
    } else {
      t := Token(input, Err, Span(start, |input|));
    }
  }

  /** The lexer: the line, the scan position `index` and one token of
      lookahead. The ghost `cursor` is where the next token to be returned
      was scanned from: `index` itself, or where the peeked token's scan began. */
  class Lexer {
    const input: string
    var index: nat
    var peeked: Option<Token>
    ghost var cursor: nat

    ghost predicate Valid()
      reads this
    {
      && cursor <= index <= |input|
      && (peeked.None? ==> index == cursor)
      && (peeked.Some? ==> peeked.value == TokenAt(input, cursor) && index == peeked.value.span.end)
    }

    /** The tokens still to be returned, Eof included. */
    ghost function Remaining(): seq<Token>
      reads this
      requires Valid()
    {
      Tokenize(input, cursor)
    }

    constructor Load(input: string)
      ensures Valid() && this.input == input && cursor == 0 && peeked == None
      ensures Remaining() == Tokenize(input, 0)
    {
      this.input := input;
      index := 0;
      peeked := None;
      cursor := 0;
    }

    method LexNext() returns (t: Token)
      requires index <= |input|
      modifies this`index
      ensures t == TokenAt(input, old(index)) && index == t.span.end
    {
      t := ScanToken(input, index);
      index := t.span.end;
    }

    /** Return the next token, moving forward. */
    method Next() returns (t: Token)
      requires Valid()
      modifies this
      ensures Valid() && peeked == None
      ensures t == TokenAt(input, old(cursor)) && cursor == t.span.end
      ensures t == old(Remaining())[0]
      ensures Remaining() == if t.kind == Eof then old(Remaining()) else old(Remaining())[1..]
    {
      if peeked.Some? {
        t := peeked.value;
        peeked := None;
      } else {
        t := LexNext();
      }
      cursor := t.span.end;
      if t.kind == Eof {
        TokenizeAtEof(input, old(cursor));
      }
    }

    /** Return the next token without moving. */
    method Peek() returns (t: Token)
      requires Valid()
      modifies this
      ensures Valid() && cursor == old(cursor) && peeked == Some(t)
      ensures t == TokenAt(input, cursor) && t == Remaining()[0]
    {
      if peeked.None? {
        var n := LexNext();
        peeked := Some(n);
      }
      t := peeked.value;
    }
  }

  /** Two peeks and a next on a fresh lexer agree on one token. */
  method PeekPeekNext(input: string) returns (a: Token, b: Token, c: Token)
    ensures a == b == c == TokenAt(input, 0)
  {
    var lexer := new Lexer.Load(input);
    a := lexer.Peek();
    b := lexer.Peek();
    c := lexer.Next();
  }
}
