# tiny-math-lang: the line pipeline, modelled in Dafny

tiny-math-lang (TML) reads a program one line at a time. This project models
the path that one line takes:

- `Lexing` (`lexing.dfy`) models `tml/src/lexer.rs`. This is the pull-based
  lexer, a class with a scan position `index` and one token of lookahead
  `peeked`.
  - The token computation of `lex_next` is specified by the function
    `TokenAt`. The iterator scans (`skip_while`, `find`) become the loop
    method `FindFirst`.
  - `Tokenize` is the token stream that repeated `next` calls deliver, Eof
    included. `Lexer.Remaining()` is what is still to come of that stream.
- `Parsing` (`parsing.dfy`) models `tml/src/parser.rs`.
  - The precedence-climbing parser is specified by functions over a token
    stream: `ParseAtom`, `ParseExpr`, `ParseInfix`, `ParseGroup`, `ParseCall`
    and `ParseTokens`.
  - The methods `ParserExpr` and `Parse` drive a `Lexing.Lexer` as the Rust
    code does. `ParserExpr`'s operand match is split into `ParserAtom`,
    `ParserGroup` and `ParserCall`.
  - Each method is proved to give the result of its function and to leave
    the lexer where the function leaves the stream.
  - Functions and methods take the nesting rule for operators of equal
    power: `Right` is the code as written, `Left` the corrected rule (see
    "## Findings"). `ParseText`, the parse of a line of text, uses `Right`.
- `ParsingProps` (`parsing_props.dfy`) proves what the parser does:
  - with the first token of a line;
  - with precedence, prefix operators and nesting;
  - with each error message;
  - that a successful parse consumes the whole line;
  - that a fully parenthesised rendering parses back to its expression.

  These facts are about token streams built for the purpose, whose tokens
  carry their own text as their line.
- `LexedLines` (`lexed_lines.dfy`) carries them over to lines of text:
  - the parser sees only token kinds and the text of numbers and names, so
    streams that agree on those parse alike;
  - a line spelled from words (numbers, names, punctuation) with no spaces
    lexes to the words' tokens, then Eof;
  - so the nesting, prefix and round-trip facts hold for `ParseText` of an
    actual line, with `8-4-2`, `2+3*4`, `2*3+4` and `-2*3` as instances.
- `Interpreter` (`interpreter.dfy`) models `tml/src/interpreter.rs`:
  - `compute_literal` as the function `ComputeLiteral`;
  - `compute_print` as the loop method `ComputePrint`, specified by
    `Printed`.
- `Highlighter` (`highlighter.dfy`) models `tml/src/highlighter.rs`.
  - `highlight` is a loop method over the lexer.
  - It is specified by the segment list `Highlighted`, which holds styled
    token spans and the text copied between tokens.
- `Gutter` (`gutter.dfy`) models `website/src/gutter.js`. This is the
  right-aligned line numbers of the web editor, each padded with newlines to
  the height of its line.
- `Results` and `Strings` hold `Option`/`Result` and two string helpers
  (`Repeat`, `Count`).

Numbers are abstract.
- The parser is given `parseNumber: string -> Option<N>`, which stands for
  `str::parse::<f64>`.
- The evaluator is given an `Arith<N>` record. It holds negation, the five
  operators, the sixteen library functions, the constants `PI` and `E`, and
  `Display` formatting.

Offsets are character indices into the line. The Rust code uses UTF-8 byte
offsets, and the two agree on ASCII input.

`interpreter.rs` imports `Literal`, `Print`, `UnOp` and `BinOp` from
`parser`, but `parser.rs` at this revision defines only `Line` and an `Expr`
over the lexer's `Op`, with no variables. The two files come from different
revisions of the program, so the interpreter's types are declared in
`Interpreter` from their uses, and nothing converts an `Expr` into a
`Literal`.

## Model

| member | source | states |
|---|---|---|
| Lexing.Token.Splice | tml/src/lexer.rs:50-52 | the text of a token has the length of its span and is the line's characters over that span |
| Lexing.Token.After | tml/src/lexer.rs:54-56 | same line and kind, a one-character span starting where the token ends |
| Lexing.Token.ErrThere | tml/src/lexer.rs:58-68 | the message, a newline, the line, a newline, `span.start` spaces, then `max(1, span length)` carets and nothing else |
| Lexing.TokenAt | tml/src/lexer.rs:89-147 | the token read at offset `i` starts after whitespace only and lies within the line. It is Eof exactly when only whitespace is left, and then its span is `len..len`. Any other token is non-empty and starts on a non-whitespace character |
| Lexing.Find | tml/src/lexer.rs:93 | the scan stops at or after `i` and within the line, on a character that meets the predicate, with none before it from `i` |
| Lexing.WhitespaceApart | tml/src/lexer.rs:93 | space, tab, newline and carriage return are whitespace; whitespace is never a name character, an operator, a separator, a quote or a dot |
| Lexing.Scan | tml/src/lexer.rs:96-142 | a token whose first character is at `start` is never Eof, starts at `start`, is non-empty and ends within the line |
| Lexing.FindIsFirst | tml/src/lexer.rs:93 | the first offset from `i` whose character meets the predicate, or the line length, is the one the scan finds |
| Lexing.Punctuation | tml/src/lexer.rs:99-107 | exactly the eight characters `+-*/%()#` are one-character tokens |
| Lexing.OpChar | tml/src/lexer.rs:100-104 | the character of each operator is read back as that operator; it is no whitespace, name character or dot |
| Lexing.PunctuationAt | tml/src/lexer.rs:99-107 | a punctuation character after whitespace only is read as its own one-character token |
| Lexing.NumberScan | tml/src/lexer.rs:115-133 | a run of digits with at most one dot, followed by neither, is scanned as one number token over exactly that run |
| Lexing.NumberAt | tml/src/lexer.rs:89-133 | a number text after whitespace only, followed by neither a digit nor a dot, is read as one number token over exactly that text |
| Lexing.NameScan | tml/src/lexer.rs:134-140 | a letter or `_` then name characters, followed by no name character, is scanned as one identifier token over exactly that run |
| Lexing.NameAt | tml/src/lexer.rs:89-140 | a name text after whitespace only, followed by no name character, is read as one identifier token over exactly that text |
| Lexing.EofShape | tml/src/lexer.rs:143-147 | the next token is Eof iff the rest of the line is whitespace, and reading again from Eof's end gives Eof again |
| Lexing.PunctuationShape | tml/src/lexer.rs:99-107 | a token is an operator or a separator iff its first character is one of `+-*/%()#`; it then has that character's kind and length one |
| Lexing.CommentShape | tml/src/lexer.rs:93-107 | the first token of a line is a comment at `p` iff `p` holds `#` and everything before it is whitespace |
| Lexing.StrShape | tml/src/lexer.rs:108-114 | a token is a string iff it starts with `"`. It holds no other quote before its last character, and ends just after the next quote or, without one, at the end of the line |
| Lexing.NbShape | tml/src/lexer.rs:115-133 | a token is a number iff it starts with a digit. It holds digits and at most one dot, and it is maximal: no digit follows it, and a dot follows it only when it already holds one |
| Lexing.IdShape | tml/src/lexer.rs:134-140 | a token is an identifier iff it starts with a letter or `_`; it is a maximal run of letters, digits and `_` |
| Lexing.ErrShape | tml/src/lexer.rs:141 | a token is an error iff its first character starts no other kind; it runs to the end of the line, so the next token is Eof |
| Lexing.Tokenize | tml/src/lexer.rs:153-155 | the tokens that repeated reads deliver form a stream: in bounds, ending with Eof and with no Eof before, and starting with the token at the offset |
| Lexing.TokenizeStep | tml/src/lexer.rs:153-155 | before Eof, the stream is the token at the offset followed by the stream from that token's end |
| Lexing.TokenizeFrom | tml/src/lexer.rs:96-148 | every token of the stream comes from the line and starts at or after the starting offset |
| Lexing.TokenizeNonEmpty | tml/src/lexer.rs:98-141 | every token before Eof covers at least one character, so reading reaches Eof |
| Lexing.TokenizeOrdered | tml/src/lexer.rs:96-148 | successive tokens never overlap and never go backwards |
| Lexing.TokenizeAtEof | tml/src/lexer.rs:143-147 | once only whitespace is left, the stream is the single Eof token, the same as at the end of the line |
| Lexing.FindFirst | tml/src/lexer.rs:93-138 | the scan loop stops at the first offset whose character meets the predicate, or at the end of the line |
| Lexing.ScanToken | tml/src/lexer.rs:90-147 | skipping whitespace and then scanning gives exactly `TokenAt` |
| Lexing.ScanAt | tml/src/lexer.rs:96-142 | the match on the first character gives exactly `Scan` |
| Lexing.Lexer.Load | tml/src/lexer.rs:80-86 | a fresh lexer is at offset 0 with nothing peeked, and has the whole stream of the line to deliver |
| Lexing.Lexer.LexNext | tml/src/lexer.rs:89-150 | returns the token at the scan position and moves the scan position to the token's end |
| Lexing.Lexer.Next | tml/src/lexer.rs:153-155 | returns the first token still to come (the peeked one if any) and clears the lookahead. What remains loses that token, except Eof, which stays |
| Lexing.Lexer.Peek | tml/src/lexer.rs:158-163 | returns the first token still to come and stores it as the lookahead, without moving the reading position |
| Lexing.PeekPeekNext | tml/src/lexer.rs:153-163 | on a fresh lexer, two peeks and then a next return the same token |
| Parsing.PrefixBindingPower | tml/src/parser.rs:93-98 | prefix `+`/`-` bind tighter than every infix operator; any other prefix operator binds looser than every infix operator |
| Parsing.InfixBindingPower | tml/src/parser.rs:100-105 | powers are 1 or 2, and 2 exactly for `*`, `/` and `%` |
| Parsing.ParseAtom | tml/src/parser.rs:38-72 | a parsed operand leaves a stream that is strictly shorter |
| Parsing.ParseExpr | tml/src/parser.rs:37-91 | a parsed expression leaves a strictly shorter stream, and the next token is not an operator of power at least `min_bp` |
| Parsing.ParseInfix | tml/src/parser.rs:74-90 | the loop leaves no longer a stream, and stops only before a token that is not an operator of power at least `min_bp` |
| Parsing.ParseGroup | tml/src/parser.rs:44-51 | a parsed group leaves a strictly shorter stream |
| Parsing.ParseCall | tml/src/parser.rs:52-66 | a parsed call leaves a strictly shorter stream |
| Parsing.ParseTokens | tml/src/parser.rs:21-34 | a token stream parses as an empty line iff it starts with Eof, and as a comment iff it starts with `#`, the comment then being at that token's offset |
| Parsing.ParseText | tml/src/parser.rs:21-34 | a line of text parses as an empty line iff it is all whitespace |
| Parsing.ParserAtom | tml/src/parser.rs:38-72 | for either nesting rule, the lexer-driven operand match gives the result and message of `ParseAtom` and leaves the lexer at the stream it leaves; success advances the lexer |
| Parsing.ParserGroup | tml/src/parser.rs:44-51 | the lexer-driven group gives the result of `ParseGroup` and leaves the lexer where it does |
| Parsing.ParserCall | tml/src/parser.rs:52-66 | the lexer-driven call gives the result of `ParseCall` and leaves the lexer where it does |
| Parsing.ParserExpr | tml/src/parser.rs:37-91 | `parser_expr` with its loop gives the result of `ParseExpr` and leaves the lexer where it does; success advances the lexer. `Right` is the code as written, `Left` the corrected nesting |
| Parsing.Parse | tml/src/parser.rs:21-34 | `parse` gives exactly `ParseTokens` of the stream still to come, under the nesting rule it is given |
| ParsingProps.ParseRendered | tml/src/parser.rs:37-91 | in a token stream, parsing the fully parenthesised rendering of an expression gives that expression and goes on as if it had been read, whatever follows |
| ParsingProps.RoundTrip | tml/src/parser.rs:21-91 | the token sequence of a fully parenthesised rendering, followed by Eof, parses back to the expression |
| ParsingProps.ChainNesting | tml/src/parser.rs:74-105 | the token sequence `x o1 y o2 z` nests right iff `o2`'s power reaches the power at which `o1`'s right operand is parsed |
| ParsingProps.PrefixScope | tml/src/parser.rs:67-98 | in the token sequence `o x o2 y`, prefix `+`/`-` takes only the number after it; a prefix `*`, `/` or `%` takes the rest |
| ParsingProps.LeadingToken | tml/src/parser.rs:22-71 | in a token stream, Eof first iff an empty line; `#` first iff a comment at its offset; a string, `)` or error token first gives "Incomplete expression" at it |
| ParsingProps.MissingOperand | tml/src/parser.rs:71-86 | in a token stream, an operator followed by a string, `)`, `#`, error token or Eof gives "Incomplete expression" at that token |
| ParsingProps.UnclosedGroup | tml/src/parser.rs:44-49 | in a token stream, a group whose content is followed by neither `)` nor an operator gives the unclosed-block error at that token |
| ParsingProps.CallWithoutArguments | tml/src/parser.rs:52-58 | in a token stream, a name not followed by `(` gives the missing-arguments error at the token after it |
| ParsingProps.UnclosedCall | tml/src/parser.rs:60-64 | in a token stream, a call whose argument is followed by neither `)` nor an operator gives the unclosed-call error at that token |
| ParsingProps.TrailingToken | tml/src/parser.rs:28-32 | in a token stream, a complete expression followed by a token that is not Eof and not an operator gives "Invalid expression" at it |
| ParsingProps.InvalidNumber | tml/src/parser.rs:40-43 | in a token stream, a number token that does not parse gives "Invalid Number" at it |
| ParsingProps.CommentLine | tml/src/parser.rs:25-26 | a line parses as a comment at `p` iff `p` holds the first non-whitespace character and it is `#` |
| ParsingProps.ExprSuffix | tml/src/parser.rs:37-91 | what a parsed expression leaves is a suffix of the stream it was given |
| ParsingProps.WholeLine | tml/src/parser.rs:28-33 | when a line parses as an expression, the expression's parse leaves only the final Eof |
| LexedLines.LineAlike | tml/src/parser.rs:21-91 | two streams with the same kinds and the same number and name texts both parse or both fail; on success both are comments or neither, and otherwise the results are equal |
| LexedLines.LexWords | tml/src/lexer.rs:89-155 | a line spelled by words, with every number or name followed by punctuation or the end, lexes to the words' tokens and then Eof |
| LexedLines.ChainLexed | tml/src/lexer.rs:89-155 | the line `x o1 y o2 z` written without spaces lexes to the token sequence `x o1 y o2 z` |
| LexedLines.PrefixLexed | tml/src/lexer.rs:89-155 | the line `o x o2 y` written without spaces lexes to the token sequence `o x o2 y` |
| LexedLines.TextChainNesting | tml/src/parser.rs:74-105 | the line `x o1 y o2 z` nests right iff `o2`'s power reaches the power at which `o1`'s right operand is parsed, and left otherwise |
| LexedLines.TextPrefixScope | tml/src/parser.rs:67-98 | on the line `o x o2 y`, prefix `+`/`-` takes only the number after it; a prefix `*`, `/` or `%` takes the rest of the line |
| LexedLines.ChainAsWritten | tml/src/parser.rs:80-87 | as written, the line `x o1 y o2 z` nests right iff `o1`'s power is at most `o2`'s: equal powers nest right |
| LexedLines.ChainLeft | tml/src/parser.rs:80-87 | with the right operand parsed one power higher, the line `x o1 y o2 z` nests right iff `o2` is strictly stronger, and left otherwise |
| LexedLines.SubtractionChain | tml/src/parser.rs:80-87 | the line `8-4-2` parses as `8-(4-2)` as written, and as `(8-4)-2` with the corrected rule |
| LexedLines.Precedence | tml/src/parser.rs:74-105 | the line `2+3*4` parses as `2+(3*4)` and `2*3+4` as `(2*3)+4` |
| LexedLines.PrefixExamples | tml/src/parser.rs:67-98 | the line `-2*3` parses as `(-2)*3`, and `*2-3` as `*(2-3)` |
| LexedLines.RenderTokens | tml/src/parser.rs:37-72 | the words of a fully parenthesised expression stand for the tokens the parser reads back |
| LexedLines.TextRoundTrip | tml/src/parser.rs:21-91 | a fully parenthesised expression written as a line, its numbers as the lexer reads numbers, parses back to the expression under either nesting rule |
| Interpreter.FunctionNamed | tml/src/interpreter.rs:37-55 | a name is found iff it is the name of one of the sixteen library functions, and it is found as that function |
| Interpreter.FunctionTable | tml/src/interpreter.rs:37-53 | each function is found under its own name, and no two functions share a name |
| Interpreter.ComputeLiteral | tml/src/interpreter.rs:15-63 | a number evaluates to itself; a variable succeeds iff it is `PI` or `E`; a successful call names a known function |
| Interpreter.Unknowns | tml/src/interpreter.rs:15-63 | every name that evaluation meets unknown gives an unknown-function or unknown-variable message |
| Interpreter.Value | tml/src/interpreter.rs:15-63 | without unknown names, evaluation succeeds with this value: a number gives itself, prefix `+` keeps and `-` negates, operators and functions apply to their operands' values, and `PI`/`E` give the constants |
| Interpreter.FirstError | tml/src/interpreter.rs:15-63 | evaluation fails iff the literal names an unknown function or variable. The error is the first such name in evaluation order: left operand before right, and argument before name |
| Interpreter.ErrorIndependent | tml/src/interpreter.rs:15-63 | whether evaluation fails, and with which message, does not depend on the number operations |
| Interpreter.PartText | tml/src/interpreter.rs:8-9 | a string part contributes itself; a literal part succeeds iff its evaluation does |
| Interpreter.Printed | tml/src/interpreter.rs:4-13 | printing succeeds iff every part does |
| Interpreter.ComputePrint | tml/src/interpreter.rs:4-13 | the loop gives `Printed`: the parts' texts in order, or the first error |
| Interpreter.PrintedStops | tml/src/interpreter.rs:8 | once a prefix of the parts fails, later parts change nothing |
| Interpreter.PrintedAppend | tml/src/interpreter.rs:6-12 | printing `p + q` is the left half's error, else the right half's, else the two texts joined |
| Interpreter.PrintedFirstError | tml/src/interpreter.rs:6-11 | the result is the error of the first failing part |
| Interpreter.AllStrings | tml/src/interpreter.rs:6-12 | parts that are all strings never fail and give their texts joined in order |
| Highlighter.ClassOf | tml/src/highlighter.rs:22-40 | number, operator and string tokens get their classes; an identifier is `function` iff the next token is `(`, otherwise `variable`; separators and errors get no span |
| Highlighter.TokenSegment | tml/src/highlighter.rs:22-39 | the text of a token's segment is the token's own text |
| Highlighter.Gap | tml/src/highlighter.rs:18-20 | the text between the position and the next token is copied as at most one unstyled segment |
| Highlighter.Walk | tml/src/highlighter.rs:13-42 | the loop writes no `comment` span, and writes something whenever a token is left |
| Highlighter.Highlighted | tml/src/highlighter.rs:5-44 | the output is empty iff the line is all whitespace, and a `comment` span, if any, is the whole line alone |
| Highlighter.Highlight | tml/src/highlighter.rs:5-44 | the loop over the lexer writes exactly the HTML of `Highlighted` |
| Highlighter.Classify | tml/src/highlighter.rs:22-39 | the match on the token's kind writes that token's segment with the class `ClassOf` gives, peeking at the next token without moving the lexer |
| Highlighter.WalkTexts | tml/src/highlighter.rs:14-21 | with the markup removed, the gaps and token texts from offset `i` reassemble the line from `i`, trailing whitespace included |
| Highlighter.Reassembly | tml/src/highlighter.rs:10-21 | every line that is not blank comes back unchanged once the markup is removed |
| Highlighter.BlankLine | tml/src/highlighter.rs:7-9 | the output is empty iff the line is all whitespace |
| Highlighter.CommentLine | tml/src/highlighter.rs:10-11 | the line is written as one `comment` span iff its first non-whitespace character is `#` |
| Gutter.NbCharLineNb | website/src/gutter.js:2-12 | the width of a line number is between 1 and 4 |
| Gutter.Decimal | website/src/gutter.js:17 | the decimal writing of a number is a non-empty string of digits |
| Gutter.DecimalValue | website/src/gutter.js:17 | reading the digits back gives the number |
| Gutter.DecimalLength | website/src/gutter.js:2-17 | the width equals the number of digits iff the number is below 10000; beyond that the number is wider than four |
| Gutter.FormatLineNb | website/src/gutter.js:15-18 | an entry is `pad` spaces, then `idx`'s digits, then `height` newlines, where `pad` is the width of the line count less that of `idx` |
| Gutter.RightAligned | website/src/gutter.js:15-18 | for `idx <= n < 10000` the padding is non-negative, and the entry is spaces, then `idx`'s digits ending at column `nbCharLineNb(n)`, then `height` newlines |
| Gutter.FormatNewlines | website/src/gutter.js:17 | an entry holds exactly `height` newlines |
| Gutter.Entries | website/src/gutter.js:21-27 | the first `k` entries take at least two characters each |
| Gutter.HeightsToGutterContent | website/src/gutter.js:21-27 | the loop gives the entries of every line in index order, each followed by a newline (`""` for no lines) |
| Gutter.EntriesNewlines | website/src/gutter.js:17-24 | the first `k` entries hold the sum of the first `k` heights plus `k` newlines |
| Gutter.GutterNewlines | website/src/gutter.js:21-27 | the gutter holds `sum(heights) + |heights|` newlines |
| Gutter.EntriesLength | website/src/gutter.js:15-27 | below 10000 lines, each entry is the width of the line count, plus its height, plus one character |

## Left out

- Floating point.
  - Numbers are a type parameter. The `f64` operations, the sixteen library functions, `PI`, `E`, `f64` parsing and `Display` formatting are parameters.
  - No numeric fact about them is stated.
- "Invalid Number" cannot happen in Rust: `str::parse::<f64>` accepts every digit run with an optional fraction that the lexer produces.
  - It is kept as an error path, since `parseNumber` may refuse any text.
- A line such as `3.4.5` lexes as the number `3.4` followed by an error token `.5`. It is therefore rejected with "Invalid expression" at `.5`, not with "Invalid Number".
- `Expr` and `Literal` are not connected.
  - The parser builds no variables: a bare name such as `PI` gives the missing-arguments error.
  - The interpreter's `Var` case is modelled on its own.
- Offsets are characters, not UTF-8 bytes. On non-ASCII input, the Rust slicing `&source[span]` and `&code[c..span.start]` can differ from this model.
- Lexing.Token.Splice: its precondition that the span lies inside the line stands for the Rust panic on an out-of-range slice. The lexer only builds tokens that meet it.
- The scan of `lex_next` starts from `self.input.get(self.index..).unwrap_or("")`.
  - The model requires the index to be within the line, which the lexer keeps as an invariant.
  - The fallback to an empty rest is not modelled.
- Lexer's ghost `cursor` field is proof bookkeeping. It says where the next token's scan begins.
- Gutter.FormatLineNb requires the number to be no wider than the line count, because `' '.repeat` throws on a negative count.
- Gutter.Entries: heights are natural numbers. In JavaScript, `'\n'.repeat(h)` throws a `RangeError` for a negative height and truncates a fractional one; neither case is modelled.
- The gutter numbers lines from 0, padded to the width of the line count. At 10000 lines or more the width stops at 4, so numbers stop being aligned (`Gutter.DecimalLength`).
- Highlighting escapes no HTML. Token and gap text are written as they are, so a line containing `<` yields markup.
- That `highlight` never panics, as its property test asserts, is captured by the totality of `Highlighter.Highlight`. It has no preconditions and a termination measure. Its `match` on the token kind is the helper method `Highlighter.Classify`.
- That `compute_literal` has no side effects is not stated. It is implicit in it being a Dafny function.
- `Token::new` is the datatype constructor `Lexing.Token`, and `is_nb`, `is_id_init` and `is_id_content` are the predicates `Lexing.IsNb`, `Lexing.IsIdInit` and `Lexing.IsIdContent`. None of them has a contract of its own; the shape lemmas state what they decide.
- The error lemmas of `ParsingProps` (`MissingOperand`, `UnclosedGroup`, `CallWithoutArguments`, `UnclosedCall`, `TrailingToken`, `InvalidNumber`) are stated over token streams only. Their messages draw the caret line from the token's own line and offsets, so `LexedLines.LineAlike` carries whether a line fails over to lines of text, but not the message.
- The REPL, the wasm bindings, the batch entry points (`tml/src/lib.rs`) and the web editor's DOM and selection code are not part of this model.

## Findings

| source | as written | input that shows it | evidently intended | confidence | as-written member | corrected member |
|---|---|---|---|---|---|---|
| tml/src/parser.rs:81-86 | the loop stops only when `bp < min_bp`, and the right operand is parsed at `bp`, so an operator of equal power nests to the right | `8-4-2` parses as `8-(4-2)` (value 6, not 2); `8/4/2` as `8/(4/2)` (value 4, not 1) | left associativity for operators of equal power: right operand parsed at `bp + 1`, giving `(8-4)-2` | not executed | LexedLines.SubtractionChain | LexedLines.ChainLeft |
