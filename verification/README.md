# slight-lisp, modelled in Dafny

slight-lisp is a small Lisp whose special forms are Greek letters: `δ`
(define), `λ` (lambda), `ι` (identity), `_` (ignore), `Ω` (nil), `->` and
`ε` (external). Source text passes through three stages:

- **Lexer** (`lexer.dfy`, class `Lexer.Lexer`). It accumulates characters
  into a buffer. At whitespace outside a string, at a parenthesis and at the
  end of the input it classifies the buffer, in this order, as a keyword, a
  literal or an identifier. Quotes toggle string mode.
- **Parser** (`parser.dfy`). A recursive descent over the tokens builds
  `Expr` trees: applications, variables, literals and keywords. A group
  whose head is itself a group is flattened. A group whose head is not an
  operator becomes an application of `ι`.
- **Evaluator** (`semantics.dfy`, `evaluator.dfy`). `Runtime` keeps a
  stack of frames and evaluates an `Expr` by trying five strategies in
  turn: variable, literal, special form, nested application, and
  application of a variable.

The supporting pieces are modelled too:

- keywords and their spellings (`keywords.dfy`);
- literals (`literal.dfy`): numbers as Rust's `f64` parser accepts them,
  quoted strings with escapes, and `nil`. The string check compares each
  character's index with the text's length in UTF-8 bytes, as the Rust code
  does. For ASCII text the two agree. A text with a non-ASCII character is
  rejected unless a backslash skips its closing quote;
- frames (`frame.dfy`);
- substitution of a value for a free name (`substitution.dfy`).

Imperative parts are Dafny classes and loops, each proved equal to a
specification function:

- the lexer object and its `lex` loop;
- the `parse_list` loop;
- the `Runtime` object, whose methods update its stack in place;
- the quoted-string scan;
- `Frame`.

The evaluator is specified by functions that return the outcome together
with the stack left behind. Every `Runtime` method is proved to produce
exactly that outcome and that stack.

Three kinds of outcome are explicit:

- a Rust panic (an `unwrap()` of an error, `unimplemented!()`, an index
  past the end) is the `Abort`, `LexPanic` or `ParsePanic` outcome;
- an `Err` is an error value;
- evaluation may not terminate, so it takes fuel and may end `OutOfFuel`.

## Model

| member | source | states |
|---|---|---|
| Keywords.Spelling | src/keywords.rs:14-26 | Each keyword prints as a non-empty symbol (δ λ -> ε ι _ Ω). |
| Keywords.SpellingInjective | src/keywords.rs:14-26 | Distinct keywords print differently, so a spelling names one keyword. |
| Literals.Display | src/literal.rs:10-18 | A number prints as written, a string between single quotes around exactly its text, and nil as `Φ`. |
| Literals.DecimalValue | src/literal.rs:22 | An unsigned decimal spelling denotes a non-negative value. |
| Literals.FloatOf | src/literal.rs:22 | A negative value or a negative infinity is read only from a text starting with `-`. |
| Literals.FloatEq | src/literal.rs:3 | `f64` equality: two values are equal if and only if they are the same value and not NaN. |
| Literals.LiteralEq | src/literal.rs:3 | Only literals of the same kind are equal. Strings and nil compare structurally. A number that reads as NaN equals nothing. |
| Literals.ParseNum | src/literal.rs:21-26 | A recognised number is a `Num` literal carrying exactly the text it was read from. |
| Literals.NumChars | src/literal.rs:21-26 | Every character of an accepted number is a digit, sign, `.`, `e`/`E`, or a letter of `inf`/`infinity`/`nan`. |
| Literals.NotNumber | src/literal.rs:21-26 | A text containing any other character is not a number. |
| Literals.EmptyIsNotNumber | src/literal.rs:21-26 | The empty text is not a number. |
| Literals.NumEqualityIsByValue | src/literal.rs:3-8 | Numbers compare as `f64` values: 5 equals 5.0, 0 equals -0, NaN differs from itself, and `inf` equals `Infinity`. |
| Literals.QuotedString | src/literal.rs:28-57 | An accepted string is at least two characters, starts and ends with `"`, and its payload is the text between the quotes. |
| Literals.ByteLength | src/literal.rs:29 | `str::len`, the UTF-8 byte count: at least one byte per character, and exactly one per character if and only if the text is ASCII. |
| Literals.ParseString | src/literal.rs:28-57 | The escape-tracking loop accepts exactly what `QuotedString` accepts, with the same payload. |
| Literals.EscapedStringAccepted | src/literal.rs:42-56 | Any ASCII payload with its quotes and backslashes escaped is accepted, and the payload is returned as written, escapes included. |
| Literals.InteriorQuoteRejected | src/literal.rs:42-54 | A quote strictly inside the text that the scan reaches, that is, one not skipped after a backslash, rejects it. |
| Literals.UnescapedAfterPlain | src/literal.rs:51-53 | The scan reaches every character that does not follow a backslash. |
| Literals.NonAsciiRejected | src/literal.rs:29-54 | A text with a non-ASCII character is rejected whenever the scan reaches its last character: that character's index is below the byte length minus one, so a closing quote there counts as interior. |
| Literals.AccentedStringRejected | src/literal.rs:28-57 | `"é"` is not a string literal. |
| Literals.EscapedClosingQuoteAccepted | src/literal.rs:42-56 | `"\"` is accepted with payload `\`: the escape skips the final quote, and the loop still accepts. |
| Literals.TrailingBackslashRejected | src/literal.rs:33-38 | A text ending in a backslash is never a string: its last character is not a quote. |
| Literals.ParseNil | src/literal.rs:59-65 | Only the nil literal is produced. |
| Literals.NilRoundTrip | src/literal.rs:10-18 | The printed nil literal `Φ` is read back as nil. |
| Lexer.SublexKeyword | src/lexer.rs:33-46 | The keyword classifier yields only keyword tokens. |
| Lexer.SublexLiteral | src/lexer.rs:48-53 | The literal classifier yields only literal tokens. |
| Lexer.SublexIdentifier | src/lexer.rs:55-64 | Yields a token if and only if the buffer is non-empty and has no quote, and that token is the buffer as an identifier. |
| Lexer.Classify | src/lexer.rs:66-71 | Tries keyword, then literal, then identifier: any token it gives is a keyword, a literal, or the buffer itself as an identifier. |
| Lexer.IsWhitespace | src/lexer.rs:95 | Space, tab, newline and carriage return are whitespace. No whitespace character is a parenthesis, quote or backslash. |
| Lexer.Flush | src/lexer.rs:66-89 | Clears the buffer and keeps string mode. Old tokens stay a prefix, and at most two tokens are added, the given one last. An empty buffer never fails. |
| Lexer.StepChar | src/lexer.rs:92-115 | One character only appends tokens and toggles string mode exactly when it is `"`. A panic reports the non-empty buffer being flushed. |
| Lexer.ScanChars | src/lexer.rs:92-116 | A panic inside the loop always reports a non-empty buffer. |
| Lexer.LexSpec | src/lexer.rs:91-121 | An error or a panic reports a non-empty buffer. Without a panic the buffer ends empty. |
| Lexer.ScanPanicUnclassifiable | src/lexer.rs:95-106 | A panic inside the loop reports a buffer no sublexer accepts. |
| Lexer.LexFailureUnclassifiable | src/lexer.rs:91-121 | Whatever `lex` fails on, inside the loop or at the last flush, is a buffer no sublexer accepts. |
| Lexer.Lexer.constructor | src/lexer.rs:24-31 | A new lexer has an empty buffer, is outside a string and holds no tokens. |
| Lexer.Lexer.Push | src/lexer.rs:66-89 | Leaves exactly the state and result `Flush` specifies: the buffer's token (if any) then the given token appended, the buffer cleared, and failure only for an unclassified buffer. |
| Lexer.Lexer.Lex | src/lexer.rs:91-121 | The character loop leaves the state and outcome that `LexSpec` gives: a mid-source flush failure is a panic, and a final one is an error. |
| Lexer.PanicPersists | src/lexer.rs:91-121 | Once a prefix of the input panics, the whole input panics with the same state. |
| Lexer.KeywordRoundTrip | src/lexer.rs:33-46 | Every keyword's printed symbol classifies back to that keyword. |
| Lexer.NihIsKeyword | src/lexer.rs:33-46 | `nih` is the `Ω` keyword, not a literal. |
| Lexer.NilIsLiteral | src/lexer.rs:48-53 | `nil` and `Φ` are the nil literal. |
| Lexer.InfIsNumber | src/lexer.rs:48-53 | `inf` is a number, because numbers are tried before identifiers. |
| Lexer.UnclassifiableBuffer | src/lexer.rs:55-64 | A buffer fails to classify if and only if it is empty, or contains a quote and is not a well-formed string. |
| Lexer.FlushEmptyBuffer | src/lexer.rs:66-89 | Flushing an empty buffer succeeds and appends only the given token. |
| Lexer.FlushUnclassifiable | src/lexer.rs:66-89 | Flushing an unclassifiable buffer fails, yet still clears it and appends the given token. |
| Lexer.ScanAppendsTokens | src/lexer.rs:91-121 | Scanning only ever appends tokens. |
| Lexer.ScanParens | src/lexer.rs:104-106 | The parenthesis tokens produced are exactly the parentheses of the input, in order, inside strings included. |
| Lexer.QuoteParity | src/lexer.rs:108-110 | After scanning, string mode equals the parity of the number of quotes read. |
| Lexer.LexIdentifiers | src/lexer.rs:55-64 | Every identifier token produced is non-empty and contains no quote or parenthesis. |
| Lexer.LexEmpty | src/lexer.rs:91-121 | Lexing empty input succeeds with no tokens. |
| Lexer.WhitespaceInString | src/lexer.rs:95-96 | Whitespace inside a string is kept in the buffer; outside a string it flushes the buffer. |
| Parser.Show | src/parser.rs:22-37 | An application prints wrapped in parentheses. |
| Parser.ShowOperands | src/parser.rs:26-28 | The fold prints nothing for no operands. Otherwise it prints a leading space, and at least one character per operand. |
| Parser.ShowApplication | src/parser.rs:22-37 | `(f)` and `(f a b)` print with single spaces between the items. |
| Parser.NilKeywordIsNotNilLiteral | src/parser.rs:22-37 | `Ω` and `Φ` print differently. |
| Parser.ParseKeyword | src/parser.rs:64-72 | Succeeds if and only if the current token is a keyword, consuming one token. At end of input it reports the position. |
| Parser.ParseLiteral | src/parser.rs:74-82 | Succeeds if and only if the current token is a literal, consuming one token. |
| Parser.ParseVar | src/parser.rs:110-120 | Succeeds if and only if the current token is an identifier, consuming one token. |
| Parser.ParseOperator | src/parser.rs:122-132 | A parsed operator consumes input and is well-headed. |
| Parser.ParseExpression | src/parser.rs:159-217 | A parsed group is a well-headed application and consumes input. |
| Parser.ParseItems | src/parser.rs:134-157 | Every operand parsed up to `)` is well-headed, and input is consumed. |
| Parser.ParseList | src/parser.rs:134-157 | The operand loop computes `ParseItems`. |
| Parser.Parse | src/parser.rs:219-224 | A parsed expression consumes input and is well-headed: every application's operator is a variable or keyword. |
| Parser.RunParser | src/parser.rs:226-235 | No tokens parse as the nil literal. Any result is well-headed. |
| Parser.ParseSource | src/parser.rs:237-248 | Lexing then parsing yields a well-headed tree, or nothing. |
| Parser.ParseTokens | src/parser.rs:159-224 | Round trip: parsing the tokens of any well-headed expression gives that expression and consumes exactly those tokens. |
| Parser.ParseGroupTokens | src/parser.rs:159-217 | Round trip for a group: the tokens of a well-headed application parse back to it. |
| Parser.ParseItemTokens | src/parser.rs:134-157 | Round trip for operand lists followed by `)`. |
| Parser.CurriedGroupFlattens | src/parser.rs:171-187 | `((f a) b)` parses as `(f a b)`. |
| Parser.CurriedGroupTokens | src/parser.rs:171-187 | For any well-headed group `(h ys…)` followed by well-headed operands `xs…`, the tokens `((h ys…) xs…)` parse as the single application `(h ys… xs…)`, consuming exactly those tokens. |
| Parser.ExpressionStep | src/parser.rs:159-195 | Once the operator and operands of a group are read, the group is their application, with a group operator's own operands placed first. |
| Parser.LiteralGroupIsIdentity | src/parser.rs:197-214 | A group headed by a literal becomes an application of `ι`. |
| Parser.EmptyGroupRejected | src/parser.rs:122-132 | `()` is an error at the operator rule. |
| Parser.LoneOpenPanics | src/parser.rs:122-132 | A lone `(` panics. |
| Parser.MissingCloseTolerated | src/parser.rs:134-157 | A group left open at end of input is accepted as if closed. |
| Parser.NoTokensIsNil | src/parser.rs:226-235 | Empty input parses as `Φ`. |
| Frames.Get | src/frame.rs:21-23 | Gives a binding exactly when the name is a key, and then its value. |
| Frames.Frame.constructor | src/frame.rs:11-19 | A new frame binds exactly the one given name. |
| Frames.Frame.Lookup | src/frame.rs:21-23 | Finds a binding exactly when the name is bound, and gives its value. |
| Frames.Frame.Push | src/frame.rs:25-27 | Binds the name, overwriting it; other names keep their bindings. |
| Frames.InsertOverwrites | src/frame.rs:25-27 | After an insert the name has the new value and other names are unchanged. A key is added only if the name was new. |
| Substitution.ReplaceFree | src/evaluator.rs:35-71 | Applications keep their shape and operand count. An operator that is the name becomes the value; any other operator is kept. The name itself becomes the value. Other leaves are unchanged. |
| Substitution.ReplaceEach | src/evaluator.rs:58-64 | Substitutes into every operand, keeping the count. |
| Substitution.ReplaceNotFree | src/evaluator.rs:35-71 | Substitution changes nothing where the name is not free. |
| Substitution.ReplaceRemoves | src/evaluator.rs:35-71 | After substituting a value without the name, the name is no longer free. |
| Substitution.ReplaceIdempotent | src/evaluator.rs:35-71 | Substituting twice is substituting once. |
| Substitution.BinderShadows | src/evaluator.rs:46-47 | A `δ`/`λ`/`ε` binding the name is left untouched. |
| Substitution.OtherKeywordOpaque | src/evaluator.rs:56 | Applications headed by `ι`, `_`, `Ω` or `->` are left untouched. |
| Substitution.ReplaceFreeLambdaTest | src/evaluator.rs:343-351 | `(x (λ x x) x)` with x := 1 gives `(1 (λ x x) 1)`. |
| Substitution.ReplaceFreeLambdaTestPrints | src/evaluator.rs:344 | That tree prints as `(1 (λ x x) 1)`. |
| Substitution.ReplaceFreeLambdaHeadTest | src/evaluator.rs:345-350 | Only the head `f` is replaced, not the shadowing `λ f`. |
| Substitution.ReplaceFreeDefTest | src/evaluator.rs:355 | `(x (δ x x) y x)` with x := 1 gives `(1 (δ x x) y 1)`. |
| Substitution.ReplaceFreeNestedBinderTest | src/evaluator.rs:356 | `(δ f (λ x y x))` with y := ι gives `(δ f (λ x ι x))`. |
| Substitution.ReplaceFreeShadowedTest | src/evaluator.rs:357-366 | The boolean encodings, which bind `p` themselves, are unchanged by p := 42. |
| Semantics.LookupInnermost | src/evaluator.rs:21-25 | A name resolves if and only if some frame binds it, and to the binding in the innermost such frame. |
| Semantics.StackLookup | src/evaluator.rs:21-25 | Any binding found is some frame's binding for the name, and a binding in the innermost frame wins. |
| Semantics.PushedVar | src/evaluator.rs:27-33 | Binding touches only the innermost frame, creating one only on an empty stack. |
| Semantics.PushedVarLookup | src/evaluator.rs:27-33 | After binding, the name resolves to the value; other names resolve as before. |
| Semantics.PopRestores | src/evaluator.rs:106-118 | Popping after a call that began with a pushed frame restores the stack below it. |
| Semantics.Eval | src/evaluator.rs:310-316 | Only the last strategy's errors are ever returned. A non-final evaluation changes at most the innermost frame. |
| Semantics.EvalVar | src/evaluator.rs:73-88 | A non-variable fails without touching the stack. |
| Semantics.EvalLiteral | src/evaluator.rs:90-95 | Succeeds if and only if the expression is a literal, giving the literal itself. |
| Semantics.EvalExprKeyword | src/evaluator.rs:97-240 | Special forms change at most the innermost frame. |
| Semantics.Unwrapped | src/evaluator.rs:145 | `unwrap()` turns an error into a panic carrying it, and passes anything else through; the stack is kept. |
| Semantics.EvalDef | src/evaluator.rs:101-139 | `δ` changes at most the innermost frame unless it panics or runs out of fuel. |
| Semantics.EvalLambda | src/evaluator.rs:140-192 | `λ` changes at most the innermost frame unless it panics or runs out of fuel. |
| Semantics.EvalLambdaCall | src/evaluator.rs:142-161 | The three-operand `λ` pops the frame it pushed, so it changes at most the innermost frame. |
| Semantics.EvalLambdaCurried | src/evaluator.rs:162-190 | The curried `λ` changes at most the innermost frame. |
| Semantics.EvalCurriedBinding | src/evaluator.rs:163-175 | The curried `λ` with a named parameter pops the frame it pushed, so it changes at most the innermost frame. |
| Semantics.EvalId | src/evaluator.rs:195-213 | `ι` changes at most the innermost frame. |
| Semantics.EvalIgnore | src/evaluator.rs:214-228 | `_` changes at most the innermost frame. |
| Semantics.EvalExprNested | src/evaluator.rs:242-270 | A nested application changes at most the innermost frame. |
| Semantics.EvalExprVar | src/evaluator.rs:272-308 | Its errors are the visible ones. It changes at most the innermost frame. |
| Semantics.LiteralIsFixedPoint | src/evaluator.rs:90-95 | A literal evaluates to itself with the stack unchanged. |
| Semantics.BareKeywordFails | src/evaluator.rs:310-316 | A bare keyword is an error of the last strategy. |
| Semantics.VariableEvaluatesBinding | src/evaluator.rs:73-88 | A bound variable evaluates its binding. An undefined one fails with the last strategy's error. |
| Semantics.NestedFlattens | src/evaluator.rs:242-270 | `((f a…) b…)` evaluates as `(f a… b…)`, and its failure is reported by the last strategy. |
| Semantics.SpecialFormDispatch | src/evaluator.rs:97-240 | A special form's result is the keyword arm's result. Its failure is masked as the last strategy refusing the keyword. |
| Semantics.DefIsScoped | src/evaluator.rs:102-121 | `δ x v body` evaluates the substituted body in a new frame binding x, then pops that frame. |
| Semantics.CurriedDefBinds | src/evaluator.rs:122-134 | `δ x v f a…` binds x in the innermost frame (creating one on an empty stack), evaluates `f a…` with x substituted, and pops nothing. Its failure is masked as the last strategy's error. |
| Semantics.CurriedDefPersists | src/evaluator.rs:122-134 | For any name and literals v and w, `(δ x v ι w)` on an empty stack gives w and leaves behind the frame binding x to v. |
| Semantics.LambdaIsScoped | src/evaluator.rs:142-161 | `λ x body arg` evaluates the substituted body in a new frame binding the argument's value, then pops it. |
| Semantics.CurriedLambdaBindsByFrame | src/evaluator.rs:162-190 | With more operands, the body is evaluated unsubstituted in the frame and applied to the rest, and the frame is popped. |
| Semantics.IgnoredArgumentIsIrrelevant | src/evaluator.rs:142-161 | With a `_` parameter the argument is never evaluated: the result does not depend on it. |
| Semantics.IgnoredCurriedCall | src/evaluator.rs:184-186 | The curried `_` arm evaluates and unwraps the body, then applies the result to the remaining operands. |
| Semantics.IgnoredCurriedArgumentIsIrrelevant | src/evaluator.rs:184-186 | With a curried `_` parameter the argument is never evaluated either: the result does not depend on it. |
| Semantics.LambdaValue | src/evaluator.rs:141 | `λ p body` is a value. |
| Semantics.IgnoreResults | src/evaluator.rs:214-228 | `(_)` is `_`, `(_ a)` is `Ω`, and `(_ a b)` panics on the missing third operand. |
| Semantics.ConstantForms | src/evaluator.rs:195-229 | `(ι)` is itself, and `Ω` applied to anything gives `Ω`; neither touches the stack. |
| Semantics.UnimplementedForms | src/evaluator.rs:193-194 | `->` and `ε` panic as unimplemented, whatever their operands. |
| Semantics.IdentityOfOne | src/evaluator.rs:195-213 | `(ι x)` is the evaluation of x. |
| Semantics.DefExample | src/evaluator.rs:102-121 | `(δ x 1 x)` is 1, and the stack is unchanged. |
| Semantics.LiteralGuard | src/evaluator.rs:154-157 | A literal parameter is a guard: an argument equal to it by value gives the body; any other gives a pattern mismatch, which the caller sees as the last strategy's error. The stack is unchanged either way. |
| Semantics.GuardMatches | src/evaluator.rs:154-155 | `(λ 5 "ok" 5.0)` is `"ok"`: the guard compares numbers by value. |
| Semantics.GuardMismatchIsMasked | src/evaluator.rs:154-157 | `(λ 5 "ok" "five")` fails, and the caller sees the last strategy's error instead of the mismatch. |
| Semantics.UndefinedOperatorPanics | src/evaluator.rs:272-308 | Calling an undefined function panics (an unwrap of an error). |
| Evaluator.Runtime.constructor | src/evaluator.rs:15-19 | A new runtime has no frames and binds nothing. |
| Evaluator.Runtime.Lookup | src/evaluator.rs:21-25 | Finds a binding if and only if some frame binds the name. |
| Evaluator.Runtime.PushVar | src/evaluator.rs:27-33 | Binds in the innermost frame, creating one if none exists. The name then resolves to the value. |
| Evaluator.Runtime.PopFrame | src/evaluator.rs:116 | Drops the innermost frame. |
| Evaluator.Runtime.Eval | src/evaluator.rs:310-316 | Computes exactly the outcome and final stack that `Semantics.Eval` specifies. |
| Evaluator.Runtime.EvalVar | src/evaluator.rs:73-88 | As `Semantics.EvalVar`, in place. |
| Evaluator.Runtime.EvalExprKeyword | src/evaluator.rs:97-240 | As `Semantics.EvalExprKeyword`, in place. |
| Evaluator.Runtime.EvalDef | src/evaluator.rs:101-139 | As `Semantics.EvalDef`: push, evaluate, and pop only if nothing panicked. |
| Evaluator.Runtime.EvalLambda | src/evaluator.rs:140-192 | As `Semantics.EvalLambda`, in place. |
| Evaluator.Runtime.EvalUnwrapped | src/evaluator.rs:145 | As `Semantics.Unwrapped` of `Semantics.Eval`, in place. |
| Evaluator.Runtime.EvalLambdaCall | src/evaluator.rs:142-161 | As `Semantics.EvalLambdaCall`, in place. |
| Evaluator.Runtime.EvalLambdaCurried | src/evaluator.rs:162-190 | As `Semantics.EvalLambdaCurried`, in place. |
| Evaluator.Runtime.EvalId | src/evaluator.rs:195-213 | As `Semantics.EvalId`, in place. |
| Evaluator.Runtime.EvalIgnore | src/evaluator.rs:214-228 | As `Semantics.EvalIgnore`, in place. |
| Evaluator.Runtime.EvalExprNested | src/evaluator.rs:242-270 | As `Semantics.EvalExprNested`, in place. |
| Evaluator.Runtime.EvalExprVar | src/evaluator.rs:272-308 | As `Semantics.EvalExprVar`, in place. |

## Left out

- Source positions (`position.rs` and the position half of every token): they only decorate tokens and error messages, and the column bump in `push` (src/lexer.rs:80-83) tests a buffer it has just cleared. The lexer's `lexems` accessor (src/lexer.rs:123-125) therefore becomes the token sequence itself.
- Error message texts: errors are modelled as categories (`EvalError`, `ParseError`) carrying the offending expression or token.
- The REPL, `main`, reading files and printing (`repl.rs`, `main.rs`) are I/O and are not part of this model. The REPL reuses one `Runtime` across inputs; that reuse is the class's persistent stack.
- `f64` arithmetic: numbers keep their spelling. Acceptance follows Rust's documented `f64` grammar, and guard equality compares exact decimal values. Rounding, overflow to infinity and Rust's number formatting in `Display` are not modelled, so `Literals.Display` prints a number as it was written.
- `parse_parenthesis_close` (src/parser.rs:97-108) is never called, so it is not modelled.
- `HashMap` and `VecDeque` internals: frames are maps and the stack is a sequence. Inside `Runtime` the frames are held as values, and `Frames.Frame` is modelled on its own.
- Semantics.Eval: termination. Evaluation of a diverging program runs out of fuel; the Rust program would recurse until the stack overflows.
- Evaluator.Runtime.EvalDef: after a panic nothing is popped. The model keeps the stack as it was at the panic, which the program never observes, because the panic ends it.
- Unicode `White_Space` is modelled as the list of its code points. Rust's `char::is_whitespace` uses the same set.
