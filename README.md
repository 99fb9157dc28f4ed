# Pratt parser for infix arithmetic — a Dafny model

The program reads a line of infix arithmetic over one-character operands and
prints it fully parenthesised in prefix form: `1 + 2 * 3` becomes
`(+ 1 (* 2 3))`. It has four parts:

- a **lexer**. It drops ASCII whitespace, turns letters and digits into
  `Atom` tokens and every other character into an `Op` token, and keeps the
  tokens as a reversed stack. `next` pops a token and `peek` looks at the top;
  both give `EOF` when the stack is empty.
- a **binding-power table**: `+ -` have powers (1.0, 1.1) and `* /` have
  (2.0, 2.1); any other operator panics.
- a **precedence-climbing parser**. It reads a left-hand side (an atom, or
  `(` expression `)`), then loops over operators. It stops at the end, at
  `)`, or at an operator whose left power is below the current threshold.
  Otherwise it consumes the operator and parses the right operand with that
  operator's right power.
- the **`Display` rendering** of the tree: `(op child child)`.

The modules follow the program's structure:

| file | module | what it models |
|---|---|---|
| `lexer.dfy` | `Tokens` | the `Token` type, the filter/map pipeline, the `Lexer` class with its stack field, `new`, `next`, `peek` |
| `errors.dfy` | `Errors` | the failures that stand for the program's panics |
| `binding_power.dfy` | `BindingPower` | `infix_binding_power` |
| `expression.dfy` | `Expressions` | `Expression` and `Display::fmt` (a `Formatter` class that is appended to) |
| `parser.dfy` | `Parser` | `parse_expression`: a reference definition, and the recursive method over a `Lexer` proved equal to it; `from_str` |
| `ordered_trees.dfy` | `OrderedTrees` | what a correct precedence tree is, independently of binding powers |
| `parser_properties.dfy` | `ParserProperties` | what the parser guarantees: stopping points, tokens consumed, tree shape, precedence, failures, parentheses |
| `examples.dfy` | `ParseExamples` | lines of fixed shapes for every operand and operator, the concrete lines, and whole-line properties |

Modelling decisions:

- **Binding powers.** Powers are `f32` in the program but are only ever
  compared with `<`. They become the integers 10/11 and 20/21, and the
  threshold 0.0 becomes `TopLevel = 0`. This keeps every comparison the
  parser makes.
- **Panics and failures.**
  - A panic becomes an `Err` of `Result`. The model then stops, as the
    program does.
  - There are four failures: `UnexpectedStartToken` (the `bad token` panic
    of the left-hand side), `UnmatchedParenthesis` (the `assert_eq!` on the
    closing `)`), `UnexpectedOperatorToken` (the `bad token` panic of the
    loop) and `UnknownOperator` (the table's panic).
  - Each failure carries the token or character the program would print.
- **The lexer's stack.**
  - The `Lexer` class keeps the program's reversed stack in its `tokens`
    field.
  - Its constructor builds the token sequence, then reverses it with an
    in-place swap loop on an array (`tokens.reverse()`).
  - The ghost view `Remaining()` gives the same tokens front to back. The
    parser's contracts are stated over it.
- **Two parsers proved equal.**
  - `Parser.ParseExpr`/`ParseLoop` are a functional reference. They return
    the tree and the unconsumed tokens.
  - `Parser.ParseExpression` is the program's recursive function with its
    `loop`. Its contract is that its result, and the lexer state it leaves,
    agree with the reference.
  - Every property proved of the reference therefore holds for the method.

Where the documentation and the code differ, the model follows the code.
`from_str` parses one expression and never checks that the line ends there.
So `1 + 2) * 3` gives `(+ 1 2)` and the rest is ignored
(`ParseExamples.TrailingTokensIgnored`).

## Model

| member | source | states |
|---|---|---|
| Tokens.Classify | main.rs:20-23 | a letter or digit becomes an `Atom` of itself, any other character an `Op` of itself |
| Tokens.Tokenize | main.rs:17-23 | the tokens of a line are all valid (atoms are alphanumeric, operators are neither whitespace nor alphanumeric) and no more numerous than its characters |
| Tokens.TokenizeAppend | main.rs:17-23 | tokenizing is a homomorphism: the tokens of `a + b` are those of `a` followed by those of `b` |
| Tokens.TokenizeChar | main.rs:19-22 | a whitespace character gives no token, any other exactly its classification |
| Tokens.BlankHasNoTokens | main.rs:19 | a line made only of whitespace has no tokens |
| Tokens.WhitespaceInsensitive | main.rs:19 | inserting a whitespace character anywhere leaves the tokens unchanged |
| Tokens.TokenizeKeepsCharacters | main.rs:17-23 | the characters of the tokens are exactly the line's non-whitespace characters in order |
| Tokens.TokenCount | main.rs:19 | the number of tokens is the length minus the occurrences of the five ASCII whitespace characters |
| Tokens.ReversedTwice | main.rs:24 | reversing twice gives back the sequence |
| Tokens.ReverseInPlace | main.rs:24 | the array afterwards holds the reversal of its old contents |
| Tokens.Lexer.constructor | main.rs:16-26 | the stack holds the reversed tokens of the line, so the tokens still to be read are those of the line in order |
| Tokens.Lexer.Next | main.rs:28-30 | pops and returns the top of the stack, which is the first remaining token; on an empty stack returns `EOF` and changes nothing |
| Tokens.Lexer.Peek | main.rs:32-34 | returns the token `Next` would return (the top, or `EOF`) and changes nothing |
| BindingPower.InfixBindingPower | main.rs:37-43 | succeeds exactly for `+ - * /`, with a left power above the top-level threshold and a right power above the left; fails with `UnknownOperator` for every other character |
| BindingPower.ProductsBindTighter | main.rs:39-40 | both powers of `*` and `/` exceed both powers of `+` and `-` |
| BindingPower.SamePrecedenceSamePowers | main.rs:39-40 | two operators have the same powers exactly when they have the same precedence level |
| BindingPower.AbsorbedIffTighter | main.rs:95-101 | an operator following a right operand is taken into that operand exactly when it has strictly higher precedence than the operator before it |
| BindingPower.TopLevelAcceptsAll | main.rs:95-97 | no operator of the table is below the threshold 0.0 of a top-level or parenthesised loop |
| Expressions.Formatter.Write | main.rs:56 | the output afterwards is the old output followed by the text |
| Expressions.Fmt | main.rs:51-67 | writing a tree appends exactly its rendering: an atom's character, or `(`, the operator, a space, the children separated by single spaces, and `)` |
| Expressions.ToString | main.rs:133 | the text of a tree is its rendering |
| Expressions.RenderAtom | main.rs:54 | an atom renders as its own character |
| Expressions.RenderBinary | main.rs:55-64 | a binary operation renders as `(op left right)` |
| Expressions.RenderStart | main.rs:53-64 | the rendering of a well-formed tree starts with `(` exactly when the tree is an operation |
| Expressions.RenderPrefixFree | main.rs:53-64 | no rendering of a well-formed tree is a proper prefix of another's |
| Expressions.RenderInjective | main.rs:53-64 | two well-formed trees with the same rendering are equal, so the printed text determines the tree |
| Expressions.InfixBinary | main.rs:102 | a binary operation reads back in infix order as the left operand's tokens, the operator, then the right operand's tokens |
| Expressions.LeavesBinary | main.rs:102 | the leaves of a binary operation are the left operand's followed by the right operand's |
| Parser.ParseExpr | main.rs:76-105 | on success an expression consumes at least one token, leaves a suffix of its input and yields a binary tree |
| Parser.ParseLoop | main.rs:87-103 | on success the loop leaves a suffix of its input and keeps the tree binary |
| Parser.ParseExpression | main.rs:76-105 | the recursive parser over the lexer returns the reference parser's tree, or its failure, and on success leaves exactly the reference's unconsumed tokens in the lexer |
| Parser.FromStr | main.rs:70-73 | parsing a line from a fresh lexer with threshold 0.0 gives the reference parse of the line's tokens |
| OrderedTrees.InfixOpsBound | main.rs:95-102 | every operator in the infix reading of a precedence-ordered tree binds at least as tightly as its root |
| OrderedTrees.RootPosition | main.rs:95-102 | two precedence-ordered operations with the same infix reading have their roots at the same position |
| OrderedTrees.PrecOrderedUnique | main.rs:95-102 | a precedence-ordered tree is determined by its infix reading |
| ParserProperties.LoopStops | main.rs:88-98 | the loop stops only at the end, at `)`, or at an operator of the table whose left power is below the threshold |
| ParserProperties.ParseStops | main.rs:87-98 | a successful expression leaves exactly such a stopping point |
| ParserProperties.TopLevelStops | main.rs:80-81 | a top-level or parenthesised expression stops only at the end or at `)` |
| ParserProperties.ParseInfix | main.rs:77-102 | the tree read back in infix order is exactly the consumed tokens without their parentheses |
| ParserProperties.LeavesAreInfixAtoms | main.rs:102 | the leaves of a binary tree are the operand characters of its infix reading |
| ParserProperties.ParseLeaves | main.rs:78 | the leaves of the tree are the consumed operand characters in input order |
| ParserProperties.ParseWellFormed | main.rs:77-102 | from the lexer's tokens every operation has two children and an operator of the table, and every leaf is a letter or digit |
| ParserProperties.ParseOrdered | main.rs:95-102 | without parentheses the tree is precedence-ordered: the left operand binds at least as tightly as the operator, and the right operand strictly more tightly |
| ParserProperties.ParseIsPrecedenceTree | main.rs:87-103 | without parentheses the top-level tree is the one and only precedence-ordered tree that reads back as the consumed tokens |
| ParserProperties.ParseErrors | main.rs:77-95 | every failure is one of four: a start token that is neither an atom nor `(`; an unclosed `(`, only ever at `EOF`; an atom in operator position; an operator outside the table |
| ParserProperties.BadStart | main.rs:84 | an expression starting with neither an atom nor `(` fails at once with that token |
| ParserProperties.Unclosed | main.rs:81 | a `(` whose inner expression is not followed by `)` fails with the token found instead |
| ParserProperties.AtomInOperatorPosition | main.rs:92 | an atom where an operator is expected fails with that atom |
| ParserProperties.UnknownInOperatorPosition | main.rs:41 | an operator outside the table in operator position fails whatever the threshold |
| ParserProperties.GrammaticalParses | main.rs:76-105 | every paren-free input of `atom (op atom)*` is parsed completely to the precedence-ordered tree that reads back as it |
| ParserProperties.GrammaticalNoParens | main.rs:76-105 | an input of `atom (op atom)*` contains no parenthesis |
| ParserProperties.LoopStep | main.rs:95-102 | one loop step with an accepted operator combines the left-hand side with the right operand parsed at the right power |
| ParserProperties.ParenStep | main.rs:79-83 | a closed parenthesised left-hand side continues the loop after the `)` |
| ParserProperties.ParenthesizedParses | main.rs:79-83 | a fully parenthesised tree followed by anything parses to that tree, and the loop continues with what follows |
| ParserProperties.ParenthesesOverride | main.rs:79-83 | the fully parenthesised tokens of any binary tree parse back to exactly that tree |
| ParseExamples.AtomThenStop | main.rs:78-90 | an operand followed by the end or by `)` is the whole expression |
| ParseExamples.OneOperation | main.rs:95-102 | `a o b` followed by the end or `)` is the single operation `o` on `a` and `b` |
| ParseExamples.ThreeTreeOrdered | main.rs:95-102 | the expected tree of `a o1 b o2 c` is precedence-ordered |
| ParseExamples.ThreeOperands | main.rs:95-102 | for every pair of operators of the table, `a o1 b o2 c` groups `b o2 c` when `o2` has strictly higher precedence, otherwise `a o1 b` first |
| ParseExamples.ParenthesisedFirst | main.rs:79-102 | `(a o1 b) o2 c` makes the parenthesised operation the left operand of `o2` whatever the operators |
| ParseExamples.TokenizeSpacedThree | main.rs:17-23 | the tokens of `a o1 b o2 c` written with spaces |
| ParseExamples.TokenizeParenthesisedFirst | main.rs:17-23 | the tokens of `(a o1 b) o2 c` written with spaces |
| ParseExamples.ShowThree | main.rs:114-118 | the line `a o1 b o2 c` prints as its precedence tree |
| ParseExamples.ShowParenthesisedFirst | main.rs:79-83 | the line `(a o1 b) o2 c` prints with the parenthesised operation innermost |
| ParseExamples.ShowTight | main.rs:19 | the line `a o b` without spaces prints as `(o a b)` |
| ParseExamples.ShowSpaced | main.rs:19 | the line `a o b` with spaces prints the same |
| ParseExamples.ShowStopsAtClose | main.rs:70-73 | after `a o b)` the rest of the line is never read |
| ParseExamples.ShowAtomThenClose | main.rs:89-90 | after an operand and `)` the rest of the line is never read |
| ParseExamples.ShowSingle | main.rs:108-112 | the line of one operand prints as that operand |
| ParseExamples.ShowBlank | main.rs:84 | a blank line fails on `EOF` as its start token |
| ParseExamples.ShowLeadingOperator | main.rs:84 | a line starting with an operator other than `(` fails on it |
| ParseExamples.ShowUnclosed | main.rs:81 | `(a o b` with no `)` fails with `EOF` where `)` was required |
| ParseExamples.ShowTwoOperands | main.rs:92 | `a b` fails on the second operand |
| ParseExamples.ShowUnknownOperator | main.rs:41 | an operand followed by a character outside the table fails on that character |
| ParseExamples.SingleAtom | main.rs:108-112 | `1` prints as `1` |
| ParseExamples.ProductBindsTighter | main.rs:114-118 | `1 + 2 * 3` prints as `(+ 1 (* 2 3))` |
| ParseExamples.ProductFirst | main.rs:95-102 | `1 * 2 + 3` prints as `(+ (* 1 2) 3)` |
| ParseExamples.SubtractionGroupsLeft | main.rs:95-102 | `1 - 2 - 3` prints as `(- (- 1 2) 3)` |
| ParseExamples.DivisionGroupsLeft | main.rs:95-102 | `a / b * c` prints as `(* (/ a b) c)` |
| ParseExamples.ParenthesesOverridePrecedence | main.rs:79-83 | `(1 + 2) * 3` prints as `(* (+ 1 2) 3)` |
| ParseExamples.WithoutSpaces | main.rs:19 | `1+2` prints as `(+ 1 2)` |
| ParseExamples.WithSpaces | main.rs:19 | `1 + 2` prints as `(+ 1 2)` |
| ParseExamples.TrailingTokensIgnored | main.rs:70-73 | `1+2) * 3` prints as `(+ 1 2)`: what follows the stray `)` is never read |
| ParseExamples.TrailingParenthesisIgnored | main.rs:89-90 | `1)` prints as `1` |
| ParseExamples.UnclosedParenthesis | main.rs:81 | `(1 + 2` fails with `EOF` where `)` was required |
| ParseExamples.LeadingOperator | main.rs:84 | `+1` fails on the start token `+` |
| ParseExamples.EmptyLine | main.rs:84 | an empty or blank line fails on the start token `EOF` |
| ParseExamples.TwoAtoms | main.rs:92 | `1 2` fails on the atom `2` in operator position |
| ParseExamples.UnknownInfixOperator | main.rs:41 | `1 % 2` fails on `%`, and `1 (2)` on `(` in operator position |
| ParseExamples.VerticalTabIsAnOperator | main.rs:19 | vertical tab is not ASCII whitespace, so `1\v2` fails on it as an unknown operator |
| ParseExamples.SingleCharacter | main.rs:78 | every letter or digit alone parses to itself and prints as itself |
| ParseExamples.LeadingCharacterFails | main.rs:84 | a line starting with a character that is not a letter, digit, `(` or whitespace fails on it, whatever follows |
| ParseExamples.ParseIgnoresWhitespace | main.rs:19 | inserting whitespace anywhere changes neither the tree nor the failure |
| ParseExamples.ParseLineWellFormed | main.rs:132-133 | a successful parse of a line is a well-formed tree, and no other well-formed tree prints the same |

## Left out

- The REPL `main` (main.rs:120-136): prompting, flushing and reading
  standard input, the `exit` command and printing are I/O. Only the text a
  line prints (`ParseExamples.Show`) is modelled.
- The `f32` powers are modelled as integers (10/11, 20/21, threshold 0),
  which keeps every comparison the parser makes. Floating-point arithmetic
  itself is not modelled.
- A panic is modelled as an `Err` result that ends the parse. The panic
  messages and the unwinding of the process are not modelled.
- `std::fmt::Formatter` is modelled as an appendable string. It never fails,
  so the `?` propagation of `fmt::Error` in main.rs:56-63 is not modelled.
- Characters are Unicode scalar values. `is_ascii_whitespace` and the
  alphanumeric ranges are ASCII-only, as in the source, and no other Unicode
  property is involved.
- `Parser.FromStr` follows the code: it never checks that the line ends after
  the expression, so trailing tokens after a stray `)` are ignored.
- `#[derive(Debug, Clone, Copy, PartialEq)]` on `Token` is Dafny's built-in
  datatype equality and copying. Debug formatting is only used in panic
  messages and is not modelled.
