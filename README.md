# Math-expression-parser in Dafny

This project models the core of a small interactive calculator written in C++.
The calculator reads a line, tokenizes it, parses it by recursive descent into
an expression tree or a variable definition, and evaluates the tree against a
table of variables. A separate constant-folding pass rewrites a tree in place.

The modules are:

- `Errors`: what the source throws. It models `lex_error`, `parse_error`,
  `eval_error`, `std::logic_error` and `boost::bad_get` as values of a
  `Result` type.
- `Arithmetic`: the number type `NumType`. It is abstract: `NumOps` supplies
  zero, the value `strtod` reads from a decimal lexeme, the way `operator<<`
  shows a number, and the operations `-x`, `+`, `-`, `*`, `/` and `pow`.
- `Tree` (tree.h): the node kinds of `t_expression`, the three kinds of
  `t_statement` and `identify_statement`.
- `Lexer` (lexer.h): `get_token`. The function `NextToken` describes it by
  maximal runs of character classes. The method `GetToken` is the source's
  goto-driven state machine written as loops, and it is proved to return
  what `NextToken` says.
- `Parser` (parser.h): `parser_state` as a class, with one method per grammar
  rule. Each method is proved equal to a rule function (`AtomRule`,
  `TermRule`, and so on) over an immutable cursor-and-lookahead state.
  Termination follows from the number of characters left to read.
- `ParserRoundTrip`: a printer for well-formed trees. It turns a tree into
  lexemes, putting an operand in parentheses exactly where precedence requires
  them. The lexemes may then be laid out with any white space between them,
  none at all included, as long as two names or numbers are not run together.
  Two theorems are proved about every such layout: parsing it gives back the
  tree, and parsing `define`, a name, `=` and the lexemes of a tree gives
  back the definition.
- `ParserExamples`: parses of concrete lines. They cover associativity,
  precedence, unary signs, definitions, and every error rule.
- `Calculator` (calculator.h, with the dispatch of main.cpp): the evaluator,
  variable definitions, and `calculator_state` as a class holding the
  variable map.
- `TreeTransform` (tree_transform.h): `tree_fold` applied through
  `apply_transform`, on a node held by reference. It is proved to preserve
  evaluation, to be idempotent, and to leave nothing foldable.

## Behaviour of the code worth noting

The model follows the code, including these behaviours:

- An identifier cannot start with the letter `k`, because the case labels of
  lexer.h:70-72 leave it out. `k` may still appear later in an identifier.
- `"2 +"` fails in rule `atom`, with end of input as the token seen. It does
  not fail in `term` or `factor`.
- `throw_parse_error` shows an identifier lookahead as `invalid token.`.
- `define x` with no `=` after the name leaves the statement as it was before
  the call. main.cpp passes a default `t_statement`, which is the expression
  `0`.
- `define 5` fails with `boost::bad_get`, not with a parse error.
- A number lexeme is a maximal run of digits and dots with at most one dot,
  and it is not a lone `.`. So `5.` and `.5` are numbers.
- C++ leaves unspecified the order in which the two operands of every binary
  operator are evaluated: the operands of `+`, `-`, `*` and `/` and the two
  arguments of `std::pow`. The model evaluates the left operand first for all
  five, which decides the error reported when both operands fail.

## Model

| member | source | states |
|---|---|---|
| Tree.WithOperands | tree.h:22-55 | rebuilding a binary node keeps its operator kind and holds exactly the two given operands |
| Tree.IdentifyStatement | tree.h:152-171 | the kind reported is Expression, VarDefinition or FuncDefinition exactly when the statement holds that alternative |
| Lexer.RunEnd | lexer.h:41-45 | a run ends inside the text; every character before its end is of its class, and the character at its end is not |
| Lexer.RunEndUnique | lexer.h:96-123 | a run ends exactly at the first position after `i` whose character is outside the class |
| Lexer.IdentifierToken | lexer.h:96-104 | the identifier state; what it reads is stated by IdentifierTokenRun |
| Lexer.IdentifierTokenRun | lexer.h:96-104 | an identifier is its first character and the longest run of lower-case letters after it |
| Lexer.NumberToken | lexer.h:106-131 | the number states; what they read is stated by NumberTokenRun |
| Lexer.NumberTokenRun | lexer.h:106-131 | the longest run of digits and dots is read whole; it is a number, with the strtod value of the run, exactly when it is a number lexeme, and a lex error otherwise |
| Lexer.NextToken | lexer.h:47-132 | a token that is read never has tag Invalid; the cursor never moves back; EOI leaves the cursor at the end; any other token consumes at least one character |
| Lexer.SkipSpaces | lexer.h:41-45 | the cursor stops at the end of the run of white space |
| Lexer.ScanIdentifier | lexer.h:96-104 | the do-while loop reads the identifier that runs to the first character that is not a lower-case letter |
| Lexer.ScanNumber | lexer.h:74-131 | the loop reads the maximal run of digits and dots: a second dot or a lone dot is a lex error, otherwise the result is the strtod value of the run |
| Lexer.GetToken | lexer.h:47-132 | get_token returns exactly the token, or the lex error, that the maximal-run description gives |
| Lexer.LexSkipsSpaces | lexer.h:52 | reading from inside leading white space gives the same token as reading from its end |
| Lexer.LexEndOfInput | lexer.h:52-53 | EOI is returned if and only if only white space is left, and reading at the end gives EOI again |
| Lexer.LexSymbol | lexer.h:58-94 | an operator character after white space is a token of its own, one character long |
| Lexer.LexConsumes | lexer.h:52-131 | a successful read consumes white space and then exactly one lexeme: EOI at the end, one operator character, or an identifier or a number lexeme that no following character could have extended, the number carrying the strtod value of its lexeme |
| Lexer.LexemeAt | lexer.h:47-132 | a lexeme after white space that nothing extends is read back as its own token, with the cursor just after it |
| Lexer.LexIdentifierExamples | lexer.h:70-104 | `ak` is one identifier; in `x1` the identifier stops at the digit, which starts a number |
| Lexer.LexNumberAndSymbolExamples | lexer.h:74-131 | `5.` and `.5` are numbers; `^` after blanks is a symbol token |
| Lexer.LexErrorExamples | lexer.h:70-128 | a leading `k`, a lone `.`, an upper-case letter, `_` and `%` are lex errors |
| Lexer.LexSecondDotExample | lexer.h:112-120 | `1.2.3` is a lex error, not two tokens |
| Parser.ScanNext | parser.h:37-40 | scanning never produces an Invalid lookahead and never increases what is left to read; it strictly decreases it unless the lookahead was already EOI; an EOI lookahead sits at the end of the text |
| Parser.Got | parser.h:67-74 | the lookahead as an error message shows it always ends in a full stop, and it reads `invalid token.` exactly when the lookahead is an identifier or Invalid |
| Parser.ParseFailure | parser.h:59-77 | the parse_error naming the rule, what it expected and the lookahead as Got shows it; the error examples pin down which rule fails on which line |
| Parser.ParenthesizedRule | parser.h:85-97 | on success the state has advanced and the lookahead is the closing `)` |
| Parser.PrimaryRule | parser.h:104-121 | on success the state has advanced and the lookahead, the primary's last token, is not EOI |
| Parser.PowerRule | parser.h:124-136 | on success the state has advanced, and an EOI lookahead is still at the end |
| Parser.AtomRule | parser.h:99-137 | on success the state has advanced, and an EOI lookahead is still at the end |
| Parser.FactorRule | parser.h:139-164 | on success the state has advanced, and an EOI lookahead is still at the end |
| Parser.TermTail | parser.h:170-184 | the `*`/`/` loop ends in an advanced state, with an EOI lookahead at the end |
| Parser.TermRule | parser.h:166-185 | on success the state has advanced, and an EOI lookahead is still at the end |
| Parser.ExpressionTail | parser.h:195-211 | the `+`/`-` loop ends in an advanced state, with an EOI lookahead at the end |
| Parser.ExpressionRule | parser.h:187-212 | on success the state has advanced, and an EOI lookahead is still at the end |
| Parser.DefinitionRule | parser.h:220-237 | on success the cursor is within the text and an EOI lookahead is at its end |
| Parser.StatementRule | parser.h:239-253 | the statement part of parse_root keeps the fact that an EOI lookahead sits at the end |
| Parser.RootRule | parser.h:239-256 | parse_root; ParseReadsWholeText states that it accepts only a statement followed by end of input |
| Parser.ParseText | main.cpp:29-32 | one line parsed from its first scan; ParseLaidOut and ParseLaidOutDefinition state what it gives back for laid-out trees and definitions |
| Parser.ParseReadsWholeText | parser.h:239-256 | a line parses only if its statement is followed by end of input, with the cursor at the end of the text |
| Parser.ParserState.constructor | parser.h:42 | a new parser state has its cursor at the start of the input and an Invalid lookahead |
| Parser.ParserState.Scan | parser.h:37-40 | scan replaces the lookahead by the next token and moves the cursor as get_token does; on a lex error it reports failure |
| Parser.ParserState.ParseParenthesizedExpression | parser.h:85-97 | the method returns the tree or error of the parenthesized rule and leaves the state that rule gives |
| Parser.ParserState.ParseAtom | parser.h:99-137 | the method returns the tree or error of the atom rule, including the right-nested `^`, and leaves the state it gives |
| Parser.ParserState.ParseFactor | parser.h:139-164 | the method returns the tree or error of the factor rule: unary `+` adds no node, unary `-` adds a negation |
| Parser.ParserState.ParseTerm | parser.h:166-185 | the loop builds the left-nested `*`/`/` chain the term rule describes |
| Parser.ParserState.ParseExpression | parser.h:187-212 | the method rejects a leading `)` and builds the left-nested `+`/`-` chain the expression rule describes |
| Parser.ParserState.ParseDefinition | parser.h:220-237 | the method reads a name, and `=` and an expression if present, as the definition rule says; a lookahead that is not a name is a bad_get error |
| Parser.ParserState.ParseRoot | parser.h:239-256 | the method returns the statement of the root rule, or its error when the statement is not followed by end of input |
| Parser.DefaultStatement | main.cpp:31 | the default-constructed statement: the expression holding the number zero |
| Parser.ParseLine | main.cpp:29-32 | initialize_parser followed by parse_root into a default-constructed statement yields exactly the parse of the whole line |
| ParserRoundTrip.LexemesValid | lexer.h:58-131 | the printer emits only lexemes the lexer accepts: operator characters, identifiers and number lexemes |
| ParserRoundTrip.LexemesSeparated | lexer.h:58-131 | of two neighbouring lexemes the printer emits, one is always an operator character or a parenthesis |
| ParserRoundTrip.SeparatedLayout | lexer.h:58-131 | such lexemes can be laid out with any white space, none included, and the lexer never runs two of them together |
| ParserRoundTrip.LaidScan | lexer.h:47-132 | get_token from before a layout skips the white space and reads exactly its first lexeme |
| ParserRoundTrip.ScansLaid | lexer.h:47-132 | a layout is scanned back lexeme by lexeme, and the scan after the last lexeme meets end of input at the end of the text |
| ParserRoundTrip.PrimaryReads | parser.h:104-122 | a printed primary is parsed back to its tree by the first half of parse_atom |
| ParserRoundTrip.AtomReads | parser.h:99-137 | a printed atom, with a right operand of `^` if any, is parsed back to its tree |
| ParserRoundTrip.FactorReads | parser.h:139-164 | a printed factor, with its negations, is parsed back to its tree |
| ParserRoundTrip.TermReads | parser.h:166-185 | a printed term is parsed back as its leftmost factors, with the rest of the `*`/`/` chain still to come |
| ParserRoundTrip.ExpressionReads | parser.h:187-212 | a printed expression is parsed back as its leftmost terms, with the rest of the `+`/`-` chain still to come |
| ParserRoundTrip.DefinitionStep | parser.h:220-256 | `define`, a name, `=` and an expression that ends the input make a variable definition |
| ParserRoundTrip.DefinitionReads | parser.h:220-256 | the lexemes of `define`, a name, `=` and a printed expression make that definition |
| ParserRoundTrip.ParseLaidOut | parser.h:187-256 | every well-formed tree whose first lexeme is not `define`, printed and laid out with any white space, parses back to the same tree, whatever statement the caller held; a variable called `define` later in the tree is an ordinary variable |
| ParserRoundTrip.DefinitionLayout | lexer.h:58-131 | `define`, a name, `=` and printed lexemes form a layout when white space keeps the two names apart |
| ParserRoundTrip.ParseLaidOutDefinition | parser.h:220-256 | `define`, a name, `=` and any printed tree, variables called `define` included, laid out with white space between the two names, parse back to the definition of that name as that tree |
| ParserExamples.MinusNestsLeft | parser.h:195-211 | `1-2-3` is (1 - 2) - 3 |
| ParserExamples.DivideNestsLeft | parser.h:170-184 | `8 / 4/2` is (8 / 4) / 2 |
| ParserExamples.PowerNestsRight | parser.h:124-136 | `2^3^2` is 2 ^ (3 ^ 2) |
| ParserExamples.TimesBindsTighter | parser.h:166-212 | `1 + 2*x`, after a leading blank and before a trailing tab, is 1 + (2 * x) |
| ParserExamples.ParenthesesAddNoNode | parser.h:85-97 | `(1 + 2) * x`: parentheses group without a node of their own |
| ParserExamples.NegationWrapsPower | parser.h:151-158 | `-2^2` negates the power |
| ParserExamples.PowerTakesNegatedFactor | parser.h:128-135 | the exponent is a factor, so `2^-1` is 2 ^ (-1) |
| ParserExamples.DefineAfterFirstIsVariable | parser.h:242-251 | `1+define` is an expression adding the variable `define`: only a first token `define` starts a definition |
| ParserExamples.DefinitionExample | parser.h:220-245 | `define x=1+2` is the definition of x as 1 + 2 |
| ParserExamples.UnaryPlusAddsNoNode | parser.h:146-150 | `+ 1` is just the literal 1 |
| ParserExamples.DefinitionWithoutEquals | parser.h:227-237 | `define x` returns the statement held before the call, at the prompt the number zero |
| ParserExamples.DefinitionOfNonName | parser.h:225 | `define 5` fails with bad_get |
| ParserExamples.CloseParenFailsInExpression | parser.h:190-191 | a leading `)` fails in rule expression |
| ParserExamples.EmptyFailsInAtom | parser.h:119-120 | an empty line fails in rule atom, with end of input seen |
| ParserExamples.DanglingOperatorFailsInAtom | parser.h:119-120 | `2 +` fails in rule atom, with end of input seen |
| ParserExamples.MissingCloseParen | parser.h:95-96 | `(1` fails in rule parenthesized-expression, expecting `)` |
| ParserExamples.TrailingTokenFailsInRoot | parser.h:254-255 | `1 2` fails in rule root, expecting end of input |
| ParserExamples.OperatorFailsInParenthesized | parser.h:85-120 | an operator where an atom is expected fails in rule parenthesized-expression, expecting `(` |
| Calculator.Eval | calculator.h:34-95 | eval_expression_tree; what it promises is stated by EvalSucceedsIff, EvalErrors and EvalLocal |
| Calculator.EvalSucceedsIff | calculator.h:34-95 | evaluation succeeds exactly when every variable is defined and there is no function call and no placeholder |
| Calculator.EvalErrors | calculator.h:57-66 | the only failures are "Undefined variable", "Unimplemented" and the placeholder logic error |
| Calculator.EvalLocal | calculator.h:47-59 | evaluation depends only on the variables the tree mentions |
| Calculator.Define | calculator.h:97-102 | a variable definition applied to a table; what it promises is stated by DefineFrame |
| Calculator.DefineFrame | calculator.h:97-102 | a definition succeeds exactly when its value evaluates, and otherwise fails with the evaluation's error; on success the name is bound to the value and every other binding is kept |
| Calculator.DefineReadsOldValue | calculator.h:97-102 | `define x = x + 1` reads the old x before binding the new one |
| Calculator.EvalAfterUnrelatedDefine | calculator.h:97-102 | defining a name a tree does not mention leaves that tree's value unchanged |
| Calculator.CalculatorState.constructor | calculator.h:14-18 | a new calculator has no variables |
| Calculator.CalculatorState.ProcessVariableDefinition | calculator.h:97-102 | the table gains the value on success, and is left unchanged with the evaluation's error on failure |
| Calculator.CalculatorState.Execute | main.cpp:37-47 | an expression yields its value and changes nothing; a variable definition is processed; a function definition throws "Unimplemented" and changes nothing |
| TreeTransform.Fold | tree_transform.h:34-119 | tree_fold through apply_transform; what it promises is stated by FoldPreservesEval, FoldValueIffConstant, FoldLeavesFolded and FoldIdempotent |
| TreeTransform.FoldBinary | tree_transform.h:42-113 | the binary case of tree_fold; FoldValueSound and FoldLeavesFolded state what it gives |
| TreeTransform.FoldValueIffConstant | tree_transform.h:38-119 | folding yields a value exactly for trees of literals and binary operators, and then the node has become that literal |
| TreeTransform.FoldValueSound | tree_transform.h:42-113 | a folded value is what the tree evaluates to, in every variable table |
| TreeTransform.FoldPreservesEval | tree_transform.h:34-119 | the folded tree evaluates to the same value or the same error as the original, in every variable table |
| TreeTransform.FoldLeavesFolded | tree_transform.h:42-113 | after folding, no binary node reached through binary nodes has two literal operands |
| TreeTransform.FoldFixpointIff | tree_transform.h:34-119 | folding changes nothing exactly on trees with nothing left to fold |
| TreeTransform.FoldIdempotent | tree_transform.h:34-119 | folding a folded tree gives the same tree and the same result |
| TreeTransform.FoldExamples | tree_transform.h:42-118 | a negation is not descended into; both operands of a binary node are folded even when only one is constant |
| TreeTransform.ApplyTransform | tree_transform.h:27-119 | the node held by reference is rewritten to its folded form, and the optional value returned is the fold's |
| TreeTransform.FoldBinaryInPlace | tree_transform.h:42-113 | both operands are folded where they live, and the node becomes the combined literal when both gave a value |

## Left out

- Printing (`print_expression_tree`, `print_statement_tree`, tree.h:173-289) is not modelled. The round-trip printer in `ParserRoundTrip` is a separate reference printer, not a model of that code.
- `eval_tree` (tree.h:291-331) and the commented-out code in main.cpp are dead code.
- The read-print loop of main.cpp is console I/O: the prompt, `getline` and writing results and messages. `Execute` models what one line does to the calculator, and `ParseLine` models how the line is parsed.
- `initialize_parser(std::istream&)` reads from a stream. Only the version over a string is modelled.
- `strtod`, IEEE double arithmetic, `std::pow` and number formatting are the abstract operations of `NumOps`. Results that depend on floating point are therefore not modelled: division by zero, infinities, NaN and rounding.
- Character classes are those of the "C" locale. Other locales are not modelled.
- `operator_properties` (parser.h:214-218) and `t_nary_op` (tree.h:117-124) are declared but never used.
- Function invocations and function definitions cannot be produced by the parser. They exist only as tree nodes and evaluate to errors.
- The boost variant and visitor machinery becomes datatypes and `match`. `boost::bad_get` becomes the `BadGet` error value.
- Parser.ParserState.constructor: the source constructor also scans the first token. Here `ParseLine` performs that scan right after construction, so a lex error in the first token is a result rather than an exception thrown from a constructor.
- ParserRoundTrip.ParseLaidOut: stated for trees printed with the fewest parentheses, under any white space. Text with redundant parentheses is covered only by the examples and the rule lemmas. A tree whose first lexeme is the variable `define` is excluded, because the parser reads such a line as a definition.
- ParserExamples: error messages are stated through `ParseFailure`, the model of `throw_parse_error`, rather than written out as literal strings.
- Parser.ParseReadsWholeText: states that a parsed line leaves the cursor at the end of the text. It says nothing more specific about trailing white space.
