/** The grammar of parser.h on particular lines of input: how operators
    nest, what unary operators and parentheses build, and which rule
    reports which error. */
module ParserExamples {
  import opened Errors
  import opened Arithmetic
  import opened Lexer
  import opened Tree
  import opened Parser
  import opened ParserRoundTrip

  function Lit<N>(ops: NumOps<N>, d: string): Expr<N> {
    Literal(ops.fromDecimal(d))
  }

  // Nesting, read off the round trip: each tree's lexemes are laid out
  // with the white space of the example, then parsed. The lexemes of a
  // tree and the text they lay out as are worked out in lemmas of their own.

  lemma MinusNestsLeftLexemes()
    ensures WellFormed(Bin('-', Bin('-', Num("1"), Num("2")), Num("3")))
    ensures Lexemes(Bin('-', Bin('-', Num("1"), Num("2")), Num("3")), 0) == ["1", "-", "2", "-", "3"]
  {
  }

  lemma MinusNestsLeftText()
    ensures WhiteGaps(["", "", "", "", "", ""])
    ensures Laid(["1", "-", "2", "-", "3"], ["", "", "", "", "", ""]) == "1-2-3"
  {
  }

  /** "-" nests to the left. */
  lemma MinusNestsLeft<N>(ops: NumOps<N>, prior: Statement<N>)
    ensures ParseText(ops, "1-2-3", prior)
         == Ok(Expression(Subtract(Subtract(Lit(ops, "1"), Lit(ops, "2")), Lit(ops, "3"))))
  {
    MinusNestsLeftLexemes();
    MinusNestsLeftText();
    assert ToExpr(ops, Bin('-', Num("1"), Num("2"))) == Subtract(Lit(ops, "1"), Lit(ops, "2"));
    ParseLaidOut(ops, Bin('-', Bin('-', Num("1"), Num("2")), Num("3")), ["", "", "", "", "", ""], prior);
  }

  lemma DivideNestsLeftLexemes()
    ensures WellFormed(Bin('/', Bin('/', Num("8"), Num("4")), Num("2")))
    ensures Lexemes(Bin('/', Bin('/', Num("8"), Num("4")), Num("2")), 0) == ["8", "/", "4", "/", "2"]
  {
  }

  lemma DivideNestsLeftText()
    ensures WhiteGaps(["", " ", " ", "", "", ""])
    ensures Laid(["8", "/", "4", "/", "2"], ["", " ", " ", "", "", ""]) == "8 / 4/2"
  {
  }

  /** "/" nests to the left. */
  lemma DivideNestsLeft<N>(ops: NumOps<N>, prior: Statement<N>)
    ensures ParseText(ops, "8 / 4/2", prior)
         == Ok(Expression(Divide(Divide(Lit(ops, "8"), Lit(ops, "4")), Lit(ops, "2"))))
  {
    DivideNestsLeftLexemes();
    DivideNestsLeftText();
    assert ToExpr(ops, Bin('/', Num("8"), Num("4"))) == Divide(Lit(ops, "8"), Lit(ops, "4"));
    ParseLaidOut(ops, Bin('/', Bin('/', Num("8"), Num("4")), Num("2")), ["", " ", " ", "", "", ""], prior);
  }

  lemma PowerNestsRightLexemes()
    ensures WellFormed(Bin('^', Num("2"), Bin('^', Num("3"), Num("2"))))
    ensures Lexemes(Bin('^', Num("2"), Bin('^', Num("3"), Num("2"))), 0) == ["2", "^", "3", "^", "2"]
  {
  }

  lemma PowerNestsRightText()
    ensures WhiteGaps(["", "", "", "", "", ""])
    ensures Laid(["2", "^", "3", "^", "2"], ["", "", "", "", "", ""]) == "2^3^2"
  {
  }

  /** "^" nests to the right. */
  lemma PowerNestsRight<N>(ops: NumOps<N>, prior: Statement<N>)
    ensures ParseText(ops, "2^3^2", prior)
         == Ok(Expression(Exponentiate(Lit(ops, "2"), Exponentiate(Lit(ops, "3"), Lit(ops, "2")))))
  {
    PowerNestsRightLexemes();
    PowerNestsRightText();
    assert ToExpr(ops, Bin('^', Num("3"), Num("2"))) == Exponentiate(Lit(ops, "3"), Lit(ops, "2"));
    ParseLaidOut(ops, Bin('^', Num("2"), Bin('^', Num("3"), Num("2"))), ["", "", "", "", "", ""], prior);
  }

  lemma TimesBindsTighterLexemes()
    ensures WellFormed(Bin('+', Num("1"), Bin('*', Num("2"), Name("x"))))
    ensures Lexemes(Bin('+', Num("1"), Bin('*', Num("2"), Name("x"))), 0) == ["1", "+", "2", "*", "x"]
  {
  }

  lemma TimesBindsTighterText()
    ensures WhiteGaps([" ", " ", " ", "", "", "\t"])
    ensures Laid(["1", "+", "2", "*", "x"], [" ", " ", " ", "", "", "\t"]) == " 1 + 2*x\t"
  {
  }

  /** "*" binds tighter than "+". */
  lemma TimesBindsTighter<N>(ops: NumOps<N>, prior: Statement<N>)
    ensures ParseText(ops, " 1 + 2*x\t", prior)
         == Ok(Expression(Add(Lit(ops, "1"), Multiply(Lit(ops, "2"), Var("x")))))
  {
    TimesBindsTighterLexemes();
    TimesBindsTighterText();
    assert ToExpr(ops, Bin('*', Num("2"), Name("x"))) == Multiply(Lit(ops, "2"), Var("x"));
    ParseLaidOut(ops, Bin('+', Num("1"), Bin('*', Num("2"), Name("x"))), [" ", " ", " ", "", "", "\t"], prior);
  }

  lemma ParenthesesAddNoNodeLexemes()
    ensures WellFormed(Bin('*', Bin('+', Num("1"), Num("2")), Name("x")))
    ensures Lexemes(Bin('*', Bin('+', Num("1"), Num("2")), Name("x")), 0) == ["(", "1", "+", "2", ")", "*", "x"]
  {
  }

  lemma ParenthesesAddNoNodeText()
    ensures WhiteGaps(["", "", " ", " ", "", " ", " ", ""])
    ensures Laid(["(", "1", "+", "2", ")", "*", "x"], ["", "", " ", " ", "", " ", " ", ""]) == "(1 + 2) * x"
  {
  }

  /** Parentheses regroup and add no node of their own. */
  lemma ParenthesesAddNoNode<N>(ops: NumOps<N>, prior: Statement<N>)
    ensures ParseText(ops, "(1 + 2) * x", prior)
         == Ok(Expression(Multiply(Add(Lit(ops, "1"), Lit(ops, "2")), Var("x"))))
  {
    ParenthesesAddNoNodeLexemes();
    ParenthesesAddNoNodeText();
    assert ToExpr(ops, Bin('+', Num("1"), Num("2"))) == Add(Lit(ops, "1"), Lit(ops, "2"));
    ParseLaidOut(ops, Bin('*', Bin('+', Num("1"), Num("2")), Name("x")), ["", "", " ", " ", "", " ", " ", ""], prior);
  }

  lemma NegationWrapsPowerLexemes()
    ensures WellFormed(Neg(Bin('^', Num("2"), Num("2"))))
    ensures Lexemes(Neg(Bin('^', Num("2"), Num("2"))), 0) == ["-", "2", "^", "2"]
  {
  }

  lemma NegationWrapsPowerText()
    ensures WhiteGaps(["", "", "", "", ""])
    ensures Laid(["-", "2", "^", "2"], ["", "", "", "", ""]) == "-2^2"
  {
  }

  /** Unary "-" takes the whole atom, its "^" included. */
  lemma NegationWrapsPower<N>(ops: NumOps<N>, prior: Statement<N>)
    ensures ParseText(ops, "-2^2", prior)
         == Ok(Expression(Negate(Exponentiate(Lit(ops, "2"), Lit(ops, "2")))))
  {
    NegationWrapsPowerLexemes();
    NegationWrapsPowerText();
    assert ToExpr(ops, Bin('^', Num("2"), Num("2"))) == Exponentiate(Lit(ops, "2"), Lit(ops, "2"));
    ParseLaidOut(ops, Neg(Bin('^', Num("2"), Num("2"))), ["", "", "", "", ""], prior);
  }

  lemma PowerTakesNegatedFactorLexemes()
    ensures WellFormed(Bin('^', Num("2"), Neg(Num("1"))))
    ensures Lexemes(Bin('^', Num("2"), Neg(Num("1"))), 0) == ["2", "^", "-", "1"]
  {
  }

  lemma PowerTakesNegatedFactorText()
    ensures WhiteGaps(["", "", "", "", ""])
    ensures Laid(["2", "^", "-", "1"], ["", "", "", "", ""]) == "2^-1"
  {
  }

  /** The right operand of "^" is a whole factor, a negated one included. */
  lemma PowerTakesNegatedFactor<N>(ops: NumOps<N>, prior: Statement<N>)
    ensures ParseText(ops, "2^-1", prior)
         == Ok(Expression(Exponentiate(Lit(ops, "2"), Negate(Lit(ops, "1")))))
  {
    PowerTakesNegatedFactorLexemes();
    PowerTakesNegatedFactorText();
    assert ToExpr(ops, Neg(Num("1"))) == Negate(Lit(ops, "1"));
    ParseLaidOut(ops, Bin('^', Num("2"), Neg(Num("1"))), ["", "", "", "", ""], prior);
  }

  lemma DefineAfterFirstLexemes()
    ensures WellFormed(Bin('+', Num("1"), Name("define")))
    ensures Lexemes(Bin('+', Num("1"), Name("define")), 0) == ["1", "+", "define"]
  {
  }

  lemma DefineAfterFirstText()
    ensures WhiteGaps(["", "", "", ""])
    ensures Laid(["1", "+", "define"], ["", "", "", ""]) == "1+define"
  {
  }

  /** "define" after the first token is an ordinary variable. */
  lemma DefineAfterFirstIsVariable<N>(ops: NumOps<N>, prior: Statement<N>)
    ensures ParseText(ops, "1+define", prior)
         == Ok(Expression(Add(Lit(ops, "1"), Var("define"))))
  {
    DefineAfterFirstLexemes();
    DefineAfterFirstText();
    ParseLaidOut(ops, Bin('+', Num("1"), Name("define")), ["", "", "", ""], prior);
  }

  lemma DefinitionExampleLexemes()
    ensures WellFormed(Bin('+', Num("1"), Num("2")))
    ensures ["define", "x", "="] + Lexemes(Bin('+', Num("1"), Num("2")), 0) == ["define", "x", "=", "1", "+", "2"]
  {
  }

  lemma DefinitionExampleText()
    ensures WhiteGaps(["", " ", "", "", "", "", ""])
    ensures Laid(["define", "x", "=", "1", "+", "2"], ["", " ", "", "", "", "", ""]) == "define x=1+2"
  {
  }

  /** A definition of a variable. */
  lemma DefinitionExample<N>(ops: NumOps<N>, prior: Statement<N>)
    ensures ParseText(ops, "define x=1+2", prior)
         == Ok(VarDefinition("x", Add(Lit(ops, "1"), Lit(ops, "2"))))
  {
    var e := Bin('+', Num("1"), Num("2"));
    DefinitionExampleLexemes();
    DefinitionExampleText();
    assert IsIdentifier("x");
    assert ToExpr(ops, e) == Add(Lit(ops, "1"), Lit(ops, "2"));
    ParseLaidOutDefinition(ops, "x", e, ["", " ", "", "", "", "", ""], prior);
  }

  // Step by step, outside what the printer produces.

  lemma UnaryPlusAddsNoNodeScans<N>(ops: NumOps<N>)
    ensures ScanNext(ops, "+ 1", PState(0, Invalid)) == Ok(PState(1, Character('+')))
    ensures ScanNext(ops, "+ 1", PState(1, Character('+'))) == Ok(PState(3, Number(ops.fromDecimal("1"))))
    ensures ScanNext(ops, "+ 1", PState(3, Number(ops.fromDecimal("1")))) == Ok(PState(3, EOI))
  {
    assert "+ 1"[2..3] == "1" && IsLexeme("1");
    LexemeAt(ops, "+ 1", 1, 2, "1");
  }

  /** Unary "+" adds no node. */
  lemma UnaryPlusAddsNoNode<N>(ops: NumOps<N>, prior: Statement<N>)
    ensures ParseText(ops, "+ 1", prior) == Ok(Expression(Lit(ops, "1")))
  {
    var s := "+ 1";
    var one := Lit(ops, "1");
    var st0 := PState(1, Character('+'));
    var st1 := PState(3, Number(ops.fromDecimal("1")));
    var st2 := PState(3, EOI);
    UnaryPlusAddsNoNodeScans(ops);
    assert AtomRule(ops, s, st1) == Ok(Parsed(one, st2));
    assert FactorRule(ops, s, st0) == Ok(Parsed(one, st2));
    assert TermRule(ops, s, st0) == Ok(Parsed(one, st2));
    assert ExpressionRule(ops, s, st0) == Ok(Parsed(one, st2));
  }

  lemma DefinitionWithoutEqualsScans<N>(ops: NumOps<N>)
    ensures ScanNext(ops, "define x", PState(0, Invalid)) == Ok(PState(6, Identifier("define")))
    ensures ScanNext(ops, "define x", PState(6, Identifier("define"))) == Ok(PState(8, Identifier("x")))
    ensures ScanNext(ops, "define x", PState(8, Identifier("x"))) == Ok(PState(8, EOI))
  {
    assert "define x"[0..6] == "define" && IsLexeme("define");
    LexemeAt(ops, "define x", 0, 0, "define");
    assert "define x"[7..8] == "x" && IsLexeme("x");
    LexemeAt(ops, "define x", 6, 7, "x");
  }

  /** "define" and a name without "=" leave the caller's statement; at the
      prompt that is the default statement, the number zero. */
  lemma DefinitionWithoutEquals<N>(ops: NumOps<N>, prior: Statement<N>)
    ensures ParseText(ops, "define x", prior) == Ok(prior)
    ensures ParseText(ops, "define x", DefaultStatement(ops)) == Ok(Expression(Literal(ops.zero)))
  {
    DefinitionWithoutEqualsScans(ops);
  }

  lemma DefinitionOfNonNameScans<N>(ops: NumOps<N>)
    ensures ScanNext(ops, "define 5", PState(0, Invalid)) == Ok(PState(6, Identifier("define")))
    ensures ScanNext(ops, "define 5", PState(6, Identifier("define"))) == Ok(PState(8, Number(ops.fromDecimal("5"))))
  {
    assert "define 5"[0..6] == "define" && IsLexeme("define");
    LexemeAt(ops, "define 5", 0, 0, "define");
    assert "define 5"[7..8] == "5" && IsLexeme("5");
    LexemeAt(ops, "define 5", 6, 7, "5");
  }

  /** "define" followed by something other than a name fails the variant
      access. */
  lemma DefinitionOfNonName<N>(ops: NumOps<N>, prior: Statement<N>)
    ensures ParseText(ops, "define 5", prior) == Err(BadGet)
  {
    DefinitionOfNonNameScans(ops);
  }

  // Errors: the rule that fails, what it expected, and the lookahead it got.

  /** A leading ")" is rejected by parse_expression itself. */
  lemma CloseParenFailsInExpression<N>(ops: NumOps<N>, prior: Statement<N>)
    ensures ParseText(ops, ")", prior)
         == Err(ParseFailure(ops, PState(1, Character(')')), "expression", "number, identifier, '+', '-' or '('"))
  {
    assert ScanNext(ops, ")", PState(0, Invalid)) == Ok(PState(1, Character(')')));
  }

  /** Empty input fails where an atom is expected. */
  lemma EmptyFailsInAtom<N>(ops: NumOps<N>, prior: Statement<N>)
    ensures ParseText(ops, "", prior) == Err(ParseFailure(ops, PState(0, EOI), "atom", "number, identifier, or '('"))
  {
    var s := "";
    var st := PState(0, EOI);
    assert ScanNext(ops, s, PState(0, Invalid)) == Ok(st);
    assert PrimaryRule(ops, s, st) == Err(ParseFailure(ops, st, "atom", "number, identifier, or '('"));
    assert FactorRule(ops, s, st) == Err(ParseFailure(ops, st, "atom", "number, identifier, or '('"));
  }

  lemma DanglingOperatorFailsInAtomScans<N>(ops: NumOps<N>)
    ensures ScanNext(ops, "2 +", PState(0, Invalid)) == Ok(PState(1, Number(ops.fromDecimal("2"))))
    ensures ScanNext(ops, "2 +", PState(1, Number(ops.fromDecimal("2")))) == Ok(PState(3, Character('+')))
    ensures ScanNext(ops, "2 +", PState(3, Character('+'))) == Ok(PState(3, EOI))
  {
    assert "2 +"[0..1] == "2" && IsLexeme("2");
    LexemeAt(ops, "2 +", 0, 0, "2");
  }

  /** A dangling "+" fails in rule atom, which parse_factor reaches. */
  lemma DanglingOperatorFailsInAtom<N>(ops: NumOps<N>, prior: Statement<N>)
    ensures ParseText(ops, "2 +", prior) == Err(ParseFailure(ops, PState(3, EOI), "atom", "number, identifier, or '('"))
  {
    var s := "2 +";
    var two := Lit(ops, "2");
    var st0 := PState(1, Number(ops.fromDecimal("2")));
    var st1 := PState(3, Character('+'));
    var st2 := PState(3, EOI);
    var err := ParseFailure(ops, st2, "atom", "number, identifier, or '('");
    DanglingOperatorFailsInAtomScans(ops);
    assert AtomRule(ops, s, st0) == Ok(Parsed(two, st1));
    assert TermRule(ops, s, st0) == Ok(Parsed(two, st1));
    assert FactorRule(ops, s, st2) == Err(err);
    assert ExpressionTail(ops, s, two, st1) == Err(err);
  }

  lemma MissingCloseParenScans<N>(ops: NumOps<N>)
    ensures ScanNext(ops, "(1", PState(0, Invalid)) == Ok(PState(1, Character('(')))
    ensures ScanNext(ops, "(1", PState(1, Character('('))) == Ok(PState(2, Number(ops.fromDecimal("1"))))
    ensures ScanNext(ops, "(1", PState(2, Number(ops.fromDecimal("1")))) == Ok(PState(2, EOI))
  {
    assert "(1"[1..2] == "1" && IsLexeme("1");
    LexemeAt(ops, "(1", 1, 1, "1");
  }

  /** A missing ")" fails in rule parenthesized-expression. */
  lemma MissingCloseParen<N>(ops: NumOps<N>, prior: Statement<N>)
    ensures ParseText(ops, "(1", prior)
         == Err(ParseFailure(ops, PState(2, EOI), "parenthesized-expression", "')'"))
  {
    var s := "(1";
    var one := Lit(ops, "1");
    var st0 := PState(1, Character('('));
    var st1 := PState(2, Number(ops.fromDecimal("1")));
    var st2 := PState(2, EOI);
    var err := ParseFailure(ops, st2, "parenthesized-expression", "')'");
    MissingCloseParenScans(ops);
    assert AtomRule(ops, s, st1) == Ok(Parsed(one, st2));
    assert TermRule(ops, s, st1) == Ok(Parsed(one, st2));
    assert ExpressionRule(ops, s, st1) == Ok(Parsed(one, st2));
    assert PrimaryRule(ops, s, st0) == Err(err);
    assert FactorRule(ops, s, st0) == Err(err);
  }

  lemma TrailingTokenFailsInRootScans<N>(ops: NumOps<N>)
    ensures ScanNext(ops, "1 2", PState(0, Invalid)) == Ok(PState(1, Number(ops.fromDecimal("1"))))
    ensures ScanNext(ops, "1 2", PState(1, Number(ops.fromDecimal("1")))) == Ok(PState(3, Number(ops.fromDecimal("2"))))
  {
    assert "1 2"[0..1] == "1" && IsLexeme("1");
    LexemeAt(ops, "1 2", 0, 0, "1");
    assert "1 2"[2..3] == "2" && IsLexeme("2");
    LexemeAt(ops, "1 2", 1, 2, "2");
  }

  /** Input left over after a whole statement fails in rule root. */
  lemma TrailingTokenFailsInRoot<N>(ops: NumOps<N>, prior: Statement<N>)
    ensures ParseText(ops, "1 2", prior)
         == Err(ParseFailure(ops, PState(3, Number(ops.fromDecimal("2"))), "root", "end-of-input"))
  {
    var s := "1 2";
    var one := Lit(ops, "1");
    var st0 := PState(1, Number(ops.fromDecimal("1")));
    var st1 := PState(3, Number(ops.fromDecimal("2")));
    TrailingTokenFailsInRootScans(ops);
    assert AtomRule(ops, s, st0) == Ok(Parsed(one, st1));
    assert TermRule(ops, s, st0) == Ok(Parsed(one, st1));
    assert ExpressionRule(ops, s, st0) == Ok(Parsed(one, st1));
  }

  /** A symbol that cannot start an atom is blamed on the parenthesized
      expression, which parse_atom tries for every character. */
  lemma OperatorFailsInParenthesized<N>(ops: NumOps<N>, prior: Statement<N>)
    ensures ParseText(ops, "* 2", prior)
         == Err(ParseFailure(ops, PState(1, Character('*')), "parenthesized-expression", "'('"))
  {
    var s := "* 2";
    var st0 := PState(1, Character('*'));
    assert ScanNext(ops, s, PState(0, Invalid)) == Ok(st0);
    assert FactorRule(ops, s, st0) == Err(ParseFailure(ops, st0, "parenthesized-expression", "'('"));
  }
}
