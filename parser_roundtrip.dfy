/** What the grammar of parser.h means, stated as a round trip: an
    expression printed with the fewest parentheses the precedence and
    associativity rules need, and laid out with any white space between its
    tokens that keeps them apart (none at all next to an operator or a
    parenthesis), parses back to the tree it was printed from, using up the
    whole input. Left nesting of
    "+ - * /", right nesting of "^", unary "-" wrapping an "^", and
    parentheses adding no node all follow from it. */
module ParserRoundTrip {
  import opened Errors
  import opened Arithmetic
  import opened Lexer
  import opened Tree
  import opened Parser

  /** Source-level expressions: numbers are kept as their lexemes. */
  datatype Src =
    | Num(lexeme: string)
    | Name(id: string)
    | Neg(arg: Src)
    | Bin(op: char, left: Src, right: Src)

  predicate IsBinOp(c: char) {
    c == '+' || c == '-' || c == '*' || c == '/' || c == '^'
  }

  /** Lexemes are valid and operators are binary operators. A variable may
      be called "define": only a line whose first token is "define" is read
      as a definition. */
  predicate WellFormed(e: Src) {
    match e
    case Num(d) => IsNumberLexeme(d)
    case Name(x) => IsIdentifier(x)
    case Neg(a) => WellFormed(a)
    case Bin(op, l, r) => IsBinOp(op) && WellFormed(l) && WellFormed(r)
  }

  /** The tree the parser is expected to build. */
  function ToExpr<N>(ops: NumOps<N>, e: Src): Expr<N> {
    match e
    case Num(d) => Literal(ops.fromDecimal(d))
    case Name(x) => Var(x)
    case Neg(a) => Negate(ToExpr(ops, a))
    case Bin(op, l, r) =>
      if op == '+' then Add(ToExpr(ops, l), ToExpr(ops, r))
      else if op == '-' then Subtract(ToExpr(ops, l), ToExpr(ops, r))
      else if op == '*' then Multiply(ToExpr(ops, l), ToExpr(ops, r))
      else if op == '/' then Divide(ToExpr(ops, l), ToExpr(ops, r))
      else Exponentiate(ToExpr(ops, l), ToExpr(ops, r))
  }

  /** The grammar rule an expression belongs to: 0 expression, 1 term,
      2 factor, 3 atom with "^", 4 primary. */
  function Level(e: Src): nat {
    match e
    case Num(_) => 4
    case Name(_) => 4
    case Neg(_) => 2
    case Bin(op, _, _) => if op == '^' then 3 else if op == '*' || op == '/' then 1 else 0
  }

  /** The rule each operand of `op` is parsed by: the left operand of "^" is
      a primary and its right one a factor; the left operand of the other
      operators is at their own level and the right one a level higher. */
  function LeftCtx(op: char): nat {
    if op == '^' then 4 else if op == '*' || op == '/' then 1 else 0
  }

  function RightCtx(op: char): nat {
    if op == '^' || op == '*' || op == '/' then 2 else 1
  }

  /** The lexemes of `e` without outer parentheses. */
  function InnerLexemes(e: Src): (ws: seq<string>)
    ensures |ws| > 0
    decreases e, 0
  {
    match e
    case Num(d) => [d]
    case Name(x) => [x]
    case Neg(a) => ["-"] + Lexemes(a, 2)
    case Bin(op, l, r) => Lexemes(l, LeftCtx(op)) + [[op]] + Lexemes(r, RightCtx(op))
  }

  /** The lexemes of `e` printed where the grammar expects rule `ctx`: in
      parentheses when its own rule is a looser one. */
  function Lexemes(e: Src, ctx: nat): (ws: seq<string>)
    ensures |ws| > 0
    decreases e, 1
  {
    if Level(e) < ctx then ["("] + InnerLexemes(e) + [")"] else InnerLexemes(e)
  }

  predicate AllLexemes(ws: seq<string>) {
    forall k :: 0 <= k < |ws| ==> IsLexeme(ws[k])
  }

  lemma AllLexemesConcat(ws1: seq<string>, ws2: seq<string>)
    requires AllLexemes(ws1) && AllLexemes(ws2)
    ensures AllLexemes(ws1 + ws2)
  {
    forall k | 0 <= k < |ws1 + ws2| ensures IsLexeme((ws1 + ws2)[k]) {
      if k < |ws1| {
        assert (ws1 + ws2)[k] == ws1[k];
      } else {
        assert (ws1 + ws2)[k] == ws2[k - |ws1|];
      }
    }
  }

  lemma {:induction false} LexemesValid(e: Src, ctx: nat)
    requires WellFormed(e)
    ensures AllLexemes(Lexemes(e, ctx)) && AllLexemes(InnerLexemes(e))
    decreases e
  {
    var inner := InnerLexemes(e);
    match e {
      case Num(d) =>
      case Name(x) =>
      case Neg(a) =>
        LexemesValid(a, 2);
        AllLexemesConcat(["-"], Lexemes(a, 2));
      case Bin(op, l, r) =>
        LexemesValid(l, LeftCtx(op));
        LexemesValid(r, RightCtx(op));
        AllLexemesConcat(Lexemes(l, LeftCtx(op)), [[op]]);
        AllLexemesConcat(Lexemes(l, LeftCtx(op)) + [[op]], Lexemes(r, RightCtx(op)));
    }
    if Level(e) < ctx {
      AllLexemesConcat(["("], inner);
      AllLexemesConcat(["("] + inner, [")"]);
    }
  }

  /** Printed text starts with "(", "-", a number or a variable, never with
      "-" where an atom is expected. */
  lemma {:induction false} FirstLexeme(e: Src, ctx: nat)
    requires WellFormed(e)
    ensures |Lexemes(e, ctx)| > 0
    ensures var w := Lexemes(e, ctx)[0];
      (w == "(" || w == "-" || IsNumberLexeme(w) || IsIdentifier(w))
      && (ctx >= 3 ==> w != "-")
    decreases e
  {
    if Level(e) >= ctx {
      match e
      case Num(d) =>
      case Name(x) =>
      case Neg(a) =>
      case Bin(op, l, r) =>
        FirstLexeme(l, LeftCtx(op));
    }
  }

  /** The tokens lexemes stand for. */
  lemma TokenOfLexemes<N>(ops: NumOps<N>, w: string)
    requires w == "(" || w == ")" || w == "-" || w == "^" || w == "=" || (|w| == 1 && IsBinOp(w[0])) || IsNumberLexeme(w) || IsIdentifier(w)
    ensures IsLexeme(w)
    ensures |w| == 1 && IsSymbol(w[0]) ==> TokenOf(ops, w) == Character(w[0])
    ensures IsNumberLexeme(w) ==> TokenOf(ops, w) == Number(ops.fromDecimal(w))
    ensures IsIdentifier(w) ==> TokenOf(ops, w) == Identifier(w)
  {
  }

  // The parsing layer: parser states linked by scanning, one per lexeme.

  /** Scanning from `st` meets the tokens of `ws` one after the other as
      lookaheads and ends in `st'`. */
  ghost predicate Scans<N>(ops: NumOps<N>, s: string, st: PState<N>, ws: seq<string>, st': PState<N>)
    decreases |ws|
  {
    if ws == [] then st == st'
    else
      && st.head <= |s|
      && IsLexeme(ws[0])
      && st.lookahead == TokenOf(ops, ws[0])
      && ScanNext(ops, s, st).Ok?
      && Scans(ops, s, ScanNext(ops, s, st).value, ws[1..], st')
  }

  /** `Scans` between two states whose cursors lie within the text. */
  ghost predicate Reads<N>(ops: NumOps<N>, s: string, st: PState<N>, ws: seq<string>, st': PState<N>) {
    st.head <= |s| && st'.head <= |s| && Scans(ops, s, st, ws, st')
  }

  /** `st` reads all of `ws` but its last lexeme, which is `stl`'s lookahead. */
  ghost predicate ReadsToLast<N>(ops: NumOps<N>, s: string, st: PState<N>, ws: seq<string>, stl: PState<N>) {
    && |ws| > 0
    && Reads(ops, s, st, ws[..|ws| - 1], stl)
    && IsLexeme(ws[|ws| - 1])
    && stl.lookahead == TokenOf(ops, ws[|ws| - 1])
  }

  lemma {:induction false} ScansSplit<N>(ops: NumOps<N>, s: string, st: PState<N>, ws1: seq<string>, ws2: seq<string>, st': PState<N>)
    returns (mid: PState<N>)
    requires st.head <= |s| && Scans(ops, s, st, ws1 + ws2, st')
    ensures mid.head <= |s| && Scans(ops, s, st, ws1, mid) && Scans(ops, s, mid, ws2, st')
    decreases |ws1|
  {
    if ws1 == [] {
      assert ws1 + ws2 == ws2;
      mid := st;
    } else {
      assert (ws1 + ws2)[0] == ws1[0];
      assert (ws1 + ws2)[1..] == ws1[1..] + ws2;
      mid := ScansSplit(ops, s, ScanNext(ops, s, st).value, ws1[1..], ws2, st');
    }
  }

  /** Reading `ws1 + ws2` passes through a state between the two parts. */
  lemma ReadsSplit<N>(ops: NumOps<N>, s: string, st: PState<N>, ws1: seq<string>, ws2: seq<string>, st': PState<N>)
    returns (mid: PState<N>)
    requires Reads(ops, s, st, ws1 + ws2, st')
    ensures Reads(ops, s, st, ws1, mid) && Reads(ops, s, mid, ws2, st')
  {
    mid := ScansSplit(ops, s, st, ws1, ws2, st');
  }

  lemma ReadsNil<N>(ops: NumOps<N>, s: string, st: PState<N>, st': PState<N>)
    requires Reads(ops, s, st, [], st')
    ensures st == st'
  {
  }

  lemma ReadsOne<N>(ops: NumOps<N>, s: string, st: PState<N>, w: string, st': PState<N>)
    requires Reads(ops, s, st, [w], st')
    ensures IsLexeme(w) && st.lookahead == TokenOf(ops, w) && ScanNext(ops, s, st) == Ok(st')
  {
    assert [w][0] == w && [w][1..] == [];
    assert Scans(ops, s, ScanNext(ops, s, st).value, [], st');
  }

  lemma ReadsFirst<N>(ops: NumOps<N>, s: string, st: PState<N>, ws: seq<string>, st': PState<N>)
    requires Reads(ops, s, st, ws, st') && |ws| > 0
    ensures IsLexeme(ws[0]) && st.lookahead == TokenOf(ops, ws[0])
  {
  }

  /** The state whose lookahead is the last lexeme. */
  lemma ReadsLast<N>(ops: NumOps<N>, s: string, st: PState<N>, ws: seq<string>, st': PState<N>)
    returns (stl: PState<N>)
    requires Reads(ops, s, st, ws, st') && |ws| > 0
    ensures ReadsToLast(ops, s, st, ws, stl) && ScanNext(ops, s, stl) == Ok(st')
  {
    var n := |ws|;
    assert ws == ws[..n - 1] + [ws[n - 1]];
    stl := ReadsSplit(ops, s, st, ws[..n - 1], [ws[n - 1]], st');
    ReadsOne(ops, s, stl, ws[n - 1], st');
  }

  /** A binary expression's lexemes in three parts. */
  lemma ReadsInfix<N>(ops: NumOps<N>, s: string, st: PState<N>, ws1: seq<string>, op: char, ws2: seq<string>, st': PState<N>)
    returns (m: PState<N>, m1: PState<N>)
    requires Reads(ops, s, st, ws1 + [[op]] + ws2, st') && IsBinOp(op)
    ensures Reads(ops, s, st, ws1, m) && Reads(ops, s, m1, ws2, st')
    ensures m.lookahead == Character(op) && ScanNext(ops, s, m) == Ok(m1)
  {
    m1 := ReadsSplit(ops, s, st, ws1 + [[op]], ws2, st');
    m := ReadsSplit(ops, s, st, ws1, [[op]], m1);
    ReadsOne(ops, s, m, [op], m1);
    TokenOfLexemes(ops, [op]);
  }

  // One grammar step each, stated over parser states only.

  lemma ParenStep<N>(ops: NumOps<N>, s: string, st: PState<N>, st1: PState<N>, t: Expr<N>, st2: PState<N>)
    requires st.head <= |s| && st1.head <= |s| && st2.head <= |s|
    requires IsChar(st.lookahead, '(') && ScanNext(ops, s, st) == Ok(st1)
    requires ExpressionRule(ops, s, st1) == ExpressionTail(ops, s, t, st2) && IsChar(st2.lookahead, ')')
    ensures PrimaryRule(ops, s, st) == Ok(Parsed(t, st2))
  {
    assert ExpressionTail(ops, s, t, st2) == Ok(Parsed(t, st2));
  }

  lemma PowerStep<N>(ops: NumOps<N>, s: string, st: PState<N>, b: Expr<N>, stp: PState<N>, st1: PState<N>, st2: PState<N>, c: Expr<N>, st3: PState<N>)
    requires st.head <= |s| && stp.head <= |s| && st1.head <= |s| && st2.head <= |s|
    requires PrimaryRule(ops, s, st) == Ok(Parsed(b, stp)) && ScanNext(ops, s, stp) == Ok(st1)
    requires IsChar(st1.lookahead, '^') && ScanNext(ops, s, st1) == Ok(st2)
    requires FactorRule(ops, s, st2) == Ok(Parsed(c, st3))
    ensures AtomRule(ops, s, st) == Ok(Parsed(Exponentiate(b, c), st3))
  {
  }

  lemma PlainAtomStep<N>(ops: NumOps<N>, s: string, st: PState<N>, b: Expr<N>, stp: PState<N>, st1: PState<N>)
    requires st.head <= |s| && stp.head <= |s| && st1.head <= |s|
    requires PrimaryRule(ops, s, st) == Ok(Parsed(b, stp)) && ScanNext(ops, s, stp) == Ok(st1)
    requires !IsChar(st1.lookahead, '^')
    ensures AtomRule(ops, s, st) == Ok(Parsed(b, st1))
  {
  }

  lemma NegateStep<N>(ops: NumOps<N>, s: string, st: PState<N>, st1: PState<N>, c: Expr<N>, st2: PState<N>)
    requires st.head <= |s| && st1.head <= |s|
    requires IsChar(st.lookahead, '-') && ScanNext(ops, s, st) == Ok(st1)
    requires FactorRule(ops, s, st1) == Ok(Parsed(c, st2))
    ensures FactorRule(ops, s, st) == Ok(Parsed(Negate(c), st2))
  {
  }

  lemma AtomFactorStep<N>(ops: NumOps<N>, s: string, st: PState<N>)
    requires st.head <= |s| && !IsChar(st.lookahead, '+') && !IsChar(st.lookahead, '-')
    ensures FactorRule(ops, s, st) == AtomRule(ops, s, st)
  {
  }

  lemma TermStep<N>(ops: NumOps<N>, s: string, st: PState<N>, a: Expr<N>, stm: PState<N>, op: char, st1: PState<N>, c: Expr<N>, st2: PState<N>)
    requires st.head <= |s| && stm.head <= |s| && st1.head <= |s| && st2.head <= |s|
    requires TermRule(ops, s, st) == TermTail(ops, s, a, stm)
    requires (op == '*' || op == '/') && IsChar(stm.lookahead, op) && ScanNext(ops, s, stm) == Ok(st1)
    requires FactorRule(ops, s, st1) == Ok(Parsed(c, st2))
    ensures TermRule(ops, s, st) == TermTail(ops, s, if op == '*' then Multiply(a, c) else Divide(a, c), st2)
  {
  }

  lemma FactorTermStep<N>(ops: NumOps<N>, s: string, st: PState<N>, a: Expr<N>, st2: PState<N>)
    requires st.head <= |s| && st2.head <= |s|
    requires FactorRule(ops, s, st) == Ok(Parsed(a, st2))
    ensures TermRule(ops, s, st) == TermTail(ops, s, a, st2)
  {
  }

  lemma ExpressionStep<N>(ops: NumOps<N>, s: string, st: PState<N>, a: Expr<N>, stm: PState<N>, op: char, st1: PState<N>, c: Expr<N>, st2: PState<N>)
    requires st.head <= |s| && stm.head <= |s| && st1.head <= |s| && st2.head <= |s|
    requires ExpressionRule(ops, s, st) == ExpressionTail(ops, s, a, stm)
    requires (op == '+' || op == '-') && IsChar(stm.lookahead, op) && ScanNext(ops, s, stm) == Ok(st1)
    requires TermRule(ops, s, st1) == TermTail(ops, s, c, st2)
    requires !IsChar(st2.lookahead, '*') && !IsChar(st2.lookahead, '/')
    ensures ExpressionRule(ops, s, st) == ExpressionTail(ops, s, if op == '+' then Add(a, c) else Subtract(a, c), st2)
  {
    assert TermTail(ops, s, c, st2) == Ok(Parsed(c, st2));
  }

  lemma TermExpressionStep<N>(ops: NumOps<N>, s: string, st: PState<N>, a: Expr<N>, st2: PState<N>)
    requires st.head <= |s| && st2.head <= |s|
    requires !IsChar(st.lookahead, ')') && TermRule(ops, s, st) == TermTail(ops, s, a, st2)
    requires !IsChar(st2.lookahead, '*') && !IsChar(st2.lookahead, '/')
    ensures ExpressionRule(ops, s, st) == ExpressionTail(ops, s, a, st2)
  {
    assert TermTail(ops, s, a, st2) == Ok(Parsed(a, st2));
  }

  /** Rule `ctx` was reached with `e`; `Dist` counts the rules still to go
      down (or round, through a pair of parentheses) before the one that
      handles `e`'s outermost node. */
  function Dist(e: Src, ctx: nat): nat
    requires ctx <= 4
  {
    if ctx <= Level(e) then Level(e) - ctx else Level(e) + 5 - ctx
  }

  /** A printed primary is read by the first half of parse_atom, which
      leaves its last token as the lookahead. */
  lemma {:induction false} PrimaryReads<N>(ops: NumOps<N>, s: string, st: PState<N>, e: Src, stl: PState<N>)
    requires WellFormed(e) && ReadsToLast(ops, s, st, Lexemes(e, 4), stl)
    ensures PrimaryRule(ops, s, st) == Ok(Parsed(ToExpr(ops, e), stl))
    decreases e, Dist(e, 4)
  {
    var ws := Lexemes(e, 4);
    if Level(e) == 4 {
      assert ws == InnerLexemes(e) && ws[..0] == [];
      ReadsNil(ops, s, st, stl);
      TokenOfLexemes(ops, ws[0]);
    } else {
      var inner := InnerLexemes(e);
      assert ws[..|ws| - 1] == ["("] + inner;
      var st1 := ReadsSplit(ops, s, st, ["("], inner, stl);
      ReadsOne(ops, s, st, "(", st1);
      TokenOfLexemes(ops, "(");
      TokenOfLexemes(ops, ")");
      assert Lexemes(e, 0) == inner;
      ExpressionReads(ops, s, st1, e, stl);
      ParenStep(ops, s, st, st1, ToExpr(ops, e), stl);
    }
  }

  /** A printed atom: a primary, or a primary "^" a factor. */
  lemma {:induction false} AtomReads<N>(ops: NumOps<N>, s: string, st: PState<N>, e: Src, st': PState<N>)
    requires WellFormed(e) && Reads(ops, s, st, Lexemes(e, 3), st') && !IsChar(st'.lookahead, '^')
    ensures AtomRule(ops, s, st) == Ok(Parsed(ToExpr(ops, e), st'))
    decreases e, Dist(e, 3)
  {
    if Level(e) == 3 {
      var Bin(op, l, r) := e;
      assert Lexemes(e, 3) == Lexemes(l, 4) + [[op]] + Lexemes(r, 2);
      var m, m1 := ReadsInfix(ops, s, st, Lexemes(l, 4), op, Lexemes(r, 2), st');
      var ml := ReadsLast(ops, s, st, Lexemes(l, 4), m);
      PrimaryReads(ops, s, st, l, ml);
      FactorReads(ops, s, m1, r, st');
      PowerStep(ops, s, st, ToExpr(ops, l), ml, m, m1, ToExpr(ops, r), st');
    } else {
      assert Lexemes(e, 3) == Lexemes(e, 4);
      var stl := ReadsLast(ops, s, st, Lexemes(e, 4), st');
      PrimaryReads(ops, s, st, e, stl);
      PlainAtomStep(ops, s, st, ToExpr(ops, e), stl, st');
    }
  }

  /** A printed factor: a negated factor, or an atom. */
  lemma {:induction false} FactorReads<N>(ops: NumOps<N>, s: string, st: PState<N>, e: Src, st': PState<N>)
    requires WellFormed(e) && Reads(ops, s, st, Lexemes(e, 2), st') && !IsChar(st'.lookahead, '^')
    ensures FactorRule(ops, s, st) == Ok(Parsed(ToExpr(ops, e), st'))
    decreases e, Dist(e, 2)
  {
    if Level(e) == 2 {
      var Neg(x) := e;
      assert Lexemes(e, 2) == ["-"] + Lexemes(x, 2);
      var st1 := ReadsSplit(ops, s, st, ["-"], Lexemes(x, 2), st');
      ReadsOne(ops, s, st, "-", st1);
      TokenOfLexemes(ops, "-");
      FactorReads(ops, s, st1, x, st');
      NegateStep(ops, s, st, st1, ToExpr(ops, x), st');
    } else {
      assert Lexemes(e, 2) == Lexemes(e, 3);
      AtomReads(ops, s, st, e, st');
      FirstLexeme(e, 3);
      ReadsFirst(ops, s, st, Lexemes(e, 3), st');
      TokenOfLexemes(ops, Lexemes(e, 3)[0]);
      AtomFactorStep(ops, s, st);
    }
  }

  /** A printed term is a factor followed by the rest of a "*"/"/" chain. */
  lemma {:induction false} TermReads<N>(ops: NumOps<N>, s: string, st: PState<N>, e: Src, st': PState<N>)
    requires WellFormed(e) && Reads(ops, s, st, Lexemes(e, 1), st') && !IsChar(st'.lookahead, '^')
    ensures TermRule(ops, s, st) == TermTail(ops, s, ToExpr(ops, e), st')
    decreases e, Dist(e, 1)
  {
    if Level(e) == 1 {
      var Bin(op, l, r) := e;
      assert Lexemes(e, 1) == Lexemes(l, 1) + [[op]] + Lexemes(r, 2);
      var m, m1 := ReadsInfix(ops, s, st, Lexemes(l, 1), op, Lexemes(r, 2), st');
      TermReads(ops, s, st, l, m);
      FactorReads(ops, s, m1, r, st');
      TermStep(ops, s, st, ToExpr(ops, l), m, op, m1, ToExpr(ops, r), st');
    } else {
      assert Lexemes(e, 1) == Lexemes(e, 2);
      FactorReads(ops, s, st, e, st');
      FactorTermStep(ops, s, st, ToExpr(ops, e), st');
    }
  }

  /** A printed expression is a term followed by the rest of a "+"/"-" chain. */
  lemma {:induction false} ExpressionReads<N>(ops: NumOps<N>, s: string, st: PState<N>, e: Src, st': PState<N>)
    requires WellFormed(e) && Reads(ops, s, st, Lexemes(e, 0), st')
    requires !IsChar(st'.lookahead, '*') && !IsChar(st'.lookahead, '/') && !IsChar(st'.lookahead, '^')
    ensures ExpressionRule(ops, s, st) == ExpressionTail(ops, s, ToExpr(ops, e), st')
    decreases e, Dist(e, 0)
  {
    if Level(e) == 0 {
      var Bin(op, l, r) := e;
      assert Lexemes(e, 0) == Lexemes(l, 0) + [[op]] + Lexemes(r, 1);
      var m, m1 := ReadsInfix(ops, s, st, Lexemes(l, 0), op, Lexemes(r, 1), st');
      ExpressionReads(ops, s, st, l, m);
      TermReads(ops, s, m1, r, st');
      ExpressionStep(ops, s, st, ToExpr(ops, l), m, op, m1, ToExpr(ops, r), st');
    } else {
      assert Lexemes(e, 0) == Lexemes(e, 1);
      TermReads(ops, s, st, e, st');
      FirstLexeme(e, 0);
      ReadsFirst(ops, s, st, Lexemes(e, 0), st');
      TokenOfLexemes(ops, Lexemes(e, 0)[0]);
      TermExpressionStep(ops, s, st, ToExpr(ops, e), st');
    }
  }

  // The lexing layer: lexemes laid out with white space between them.

  /** Nothing but white space. */
  predicate AllSpace(g: string) {
    forall m :: 0 <= m < |g| ==> IsSpace(g[m])
  }

  predicate WhiteGaps(gaps: seq<string>) {
    forall k :: 0 <= k < |gaps| ==> AllSpace(gaps[k])
  }

  /** The text of `ws` with `gaps[k]` in front of lexeme `k` and the last
      gap after the last lexeme. */
  function Laid(ws: seq<string>, gaps: seq<string>): string
    requires |gaps| == |ws| + 1
    decreases |ws|
  {
    if ws == [] then gaps[0] else gaps[0] + ws[0] + Laid(ws[1..], gaps[1..])
  }

  /** A layout the lexer splits back into `ws`: every gap is white space,
      every piece a lexeme, and where the gap between two lexemes is empty
      the second does not begin with a character the first would take in. */
  predicate Layout(ws: seq<string>, gaps: seq<string>)
    decreases |ws|
  {
    && |gaps| == |ws| + 1
    && AllSpace(gaps[0])
    && (ws != [] ==>
          && IsLexeme(ws[0])
          && (|ws| > 1 && gaps[1] == [] && ws[1] != [] ==> !Continues(ws[0], ws[1][0]))
          && Layout(ws[1..], gaps[1..]))
  }

  /** One of two neighbouring lexemes is an operator. */
  predicate SymbolBetween(a: string, b: string) {
    (|a| > 0 && IsSymbol(a[0])) || (|b| > 0 && IsSymbol(b[0]))
  }

  /** No two neighbouring lexemes are both numbers or names. */
  predicate Separated(ws: seq<string>) {
    forall k :: 0 < k < |ws| ==> SymbolBetween(ws[k - 1], ws[k])
  }

  /** Neither of two lexemes with an operator among them extends the other. */
  lemma NotContinued(a: string, b: string)
    requires IsLexeme(a) && IsLexeme(b) && SymbolBetween(a, b)
    ensures !Continues(a, b[0])
  {
    if IsNumberLexeme(a) {
      assert IsNumberChar(a[0]);
    }
  }

  lemma SeparatedJoin(a: seq<string>, op: string, b: seq<string>)
    requires Separated(a) && Separated(b) && |op| == 1 && IsSymbol(op[0])
    ensures Separated(a + [op] + b)
  {
    var ws := a + [op] + b;
    forall k | 0 < k < |ws| ensures SymbolBetween(ws[k - 1], ws[k]) {
      if k < |a| {
        assert ws[k - 1] == a[k - 1] && ws[k] == a[k];
      } else if k == |a| {
        assert ws[k] == op;
      } else if k == |a| + 1 {
        assert ws[k - 1] == op;
      } else {
        assert ws[k - 1] == b[k - 2 - |a|] && ws[k] == b[k - 1 - |a|];
      }
    }
  }

  /** Operands are always kept apart by an operator or a parenthesis. */
  lemma {:induction false} LexemesSeparated(e: Src, ctx: nat)
    requires WellFormed(e)
    ensures Separated(Lexemes(e, ctx)) && Separated(InnerLexemes(e))
    decreases e
  {
    var inner := InnerLexemes(e);
    match e {
      case Num(d) =>
      case Name(x) =>
      case Neg(a) =>
        LexemesSeparated(a, 2);
        SeparatedJoin([], "-", Lexemes(a, 2));
        assert [] + ["-"] + Lexemes(a, 2) == inner;
      case Bin(op, l, r) =>
        LexemesSeparated(l, LeftCtx(op));
        LexemesSeparated(r, RightCtx(op));
        SeparatedJoin(Lexemes(l, LeftCtx(op)), [op], Lexemes(r, RightCtx(op)));
    }
    if Level(e) < ctx {
      SeparatedJoin([], "(", inner);
      assert [] + ["("] + inner == ["("] + inner;
      SeparatedJoin(["("] + inner, ")", []);
      assert ["("] + inner + [")"] + [] == Lexemes(e, ctx);
    }
  }

  /** Separated lexemes may be laid out with any white space, none included. */
  lemma {:induction false} SeparatedLayout(ws: seq<string>, gaps: seq<string>)
    requires AllLexemes(ws) && Separated(ws) && |gaps| == |ws| + 1 && WhiteGaps(gaps)
    ensures Layout(ws, gaps)
    decreases |ws|
  {
    assert AllSpace(gaps[0]);
    if ws != [] {
      assert IsLexeme(ws[0]);
      if |ws| > 1 {
        NotContinued(ws[0], ws[1]);
      }
      forall k | 0 <= k < |ws| - 1 ensures IsLexeme(ws[1..][k]) {
        assert ws[1..][k] == ws[k + 1];
      }
      forall k | 0 < k < |ws| - 1 ensures SymbolBetween(ws[1..][k - 1], ws[1..][k]) {
        assert ws[1..][k - 1] == ws[k] && ws[1..][k] == ws[k + 1];
      }
      forall k | 0 <= k < |gaps| - 1 ensures AllSpace(gaps[1..][k]) {
        assert gaps[1..][k] == gaps[k + 1];
      }
      SeparatedLayout(ws[1..], gaps[1..]);
    }
  }

  /** The state that holds the first lexeme of text printed at `p`. */
  function Start<N>(ops: NumOps<N>, p: nat, ws: seq<string>): PState<N>
    requires |ws| > 0 && IsLexeme(ws[0])
  {
    PState(p + |ws[0]|, TokenOf(ops, ws[0]))
  }

  /** `LexemeAt` for the scan of a parser state: the first lexeme of `ws`
      sits at `k`, after white space. */
  lemma ScanLexeme<N>(ops: NumOps<N>, s: string, st: PState<N>, k: nat, ws: seq<string>)
    requires |ws| > 0 && st.head <= k && k + |ws[0]| <= |s|
    requires forall m :: st.head <= m < k ==> IsSpace(s[m])
    requires s[k..k + |ws[0]|] == ws[0] && IsLexeme(ws[0])
    requires k + |ws[0]| < |s| ==> !Continues(ws[0], s[k + |ws[0]|])
    ensures ScanNext(ops, s, st) == Ok(Start(ops, k, ws))
  {
    LexemeAt(ops, s, st.head, k, ws[0]);
  }

  /** Where the first lexeme of a layout at `p` sits in `s`, and what follows it. */
  lemma LaidHead(s: string, p: nat, ws: seq<string>, gaps: seq<string>)
    requires Layout(ws, gaps) && |ws| > 0 && p <= |s| && s[p..] == Laid(ws, gaps)
    ensures p + |gaps[0]| + |ws[0]| <= |s|
    ensures forall m :: p <= m < p + |gaps[0]| ==> IsSpace(s[m])
    ensures s[p + |gaps[0]|..p + |gaps[0]| + |ws[0]|] == ws[0]
    ensures s[p + |gaps[0]| + |ws[0]|..] == Laid(ws[1..], gaps[1..])
  {
    var g, w := gaps[0], ws[0];
    assert s[p..] == g + w + Laid(ws[1..], gaps[1..]);
    assert AllSpace(g);
    forall m | p <= m < p + |g| ensures IsSpace(s[m]) {
      assert s[m] == s[p..][m - p] == g[m - p];
    }
    assert s[p + |g|..p + |g| + |w|] == s[p..][|g|..|g| + |w|];
    assert s[p + |g| + |w|..] == s[p..][|g| + |w|..];
  }

  /** The character after a lexeme laid out before `ws` does not extend it. */
  lemma LaidFollow(s: string, q: nat, w: string, ws: seq<string>, gaps: seq<string>)
    requires Layout(ws, gaps) && q <= |s| && s[q..] == Laid(ws, gaps)
    requires |ws| > 0 && gaps[0] == [] ==> IsLexeme(ws[0]) && !Continues(w, ws[0][0])
    ensures q < |s| ==> !Continues(w, s[q])
  {
    if q < |s| {
      if gaps[0] != [] {
        assert AllSpace(gaps[0]);
        assert s[q] == s[q..][0] == gaps[0][0];
      } else if ws != [] {
        assert s[q] == s[q..][0] == ws[0][0];
      }
    }
  }

  /** What a scan from before a layout of `ws` meets: white space, then the
      first lexeme of `ws`, then nothing that extends it. */
  lemma LaidFirst(s: string, h: nat, ws: seq<string>, gaps: seq<string>)
    requires Layout(ws, gaps) && |ws| > 0 && h <= |s| && s[h..] == Laid(ws, gaps)
    ensures IsLexeme(ws[0]) && h + |gaps[0]| + |ws[0]| <= |s|
    ensures forall m :: h <= m < h + |gaps[0]| ==> IsSpace(s[m])
    ensures s[h + |gaps[0]|..h + |gaps[0]| + |ws[0]|] == ws[0]
    ensures h + |gaps[0]| + |ws[0]| < |s| ==> !Continues(ws[0], s[h + |gaps[0]| + |ws[0]|])
  {
    LaidHead(s, h, ws, gaps);
    if |ws| > 1 {
      assert ws[1..][0] == ws[1] && gaps[1..][0] == gaps[1];
    }
    LaidFollow(s, h + |gaps[0]| + |ws[0]|, ws[0], ws[1..], gaps[1..]);
  }

  /** A scan from before a layout of `ws` reads the first lexeme of `ws`. */
  lemma LaidScan<N>(ops: NumOps<N>, s: string, st: PState<N>, ws: seq<string>, gaps: seq<string>)
    requires Layout(ws, gaps) && |ws| > 0 && st.head <= |s| && s[st.head..] == Laid(ws, gaps)
    ensures IsLexeme(ws[0]) && st.head + |gaps[0]| + |ws[0]| <= |s|
    ensures ScanNext(ops, s, st) == Ok(Start(ops, st.head + |gaps[0]|, ws))
  {
    LaidFirst(s, st.head, ws, gaps);
    ScanLexeme(ops, s, st, st.head + |gaps[0]|, ws);
  }

  /** After the last lexeme only white space is left: end of input. */
  lemma LaidEnd<N>(ops: NumOps<N>, s: string, st: PState<N>, gaps: seq<string>)
    requires Layout([], gaps) && st.head <= |s| && s[st.head..] == Laid([], gaps)
    ensures ScanNext(ops, s, st) == Ok(PState(|s|, EOI))
  {
    assert AllSpace(gaps[0]);
    forall m | st.head <= m < |s| ensures IsSpace(s[m]) {
      assert s[m] == s[st.head..][m - st.head];
    }
    LexEndOfInput(ops, s, st.head);
  }

  /** One more scan in front of a reading. */
  lemma ReadsCons<N>(ops: NumOps<N>, s: string, st: PState<N>, w: string, rest: seq<string>, nx: PState<N>, st': PState<N>)
    requires st.head <= |s| && IsLexeme(w) && st.lookahead == TokenOf(ops, w)
    requires ScanNext(ops, s, st) == Ok(nx) && Reads(ops, s, nx, rest, st')
    ensures Reads(ops, s, st, [w] + rest, st')
  {
    assert ([w] + rest)[0] == w && ([w] + rest)[1..] == rest;
  }

  /** A layout of a single lexeme is read up to the end of input. */
  lemma ReadsLaidOne<N>(ops: NumOps<N>, s: string, p: nat, ws: seq<string>, gaps: seq<string>)
    requires Layout(ws, gaps) && |ws| == 1 && p <= |s| && s[p..] == Laid(ws, gaps)
    ensures IsLexeme(ws[0]) && p + |gaps[0]| + |ws[0]| <= |s|
    ensures Reads(ops, s, Start(ops, p + |gaps[0]|, ws), ws, PState(|s|, EOI))
  {
    LaidHead(s, p, ws, gaps);
    var st := Start(ops, p + |gaps[0]|, ws);
    var fin := PState(|s|, EOI);
    LaidEnd(ops, s, st, gaps[1..]);
    assert ws == [ws[0]] + [];
    assert Reads(ops, s, fin, [], fin);
    ReadsCons(ops, s, st, ws[0], [], fin, fin);
  }

  /** The text after the first lexeme of a layout is a layout of the others. */
  lemma LaidRest(s: string, p: nat, ws: seq<string>, gaps: seq<string>)
    requires Layout(ws, gaps) && |ws| > 0 && p <= |s| && s[p..] == Laid(ws, gaps)
    ensures IsLexeme(ws[0]) && p + |gaps[0]| + |ws[0]| <= |s|
    ensures Layout(ws[1..], gaps[1..]) && s[p + |gaps[0]| + |ws[0]|..] == Laid(ws[1..], gaps[1..])
  {
    LaidHead(s, p, ws, gaps);
  }

  /** A lexeme `w` held as lookahead in front of a layout of `ws` that is
      read to the end extends that reading to `[w] + ws`. */
  lemma ReadsLaidMore<N>(ops: NumOps<N>, s: string, q: nat, w: string, ws: seq<string>, gaps: seq<string>)
    requires IsLexeme(w) && Layout(ws, gaps) && |ws| > 0 && q <= |s| && s[q..] == Laid(ws, gaps)
    requires IsLexeme(ws[0]) && Reads(ops, s, Start(ops, q + |gaps[0]|, ws), ws, PState(|s|, EOI))
    ensures Reads(ops, s, PState(q, TokenOf(ops, w)), [w] + ws, PState(|s|, EOI))
  {
    var st, nx := PState(q, TokenOf(ops, w)), Start(ops, q + |gaps[0]|, ws);
    LaidScan(ops, s, st, ws, gaps);
    assert ScanNext(ops, s, st) == Ok(nx);
    ReadsCons(ops, s, st, w, ws, nx, PState(|s|, EOI));
  }

  /** The lexemes of a layout at `p` that runs to the end of `s` are scanned
      one by one from the state holding the first of them, and the last scan
      meets the end of input. */
  lemma {:induction false} ScansLaid<N>(ops: NumOps<N>, s: string, p: nat, ws: seq<string>, gaps: seq<string>)
    requires Layout(ws, gaps) && |ws| > 0 && p <= |s| && s[p..] == Laid(ws, gaps)
    ensures IsLexeme(ws[0]) && p + |gaps[0]| + |ws[0]| <= |s|
    ensures Reads(ops, s, Start(ops, p + |gaps[0]|, ws), ws, PState(|s|, EOI))
    decreases |ws|
  {
    if |ws| == 1 {
      ReadsLaidOne(ops, s, p, ws, gaps);
    } else {
      var q, rest, gs := p + |gaps[0]| + |ws[0]|, ws[1..], gaps[1..];
      LaidRest(s, p, ws, gaps);
      ScansLaid(ops, s, q, rest, gs);
      ReadsLaidMore(ops, s, q, ws[0], rest, gs);
      assert Start(ops, p + |gaps[0]|, ws) == PState(q, TokenOf(ops, ws[0]));
      assert [ws[0]] + rest == ws;
    }
  }

  /** parse_root on the lexemes of an expression. */
  lemma ExpressionRootReads<N>(ops: NumOps<N>, s: string, e: Src, prior: Statement<N>, st: PState<N>, fin: PState<N>)
    requires WellFormed(e) && Lexemes(e, 0)[0] != "define"
    requires Reads(ops, s, st, Lexemes(e, 0), fin) && fin.lookahead == EOI
    ensures RootRule(ops, s, prior, st) == Ok(Expression(ToExpr(ops, e)))
  {
    var ws := Lexemes(e, 0);
    FirstLexeme(e, 0);
    ReadsFirst(ops, s, st, ws, fin);
    TokenOfLexemes(ops, ws[0]);
    ExpressionReads(ops, s, st, e, fin);
    assert ExpressionTail(ops, s, ToExpr(ops, e), fin) == Ok(Parsed(ToExpr(ops, e), fin));
  }

  /** parse_root on "define", a name, "=" and an expression, given the scans
      between them. */
  lemma DefinitionStep<N>(ops: NumOps<N>, s: string, x: string, t: Expr<N>, prior: Statement<N>, st: PState<N>, st1: PState<N>, st2: PState<N>, st3: PState<N>, fin: PState<N>)
    requires st.head <= |s| && st1.head <= |s| && st2.head <= |s| && st3.head <= |s|
    requires st.lookahead == Identifier("define") && ScanNext(ops, s, st) == Ok(st1)
    requires st1.lookahead == Identifier(x) && ScanNext(ops, s, st1) == Ok(st2)
    requires st2.lookahead == Character('=') && ScanNext(ops, s, st2) == Ok(st3)
    requires ExpressionRule(ops, s, st3) == Ok(Parsed(t, fin)) && fin.lookahead == EOI
    ensures RootRule(ops, s, prior, st) == Ok(VarDefinition(x, t))
  {
    assert DefinitionRule(ops, s, prior, st1) == Ok(ParsedStatement(VarDefinition(x, t), fin));
  }

  /** parse_root on the lexemes of a definition. */
  lemma DefinitionReads<N>(ops: NumOps<N>, s: string, x: string, e: Src, prior: Statement<N>, st: PState<N>, fin: PState<N>)
    requires IsIdentifier(x) && WellFormed(e)
    requires Reads(ops, s, st, ["define", x, "="] + Lexemes(e, 0), fin) && fin.lookahead == EOI
    ensures RootRule(ops, s, prior, st) == Ok(VarDefinition(x, ToExpr(ops, e)))
  {
    var ews := Lexemes(e, 0);
    TokenOfLexemes(ops, "define");
    TokenOfLexemes(ops, x);
    TokenOfLexemes(ops, "=");
    assert ["define", x, "="] + ews == ["define"] + ([x] + (["="] + ews));
    var st1 := ReadsSplit(ops, s, st, ["define"], [x] + (["="] + ews), fin);
    ReadsOne(ops, s, st, "define", st1);
    var st2 := ReadsSplit(ops, s, st1, [x], ["="] + ews, fin);
    ReadsOne(ops, s, st1, x, st2);
    var st3 := ReadsSplit(ops, s, st2, ["="], ews, fin);
    ReadsOne(ops, s, st2, "=", st3);
    ExpressionReads(ops, s, st3, e, fin);
    assert ExpressionTail(ops, s, ToExpr(ops, e), fin) == Ok(Parsed(ToExpr(ops, e), fin));
    DefinitionStep(ops, s, x, ToExpr(ops, e), prior, st, st1, st2, st3, fin);
  }

  /** The round trip for expressions: the lexemes of a tree, laid out with
      any white space between them, none included, parse back to the tree,
      whatever statement the caller held before. A variable "define" may
      appear anywhere but first, where it would start a definition. */
  lemma ParseLaidOut<N>(ops: NumOps<N>, e: Src, gaps: seq<string>, prior: Statement<N>)
    requires WellFormed(e) && Lexemes(e, 0)[0] != "define"
    requires |gaps| == |Lexemes(e, 0)| + 1 && WhiteGaps(gaps)
    ensures ParseText(ops, Laid(Lexemes(e, 0), gaps), prior) == Ok(Expression(ToExpr(ops, e)))
  {
    var ws := Lexemes(e, 0);
    var s := Laid(ws, gaps);
    LexemesValid(e, 0);
    LexemesSeparated(e, 0);
    SeparatedLayout(ws, gaps);
    assert s[0..] == s;
    LaidScan(ops, s, PState(0, Invalid), ws, gaps);
    ScansLaid(ops, s, 0, ws, gaps);
    ExpressionRootReads(ops, s, e, prior, Start(ops, |gaps[0]|, ws), PState(|s|, EOI));
  }

  /** "define", a name, "=" and the lexemes of a tree form a layout when
      white space, at least one character of it, separates the two names. */
  lemma DefinitionLayout(x: string, ews: seq<string>, gaps: seq<string>)
    requires IsIdentifier(x) && AllLexemes(ews) && Separated(ews) && |ews| > 0
    requires |gaps| == |ews| + 4 && WhiteGaps(gaps) && gaps[1] != []
    ensures Layout(["define", x, "="] + ews, gaps)
  {
    var ws := ["define", x, "="] + ews;
    forall k | 0 <= k < |gaps| - 3 ensures AllSpace(gaps[3..][k]) {
      assert gaps[3..][k] == gaps[k + 3];
    }
    SeparatedLayout(ews, gaps[3..]);
    assert IsSymbol('=');
    assert Layout(["="] + ews, gaps[2..]) by {
      assert (["="] + ews)[1..] == ews && gaps[2..][1..] == gaps[3..];
      NotContinued("=", ews[0]);
    }
    assert Layout([x, "="] + ews, gaps[1..]) by {
      assert ([x, "="] + ews)[1..] == ["="] + ews && gaps[1..][1..] == gaps[2..];
    }
    assert IsIdentifier("define");
    assert ws[1..] == [x, "="] + ews && gaps[1..] == gaps[1..];
  }

  /** The round trip for definitions: "define", a name, "=" and the lexemes
      of a tree, laid out with white space that keeps the two names apart,
      parse back to the definition of that name as that tree. */
  lemma ParseLaidOutDefinition<N>(ops: NumOps<N>, x: string, e: Src, gaps: seq<string>, prior: Statement<N>)
    requires IsIdentifier(x) && WellFormed(e)
    requires |gaps| == |Lexemes(e, 0)| + 4 && WhiteGaps(gaps) && gaps[1] != []
    ensures ParseText(ops, Laid(["define", x, "="] + Lexemes(e, 0), gaps), prior)
         == Ok(VarDefinition(x, ToExpr(ops, e)))
  {
    var ws := ["define", x, "="] + Lexemes(e, 0);
    var s := Laid(ws, gaps);
    LexemesValid(e, 0);
    LexemesSeparated(e, 0);
    DefinitionLayout(x, Lexemes(e, 0), gaps);
    assert s[0..] == s;
    LaidScan(ops, s, PState(0, Invalid), ws, gaps);
    ScansLaid(ops, s, 0, ws, gaps);
    DefinitionReads(ops, s, x, e, prior, Start(ops, |gaps[0]|, ws), PState(|s|, EOI));
  }
}
