/** The recursive-descent parser of parser.h. The state is the cursor into
    the input and one lookahead token; each grammar rule either throws a
    parse error naming the rule or yields a tree and moves the state on.

    The functions ending in `Rule` state what each rule produces from a
    given state; the class `ParserState` is the source's `parser_state` with
    its rules as methods, proved to behave as those functions say. */
module Parser {
  import opened Errors
  import opened Arithmetic
  import opened Lexer
  import opened Tree

  /** The cursor `head` and the `lookahead` token of parser_state (parser.h:31-46). */
  datatype PState<N> = PState(head: nat, lookahead: Token<N>)

  /** A rule's tree and the state after it. */
  datatype Parsed<N> = Parsed(tree: Expr<N>, state: PState<N>)

  /** A statement and the state after it. */
  datatype ParsedStatement<N> = ParsedStatement(stmt: Statement<N>, state: PState<N>)

  predicate IsChar<N>(t: Token<N>, c: char) {
    t.Character? && t.symbol == c
  }

  /** What is left to read: the characters after the cursor, plus one for a
      lookahead that is not end of input. Every scan of a lookahead other
      than EOI makes it smaller. */
  function Rank<N>(s: string, st: PState<N>): nat
    requires st.head <= |s|
  {
    |s| - st.head + (if st.lookahead.EOI? then 0 else 1)
  }

  /** `st'` is a state reachable from `st` by scanning. */
  predicate Advances<N>(s: string, st: PState<N>, st': PState<N>)
    requires st.head <= |s|
  {
    st'.head <= |s| && Rank(s, st') <= Rank(s, st)
  }

  /** A lookahead of end of input sits at the end of the text: true of every
      state the scanner produces. */
  predicate EOIAtEnd<N>(s: string, st: PState<N>) {
    st.lookahead.EOI? ==> st.head == |s|
  }

  /** parser_state::scan (parser.h:37-40): the next token replaces the lookahead. */
  function ScanNext<N>(ops: NumOps<N>, s: string, st: PState<N>): (r: Result<PState<N>>)
    requires st.head <= |s|
    ensures r.Ok? ==> Advances(s, st, r.value) && !r.value.lookahead.Invalid?
    ensures r.Ok? && !st.lookahead.EOI? ==> Rank(s, r.value) < Rank(s, st)
    ensures r.Ok? ==> EOIAtEnd(s, r.value)
  {
    var l :- NextToken(ops, s, st.head);
    Ok(PState(l.next, l.token))
  }

  /** How throw_parse_error shows the lookahead (parser.h:67-74). An
      identifier shows as "invalid token." like the Invalid tag. */
  function Got<N>(ops: NumOps<N>, t: Token<N>): (r: string)
    ensures |r| > 0 && r[|r| - 1] == '.'
    ensures r == "invalid token." <==> t.Invalid? || t.Identifier?
  {
    match t
    case EOI => "end-of-input."
    case Character(c) => "'" + [c] + "'."
    case Number(v) =>
      var r := "number " + ops.show(v) + ".";
      assert r[0] != "invalid token."[0];
      r
    case _ => "invalid token."
  }

  /** The error throw_parse_error throws (parser.h:59-77). */
  function ParseFailure<N>(ops: NumOps<N>, st: PState<N>, rule: string, expected: string): Error {
    ParseError("In rule " + rule + ": expected " + expected + ", got " + Got(ops, st.lookahead))
  }

  /** parse_parenthesized_expression (parser.h:85-97): "(" expression ")",
      leaving the ")" as the lookahead. */
  function ParenthesizedRule<N>(ops: NumOps<N>, s: string, st: PState<N>): (r: Result<Parsed<N>>)
    requires st.head <= |s|
    ensures r.Ok? ==> Advances(s, st, r.value.state) && IsChar(r.value.state.lookahead, ')')
    ensures r.Ok? && EOIAtEnd(s, st) ==> EOIAtEnd(s, r.value.state)
    decreases Rank(s, st), 0
  {
    if !IsChar(st.lookahead, '(') then
      Err(ParseFailure(ops, st, "parenthesized-expression", "'('"))
    else
      var st1 :- ScanNext(ops, s, st);
      var e :- ExpressionRule(ops, s, st1);
      if !IsChar(e.state.lookahead, ')') then
        Err(ParseFailure(ops, e.state, "parenthesized-expression", "')'"))
      else
        Ok(e)
  }

  /** The first half of parse_atom (parser.h:104-120): a number, an
      identifier or a parenthesized expression, its last token still the
      lookahead. */
  function PrimaryRule<N>(ops: NumOps<N>, s: string, st: PState<N>): (r: Result<Parsed<N>>)
    requires st.head <= |s|
    ensures r.Ok? ==> Advances(s, st, r.value.state) && !r.value.state.lookahead.EOI?
    ensures r.Ok? && EOIAtEnd(s, st) ==> EOIAtEnd(s, r.value.state)
    decreases Rank(s, st), 1
  {
    match st.lookahead
    case Number(v) => Ok(Parsed(Literal(v), st))
    case Identifier(n) => Ok(Parsed(Var(n), st))
    case Character(_) => ParenthesizedRule(ops, s, st)
    case _ => Err(ParseFailure(ops, st, "atom", "number, identifier, or '('"))
  }

  /** The second half of parse_atom (parser.h:124-136): an optional "^"
      followed by a whole factor, which makes "^" right-associative. */
  function PowerRule<N>(ops: NumOps<N>, s: string, base: Expr<N>, st: PState<N>): (r: Result<Parsed<N>>)
    requires st.head <= |s|
    ensures r.Ok? ==> Advances(s, st, r.value.state)
    ensures r.Ok? && EOIAtEnd(s, st) ==> EOIAtEnd(s, r.value.state)
    decreases Rank(s, st), 0
  {
    if IsChar(st.lookahead, '^') then
      var st1 :- ScanNext(ops, s, st);
      var c :- FactorRule(ops, s, st1);
      Ok(Parsed(Exponentiate(base, c.tree), c.state))
    else
      Ok(Parsed(base, st))
  }

  /** parse_atom (parser.h:99-137). */
  function AtomRule<N>(ops: NumOps<N>, s: string, st: PState<N>): (r: Result<Parsed<N>>)
    requires st.head <= |s|
    ensures r.Ok? ==> Advances(s, st, r.value.state)
    ensures r.Ok? && EOIAtEnd(s, st) ==> EOIAtEnd(s, r.value.state)
    decreases Rank(s, st), 2
  {
    var p :- PrimaryRule(ops, s, st);
    var st1 :- ScanNext(ops, s, p.state);
    PowerRule(ops, s, p.tree, st1)
  }

  /** parse_factor (parser.h:139-164): unary "+" adds no node, unary "-"
      wraps the whole factor that follows. */
  function FactorRule<N>(ops: NumOps<N>, s: string, st: PState<N>): (r: Result<Parsed<N>>)
    requires st.head <= |s|
    ensures r.Ok? ==> Advances(s, st, r.value.state)
    ensures r.Ok? && EOIAtEnd(s, st) ==> EOIAtEnd(s, r.value.state)
    decreases Rank(s, st), 3
  {
    if IsChar(st.lookahead, '+') then
      var st1 :- ScanNext(ops, s, st);
      FactorRule(ops, s, st1)
    else if IsChar(st.lookahead, '-') then
      var st1 :- ScanNext(ops, s, st);
      var c :- FactorRule(ops, s, st1);
      Ok(Parsed(Negate(c.tree), c.state))
    else
      AtomRule(ops, s, st)
  }

  /** The loop of parse_term (parser.h:170-184) from tree `acc` on. */
  function TermTail<N>(ops: NumOps<N>, s: string, acc: Expr<N>, st: PState<N>): (r: Result<Parsed<N>>)
    requires st.head <= |s|
    ensures r.Ok? ==> Advances(s, st, r.value.state)
    ensures r.Ok? && EOIAtEnd(s, st) ==> EOIAtEnd(s, r.value.state)
    decreases Rank(s, st), 0
  {
    if IsChar(st.lookahead, '*') || IsChar(st.lookahead, '/') then
      var op := st.lookahead.symbol;
      var st1 :- ScanNext(ops, s, st);
      var c :- FactorRule(ops, s, st1);
      TermTail(ops, s, if op == '*' then Multiply(acc, c.tree) else Divide(acc, c.tree), c.state)
    else
      Ok(Parsed(acc, st))
  }

  /** parse_term (parser.h:166-185): factors joined by "*" and "/", nested
      to the left. */
  function TermRule<N>(ops: NumOps<N>, s: string, st: PState<N>): (r: Result<Parsed<N>>)
    requires st.head <= |s|
    ensures r.Ok? ==> Advances(s, st, r.value.state)
    ensures r.Ok? && EOIAtEnd(s, st) ==> EOIAtEnd(s, r.value.state)
    decreases Rank(s, st), 4
  {
    var f :- FactorRule(ops, s, st);
    TermTail(ops, s, f.tree, f.state)
  }

  /** The loop of parse_expression (parser.h:195-211) from tree `acc` on. */
  function ExpressionTail<N>(ops: NumOps<N>, s: string, acc: Expr<N>, st: PState<N>): (r: Result<Parsed<N>>)
    requires st.head <= |s|
    ensures r.Ok? ==> Advances(s, st, r.value.state)
    ensures r.Ok? && EOIAtEnd(s, st) ==> EOIAtEnd(s, r.value.state)
    decreases Rank(s, st), 0
  {
    if IsChar(st.lookahead, '+') || IsChar(st.lookahead, '-') then
      var op := st.lookahead.symbol;
      var st1 :- ScanNext(ops, s, st);
      var c :- TermRule(ops, s, st1);
      ExpressionTail(ops, s, if op == '+' then Add(acc, c.tree) else Subtract(acc, c.tree), c.state)
    else
      Ok(Parsed(acc, st))
  }

  /** parse_expression (parser.h:187-212): terms joined by "+" and "-",
      nested to the left; a leading ")" is rejected by this rule itself. */
  function ExpressionRule<N>(ops: NumOps<N>, s: string, st: PState<N>): (r: Result<Parsed<N>>)
    requires st.head <= |s|
    ensures r.Ok? ==> Advances(s, st, r.value.state)
    ensures r.Ok? && EOIAtEnd(s, st) ==> EOIAtEnd(s, r.value.state)
    decreases Rank(s, st), 5
  {
    if IsChar(st.lookahead, ')') then
      Err(ParseFailure(ops, st, "expression", "number, identifier, '+', '-' or '('"))
    else
      var t :- TermRule(ops, s, st);
      ExpressionTail(ops, s, t.tree, t.state)
  }

  /** parse_definition (parser.h:220-237), entered with the name as the
      lookahead. A lookahead that is not an identifier fails the variant
      access. Without "=" after the name the caller's statement `prior` is
      left as it was. */
  function DefinitionRule<N>(ops: NumOps<N>, s: string, prior: Statement<N>, st: PState<N>): (r: Result<ParsedStatement<N>>)
    requires st.head <= |s|
    ensures r.Ok? ==> r.value.state.head <= |s|
    ensures r.Ok? ==> EOIAtEnd(s, r.value.state)
  {
    if !st.lookahead.Identifier? then
      Err(BadGet)
    else
      var name := st.lookahead.name;
      var st1 :- ScanNext(ops, s, st);
      if IsChar(st1.lookahead, '=') then
        var st2 :- ScanNext(ops, s, st1);
        var e :- ExpressionRule(ops, s, st2);
        Ok(ParsedStatement(VarDefinition(name, e.tree), e.state))
      else
        Ok(ParsedStatement(prior, st1))
  }

  /** The statement parse_root reads (parser.h:242-252): a definition when
      the first token is the identifier "define", an expression otherwise. */
  function StatementRule<N>(ops: NumOps<N>, s: string, prior: Statement<N>, st: PState<N>): (r: Result<ParsedStatement<N>>)
    requires st.head <= |s|
    ensures r.Ok? && EOIAtEnd(s, st) ==> EOIAtEnd(s, r.value.state)
  {
    if st.lookahead.Identifier? && st.lookahead.name == "define" then
      var st1 :- ScanNext(ops, s, st);
      DefinitionRule(ops, s, prior, st1)
    else
      var e :- ExpressionRule(ops, s, st);
      Ok(ParsedStatement(Expression(e.tree), e.state))
  }

  /** parse_root (parser.h:239-256): the statement, which must use up the
      input. */
  function RootRule<N>(ops: NumOps<N>, s: string, prior: Statement<N>, st: PState<N>): (r: Result<Statement<N>>)
    requires st.head <= |s|
  {
    var p :- StatementRule(ops, s, prior, st);
    if !p.state.lookahead.EOI? then
      Err(ParseFailure(ops, p.state, "root", "end-of-input"))
    else
      Ok(p.stmt)
  }

  /** One line of input: the parser is created with the cursor at the start
      (its constructor scans the first token) and parse_root runs on it, the
      statement variable holding `prior` beforehand (main.cpp:29-32). */
  function ParseText<N>(ops: NumOps<N>, s: string, prior: Statement<N>): Result<Statement<N>> {
    var st :- ScanNext(ops, s, PState(0, Invalid));
    RootRule(ops, s, prior, st)
  }

  /** A line parses only if its statement runs to the end of the text: the
      last scan met the end of input, and nothing but white space follows
      the statement. */
  lemma ParseReadsWholeText<N>(ops: NumOps<N>, s: string, prior: Statement<N>)
    requires ParseText(ops, s, prior).Ok?
    ensures ScanNext(ops, s, PState(0, Invalid)).Ok?
    ensures StatementRule(ops, s, prior, ScanNext(ops, s, PState(0, Invalid)).value)
         == Ok(ParsedStatement(ParseText(ops, s, prior).value, PState(|s|, EOI)))
  {
  }

  /** parser_state (parser.h:31-46): the cursor `head` into `input`, the end
      of which plays the part of `last`, and the `lookahead` token. Each
      grammar rule is a method that moves the state on and returns its tree
      or the error it throws. */
  class ParserState<N> {
    const ops: NumOps<N>
    const input: string
    var head: nat
    var lookahead: Token<N>

    ghost predicate Valid()
      reads this
    {
      head <= |input|
    }

    function State(): PState<N>
      reads this
    {
      PState(head, lookahead)
    }

    function Remaining(): nat
      reads this
      requires Valid()
    {
      Rank(input, State())
    }

    /** The method returned `r` and left the state as `spec` says. */
    ghost predicate Agrees(r: Result<Expr<N>>, spec: Result<Parsed<N>>)
      reads this
    {
      match spec
      case Ok(p) => r == Ok(p.tree) && State() == p.state
      case Err(e) => r == Err(e)
    }

    /** The member initialisers of parser.h:42; the first scan is made by
        the caller (see ParseLine). */
    constructor(ops: NumOps<N>, input: string)
      ensures Valid() && this.ops == ops && this.input == input
      ensures State() == PState(0, Invalid)
    {
      this.ops := ops;
      this.input := input;
      head := 0;
      lookahead := Invalid;
    }

    /** parser_state::scan (parser.h:37-40). */
    method Scan() returns (o: Outcome)
      requires Valid()
      modifies this
      ensures Valid()
      ensures match ScanNext(ops, input, old(State()))
              case Ok(st) => o == Pass && State() == st
              case Err(e) => o == Fail(e)
    {
      var l := GetToken(ops, input, head);
      match l
      case Ok(x) =>
        head, lookahead := x.next, x.token;
        o := Pass;
      case Err(e) =>
        o := Fail(e);
    }

    /** parse_parenthesized_expression (parser.h:85-97). */
    method ParseParenthesizedExpression() returns (r: Result<Expr<N>>)
      requires Valid()
      modifies this
      ensures Valid() && Agrees(r, ParenthesizedRule(ops, input, old(State())))
      decreases Remaining(), 0
    {
      if !IsChar(lookahead, '(') {
        return Err(ParseFailure(ops, State(), "parenthesized-expression", "'('"));
      }
      var o := Scan();
      if o.Fail? {
        return Err(o.error);
      }
      r := ParseExpression();
      if r.Err? {
        return;
      }
      if !IsChar(lookahead, ')') {
        r := Err(ParseFailure(ops, State(), "parenthesized-expression", "')'"));
      }
    }

    /** parse_atom (parser.h:99-137). */
    method ParseAtom() returns (r: Result<Expr<N>>)
      requires Valid()
      modifies this
      ensures Valid() && Agrees(r, AtomRule(ops, input, old(State())))
      decreases Remaining(), 2
    {
      ghost var st0 := State();
      var t: Expr<N>;
      if lookahead.Number? {
        t := Literal(lookahead.value);
      } else if lookahead.Identifier? {
        t := Var(lookahead.name);
      } else if lookahead.Character? {
        var p := ParseParenthesizedExpression();
        if p.Err? {
          return p;
        }
        t := p.value;
      } else {
        return Err(ParseFailure(ops, State(), "atom", "number, identifier, or '('"));
      }
      assert PrimaryRule(ops, input, st0) == Ok(Parsed(t, State()));
      ghost var st1 := State();
      var o := Scan();
      if o.Fail? {
        return Err(o.error);
      }
      assert AtomRule(ops, input, st0) == PowerRule(ops, input, t, State());
      if lookahead.Character? {
        var op := lookahead.symbol;
        if op == '^' {
          o := Scan();
          if o.Fail? {
            return Err(o.error);
          }
          var c := ParseFactor();
          if c.Err? {
            return c;
          }
          t := Exponentiate(t, c.value);
        }
      }
      r := Ok(t);
    }

    /** parse_factor (parser.h:139-164). */
    method ParseFactor() returns (r: Result<Expr<N>>)
      requires Valid()
      modifies this
      ensures Valid() && Agrees(r, FactorRule(ops, input, old(State())))
      decreases Remaining(), 3
    {
      if lookahead.Character? {
        var op := lookahead.symbol;
        if op == '+' {
          var o := Scan();
          if o.Fail? {
            return Err(o.error);
          }
          r := ParseFactor();
        } else if op == '-' {
          var o := Scan();
          if o.Fail? {
            return Err(o.error);
          }
          var c := ParseFactor();
          if c.Err? {
            return c;
          }
          r := Ok(Negate(c.value));
        } else {
          r := ParseAtom();
        }
      } else {
        r := ParseAtom();
      }
    }

    /** parse_term (parser.h:166-185): the loop rebuilds `t` around each
        further factor. */
    method ParseTerm() returns (r: Result<Expr<N>>)
      requires Valid()
      modifies this
      ensures Valid() && Agrees(r, TermRule(ops, input, old(State())))
      decreases Remaining(), 4
    {
      ghost var spec := TermRule(ops, input, State());
      var f := ParseFactor();
      if f.Err? {
        return f;
      }
      var t := f.value;
      while lookahead.Character?
        invariant Valid()
        invariant spec == TermTail(ops, input, t, State())
        decreases Remaining()
      {
        var op := lookahead.symbol;
        if op != '*' && op != '/' {
          break;
        }
        var o := Scan();
        if o.Fail? {
          return Err(o.error);
        }
        var c := ParseFactor();
        if c.Err? {
          return c;
        }
        if op == '*' {
          t := Multiply(t, c.value);
        } else {
          t := Divide(t, c.value);
        }
      }
      r := Ok(t);
    }

    /** parse_expression (parser.h:187-212): the loop rebuilds `t` around
        each further term. */
    method ParseExpression() returns (r: Result<Expr<N>>)
      requires Valid()
      modifies this
      ensures Valid() && Agrees(r, ExpressionRule(ops, input, old(State())))
      decreases Remaining(), 5
    {
      if IsChar(lookahead, ')') {
        return Err(ParseFailure(ops, State(), "expression", "number, identifier, '+', '-' or '('"));
      }
      ghost var spec := ExpressionRule(ops, input, State());
      var t0 := ParseTerm();
      if t0.Err? {
        return t0;
      }
      var t := t0.value;
      while lookahead.Character?
        invariant Valid()
        invariant spec == ExpressionTail(ops, input, t, State())
        decreases Remaining()
      {
        var op := lookahead.symbol;
        if op == '+' || op == '-' {
          var o := Scan();
          if o.Fail? {
            return Err(o.error);
          }
          var c := ParseTerm();
          if c.Err? {
            return c;
          }
          if op == '+' {
            t := Add(t, c.value);
          } else {
            t := Subtract(t, c.value);
          }
        } else {
          break;
        }
      }
      r := Ok(t);
    }

    /** parse_definition (parser.h:220-237); `t` is the statement variable
        it assigns only when "=" follows the name. */
    method ParseDefinition(t: Statement<N>) returns (r: Result<Statement<N>>)
      requires Valid()
      modifies this
      ensures Valid()
      ensures match DefinitionRule(ops, input, t, old(State()))
              case Ok(p) => r == Ok(p.stmt) && State() == p.state
              case Err(e) => r == Err(e)
    {
      if !lookahead.Identifier? {
        return Err(BadGet);
      }
      var name := lookahead.name;
      var o := Scan();
      if o.Fail? {
        return Err(o.error);
      }
      if IsChar(lookahead, '=') {
        o := Scan();
        if o.Fail? {
          return Err(o.error);
        }
        var e := ParseExpression();
        if e.Err? {
          return Err(e.error);
        }
        r := Ok(VarDefinition(name, e.value));
      } else {
        r := Ok(t);
      }
    }

    /** parse_root (parser.h:239-256). */
    method ParseRoot(t: Statement<N>) returns (r: Result<Statement<N>>)
      requires Valid()
      modifies this
      ensures Valid()
      ensures r == RootRule(ops, input, t, old(State()))
    {
      if lookahead.Identifier? && lookahead.name == "define" {
        var o := Scan();
        if o.Fail? {
          return Err(o.error);
        }
        r := ParseDefinition(t);
      } else {
        var e := ParseExpression();
        if e.Err? {
          return Err(e.error);
        }
        r := Ok(Expression(e.value));
      }
      if r.Err? {
        return;
      }
      if !lookahead.EOI? {
        r := Err(ParseFailure(ops, State(), "root", "end-of-input"));
      }
    }
  }

  /** The default statement of main.cpp:31: a default-constructed
      `t_statement` holds its first alternative, an expression, whose own
      first alternative is the number `NumType()`. */
  function DefaultStatement<N>(ops: NumOps<N>): Statement<N> {
    Expression(Literal(ops.zero))
  }

  /** The parsing part of main.cpp:29-32: a parser over the whole line, its
      first scan, and parse_root into a default-constructed statement. */
  method ParseLine<N>(ops: NumOps<N>, input: string) returns (r: Result<Statement<N>>)
    ensures r == ParseText(ops, input, DefaultStatement(ops))
  {
    var s := new ParserState(ops, input);
    var o := s.Scan();
    if o.Fail? {
      return Err(o.error);
    }
    r := s.ParseRoot(DefaultStatement(ops));
  }
}
