/** The recursive-descent parser (src/parser.cpp).

    The parser's state is the scanner state together with the current
    token. The pure functions below are the parsing routines over that
    state: each returns the node it built, or the message it threw, together
    with the state afterwards. The class `Parser` holds the scanner and the
    current token and its methods, written with the source's loops, are
    proved to agree with the functions. */
module Parse {
  import opened Wrappers
  import opened Decimal
  import opened Tokens
  import opened Ast
  import opened Lex

  datatype PState = PState(lex: LexState, cur: Token)

  /** The outcome of a parsing routine: a value or the message it threw,
      each with the parser state afterwards. */
  datatype PResult<T> = POk(value: T, st: PState) | PErr(msg: string, st: PState)

  /** What the parser relies on about its state: the position is within the
      text and an operator token spells its operator. */
  predicate PValid(text: string, ps: PState)
  {
    ps.lex.pos <= |text| && OperatorText(ps.cur)
  }

  /** The termination measure: the unread text, plus one while the current
      token is not END. Every token consumed and every scanner error makes
      it smaller. */
  function Measure(text: string, ps: PState): nat
    requires ps.lex.pos <= |text|
  {
    (|text| - ps.lex.pos) + (if ps.cur.kind == END then 0 else 1)
  }

  /** The state never moves back and the measure never grows. */
  predicate NoWorse(text: string, ps: PState, qs: PState)
    requires PValid(text, ps)
  {
    PValid(text, qs) && qs.lex.pos >= ps.lex.pos && Measure(text, qs) <= Measure(text, ps)
  }

  /** Fetch the next token; a scanner error keeps the current token. */
  function Advance(text: string, ps: PState): (r: PResult<()>)
    requires PValid(text, ps)
    ensures NoWorse(text, ps, r.st)
    ensures ps.cur.kind != END ==> Measure(text, r.st) < Measure(text, ps)
    ensures r.PErr? ==> r.st.cur == ps.cur
  {
    NextProgress(text, ps.lex);
    NextOperatorText(text, ps.lex);
    match Next(text, ps.lex)
    case Done(t, s) => POk((), PState(s, t))
    case Fail(m, s) => PErr(m, PState(s, ps.cur))
  }

  /** eat(k): consume the current token if it has kind k, otherwise throw
      an error naming the token and its line. */
  function PEat(text: string, ps: PState, k: TokenType): (r: PResult<()>)
    requires PValid(text, ps)
    ensures NoWorse(text, ps, r.st)
    ensures r.POk? ==> ps.cur.kind == k
    ensures ps.cur.kind == k && k != END ==> Measure(text, r.st) < Measure(text, ps)
    ensures ps.cur.kind != k ==>
      r == PErr("Unexpected token: " + ps.cur.value + " at line " + IntToString(ps.cur.line), ps)
  {
    if ps.cur.kind == k then Advance(text, ps)
    else PErr("Unexpected token: " + ps.cur.value + " at line " + IntToString(ps.cur.line), ps)
  }

  /** n is reached from `first` by wrapping it, zero or more times, as the
      LEFT operand of a binop whose operator is in ops. */
  ghost predicate LeftChain(n: Node, first: Node, ops: set<string>)
    decreases n
  {
    n == first ||
    (n.kind == "binop" && n.op in ops && n.left.Some? && n.right.Some? && LeftChain(n.left.value, first, ops))
  }

  /** factor(): a literal or variable leaf, a parenthesised expression
      (the inner node itself), or a unary minus, which becomes 0 - operand. */
  function PFactor(text: string, ps: PState): (r: PResult<Node>)
    requires PValid(text, ps)
    ensures NoWorse(text, ps, r.st)
    ensures r.POk? ==> Measure(text, r.st) < Measure(text, ps) && IsExpr(r.value)
    decreases Measure(text, ps), 0
  {
    var token := ps.cur;
    if token.kind == NUMBER then
      var e := PEat(text, ps, NUMBER);
      if e.PErr? then PErr(e.msg, e.st) else POk(NumberNode(token.value, token.line), e.st)
    else if token.kind == STRING then
      var e := PEat(text, ps, STRING);
      if e.PErr? then PErr(e.msg, e.st) else POk(StringNode(token.value, token.line), e.st)
    else if token.kind == IDENTIFIER then
      var e := PEat(text, ps, IDENTIFIER);
      if e.PErr? then PErr(e.msg, e.st) else POk(VariableNode(token.value, token.line), e.st)
    else if token.kind == LPAREN then
      var e := PEat(text, ps, LPAREN);
      if e.PErr? then PErr(e.msg, e.st) else
      var inner := PExpr(text, e.st);
      if inner.PErr? then inner else
      var c := PEat(text, inner.st, RPAREN);
      if c.PErr? then PErr(c.msg, c.st) else POk(inner.value, c.st)
    else if token.kind == MINUS then
      var e := PEat(text, ps, MINUS);
      if e.PErr? then PErr(e.msg, e.st) else
      var operand := PFactor(text, e.st);
      if operand.PErr? then operand else
      POk(BinopNode("-", NumberNode("0", token.line), operand.value, token.line), operand.st)
    else PErr("Invalid factor: " + token.value + " at line " + IntToString(token.line), ps)
  }

  /** The loop of term(): while the current token is '*' or '/', consume it,
      parse a factor and make the node built so far its left operand. */
  function TermLoop(text: string, node: Node, ps: PState): (r: PResult<Node>)
    requires PValid(text, ps)
    ensures NoWorse(text, ps, r.st)
    ensures r.POk? && IsExpr(node) ==> IsExpr(r.value)
    ensures r.POk? ==> r.st.cur.kind != STAR && r.st.cur.kind != SLASH
    decreases Measure(text, ps), 1
  {
    if ps.cur.kind == STAR || ps.cur.kind == SLASH then
      var op := ps.cur;
      var e := PEat(text, ps, op.kind);
      if e.PErr? then PErr(e.msg, e.st) else
      var right := PFactor(text, e.st);
      if right.PErr? then right else
      TermLoop(text, BinopNode(op.value, node, right.value, op.line), right.st)
    else POk(node, ps)
  }

  /** term(): a factor followed by the term loop. */
  function PTerm(text: string, ps: PState): (r: PResult<Node>)
    requires PValid(text, ps)
    ensures NoWorse(text, ps, r.st)
    ensures r.POk? ==> Measure(text, r.st) < Measure(text, ps) && IsExpr(r.value)
    ensures r.POk? ==> r.st.cur.kind != STAR && r.st.cur.kind != SLASH
    decreases Measure(text, ps), 2
  {
    var f := PFactor(text, ps);
    if f.PErr? then f else TermLoop(text, f.value, f.st)
  }

  /** The loop of expr(): the same for '+' and '-' over terms. */
  function ExprLoop(text: string, node: Node, ps: PState): (r: PResult<Node>)
    requires PValid(text, ps)
    ensures NoWorse(text, ps, r.st)
    ensures r.POk? && IsExpr(node) ==> IsExpr(r.value)
    ensures r.POk? ==> r.st.cur.kind != PLUS && r.st.cur.kind != MINUS
    ensures r.POk? && ps.cur.kind != STAR && ps.cur.kind != SLASH ==> r.st.cur.kind != STAR && r.st.cur.kind != SLASH
    decreases Measure(text, ps), 3
  {
    if ps.cur.kind == PLUS || ps.cur.kind == MINUS then
      var op := ps.cur;
      var e := PEat(text, ps, op.kind);
      if e.PErr? then PErr(e.msg, e.st) else
      var right := PTerm(text, e.st);
      if right.PErr? then right else
      ExprLoop(text, BinopNode(op.value, node, right.value, op.line), right.st)
    else POk(node, ps)
  }

  /** expr(): a term followed by the expression loop. */
  function PExpr(text: string, ps: PState): (r: PResult<Node>)
    requires PValid(text, ps)
    ensures NoWorse(text, ps, r.st)
    ensures r.POk? ==> Measure(text, r.st) < Measure(text, ps) && IsExpr(r.value)
    ensures r.POk? ==> r.st.cur.kind !in {PLUS, MINUS, STAR, SLASH}
    decreases Measure(text, ps), 4
  {
    var t := PTerm(text, ps);
    if t.PErr? then t else ExprLoop(text, t.value, t.st)
  }

  /** assignment(): `IDENT = expr ;`, or no node when the statement does not
      start with an identifier. */
  function PAssignment(text: string, ps: PState): (r: PResult<Tree>)
    requires PValid(text, ps)
    ensures NoWorse(text, ps, r.st)
    ensures r.POk? && r.value.Some? ==> Measure(text, r.st) < Measure(text, ps)
    ensures r.POk? && r.value.Some? ==>
      var n := r.value.value;
      IsStatement(n) && n.kind == "assign" && n.name == ps.cur.value && n.line == ps.cur.line
    ensures r.POk? && r.value.None? ==> r.st == ps
    ensures ps.cur.kind != IDENTIFIER ==> r == POk(None, ps)
    ensures ps.cur.kind == IDENTIFIER ==> !(r.POk? && r.value.None?)
    ensures r.POk? && r.value.Some? ==>
      var e1 := PEat(text, ps, IDENTIFIER);
      e1.POk? && var e2 := PEat(text, e1.st, ASSIGN);
      e2.POk? && PExpr(text, e2.st).POk? &&
      r.value.value == Node("assign", ps.cur.value, "", "", Some(PExpr(text, e2.st).value), None, ps.cur.line)
  {
    if ps.cur.kind == IDENTIFIER then
      var varName, lineNum := ps.cur.value, ps.cur.line;
      var e := PEat(text, ps, IDENTIFIER);
      if e.PErr? then PErr(e.msg, e.st)
      else if e.st.cur.kind == ASSIGN then
        var a := PEat(text, e.st, ASSIGN);
        if a.PErr? then PErr(a.msg, a.st) else
        var v := PExpr(text, a.st);
        if v.PErr? then PErr(v.msg, v.st) else
        var semi := PEat(text, v.st, SEMICOLON);
        if semi.PErr? then PErr(semi.msg, semi.st) else
        POk(Some(Node("assign", varName, "", "", Some(v.value), None, lineNum)), semi.st)
      else PErr("Expected '=' after identifier at line " + IntToString(lineNum), e.st)
    else POk(None, ps)
  }

  /** `cin ( IDENT ) ;` */
  function PCin(text: string, ps: PState): (r: PResult<Node>)
    requires PValid(text, ps) && ps.cur.kind == CIN
    ensures NoWorse(text, ps, r.st)
    ensures r.POk? ==> Measure(text, r.st) < Measure(text, ps)
    ensures r.POk? ==> IsStatement(r.value) && r.value.kind == "cin" && r.value.line == ps.cur.line
    ensures r.POk? ==>
      var e1 := PEat(text, ps, CIN);
      e1.POk? && var e2 := PEat(text, e1.st, LPAREN);
      e2.POk? && e2.st.cur.kind == IDENTIFIER &&
      r.value == Node("cin", e2.st.cur.value, "", "", None, None, ps.cur.line)
  {
    var lineNum := ps.cur.line;
    var e1 := PEat(text, ps, CIN);
    if e1.PErr? then PErr(e1.msg, e1.st) else
    var e2 := PEat(text, e1.st, LPAREN);
    if e2.PErr? then PErr(e2.msg, e2.st)
    else if e2.st.cur.kind != IDENTIFIER then
      PErr("Expected variable name in cin at line " + IntToString(e2.st.cur.line), e2.st)
    else
      var varName := e2.st.cur.value;
      var e3 := PEat(text, e2.st, IDENTIFIER);
      if e3.PErr? then PErr(e3.msg, e3.st) else
      var e4 := PEat(text, e3.st, RPAREN);
      if e4.PErr? then PErr(e4.msg, e4.st) else
      var e5 := PEat(text, e4.st, SEMICOLON);
      if e5.PErr? then PErr(e5.msg, e5.st) else
      POk(Node("cin", varName, "", "", None, None, lineNum), e5.st)
  }

  /** `cout ( expr ) ;` */
  function PCout(text: string, ps: PState): (r: PResult<Node>)
    requires PValid(text, ps) && ps.cur.kind == COUT
    ensures NoWorse(text, ps, r.st)
    ensures r.POk? ==> Measure(text, r.st) < Measure(text, ps)
    ensures r.POk? ==> IsStatement(r.value) && r.value.kind == "cout" && r.value.line == ps.cur.line
    ensures r.POk? ==>
      var e1 := PEat(text, ps, COUT);
      e1.POk? && var e2 := PEat(text, e1.st, LPAREN);
      e2.POk? && PExpr(text, e2.st).POk? &&
      r.value == Node("cout", "", "", "", Some(PExpr(text, e2.st).value), None, ps.cur.line)
  {
    var lineNum := ps.cur.line;
    var e1 := PEat(text, ps, COUT);
    if e1.PErr? then PErr(e1.msg, e1.st) else
    var e2 := PEat(text, e1.st, LPAREN);
    if e2.PErr? then PErr(e2.msg, e2.st) else
    var v := PExpr(text, e2.st);
    if v.PErr? then v else
    var e3 := PEat(text, v.st, RPAREN);
    if e3.PErr? then PErr(e3.msg, e3.st) else
    var e4 := PEat(text, e3.st, SEMICOLON);
    if e4.PErr? then PErr(e4.msg, e4.st) else
    POk(Node("cout", "", "", "", Some(v.value), None, lineNum), e4.st)
  }

  /** statement(): cin, cout or an assignment; anything else is an error. */
  function PStatement(text: string, ps: PState): (r: PResult<Node>)
    requires PValid(text, ps)
    ensures NoWorse(text, ps, r.st)
    ensures r.POk? ==> Measure(text, r.st) < Measure(text, ps)
  {
    if ps.cur.kind == CIN then PCin(text, ps)
    else if ps.cur.kind == COUT then PCout(text, ps)
    else
      var a := PAssignment(text, ps);
      if a.PErr? then PErr(a.msg, a.st)
      else if a.value.Some? then POk(a.value.value, a.st)
      else PErr("Unknown statement at line " + IntToString(ps.cur.line), ps)
  }

  /** The recovery after an error: skip tokens up to and including the next
      ';' (or up to END). A scanner error here is not caught. */
  function Recover(text: string, ps: PState): (r: Result<PState>)
    requires PValid(text, ps)
    ensures r.Ok? ==> NoWorse(text, ps, r.value)
    ensures r.Ok? && ps.cur.kind != END ==> Measure(text, r.value) < Measure(text, ps)
    ensures r.Ok? && ps.cur.kind == END ==> r.value == ps
    decreases Measure(text, ps)
  {
    if ps.cur.kind != SEMICOLON && ps.cur.kind != END then
      var n := Advance(text, ps);
      if n.PErr? then Err(n.msg) else Recover(text, n.st)
    else if ps.cur.kind == SEMICOLON then
      var n := Advance(text, ps);
      if n.PErr? then Err(n.msg) else Ok(n.st)
    else Ok(ps)
  }

  /** The statements parsed and the messages of the errors recovered from. */
  datatype Parsed = Parsed(stmts: seq<Node>, errors: seq<string>)

  /** How parse() ends: it returns what it collected, or a scanner error
      escapes it. By then the messages already caught have been written to
      the error stream; the statements collected are lost. */
  datatype ParseRun = Finished(parsed: Parsed) | Aborted(printed: seq<string>, msg: string)

  /** The loop of parse() from state ps, with what was collected so far. */
  function ParseLoop(text: string, ps: PState, acc: Parsed): (r: ParseRun)
    requires PValid(text, ps)
    decreases Measure(text, ps)
  {
    if ps.cur.kind == END then Finished(acc)
    else
      var s := PStatement(text, ps);
      if s.POk? then ParseLoop(text, s.st, Parsed(acc.stmts + [s.value], acc.errors))
      else
        var rec := Recover(text, s.st);
        if rec.Err? then Aborted(acc.errors + [s.msg], rec.msg)
        else ParseLoop(text, rec.value, Parsed(acc.stmts, acc.errors + [s.msg]))
  }

  const Start := LexState(0, 1)


  /** Constructing the parser reads the first token; parse() then runs the
      loop. A scanner error that is not caught ends the whole parse. */
  function ParseProgram(text: string): (r: ParseRun)
    ensures r.Finished? ==> forall i :: 0 <= i < |r.parsed.stmts| ==> IsStatement(r.parsed.stmts[i])
  {
    NextOperatorText(text, Start);
    match Next(text, Start)
    case Fail(m, _) => Aborted([], m)
    case Done(t, s) =>
      ParseLoopStatements(text, PState(s, t), Parsed([], []));
      ParseLoop(text, PState(s, t), Parsed([], []))
  }

  /** Wrapping a chain's starting node once more keeps it a chain. */
  lemma {:induction false} LeftChainWrap(n: Node, first: Node, op: string, right: Node, line: int, ops: set<string>)
    requires op in ops
    requires LeftChain(n, BinopNode(op, first, right, line), ops)
    ensures LeftChain(n, first, ops)
    decreases n
  {
    if n != BinopNode(op, first, right, line) {
      LeftChainWrap(n.left.value, first, op, right, line, ops);
    }
  }

  /** '*' and '/' associate to the left: the node the term loop returns is
      the node it started from, wrapped as the left operand. */
  lemma {:induction false} TermLoopLeftAssoc(text: string, node: Node, ps: PState)
    requires PValid(text, ps)
    ensures TermLoop(text, node, ps).POk? ==> LeftChain(TermLoop(text, node, ps).value, node, {"*", "/"})
    decreases Measure(text, ps)
  {
    if ps.cur.kind == STAR || ps.cur.kind == SLASH {
      var op := ps.cur;
      var e := PEat(text, ps, op.kind);
      if e.POk? {
        var right := PFactor(text, e.st);
        if right.POk? {
          var wrapped := BinopNode(op.value, node, right.value, op.line);
          TermLoopLeftAssoc(text, wrapped, right.st);
          var r := TermLoop(text, wrapped, right.st);
          if r.POk? {
            LeftChainWrap(r.value, node, op.value, right.value, op.line, {"*", "/"});
          }
        }
      }
    }
  }

  /** '+' and '-' associate to the left in the same way. */
  lemma {:induction false} ExprLoopLeftAssoc(text: string, node: Node, ps: PState)
    requires PValid(text, ps)
    ensures ExprLoop(text, node, ps).POk? ==> LeftChain(ExprLoop(text, node, ps).value, node, {"+", "-"})
    decreases Measure(text, ps)
  {
    if ps.cur.kind == PLUS || ps.cur.kind == MINUS {
      var op := ps.cur;
      var e := PEat(text, ps, op.kind);
      if e.POk? {
        var right := PTerm(text, e.st);
        if right.POk? {
          var wrapped := BinopNode(op.value, node, right.value, op.line);
          ExprLoopLeftAssoc(text, wrapped, right.st);
          var r := ExprLoop(text, wrapped, right.st);
          if r.POk? {
            LeftChainWrap(r.value, node, op.value, right.value, op.line, {"+", "-"});
          }
        }
      }
    }
  }

  // ---------------------------------------------------------------------
  // Precedence

  /** The operator tokens of one precedence level: '+' and '-' for an
      expression, '*' and '/' for a term. */
  predicate LevelOp(sum: bool, k: TokenType)
  {
    if sum then k == PLUS || k == MINUS else k == STAR || k == SLASH
  }

  /** The operand parser of a level: a whole term for '+' and '-', a factor
      for '*' and '/'. */
  function LevelOperand(text: string, sum: bool, ps: PState): PResult<Node>
    requires PValid(text, ps)
  {
    if sum then PTerm(text, ps) else PFactor(text, ps)
  }

  /** The last step of a spine: at `mid` the current token is an operator
      of the level, spelled as n's operator and on n's line, and the operand
      parser, run right after it, returns n's right operand and stops at st. */
  ghost predicate SpineLink(text: string, sum: bool, n: Node, mid: PState, st: PState)
    requires PValid(text, mid) && n.right.Some?
  {
    LevelOp(sum, mid.cur.kind) && n.op == mid.cur.value && n.line == mid.cur.line &&
    var e := PEat(text, mid, mid.cur.kind);
    e.POk? && LevelOperand(text, sum, e.st) == POk(n.right.value, st)
  }

  /** n is `first` followed by the operator and operand pairs read from ps
      to st, grouped to the left: reading the tree from the bottom up, each
      binop's right operand is everything the level's operand parser took
      after that operator. */
  ghost predicate Spine(text: string, sum: bool, n: Node, first: Node, ps: PState, st: PState)
    decreases n
  {
    (n == first && st == ps) ||
    (n.kind == "binop" && n.left.Some? && n.right.Some? &&
     exists mid: PState | PValid(text, mid) && Spine(text, sum, n.left.value, first, ps, mid) ::
       SpineLink(text, sum, n, mid, st))
  }

  /** Spines compose: a spine from m, where m is itself a spine from first,
      is a spine from first. */
  lemma {:induction false} SpineTransitive(text: string, sum: bool, n: Node, m: Node, first: Node,
                                           ps: PState, q: PState, st: PState)
    requires Spine(text, sum, n, m, q, st) && Spine(text, sum, m, first, ps, q)
    ensures Spine(text, sum, n, first, ps, st)
    decreases n
  {
    if !(n == m && st == q) {
      var mid :| PValid(text, mid) && Spine(text, sum, n.left.value, m, q, mid) && SpineLink(text, sum, n, mid, st);
      SpineTransitive(text, sum, n.left.value, m, first, ps, q, mid);
    }
  }

  /** One operator and its operand on top of `node` form a spine. */
  lemma SpineOne(text: string, sum: bool, node: Node, ps: PState)
    requires PValid(text, ps) && LevelOp(sum, ps.cur.kind)
    requires PEat(text, ps, ps.cur.kind).POk?
    requires LevelOperand(text, sum, PEat(text, ps, ps.cur.kind).st).POk?
    ensures var o := LevelOperand(text, sum, PEat(text, ps, ps.cur.kind).st);
      Spine(text, sum, BinopNode(ps.cur.value, node, o.value, ps.cur.line), node, ps, o.st)
  {
    var o := LevelOperand(text, sum, PEat(text, ps, ps.cur.kind).st);
    var w := BinopNode(ps.cur.value, node, o.value, ps.cur.line);
    assert Spine(text, sum, w.left.value, node, ps, ps);
    assert SpineLink(text, sum, w, ps, o.st);
  }

  /** The term loop builds exactly the spine of factors it reads. */
  lemma {:induction false} TermLoopSpine(text: string, node: Node, ps: PState)
    requires PValid(text, ps)
    ensures var r := TermLoop(text, node, ps);
      r.POk? ==> Spine(text, false, r.value, node, ps, r.st)
    decreases Measure(text, ps)
  {
    if ps.cur.kind == STAR || ps.cur.kind == SLASH {
      var op := ps.cur;
      var e := PEat(text, ps, op.kind);
      if e.POk? {
        var right := PFactor(text, e.st);
        if right.POk? {
          var w := BinopNode(op.value, node, right.value, op.line);
          TermLoopSpine(text, w, right.st);
          var r := TermLoop(text, w, right.st);
          if r.POk? {
            SpineOne(text, false, node, ps);
            SpineTransitive(text, false, r.value, w, node, ps, right.st, r.st);
          }
        }
      }
    }
  }

  /** The expression loop builds exactly the spine of terms it reads. */
  lemma {:induction false} ExprLoopSpine(text: string, node: Node, ps: PState)
    requires PValid(text, ps)
    ensures var r := ExprLoop(text, node, ps);
      r.POk? ==> Spine(text, true, r.value, node, ps, r.st)
    decreases Measure(text, ps)
  {
    if ps.cur.kind == PLUS || ps.cur.kind == MINUS {
      var op := ps.cur;
      var e := PEat(text, ps, op.kind);
      if e.POk? {
        var right := PTerm(text, e.st);
        if right.POk? {
          var w := BinopNode(op.value, node, right.value, op.line);
          ExprLoopSpine(text, w, right.st);
          var r := ExprLoop(text, w, right.st);
          if r.POk? {
            SpineOne(text, true, node, ps);
            SpineTransitive(text, true, r.value, w, node, ps, right.st, r.st);
          }
        }
      }
    }
  }

  /** A term is its first factor followed by '*' and '/' operations, each
      taking the one factor after its operator. */
  lemma TermIsProductOfFactors(text: string, ps: PState)
    requires PValid(text, ps)
    ensures var r, f := PTerm(text, ps), PFactor(text, ps);
      r.POk? ==> f.POk? && Spine(text, false, r.value, f.value, f.st, r.st)
  {
    var f := PFactor(text, ps);
    if f.POk? {
      TermLoopSpine(text, f.value, f.st);
    }
  }

  /** '*' and '/' bind tighter than '+' and '-': an expression is its first
      term followed by '+' and '-' operations, each taking as right operand
      the WHOLE term after its operator, that is all the '*' and '/' that
      follow it. */
  lemma ExprIsSumOfTerms(text: string, ps: PState)
    requires PValid(text, ps)
    ensures var r, t := PExpr(text, ps), PTerm(text, ps);
      r.POk? ==> t.POk? && Spine(text, true, r.value, t.value, t.st, r.st)
  {
    var t := PTerm(text, ps);
    if t.POk? {
      ExprLoopSpine(text, t.value, t.st);
    }
  }

  /** The scanner, run from s, reads token t and stops at s2. */
  predicate Reads(text: string, s: LexState, t: Token, s2: LexState)
  {
    s.pos <= |text| && Next(text, s) == Done(t, s2)
  }

  /** An identifier factor: the variable, with the next token read. */
  lemma IdentFactor(text: string, ps: PState, t: Token, s: LexState)
    requires PValid(text, ps) && ps.cur.kind == IDENTIFIER && Reads(text, ps.lex, t, s)
    ensures PFactor(text, ps) == POk(VariableNode(ps.cur.value, ps.cur.line), PState(s, t))
  {
  }

  /** The term loop stops at a token other than '*' and '/'. */
  lemma TermLoopStops(text: string, node: Node, ps: PState)
    requires PValid(text, ps) && ps.cur.kind != STAR && ps.cur.kind != SLASH
    ensures TermLoop(text, node, ps) == POk(node, ps)
  {
  }

  /** The expression loop stops at a token other than '+' and '-'. */
  lemma ExprLoopStops(text: string, node: Node, ps: PState)
    requires PValid(text, ps) && ps.cur.kind != PLUS && ps.cur.kind != MINUS
    ensures ExprLoop(text, node, ps) == POk(node, ps)
  {
  }

  /** One round of the term loop over a '*' or '/' read successfully. */
  lemma TermLoopStep(text: string, node: Node, ps: PState, t: Token, s: LexState, f: Node, q: PState)
    requires PValid(text, ps) && (ps.cur.kind == STAR || ps.cur.kind == SLASH) && Reads(text, ps.lex, t, s)
    requires PValid(text, PState(s, t)) && PFactor(text, PState(s, t)) == POk(f, q)
    ensures TermLoop(text, node, ps) == TermLoop(text, BinopNode(ps.cur.value, node, f, ps.cur.line), q)
  {
  }

  /** One round of the expression loop over a '+' or '-' read successfully. */
  lemma ExprLoopStep(text: string, node: Node, ps: PState, t: Token, s: LexState, u: Node, q: PState)
    requires PValid(text, ps) && (ps.cur.kind == PLUS || ps.cur.kind == MINUS) && Reads(text, ps.lex, t, s)
    requires PValid(text, PState(s, t)) && PTerm(text, PState(s, t)) == POk(u, q)
    ensures ExprLoop(text, node, ps) == ExprLoop(text, BinopNode(ps.cur.value, node, u, ps.cur.line), q)
  {
  }

  /** `a + b * c` groups as `a + (b * c)`. */
  lemma SumOfProduct(text: string, ps: PState, plus: Token, b: Token, star: Token, c: Token, last: Token,
                     s1: LexState, s2: LexState, s3: LexState, s4: LexState, s5: LexState)
    requires PValid(text, ps) && ps.cur.kind == IDENTIFIER
    requires Reads(text, ps.lex, plus, s1) && plus.kind == PLUS
    requires Reads(text, s1, b, s2) && b.kind == IDENTIFIER
    requires Reads(text, s2, star, s3) && star.kind == STAR
    requires Reads(text, s3, c, s4) && c.kind == IDENTIFIER
    requires Reads(text, s4, last, s5) && last.kind !in {PLUS, MINUS, STAR, SLASH}
    ensures PExpr(text, ps) ==
      POk(BinopNode("+", VariableNode(ps.cur.value, ps.cur.line),
                    BinopNode("*", VariableNode(b.value, b.line), VariableNode(c.value, c.line), star.line),
                    plus.line),
          PState(s5, last))
  {
    NextOperatorText(text, ps.lex);
    NextOperatorText(text, s1);
    NextOperatorText(text, s2);
    NextOperatorText(text, s3);
    NextOperatorText(text, s4);
    var a := VariableNode(ps.cur.value, ps.cur.line);
    var vb, vc := VariableNode(b.value, b.line), VariableNode(c.value, c.line);
    var p1, p2, p3, p4, p5 := PState(s1, plus), PState(s2, b), PState(s3, star), PState(s4, c), PState(s5, last);
    var bc := BinopNode("*", vb, vc, star.line);
    IdentFactor(text, ps, plus, s1);
    TermLoopStops(text, a, p1);
    IdentFactor(text, p2, star, s3);
    IdentFactor(text, p4, last, s5);
    TermLoopStep(text, vb, p3, c, s4, vc, p5);
    TermLoopStops(text, bc, p5);
    assert PTerm(text, p2) == POk(bc, p5);
    ExprLoopStep(text, a, p1, b, s2, bc, p5);
    ExprLoopStops(text, BinopNode("+", a, bc, plus.line), p5);
  }

  /** `a * b + c` groups as `(a * b) + c`. */
  lemma ProductThenSum(text: string, ps: PState, star: Token, b: Token, plus: Token, c: Token, last: Token,
                       s1: LexState, s2: LexState, s3: LexState, s4: LexState, s5: LexState)
    requires PValid(text, ps) && ps.cur.kind == IDENTIFIER
    requires Reads(text, ps.lex, star, s1) && star.kind == STAR
    requires Reads(text, s1, b, s2) && b.kind == IDENTIFIER
    requires Reads(text, s2, plus, s3) && plus.kind == PLUS
    requires Reads(text, s3, c, s4) && c.kind == IDENTIFIER
    requires Reads(text, s4, last, s5) && last.kind !in {PLUS, MINUS, STAR, SLASH}
    ensures PExpr(text, ps) ==
      POk(BinopNode("+",
                    BinopNode("*", VariableNode(ps.cur.value, ps.cur.line), VariableNode(b.value, b.line), star.line),
                    VariableNode(c.value, c.line), plus.line),
          PState(s5, last))
  {
    NextOperatorText(text, ps.lex);
    NextOperatorText(text, s1);
    NextOperatorText(text, s2);
    NextOperatorText(text, s3);
    NextOperatorText(text, s4);
    var a := VariableNode(ps.cur.value, ps.cur.line);
    var vb, vc := VariableNode(b.value, b.line), VariableNode(c.value, c.line);
    var p1, p2, p3, p4, p5 := PState(s1, star), PState(s2, b), PState(s3, plus), PState(s4, c), PState(s5, last);
    var ab := BinopNode("*", a, vb, star.line);
    IdentFactor(text, ps, star, s1);
    IdentFactor(text, p2, plus, s3);
    TermLoopStep(text, a, p1, b, s2, vb, p3);
    TermLoopStops(text, ab, p3);
    assert PTerm(text, ps) == POk(ab, p3);
    IdentFactor(text, p4, last, s5);
    TermLoopStops(text, vc, p5);
    assert PTerm(text, p4) == POk(vc, p5);
    ExprLoopStep(text, ab, p3, c, s4, vc, p5);
    ExprLoopStops(text, BinopNode("+", ab, vc, plus.line), p5);
  }

  /** A concrete expression. */
  const SumText := "a+b*c;"

  /** The one-letter names of `a+b*c;`. */
  lemma SumTextWord(p: nat)
    requires p == 0 || p == 2 || p == 4
    ensures Reads(SumText, LexState(p, 1), Token(IDENTIFIER, [SumText[p]], 1), LexState(p + 1, 1))
  {
    SkipStops(SumText, LexState(p, 1));
    assert WordEnd(SumText, p + 1) == p + 1;
    assert SumText[p..p + 1] == [SumText[p]];
  }

  /** The operators and the semicolon of `a+b*c;`. */
  lemma SumTextSymbol(p: nat, k: TokenType)
    requires (p == 1 && k == PLUS) || (p == 3 && k == STAR) || (p == 5 && k == SEMICOLON)
    ensures Reads(SumText, LexState(p, 1), Token(k, [SumText[p]], 1), LexState(p + 1, 1))
  {
    SkipStops(SumText, LexState(p, 1));
  }

  /** The tokens of `a+b*c;`, one per character, all on line 1. */
  lemma SumTextTokens()
    ensures Reads(SumText, LexState(0, 1), Token(IDENTIFIER, "a", 1), LexState(1, 1))
    ensures Reads(SumText, LexState(1, 1), Token(PLUS, "+", 1), LexState(2, 1))
    ensures Reads(SumText, LexState(2, 1), Token(IDENTIFIER, "b", 1), LexState(3, 1))
    ensures Reads(SumText, LexState(3, 1), Token(STAR, "*", 1), LexState(4, 1))
    ensures Reads(SumText, LexState(4, 1), Token(IDENTIFIER, "c", 1), LexState(5, 1))
    ensures Reads(SumText, LexState(5, 1), Token(SEMICOLON, ";", 1), LexState(6, 1))
  {
    SumTextWord(0);
    SumTextSymbol(1, PLUS);
    SumTextWord(2);
    SumTextSymbol(3, STAR);
    SumTextWord(4);
    SumTextSymbol(5, SEMICOLON);
    assert [SumText[0]] == "a" && [SumText[1]] == "+" && [SumText[2]] == "b";
    assert [SumText[3]] == "*" && [SumText[4]] == "c" && [SumText[5]] == ";";
  }

  /** Scanned and parsed from its first character, `a+b*c;` gives
      `a + (b * c)` and stops at the semicolon. */
  lemma SumOfProductText()
    ensures Reads(SumText, LexState(0, 1), Token(IDENTIFIER, "a", 1), LexState(1, 1))
    ensures PExpr(SumText, PState(LexState(1, 1), Token(IDENTIFIER, "a", 1))) ==
      POk(BinopNode("+", VariableNode("a", 1), BinopNode("*", VariableNode("b", 1), VariableNode("c", 1), 1), 1),
          PState(LexState(6, 1), Token(SEMICOLON, ";", 1)))
  {
    SumTextTokens();
    SumOfProduct(SumText, PState(LexState(1, 1), Token(IDENTIFIER, "a", 1)),
                 Token(PLUS, "+", 1), Token(IDENTIFIER, "b", 1), Token(STAR, "*", 1), Token(IDENTIFIER, "c", 1),
                 Token(SEMICOLON, ";", 1),
                 LexState(2, 1), LexState(3, 1), LexState(4, 1), LexState(5, 1), LexState(6, 1));
  }

  /** The leaves of factor(): the token's text and line, and a variable's
      name in the name field. */
  lemma FactorLeaves(text: string, ps: PState)
    requires PValid(text, ps)
    ensures ps.cur.kind == NUMBER && PFactor(text, ps).POk? ==>
      PFactor(text, ps).value == Node("number", "", ps.cur.value, "", None, None, ps.cur.line)
    ensures ps.cur.kind == STRING && PFactor(text, ps).POk? ==>
      PFactor(text, ps).value == Node("string", "", ps.cur.value, "", None, None, ps.cur.line)
    ensures ps.cur.kind == IDENTIFIER && PFactor(text, ps).POk? ==>
      PFactor(text, ps).value == Node("variable", ps.cur.value, "", "", None, None, ps.cur.line)
  {
  }

  /** Unary minus becomes a subtraction from the number 0, both on the line
      of the '-' sign; parentheses leave no node of their own. */
  lemma FactorMinusAndParens(text: string, ps: PState)
    requires PValid(text, ps)
    ensures ps.cur.kind == MINUS && PFactor(text, ps).POk? ==>
      var n := PFactor(text, ps).value;
      n.kind == "binop" && n.op == "-" && n.line == ps.cur.line &&
      n.left == Some(Node("number", "", "0", "", None, None, ps.cur.line)) && n.right.Some?
    ensures ps.cur.kind == LPAREN && PFactor(text, ps).POk? ==>
      var e := PEat(text, ps, LPAREN);
      e.POk? && PExpr(text, e.st).POk? && PFactor(text, ps).value == PExpr(text, e.st).value
  {
  }

  /** A factor can only start with a number, string, identifier, '(' or '-';
      any other token is reported with its text and line, and nothing is
      consumed. */
  lemma FactorRejects(text: string, ps: PState)
    requires PValid(text, ps)
    requires ps.cur.kind !in {NUMBER, STRING, IDENTIFIER, LPAREN, MINUS}
    ensures PFactor(text, ps) == PErr("Invalid factor: " + ps.cur.value + " at line " + IntToString(ps.cur.line), ps)
  {
  }

  /** What statement() builds: the statement kind follows the first token
      and the node carries that token's line. */
  lemma StatementShape(text: string, ps: PState)
    requires PValid(text, ps)
    ensures PStatement(text, ps).POk? ==>
      var n := PStatement(text, ps).value;
      IsStatement(n) && n.line == ps.cur.line &&
      (ps.cur.kind == CIN <==> n.kind == "cin") &&
      (ps.cur.kind == COUT <==> n.kind == "cout") &&
      (ps.cur.kind == IDENTIFIER <==> n.kind == "assign") &&
      (n.kind == "assign" ==> n.name == ps.cur.value)
  {
    if ps.cur.kind == CIN {
    } else if ps.cur.kind == COUT {
    } else if ps.cur.kind == IDENTIFIER {
    } else {
      StatementRejects(text, ps);
    }
  }

  /** A statement that starts with anything but cin, cout or an identifier
      is an unknown statement, reported at its line without consuming it. */
  lemma StatementRejects(text: string, ps: PState)
    requires PValid(text, ps)
    requires ps.cur.kind !in {CIN, COUT, IDENTIFIER}
    ensures PStatement(text, ps) == PErr("Unknown statement at line " + IntToString(ps.cur.line), ps)
  {
  }

  /** An identifier not followed by '=' is an error reported at the
      identifier's line, in the state after the identifier was consumed. */
  lemma AssignmentNeedsEquals(text: string, ps: PState)
    requires PValid(text, ps) && ps.cur.kind == IDENTIFIER
    requires Advance(text, ps).POk? && Advance(text, ps).st.cur.kind != ASSIGN
    ensures PAssignment(text, ps) ==
      PErr("Expected '=' after identifier at line " + IntToString(ps.cur.line), Advance(text, ps).st)
  {
  }

  /** The parse loop only adds: the statements and errors collected so far
      stay at the front, and every statement added is a statement node. */
  lemma {:induction false} ParseLoopStatements(text: string, ps: PState, acc: Parsed)
    requires PValid(text, ps)
    requires forall i :: 0 <= i < |acc.stmts| ==> IsStatement(acc.stmts[i])
    ensures ParseLoop(text, ps, acc).Finished? ==>
      var p := ParseLoop(text, ps, acc).parsed;
      acc.stmts <= p.stmts && acc.errors <= p.errors &&
      forall i :: 0 <= i < |p.stmts| ==> IsStatement(p.stmts[i])
    ensures ParseLoop(text, ps, acc).Aborted? ==> acc.errors < ParseLoop(text, ps, acc).printed
    decreases Measure(text, ps)
  {
    if ps.cur.kind != END {
      var s := PStatement(text, ps);
      if s.POk? {
        StatementShape(text, ps);
        var acc' := Parsed(acc.stmts + [s.value], acc.errors);
        ParseLoopStatements(text, s.st, acc');
      } else {
        var rec := Recover(text, s.st);
        if rec.Ok? {
          ParseLoopStatements(text, rec.value, Parsed(acc.stmts, acc.errors + [s.msg]));
        }
      }
    }
  }

  /** An error in one statement does not end the parse: its message is
      recorded, the tokens up to the next ';' are skipped and parsing goes on
      with the statements already collected. */
  lemma ErrorsDoNotStopParsing(text: string, ps: PState, acc: Parsed)
    requires PValid(text, ps) && ps.cur.kind != END
    requires PStatement(text, ps).PErr?
    ensures Recover(text, PStatement(text, ps).st).Ok? ==>
      ParseLoop(text, ps, acc) ==
      ParseLoop(text, Recover(text, PStatement(text, ps).st).value, Parsed(acc.stmts, acc.errors + [PStatement(text, ps).msg]))
    ensures Recover(text, PStatement(text, ps).st).Err? ==>
      ParseLoop(text, ps, acc) ==
      Aborted(acc.errors + [PStatement(text, ps).msg], Recover(text, PStatement(text, ps).st).msg)
  {
  }

  /** A concrete program whose second statement holds an invalid character. */
  const AbortText := "1; @"

  /** The scanner reads `1` and `;` from `1; @`, then fails on `@`. */
  lemma AbortTextTokens()
    ensures Reads(AbortText, Start, Token(NUMBER, "1", 1), LexState(1, 1))
    ensures Reads(AbortText, LexState(1, 1), Token(SEMICOLON, ";", 1), LexState(2, 1))
    ensures Next(AbortText, LexState(2, 1)) == Fail("Invalid character '@' at line 1", LexState(4, 1))
  {
    SkipStops(AbortText, Start);
    assert DigitsEnd(AbortText, 1) == 1;
    assert AbortText[0..1] == "1";
    SkipStops(AbortText, LexState(1, 1));
    assert [AbortText[1]] == ";";
    SkipSpaceStep(AbortText, LexState(2, 1));
    SkipStops(AbortText, LexState(3, 1));
    assert [AbortText[3]] == "@";
  }

  /** In `1; @` the first statement fails and its message is written out;
      the scanner error met while recovering then escapes the parse. */
  lemma MessagesBeforeAbortKept()
    ensures ParseProgram(AbortText) ==
      Aborted(["Unknown statement at line 1"], "Invalid character '@' at line 1")
  {
    AbortTextTokens();
    var ps := PState(LexState(1, 1), Token(NUMBER, "1", 1));
    StatementRejects(AbortText, ps);
    assert IntToString(1) == "1";
    var q := PState(LexState(2, 1), Token(SEMICOLON, ";", 1));
    assert Advance(AbortText, ps) == POk((), q);
    assert Recover(AbortText, ps) == Recover(AbortText, q);
    assert Recover(AbortText, q) == Err("Invalid character '@' at line 1");
    var m := "Unknown statement at line " + IntToString(1);
    assert m == "Unknown statement at line 1";
    assert PStatement(AbortText, ps) == PErr(m, ps);
    assert ps.cur.kind != END;
    assert ParseLoop(AbortText, ps, Parsed([], [])) == Aborted([] + [m], "Invalid character '@' at line 1");
    assert [] + ["Unknown statement at line 1"] == ["Unknown statement at line 1"];
  }

  /** Recovery stops at END or just after a ';'. */
  lemma {:induction false} RecoverStops(text: string, ps: PState)
    requires PValid(text, ps)
    ensures Recover(text, ps).Ok? ==>
      Recover(text, ps).value.cur.kind == END ||
      exists q :: PValid(text, q) && q.cur.kind == SEMICOLON && Advance(text, q) == POk((), Recover(text, ps).value)
    decreases Measure(text, ps)
  {
    if ps.cur.kind != SEMICOLON && ps.cur.kind != END {
      var n := Advance(text, ps);
      if n.POk? {
        RecoverStops(text, n.st);
      }
    } else if ps.cur.kind == SEMICOLON {
      var n := Advance(text, ps);
      if n.POk? {
        assert PValid(text, ps) && ps.cur.kind == SEMICOLON && Advance(text, ps) == POk((), Recover(text, ps).value);
      }
    }
  }

  /** A method's outcome as a parser result in the state it left. */
  function Outcome<T>(r: Result<T>, st: PState): PResult<T>
  {
    if r.Ok? then POk(r.value, st) else PErr(r.msg, st)
  }

  /** The parser object: the scanner it reads from and the current token. */
  class Parser {
    const lexer: Lexer
    var currentToken: Token

    /** Takes the scanner and the first token it produced. */
    constructor (lexer: Lexer, first: Token)
      ensures this.lexer == lexer && currentToken == first
    {
      this.lexer := lexer;
      currentToken := first;
    }

    function PStateOf(): PState
      reads this, lexer
    {
      PState(lexer.State(), currentToken)
    }

    ghost predicate Valid()
      reads this, lexer
    {
      lexer.Valid() && OperatorText(currentToken)
    }

    /** Read the next token into currentToken; on a scanner error the current
        token stays. */
    method NextToken() returns (err: Option<string>)
      requires Valid()
      modifies this, lexer
      ensures Valid()
      ensures Advance(lexer.text, old(PStateOf())) ==
        (if err.Some? then PErr(err.value, PStateOf()) else POk((), PStateOf()))
    {
      NextOperatorText(lexer.text, lexer.State());
      var t := lexer.GetNextToken();
      if t.Err? {
        return Some(t.msg);
      }
      currentToken := t.value;
      return None;
    }

    method Eat(k: TokenType) returns (err: Option<string>)
      requires Valid()
      modifies this, lexer
      ensures Valid()
      ensures PEat(lexer.text, old(PStateOf()), k) ==
        (if err.Some? then PErr(err.value, PStateOf()) else POk((), PStateOf()))
    {
      if currentToken.kind == k {
        err := NextToken();
      } else {
        return Some("Unexpected token: " + currentToken.value + " at line " + IntToString(currentToken.line));
      }
    }

    method Factor() returns (r: Result<Node>)
      requires Valid()
      modifies this, lexer
      decreases Measure(lexer.text, PStateOf()), 0
      ensures Valid()
      ensures Outcome(r, PStateOf()) == PFactor(lexer.text, old(PStateOf()))
    {
      var token := currentToken;
      if token.kind == NUMBER {
        var e := Eat(NUMBER);
        if e.Some? { return Err(e.value); }
        return Ok(NumberNode(token.value, token.line));
      }
      if token.kind == STRING {
        var e := Eat(STRING);
        if e.Some? { return Err(e.value); }
        return Ok(StringNode(token.value, token.line));
      }
      if token.kind == IDENTIFIER {
        var e := Eat(IDENTIFIER);
        if e.Some? { return Err(e.value); }
        return Ok(VariableNode(token.value, token.line));
      }
      if token.kind == LPAREN {
        var e := Eat(LPAREN);
        if e.Some? { return Err(e.value); }
        var node := Expr();
        if node.Err? { return node; }
        e := Eat(RPAREN);
        if e.Some? { return Err(e.value); }
        return node;
      }
      if token.kind == MINUS {
        var e := Eat(MINUS);
        if e.Some? { return Err(e.value); }
        var node := Factor();
        if node.Err? { return node; }
        return Ok(BinopNode("-", NumberNode("0", token.line), node.value, token.line));
      }
      return Err("Invalid factor: " + token.value + " at line " + IntToString(token.line));
    }

    method Term() returns (r: Result<Node>)
      requires Valid()
      modifies this, lexer
      decreases Measure(lexer.text, PStateOf()), 2
      ensures Valid()
      ensures Outcome(r, PStateOf()) == PTerm(lexer.text, old(PStateOf()))
    {
      ghost var m0 := Measure(lexer.text, PStateOf());
      var f := Factor();
      if f.Err? { return f; }
      var node := f.value;
      ghost var goal := TermLoop(lexer.text, node, PStateOf());
      while currentToken.kind == STAR || currentToken.kind == SLASH
        invariant Valid()
        invariant Measure(lexer.text, PStateOf()) < m0
        invariant TermLoop(lexer.text, node, PStateOf()) == goal
        decreases Measure(lexer.text, PStateOf())
      {
        var op := currentToken;
        var e := Eat(op.kind);
        if e.Some? { return Err(e.value); }
        var right := Factor();
        if right.Err? { return right; }
        node := BinopNode(op.value, node, right.value, op.line);
      }
      return Ok(node);
    }

    method Expr() returns (r: Result<Node>)
      requires Valid()
      modifies this, lexer
      decreases Measure(lexer.text, PStateOf()), 4
      ensures Valid()
      ensures Outcome(r, PStateOf()) == PExpr(lexer.text, old(PStateOf()))
    {
      ghost var m0 := Measure(lexer.text, PStateOf());
      var t := Term();
      if t.Err? { return t; }
      var node := t.value;
      ghost var goal := ExprLoop(lexer.text, node, PStateOf());
      while currentToken.kind == PLUS || currentToken.kind == MINUS
        invariant Valid()
        invariant Measure(lexer.text, PStateOf()) < m0
        invariant ExprLoop(lexer.text, node, PStateOf()) == goal
        decreases Measure(lexer.text, PStateOf())
      {
        var op := currentToken;
        var e := Eat(op.kind);
        if e.Some? { return Err(e.value); }
        var right := Term();
        if right.Err? { return right; }
        node := BinopNode(op.value, node, right.value, op.line);
      }
      return Ok(node);
    }

    /** None plays the part of the null pointer returned when the statement
        does not start with an identifier. */
    method Assignment() returns (r: Result<Tree>)
      requires Valid()
      modifies this, lexer
      ensures Valid()
      ensures Outcome(r, PStateOf()) == PAssignment(lexer.text, old(PStateOf()))
    {
      if currentToken.kind == IDENTIFIER {
        var varName, lineNum := currentToken.value, currentToken.line;
        var e := Eat(IDENTIFIER);
        if e.Some? { return Err(e.value); }
        if currentToken.kind == ASSIGN {
          e := Eat(ASSIGN);
          if e.Some? { return Err(e.value); }
          var valueNode := Expr();
          if valueNode.Err? { return Err(valueNode.msg); }
          e := Eat(SEMICOLON);
          if e.Some? { return Err(e.value); }
          return Ok(Some(Node("assign", varName, "", "", Some(valueNode.value), None, lineNum)));
        } else {
          return Err("Expected '=' after identifier at line " + IntToString(lineNum));
        }
      }
      return Ok(None);
    }

    method Cin() returns (r: Result<Node>)
      requires Valid() && currentToken.kind == CIN
      modifies this, lexer
      ensures Valid()
      ensures Outcome(r, PStateOf()) == PCin(lexer.text, old(PStateOf()))
    {
      var lineNum := currentToken.line;
      var e := Eat(CIN);
      if e.Some? { return Err(e.value); }
      e := Eat(LPAREN);
      if e.Some? { return Err(e.value); }
      if currentToken.kind != IDENTIFIER {
        return Err("Expected variable name in cin at line " + IntToString(currentToken.line));
      }
      var varName := currentToken.value;
      e := Eat(IDENTIFIER);
      if e.Some? { return Err(e.value); }
      e := Eat(RPAREN);
      if e.Some? { return Err(e.value); }
      e := Eat(SEMICOLON);
      if e.Some? { return Err(e.value); }
      return Ok(Node("cin", varName, "", "", None, None, lineNum));
    }

    method Cout() returns (r: Result<Node>)
      requires Valid() && currentToken.kind == COUT
      modifies this, lexer
      ensures Valid()
      ensures Outcome(r, PStateOf()) == PCout(lexer.text, old(PStateOf()))
    {
      var lineNum := currentToken.line;
      var e := Eat(COUT);
      if e.Some? { return Err(e.value); }
      e := Eat(LPAREN);
      if e.Some? { return Err(e.value); }
      var exprNode := Expr();
      if exprNode.Err? { return exprNode; }
      e := Eat(RPAREN);
      if e.Some? { return Err(e.value); }
      e := Eat(SEMICOLON);
      if e.Some? { return Err(e.value); }
      return Ok(Node("cout", "", "", "", Some(exprNode.value), None, lineNum));
    }

    method Statement() returns (r: Result<Node>)
      requires Valid()
      modifies this, lexer
      ensures Valid()
      ensures Outcome(r, PStateOf()) == PStatement(lexer.text, old(PStateOf()))
    {
      if currentToken.kind == CIN {
        r := Cin();
        return;
      }
      if currentToken.kind == COUT {
        r := Cout();
        return;
      }
      var assignNode := Assignment();
      if assignNode.Err? { return Err(assignNode.msg); }
      if assignNode.value.Some? { return Ok(assignNode.value.value); }
      return Err("Unknown statement at line " + IntToString(currentToken.line));
    }

    /** The recovery in parse(): skip to just past the next ';'. A scanner
        error here escapes parse(). */
    method SkipToSemicolon() returns (err: Option<string>)
      requires Valid()
      modifies this, lexer
      ensures Valid()
      ensures Recover(lexer.text, old(PStateOf())) == (if err.Some? then Err(err.value) else Ok(PStateOf()))
    {
      ghost var goal := Recover(lexer.text, PStateOf());
      while currentToken.kind != SEMICOLON && currentToken.kind != END
        invariant Valid()
        invariant Recover(lexer.text, PStateOf()) == goal
        decreases Measure(lexer.text, PStateOf())
      {
        err := NextToken();
        if err.Some? { return; }
      }
      if currentToken.kind == SEMICOLON {
        err := NextToken();
        if err.Some? { return; }
      }
      return None;
    }

    /** parse(): statements until END; the message of every statement that
        failed is collected in place of the error stream. */
    method Parse() returns (r: ParseRun)
      requires Valid()
      modifies this, lexer
      ensures Valid()
      ensures r == ParseLoop(lexer.text, old(PStateOf()), Parsed([], []))
    {
      var nodes: seq<Node> := [];
      var errors: seq<string> := [];
      ghost var goal := ParseLoop(lexer.text, PStateOf(), Parsed([], []));
      while currentToken.kind != END
        invariant Valid()
        invariant ParseLoop(lexer.text, PStateOf(), Parsed(nodes, errors)) == goal
        decreases Measure(lexer.text, PStateOf())
      {
        var s := Statement();
        if s.Ok? {
          nodes := nodes + [s.value];
        } else {
          errors := errors + [s.msg];
          var err := SkipToSemicolon();
          if err.Some? { return Aborted(errors, err.value); }
        }
      }
      return Finished(Parsed(nodes, errors));
    }
  }

  /** Build the parser over a scanner (which reads the first token, and may
      fail doing so) and run parse(). */
  method ParseText(text: string) returns (r: ParseRun)
    ensures r == ParseProgram(text)
  {
    var lexer := new Lexer(text);
    NextOperatorText(text, Start);
    var first := lexer.GetNextToken();
    if first.Err? {
      return Aborted([], first.msg);
    }
    var parser := new Parser(lexer, first.value);
    r := parser.Parse();
  }
}
