/** Lowering of the AST into straight-line three-address code (src/ir.cpp).

    `ExprIR`, `StmtIR` and `ProgramIR` say what the generator emits; the
    class `Lowering` holds the state that the source's recursive lambda
    updates in place (the instruction vector and the temporary counter), and
    its methods are proved to emit exactly that. */
module IRGen {
  import opened Wrappers
  import opened Decimal
  import opened Ast
  import opened Instr

  /** Temporary number n is named "t" followed by n in decimal. */
  function MakeTemp(n: nat): (t: string)
    ensures |t| >= 2 && t[0] == 't'
  {
    "t" + NatToString(n)
  }

  /** The number a temporary name carries (0 for text that carries none). */
  function TempIndex(s: string): nat
  {
    if |s| >= 1 && AllDigits(s[1..]) then DigitsValue(s[1..]) else 0
  }

  /** Text that is exactly the name of some temporary. */
  predicate IsTemp(s: string) { s == MakeTemp(TempIndex(s)) }

  /** Temporary names are read back as the number they were made from, so two
      temporaries with different numbers have different names. */
  lemma MakeTempRoundTrip(n: nat)
    ensures IsTemp(MakeTemp(n)) && TempIndex(MakeTemp(n)) == n
  {
    var s := MakeTemp(n);
    assert s[1..] == NatToString(n);
    NatToStringRoundTrip(n);
  }

  /** The IR mnemonic of a surface operator; other operator text passes through. */
  function IrOp(op: string): (r: string)
    ensures op in {"+", "-", "*", "/"} <==> r in {"ADD", "SUB", "MUL", "DIV"} && r != op
    ensures op !in {"+", "-", "*", "/"} ==> r == op
  {
    if op == "+" then "ADD"
    else if op == "-" then "SUB"
    else if op == "*" then "MUL"
    else if op == "/" then "DIV"
    else op
  }

  /** The right operand of a division is syntactically the literal 0. */
  predicate IsZeroLiteral(t: Tree) { t.Some? && t.value.kind == "number" && t.value.value == "0" }

  /** What lowering produced: the instructions, the temporary holding the
      value ("" when there is none) and the next free temporary number. */
  datatype Lowered = Lowered(code: seq<Instruction>, temp: string, next: nat)

  /** Post-order lowering of an expression, allocating temporaries from `k`. */
  function ExprIR(node: Tree, k: nat): Lowered
    decreases node
  {
    match node
    case None => Lowered([], "", k)
    case Some(n) =>
      if n.kind == "number" then
        Lowered([Instruction("MOV", n.value, "", MakeTemp(k))], MakeTemp(k), k + 1)
      else if n.kind == "string" then
        Lowered([Instruction("MOV", "\"" + n.value + "\"", "", MakeTemp(k))], MakeTemp(k), k + 1)
      else if n.kind == "variable" then
        Lowered([Instruction("LOAD", n.name, "", MakeTemp(k))], MakeTemp(k), k + 1)
      else if n.kind == "binop" then
        var l := ExprIR(n.left, k);
        var r := ExprIR(n.right, l.next);
        var t := MakeTemp(r.next);
        var op := IrOp(n.op);
        var note := if op == "DIV" && IsZeroLiteral(n.right)
                    then [Note("; ERROR: division by zero at line " + IntToString(n.line))] else [];
        Lowered(l.code + r.code + [Instruction(op, l.temp, r.temp, t)] + note, t, r.next + 1)
      else
        Lowered([], "", k)
  }

  /** The variable a statement writes: the target of an assignment or of cin. */
  function Target(stmt: Tree): string
  {
    if stmt.Some? && stmt.value.kind in {"assign", "cin"} then stmt.value.name else ""
  }

  /** Lowering of one statement; null statements emit nothing. */
  function StmtIR(stmt: Tree, k: nat): Lowered
  {
    match stmt
    case None => Lowered([], "", k)
    case Some(s) =>
      if s.kind == "assign" then
        var e := ExprIR(s.left, k);
        Lowered(e.code + [Instruction("STORE", e.temp, "", s.name)], "", e.next)
      else if s.kind == "cout" then
        var e := ExprIR(s.left, k);
        var shown := if s.left.Some? && s.left.value.kind == "variable" then s.left.value.name else e.temp;
        Lowered(e.code + [Instruction("PRINT", shown, "", "")], "", e.next)
      else if s.kind == "cin" then
        Lowered([Instruction("READ", "", "", s.name)], "", k)
      else
        Lowered([Note("; UNHANDLED_STMT type=" + s.kind + " line=" + IntToString(s.line))], "", k)
  }

  /** Lowering of a statement list, one statement after another. */
  function ProgramIR(stmts: seq<Tree>, k: nat): Lowered
  {
    if stmts == [] then Lowered([], "", k)
    else
      var p := ProgramIR(stmts[..|stmts| - 1], k);
      var s := StmtIR(stmts[|stmts| - 1], p.next);
      Lowered(p.code + s.code, "", s.next)
  }

  // ---------------------------------------------------------------------
  // Temporaries

  /** Different numbers give different temporary names. */
  lemma MakeTempInjective(m: nat, n: nat)
    requires MakeTemp(m) == MakeTemp(n)
    ensures m == n
  {
    assert MakeTemp(m)[1..] == NatToString(m);
    assert MakeTemp(n)[1..] == NatToString(n);
    NatToStringInjective(m, n);
  }

  /** Text that is not a temporary name equals no MakeTemp(n). */
  lemma NotATemp(s: string)
    requires !IsTemp(s)
    ensures forall n: nat :: s != MakeTemp(n)
  {
    forall n: nat ensures s != MakeTemp(n) {
      MakeTempRoundTrip(n);
    }
  }

  /** Every temporary defined in `code` has a number in [lo, hi), and the
      numbers grow strictly along the sequence. */
  ghost predicate TempsIn(code: seq<Instruction>, lo: nat, hi: nat)
  {
    (forall i, n: nat | 0 <= i < |code| && code[i].result == MakeTemp(n) :: lo <= n < hi) &&
    (forall i, j, m: nat, n: nat | 0 <= i < j < |code| && code[i].result == MakeTemp(m) && code[j].result == MakeTemp(n) ::
       m < n)
  }

  lemma TempsInConcat(a: seq<Instruction>, b: seq<Instruction>, lo: nat, mid: nat, hi: nat)
    requires lo <= mid <= hi
    requires TempsIn(a, lo, mid) && TempsIn(b, mid, hi)
    ensures TempsIn(a + b, lo, hi)
  {
    var c := a + b;
    forall i, n: nat | 0 <= i < |c| && c[i].result == MakeTemp(n)
      ensures lo <= n < hi
    {
      if i < |a| { assert c[i] == a[i]; } else { assert c[i] == b[i - |a|]; }
    }
    forall i, j, m: nat, n: nat | 0 <= i < j < |c| && c[i].result == MakeTemp(m) && c[j].result == MakeTemp(n)
      ensures m < n
    {
      if j < |a| {
        assert c[i] == a[i] && c[j] == a[j];
      } else if i >= |a| {
        assert c[i] == b[i - |a|] && c[j] == b[j - |a|];
      } else {
        assert c[i] == a[i] && c[j] == b[j - |a|];
      }
    }
  }

  /** A single instruction writing temporary n. */
  lemma TempsInSingle(ins: Instruction, n: nat)
    requires ins.result == MakeTemp(n)
    ensures TempsIn([ins], n, n + 1)
  {
    forall m: nat | [ins][0].result == MakeTemp(m) ensures n <= m < n + 1 {
      MakeTempInjective(m, n);
    }
  }

  /** Instructions that write no temporary. */
  lemma TempsInNone(code: seq<Instruction>, k: nat)
    requires forall i | 0 <= i < |code| :: !IsTemp(code[i].result)
    ensures TempsIn(code, k, k)
  {
    forall i | 0 <= i < |code| ensures forall n: nat :: code[i].result != MakeTemp(n) {
      NotATemp(code[i].result);
    }
  }

  /** What ExprTemps establishes about the lowering of `node` from `k`: the
      temporaries are numbered k, k+1, ... in order of definition, the value
      lives in the last temporary allocated, and a node with no value (null
      or of unknown kind) emits nothing. */
  ghost predicate ExprFacts(node: Tree, k: nat)
  {
    var e := ExprIR(node, k);
    k <= e.next && TempsIn(e.code, k, e.next) &&
    (e.temp == "" <==> node.None? || node.value.kind !in {"number", "string", "variable", "binop"}) &&
    (e.temp == "" ==> e.code == [] && e.next == k) &&
    (e.temp != "" ==> k < e.next && e.temp == MakeTemp(e.next - 1))
  }

  /** Expression lowering allocates the numbers k, k+1, ... in order and
      returns the last one it allocated. */
  lemma {:induction false} ExprTemps(node: Tree, k: nat)
    ensures ExprFacts(node, k)
    decreases node, 1
  {
    var e := ExprIR(node, k);
    if node.Some? && node.value.kind in {"number", "string", "variable"} {
      TempsInSingle(e.code[0], k);
    } else if node.Some? && node.value.kind == "binop" {
      BinopTemps(node.value, k);
    }
  }

  /** ExprIR of a binop, spelled out from its operands' lowerings. */
  lemma BinopUnfold(n: Node, k: nat)
    requires n.kind == "binop"
    ensures var l := ExprIR(n.left, k);
      var r := ExprIR(n.right, l.next);
      var op := IrOp(n.op);
      ExprIR(Some(n), k) ==
        Lowered(l.code + r.code + [Instruction(op, l.temp, r.temp, MakeTemp(r.next))] +
                (if op == "DIV" && IsZeroLiteral(n.right)
                 then [Note("; ERROR: division by zero at line " + IntToString(n.line))] else []),
                MakeTemp(r.next), r.next + 1)
  {
  }

  lemma {:induction false} BinopTemps(n: Node, k: nat)
    requires n.kind == "binop"
    ensures ExprFacts(Some(n), k)
    decreases Some(n), 0
  {
    var l := ExprIR(n.left, k);
    var r := ExprIR(n.right, l.next);
    var t := MakeTemp(r.next);
    var ins := [Instruction(IrOp(n.op), l.temp, r.temp, t)];
    var note := if IrOp(n.op) == "DIV" && IsZeroLiteral(n.right)
                then [Note("; ERROR: division by zero at line " + IntToString(n.line))] else [];
    assert ExprIR(Some(n), k) == Lowered(l.code + r.code + ins + note, t, r.next + 1) by {
      BinopUnfold(n, k);
    }
    assert k <= l.next <= r.next && TempsIn(l.code, k, l.next) && TempsIn(r.code, l.next, r.next) by {
      ExprTemps(n.left, k);
      ExprTemps(n.right, l.next);
    }
    MakeTempRoundTrip(0);
    TempsInOperation(l.code, r.code, ins[0], note, k, l.next, r.next);
  }

  /** The temporaries of a binop's code: its operands' code, then one
      instruction writing the next temporary, then notes writing none. */
  lemma TempsInOperation(a: seq<Instruction>, b: seq<Instruction>, ins: Instruction,
                         note: seq<Instruction>, lo: nat, mid: nat, hi: nat)
    requires lo <= mid <= hi && TempsIn(a, lo, mid) && TempsIn(b, mid, hi)
    requires ins.result == MakeTemp(hi)
    requires forall i | 0 <= i < |note| :: !IsTemp(note[i].result)
    ensures TempsIn(a + b + [ins] + note, lo, hi + 1)
  {
    TempsInSingle(ins, hi);
    TempsInNone(note, hi + 1);
    TempsInConcat(a, b, lo, mid, hi);
    TempsInConcat(a + b, [ins], lo, hi, hi + 1);
    TempsInConcat(a + b + [ins], note, lo, hi + 1, hi + 1);
  }

  /** A binary operation lowers its left operand completely before its right
      operand, then emits the operation on the two operand temporaries, then
      (for a division by the literal 0) one divide-by-zero annotation. */
  lemma BinopLayout(n: Node, k: nat)
    requires n.kind == "binop"
    ensures var l, e := ExprIR(n.left, k), ExprIR(Some(n), k);
      var r := ExprIR(n.right, l.next);
      var m := |l.code| + |r.code|;
      var div0 := IrOp(n.op) == "DIV" && IsZeroLiteral(n.right);
      |e.code| == m + 1 + (if div0 then 1 else 0) &&
      e.code[..|l.code|] == l.code && e.code[|l.code|..m] == r.code &&
      e.code[m] == Instruction(IrOp(n.op), l.temp, r.temp, e.temp) &&
      (div0 ==> e.code[m + 1] == Note("; ERROR: division by zero at line " + IntToString(n.line)))
  {
    var l := ExprIR(n.left, k);
    var r := ExprIR(n.right, l.next);
    var m := |l.code| + |r.code|;
    var op := IrOp(n.op);
    var note := if op == "DIV" && IsZeroLiteral(n.right)
                then [Note("; ERROR: division by zero at line " + IntToString(n.line))] else [];
    var code := l.code + r.code + [Instruction(op, l.temp, r.temp, MakeTemp(r.next))] + note;
    assert ExprIR(Some(n), k) == Lowered(code, MakeTemp(r.next), r.next + 1) by {
      BinopUnfold(n, k);
    }
    assert code[..|l.code|] == l.code;
    assert code[|l.code|..m] == r.code;
  }

  /** The temporaries of a binary operation: every temporary its left operand
      defines is numbered below every temporary its right operand defines, and
      the operation's own temporary is numbered above both operand
      temporaries. */
  lemma BinopNumbering(n: Node, k: nat)
    requires n.kind == "binop"
    ensures var l, e := ExprIR(n.left, k), ExprIR(Some(n), k);
      var r := ExprIR(n.right, l.next);
      (forall i, j, a: nat, b: nat | 0 <= i < |l.code| && 0 <= j < |r.code| &&
         l.code[i].result == MakeTemp(a) && r.code[j].result == MakeTemp(b) :: a < b) &&
      e.temp == MakeTemp(r.next) &&
      (forall a: nat | l.temp == MakeTemp(a) :: a < r.next) &&
      (forall b: nat | r.temp == MakeTemp(b) :: b < r.next)
  {
    var l := ExprIR(n.left, k);
    var r := ExprIR(n.right, l.next);
    assert ExprIR(Some(n), k).temp == MakeTemp(r.next) by {
      BinopUnfold(n, k);
    }
    assert ExprFacts(n.left, k) && ExprFacts(n.right, l.next) by {
      ExprTemps(n.left, k);
      ExprTemps(n.right, l.next);
    }
    forall a: nat | l.temp == MakeTemp(a) ensures a < r.next {
      MakeTempInjective(a, l.next - 1);
    }
    forall b: nat | r.temp == MakeTemp(b) ensures b < r.next {
      MakeTempInjective(b, r.next - 1);
    }
  }

  /** Statement lowering: an assignment stores the value of its expression
      into its target, cin reads straight into its target without any
      temporary, cout of a bare variable loads it into a temporary yet prints
      the variable itself, any other cout prints the temporary holding its
      value, and an unknown statement becomes a single annotation. */
  lemma StmtShape(stmt: Tree, k: nat)
    ensures var s := StmtIR(stmt, k);
      k <= s.next &&
      (stmt.None? ==> s.code == [] && s.next == k) &&
      (stmt.Some? && stmt.value.kind == "assign" ==>
         var e := ExprIR(stmt.value.left, k);
         s.code == e.code + [Instruction("STORE", e.temp, "", stmt.value.name)]) &&
      (stmt.Some? && stmt.value.kind == "cin" ==>
         s.code == [Instruction("READ", "", "", stmt.value.name)] && s.next == k) &&
      (stmt.Some? && stmt.value.kind == "cout" && stmt.value.left.Some? && stmt.value.left.value.kind == "variable" ==>
         var v := stmt.value.left.value.name;
         s.code == [Instruction("LOAD", v, "", MakeTemp(k)), Instruction("PRINT", v, "", "")]) &&
      (stmt.Some? && stmt.value.kind == "cout" && !(stmt.value.left.Some? && stmt.value.left.value.kind == "variable") ==>
         var e := ExprIR(stmt.value.left, k);
         s.code == e.code + [Instruction("PRINT", e.temp, "", "")]) &&
      (stmt.Some? && stmt.value.kind !in {"assign", "cin", "cout"} ==>
         |s.code| == 1 && IsAnnotation(s.code[0]) && s.next == k)
  {
    if stmt.Some? && stmt.value.kind in {"assign", "cout"} {
      ExprTemps(stmt.value.left, k);
    }
  }

  /** Statement lowering keeps the temporary numbering of its expression. */
  lemma StmtTemps(stmt: Tree, k: nat)
    requires !IsTemp(Target(stmt))
    ensures var s := StmtIR(stmt, k); k <= s.next && TempsIn(s.code, k, s.next)
  {
    var s := StmtIR(stmt, k);
    MakeTempRoundTrip(0);
    if stmt.Some? && stmt.value.kind in {"assign", "cout"} {
      var e := ExprIR(stmt.value.left, k);
      ExprTemps(stmt.value.left, k);
      var last := [s.code[|s.code| - 1]];
      assert s.code == e.code + last;
      TempsInNone(last, e.next);
      TempsInConcat(e.code, last, k, e.next, e.next);
    } else {
      TempsInNone(s.code, k);
    }
  }

  /** Temporaries are never defined twice: over a whole program, provided no
      statement assigns or reads into a variable that is itself named like a
      temporary, the temporaries appear as results in strictly increasing
      order of their numbers, so no temporary is the result of two
      instructions. */
  lemma {:induction false} ProgramTempsDistinct(stmts: seq<Tree>, k: nat)
    requires forall i | 0 <= i < |stmts| :: !IsTemp(Target(stmts[i]))
    ensures var p := ProgramIR(stmts, k); k <= p.next && TempsIn(p.code, k, p.next)
    ensures var c := ProgramIR(stmts, k).code;
      forall i, j, n: nat | 0 <= i < j < |c| && c[i].result == MakeTemp(n) :: c[j].result != c[i].result
  {
    var p := ProgramIR(stmts, k);
    if stmts != [] {
      var init := stmts[..|stmts| - 1];
      var q := ProgramIR(init, k);
      ProgramTempsDistinct(init, k);
      StmtTemps(stmts[|stmts| - 1], q.next);
      TempsInConcat(q.code, StmtIR(stmts[|stmts| - 1], q.next).code, k, q.next, p.next);
    }
  }

  /** A variable named like a temporary collides with it: `t1 = 5;` lowers to
      `MOV 5 -> t1` followed by `STORE t1 -> t1`. */
  lemma TempCollision()
    ensures var c := ProgramIR([Some(Node("assign", "t1", "", "", Some(NumberNode("5", 1)), None, 1))], 1).code;
      |c| == 2 && c[0].result == c[1].result == "t1" && IsTemp("t1")
  {
    assert MakeTemp(1) == "t1";
    MakeTempRoundTrip(1);
  }

  lemma AppendAssoc<T>(x: seq<T>, a: seq<T>, b: seq<T>, c: seq<T>, d: seq<T>)
    ensures x + (a + b + c + d) == x + a + b + c + d
  {
  }

  // ---------------------------------------------------------------------
  // The generator as the source runs it

  /** The state captured by the source's recursive `genExpr` lambda: the
      instruction vector being filled and the temporary counter. */
  class Lowering {
    var ir: seq<Instruction>
    var tmpCount: nat

    constructor ()
      ensures ir == [] && tmpCount == 1
    {
      ir := [];
      tmpCount := 1;
    }

    /** Takes the next temporary name and bumps the counter. */
    method NewTemp() returns (t: string)
      modifies this
      ensures t == MakeTemp(old(tmpCount)) && tmpCount == old(tmpCount) + 1 && ir == old(ir)
    {
      t := MakeTemp(tmpCount);
      tmpCount := tmpCount + 1;
    }

    /** Appends one instruction `op arg -> t` into a fresh temporary t. */
    method EmitLeaf(op: string, arg: string) returns (t: string)
      modifies this
      ensures t == MakeTemp(old(tmpCount)) && tmpCount == old(tmpCount) + 1
      ensures ir == old(ir) + [Instruction(op, arg, "", t)]
    {
      t := NewTemp();
      ir := ir + [Instruction(op, arg, "", t)];
    }

    /** Appends the code of `node` and returns the temporary holding its value. */
    method GenExpr(node: Tree) returns (t: string)
      modifies this
      ensures var e := ExprIR(node, old(tmpCount));
        ir == old(ir) + e.code && t == e.temp && tmpCount == e.next
      decreases node, 1
    {
      if node.None? {
        return "";
      }
      var n := node.value;
      if n.kind == "number" {
        t := EmitLeaf("MOV", n.value);
      } else if n.kind == "string" {
        var literal := "\"" + n.value + "\"";
        t := EmitLeaf("MOV", literal);
      } else if n.kind == "variable" {
        t := EmitLeaf("LOAD", n.name);
      } else if n.kind == "binop" {
        t := GenBinop(n);
      } else {
        t := "";
      }
    }

    /** The binop case of GenExpr: left operand, right operand, then the
        operation, then the divide-by-zero note when the divisor is literal 0. */
    method GenBinop(n: Node) returns (t: string)
      requires n.kind == "binop"
      modifies this
      ensures var e := ExprIR(Some(n), old(tmpCount));
        ir == old(ir) + e.code && t == e.temp && tmpCount == e.next
      decreases Some(n), 0
    {
      ghost var k0, ir0 := tmpCount, ir;
      ghost var el := ExprIR(n.left, k0);
      ghost var er := ExprIR(n.right, el.next);
      ghost var note := if IrOp(n.op) == "DIV" && IsZeroLiteral(n.right)
                        then [Note("; ERROR: division by zero at line " + IntToString(n.line))] else [];
      BinopUnfold(n, k0);
      var l := GenExpr(n.left);
      assert ir == ir0 + el.code && l == el.temp;
      var r := GenExpr(n.right);
      assert ir == ir0 + el.code + er.code && r == er.temp;
      t := NewTemp();
      var op := n.op;
      if op == "+" { op := "ADD"; }
      else if op == "-" { op := "SUB"; }
      else if op == "*" { op := "MUL"; }
      else if op == "/" { op := "DIV"; }
      assert op == IrOp(n.op);
      ir := ir + [Instruction(op, l, r, t)];
      if op == "DIV" && n.right.Some? && n.right.value.kind == "number" && n.right.value.value == "0" {
        ir := ir + [Note("; ERROR: division by zero at line " + IntToString(n.line))];
      }
      assert ir == ir0 + el.code + er.code + [Instruction(op, l, r, t)] + note;
      AppendAssoc(ir0, el.code, er.code, [Instruction(op, l, r, t)], note);
    }
  }

  /** IRGenerator::generate: lowers the statements in order, skipping null ones. */
  method Generate(stmts: seq<Tree>) returns (ir: seq<Instruction>)
    ensures ir == ProgramIR(stmts, 1).code
  {
    var g := new Lowering();
    for i := 0 to |stmts|
      invariant g.ir == ProgramIR(stmts[..i], 1).code && g.tmpCount == ProgramIR(stmts[..i], 1).next
    {
      assert stmts[..i + 1][..i] == stmts[..i];
      var stmt := stmts[i];
      if stmt.None? {
        continue;
      }
      var s := stmt.value;
      if s.kind == "assign" {
        var rhs := g.GenExpr(s.left);
        g.ir := g.ir + [Instruction("STORE", rhs, "", s.name)];
        continue;
      }
      if s.kind == "cout" {
        var rhs := g.GenExpr(s.left);
        if s.left.Some? && s.left.value.kind == "variable" {
          g.ir := g.ir + [Instruction("PRINT", s.left.value.name, "", "")];
        } else {
          g.ir := g.ir + [Instruction("PRINT", rhs, "", "")];
        }
        continue;
      }
      if s.kind == "cin" {
        g.ir := g.ir + [Instruction("READ", "", "", s.name)];
        continue;
      }
      g.ir := g.ir + [Note("; UNHANDLED_STMT type=" + s.kind + " line=" + IntToString(s.line))];
    }
    assert stmts[..|stmts|] == stmts;
    ir := g.ir;
  }
}
