/** The tree-walking interpreter (src/interpreter.cpp).

    Every value is text. Arithmetic happens when both operands read as
    integers; `+` on anything else concatenates. Standard input is the list
    of lines still to be read, standard output the list of lines printed,
    and the error stream the list of messages of the statements that
    failed. */
module Interpret {
  import opened Wrappers
  import opened Decimal
  import opened Ast

  /** The number of blanks std::stol skips before the number. */
  function LeadingSpaces(s: string): (k: nat)
    ensures k <= |s| && (forall i | 0 <= i < k :: IsSpace(s[i])) && (k < |s| ==> !IsSpace(s[k]))
  {
    if s != [] && IsSpace(s[0]) then 1 + LeadingSpaces(s[1..]) else 0
  }

  /** An optional sign followed by at least one digit. */
  predicate IsInteger(t: string)
  {
    IsNumber(t) && !(|t| == 1 && HasSign(t))
  }

  /** tryParseInt: std::stol must read the whole text, after leading blanks,
      as a signed decimal integer. */
  function TryParseInt(s: string): (r: Option<int>)
    ensures r.Some? <==> IsInteger(s[LeadingSpaces(s)..])
    ensures r.Some? ==> r.value == ToLong(s[LeadingSpaces(s)..])
  {
    var t := s[LeadingSpaces(s)..];
    if IsInteger(t) then Some(ToLong(t)) else None
  }

  /** What std::to_string prints reads back as the same integer. */
  lemma TryParseIntToString(i: int)
    ensures TryParseInt(IntToString(i)) == Some(i)
  {
    var s := IntToString(i);
    IntToStringRoundTrip(i);
    assert !IsSpace(s[0]);
    assert LeadingSpaces(s) == 0;
    assert s[0..] == s;
  }

  /** The text of a number token reads as its decimal value. */
  lemma TryParseIntDigits(s: string)
    requires |s| > 0 && AllDigits(s)
    ensures TryParseInt(s) == Some(DigitsValue(s))
  {
    assert IsDigit(s[0]);
    assert LeadingSpaces(s) == 0;
    assert s[0..] == s;
    assert !HasSign(s);
    var k := LeadingDigits(s);
    assert k == |s|;
    assert s[..k] == s;
    assert ToLong(s) == DigitsValue(s);
  }

  /** Text that does not start (after blanks) with a sign or a digit is
      never numeric. */
  lemma TryParseIntRejects(s: string)
    requires |s| > 0 && !IsSpace(s[0]) && !IsDigit(s[0]) && s[0] != '+' && s[0] != '-'
    ensures TryParseInt(s) == None
  {
    assert s[LeadingSpaces(s)..] == s;
  }

  /** The interpreter's state: the variables, the input lines not yet read
      and the output lines printed so far. */
  datatype Env = Env(vars: map<string, string>, input: seq<string>, output: seq<string>)

  /** The value of one evaluation, or the error thrown, and the state after
      it. */
  datatype Evaluated = Evaluated(result: Result<string>, env: Env)

  function LineText(line: int): string { " at line " + IntToString(line) }

  /** The binop arithmetic on two evaluated operands. */
  function BinopValue(op: string, left: string, right: string, line: int): (r: Result<string>)
    ensures op == "+" ==> r.Ok?
    ensures op != "+" && op != "-" && op != "*" && op != "/" ==> r.Err?
    ensures op == "/" && TryParseInt(right) == Some(0) ==> r.Err?
  {
    var li, ri := TryParseInt(left), TryParseInt(right);
    var numeric := li.Some? && ri.Some?;
    if op == "+" then
      if numeric then Ok(IntToString(li.value + ri.value)) else Ok(left + right)
    else if op == "-" then
      if !numeric then Err("Runtime error: Cannot subtract non-numeric values" + LineText(line))
      else Ok(IntToString(li.value - ri.value))
    else if op == "*" then
      if !numeric then Err("Runtime error: Cannot multiply non-numeric values" + LineText(line))
      else Ok(IntToString(li.value * ri.value))
    else if op == "/" then
      if !numeric then Err("Runtime error: Cannot divide non-numeric values" + LineText(line))
      else if ri.value == 0 then Err("Runtime error: Division by zero" + LineText(line))
      else Ok(IntToString(TruncDiv(li.value, ri.value)))
    else Err("Runtime error: Unknown operator '" + op + "'" + LineText(line))
  }

  /** eval: the value of a possibly null node, with its effects on the
      state. Effects made before an error stay. */
  function Eval(env: Env, t: Tree): Evaluated
    decreases t
  {
    if t.None? then Evaluated(Ok(""), env)
    else
      var n := t.value;
      if n.kind == "number" || n.kind == "string" then Evaluated(Ok(n.value), env)
      else if n.kind == "variable" then
        if n.name in env.vars then Evaluated(Ok(env.vars[n.name]), env)
        else Evaluated(Err("Runtime error: Undefined variable '" + n.name + "'" + LineText(n.line)), env)
      else if n.kind == "binop" then
        var l := Eval(env, n.left);
        if l.result.Err? then l else
        var r := Eval(l.env, n.right);
        if r.result.Err? then r else
        Evaluated(BinopValue(n.op, l.result.value, r.result.value, n.line), r.env)
      else if n.kind == "assign" then
        var v := Eval(env, n.left);
        if v.result.Err? then v else
        Evaluated(v.result, v.env.(vars := v.env.vars[n.name := v.result.value]))
      else if n.kind == "cin" then
        var text := if |env.input| > 0 then env.input[0] else "";
        var rest := if |env.input| > 0 then env.input[1..] else [];
        Evaluated(Ok(text), Env(env.vars[n.name := text], rest, env.output))
      else if n.kind == "cout" then
        var v := Eval(env, n.left);
        if v.result.Err? then v else
        Evaluated(v.result, v.env.(output := v.env.output + [v.result.value]))
      else Evaluated(Ok(""), env)
  }

  /** The state after execute and the messages it wrote to the error
      stream. */
  datatype Run = Run(env: Env, errors: seq<string>)

  /** execute over the first statements: each is evaluated from the state
      the previous one left, whether or not that one failed. */
  function ExecuteAll(env: Env, nodes: seq<Node>): (r: Run)
    ensures |r.errors| <= |nodes|
    decreases |nodes|
  {
    if |nodes| == 0 then Run(env, [])
    else
      var before := ExecuteAll(env, nodes[..|nodes| - 1]);
      var e := Eval(before.env, Some(nodes[|nodes| - 1]));
      Run(e.env, before.errors + (if e.result.Err? then [e.result.msg] else []))
  }

  /** Number and string literals evaluate to their own text. */
  lemma LiteralValue(env: Env, n: Node)
    requires n.kind == "number" || n.kind == "string"
    ensures Eval(env, Some(n)) == Evaluated(Ok(n.value), env)
  {
  }

  /** A variable evaluates to its stored value; reading one never set is an
      error naming it. */
  lemma VariableValue(env: Env, n: Node)
    requires n.kind == "variable"
    ensures n.name in env.vars ==> Eval(env, Some(n)) == Evaluated(Ok(env.vars[n.name]), env)
    ensures n.name !in env.vars ==>
      Eval(env, Some(n)).result.Err? && Eval(env, Some(n)).env == env
  {
  }

  /** Expressions do not change the state, whether they succeed or fail. */
  lemma {:induction false} ExprKeepsState(env: Env, n: Node)
    requires IsExpr(n)
    ensures Eval(env, Some(n)).env == env
    decreases n
  {
    if n.kind == "binop" {
      ExprKeepsState(env, n.left.value);
      ExprKeepsState(env, n.right.value);
    }
  }

  /** An expression succeeds exactly when its operands do and the operator
      accepts their values. */
  lemma ExprBinop(env: Env, n: Node)
    requires IsExpr(n) && n.kind == "binop"
    ensures var l := Eval(env, n.left); var r := Eval(env, n.right);
      Eval(env, Some(n)).result ==
        if l.result.Err? then l.result
        else if r.result.Err? then r.result
        else BinopValue(n.op, l.result.value, r.result.value, n.line)
  {
    ExprKeepsState(env, n.left.value);
  }

  /** `+` adds two numeric operands (and the sum reads back as a number) and
      otherwise joins the two texts. */
  lemma PlusAddsOrJoins(left: string, right: string, line: int)
    ensures TryParseInt(left).Some? && TryParseInt(right).Some? ==>
      BinopValue("+", left, right, line) == Ok(IntToString(TryParseInt(left).value + TryParseInt(right).value)) &&
      TryParseInt(BinopValue("+", left, right, line).value) == Some(TryParseInt(left).value + TryParseInt(right).value)
    ensures TryParseInt(left).None? || TryParseInt(right).None? ==>
      BinopValue("+", left, right, line) == Ok(left + right)
  {
    if TryParseInt(left).Some? && TryParseInt(right).Some? {
      TryParseIntToString(TryParseInt(left).value + TryParseInt(right).value);
    }
  }

  /** `-`, `*` and `/` need two numeric operands; their result then reads
      back as the difference, the product and the quotient truncated toward
      zero. */
  lemma ArithmeticNeedsNumbers(op: string, left: string, right: string, line: int)
    requires op == "-" || op == "*" || op == "/"
    ensures TryParseInt(left).None? || TryParseInt(right).None? ==> BinopValue(op, left, right, line).Err?
    ensures TryParseInt(left).Some? && TryParseInt(right).Some? && op == "-" ==>
      TryParseInt(BinopValue(op, left, right, line).value) == Some(TryParseInt(left).value - TryParseInt(right).value)
    ensures TryParseInt(left).Some? && TryParseInt(right).Some? && op == "*" ==>
      TryParseInt(BinopValue(op, left, right, line).value) == Some(TryParseInt(left).value * TryParseInt(right).value)
  {
    if TryParseInt(left).Some? && TryParseInt(right).Some? {
      var a, b := TryParseInt(left).value, TryParseInt(right).value;
      TryParseIntToString(a - b);
      TryParseIntToString(a * b);
    }
  }

  /** Division by zero is an error; otherwise the quotient is truncated
      toward zero, C's division. */
  lemma DivisionTruncates(left: string, right: string, line: int)
    requires TryParseInt(left).Some? && TryParseInt(right).Some?
    ensures TryParseInt(right).value == 0 <==> BinopValue("/", left, right, line).Err?
    ensures TryParseInt(right).value != 0 ==>
      BinopValue("/", left, right, line).Ok? &&
      TryParseInt(BinopValue("/", left, right, line).value).Some? &&
      IsCQuotient(TryParseInt(left).value, TryParseInt(right).value,
                  TryParseInt(BinopValue("/", left, right, line).value).value)
  {
    var a, b := TryParseInt(left).value, TryParseInt(right).value;
    if b != 0 {
      TryParseIntToString(TruncDiv(a, b));
      TruncDivIsCDivision(a, b);
    }
  }

  /** An assignment stores the value of its right side and returns it; when
      the right side fails the variables are left as they were. */
  lemma AssignStores(env: Env, n: Node)
    requires IsStatement(n) && n.kind == "assign"
    ensures var v := Eval(env, n.left);
      Eval(env, Some(n)) ==
        if v.result.Err? then Evaluated(v.result, env)
        else Evaluated(v.result, env.(vars := env.vars[n.name := v.result.value]))
  {
    ExprKeepsState(env, n.left.value);
  }

  /** cin stores the next input line, or "" once the input is exhausted. */
  lemma CinReads(env: Env, n: Node)
    requires n.kind == "cin"
    ensures |env.input| > 0 ==>
      Eval(env, Some(n)) == Evaluated(Ok(env.input[0]), Env(env.vars[n.name := env.input[0]], env.input[1..], env.output))
    ensures |env.input| == 0 ==>
      Eval(env, Some(n)) == Evaluated(Ok(""), env.(vars := env.vars[n.name := ""]))
  {
  }

  /** cout appends exactly the value of its expression to the output, and
      prints nothing when the expression fails. */
  lemma CoutPrints(env: Env, n: Node)
    requires IsStatement(n) && n.kind == "cout"
    ensures var v := Eval(env, n.left);
      Eval(env, Some(n)) ==
        if v.result.Err? then Evaluated(v.result, env)
        else Evaluated(v.result, env.(output := env.output + [v.result.value]))
  {
    ExprKeepsState(env, n.left.value);
  }

  /** Running a program in two parts: the second part starts from the state
      the first left, and the error messages are those of both parts. */
  lemma {:induction false} ExecuteAllAppend(env: Env, a: seq<Node>, b: seq<Node>)
    ensures ExecuteAll(env, a + b) ==
      var first := ExecuteAll(env, a);
      var second := ExecuteAll(first.env, b);
      Run(second.env, first.errors + second.errors)
    decreases |b|
  {
    if |b| == 0 {
      assert a + b == a;
    } else {
      var ab := a + b;
      assert ab[..|ab| - 1] == a + b[..|b| - 1];
      assert ab[|ab| - 1] == b[|b| - 1];
      ExecuteAllAppend(env, a, b[..|b| - 1]);
    }
  }

  /** A statement that fails does not stop the ones after it: its message is
      recorded and execution goes on from the state it left. */
  lemma ErrorsDoNotStopExecution(env: Env, a: seq<Node>, n: Node, b: seq<Node>)
    ensures var first := ExecuteAll(env, a);
      var e := Eval(first.env, Some(n));
      var rest := ExecuteAll(e.env, b);
      ExecuteAll(env, a + [n] + b) ==
        Run(rest.env, first.errors + (if e.result.Err? then [e.result.msg] else []) + rest.errors)
  {
    ExecuteAllAppend(env, a + [n], b);
    assert (a + [n])[..|a + [n]| - 1] == a;
  }

  /** Updates made before a failing statement persist: a statement whose
      expression fails leaves the state exactly as it was. */
  lemma FailedStatementKeepsState(env: Env, n: Node)
    requires IsStatement(n) && n.kind != "cin"
    requires Eval(env, Some(n)).result.Err?
    ensures Eval(env, Some(n)).env == env
  {
    ExprKeepsState(env, n.left.value);
  }

  /** `after` is a later state of the streams than `env`: its output extends
      `env`'s and its input is what is left of `env`'s after lines were read
      from the front. */
  predicate Follows(env: Env, after: Env)
  {
    env.output <= after.output &&
    |after.input| <= |env.input| && after.input == env.input[|env.input| - |after.input|..]
  }

  lemma FollowsTransitive(a: Env, b: Env, c: Env)
    requires Follows(a, b) && Follows(b, c)
    ensures Follows(a, c)
  {
    var m, n := |a.input| - |b.input|, |b.input| - |c.input|;
    assert c.input == b.input[n..] == a.input[m..][n..];
    assert a.input[m..][n..] == a.input[m + n..];
  }

  /** A binop whose left operand succeeds leaves the state its right
      operand leaves. */
  lemma BinopEnv(env: Env, n: Node)
    requires n.kind == "binop" && Eval(env, n.left).result.Ok?
    ensures Eval(env, Some(n)).env == Eval(Eval(env, n.left).env, n.right).env
  {
  }

  /** The binop case of `EvalOnlyAppends`. */
  lemma {:induction false} BinopOnlyAppends(env: Env, n: Node)
    requires n.kind == "binop"
    ensures Follows(env, Eval(env, Some(n)).env)
    decreases Some(n), 0
  {
    EvalOnlyAppends(env, n.left);
    var l := Eval(env, n.left);
    if l.result.Ok? {
      EvalOnlyAppends(l.env, n.right);
      FollowsTransitive(env, l.env, Eval(l.env, n.right).env);
      BinopEnv(env, n);
    }
  }

  /** Evaluation only appends to the output and only consumes input from
      the front. */
  lemma {:induction false} EvalOnlyAppends(env: Env, t: Tree)
    ensures Follows(env, Eval(env, t).env)
    decreases t, 1
  {
    if t.Some? {
      var n := t.value;
      if n.kind == "binop" {
        BinopOnlyAppends(env, n);
      } else if n.kind == "assign" || n.kind == "cout" {
        StatementOnlyAppends(env, n);
      } else {
        LeafOnlyAppends(env, n);
      }
    }
  }

  /** The assignment and cout cases of `EvalOnlyAppends`. */
  lemma {:induction false} StatementOnlyAppends(env: Env, n: Node)
    requires n.kind == "assign" || n.kind == "cout"
    ensures Follows(env, Eval(env, Some(n)).env)
    decreases Some(n), 0
  {
    EvalOnlyAppends(env, n.left);
  }

  /** The remaining cases of `EvalOnlyAppends`: only cin changes the
      streams, by reading one line from the front. */
  lemma LeafOnlyAppends(env: Env, n: Node)
    requires n.kind != "binop" && n.kind != "assign" && n.kind != "cout"
    ensures Follows(env, Eval(env, Some(n)).env)
  {
    if n.kind == "number" || n.kind == "string" || n.kind == "variable" {
      assert Eval(env, Some(n)).env == env;
    } else if n.kind == "cin" {
      var e := Eval(env, Some(n)).env;
      if |env.input| > 0 {
        assert e.input == env.input[1..] && e.output == env.output;
        assert env.input[1..] == env.input[|env.input| - (|env.input| - 1)..];
      } else {
        assert e.input == env.input && e.output == env.output;
      }
    } else {
      assert Eval(env, Some(n)).env == env;
    }
  }

  /** `2 + 3` adds. */
  lemma PlusAddsExample()
    ensures BinopValue("+", "2", "3", 1) == Ok("5")
  {
    TryParseIntDigits("2");
    TryParseIntDigits("3");
    assert DigitsValue("2") == 2 && DigitsValue("3") == 3;
    assert IntToString(5) == "5";
  }

  /** `"1" + "a"` joins the texts. */
  lemma PlusJoinsExample()
    ensures BinopValue("+", "1", "a", 1) == Ok("1a")
  {
    TryParseIntRejects("a");
    assert "1" + "a" == "1a";
  }

  const ExampleAssign := Node("assign", "x", "", "", Some(BinopNode("+", NumberNode("2", 1), NumberNode("3", 1), 1)), None, 1)
  const ExampleCout := Node("cout", "", "", "", Some(VariableNode("x", 2)), None, 2)

  lemma ExampleAssignStores()
    ensures Eval(Env(map[], [], []), Some(ExampleAssign)) == Evaluated(Ok("5"), Env(map["x" := "5"], [], []))
  {
    PlusAddsExample();
    var b := BinopNode("+", NumberNode("2", 1), NumberNode("3", 1), 1);
    assert Eval(Env(map[], [], []), Some(b)) == Evaluated(Ok("5"), Env(map[], [], []));
  }

  /** `x = 2 + 3; cout(x);` prints 5 and reports no error. */
  lemma ExampleProgram()
    ensures ExecuteAll(Env(map[], [], []), [ExampleAssign, ExampleCout]) == Run(Env(map["x" := "5"], [], ["5"]), [])
  {
    var env0 := Env(map[], [], []);
    var env1 := Env(map["x" := "5"], [], []);
    ExampleAssignStores();
    assert [ExampleAssign, ExampleCout][..1] == [ExampleAssign];
    assert [ExampleAssign][..0] == [];
    assert ExecuteAll(env0, [ExampleAssign]) == Run(env1, []);
    assert Eval(env1, Some(ExampleCout)) == Evaluated(Ok("5"), Env(map["x" := "5"], [], ["5"]));
  }

  /** The interpreter object. The input and output streams are fields here:
      `input` holds the lines still to be read from standard input,
      `output` the lines written to standard output and `errors` the lines
      written to the error stream. */
  class Interpreter {
    var variables: map<string, string>
    var input: seq<string>
    var output: seq<string>
    var errors: seq<string>

    constructor (input: seq<string>)
      ensures variables == map[] && this.input == input && output == [] && errors == []
    {
      variables := map[];
      this.input := input;
      output := [];
      errors := [];
    }

    function State(): Env
      reads this
    {
      Env(variables, input, output)
    }

    method Evaluate(t: Tree) returns (r: Result<string>)
      modifies this
      ensures Evaluated(r, State()) == Eval(old(State()), t)
      ensures errors == old(errors)
      decreases t
    {
      if t.None? { return Ok(""); }
      var node := t.value;
      if node.kind == "number" || node.kind == "string" {
        return Ok(node.value);
      }
      if node.kind == "variable" {
        if node.name !in variables {
          return Err("Runtime error: Undefined variable '" + node.name + "'" + LineText(node.line));
        }
        return Ok(variables[node.name]);
      }
      if node.kind == "binop" {
        var left := Evaluate(node.left);
        if left.Err? { return left; }
        var right := Evaluate(node.right);
        if right.Err? { return right; }
        r := BinopValue(node.op, left.value, right.value, node.line);
        return;
      }
      if node.kind == "assign" {
        var val := Evaluate(node.left);
        if val.Err? { return val; }
        variables := variables[node.name := val.value];
        return val;
      }
      if node.kind == "cin" {
        var text := "";
        if |input| > 0 {
          text := input[0];
          input := input[1..];
        }
        variables := variables[node.name := text];
        return Ok(text);
      }
      if node.kind == "cout" {
        var val := Evaluate(node.left);
        if val.Err? { return val; }
        output := output + [val.value];
        return val;
      }
      return Ok("");
    }

    method Execute(nodes: seq<Node>)
      modifies this
      ensures Run(State(), errors) ==
        var run := ExecuteAll(old(State()), nodes);
        Run(run.env, old(errors) + run.errors)
    {
      for i := 0 to |nodes|
        invariant Run(State(), errors) ==
          var run := ExecuteAll(old(State()), nodes[..i]);
          Run(run.env, old(errors) + run.errors)
      {
        assert nodes[..i + 1][..i] == nodes[..i];
        var r := Evaluate(Some(nodes[i]));
        if r.Err? {
          errors := errors + [r.msg];
        }
      }
      assert nodes[..|nodes|] == nodes;
    }
  }
}
