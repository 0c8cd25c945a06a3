/** The semantic analyser (src/semantic.cpp): declare-before-use.

    An assignment or a `cin` declares its variable; a variable read must
    already be declared. The analyser keeps the set of declared names in a
    field that its recursive walk updates in place; the function `CheckNode`
    is that walk on values. */
module Semantic {
  import opened Wrappers
  import opened Decimal
  import opened Ast

  /** The declared names after a walk and the error that stopped it, if
      any. Names declared before the error stay declared. */
  datatype Checked = Checked(declared: set<string>, error: Option<string>)

  const UndeclaredPrefix := "Use of undeclared variable: "

  function UndeclaredMessage(n: Node): string
  {
    UndeclaredPrefix + n.name + " at line " + IntToString(n.line)
  }

  /** analyzeNode on a possibly null node, from the declared set `declared`. */
  function CheckNode(declared: set<string>, t: Tree): (c: Checked)
    ensures declared <= c.declared
    decreases t
  {
    if t.None? then Checked(declared, None)
    else
      var n := t.value;
      if n.kind == "assign" then CheckNode(declared + {n.name}, n.left)
      else if n.kind == "variable" then
        if n.name in declared then Checked(declared, None)
        else Checked(declared, Some(UndeclaredMessage(n)))
      else if n.kind == "binop" then
        var l := CheckNode(declared, n.left);
        if l.error.Some? then l else CheckNode(l.declared, n.right)
      else if n.kind == "cout" || n.kind == "cin" then
        var d := if n.kind == "cin" && n.name != "" then declared + {n.name} else declared;
        CheckNode(d, n.left)
      else Checked(declared, None)
  }

  /** analyze: the nodes in order, stopping at the first error. */
  function CheckAll(declared: set<string>, nodes: seq<Node>): (c: Checked)
    ensures declared <= c.declared
    decreases |nodes|
  {
    if |nodes| == 0 then Checked(declared, None)
    else
      var first := CheckNode(declared, Some(nodes[0]));
      if first.error.Some? then first else CheckAll(first.declared, nodes[1..])
  }

  /** The variable nodes of a tree. */
  function VarNodes(t: Tree): set<Node>
    decreases t
  {
    if t.None? then {}
    else if t.value.kind == "variable" then {t.value}
    else VarNodes(t.value.left) + VarNodes(t.value.right)
  }

  /** Every variable an expression reads is declared. */
  predicate AllDeclared(declared: set<string>, t: Tree)
  {
    forall m | m in VarNodes(t) :: m.name in declared
  }

  /** Checking an expression declares nothing, and fails exactly when it
      reads an undeclared variable, naming one such variable and its line. */
  lemma {:induction false} ExprCheck(declared: set<string>, n: Node)
    requires IsExpr(n)
    ensures CheckNode(declared, Some(n)).declared == declared
    ensures CheckNode(declared, Some(n)).error.None? <==> AllDeclared(declared, Some(n))
    ensures CheckNode(declared, Some(n)).error.Some? ==>
      exists m :: m in VarNodes(Some(n)) && m.name !in declared &&
        CheckNode(declared, Some(n)).error == Some(UndeclaredMessage(m))
    decreases n
  {
    if n.kind == "binop" {
      ExprCheck(declared, n.left.value);
      ExprCheck(declared, n.right.value);
      var l := CheckNode(declared, n.left);
      if l.error.Some? {
        var m :| m in VarNodes(n.left) && m.name !in declared && l.error == Some(UndeclaredMessage(m));
        assert m in VarNodes(Some(n));
      } else {
        var r := CheckNode(declared, n.right);
        if r.error.Some? {
          var m :| m in VarNodes(n.right) && m.name !in declared && r.error == Some(UndeclaredMessage(m));
          assert m in VarNodes(Some(n));
        }
      }
    } else if n.kind == "variable" {
      assert VarNodes(Some(n)) == {n};
    } else {
      assert VarNodes(Some(n)) == {};
    }
  }

  /** An assignment declares its target BEFORE its value is checked, so the
      value may read the target itself. */
  lemma AssignCheck(declared: set<string>, n: Node)
    requires IsStatement(n) && n.kind == "assign"
    ensures CheckNode(declared, Some(n)).declared == declared + {n.name}
    ensures CheckNode(declared, Some(n)).error.None? <==> AllDeclared(declared + {n.name}, n.left)
  {
    ExprCheck(declared + {n.name}, n.left.value);
  }

  /** `x = x;` is accepted whatever was declared before. */
  lemma SelfAssignmentAccepted(declared: set<string>, x: string, line: int)
    ensures CheckNode(declared, Some(Node("assign", x, "", "", Some(VariableNode(x, line)), None, line))).error.None?
  {
    var n := Node("assign", x, "", "", Some(VariableNode(x, line)), None, line);
    AssignCheck(declared, n);
    assert VarNodes(n.left) == {VariableNode(x, line)};
  }

  /** cin declares its variable (when it has a name) and reports nothing. */
  lemma CinCheck(declared: set<string>, n: Node)
    requires n.kind == "cin" && n.left.None?
    ensures CheckNode(declared, Some(n)) ==
      Checked(if n.name != "" then declared + {n.name} else declared, None)
  {
  }

  /** cout declares nothing and checks its expression. */
  lemma CoutCheck(declared: set<string>, n: Node)
    requires IsStatement(n) && n.kind == "cout"
    ensures CheckNode(declared, Some(n)).declared == declared
    ensures CheckNode(declared, Some(n)).error.None? <==> AllDeclared(declared, n.left)
  {
    ExprCheck(declared, n.left.value);
  }

  /** Number and string literals are accepted and change nothing. */
  lemma LiteralsAccepted(declared: set<string>, n: Node)
    requires n.kind == "number" || n.kind == "string"
    ensures CheckNode(declared, Some(n)) == Checked(declared, None)
  {
  }

  /** A binop checks its left operand first: an error there is the binop's
      error and the right operand is not looked at. */
  lemma BinopLeftFirst(declared: set<string>, n: Node)
    requires n.kind == "binop"
    ensures CheckNode(declared, n.left).error.Some? ==> CheckNode(declared, Some(n)) == CheckNode(declared, n.left)
    ensures CheckNode(declared, n.left).error.None? ==>
      CheckNode(declared, Some(n)) == CheckNode(CheckNode(declared, n.left).declared, n.right)
  {
  }

  /** Checking a program in two parts: the second part is checked from what
      the first declared, and only if the first had no error. */
  lemma {:induction false} CheckAllAppend(declared: set<string>, a: seq<Node>, b: seq<Node>)
    ensures CheckAll(declared, a + b) ==
      var first := CheckAll(declared, a);
      if first.error.Some? then first else CheckAll(first.declared, b)
    decreases |a|
  {
    if |a| > 0 {
      assert (a + b)[0] == a[0];
      assert (a + b)[1..] == a[1..] + b;
      var c := CheckNode(declared, Some(a[0]));
      if c.error.None? {
        CheckAllAppend(c.declared, a[1..], b);
      }
    } else {
      assert a + b == b;
    }
  }

  /** The first error stops the analysis: nothing after the failing
      statement is checked. */
  lemma FirstErrorStops(declared: set<string>, nodes: seq<Node>, i: nat)
    requires i < |nodes|
    requires CheckAll(declared, nodes[..i]).error.None?
    requires CheckNode(CheckAll(declared, nodes[..i]).declared, Some(nodes[i])).error.Some?
    ensures CheckAll(declared, nodes) == CheckNode(CheckAll(declared, nodes[..i]).declared, Some(nodes[i]))
  {
    assert nodes == nodes[..i] + nodes[i..];
    CheckAllAppend(declared, nodes[..i], nodes[i..]);
  }

  /** A use before the assignment that would declare it is rejected. */
  lemma UseBeforeAssignmentRejected()
    ensures CheckAll({}, [Node("cout", "", "", "", Some(VariableNode("x", 1)), None, 1),
                          Node("assign", "x", "", "", Some(NumberNode("1", 2)), None, 2)]).error
            == Some(UndeclaredPrefix + "x at line 1")
  {
    var x := VariableNode("x", 1);
    var out := Node("cout", "", "", "", Some(x), None, 1);
    assert CheckNode({}, Some(x)) == Checked({}, Some(UndeclaredMessage(x)));
    assert CheckNode({}, Some(out)).error == Some(UndeclaredMessage(x));
    var prog := [out, Node("assign", "x", "", "", Some(NumberNode("1", 2)), None, 2)];
    assert prog[0] == out;
    assert CheckAll({}, prog).error == Some(UndeclaredMessage(x));
    assert IntToString(1) == "1";
    assert "x" + " at line " + "1" == "x at line 1";
    assert UndeclaredMessage(x) == UndeclaredPrefix + ("x" + " at line " + "1");
  }

  /** The analyser object and its set of declared names. */
  class SemanticAnalyzer {
    var declared: set<string>

    constructor ()
      ensures declared == {}
    {
      declared := {};
    }

    method AnalyzeNode(t: Tree) returns (err: Option<string>)
      modifies this
      ensures Checked(declared, err) == CheckNode(old(declared), t)
      decreases t
    {
      if t.None? { return None; }
      var node := t.value;
      if node.kind == "assign" {
        declared := declared + {node.name};
        err := AnalyzeNode(node.left);
        return;
      }
      if node.kind == "variable" {
        if node.name !in declared {
          return Some(UndeclaredMessage(node));
        }
        return None;
      }
      if node.kind == "binop" {
        err := AnalyzeNode(node.left);
        if err.Some? { return; }
        err := AnalyzeNode(node.right);
        return;
      }
      if node.kind == "cout" || node.kind == "cin" {
        if node.kind == "cin" && node.name != "" {
          declared := declared + {node.name};
        }
        err := AnalyzeNode(node.left);
        return;
      }
      return None;
    }

    method Analyze(nodes: seq<Node>) returns (err: Option<string>)
      modifies this
      ensures Checked(declared, err) == CheckAll(old(declared), nodes)
    {
      for i := 0 to |nodes|
        invariant CheckAll(old(declared), nodes) == CheckAll(declared, nodes[i..])
      {
        err := AnalyzeNode(Some(nodes[i]));
        if err.Some? {
          return;
        }
      }
      return None;
    }
  }
}
