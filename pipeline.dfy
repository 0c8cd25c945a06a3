/** The stages composed: what the IR generator emits for `x = 2 + 3;` and
    what the optimizer then makes of it. */
module Pipeline {
  import opened Wrappers
  import opened Decimal
  import opened Ast
  import opened Instr
  import opened IRGen
  import opened Optimizer

  const TwoPlusThree := Node("assign", "x", "", "", Some(BinopNode("+", NumberNode("2", 1), NumberNode("3", 1), 1)), None, 1)

  const Lowered4 := [Instruction("MOV", "2", "", "t1"), Instruction("MOV", "3", "", "t2"),
                     Instruction("ADD", "t1", "t2", "t3"), Instruction("STORE", "t3", "", "x")]

  /** Each literal is first moved into a temporary of its own, and the
      addition works on the two temporaries. */
  lemma TwoPlusThreeLowered()
    ensures ProgramIR([Some(TwoPlusThree)], 1).code == Lowered4
  {
    assert NatToString(1) == "1" && NatToString(2) == "2" && NatToString(3) == "3";
    assert MakeTemp(1) == "t1" && MakeTemp(2) == "t2" && MakeTemp(3) == "t3";
    var b := BinopNode("+", NumberNode("2", 1), NumberNode("3", 1), 1);
    assert ExprIR(Some(NumberNode("2", 1)), 1) == Lowered([Lowered4[0]], "t1", 2);
    assert ExprIR(Some(NumberNode("3", 1)), 2) == Lowered([Lowered4[1]], "t2", 3);
    assert ExprIR(Some(b), 1).code == Lowered4[..3];
    assert [Some(TwoPlusThree)][..0] == [];
  }

  /** Pass 1 folds nothing in that code: the ADD has temporaries, not
      literals, as operands, so the addition reaches the output unfolded. */
  lemma TwoPlusThreeNotFolded()
    ensures !FoldPass(Lowered4, 4).foldedAny
    ensures FoldPass(Lowered4, 4).folded == Lowered4
  {
    assert !IsNumber("t1") && !IsNumber("t2") && !IsNumber("t3");
    assert FoldInstr(Lowered4[0]) == Rewrite(Lowered4[0], false, false, None);
    assert FoldInstr(Lowered4[1]) == Rewrite(Lowered4[1], false, false, None);
    assert FoldInstr(Lowered4[2]) == Rewrite(Lowered4[2], false, false, None);
    assert FoldInstr(Lowered4[3]) == Rewrite(Lowered4[3], false, false, None);
    assert forall i | 0 <= i < 4 :: !FoldInstr(Lowered4[i]).simplified;
    FoldedFlag(Lowered4, 4);
    FoldPassShape(Lowered4, 4);
  }
}
