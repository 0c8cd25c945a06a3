/** The three-address instruction shared by the IR generator, the optimizer
    and the code generator (include/ir.h). */
module Instr {

  /** `op` is a mnemonic (MOV, LOAD, STORE, PRINT, READ, ADD, SUB, MUL, DIV) or
      an annotation; operands and result are kept as the text the source uses. */
  datatype Instruction = Instruction(op: string, arg1: string, arg2: string, result: string)

  /** An annotation (comment or diagnostic entry): its op text starts with ';'. */
  predicate IsAnnotation(ins: Instruction) { |ins.op| > 0 && ins.op[0] == ';' }

  /** An annotation entry carrying only its text. */
  function Note(text: string): Instruction { Instruction(text, "", "", "") }

  /** The textual form of one instruction used for display (src/main.cpp): the
      most specific of `op a b -> r`, `op a -> r`, `op a` and `op` whose parts
      are present. */
  function Render(i: Instruction): (line: string)
    ensures |line| >= |i.op| && line[..|i.op|] == i.op
    ensures line == i.op <==> i.arg1 == "" && i.arg2 == ""
  {
    if i.arg2 != "" then i.op + " " + i.arg1 + " " + i.arg2 + " -> " + i.result
    else if i.arg1 != "" && i.result != "" then i.op + " " + i.arg1 + " -> " + i.result
    else if i.arg1 != "" then i.op + " " + i.arg1
    else i.op
  }
}
