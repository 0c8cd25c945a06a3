/** Pseudo-assembly generation from the IR (src/codegen.cpp): one group of
    text lines per instruction, with registers R1, R2, ... handed out first
    come, first served through a name-to-register map.

    `Assembly` says what the generator returns; `GenerateAssembly` builds it
    with the source's loop, using an `Allocator` object that holds the map
    and the counter the source's `alloc` lambda captures. */
module CodeGen {
  import opened Decimal
  import opened Instr

  /** A quoted string operand: at least two characters, '"' at both ends. */
  predicate IsQuoted(s: string) { |s| >= 2 && s[0] == '"' && s[|s| - 1] == '"' }

  /** An operand the generator loads as an immediate value. */
  predicate IsImmediate(s: string) { IsNumber(s) || IsQuoted(s) }

  function RegName(k: nat): string { "R" + NatToString(k) }

  /** The map key under which a literal operand gets its register. */
  function ConstKey(lit: string): string { "<const#" + lit + ">" }

  /** The name an arithmetic operand is allocated under: the constant key of
      an immediate, the operand itself otherwise. */
  function OperandKey(x: string): string { if IsImmediate(x) then ConstKey(x) else x }

  const Placeholder := "; <no assembly generated>"

  /** The allocator's state: the bindings made so far and the next number. */
  datatype Regs = Regs(reg: map<string, string>, rc: nat)

  const Initial := Regs(map[], 1)

  datatype Allocated = Allocated(r: string, regs: Regs)

  /** The `alloc` lambda: an existing binding is returned unchanged, a new
      name is bound to R<rc> and the counter is bumped. */
  function AllocReg(g: Regs, name: string): Allocated
  {
    if name in g.reg then Allocated(g.reg[name], g)
    else Allocated(RegName(g.rc), Regs(g.reg[name := RegName(g.rc)], g.rc + 1))
  }

  /** The allocator invariant: the counter starts at 1, every binding is a
      register numbered below the counter, no two names share a register,
      and every number below the counter has been handed out. */
  ghost predicate Valid(g: Regs)
  {
    g.rc >= 1 &&
    (forall n | n in g.reg :: exists k | 1 <= k < g.rc :: g.reg[n] == RegName(k)) &&
    (forall m, n | m in g.reg && n in g.reg && m != n :: g.reg[m] != g.reg[n]) &&
    |g.reg| == g.rc - 1
  }

  /** The lines of one instruction and the allocator state after it. */
  datatype Emitted = Emitted(lines: seq<string>, regs: Regs)

  /** An arithmetic operand: an immediate is loaded into the register of its
      constant key, a name gets its own register. */
  function Operand(g: Regs, x: string): Emitted
  {
    if IsImmediate(x) then
      var a := AllocReg(g, ConstKey(x));
      Emitted(["LOAD " + x + ", " + a.r], a.regs)
    else Emitted([], AllocReg(g, x).regs)
  }

  /** The register Operand placed x in. */
  function OperandReg(g: Regs, x: string): string
  {
    if IsImmediate(x) then AllocReg(g, ConstKey(x)).r else AllocReg(g, x).r
  }

  /** The four arithmetic operations. */
  predicate IsArith(op: string) { op == "ADD" || op == "SUB" || op == "MUL" || op == "DIV" }

  /** The body of the generator's loop for one instruction. */
  function Emit(g: Regs, ins: Instruction): Emitted
  {
    var op := ins.op;
    if IsAnnotation(ins) then Emitted([op], g)
    else if op == "MOV" then EmitMove(g, ins.arg1, ins.result)
    else if op == "LOAD" then
      var d := AllocReg(g, ins.result);
      Emitted(["LOAD " + ins.arg1 + ", " + d.r], d.regs)
    else if op == "STORE" then
      var s := AllocReg(g, ins.arg1);
      Emitted(["STORE " + s.r + ", " + ins.result], s.regs)
    else if op == "PRINT" then
      if IsImmediate(ins.arg1) then Emitted(["PRINT " + ins.arg1], g)
      else
        var s := AllocReg(g, ins.arg1);
        Emitted(["PRINT " + s.r], s.regs)
    else if op == "READ" then
      var d := AllocReg(g, ins.result);
      Emitted(["READ -> " + d.r, "STORE " + d.r + ", " + ins.result], d.regs)
    else if IsArith(op) then EmitBinary(g, ins)
    else
      Emitted(["; UNHANDLED IR: " + op + " " + ins.arg1 + " " + ins.arg2 + " -> " + ins.result], g)
  }

  /** The MOV branch of the loop body. */
  function EmitMove(g: Regs, a: string, res: string): Emitted
  {
    if IsImmediate(a) then
      var d := AllocReg(g, res);
      Emitted(["LOAD " + a + ", " + d.r], d.regs)
    else
      var s := AllocReg(g, a);
      var d := AllocReg(s.regs, res);
      Emitted(["MOV " + s.r + ", " + d.r], d.regs)
  }

  /** The arithmetic branch of the loop body. */
  function EmitBinary(g: Regs, ins: Instruction): Emitted
  {
    var ea := Operand(g, ins.arg1);
    var eb := Operand(ea.regs, ins.arg2);
    var d := AllocReg(eb.regs, ins.result);
    Emitted(ea.lines + eb.lines + [ins.op + " " + OperandReg(g, ins.arg1) + ", " + OperandReg(ea.regs, ins.arg2) + ", " + d.r],
            d.regs)
  }

  /** The generator's loop over the first n instructions. */
  function Run(ir: seq<Instruction>, n: nat): Emitted
    requires n <= |ir|
  {
    if n == 0 then Emitted([], Initial)
    else
      var e := Run(ir, n - 1);
      var s := Emit(e.regs, ir[n - 1]);
      Emitted(e.lines + s.lines, s.regs)
  }

  /** CodeGenerator::generateAssembly. */
  function Assembly(ir: seq<Instruction>): seq<string>
  {
    var out := Run(ir, |ir|).lines;
    if out == [] then [Placeholder] else out
  }

  // ---------------------------------------------------------------------
  // The register allocator

  lemma RegNameInjective(j: nat, k: nat)
    ensures RegName(j) == RegName(k) ==> j == k
  {
    if RegName(j) == RegName(k) {
      assert NatToString(j) == RegName(j)[1..];
      NatToStringInjective(j, k);
    }
  }

  /** Allocating a name twice gives the same register, and the second call
      changes nothing. */
  lemma AllocStable(g: Regs, name: string)
    ensures var a := AllocReg(g, name);
      name in a.regs.reg && a.regs.reg[name] == a.r && AllocReg(a.regs, name) == Allocated(a.r, a.regs)
  {
  }

  /** Allocation only adds bindings: every earlier binding is kept, and the
      counter never decreases. */
  lemma AllocGrows(g: Regs, name: string)
    ensures var a := AllocReg(g, name);
      (forall n | n in g.reg :: n in a.regs.reg && a.regs.reg[n] == g.reg[n]) &&
      a.regs.rc >= g.rc
  {
  }

  /** A name seen for the first time receives R<rc>, a register no other name
      holds, and the counter goes up by one; the invariant is kept. */
  lemma AllocFresh(g: Regs, name: string)
    requires Valid(g)
    ensures var a := AllocReg(g, name);
      Valid(a.regs) &&
      (name !in g.reg ==> a.r == RegName(g.rc) && a.r !in g.reg.Values && a.regs.rc == g.rc + 1)
  {
    if name !in g.reg {
      NextRegUnused(g);
      NewBindingValid(g, name);
    }
  }

  /** The register numbered by the counter is held by no name yet. */
  lemma NextRegUnused(g: Regs)
    requires Valid(g)
    ensures RegName(g.rc) !in g.reg.Values
  {
    forall n | n in g.reg ensures g.reg[n] != RegName(g.rc) {
      var k :| 1 <= k < g.rc && g.reg[n] == RegName(k);
      RegNameInjective(k, g.rc);
    }
  }

  /** Binding a new name to the counter's register keeps the invariant. */
  lemma NewBindingValid(g: Regs, name: string)
    requires Valid(g) && name !in g.reg && RegName(g.rc) !in g.reg.Values
    ensures Valid(Regs(g.reg[name := RegName(g.rc)], g.rc + 1))
  {
    var r := Regs(g.reg[name := RegName(g.rc)], g.rc + 1);
    forall n | n in r.reg ensures exists k | 1 <= k < r.rc :: r.reg[n] == RegName(k) {
      if n == name {
        assert r.reg[n] == RegName(g.rc);
      } else {
        var k :| 1 <= k < g.rc && g.reg[n] == RegName(k);
        assert r.reg[n] == RegName(k);
      }
    }
    forall m, n | m in r.reg && n in r.reg && m != n ensures r.reg[m] != r.reg[n] {
      if m != name && n != name {
        assert r.reg[m] == g.reg[m] && r.reg[n] == g.reg[n];
      } else if m == name {
        assert g.reg[n] in g.reg.Values;
      } else {
        assert g.reg[m] in g.reg.Values;
      }
    }
    assert r.reg.Keys == g.reg.Keys + {name};
  }

  /** The initial state satisfies the invariant. */
  lemma InitialValid()
    ensures Valid(Initial) && Initial.rc == 1 && Initial.reg == map[]
  {
  }

  // ---------------------------------------------------------------------
  // One instruction

  /** An annotation is emitted verbatim as one line and allocates nothing;
      this is also how an "; ERROR" entry reaches the output. */
  lemma EmitAnnotation(g: Regs, ins: Instruction)
    requires IsAnnotation(ins)
    ensures Emit(g, ins) == Emitted([ins.op], g)
  {
  }

  /** MOV of an immediate loads it into the destination's register; any other
      MOV copies between the registers of source and destination. */
  lemma EmitMov(g: Regs, a: string, res: string)
    ensures var e := Emit(g, Instruction("MOV", a, "", res));
      |e.lines| == 1 &&
      (IsImmediate(a) ==> e.lines[0] == "LOAD " + a + ", " + AllocReg(g, res).r) &&
      (!IsImmediate(a) ==>
        var s := AllocReg(g, a);
        e.lines[0] == "MOV " + s.r + ", " + AllocReg(s.regs, res).r &&
        a in e.regs.reg && res in e.regs.reg)
  {
  }

  /** LOAD puts its operand, as written, into the register of the
      destination, which it allocates if new; nothing else is allocated. */
  lemma EmitLoad(g: Regs, a: string, res: string)
    ensures var e, d := Emit(g, Instruction("LOAD", a, "", res)), AllocReg(g, res);
      e.lines == ["LOAD " + a + ", " + d.r] && res in e.regs.reg && e.regs.reg[res] == d.r &&
      e.regs.reg.Keys == g.reg.Keys + {res}
  {
  }

  /** STORE writes the source's register to the raw variable name; PRINT of a
      literal prints it verbatim, otherwise the operand's register. */
  lemma EmitStorePrint(g: Regs, a: string, res: string)
    ensures Emit(g, Instruction("STORE", a, "", res)).lines == ["STORE " + AllocReg(g, a).r + ", " + res]
    ensures IsImmediate(a) ==> Emit(g, Instruction("PRINT", a, "", "")) == Emitted(["PRINT " + a], g)
    ensures !IsImmediate(a) ==> Emit(g, Instruction("PRINT", a, "", "")).lines == ["PRINT " + AllocReg(g, a).r]
  {
  }

  /** READ gives exactly two lines: a read into the variable's register and
      a store of that register back to the variable. */
  lemma EmitRead(g: Regs, res: string)
    ensures var e := Emit(g, Instruction("READ", "", "", res));
      var r := AllocReg(g, res).r;
      e.lines == ["READ -> " + r, "STORE " + r + ", " + res] && res in e.regs.reg && e.regs.reg[res] == r
  {
  }

  /** Arithmetic emits one LOAD per immediate operand, into the register its
      constant key is bound to, then the operation on the registers the
      operands are bound to into the destination's register. */
  lemma EmitArith(g: Regs, ins: Instruction)
    requires IsArith(ins.op)
    ensures var e, ka, kb := Emit(g, ins), OperandKey(ins.arg1), OperandKey(ins.arg2);
      |e.lines| == 1 + (if IsImmediate(ins.arg1) then 1 else 0) + (if IsImmediate(ins.arg2) then 1 else 0) &&
      ka in e.regs.reg && kb in e.regs.reg && ins.result in e.regs.reg &&
      e.lines[|e.lines| - 1] == ins.op + " " + e.regs.reg[ka] + ", " + e.regs.reg[kb] + ", " + e.regs.reg[ins.result] &&
      (IsImmediate(ins.arg1) ==> e.lines[0] == "LOAD " + ins.arg1 + ", " + e.regs.reg[ka]) &&
      (IsImmediate(ins.arg2) ==> e.lines[|e.lines| - 2] == "LOAD " + ins.arg2 + ", " + e.regs.reg[kb])
  {
    var ka, kb := OperandKey(ins.arg1), OperandKey(ins.arg2);
    var ea := Operand(g, ins.arg1);
    var eb := Operand(ea.regs, ins.arg2);
    var d := AllocReg(eb.regs, ins.result);
    AllocStable(g, ka);
    AllocGrows(ea.regs, kb);
    AllocStable(ea.regs, kb);
    AllocGrows(eb.regs, ins.result);
    AllocStable(eb.regs, ins.result);
    assert Emit(g, ins) == Emitted(ea.lines + eb.lines + [ins.op + " " + OperandReg(g, ins.arg1) + ", " + OperandReg(ea.regs, ins.arg2) + ", " + d.r], d.regs);
  }

  /** Any other instruction is reported on one comment line and allocates
      nothing. */
  lemma EmitUnhandled(g: Regs, ins: Instruction)
    requires !IsAnnotation(ins)
    requires ins.op !in {"MOV", "LOAD", "STORE", "PRINT", "READ", "ADD", "SUB", "MUL", "DIV"}
    ensures Emit(g, ins) == Emitted(["; UNHANDLED IR: " + ins.op + " " + ins.arg1 + " " + ins.arg2 + " -> " + ins.result], g)
  {
  }

  /** h is a valid allocator state that keeps every binding of g. */
  ghost predicate Extends(g: Regs, h: Regs)
  {
    Valid(h) && forall n | n in g.reg :: n in h.reg && h.reg[n] == g.reg[n]
  }

  lemma ExtendsTransitive(f: Regs, g: Regs, h: Regs)
    requires Extends(f, g) && Extends(g, h)
    ensures Extends(f, h)
  {
  }

  /** One allocation keeps the invariant and every earlier binding. */
  lemma AllocKeeps(g: Regs, name: string)
    requires Valid(g)
    ensures Extends(g, AllocReg(g, name).regs)
  {
    AllocFresh(g, name);
    AllocGrows(g, name);
  }

  /** Every instruction produces at least one and at most three lines, and
      keeps the allocator invariant and every earlier binding. */
  lemma EmitKeeps(g: Regs, ins: Instruction)
    requires Valid(g)
    ensures var e := Emit(g, ins);
      1 <= |e.lines| <= 3 && Valid(e.regs) &&
      (forall n | n in g.reg :: n in e.regs.reg && e.regs.reg[n] == g.reg[n])
  {
    var op := ins.op;
    var e := Emit(g, ins);
    if IsAnnotation(ins) {
      assert e == Emitted([op], g);
    } else if op == "MOV" {
      assert e == EmitMove(g, ins.arg1, ins.result);
      MovKeeps(g, ins.arg1, ins.result);
    } else if op == "LOAD" || op == "READ" {
      assert e.regs == AllocReg(g, ins.result).regs && 1 <= |e.lines| <= 2;
      AllocKeeps(g, ins.result);
    } else if op == "STORE" || (op == "PRINT" && !IsImmediate(ins.arg1)) {
      assert e.regs == AllocReg(g, ins.arg1).regs && |e.lines| == 1;
      AllocKeeps(g, ins.arg1);
    } else if IsArith(op) {
      assert e == EmitBinary(g, ins);
      ArithKeeps(g, ins);
    } else {
      assert e.regs == g && |e.lines| == 1;
    }
  }

  /** The MOV case of `EmitKeeps`. */
  lemma MovKeeps(g: Regs, a: string, res: string)
    requires Valid(g)
    ensures var e := EmitMove(g, a, res);
      |e.lines| == 1 && Extends(g, e.regs)
  {
    if IsImmediate(a) {
      AllocKeeps(g, res);
    } else {
      var s := AllocReg(g, a);
      AllocKeeps(g, a);
      AllocKeeps(s.regs, res);
      ExtendsTransitive(g, s.regs, AllocReg(s.regs, res).regs);
    }
  }

  /** The arithmetic case of `EmitKeeps`. */
  lemma ArithKeeps(g: Regs, ins: Instruction)
    requires Valid(g)
    ensures var e := EmitBinary(g, ins);
      1 <= |e.lines| <= 3 && Extends(g, e.regs)
  {
    var ea := Operand(g, ins.arg1);
    var eb := Operand(ea.regs, ins.arg2);
    OperandKeeps(g, ins.arg1);
    OperandKeeps(ea.regs, ins.arg2);
    AllocKeeps(eb.regs, ins.result);
    ExtendsTransitive(g, ea.regs, eb.regs);
    ExtendsTransitive(g, eb.regs, AllocReg(eb.regs, ins.result).regs);
  }

  /** Loading an operand keeps the invariant and every earlier binding. */
  lemma OperandKeeps(g: Regs, x: string)
    requires Valid(g)
    ensures var e := Operand(g, x);
      |e.lines| <= 1 && Extends(g, e.regs)
  {
    var key := if IsImmediate(x) then ConstKey(x) else x;
    AllocKeeps(g, key);
  }

  // ---------------------------------------------------------------------
  // The whole program

  /** Over the whole run the allocator invariant holds, a name keeps the
      register it was first given, and each instruction adds at least one
      line. */
  lemma {:induction false} RunKeeps(ir: seq<Instruction>, m: nat, n: nat)
    requires m <= n <= |ir|
    ensures Valid(Run(ir, n).regs)
    ensures |Run(ir, n).lines| >= |Run(ir, m).lines| + (n - m)
    ensures forall x | x in Run(ir, m).regs.reg :: x in Run(ir, n).regs.reg && Run(ir, n).regs.reg[x] == Run(ir, m).regs.reg[x]
  {
    if n == 0 {
      InitialValid();
    } else {
      RunKeeps(ir, if m < n then m else n - 1, n - 1);
      EmitKeeps(Run(ir, n - 1).regs, ir[n - 1]);
    }
  }

  /** The output is never empty: it is the placeholder line for an empty
      input, and otherwise the lines of the instructions in order, at least
      one per instruction. */
  lemma AssemblyShape(ir: seq<Instruction>)
    ensures |Assembly(ir)| >= 1
    ensures ir == [] ==> Assembly(ir) == [Placeholder]
    ensures ir != [] ==> Assembly(ir) == Run(ir, |ir|).lines && |Assembly(ir)| >= |ir|
  {
    RunKeeps(ir, 0, |ir|);
  }

  /** The placeholder line does not identify an empty input: an IR holding
      just an annotation with the placeholder's text gives the same output. */
  lemma PlaceholderAmbiguous()
    ensures Assembly([Note(Placeholder)]) == Assembly([])
  {
    assert Run([Note(Placeholder)], 1).lines == [Placeholder];
  }

  /** `x = 2 + y;` as lowered by the IR generator. */
  const ExampleIR := [Instruction("MOV", "2", "", "t1"), Instruction("LOAD", "y", "", "t2"),
                      Instruction("ADD", "t1", "t2", "t3"), Instruction("STORE", "t3", "", "x")]

  lemma ExampleLoads()
    ensures Run(ExampleIR, 2) == Emitted(["LOAD 2, R1", "LOAD y, R2"], Regs(map["t1" := "R1", "t2" := "R2"], 3))
  {
    assert IsImmediate("2");
    assert RegName(1) == "R1" && RegName(2) == "R2";
    var g1 := Regs(map["t1" := "R1"], 2);
    assert AllocReg(Initial, "t1") == Allocated("R1", g1);
    assert "LOAD " + "2" + ", " + "R1" == "LOAD 2, R1";
    assert Run(ExampleIR, 1) == Emitted(["LOAD 2, R1"], g1);
    assert AllocReg(g1, "t2") == Allocated("R2", Regs(map["t1" := "R1", "t2" := "R2"], 3));
    assert "LOAD " + "y" + ", " + "R2" == "LOAD y, R2";
  }

  lemma ExampleAddLine()
    ensures Emit(Regs(map["t1" := "R1", "t2" := "R2"], 3), Instruction("ADD", "t1", "t2", "t3")) ==
            Emitted(["ADD R1, R2, R3"], Regs(map["t1" := "R1", "t2" := "R2", "t3" := "R3"], 4))
  {
    var g2 := Regs(map["t1" := "R1", "t2" := "R2"], 3);
    assert !IsImmediate("t1") && !IsImmediate("t2");
    assert RegName(3) == "R3";
    assert Operand(g2, "t1") == Emitted([], g2) && OperandReg(g2, "t1") == "R1";
    assert Operand(g2, "t2") == Emitted([], g2) && OperandReg(g2, "t2") == "R2";
    assert AllocReg(g2, "t3") == Allocated("R3", Regs(map["t1" := "R1", "t2" := "R2", "t3" := "R3"], 4));
    assert "ADD" + " " + "R1" + ", " + "R2" + ", " + "R3" == "ADD R1, R2, R3";
  }

  lemma ExampleAdd()
    ensures Run(ExampleIR, 3) == Emitted(["LOAD 2, R1", "LOAD y, R2", "ADD R1, R2, R3"],
                                         Regs(map["t1" := "R1", "t2" := "R2", "t3" := "R3"], 4))
  {
    ExampleLoads();
    ExampleAddLine();
    assert ExampleIR[2] == Instruction("ADD", "t1", "t2", "t3");
  }

  lemma ExampleStoreLine()
    ensures Emit(Regs(map["t1" := "R1", "t2" := "R2", "t3" := "R3"], 4), Instruction("STORE", "t3", "", "x")).lines ==
            ["STORE R3, x"]
  {
    var g3 := Regs(map["t1" := "R1", "t2" := "R2", "t3" := "R3"], 4);
    assert AllocReg(g3, "t3") == Allocated("R3", g3);
    assert "STORE " + "R3" + ", " + "x" == "STORE R3, x";
  }

  /** For `x = 2 + y;` the registers are given out in order of first use and
      the ADD works on them. */
  lemma AssemblyExample()
    ensures Assembly(ExampleIR) == ["LOAD 2, R1", "LOAD y, R2", "ADD R1, R2, R3", "STORE R3, x"]
  {
    ExampleAdd();
    ExampleStoreLine();
    assert ExampleIR[3] == Instruction("STORE", "t3", "", "x");
    assert Run(ExampleIR, 4).lines == Run(ExampleIR, 3).lines + ["STORE R3, x"];
  }

  // ---------------------------------------------------------------------
  // The generator as the source runs it

  /** The state the `alloc` lambda captures: the name-to-register map and the
      counter. */
  class Allocator {
    var reg: map<string, string>
    var rc: nat

    constructor ()
      ensures reg == map[] && rc == 1
    {
      reg := map[];
      rc := 1;
    }

    function State(): Regs
      reads this
    {
      Regs(reg, rc)
    }

    method Alloc(name: string) returns (r: string)
      modifies this
      ensures Allocated(r, State()) == AllocReg(old(State()), name)
    {
      if name in reg {
        return reg[name];
      }
      r := "R" + NatToString(rc);
      rc := rc + 1;
      reg := reg[name := r];
    }
  }

  /** Getting one arithmetic operand into a register, loading it first when
      it is an immediate. */
  method LoadOperand(a: Allocator, x: string) returns (r: string, lines: seq<string>)
    modifies a
    ensures Emitted(lines, a.State()) == Operand(old(a.State()), x)
    ensures r == OperandReg(old(a.State()), x)
  {
    if IsNumber(x) || IsQuoted(x) {
      r := a.Alloc("<const#" + x + ">");
      lines := ["LOAD " + x + ", " + r];
    } else {
      r := a.Alloc(x);
      lines := [];
    }
  }

  /** The arithmetic case of the loop body: both operands, then the
      destination. */
  method EmitArithmetic(a: Allocator, ins: Instruction) returns (lines: seq<string>)
    requires IsArith(ins.op)
    modifies a
    ensures Emitted(lines, a.State()) == EmitBinary(old(a.State()), ins)
  {
    var ra, la := LoadOperand(a, ins.arg1);
    var rb, lb := LoadOperand(a, ins.arg2);
    var rd := a.Alloc(ins.result);
    var opcode := if ins.op == "ADD" then "ADD" else if ins.op == "SUB" then "SUB" else if ins.op == "MUL" then "MUL" else "DIV";
    lines := la + lb + [opcode + " " + ra + ", " + rb + ", " + rd];
  }

  /** The loop body for one instruction. */
  method EmitInstruction(a: Allocator, ins: Instruction) returns (lines: seq<string>)
    modifies a
    ensures Emitted(lines, a.State()) == Emit(old(a.State()), ins)
  {
    if ins.op != "" && ins.op[0] == ';' {
      return [ins.op];
    }
    var op := ins.op;
    if op == "MOV" {
      if IsNumber(ins.arg1) || IsQuoted(ins.arg1) {
        var dest := a.Alloc(ins.result);
        return ["LOAD " + ins.arg1 + ", " + dest];
      } else {
        var src := a.Alloc(ins.arg1);
        var dest := a.Alloc(ins.result);
        return ["MOV " + src + ", " + dest];
      }
    }
    if op == "LOAD" {
      var dst := a.Alloc(ins.result);
      return ["LOAD " + ins.arg1 + ", " + dst];
    }
    if op == "STORE" {
      var src := a.Alloc(ins.arg1);
      return ["STORE " + src + ", " + ins.result];
    }
    if op == "PRINT" {
      if IsNumber(ins.arg1) || IsQuoted(ins.arg1) {
        return ["PRINT " + ins.arg1];
      } else {
        var r := a.Alloc(ins.arg1);
        return ["PRINT " + r];
      }
    }
    if op == "READ" {
      var dst := a.Alloc(ins.result);
      return ["READ -> " + dst, "STORE " + dst + ", " + ins.result];
    }
    if op == "ADD" || op == "SUB" || op == "MUL" || op == "DIV" {
      lines := EmitArithmetic(a, ins);
      return;
    }
    return ["; UNHANDLED IR: " + op + " " + ins.arg1 + " " + ins.arg2 + " -> " + ins.result];
  }

  method GenerateAssembly(ir: seq<Instruction>) returns (out: seq<string>)
    ensures out == Assembly(ir)
  {
    out := [];
    var a := new Allocator();
    for i := 0 to |ir|
      invariant Emitted(out, a.State()) == Run(ir, i)
    {
      var lines := EmitInstruction(a, ir[i]);
      out := out + lines;
    }
    if out == [] {
      out := out + [Placeholder];
    }
  }
}
