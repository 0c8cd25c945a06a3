/** Local optimization of the IR (src/optimizer.cpp): constant folding and
    algebraic identities (pass 1), dead-temporary elimination (pass 2), and a
    block of summary annotations prepended to the result.

    `Optimized` says what the optimizer returns; the method `Optimize` builds
    it with the source's loops, flags and vectors. */
module Optimizer {
  import opened Wrappers
  import opened Decimal
  import opened Instr

  predicate IsArith(op: string) { op == "ADD" || op == "SUB" || op == "MUL" || op == "DIV" }

  /** The optimizer's test for "is a temporary": the first character is 't'
      (so a variable such as `total` passes too). */
  predicate StartsWithT(s: string) { |s| > 0 && s[0] == 't' }

  /** A numeric literal whose value is `v`. */
  predicate IsLiteral(s: string, v: int) { IsNumber(s) && ToLong(s) == v }

  /** The operator symbol shown in a folded example. */
  function Symbol(op: string): string
  {
    if op == "ADD" then "+" else if op == "SUB" then "-" else if op == "MUL" then "*" else "/"
  }

  /** The folded value; DIV truncates toward zero as C does. */
  function Arith(op: string, a: int, b: int): int
    requires IsArith(op) && (op == "DIV" ==> b != 0)
  {
    if op == "ADD" then a + b
    else if op == "SUB" then a - b
    else if op == "MUL" then a * b
    else TruncDiv(a, b)
  }

  /** Arithmetic on two numeric literals that pass 1 folds (every such
      instruction except a division by 0). */
  predicate FoldableLiterals(ins: Instruction)
  {
    IsArith(ins.op) && IsNumber(ins.arg1) && IsNumber(ins.arg2) &&
    !(ins.op == "DIV" && ToLong(ins.arg2) == 0)
  }

  /** One of the algebraic identities x+0, 0+x, x*0, 0*x, x*1, 1*x, x-0, x/1
      matches the instruction. */
  predicate IdentityMatches(ins: Instruction)
  {
    var op, a, b := ins.op, ins.arg1, ins.arg2;
    (op == "ADD" && (IsLiteral(b, 0) || IsLiteral(a, 0))) ||
    (op == "MUL" && (IsLiteral(a, 0) || IsLiteral(b, 0) || IsLiteral(b, 1) || IsLiteral(a, 1))) ||
    (op == "SUB" && IsLiteral(b, 0)) ||
    (op == "DIV" && IsLiteral(b, 1))
  }

  /** What pass 1 makes of one instruction: the instruction it pushes, and
      whether it raised the "folded" flag, the divide-by-zero flag, and which
      folded example (if any) it recorded. */
  datatype Rewrite = Rewrite(ins: Instruction, simplified: bool, divByZero: bool, example: Option<string>)

  function Move(src: string, res: string): Rewrite
  {
    Rewrite(Instruction("MOV", src, "", res), true, false, None)
  }

  /** Pass 1 on one instruction: annotations are copied; arithmetic on two
      numeric literals is folded (except a division by 0, which is kept and
      flagged); otherwise the identities x+0, 0+x, x*0, 0*x, x*1, 1*x, x-0,
      x/1 are tried in the source's order. */
  function FoldInstr(ins: Instruction): (r: Rewrite)
    ensures r.ins.result == ins.result
    ensures IsAnnotation(ins) ==> r == Rewrite(ins, false, false, None)
    ensures r.simplified ==> r.ins.op == "MOV" && r.ins.arg2 == "" && !r.divByZero
    ensures r.divByZero ==> r.ins == ins && ins.op == "DIV" && !r.simplified
    ensures !r.simplified ==> r.ins == ins && r.example.None?
    // a non-annotation is rewritten exactly when a fold or an identity applies
    ensures !IsAnnotation(ins) ==>
              (r.simplified <==>
                 FoldableLiterals(ins) ||
                 (!(IsArith(ins.op) && IsNumber(ins.arg1) && IsNumber(ins.arg2)) && IdentityMatches(ins)))
  {
    var op, a, b, res := ins.op, ins.arg1, ins.arg2, ins.result;
    if IsAnnotation(ins) then Rewrite(ins, false, false, None)
    else if IsArith(op) && IsNumber(a) && IsNumber(b) then
      if op == "DIV" && ToLong(b) == 0 then Rewrite(ins, false, true, None)
      else
        var vr := Arith(op, ToLong(a), ToLong(b));
        Rewrite(Instruction("MOV", IntToString(vr), "", res), true, false,
                Some("(" + a + " " + Symbol(op) + " " + b + ") -> " + IntToString(vr)))
    else if op == "ADD" && IsLiteral(b, 0) then Move(a, res)
    else if op == "ADD" && IsLiteral(a, 0) then Move(b, res)
    else if op == "MUL" && (IsLiteral(a, 0) || IsLiteral(b, 0)) then Move("0", res)
    else if op == "MUL" && IsLiteral(b, 1) then Move(a, res)
    else if op == "MUL" && IsLiteral(a, 1) then Move(b, res)
    else if op == "SUB" && IsLiteral(b, 0) then Move(a, res)
    else if op == "DIV" && IsLiteral(b, 1) then Move(a, res)
    else Rewrite(ins, false, false, None)
  }

  /** The MOV-chain test at position idx of the ORIGINAL input: a MOV from a
      name starting with 't' into a non-empty result, where an earlier MOV of
      the input wrote that name. */
  predicate ChainAt(ir: seq<Instruction>, idx: nat)
    requires idx < |ir|
  {
    var ins := ir[idx];
    ins.op == "MOV" && StartsWithT(ins.arg1) && ins.result != "" &&
    exists j | 0 <= j < idx :: ir[j].result == ins.arg1 && ir[j].op == "MOV"
  }

  /** The state of pass 1 after a prefix of the input. */
  datatype Pass1 = Pass1(folded: seq<Instruction>, foldedAny: bool, movChain: bool,
                         divByZero: bool, examples: seq<string>)

  /** Pass 1 over the first n instructions of ir. */
  function FoldPass(ir: seq<Instruction>, n: nat): Pass1
    requires n <= |ir|
  {
    if n == 0 then Pass1([], false, false, false, [])
    else
      var p := FoldPass(ir, n - 1);
      var rw := FoldInstr(ir[n - 1]);
      Pass1(p.folded + [rw.ins],
            p.foldedAny || rw.simplified,
            p.movChain || (!IsAnnotation(ir[n - 1]) && ChainAt(ir, n - 1)),
            p.divByZero || rw.divByZero,
            p.examples + (if rw.example.Some? then [rw.example.value] else []))
  }

  /** The names one instruction marks as used: operands starting with 't',
      and a first operand that is neither such a name nor a number, unless
      the instruction is a PRINT. */
  function UsedBy(ins: Instruction): set<string>
  {
    (if StartsWithT(ins.arg1) then {ins.arg1} else {}) +
    (if StartsWithT(ins.arg2) then {ins.arg2} else {}) +
    (if ins.arg1 != "" && ins.arg1[0] != 't' && !IsNumber(ins.arg1) && ins.op != "PRINT"
     then {ins.arg1} else {})
  }

  function Used(code: seq<Instruction>): set<string>
  {
    if code == [] then {} else Used(code[..|code| - 1]) + UsedBy(code[|code| - 1])
  }

  /** Pass 2 keeps annotations, PRINT, STORE and READ, and every other
      instruction except one whose result starts with 't' and is unused. */
  predicate Kept(ins: Instruction, used: set<string>)
  {
    IsAnnotation(ins) || ins.op == "PRINT" || ins.op == "STORE" || ins.op == "READ" ||
    !StartsWithT(ins.result) || ins.result in used
  }

  function DeadPass(code: seq<Instruction>, used: set<string>): seq<Instruction>
  {
    if code == [] then []
    else DeadPass(code[..|code| - 1], used) + (if Kept(code[|code| - 1], used) then [code[|code| - 1]] else [])
  }

  predicate Removed(code: seq<Instruction>, used: set<string>)
  {
    exists i | 0 <= i < |code| :: !Kept(code[i], used)
  }

  const Header := "; === Optimization ==="
  const DeadNote := "; Removed dead code"
  const ChainNote := "; Simplified MOV chains"
  const DivNote := "; Removed unreachable code" + " after fatal divide-by-zero"
  const NoChangeNote := "; Optimization: (no changes)"
  const FoldedPrefix := "; Constant folded: "

  function FoldedNotes(examples: seq<string>): seq<Instruction>
  {
    seq(|examples|, i requires 0 <= i < |examples| => Note(FoldedPrefix + examples[i]))
  }

  /** The summary block: header, then the note for each observation that was
      made (at most three folded examples), or "no changes". */
  function Summary(removed: bool, foldedAny: bool, examples: seq<string>, movChain: bool, divByZero: bool): seq<Instruction>
  {
    [Note(Header)] +
    (if removed then [Note(DeadNote)] else []) +
    (if foldedAny then FoldedNotes(examples[..if |examples| < 3 then |examples| else 3]) else []) +
    (if movChain then [Note(ChainNote)] else []) +
    (if divByZero then [Note(DivNote)] else []) +
    (if !removed && !foldedAny && !movChain && !divByZero then [Note(NoChangeNote)] else [])
  }

  /** Optimizer::optimize: the summary block followed by pass 2 applied to the
      result of pass 1. */
  function Optimized(ir: seq<Instruction>): seq<Instruction>
  {
    var p := FoldPass(ir, |ir|);
    var used := Used(p.folded);
    Summary(Removed(p.folded, used), p.foldedAny, p.examples, p.movChain, p.divByZero) +
    DeadPass(p.folded, used)
  }

  // ---------------------------------------------------------------------
  // Pass 1

  /** Pass 1 pushes exactly one instruction per input instruction, in order;
      it copies annotations unchanged, never changes an instruction's
      destination, and raises the folded flag exactly when some instruction
      was simplified. */
  lemma {:induction false} FoldPassShape(ir: seq<Instruction>, n: nat)
    requires n <= |ir|
    ensures var p := FoldPass(ir, n);
      |p.folded| == n &&
      (forall i | 0 <= i < n :: p.folded[i] == FoldInstr(ir[i]).ins) &&
      (forall i | 0 <= i < n :: p.folded[i].result == ir[i].result) &&
      (forall i | 0 <= i < n && IsAnnotation(ir[i]) :: p.folded[i] == ir[i])
  {
    if n > 0 {
      FoldPassShape(ir, n - 1);
      assert FoldPass(ir, n).folded == FoldPass(ir, n - 1).folded + [FoldInstr(ir[n - 1]).ins];
    }
  }

  /** The folded flag is raised exactly when some instruction was simplified
      and at most one example is recorded per instruction. */
  lemma FoldedFlag(ir: seq<Instruction>, n: nat)
    requires n <= |ir|
    ensures FoldPass(ir, n).foldedAny <==> exists i | 0 <= i < n :: FoldInstr(ir[i]).simplified
    ensures |FoldPass(ir, n).examples| <= n
  {
    FoldedAnyExact(ir, n);
    ExamplesAtMost(ir, n);
  }

  lemma {:induction false} FoldedAnyExact(ir: seq<Instruction>, n: nat)
    requires n <= |ir|
    ensures FoldPass(ir, n).foldedAny <==> exists i | 0 <= i < n :: FoldInstr(ir[i]).simplified
  {
    if n > 0 {
      FoldedAnyExact(ir, n - 1);
      var rw := FoldInstr(ir[n - 1]);
      var p, q := FoldPass(ir, n - 1), FoldPass(ir, n);
      assert q.foldedAny == (p.foldedAny || rw.simplified);
      if q.foldedAny && !rw.simplified {
        var i :| 0 <= i < n - 1 && FoldInstr(ir[i]).simplified;
      }
      if i :| 0 <= i < n && FoldInstr(ir[i]).simplified {
        assert i < n - 1 ==> p.foldedAny;
      }
    }
  }

  lemma {:induction false} ExamplesAtMost(ir: seq<Instruction>, n: nat)
    requires n <= |ir|
    ensures |FoldPass(ir, n).examples| <= n
  {
    if n > 0 {
      ExamplesAtMost(ir, n - 1);
    }
  }

  /** The divide-by-zero flag is raised exactly when pass 1 kept some
      division of a literal by a literal 0. */
  lemma {:induction false} DivByZeroFlag(ir: seq<Instruction>, n: nat)
    requires n <= |ir|
    ensures FoldPass(ir, n).divByZero <==> exists i | 0 <= i < n :: FoldInstr(ir[i]).divByZero
  {
    if n > 0 {
      DivByZeroFlag(ir, n - 1);
      var rw := FoldInstr(ir[n - 1]);
      var p, q := FoldPass(ir, n - 1), FoldPass(ir, n);
      assert q.divByZero == (p.divByZero || rw.divByZero);
      if q.divByZero && !rw.divByZero {
        var i :| 0 <= i < n - 1 && FoldInstr(ir[i]).divByZero;
      }
      if i :| 0 <= i < n && FoldInstr(ir[i]).divByZero {
        assert i < n - 1 ==> p.divByZero;
      }
    }
  }

  /** Folding two literals produces a MOV of a literal that denotes the
      result of the operation, with C's truncating division; the text of the
      literal is exactly what std::to_string prints. */
  lemma FoldLiterals(op: string, a: string, b: string, res: string)
    requires IsArith(op) && IsNumber(a) && IsNumber(b)
    requires op == "DIV" ==> ToLong(b) != 0
    ensures var rw := FoldInstr(Instruction(op, a, b, res));
      var v := Arith(op, ToLong(a), ToLong(b));
      rw.ins == Instruction("MOV", IntToString(v), "", res) && IsLiteral(rw.ins.arg1, v) &&
      rw.simplified && !rw.divByZero &&
      rw.example == Some("(" + a + " " + Symbol(op) + " " + b + ") -> " + IntToString(v))
  {
    IntToStringRoundTrip(Arith(op, ToLong(a), ToLong(b)));
  }

  /** In particular, folding the printed forms of two integers yields the
      printed form of their sum, difference, product or C quotient. */
  lemma FoldPrinted(op: string, x: int, y: int, res: string)
    requires IsArith(op) && (op == "DIV" ==> y != 0)
    ensures FoldInstr(Instruction(op, IntToString(x), IntToString(y), res)).ins ==
            Instruction("MOV", IntToString(Arith(op, x, y)), "", res)
  {
    IntToStringRoundTrip(x);
    IntToStringRoundTrip(y);
  }

  /** A division of two literals whose divisor reads as 0 is kept unchanged
      and raises the divide-by-zero flag, not the folded flag. */
  lemma DivByZeroKept(a: string, b: string, res: string)
    requires IsNumber(a) && IsLiteral(b, 0)
    ensures FoldInstr(Instruction("DIV", a, b, res)) == Rewrite(Instruction("DIV", a, b, res), false, true, None)
  {
  }

  /** The algebraic identities, each applying only when the operation was
      not already folded as two literals: x+0, 0+x, x-0 and x/1 become a MOV
      of x; x*0 and 0*x become MOV 0 (checked before x*1); x*1 and 1*x become a
      MOV of x. */
  lemma Identities(x: string, lit: string, res: string)
    requires !IsNumber(x)
    ensures IsLiteral(lit, 0) ==>
      FoldInstr(Instruction("ADD", x, lit, res)) == Move(x, res) &&
      FoldInstr(Instruction("ADD", lit, x, res)) == Move(x, res) &&
      FoldInstr(Instruction("SUB", x, lit, res)) == Move(x, res) &&
      FoldInstr(Instruction("MUL", x, lit, res)) == Move("0", res) &&
      FoldInstr(Instruction("MUL", lit, x, res)) == Move("0", res)
    ensures IsLiteral(lit, 1) ==>
      FoldInstr(Instruction("MUL", x, lit, res)) == Move(x, res) &&
      FoldInstr(Instruction("MUL", lit, x, res)) == Move(x, res) &&
      FoldInstr(Instruction("DIV", x, lit, res)) == Move(x, res)
    ensures FoldInstr(Instruction("SUB", lit, x, res)).ins == Instruction("SUB", lit, x, res)
  {
  }

  /** Rewriting an instruction that pass 1 already rewrote changes nothing
      and simplifies nothing. */
  lemma FoldIdempotent(ins: Instruction)
    ensures var once := FoldInstr(ins).ins;
      FoldInstr(once).ins == once && !FoldInstr(once).simplified
  {
  }

  /** The MOV-chain detection only records: pass 1's instructions do not
      depend on it, and the flag is set exactly when some MOV of the input
      copies from a name starting with 't' that an earlier MOV wrote. */
  lemma {:induction false} ChainOnlyRecords(ir: seq<Instruction>, n: nat)
    requires n <= |ir|
    ensures FoldPass(ir, n).movChain <==> exists i | 0 <= i < n :: ChainAt(ir, i)
  {
    if n > 0 {
      ChainOnlyRecords(ir, n - 1);
      if FoldPass(ir, n).movChain && !ChainAt(ir, n - 1) {
        var i :| 0 <= i < n - 1 && ChainAt(ir, i);
      }
    }
  }

  // ---------------------------------------------------------------------
  // Pass 2

  lemma UsedNames(code: seq<Instruction>)
    ensures forall x :: x in Used(code) <==> exists i | 0 <= i < |code| :: x in UsedBy(code[i])
  {
    forall x | x in Used(code) ensures exists i | 0 <= i < |code| :: x in UsedBy(code[i]) {
      UsedHasUser(code, x);
    }
    forall x, i | 0 <= i < |code| && x in UsedBy(code[i]) ensures x in Used(code) {
      UserMakesUsed(code, i, x);
    }
  }

  lemma {:induction false} UsedHasUser(code: seq<Instruction>, x: string)
    requires x in Used(code)
    ensures exists i | 0 <= i < |code| :: x in UsedBy(code[i])
  {
    var init := code[..|code| - 1];
    if x !in UsedBy(code[|code| - 1]) {
      UsedHasUser(init, x);
      var i :| 0 <= i < |init| && x in UsedBy(init[i]);
      assert code[i] == init[i];
    }
  }

  lemma {:induction false} UserMakesUsed(code: seq<Instruction>, i: nat, x: string)
    requires i < |code| && x in UsedBy(code[i])
    ensures x in Used(code)
  {
    var init := code[..|code| - 1];
    if i < |init| {
      assert init[i] == code[i];
      UserMakesUsed(init, i, x);
    }
  }

  /** The positions of the instructions pass 2 keeps, in order. */
  function KeptPositions(code: seq<Instruction>, used: set<string>): seq<nat>
  {
    if code == [] then []
    else KeptPositions(code[..|code| - 1], used) + (if Kept(code[|code| - 1], used) then [|code| - 1] else [])
  }

  /** Pass 2 returns an order-preserving subsequence of its input: the
      instruction at each kept position, in increasing order of position. */
  lemma {:induction false} DeadPassSubsequence(code: seq<Instruction>, used: set<string>)
    ensures var pos, out := KeptPositions(code, used), DeadPass(code, used);
      |pos| == |out| &&
      (forall i | 0 <= i < |pos| :: pos[i] < |code| && out[i] == code[pos[i]]) &&
      (forall i, j | 0 <= i < j < |pos| :: pos[i] < pos[j])
  {
    if code != [] {
      var init := code[..|code| - 1];
      DeadPassSubsequence(init, used);
      var p := KeptPositions(init, used);
      var pos := KeptPositions(code, used);
      forall i | 0 <= i < |p| ensures code[p[i]] == init[p[i]] {
      }
    }
  }

  /** A position is listed exactly when pass 2 keeps its instruction. */
  lemma {:induction false} KeptPositionsExact(code: seq<Instruction>, used: set<string>)
    ensures forall k | 0 <= k < |code| :: Kept(code[k], used) <==> k in KeptPositions(code, used)
  {
    if code != [] {
      var init := code[..|code| - 1];
      KeptPositionsExact(init, used);
      DeadPassSubsequence(init, used);
      var last := |code| - 1;
      assert last !in KeptPositions(init, used);
      assert Kept(code[last], used) <==> last in KeptPositions(code, used);
      forall k | 0 <= k < |init|
        ensures Kept(code[k], used) <==> k in KeptPositions(code, used)
      {
        assert code[k] == init[k];
        assert k in KeptPositions(code, used) <==> k in KeptPositions(init, used);
      }
    }
  }

  /** Pass 2 never lengthens its input, and it shortens it exactly when some
      instruction is not kept. */
  lemma {:induction false} DeadPassShorter(code: seq<Instruction>, used: set<string>)
    ensures |DeadPass(code, used)| <= |code|
    ensures |DeadPass(code, used)| < |code| <==> Removed(code, used)
  {
    if code != [] {
      var init := code[..|code| - 1];
      var last := |code| - 1;
      DeadPassShorter(init, used);
      if Removed(code, used) && Kept(code[last], used) {
        var k :| 0 <= k < |code| && !Kept(code[k], used);
        assert init[k] == code[k];
      }
      if Removed(init, used) {
        var k :| 0 <= k < |init| && !Kept(init[k], used);
        assert code[k] == init[k];
      }
    }
  }

  /** An instruction is in pass 2's output exactly when it is in its input and
      is kept; in particular no annotation, PRINT, STORE or READ is dropped. */
  lemma DeadPassMembers(code: seq<Instruction>, used: set<string>)
    ensures forall x :: x in DeadPass(code, used) <==> x in code && Kept(x, used)
  {
    DeadPassSubsequence(code, used);
    KeptPositionsExact(code, used);
    var pos := KeptPositions(code, used);
    var out := DeadPass(code, used);
    forall x | x in code && Kept(x, used) ensures x in out {
      var k :| 0 <= k < |code| && code[k] == x;
      var i :| 0 <= i < |pos| && pos[i] == k;
    }
  }

  // ---------------------------------------------------------------------
  // The summary and the whole optimizer

  /** One "Constant folded" line per example, in order, each an annotation
      that is neither the "no changes" nor the divide line. */
  lemma FoldedNotesFacts(examples: seq<string>)
    ensures |FoldedNotes(examples)| == |examples|
    ensures forall i | 0 <= i < |examples| :: FoldedNotes(examples)[i] == Note(FoldedPrefix + examples[i])
    ensures forall i | 0 <= i < |examples| :: IsAnnotation(FoldedNotes(examples)[i])
    ensures Note(NoChangeNote) !in FoldedNotes(examples) && Note(DivNote) !in FoldedNotes(examples)
  {
    var f := FoldedNotes(examples);
    forall i | 0 <= i < |f| ensures f[i].op[2] == 'C' && IsAnnotation(f[i]) {
      assert f[i].op == FoldedPrefix + examples[i];
    }
    assert Note(NoChangeNote).op[2] == 'O' && Note(DivNote).op[2] == 'R';
  }

  /** The summary block as its four parts: the header with the dead-code
      note, the folded examples, the chain and divide notes, and the
      "no changes" note. */
  lemma SummaryParts(removed: bool, foldedAny: bool, examples: seq<string>, movChain: bool, divByZero: bool)
    ensures var n := if |examples| < 3 then |examples| else 3;
      Summary(removed, foldedAny, examples, movChain, divByZero) ==
        ([Note(Header)] + (if removed then [Note(DeadNote)] else [])) +
        (if foldedAny then FoldedNotes(examples[..n]) else []) +
        ((if movChain then [Note(ChainNote)] else []) + (if divByZero then [Note(DivNote)] else [])) +
        (if !removed && !foldedAny && !movChain && !divByZero then [Note(NoChangeNote)] else [])
  {
  }

  /** Every instruction of s is an annotation. */
  ghost predicate AllNotes(s: seq<Instruction>)
  {
    forall i | 0 <= i < |s| :: IsAnnotation(s[i])
  }

  lemma AllNotesConcat(a: seq<Instruction>, b: seq<Instruction>)
    requires AllNotes(a) && AllNotes(b)
    ensures AllNotes(a + b)
  {
  }

  /** The summary block starts with the header, holds only annotations and
      at most three folded examples: every folded line sits in the three
      places after the header and the dead-code line, and reports the
      example of its place. */
  lemma SummaryLayout(removed: bool, foldedAny: bool, examples: seq<string>, movChain: bool, divByZero: bool)
    ensures var s := Summary(removed, foldedAny, examples, movChain, divByZero);
      s[0] == Note(Header) && 1 <= |s| <= 7 &&
      (forall i | 0 <= i < |s| :: IsAnnotation(s[i]))
    ensures var s, d := Summary(removed, foldedAny, examples, movChain, divByZero), if removed then 2 else 1;
      forall i | 0 <= i < |s| && IsFoldedNote(s[i]) ::
        d <= i < d + 3 && i - d < |examples| && s[i] == Note(FoldedPrefix + examples[i - d])
  {
    SummaryFoldedLines(removed, foldedAny, examples, movChain, divByZero);
    var n := if |examples| < 3 then |examples| else 3;
    var f := if foldedAny then FoldedNotes(examples[..n]) else [];
    FoldedNotesFacts(examples[..n]);
    SummaryParts(removed, foldedAny, examples, movChain, divByZero);
    var s1 := [Note(Header)] + (if removed then [Note(DeadNote)] else []);
    var s2 := (if movChain then [Note(ChainNote)] else []) + (if divByZero then [Note(DivNote)] else []);
    var s3 := if !removed && !foldedAny && !movChain && !divByZero then [Note(NoChangeNote)] else [];
    assert AllNotes(f) && AllNotes(s1) && AllNotes(s2) && AllNotes(s3);
    AllNotesConcat(s1, f);
    AllNotesConcat(s1 + f, s2);
    AllNotesConcat(s1 + f + s2, s3);
    assert |f| <= 3;
    assert (s1 + f + s2 + s3)[0] == s1[0];
  }

  /** A summary line reporting one folded example. */
  predicate IsFoldedNote(ins: Instruction)
  {
    |ins.op| >= |FoldedPrefix| && ins.op[..|FoldedPrefix|] == FoldedPrefix
  }

  /** Only the folded-example lines of the summary are folded notes. */
  lemma OtherNotesNotFolded()
    ensures !IsFoldedNote(Note(Header)) && !IsFoldedNote(Note(DeadNote)) && !IsFoldedNote(Note(ChainNote))
    ensures !IsFoldedNote(Note(DivNote)) && !IsFoldedNote(Note(NoChangeNote))
  {
    assert FoldedPrefix[2] == 'C';
    assert Header[2] == '=' && DeadNote[2] == 'R' && ChainNote[2] == 'S' && DivNote[2] == 'R' && NoChangeNote[2] == 'O';
  }

  /** The fixed summary lines are pairwise different. */
  lemma NotesDistinct()
    ensures Note(DeadNote) != Note(Header) && Note(DeadNote) != Note(ChainNote) &&
            Note(DeadNote) != Note(DivNote) && Note(DeadNote) != Note(NoChangeNote)
    ensures Note(ChainNote) != Note(Header) && Note(ChainNote) != Note(DivNote) &&
            Note(ChainNote) != Note(NoChangeNote)
  {
    assert Header[2] == '=' && DeadNote[2] == 'R' && ChainNote[2] == 'S' && DivNote[2] == 'R' && NoChangeNote[2] == 'O';
    assert DeadNote[10] == 'd' && DivNote[10] == 'u';
  }

  /** The folded-example lines hold neither the dead-code nor the chain line. */
  lemma FoldedNotesOmit(examples: seq<string>)
    ensures Note(DeadNote) !in FoldedNotes(examples) && Note(ChainNote) !in FoldedNotes(examples)
  {
    var f := FoldedNotes(examples);
    OtherNotesNotFolded();
    forall k | 0 <= k < |f| ensures IsFoldedNote(f[k]) {
      assert f[k].op == FoldedPrefix + examples[k];
      assert f[k].op[..|FoldedPrefix|] == FoldedPrefix;
    }
  }

  /** The summary reports dead code exactly when pass 2 removed something,
      and MOV chains exactly when pass 1 saw one. */
  lemma SummaryMentions(removed: bool, foldedAny: bool, examples: seq<string>, movChain: bool, divByZero: bool)
    ensures var s := Summary(removed, foldedAny, examples, movChain, divByZero);
      (Note(DeadNote) in s <==> removed) && (Note(ChainNote) in s <==> movChain)
  {
    var n := if |examples| < 3 then |examples| else 3;
    var f := if foldedAny then FoldedNotes(examples[..n]) else [];
    SummaryParts(removed, foldedAny, examples, movChain, divByZero);
    var s1 := [Note(Header)] + (if removed then [Note(DeadNote)] else []);
    var s2 := (if movChain then [Note(ChainNote)] else []) + (if divByZero then [Note(DivNote)] else []);
    var s3 := if !removed && !foldedAny && !movChain && !divByZero then [Note(NoChangeNote)] else [];
    FoldedNotesOmit(examples[..n]);
    NotesDistinct();
    assert Note(DeadNote) !in f && Note(ChainNote) !in f;
    assert Note(DeadNote) in s1 <==> removed;
    assert Note(ChainNote) in s2 <==> movChain;
  }

  /** Every folded-example line is a folded note. */
  lemma FoldedNotesAreFolded(examples: seq<string>)
    ensures forall k | 0 <= k < |FoldedNotes(examples)| :: IsFoldedNote(FoldedNotes(examples)[k])
  {
    var f := FoldedNotes(examples);
    forall k | 0 <= k < |f| ensures IsFoldedNote(f[k]) {
      assert f[k].op == FoldedPrefix + examples[k];
      assert f[k].op[..|FoldedPrefix|] == FoldedPrefix;
    }
  }

  /** In a + f + b, where only the lines of f are folded notes, a folded
      note occurs exactly when f is not empty. */
  lemma FoldedOnlyInMiddle(a: seq<Instruction>, f: seq<Instruction>, b: seq<Instruction>)
    requires forall i | 0 <= i < |a| :: !IsFoldedNote(a[i])
    requires forall i | 0 <= i < |b| :: !IsFoldedNote(b[i])
    requires forall i | 0 <= i < |f| :: IsFoldedNote(f[i])
    ensures (exists i | 0 <= i < |a + f + b| :: IsFoldedNote((a + f + b)[i])) <==> |f| > 0
  {
    var s := a + f + b;
    if |f| > 0 {
      assert s[|a|] == f[0];
    } else {
      forall i | 0 <= i < |s| ensures !IsFoldedNote(s[i]) {
        if i >= |a| { assert s[i] == b[i - |a|]; }
      }
    }
  }

  /** When something was folded the summary lists the first three examples,
      in order; it holds a folded-example line exactly when something was
      folded and an example was recorded. */
  lemma SummaryFolded(removed: bool, foldedAny: bool, examples: seq<string>, movChain: bool, divByZero: bool)
    ensures var s := Summary(removed, foldedAny, examples, movChain, divByZero);
      (foldedAny ==> forall k | 0 <= k < |examples| && k < 3 :: Note(FoldedPrefix + examples[k]) in s) &&
      ((exists i | 0 <= i < |s| :: IsFoldedNote(s[i])) <==> foldedAny && |examples| > 0)
  {
    if foldedAny {
      SummaryListsExamples(removed, foldedAny, examples, movChain, divByZero);
    }
    SummaryHasFolded(removed, foldedAny, examples, movChain, divByZero);
  }

  lemma SummaryListsExamples(removed: bool, foldedAny: bool, examples: seq<string>, movChain: bool, divByZero: bool)
    requires foldedAny
    ensures var s := Summary(removed, foldedAny, examples, movChain, divByZero);
      forall k | 0 <= k < |examples| && k < 3 :: Note(FoldedPrefix + examples[k]) in s
  {
    var n := if |examples| < 3 then |examples| else 3;
    var f := FoldedNotes(examples[..n]);
    var s := Summary(removed, foldedAny, examples, movChain, divByZero);
    SummaryParts(removed, foldedAny, examples, movChain, divByZero);
    var s1 := [Note(Header)] + (if removed then [Note(DeadNote)] else []);
    forall k | 0 <= k < |examples| && k < 3 ensures Note(FoldedPrefix + examples[k]) in s {
      assert f[k] == Note(FoldedPrefix + examples[k]);
      assert s[|s1| + k] == f[k];
    }
  }

  lemma SummaryHasFolded(removed: bool, foldedAny: bool, examples: seq<string>, movChain: bool, divByZero: bool)
    ensures var s := Summary(removed, foldedAny, examples, movChain, divByZero);
      (exists i | 0 <= i < |s| :: IsFoldedNote(s[i])) <==> foldedAny && |examples| > 0
  {
    var n := if |examples| < 3 then |examples| else 3;
    var f := if foldedAny then FoldedNotes(examples[..n]) else [];
    SummaryParts(removed, foldedAny, examples, movChain, divByZero);
    var s1 := [Note(Header)] + (if removed then [Note(DeadNote)] else []);
    var s2 := (if movChain then [Note(ChainNote)] else []) + (if divByZero then [Note(DivNote)] else []);
    var s3 := if !removed && !foldedAny && !movChain && !divByZero then [Note(NoChangeNote)] else [];
    FoldedNotesFacts(examples[..n]);
    FoldedNotesAreFolded(examples[..n]);
    FixedNotesNotFolded(removed, movChain, divByZero, s3);
    assert s1 + f + s2 + s3 == s1 + f + (s2 + s3);
    FoldedOnlyInMiddle(s1, f, s2 + s3);
  }

  /** The folded lines of the summary are exactly the places after the
      header and the dead-code line, one per listed example, and each
      reports its example. */
  lemma SummaryFoldedLines(removed: bool, foldedAny: bool, examples: seq<string>, movChain: bool, divByZero: bool)
    ensures var s, d := Summary(removed, foldedAny, examples, movChain, divByZero), if removed then 2 else 1;
      var n := if |examples| < 3 then |examples| else 3;
      forall i | 0 <= i < |s| ::
        (IsFoldedNote(s[i]) <==> foldedAny && d <= i < d + n) &&
        (foldedAny && d <= i < d + n ==> s[i] == Note(FoldedPrefix + examples[i - d]))
  {
    var n := if |examples| < 3 then |examples| else 3;
    var f := if foldedAny then FoldedNotes(examples[..n]) else [];
    SummaryParts(removed, foldedAny, examples, movChain, divByZero);
    var s1 := [Note(Header)] + (if removed then [Note(DeadNote)] else []);
    var s2 := (if movChain then [Note(ChainNote)] else []) + (if divByZero then [Note(DivNote)] else []);
    var s3 := if !removed && !foldedAny && !movChain && !divByZero then [Note(NoChangeNote)] else [];
    FoldedNotesFacts(examples[..n]);
    FoldedNotesAreFolded(examples[..n]);
    FixedNotesNotFolded(removed, movChain, divByZero, s3);
    var s := s1 + f + (s2 + s3);
    assert Summary(removed, foldedAny, examples, movChain, divByZero) == s;
    forall i | 0 <= i < |s|
      ensures (IsFoldedNote(s[i]) <==> foldedAny && |s1| <= i < |s1| + n) &&
              (foldedAny && |s1| <= i < |s1| + n ==> s[i] == Note(FoldedPrefix + examples[i - |s1|]))
    {
      if i < |s1| {
        assert s[i] == s1[i];
      } else if i < |s1| + |f| {
        assert s[i] == f[i - |s1|];
      } else {
        assert s[i] == (s2 + s3)[i - |s1| - |f|];
      }
    }
  }

  /** The fixed lines around the folded examples are no folded notes. */
  lemma FixedNotesNotFolded(removed: bool, movChain: bool, divByZero: bool, last: seq<Instruction>)
    requires last == [] || last == [Note(NoChangeNote)]
    ensures var s1 := [Note(Header)] + (if removed then [Note(DeadNote)] else []);
      forall i | 0 <= i < |s1| :: !IsFoldedNote(s1[i])
    ensures var s2 := (if movChain then [Note(ChainNote)] else []) + (if divByZero then [Note(DivNote)] else []);
      forall i | 0 <= i < |s2 + last| :: !IsFoldedNote((s2 + last)[i])
  {
    OtherNotesNotFolded();
  }

  /** The summary says "no changes" exactly when none of the four
      observations was made, and reports the fatal divide exactly when one
      was found. */
  lemma SummaryNotes(removed: bool, foldedAny: bool, examples: seq<string>, movChain: bool, divByZero: bool)
    ensures var s := Summary(removed, foldedAny, examples, movChain, divByZero);
      (Note(NoChangeNote) in s <==> !removed && !foldedAny && !movChain && !divByZero) &&
      (Note(DivNote) in s <==> divByZero)
  {
    var n := if |examples| < 3 then |examples| else 3;
    var f := if foldedAny then FoldedNotes(examples[..n]) else [];
    FoldedNotesFacts(examples[..n]);
    SummaryParts(removed, foldedAny, examples, movChain, divByZero);
    var s1 := [Note(Header)] + (if removed then [Note(DeadNote)] else []);
    var s2 := (if movChain then [Note(ChainNote)] else []) + (if divByZero then [Note(DivNote)] else []);
    var s3 := if !removed && !foldedAny && !movChain && !divByZero then [Note(NoChangeNote)] else [];
    assert Note(NoChangeNote) !in s1 + f + s2;
    assert Note(DivNote) !in s1 + f + s3;
  }

  /** The output is the summary block followed by pass 2's result. */
  lemma SummaryShape(ir: seq<Instruction>)
    ensures var p := FoldPass(ir, |ir|);
      var used := Used(p.folded);
      var s := Summary(Removed(p.folded, used), p.foldedAny, p.examples, p.movChain, p.divByZero);
      Optimized(ir) == s + DeadPass(p.folded, used) &&
      s[0] == Note(Header) && 1 <= |s| <= 7 &&
      (forall i | 0 <= i < |s| :: IsAnnotation(s[i])) &&
      (Note(NoChangeNote) in s <==> !Removed(p.folded, used) && !p.foldedAny && !p.movChain && !p.divByZero) &&
      (Note(DivNote) in s <==> p.divByZero)
  {
    var p := FoldPass(ir, |ir|);
    var removed := Removed(p.folded, Used(p.folded));
    SummaryLayout(removed, p.foldedAny, p.examples, p.movChain, p.divByZero);
    SummaryNotes(removed, p.foldedAny, p.examples, p.movChain, p.divByZero);
  }

  /** A division of two literals by 0 survives pass 1 unchanged and the
      summary then reports the fatal divide. */
  lemma DivByZeroReported(ir: seq<Instruction>, i: nat)
    requires i < |ir| && ir[i].op == "DIV" && IsNumber(ir[i].arg1) && IsLiteral(ir[i].arg2, 0)
    ensures |FoldPass(ir, |ir|).folded| == |ir|
    ensures FoldPass(ir, |ir|).folded[i] == ir[i]
    ensures Note(DivNote) in Optimized(ir)
  {
    FoldPassShape(ir, |ir|);
    DivByZeroFlag(ir, |ir|);
    assert FoldInstr(ir[i]).divByZero;
    SummaryShape(ir);
  }

  /** Every instruction of the output is a summary annotation or the
      rewrite pass 1 made of some input instruction. */
  lemma OutputIsRewritten(ir: seq<Instruction>)
    ensures forall x | x in Optimized(ir) ::
      IsAnnotation(x) || exists k | 0 <= k < |ir| :: x == FoldInstr(ir[k]).ins
  {
    var p := FoldPass(ir, |ir|);
    var used := Used(p.folded);
    var s := Summary(Removed(p.folded, used), p.foldedAny, p.examples, p.movChain, p.divByZero);
    var rest := DeadPass(p.folded, used);
    SummaryShape(ir);
    FoldPassShape(ir, |ir|);
    DeadPassMembers(p.folded, used);
    forall x | x in Optimized(ir) && !IsAnnotation(x)
      ensures exists k | 0 <= k < |ir| :: x == FoldInstr(ir[k]).ins
    {
      assert x in s + rest;
      assert x !in s;
      var k :| 0 <= k < |p.folded| && p.folded[k] == x;
    }
  }

  /** Running the optimizer on its own output folds nothing more. */
  lemma SecondRunFoldsNothing(ir: seq<Instruction>)
    ensures !FoldPass(Optimized(ir), |Optimized(ir)|).foldedAny
  {
    var out := Optimized(ir);
    OutputIsRewritten(ir);
    forall i | 0 <= i < |out| ensures !FoldInstr(out[i]).simplified {
      assert out[i] in out;
      if !IsAnnotation(out[i]) {
        var k :| 0 <= k < |ir| && out[i] == FoldInstr(ir[k]).ins;
        FoldIdempotent(ir[k]);
      }
    }
    FoldedFlag(out, |out|);
  }

  /** The example of the dead-code lemmas: `t1` is loaded from x and only
      read by an ADD whose result nobody reads. */
  const Load := Instruction("LOAD", "x", "", "t1")
  const Add := Instruction("ADD", "t1", "t1", "t2")

  /** Dead temporaries are removed one level per run: a temporary used only
      by an instruction that is itself dropped survives the first run and
      is dropped by the second. */
  lemma DeadCodeNeedsTwoRuns()
    ensures var once := Optimized([Load, Add]);
      once == [Note(Header), Note(DeadNote), Load] &&
      Optimized(once) == [Note(Header), Note(DeadNote), Note(Header), Note(DeadNote)]
  {
    FirstRun();
    SecondRun();
  }

  lemma FirstRun()
    ensures Optimized([Load, Add]) == [Note(Header), Note(DeadNote), Load]
  {
    FirstRunPasses();
    assert Summary(true, false, [], false, false) == [Note(Header), Note(DeadNote)];
  }

  /** The passes of the first run: nothing folds, and the ADD is dead. */
  lemma FirstRunPasses()
    ensures FoldPass([Load, Add], 2) == Pass1([Load, Add], false, false, false, [])
    ensures Used([Load, Add]) == {"t1", "x"}
    ensures DeadPass([Load, Add], {"t1", "x"}) == [Load] && Removed([Load, Add], {"t1", "x"})
  {
    FirstRunFolds();
    FirstRunUses();
    FirstRunDrops();
  }

  lemma FirstRunFolds()
    ensures FoldPass([Load, Add], 2) == Pass1([Load, Add], false, false, false, [])
  {
    var ir := [Load, Add];
    assert !IsNumber("t1") && !IsNumber("x");
    assert FoldInstr(Load) == Rewrite(Load, false, false, None);
    assert FoldInstr(Add) == Rewrite(Add, false, false, None);
    assert FoldPass(ir, 1) == Pass1([Load], false, false, false, []);
  }

  lemma FirstRunUses()
    ensures Used([Load, Add]) == {"t1", "x"}
  {
    assert [Load, Add][..1] == [Load] && [Load][..0] == [];
    assert UsedBy(Load) == {"x"} && UsedBy(Add) == {"t1"};
    assert Used([Load]) == {"x"};
  }

  lemma FirstRunDrops()
    ensures DeadPass([Load, Add], {"t1", "x"}) == [Load] && Removed([Load, Add], {"t1", "x"})
  {
    assert [Load, Add][..1] == [Load] && [Load][..0] == [];
    assert !Kept(Add, {"t1", "x"}) && Kept(Load, {"t1", "x"});
    assert DeadPass([Load], {"t1", "x"}) == [Load];
  }

  lemma SecondRun()
    ensures Optimized([Note(Header), Note(DeadNote), Load]) ==
            [Note(Header), Note(DeadNote), Note(Header), Note(DeadNote)]
  {
    SecondRunPasses();
    assert Summary(true, false, [], false, false) == [Note(Header), Note(DeadNote)];
  }

  /** The passes of the second run: nothing folds, and the LOAD is now dead. */
  lemma SecondRunPasses()
    ensures var once := [Note(Header), Note(DeadNote), Load];
      FoldPass(once, 3) == Pass1(once, false, false, false, []) &&
      Used(once) == {"x"} &&
      DeadPass(once, {"x"}) == [Note(Header), Note(DeadNote)] && Removed(once, {"x"})
  {
    SecondRunFolds();
    SecondRunUses();
    SecondRunDrops();
  }

  lemma SecondRunFolds()
    ensures var once := [Note(Header), Note(DeadNote), Load];
      FoldPass(once, 3) == Pass1(once, false, false, false, [])
  {
    var h, d := Note(Header), Note(DeadNote);
    var once := [h, d, Load];
    assert Header[0] == ';' && DeadNote[0] == ';';
    assert IsAnnotation(h) && IsAnnotation(d) && !IsAnnotation(Load);
    assert FoldInstr(h) == Rewrite(h, false, false, None);
    assert FoldInstr(d) == Rewrite(d, false, false, None);
    assert FoldInstr(Load) == Rewrite(Load, false, false, None);
    assert !ChainAt(once, 2);
    assert FoldPass(once, 1) == Pass1([h], false, false, false, []);
    assert FoldPass(once, 2) == Pass1([h, d], false, false, false, []);
  }

  lemma SecondRunUses()
    ensures Used([Note(Header), Note(DeadNote), Load]) == {"x"}
  {
    var h, d := Note(Header), Note(DeadNote);
    var once := [h, d, Load];
    assert once[..2] == [h, d] && [h, d][..1] == [h] && [h][..0] == [];
    assert UsedBy(h) == {} && UsedBy(d) == {} && UsedBy(Load) == {"x"};
    assert Used([h]) == Used([]) + UsedBy(h) == {};
    assert Used([h, d]) == Used([h]) + UsedBy(d) == {};
  }

  lemma SecondRunDrops()
    ensures var once := [Note(Header), Note(DeadNote), Load];
      DeadPass(once, {"x"}) == [Note(Header), Note(DeadNote)] && Removed(once, {"x"})
  {
    var h, d := Note(Header), Note(DeadNote);
    var once := [h, d, Load];
    assert once[..2] == [h, d] && [h, d][..1] == [h] && [h][..0] == [];
    assert !Kept(Load, {"x"});
    assert DeadPass([h], {"x"}) == [h];
    assert DeadPass([h, d], {"x"}) == [h, d];
    assert once[2] == Load;
  }

  // ---------------------------------------------------------------------
  // The optimizer as the source runs it

  /** The body of pass 1's loop for a non-annotation instruction. */
  method FoldOne(ins: Instruction) returns (rw: Rewrite)
    requires !IsAnnotation(ins)
    ensures rw == FoldInstr(ins)
  {
    var op, a, b, res := ins.op, ins.arg1, ins.arg2, ins.result;
    if (op == "ADD" || op == "SUB" || op == "MUL" || op == "DIV") && IsNumber(a) && IsNumber(b) {
      var va, vb, vr := ToLong(a), ToLong(b), 0;
      if op == "ADD" { vr := va + vb; }
      else if op == "SUB" { vr := va - vb; }
      else if op == "MUL" { vr := va * vb; }
      else if op == "DIV" {
        if vb == 0 {
          return Rewrite(ins, false, true, None);
        } else {
          vr := TruncDiv(va, vb);
        }
      }
      var sym := if op == "ADD" then "+" else if op == "SUB" then "-" else if op == "MUL" then "*" else "/";
      return Rewrite(Instruction("MOV", IntToString(vr), "", res), true, false,
                     Some("(" + a + " " + sym + " " + b + ") -> " + IntToString(vr)));
    }
    if op == "ADD" {
      if IsNumber(b) && ToLong(b) == 0 { return Move(a, res); }
      if IsNumber(a) && ToLong(a) == 0 { return Move(b, res); }
    }
    if op == "MUL" {
      if (IsNumber(a) && ToLong(a) == 0) || (IsNumber(b) && ToLong(b) == 0) { return Move("0", res); }
      if IsNumber(b) && ToLong(b) == 1 { return Move(a, res); }
      if IsNumber(a) && ToLong(a) == 1 { return Move(b, res); }
    }
    if op == "SUB" {
      if IsNumber(b) && ToLong(b) == 0 { return Move(a, res); }
    }
    if op == "DIV" {
      if IsNumber(b) && ToLong(b) == 1 { return Move(a, res); }
    }
    return Rewrite(ins, false, false, None);
  }

  /** The look-back loop of the MOV-chain detection. */
  method HasEarlierMov(ir: seq<Instruction>, idx: nat, a: string) returns (found: bool)
    requires idx <= |ir|
    ensures found <==> exists j | 0 <= j < idx :: ir[j].result == a && ir[j].op == "MOV"
  {
    for j := 0 to idx
      invariant forall j' | 0 <= j' < j :: !(ir[j'].result == a && ir[j'].op == "MOV")
    {
      if ir[j].result == a && ir[j].op == "MOV" {
        return true;
      }
    }
    return false;
  }

  /** Pass 1 with its flags and the list of folded examples. */
  method FoldLoop(ir: seq<Instruction>) returns (p: Pass1)
    ensures p == FoldPass(ir, |ir|)
  {
    var folded: seq<Instruction> := [];
    var foldedAny, movChainFound, divByZeroFound := false, false, false;
    var foldedExamples: seq<string> := [];
    for idx := 0 to |ir|
      invariant FoldPass(ir, idx) == Pass1(folded, foldedAny, movChainFound, divByZeroFound, foldedExamples)
    {
      FoldPassNext(ir, idx);
      var ins := ir[idx];
      if IsAnnotation(ins) {
        folded := folded + [ins];
        continue;
      }
      if ins.op == "MOV" && ins.arg1 != "" && ins.result != "" && ins.arg1[0] == 't' {
        var found := HasEarlierMov(ir, idx, ins.arg1);
        if found {
          movChainFound := true;
        }
      }
      assert movChainFound == FoldPass(ir, idx + 1).movChain;
      var rw := FoldOne(ins);
      folded := folded + [rw.ins];
      if rw.simplified { foldedAny := true; }
      if rw.divByZero { divByZeroFound := true; }
      if rw.example.Some? { foldedExamples := foldedExamples + [rw.example.value]; }
    }
    p := Pass1(folded, foldedAny, movChainFound, divByZeroFound, foldedExamples);
  }

  /** One more instruction of pass 1. */
  lemma FoldPassNext(ir: seq<Instruction>, n: nat)
    requires n < |ir|
    ensures var p, rw := FoldPass(ir, n), FoldInstr(ir[n]);
      FoldPass(ir, n + 1) ==
        Pass1(p.folded + [rw.ins], p.foldedAny || rw.simplified,
              p.movChain || (!IsAnnotation(ir[n]) && ChainAt(ir, n)),
              p.divByZero || rw.divByZero,
              p.examples + (if rw.example.Some? then [rw.example.value] else []))
  {
  }

  /** The names pass 2 treats as used. */
  method CollectUsed(folded: seq<Instruction>) returns (used: set<string>)
    ensures used == Used(folded)
  {
    used := {};
    for i := 0 to |folded|
      invariant used == Used(folded[..i])
    {
      assert folded[..i + 1][..i] == folded[..i];
      var ins := folded[i];
      if ins.arg1 != "" && ins.arg1[0] == 't' { used := used + {ins.arg1}; }
      if ins.arg2 != "" && ins.arg2[0] == 't' { used := used + {ins.arg2}; }
      if ins.arg1 != "" && ins.arg1[0] != 't' && !IsNumber(ins.arg1) && ins.op != "PRINT" {
        used := used + {ins.arg1};
      }
    }
    assert folded[..|folded|] == folded;
  }

  /** Pass 2's filter, with the flag saying whether it dropped anything. */
  method DropDead(folded: seq<Instruction>, used: set<string>) returns (finalIR: seq<Instruction>, removedAny: bool)
    ensures finalIR == DeadPass(folded, used)
    ensures removedAny == Removed(folded, used)
  {
    finalIR, removedAny := [], false;
    for i := 0 to |folded|
      invariant finalIR == DeadPass(folded[..i], used)
      invariant removedAny == Removed(folded[..i], used)
    {
      assert folded[..i + 1][..i] == folded[..i];
      var ins := folded[i];
      if IsAnnotation(ins) {
        finalIR := finalIR + [ins];
        continue;
      }
      if ins.op == "PRINT" || ins.op == "STORE" || ins.op == "READ" {
        finalIR := finalIR + [ins];
        continue;
      }
      if ins.result != "" && ins.result[0] == 't' {
        if ins.result !in used {
          removedAny := true;
          continue;
        }
      }
      finalIR := finalIR + [ins];
    }
    assert folded[..|folded|] == folded;
  }

  /** The summary block. */
  method Summarize(removedAny: bool, foldedAny: bool, foldedExamples: seq<string>, movChainFound: bool, divByZeroFound: bool)
    returns (summary: seq<Instruction>)
    ensures summary == Summary(removedAny, foldedAny, foldedExamples, movChainFound, divByZeroFound)
  {
    summary := [Note(Header)];
    if removedAny { summary := summary + [Note(DeadNote)]; }
    ghost var pre := summary;
    if foldedAny {
      var i := 0;
      while i < |foldedExamples| && i < 3
        invariant 0 <= i <= |foldedExamples| && i <= 3
        invariant summary == pre + FoldedNotes(foldedExamples[..i])
      {
        FoldedNotesSnoc(foldedExamples, i);
        summary := summary + [Note(FoldedPrefix + foldedExamples[i])];
        i := i + 1;
      }
    } else {
      assert summary == pre + [];
    }
    if movChainFound { summary := summary + [Note(ChainNote)]; }
    if divByZeroFound { summary := summary + [Note(DivNote)]; }
    if !removedAny && !foldedAny && !movChainFound && !divByZeroFound {
      summary := summary + [Note(NoChangeNote)];
    }
  }

  /** One more folded example adds one note at the end. */
  lemma FoldedNotesSnoc(examples: seq<string>, i: nat)
    requires i < |examples|
    ensures FoldedNotes(examples[..i + 1]) == FoldedNotes(examples[..i]) + [Note(FoldedPrefix + examples[i])]
  {
  }

  /** Optimizer::optimize. */
  method Optimize(ir: seq<Instruction>) returns (out: seq<Instruction>)
    ensures out == Optimized(ir)
  {
    var p := FoldLoop(ir);
    var used := CollectUsed(p.folded);
    var finalIR, removedAny := DropDead(p.folded, used);
    var summary := Summarize(removedAny, p.foldedAny, p.examples, p.movChain, p.divByZero);
    out := Prepend(summary, finalIR);
  }

  /** The output vector: the summary block, then the filtered instructions. */
  method Prepend(summary: seq<Instruction>, finalIR: seq<Instruction>) returns (out: seq<Instruction>)
    ensures out == summary + finalIR
  {
    out := [];
    for i := 0 to |summary|
      invariant out == summary[..i]
    {
      out := out + [summary[i]];
    }
    for i := 0 to |finalIR|
      invariant out == summary + finalIR[..i]
    {
      out := out + [finalIR[i]];
    }
  }
}
