/** What a line of text does to the machine's bytes: the assembler, with the standard lookup, and
    the machine together, from characters to registers and heap. */
module Effects {
  import opened Options
  import opened Words
  import opened Str
  import opened Scanner
  import opened Vm
  import opened VmInvariants
  import opened AbstractVm
  import opened Dasm
  import opened Canonical
  import opened Pipeline

  const NAMES := ["r0", "r1", "r2", "r3", "ip", "sp", "bp"]

  // The ten bytes at ip, bytes 8 and 9 of the register struct, are those line `k` assembles to.
  ghost predicate AtLine(code: string, k: nat, s: State)
    requires FitsTables(code) && k < |LinesOf(code)|
  {
    10 * k + 10 <= |s.heap| && Decode(s.heap[10 * k..10 * k + 10]) == Program(Standard, code)[k] &&
    s.regs[8] + 0x100 * s.regs[9] as int == 10 * k
  }

  lemma ImageAtLine(code: string, k: nat, image: seq<byte>, data: seq<byte>, s: State)
    requires FitsTables(code) && k < |LinesOf(code)| && Image(image, Program(Standard, code))
    requires s.heap == image + data && s.regs[8] + 0x100 * s.regs[9] as int == 10 * k
    ensures AtLine(code, k, s)
  {
    hide Decode, LinesOf, Program;
    assert s.heap[10 * k..10 * k + 10] == image[INS_SIZE * k..INS_SIZE * k + INS_SIZE];
  }

  lemma LineFetched(code: string, k: nat, s: State)
    requires FitsTables(code) && k < |LinesOf(code)| && AtLine(code, k, s)
    ensures Fetch(s) == Some(Emitted(ParseLine(Standard, LinesOf(code)[k])))
  {
    hide Decode, LinesOf, TokensOf, ParseLine;
  }

  // The turn that executes instruction `i`: what the operation does, and ip ten further.
  lemma TurnOf(s: State, i: Ins)
    requires Fetch(s) == Some(i)
    ensures Step(s).Some? <==> Exec(s, i).Some?
    ensures Step(s).Some? ==>
              var r, t := Exec(s, i).value, Step(s).value;
              t == r.(regs := r.regs[8 := t.regs[8]][9 := t.regs[9]]) &&
              t.regs[8] + 0x100 * t.regs[9] as int == (r.regs[8] + 0x100 * r.regs[9] as int + 10) % 0x1_0000
  {
    hide Exec, Fetch, Advance;
    if Step(s).Some? {
      StepDoes(s, Exec(s, i).value, Step(s).value);
    }
  }

  // The instruction that line `k` assembles to is the one the machine fetches.
  lemma InsOfLine(code: string, k: nat, s: State) returns (i: Ins)
    requires FitsTables(code) && k < |LinesOf(code)| && AtLine(code, k, s)
    ensures Fetch(s) == Some(i) && TokensOf(LinesOf(code)[k]) != []
    ensures var toks := TokensOf(LinesOf(code)[k]);
            var o := Lookup(Standard, OPS, toks[0]);
            i.op == (if o >= 0 then o else 0) &&
            (i.m0, i.a0) == (if |toks| > 1 then Classify(Standard, toks[1]) else (0, 0)) &&
            (i.m1, i.a1) == (if |toks| > 2 then Classify(Standard, toks[2]) else (0, 0))
  {
    hide LinesOf, TokensOf, ParseLine, Lookup, Classify, AtLine;
    LineFetched(code, k, s);
    LineMeans(Standard, LinesOf(code)[k]);
    i := Emitted(ParseLine(Standard, LinesOf(code)[k]));
  }

  lemma OperandLine(code: string, k: nat, o: Operand, op: nat, s: State) returns (i: Ins)
    requires FitsTables(code) && k < |LinesOf(code)| && AtLine(code, k, s) && ValidOperand(o)
    requires |TokensOf(LinesOf(code)[k])| == 2 && TokensOf(LinesOf(code)[k])[1] == OperandText(o)
    requires Lookup(Standard, OPS, TokensOf(LinesOf(code)[k])[0]) == op
    ensures Fetch(s) == Some(i) && i.op == op && i.m0 == OperandMask(o) && i.a0 == OperandValue(o)
  {
    hide LinesOf, TokensOf, Lookup, Classify, Fetch, Program, AtLine, OperandText, OperandMask, OperandValue;
    i := InsOfLine(code, k, s);
    ClassifyAgain(o);
  }

  lemma RegisterText(r: nat)
    requires r < 7
    ensures OperandText(Register(r)) == NAMES[r]
  {
  }

  // What an operand stands for: a number, in sixteen bits, the low byte of a register, or a heap cell
  // whose address is such a number or byte, plus bp, which is bytes 12 and 13.
  function CellOf(s: State, o: Operand): int
    requires ValidOperand(o) && (o.Pointer? || o.RegisterPointer?)
  {
    (if o.Pointer? then ToShort(ToInt32(o.n)) else s.regs[2 * o.r]) + Pack(s.regs[12], s.regs[13])
  }

  predicate Defined(s: State, o: Operand)
    requires ValidOperand(o)
  {
    o.Pointer? || o.RegisterPointer? ==> 0 <= CellOf(s, o) < |s.heap|
  }

  function ValueOf(s: State, o: Operand): int
    requires ValidOperand(o) && Defined(s, o)
  {
    match o
    case Number(n) => ToShort(ToInt32(n))
    case Register(r) => s.regs[2 * r]
    case _ => s.heap[CellOf(s, o)]
  }

  lemma OperandRead(s: State, o: Operand)
    requires ValidOperand(o)
    ensures Read(s, OperandMask(o), OperandValue(o)).Some? <==> Defined(s, o)
    ensures Defined(s, o) ==> Read(s, OperandMask(o), OperandValue(o)) == Some(ValueOf(s, o))
  {
    hide Pack, ToShort, ToInt32;
  }

  // `push` stores the low byte of what its operand says at sp and takes sp, bytes 10 and 11, on by two.
  lemma PushLine(code: string, k: nat, o: Operand, s: State)
    requires FitsTables(code) && k < |LinesOf(code)| && AtLine(code, k, s) && ValidOperand(o)
    requires TokensOf(LinesOf(code)[k]) == ["push", OperandText(o)]
    ensures var sp: int := Pack(s.regs[10], s.regs[11]);
            (Step(s).Some? <==> Defined(s, o) && 0 <= sp < |s.heap|) &&
            (Step(s).Some? ==>
               var t := Step(s).value;
               t.heap == s.heap[sp := ValueOf(s, o) % 0x100] && t.status == s.status &&
               Pack(t.regs[10], t.regs[11]) == (if sp < 0x7ffe then sp + 2 else sp - 0xfffe) &&
               t.regs[8] + 0x100 * t.regs[9] as int == 10 * k + 10 &&
               t.regs[..8] == s.regs[..8] && t.regs[12..] == s.regs[12..])
  {
    hide LinesOf, TokensOf, Lookup, Step, Pack, Fetch, Program, Decode, ValueOf, Defined, OperandText;
    Opcodes("push");
    var i := OperandLine(code, k, o, 2, s);
    PushTurn(s, i, o);
  }

  lemma PushTurn(s: State, i: Ins, o: Operand)
    requires Fetch(s) == Some(i) && i.op == 2
    requires ValidOperand(o) && i.m0 == OperandMask(o) && i.a0 == OperandValue(o)
    ensures var sp: int := Pack(s.regs[10], s.regs[11]);
            (Step(s).Some? <==> Defined(s, o) && 0 <= sp < |s.heap|) &&
            (Step(s).Some? ==>
               var t := Step(s).value;
               t.heap == s.heap[sp := ValueOf(s, o) % 0x100] && t.status == s.status &&
               Pack(t.regs[10], t.regs[11]) == (if sp < 0x7ffe then sp + 2 else sp - 0xfffe) &&
               t.regs[8] + 0x100 * t.regs[9] as int == (s.regs[8] + 0x100 * s.regs[9] as int + 10) % 0x1_0000 &&
               t.regs[..8] == s.regs[..8] && t.regs[12..] == s.regs[12..])
  {
    hide Step, Exec, Pack, Fetch, Read, ValueOf, Defined, OperandMask, OperandValue;
    OperandRead(s, o);
    TurnOf(s, i);
    PushDefined(s, i);
    if Step(s).Some? {
      var u, t := Exec(s, i).value, Step(s).value;
      PushDoes(s, i, u);
      assert t.regs[..8] == u.regs[..10][..8] == s.regs[..10][..8] == s.regs[..8];
      assert u.regs[8] == u.regs[..10][8] && u.regs[9] == u.regs[..10][9];
    }
  }

  lemma PushDefined(s: State, i: Ins)
    requires i.op == 2
    ensures Exec(s, i).Some? <==> Read(s, i.m0, i.a0).Some? && 0 <= Pack(s.regs[10], s.regs[11]) < |s.heap|
  {
    hide Read;
  }

  // `pop` of a register takes sp back by one and replaces the low byte by the byte at sp, also
  // where the register is sp or ip itself.
  lemma PopLine(code: string, k: nat, r: nat, s: State)
    requires FitsTables(code) && k < |LinesOf(code)| && AtLine(code, k, s) && r < 7
    requires TokensOf(LinesOf(code)[k]) == ["pop", NAMES[r]]
    ensures var sp: int := Pack(s.regs[10], s.regs[11]);
            (Step(s).Some? <==> 0 <= sp < |s.heap|) &&
            (Step(s).Some? ==>
               var t := Step(s).value;
               t.heap == s.heap && t.status == s.status && (r != 4 ==> t.regs[2 * r] == s.heap[sp]) &&
               (r != 5 ==> Pack(t.regs[10], t.regs[11]) == sp - 1) &&
               (r == 5 ==> t.regs[11] == if sp == 0 then 255 else (sp - 1) / 0x100) &&
               t.regs[8] + 0x100 * t.regs[9] as int == Jump(10 * k, r, s.heap[sp]) + 10 &&
               forall j :: 0 <= j < 16 && j != 2 * r && !(8 <= j < 12) ==> t.regs[j] == s.regs[j])
  {
    hide LinesOf, TokensOf, Lookup, Step, Pack, Fetch, Program, Decode, Jump, OperandText;
    Opcodes("pop");
    RegisterText(r);
    var i := OperandLine(code, k, Register(r), 3, s);
    PopTurn(s, i);
    var sp: int := Pack(s.regs[10], s.regs[11]);
    if 0 <= sp < |s.heap| {
      PopTurnIp(s, i);
      JumpRange(10 * k, r, s.heap[sp]);
    }
  }

  // Replacing the low byte of register `r` moves ip, at `ip`, if that is register 4.
  function Jump(ip: nat, r: nat, v: int): nat {
    if r == 4 then ip / 0x100 * 0x100 + v % 0x100 else ip
  }

  lemma JumpRange(ip: nat, r: nat, v: int)
    requires ip < 0x7f00
    ensures (Jump(ip, r, v) + 10) % 0x1_0000 == Jump(ip, r, v) + 10
  {
  }

  lemma JumpOf(lo: byte, hi: byte, r: nat, v: int)
    ensures Jump(lo + 0x100 * hi as int, r, v) == (if r == 4 then v % 0x100 else lo) + 0x100 * hi as int
  {
  }

  lemma PopTurn(s: State, i: Ins)
    requires Fetch(s) == Some(i) && i.op == 3 && i.m0 == 1 && 0 <= i.a0 < 7
    ensures var sp: int := Pack(s.regs[10], s.regs[11]);
            (Step(s).Some? <==> 0 <= sp < |s.heap|) &&
            (Step(s).Some? ==>
               var t := Step(s).value;
               t.heap == s.heap && t.status == s.status && (i.a0 != 4 ==> t.regs[2 * i.a0] == s.heap[sp]) &&
               (i.a0 != 5 ==> Pack(t.regs[10], t.regs[11]) == sp - 1) &&
               (i.a0 == 5 ==> t.regs[11] == if sp == 0 then 255 else (sp - 1) / 0x100) &&
               forall j :: 0 <= j < 16 && j != 2 * i.a0 && !(8 <= j < 12) ==> t.regs[j] == s.regs[j])
  {
    hide Step, Exec, Pack, Fetch;
    TurnOf(s, i);
    PopDefined(s, i);
    if Step(s).Some? {
      PopDoes(s, i, Exec(s, i).value);
    }
  }

  lemma PopTurnIp(s: State, i: Ins)
    requires Fetch(s) == Some(i) && i.op == 3 && i.m0 == 1 && 0 <= i.a0 < 7 && Step(s).Some?
    ensures var sp, t := Pack(s.regs[10], s.regs[11]), Step(s).value;
            0 <= sp < |s.heap| &&
            t.regs[8] + 0x100 * t.regs[9] as int ==
            (Jump(s.regs[8] + 0x100 * s.regs[9] as int, i.a0, s.heap[sp]) + 10) % 0x1_0000
  {
    hide Step, Exec, Pack, Fetch, Jump;
    TurnOf(s, i);
    var u := Exec(s, i).value;
    PopDoes(s, i, u);
    var sp := Pack(s.regs[10], s.regs[11]);
    JumpOf(s.regs[8], s.regs[9], i.a0, s.heap[sp]);
    assert u.regs[8] == (if i.a0 == 4 then s.heap[sp] else s.regs[8]) && u.regs[9] == s.regs[9];
  }

  lemma PopDefined(s: State, i: Ins)
    requires i.op == 3 && i.m0 == 1 && 0 <= i.a0 < 8
    ensures Exec(s, i).Some? <==> 0 <= Pack(s.regs[10], s.regs[11]) < |s.heap|
  {
  }

  // The registers with sp one less, from `sp`, which is not negative.
  function Lowered(s: State, sp: nat): State {
    s.(regs := s.regs[10 := (sp - 1) % 0x100][11 := if sp == 0 then 255 else (sp - 1) / 0x100 % 0x100])
  }

  // `pop` to a heap cell stores the byte at sp there; the cell is found with sp already one less.
  lemma PopStoreLine(code: string, k: nat, o: Operand, s: State)
    requires FitsTables(code) && k < |LinesOf(code)| && AtLine(code, k, s)
    requires ValidOperand(o) && (o.Pointer? || o.RegisterPointer?)
    requires TokensOf(LinesOf(code)[k]) == ["pop", OperandText(o)]
    ensures var sp: int := Pack(s.regs[10], s.regs[11]);
            (Step(s).Some? <==> 0 <= sp < |s.heap| && Defined(Lowered(s, sp), o)) &&
            (Step(s).Some? ==>
               var t, u := Step(s).value, Lowered(s, sp);
               t.heap == s.heap[CellOf(u, o) := s.heap[sp]] && t.status == s.status &&
               t.regs[8] + 0x100 * t.regs[9] as int == 10 * k + 10 &&
               t.regs[..8] == u.regs[..8] && t.regs[10..] == u.regs[10..])
  {
    hide LinesOf, TokensOf, Lookup, Step, Pack, Fetch, Program, Decode, CellOf, OperandText, Lowered;
    Opcodes("pop");
    var i := OperandLine(code, k, o, 3, s);
    PopStoreTurn(s, i, o);
  }

  lemma PopStoreTurn(s: State, i: Ins, o: Operand)
    requires Fetch(s) == Some(i) && i.op == 3
    requires ValidOperand(o) && (o.Pointer? || o.RegisterPointer?)
    requires i.m0 == OperandMask(o) && i.a0 == OperandValue(o)
    ensures var sp: int := Pack(s.regs[10], s.regs[11]);
            (Step(s).Some? <==> 0 <= sp < |s.heap| && Defined(Lowered(s, sp), o)) &&
            (Step(s).Some? ==>
               var t, u := Step(s).value, Lowered(s, sp);
               t.heap == s.heap[CellOf(u, o) := s.heap[sp]] && t.status == s.status &&
               t.regs[8] + 0x100 * t.regs[9] as int == (s.regs[8] + 0x100 * s.regs[9] as int + 10) % 0x1_0000 &&
               t.regs[..8] == u.regs[..8] && t.regs[10..] == u.regs[10..])
  {
    hide Step, Exec, Fetch, Pack, CellOf, OperandMask, OperandValue;
    TurnOf(s, i);
    PopStoreDefined(s, i, o);
  }

  lemma PopStoreDefined(s: State, i: Ins, o: Operand)
    requires ValidOperand(o) && (o.Pointer? || o.RegisterPointer?)
    requires i.op == 3 && i.m0 == OperandMask(o) && i.a0 == OperandValue(o)
    ensures var sp: int := Pack(s.regs[10], s.regs[11]);
            (Exec(s, i).Some? <==> 0 <= sp < |s.heap| && Defined(Lowered(s, sp), o)) &&
            (Exec(s, i).Some? ==>
               Exec(s, i).value == Lowered(s, sp).(heap := s.heap[CellOf(Lowered(s, sp), o) := s.heap[sp]]))
  {
    hide Exec, Write, CellOf, Pack, Lowered, OperandMask, OperandValue;
    var sp: int := Pack(s.regs[10], s.regs[11]);
    PopExec(s, i);
    if 0 <= sp < |s.heap| {
      LoweredHeap(s, sp);
      OperandWritten(Lowered(s, sp), o, s.heap[sp]);
    }
  }

  lemma LoweredHeap(s: State, sp: nat)
    ensures Lowered(s, sp).heap == s.heap
  {
  }

  lemma PopExec(s: State, i: Ins)
    requires i.op == 3
    ensures var sp: int := Pack(s.regs[10], s.regs[11]);
            Exec(s, i) == if 0 <= sp < |s.heap| then Write(Lowered(s, sp), i.m0, i.a0, s.heap[sp]) else None
  {
    hide ToShort, Low, High, Pack, Write;
    var sp: int := Pack(s.regs[10], s.regs[11]);
    if sp >= 0 {
      BytesBelow(sp);
      assert s.(regs := Set(s.regs, SP, ToShort(sp - 1))) == Lowered(s, sp);
    }
  }

  lemma OperandWritten(s: State, o: Operand, v: short)
    requires ValidOperand(o) && (o.Pointer? || o.RegisterPointer?)
    ensures Write(s, OperandMask(o), OperandValue(o), v) ==
            if Defined(s, o) then Some(s.(heap := s.heap[CellOf(s, o) := v % 0x100])) else None
  {
    hide Pack, ToShort, ToInt32;
  }

  lemma OperandsLine(code: string, k: nat, o: Operand, p: Operand, op: nat, s: State) returns (i: Ins)
    requires FitsTables(code) && k < |LinesOf(code)| && AtLine(code, k, s) && ValidOperand(o) && ValidOperand(p)
    requires |TokensOf(LinesOf(code)[k])| == 3 && TokensOf(LinesOf(code)[k])[1..] == [OperandText(o), OperandText(p)]
    requires Lookup(Standard, OPS, TokensOf(LinesOf(code)[k])[0]) == op
    ensures Fetch(s) == Some(i) && i.op == op
    ensures i.m0 == OperandMask(o) && i.a0 == OperandValue(o) && i.m1 == OperandMask(p) && i.a1 == OperandValue(p)
  {
    hide LinesOf, TokensOf, Lookup, Classify, Fetch, Program, AtLine, OperandText, OperandMask, OperandValue;
    i := InsOfLine(code, k, s);
    var toks := TokensOf(LinesOf(code)[k]);
    assert toks[1] == toks[1..][0] && toks[2] == toks[1..][1];
    ClassifyAgain(o);
    ClassifyAgain(p);
  }

  // `mov` into a register replaces its low byte by the low byte of what the operand says.
  lemma MovLine(code: string, k: nat, r: nat, o: Operand, s: State)
    requires FitsTables(code) && k < |LinesOf(code)| && AtLine(code, k, s)
    requires r < 7 && ValidOperand(o)
    requires TokensOf(LinesOf(code)[k]) == ["mov", NAMES[r], OperandText(o)]
    ensures Step(s).Some? <==> Defined(s, o)
    ensures Step(s).Some? ==>
              var t := Step(s).value;
              t.heap == s.heap && t.status == s.status &&
              t.regs[8] + 0x100 * t.regs[9] as int == Jump(10 * k, r, ValueOf(s, o)) + 10 &&
              forall j :: 0 <= j < 16 && j != 8 && j != 9 ==>
                t.regs[j] == if j == 2 * r then ValueOf(s, o) % 0x100 else s.regs[j]
  {
    hide LinesOf, TokensOf, Lookup, Step, Pack, Fetch, Program, Decode, ValueOf, Defined, OperandText, Jump;
    Opcodes("mov");
    RegisterText(r);
    var i := OperandsLine(code, k, Register(r), o, 1, s);
    MovTurn(s, i, o);
    if Defined(s, o) {
      JumpRange(10 * k, r, ValueOf(s, o));
    }
  }

  lemma MovTurn(s: State, i: Ins, o: Operand)
    requires Fetch(s) == Some(i) && i.op == 1 && i.m0 == 1 && 0 <= i.a0 < 7
    requires ValidOperand(o) && i.m1 == OperandMask(o) && i.a1 == OperandValue(o)
    ensures Step(s).Some? <==> Defined(s, o)
    ensures Step(s).Some? ==>
              var t := Step(s).value;
              t.heap == s.heap && t.status == s.status &&
              t.regs[8] + 0x100 * t.regs[9] as int ==
              (Jump(s.regs[8] + 0x100 * s.regs[9] as int, i.a0, ValueOf(s, o)) + 10) % 0x1_0000 &&
              forall j :: 0 <= j < 16 && j != 8 && j != 9 ==>
                t.regs[j] == if j == 2 * i.a0 then ValueOf(s, o) % 0x100 else s.regs[j]
  {
    hide Step, Exec, Fetch, ValueOf, Defined, Read, OperandMask, OperandValue, Jump, Pack;
    OperandRead(s, o);
    TurnOf(s, i);
    MovDefined(s, i);
    if Step(s).Some? {
      JumpOf(s.regs[8], s.regs[9], i.a0, ValueOf(s, o));
    }
  }

  lemma MovDefined(s: State, i: Ins)
    requires i.op == 1 && i.m0 == 1 && 0 <= i.a0 < 8
    ensures Exec(s, i).Some? <==> Read(s, i.m1, i.a1).Some?
    ensures Exec(s, i).Some? ==>
              Exec(s, i).value == s.(regs := s.regs[2 * i.a0 := Read(s, i.m1, i.a1).value % 0x100])
  {
    hide Read;
  }

  // `mov` to a heap cell stores the low byte of what its second operand says there.
  lemma StoreLine(code: string, k: nat, o: Operand, p: Operand, s: State)
    requires FitsTables(code) && k < |LinesOf(code)| && AtLine(code, k, s)
    requires ValidOperand(o) && (o.Pointer? || o.RegisterPointer?) && ValidOperand(p)
    requires TokensOf(LinesOf(code)[k]) == ["mov", OperandText(o), OperandText(p)]
    ensures Step(s).Some? <==> Defined(s, o) && Defined(s, p)
    ensures Step(s).Some? ==>
              var t := Step(s).value;
              t.heap == s.heap[CellOf(s, o) := ValueOf(s, p) % 0x100] && t.status == s.status &&
              t.regs[8] + 0x100 * t.regs[9] as int == 10 * k + 10 &&
              t.regs[..8] == s.regs[..8] && t.regs[10..] == s.regs[10..]
  {
    hide LinesOf, TokensOf, Lookup, Step, Pack, Fetch, Program, Decode, CellOf, ValueOf, OperandText;
    Opcodes("mov");
    var i := OperandsLine(code, k, o, p, 1, s);
    StoreTurn(s, i, o, p);
  }

  lemma StoreTurn(s: State, i: Ins, o: Operand, p: Operand)
    requires Fetch(s) == Some(i) && i.op == 1
    requires ValidOperand(o) && (o.Pointer? || o.RegisterPointer?) && ValidOperand(p)
    requires i.m0 == OperandMask(o) && i.a0 == OperandValue(o) && i.m1 == OperandMask(p) && i.a1 == OperandValue(p)
    ensures Step(s).Some? <==> Defined(s, o) && Defined(s, p)
    ensures Step(s).Some? ==>
              var t := Step(s).value;
              t.heap == s.heap[CellOf(s, o) := ValueOf(s, p) % 0x100] && t.status == s.status &&
              t.regs[8] + 0x100 * t.regs[9] as int == (s.regs[8] + 0x100 * s.regs[9] as int + 10) % 0x1_0000 &&
              t.regs[..8] == s.regs[..8] && t.regs[10..] == s.regs[10..]
  {
    hide Step, Exec, Fetch, CellOf, ValueOf, Read, OperandMask, OperandValue;
    OperandRead(s, p);
    TurnOf(s, i);
    StoreDefined(s, i, o);
  }

  lemma StoreDefined(s: State, i: Ins, o: Operand)
    requires ValidOperand(o) && (o.Pointer? || o.RegisterPointer?)
    requires i.op == 1 && i.m0 == OperandMask(o) && i.a0 == OperandValue(o)
    ensures Exec(s, i).Some? <==> Defined(s, o) && Read(s, i.m1, i.a1).Some?
    ensures Exec(s, i).Some? ==>
              Exec(s, i).value == s.(heap := s.heap[CellOf(s, o) := Read(s, i.m1, i.a1).value % 0x100])
  {
    hide Read, Write, CellOf, Defined, OperandMask, OperandValue;
    if Read(s, i.m1, i.a1).Some? {
      OperandWritten(s, o, Read(s, i.m1, i.a1).value);
    }
  }

  // `cmp` leaves 7, 2 or 4 in the flags, byte 14, for equal, greater and less.
  lemma CmpLine(code: string, k: nat, o: Operand, p: Operand, s: State)
    requires FitsTables(code) && k < |LinesOf(code)| && AtLine(code, k, s)
    requires ValidOperand(o) && ValidOperand(p)
    requires TokensOf(LinesOf(code)[k]) == ["cmp", OperandText(o), OperandText(p)]
    ensures Step(s).Some? <==> Defined(s, o) && Defined(s, p)
    ensures Step(s).Some? ==>
              var t, x, y := Step(s).value, ValueOf(s, o), ValueOf(s, p);
              t.heap == s.heap && t.status == s.status && t.regs[8] + 0x100 * t.regs[9] as int == 10 * k + 10 &&
              t.regs[14] / 8 == s.regs[14] / 8 && t.regs[14] % 8 == (if x == y then 7 else if x > y then 2 else 4) &&
              forall j :: 0 <= j < 16 && j != 8 && j != 9 && j != 14 ==> t.regs[j] == s.regs[j]
  {
    hide LinesOf, TokensOf, Lookup, Step, Pack, Fetch, Program, Decode, ValueOf, Defined, OperandText;
    Opcodes("cmp");
    var i := OperandsLine(code, k, o, p, 4, s);
    CmpTurn(s, i, o, p);
  }

  lemma CmpTurn(s: State, i: Ins, o: Operand, p: Operand)
    requires Fetch(s) == Some(i) && i.op == 4
    requires ValidOperand(o) && i.m0 == OperandMask(o) && i.a0 == OperandValue(o)
    requires ValidOperand(p) && i.m1 == OperandMask(p) && i.a1 == OperandValue(p)
    ensures Step(s).Some? <==> Defined(s, o) && Defined(s, p)
    ensures Step(s).Some? ==>
              var t, x, y := Step(s).value, ValueOf(s, o), ValueOf(s, p);
              t.heap == s.heap && t.status == s.status &&
              t.regs[8] + 0x100 * t.regs[9] as int == (s.regs[8] + 0x100 * s.regs[9] as int + 10) % 0x1_0000 &&
              t.regs[14] / 8 == s.regs[14] / 8 && t.regs[14] % 8 == (if x == y then 7 else if x > y then 2 else 4) &&
              forall j :: 0 <= j < 16 && j != 8 && j != 9 && j != 14 ==> t.regs[j] == s.regs[j]
  {
    hide Step, Exec, Fetch, ValueOf, Defined, Read, OperandMask, OperandValue;
    OperandRead(s, o);
    OperandRead(s, p);
    TurnOf(s, i);
    CmpDefined(s, i);
    if Step(s).Some? {
      CmpDoes(s, i, Exec(s, i).value);
    }
  }

  lemma CmpDefined(s: State, i: Ins)
    requires i.op == 4
    ensures Exec(s, i).Some? <==> Read(s, i.m0, i.a0).Some? && Read(s, i.m1, i.a1).Some?
  {
    hide Read;
  }

  // `hlt` ends the run and does nothing else.
  lemma HltLine(code: string, k: nat, s: State)
    requires FitsTables(code) && k < |LinesOf(code)| && AtLine(code, k, s)
    requires TokensOf(LinesOf(code)[k]) == ["hlt"]
    ensures Step(s).Some?
    ensures var t := Step(s).value;
            t.heap == s.heap && t.status == Done && t.regs[8] + 0x100 * t.regs[9] as int == 10 * k + 10 &&
            t.regs[..8] == s.regs[..8] && t.regs[10..] == s.regs[10..]
  {
    hide LinesOf, TokensOf, Lookup, Classify, Step, Exec, Fetch, Program, Decode;
    var i := InsOfLine(code, k, s);
    Opcodes("hlt");
    TurnOf(s, i);
    HltDoes(s, i);
  }

  lemma HltDoes(s: State, i: Ins)
    requires i.op == 0
    ensures Exec(s, i) == Some(s.(status := Done))
  {
  }

  // ----- two texts, from characters to the end of the run -----

  lemma ThenHlt(op: nat, text: string)
    requires op < |OPS| && text == OPS[op] + " r0"
    ensures FitsTables(text + "\nhlt") && LinesOf(text + "\nhlt") == [text, "hlt"]
    ensures TokensOf(text) == [OPS[op], "r0"] && TokensOf("hlt") == ["hlt"]
  {
    hide Join, SourceText, LinesOf, TokensOf, FitsTables, Program;
    var first, second := Source(op, [Register(0)]), Source(0, []);
    var p := [first, second];
    OneOperand(op, 0);
    NoOperand();
    assert OPS[op] + " " + "r0" == text;
    assert ProgramLines(p) == [text, "hlt"];
    JoinTwo(text, "hlt", '\n');
    assert text + ['\n'] + "hlt" == text + "\nhlt";
    AssemblesBack(p);
    LinesAgain(p);
    TokensAgain(first);
    TokensAgain(second);
    assert SourceTokens(first) == [OPS[op], "r0"];
  }

  lemma TwoTurns(s: State, t: State, u: State)
    requires s.status == t.status == Running && u.status != Running
    requires Step(s) == Some(t) && Step(t) == Some(u)
    ensures Steps(s, 2) == Some(u)
  {
    hide Step;
    assert Steps(t, 1) == Some(u);
  }

  // "push r0" and "hlt" store r0's byte at sp, leave sp + 2, and stop, wherever sp is in the heap
  // but on the second instruction.
  lemma PushRun(image: seq<byte>, data: seq<byte>, s: State)
    requires FitsTables("push r0\nhlt") && Image(image, Program(Standard, "push r0\nhlt"))
    requires s.heap == image + data && s.status == Running && s.regs[8] == s.regs[9] == 0
    requires var sp: int := Pack(s.regs[10], s.regs[11]); 0 <= sp < |s.heap| && !(10 <= sp < 20)
    ensures Steps(s, 2).Some?
    ensures var u, sp: int := Steps(s, 2).value, Pack(s.regs[10], s.regs[11]);
            u.status == Done && u.heap == s.heap[sp := s.regs[0]] &&
            Pack(u.regs[10], u.regs[11]) == (if sp < 0x7ffe then sp + 2 else sp - 0xfffe) &&
            u.regs[8] + 0x100 * u.regs[9] as int == 20 &&
            u.regs[..8] == s.regs[..8] && u.regs[12..] == s.regs[12..]
  {
    hide Decode, LinesOf, TokensOf, FitsTables, Program, Step, Steps, Pack;
    var text := "push r0\nhlt";
    assert text == "push r0" + "\nhlt" && "push r0" == OPS[2] + " r0";
    ThenHlt(2, "push r0");
    ImageAtLine(text, 0, image, data, s);
    RegisterText(0);
    PushLine(text, 0, Register(0), s);
    var t := Step(s).value;
    assert t.heap[10..20] == s.heap[10..20] == image[10..20];
    HltLine(text, 1, t);
    var u := Step(t).value;
    TwoTurns(s, t, u);
    assert u.regs[10] == u.regs[10..][0] && u.regs[11] == u.regs[10..][1] && u.regs[12..] == u.regs[10..][2..];
    assert t.regs[10] == t.regs[10..][0] && t.regs[11] == t.regs[10..][1] && t.regs[12..] == t.regs[10..][2..];
  }

  // "pop r0" and "hlt" load the byte at sp into r0, leave sp - 1, and stop, wherever sp is.
  lemma PopRun(image: seq<byte>, data: seq<byte>, s: State)
    requires FitsTables("pop r0\nhlt") && Image(image, Program(Standard, "pop r0\nhlt"))
    requires s.heap == image + data && s.status == Running && s.regs[8] == s.regs[9] == 0
    requires var sp: int := Pack(s.regs[10], s.regs[11]); 0 <= sp < |s.heap|
    ensures Steps(s, 2).Some?
    ensures var u, sp: int := Steps(s, 2).value, Pack(s.regs[10], s.regs[11]);
            u.status == Done && u.heap == s.heap && u.regs[0] == s.heap[sp] &&
            Pack(u.regs[10], u.regs[11]) == sp - 1 && u.regs[8] + 0x100 * u.regs[9] as int == 20 &&
            u.regs[1..8] == s.regs[1..8] && u.regs[12..] == s.regs[12..]
  {
    hide Decode, LinesOf, TokensOf, FitsTables, Program, Step, Steps, Pack;
    var text := "pop r0\nhlt";
    assert text == "pop r0" + "\nhlt" && "pop r0" == OPS[3] + " r0";
    ThenHlt(3, "pop r0");
    ImageAtLine(text, 0, image, data, s);
    PopLine(text, 0, 0, s);
    var t := Step(s).value;
    ImageAtLine(text, 1, image, data, t);
    HltLine(text, 1, t);
    var u := Step(t).value;
    TwoTurns(s, t, u);
    assert u.regs[..8][0] == t.regs[0] == s.heap[Pack(s.regs[10], s.regs[11])];
    assert u.regs[1..8] == u.regs[..8][1..] == t.regs[..8][1..] == s.regs[..8][1..];
    assert u.regs[10] == u.regs[10..][0] && u.regs[11] == u.regs[10..][1] && u.regs[12..] == u.regs[10..][2..];
    assert t.regs[10] == t.regs[10..][0] && t.regs[11] == t.regs[10..][1] && t.regs[12..] == t.regs[10..][2..];
  }

  // The two texts from their characters on: assembled, copied to the heap, and run.

  method AssembleAndPush(m: Machine)
    requires m.Valid() && m.status == Ready && m.registers[8] == m.registers[9] == 0 && m.heap.Length >= 2550
    requires var sp: int := Pack(m.registers[10], m.registers[11]); 0 <= sp < m.heap.Length && !(10 <= sp < 20)
    modifies m`status, m.registers, m.heap
    ensures m.Valid() && m.status == Done && m.registers[8] + 0x100 * m.registers[9] as int == 20
    ensures var sp: int := old(Pack(m.registers[10], m.registers[11]));
            0 <= sp < m.heap.Length && m.heap[sp] == old(m.registers[0]) &&
            Pack(m.registers[10], m.registers[11]) == if sp < 0x7ffe then sp + 2 else sp - 0xfffe
  {
    hide Decode, LinesOf, TokensOf, FitsTables, Program, Steps, Pack, Image;
    assert "push r0" + "\nhlt" == "push r0\nhlt" && "push r0" == OPS[2] + " r0";
    ThenHlt(2, "push r0");
    ghost var image, data;
    image, data := Load(Standard, m, "push r0\nhlt");
    PushRun(image, data, Start(m.View()));
    m.Run(2);
  }

  method AssembleAndPop(m: Machine)
    requires m.Valid() && m.status == Ready && m.registers[8] == m.registers[9] == 0 && m.heap.Length >= 2550
    requires var sp: int := Pack(m.registers[10], m.registers[11]); 0 <= sp < m.heap.Length
    modifies m`status, m.registers, m.heap
    ensures m.Valid() && m.status == Done && m.registers[8] + 0x100 * m.registers[9] as int == 20
    ensures var sp: int := old(Pack(m.registers[10], m.registers[11]));
            0 <= sp < m.heap.Length && m.registers[0] == m.heap[sp] &&
            Pack(m.registers[10], m.registers[11]) == sp - 1 && (sp == 0 ==> m.registers[0] == 15)
  {
    hide Decode, LinesOf, TokensOf, FitsTables, Program, Steps, Pack, Image;
    assert "pop r0" + "\nhlt" == "pop r0\nhlt" && "pop r0" == OPS[3] + " r0";
    ThenHlt(3, "pop r0");
    ghost var image, data;
    image, data := Load(Standard, m, "pop r0\nhlt");
    FirstByte("pop r0\nhlt", image);
    PopRun(image, data, Start(m.View()));
    m.Run(2);
  }

  // The first byte of every assembled text is the mask byte 15.
  lemma FirstByte(code: string, image: seq<byte>)
    requires FitsTables(code) && LinesOf(code) != [] && Image(image, Program(Standard, code))
    ensures image != [] && image[0] == 15
  {
    hide Decode, LinesOf, TokensOf, ParseLine;
    assert Decode(image[INS_SIZE * 0..INS_SIZE * 0 + INS_SIZE]) == Program(Standard, code)[0];
    Layout(image[..INS_SIZE], Program(Standard, code)[0]);
  }
}
