/** A clean machine that runs a list of instructions, and the proof that the byte machine
    refines it when the heap starts with the program. */
module AbstractVm {
  import opened Options
  import opened Words
  import opened Vm
  import opened VmInvariants

  // The outcome of the last comparison.
  datatype Comparison = Unset | Less | Equal | Greater

  // `pc` counts instructions, r0..r3 and bp are bytes, `data` is the heap behind the program.
  datatype Abstract = Abstract(
    pc: nat, r: Bank, bp: byte, sp: short, flags: Comparison, data: seq<byte>, status: Status)

  type Bank = r: seq<byte> | |r| == 4 witness seq(4, _ => 0)

  // `Fault` is a memory access outside the heap. `Escape` is a step that leaves what an
  // instruction list can describe: storing into the program, jumping between instructions,
  // running off the end.
  datatype Outcome = Next(state: Abstract) | Fault | Escape

  // `code` is a byte image of `prog`; what its padding bytes hold does not matter.
  ghost predicate Image(code: seq<byte>, prog: seq<Ins>) {
    |code| == INS_SIZE * |prog| &&
    forall k :: 0 <= k < |prog| ==> Decode(code[INS_SIZE * k..INS_SIZE * k + INS_SIZE]) == prog[k]
  }

  ghost predicate WellFormedProgram(prog: seq<Ins>) {
    INS_SIZE * |prog| <= 0x7f00 && forall i :: 0 <= i < |prog| ==> WellFormed(prog[i])
  }

  // ----- the abstract machine -----

  function RegisterByte(a: Abstract, k: nat): byte
    requires k < 7
  {
    if k < 4 then a.r[k]
    else if k == IP then LowByte(INS_SIZE * a.pc)
    else if k == SP then LowByte(a.sp)
    else a.bp
  }

  function MemoryAt(code: seq<byte>, a: Abstract, p: int): Option<short> {
    if 0 <= p < |code| then Some(code[p])
    else if |code| <= p < |code| + |a.data| then Some(a.data[p - |code|])
    else None
  }

  function MemoryPut(code: seq<byte>, a: Abstract, p: int, v: short): Outcome {
    if 0 <= p < |code| then Escape
    else if |code| <= p < |code| + |a.data| then Next(a.(data := a.data[p - |code| := LowByte(v)]))
    else Fault
  }

  function ReadOperand(code: seq<byte>, a: Abstract, m: schar, x: short): Option<short>
    requires WellFormedOperand(m, x)
  {
    match m
    case 0 => Some(x)
    case 1 => Some(RegisterByte(a, x))
    case 2 => MemoryAt(code, a, x + a.bp)
    case _ => MemoryAt(code, a, RegisterByte(a, x) + a.bp)
  }

  // Storing into a register replaces its low byte. For ip that is a jump within 256 bytes.
  function PutRegister(a: Abstract, k: nat, v: short): Outcome
    requires k < 7
  {
    if k < 4 then Next(a.(r := a.r[k := LowByte(v)]))
    else if k == IP then
      var target := INS_SIZE * a.pc / 0x100 * 0x100 + LowByte(v);
      if target % INS_SIZE == 0 then Next(a.(pc := target / INS_SIZE)) else Escape
    else if k == SP then Next(a.(sp := Pack(LowByte(v), High(a.sp))))
    else Next(a.(bp := LowByte(v)))
  }

  function WriteOperand(code: seq<byte>, a: Abstract, m: schar, x: short, v: short): Outcome
    requires WellFormedOperand(m, x)
  {
    match m
    case 0 => Next(a)
    case 1 => PutRegister(a, x, v)
    case 2 => MemoryPut(code, a, x + a.bp, v)
    case _ => MemoryPut(code, a, RegisterByte(a, x) + a.bp, v)
  }

  function Compare(x: short, y: short): Comparison {
    if x == y then Equal else if x < y then Less else Greater
  }

  function Perform(code: seq<byte>, a: Abstract, i: Ins): Outcome
    requires WellFormed(i)
  {
    match i.op
    case 0 => Next(a.(status := Done))
    case 1 =>
      (match ReadOperand(code, a, i.m1, i.a1)
       case None => Fault
       case Some(v) => WriteOperand(code, a, i.m0, i.a0, v))
    case 2 =>
      (match ReadOperand(code, a, i.m0, i.a0)
       case None => Fault
       case Some(v) =>
         match MemoryPut(code, a, a.sp, v)
         case Next(b) => Next(b.(sp := ToShort(a.sp + 2)))
         case other => other)
    case 3 =>
      (match MemoryAt(code, a, a.sp)
       case None => Fault
       case Some(v) => WriteOperand(code, a.(sp := ToShort(a.sp - 1)), i.m0, i.a0, v))
    case _ =>
      (match (ReadOperand(code, a, i.m0, i.a0), ReadOperand(code, a, i.m1, i.a1))
       case (Some(x), Some(y)) => Next(a.(flags := Compare(x, y)))
       case _ => Fault)
  }

  function AbstractStep(code: seq<byte>, prog: seq<Ins>, a: Abstract): Outcome
    requires WellFormedProgram(prog)
  {
    if a.pc >= |prog| then Escape
    else
      match Perform(code, a, prog[a.pc])
      case Next(b) => Next(b.(pc := b.pc + 1))
      case other => other
  }

  function AbstractRun(code: seq<byte>, prog: seq<Ins>, a: Abstract, n: nat): Outcome
    requires WellFormedProgram(prog)
    decreases n
  {
    if n == 0 || a.status != Running then Next(a)
    else
      match AbstractStep(code, prog, a)
      case Next(b) => AbstractRun(code, prog, b, n - 1)
      case other => other
  }

  // ----- the refinement -----

  function FlagsByte(c: Comparison): byte {
    match c
    case Unset => 0
    case Less => 4
    case Equal => 7
    case Greater => 2
  }

  ghost predicate IpHolds(regs: Registers, pc: nat) {
    INS_SIZE * pc < 0x8000 &&
    regs[2 * IP] == LowByte(INS_SIZE * pc) && regs[2 * IP + 1] == INS_SIZE * pc / 0x100
  }

  ghost predicate Represents(code: seq<byte>, s: State, a: Abstract) {
    s.heap == code + a.data && s.status == a.status &&
    s.regs[0] == a.r[0] && s.regs[2] == a.r[1] && s.regs[4] == a.r[2] && s.regs[6] == a.r[3] &&
    s.regs[1] == s.regs[3] == s.regs[5] == s.regs[7] == 0 &&
    IpHolds(s.regs, a.pc) &&
    s.regs[2 * SP] == Low(a.sp) && s.regs[2 * SP + 1] == High(a.sp) &&
    s.regs[2 * BP] == a.bp && s.regs[2 * BP + 1] == 0 &&
    s.regs[FLAGS] == FlagsByte(a.flags)
  }

  // What the byte machine does where the abstract one goes on, and where it faults.
  ghost predicate Matches(code: seq<byte>, r: Option<State>, o: Outcome) {
    match o
    case Next(b) => r.Some? && Represents(code, r.value, b)
    case Fault => r == None
    case Escape => true
  }

  lemma RegisterAgrees(code: seq<byte>, s: State, a: Abstract, k: nat)
    requires Represents(code, s, a) && k < 7
    ensures s.regs[2 * k] == RegisterByte(a, k)
    ensures Get(s.regs, BP) == a.bp && Get(s.regs, SP) == a.sp && Get(s.regs, IP) == INS_SIZE * a.pc
  {
    PackUnpack(a.sp);
  }

  lemma ReadAgrees(code: seq<byte>, s: State, a: Abstract, m: schar, x: short)
    requires Represents(code, s, a) && WellFormedOperand(m, x)
    ensures Read(s, m, x) == ReadOperand(code, a, m, x)
  {
    if m == 1 || m == 3 {
      RegisterAgrees(code, s, a, x);
    } else {
      RegisterAgrees(code, s, a, BP);
    }
  }

  lemma PutAgrees(code: seq<byte>, s: State, a: Abstract, p: int, v: short)
    requires Represents(code, s, a)
    ensures Matches(code, HeapPut(s, p, v), MemoryPut(code, a, p, v))
  {
  }

  lemma PutRegisterAgrees(code: seq<byte>, s: State, a: Abstract, k: nat, v: short)
    requires Represents(code, s, a) && k < 7 && INS_SIZE * a.pc < 0x7f00
    ensures Matches(code, Some(s.(regs := s.regs[2 * k := LowByte(v)])), PutRegister(a, k, v))
  {
    if k == SP {
      UnpackPack(LowByte(v), High(a.sp));
    }
  }

  lemma WriteAgrees(code: seq<byte>, s: State, a: Abstract, m: schar, x: short, v: short)
    requires Represents(code, s, a) && WellFormedOperand(m, x) && INS_SIZE * a.pc < 0x7f00
    ensures Matches(code, Write(s, m, x, v), WriteOperand(code, a, m, x, v))
  {
    match m {
      case 0 =>
      case 1 => PutRegisterAgrees(code, s, a, x, v);
      case 2 =>
        RegisterAgrees(code, s, a, BP);
        PutAgrees(code, s, a, x + a.bp, v);
      case _ =>
        RegisterAgrees(code, s, a, x);
        PutAgrees(code, s, a, RegisterByte(a, x) + a.bp, v);
    }
  }

  lemma SetSpAgrees(code: seq<byte>, s: State, a: Abstract, v: short)
    requires Represents(code, s, a)
    ensures Represents(code, s.(regs := Set(s.regs, SP, v)), a.(sp := v))
  {
  }

  lemma PushAgrees(code: seq<byte>, s: State, a: Abstract, i: Ins)
    requires Represents(code, s, a) && WellFormed(i) && INS_SIZE * a.pc < 0x7f00 && i.op == 2
    ensures Matches(code, Exec(s, i), Perform(code, a, i))
  {
    hide Read, ReadOperand, Write, WriteOperand;
    ReadAgrees(code, s, a, i.m0, i.a0);
    RegisterAgrees(code, s, a, SP);
    if Read(s, i.m0, i.a0).Some? {
      var v := Read(s, i.m0, i.a0).value;
      PutAgrees(code, s, a, a.sp, v);
      if MemoryPut(code, a, a.sp, v).Next? {
        SetSpAgrees(code, HeapPut(s, a.sp, v).value, MemoryPut(code, a, a.sp, v).state, ToShort(a.sp + 2));
      }
    }
  }

  lemma PopAgrees(code: seq<byte>, s: State, a: Abstract, i: Ins)
    requires Represents(code, s, a) && WellFormed(i) && INS_SIZE * a.pc < 0x7f00 && i.op == 3
    ensures Matches(code, Exec(s, i), Perform(code, a, i))
  {
    hide Read, ReadOperand, Write, WriteOperand;
    RegisterAgrees(code, s, a, SP);
    assert HeapAt(s, a.sp) == MemoryAt(code, a, a.sp);
    if HeapAt(s, a.sp).Some? {
      var down := ToShort(a.sp - 1);
      SetSpAgrees(code, s, a, down);
      WriteAgrees(code, s.(regs := Set(s.regs, SP, down)), a.(sp := down), i.m0, i.a0, HeapAt(s, a.sp).value);
    }
  }

  lemma PerformAgrees(code: seq<byte>, s: State, a: Abstract, i: Ins)
    requires Represents(code, s, a) && WellFormed(i) && INS_SIZE * a.pc < 0x7f00
    ensures Matches(code, Exec(s, i), Perform(code, a, i))
  {
    hide Read, ReadOperand, Write, WriteOperand;
    match i.op {
      case 0 =>
      case 1 =>
        ReadAgrees(code, s, a, i.m1, i.a1);
        if Read(s, i.m1, i.a1).Some? {
          WriteAgrees(code, s, a, i.m0, i.a0, Read(s, i.m1, i.a1).value);
        }
      case 2 => PushAgrees(code, s, a, i);
      case 3 => PopAgrees(code, s, a, i);
      case _ =>
        ReadAgrees(code, s, a, i.m0, i.a0);
        ReadAgrees(code, s, a, i.m1, i.a1);
        if Read(s, i.m0, i.a0).Some? && Read(s, i.m1, i.a1).Some? {
          CompareFromNarrow(s.regs[FLAGS], Read(s, i.m0, i.a0).value, Read(s, i.m1, i.a1).value);
        }
    }
  }

  // Every fetch decodes to the instruction the program counter stands at.
  lemma FetchAgrees(code: seq<byte>, prog: seq<Ins>, s: State, a: Abstract)
    requires Image(code, prog) && Represents(code, s, a) && a.pc < |prog|
    ensures Fetch(s) == Some(prog[a.pc])
  {
    RegisterAgrees(code, s, a, IP);
    var at := INS_SIZE * a.pc;
    assert s.heap[at..at + INS_SIZE] == code[at..at + INS_SIZE];
  }

  lemma AdvanceAgrees(code: seq<byte>, s: State, a: Abstract)
    requires Represents(code, s, a) && INS_SIZE * a.pc + INS_SIZE < 0x8000
    ensures Represents(code, Advance(s), a.(pc := a.pc + 1))
  {
    RegisterAgrees(code, s, a, IP);
    var ip: int := INS_SIZE * a.pc + INS_SIZE;
    ShortOf(ip);
    assert Advance(s).regs == s.regs[2 * IP := LowByte(ip)][2 * IP + 1 := ip / 0x100];
  }

  lemma ShortOf(v: int)
    requires 0 <= v < 0x8000
    ensures ToShort(v) == v && Low(v) == LowByte(v) && High(v) == v / 0x100
  {
  }

  lemma PerformPc(code: seq<byte>, a: Abstract, i: Ins)
    requires WellFormed(i) && INS_SIZE * a.pc < 0x7f00 && Perform(code, a, i).Next?
    ensures INS_SIZE * Perform(code, a, i).state.pc < 0x7f00
  {
  }

  lemma StepAgrees(code: seq<byte>, prog: seq<Ins>, s: State, a: Abstract)
    requires WellFormedProgram(prog) && Image(code, prog) && Represents(code, s, a)
    ensures Matches(code, Step(s), AbstractStep(code, prog, a))
  {
    hide Exec, Perform, Fetch, Represents, Advance;
    if a.pc < |prog| {
      FetchAgrees(code, prog, s, a);
      var i := prog[a.pc];
      PerformAgrees(code, s, a, i);
      if Perform(code, a, i).Next? {
        PerformPc(code, a, i);
        AdvanceAgrees(code, Exec(s, i).value, Perform(code, a, i).state);
      }
    }
  }

  // The byte machine refines the abstract one over any number of steps.
  lemma {:induction false} RunAgrees(code: seq<byte>, prog: seq<Ins>, s: State, a: Abstract, n: nat)
    requires WellFormedProgram(prog) && Image(code, prog) && Represents(code, s, a)
    ensures Matches(code, Steps(s, n), AbstractRun(code, prog, a, n))
    decreases n
  {
    hide Step, AbstractStep;
    if n != 0 && a.status == Running {
      StepAgrees(code, prog, s, a);
      if AbstractStep(code, prog, a).Next? {
        RunAgrees(code, prog, Step(s).value, AbstractStep(code, prog, a).state, n - 1);
      }
    }
  }
}
