/** When a run of the byte machine stays inside the abstract one, and where a straight-line
    program stops. */
module Halting {
  import opened Options
  import opened Words
  import opened Vm
  import opened VmInvariants
  import opened AbstractVm

  predicate WritesIp(i: Ins) {
    (i.op == 1 || i.op == 3) && i.m0 == 1 && i.a0 == IP
  }

  // The heap address an instruction stores to, if it stores to the heap.
  function StoreAddress(s: State, i: Ins): Option<int>
    requires WellFormed(i)
  {
    match i.op
    case 1 => if i.m0 >= 2 then Some(Address(s, i.m0, i.a0)) else None
    case 2 => Some(Get(s.regs, SP))
    case 3 =>
      var t := s.(regs := Set(s.regs, SP, ToShort(Get(s.regs, SP) - 1)));
      if i.m0 >= 2 then Some(Address(t, i.m0, i.a0)) else None
    case _ => None
  }

  predicate HitsCode(size: nat, s: State, i: Ins)
    requires WellFormed(i)
  {
    var p := StoreAddress(s, i);
    p.Some? && 0 <= p.value < size
  }

  // The abstract machine gives up an instruction exactly when the byte machine, executing it,
  // stores into the program or sets ip between two instructions.
  lemma EscapeExactly(code: seq<byte>, s: State, a: Abstract, i: Ins)
    requires Represents(code, s, a) && WellFormed(i) && INS_SIZE * a.pc < 0x7f00
    ensures Perform(code, a, i).Escape? <==>
              Exec(s, i).Some? &&
              (HitsCode(|code|, s, i) || (WritesIp(i) && Get(Exec(s, i).value.regs, IP) % INS_SIZE != 0))
  {
    RegisterAgrees(code, s, a, SP);
    ReadAgrees(code, s, a, i.m0, i.a0);
    ReadAgrees(code, s, a, i.m1, i.a1);
    if i.op == 1 {
      if Read(s, i.m1, i.a1).Some? {
        WriteEscapes(code, s, a, i.m0, i.a0, Read(s, i.m1, i.a1).value);
      }
    } else if i.op == 3 {
      var down := ToShort(a.sp - 1);
      SetSpAgrees(code, s, a, down);
      assert HeapAt(s, a.sp) == MemoryAt(code, a, a.sp);
      if HeapAt(s, a.sp).Some? {
        WriteEscapes(code, s.(regs := Set(s.regs, SP, down)), a.(sp := down), i.m0, i.a0, HeapAt(s, a.sp).value);
      }
    }
  }

  lemma WriteEscapes(code: seq<byte>, s: State, a: Abstract, m: schar, x: short, v: short)
    requires Represents(code, s, a) && WellFormedOperand(m, x) && INS_SIZE * a.pc < 0x7f00
    ensures WriteOperand(code, a, m, x, v).Escape? <==>
              Write(s, m, x, v).Some? &&
              ((m >= 2 && 0 <= Address(s, m, x) < |code|) ||
               (m == 1 && x == IP && Get(Write(s, m, x, v).value.regs, IP) % INS_SIZE != 0))
  {
    if m == 1 {
      if x == IP {
        JumpEscapes(code, s, a, v);
      }
    } else if m == 3 {
      RegisterAgrees(code, s, a, x);
    } else {
      RegisterAgrees(code, s, a, BP);
    }
  }

  lemma JumpEscapes(code: seq<byte>, s: State, a: Abstract, v: short)
    requires Represents(code, s, a) && INS_SIZE * a.pc < 0x7f00
    ensures PutRegister(a, IP, v).Escape? <==> Get(s.regs[2 * IP := LowByte(v)], IP) % INS_SIZE != 0
  {
    var hi := INS_SIZE * a.pc / 0x100;
    assert Pack(LowByte(v), hi) == 0x100 * hi + LowByte(v);
  }

  // What keeps a turn of the byte machine within what the instruction list describes: it begins
  // at an instruction, is defined, does not store into the program, and if it writes ip leaves
  // it between no two instructions.
  ghost predicate KeepsToProgram(size: nat, prog: seq<Ins>, s: State)
    requires WellFormedProgram(prog)
  {
    var ip := Get(s.regs, IP);
    0 <= ip < INS_SIZE * |prog| && ip % INS_SIZE == 0 && Step(s).Some? &&
    var i := prog[ip / INS_SIZE];
    !HitsCode(size, s, i) &&
    (WritesIp(i) ==> Exec(s, i).Some? && Get(Exec(s, i).value.regs, IP) % INS_SIZE == 0)
  }

  ghost predicate KeepsFor(size: nat, prog: seq<Ins>, s: State, n: nat)
    requires WellFormedProgram(prog)
    decreases n
  {
    n == 0 || s.status != Running ||
    (KeepsToProgram(size, prog, s) && KeepsFor(size, prog, Step(s).value, n - 1))
  }

  lemma StepExactly(code: seq<byte>, prog: seq<Ins>, s: State, a: Abstract)
    requires WellFormedProgram(prog) && Image(code, prog) && Represents(code, s, a)
    ensures AbstractStep(code, prog, a).Next? <==> KeepsToProgram(|code|, prog, s)
  {
    hide Exec, Perform, Represents, Fetch, HitsCode, WritesIp, Image, Advance;
    RegisterAgrees(code, s, a, IP);
    StepAgrees(code, prog, s, a);
    if a.pc < |prog| {
      var i := prog[a.pc];
      FetchAgrees(code, prog, s, a);
      EscapeExactly(code, s, a, i);
      PerformAgrees(code, s, a, i);
    }
  }

  // The abstract machine describes a run of any length exactly when every turn of the byte
  // machine keeps to the program: with jumps, with loops, with or without a `hlt`.
  lemma {:induction false} RunExactly(code: seq<byte>, prog: seq<Ins>, s: State, a: Abstract, n: nat)
    requires WellFormedProgram(prog) && Image(code, prog) && Represents(code, s, a)
    ensures AbstractRun(code, prog, a, n).Next? <==> KeepsFor(|code|, prog, s, n)
    decreases n
  {
    hide Step, AbstractStep, KeepsToProgram, Image;
    if n != 0 && a.status == Running {
      StepExactly(code, prog, s, a);
      StepAgrees(code, prog, s, a);
      if AbstractStep(code, prog, a).Next? {
        RunExactly(code, prog, Step(s).value, AbstractStep(code, prog, a).state, n - 1);
      }
    }
  }

  // As long as no turn stores into the program or jumps out of it, the machines stay related.
  lemma StaysTogether(code: seq<byte>, prog: seq<Ins>, s: State, a: Abstract, n: nat)
    requires WellFormedProgram(prog) && Image(code, prog) && Represents(code, s, a)
    requires KeepsFor(|code|, prog, s, n)
    ensures RunsTogether(code, prog, s, a, n)
  {
    hide Steps, AbstractRun, KeepsFor, Represents, Image;
    RunExactly(code, prog, s, a, n);
    RunAgrees(code, prog, s, a, n);
  }

  // `n` turns that neither leave the heap nor store into its first `size` bytes.
  ghost predicate Clear(size: nat, prog: seq<Ins>, s: State, n: nat)
    requires forall i :: 0 <= i < |prog| ==> WellFormed(prog[i])
    decreases n
  {
    n == 0 || s.status != Running ||
    (Step(s).Some? &&
     (forall i :: 0 <= i < |prog| && Fetch(s) == Some(prog[i]) ==> !HitsCode(size, s, prog[i])) &&
     Clear(size, prog, Step(s).value, n - 1))
  }

  // One turn of a clear run at an instruction that does not write ip.
  lemma TurnAgrees(code: seq<byte>, prog: seq<Ins>, s: State, a: Abstract) returns (b: Abstract)
    requires WellFormedProgram(prog) && Image(code, prog) && Represents(code, s, a)
    requires a.pc < |prog| && !WritesIp(prog[a.pc]) && a.status == Running
    requires Step(s).Some? && !HitsCode(|code|, s, prog[a.pc])
    ensures AbstractStep(code, prog, a) == Next(b) && Represents(code, Step(s).value, b)
    ensures b.pc == a.pc + 1 && b.status == (if prog[a.pc].op == 0 then Done else Running)
  {
    hide Exec, Advance, Represents, Fetch;
    var i := prog[a.pc];
    FetchAgrees(code, prog, s, a);
    EscapeExactly(code, s, a, i);
    StepAgrees(code, prog, s, a);
    b := AbstractStep(code, prog, a).state;
  }

  // Where the program goes straight on from `a`, instruction `k` being its first `hlt`: every
  // turn moves ip by one instruction, and turn k + 1 is the last.
  lemma {:induction false} Straight(code: seq<byte>, prog: seq<Ins>, s: State, a: Abstract, k: nat, n: nat)
    requires WellFormedProgram(prog) && Image(code, prog) && Represents(code, s, a)
    requires a.status == Running && a.pc <= k < |prog| && prog[k].op == 0
    requires forall i :: 0 <= i < k ==> prog[i].op != 0 && !WritesIp(prog[i])
    requires Clear(|code|, prog, s, n) && n <= k + 1 - a.pc
    ensures RunsTogether(code, prog, s, a, n)
    ensures var b := AbstractRun(code, prog, a, n).state;
            b.pc == a.pc + n &&
            b.status == if a.pc + n == k + 1 then Done else Running
    decreases n
  {
    hide Exec, Perform, Advance, Fetch, HitsCode;
    if n != 0 {
      FetchAgrees(code, prog, s, a);
      var b := TurnAgrees(code, prog, s, a);
      if a.pc < k {
        Straight(code, prog, Step(s).value, b, k, n - 1);
      }
    }
  }

  lemma {:induction false} ClearPrefix(size: nat, prog: seq<Ins>, s: State, n: nat, j: nat)
    requires forall i :: 0 <= i < |prog| ==> WellFormed(prog[i])
    requires Clear(size, prog, s, n) && j <= n
    ensures Clear(size, prog, s, j)
    decreases n
  {
    hide Step, HitsCode;
    if j != 0 && s.status == Running {
      ClearPrefix(size, prog, Step(s).value, n - 1, j - 1);
    }
  }

  lemma {:induction false} StaysStopped(s: State, m: nat, n: nat)
    requires m <= n && Steps(s, m).Some? && Steps(s, m).value.status != Running
    ensures Steps(s, n) == Steps(s, m)
    decreases m
  {
    hide Step;
    if m != 0 && s.status == Running {
      StaysStopped(Step(s).value, m - 1, n - 1);
    }
  }

  // A run from the first instruction executes the instructions in order: before turn j + 1 ip
  // is at instruction j, and the run stops after exactly k + 1 turns, just behind the first `hlt`.
  lemma StopsBehindFirstHlt(code: seq<byte>, prog: seq<Ins>, s: State, a: Abstract, k: nat)
    requires WellFormedProgram(prog) && Image(code, prog) && Represents(code, s, a)
    requires a.status == Running && a.pc == 0 && k < |prog| && prog[k].op == 0
    requires forall i :: 0 <= i < k ==> prog[i].op != 0 && !WritesIp(prog[i])
    requires Clear(|code|, prog, s, k + 1)
    ensures forall j :: 0 <= j <= k ==>
              StandsAt(Steps(s, j), Running, INS_SIZE * j)
    ensures forall n :: k < n ==> StandsAt(Steps(s, n), Done, INS_SIZE * (k + 1))
    ensures RunsTogether(code, prog, s, a, k + 1)
  {
    hide Exec, Perform, Advance, Fetch, HitsCode, Steps, AbstractRun, Clear;
    forall j | 0 <= j <= k + 1
      ensures StandsAt(Steps(s, j), if j == k + 1 then Done else Running, INS_SIZE * j)
    {
      ClearPrefix(|code|, prog, s, k + 1, j);
      Straight(code, prog, s, a, k, j);
      RegisterAgrees(code, Steps(s, j).value, AbstractRun(code, prog, a, j).state, IP);
    }
    forall n | k < n
      ensures StandsAt(Steps(s, n), Done, INS_SIZE * (k + 1))
    {
      StaysStopped(s, k + 1, n);
    }
    Straight(code, prog, s, a, k, k + 1);
  }

  // After `n` turns both machines are still defined, and agree.
  ghost predicate RunsTogether(code: seq<byte>, prog: seq<Ins>, s: State, a: Abstract, n: nat)
    requires WellFormedProgram(prog)
  {
    AbstractRun(code, prog, a, n).Next? && Steps(s, n).Some? &&
    Represents(code, Steps(s, n).value, AbstractRun(code, prog, a, n).state)
  }

  ghost predicate StandsAt(s: Option<State>, status: Status, ip: int) {
    s.Some? && s.value.status == status && Get(s.value.regs, IP) == ip
  }
}
