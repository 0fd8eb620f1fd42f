/** What every run of well-formed instructions keeps, wherever those instructions come from:
    the program may jump, and may even rewrite itself. */
module VmInvariants {
  import opened Options
  import opened Words
  import opened Vm

  // An operand that names a register names one of r0..r3, ip, sp and bp.
  predicate WellFormedOperand(m: schar, a: short) {
    0 <= m <= 3 && (m == 1 || m == 3 ==> 0 <= a < 7)
  }

  predicate WellFormed(i: Ins) {
    0 <= i.op <= 4 && WellFormedOperand(i.m0, i.a0) && WellFormedOperand(i.m1, i.a1)
  }

  // r0..r3 and bp hold a byte each although their fields are 16 bits wide, and the flags are
  // those of one comparison, or none.
  ghost predicate Narrow(s: State) {
    s.regs[1] == s.regs[3] == s.regs[5] == s.regs[7] == s.regs[13] == 0 &&
    (s.regs[FLAGS] == 0 || s.regs[FLAGS] == 2 || s.regs[FLAGS] == 4 || s.regs[FLAGS] == 7)
  }

  predicate IsByte(v: short) {
    0 <= v < 0x100
  }

  predicate ByteRegisters(regs: Registers) {
    IsByte(Get(regs, 0)) && IsByte(Get(regs, 1)) && IsByte(Get(regs, 2)) && IsByte(Get(regs, 3)) &&
    IsByte(Get(regs, BP))
  }

  lemma NarrowMeans(s: State)
    ensures Narrow(s) <==> ByteRegisters(s.regs) && s.regs[FLAGS] in {0, 2, 4, 7}
  {
  }

  predicate Eq(s: State) { s.regs[FLAGS] % 2 == 1 }
  predicate Gte(s: State) { s.regs[FLAGS] / 2 % 2 == 1 }
  predicate Lte(s: State) { s.regs[FLAGS] / 4 % 2 == 1 }

  lemma CompareFromNarrow(f: byte, x: short, y: short)
    requires f in {0, 2, 4, 7}
    ensures CompareFlags(f, x, y) == if x == y then 7 else if x > y then 2 else 4
  {
  }

  lemma WriteKeepsNarrow(s: State, m: schar, a: short, v: short)
    requires Narrow(s) && WellFormedOperand(m, a) && Write(s, m, a, v).Some?
    ensures Narrow(Write(s, m, a, v).value)
    ensures Write(s, m, a, v).value.regs[FLAGS] == s.regs[FLAGS]
  {
  }

  // Only a comparison changes the flags, and it leaves the outcome of the signed comparison
  // of the two values it read; it changes nothing else.
  lemma ExecFlags(s: State, i: Ins)
    requires Narrow(s) && WellFormed(i) && Exec(s, i).Some?
    ensures Narrow(Exec(s, i).value)
    ensures var t := Exec(s, i).value;
            if i.op != 4 then t.regs[FLAGS] == s.regs[FLAGS]
            else
              var x, y := Read(s, i.m0, i.a0).value, Read(s, i.m1, i.a1).value;
              (Eq(t) <==> x == y) && (Gte(t) <==> x >= y) && (Lte(t) <==> x <= y) &&
              t == s.(regs := s.regs[FLAGS := t.regs[FLAGS]])
  {
    match i.op {
      case 0 =>
      case 1 => WriteKeepsNarrow(s, i.m0, i.a0, Read(s, i.m1, i.a1).value);
      case 2 =>
      case 3 =>
        var sp := Get(s.regs, SP);
        WriteKeepsNarrow(s.(regs := Set(s.regs, SP, ToShort(sp - 1))), i.m0, i.a0, HeapAt(s, sp).value);
      case _ =>
        CompareFromNarrow(s.regs[FLAGS], Read(s, i.m0, i.a0).value, Read(s, i.m1, i.a1).value);
    }
  }

  // `n` turns of the loop fetch well-formed instructions only and lead from `s` to `u`.
  ghost predicate Reaches(s: State, n: nat, u: State)
    decreases n
  {
    if n == 0 || s.status != Running then u == s
    else
      Fetch(s).Some? && WellFormed(Fetch(s).value) && Step(s).Some? &&
      Reaches(Step(s).value, n - 1, u)
  }

  lemma {:induction false} ReachesIsSteps(s: State, n: nat, u: State)
    requires Reaches(s, n, u)
    ensures Steps(s, n) == Some(u)
    decreases n
  {
    hide Exec;
    if n != 0 && s.status == Running {
      ReachesIsSteps(Step(s).value, n - 1, u);
    }
  }

  lemma StepKeepsNarrow(s: State)
    requires Narrow(s) && Fetch(s).Some? && WellFormed(Fetch(s).value) && Step(s).Some?
    ensures Narrow(Step(s).value)
  {
    ExecFlags(s, Fetch(s).value);
  }

  lemma {:induction false} ReachableNarrow(s: State, n: nat, u: State)
    requires Narrow(s) && Reaches(s, n, u)
    ensures Narrow(u)
    decreases n
  {
    hide Exec;
    if n != 0 && s.status == Running {
      StepKeepsNarrow(s);
      ReachableNarrow(Step(s).value, n - 1, u);
    }
  }

  // The state `vm_init` leaves is narrow.
  lemma InitialNarrow(heap: seq<byte>)
    ensures Narrow(Start(State(ZEROS, heap, Ready)))
  {
  }

  // The heap address a pointer operand of a well-formed instruction resolves to.
  function Address(s: State, m: schar, a: short): int
    requires WellFormedOperand(m, a) && (m == 2 || m == 3)
  {
    (if m == 2 then a else s.regs[2 * a]) + Get(s.regs, BP)
  }

  // Pointers stay close: a register pointer within 0..510, a raw pointer within 255 of its
  // number. `Read` and `Write` go to exactly that address.
  lemma PointerRange(t: State, m: schar, a: short, v: short)
    requires Narrow(t) && WellFormedOperand(m, a) && (m == 2 || m == 3)
    ensures m == 3 ==> 0 <= Address(t, m, a) <= 510
    ensures m == 2 ==> a <= Address(t, m, a) <= a + 255
    ensures Read(t, m, a) == HeapAt(t, Address(t, m, a))
    ensures Write(t, m, a, v) == HeapPut(t, Address(t, m, a), v)
  {
  }

  // What holds of a state in which instruction operand (m, a) is about to be used.
  ghost predicate InBounds(t: State, m: schar, a: short) {
    ByteRegisters(t.regs) &&
    t.regs[FLAGS] in {0, 2, 4, 7} && (Eq(t) <==> Gte(t) && Lte(t)) &&
    (WellFormedOperand(m, a) && m == 3 ==> 0 <= Address(t, m, a) <= 510) &&
    (WellFormedOperand(m, a) && m == 2 ==> a <= Address(t, m, a) <= a + 255)
  }

  lemma NarrowInBounds(t: State, m: schar, a: short)
    requires Narrow(t)
    ensures InBounds(t, m, a)
  {
  }

  // From the state `vm_init` leaves, with any heap, `vm_run` keeps all of that at every turn as
  // long as it fetches well-formed instructions.
  lemma Reachable(heap: seq<byte>, n: nat, u: State, m: schar, a: short)
    requires Reaches(Start(State(ZEROS, heap, Ready)), n, u)
    ensures Steps(Start(State(ZEROS, heap, Ready)), n) == Some(u)
    ensures InBounds(u, m, a)
  {
    hide Steps, Reaches, Narrow, InBounds;
    var s := Start(State(ZEROS, heap, Ready));
    InitialNarrow(heap);
    ReachesIsSteps(s, n, u);
    ReachableNarrow(s, n, u);
    NarrowInBounds(u, m, a);
  }

  // ip and sp do leave the byte range: pushing at the top of the first 256 bytes takes sp past it.
  lemma StackPointerGrows(s: State, i: Ins)
    requires i.op == 2 && i.m0 == 0 && Get(s.regs, SP) == 254 && |s.heap| > 254
    ensures Exec(s, i).Some? && Get(Exec(s, i).value.regs, SP) == 256
  {
    hide Get, Set;
    GetSet(s.regs, SP, 256);
  }
}
