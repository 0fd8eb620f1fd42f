/** The program that `init_vmm` of `src/vm.c` assembles and runs. */
module InitVmm {
  import opened Words
  import opened Str
  import opened Scanner
  import opened Vm
  import opened AbstractVm
  import opened Dasm
  import opened Canonical
  import opened Pipeline
  import opened AsBuilt

  const TEST_TEXT := "mov r0 1\nmov r1 2\nmov r2 3\ncmp r3 4\nhlt"

  const TEST: seq<Source> := [
    Source(1, [Register(0), Number(1)]), Source(1, [Register(1), Number(2)]), Source(1, [Register(2), Number(3)]),
    Source(4, [Register(3), Number(4)]), Source(0, [])]

  lemma TestSources()
    ensures ValidProgram(TEST) && WellFormedProgram(InsList(TEST))
    ensures InsList(TEST) == [
      Ins(15, 1, 1, 0, 0, 1), Ins(15, 1, 1, 1, 0, 2), Ins(15, 1, 1, 2, 0, 3),
      Ins(15, 4, 1, 3, 0, 4), Ins(15, 0, 0, 0, 0, 0)]
  {
    TestValid();
    hide ValidSource, WellFormedProgram;
    InsListWellFormed(TEST);
  }

  lemma TestValid()
    ensures ValidProgram(TEST)
  {
  }

  // It stops after its five instructions with 1, 2 and 3 in the first registers and r3 below 4,
  // whatever the rest of the heap holds.
  lemma TestResult(image: seq<byte>, data: seq<byte>)
    requires ValidProgram(TEST) && WellFormedProgram(InsList(TEST))
    ensures AbstractRun(image, InsList(TEST), Initial(data), 5) ==
            Next(Abstract(5, [1, 2, 3, 0], 0, 0, Less, data, Done))
  {
    TestSources();
    var prog := InsList(TEST);
    var a1 := Abstract(1, [1, 0, 0, 0], 0, 0, Unset, data, Running);
    var a2 := Abstract(2, [1, 2, 0, 0], 0, 0, Unset, data, Running);
    var a3 := Abstract(3, [1, 2, 3, 0], 0, 0, Unset, data, Running);
    var a4 := Abstract(4, [1, 2, 3, 0], 0, 0, Less, data, Running);
    var a5 := Abstract(5, [1, 2, 3, 0], 0, 0, Less, data, Done);
    assert AbstractStep(image, prog, Initial(data)) == Next(a1);
    assert AbstractStep(image, prog, a1) == Next(a2);
    assert AbstractStep(image, prog, a2) == Next(a3);
    assert AbstractStep(image, prog, a3) == Next(a4);
    assert AbstractStep(image, prog, a4) == Next(a5);
    assert AbstractRun(image, prog, a3, 2) == Next(a5);
    assert AbstractRun(image, prog, a1, 4) == Next(a5);
  }

  // So it stops in any heap.
  lemma TestStops(size: nat, tail: seq<byte>)
    requires ValidProgram(TEST) && WellFormedProgram(InsList(TEST))
    ensures Stops(InsList(TEST), size, tail)
  {
    hide InsList, AbstractRun;
    forall image: seq<byte>, data: seq<byte> | Image(image, InsList(TEST)) && EndsWith(data, tail)
      ensures exists n: nat :: Halts(image, InsList(TEST), data, n)
    {
      TestResult(image, data);
      assert Halts(image, InsList(TEST), data, 5);
    }
  }

  lemma OneDigit(n: nat)
    requires 0 < n < 10
    ensures Printed(n, 10) == [DIGITS[n]]
  {
    assert Digits(0, 10) == "";
  }

  lemma TwoOperands(op: nat, r: nat, n: nat)
    requires op < |OPS| && r < |REGS| && 0 < n < 10
    ensures SourceText(Source(op, [Register(r), Number(n)])) == OPS[op] + " " + (REGS[r] + " " + [DIGITS[n]])
  {
    hide Join, Printed;
    OneDigit(n);
    var s := Source(op, [Register(r), Number(n)]);
    assert SourceTokens(s) == [OPS[op], REGS[r], [DIGITS[n]]];
    JoinThree(OPS[op], REGS[r], [DIGITS[n]], ' ');
  }

  lemma TestLines()
    ensures SourceText(Source(1, [Register(0), Number(1)])) == "mov r0 1"
    ensures SourceText(Source(1, [Register(1), Number(2)])) == "mov r1 2"
    ensures SourceText(Source(1, [Register(2), Number(3)])) == "mov r2 3"
    ensures SourceText(Source(4, [Register(3), Number(4)])) == "cmp r3 4"
  {
    hide SourceText;
    TwoOperands(1, 0, 1);
    TwoOperands(1, 1, 2);
    TwoOperands(1, 2, 3);
    TwoOperands(4, 3, 4);
    assert "mov" + " " + ("r0" + " " + "1") == "mov r0 1";
    assert "mov" + " " + ("r1" + " " + "2") == "mov r1 2";
    assert "mov" + " " + ("r2" + " " + "3") == "mov r2 3";
    assert "cmp" + " " + ("r3" + " " + "4") == "cmp r3 4";
  }

  lemma TestProgramLines()
    requires ValidProgram(TEST)
    ensures ProgramLines(TEST) == ["mov r0 1", "mov r1 2", "mov r2 3", "cmp r3 4", "hlt"]
  {
    hide SourceText;
    TestLines();
    NoOperand();
  }

  // And its canonical text is the text in `init_vmm`.
  lemma TestIsCanonical()
    ensures ValidProgram(TEST) && ProgramText(TEST) == TEST_TEXT
  {
    hide ProgramLines, Join;
    TestSources();
    TestProgramLines();
    JoinFive("mov r0 1", "mov r1 2", "mov r2 3", "cmp r3 4", "hlt", '\n');
  }

  // However long it is watched, a run stops in one state only.
  lemma {:induction false} StopsOnce(image: seq<byte>, prog: seq<Ins>, a: Abstract, m: nat, n: nat)
    requires WellFormedProgram(prog) && m <= n
    requires AbstractRun(image, prog, a, m).Next? && AbstractRun(image, prog, a, m).state.status != Running
    ensures AbstractRun(image, prog, a, n) == AbstractRun(image, prog, a, m)
    decreases m
  {
    hide AbstractStep;
    if m != 0 && a.status == Running {
      StopsOnce(image, prog, AbstractStep(image, prog, a).state, m - 1, n - 1);
    }
  }

  predicate Final(r: Registers) {
    Get(r, 0) == 1 && Get(r, 1) == 2 && Get(r, 2) == 3 && Get(r, 3) == 0 && Get(r, IP) == 50 && r[FLAGS] == 4
  }

  lemma FinalRegisters(image: seq<byte>, s: State, data: seq<byte>)
    requires Represents(image, s, Abstract(5, [1, 2, 3, 0], 0, 0, Less, data, Done))
    ensures Final(s.regs)
  {
  }

  // `init_vmm`, in a heap that holds the copied page. With the standard comparison it computes
  // what the text says; with the kernel's own it stops at the first instruction.
  method Run(libc: Libc, heapSize: nat) returns (m: Machine)
    requires heapSize >= MAX_INS * INS_SIZE
    ensures m.Valid() && m.status == Done
    ensures libc == Standard ==> Final(m.View().regs)
    ensures libc == Kernel ==> m.View().regs == Set(ZEROS, IP, INS_SIZE)
  {
    m := new Machine("Test VM", heapSize);
    if libc == Standard {
      RunMeant(m);
    } else {
      RunAsBuilt(m);
    }
  }

  method RunMeant(m: Machine)
    requires m.Valid() && m.View().regs == ZEROS && m.status == Ready
    requires m.heap.Length >= MAX_INS * INS_SIZE
    modifies m`status, m.registers, m.heap
    ensures m.Valid() && m.status == Done && Final(m.View().regs)
  {
    hide Image, AbstractRun, Represents, Final, InsList, ProgramText, FitsTables, Program, Stops;
    TestIsCanonical();
    TestSources();
    AssemblesBack(TEST);
    TestStops(m.heap.Length, m.heap[MAX_INS * INS_SIZE..]);
    ghost var image, data, n;
    image, data, n := AssembleAndRun(Standard, m, TEST_TEXT);
    TestResult(image, data);
    if n <= 5 {
      StopsOnce(image, InsList(TEST), Initial(data), n, 5);
    } else {
      StopsOnce(image, InsList(TEST), Initial(data), 5, n);
    }
    FinalRegisters(image, m.View(), data);
  }

  method RunAsBuilt(m: Machine)
    requires m.Valid() && m.View().regs == ZEROS && m.status == Ready
    requires m.heap.Length >= MAX_INS * INS_SIZE
    modifies m`status, m.registers, m.heap
    ensures m.Valid() && m.status == Done && m.View().regs == Set(ZEROS, IP, INS_SIZE)
  {
    hide Image, LinesOf, TokensOf, FitsTables, Steps, Program, Mnemonic;
    FirstMnemonic();
    ghost var image, data;
    image, data := Load(Kernel, m, TEST_TEXT);
    StopsAtOnce(TEST_TEXT, image, data, 1);
    m.Run(1);
  }

  lemma FirstMnemonic()
    ensures FitsTables(TEST_TEXT) && LinesOf(TEST_TEXT) != [] && Mnemonic(TEST_TEXT, 0) != "hlt"
  {
    hide LinesOf, TokensOf, ProgramText, Join;
    TestIsCanonical();
    AssemblesBack(TEST);
    LinesAgain(TEST);
    TokensAgain(TEST[0]);
    assert Mnemonic(TEST_TEXT, 0) == "mov";
  }
}
