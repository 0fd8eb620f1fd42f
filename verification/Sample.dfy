/** The text in `src/dasm/dasm.c`, with all four kinds of operand, and what it assembles to. */
module Sample {
  import opened Words
  import opened Str
  import opened Scanner
  import opened Vm
  import opened Dasm
  import opened Canonical

  const SAMPLE_TEXT := "mov r0 10\nmov sp [12]\n" + ("push r0\npop r1\n" + "mov [r2] r1\nhlt")

  const SAMPLE: seq<Source> := [
    Source(1, [Register(0), Number(10)]), Source(1, [Register(5), Pointer(12)]), Source(2, [Register(0)]),
    Source(3, [Register(1)]), Source(1, [RegisterPointer(2), Register(1)]), Source(0, [])]

  lemma TwoDigits()
    ensures Printed(10, 10) == "10" && Printed(12, 10) == "12"
  {
    assert Digits(0, 10) == "";
    assert Digits(1, 10) == "1";
  }

  lemma ThreeTokens(s: Source)
    requires ValidSource(s) && |s.args| == 2
    ensures SourceText(s) == OPS[s.op] + [' '] + (OperandText(s.args[0]) + [' '] + OperandText(s.args[1]))
  {
    hide OperandText, Join;
    assert SourceTokens(s) == [OPS[s.op], OperandText(s.args[0]), OperandText(s.args[1])];
    JoinThree(OPS[s.op], OperandText(s.args[0]), OperandText(s.args[1]), ' ');
  }

  lemma Characters()
    ensures "mov" + [' '] + ("r0" + [' '] + "10") == "mov r0 10"
    ensures "mov" + [' '] + ("sp" + [' '] + ("[" + "12" + "]")) == "mov sp [12]"
    ensures "push" + " " + "r0" == "push r0"
    ensures "pop" + " " + "r1" == "pop r1"
    ensures "mov" + [' '] + (("[" + "r2" + "]") + [' '] + "r1") == "mov [r2] r1"
  {
  }

  lemma SampleLines()
    ensures ValidProgram(SAMPLE)
    ensures ProgramLines(SAMPLE) == ["mov r0 10", "mov sp [12]", "push r0", "pop r1", "mov [r2] r1", "hlt"]
  {
    hide Join, Printed, SourceText;
    TwoDigits();
    ThreeTokens(SAMPLE[0]);
    ThreeTokens(SAMPLE[1]);
    OneOperand(2, 0);
    OneOperand(3, 1);
    ThreeTokens(SAMPLE[4]);
    NoOperand();
    Characters();
  }

  lemma Pairs()
    ensures "mov r0 10" + ['\n'] + "mov sp [12]" + ['\n'] == "mov r0 10\nmov sp [12]\n"
    ensures "push r0" + ['\n'] + "pop r1" + ['\n'] == "push r0\npop r1\n"
    ensures "mov [r2] r1" + ['\n'] + "hlt" == "mov [r2] r1\nhlt"
  {
  }

  lemma SampleText()
    ensures ValidProgram(SAMPLE) && ProgramText(SAMPLE) == SAMPLE_TEXT
  {
    hide ProgramLines, Join;
    SampleLines();
    Pairs();
    JoinSix("mov r0 10", "mov sp [12]", "push r0", "pop r1", "mov [r2] r1", "hlt", '\n');
  }

  lemma JoinSix(a: string, b: string, c: string, d: string, e: string, f: string, sep: char)
    ensures Join([a, b, c, d, e, f], sep) == a + [sep] + b + [sep] + (c + [sep] + d + [sep] + (e + [sep] + f))
  {
    hide Join;
    JoinTwo(e, f, sep);
    JoinPair(c, d, [e, f], sep);
    JoinPair(a, b, [c, d, e, f], sep);
    assert [c, d] + [e, f] == [c, d, e, f] && [a, b] + [c, d, e, f] == [a, b, c, d, e, f];
  }

  lemma JoinPair(a: string, b: string, rest: seq<string>, sep: char)
    requires rest != []
    ensures Join([a, b] + rest, sep) == a + [sep] + b + [sep] + Join(rest, sep)
  {
    assert ([a, b] + rest)[1..] == [b] + rest && ([b] + rest)[1..] == rest;
    assert Join([b] + rest, sep) == b + [sep] + Join(rest, sep);
  }

  lemma SampleInstructions()
    requires ValidProgram(SAMPLE)
    ensures InsList(SAMPLE) == [
      Ins(15, 1, 1, 0, 0, 10), Ins(15, 1, 1, 5, 2, 12), Ins(15, 2, 1, 0, 0, 0),
      Ins(15, 3, 1, 1, 0, 0), Ins(15, 1, 3, 2, 1, 1), Ins(15, 0, 0, 0, 0, 0)]
  {
    hide ToShort, ToInt32;
    SmallNumber(10);
    SmallNumber(12);
  }

  // With the standard lookup its six lines become these six instructions.
  lemma SampleAssembles()
    ensures FitsTables(SAMPLE_TEXT)
    ensures Program(Standard, SAMPLE_TEXT) == [
      Ins(15, 1, 1, 0, 0, 10), Ins(15, 1, 1, 5, 2, 12), Ins(15, 2, 1, 0, 0, 0),
      Ins(15, 3, 1, 1, 0, 0), Ins(15, 1, 3, 2, 1, 1), Ins(15, 0, 0, 0, 0, 0)]
  {
    hide ProgramText, FitsTables, Program, InsList;
    SampleText();
    SampleInstructions();
    AssemblesBack(SAMPLE);
  }
}
