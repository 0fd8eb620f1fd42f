/** The canonical text of a program, and the proof that assembling it, with the standard `strcmp`
    in the lookups, gives the program back. */
module Canonical {
  import opened Words
  import opened Str
  import opened Scanner
  import opened Vm
  import opened VmInvariants
  import opened AbstractVm
  import opened Dasm

  datatype Operand = Number(n: nat) | Register(r: nat) | Pointer(n: nat) | RegisterPointer(r: nat)

  datatype Source = Source(op: nat, args: seq<Operand>)

  predicate ValidOperand(o: Operand) {
    match o
    case Register(r) => r < |REGS|
    case RegisterPointer(r) => r < |REGS|
    case _ => true
  }

  predicate ValidSource(s: Source) {
    s.op < |OPS| && |s.args| <= 2 && forall k :: 0 <= k < |s.args| ==> ValidOperand(s.args[k])
  }

  ghost predicate ValidProgram(p: seq<Source>) {
    1 <= |p| <= MAX_INS && forall k :: 0 <= k < |p| ==> ValidSource(p[k])
  }

  // ----- printing -----

  function OperandText(o: Operand): string
    requires ValidOperand(o)
  {
    match o
    case Number(n) => Printed(n, 10)
    case Register(r) => REGS[r]
    case Pointer(n) => "[" + Printed(n, 10) + "]"
    case RegisterPointer(r) => "[" + REGS[r] + "]"
  }

  ghost function SourceTokens(s: Source): (toks: seq<string>)
    requires ValidSource(s)
    ensures |toks| == 1 + |s.args|
  {
    [OPS[s.op]] + seq(|s.args|, k requires 0 <= k < |s.args| => OperandText(s.args[k]))
  }

  ghost function SourceText(s: Source): string
    requires ValidSource(s)
  {
    Join(SourceTokens(s), ' ')
  }

  ghost function ProgramLines(p: seq<Source>): (lines: seq<string>)
    requires ValidProgram(p)
    ensures |lines| == |p|
  {
    seq(|p|, k requires 0 <= k < |p| => SourceText(p[k]))
  }

  ghost function ProgramText(p: seq<Source>): string
    requires ValidProgram(p)
  {
    Join(ProgramLines(p), '\n')
  }

  // In characters, for short lines.

  lemma OneOperand(op: nat, r: nat)
    requires op < |OPS| && r < |REGS|
    ensures SourceText(Source(op, [Register(r)])) == OPS[op] + " " + REGS[r]
  {
    assert SourceTokens(Source(op, [Register(r)])) == [OPS[op], REGS[r]];
    JoinTwo(OPS[op], REGS[r], ' ');
  }

  lemma NoOperand()
    ensures SourceText(Source(0, [])) == "hlt"
  {
    assert SourceTokens(Source(0, [])) == ["hlt"];
  }

  // ----- what the instructions mean -----

  function OperandMask(o: Operand): schar {
    match o
    case Number(_) => 0
    case Register(_) => 1
    case Pointer(_) => 2
    case RegisterPointer(_) => 3
  }

  // A number is kept in 16 bits.
  function OperandValue(o: Operand): short
    requires ValidOperand(o)
  {
    match o
    case Number(n) => ToShort(ToInt32(n))
    case Register(r) => r
    case Pointer(n) => ToShort(ToInt32(n))
    case RegisterPointer(r) => r
  }

  function InsOf(s: Source): Ins
    requires ValidSource(s)
  {
    Ins(15, s.op,
        if |s.args| > 0 then OperandMask(s.args[0]) else 0, if |s.args| > 0 then OperandValue(s.args[0]) else 0,
        if |s.args| > 1 then OperandMask(s.args[1]) else 0, if |s.args| > 1 then OperandValue(s.args[1]) else 0)
  }

  ghost function InsList(p: seq<Source>): (prog: seq<Ins>)
    requires ValidProgram(p)
    ensures |prog| == |p|
  {
    seq(|p|, k requires 0 <= k < |p| => InsOf(p[k]))
  }

  // Numbers of at most fifteen bits are kept as they are.
  lemma SmallNumber(n: nat)
    requires n < 0x8000
    ensures ToShort(ToInt32(n)) == n
  {
  }

  lemma InsListWellFormed(p: seq<Source>)
    requires ValidProgram(p)
    ensures WellFormedProgram(InsList(p))
  {
  }

  // ----- operands -----

  lemma NumeralChars(n: nat)
    ensures Printed(n, 10) != ""
    ensures forall k :: 0 <= k < |Printed(n, 10)| ==> Printed(n, 10)[k] in NUM_LETTERS
  {
    hide Printed;
    PrintedValue(n, 10);
    assert DIGITS[..10] == NUM_LETTERS;
  }

  lemma NumberAgain(n: nat)
    ensures NumberOf(Printed(n, 10)) == ToShort(ToInt32(n))
  {
    hide Printed, Accumulated;
    AtoiOfItoa(n);
  }

  lemma RegisterAgain(r: nat)
    requires r < |REGS|
    ensures |REGS[r]| == 2 && REGS[r][0] in REG_LETTERS
    ensures RegisterOf(Standard, REGS[r]) == r
    ensures Two(REGS[r], 0) == REGS[r] && Two("[" + REGS[r] + "]", 1) == REGS[r]
  {
  }

  lemma ClassifyNumber(tok: string)
    requires tok != "" && tok[0] in NUM_LETTERS
    ensures Classify(Standard, tok) == (0, NumberOf(tok))
  {
    hide NumberOf, RegisterOf;
  }

  lemma ClassifyRegister(tok: string)
    requires tok != "" && tok[0] in REG_LETTERS
    ensures Classify(Standard, tok) == (1, RegisterOf(Standard, Two(tok, 0)))
  {
    hide NumberOf, RegisterOf;
  }

  lemma ClassifyPointer(tok: string)
    requires |tok| >= 2 && tok[0] == '[' && tok[1] in NUM_LETTERS
    ensures Classify(Standard, tok) == (2, NumberOf(tok[1..|tok| - 1]))
  {
    hide NumberOf, RegisterOf;
  }

  lemma ClassifyRegisterPointer(tok: string)
    requires |tok| >= 2 && tok[0] == '[' && tok[1] in REG_LETTERS
    ensures Classify(Standard, tok) == (3, RegisterOf(Standard, Two(tok, 1)))
  {
    hide NumberOf, RegisterOf;
  }

  // The operand classifier recovers what was printed.
  lemma ClassifyAgain(o: Operand)
    requires ValidOperand(o)
    ensures Classify(Standard, OperandText(o)) == (OperandMask(o), OperandValue(o))
  {
    hide Printed, Accumulated, Lookup, Classify, NumberOf, RegisterOf, Two;
    var tok := OperandText(o);
    match o {
      case Number(n) =>
        NumeralChars(n);
        NumberAgain(n);
        ClassifyNumber(tok);
      case Register(r) =>
        RegisterAgain(r);
        ClassifyRegister(tok);
      case Pointer(n) =>
        NumeralChars(n);
        NumberAgain(n);
        assert tok[1..|tok| - 1] == Printed(n, 10) && tok[1] == Printed(n, 10)[0];
        ClassifyPointer(tok);
      case RegisterPointer(r) =>
        RegisterAgain(r);
        assert tok[1] == REGS[r][0];
        ClassifyRegisterPointer(tok);
    }
  }

  // The characters a token is made of.
  ghost predicate Plain(s: string) {
    s != "" && s[0] != '#' && ' ' !in s && '\n' !in s && '\0' !in s
  }

  predicate PlainChar(c: char) {
    c != '#' && c != ' ' && c != '\n' && c != '\0'
  }

  lemma PlainOfChars(s: string)
    requires s != "" && forall k :: 0 <= k < |s| ==> PlainChar(s[k])
    ensures Plain(s) && Plain("[" + s + "]")
  {
    assert forall k :: 0 <= k < |s| + 2 ==> PlainChar(("[" + s + "]")[k]);
  }

  lemma OperandPlain(o: Operand)
    requires ValidOperand(o)
    ensures Plain(OperandText(o))
  {
    hide Printed, Plain;
    match o {
      case Number(n) => PrintedPlain(n);
      case Register(r) => PlainOfChars(REGS[r]);
      case Pointer(n) => PrintedPlain(n);
      case RegisterPointer(r) => PlainOfChars(REGS[r]);
    }
  }

  lemma PrintedPlain(n: nat)
    ensures Plain(Printed(n, 10)) && Plain("[" + Printed(n, 10) + "]")
  {
    hide Printed, Plain;
    NumeralChars(n);
    PlainOfChars(Printed(n, 10));
  }

  // ----- lines -----

  lemma TokensPlain(s: Source)
    requires ValidSource(s)
    ensures forall k :: 0 <= k < |SourceTokens(s)| ==> Plain(SourceTokens(s)[k])
  {
    hide OperandText;
    forall k | 0 <= k < |SourceTokens(s)|
      ensures Plain(SourceTokens(s)[k])
    {
      if k > 0 {
        OperandPlain(s.args[k - 1]);
      }
    }
  }

  lemma TokensAgain(s: Source)
    requires ValidSource(s)
    ensures TokensOf(SourceText(s)) == SourceTokens(s)
  {
    hide Pieces, Join, SourceTokens;
    TokensPlain(s);
    assert SourceText(s)[0..] == SourceText(s);
    ScanJoin(SourceText(s), 0, SourceTokens(s), ' ', false, true);
  }

  lemma OpAgain(op: nat)
    requires op < |OPS|
    ensures Lookup(Standard, OPS, OPS[op]) == op
  {
  }

  // Parsing a printed line recovers its instruction.
  lemma LineAgain(s: Source)
    requires ValidSource(s)
    ensures |TokensOf(SourceText(s))| <= 3
    ensures Emitted(ParseLine(Standard, SourceText(s))) == InsOf(s)
  {
    hide Classify, OperandText, OperandMask, OperandValue, Lookup, TokensOf, ParseLine, SourceText;
    TokensAgain(s);
    OpAgain(s.op);
    LineMeans(Standard, SourceText(s));
    forall k | 0 <= k < |s.args|
      ensures Classify(Standard, SourceTokens(s)[k + 1]) == (OperandMask(s.args[k]), OperandValue(s.args[k]))
    {
      ClassifyAgain(s.args[k]);
    }
  }

  // ----- programs -----

  // A line made of plain tokens is no comment and holds no line break.
  lemma {:induction false} JoinPlain(toks: seq<string>)
    requires |toks| >= 1 && forall k :: 0 <= k < |toks| ==> Plain(toks[k])
    ensures var s := Join(toks, ' '); s != "" && s[0] != '#' && '\n' !in s && '\0' !in s
  {
    if |toks| > 1 {
      JoinPlain(toks[1..]);
    }
  }

  lemma {:induction false} JoinCString(lines: seq<string>)
    requires forall k :: 0 <= k < |lines| ==> IsCString(lines[k])
    ensures IsCString(Join(lines, '\n'))
  {
    if |lines| > 1 {
      JoinCString(lines[1..]);
    }
  }

  lemma LinesAgain(p: seq<Source>)
    requires ValidProgram(p)
    ensures IsCString(ProgramText(p)) && LinesOf(ProgramText(p)) == ProgramLines(p)
  {
    hide Pieces, Join, SourceTokens;
    forall k | 0 <= k < |p|
      ensures var s := ProgramLines(p)[k]; s != "" && s[0] != '#' && '\n' !in s && '\0' !in s
    {
      TokensPlain(p[k]);
      JoinPlain(SourceTokens(p[k]));
    }
    JoinCString(ProgramLines(p));
    assert ProgramText(p)[0..] == ProgramText(p);
    ScanJoin(ProgramText(p), 0, ProgramLines(p), '\n', true, true);
  }

  // Assembling the text of a program yields exactly its instructions, in order.
  lemma AssemblesBack(p: seq<Source>)
    requires ValidProgram(p)
    ensures FitsTables(ProgramText(p))
    ensures Program(Standard, ProgramText(p)) == InsList(p)
  {
    hide Pieces, Join, SourceTokens, TokensOf, LinesOf, ParseLine, SourceText, InsOf;
    LinesAgain(p);
    forall k | 0 <= k < |p|
      ensures |TokensOf(SourceText(p[k]))| <= 3
      ensures Emitted(ParseLine(Standard, SourceText(p[k]))) == InsOf(p[k])
    {
      LineAgain(p[k]);
    }
  }
}
