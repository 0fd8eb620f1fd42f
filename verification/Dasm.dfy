/** The assembler, for both of its copies: `src/dasm/dasm.c`, a hosted program whose lookups
    call the standard `strcmp`, and `src/dasm.c`, whose lookups call the kernel's own. The table of
    five mnemonics and the emitted mask byte are the kernel's. */
module Dasm {
  import opened Words
  import opened Str
  import opened Scanner
  import opened Vm
  import opened AbstractVm

  const OPS := ["hlt", "mov", "push", "pop", "cmp"]
  const REGS := ["r0", "r1", "r2", "r3", "ip", "sp", "bp"]
  const REG_LETTERS := "risbp"
  const NUM_LETTERS := "0123456789"

  const MAX_INS := 255

  // `ins_t`.
  datatype Line = Line(
    raw: string, tokens: Tokens, opMask: schar, op: schar, m0: schar, a0: short, m1: schar, a1: short)

  type Tokens = t: seq<string> | |t| == 3 witness ["", "", ""]

  const BLANK := Line("", ["", "", ""], 0, 0, 0, 0, 0, 0)

  // ----- what a text means -----

  // Whose `strcmp` the lookup loops call.
  datatype Libc = Standard | Kernel

  // `strcmp(s, name) == 0`: equality for the standard function, but the kernel's answers 1 for
  // equal strings and 0 for all others.
  predicate ComparesZero(libc: Libc, s: string, name: string) {
    if libc == Standard then s == name else s != name
  }

  // The first entry of `names` whose comparison with `s` gives 0; -1 if there is none.
  function Lookup(libc: Libc, names: seq<string>, s: string): (r: int)
    ensures -1 <= r < |names|
    ensures r >= 0 ==> ComparesZero(libc, s, names[r])
    ensures forall k :: 0 <= k < (if r < 0 then |names| else r) ==> !ComparesZero(libc, s, names[k])
  {
    FirstMatch(libc, names, s, 0)
  }

  function FirstMatch(libc: Libc, names: seq<string>, s: string, i: nat): (r: int)
    requires i <= |names|
    ensures r == -1 || i <= r < |names|
    ensures r >= 0 ==> ComparesZero(libc, s, names[r])
    ensures forall k :: i <= k < (if r < 0 then |names| else r) ==> !ComparesZero(libc, s, names[k])
    decreases |names| - i
  {
    if i == |names| then -1
    else if ComparesZero(libc, s, names[i]) then i
    else FirstMatch(libc, names, s, i + 1)
  }

  // What the comparison means for the result: the standard lookup finds exactly the names of the
  // table; the kernel's never gives the same answer.
  lemma StandardLookup(names: seq<string>, s: string)
    ensures Lookup(Standard, names, s) >= 0 <==> s in names
    ensures s in names ==> names[Lookup(Standard, names, s)] == s
  {
    hide Lookup;
    var r := Lookup(Standard, names, s);
    if s in names {
      var k :| 0 <= k < |names| && names[k] == s;
      assert ComparesZero(Standard, s, names[k]);
    }
  }

  lemma KernelLookup(names: seq<string>, s: string)
    requires |names| >= 2 && names[0] != names[1]
    ensures Lookup(Kernel, names, s) == if s == names[0] then 1 else 0
    ensures Lookup(Kernel, names, s) != Lookup(Standard, names, s)
  {
    hide Lookup;
    assert ComparesZero(Kernel, s, names[0]) <==> s != names[0];
    assert s == names[0] ==> ComparesZero(Kernel, s, names[1]) && ComparesZero(Standard, s, names[0]);
  }

  // At most two characters from `from` on: how a register name is cut out of a token.
  function Two(tok: string, from: nat): string
    requires from <= |tok|
  {
    if from + 2 <= |tok| then tok[from..from + 2] else tok[from..]
  }

  // What the standard lookup makes of each mnemonic, and of each register name.
  lemma Opcodes(tok: string)
    ensures Lookup(Standard, OPS, tok) ==
            if tok == "hlt" then 0 else if tok == "mov" then 1 else if tok == "push" then 2
            else if tok == "pop" then 3 else if tok == "cmp" then 4 else -1
  {
    hide Lookup;
    StandardLookup(OPS, tok);
    DistinctNames();
  }

  lemma DistinctNames()
    ensures forall i, j :: 0 <= i < j < |OPS| ==> OPS[i] != OPS[j]
    ensures forall i, j :: 0 <= i < j < |REGS| ==> REGS[i] != REGS[j]
  {
  }

  lemma RegisterNumbers(name: string)
    ensures RegisterOf(Standard, name) ==
            if name == "r0" then 0 else if name == "r1" then 1 else if name == "r2" then 2
            else if name == "r3" then 3 else if name == "ip" then 4 else if name == "sp" then 5
            else if name == "bp" then 6 else -1
  {
    hide Lookup;
    StandardLookup(REGS, name);
    DistinctNames();
  }

  function RegisterOf(libc: Libc, name: string): short {
    Lookup(libc, REGS, name)
  }

  function NumberOf(digits: string): short {
    ToShort(ToInt32(Accumulated(digits)))
  }

  // The mask and the argument of an operand token.
  function Classify(libc: Libc, tok: string): (schar, short) {
    if At(tok, 0) == '[' && Finds(REG_LETTERS, At(tok, 1)) then (3, RegisterOf(libc, Two(tok, 1)))
    else if Finds(NUM_LETTERS, At(tok, 0)) then (0, NumberOf(tok))
    else if Finds(REG_LETTERS, At(tok, 0)) then (1, RegisterOf(libc, Two(tok, 0)))
    else if At(tok, 0) == '[' && Finds(NUM_LETTERS, At(tok, 1)) then (2, NumberOf(tok[1..|tok| - 1]))
    else (0, 0)
  }

  // In characters: what a token begins with decides what kind of operand it is.
  lemma OperandKinds(tok: string)
    requires IsCString(tok)
    ensures Classify(Standard, tok) ==
            if tok == "" then (0, 0)
            else if tok[0] in "0123456789" then (0, NumberOf(tok))
            else if tok[0] in "risbp" then (1, RegisterOf(Standard, if |tok| < 2 then tok else tok[..2]))
            else if tok == "[" then (3, -1)
            else if tok[0] == '[' && tok[1] in "risbp" then
              (3, RegisterOf(Standard, if |tok| < 3 then tok[1..] else tok[1..3]))
            else if tok[0] == '[' && tok[1] in "0123456789" then (2, NumberOf(tok[1..|tok| - 1]))
            else (0, 0)
  {
    hide RegisterOf, NumberOf;
    if tok == "" {
      EmptyNumber();
    } else if tok == "[" {
      RegisterNumbers("");
      assert Two(tok, 1) == "";
    }
  }

  lemma EmptyNumber()
    ensures NumberOf("") == 0
  {
  }

  function WithOp(libc: Libc, l: Line, tok: string): Line {
    var o := Lookup(libc, OPS, tok);
    if o >= 0 then l.(op := o, opMask := 0) else l
  }

  function WithArg(libc: Libc, l: Line, t: nat, tok: string): Line {
    var (m, a) := Classify(libc, tok);
    if t == 1 then l.(m0 := m, a0 := a) else if t == 2 then l.(m1 := m, a1 := a) else l
  }

  function WithToken(libc: Libc, l: Line, t: nat, tok: string): Line
    requires t < 3
  {
    var k := l.(tokens := l.tokens[t := tok]);
    if t == 0 then WithOp(libc, k, tok) else WithArg(libc, k, t, tok)
  }

  function WithTokens(libc: Libc, l: Line, t: nat, toks: seq<string>): Line
    requires t + |toks| <= 3
    decreases toks
  {
    if toks == [] then l else WithTokens(libc, WithToken(libc, l, t, toks[0]), t + 1, toks[1..])
  }

  lemma WithTokensStep(libc: Libc, l: Line, t: nat, tok: string, rest: seq<string>)
    requires t + 1 + |rest| <= 3
    ensures WithTokens(libc, l, t, [tok] + rest) == WithTokens(libc, WithToken(libc, l, t, tok), t + 1, rest)
  {
    assert ([tok] + rest)[1..] == rest;
  }

  function TokensOf(raw: string): seq<string> {
    Pieces(raw, ' ', false, 0, 0)
  }

  function LinesOf(code: string): seq<string> {
    Pieces(code, '\n', true, 0, 0)
  }

  // Lines are cut at line breaks, up to the first one that begins with '#'.
  lemma Comments(lines: seq<string>, tail: seq<string>)
    requires forall k :: 0 <= k < |lines| ==> '\n' !in lines[k] && (lines[k] == "" ==> k == 0) && !("#" <= lines[k])
    requires tail != [] && "#" <= tail[0]
    ensures LinesOf(Join(lines + tail, '\n')) == lines
  {
    hide Pieces, Join;
    var s := Join(lines + tail, '\n');
    assert s[0..] == s;
    ScanComment(s, 0, lines, tail, '\n', true);
  }

  function ParseLine(libc: Libc, raw: string): Line
    requires |TokensOf(raw)| <= 3
  {
    WithTokens(libc, BLANK.(raw := raw), 0, TokensOf(raw))
  }

  lemma NoMoreTokens(libc: Libc, l: Line, t: nat)
    requires t <= 3
    ensures WithTokens(libc, l, t, []) == l
  {
  }

  lemma {:induction false} PiecesNonempty(s: string, sep: char, p: nat, n: nat)
    requires n <= p <= |s|
    ensures Pieces(s, sep, false, p, n) != []
    decreases |s| - p
  {
    if p < |s| {
      PiecesNonempty(s, sep, p + 1, n + 1);
    }
  }

  lemma TokensNonempty(raw: string)
    ensures TokensOf(raw) != []
  {
    PiecesNonempty(raw, ' ', 0, 0);
  }

  // The first token of a line gives its opcode, 0 if it is not found; the second and the third
  // give the first and the second operand, which are zero where there is no token.
  lemma LineMeans(libc: Libc, raw: string)
    requires |TokensOf(raw)| <= 3
    ensures TokensOf(raw) != []
    ensures var toks, l := TokensOf(raw), ParseLine(libc, raw);
            var o := Lookup(libc, OPS, toks[0]);
            l.op == (if o >= 0 then o else 0) &&
            (l.m0, l.a0) == (if |toks| > 1 then Classify(libc, toks[1]) else (0, 0)) &&
            (l.m1, l.a1) == (if |toks| > 2 then Classify(libc, toks[2]) else (0, 0))
  {
    hide Classify, Lookup, TokensOf, WithTokens;
    TokensNonempty(raw);
    var toks := TokensOf(raw);
    var l0 := BLANK.(raw := raw);
    var l1 := WithToken(libc, l0, 0, toks[0]);
    assert toks == [toks[0]] + toks[1..];
    WithTokensStep(libc, l0, 0, toks[0], toks[1..]);
    if |toks| == 1 {
      NoMoreTokens(libc, l1, 1);
    } else {
      var l2 := WithToken(libc, l1, 1, toks[1]);
      assert toks[1..] == [toks[1]] + toks[2..];
      WithTokensStep(libc, l1, 1, toks[1], toks[2..]);
      if |toks| == 2 {
        NoMoreTokens(libc, l2, 2);
      } else {
        assert toks[2..] == [toks[2]] + [];
        WithTokensStep(libc, l2, 2, toks[2], []);
        NoMoreTokens(libc, WithToken(libc, l2, 2, toks[2]), 3);
      }
    }
  }

  // The instruction the emission loop writes for a line.
  function Emitted(l: Line): Ins {
    Ins(15, l.op, l.m0, l.a0, l.m1, l.a1)
  }

  // The fixed tables hold the text: at most 255 lines, each of at most three tokens.
  ghost predicate FitsTables(code: string) {
    IsCString(code) && |LinesOf(code)| <= MAX_INS &&
    forall k :: 0 <= k < |LinesOf(code)| ==> |TokensOf(LinesOf(code)[k])| <= 3
  }

  ghost function Program(libc: Libc, code: string): (prog: seq<Ins>)
    requires FitsTables(code)
    ensures |prog| == |LinesOf(code)|
  {
    seq(|LinesOf(code)|, k requires 0 <= k < |LinesOf(code)| => Emitted(ParseLine(libc, LinesOf(code)[k])))
  }

  // ----- the assembler -----

  // The comparison in the lookup loops.
  method CompareZero(libc: Libc, s: string, name: string) returns (zero: bool)
    requires IsCString(s) && IsCString(name)
    ensures zero == ComparesZero(libc, s, name)
  {
    if libc == Kernel {
      var c := Strcmp(s, name);
      return c == 0;
    }
    return s == name;
  }

  // `get_reg`.
  method GetReg(libc: Libc, reg: string) returns (r: short)
    requires IsCString(reg)
    ensures r == RegisterOf(libc, reg)
  {
    r := -1;
    var i := 0;
    while i < 7
      invariant 0 <= i <= 7 && r == -1
      invariant forall k :: 0 <= k < i ==> !ComparesZero(libc, reg, REGS[k])
    {
      var zero := CompareZero(libc, reg, REGS[i]);
      if zero {
        r := i;
        break;
      }
      i := i + 1;
    }
  }

  // `parse_arg`, on token `t` of line `c`.
  method ParseArg(libc: Libc, ins: array<Line>, c: nat, t: nat)
    requires c < ins.Length && 1 <= t < 3 && IsCString(ins[c].tokens[t])
    modifies ins
    ensures ins[..] == old(ins[..])[c := WithArg(libc, old(ins[c]), t, old(ins[c]).tokens[t])]
  {
    var tok := ins[c].tokens[t];
    var a: short, m: schar := 0, 0;
    if At(tok, 0) == '[' && Finds(REG_LETTERS, At(tok, 1)) {
      a := GetReg(libc, Two(tok, 1));
      m := 3;
    } else if Finds(NUM_LETTERS, At(tok, 0)) {
      m := 0;
      var n := Atoi(tok);
      a := ToShort(n);
    } else if Finds(REG_LETTERS, At(tok, 0)) {
      a := GetReg(libc, Two(tok, 0));
      m := 1;
    } else if At(tok, 0) == '[' && Finds(NUM_LETTERS, At(tok, 1)) {
      var n := Atoi(tok[1..|tok| - 1]);
      a := ToShort(n);
      m := 2;
    }
    if t == 1 {
      ins[c] := ins[c].(m0 := m, a0 := a);
    } else if t == 2 {
      ins[c] := ins[c].(m1 := m, a1 := a);
    }
  }

  // The search for the mnemonic in `parse`.
  method ParseOp(libc: Libc, ins: array<Line>, c: nat)
    requires c < ins.Length && IsCString(ins[c].tokens[0])
    modifies ins
    ensures ins[..] == old(ins[..])[c := WithOp(libc, old(ins[c]), old(ins[c]).tokens[0])]
  {
    var o := 0;
    while o < |OPS|
      invariant 0 <= o <= |OPS|
      invariant ins[..] == old(ins[..])
      invariant forall k :: 0 <= k < o ==> !ComparesZero(libc, ins[c].tokens[0], OPS[k])
    {
      var zero := CompareZero(libc, ins[c].tokens[0], OPS[o]);
      if zero {
        ins[c] := ins[c].(op := o, opMask := 0);
        break;
      }
      o := o + 1;
    }
  }

  // `parse`, on line `c`. A fourth token has no place in the line's table of three, and C leaves
  // undefined what storing it does.
  method Parse(libc: Libc, ins: array<Line>, c: nat) returns (defined: bool)
    requires c < ins.Length && IsCString(ins[c].raw)
    modifies ins
    ensures defined <==> |TokensOf(old(ins[c]).raw)| <= 3
    ensures defined ==> ins[..] == old(ins[..])[c := WithTokens(libc, old(ins[c]), 0, TokensOf(old(ins[c]).raw))]
  {
    hide Pieces, WithTokens, Classify;
    var tokLen, t := 0, 0;
    var raw := ins[c].raw;
    ghost var was, start, toks := ins[..], ins[c], TokensOf(raw);
    var i := 0;
    while i < |raw| + 1
      invariant 0 <= tokLen <= i && 0 <= t <= 3
      invariant t + |Pieces(raw, ' ', false, i, tokLen)| == |toks|
      invariant ins[..] == was[c := ins[c]]
      invariant |toks| <= 3 ==>
                  WithTokens(libc, ins[c], t, Pieces(raw, ' ', false, i, tokLen)) == WithTokens(libc, start, 0, toks)
      decreases |raw| + 3 - i
    {
      PiecesStep(raw, ' ', false, i, tokLen);
      if At(raw, i) == ' ' || At(raw, i) == '\0' {
        if t == 3 {
          return false;
        }
        var tok := raw[i - tokLen..i];
        ghost var l, rest := ins[c], Pieces(raw, ' ', false, i + 2, 1);
        if |toks| <= 3 {
          WithTokensStep(libc, l, t, tok, rest);
        }
        ins[c] := ins[c].(tokens := ins[c].tokens[t := tok]);
        if t == 0 {
          ParseOp(libc, ins, c);
        } else {
          ParseArg(libc, ins, c, t);
        }
        assert ins[c] == WithToken(libc, l, t, tok);
        tokLen := 0;
        i := i + 1;
        t := t + 1;
      }
      i := i + 1;
      tokLen := tokLen + 1;
    }
    PastTheEnd(raw, ' ', false, i, tokLen);
    NoMoreTokens(libc, ins[c], t);
    defined := true;
  }

  // Cutting out a line of `dasm` and parsing it.
  method TakeLine(libc: Libc, ins: array<Line>, c: nat, raw: string) returns (defined: bool)
    requires c < ins.Length && ins[c] == BLANK && IsCString(raw)
    modifies ins
    ensures defined <==> |TokensOf(raw)| <= 3
    ensures defined ==> ins[..] == old(ins[..])[c := ParseLine(libc, raw)]
  {
    hide TokensOf, WithTokens;
    ins[c] := ins[c].(raw := raw);
    defined := Parse(libc, ins, c);
  }

  // `dasm`. The table of lines starts out cleared, as the hosted copy's does. It is defined
  // exactly for texts that fit the tables. The result has room for 255 instructions; the bytes
  // behind the last line's are whatever they were, and so are the padding bytes.
  method Assemble(libc: Libc, code: string) returns (defined: bool, out: array<byte>)
    requires IsCString(code)
    ensures defined <==> FitsTables(code)
    ensures defined <==>
            |LinesOf(code)| <= 255 && forall k :: 0 <= k < |LinesOf(code)| ==> |TokensOf(LinesOf(code)[k])| <= 3
    ensures fresh(out) && out.Length == MAX_INS * INS_SIZE == 2550
    ensures defined ==> Image(out[..INS_SIZE * |Program(libc, code)|], Program(libc, code))
    ensures defined ==>
              forall k :: 0 <= k < |LinesOf(code)| ==>
                var l := ParseLine(libc, LinesOf(code)[k]);
                out[10 * k] == 15 && out[10 * k + 1] == l.op % 0x100 && out[10 * k + 2] == l.m0 % 0x100 &&
                out[10 * k + 4] + 0x100 * out[10 * k + 5] as int == l.a0 % 0x1_0000 &&
                out[10 * k + 6] == l.m1 % 0x100 &&
                out[10 * k + 8] + 0x100 * out[10 * k + 9] as int == l.a1 % 0x1_0000
  {
    hide Pieces, ParseLine, TokensOf;
    out := new byte[MAX_INS * INS_SIZE];
    var ins := new Line[MAX_INS](_ => BLANK);
    ghost var lines := LinesOf(code);
    var ptr, tokLen, curIns := 0, 0, 0;
    while ptr < |code| + 1
      invariant 0 <= tokLen <= ptr && 0 <= curIns <= |lines| && curIns <= MAX_INS
      invariant Pieces(code, '\n', true, ptr, tokLen) == lines[curIns..]
      invariant forall k :: 0 <= k < curIns ==> |TokensOf(lines[k])| <= 3 && ins[k] == ParseLine(libc, lines[k])
      invariant forall k :: curIns <= k < MAX_INS ==> ins[k] == BLANK
      decreases |code| + 3 - ptr
    {
      PiecesStep(code, '\n', true, ptr, tokLen);
      if (At(code, ptr) == '\n' || At(code, ptr) == '\0') && At(code, ptr - tokLen) != '#' {
        var raw := code[ptr - tokLen..ptr];
        assert lines[curIns..] == [raw] + Pieces(code, '\n', true, ptr + 2, 1);
        assert lines[curIns] == raw && lines[curIns + 1..] == lines[curIns..][1..];
        if curIns == MAX_INS {
          return false, out;
        }
        var ok := TakeLine(libc, ins, curIns, raw);
        if !ok {
          return false, out;
        }
        tokLen := 0;
        curIns := curIns + 1;
        ptr := ptr + 1;
      }
      ptr := ptr + 1;
      tokLen := tokLen + 1;
    }
    PastTheEnd(code, '\n', true, ptr, tokLen);
    out := Emit(ins, curIns, Program(libc, code));
    defined := true;
  }

  // The loop of `dasm` that fills the output page.
  method Emit(ins: array<Line>, curIns: nat, ghost prog: seq<Ins>) returns (out: array<byte>)
    requires curIns <= ins.Length && curIns <= MAX_INS
    requires |prog| == curIns && forall k :: 0 <= k < curIns ==> prog[k] == Emitted(ins[k])
    ensures fresh(out) && out.Length == MAX_INS * INS_SIZE
    ensures Image(out[..INS_SIZE * curIns], prog)
    ensures forall k :: 0 <= k < curIns ==>
              out[10 * k] == 15 && out[10 * k + 1] == ins[k].op % 0x100 && out[10 * k + 2] == ins[k].m0 % 0x100 &&
              out[10 * k + 4] + 0x100 * out[10 * k + 5] as int == ins[k].a0 % 0x1_0000 &&
              out[10 * k + 6] == ins[k].m1 % 0x100 &&
              out[10 * k + 8] + 0x100 * out[10 * k + 9] as int == ins[k].a1 % 0x1_0000
  {
    hide Decode;
    out := new byte[MAX_INS * INS_SIZE];
    var i := 0;
    while i < curIns
      invariant 0 <= i <= curIns
      invariant Image(out[..INS_SIZE * i], prog[..i])
    {
      var at := INS_SIZE * i;
      StoreIns(out, at, Emitted(ins[i]));
      ImageSnoc(out[..at], prog[..i], out[at..at + INS_SIZE], prog[i]);
      assert out[..at + INS_SIZE] == out[..at] + out[at..at + INS_SIZE];
      assert prog[..i + 1] == prog[..i] + [prog[i]];
      i := i + 1;
    }
    assert prog[..curIns] == prog;
    forall k | 0 <= k < curIns
      ensures out[10 * k] == 15 && out[10 * k + 1] == ins[k].op % 0x100 && out[10 * k + 2] == ins[k].m0 % 0x100
      ensures out[10 * k + 4] + 0x100 * out[10 * k + 5] as int == ins[k].a0 % 0x1_0000
      ensures out[10 * k + 6] == ins[k].m1 % 0x100
      ensures out[10 * k + 8] + 0x100 * out[10 * k + 9] as int == ins[k].a1 % 0x1_0000
    {
      var b := out[..INS_SIZE * curIns][INS_SIZE * k..INS_SIZE * k + INS_SIZE];
      Layout(b, prog[k]);
      assert forall j :: 0 <= j < 10 ==> b[j] == out[10 * k + j];
    }
  }

  lemma ImageSnoc(code: seq<byte>, prog: seq<Ins>, bytes: seq<byte>, i: Ins)
    requires Image(code, prog) && |bytes| == INS_SIZE && Decode(bytes) == i
    ensures Image(code + bytes, prog + [i])
  {
    hide Decode;
    forall k | 0 <= k < |prog| + 1
      ensures Decode((code + bytes)[INS_SIZE * k..INS_SIZE * k + INS_SIZE]) == (prog + [i])[k]
    {
      if k < |prog| {
        assert (code + bytes)[INS_SIZE * k..INS_SIZE * k + INS_SIZE] == code[INS_SIZE * k..INS_SIZE * k + INS_SIZE];
      } else {
        assert (code + bytes)[INS_SIZE * k..INS_SIZE * k + INS_SIZE] == bytes;
      }
    }
  }

  method StoreIns(out: array<byte>, at: nat, i: Ins)
    requires at + INS_SIZE <= out.Length
    modifies out
    ensures Decode(out[at..at + INS_SIZE]) == i
    ensures out[..at] == old(out[..at])
    ensures out[at + INS_SIZE..] == old(out[at + INS_SIZE..])
  {
    var pad0: byte := *;
    var pad1: byte := *;
    out[at], out[at + 1], out[at + 2], out[at + 3] := i.opMask % 0x100, i.op % 0x100, i.m0 % 0x100, pad0;
    out[at + 4], out[at + 5] := Low(i.a0), High(i.a0);
    out[at + 6], out[at + 7] := i.m1 % 0x100, pad1;
    out[at + 8], out[at + 9] := Low(i.a1), High(i.a1);
    PackUnpack(i.a0);
    PackUnpack(i.a1);
  }
}
