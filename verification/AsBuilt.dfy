/** What the assembler does in the kernel as it is built, where the lookups of `src/dasm.c` call
    the `strcmp` of `src/str.c`. */
module AsBuilt {
  import opened Options
  import opened Words
  import opened Str
  import opened Scanner
  import opened Vm
  import opened AbstractVm
  import opened Dasm
  import opened Canonical
  import opened Pipeline

  // The mnemonic of line `k`.
  ghost function Mnemonic(code: string, k: nat): string
    requires FitsTables(code) && k < |LinesOf(code)|
  {
    TokensNonempty(LinesOf(code)[k]);
    TokensOf(LinesOf(code)[k])[0]
  }

  // In every text every line gets opcode 1 if its mnemonic is "hlt" and 0 otherwise. It agrees
  // with the standard lookup exactly in the lines whose mnemonic is not in the table.
  lemma KernelOpcodes(code: string, k: nat)
    requires FitsTables(code) && k < |LinesOf(code)|
    ensures Program(Kernel, code)[k].op == if Mnemonic(code, k) == "hlt" then 1 else 0
    ensures Program(Kernel, code)[k].op == Program(Standard, code)[k].op <==> Mnemonic(code, k) !in OPS
  {
    hide TokensOf, LinesOf, ParseLine, Lookup;
    var raw := LinesOf(code)[k];
    LineMeans(Kernel, raw);
    LineMeans(Standard, raw);
    OpLookups(TokensOf(raw)[0]);
  }

  lemma OpLookups(tok: string)
    ensures Lookup(Kernel, OPS, tok) == if tok == "hlt" then 1 else 0
    ensures tok !in OPS ==> Lookup(Standard, OPS, tok) == -1
    ensures tok in OPS ==> Lookup(Standard, OPS, tok) >= 0 && Lookup(Standard, OPS, tok) != Lookup(Kernel, OPS, tok)
  {
    hide Lookup;
    KernelLookup(OPS, tok);
    StandardLookup(OPS, tok);
  }

  // So no line of any program is assembled right.
  lemma NothingAssembles(p: seq<Source>, k: nat)
    requires ValidProgram(p) && k < |p|
    ensures FitsTables(ProgramText(p)) && |Program(Kernel, ProgramText(p))| == |p|
    ensures Program(Kernel, ProgramText(p))[k].op != p[k].op
  {
    hide TokensOf, LinesOf, ParseLine, Lookup, ProgramText;
    AssemblesBack(p);
    var code := ProgramText(p);
    LinesAgain(p);
    TokensAgain(p[k]);
    assert Mnemonic(code, k) == OPS[p[k].op];
    KernelOpcodes(code, k);
    assert Program(Standard, code)[k] == InsOf(p[k]);
  }

  // A text whose first mnemonic is anything but "hlt" stops after exactly one turn, whatever it
  // says: nothing has changed but ip and the status.
  lemma StopsAtOnce(code: string, image: seq<byte>, data: seq<byte>, n: nat)
    requires FitsTables(code) && LinesOf(code) != [] && Mnemonic(code, 0) != "hlt"
    requires Image(image, Program(Kernel, code)) && n >= 1
    ensures Loaded(image, data).status == Running
    ensures Steps(Loaded(image, data), n) == Some(State(Set(ZEROS, IP, INS_SIZE), image + data, Done))
  {
    hide LinesOf, TokensOf, ParseLine;
    KernelOpcodes(code, 0);
    var s := Loaded(image, data);
    var i := Program(Kernel, code)[0];
    assert Fetch(s) == Some(i) by {
      assert Get(ZEROS, IP) == 0;
      assert s.heap[0..INS_SIZE] == image[0..INS_SIZE];
    }
    FirstTurnStops(s, i, n);
  }

  lemma FirstTurnStops(s: State, i: Ins, n: nat)
    requires s.status == Running && Fetch(s) == Some(i) && i.op == 0 && n >= 1
    requires s.regs == ZEROS
    ensures Steps(s, n) == Some(State(Set(ZEROS, IP, INS_SIZE), s.heap, Done))
  {
    assert Step(s) == Some(Advance(s.(status := Done)));
  }
}
