/** `init_vmm` of `src/vm.c`: a text is assembled, copied to the start of the heap, and run. */
module Pipeline {
  import opened Options
  import opened Words
  import Memory
  import opened Vm
  import opened VmInvariants
  import opened AbstractVm
  import opened Halting
  import opened Dasm
  import opened Canonical

  // Where `vm_init` and the copy leave the abstract machine when the run begins.
  function Initial(data: seq<byte>): Abstract {
    Abstract(0, [0, 0, 0, 0], 0, 0, Unset, data, Running)
  }

  function Loaded(image: seq<byte>, data: seq<byte>): State {
    Start(State(ZEROS, image + data, Ready))
  }

  lemma InitialRepresents(image: seq<byte>, data: seq<byte>)
    ensures Represents(image, Loaded(image, data), Initial(data))
  {
  }

  ghost predicate Halts(image: seq<byte>, prog: seq<Ins>, data: seq<byte>, n: nat)
    requires WellFormedProgram(prog)
  {
    AbstractRun(image, prog, Initial(data), n).Next? &&
    AbstractRun(image, prog, Initial(data), n).state.status == Done
  }

  // The program stops, without leaving the abstract machine, in any heap of `size` bytes that
  // begins with it and ends with `tail`.
  ghost predicate Stops(prog: seq<Ins>, size: nat, tail: seq<byte>)
    requires WellFormedProgram(prog)
  {
    forall image: seq<byte>, data: seq<byte> ::
      Image(image, prog) && |image| + |data| == size && EndsWith(data, tail) ==>
        exists n: nat :: Halts(image, prog, data, n)
  }

  predicate EndsWith(s: seq<byte>, tail: seq<byte>) {
    |tail| <= |s| && s[|s| - |tail|..] == tail
  }

  // The first half of `init_vmm`. The copy takes the whole output page, so it needs a heap of
  // at least 2550 bytes.
  method Load(libc: Libc, m: Machine, code: string) returns (ghost image: seq<byte>, ghost data: seq<byte>)
    requires m.Valid() && FitsTables(code)
    requires m.heap.Length >= MAX_INS * INS_SIZE
    modifies m.heap
    ensures m.Valid() && m.View() == old(m.View()).(heap := image + data)
    ensures |image| + |data| == m.heap.Length && Image(image, Program(libc, code))
    ensures EndsWith(data, old(m.heap[MAX_INS * INS_SIZE..]))
  {
    hide Image, Decode;
    var _, out := Assemble(libc, code);
    m.CopyToHeap(0, out, MAX_INS * INS_SIZE);
    ghost var c := INS_SIZE * |Program(libc, code)|;
    image, data := m.heap[..c], m.heap[c..];
    assert image == out[..c];
    assert m.heap[MAX_INS * INS_SIZE..] == old(m.heap[MAX_INS * INS_SIZE..]);
    assert data[|data| - (m.heap.Length - MAX_INS * INS_SIZE)..] == m.heap[MAX_INS * INS_SIZE..];
    assert m.heap[..] == image + data;
  }

  // What the machine computes is what the abstract machine computes from the instructions.
  method AssembleAndRun(libc: Libc, m: Machine, code: string)
    returns (ghost image: seq<byte>, ghost data: seq<byte>, ghost n: nat)
    requires m.Valid() && m.View().regs == ZEROS && m.status == Ready
    requires m.heap.Length >= MAX_INS * INS_SIZE
    requires FitsTables(code) && WellFormedProgram(Program(libc, code))
    requires Stops(Program(libc, code), m.heap.Length, m.heap[MAX_INS * INS_SIZE..])
    modifies m`status, m.registers, m.heap
    ensures m.Valid() && m.status == Done
    ensures Image(image, Program(libc, code)) && EndsWith(data, old(m.heap[MAX_INS * INS_SIZE..]))
    ensures |image| + |data| == old(m.heap.Length)
    ensures Halts(image, Program(libc, code), data, n)
    ensures Represents(image, m.View(), AbstractRun(image, Program(libc, code), Initial(data), n).state)
  {
    hide Image, Steps, AbstractRun, FitsTables, WellFormedProgram, EndsWith, Program;
    image, data := Load(libc, m, code);
    n :| Halts(image, Program(libc, code), data, n);
    InitialRepresents(image, data);
    RunAgrees(image, Program(libc, code), Loaded(image, data), Initial(data), n);
    m.Run(n);
  }

  // End to end for the canonical text of a program: the bytes that assembling it with the standard
  // lookup produces make the byte machine compute what the instructions mean, whatever the padding
  // bytes hold, for as long as the run keeps to the program.
  lemma EndToEnd(p: seq<Source>, image: seq<byte>, data: seq<byte>, n: nat)
    requires ValidProgram(p) && FitsTables(ProgramText(p)) && Image(image, Program(Standard, ProgramText(p)))
    ensures WellFormedProgram(InsList(p))
    ensures Matches(image, Steps(Loaded(image, data), n), AbstractRun(image, InsList(p), Initial(data), n))
    ensures KeepsFor(|image|, InsList(p), Loaded(image, data), n) ==>
              RunsTogether(image, InsList(p), Loaded(image, data), Initial(data), n)
  {
    hide Steps, AbstractRun, ProgramText, InsList, Image, KeepsFor, Represents;
    AssemblesBack(p);
    InsListWellFormed(p);
    InitialRepresents(image, data);
    RunAgrees(image, InsList(p), Loaded(image, data), Initial(data), n);
    RunExactly(image, InsList(p), Loaded(image, data), Initial(data), n);
  }

  // And where no instruction before the first `hlt`, number k, writes ip, and the run neither
  // stores into the program nor leaves the heap, it stops after exactly k + 1 instructions.
  lemma EndToEndStops(p: seq<Source>, image: seq<byte>, data: seq<byte>, k: nat)
    requires ValidProgram(p) && FitsTables(ProgramText(p)) && Image(image, Program(Standard, ProgramText(p)))
    requires k < |p| && p[k].op == 0
    requires forall i :: 0 <= i < k ==> p[i].op != 0 && !WritesIp(InsOf(p[i]))
    requires WellFormedProgram(InsList(p))
    requires Clear(|image|, InsList(p), Loaded(image, data), k + 1)
    ensures forall j :: 0 <= j <= k ==> StandsAt(Steps(Loaded(image, data), j), Running, INS_SIZE * j)
    ensures forall n :: k < n ==> StandsAt(Steps(Loaded(image, data), n), Done, INS_SIZE * (k + 1))
    ensures RunsTogether(image, InsList(p), Loaded(image, data), Initial(data), k + 1)
  {
    hide Steps, AbstractRun, ProgramText, Image, Clear;
    AssemblesBack(p);
    InitialRepresents(image, data);
    StopsBehindFirstHlt(image, InsList(p), Loaded(image, data), Initial(data), k);
  }
}
