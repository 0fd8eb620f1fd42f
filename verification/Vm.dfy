/** The byte-code machine of `src/vm.c` and `src/vm_ops.c`: a register struct overlaid by
    bytes, and a heap of bytes that holds both the program and its data. */
module Vm {
  import opened Options
  import opened Words
  import Memory

  datatype Status = Ready | Running | Done

  // `vm_regs_t`: r0, r1, r2, r3, ip, sp and bp, two bytes each, then flags and one byte of padding.
  type Registers = r: seq<byte> | |r| == 16 witness seq(16, _ => 0)

  const ZEROS: Registers := [0, 0, 0, 0, 0, 0, 0, 0, 0, 0, 0, 0, 0, 0, 0, 0]

  const IP := 4
  const SP := 5
  const BP := 6
  const FLAGS := 14

  datatype State = State(regs: Registers, heap: seq<byte>, status: Status)

  // `vm_ins`.
  datatype Ins = Ins(opMask: schar, op: schar, m0: schar, a0: short, m1: schar, a1: short)

  const INS_SIZE := 10

  function Get(regs: Registers, k: nat): short
    requires k < 8
  {
    Pack(regs[2 * k], regs[2 * k + 1])
  }

  function Set(regs: Registers, k: nat, v: short): Registers
    requires k < 8
  {
    regs[2 * k := Low(v)][2 * k + 1 := High(v)]
  }

  lemma GetSet(regs: Registers, k: nat, v: short)
    requires k < 8
    ensures Get(Set(regs, k, v), k) == v
  {
    PackUnpack(v);
  }

  // The fields of an instruction in its ten bytes; bytes 3 and 7 are padding.
  function Decode(b: seq<byte>): Ins
    requires |b| == INS_SIZE
  {
    Ins(ToSChar(b[0]), ToSChar(b[1]), ToSChar(b[2]), Pack(b[4], b[5]), ToSChar(b[6]), Pack(b[8], b[9]))
  }

  // In numbers: one byte each at 0, 1, 2 and 6, and two bytes each, low byte first, at 4 and 8.
  lemma Layout(b: seq<byte>, i: Ins)
    requires |b| == 10
    ensures Decode(b) == i <==>
            b[0] == i.opMask % 0x100 && b[1] == i.op % 0x100 &&
            b[2] == i.m0 % 0x100 && b[4] + 0x100 * b[5] as int == i.a0 % 0x1_0000 &&
            b[6] == i.m1 % 0x100 && b[8] + 0x100 * b[9] as int == i.a1 % 0x1_0000
  {
    hide Pack;
    UnsignedChar(b[0], i.opMask);
    UnsignedChar(b[1], i.op);
    UnsignedChar(b[2], i.m0);
    UnsignedShort(b[4], b[5], i.a0);
    UnsignedChar(b[6], i.m1);
    UnsignedShort(b[8], b[9], i.a1);
  }

  lemma UnsignedChar(b: byte, c: schar)
    ensures ToSChar(b) == c <==> b == c % 0x100
  {
  }

  lemma UnsignedShort(lo: byte, hi: byte, v: short)
    ensures Pack(lo, hi) == v <==> lo + 0x100 * hi as int == v % 0x1_0000
  {
  }

  // ----- what each operation does to the state -----

  function HeapAt(s: State, a: int): Option<short> {
    if 0 <= a < |s.heap| then Some(s.heap[a]) else None
  }

  function HeapPut(s: State, a: int, v: short): Option<State> {
    if 0 <= a < |s.heap| then Some(s.(heap := s.heap[a := LowByte(v)])) else None
  }

  // The byte view reaches the struct only for operands 0..7.
  function Read(s: State, mask: schar, arg: short): Option<short> {
    if mask == 0 then Some(arg)
    else if mask == 1 then if 0 <= arg < 8 then Some(s.regs[2 * arg]) else None
    else if mask == 2 then HeapAt(s, arg + Get(s.regs, BP))
    else if mask == 3 then if 0 <= arg < 8 then HeapAt(s, s.regs[2 * arg] + Get(s.regs, BP)) else None
    else Some(0)
  }

  function Write(s: State, mask: schar, arg: short, val: short): Option<State> {
    if mask == 1 then
      if 0 <= arg < 8 then Some(s.(regs := s.regs[2 * arg := LowByte(val)])) else None
    else if mask == 2 then HeapPut(s, arg + Get(s.regs, BP), val)
    else if mask == 3 then
      if 0 <= arg < 8 then HeapPut(s, s.regs[2 * arg] + Get(s.regs, BP), val) else None
    else Some(s)
  }

  // `flags |= bit` or `flags &= ~bit`, for a bit of value `w`.
  function SetBit(f: byte, w: byte, on: bool): int
    requires w == 1 || w == 2 || w == 4
  {
    var has := f / w % 2 == 1;
    if on == has then f else if on then f + w else f - w
  }

  lemma SetBitByte(f: byte, w: byte, on: bool)
    requires w == 1 || w == 2 || w == 4
    ensures 0 <= SetBit(f, w, on) < 0x100
  {
  }

  function CompareFlags(f: byte, x: short, y: short): byte {
    SetBitByte(f, 1, x == y);
    var f1: byte := SetBit(f, 1, x == y);
    SetBitByte(f1, 2, x >= y);
    var f2: byte := SetBit(f1, 2, x >= y);
    SetBitByte(f2, 4, x <= y);
    SetBit(f2, 4, x <= y)
  }

  function Exec(s: State, i: Ins): Option<State> {
    match i.op
    case 0 => Some(s.(status := Done))
    case 1 =>
      var v :- Read(s, i.m1, i.a1);
      Write(s, i.m0, i.a0, v)
    case 2 =>
      var v :- Read(s, i.m0, i.a0);
      var sp := Get(s.regs, SP);
      var t :- HeapPut(s, sp, v);
      Some(t.(regs := Set(s.regs, SP, ToShort(sp + 2))))
    case 3 =>
      var sp := Get(s.regs, SP);
      var v :- HeapAt(s, sp);
      Write(s.(regs := Set(s.regs, SP, ToShort(sp - 1))), i.m0, i.a0, v)
    case 4 =>
      var x :- Read(s, i.m0, i.a0);
      var y :- Read(s, i.m1, i.a1);
      Some(s.(regs := s.regs[FLAGS := CompareFlags(s.regs[FLAGS], x, y)]))
    case _ => None
  }

  // In numbers: bytes 2k and 2k + 1 of the struct are register k, the low byte first; sp is at 10,
  // ip at 8, and the flags are at 14.

  lemma MovDoes(s: State, i: Ins, t: State)
    requires i.op == 1 && Exec(s, i) == Some(t)
    ensures i.m0 == 1 && i.m1 == 0 ==> 0 <= i.a0 < 8 && t == s.(regs := s.regs[2 * i.a0 := i.a1 % 0x100])
    ensures i.m0 == 1 && i.m1 == 1 ==>
              0 <= i.a0 < 8 && 0 <= i.a1 < 8 && t == s.(regs := s.regs[2 * i.a0 := s.regs[2 * i.a1]])
  {
  }

  lemma PushDoes(s: State, i: Ins, t: State)
    requires i.op == 2 && Exec(s, i) == Some(t)
    ensures var sp: int := Pack(s.regs[10], s.regs[11]);
            0 <= sp < |s.heap| && Pack(t.regs[10], t.regs[11]) == (if sp < 0x7ffe then sp + 2 else sp - 0xfffe) &&
            t.regs[..10] == s.regs[..10] && t.regs[12..] == s.regs[12..] && t.status == s.status &&
            Read(s, i.m0, i.a0).Some? && t.heap == s.heap[sp := Read(s, i.m0, i.a0).value % 0x100]
  {
    hide ToShort, Low, High, Pack, Read;
    var sp: int := Get(s.regs, SP);
    NextShort(sp);
    PackUnpack(ToShort(sp + 2));
  }

  lemma NextShort(v: short)
    ensures ToShort(v + 2) == if v < 0x7ffe then v + 2 else v - 0xfffe
  {
  }

  lemma PopDoes(s: State, i: Ins, t: State)
    requires i.op == 3 && Exec(s, i) == Some(t)
    ensures var sp: int := Pack(s.regs[10], s.regs[11]);
            0 <= sp < |s.heap| &&
            (i.m0 == 1 && 0 <= i.a0 < 7 ==>
               t.heap == s.heap && t.status == s.status && t.regs[2 * i.a0] == s.heap[sp] &&
               (i.a0 != 5 ==> Pack(t.regs[10], t.regs[11]) == sp - 1) &&
               (i.a0 == 5 ==> t.regs[11] == if sp == 0 then 255 else (sp - 1) / 0x100) &&
               forall j :: 0 <= j < 16 && j != 2 * i.a0 && j != 10 && j != 11 ==> t.regs[j] == s.regs[j])
  {
    hide ToShort, Low, High, Pack;
    var sp: int := Get(s.regs, SP);
    if sp >= 0 {
      BytesBelow(sp);
      PackUnpack(ToShort(sp - 1));
    }
  }

  lemma BytesBelow(v: nat)
    requires v < 0x8000
    ensures ToShort(v - 1) == v - 1 && Low(ToShort(v - 1)) == (v - 1) % 0x100
    ensures High(ToShort(v - 1)) == if v == 0 then 255 else (v - 1) / 0x100
  {
  }

  lemma CmpDoes(s: State, i: Ins, t: State)
    requires i.op == 4 && Exec(s, i) == Some(t)
    ensures Read(s, i.m0, i.a0).Some? && Read(s, i.m1, i.a1).Some?
    ensures var x, y := Read(s, i.m0, i.a0).value, Read(s, i.m1, i.a1).value;
            var f: int := t.regs[14];
            t == s.(regs := s.regs[14 := f]) && f / 8 == s.regs[14] / 8 &&
            f % 8 == (if x == y then 7 else if x > y then 2 else 4)
  {
    hide Read;
    FlagBits(s.regs[14], Read(s, i.m0, i.a0).value, Read(s, i.m1, i.a1).value);
  }

  lemma FlagBits(f: byte, x: short, y: short)
    ensures var g := CompareFlags(f, x, y);
            g / 8 == f / 8 && g % 8 == if x == y then 7 else if x > y then 2 else 4
  {
    hide SetBit;
    SetBitByte(f, 1, x == y);
    var f1: byte := SetBit(f, 1, x == y);
    SetBitByte(f1, 2, x >= y);
    var f2: byte := SetBit(f1, 2, x >= y);
    var a, b, c, d := BitsOf(f);
    var eq, gte, lte := if x == y then 1 else 0, if x >= y then 1 else 0, if x <= y then 1 else 0;
    SetBitOf(f, 1, x == y, a, b, c, d);
    SetBitOf(f1, 2, x >= y, a, b, c, eq);
    SetBitOf(f2, 4, x <= y, a, b, gte, eq);
  }

  lemma BitsOf(f: byte) returns (a: nat, b: nat, c: nat, d: nat)
    ensures b < 2 && c < 2 && d < 2 && f == 8 * a + 4 * b + 2 * c + d
  {
    var half: nat := f / 2;
    var quarter: nat := half / 2;
    a, b, c, d := quarter / 2, quarter % 2, half % 2, f % 2;
  }

  lemma SetBitOf(f: byte, w: byte, on: bool, a: nat, b: nat, c: nat, d: nat)
    requires w == 1 || w == 2 || w == 4
    requires b < 2 && c < 2 && d < 2 && f == 8 * a + 4 * b + 2 * c + d
    ensures var v := if on then 1 else 0;
            SetBit(f, w, on) ==
            8 * a + 4 * (if w == 4 then v else b) + 2 * (if w == 2 then v else c) + if w == 1 then v else d
  {
  }

  // The instruction at ip.
  function Fetch(s: State): Option<Ins> {
    var ip := Get(s.regs, IP);
    if 0 <= ip && ip + INS_SIZE <= |s.heap| then Some(Decode(s.heap[ip..ip + INS_SIZE])) else None
  }

  function RunOp(s: State): Option<State> {
    var i :- Fetch(s);
    Exec(s, i)
  }

  function Advance(s: State): State {
    s.(regs := Set(s.regs, IP, ToShort(Get(s.regs, IP) + INS_SIZE)))
  }

  // One turn of the loop in `vm_run`.
  function Step(s: State): Option<State> {
    var t :- RunOp(s);
    Some(Advance(t))
  }

  // Besides what the operation did, a turn takes ip, at bytes 8 and 9, on by ten.
  lemma StepDoes(s: State, r: State, t: State)
    requires RunOp(s) == Some(r) && Step(s) == Some(t)
    ensures t == r.(regs := r.regs[8 := t.regs[8]][9 := t.regs[9]])
    ensures t.regs[8] + 0x100 * t.regs[9] as int == (r.regs[8] + 0x100 * r.regs[9] as int + 10) % 0x1_0000
  {
    hide RunOp, ToShort, Low, High, Pack;
    TenOn(r.regs[8], r.regs[9]);
  }

  lemma TenOn(lo: byte, hi: byte)
    ensures var v: short := ToShort(Pack(lo, hi) as int + 10);
            Low(v) + 0x100 * High(v) as int == (lo + 0x100 * hi as int + 10) % 0x1_0000
  {
    hide ToShort, Low, High;
    var p: int := Pack(lo, hi);
    TenMore(p);
    BytesOf(ToShort(p + 10));
  }

  lemma TenMore(p: short)
    ensures ToShort(p as int + 10) == if p < 0x7ff6 then p as int + 10 else p as int - 0xfff6
  {
  }

  lemma BytesOf(v: short)
    ensures Low(v) + 0x100 * High(v) as int == if v < 0 then v as int + 0x1_0000 else v
  {
  }

  // At most `n` turns of that loop.
  function Steps(s: State, n: nat): Option<State>
    decreases n
  {
    if n == 0 || s.status != Running then Some(s)
    else if Step(s).None? then None
    else Steps(Step(s).value, n - 1)
  }

  lemma StepsUnfold(s: State, n: nat)
    requires s.status == Running
    requires Steps(s, n).Some? && Steps(s, n).value.status != Running
    ensures n > 0 && Step(s).Some?
    ensures Steps(s, n) == Steps(Step(s).value, n - 1)
  {
    hide Exec;
  }

  function Start(s: State): State {
    if s.status == Ready then s.(status := Running) else s
  }

  // ----- the machine -----

  class Machine {
    const name: string
    const registers: array<byte>
    var heap: array<byte>
    var status: Status

    ghost predicate Valid()
      reads this
    {
      registers.Length == 16 && registers != heap
    }

    ghost function View(): State
      reads this, registers, heap
      requires Valid()
    {
      State(registers[..], heap[..], status)
    }

    // `vm_init`, with the size of the heap as a parameter; nothing is known of its contents.
    constructor (name: string, heapSize: nat)
      ensures Valid() && fresh(registers) && fresh(heap)
      ensures this.name == name && heap.Length == heapSize
      ensures View() == State(ZEROS, heap[..], Ready)
      ensures forall k :: 0 <= k < 16 ==> registers[k] == 0
    {
      this.name := name;
      registers := new byte[16](_ => 0);
      heap := new byte[heapSize];
      status := Ready;
    }

    // `vm_load_heap`.
    method LoadHeap(h: array<byte>)
      requires Valid() && h != registers
      modifies this`heap
      ensures Valid() && heap == h && View() == old(View()).(heap := h[..])
    {
      heap := h;
    }

    // `vm_copy_to_heap`.
    method CopyToHeap(address: nat, data: array<byte>, size: nat)
      requires Valid() && address + size <= heap.Length && size <= data.Length
      modifies heap
      ensures Valid()
      ensures View() == old(View()).(heap := Memory.Moved(old(heap[..]), address, old(data[..]), 0, size))
    {
      Memory.MemCpy(heap, address, data, 0, size);
    }

    method GetShort(k: nat) returns (v: short)
      requires Valid() && k < 8
      ensures v == Get(View().regs, k)
    {
      v := Pack(registers[2 * k], registers[2 * k + 1]);
    }

    method SetShort(k: nat, v: short)
      requires Valid() && k < 8
      modifies registers
      ensures View() == old(View()).(regs := Set(old(View()).regs, k, v))
    {
      registers[2 * k] := Low(v);
      registers[2 * k + 1] := High(v);
      assert registers[..] == Set(old(registers[..]), k, v);
    }

    // `vm_write`.
    method VmWrite(mask0: schar, arg0: short, val: short)
      requires Valid() && Write(View(), mask0, arg0, val).Some?
      modifies registers, heap
      ensures Some(View()) == Write(old(View()), mask0, arg0, val)
      ensures mask0 == 1 ==>
                0 <= arg0 < 8 && registers[..] == old(registers[..])[2 * arg0 := val % 0x100] &&
                heap[..] == old(heap[..])
      ensures mask0 == 2 || mask0 == 3 ==>
                (mask0 == 3 ==> 0 <= arg0 < 8) &&
                var p: int := (if mask0 == 2 then arg0 else registers[2 * arg0]) + Pack(registers[12], registers[13]);
                0 <= p < heap.Length && heap[..] == old(heap[..])[p := val % 0x100]
      ensures mask0 != 1 ==> registers[..] == old(registers[..])
      ensures mask0 < 1 || mask0 > 3 ==> heap[..] == old(heap[..])
    {
      if mask0 == 0 {
        // writing to a raw value means nothing
      } else if mask0 == 1 {
        registers[2 * arg0] := LowByte(val);
      } else if mask0 == 2 {
        var bp := GetShort(BP);
        heap[arg0 + bp] := LowByte(val);
      } else if mask0 == 3 {
        var p: short := registers[2 * arg0];
        var bp := GetShort(BP);
        heap[p + bp] := LowByte(val);
      }
    }

    // `vm_read`.
    method VmRead(mask0: schar, arg0: short) returns (val: short)
      requires Valid() && Read(View(), mask0, arg0).Some?
      ensures Some(val) == Read(View(), mask0, arg0)
      ensures mask0 == 0 ==> val == arg0
      ensures mask0 == 1 ==> 0 <= arg0 < 8 && val == registers[2 * arg0]
      ensures mask0 == 2 || mask0 == 3 ==>
                (mask0 == 3 ==> 0 <= arg0 < 8) &&
                var p: int := (if mask0 == 2 then arg0 else registers[2 * arg0]) + Pack(registers[12], registers[13]);
                0 <= p < heap.Length && val == heap[p]
    {
      val := 0;
      if mask0 == 0 {
        val := arg0;
      } else if mask0 == 1 {
        val := registers[2 * arg0];
      } else if mask0 == 2 {
        var bp := GetShort(BP);
        val := heap[arg0 + bp];
      } else if mask0 == 3 {
        var p: short := registers[2 * arg0];
        var bp := GetShort(BP);
        val := heap[p + bp];
      }
    }

    method OpHalt()
      requires Valid()
      modifies this`status
      ensures View() == old(View()).(status := Done)
    {
      status := Done;
    }

    method OpMov(i: Ins)
      requires Valid() && i.op == 1 && Exec(View(), i).Some?
      modifies registers, heap
      ensures Some(View()) == Exec(old(View()), i)
    {
      var val := VmRead(i.m1, i.a1);
      VmWrite(i.m0, i.a0, val);
    }

    method OpPush(i: Ins)
      requires Valid() && i.op == 2 && Exec(View(), i).Some?
      modifies registers, heap
      ensures Some(View()) == Exec(old(View()), i)
    {
      var val := VmRead(i.m0, i.a0);
      var sp: int := GetShort(SP);
      heap[sp] := LowByte(val);
      SetShort(SP, ToShort(sp + 2));
    }

    method OpPop(i: Ins)
      requires Valid() && i.op == 3 && Exec(View(), i).Some?
      modifies registers, heap
      ensures Some(View()) == Exec(old(View()), i)
    {
      var sp: int := GetShort(SP);
      var val := heap[sp];
      SetShort(SP, ToShort(sp - 1));
      VmWrite(i.m0, i.a0, val);
    }

    method OpCmp(i: Ins)
      requires Valid() && i.op == 4 && Exec(View(), i).Some?
      modifies registers
      ensures Some(View()) == Exec(old(View()), i)
    {
      var a0 := VmRead(i.m0, i.a0);
      var a1 := VmRead(i.m1, i.a1);
      SetFlag(1, a0 == a1);
      SetFlag(2, a0 >= a1);
      SetFlag(4, a0 <= a1);
      assert View().regs == old(View()).regs[FLAGS := CompareFlags(old(View()).regs[FLAGS], a0, a1)];
    }

    // One of the `|=` and `&= ~` statements of `op_cmp`.
    method SetFlag(w: byte, on: bool)
      requires Valid() && (w == 1 || w == 2 || w == 4)
      modifies registers
      ensures View() == old(View()).(regs := old(View()).regs[FLAGS := SetBit(old(View()).regs[FLAGS], w, on)])
    {
      SetBitByte(registers[FLAGS], w, on);
      registers[FLAGS] := SetBit(registers[FLAGS], w, on);
    }

    // `vm_get_instuction`: the fields are read out of the heap.
    method GetInstruction() returns (i: Ins)
      requires Valid() && Fetch(View()).Some?
      ensures Some(i) == Fetch(View())
      ensures var q := registers[8] + 0x100 * registers[9] as int;
              q + 10 <= heap.Length &&
              heap[q] == i.opMask % 0x100 && heap[q + 1] == i.op % 0x100 &&
              heap[q + 2] == i.m0 % 0x100 && heap[q + 4] + 0x100 * heap[q + 5] as int == i.a0 % 0x1_0000 &&
              heap[q + 6] == i.m1 % 0x100 && heap[q + 8] + 0x100 * heap[q + 9] as int == i.a1 % 0x1_0000
    {
      var ip := GetShort(IP);
      i := Decode(heap[ip..ip + INS_SIZE]);
      Layout(heap[ip..ip + INS_SIZE], i);
      assert View().heap[ip..ip + INS_SIZE] == heap[ip..ip + INS_SIZE];
    }

    // `vm_run_op`: the jump table has entries for opcodes 0 to 4.
    method ExecuteNext()
      requires Valid() && RunOp(View()).Some?
      modifies this`status, registers, heap
      ensures Some(View()) == RunOp(old(View()))
    {
      var i := GetInstruction();
      match i.op {
        case 0 => OpHalt();
        case 1 => OpMov(i);
        case 2 => OpPush(i);
        case 3 => OpPop(i);
        case _ => OpCmp(i);
      }
    }

    // The body of the loop in `vm_run`.
    method Turn()
      requires Valid() && Step(View()).Some?
      modifies this`status, registers, heap
      ensures Some(View()) == Step(old(View()))
    {
      ExecuteNext();
      var ip: int := GetShort(IP);
      SetShort(IP, ToShort(ip + INS_SIZE));
    }

    // `vm_run`, for a run that stops: `n` turns of the loop end it.
    method Run(ghost n: nat)
      requires Valid()
      requires Steps(Start(View()), n).Some?
      requires status == Ready ==> Steps(Start(View()), n).value.status != Running
      modifies this`status, registers, heap
      ensures old(status) == Ready ==> Some(View()) == Steps(Start(old(View())), n)
      ensures old(status) != Ready ==> View() == old(View())
    {
      hide Step;
      if status == Ready {
        status := Running;
        ghost var left, end := n, Steps(View(), n);
        while status == Running
          invariant Valid() && heap == old(heap)
          invariant Steps(View(), left) == end
          decreases left
        {
          StepsUnfold(View(), left);
          Turn();
          left := left - 1;
        }
      }
    }
  }
}
