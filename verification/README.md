# d3: a verified model of the kernel's core

d3 is a small hobby kernel. This project models the parts of it that keep invariants and proves
what they promise: the byte-code machine and its assembler, the memory allocator, the text
terminal, the round-robin task queue, the string routines and the keyboard line buffer.
`dafny verify dfyconfig.toml` checks everything.

| module | models |
|---|---|
| `Words`, `Arithmetic`, `Options` | C integer widths, division by a variable, optional values |
| `Memory` | `mem_cpy` and `mem_set` |
| `Str` | `itoa`, `atoi`, `strcmp`, `strchr` |
| `Vm` | the byte-code machine: registers overlaid by bytes, one heap for code and data |
| `VmInvariants` | what every run of well-formed instructions keeps |
| `AbstractVm`, `Halting` | a machine over an instruction list, the refinement, where runs stop |
| `Scanner`, `Dasm`, `Canonical` | the scanning loop, the assembler, the canonical text of a program |
| `Pipeline` | the steps of `init_vmm`: assemble, copy to the heap, run |
| `Effects` | what a line of text does to the machine's registers and heap, in bytes |
| `Sample` | the text in the hosted assembler, and the instructions it becomes |
| `AsBuilt` | what the assembler does in the kernel as it is built |
| `InitVmm` | the program in `init_vmm`, as an example |
| `Allocator` | `malloc`, `free` and their lists |
| `Terminal` | the screen as a window on an unbounded document |
| `Ring` | the task queue |
| `Keyboard` | the interrupt handler and the reader of the line buffer |

Code that changes state in place is a class or a method over arrays; its contract ties the new
state to a specification function, to a document, or to a ghost sequence, and the lemmas are
about those. `Option.None` stands for what C leaves undefined: an access outside the heap, an
opcode without an entry in the jump table, an operand beyond the register struct.

## What the results say

- **Refinement.** With a program at heap offset 0, the byte machine follows the machine over the
  instruction list for any number of steps, and faults where that one faults. The abstract
  machine also has the one jump this instruction set offers (storing into ip). It describes a run
  of any length exactly when every turn of the byte machine begins at an instruction, is defined,
  does not store into the program and does not set ip between two instructions
  (`Halting.RunExactly`, both ways).
- **Round trip.** With the standard `strcmp` in the lookups, the text of any program of 1 to 255
  instructions assembles to exactly its instructions. The scanners skip a character after every
  cut, so joined pieces come back exactly when none but the first is empty and no line starts with
  '#' (`Scanner.ScanJoin`, both ways).
- **From characters to bytes.** Wherever ip stands at the bytes of a line, one turn of the machine
  does what the line says: "push r0" stores r0's byte at sp and leaves sp + 2, "pop r0" loads the
  byte at sp and leaves sp - 1, and so for `mov`, `cmp` and `hlt` with every kind of operand, faults
  and jumps included (`Effects`). These are stated on strings and byte offsets, and so are the
  layout of the emitted page (`Dasm.Assemble`) and of the fetch (`Vm.Machine.GetInstruction`).
- **As built.** The kernel's lookups call its own `strcmp`, which answers 1 for equal strings, and
  compare the answer with 0. In every text every line then gets opcode 1 if its mnemonic is "hlt"
  and 0 otherwise; it is the right opcode exactly where the mnemonic is not in the table at all,
  and a text whose first mnemonic is not "hlt" stops after one turn (`AsBuilt`).
- **Tiling.** After any sequence of `malloc` and `free` the managed region is the head region
  and the blocks with their headers, without gap or overlap.
- **Near fit.** `malloc` reuses the first entry behind the head and before the last that has at least
  the requested and at most 5/4 of the requested bytes, carves the first largest entry if there is
  none, and fails exactly when that one cannot hold request and header (`Allocator.Heap.Malloc`).
- **Window.** After any characters the screen shows document rows from the number of scrolls on. In
  any text with line breaks, character i of a line stands i div (w-1) rows below the end of the
  lines before it, in column i mod (w-1), and is on the screen unless it has scrolled out
  (`Terminal.TextScreen`).
- **Keys.** Every key of the four rows gives the character printed on it; without shift and caps
  lock no delivered line holds a capital letter (`Keyboard.Rows`, `Keyboard.LowerCaseLines`).
- **Exact conditions.** Where a promise does not hold of the code, the condition under which it
  does is proved in both directions: killing a task keeps the ring exactly for tasks that are
  neither head nor tail; `atoi` stays within `int` exactly up to 2147483599 although it reads
  all of 0..2147483647 back; a key typed while a line is being read survives, in any state whose
  buffer has a cell for it, exactly when it is safe in the sense of `Keyboard.SafeKey`; the line
  `get_kbd` copies out reads back exactly when the cell it skips was zero.

An example: `InitVmm.Run` takes the text in `init_vmm` through the whole chain, from characters to
the final bytes of the register file, once with the standard comparison (r0..r2 are 1, 2, 3) and
once as the kernel is built (it stops at the first instruction with zero registers).

## Where the model departs from the code

Allocator repairs, each with a member that states when the code as written goes wrong:

1. The payload starts 16 bytes behind the header; `src/mem.c:152` scales the offset by the size
   of the structure (`Allocator.PayloadAsWritten`).
2. The space check counts the header; `src/mem.c:140` leaves it out, so that the subtraction may
   wrap (`Allocator.SpaceCheckAsWritten`).
3. `add_mm_list_entry` sets the back link of the old successor (`Allocator.AddEntryAsWritten`).
4. `remove_mm_list_entry` tolerates a missing successor (`Allocator.RemoveEntryAsWritten`).
5. The fit test does not pick the head of the free list, which has no predecessor to unlink
   (`Allocator.Heap.ScanAsWritten`, and `RemoveEntryAsWritten` for the head).

Other choices:

- Strings carry their length. The assembler writes each terminator one cell too far
  (`src/dasm.c:30`, `70`, `101`) and terminates the copy of a bracketed number not at all
  (`src/dasm.c:116-117`); both are taken as meant.
- One model stands for both copies of the assembler; the parameter `Libc` says whose `strcmp` the
  lookups call (`Standard` in `src/dasm/dasm.c`, `Kernel` in `src/dasm.c`). The table of five
  mnemonics and the emitted mask byte are those of `src/dasm.c`; the table of lines starts out
  cleared, as in the hosted copy.
- The heap size is a parameter; `init_vmm` copies 2550 bytes into a heap of 1024.
- `itoa` has digit cells 1 to 64 and a terminator behind them; the kernel declares 64 cells.
- The comment at `src/vm.c:77-78` counts eight bytes for an instruction. The structure has ten,
  with padding at 3 and 7, and ip moves by ten.
- Scan codes from 0x80 on index the key table out of range before the second test rejects them;
  the model gives them no character.

## Model

| member | source | states |
|---|---|---|
| Memory.MemCpy | src/mem.c:19-37 | for every size and every overlap, in either direction of copying, the destination ends as the source was and nothing else changes |
| Memory.MoveOfCells | src/term.c:48-50 | moving the bytes of whole two-byte cells moves the cells, so a scroll by bytes is a scroll by cells |
| Memory.BytesOfCell | src/term.c:48-50 | a cell lies in memory as its low byte and then the rest of it |
| Memory.MemSet | src/mem.c:211-217 | the first bytes are set, the rest is unchanged |
| Str.DigitsValue | src/str.c:13-15 | the digits produced in any base 2..16 evaluate back to the number |
| Str.DigitsNumeral | src/str.c:13-15 | they are digits of the base without a leading zero |
| Str.NumeralIsDigits | src/str.c:13-15 | they are the only such string with that value |
| Str.PrintedValue | src/str.c:5-19 | what is returned for any number evaluates back to it, in digits of the base, is "0" for zero and begins with no zero otherwise |
| Str.Fits32 | src/str.c:11-13 | no `int` has more than 31 digits in any base, so the cell counter never runs out |
| Str.Printer.Itoa | src/str.c:5-19 | the loop over the static buffer returns the printed number, right-aligned before the terminator, touching no other cell; it is undefined exactly for negative values, for which it indexes the digit string with a negative remainder |
| Str.Atoi | src/str.c:21-31 | the loop computes the accumulated value of any string, wrapped to 32 bits |
| Str.AccumulatedAppend | src/str.c:26-27 | in any text, digits or not, each character counts its code less 48, times ten for every character behind it |
| Str.AtoiOfItoa | src/str.c:5-31 | reading a printed decimal back gives the number, for all of 0..2^31-1 |
| Str.AtoiOverflow | src/str.c:26-27 | no intermediate result overflows exactly when the number is at most 2^31-1-48 |
| Str.Strcmp | src/str.c:33-49 | the answer is 1 exactly for equal strings, 0 otherwise |
| Str.Strchr | src/str.c:51-56 | finds the first occurrence, the terminator counting as a character; negative exactly if there is none |
| Vm.Machine.constructor | src/vm.c:42-54 | a fresh machine has sixteen zero bytes of registers and is ready |
| Vm.Machine.LoadHeap | src/vm.c:61-63 | replaces the heap and nothing else |
| Vm.Machine.CopyToHeap | src/vm.c:65-74 | the bytes land at the address, registers and status unchanged |
| Vm.Machine.VmRead | src/vm.c:139-158 | by mask 0 to 3 the number, byte 2*arg of the register struct, heap[arg + bp], or heap[that byte + bp]; 0 for other masks; it refines `Read` |
| Vm.Machine.VmWrite | src/vm.c:122-137 | by mask 1 to 3 one low byte goes to byte 2*arg of the struct, heap[arg + bp] or heap[that byte + bp], and nothing else changes; it refines `Write` |
| Vm.Machine.OpMov | src/vm_ops.c:32-37 | refines the step relation for opcode 1 |
| Vm.Machine.OpPush | src/vm_ops.c:39-48 | refines the step relation for opcode 2: store at sp, then sp + 2 |
| Vm.Machine.OpPop | src/vm_ops.c:50-59 | refines the step relation for opcode 3: load at sp, sp - 1, then store |
| Vm.Machine.OpCmp | src/vm_ops.c:61-82 | refines the step relation for opcode 4: the three flag bits |
| Vm.MovDoes | src/vm_ops.c:32-37 | in bytes: a number or a register byte goes to byte 2*a0 of the struct, and nothing else changes |
| Vm.PushDoes | src/vm_ops.c:39-48 | in bytes: the low byte of the value read lands at the sp of bytes 10 and 11, which then hold sp + 2, wrapping at 2^15, and nothing else changes |
| Vm.PopDoes | src/vm_ops.c:50-59 | in bytes: the byte at sp becomes the low byte of the register, sp is one less, -1 after 0, and nothing else changes |
| Vm.CmpDoes | src/vm_ops.c:61-82 | in bytes: the three low bits of byte 14 are 7, 2 or 4 for equal, greater, less, the other bits are kept, and nothing else changes |
| Vm.Machine.GetInstruction | src/vm.c:76-81 | at ip, from bytes 8 and 9, the bytes at 0, 1, 2 and 6 and the low-first pairs at 4 and 8 are mask byte, op, m0, m1, a0 and a1 |
| Vm.Layout | src/vm.h:64-73 | ten bytes are an instruction exactly when each field lies at its offset: op 1, m0 2, a0 4 and 5, m1 6, a1 8 and 9 |
| Vm.Machine.ExecuteNext | src/vm_ops.c:21-24 | one dispatch through the jump table is one `RunOp` |
| Vm.StepDoes | src/vm.c:87-93 | besides the operation, a turn adds ten to the sixteen bits of bytes 8 and 9 |
| Vm.Machine.Run | src/vm.c:83-98 | a run that stops ends in the state the step relation leads to; a machine that is not ready is left alone |
| VmInvariants.ExecFlags | src/vm_ops.c:61-82 | only a comparison changes the flags, to the outcome of the signed comparison of the values read, and it changes nothing else |
| VmInvariants.ReachableNarrow | src/vm.c:122-158 | over any run of well-formed fetched instructions r0..r3 and bp stay within a byte and the flags are 0, 2, 4 or 7 |
| VmInvariants.NarrowMeans | src/vm.h:23-26 | the invariant on high bytes says exactly that the fields are 0..255 |
| VmInvariants.PointerRange | src/vm.c:128-136 | register pointers resolve to 0..510, raw pointers to arg..arg+255, and reads and writes go there |
| VmInvariants.ReachesIsSteps | src/vm.c:83-98 | a run that fetches well-formed instructions only is a run of the loop |
| VmInvariants.InitialNarrow | src/vm.c:42-54 | the state `vm_init` leaves has narrow registers, whatever the heap holds |
| VmInvariants.Reachable | src/vm.c:42-158 | from `vm_init` on, in every state reached by well-formed fetches, both hold, and EQ holds exactly when GTE and LTE do |
| VmInvariants.StackPointerGrows | src/vm_ops.c:44-45 | sp does leave the byte range |
| AbstractVm.ReadAgrees | src/vm.c:139-158 | operand reads agree between the two machines, faults included |
| AbstractVm.WriteAgrees | src/vm.c:122-137 | operand writes keep the machines related, or fault in both |
| AbstractVm.PerformAgrees | src/vm_ops.c:26-82 | every operation keeps them related, or faults in both |
| AbstractVm.FetchAgrees | src/vm.c:76-81 | the fetch at ip = 10k decodes to instruction k |
| AbstractVm.StepAgrees | src/vm.c:87-93 | one turn of the loop refines one abstract step |
| AbstractVm.RunAgrees | src/vm.c:83-98 | the byte machine refines the abstract machine over any number of steps, up to where the abstract run escapes |
| Halting.EscapeExactly | src/vm.c:122-137 | the abstract machine gives an instruction up exactly when it stores into the program or sets ip between two instructions |
| Halting.StepExactly | src/vm.c:87-93 | one turn is described by the abstract machine exactly when it keeps to the program |
| Halting.RunExactly | src/vm.c:83-98 | a run of any length is described exactly when every turn begins at an instruction, is defined, does not store into the program and does not set ip between instructions |
| Halting.StaysTogether | src/vm.c:83-98 | the machines stay related for as long as that holds |
| Halting.Straight | src/vm.c:83-98 | without stores into the program or ip, each turn moves both machines on by one instruction |
| Halting.StopsBehindFirstHlt | src/vm_ops.c:26-30 | such a run is at ip = 10j before turn j+1 and stops after exactly k+1 turns with ip = 10(k+1), k being the first hlt |
| Scanner.ScanJoin | src/dasm.c:26-41 | scanning joined pieces returns them exactly when none but the first is empty and no line starts with '#' |
| Scanner.Swallowed | src/dasm.c:27 | a line that starts with '#' swallows the rest of the text |
| Scanner.ScanComment | src/dasm.c:26-41 | of joined pieces that go on with a comment exactly those before the comment come back |
| Dasm.Lookup | src/dasm.c:74-80 | the first table entry whose comparison gives 0, for either `strcmp`, or none |
| Dasm.GetReg | src/dasm.c:132-142 | the search loop returns the index the lookup gives, for either `strcmp` |
| Dasm.ParseOp | src/dasm.c:72-80 | the search loop sets the opcode the lookup gives, for either `strcmp` |
| Dasm.StandardLookup | src/dasm/dasm.c:152-162 | the standard lookup finds exactly the names of the table |
| Dasm.KernelLookup | src/dasm.c:132-142 | the kernel's lookup stops at the first name that differs and never gives the standard answer |
| Dasm.Opcodes | src/dasm.c:12 | with the standard lookup hlt, mov, push, pop and cmp are opcodes 0 to 4, and every other text none |
| Dasm.RegisterNumbers | src/dasm/dasm.c:35 | with the standard lookup r0 to r3, ip, sp and bp are registers 0 to 6, and every other text is -1 |
| Dasm.OperandKinds | src/dasm/dasm.c:114-141 | with the standard lookup, for any token: mask and value by what it begins with, a digit, a letter of "risbp", or '[' and one of those; (0, 0) otherwise |
| Dasm.LineMeans | src/dasm.c:61-130 | for either `strcmp`, the first token of a line decides the opcode, the second the first operand, the third the second |
| Dasm.Comments | src/dasm.c:26-41 | a text is cut at its line breaks up to the first line that begins with '#' |
| Dasm.ParseArg | src/dasm.c:94-130 | classifies a token and stores mask and value in the fields of its position, leaving the rest of the table, for either `strcmp` |
| Dasm.Parse | src/dasm.c:61-92 | the token loop applies the tokens of the line in order, leaving the other lines, for either `strcmp`; it is defined exactly for at most three tokens |
| Dasm.Assemble | src/dasm.c:16-59 | for either `strcmp`, at 10k of the page lie 15, op, m0, a pad byte, the two bytes of a0, m1, a pad byte and the two bytes of a1 of line k; so it is an image of the program; defined exactly for at most 255 lines of at most three tokens |
| Dasm.Emit | src/dasm.c:43-54 | the emission loop stores those bytes of every line, whatever the padding |
| Canonical.ClassifyAgain | src/dasm/dasm.c:114-141 | with the standard lookup the operand classifier recovers mask and value of each kind of printed operand |
| Canonical.TokensAgain | src/dasm/dasm.c:82-112 | the token scanner recovers the tokens of a printed line |
| Canonical.LineAgain | src/dasm/dasm.c:82-150 | with the standard lookup, parsing a printed line recovers its instruction |
| Canonical.LinesAgain | src/dasm/dasm.c:47-62 | the line scanner recovers the lines of a printed program |
| Canonical.AssemblesBack | src/dasm/dasm.c:47-162 | with the standard lookup, assembling the text of any program of 1..255 instructions gives exactly its op, mask and argument fields, in order (the mnemonics themselves: `Dasm.Opcodes`) |
| Canonical.SmallNumber | src/dasm/dasm.c:127 | numbers 0..32767 are kept as they are |
| Pipeline.Load | src/vm.c:32-36 | after assembling with either `strcmp` and copying, the heap is an image of the program followed by data, and bytes behind the copied page are unchanged |
| Pipeline.AssembleAndRun | src/vm.c:32-39 | for either `strcmp`, the machine ends with the registers, flags and data memory that interpreting the assembled instructions gives |
| Pipeline.EndToEnd | src/dasm/dasm.c:47-162 | for canonical text assembled with the standard lookup, the bytes run as the source instructions mean, for any number of steps and as long as the run keeps to the program |
| Pipeline.EndToEndStops | src/dasm/dasm.c:47-162 | with the standard lookup, they stop after exactly k+1 instructions with ip = 10(k+1), k being the first hlt |
| Effects.PushLine | src/vm_ops.c:39-48 | where ip stands at a line "push" and any operand, a turn is defined exactly if the operand can be read and sp is in the heap, and stores the low byte of what it says there and leaves sp + 2 |
| Effects.PopLine | src/vm_ops.c:50-59 | at "pop" and a register: exactly if sp is in the heap, its byte becomes the low byte of the register, with sp - 1; for ip that is a jump |
| Effects.PopStoreLine | src/vm_ops.c:50-59 | at "pop" and a pointer: exactly if sp and the cell are in the heap, the cell, found with sp already lowered, takes the byte |
| Effects.MovLine | src/vm_ops.c:32-37 | at "mov", a register and any operand: exactly if the operand's cell is in the heap, the low byte of what it says becomes that of the register; for ip that is a jump |
| Effects.StoreLine | src/vm_ops.c:32-37 | at "mov", a pointer and any operand: exactly if the cell is in the heap and the operand can be read, it takes the low byte |
| Effects.CmpLine | src/vm_ops.c:61-82 | at "cmp" and any two operands: exactly if both can be read, the flags become 7, 2 or 4 |
| Effects.HltLine | src/vm_ops.c:26-30 | at "hlt" the run ends and only ip moves |
| Effects.PushRun | src/vm.c:83-98 | the text "push r0\nhlt" runs to VM_DONE in two turns, with r0's byte at sp and sp + 2 |
| Effects.PopRun | src/vm.c:83-98 | the text "pop r0\nhlt" runs to VM_DONE in two turns, with heap[sp] in r0 and sp - 1 |
| Effects.AssembleAndPush | src/vm.c:32-39 | the first text assembled, copied and run leaves r0's byte in heap[sp], sp + 2 and ip 20 |
| Effects.AssembleAndPop | src/vm.c:32-39 | the second leaves heap[sp] in r0, sp - 1 and ip 20; with sp 0 that byte is the mask byte 15 |
| Sample.SampleText | src/dasm/dasm.c:37 | the text in the hosted assembler is the canonical text of its six lines |
| Sample.SampleAssembles | src/dasm/dasm.c:37 | with the standard lookup it assembles to six given instructions, all four operand masks among them |
| InitVmm.TestIsCanonical | src/vm.c:26-30 | the text in `init_vmm` is the canonical text of its five instructions |
| InitVmm.TestResult | src/vm.c:26-39 | interpreting them ends after five steps with 1, 2, 3 in r0..r2 and the flags of 0 < 4 |
| InitVmm.TestStops | src/vm.c:26-39 | so the program stops in any heap, whatever the uninitialised bytes hold |
| InitVmm.Run | src/vm.c:10-40 | example: in a heap that holds the copied page, `init_vmm` ends VM_DONE; with the standard comparison in the lookups r0..r2 are 1, 2, 3, ip is 50 and the flags are 4; with the kernel's own, as it is built, all registers are zero and ip is 10 |
| AsBuilt.KernelOpcodes | src/dasm.c:74-80 | as built, in every text every line gets opcode 1 if its mnemonic is "hlt" and 0 otherwise, which is the standard answer exactly if the mnemonic is not in the table |
| AsBuilt.NothingAssembles | src/dasm.c:16-59 | as built, no line of any canonical program gets its opcode |
| AsBuilt.StopsAtOnce | src/vm.c:83-98 | as built, a text whose first mnemonic is not "hlt" runs to VM_DONE in exactly one turn that changes nothing but ip and the status |
| Allocator.TotalSize | src/mem.c:144-152 | head size plus the sum of size + 16 over all blocks is the size of the region |
| Allocator.Conserved | src/mem.c:117-162 | so in every valid heap |
| Allocator.Covered | src/mem.c:117-162 | every address of the region lies in exactly one of its parts |
| Allocator.InRegion | src/mem.c:117-162 | every part of a valid heap lies in the managed region |
| Allocator.OwnerOf | src/mem.c:117-162 | every address of the region lies in exactly one part of a valid heap |
| Allocator.BlocksApart | src/mem.c:117-162 | no two blocks overlap, headers included |
| Allocator.CarvedTiled | src/mem.c:144-152 | carving from the tail of any entry keeps the region tiled |
| Allocator.FirstFit | src/mem.c:120-128 | the first scanned entry that fits, head and last entry not being looked at |
| Allocator.Largest | src/mem.c:130-133 | the first largest of the scanned entries |
| Allocator.AddEntry | src/mem.c:164-168 | inserts behind the head and keeps the list doubly linked |
| Allocator.AddEntryAsWritten | src/mem.c:164-168 | without its repair the list stays well formed exactly when it held only its head |
| Allocator.RemoveEntry | src/mem.c:170-179 | unlinks an entry and keeps the list doubly linked |
| Allocator.RemoveEntryAsWritten | src/mem.c:170-179 | without its repair the step is defined exactly for entries that are neither head nor last, and then unlinks them |
| Allocator.PayloadAsWritten | src/mem.c:148-152 | the payload as written leaves the carved bytes unless it is empty |
| Allocator.SpaceCheckAsWritten | src/mem.c:140-152 | when the test as written passes, carving in 32 bits leaves the region tiled exactly if the header fits too |
| Allocator.Heap.constructor | src/mem.c:66-76 | one free region, two lists of one entry each |
| Allocator.Heap.Scan | src/mem.c:118-136 | the loop returns the first fit, or the largest entry when there is none |
| Allocator.Heap.Choices | src/mem.c:120-133 | which entries those are, in numbers: behind the head and before the last, the first of at least n and at most 5/4 of n bytes; the first of the largest size among those and the head |
| Allocator.Heap.ScanAsWritten | src/mem.c:118-136 | without its repair the loop picks the head exactly when there is another entry and the head fits; otherwise it agrees |
| Allocator.Heap.Carve | src/mem.c:144-156 | the new block lies at the tail of the entry, which shrinks by the request and a header; lists and tiling are kept |
| Allocator.Heap.Malloc | src/mem.c:117-157 | in numbers: it reuses the first entry behind the head and before the last with n <= size and 4*size <= 5*n, the region unchanged; without one it is null, all scanned sizes being below n + 16, or a new block of n bytes behind a 16-byte header at the end of the first largest entry; the block is second in the used list; no other size and no address changes; all invariants are kept |
| Allocator.Heap.Free | src/mem.c:159-162 | the block leaves the used list and is second in the free list, the other entries in order; all invariants are kept |
| Terminal.Term.constructor | src/term.c:26-35 | the screen shows an empty document, colour fg + 16*bg, blank cells a space in that colour |
| Terminal.Term.EmptyScreen | src/term.c:26-46 | so every cell of it is 256*colour + 32 |
| Terminal.Term.Clear | src/term.c:37-46 | every cell of the screen and no other is set |
| Terminal.Term.PutEntryAt | src/term.c:13-67 | exactly one cell changes, number y*width + x of the buffer, to 256*colour + c, or 0x10000 + c for a negative character |
| Terminal.Term.Scroll | src/term.c:48-50 | every row takes the content of the next, the last that of the off-screen row, which stays |
| Terminal.Term.PutChar | src/term.c:69-99 | in numbers: a newline leaves column 0 one row down; a backspace leaves a space one column back; any other character stands at the cursor, or at the start of the next row behind the last column; every other cell is as before, up to one row of scrolling; and the screen stays a window on the document |
| Terminal.Term.WriteString | src/term.c:101-106 | so for any string |
| Terminal.PlainFrom | src/term.c:69-106 | plain text typed at the start of a fresh row: the place of every character and of the cursor, and nothing overwritten |
| Terminal.TextHolds | src/term.c:69-106 | in a text with line breaks every line stands where the rows of the lines before it end |
| Terminal.TextScreen | src/term.c:69-106 | on the screen: the number of scrolls, the cursor's row, and the cell of every character not scrolled out, in numbers |
| Terminal.TypeAllSound | src/term.c:80-96 | over any text the cursor stays in its row and nothing is ever written in the last column |
| Terminal.PlainText | src/term.c:69-106 | character i of a plain text stands at row i div (w-1), column i mod (w-1); the cursor's place in closed form |
| Terminal.PlainScreen | src/term.c:69-106 | xpos, ypos and the number of scrolls in closed form |
| Ring.Queue.Schedule | src/task.c:100-120 | appends the task to the ring and counts it |
| Ring.Queue.KillEffect | src/task.c:154-167 | unlinking task k leaves a valid queue exactly when it is neither first nor last |
| Ring.Queue.Kill | src/task.c:154-167 | the others keep their order, and the queue stays valid exactly when the task is neither head nor tail; the counter is unchanged |
| Ring.Queue.Neighbours | src/task.c:100-120 | following next goes round the ring in scheduling order; prev is exact for all but the head |
| Ring.Queue.Yield | src/task.c:169-178 | the task switched to is the next in the ring, the first behind the last; the yielding task is YIELDING |
| Ring.Queue.Turn | src/task.c:169-181 | the task switched to becomes READY if it had yielded, and no third task changes |
| Ring.Queue.RunTurns | src/task.c:169-181 | k yields from task i reach task (i+k) mod n, through the tasks between in order |
| Ring.AfterStep | src/task.c:178 | k+1 yields are k yields and one more |
| Ring.Fair | src/task.c:169-181 | n consecutive turns run each of the n tasks exactly once |
| Keyboard.Tables | src/keybd.c:9-85 | both tables have characters for the same keys, Enter only for its key, none for shift and caps lock |
| Keyboard.Rows | src/keybd.c:9-85 | the characters of the four rows, in order, with and without shift |
| Keyboard.Letters | src/keybd.c:9-85 | which keys are letters, small without shift and capital with it, and the codes of the digits |
| Keyboard.Others | src/keybd.c:106-129 | exactly which keys have a character, and what shift down, shift up and caps lock do |
| Keyboard.Keybd.Handler | src/keybd.c:100-129 | in numbers: a letter key puts 97..122 at the index, 32 less with shift, a digit key without shift its digit, Enter 10 and the space bar 32; the index moves for exactly the keys that have a character, nothing else in the buffer changes, key 28 announces a line, 42 and 54 press shift, 170 and 182 release it, 58 turns it over; and the handler is one step of the protocol |
| Keyboard.Keybd.GetKbd | src/keybd.c:145-151 | an undisturbed call copies the line out, writes the zero one cell late, and leaves 255 zero cells, index 0 and no line announced |
| Keyboard.SafeRunsKeepInv | src/keybd.c:100-151 | over every safe interleaving of keys and reader statements nothing typed is lost, repeated or reordered |
| Keyboard.LinesDelivered | src/keybd.c:100-151 | the lines copied out are the shift-translated key stream split at Enter |
| Keyboard.NoCapitals | src/keybd.c:106-129 | a run without shift and caps-lock keys types no capital letter |
| Keyboard.OnlyCapitals | src/keybd.c:106-129 | a run with shift held down from the start types no small one |
| Keyboard.LowerCaseLines | src/keybd.c:100-151 | so after a safe run without those keys no delivered line holds a capital letter |
| Keyboard.KeyExact | src/keybd.c:115-121 | wherever the buffer has a cell for it, a key is kept exactly when it does not fall between Enter and the reset of the index, nor is Enter before the flag is cleared |
| Keyboard.StaleCell | src/keybd.c:148-149 | a copied line is read back with the skipped cell behind it unless that is zero |
| Keyboard.TypedNonzero | src/keybd.c:106-121 | no zero is ever put into the buffer as a character |
| Keyboard.AnnouncedText | src/keybd.c:145-151 | after a safe run the announced line is the last line typed, and reads back exactly when the skipped cell was zero |
| Keyboard.ReadLine | src/keybd.c:145-151 | so for `get_kbd` itself, undisturbed after a safe run |

## Left out

- Vm.Machine.Run: runs that never stop have no contract; the refinement covers them step by step.
- Vm.Machine.ExecuteNext: the dumps and the terminal output between instructions are left out.
- Pipeline.AssembleAndRun: asks for a program that stops whatever the uninitialised bytes behind it hold.
- Dasm.Assemble: for texts that overrun the tables it says only that C leaves the effect undefined.
- Pipeline.Load: takes texts that fit the tables.
- Allocator.Heap.Malloc: request sizes are unbounded integers, so adding the header does not wrap at 2^32.
- Keyboard.Keybd.GetKbd: needs a destination longer than the line; the kernel's, of 256 cells, has room for 254 characters and Enter.
- Terminal.Term.PutChar: the hardware cursor; cells are moved whole (`Memory.MoveOfCells` is the step from bytes).
- Terminal.Term.Clear: clearing is modelled at initialisation, its only use.
- Keyboard.Keybd.CopyOut: the copy is one step of the protocol, as are the other statements of the reader.
- Keyboard.KeyExact: the echo to the terminal is left out.
- Ring.Queue.Deinit: the hooks of a task and the return of its context are left out.
- Ring.Queue.Yield: the context switch is "the next task runs".
- `run_que`, the VM pool, `vm_parse_ins`, `malloc_raw`: no invariant beyond the members above.
- `stack_push`, `stack_pop` and the walk over the multiboot memory map: the allocator starts from one free region.
- Pushing and popping undoing each other: they do not (sp moves by +2 and by -1).
- Ports, DMA and the floppy driver, descriptor tables, interrupt stubs, the clock, colours beyond the cell, debug dumps.
- The Perl assembler `src/dasm/dasm` and the syntax of `src/dasm/test.asm` (commas and comments), which this assembler does not accept.
