# PDP-11 emulator core: core memory and processor state

This project models the two state components of a PDP-11 emulator, and proves properties about them.

- **Core memory** (`CoreMemory`, `core.dfy`) is a fixed-size byte array that starts zeroed. Its multi-byte and single-byte reads and writes are bounds-checked.
- **Register file and status word** (`ProcessorState`, `processor.dfy`) hold eight 16-bit registers (R6 is the stack pointer, R7 the program counter) and a 16-bit status word. Bits 0-4 of the status word are the Carry, Overflow, Zero, Negative and Trap flags. Bits 5-7 hold the priority level.

Both components are immutable values with pure update functions:

- A core is `Core(size, mem)` with `|mem| == size`.
- A processor is `Processor(regs, ps)` with `|regs| == 8`.
- The constructors, copy constructors and assignment operators are methods with loops, following the source's register loops and its byte fill and copy.
- Because a core or processor is a value, a copy can never share storage with the original. A later write to the original cannot reach the copy.

A PWORD offset, length or size is a 16-bit unsigned integer. `UWord` models it as an integer below 0x10000. The source computes `loc + len` after promotion to `int`, so the model uses unbounded arithmetic and the sum never wraps around.

All multi-byte accesses share one guard, `Rejects`. An access is rejected when the offset is at or past the end, when the length is zero, or when offset + length reaches the size. So the last byte of a core can never be read or written.

The model reproduces the code as written, with one exception: the single-byte read's failure branch is not well-formed C++, so the model chooses its result (see Left out). Where the code and its own doc comments disagree, the model follows the code:

- The multi-byte write checks `loc`, but it copies the data to the start of the buffer.
- The single-byte read and write compare `loc + size` with the core's own size. That test is always true, so both forms always fail.

Both are listed under Findings. Corrected versions (`WriteAt`, `ReadByteAt`, `WriteByteAt`) sit alongside the as-written ones, with their intended properties proved.

Lemmas about core memory are in `CoreLemmas` (`core_lemmas.dfy`). Lemmas about the processor are in `ProcessorLemmas` (`processor_lemmas.dfy`). Shared types are in `Defs` (`defs.dfy`).

## Model

| member | source | states |
|---|---|---|
| CoreMemory.NewCore | src/Core.cpp:7-11 | A new core has exactly `size` bytes, and every byte is 0 |
| CoreMemory.CopyCore | src/Core.cpp:24-28 | The copy has the source's size and every byte of the source |
| CoreMemory.AssignCore | src/Core.cpp:34-38 | The result has the source's size. When the target is a different core, the result equals the source and the target's old contents play no part. When the target is the source itself, the source's buffer has already been replaced by the new one before the copy, so the result holds only the new buffer's uninitialised contents and the original bytes are lost |
| CoreMemory.Read | src/Core.cpp:46-50 | The read succeeds iff `0 < len` and `loc + len < size`. On success it returns exactly `len` bytes, byte k being memory byte `loc + k`. As a function of the core, it changes nothing |
| CoreMemory.Write | src/Core.cpp:65-70 | The write succeeds iff `0 < len` and `loc + len < size`. On failure the core is unchanged. On success bytes `[0, len)` hold the data and every byte from `len` on is unchanged, whatever `loc` is |
| CoreMemory.ReadByte | src/Core.cpp:52-56 | The single-byte read always fails, for every core and offset |
| CoreMemory.WriteByte | src/Core.cpp:78-83 | The single-byte write always reports failure and leaves the core unchanged |
| CoreMemory.WriteAt | src/Core.cpp:65-70 | Intended write, with the same acceptance rule. On success bytes `[loc, loc+len)` hold the data and every other byte is unchanged. On failure nothing changes |
| CoreMemory.ReadByteAt | src/Core.cpp:52-56 | Intended single-byte read: it succeeds iff `loc + 1 < size` and returns byte `loc` |
| CoreMemory.WriteByteAt | src/Core.cpp:78-83 | Intended single-byte write: it succeeds iff `loc + 1 < size`, sets byte `loc` and leaves every other byte unchanged |
| CoreLemmas.LastByteNeverAccessible | src/Core.cpp:46-70 | No accepted read or write reaches byte `size-1`. A one-byte read at `size-1` fails. A write of `size-1` bytes at offset 0 succeeds |
| CoreLemmas.WriteLandsAtZero | src/Core.cpp:65-69 | After an accepted write at any offset, reading the same length at offset 0 returns the data |
| CoreLemmas.WriteLeavesTargetUntouched | src/Core.cpp:65-69 | If an accepted write's offset is at least its length, reading back at that offset returns the old bytes |
| CoreLemmas.WriteAtFiveChangesByteZero | src/Core.cpp:68 | Counterexample: writing 0xAA at offset 5 of a cleared 16-byte core succeeds. Byte 5 then reads 0 and byte 0 reads 0xAA |
| CoreLemmas.WriteAtRoundTrip | src/Core.cpp:65-69 | With the intended write, reading back at the written offset returns the data |
| CoreLemmas.WriteAgreesWithWriteAtAtZero | src/Core.cpp:65-69 | At offset 0 the write as written and the intended write give the same result |
| CoreLemmas.ReadByteAtIsOneByteRead | src/Core.cpp:46-56 | The intended single-byte read succeeds iff the one-byte multi-byte read does, and returns that byte |
| CoreLemmas.WriteByteAtIsOneByteWriteAt | src/Core.cpp:65-83 | The intended single-byte write equals the intended one-byte multi-byte write |
| CoreLemmas.ReadByteFailsWhereReadSucceeds | src/Core.cpp:52-55 | Counterexample: in core `[7, 0]`, the one-byte read at 0 returns `[7]` but the single-byte read as written fails |
| CoreLemmas.WriteByteFailsWhereWriteAtSucceeds | src/Core.cpp:78-82 | Counterexample: in a cleared 2-byte core, the single-byte write as written fails, while the intended one stores the byte |
| CoreLemmas.CoreTestScenario | test/CoreTest.cpp:7-25 | A 44-byte string written at 0 in a cleared 4096-byte core reads back with a 0 terminator after it. A copy still reads it after the original is written at offset 5, and so does the original |
| ProcessorState.NewProcessor | src/Processor.cpp:6-10 | A new processor has all eight registers 0 and status word 0 |
| ProcessorState.CopyProcessor | src/Processor.cpp:16-20 | The copy equals the source in every register and in the status word |
| ProcessorState.AssignProcessor | src/Processor.cpp:22-26 | After assignment, every register and the status word equal the source's; the target's old values are gone |
| ProcessorState.Reg | src/Processor.cpp:33-35 | The value read from register `r` is the one value that, stored back into `r`, leaves the processor unchanged |
| ProcessorState.SetReg | src/Processor.cpp:42-44 | After setting register `r` to `v`, register `r` reads `v`. Every other register and the status word are unchanged |
| ProcessorState.Pstat | src/Processor.cpp:50-52 | The raw status word holds each of the five flags at its bit (0-4) and the priority in bits 5-7, agreeing with every named accessor |
| ProcessorState.Carry | src/Processor.cpp:57-59 | Carry is bit 0 of the status word |
| ProcessorState.Overflow | src/Processor.cpp:64-66 | Overflow is bit 1 of the status word |
| ProcessorState.Zero | src/Processor.cpp:71-73 | Zero is bit 2 of the status word |
| ProcessorState.Negative | src/Processor.cpp:78-80 | Negative is bit 3 of the status word |
| ProcessorState.Trap | src/Processor.cpp:85-87 | Trap is bit 4 of the status word |
| ProcessorState.Priority | src/Processor.cpp:93-95 | The priority is at most 7. Shifted back into position, it equals the status word's bits 5-7 |
| ProcessorState.SetPriority | src/Processor.cpp:97-102 | A level above 7 changes nothing. A level of 7 or less becomes the new priority, and every status bit outside 5-7 and every register is unchanged |
| ProcessorLemmas.FlagsReadDistinctBits | src/Processor.cpp:57-87 | Flipping status bit k (0-4) flips the k-th flag and leaves the other four unchanged |
| ProcessorLemmas.FlagsIgnoreUpperBits | src/Processor.cpp:57-87 | Two status words that agree on bits 0-4 give the same five flags |
| ProcessorLemmas.SetPriorityKeepsFlags | src/Processor.cpp:97-102 | Setting any priority leaves status bits 0-4, and so all five flags, unchanged |
| ProcessorLemmas.LastPriorityWins | src/Processor.cpp:97-102 | After two priority settings, an in-range second level alone decides the result |
| ProcessorLemmas.SetPriorityIdempotent | src/Processor.cpp:97-102 | Setting the same level twice gives the same processor as setting it once |
| ProcessorLemmas.SetPriorityOfPriority | src/Processor.cpp:93-102 | Setting the current priority leaves the processor unchanged |
| ProcessorLemmas.PriorityZeroRestores | src/Processor.cpp:97-102 | Setting 0 after any level restores the flag bits. If the priority was 0 before, it restores the whole processor |
| ProcessorLemmas.ProcessorTestScenario | test/ProcessorTest.cpp:9-40 | On a new processor, R0 and R1 read back their values and R2-R7 stay 0. A copy keeps the values after the original is cleared. Each level 1-7 reads back with flag bits 0-4 clear, and resetting to 0 restores the processor |

## Findings

| source | as written | input that shows it | evidently intended | confidence | as-written member | corrected member |
|---|---|---|---|---|---|---|
| src/Core.cpp:68 | The data is copied to the start of the buffer, whatever offset was checked | Cleared 16-byte core, write one byte 0xAA at offset 5: byte 0 becomes 0xAA and byte 5 stays 0 | Copy the data to offset `loc` | high; not executed | CoreLemmas.WriteAtFiveChangesByteZero | CoreMemory.WriteAt |
| src/Core.cpp:53 | The single-byte read compares `loc` plus the core's own size with that size, which is always true, so every read fails | Core `[7, 0]`, single-byte read at offset 0 fails, while the one-byte multi-byte read returns `[7]` | Apply the bounds rule with a length of 1 | high; not executed | CoreLemmas.ReadByteFailsWhereReadSucceeds | CoreMemory.ReadByteAt |
| src/Core.cpp:79 | The single-byte write has the same always-true guard, so it never stores | Cleared 2-byte core, single-byte write of 9 at offset 0 reports failure and changes nothing | Apply the bounds rule with a length of 1 and store at `loc` | high; not executed | CoreLemmas.WriteByteFailsWhereWriteAtSucceeds | CoreMemory.WriteByteAt |

The source's own doc comments describe the intended behaviour. The multi-byte read reads from a location in memory and returns null on an invalid read (src/Core.cpp:40-45). The multi-byte write's `loc` is the location to write to (src/Core.cpp:58-63). The single-byte write writes a single value to a location in memory (src/Core.cpp:72-77). The model follows the code as written. The corrected members state the behaviour these comments describe.

## Left out

- The instruction set (arithmetic, branches, traps, stack push and pop) and the flag-computation schemes are not part of this model. They do not appear in the modelled source, so there is nothing to check a model against.
- `MemoryDevice::status` (src/MemoryDevice.h:12) is not modelled. It is always true, and no code changes it.
- The byte and word macros in src/defs.h are not modelled. Nothing uses them.
- Memory management is not modelled, because values have no storage lifetime: the destructor's `delete` where `delete[]` is meant, the buffer leaked by assignment, and allocation failure.
- `read` returns a pointer into the buffer in the source. The model returns the bytes as a sequence, so aliasing of that pointer is not modelled.
- CoreMemory.ReadByte: the failure branch returns `nullptr` from a function whose result is a byte (src/Core.cpp:54). C++ has no implicit conversion from a null pointer to an integer type, so that statement is ill-formed and src/Core.cpp does not compile as written. That branch has no defined behaviour, and the model chooses `None` for it.
- CoreMemory.AssignCore: the contents of a newly allocated buffer are indeterminate, so the model takes them as a parameter. Whether the target is the source object itself cannot be seen from values, so it is also a parameter. The leak of the target's old buffer is not modelled.
- CoreMemory.Write: the source reads `len` bytes from the caller's buffer without checking its length. The model requires the data to hold at least `len` bytes whenever the guard accepts the write.
- Register codes outside R0-R7 cannot be expressed, because `RegCode` is a subset type. The source's enum has no other values either.
