# A verified model of a small ARM emulator core

This project models the core of a teaching emulator for a LEGv8-style subset of AArch64. The core has five parts:

- the **instruction decoder**, which turns a 32-bit word into an `Instruction` record;
- the **`Instruction` record**, with its classifiers and its debugging text;
- a **byte-addressed memory** with bounds-checked little-endian reads and writes;
- a **register file** of 34 64-bit slots: X0–X30, the zero register XZR, SP and PC;
- the **CPU**, a step machine. It fetches, decodes and executes one instruction at the PC, and `run` steps until a step fails.

The bit layout the decoder reads is the repository's own simplification, not the Arm architecture's encoding. The model follows the code bit for bit. The code has a few quirks, and the model proves each of them as a property:

- The register-class shift field (bits 22–23) lies inside the opcode field (bits 21–24). So a decoded ADD always carries shift 2, SUB and ORR carry shift 1, and AND and EOR carry shift 0.
- The load flag (bit 22) is also bit 12 of the 21-bit load/store offset. The class bits 25–26 are offset bits 15–16, so those bits are always 0.
- The class test needs bits 25–27 = 101, and bits 26–27 are the low bits of the branch sub-opcode. So `decode` itself only ever yields BR or CBZ/CBNZ from the branch class. B, BL, BLR and RET come only from `decode_branch` called directly.
- Execution is a stub. ADD and SUB are accepted and do nothing. Every other opcode, INVALID included, halts the CPU.

## Layout

| file | module | contents |
|---|---|---|
| `words.dfy` | `Words` | fixed-width integer types, `Result`/`Option`/`Outcome`, powers of 256, division facts |
| `instruction.dfy` | `Instructions` | opcode, condition and addressing-mode enums; the `Instruction` record with its defaults and classifiers |
| `decoder.dfy` | `Decoder` | bit fields, sign extension, the four class decoders and `Decode` |
| `decoder_properties.dfy` | `DecoderProperties` | dispatch, field ranges, overlap quirks, and encode-then-decode round trips for every class |
| `instruction_text.dfy` | `InstructionText` | `to_string`, with parsers that read the mnemonic, the condition and the numbers back |
| `memory.dfy` | `Memories` | the `Memory` class over an `array<u8>`, plus the value-level specification (`CheckAddress`, `LittleEndian`, `Overlay`) |
| `registers.dfy` | `RegisterFile` | the `Registers` class over an `array<u64>`, plus `ReadSlot`/`WriteSlot` on values |
| `cpu.dfy` | `Processor` | the `CPU` class, proved against the pure `Step` and `RunFrom` on a `Machine` value |

Each stateful class is proved against pure functions. `Memory` writes are specified by `Overlay`. Register writes are specified by `WriteSlot`. `StepInstruction` is specified by `Step`, and `Run` by `RunFrom`. The lemmas about those functions carry the properties.

Integers are modelled as unbounded `int`s constrained to their C++ width: `u8`, `u32` and `u64` are subset types. Bit extraction `(w >> k) & (2^n - 1)` is written `w / 2^k % 2^n`. The address-overflow test `address + size < address` in the memory bounds check is written out with an explicit `% 2^64`.

C++ exceptions become values: `Result`, `Outcome`, or the CPU's `running` flag. `Memory.Create` and `CPU.Create` return an error for size 0. The unchecked constructors require a positive size.

## Behaviour of the code worth knowing

The model follows the code in each case.

- **Reset and memory.** The header comment of `CPU::reset` (include/cpu.hpp:20) mentions memory, but `CPU::reset` (src/cpu.cpp:13-17) resets only the registers, the running flag and the breakpoints. `Processor.CPU.Reset` leaves memory unchanged.
- **Partial loads.** `load_program` (src/cpu.cpp:19-31) is not atomic. It writes byte by byte through `write8`. When a byte falls outside memory it returns false, but the bytes before it stay written. An empty program succeeds at any address and sets the PC. `Memory::load_binary` (src/memory.cpp:68-71), by contrast, checks the whole range first and is all-or-nothing.
- **No condition flags.** The register file holds only the 34 slots (include/registers.hpp:46). It stores no NZCV flags, and the model has none.
- **Printing.** `step_instruction` and `load_program` print diagnostics. Those prints are not modelled.

## Model

| member | source | states |
|---|---|---|
| Instructions.OpcodesClosed | include/instruction.hpp:9-41 | every opcode is one of 20 pairwise distinct variants |
| Instructions.ConditionsClosed | include/instruction.hpp:52-69 | every condition is one of 16 pairwise distinct variants |
| Instructions.DefaultFields | include/instruction.hpp:73-88 | a default record is INVALID and unconditional, has every register, imm and shift 0, OFFSET addressing and no writeback, and is neither a branch nor a memory op |
| Instructions.ConditionalIffNotAlways | include/instruction.hpp:96 | an instruction is conditional exactly when its condition is not AL |
| Instructions.Instruction.IsBranch | src/instruction.cpp:8-13 | a branch is never INVALID and never a memory operation; `ClassifiersFollowGroups` gives the exact set |
| Instructions.Instruction.IsMemoryOp | src/instruction.cpp:15-17 | a memory operation is never INVALID; `ClassifiersFollowGroups` gives the exact set |
| Instructions.Instruction.IsConditional | include/instruction.hpp:96 | an instruction is conditional exactly when setting its condition to AL would change it |
| Instructions.ClassifiersFollowGroups | src/instruction.cpp:8-17 | `is_branch` holds exactly for the branch and compare-and-branch opcodes; `is_memory_op` holds exactly for LDUR and STUR; no opcode is both; INVALID is neither |
| Decoder.SignExtend | src/decoder.cpp:97-100 | the sign-extended field lies in the signed range and agrees with the raw field modulo 2·signBit |
| Decoder.BranchOpLowBits | src/decoder.cpp:135 | the two low bits of the branch sub-opcode are the two high bits of the class field |
| Decoder.Decode | src/decoder.cpp:7-37 | decode is total; every result is unconditional, has OFFSET addressing, no writeback, `ra` 0, no raw text, registers below 32 and shift below 4; it never yields EORI, B, BL, BLR or RET; an INVALID result is the default record |
| Decoder.DecodeDataProcessingRegister | src/decoder.cpp:39-71 | an opcode is produced exactly for opcode field 0, 1, 2, 4 or 0xA, and it is a register operation with rd, rn, rm and shift from their bit fields; any other field value gives the default record |
| Decoder.DecodeDataProcessingImmediate | src/decoder.cpp:73-104 | the opcode is picked from bits 23–24 by the table 0 ADDI, 1 SUBI, 2 ANDI, 3 ORRI, so it is never INVALID or EORI; rd and rn from bits 0–4 and 5–9 and an immediate in [-2048, 2047] congruent to bits 10–21 modulo 2^12 |
| Decoder.DecodeLoadStore | src/decoder.cpp:106-129 | always LDUR or STUR, LDUR exactly when bit 22 is set, with registers from bits 0–4 and 5–9 and an offset in [-2^20, 2^20) congruent to bits 10–30 modulo 2^21 |
| Decoder.DecodeBranch | src/decoder.cpp:131-191 | INVALID (the default record) exactly for sub-opcodes above 4 outside 0x24–0x27; every other result is a branch or compare-and-branch with registers below 32 and no rm or shift; `BranchRegisterFields`, `BranchOffsetFields`, `CompareBranchFields` and `ReturnRegisterField` give each form's fields |
| DecoderProperties.SignExtendExamples | src/decoder.cpp:97-100 | a 12-bit field of all ones is -1, field 5 is 5 and field 0x800 is -2048 |
| DecoderProperties.SignExtendOfResidue | src/decoder.cpp:96-101 | every value in the signed range is the sign extension of its own low bits (the inverse of truncation) |
| DecoderProperties.DecodeDispatch | src/decoder.cpp:11-36 | class 1 or 3 gives exactly the immediate group; 0 or 4 gives exactly load/store; 2 gives register ops or INVALID; 5 gives branches or INVALID; 6 and 7 give INVALID; and each group comes only from its class |
| DecoderProperties.RegisterUnknownIsDefault | src/decoder.cpp:48-57 | a register-class opcode field outside {0, 1, 2, 4, 0xA} decodes to the default record |
| DecoderProperties.ShiftInsideOpcodeField | src/decoder.cpp:65 | the shift field is bits 1–2 of the register-class opcode field |
| DecoderProperties.RegisterShiftFixedByOpcode | src/decoder.cpp:43-68 | a decoded ADD has shift 2; SUB and ORR have shift 1; AND and EOR have shift 0 |
| DecoderProperties.RegisterFields | src/decoder.cpp:43-62 | every class-2 word with a known opcode field decodes by the table 0 AND, 1 EOR, 2 SUB, 4 ADD, 0xA ORR, with Xd, Xn, Xm and the shift read from bits 0–4, 5–9, 16–20 and 22–23, whatever the other bits hold |
| DecoderProperties.DecodeEncodeRegister | src/decoder.cpp:39-71 | every register opcode and register triple, encoded, decodes back to that opcode, those registers and the opcode's fixed shift |
| DecoderProperties.ImmediateFields | src/decoder.cpp:77-101 | every class-1 or class-3 word, whatever its other bits, decodes by the table on bits 23–24 (0 ADDI, 1 SUBI, 2 ANDI, 3 ORRI), with imm in [-2048, 2048) congruent to bits 10–21, rd and rn from bits 0–4 and 5–9, rm and shift 0 |
| DecoderProperties.ImmediateClassThreeExample | src/decoder.cpp:20-21 | the class-3 word 0x06800000 (bit 23 set) decodes to SUBI with every other field at its default |
| DecoderProperties.DecodeEncodeImmediate | src/decoder.cpp:73-104 | every immediate opcode, register pair and 12-bit signed immediate, encoded, decodes back unchanged |
| DecoderProperties.ImmediateExamples | src/decoder.cpp:93-101 | word 0x02001401 is ADDI X1, X0, #5 and word 0x023FFC00 is ADDI X0, X0, #-1 |
| DecoderProperties.LoadStoreFieldsOverlap | src/decoder.cpp:110-122 | offset bit 12 is the load flag, and offset bits 15–16 are the low class bits |
| DecoderProperties.LoadStoreFields | src/decoder.cpp:110-126 | the load/store class yields LDUR exactly when bit 22 is set and STUR otherwise; imm lies in [-2^20, 2^20) and is congruent to bits 10–30; offset bit 12 is set exactly for LDUR; offset bits 15–16 are 0 |
| DecoderProperties.DecodeEncodeLoadStore | src/decoder.cpp:106-128 | every encodable offset and register pair decodes back unchanged, as LDUR exactly when offset bit 12 is set |
| DecoderProperties.BranchClassForms | src/decoder.cpp:135-181 | through decode the branch sub-opcode ends in binary 10, so the result is BR (sub-opcode 2), CBZ/CBNZ (0x26) or INVALID |
| DecoderProperties.DecodeEncodeBranchRegister | src/decoder.cpp:146-149 | the canonical BR word for each register (bits 5–25 zero) decodes back to BR with that register |
| DecoderProperties.BranchRegisterField | src/decoder.cpp:146-149 | every word that `decode` reads as BR, whatever bits 5–25 hold, names the register in bits 0–4 and sets no other field |
| DecoderProperties.CompareBranchClass | src/decoder.cpp:163 | decode yields CBZ or CBNZ exactly for class 5 with sub-opcode 0x26 |
| DecoderProperties.CompareBranchFields | src/decoder.cpp:163-175 | a decoded CBZ/CBNZ has an offset that is a multiple of 4 in [-2^20, 2^20); bit 24 selects CBNZ; rd is bits 0–4 |
| DecoderProperties.DecodeEncodeCompareBranch | src/decoder.cpp:163-175 | every CBZ/CBNZ, register and word-aligned 21-bit offset, encoded, decodes back unchanged |
| DecoderProperties.DecodeBranchImmediate | src/decoder.cpp:138-188 | through `decode_branch`, every word-aligned 28-bit B/BL offset round-trips; those words are never class 5, so `decode` never routes them there |
| DecoderProperties.DecodeBranchRegisterForms | src/decoder.cpp:146-159 | the canonical BR, BLR and RET words for each register (bits 5–25 zero) round-trip through `decode_branch`, with RET on 0 meaning X30 |
| DecoderProperties.BranchRegisterFields | src/decoder.cpp:146-159 | for every word, `decode_branch` gives BR, BLR or RET exactly for sub-opcode 2, 3 or 4, each with its register from bits 0–4 (0 meaning X30 for RET) and no other field set |
| DecoderProperties.BranchOffsetFields | src/decoder.cpp:184-188 | B/BL offsets are multiples of 4 in [-2^27, 2^27) |
| DecoderProperties.ReturnRegisterField | src/decoder.cpp:156-159 | RET comes only from sub-opcode 4; its register is bits 0–4, or X30 when those bits are 0, so never X0 |
| DecoderProperties.BranchUnknownIsDefault | src/decoder.cpp:161-180 | sub-opcodes other than 0–4 and 0x24–0x27 give the default record; every other result is a branch or compare-and-branch |
| InstructionText.Mnemonic | src/instruction.cpp:23-44 | every opcode has a mnemonic of 1 to 7 upper-case letters |
| InstructionText.MnemonicRoundTrip | src/instruction.cpp:23-44 | parsing an opcode's mnemonic gives back the opcode |
| InstructionText.MnemonicInjective | src/instruction.cpp:23-44 | no two opcodes share a mnemonic |
| InstructionText.ConditionSuffix | src/instruction.cpp:47-66 | the suffix is empty exactly for AL; otherwise it is a dot and two letters |
| InstructionText.ConditionRoundTrip | src/instruction.cpp:48-65 | the two letters of every non-AL suffix parse back to the condition |
| InstructionText.NatToDecimal | src/instruction.cpp:76-81 | decimal digits with no leading zero |
| InstructionText.IntToDecimal | src/instruction.cpp:92 | a leading minus sign exactly for negatives, followed by digits; no ';' and no '#' |
| InstructionText.DecimalRoundTrip | src/instruction.cpp:80 | the digits of n read back as n |
| InstructionText.SignedRoundTrip | src/instruction.cpp:92 | the signed decimal text of x reads back as x |
| InstructionText.RegisterName | src/instruction.cpp:76-78 | "X" followed by digits, with no ';' and no '#' |
| InstructionText.OperandText | src/instruction.cpp:69-137 | the operand part is empty exactly for RET on X30; otherwise it starts with a space; it never contains ';' |
| InstructionText.ShiftShownIffNonZero | src/instruction.cpp:71-82 | the operand part of a register-form instruction contains '#' exactly when the shift is non-zero, and then it ends with ", LSL #" and the shift |
| InstructionText.OffsetShownIffNonZero | src/instruction.cpp:96-106 | an LDUR/STUR operand contains '#' exactly when the offset is non-zero; it ends with ", #imm]" then, and with ", [Xn]" otherwise |
| InstructionText.ReturnRegisterShown | src/instruction.cpp:121-125 | RET prints no operand exactly when its register is X30, and otherwise prints " Xn" |
| InstructionText.ToString | src/instruction.cpp:19-145 | the line starts with the mnemonic |
| InstructionText.OpcodeRecoverable | src/instruction.cpp:19-145 | the first word of every line parses back to the instruction's opcode, whatever the other fields hold |
| InstructionText.ConditionRecoverable | src/instruction.cpp:46-66 | a dot follows the mnemonic exactly when the instruction is conditional, and the suffix there reads back as the condition (nothing for AL) |
| InstructionText.RawTextShown | src/instruction.cpp:139-142 | with no raw text the line holds no ';'; otherwise it ends with " ; " and the raw text |
| Memories.CheckAddress | src/memory.cpp:18-24 | the 64-bit check (including its wrap-around test) passes exactly when address + width fits inside memory |
| Memories.BoundsEdges | src/memory.cpp:18-24 | address = size fails and size − 1 passes for one byte; a 4-byte access at 2^64 − 1 fails because of the wrap-around test; size − 4 passes and size − 3 fails |
| Memories.LittleEndian | src/memory.cpp:31-47 | the value of n bytes read least significant first lies below 256^n; `LittleEndianBytesRoundTrip` and `LittleEndianRoundTrip` tie it to `LittleEndianBytes` |
| Memories.LittleEndianBytes | src/memory.cpp:54-66 | the bytes written for a value number exactly the access width; `LittleEndianByteAt` gives each byte as (v >> 8i) truncated |
| Memories.Overlay | src/memory.cpp:49-71 | a store keeps the memory size, puts data[k − address] at every in-range position from the address on, and leaves every other byte as it was |
| Memories.LittleEndianRoundTrip | src/memory.cpp:31-66 | reading back n bytes written little-endian gives the value modulo 256^n |
| Memories.LittleEndianBytesRoundTrip | src/memory.cpp:31-66 | writing back a value read little-endian gives the same bytes |
| Memories.LittleEndianByteAt | src/memory.cpp:56-58 | byte i of the little-endian form is (v >> 8i) truncated to 8 bits |
| Memories.StoreThenLoad | src/memory.cpp:54-66 | after storing v in n bytes, reading those n bytes gives v modulo 256^n |
| Memories.StoreFrame | src/memory.cpp:54-66 | a store leaves every disjoint range unchanged |
| Memories.Memory.constructor | src/memory.cpp:8-12 | a memory of the given positive size, zero-filled |
| Memories.Memory.Create | src/memory.cpp:8-12 | size 0 is rejected with an error; any other size gives a fresh zero-filled memory |
| Memories.Memory.Reset | src/memory.cpp:14-16 | every byte becomes 0 and the size stays |
| Memories.Memory.Size | include/memory.hpp:31 | the number of bytes |
| Memories.Memory.Gather | src/memory.cpp:33-36 | the loop that ORs in the shifted bytes returns the little-endian value of the bytes at the address |
| Memories.Memory.Scatter | src/memory.cpp:56-58 | the loop that stores `value >> 8i` truncated at address + i leaves memory equal to the old memory overlaid with the value's little-endian bytes |
| Memories.Memory.Read8 | src/memory.cpp:26-29 | succeeds exactly when the bounds check passes, and returns the byte; otherwise OutOfBounds |
| Memories.Memory.Read32 | src/memory.cpp:31-38 | succeeds exactly when the bounds check passes, and returns the little-endian value of the 4 bytes; otherwise OutOfBounds; memory is not modified |
| Memories.Memory.Read64 | src/memory.cpp:40-47 | as Read32, with 8 bytes |
| Memories.Memory.Write8 | src/memory.cpp:49-52 | on success exactly that byte changes; on failure memory is unchanged |
| Memories.Memory.Write32 | src/memory.cpp:54-59 | on success memory is the old memory overlaid with the 4 little-endian bytes of the value; on failure it is unchanged |
| Memories.Memory.Write64 | src/memory.cpp:61-66 | as Write32, with 8 bytes |
| Memories.Memory.LoadBinary | src/memory.cpp:68-71 | succeeds exactly when the data fits, and then overlays it; otherwise memory is unchanged (all-or-nothing) |
| RegisterFile.Layout | include/registers.hpp:10-22 | 31 general registers, then XZR 31, SP 32 and PC 33, 34 slots in all; SP is distinct from XZR |
| RegisterFile.ReadSlot | src/registers.cpp:18-29 | a read fails exactly for an index of 34 or more |
| RegisterFile.WriteSlot | src/registers.cpp:31-42 | a write changes the indexed slot to the value when the index is below 34 and not XZR, and leaves every other slot (and the whole file otherwise) unchanged |
| RegisterFile.InitialValues | src/registers.cpp:12-16 | after a reset every register reads 0 except SP, which reads 0xFFFF0000 |
| RegisterFile.ReadAfterWrite | src/registers.cpp:31-42 | reading a writable register (SP and PC included) returns the value last written to it |
| RegisterFile.WriteFrame | src/registers.cpp:31-42 | a write changes no other register |
| RegisterFile.ZeroRegister | src/registers.cpp:23-26 | XZR reads 0 whatever was written, and writing it changes nothing |
| RegisterFile.OutOfRange | src/registers.cpp:18-21 | an out-of-range read fails and an out-of-range write is dropped |
| RegisterFile.Registers.constructor | src/registers.cpp:8-10 | a new register file is in the reset state |
| RegisterFile.Registers.Reset | src/registers.cpp:12-16 | all slots become the reset state |
| RegisterFile.Registers.GetRegister | src/registers.cpp:18-29 | returns ReadSlot of the slots |
| RegisterFile.Registers.SetRegister | src/registers.cpp:31-42 | the slots become WriteSlot of the old slots |
| RegisterFile.Registers.GetPc | include/registers.hpp:36 | returns the value read from slot 33 |
| RegisterFile.Registers.SetPc | include/registers.hpp:37 | writes slot 33 only |
| RegisterFile.Registers.GetSp | include/registers.hpp:39 | returns the value read from slot 32 |
| RegisterFile.Registers.SetSp | include/registers.hpp:40 | writes slot 32 only |
| Processor.ExecuteInstruction | src/cpu.cpp:81-97 | only ADD and SUB execute; every other opcode, INVALID included, is reported as unimplemented |
| Processor.Fetch | src/cpu.cpp:45 | the fetch succeeds exactly when PC + 4 fits in memory, and gives the little-endian word there |
| Processor.Step | src/cpu.cpp:33-65 | a step never changes memory or breakpoints; on success the machine is still running and the PC moved on by 4 |
| Processor.Execute | src/cpu.cpp:50-58 | it succeeds exactly for ADD and SUB, and then only the PC changes, to PC + 4; otherwise the machine halts and nothing else changes |
| Processor.HaltedStepIsNoop | src/cpu.cpp:34 | a halted machine does not step and does not change |
| Processor.BreakpointIsFixedPoint | src/cpu.cpp:37-41 | at a breakpoint the step fails, nothing changes and the machine keeps running, so stepping again gives the same result |
| Processor.StepSucceeds | src/cpu.cpp:33-65 | a step succeeds exactly when the machine is running, the PC is no breakpoint, the fetch is in bounds and the word decodes to ADD or SUB; then only the PC changes, by 4 |
| Processor.StepFaults | src/cpu.cpp:59-64 | a running step that fails away from a breakpoint halts the machine and changes nothing else (the PC included) |
| Processor.OnlyAddAndSubExecute | src/cpu.cpp:92-95 | any other decoded opcode halts the machine |
| Processor.StepFrame | src/cpu.cpp:53-56 | a step changes no register but the PC, and moves the PC by 0 or, on success, by 4 |
| Processor.RunFrom | src/cpu.cpp:67-73 | the run terminates, since the distance from the PC to the end of memory decreases with every successful step |
| Processor.RunStops | src/cpu.cpp:67-73 | a run ends halted or at a breakpoint |
| Processor.RunFrame | src/cpu.cpp:67-73 | a run changes neither memory, nor breakpoints, nor any register but the PC |
| Processor.RunAdvancesPc | src/cpu.cpp:67-73 | during a run the PC only moves forward, by a multiple of 4 |
| Processor.CPU.constructor | src/cpu.cpp:9-11 | a new CPU is running, with no breakpoints, registers in the reset state and zero-filled memory |
| Processor.CPU.Create | src/cpu.cpp:9-11 | memory size 0 is rejected; otherwise a new CPU as above |
| Processor.CPU.Reset | src/cpu.cpp:13-17 | registers reset, running set, breakpoints cleared, memory untouched |
| Processor.CPU.IsRunning | include/cpu.hpp:41 | returns the running flag |
| Processor.CPU.SetBreakpoint | include/cpu.hpp:44 | adds the address to the set (idempotent, as a set union) |
| Processor.CPU.ClearBreakpoint | include/cpu.hpp:47 | removes the address from the set, and does nothing if it is absent |
| Processor.CPU.LoadProgram | src/cpu.cpp:19-31 | succeeds exactly when the program is empty or fits; memory becomes the old memory overlaid with the program's in-bounds bytes, even on failure; on success PC = address, otherwise the registers are unchanged |
| Processor.CPU.StepInstruction | src/cpu.cpp:33-65 | the result and the new state are exactly `Step` of the old state |
| Processor.CPU.Run | src/cpu.cpp:67-73 | the new state is `RunFrom` of the old state, and the CPU has halted or stands at a breakpoint |

## Left out

- The interactive console (src/repl.cpp) and the program entry point (src/main.cpp): these are I/O.
- `Memory::dump_memory`, `Registers::to_string` and `CPU::get_state`: these are text formatting through stream manipulators.
- Diagnostic output to the standard streams in `step_instruction` and `load_program`: it is I/O. Exceptions are modelled as error values or as a halt.
- The CPU helpers that are declared but not defined (include/cpu.hpp:59-72): the code has no bodies for them. Condition evaluation, the NZCV flags, ALU results, branch targets and load/store effects are also left out, because the code implements none of them.
- `AddrMode` PRE_INDEX/POST_INDEX/LITERAL, `wback`, `ra` and EORI are kept in the types, but the decoder never produces them, so no operation covers them.
- Default arguments: `Memory(size = 1 MiB)` (include/memory.hpp:13), `CPU(memory_size = 1 MiB)` (include/cpu.hpp:18) and `load_program(…, address = 0)` (include/cpu.hpp:24). Dafny has no default arguments, so every caller passes the size and the address.
- `Processor.CPU`: `regs` and `memory` are public constants. The read-only view of memory given to callers (include/cpu.hpp:38) is not enforced.
- `Memories.Memory.Read32`: the source ORs shifted bytes together. The model adds them, which gives the same value because the bytes occupy disjoint bit ranges.
- `Processor.CPU.LoadProgram`: the index `address + i` wraps modulo 2^64 in the source. The model computes it the same way and proves the wrap never happens before a write fails.
