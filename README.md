# RV64I-subset emulator core in Dafny

This project models the instruction-set emulator of a small RV64I-subset
interpreter. It covers two C files.

- `bit.c` holds the bit-field primitives. `get_bits` extracts an unsigned
  field. `sign_extend` shifts left and then arithmetic-shifts right.
  `get_bit` tests one bit.
- `rv_emu.c` holds the engine. `rv_init` sets up the machine state. The
  eight `emu_*` handlers each execute one instruction format. `rv_one`
  fetches the word at pc, dispatches on its 7-bit opcode and raises the
  analysis counters. `rv_emulate` runs until pc reaches `RV_STOP`.

The modules follow the program's structure:

- `Bits` (bits.dfy) models `bit.c` as pure functions on 64-bit words, with
  lemmas.
- `Decode` (rv_decode.dfy) extracts the fields and reassembles the I, S, B
  and J immediates exactly as the handlers do. It also has one encoder per
  format, with round-trip lemmas in both directions.
- `Memory` (rv_memory.dfy) is the emulated data memory: the stack as
  little-endian bytes at a fixed base address.
- `RvSpec` (rv_spec.dfy) holds the state-transition semantics as
  functions on a `State` value: one step function per handler, `Execute`
  and `RvOne` for the dispatch and its counters, and `Emulate` for the run
  loop.
- `RvProps` (rv_props.dfy) proves, per handler, what the source promises.
- `RvRun` (rv_run.dfy) proves the counter bookkeeping over a whole run.
- `RvMachine` (rv_machine.dfy) is the emulator as the C runs it. The class
  `Machine` holds a register array, a stack array, `pc` and the counters.
  The constructor zeroes the arrays in loops. Each handler method updates
  the arrays and fields in place. `RvOne` dispatches and counts, and
  `Emulate` is the `while` loop. Each method is proved to leave exactly the
  state that the matching `RvSpec` function gives for the old state. So
  every `RvProps`/`RvRun` fact carries over to the object.

Fixed constants:

- Opcodes: 0x33 (R), 0x3b (R-64), 0x03 (I-load), 0x67 (jalr), 0x13
  (I-arith), 0x23 (S), 0x63 (B) and 0x6f (J).
- Register numbers: zero = 0, ra = 1, sp = 2 and a0..a3 = 10..13.
- `RV_STOP` = 0. This is the sentinel that `rv_init` puts in ra.
- `STACK_SIZE` = 8192 bytes at base address 0x1000_0000. `sp` starts at
  its top, 0x1000_2000.

`rv_emu.h` and `bit.h` are not part of this model, so these header
constants are chosen here.

The model follows the code where the code departs from the RISC-V
Unprivileged ISA (version 20191213):

- `emu_jalr` writes the link `pc + 4` into rs1, not rd, after computing
  the target from the old rs1.
- Register x0 is protected only in `emu_jal`. Every other handler writes
  `regs[rd]` even when rd is 0 (see `RvProps.AddiWritesZeroRegister`).
- `sll` and `srl` shift by the whole rs2 value.
- `sllw` keeps all 64 bits of the shifted value, with no 32-bit
  truncation (see `RvProps.SllwKeepsHighBits`).
- `srli` masks its shift amount to five bits, where RV64I uses imm[5:0]:
  a shift amount of 32 shifts by nothing (see `RvProps.SrliShamtFiveBits`).
- `emu_i_type` never looks at imm[11:5], so `srai` runs as the logical
  `srli` (see `RvProps.SraiRunsAsSrli`).
- A taken branch adds `(int) offset`, the offset's low 32 bits
  sign-extended. `RvProps.IntCastOffsetB` shows that this equals the
  offset.

The `RvSpec` step functions and the `Bits`, `Decode` and `Memory`
functions they use are definitions. Their own `ensures`, where there is
one, only keeps the state well-formed or bounds a field. The table lists
each definition with the C function it stands for and names the lemmas
and methods that state what it does.

## Model

| member | source | states |
|---|---|---|
| Bits.GetBits | bit.c:3-7 | for 1 <= count <= 32 the result equals (num >> start) masked to its low count bits, so it is below 2^count; count = 0 is excluded because the 32-bit mask shift would be by 32 |
| Bits.MaskLemma | bit.c:4-5 | the 32-bit all-ones mask shifted right by 32 - count is the count-bit mask 2^count - 1 |
| Bits.GetBit | bit.c:18-21 | get_bit is true exactly when get_bits(num, which, 1) == 1, and exactly when bit `which` of num is set |
| Bits.SignExtend | bit.c:8-16 | the definition of sign_extend: num shifted left by 63 - start, then arithmetically shifted right by the same distance; its properties are the Bits.SignExtend* rows |
| Bits.SignExtendClosedForm | bit.c:8-16 | with bit `start` set, the result is num with every bit from `start` up set; with it clear, num with every bit above `start` cleared |
| Bits.ExtendSet | bit.c:8-16 | when bit `start` of num is set, the shift-left/arithmetic-shift-right pair sets every bit above `start` and keeps the rest |
| Bits.ExtendClear | bit.c:8-16 | when bit `start` of num is clear, the pair clears every bit above `start` and keeps the rest |
| Bits.SignExtendLowBits | bit.c:8-16 | bits 0..start of sign_extend(num, start) are those of num |
| Bits.SignExtendHighBits | bit.c:8-16 | every bit above `start` of the result equals bit `start` of num |
| Bits.SignExtendRange | bit.c:8-16 | the result is negative as an int64_t exactly when bit `start` is set; a negative result is at least -2^start and a non-negative one below 2^start (as 64-bit patterns) |
| Bits.SignExtendSmall | bit.c:8-16 | a value below 2^start is returned unchanged |
| Bits.SignExtendExamples | bit.c:8-16 | sign_extend(7, 3) == 7 and sign_extend(8, 3) == -8 |
| Bits.SignExtendIdempotent | bit.c:8-16 | extending the result again at the same position gives the same value |
| Decode.Opcode | rv_emu.c:242 | the opcode is the low 7 bits of the word, below 0x80 |
| Decode.Funct3 | rv_emu.c:56 | funct3 is the 3-bit field at bit 12, below 8 |
| Decode.Funct7 | rv_emu.c:57 | funct7 is the 7-bit field at bit 25, below 0x80 |
| Decode.ShamtI | rv_emu.c:140 | the srli shift amount, the low five bits of the immediate's low byte, is below 32 |
| Decode.Shamt5 | rv_emu.c:83 | the sllw/sraw shift amount get_bits(regs[rs2], 0, 5) is below 32 |
| Decode.ImmI | rv_emu.c:100-101 | the definition of the load and I-arith immediate: the word read as int32_t, arithmetically shifted right by 20, widened to int64_t; see Decode.ImmIAgrees and the I round trips |
| Decode.ImmJalr | rv_emu.c:120-121 | the definition of the jalr offset: sign_extend(get_bits(iw, 20, 12), 11); see Decode.ImmIAgrees |
| Decode.ImmS | rv_emu.c:152-155 | the definition of the S-offset: bits 25..31 above bits 7..11, sign-extended from bit 11; see Decode.ImmSRange and the S round trips |
| Decode.ImmB | rv_emu.c:176-181 | the definition of the B-offset: imm[12], imm[10:5], imm[4:1] and imm[11] reassembled, sign-extended from bit 12; see Decode.ImmBRange and the B round trips |
| Decode.ImmJ | rv_emu.c:225-230 | the definition of the J-offset: imm[20], imm[19:12], imm[11] and imm[10:1] reassembled, sign-extended from bit 20; see Decode.ImmJRange and the J round trips |
| Decode.ImmIAgrees | rv_emu.c:100-101 | the I-immediate ((int32_t) iw) >> 20, widened to int64_t, equals sign_extend(get_bits(iw, 20, 12), 11), the form emu_jalr uses |
| Decode.ShamtIIsRs2Field | rv_emu.c:134-141 | srli shifts by the immediate's low five bits, which are the word's bits 20..24 |
| Decode.Shamt5IsLowBits | rv_emu.c:83 | sllw and sraw shift by the low five bits of regs[rs2] only |
| Decode.ImmSRange | rv_emu.c:152-155 | the S-offset is a 12-bit two's-complement value, negative exactly when bit 31 of the word is set |
| Decode.ImmBRange | rv_emu.c:176-181 | the B-offset is even and lies in [-4096, 4094] |
| Decode.ImmJRange | rv_emu.c:225-230 | the J-offset is even and lies in [-2^20, 2^20 - 2] |
| Decode.EncodeDecodeR | rv_emu.c:53-57 | every word is the R-layout encoding of the fields the handler extracts |
| Decode.DecodeEncodeR | rv_emu.c:53-57 | the funct7, rs2, rs1, funct3, rd and opcode fields survive R-encoding and decoding |
| Decode.EncodeDecodeI | rv_emu.c:96-101 | every word is the I-layout encoding of its immediate, rs1, funct3, rd and opcode |
| Decode.DecodeEncodeI | rv_emu.c:96-101 | a 12-bit immediate, rs1, funct3 and rd survive I-encoding and decoding |
| Decode.EncodeDecodeS | rv_emu.c:149-155 | every word is the S-layout encoding of its offset, rs2, rs1, funct3 and opcode |
| Decode.DecodeEncodeS | rv_emu.c:149-155 | a 12-bit offset, rs2, rs1 and funct3 survive S-encoding and decoding |
| Decode.EncodeDecodeB | rv_emu.c:173-181 | every word is the B-layout encoding of its offset, rs2, rs1, funct3 and opcode |
| Decode.DecodeEncodeB | rv_emu.c:173-181 | an even offset in [-4096, 4094], rs2, rs1 and funct3 survive B-encoding and decoding |
| Decode.EncodeDecodeJ | rv_emu.c:224-230 | every word is the J-layout encoding of its offset, rd and opcode |
| Decode.DecodeEncodeJ | rv_emu.c:224-230 | an even offset in [-2^20, 2^20 - 2] and rd survive J-encoding and decoding |
| Memory.LoadLE | rv_emu.c:104-111 | the definition of a little-endian read of n bytes through the int, char or double pointer; see Memory.LoadAfterStoreLE |
| Memory.StoreLE | rv_emu.c:158-165 | the definition of a little-endian write of the low n bytes of v; it keeps the stack's length, and Memory.StoreLEAt gives its effect byte by byte |
| Memory.StoreLEAt | rv_emu.c:157-165 | a store of n bytes of v at k writes byte j - k of v at each index j in [k, k + n) and leaves every other byte unchanged |
| Memory.StoreLEBytes | rv_emu.c:157-165 | the same for all indices at once |
| Memory.LoadAfterStoreLE | rv_emu.c:103-111 | loading n bytes just stored at the same index gives the stored value's low n bytes |
| Memory.Offset | rv_emu.c:104 | an address that passes the bounds check maps to a stack index whose whole access fits in the stack |
| RvSpec.Initial | rv_emu.c:15-50 | the definition of rv_init's state as a value; see RvProps.InitialState and RvMachine.Machine.Init |
| RvSpec.RTypeStep | rv_emu.c:52-75 | the definition of emu_r_type on a state value; see RvProps.RTypeArith, RTypeShift, RTypeUnsupported and RTypeEffect |
| RvSpec.RType64Step | rv_emu.c:77-93 | the definition of emu_r_type_64; see RvProps.RType64Effect, RType64Accepts, SllwValue and SrawValue |
| RvSpec.ITypeLoadStep | rv_emu.c:95-116 | the definition of emu_i_type_load; see RvProps.MemoryUnsupported, MemoryOutside and ITypeLoadEffect |
| RvSpec.JalrStep | rv_emu.c:118-127 | the definition of emu_jalr; see RvProps.JalrEffect |
| RvSpec.ITypeStep | rv_emu.c:129-146 | the definition of emu_i_type; see RvProps.ITypeEffect, ITypeAccepts, AddiValue and SrliValue |
| RvSpec.STypeStep | rv_emu.c:148-170 | the definition of emu_s_type; see RvProps.STypeStepInStack, STypeEffect and StoreThenLoadStep |
| RvSpec.BTypeStep | rv_emu.c:172-221 | the definition of emu_b_type with its own branch counters; see RvProps.BTypeEffect and BTypeUnsupported |
| RvSpec.JalStep | rv_emu.c:223-236 | the definition of emu_jal; see RvProps.JalEffect and JalEncoded |
| RvSpec.Execute | rv_emu.c:242-299 | the definition of rv_one's dispatch on the opcode and its counter update; see the RvRun.ExecuteCounts* rows and RvRun.ExecuteUnknown |
| RvSpec.RvOne | rv_emu.c:238-300 | the definition of rv_one: fetch the word at pc from the code map (a fetch fault when there is none) and execute it; see RvRun.StepBalanced |
| RvSpec.Emulate | rv_emu.c:302-308 | the definition of rv_emulate with a step budget: count, step, stop at RV_STOP with a0; see RvRun.EmulateBalanced and EmulateMoreFuel |
| RvProps.InitialState | rv_emu.c:15-50 | after rv_init every register is 0 except sp (the stack top) and a0..a3 (the arguments), pc is the entry address, and every stack byte and every counter is 0 |
| RvProps.RTypeArith | rv_emu.c:59-70 | add, and, sub and mul give regs[rs1] op regs[rs2] modulo 2^64 |
| RvProps.RTypeShift | rv_emu.c:65-68 | sll and srl shift by the whole of regs[rs2]; an amount of 64 or more is an undefined-shift fault |
| RvProps.RTypeUnsupported | rv_emu.c:71-72 | exactly the funct3/funct7 pairs outside the six operations are unsupported, reported with funct3 |
| RvProps.RTypeEffect | rv_emu.c:52-75 | emu_r_type succeeds exactly when the operation is supported; it then writes the value to rd (x0 included), advances pc by exactly 4, and changes no other register, the stack or the counters; otherwise it reports the operation's fault |
| RvProps.RType64Effect | rv_emu.c:77-93 | emu_r_type_64 writes the sllw/sraw value to rd (x0 included), advances pc by 4 and changes nothing else |
| RvProps.RType64Accepts | rv_emu.c:85-90 | emu_r_type_64 accepts exactly sllw and sraw; anything else is unsupported, reported with funct3 |
| RvProps.SllwValue | rv_emu.c:83-86 | sllw shifts by the low five bits of regs[rs2] and keeps all 64 bits of the result |
| RvProps.SllwKeepsHighBits | rv_emu.c:86 | 2^31 shifted left by 1 under sllw is 2^32, not the re-sign-extended 0 of the ISA |
| RvProps.SrawValue | rv_emu.c:83-88 | sraw arithmetically shifts the sign-extended low word of regs[rs1] by the low five bits of regs[rs2] |
| RvProps.ITypeEffect | rv_emu.c:129-146 | emu_i_type writes the addi/srli value to rd (x0 included), advances pc by 4 and changes nothing else |
| RvProps.ITypeAccepts | rv_emu.c:137-143 | emu_i_type accepts exactly addi and srli; anything else is unsupported, reported with funct3 |
| RvProps.AddiValue | rv_emu.c:134-138 | addi adds regs[rs1] and sign_extend(get_bits(iw, 20, 12), 11) modulo 2^64 |
| RvProps.SrliValue | rv_emu.c:139-141 | srli shifts regs[rs1] right by the word's bits 20..24 |
| RvProps.SrliShamtFiveBits | rv_emu.c:140 | an srli whose immediate is 32 shifts by nothing, because the amount is masked to five bits |
| RvProps.SraiRunsAsSrli | rv_emu.c:139-141 | an srai encoding (imm[11:5] = 0x20) shifts 2^63 right by one logically, giving 2^62 |
| RvProps.AddiWritesZeroRegister | rv_emu.c:137-138 | addi with rd = rs1 = 0 and a non-zero immediate leaves x0 equal to that immediate |
| RvProps.MemoryUnsupported | rv_emu.c:112-113 | a load or store funct3 other than lw/lb/ld or sw/sb/sd is unsupported, reported with funct3 |
| RvProps.MemoryOutside | rv_emu.c:104-110 | a load or store whose bytes are not all inside the stack is a memory fault at its address |
| RvProps.ITypeLoadEffect | rv_emu.c:95-116 | a load inside the stack writes to rd the little-endian value of the bytes at regs[rs1] + offset, extended as lw, lb or ld reads it; it advances pc by 4 and changes nothing else |
| RvProps.STypeStepInStack | rv_emu.c:148-170 | a store inside the stack is the little-endian write of regs[rs2] at regs[rs1] + offset, followed by pc += 4 |
| RvProps.STypeEffect | rv_emu.c:148-170 | a store of width w changes exactly the w bytes at regs[rs1] + offset; registers and counters are untouched and pc advances by 4 |
| RvProps.SignExtendLowWord | rv_emu.c:105 | sign extension from bit 31 reads only the low 32 bits |
| RvProps.SignExtendLowByte | rv_emu.c:108 | sign extension from bit 7 reads only the low byte |
| RvProps.ReadBack | rv_emu.c:103-111 | what a load reads back after a store of v of the same width: v sign-extended from bit 31 for lw, from bit 7 for lb, and v itself for ld |
| RvProps.StoreThenLoad | rv_emu.c:103-111 | a store followed by a load of the same width at the same address returns the stored value's low bytes |
| RvProps.StoreThenLoadStep | rv_emu.c:157-165 | sw/sb/sd followed by lw/lb/ld with the same base register, offset and width puts the stored value, as that width reads it, in the load's rd |
| RvProps.IntCastOffsetB | rv_emu.c:188 | the (int) conversion in pc += (int) offset never changes a B-offset |
| RvProps.BranchTakenStep | rv_emu.c:186-217 | a branch whose condition holds moves pc by the B-offset, raises b_taken by one and changes nothing else |
| RvProps.BranchNotTakenStep | rv_emu.c:186-217 | a branch whose condition fails advances pc by 4, raises b_not_taken by one and changes nothing else |
| RvProps.BTypeEffect | rv_emu.c:172-221 | beq, bne, blt and bge always succeed; the branch is taken exactly when its comparison holds, with blt and bge comparing as int64_t |
| RvProps.BTypeUnsupported | rv_emu.c:218-219 | a B-type instruction fails exactly when funct3 is not beq, bne, blt or bge, and the fault names that funct3 |
| RvProps.JalEffect | rv_emu.c:223-236 | jal moves pc by the J-offset; if rd is not 0 it writes pc + 4 to rd and changes no other register; if rd is 0 no register changes |
| RvProps.JalEncoded | rv_emu.c:223-236 | a jal assembled from an even offset in [-2^20, 2^20 - 2] and rd != 0 moves pc by exactly that offset and links pc + 4 in rd |
| RvProps.JalrEffect | rv_emu.c:118-127 | jalr jumps to old regs[rs1] + imm with bit 0 cleared, writes the link pc + 4 into rs1, and changes nothing else |
| RvProps.BeqEncoded | rv_emu.c:186-189 | a beq assembled from an even offset in [-4096, 4094], comparing equal registers, moves pc by exactly that offset |
| RvRun.OneMoreTotal | rv_emu.c:259-299 | raising one class counter leaves i_count as it was and raises the class total by one |
| RvRun.ExecuteUnknown | rv_emu.c:297-298 | an opcode outside the eight formats is an unsupported-opcode fault that names the opcode |
| RvRun.CountedBump | rv_emu.c:263-295 | rv_one's counter update after a handler that leaves the counters alone succeeds exactly when the handler does and raises exactly the named counter by one |
| RvRun.ExecuteCountsR | rv_emu.c:260-268 | after a successful R or R-64 instruction the counters are the old ones with ir_count raised by one |
| RvRun.ExecuteCountsI | rv_emu.c:279-283 | after a successful I-arith instruction the counters are the old ones with ir_count raised by one |
| RvRun.ExecuteCountsLoad | rv_emu.c:269-273 | after a successful load the counters are the old ones with ld_count raised by one |
| RvRun.ExecuteCountsStore | rv_emu.c:284-288 | after a successful store the counters are the old ones with st_count raised by one |
| RvRun.ExecuteCountsJump | rv_emu.c:274-278 | jalr and jal always succeed, and the counters are the old ones with j_count raised by one |
| RvRun.ExecuteCountsBranch | rv_emu.c:289-292 | rv_one adds no counter of its own for a branch: it succeeds exactly for beq/bne/blt/bge, and when its condition holds the counters are the old ones with b_taken raised by one, when it fails with b_not_taken raised by one |
| RvRun.ExecuteCounts | rv_emu.c:259-299 | every successful instruction raises exactly one class counter (ir, ld, st, j, b_taken or b_not_taken) by one and nothing else |
| RvRun.StepBalanced | rv_emu.c:303-305 | one loop turn from a balanced state (i_count equal to the sum of the class counters) leaves it balanced, or, on a fault, with i_count one above that sum |
| RvRun.EmulateBalanced | rv_emu.c:302-308 | a whole run from a balanced state ends balanced, except that a faulting instruction is counted in i_count only |
| RvRun.EmulateMoreFuel | rv_emu.c:302-308 | a run that ends within its step budget ends the same way with any larger budget |
| RvRun.InitialRunBalanced | rv_emu.c:15-50 | a run from rv_init's state keeps i_count equal to the sum of the class counters, except for a faulting instruction |
| RvMachine.Machine.Init | rv_emu.c:15-50 | the constructor zeroes the register and stack arrays in loops, then leaves exactly the state RvSpec.Initial describes |
| RvMachine.Machine.EmuRType | rv_emu.c:52-75 | updates the register array and pc in place to RTypeStep of the old state; on a fault nothing changes |
| RvMachine.Machine.EmuRType64 | rv_emu.c:77-93 | updates in place to RType64Step of the old state; on a fault nothing changes |
| RvMachine.Machine.EmuITypeLoad | rv_emu.c:95-116 | reads the stack array and updates rd and pc in place to ITypeLoadStep of the old state; on a fault nothing changes |
| RvMachine.Machine.EmuJalr | rv_emu.c:118-127 | updates rs1 and pc in place to JalrStep of the old state |
| RvMachine.Machine.EmuIType | rv_emu.c:129-146 | updates in place to ITypeStep of the old state; on a fault nothing changes |
| RvMachine.Machine.StoreBytes | rv_emu.c:157-165 | writes the low bytes of v into the stack array in place, exactly as Store describes, or reports a memory fault and changes nothing |
| RvMachine.Machine.EmuSType | rv_emu.c:148-170 | updates the stack array and pc in place to STypeStep of the old state; on a fault nothing changes |
| RvMachine.Machine.EmuBType | rv_emu.c:172-221 | updates pc and b_taken/b_not_taken in place to BTypeStep of the old state; on a fault nothing changes |
| RvMachine.Machine.EmuJal | rv_emu.c:223-236 | updates rd (unless it is 0) and pc in place to JalStep of the old state |
| RvMachine.Machine.RvOne | rv_emu.c:238-300 | fetches the word at pc, dispatches on the opcode, raises the class counter, and leaves exactly RvSpec.RvOne of the old state; a fault changes nothing |
| RvMachine.Machine.Emulate | rv_emu.c:302-308 | the while loop raises i_count before each step, stops at RV_STOP with a0's value, and ends in exactly the state and ending RvSpec.Emulate gives for the old state |

## Left out

- `rv_print` and `print_pct` (rv_emu.c:310-330) are left out. They only format floating-point percentages with `printf`.
- The `DEBUG` printing (rv_emu.c:8, rv_emu.c:244-246) is left out.
- The `printf` and `exit(-1)` in `unsupported` (rv_emu.c:10-13) become an `Unsupported` fault. The fault ends the step and the run.
- The instruction cache is left out. `cache_init` and `cache_lookup` are not part of this model. Fetch reads the word at pc from a read-only code map, as rv_emu.c:239 does directly. A pc that is not in the map is a fetch fault.
- Host pointers are replaced by a bounded address space.
  - The `(uint64_t) func` entry point and the `&rsp->stack[STACK_SIZE]` stack pointer become plain 64-bit addresses.
  - Loads and stores reach only the stack region, 8192 bytes at 0x1000_0000. Any other address is a memory fault.
  - The guest code cannot read or write other host memory, so aliasing between host and guest memory is not modelled.
- `ld` and `sd` go through `double *` in the source, which converts the value to and from floating point. Here they are raw 64-bit loads and stores.
- `lb` reads a plain `char`, whose signedness is platform-dependent. The model sign-extends it, as RV64I does.
- `sll` and `srl` by an amount of 64 or more are undefined in C. They are modelled as an `UndefinedShift` fault. A precondition would have to be met on every step of a run, which cannot be guaranteed.
- `rv_emulate` may loop forever on guest code. `Emulate` takes a step budget (fuel) and ends with `OutOfFuel` when the budget is spent. `RvRun.EmulateMoreFuel` shows that the budget only bounds the run. A run that never reaches `RV_STOP` is not described beyond its budget.
- Counter overflow is not modelled: the counters are unbounded naturals, while the C counters are fixed-width integers that a long enough run would overflow.
- The header constants are chosen here: `RV_STOP`, `STACK_SIZE`, the stack base and the register numbers. `rv_emu.h` and `bit.h` are not part of this model.
- `RvMachine.Machine.EmuRType`, `RvMachine.Machine.EmuRType64` and `RvMachine.Machine.EmuIType` evaluate the operation through the pure tables `RTypeValue`, `RType64Value` and `ITypeValue` and then update the arrays in place. The source's `if`/`else` chain is not repeated statement by statement inside the methods. This keeps the proofs within the verifier's resource limit. The branches and constants are the same ones.
- Bits.SignExtendRange: states the [-2^start, 2^start) bounds on the 64-bit pattern (unsigned comparison against -2^start and 2^start) rather than on the int64_t value. Negativity is stated on the int64_t value.
- Bits.GetBits: positions are limited to 0..63 (a 6-bit index). A larger shift amount is undefined in C.
