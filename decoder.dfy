/** The instruction decoder: a total function from a 32-bit word to an
    Instruction. The word is an unsigned integer below 2^32; the
    source's `(w >> k) & (2^n - 1)` is written `w / 2^k % 2^n`. The bit
    layout is the repository's own, not the Arm architecture's. */
module Decoder {
  import opened Words
  import opened Instructions

  // ---------------------------------------------------------------------
  // Bit fields

  /** Bits 25-27: the instruction class (`op0`). */
  function ClassField(w: u32): nat { w / 0x200_0000 % 8 }
  /** Bits 0-4. */
  function Reg0Field(w: u32): nat { w % 0x20 }
  /** Bits 5-9. */
  function Reg5Field(w: u32): nat { w / 0x20 % 0x20 }
  /** Bits 16-20. */
  function Reg16Field(w: u32): nat { w / 0x1_0000 % 0x20 }
  /** Bits 21-24: register-class opcode. */
  function RegOpField(w: u32): nat { w / 0x20_0000 % 0x10 }
  /** Bits 22-23: register-class shift amount. */
  function RegShiftField(w: u32): nat { w / 0x40_0000 % 4 }
  /** Bits 23-24: immediate-class opcode. */
  function ImmOpField(w: u32): nat { w / 0x80_0000 % 4 }
  /** Bits 10-21: 12-bit immediate. */
  function Imm12Field(w: u32): nat { w / 0x400 % 0x1000 }
  /** Bit 22: load (1) or store (0). */
  function LoadFlag(w: u32): nat { w / 0x40_0000 % 2 }
  /** Bits 10-30: 21-bit load/store offset. */
  function Offset21Field(w: u32): nat { w / 0x400 % 0x20_0000 }
  /** Bits 26-31: branch sub-opcode. */
  function BranchOpField(w: u32): nat { w / 0x400_0000 % 0x40 }
  /** Bit 24: CBNZ (1) or CBZ (0). */
  function CbnzFlag(w: u32): nat { w / 0x100_0000 % 2 }
  /** Bits 5-23: 19-bit compare-and-branch offset, in words. */
  function Offset19Field(w: u32): nat { w / 0x20 % 0x8_0000 }
  /** Bits 0-25: 26-bit branch offset, in words. */
  function Offset26Field(w: u32): nat { w % 0x400_0000 }

  /** The two's-complement value of a field whose sign bit has value
      `signBit` (the source tests `field & signBit`, 0x800 for 12 bits):
      when it is set the source ORs all-ones into the bits above it (an
      int32), which subtracts 2 * signBit. The result is the one value in
      the signed range that agrees with the field modulo 2 * signBit. */
  function SignExtend(field: nat, signBit: nat): (r: int)
    requires 0 < signBit && field < 2 * signBit
    ensures -(signBit as int) <= r < signBit
    ensures r % (2 * signBit) == field
  {
    if field >= signBit then
      DivUnique(field - 2 * signBit, 2 * signBit, -1, field);
      field - 2 * signBit
    else
      DivUnique(field, 2 * signBit, 0, field);
      field
  }

  // ---------------------------------------------------------------------
  // The decoder

  /** Register data processing: bits 21-24 select the opcode; an unknown
      value gives the default (INVALID) record with no field set. */
  function DecodeDataProcessingRegister(w: u32): (r: Instruction)
    ensures r.opcode != INVALID <==> RegOpField(w) in {0x0, 0x1, 0x2, 0x4, 0xA}
    ensures r.opcode == INVALID ==> r == DEFAULT_INSTRUCTION
    ensures r.opcode != INVALID ==> GroupOf(r.opcode) == DataRegister
    ensures r.opcode != INVALID ==>
      r == DEFAULT_INSTRUCTION.(opcode := r.opcode, rd := Reg0Field(w), rn := Reg5Field(w),
                                rm := Reg16Field(w), shift := RegShiftField(w))
  {
    var op := match RegOpField(w)
      case 0x0 => AND
      case 0x1 => EOR
      case 0x2 => SUB
      case 0x4 => ADD
      case 0xA => ORR
      case _ => INVALID;
    if op == INVALID then DEFAULT_INSTRUCTION
    else
      // the source stores the shift only when it is non-zero; the default is 0
      DEFAULT_INSTRUCTION.(opcode := op, rd := Reg0Field(w), rn := Reg5Field(w),
                           rm := Reg16Field(w), shift := RegShiftField(w))
  }

  /** Immediate data processing: bits 23-24 select the opcode, bits 10-21
      are a signed 12-bit immediate. */
  function DecodeDataProcessingImmediate(w: u32): (r: Instruction)
    ensures GroupOf(r.opcode) == DataImmediate && r.opcode != EORI
    ensures r.opcode == [ADDI, SUBI, ANDI, ORRI][ImmOpField(w)]
    ensures -2048 <= r.imm < 2048 && r.imm % 0x1000 == Imm12Field(w)
    ensures r == DEFAULT_INSTRUCTION.(opcode := r.opcode, rd := Reg0Field(w), rn := Reg5Field(w),
                                      imm := r.imm)
  {
    var op := match ImmOpField(w)
      case 0x0 => ADDI
      case 0x1 => SUBI
      case 0x2 => ANDI
      case 0x3 => ORRI
      case _ => INVALID;
    if op == INVALID then DEFAULT_INSTRUCTION
    else
      DEFAULT_INSTRUCTION.(opcode := op, rd := Reg0Field(w), rn := Reg5Field(w),
                           imm := SignExtend(Imm12Field(w), 0x800))
  }

  /** Load/store: bit 22 chooses LDUR over STUR; bits 10-30 are an
      unscaled signed 21-bit byte offset. */
  function DecodeLoadStore(w: u32): (r: Instruction)
    ensures GroupOf(r.opcode) == LoadStore && (r.opcode == LDUR <==> LoadFlag(w) == 1)
    ensures -0x10_0000 <= r.imm < 0x10_0000 && r.imm % 0x20_0000 == Offset21Field(w)
    ensures r == DEFAULT_INSTRUCTION.(opcode := r.opcode, rd := Reg0Field(w), rn := Reg5Field(w),
                                      imm := r.imm)
  {
    DEFAULT_INSTRUCTION.(opcode := if LoadFlag(w) == 1 then LDUR else STUR,
                         rd := Reg0Field(w), rn := Reg5Field(w),
                         imm := SignExtend(Offset21Field(w), 0x10_0000))
  }

  /** Branches: bits 26-31 select the form. */
  function DecodeBranch(w: u32): (r: Instruction)
    ensures r.opcode == INVALID <==> BranchOpField(w) > 4 && BranchOpField(w) / 4 != 9
    ensures r.opcode == INVALID ==> r == DEFAULT_INSTRUCTION
    ensures r.opcode != INVALID ==> GroupOf(r.opcode) == Branch || GroupOf(r.opcode) == CompareBranch
    ensures r.rd < 32 && r.rn < 32 && r.rm == 0 && r.shift == 0
  {
    var sub := BranchOpField(w);
    if sub == 0x0 then
      DEFAULT_INSTRUCTION.(opcode := B, imm := 4 * SignExtend(Offset26Field(w), 0x200_0000))
    else if sub == 0x1 then
      DEFAULT_INSTRUCTION.(opcode := BL, imm := 4 * SignExtend(Offset26Field(w), 0x200_0000))
    else if sub == 0x2 then
      DEFAULT_INSTRUCTION.(opcode := BR, rn := Reg0Field(w))
    else if sub == 0x3 then
      DEFAULT_INSTRUCTION.(opcode := BLR, rn := Reg0Field(w))
    else if sub == 0x4 then
      DEFAULT_INSTRUCTION.(opcode := RET, rn := if Reg0Field(w) != 0 then Reg0Field(w) else 30)
    else if sub / 4 == 9 then
      // (sub & 0x3C) == 0x24
      DEFAULT_INSTRUCTION.(opcode := if CbnzFlag(w) == 1 then CBNZ else CBZ,
                           rd := Reg0Field(w),
                           imm := 4 * SignExtend(Offset19Field(w), 0x4_0000))
    else DEFAULT_INSTRUCTION
  }

  /** Bits 26-27 are both the low bits of the branch sub-opcode and the
      high bits of the class field. */
  lemma BranchOpLowBits(w: u32)
    ensures BranchOpField(w) % 4 == ClassField(w) / 2
  {
    var x := w / 0x200_0000;
    DivDiv(w, 0x200_0000, 2);
    assert BranchOpField(w) % 4 == x / 2 % 4 by {
      var y := x / 2;
      DivUnique(y % 0x40, 4, y % 0x40 / 4, y % 4) by {
        DivUnique(y, 4, y / 0x40 * 0x10 + y % 0x40 / 4, y % 0x40 % 4);
      }
    }
    assert x % 8 / 2 == x / 2 % 4 by {
      DivUnique(x / 2, 4, x / 8, x % 8 / 2) by {
        DivUnique(x, 2, x / 8 * 4 + x % 8 / 2, x % 2);
      }
    }
  }

  /** Decode dispatches on the class field. It never fails: every result
      is unconditional, names registers below 32, has plain offset
      addressing, and never carries EORI or the branch forms B, BL, BLR
      and RET (with bits 25-27 = 101 the branch sub-opcode always ends in
      binary 10). An INVALID result is the default record. */
  function Decode(w: u32): (r: Instruction)
    ensures r.cond == AL && r.ra == 0 && r.addrMode == OFFSET && !r.wback && r.rawText == ""
    ensures r.rd < 32 && r.rn < 32 && r.rm < 32 && r.shift < 4
    ensures r.opcode != EORI
    ensures r.opcode != B && r.opcode != BL && r.opcode != BLR && r.opcode != RET
    ensures r.opcode == INVALID ==> r == DEFAULT_INSTRUCTION
  {
    var op0 := ClassField(w);
    if op0 == 0x2 then DecodeDataProcessingRegister(w)
    else if op0 == 0x1 || op0 == 0x3 then DecodeDataProcessingImmediate(w)
    else if op0 == 0x0 || op0 == 0x4 then DecodeLoadStore(w)
    else if op0 == 0x5 then
      BranchOpLowBits(w);
      DecodeBranch(w)
    else DEFAULT_INSTRUCTION
  }
}
