/** What the decoder promises: the class dispatch, the field ranges, the
    overlaps in the repository's bit layout, and round trips against
    encoders that build a word from an instruction's fields. The encoders
    are specification helpers; the repository has no assembler. */
module DecoderProperties {
  import opened Words
  import opened Instructions
  import opened Decoder

  // ---------------------------------------------------------------------
  // Sign extension

  /** A 12-bit field of all ones is -1; a field below the sign bit is itself. */
  lemma SignExtendExamples()
    ensures SignExtend(0xFFF, 0x800) == -1
    ensures SignExtend(5, 0x800) == 5
    ensures SignExtend(0x800, 0x800) == -2048
  {}

  /** A value in the signed range is the sign extension of its residue. */
  lemma SignExtendOfResidue(x: int, signBit: nat)
    requires 0 < signBit && -(signBit as int) <= x < signBit
    ensures SignExtend(x % (2 * signBit), signBit) == x
  {
    if x < 0 {
      DivUnique(x, 2 * signBit, -1, x + 2 * signBit);
    } else {
      DivUnique(x, 2 * signBit, 0, x);
    }
  }

  // ---------------------------------------------------------------------
  // Dispatch

  /** Which opcode group each value of bits 25-27 can produce: 1 and 3
      give exactly the immediate group, 0 and 4 exactly load/store, 2 the
      register group or INVALID, 5 a branch or INVALID, 6 and 7 INVALID. */
  lemma DecodeDispatch(w: u32)
    ensures var g := GroupOf(Decode(w).opcode);
      && (ClassField(w) == 1 || ClassField(w) == 3 <==> g == DataImmediate)
      && (ClassField(w) == 0 || ClassField(w) == 4 <==> g == LoadStore)
      && (g == DataRegister ==> ClassField(w) == 2)
      && (ClassField(w) == 2 ==> g == DataRegister || g == Unknown)
      && (g == Branch || g == CompareBranch ==> ClassField(w) == 5)
      && (ClassField(w) == 5 ==> g == Branch || g == CompareBranch || g == Unknown)
      && (ClassField(w) >= 6 ==> g == Unknown)
  {}

  // ---------------------------------------------------------------------
  // Register class

  /** An opcode field outside {0, 1, 2, 4, 0xA} gives the default record. */
  lemma RegisterUnknownIsDefault(w: u32)
    requires ClassField(w) == 2
    requires RegOpField(w) !in {0x0, 0x1, 0x2, 0x4, 0xA}
    ensures Decode(w) == DEFAULT_INSTRUCTION
  {}

  /** The shift field (bits 22-23) lies inside the opcode field (bits 21-24). */
  lemma ShiftInsideOpcodeField(w: u32)
    ensures RegShiftField(w) == RegOpField(w) / 2 % 4
  {
    DivDiv(w, 0x20_0000, 2);
    var x := w / 0x20_0000;
    DivUnique(x, 16, x / 16, x % 16);
    DivUnique(x / 2, 4, x / 16 * 2 + x % 16 / 2 / 4, x % 16 / 2 % 4);
  }

  /** Hence every decoded register operation carries a shift fixed by its
      opcode: ADD 2, SUB and ORR 1, AND and EOR 0. */
  lemma RegisterShiftFixedByOpcode(w: u32)
    ensures Decode(w).opcode == ADD ==> Decode(w).shift == 2
    ensures Decode(w).opcode == SUB ==> Decode(w).shift == 1
    ensures Decode(w).opcode == ORR ==> Decode(w).shift == 1
    ensures Decode(w).opcode == AND ==> Decode(w).shift == 0
    ensures Decode(w).opcode == EOR ==> Decode(w).shift == 0
  {
    var r := Decode(w);
    if GroupOf(r.opcode) == DataRegister {
      DecodeDispatch(w);
      assert r == DecodeDataProcessingRegister(w);
      ShiftInsideOpcodeField(w);
      assert r.shift == RegOpField(w) / 2 % 4;
    }
  }

  function RegisterOpcodeBits(op: Opcode): (bits: nat)
    requires GroupOf(op) == DataRegister
    ensures bits < 16
  {
    match op
    case AND => 0x0
    case EOR => 0x1
    case SUB => 0x2
    case ADD => 0x4
    case ORR => 0xA
  }

  /** The word for `op Xd, Xn, Xm` with every ignored bit zero. */
  function EncodeRegister(op: Opcode, rd: nat, rn: nat, rm: nat): u32
    requires GroupOf(op) == DataRegister && rd < 32 && rn < 32 && rm < 32
  {
    2 * 0x200_0000 + RegisterOpcodeBits(op) * 0x20_0000 + rm * 0x1_0000 + rn * 0x20 + rd
  }

  /** Every register operation and register triple decodes back, with
      the shift its opcode bits force on it. */
  lemma DecodeEncodeRegister(op: Opcode, rd: nat, rn: nat, rm: nat)
    requires GroupOf(op) == DataRegister && rd < 32 && rn < 32 && rm < 32
    ensures Decode(EncodeRegister(op, rd, rn, rm)) ==
      DEFAULT_INSTRUCTION.(opcode := op, rd := rd, rn := rn, rm := rm,
                           shift := if op == ADD then 2 else if op == SUB || op == ORR then 1 else 0)
  {
    var w := EncodeRegister(op, rd, rn, rm);
    var f := RegisterOpcodeBits(op);
    RegisterLayout(w, f, rm, rn, rd);
    ShiftInsideOpcodeField(w);
    assert Decode(w) == DecodeDataProcessingRegister(w);
  }

  /** Every register-class word with a known opcode field decodes by the
      table 0 AND, 1 EOR, 2 SUB, 4 ADD, 0xA ORR (the table the encoder
      uses), with Xd, Xn and Xm from bits 0-4, 5-9 and 16-20, whatever the
      other bits hold. */
  lemma RegisterFields(w: u32)
    requires ClassField(w) == 2 && RegOpField(w) in {0x0, 0x1, 0x2, 0x4, 0xA}
    ensures var r := Decode(w);
      && GroupOf(r.opcode) == DataRegister && RegisterOpcodeBits(r.opcode) == RegOpField(w)
      && r.rd == Reg0Field(w) && r.rn == Reg5Field(w) && r.rm == Reg16Field(w)
      && r.shift == RegShiftField(w) && r.imm == 0
  {}

  lemma RegisterLayout(w: u32, f: nat, rm: nat, rn: nat, rd: nat)
    requires f < 16 && rm < 32 && rn < 32 && rd < 32
    requires w == 2 * 0x200_0000 + f * 0x20_0000 + rm * 0x1_0000 + rn * 0x20 + rd
    ensures ClassField(w) == 2 && RegOpField(w) == f
    ensures Reg16Field(w) == rm && Reg5Field(w) == rn && Reg0Field(w) == rd
  {
    assert ClassField(w) == 2 by {
      FieldOf(w, 0x200_0000, 8, 0, 2, f * 0x20_0000 + rm * 0x1_0000 + rn * 0x20 + rd);
    }
    assert RegOpField(w) == f by {
      FieldOf(w, 0x20_0000, 16, 2, f, rm * 0x1_0000 + rn * 0x20 + rd);
    }
    assert Reg16Field(w) == rm by {
      FieldOf(w, 0x1_0000, 32, f + 32, rm, rn * 0x20 + rd);
    }
    assert Reg5Field(w) == rn by {
      FieldOf(w, 0x20, 32, rm * 64 + f * 2048 + 2 * 0x8000, rn, rd);
    }
    assert Reg0Field(w) == rd by {
      FieldOf(w, 1, 32, rn + rm * 2048 + f * 0x1_0000 + 2 * 0x10_0000, rd, 0);
    }
  }

  // ---------------------------------------------------------------------
  // Immediate class

  /** Every word of class 1 or 3 decodes by the table on bits 23-24
      (0 ADDI, 1 SUBI, 2 ANDI, 3 ORRI, the table the encoder uses),
      whatever the other bits hold; it never yields INVALID or EORI; its
      immediate is the signed reading of bits 10-21, within [-2048, 2047]. */
  lemma ImmediateFields(w: u32)
    requires ClassField(w) == 1 || ClassField(w) == 3
    ensures var r := Decode(w);
      && r.opcode in {ADDI, SUBI, ANDI, ORRI}
      && ImmediateOpcodeBits(r.opcode) == ImmOpField(w)
      && -2048 <= r.imm < 2048
      && r.imm % 0x1000 == Imm12Field(w)
      && r.rd == Reg0Field(w) && r.rn == Reg5Field(w) && r.rm == 0 && r.shift == 0
  {}

  function ImmediateOpcodeBits(op: Opcode): (bits: nat)
    requires op in {ADDI, SUBI, ANDI, ORRI}
    ensures bits < 4
  {
    match op
    case ADDI => 0
    case SUBI => 1
    case ANDI => 2
    case ORRI => 3
  }

  /** The word for `op Xd, Xn, #imm`. */
  function EncodeImmediate(op: Opcode, rd: nat, rn: nat, imm: int): u32
    requires op in {ADDI, SUBI, ANDI, ORRI} && rd < 32 && rn < 32 && -2048 <= imm < 2048
  {
    0x200_0000 + ImmediateOpcodeBits(op) * 0x80_0000 + (imm % 0x1000) * 0x400 + rn * 0x20 + rd
  }

  /** Every immediate operation, register pair and 12-bit signed
      immediate decodes back unchanged. */
  lemma DecodeEncodeImmediate(op: Opcode, rd: nat, rn: nat, imm: int)
    requires op in {ADDI, SUBI, ANDI, ORRI} && rd < 32 && rn < 32 && -2048 <= imm < 2048
    ensures Decode(EncodeImmediate(op, rd, rn, imm)) ==
      DEFAULT_INSTRUCTION.(opcode := op, rd := rd, rn := rn, imm := imm)
  {
    var w := EncodeImmediate(op, rd, rn, imm);
    ImmediateWordFields(op, rd, rn, imm);
    assert Decode(w) == DecodeDataProcessingImmediate(w);
    SignExtendOfResidue(imm, 0x800);
  }

  /** The fields of an encoded immediate word. */
  lemma ImmediateWordFields(op: Opcode, rd: nat, rn: nat, imm: int)
    requires op in {ADDI, SUBI, ANDI, ORRI} && rd < 32 && rn < 32 && -2048 <= imm < 2048
    ensures var w := EncodeImmediate(op, rd, rn, imm);
      && ClassField(w) == 1 && ImmOpField(w) == ImmediateOpcodeBits(op)
      && Imm12Field(w) == imm % 0x1000 && Reg5Field(w) == rn && Reg0Field(w) == rd
  {
    ImmediateLayout(EncodeImmediate(op, rd, rn, imm), ImmediateOpcodeBits(op), imm % 0x1000, rn, rd);
  }

  lemma ImmediateLayout(w: u32, f: nat, i: nat, rn: nat, rd: nat)
    requires f < 4 && i < 0x1000 && rn < 32 && rd < 32
    requires w == 0x200_0000 + f * 0x80_0000 + i * 0x400 + rn * 0x20 + rd
    ensures ClassField(w) == 1 && ImmOpField(w) == f && Imm12Field(w) == i
    ensures Reg5Field(w) == rn && Reg0Field(w) == rd
  {
    assert ClassField(w) == 1 by {
      FieldOf(w, 0x200_0000, 8, 0, 1, f * 0x80_0000 + i * 0x400 + rn * 0x20 + rd);
    }
    assert ImmOpField(w) == f by {
      FieldOf(w, 0x80_0000, 4, 1, f, i * 0x400 + rn * 0x20 + rd);
    }
    assert Imm12Field(w) == i by {
      FieldOf(w, 0x400, 0x1000, 8 + 2 * f, i, rn * 0x20 + rd);
    }
    assert Reg5Field(w) == rn by {
      FieldOf(w, 0x20, 32, 0x8000 + f * 0x2000 + i, rn, rd);
    }
    assert Reg0Field(w) == rd by {
      FieldOf(w, 1, 32, 0x10_0000 + f * 0x4_0000 + i * 32 + rn, rd, 0);
    }
  }

  /** ADDI X1, X0, #5 and a 12-bit immediate of all ones. */
  /** A class-3 word with bit 23 set and every other field zero is SUBI. */
  lemma ImmediateClassThreeExample()
    ensures ClassField(0x0680_0000) == 3 && ImmOpField(0x0680_0000) == 1
    ensures Decode(0x0680_0000) == DEFAULT_INSTRUCTION.(opcode := SUBI)
  {}

  lemma ImmediateExamples()
    ensures Decode(0x0200_1401) == DEFAULT_INSTRUCTION.(opcode := ADDI, rd := 1, rn := 0, imm := 5)
    ensures Decode(0x023F_FC00) == DEFAULT_INSTRUCTION.(opcode := ADDI, rd := 0, rn := 0, imm := -1)
  {
    ImmediateLayout(0x0200_1401, 0, 5, 0, 1);
    assert Decode(0x0200_1401) == DecodeDataProcessingImmediate(0x0200_1401);
    ImmediateLayout(0x023F_FC00, 0, 0xFFF, 0, 0);
    assert Decode(0x023F_FC00) == DecodeDataProcessingImmediate(0x023F_FC00);
  }

  // ---------------------------------------------------------------------
  // Load/store class

  /** The load flag (bit 22) and the class bits 25-27 lie inside the
      offset field (bits 10-30). */
  lemma LoadStoreFieldsOverlap(w: u32)
    ensures Offset21Field(w) / 0x1000 % 2 == LoadFlag(w)
    ensures Offset21Field(w) / 0x8000 % 4 == ClassField(w) % 4
  {
    var o := w / 0x400;
    var q, r := o / 0x20_0000, o % 0x20_0000;
    assert o / 0x1000 == q * 0x200 + r / 0x1000 by {
      DivUnique(o, 0x1000, q * 0x200 + r / 0x1000, r % 0x1000);
    }
    assert o / 0x1000 % 2 == r / 0x1000 % 2 by {
      DivUnique(o / 0x1000, 2, q * 0x100 + r / 0x1000 / 2, r / 0x1000 % 2);
    }
    assert o / 0x8000 == q * 0x40 + r / 0x8000 by {
      DivUnique(o, 0x8000, q * 0x40 + r / 0x8000, r % 0x8000);
    }
    assert o / 0x8000 % 4 == r / 0x8000 % 4 by {
      DivUnique(o / 0x8000, 4, q * 0x10 + r / 0x8000 / 4, r / 0x8000 % 4);
    }
    DivDiv(w, 0x400, 0x1000);
    DivDiv(w, 0x400, 0x8000);
    var x := w / 0x200_0000;
    assert x % 8 % 4 == x % 4 by {
      DivUnique(x, 4, 2 * (x / 8) + x % 8 / 4, x % 8 % 4);
    }
  }

  /** The load/store class never yields INVALID; its offset is the
      unscaled signed reading of bits 10-30, within [-2^20, 2^20).
      Because bit 22 is both the load flag and offset bit 12, a decoded
      LDUR always has offset bit 12 set and a STUR never does; because
      bits 25-26 must be 0 for this class, offset bits 15-16 are always 0. */
  lemma LoadStoreFields(w: u32)
    requires ClassField(w) == 0 || ClassField(w) == 4
    ensures var r := Decode(w);
      && (r.opcode == LDUR <==> LoadFlag(w) == 1)
      && (r.opcode == STUR <==> LoadFlag(w) == 0)
      && -0x10_0000 <= r.imm < 0x10_0000
      && r.imm % 0x20_0000 == Offset21Field(w)
      && (r.imm % 0x20_0000 / 0x1000 % 2 == 1 <==> r.opcode == LDUR)
      && r.imm % 0x20_0000 / 0x8000 % 4 == 0
      && r.rd == Reg0Field(w) && r.rn == Reg5Field(w)
  {
    LoadStoreFieldsOverlap(w);
  }

  /** The word for an offset-form access of `imm` bytes off Xn. Only
      offsets whose bits 15-16 are clear can be encoded. */
  function EncodeLoadStore(rt: nat, rn: nat, imm: int): u32
    requires rt < 32 && rn < 32 && -0x10_0000 <= imm < 0x10_0000
    requires imm % 0x20_0000 / 0x8000 % 4 == 0
  {
    (imm % 0x20_0000) * 0x400 + rn * 0x20 + rt
  }

  /** Every encodable offset decodes back unchanged, but whether the word
      is a load or a store is fixed by bit 12 of the offset itself. */
  lemma DecodeEncodeLoadStore(rt: nat, rn: nat, imm: int)
    requires rt < 32 && rn < 32 && -0x10_0000 <= imm < 0x10_0000
    requires imm % 0x20_0000 / 0x8000 % 4 == 0
    ensures Decode(EncodeLoadStore(rt, rn, imm)) ==
      DEFAULT_INSTRUCTION.(opcode := if imm % 0x20_0000 / 0x1000 % 2 == 1 then LDUR else STUR,
                           rd := rt, rn := rn, imm := imm)
  {
    var w := EncodeLoadStore(rt, rn, imm);
    LoadStoreWordFields(rt, rn, imm);
    assert Decode(w) == DecodeLoadStore(w);
    SignExtendOfResidue(imm, 0x10_0000);
  }

  /** The fields of an encoded load/store word. */
  lemma LoadStoreWordFields(rt: nat, rn: nat, imm: int)
    requires rt < 32 && rn < 32 && -0x10_0000 <= imm < 0x10_0000
    requires imm % 0x20_0000 / 0x8000 % 4 == 0
    ensures var w := EncodeLoadStore(rt, rn, imm);
      && Offset21Field(w) == imm % 0x20_0000 && Reg5Field(w) == rn && Reg0Field(w) == rt
      && (ClassField(w) == 0 || ClassField(w) == 4)
      && LoadFlag(w) == imm % 0x20_0000 / 0x1000 % 2
  {
    LoadStoreLayout(EncodeLoadStore(rt, rn, imm), imm % 0x20_0000, rn, rt);
  }

  lemma LoadStoreLayout(w: u32, o: nat, rn: nat, rt: nat)
    requires o < 0x20_0000 && rn < 32 && rt < 32
    requires w == o * 0x400 + rn * 0x20 + rt
    requires o / 0x8000 % 4 == 0
    ensures Offset21Field(w) == o && Reg5Field(w) == rn && Reg0Field(w) == rt
    ensures ClassField(w) == 0 || ClassField(w) == 4
    ensures LoadFlag(w) == o / 0x1000 % 2
  {
    assert Offset21Field(w) == o by {
      FieldOf(w, 0x400, 0x20_0000, 0, o, rn * 0x20 + rt);
    }
    assert Reg5Field(w) == rn by {
      FieldOf(w, 0x20, 32, o, rn, rt);
    }
    assert Reg0Field(w) == rt by {
      FieldOf(w, 1, 32, o * 32 + rn, rt, 0);
    }
    LoadStoreClassBits(w);
  }

  /** With offset bits 15-16 clear, the class field is 0 or 4. */
  lemma LoadStoreClassBits(w: u32)
    requires Offset21Field(w) / 0x8000 % 4 == 0
    ensures ClassField(w) == 0 || ClassField(w) == 4
    ensures LoadFlag(w) == Offset21Field(w) / 0x1000 % 2
  {
    LoadStoreFieldsOverlap(w);
    var c := ClassField(w);
    assert c % 4 == 0 && c < 8;
    DivUnique(c, 4, c / 4, 0);
  }

  // ---------------------------------------------------------------------
  // Branch class

  /** Through Decode the branch sub-opcode always ends in binary 10, so
      only BR (0x2) and CBZ/CBNZ (0x26) come out; every other value of
      bits 26-31 gives INVALID. */
  lemma BranchClassForms(w: u32)
    requires ClassField(w) == 5
    ensures BranchOpField(w) % 4 == 2
    ensures Decode(w).opcode == BR <==> BranchOpField(w) == 0x2
    ensures Decode(w).opcode in {CBZ, CBNZ} <==> BranchOpField(w) == 0x26
    ensures Decode(w).opcode in {BR, CBZ, CBNZ, INVALID}
  {
    BranchOpLowBits(w);
    assert Decode(w) == DecodeBranch(w);
  }

  /** The canonical BR word, with bits 5-25 zero, decodes back to BR Xn. */
  lemma DecodeEncodeBranchRegister(rn: nat)
    requires rn < 32
    ensures Decode(0xA00_0000 + rn) == DEFAULT_INSTRUCTION.(opcode := BR, rn := rn)
  {
    var w := 0xA00_0000 + rn;
    FieldOf(w, 0x200_0000, 8, 0, 5, rn);
    FieldOf(w, 0x400_0000, 0x40, 0, 2, 0x200_0000 + rn);
    FieldOf(w, 1, 32, 0x50_0000, rn, 0);
  }

  /** Every word Decode reads as BR names the register in bits 0-4 and
      sets no other field, whatever bits 5-25 hold. */
  lemma BranchRegisterField(w: u32)
    ensures Decode(w).opcode == BR ==> Decode(w) == DEFAULT_INSTRUCTION.(opcode := BR, rn := Reg0Field(w))
  {
    if ClassField(w) == 5 {
      BranchClassForms(w);
    }
  }

  /** A compare-and-branch offset is a multiple of 4 within
      [-2^20, 2^20); bit 24 chooses CBNZ; the tested register is bits 0-4. */
  lemma CompareBranchFields(w: u32)
    requires Decode(w).opcode in {CBZ, CBNZ}
    ensures var r := Decode(w);
      && ClassField(w) == 5 && BranchOpField(w) == 0x26
      && r.imm % 4 == 0 && -0x10_0000 <= r.imm < 0x10_0000
      && (r.opcode == CBNZ <==> CbnzFlag(w) == 1)
      && r.rd == Reg0Field(w)
  {
    CompareBranchClass(w);
    assert Decode(w) == DecodeBranch(w);
    CompareBranchWord(w);
    var s := SignExtend(Offset19Field(w), 0x4_0000);
    DivUnique(4 * s, 4, s, 0);
  }

  /** DecodeBranch on sub-opcode 0x26. */
  lemma CompareBranchWord(w: u32)
    requires BranchOpField(w) == 0x26
    ensures DecodeBranch(w) == DEFAULT_INSTRUCTION.(opcode := if CbnzFlag(w) == 1 then CBNZ else CBZ,
                                                    rd := Reg0Field(w),
                                                    imm := 4 * SignExtend(Offset19Field(w), 0x4_0000))
  {}

  /** Only the branch class with sub-opcode 0x26 yields CBZ or CBNZ. */
  lemma CompareBranchClass(w: u32)
    ensures Decode(w).opcode in {CBZ, CBNZ} <==> ClassField(w) == 5 && BranchOpField(w) == 0x26
  {
    if ClassField(w) == 5 {
      BranchClassForms(w);
    }
  }

  /** The word for CBZ/CBNZ Xt, #imm. */
  function EncodeCompareBranch(nonzero: bool, rt: nat, imm: int): u32
    requires rt < 32 && imm % 4 == 0 && -0x10_0000 <= imm < 0x10_0000
  {
    0x9A00_0000 + (if nonzero then 0x100_0000 else 0) + (imm / 4 % 0x8_0000) * 0x20 + rt
  }

  /** Every compare-and-branch decodes back unchanged. */
  lemma DecodeEncodeCompareBranch(nonzero: bool, rt: nat, imm: int)
    requires rt < 32 && imm % 4 == 0 && -0x10_0000 <= imm < 0x10_0000
    ensures Decode(EncodeCompareBranch(nonzero, rt, imm)) ==
      DEFAULT_INSTRUCTION.(opcode := if nonzero then CBNZ else CBZ, rd := rt, imm := imm)
  {
    var w := EncodeCompareBranch(nonzero, rt, imm);
    var z, o := if nonzero then 1 else 0, imm / 4 % 0x8_0000;
    FieldOf(w, 0x200_0000, 8, 9, 5, z * 0x100_0000 + o * 0x20 + rt);
    FieldOf(w, 0x400_0000, 0x40, 0, 0x26, 0x200_0000 + z * 0x100_0000 + o * 0x20 + rt);
    FieldOf(w, 0x100_0000, 2, 77, z, o * 0x20 + rt);
    FieldOf(w, 0x20, 0x8_0000, 154 + z, o, rt);
    FieldOf(w, 1, 32, 0x4D0_0000 + z * 0x8_0000 + o, rt, 0);
    assert ClassField(w) == 5 && BranchOpField(w) == 0x26 && CbnzFlag(w) == z;
    assert Offset19Field(w) == o && Reg0Field(w) == rt;
    assert SignExtend(o, 0x4_0000) == imm / 4;
  }

  // ---------------------------------------------------------------------
  // DecodeBranch called directly

  /** The word for B/BL #imm as DecodeBranch reads it. */
  function EncodeBranchImmediate(link: bool, imm: int): u32
    requires imm % 4 == 0 && -0x800_0000 <= imm < 0x800_0000
  {
    (if link then 0x400_0000 else 0) + imm / 4 % 0x400_0000
  }

  /** B and BL offsets round-trip through DecodeBranch: 26 signed bits
      scaled by 4. Such words have bits 26-27 = 00, so Decode itself
      never routes them to DecodeBranch. */
  lemma DecodeBranchImmediate(link: bool, imm: int)
    requires imm % 4 == 0 && -0x800_0000 <= imm < 0x800_0000
    ensures DecodeBranch(EncodeBranchImmediate(link, imm)) ==
      DEFAULT_INSTRUCTION.(opcode := if link then BL else B, imm := imm)
    ensures ClassField(EncodeBranchImmediate(link, imm)) != 5
  {
    var w := EncodeBranchImmediate(link, imm);
    var l, o := if link then 1 else 0, imm / 4 % 0x400_0000;
    assert BranchOpField(w) == l by {
      FieldOf(w, 0x400_0000, 0x40, 0, l, o);
    }
    assert Offset26Field(w) == o by {
      FieldOf(w, 1, 0x400_0000, l, o, 0);
    }
    assert ClassField(w) == 2 * l + o / 0x200_0000 by {
      FieldOf(w, 0x200_0000, 8, 0, 2 * l + o / 0x200_0000, o % 0x200_0000);
    }
    SignExtendOfResidue(imm / 4, 0x200_0000);
  }

  /** The canonical BR, BLR and RET words, with bits 5-25 zero, round-trip
      through DecodeBranch; RET with register field 0 means X30. */
  lemma DecodeBranchRegisterForms(rn: nat)
    requires rn < 32
    ensures DecodeBranch(0x800_0000 + rn) == DEFAULT_INSTRUCTION.(opcode := BR, rn := rn)
    ensures DecodeBranch(0xC00_0000 + rn) == DEFAULT_INSTRUCTION.(opcode := BLR, rn := rn)
    ensures DecodeBranch(0x1000_0000 + rn) ==
      DEFAULT_INSTRUCTION.(opcode := RET, rn := if rn == 0 then 30 else rn)
  {
    FieldOf(0x800_0000 + rn, 0x400_0000, 0x40, 0, 2, rn);
    FieldOf(0xC00_0000 + rn, 0x400_0000, 0x40, 0, 3, rn);
    FieldOf(0x1000_0000 + rn, 0x400_0000, 0x40, 0, 4, rn);
  }

  /** For every word, sub-opcodes 2, 3 and 4 are exactly BR, BLR and RET,
      each reading its register from bits 0-4 (0 meaning X30 for RET) and
      setting no other field, whatever bits 5-25 hold. */
  lemma BranchRegisterFields(w: u32)
    ensures DecodeBranch(w).opcode == BR <==> BranchOpField(w) == 2
    ensures DecodeBranch(w).opcode == BLR <==> BranchOpField(w) == 3
    ensures DecodeBranch(w).opcode == RET <==> BranchOpField(w) == 4
    ensures BranchOpField(w) == 2 ==> DecodeBranch(w) == DEFAULT_INSTRUCTION.(opcode := BR, rn := Reg0Field(w))
    ensures BranchOpField(w) == 3 ==> DecodeBranch(w) == DEFAULT_INSTRUCTION.(opcode := BLR, rn := Reg0Field(w))
    ensures BranchOpField(w) == 4 ==>
      DecodeBranch(w) == DEFAULT_INSTRUCTION.(opcode := RET, rn := if Reg0Field(w) == 0 then 30 else Reg0Field(w))
  {}

  /** B and BL offsets are multiples of 4 within [-2^27, 2^27). */
  lemma BranchOffsetFields(w: u32)
    ensures var r := DecodeBranch(w);
      r.opcode in {B, BL} ==> r.imm % 4 == 0 && -0x800_0000 <= r.imm < 0x800_0000
  {
    var r := DecodeBranch(w);
    if BranchOpField(w) <= 1 {
      var s := SignExtend(Offset26Field(w), 0x200_0000);
      assert r.imm == 4 * s;
      DivUnique(4 * s, 4, s, 0);
    }
  }

  /** RET's register is bits 0-4, except that 0 there means X30, so a
      decoded RET never targets X0. */
  lemma ReturnRegisterField(w: u32)
    requires DecodeBranch(w).opcode == RET
    ensures BranchOpField(w) == 4
    ensures var r := DecodeBranch(w);
      && 1 <= r.rn < 32
      && (Reg0Field(w) == 0 ==> r.rn == 30)
      && (Reg0Field(w) != 0 ==> r.rn == Reg0Field(w))
  {}

  /** Sub-opcodes other than 0-4 and 0x24-0x27 give the default record;
      every other result is in the branch or compare-and-branch group. */
  lemma BranchUnknownIsDefault(w: u32)
    ensures var r := DecodeBranch(w);
      && (BranchOpField(w) > 4 && BranchOpField(w) / 4 != 9 ==> r == DEFAULT_INSTRUCTION)
      && (r.opcode != INVALID ==> GroupOf(r.opcode) == Branch || GroupOf(r.opcode) == CompareBranch)
  {}
}
