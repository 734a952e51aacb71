/** The decoded-instruction record shared by the decoder, the printer and
    the CPU: closed enumerations of opcodes, addressing modes and
    condition codes, the field defaults, and the three classifiers. */
module Instructions {
  import opened Words

  /** The LEGv8 subset, in declaration order. */
  datatype Opcode =
    | ADD | SUB | AND | ORR | EOR             // data processing, register
    | ADDI | SUBI | ANDI | ORRI | EORI        // data processing, immediate
    | LDUR | STUR                             // load/store
    | B | BL | BR | BLR | RET                 // branch
    | CBZ | CBNZ                              // compare and branch
    | INVALID

  datatype AddrMode = OFFSET | PRE_INDEX | POST_INDEX | LITERAL

  datatype Condition =
    | EQ | NE | CS | CC | MI | PL | VS | VC
    | HI | LS | GE | LT | GT | LE | AL | NV

  /** One decoded instruction. Register fields and the shift are C++
      uint8_t, the immediate is int64_t. */
  datatype Instruction = Instruction(
    opcode: Opcode,
    cond: Condition,
    rd: u8, rn: u8, rm: u8, ra: u8,
    imm: i64,
    shift: u8,
    addrMode: AddrMode,
    wback: bool,
    rawText: string)
  {
    /** The seven control-transfer opcodes: never INVALID, never a
        memory operation. */
    predicate IsBranch(): (b: bool)
      ensures b ==> opcode != INVALID && !IsMemoryOp()
    {
      opcode == B || opcode == BL || opcode == BR || opcode == BLR ||
      opcode == RET || opcode == CBZ || opcode == CBNZ
    }

    /** The two memory opcodes: never INVALID. */
    predicate IsMemoryOp(): (b: bool)
      ensures b ==> opcode != INVALID
    {
      opcode == LDUR || opcode == STUR
    }

    /** Conditional exactly when making the instruction unconditional
        (condition AL) would change it. */
    predicate IsConditional(): (b: bool)
      ensures b <==> this != this.(cond := AL)
    {
      cond != AL
    }
  }

  /** A default-initialised Instruction: every member initialiser of the struct. */
  const DEFAULT_INSTRUCTION: Instruction :=
    Instruction(INVALID, AL, 0, 0, 0, 0, 0, 0, OFFSET, false, "")

  const ALL_OPCODES: seq<Opcode> :=
    [ADD, SUB, AND, ORR, EOR, ADDI, SUBI, ANDI, ORRI, EORI,
     LDUR, STUR, B, BL, BR, BLR, RET, CBZ, CBNZ, INVALID]

  const ALL_CONDITIONS: seq<Condition> :=
    [EQ, NE, CS, CC, MI, PL, VS, VC, HI, LS, GE, LT, GT, LE, AL, NV]

  /** The groups the Opcode enumeration is laid out in. */
  datatype Group = DataRegister | DataImmediate | LoadStore | Branch | CompareBranch | Unknown

  function GroupOf(op: Opcode): Group {
    match op
    case ADD | SUB | AND | ORR | EOR => DataRegister
    case ADDI | SUBI | ANDI | ORRI | EORI => DataImmediate
    case LDUR | STUR => LoadStore
    case B | BL | BR | BLR | RET => Branch
    case CBZ | CBNZ => CompareBranch
    case INVALID => Unknown
  }

  /** The opcode enumeration is closed: 20 distinct variants, and every
      opcode is one of them. */
  lemma OpcodesClosed(op: Opcode)
    ensures op in ALL_OPCODES
    ensures |ALL_OPCODES| == 20
    ensures forall i, j :: 0 <= i < j < |ALL_OPCODES| ==> ALL_OPCODES[i] != ALL_OPCODES[j]
  {}

  /** The condition enumeration is closed: 16 distinct variants. */
  lemma ConditionsClosed(c: Condition)
    ensures c in ALL_CONDITIONS
    ensures |ALL_CONDITIONS| == 16
    ensures forall i, j :: 0 <= i < j < |ALL_CONDITIONS| ==> ALL_CONDITIONS[i] != ALL_CONDITIONS[j]
  {}

  /** The default record: opcode INVALID, unconditional, all numbers zero,
      plain offset addressing, no writeback, no text. */
  lemma DefaultFields()
    ensures DEFAULT_INSTRUCTION.opcode == INVALID && !DEFAULT_INSTRUCTION.IsConditional()
    ensures DEFAULT_INSTRUCTION.rd == DEFAULT_INSTRUCTION.rn == DEFAULT_INSTRUCTION.rm == DEFAULT_INSTRUCTION.ra == 0
    ensures DEFAULT_INSTRUCTION.imm == 0 && DEFAULT_INSTRUCTION.shift == 0
    ensures DEFAULT_INSTRUCTION.addrMode == OFFSET && !DEFAULT_INSTRUCTION.wback
    ensures !DEFAULT_INSTRUCTION.IsBranch() && !DEFAULT_INSTRUCTION.IsMemoryOp()
  {}

  /** is_conditional holds exactly when the condition is not AL. */
  lemma ConditionalIffNotAlways(i: Instruction)
    ensures i.IsConditional() <==> i.cond != AL
    ensures i.(cond := AL).IsConditional() == false
  {}

  /** The classifiers agree with the enumeration's grouping: branches are
      the branch and compare-and-branch groups, memory operations the
      load/store group; no opcode is both and INVALID is neither. */
  lemma ClassifiersFollowGroups(i: Instruction)
    ensures i.IsBranch() <==> GroupOf(i.opcode) == Branch || GroupOf(i.opcode) == CompareBranch
    ensures i.IsMemoryOp() <==> GroupOf(i.opcode) == LoadStore
    ensures !(i.IsBranch() && i.IsMemoryOp())
    ensures i.opcode == INVALID ==> !i.IsBranch() && !i.IsMemoryOp()
  {}
}
