/** The debugging text of an instruction: mnemonic, optional condition
    suffix, operands in the form the opcode calls for, and an optional
    trailing comment holding the raw assembly text. Each part comes with
    the reading that recovers what it printed. */
module InstructionText {
  import opened Words
  import opened Instructions

  // ---------------------------------------------------------------------
  // Mnemonics

  /** The mnemonic of every opcode: upper-case letters only. */
  function Mnemonic(op: Opcode): (s: string)
    ensures 1 <= |s| <= 7
    ensures forall k :: 0 <= k < |s| ==> 'A' <= s[k] <= 'Z'
  {
    match op
    case ADD => "ADD"
    case SUB => "SUB"
    case AND => "AND"
    case ORR => "ORR"
    case EOR => "EOR"
    case ADDI => "ADDI"
    case SUBI => "SUBI"
    case ANDI => "ANDI"
    case ORRI => "ORRI"
    case EORI => "EORI"
    case LDUR => "LDUR"
    case STUR => "STUR"
    case B => "B"
    case BL => "BL"
    case BR => "BR"
    case BLR => "BLR"
    case RET => "RET"
    case CBZ => "CBZ"
    case CBNZ => "CBNZ"
    case INVALID => "INVALID"
  }

  /** The opcode a mnemonic names, if any. */
  function ParseMnemonic(s: string): Option<Opcode> {
    if s == "ADD" then Some(ADD)
    else if s == "SUB" then Some(SUB)
    else if s == "AND" then Some(AND)
    else if s == "ORR" then Some(ORR)
    else if s == "EOR" then Some(EOR)
    else if s == "ADDI" then Some(ADDI)
    else if s == "SUBI" then Some(SUBI)
    else if s == "ANDI" then Some(ANDI)
    else if s == "ORRI" then Some(ORRI)
    else if s == "EORI" then Some(EORI)
    else if s == "LDUR" then Some(LDUR)
    else if s == "STUR" then Some(STUR)
    else if s == "B" then Some(B)
    else if s == "BL" then Some(BL)
    else if s == "BR" then Some(BR)
    else if s == "BLR" then Some(BLR)
    else if s == "RET" then Some(RET)
    else if s == "CBZ" then Some(CBZ)
    else if s == "CBNZ" then Some(CBNZ)
    else if s == "INVALID" then Some(INVALID)
    else None
  }

  /** Every opcode has its own mnemonic: reading it back gives the opcode. */
  lemma MnemonicRoundTrip(op: Opcode)
    ensures ParseMnemonic(Mnemonic(op)) == Some(op)
  {}

  /** No two opcodes print the same mnemonic. */
  lemma MnemonicInjective(a: Opcode, b: Opcode)
    ensures Mnemonic(a) == Mnemonic(b) ==> a == b
  {
    MnemonicRoundTrip(a);
    MnemonicRoundTrip(b);
  }

  // ---------------------------------------------------------------------
  // Condition suffixes

  /** The suffix of a condition: ".XX", and nothing for AL. */
  function ConditionSuffix(c: Condition): (s: string)
    ensures s == "" <==> c == AL
    ensures s != "" ==> |s| == 3 && s[0] == '.'
  {
    match c
    case EQ => ".EQ"
    case NE => ".NE"
    case CS => ".CS"
    case CC => ".CC"
    case MI => ".MI"
    case PL => ".PL"
    case VS => ".VS"
    case VC => ".VC"
    case HI => ".HI"
    case LS => ".LS"
    case GE => ".GE"
    case LT => ".LT"
    case GT => ".GT"
    case LE => ".LE"
    case AL => ""
    case NV => ".NV"
  }

  /** The condition a two-letter code names, if any. */
  function ParseCondition(s: string): Option<Condition> {
    if s == "EQ" then Some(EQ)
    else if s == "NE" then Some(NE)
    else if s == "CS" then Some(CS)
    else if s == "CC" then Some(CC)
    else if s == "MI" then Some(MI)
    else if s == "PL" then Some(PL)
    else if s == "VS" then Some(VS)
    else if s == "VC" then Some(VC)
    else if s == "HI" then Some(HI)
    else if s == "LS" then Some(LS)
    else if s == "GE" then Some(GE)
    else if s == "LT" then Some(LT)
    else if s == "GT" then Some(GT)
    else if s == "LE" then Some(LE)
    else if s == "NV" then Some(NV)
    else None
  }

  /** Every condition other than AL prints a suffix that reads back as it. */
  lemma ConditionRoundTrip(c: Condition)
    requires c != AL
    ensures ParseCondition(ConditionSuffix(c)[1..]) == Some(c)
  {}

  // ---------------------------------------------------------------------
  // Decimal numbers, as an output stream prints them

  function DigitChar(d: nat): (c: char)
    requires d < 10
    ensures '0' <= c <= '9'
  {
    "0123456789"[d]
  }

  predicate IsDigit(c: char) {
    '0' <= c <= '9'
  }

  /** The decimal digits of n, most significant first, without leading zeros. */
  function NatToDecimal(n: nat): (s: string)
    ensures 1 <= |s|
    ensures forall k :: 0 <= k < |s| ==> IsDigit(s[k])
    ensures s[0] == '0' ==> n == 0
    decreases n
  {
    if n < 10 then [DigitChar(n)]
    else NatToDecimal(n / 10) + [DigitChar(n % 10)]
  }

  /** A signed 64-bit value: a minus sign before the magnitude when negative. */
  function IntToDecimal(x: int): (s: string)
    ensures 1 <= |s|
    ensures s[0] == '-' <==> x < 0
    ensures forall k :: 0 < k < |s| ==> IsDigit(s[k])
    ensures ';' !in s && '#' !in s
  {
    var digits := NatToDecimal(if x < 0 then -x else x);
    DigitsHaveNo(digits, ';');
    DigitsHaveNo(digits, '#');
    if x < 0 then "-" + digits else digits
  }

  /** The value a string of digits denotes. */
  function DecimalValue(s: string): (n: nat)
    requires forall k :: 0 <= k < |s| ==> IsDigit(s[k])
  {
    if s == [] then 0
    else 10 * DecimalValue(s[..|s| - 1]) + DigitOf(s[|s| - 1])
  }

  function DigitOf(c: char): nat
    requires IsDigit(c)
  {
    c as int - '0' as int
  }

  /** The value a possibly signed string of digits denotes. */
  function SignedValue(s: string): int
    requires 1 <= |s| && forall k :: 0 < k < |s| ==> IsDigit(s[k])
    requires IsDigit(s[0]) || s[0] == '-'
  {
    if s[0] == '-' then -(DecimalValue(s[1..]) as int) else DecimalValue(s)
  }

  lemma DigitValue(d: nat)
    requires d < 10
    ensures DigitOf(DigitChar(d)) == d
  {}

  /** Printing a natural number and reading its digits back gives it again. */
  lemma {:induction false} DecimalRoundTrip(n: nat)
    ensures DecimalValue(NatToDecimal(n)) == n
    decreases n
  {
    var s := NatToDecimal(n);
    if n < 10 {
      DigitValue(n);
      assert s[..|s| - 1] == [];
    } else {
      DecimalRoundTrip(n / 10);
      DigitValue(n % 10);
      assert s[..|s| - 1] == NatToDecimal(n / 10);
    }
  }

  /** The same for the signed immediates. */
  lemma SignedRoundTrip(x: int)
    ensures SignedValue(IntToDecimal(x)) == x
  {
    if x < 0 {
      DecimalRoundTrip(-x);
      assert IntToDecimal(x)[1..] == NatToDecimal(-x);
    } else {
      DecimalRoundTrip(x);
    }
  }

  // ---------------------------------------------------------------------
  // Operands

  /** "X" followed by the register number. */
  function RegisterName(r: nat): (s: string)
    ensures 2 <= |s| && s[0] == 'X'
    ensures ';' !in s && '#' !in s
  {
    var digits := NatToDecimal(r);
    DigitsHaveNo(digits, ';');
    DigitsHaveNo(digits, '#');
    "X" + digits
  }

  /** The operand part, in the layout each opcode group prints. It is empty
      exactly for RET with the default link register X30; otherwise it
      starts with a space. It never contains a ';'. */
  function OperandText(i: Instruction): (s: string)
    ensures s == "" <==> i.opcode == RET && i.rn == 30
    ensures s != "" ==> s[0] == ' '
    ensures ';' !in s
  {
    match i.opcode
    case ADD | SUB | AND | ORR | EOR => RegisterOperands(i)
    case ADDI | SUBI | ANDI | ORRI | EORI =>
      " " + RegisterName(i.rd) + ", " + RegisterName(i.rn) + ", #" + IntToDecimal(i.imm)
    case LDUR | STUR => MemoryOperands(i.rd, i.rn, i.imm)
    case B | BL => " #" + IntToDecimal(i.imm)
    case BR | BLR => " " + RegisterName(i.rn)
    case RET => if i.rn != 30 then " " + RegisterName(i.rn) else ""
    case CBZ | CBNZ => " " + RegisterName(i.rd) + ", #" + IntToDecimal(i.imm)
    case INVALID => " <invalid>"
  }

  /** "Xd, Xn, Xm", then ", LSL #n" when the shift is non-zero. */
  function RegisterOperands(i: Instruction): (s: string)
    ensures 1 <= |s| && s[0] == ' ' && ';' !in s
  {
    var digits := NatToDecimal(i.shift);
    DigitsHaveNo(digits, ';');
    " " + RegisterName(i.rd) + ", " + RegisterName(i.rn) + ", " + RegisterName(i.rm)
    + (if i.shift > 0 then ", LSL #" + digits else "")
  }

  /** "Xt, [Xn", then ", #imm" when the offset is non-zero, then "]". */
  function MemoryOperands(rt: nat, rn: nat, imm: int): (s: string)
    ensures 1 <= |s| && s[0] == ' ' && ';' !in s
  {
    " " + RegisterName(rt) + ", [" + RegisterName(rn) + OffsetText(imm)
  }

  /** The closing part of a memory operand: the offset only when non-zero. */
  function OffsetText(imm: int): (s: string)
    ensures ';' !in s
  {
    if imm != 0 then ", #" + IntToDecimal(imm) + "]" else "]"
  }

  /** The register forms print ", LSL #n" exactly when the shift is
      non-zero; an immediate sign '#' appears nowhere else. */
  lemma ShiftShownIffNonZero(i: Instruction)
    requires i.opcode in {ADD, SUB, AND, ORR, EOR}
    ensures '#' in OperandText(i) <==> i.shift > 0
    ensures i.shift > 0 ==> Suffix(", LSL #" + NatToDecimal(i.shift), OperandText(i))
  {
    var head := " " + RegisterName(i.rd) + ", " + RegisterName(i.rn) + ", " + RegisterName(i.rm);
    var tail := if i.shift > 0 then ", LSL #" + NatToDecimal(i.shift) else "";
    assert OperandText(i) == RegisterOperands(i) == head + tail;
    assert '#' !in head;
    SuffixOfConcat(head, tail);
  }

  /** LDUR and STUR omit the offset when it is zero; otherwise the offset
      is the last operand inside the brackets. */
  lemma OffsetShownIffNonZero(i: Instruction)
    requires i.IsMemoryOp()
    ensures '#' in OperandText(i) <==> i.imm != 0
    ensures i.imm != 0 ==> Suffix(", #" + IntToDecimal(i.imm) + "]", OperandText(i))
    ensures i.imm == 0 ==> Suffix(", [" + RegisterName(i.rn) + "]", OperandText(i))
  {
    assert OperandText(i) == MemoryOperands(i.rd, i.rn, i.imm);
    MemoryOperandsShape(i.rd, i.rn, i.imm);
  }

  lemma MemoryOperandsShape(rt: nat, rn: nat, imm: int)
    ensures '#' in MemoryOperands(rt, rn, imm) <==> imm != 0
    ensures imm != 0 ==> Suffix(", #" + IntToDecimal(imm) + "]", MemoryOperands(rt, rn, imm))
    ensures imm == 0 ==> Suffix(", [" + RegisterName(rn) + "]", MemoryOperands(rt, rn, imm))
  {
    var head := " " + RegisterName(rt) + ", [" + RegisterName(rn);
    var tail := OffsetText(imm);
    assert '#' !in head;
    SuffixOfConcat(head, tail);
    if imm != 0 {
      assert tail[2] == '#';
    } else {
      var first := " " + RegisterName(rt);
      assert head + tail == first + (", [" + RegisterName(rn) + "]");
      SuffixOfConcat(first, ", [" + RegisterName(rn) + "]");
    }
  }

  lemma SuffixOfConcat(a: string, b: string)
    ensures Suffix(b, a + b)
  {
    assert (a + b)[|a|..] == b;
  }

  /** RET prints its register unless it is the default X30. */
  lemma ReturnRegisterShown(i: Instruction)
    requires i.opcode == RET
    ensures OperandText(i) == "" <==> i.rn == 30
    ensures i.rn != 30 ==> OperandText(i) == " " + RegisterName(i.rn)
  {}

  predicate Suffix(t: string, s: string) {
    |t| <= |s| && s[|s| - |t|..] == t
  }

  lemma DigitsHaveNo(s: string, c: char)
    requires forall k :: 0 <= k < |s| ==> IsDigit(s[k])
    requires !IsDigit(c)
    ensures c !in s
  {}

  // ---------------------------------------------------------------------
  // The whole line

  /** The condition part: the suffix when the instruction is conditional. */
  function ConditionText(c: Condition): string {
    if c != AL then ConditionSuffix(c) else ""
  }

  /** The trailing comment: " ; " and the raw text, when there is any. */
  function RawTextAnnotation(i: Instruction): (s: string)
    ensures s == [] || s[0] == ' '
  {
    if i.rawText != "" then " ; " + i.rawText else ""
  }

  /** The debugging text of an instruction; it starts with the mnemonic. */
  function ToString(i: Instruction): (s: string)
    ensures |Mnemonic(i.opcode)| <= |s| && s[..|Mnemonic(i.opcode)|] == Mnemonic(i.opcode)
  {
    Mnemonic(i.opcode) + ConditionText(i.cond) + OperandText(i) + RawTextAnnotation(i)
  }

  /** The text up to the first space or dot. */
  function LeadingToken(s: string): (t: string)
    ensures |t| <= |s| && t == s[..|t|]
  {
    if s == [] || s[0] == ' ' || s[0] == '.' then []
    else [s[0]] + LeadingToken(s[1..])
  }

  lemma {:induction false} LeadingTokenOfWord(a: string, b: string)
    requires forall k :: 0 <= k < |a| ==> a[k] != ' ' && a[k] != '.'
    requires b == [] || b[0] == ' ' || b[0] == '.'
    ensures LeadingToken(a + b) == a
    decreases |a|
  {
    if a == [] {
      assert a + b == b;
    } else {
      assert (a + b)[1..] == a[1..] + b;
      LeadingTokenOfWord(a[1..], b);
    }
  }

  /** The opcode can be read back from the first word of the text, whatever
      the other fields hold. */
  lemma OpcodeRecoverable(i: Instruction)
    ensures ParseMnemonic(LeadingToken(ToString(i))) == Some(i.opcode)
  {
    MnemonicLeads(i.opcode, i.cond, OperandText(i), RawTextAnnotation(i));
    MnemonicRoundTrip(i.opcode);
  }

  /** The mnemonic is the first word of "mnemonic, condition text,
      operands, comment" when operands and comment are each empty or start
      with a space. */
  lemma MnemonicLeads(op: Opcode, c: Condition, o: string, r: string)
    requires o == [] || o[0] == ' '
    requires r == [] || r[0] == ' '
    ensures LeadingToken(Mnemonic(op) + ConditionText(c) + o + r) == Mnemonic(op)
  {
    var m, cond := Mnemonic(op), ConditionText(c);
    var rest := cond + o + r;
    assert m + cond + o + r == m + rest;
    if cond != [] {
      assert rest[0] == cond[0];
    } else if o != [] {
      assert rest[0] == o[0];
    } else {
      assert rest == r;
    }
    LeadingTokenOfWord(m, rest);
  }

  /** The condition whose suffix starts at position at of a line, if any. */
  function ConditionAt(s: string, at: nat): Option<Condition> {
    if at + 3 <= |s| && s[at] == '.' then ParseCondition(s[at + 1..at + 3]) else None
  }

  /** A dot follows the mnemonic exactly when the instruction is
      conditional, and the suffix there reads back as the condition. */
  lemma ConditionRecoverable(i: Instruction)
    ensures var s, m := ToString(i), |Mnemonic(i.opcode)|;
      && (i.IsConditional() <==> m < |s| && s[m] == '.')
      && ConditionAt(s, m) == (if i.IsConditional() then Some(i.cond) else None)
  {
    DotMarksCondition(Mnemonic(i.opcode), i.cond, OperandText(i), RawTextAnnotation(i));
  }

  /** In "mnemonic, condition text, operands, comment", where operands and
      comment are each empty or start with a space, a dot right after the
      mnemonic marks a condition. */
  lemma DotMarksCondition(m: string, c: Condition, o: string, r: string)
    requires o == [] || o[0] == ' '
    requires r == [] || r[0] == ' '
    ensures var s := m + ConditionText(c) + o + r;
      && (c != AL <==> |m| < |s| && s[|m|] == '.')
      && ConditionAt(s, |m|) == (if c != AL then Some(c) else None)
  {
    var rest := o + r;
    assert m + ConditionText(c) + o + r == m + ConditionText(c) + rest;
    if o != [] {
      assert rest[0] == o[0];
    } else {
      assert rest == r;
    }
    if c != AL {
      ConditionLetters(m, c, rest);
    } else {
      NoDotAfter(m, rest);
    }
  }

  /** A condition suffix between two strings is found at a fixed offset. */
  lemma ConditionLetters(m: string, c: Condition, rest: string)
    requires c != AL
    ensures var s := m + ConditionSuffix(c) + rest;
      |m| + 3 <= |s| && s[|m|] == '.' && ParseCondition(s[|m| + 1..|m| + 3]) == Some(c)
  {
    var suffix := ConditionSuffix(c);
    var s := m + suffix + rest;
    ConditionRoundTrip(c);
    assert s[|m|..|m| + 3] == suffix;
    assert s[|m| + 1..|m| + 3] == suffix[1..];
  }

  lemma NoDotAfter(m: string, rest: string)
    requires rest == [] || rest[0] == ' '
    ensures var s := m + "" + rest; !(|m| < |s| && s[|m|] == '.')
  {
    var s := m + "" + rest;
    if |m| < |s| {
      assert s[|m|] == rest[0];
    }
  }

  /** The raw text is appended after " ; " when there is any; without it
      the line holds no ';' at all. */
  lemma RawTextShown(i: Instruction)
    ensures i.rawText == "" ==> ';' !in ToString(i)
    ensures i.rawText != "" ==> Suffix(" ; " + i.rawText, ToString(i))
  {
    var m := Mnemonic(i.opcode);
    var line := m + ConditionText(i.cond) + OperandText(i);
    assert ToString(i) == line + RawTextAnnotation(i);
    if i.rawText == "" {
      assert ';' !in m;
      assert ';' !in ConditionText(i.cond) by {
        if i.IsConditional() {
          ConditionRoundTrip(i.cond);
        }
      }
      assert ToString(i) == line;
    } else {
      SuffixOfConcat(line, " ; " + i.rawText);
    }
  }
}
