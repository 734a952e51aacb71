/** The register file: 31 general registers X0-X30, the zero register
    XZR, the stack pointer and the program counter, each a 64-bit slot of
    one fixed array. */
module RegisterFile {
  import opened Words

  const NUM_REGISTERS: nat := 31
  const XZR: nat := 31
  const SP: nat := 32
  const PC: nat := 33
  const TOTAL_REGISTERS: nat := 34

  /** The stack pointer after a reset. */
  const SP_RESET: u64 := 0xFFFF_0000

  datatype RegisterError = IndexOutOfRange(index: u64)

  /** The slot layout: general registers below XZR, then SP, then PC. */
  lemma Layout()
    ensures NUM_REGISTERS == XZR && XZR + 1 == SP && SP + 1 == PC && PC + 1 == TOTAL_REGISTERS
    ensures XZR != SP && SP != PC
  {}

  // ---------------------------------------------------------------------
  // The register file as a value

  /** Every slot after a reset. */
  function InitialFile(): (file: seq<u64>)
    ensures |file| == TOTAL_REGISTERS
  {
    seq(TOTAL_REGISTERS, i => if i == SP then SP_RESET else 0)
  }

  /** Reading a register: an index past the file fails, XZR reads as 0,
      every other index reads its slot. */
  function ReadSlot(file: seq<u64>, index: u64): (r: Result<u64, RegisterError>)
    requires |file| == TOTAL_REGISTERS
    ensures r.Err? <==> index >= TOTAL_REGISTERS
  {
    if index >= TOTAL_REGISTERS then Err(IndexOutOfRange(index))
    else if index == XZR then Ok(0)
    else Ok(file[index])
  }

  /** Writing a register: an index past the file and XZR are ignored. */
  function WriteSlot(file: seq<u64>, index: u64, value: u64): (r: seq<u64>)
    requires |file| == TOTAL_REGISTERS
    ensures |r| == TOTAL_REGISTERS
    ensures forall k :: 0 <= k < TOTAL_REGISTERS ==>
      r[k] == if k == index && k != XZR then value else file[k]
  {
    if index >= TOTAL_REGISTERS || index == XZR then file
    else file[index := value]
  }

  /** After a reset every register reads 0 except SP. */
  lemma InitialValues(index: u64)
    requires index < TOTAL_REGISTERS
    ensures ReadSlot(InitialFile(), index) == Ok(if index == SP then SP_RESET else 0)
  {}

  /** A write followed by a read of the same writable register returns the
      value written; this covers SP and PC, which are slots of their own. */
  lemma ReadAfterWrite(file: seq<u64>, index: u64, value: u64)
    requires |file| == TOTAL_REGISTERS && index < TOTAL_REGISTERS && index != XZR
    ensures ReadSlot(WriteSlot(file, index, value), index) == Ok(value)
  {}

  /** A write changes no other register. */
  lemma WriteFrame(file: seq<u64>, index: u64, value: u64, other: u64)
    requires |file| == TOTAL_REGISTERS && other != index
    ensures ReadSlot(WriteSlot(file, index, value), other) == ReadSlot(file, other)
    ensures forall k :: 0 <= k < TOTAL_REGISTERS && k != index ==> WriteSlot(file, index, value)[k] == file[k]
  {}

  /** XZR reads as 0 whatever was written to it, and writing it changes nothing. */
  lemma ZeroRegister(file: seq<u64>, value: u64)
    requires |file| == TOTAL_REGISTERS
    ensures ReadSlot(file, XZR) == Ok(0)
    ensures WriteSlot(file, XZR, value) == file
    ensures ReadSlot(WriteSlot(file, XZR, value), XZR) == Ok(0)
  {}

  /** Reads past the file fail; writes past it are dropped silently. */
  lemma OutOfRange(file: seq<u64>, index: u64, value: u64)
    requires |file| == TOTAL_REGISTERS && index >= TOTAL_REGISTERS
    ensures ReadSlot(file, index) == Err(IndexOutOfRange(index))
    ensures WriteSlot(file, index, value) == file
  {}

  // ---------------------------------------------------------------------
  // The register file object

  class Registers {
    const slots: array<u64>

    ghost predicate Valid()
      reads this
    {
      slots.Length == TOTAL_REGISTERS
    }

    constructor()
      ensures Valid() && fresh(slots)
      ensures slots[..] == InitialFile()
    {
      slots := new u64[TOTAL_REGISTERS];
      new;
      Reset();
    }

    /** Zero every slot, then set SP to its reset value. */
    method Reset()
      requires Valid()
      modifies slots
      ensures slots[..] == InitialFile()
    {
      var i := 0;
      while i < slots.Length
        invariant 0 <= i <= slots.Length
        invariant forall k :: 0 <= k < i ==> slots[k] == 0
      {
        slots[i] := 0;
        i := i + 1;
      }
      slots[SP] := SP_RESET;
    }

    method GetRegister(index: u64) returns (r: Result<u64, RegisterError>)
      requires Valid()
      ensures r == ReadSlot(slots[..], index)
    {
      if index >= TOTAL_REGISTERS {
        return Err(IndexOutOfRange(index));
      }
      if index == XZR {
        return Ok(0);
      }
      return Ok(slots[index]);
    }

    method SetRegister(index: u64, value: u64)
      requires Valid()
      modifies slots
      ensures slots[..] == WriteSlot(old(slots[..]), index, value)
    {
      if index >= TOTAL_REGISTERS {
        return;
      }
      if index == XZR {
        return;
      }
      slots[index] := value;
    }

    method GetPc() returns (v: u64)
      requires Valid()
      ensures ReadSlot(slots[..], PC) == Ok(v)
    {
      var r := GetRegister(PC);
      v := r.value;
    }

    method SetPc(value: u64)
      requires Valid()
      modifies slots
      ensures slots[..] == WriteSlot(old(slots[..]), PC, value)
    {
      SetRegister(PC, value);
    }

    method GetSp() returns (v: u64)
      requires Valid()
      ensures ReadSlot(slots[..], SP) == Ok(v)
    {
      var r := GetRegister(SP);
      v := r.value;
    }

    method SetSp(value: u64)
      requires Valid()
      modifies slots
      ensures slots[..] == WriteSlot(old(slots[..]), SP, value)
    {
      SetRegister(SP, value);
    }
  }
}
