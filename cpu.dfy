/** The processor: a register file, a memory, a running flag and a set of
    breakpoint addresses, driven by fetch, decode, execute and advance.
    Execution is a stub: ADD and SUB are accepted and do nothing, every
    other opcode halts the machine. */
module Processor {
  import opened Words
  import opened Instructions
  import opened Decoder
  import opened Memories
  import opened RegisterFile

  // ---------------------------------------------------------------------
  // Execution

  /** What executing one decoded instruction does. */
  datatype ExecResult = Executed | Unimplemented(opcode: Opcode)

  /** Only ADD and SUB are accepted, without any effect; every other
      opcode, INVALID included, is reported as unimplemented. */
  function ExecuteInstruction(i: Instruction): (r: ExecResult)
    ensures r.Executed? <==> i.opcode == ADD || i.opcode == SUB
    ensures r.Executed? ==> !i.IsBranch() && !i.IsMemoryOp()
    ensures r.Unimplemented? ==> r.opcode == i.opcode
  {
    match i.opcode
    case ADD => Executed
    case SUB => Executed
    case _ => Unimplemented(i.opcode)
  }

  // ---------------------------------------------------------------------
  // The machine as a value

  datatype Machine = Machine(running: bool, breakpoints: set<u64>, regs: seq<u64>, mem: seq<u8>)
  {
    predicate WellFormed() {
      |regs| == TOTAL_REGISTERS && 0 < |mem| < TWO_64
    }

    function Pc(): u64
      requires WellFormed()
    {
      regs[PC]
    }
  }

  /** The four bytes at the PC, read as a little-endian word. */
  function Fetch(m: Machine): (r: Result<u32, MemoryError>)
    requires m.WellFormed()
    ensures r.Ok? <==> m.Pc() + 4 <= |m.mem|
    ensures r.Ok? ==> r.value == LittleEndian(m.mem[m.Pc()..m.Pc() + 4])
  {
    if CheckAddress(m.Pc(), 4, |m.mem|) then
      Pow256Widths();
      Ok(LittleEndian(m.mem[m.Pc()..m.Pc() + 4]))
    else Err(OutOfBounds(m.Pc(), 4))
  }

  /** One step: the flag says whether an instruction was executed. A
      halted machine and one stopped at a breakpoint do not move; a fetch
      past the end of memory or an unimplemented opcode halts the machine;
      otherwise the PC moves past the instruction unless it is a branch. */
  function Step(m: Machine): (r: (bool, Machine))
    requires m.WellFormed()
    ensures r.1.WellFormed() && r.1.mem == m.mem && r.1.breakpoints == m.breakpoints
    ensures r.0 ==> r.1.running && m.Pc() + 4 <= |m.mem| && r.1.Pc() == m.Pc() + 4
  {
    if !m.running then (false, m)
    else if m.Pc() in m.breakpoints then (false, m)
    else match Fetch(m)
      case Err(_) => (false, m.(running := false))
      case Ok(word) => Execute(m, Decode(word))
  }

  /** Execute a fetched instruction, then move the PC past it unless it
      is a branch. An unimplemented opcode halts the machine. */
  function Execute(m: Machine, instr: Instruction): (r: (bool, Machine))
    requires m.WellFormed() && m.Pc() + 4 <= |m.mem|
    ensures r.1.WellFormed() && r.1.mem == m.mem && r.1.breakpoints == m.breakpoints
    ensures r.0 ==> r.1 == m.(regs := m.regs[PC := m.Pc() + 4])
    ensures !r.0 ==> r.1 == m.(running := false)
    ensures r.0 <==> instr.opcode in {ADD, SUB}
  {
    match ExecuteInstruction(instr)
    case Unimplemented(_) => (false, m.(running := false))
    case Executed =>
      if instr.IsBranch() then (true, m)
      else
        var next := m.Pc() + 4;
        assert next % TWO_64 == next;
        (true, m.(regs := WriteSlot(m.regs, PC, next % TWO_64)))
  }

  /** How far the PC is from the end of memory; each executed step
      brings it 4 closer. */
  function Distance(m: Machine): nat
    requires m.WellFormed()
  {
    if m.Pc() <= |m.mem| then |m.mem| - m.Pc() else 0
  }

  /** Steps until a step fails. */
  function RunFrom(m: Machine): (r: Machine)
    requires m.WellFormed()
    ensures r.WellFormed()
    decreases Distance(m)
  {
    if !m.running then m
    else
      var s := Step(m);
      if !s.0 then s.1 else RunFrom(s.1)
  }

  // ---------------------------------------------------------------------
  // Properties of one step

  /** A halted machine does not step. */
  lemma HaltedStepIsNoop(m: Machine)
    requires m.WellFormed() && !m.running
    ensures Step(m) == (false, m)
  {}

  /** At a breakpoint the step fails, nothing changes and the machine keeps
      running, so stepping again stops at the same place. */
  lemma BreakpointIsFixedPoint(m: Machine)
    requires m.WellFormed() && m.running && m.Pc() in m.breakpoints
    ensures Step(m) == (false, m) && Step(m).1.running
    ensures Step(Step(m).1) == Step(m)
  {}

  /** A step succeeds exactly when the machine runs, the PC is no
      breakpoint, the fetch is inside memory and the word decodes to ADD
      or SUB; it then moves the PC on by 4 and changes nothing else. */
  lemma StepSucceeds(m: Machine)
    requires m.WellFormed()
    ensures Step(m).0 <==>
      && m.running && m.Pc() !in m.breakpoints && Fetch(m).Ok?
      && Decode(Fetch(m).value).opcode in {ADD, SUB}
    ensures Step(m).0 ==> Step(m).1 == m.(regs := m.regs[PC := m.Pc() + 4])
  {
    if m.running && m.Pc() !in m.breakpoints && Fetch(m).Ok? {
      var instr := Decode(Fetch(m).value);
      if instr.opcode in {ADD, SUB} {
        assert ExecuteInstruction(instr) == Executed;
        assert !instr.IsBranch();
      } else {
        assert ExecuteInstruction(instr).Unimplemented?;
      }
    }
  }

  /** A running machine that is not at a breakpoint and fails to step has
      halted, with its registers and memory untouched. */
  lemma StepFaults(m: Machine)
    requires m.WellFormed() && m.running && m.Pc() !in m.breakpoints
    requires !Step(m).0
    ensures !Step(m).1.running
    ensures Step(m).1 == m.(running := false)
  {
    if Fetch(m).Ok? {
      var instr := Decode(Fetch(m).value);
      assert ExecuteInstruction(instr).Unimplemented?;
    }
  }

  /** Decoded words never execute as anything but ADD or SUB; in
      particular INVALID, every branch and every memory operation halt. */
  lemma OnlyAddAndSubExecute(m: Machine)
    requires m.WellFormed() && m.running && m.Pc() !in m.breakpoints && Fetch(m).Ok?
    requires Decode(Fetch(m).value).opcode !in {ADD, SUB}
    ensures Step(m) == (false, m.(running := false))
  {
    StepSucceeds(m);
    StepFaults(m);
  }

  // ---------------------------------------------------------------------
  // Properties of a run

  /** A run ends halted or at a breakpoint. */
  lemma {:induction false} RunStops(m: Machine)
    requires m.WellFormed()
    ensures var r := RunFrom(m); !r.running || r.Pc() in r.breakpoints
    decreases Distance(m)
  {
    if m.running {
      var s := Step(m);
      if s.0 {
        RunStops(s.1);
      } else if m.Pc() !in m.breakpoints {
        StepFaults(m);
      }
    }
  }

  /** A run changes neither memory, nor the breakpoints, nor any register
      other than the PC. */
  lemma {:induction false} RunFrame(m: Machine)
    requires m.WellFormed()
    ensures var r := RunFrom(m);
      && r.mem == m.mem && r.breakpoints == m.breakpoints
      && (forall k :: 0 <= k < TOTAL_REGISTERS && k != PC ==> r.regs[k] == m.regs[k])
    decreases Distance(m)
  {
    if m.running {
      var s := Step(m);
      StepFrame(m);
      if s.0 {
        RunFrame(s.1);
      }
    }
  }

  /** During a run the PC only moves forward, in steps of 4. */
  lemma {:induction false} RunAdvancesPc(m: Machine)
    requires m.WellFormed()
    ensures var r := RunFrom(m); m.Pc() <= r.Pc() && (r.Pc() - m.Pc()) % 4 == 0
    decreases Distance(m)
  {
    if m.running {
      var s := Step(m);
      StepFrame(m);
      if s.0 {
        RunAdvancesPc(s.1);
        var d := RunFrom(s.1).Pc() - s.1.Pc();
        assert RunFrom(m).Pc() - m.Pc() == d + 4;
        DivUnique(d + 4, 4, d / 4 + 1, 0);
      } else {
        assert RunFrom(m) == s.1;
        assert s.1.Pc() == m.Pc();
      }
    }
  }

  /** One step changes no register but the PC, and the PC by 0 or 4. */
  lemma StepFrame(m: Machine)
    requires m.WellFormed()
    ensures var s := Step(m).1;
      && (forall k :: 0 <= k < TOTAL_REGISTERS && k != PC ==> s.regs[k] == m.regs[k])
      && (s.Pc() == m.Pc() || (Step(m).0 && s.Pc() == m.Pc() + 4))
  {
    StepSucceeds(m);
  }

  // ---------------------------------------------------------------------
  // The processor object

  class CPU {
    const regs: Registers
    const memory: Memory
    var running: bool
    var breakpoints: set<u64>

    ghost predicate Valid()
      reads this, regs, memory
    {
      regs.Valid() && memory.Valid() && regs.slots as object != memory.bytes as object
    }

    /** The whole state as a value. */
    ghost function State(): (m: Machine)
      requires Valid()
      reads this, regs, regs.slots, memory, memory.bytes
      ensures m.WellFormed()
    {
      Machine(running, breakpoints, regs.slots[..], memory.bytes[..])
    }

    /** A processor over a fresh zero-filled memory; the factory below
        rejects size 0. */
    constructor(memorySize: u64)
      requires 0 < memorySize
      ensures Valid() && fresh(regs) && fresh(regs.slots) && fresh(memory) && fresh(memory.bytes)
      ensures State() == Machine(true, {}, InitialFile(), seq(memorySize, _ => 0))
    {
      memory := new Memory(memorySize);
      regs := new Registers();
      new;
      Reset();
    }

    /** The checked constructor: a memory of size 0 is an error. */
    static method Create(memorySize: u64) returns (r: Result<CPU, MemoryError>)
      ensures r.Err? <==> memorySize == 0
      ensures r.Err? ==> r.error == ZeroSize
      ensures r.Ok? ==> && fresh(r.value) && fresh(r.value.regs) && fresh(r.value.regs.slots)
                        && fresh(r.value.memory) && fresh(r.value.memory.bytes) && r.value.Valid()
      ensures r.Ok? ==> r.value.State() == Machine(true, {}, InitialFile(), seq(memorySize, _ => 0))
    {
      if memorySize == 0 {
        return Err(ZeroSize);
      }
      var cpu := new CPU(memorySize);
      return Ok(cpu);
    }

    /** Reset the registers, run, and forget every breakpoint. Memory is
        left as it is. */
    method Reset()
      requires Valid()
      modifies this, regs.slots
      ensures Valid()
      ensures State() == old(State()).(running := true, breakpoints := {}, regs := InitialFile())
    {
      regs.Reset();
      running := true;
      breakpoints := {};
    }

    function IsRunning(): (r: bool)
      reads this
      ensures r <==> running
    {
      running
    }

    method SetBreakpoint(address: u64)
      modifies this
      ensures breakpoints == old(breakpoints) + {address}
      ensures running == old(running)
    {
      breakpoints := breakpoints + {address};
    }

    method ClearBreakpoint(address: u64)
      modifies this
      ensures breakpoints == old(breakpoints) - {address}
      ensures running == old(running)
    {
      breakpoints := breakpoints - {address};
    }

    /** Write the program byte by byte from `address` on, then point the PC
        at it. A byte that falls outside memory stops the load with false
        and the PC unchanged, but the bytes before it stay written. */
    method LoadProgram(program: seq<u8>, address: u64) returns (ok: bool)
      requires Valid() && |program| < TWO_64
      modifies regs.slots, memory.bytes
      ensures Valid()
      ensures ok <==> |program| == 0 || address + |program| <= memory.bytes.Length
      ensures memory.bytes[..] == Overlay(old(memory.bytes[..]), address, program)
      ensures regs.slots[..] == if ok then WriteSlot(old(regs.slots[..]), PC, address) else old(regs.slots[..])
    {
      ghost var mem0, regs0 := memory.bytes[..], regs.slots[..];
      var i := 0;
      while i < |program|
        invariant 0 <= i <= |program|
        invariant 0 < i ==> address + i <= memory.bytes.Length
        invariant memory.bytes[..] == Overlay(mem0, address, program[..i])
        invariant regs.slots[..] == regs0
      {
        var at: u64 := (address + i) % TWO_64;
        assert at == address + i;
        var r := memory.Write8(at, program[i]);
        if r.Fail? {
          OverlayPastEnd(mem0, address, program, i);
          return false;
        }
        OverlayExtend(mem0, address, program, i);
        i := i + 1;
      }
      assert program[..i] == program;
      regs.SetPc(address);
      return true;
    }

    /** Fetch, decode and execute the instruction at the PC. */
    method StepInstruction() returns (ok: bool)
      requires Valid()
      modifies this, regs.slots
      ensures Valid()
      ensures (ok, State()) == Step(old(State()))
    {
      if !running {
        return false;
      }
      var pc := regs.GetPc();
      if pc in breakpoints {
        return false;
      }
      var word := memory.Read32(pc);
      if word.Err? {
        running := false;
        return false;
      }
      var instr := Decode(word.value);
      var outcome := ExecuteInstruction(instr);
      if outcome.Unimplemented? {
        running := false;
        return false;
      }
      if !instr.IsBranch() {
        regs.SetPc((pc + 4) % TWO_64);
      }
      return true;
    }

    /** Step while running, until a step fails. */
    method Run()
      requires Valid()
      modifies this, regs.slots
      ensures Valid()
      ensures State() == RunFrom(old(State()))
      ensures !running || regs.slots[PC] in breakpoints
    {
      while running
        invariant Valid()
        invariant RunFrom(State()) == RunFrom(old(State()))
        decreases Distance(State())
      {
        ghost var before := State();
        var ok := StepInstruction();
        if !ok {
          assert State() == RunFrom(before);
          break;
        }
      }
      RunStops(old(State()));
    }
  }
}
