// The interpreter state every operation works on (the `state` object of
// run.js): the story memory, the stack of call frames and the program
// counter, together with the opcode table the decoder consults.

module MachineState {
  import opened Base
  import opened Opcodes

  /**
   * A routine call frame: its evaluation stack, its local variables, the
   * number of arguments it was given (the frame executeInstruction.js pushes
   * has none), the store byte of the calling instruction if it has one, and
   * the address execution resumes at after the return.
   */
  datatype Frame = Frame(stack: seq<int>, locals: seq<int>, argCount: Option<int>, result: Option<byte>, nextAddress: int)

  /** A snapshot of the mutable part of the state, for specifications. */
  datatype State = State(mem: seq<byte>, frames: seq<Frame>, pc: int)

  /** The `state` object: memory is changed in place, the frame stack and pc are reassigned. */
  class Machine {
    const memory: array<byte>
    const opcodeTable: seq<OpcodeEntry>
    var frames: seq<Frame>
    var pc: int

    constructor(memory: array<byte>, opcodeTable: seq<OpcodeEntry>, frames: seq<Frame>, pc: int)
      ensures this.memory == memory && this.opcodeTable == opcodeTable
      ensures this.frames == frames && this.pc == pc
    {
      this.memory := memory;
      this.opcodeTable := opcodeTable;
      this.frames := frames;
      this.pc := pc;
    }

    function Snapshot(): State
      reads this, memory
    {
      State(memory[..], frames, pc)
    }
  }

  /** `state.stack[state.stack.length - 1]`; reading a field of it throws when there is none. */
  function TopFrame(s: State): (r: Result<Frame>)
    ensures r.Ok? <==> |s.frames| > 0
    ensures r.Ok? ==> r.value == s.frames[|s.frames| - 1]
  {
    if |s.frames| == 0 then Err(NoFrame) else Ok(s.frames[|s.frames| - 1])
  }

  /** The state with its top frame replaced. */
  function WithTopFrame(s: State, f: Frame): (r: State)
    requires |s.frames| > 0
    ensures r.mem == s.mem && r.pc == s.pc
    ensures |r.frames| == |s.frames| && r.frames[..|s.frames| - 1] == s.frames[..|s.frames| - 1]
    ensures r.frames[|s.frames| - 1] == f
  {
    s.(frames := s.frames[|s.frames| - 1 := f])
  }
}
