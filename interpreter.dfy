// executeInstruction and run of run.js as they work: in place on the
// machine, with the printed text appended to an output object. Each method
// is proved against the value-level semantics of module Execution; a method
// that fails reports the fault the specification gives and leaves the state
// unspecified, as the source leaves whatever it had changed before it threw.

module Interpreter {
  import opened Base
  import opened Rw16
  import opened Header
  import opened JsNumbers
  import opened Opcodes
  import opened MachineState
  import opened Variables
  import opened Routines
  import opened Objects
  import opened Properties
  import opened TextDecoder
  import opened Instructions
  import opened Input
  import opened Parser
  import opened Execution

  /** The `output` object: printing appends to its `text`. */
  class Output {
    var text: string

    constructor()
      ensures text == ""
    {
      text := "";
    }
  }

  /** `variableStore(state, instruction.resultVariable, value)`, in place. */
  method StoreResultInPlace(state: Machine, result: Option<byte>, value: int) returns (r: Result<()>)
    modifies state, state.memory
    ensures var spec := StoreResult(old(state.Snapshot()), result, value);
      && (spec.Err? ==> r == Err(spec.fault))
      && (spec.Ok? ==> r == Ok(()) && state.Snapshot() == spec.value)
  {
    if result.None? {
      return Ok(());
    }
    r := VariableStore(state, result.value, value);
  }

  /** `if (test === instruction.branchIf) performBranch(state, instruction.branchOffset)`, in place. */
  method BranchOnInPlace(state: Machine, branch: Option<BranchInfo>, test: bool) returns (r: Result<()>)
    modifies state, state.memory
    ensures var spec := BranchOn(old(state.Snapshot()), branch, test);
      && (spec.Err? ==> r == Err(spec.fault))
      && (spec.Ok? ==> r == Ok(()) && state.Snapshot() == spec.value)
  {
    if branch.Some? && test == branch.value.branchIf {
      r := PerformBranch(state, branch.value.offset);
    } else {
      r := Ok(());
    }
  }

  /** The object-table queries: get_parent, get_prop, get_prop_addr, get_prop_len, get_next_prop. */
  method QueryObject(state: Machine, op: OpName, ops: seq<int>) returns (r: Result<int>)
    requires op in ObjectQueryOps && |ops| >= Arity(op)
    ensures r == ObjectValue(state.memory[..], op, ops)
  {
    match op
    case GetParent =>
      r := GetObjectRelation(state, ops[0], RelationParent);
    case GetProp =>
      var data :- PropertyData(state.memory[..], ops[0], ops[1]);
      if data.Some? {
        r := Ok(if |data.value| == 1 then data.value[0] else Read16(data.value, 0));
      } else {
        r := DefaultPropertyData(state.memory[..], ops[1]);
      }
    case GetPropAddr =>
      var address :- GetObjectPropertyAddress(state, ops[0], ops[1]);
      r := Ok(if address == 0 then 0 else PropertyDataAddress(state.memory[..], address));
    case GetPropLen =>
      r := Ok(DataLengthFromDataAddress(state.memory[..], ops[0]));
    case GetNextProp =>
      if ops[1] == 0 {
        r := FirstPropertyNumber(state.memory[..], ops[0]);
      } else {
        r := NextPropertyNumber(state.memory[..], ops[0], ops[1]);
      }
  }

  /** get_child and get_sibling, in place. */
  method ReadLinkInPlace(state: Machine, op: OpName, i: Instruction, ops: seq<int>) returns (r: Result<()>)
    requires op in LinkReadOps && |ops| >= Arity(op)
    modifies state, state.memory
    ensures var spec := LinkStep(old(state.Snapshot()), op, i, ops);
      && (spec.Err? ==> r == Err(spec.fault))
      && (spec.Ok? ==> r == Ok(()) && state.Snapshot() == spec.value)
  {
    var link :- GetObjectRelation(state, ops[0], if op == GetChild then RelationChild else RelationSibling);
    r := StoreResultInPlace(state, i.resultVariable, link);
    if r.Ok? {
      r := BranchOnInPlace(state, i.branch, link != 0);
    }
  }

  /** Load a variable, add or take one as a word, and store it back, in place. */
  method StepInPlace(state: Machine, variable: int, up: bool) returns (r: Result<int>)
    modifies state, state.memory
    ensures var spec := Stepped(old(state.Snapshot()), variable, up);
      && (spec.Err? ==> r == Err(spec.fault))
      && (spec.Ok? ==> r == Ok(spec.value.0) && state.Snapshot() == spec.value.1)
  {
    var loaded :- VariableLoad(state, variable);
    var value := if up then Low16(loaded + 1) else Low16(loaded - 1);
    var stored := VariableStore(state, variable, value);
    if stored.Err? {
      return Err(stored.fault);
    }
    r := Ok(value);
  }

  /** inc, dec, inc_chk and dec_chk, in place: step the variable, then compare. */
  method CountInPlace(state: Machine, op: OpName, i: Instruction, ops: seq<int>) returns (r: Result<()>)
    requires op in CountingOps && |ops| >= Arity(op)
    modifies state, state.memory
    ensures var spec := Counted(old(state.Snapshot()), op, i, ops);
      && (spec.Err? ==> r == Err(spec.fault))
      && (spec.Ok? ==> r == Ok(()) && state.Snapshot() == spec.value)
  {
    var value :- StepInPlace(state, ops[0], op == Inc || op == IncChk);
    if op == IncChk {
      r := BranchOnInPlace(state, i.branch, Int16(value) > Int16(ops[1]));
    } else if op == DecChk {
      r := BranchOnInPlace(state, i.branch, Int16(value) < Int16(ops[1]));
    } else {
      r := Ok(());
    }
  }

  /** load, store, pull and push, in place. */
  method MoveValueInPlace(state: Machine, op: OpName, i: Instruction, ops: seq<int>) returns (r: Result<()>)
    requires op in ValueMovingOps && |ops| >= Arity(op)
    modifies state, state.memory
    ensures var spec := ValueMoved(old(state.Snapshot()), op, i, ops);
      && (spec.Err? ==> r == Err(spec.fault))
      && (spec.Ok? ==> r == Ok(()) && state.Snapshot() == spec.value)
  {
    match op
    case Load =>
      var value :- VariableLoad(state, ops[0]);
      r := StoreResultInPlace(state, i.resultVariable, value);
    case Store =>
      r := VariableStore(state, ops[0], ops[1]);
    case Pull =>
      r := PullInPlace(state, DecodeVariable(ops[0]));
    case Push =>
      if |state.frames| == 0 {
        return Err(NoFrame);
      }
      var frame := state.frames[|state.frames| - 1];
      state.frames := state.frames[|state.frames| - 1 := frame.(stack := frame.stack + [ops[0]])];
      r := Ok(());
  }

  /** clear_attr, set_attr, insert_obj, remove_obj and put_prop, in place. */
  method WriteObjectInPlace(state: Machine, op: OpName, ops: seq<int>) returns (r: Result<()>)
    requires op in ObjectWriteOps && |ops| >= Arity(op)
    modifies state.memory
    ensures var spec := ObjectWritten(old(state.memory[..]), op, ops);
      && (spec.Err? ==> r == Err(spec.fault))
      && (spec.Ok? ==> r == Ok(()) && state.memory[..] == spec.value)
  {
    match op
    case ClearAttr => r := SetObjectAttribute(state, ops[0], ops[1], false);
    case SetAttr => r := SetObjectAttribute(state, ops[0], ops[1], true);
    case InsertObj => r := MoveObject(state, ops[0], ops[1]);
    case RemoveObj => r := MoveObject(state, ops[0], 0);
    case PutProp => r := SetObjectPropertyData(state, ops[0], ops[1], ops[2]);
  }

  /** storeb and storew, in place. */
  method StoreMemoryInPlace(state: Machine, op: OpName, ops: seq<int>)
    requires op in MemoryStoreOps && |ops| >= Arity(op)
    modifies state.memory
    ensures state.memory[..] == StoredTo(old(state.memory[..]), op, ops)
  {
    match op
    case Storeb => SetByte(state.memory, Low16(ops[0] + ops[1]), ops[2]);
    case Storew => Write16(state.memory, Low16(ops[0] + 2 * ops[1]), ops[2]);
  }

  /** The calls, in place. */
  method CallInPlace(state: Machine, op: OpName, i: Instruction, ops: seq<int>) returns (r: Result<()>)
    requires op in CallOps && |ops| >= Arity(op)
    modifies state, state.memory
    ensures var spec := CallStep(old(state.Snapshot()), op, i, ops);
      && (spec.Err? ==> r == Err(spec.fault))
      && (spec.Ok? ==> r == Ok(()) && state.Snapshot() == spec.value)
  {
    r := Ok(());
    match op
    case Call1n => PerformCallInline(state, op, ops[0], [], None);
    case Call1s => PerformCallInline(state, op, ops[0], [], i.resultVariable);
    case Call2n => PerformCallInline(state, op, ops[0], [ops[1]], None);
    case Call2s => PerformCallInline(state, op, ops[0], [ops[1]], i.resultVariable);
    case CallVn =>
      if ops[0] != 0 {
        PerformCallInline(state, op, ops[0], ops[1..], None);
      }
    case Call | CallVs =>
      if ops[0] == 0 {
        r := StoreResultInPlace(state, i.resultVariable, 0);
      } else {
        PerformCallInline(state, op, ops[0], ops[1..], i.resultVariable);
      }
  }

  /** The returns, in place. */
  method ReturnInPlace(state: Machine, op: OpName, ops: seq<int>) returns (r: Result<()>)
    requires op in ReturnOps && |ops| >= Arity(op)
    modifies state, state.memory
    ensures var spec := ReturnStep(old(state.Snapshot()), op, ops);
      && (spec.Err? ==> r == Err(spec.fault))
      && (spec.Ok? ==> r == Ok(()) && state.Snapshot() == spec.value)
  {
    match op
    case Rtrue => r := PerformReturnByNumber(state, 1);
    case Rfalse => r := PerformReturnByNumber(state, 0);
    case Ret => r := PerformReturnByNumber(state, ops[0]);
    case RetPopped =>
      var value :- VariableLoad(state, 0);
      r := PerformReturnByNumber(state, value);
  }

  /** jump, in place, with its fall-through into jz. */
  method JumpInPlace(state: Machine, i: Instruction, ops: seq<int>) returns (r: Result<()>)
    requires |ops| >= Arity(Jump)
    modifies state, state.memory
    ensures var spec := JumpStep(old(state.Snapshot()), i, ops);
      && (spec.Err? ==> r == Err(spec.fault))
      && (spec.Ok? ==> r == Ok(()) && state.Snapshot() == spec.value)
  {
    r := PerformBranch(state, ops[0]);
    if r.Ok? {
      r := BranchOnInPlace(state, i.branch, ops[0] == 0);
    }
  }

  /** The text the printing instructions append; memory is only read. */
  method PrintText(state: Machine, op: OpName, i: Instruction, ops: seq<int>) returns (r: Result<string>)
    requires op in PrintOps && |ops| >= Arity(op)
    ensures r == PrintedText(state.memory[..], op, i, ops)
  {
    match op
    case NewLine => r := Ok("\n");
    case Print => r := Ok(TextOf(i.text));
    case PrintAddr =>
      var decoded :- DecodeText(state.memory, ops[0], false);
      r := Ok(decoded.0);
    case PrintChar => r := Ok([CharOf(ops[0])]);
    case PrintNum => r := Ok(DecimalString(Int16(ops[0])));
    case PrintObj => r := ObjectName(state.memory[..], ops[0]);
    case PrintPaddr =>
      var decoded :- DecodeText(state.memory, UnpackAddress(state.memory[..], op, ops[0]), false);
      r := Ok(decoded.0);
  }

  /** read, in place: the text and parse buffers, then the terminating character in version 5 and later. */
  method ReadInPlace(state: Machine, i: Instruction, ops: seq<int>, input: Option<string>) returns (r: Result<()>)
    requires |ops| >= Arity(Read)
    modifies state, state.memory
    ensures var spec := ReadStep(old(state.Snapshot()), i, ops, input);
      && (spec.Err? ==> r == Err(spec.fault))
      && (spec.Ok? ==> r == Ok(()) && state.Snapshot() == spec.value)
  {
    if input.None? {
      return Err(NoInput);
    }
    r := ParseText(state, ReadInput(input.value), ops[0], ops[1]);
    if r.Ok? && Version(state.memory[..]) >= 5 {
      r := StoreResultInPlace(state, i.resultVariable, 10);
    }
  }

  /** random, in place; the reseeding case does nothing. */
  method RandomInPlace(state: Machine, i: Instruction, ops: seq<int>, random: int -> int) returns (r: Result<()>)
    requires |ops| >= Arity(Random)
    modifies state, state.memory
    ensures var spec := RandomStep(old(state.Snapshot()), i, ops, random);
      && (spec.Err? ==> r == Err(spec.fault))
      && (spec.Ok? ==> r == Ok(()) && state.Snapshot() == spec.value)
  {
    if ops[0] > 0 {
      r := StoreResultInPlace(state, i.resultVariable, random(ops[0]));
    } else {
      r := Ok(());
    }
  }

  /** The cases of executeInstruction that store a result, in place. */
  method ExecuteStoring(state: Machine, i: Instruction, ops: seq<int>, input: Option<string>, random: int -> int)
    returns (r: Result<()>)
    requires i.opcode.Some? && |ops| >= Arity(i.opcode.value.op) && KindOf(i.opcode.value.op) in StoringKinds
    modifies state, state.memory
    ensures var spec := StoringStep(old(state.Snapshot()), i, ops, input, random);
      && (spec.Err? ==> r == Err(spec.fault))
      && (spec.Ok? ==> r == Ok(()) && state.Snapshot() == spec.value)
  {
    var op := i.opcode.value.op;
    var kind := KindOf(op);
    if kind == Calculates {
      r := StoreResultInPlace(state, i.resultVariable, Calculated(op, ops));
    } else if kind == QueriesObject {
      var value :- QueryObject(state, op, ops);
      r := StoreResultInPlace(state, i.resultVariable, value);
    } else if kind == LoadsMemory {
      r := StoreResultInPlace(state, i.resultVariable, LoadedFrom(state.memory[..], op, ops));
    } else if kind == Reads {
      r := ReadInPlace(state, i, ops, input);
    } else if kind == Randoms {
      r := RandomInPlace(state, i, ops, random);
    } else if kind == Styles {
      r := Ok(());
    } else {
      r := Err(UnimplementedOpcode);
    }
  }

  /** The cases of executeInstruction that may branch, in place. */
  method ExecuteBranching(state: Machine, i: Instruction, ops: seq<int>)
    returns (r: Result<()>)
    requires i.opcode.Some? && |ops| >= Arity(i.opcode.value.op) && KindOf(i.opcode.value.op) in BranchingKinds
    modifies state, state.memory
    ensures var spec := BranchingStep(old(state.Snapshot()), i, ops);
      && (spec.Err? ==> r == Err(spec.fault))
      && (spec.Ok? ==> r == Ok(()) && state.Snapshot() == spec.value)
  {
    var op := i.opcode.value.op;
    var kind := KindOf(op);
    if kind == Compares {
      r := BranchOnInPlace(state, i.branch, Compared(op, ops));
    } else if kind == TestsState {
      var test :- StateTest(state.Snapshot(), op, ops);
      r := BranchOnInPlace(state, i.branch, test);
    } else if kind == ReadsLink {
      r := ReadLinkInPlace(state, op, i, ops);
    } else if kind == Counts {
      r := CountInPlace(state, op, i, ops);
    } else {
      r := JumpInPlace(state, i, ops);
    }
  }

  /** The cases of executeInstruction that move values, write memory, call or return, in place. */
  method ExecuteChanging(state: Machine, i: Instruction, ops: seq<int>)
    returns (r: Result<()>)
    requires i.opcode.Some? && |ops| >= Arity(i.opcode.value.op) && KindOf(i.opcode.value.op) in ChangingKinds
    modifies state, state.memory
    ensures var spec := ChangingStep(old(state.Snapshot()), i, ops);
      && (spec.Err? ==> r == Err(spec.fault))
      && (spec.Ok? ==> r == Ok(()) && state.Snapshot() == spec.value)
  {
    var op := i.opcode.value.op;
    var kind := KindOf(op);
    if kind == MovesValue {
      r := MoveValueInPlace(state, op, i, ops);
    } else if kind == WritesObject {
      r := WriteObjectInPlace(state, op, ops);
    } else if kind == StoresMemory {
      StoreMemoryInPlace(state, op, ops);
      r := Ok(());
    } else if kind == Calls {
      r := CallInPlace(state, op, i, ops);
    } else {
      r := ReturnInPlace(state, op, ops);
    }
  }

  /** The cases of executeInstruction that print nothing, in place. */
  method ExecuteQuiet(state: Machine, i: Instruction, ops: seq<int>, input: Option<string>, random: int -> int)
    returns (r: Result<()>)
    requires i.opcode.Some? && |ops| >= Arity(i.opcode.value.op) && KindOf(i.opcode.value.op) in QuietKinds
    modifies state, state.memory
    ensures var spec := QuietStep(old(state.Snapshot()), i, ops, input, random);
      && (spec.Err? ==> r == Err(spec.fault))
      && (spec.Ok? ==> r == Ok(()) && state.Snapshot() == spec.value)
  {
    var kind := KindOf(i.opcode.value.op);
    if kind in StoringKinds {
      r := ExecuteStoring(state, i, ops, input, random);
    } else if kind in BranchingKinds {
      r := ExecuteBranching(state, i, ops);
    } else {
      r := ExecuteChanging(state, i, ops);
    }
  }

  /** print_ret and the printing instructions, in place: the output gains the text they print. */
  method ExecutePrinting(state: Machine, output: Output, i: Instruction, ops: seq<int>)
    returns (r: Result<()>)
    requires i.opcode.Some? && |ops| >= Arity(i.opcode.value.op) && KindOf(i.opcode.value.op) in {PrintsReturn, Prints}
    modifies state, state.memory, output
    ensures var spec := PrintingStep(old(state.Snapshot()), i, ops);
      && (spec.Err? ==> r == Err(spec.fault))
      && (spec.Ok? ==> r == Ok(()) && state.Snapshot() == spec.value.state && output.text == old(output.text) + spec.value.printed)
  {
    var op := i.opcode.value.op;
    if KindOf(op) == PrintsReturn {
      output.text := output.text + TextOf(i.text) + "\n";
      r := PerformReturnByNumber(state, 1);
    } else {
      var text :- PrintText(state, op, i, ops);
      output.text := output.text + text;
      r := Ok(());
    }
  }

  /**
   * executeInstruction (run.js:796-1514), in place: the machine ends in the
   * state Executed gives and the output gains the text it printed.
   */
  method ExecuteInstruction(state: Machine, output: Output, i: Instruction, ops: seq<int>, input: Option<string>, random: int -> int)
    returns (r: Result<()>)
    requires i.opcode.Some?
    modifies state, state.memory, output
    ensures var spec := Executed(old(state.Snapshot()), i, ops, input, random);
      && (spec.Err? ==> r == Err(spec.fault))
      && (spec.Ok? ==> r == Ok(()) && state.Snapshot() == spec.value.state && output.text == old(output.text) + spec.value.printed)
  {
    var op := i.opcode.value.op;
    if |ops| < Arity(op) {
      return Err(MissingOperand(|ops|));
    }
    if KindOf(op) in QuietKinds {
      r := ExecuteQuiet(state, i, ops, input, random);
    } else {
      r := ExecutePrinting(state, output, i, ops);
    }
  }
}
