// executeInstruction.js as it works: in place on the machine, with the
// printed text appended to an output object. Each method is proved against
// the value-level model of module LegacyExecution; a method that fails
// reports the fault that model gives and leaves the state unspecified, as
// the source leaves whatever it had changed before it threw. read is the
// exception: what it writes before it throws is stated too.

module LegacyInterpreter {
  import opened Base
  import opened Rw16
  import opened Header
  import opened JsNumbers
  import opened Opcodes
  import opened MachineState
  import opened Variables
  import opened Routines
  import opened Objects
  import opened Instructions
  import opened Input
  import opened Parser
  import opened Execution
  import opened Interpreter
  import opened LegacyExecution
  import opened LegacyLaws

  /** `performStore(state, instruction.resultVariable, value)`, in place. */
  method LegacyStoreInPlace(state: Machine, result: Option<byte>, value: int) returns (r: Result<()>)
    modifies state, state.memory
    ensures var spec := LegacyStore(old(state.Snapshot()), result, value);
      && (spec.Err? ==> r == Err(spec.fault))
      && (spec.Ok? ==> r == Ok(()) && state.Snapshot() == spec.value)
  {
    if result.None? {
      return Err(NoResultVariable);
    }
    r := PerformStore(state, DecodeVariable(result.value), value);
  }

  /** add, and, or, sub, get_parent, loadb and loadw, in place. */
  method ExecuteLegacyStoring(state: Machine, i: Instruction, ops: seq<int>) returns (r: Result<()>)
    requires i.opcode.Some? && i.opcode.value.op in LegacyStoringOps && |ops| >= Arity(i.opcode.value.op)
    modifies state, state.memory
    ensures var spec := LegacyStoring(old(state.Snapshot()), i, ops);
      && (spec.Err? ==> r == Err(spec.fault))
      && (spec.Ok? ==> r == Ok(()) && state.Snapshot() == spec.value)
  {
    var op := i.opcode.value.op;
    var value;
    if op == GetParent {
      value :- GetObjectRelation(state, ops[0], RelationParent);
    } else if op == Loadb {
      value := ByteAt(state.memory[..], ops[0] + 2 * ops[1]);
    } else if op == Loadw {
      value := Read16(state.memory[..], ops[0] + 2 * ops[1]);
    } else {
      value := Calculated(op, ops);
    }
    r := LegacyStoreInPlace(state, i.resultVariable, value);
  }

  /** The first half of inc and inc_chk, in place: dereference, add one as a word, store through the descriptor. */
  method LegacyStepInPlace(state: Machine, variable: int) returns (r: Result<int>)
    modifies state, state.memory
    ensures var spec := LegacyStepped(old(state.Snapshot()), variable);
      && (spec.Err? ==> r == Err(spec.fault))
      && (spec.Ok? ==> r == Ok(spec.value.0) && state.Snapshot() == spec.value.1)
  {
    var descriptor := DecodeVariable(variable);
    var loaded :- PerformDereference(state, descriptor);
    var value := Low16(loaded + 1);
    var stored := PerformStore(state, descriptor, value);
    if stored.Err? {
      return Err(stored.fault);
    }
    r := Ok(value);
  }

  /** get_child and get_sibling, in place. */
  method LegacyReadLinkInPlace(state: Machine, op: OpName, i: Instruction, ops: seq<int>) returns (r: Result<()>)
    requires op in LinkReadOps && |ops| >= Arity(op)
    modifies state, state.memory
    ensures var spec := LegacyLinkStep(old(state.Snapshot()), op, i, ops);
      && (spec.Err? ==> r == Err(spec.fault))
      && (spec.Ok? ==> r == Ok(()) && state.Snapshot() == spec.value)
  {
    var link :- GetObjectRelation(state, ops[0], if op == GetChild then RelationChild else RelationSibling);
    r := LegacyStoreInPlace(state, i.resultVariable, link);
    if r.Ok? {
      r := BranchOnInPlace(state, i.branch, link != 0);
    }
  }

  /** inc and inc_chk, in place: step the variable, then compare unsigned. */
  method LegacyCountInPlace(state: Machine, i: Instruction, ops: seq<int>) returns (r: Result<()>)
    requires i.opcode.Some? && i.opcode.value.op in {Inc, IncChk} && |ops| >= Arity(i.opcode.value.op)
    modifies state, state.memory
    ensures var spec := LegacyBranching(old(state.Snapshot()), i, ops);
      && (spec.Err? ==> r == Err(spec.fault))
      && (spec.Ok? ==> r == Ok(()) && state.Snapshot() == spec.value)
  {
    LegacyCountSteps(state.Snapshot(), i, ops);
    var value :- LegacyStepInPlace(state, ops[0]);
    if i.opcode.value.op == IncChk {
      r := BranchOnInPlace(state, i.branch, value > ops[1]);
    } else {
      r := Ok(());
    }
  }

  /** inc and inc_chk as their two halves: the step, then the unsigned comparison. */
  lemma LegacyCountSteps(s: State, i: Instruction, ops: seq<int>)
    requires i.opcode.Some? && i.opcode.value.op in {Inc, IncChk} && |ops| >= Arity(i.opcode.value.op)
    ensures LegacyBranching(s, i, ops) ==
      match LegacyStepped(s, ops[0])
      case Err(f) => Err(f)
      case Ok(stepped) => if i.opcode.value.op == IncChk then BranchOn(stepped.1, i.branch, stepped.0 > ops[1]) else Ok(stepped.1)
  {
  }

  /** je, jg, jl, jz, test, jin, test_attr, get_child, get_sibling, inc, inc_chk and jump, in place. */
  method ExecuteLegacyBranching(state: Machine, i: Instruction, ops: seq<int>) returns (r: Result<()>)
    requires i.opcode.Some? && i.opcode.value.op in LegacyBranchingOps && |ops| >= LegacyArity(i.opcode.value.op)
    modifies state, state.memory
    ensures var spec := LegacyBranching(old(state.Snapshot()), i, ops);
      && (spec.Err? ==> r == Err(spec.fault))
      && (spec.Ok? ==> r == Ok(()) && state.Snapshot() == spec.value)
  {
    var op := i.opcode.value.op;
    if op in {Je, Jg, Jl, Jz} {
      r := BranchOnInPlace(state, i.branch, Compared(op, ops));
    } else if op == Test {
      r := Ok(());
    } else if op in {Jin, TestAttr} {
      var test :- StateTest(state.Snapshot(), op, ops);
      r := BranchOnInPlace(state, i.branch, test);
    } else if op in LinkReadOps {
      r := LegacyReadLinkInPlace(state, op, i, ops);
    } else if op in {Inc, IncChk} {
      r := LegacyCountInPlace(state, i, ops);
    } else {
      r := JumpInPlace(state, i, ops);
    }
  }

  /** insert_obj, in place: read the three links, unlink the object, write the three new links. */
  method LegacyInsertInPlace(state: Machine, obj: int, dest: int) returns (r: Result<()>)
    modifies state.memory
    ensures var spec := LegacyInserted(old(state.memory[..]), obj, dest);
      && (spec.Err? ==> r == Err(spec.fault))
      && (spec.Ok? ==> r == Ok(()) && state.memory[..] == spec.value)
  {
    // Once an object's entry has been found, every later read or write of
    // its links succeeds: only the first access to each object can fail.
    var parent :- GetObjectRelation(state, obj, RelationParent);
    var siblingLink := GetObjectRelation(state, obj, RelationSibling);
    var sibling := siblingLink.value;
    var destChild :- GetObjectRelation(state, dest, RelationChild);
    if parent != 0 {
      var node :- GetObjectRelation(state, parent, RelationChild);
      if node == obj {
        var unlinked := SetObjectRelation(state, parent, RelationChild, sibling);
      } else if Version(state.memory[..]) <= 3 {
        return Err(Diverges);
      } else {
        return Err(InvalidObject(0));
      }
    }
    var linked := SetObjectRelation(state, dest, RelationChild, obj);
    var parented := SetObjectRelation(state, obj, RelationParent, dest);
    r := SetObjectRelation(state, obj, RelationSibling, destChild);
  }

  /**
   * call of a routine other than 0, in place: the routine's defaults with
   * the leading ones replaced by the arguments, one by one, in a frame
   * without an argument count.
   */
  method LegacyCallInPlace(state: Machine, packed: int, args: seq<int>, result: Option<byte>)
    modifies state
    ensures state.Snapshot() == LegacyCalled(old(state.Snapshot()), packed, args, result)
  {
    var address := UnpackAddress(state.memory[..], Call, packed);
    var routine := DecodeRoutine(state, address);
    var locals := routine.locals;
    var k := 0;
    while k < |args|
      invariant 0 <= k <= |args|
      invariant |locals| == |routine.locals|
      invariant forall j | 0 <= j < |locals| :: locals[j] == if j < k then args[j] else routine.locals[j]
    {
      if |locals| > k {
        locals := locals[k := args[k]];
      }
      k := k + 1;
    }
    assert locals == WithArguments(routine.locals, args);
    state.frames := state.frames + [Frame([], locals, None, result, state.pc)];
    state.pc := routine.firstInstructionAddress;
  }

  /** store, pull and push, in place: the variable written through its descriptor. */
  method LegacyMoveInPlace(state: Machine, i: Instruction, ops: seq<int>) returns (r: Result<()>)
    requires i.opcode.Some? && i.opcode.value.op in {Store, Pull, Push} && |ops| >= Arity(i.opcode.value.op)
    modifies state, state.memory
    ensures var spec := LegacyChanging(old(state.Snapshot()), i, ops);
      && (spec.Err? ==> r == Err(spec.fault))
      && (spec.Ok? ==> r == Ok(()) && state.Snapshot() == spec.value)
  {
    var op := i.opcode.value.op;
    if op == Store {
      r := PerformStore(state, DecodeVariable(ops[0]), ops[1]);
    } else if op == Pull {
      r := PullInPlace(state, DecodeVariable(ops[0]));
    } else {
      if |state.frames| == 0 {
        return Err(NoFrame);
      }
      var frame := state.frames[|state.frames| - 1];
      state.frames := state.frames[|state.frames| - 1 := frame.(stack := frame.stack + [ops[0]])];
      r := Ok(());
    }
  }

  /** storeb, storew, set_attr and insert_obj, in place: only memory changes. */
  method LegacyWriteMemoryInPlace(state: Machine, op: OpName, ops: seq<int>) returns (r: Result<()>)
    requires op in LegacyMemoryOps && |ops| >= Arity(op)
    modifies state.memory
    ensures var spec := LegacyMemoryWritten(old(state.memory[..]), op, ops);
      && (spec.Err? ==> r == Err(spec.fault))
      && (spec.Ok? ==> r == Ok(()) && state.memory[..] == spec.value)
  {
    if op == Storeb {
      SetByte(state.memory, ops[0] + 2 * ops[1], ops[2]);
      r := Ok(());
    } else if op == Storew {
      Write16(state.memory, ops[0] + 2 * ops[1], ops[2]);
      r := Ok(());
    } else if op == SetAttr {
      r := SetObjectAttribute(state, ops[0], ops[1], false);
    } else {
      r := LegacyInsertInPlace(state, ops[0], ops[1]);
    }
  }

  /** store, pull, push, storeb, storew, set_attr, insert_obj, call and the returns, in place. */
  method ExecuteLegacyChanging(state: Machine, i: Instruction, ops: seq<int>) returns (r: Result<()>)
    requires i.opcode.Some? && i.opcode.value.op in LegacyChangingOps && |ops| >= Arity(i.opcode.value.op)
    modifies state, state.memory
    ensures var spec := LegacyChanging(old(state.Snapshot()), i, ops);
      && (spec.Err? ==> r == Err(spec.fault))
      && (spec.Ok? ==> r == Ok(()) && state.Snapshot() == spec.value)
  {
    var op := i.opcode.value.op;
    if op in {Store, Pull, Push} {
      r := LegacyMoveInPlace(state, i, ops);
    } else if op in LegacyMemoryOps {
      r := LegacyWriteMemoryInPlace(state, op, ops);
    } else if op == Call {
      if ops[0] == 0 {
        r := LegacyStoreInPlace(state, i.resultVariable, 0);
      } else {
        LegacyCallInPlace(state, ops[0], ops[1..], i.resultVariable);
        r := Ok(());
      }
    } else {
      r := ReturnInPlace(state, op, ops);
    }
  }

  /** The cases that print nothing, in place. */
  method ExecuteLegacyQuiet(state: Machine, i: Instruction, ops: seq<int>) returns (r: Result<()>)
    requires i.opcode.Some? && i.opcode.value.op in LegacyQuietOps && |ops| >= LegacyArity(i.opcode.value.op)
    modifies state, state.memory
    ensures var spec := LegacyQuiet(old(state.Snapshot()), i, ops);
      && (spec.Err? ==> r == Err(spec.fault))
      && (spec.Ok? ==> r == Ok(()) && state.Snapshot() == spec.value)
  {
    var op := i.opcode.value.op;
    if op in LegacyStoringOps {
      r := ExecuteLegacyStoring(state, i, ops);
    } else if op in LegacyBranchingOps {
      r := ExecuteLegacyBranching(state, i, ops);
    } else {
      r := ExecuteLegacyChanging(state, i, ops);
    }
  }

  /**
   * read, in place, once the input is there: the line, lowered, cut at its
   * first newline and to the buffer's room, written from the character
   * start on, with a zero after it up to version 4.
   */
  method LegacyFillTextBuffer(memory: array<byte>, textBuffer: int, input: string)
    modifies memory
    ensures memory[..] == LegacyReadWritten(old(memory[..]), textBuffer, input)
  {
    ghost var m0 := memory[..];
    var max := MaxInputLength(memory[..], textBuffer);
    var line := ReadInput(input);
    var t := if max.Some? then JsSlice(line, 0, max.value) else "";
    assert t == StoredText(m0, textBuffer, line);
    var start := textBuffer + (if Version(memory[..]) <= 4 then 1 else 2);
    assert start == TextStart(Version(m0), textBuffer);
    WriteChars(memory, start, t);
    ghost var m1 := memory[..];
    assert m1 == CharsWritten(m0, start, t);
    if Version(memory[..]) <= 4 {
      SetByte(memory, start + |t|, 0);
      assert memory[..] == Poked(m1, start + |t|, 0);
    }
  }

  /**
   * read (executeInstruction.js:434-445), in place: without input it throws
   * before it writes; with input it fills the text buffer, when there is an
   * operand to name it, and then throws.
   */
  method LegacyReadInPlace(state: Machine, ops: seq<int>, input: Option<string>) returns (r: Result<()>)
    modifies state.memory
    ensures r == Err(if input.None? then NoInput else Unimplemented)
    ensures input.Some? && |ops| >= 1 ==> state.memory[..] == LegacyReadWritten(old(state.memory[..]), ops[0], input.value)
    ensures input.None? || |ops| == 0 ==> state.memory[..] == old(state.memory[..])
  {
    if input.None? {
      return Err(NoInput);
    }
    if |ops| >= 1 {
      LegacyFillTextBuffer(state.memory, ops[0], input.value);
    }
    r := Err(Unimplemented);
  }

  /** Every case but read, in place. */
  method ExecuteLegacyCase(state: Machine, output: Output, i: Instruction, ops: seq<int>, input: Option<string>)
    returns (r: Result<()>)
    requires i.opcode.Some? && i.opcode.value.op != Read
    modifies state, state.memory, output
    ensures var spec := LegacyExecuted(old(state.Snapshot()), i, ops, input);
      && (spec.Err? ==> r == Err(spec.fault))
      && (spec.Ok? ==> r == Ok(()) && state.Snapshot() == spec.value.state && output.text == old(output.text) + spec.value.printed)
  {
    var op := i.opcode.value.op;
    if op !in LegacyOps {
      return Err(UnimplementedOpcode);
    }
    if |ops| < LegacyArity(op) {
      return Err(MissingOperand(|ops|));
    }
    if op in PropertyTableOps {
      return Err(NotAFunction("getObjectPropertiesAddress"));
    }
    r := ExecuteLegacyWorking(state, output, i, ops, input);
  }

  /** The cases that do not throw outright: the printing ones and the quiet ones. */
  method ExecuteLegacyWorking(state: Machine, output: Output, i: Instruction, ops: seq<int>, input: Option<string>)
    returns (r: Result<()>)
    requires i.opcode.Some? && i.opcode.value.op in LegacyOps
    requires i.opcode.value.op !in PropertyTableOps && i.opcode.value.op != Read
    requires |ops| >= LegacyArity(i.opcode.value.op)
    modifies state, state.memory, output
    ensures var spec := LegacyExecuted(old(state.Snapshot()), i, ops, input);
      && (spec.Err? ==> r == Err(spec.fault))
      && (spec.Ok? ==> r == Ok(()) && state.Snapshot() == spec.value.state && output.text == old(output.text) + spec.value.printed)
  {
    var op := i.opcode.value.op;
    if op in LegacyPrintOps {
      var text :- PrintText(state, op, i, ops);
      output.text := output.text + text;
      return Ok(());
    }
    r := ExecuteLegacyQuiet(state, i, ops);
  }

  /**
   * executeInstruction.js (executeInstruction.js:23-543), in place: the
   * machine ends in the state LegacyExecuted gives and the output gains the
   * text it printed. A read leaves the text buffer filled before it throws.
   */
  method ExecuteLegacyInstruction(state: Machine, output: Output, i: Instruction, ops: seq<int>, input: Option<string>)
    returns (r: Result<()>)
    requires i.opcode.Some?
    modifies state, state.memory, output
    ensures var spec := LegacyExecuted(old(state.Snapshot()), i, ops, input);
      && (spec.Err? ==> r == Err(spec.fault))
      && (spec.Ok? ==> r == Ok(()) && state.Snapshot() == spec.value.state && output.text == old(output.text) + spec.value.printed)
    ensures i.opcode.value.op == Read ==> state.frames == old(state.frames) && state.pc == old(state.pc)
    ensures i.opcode.value.op == Read && input.Some? && |ops| >= 1 ==>
      state.memory[..] == LegacyReadWritten(old(state.memory[..]), ops[0], input.value)
    ensures i.opcode.value.op == Read && (input.None? || |ops| == 0) ==> state.memory[..] == old(state.memory[..])
  {
    if i.opcode.value.op == Read {
      LegacyFaults(state.Snapshot(), i, ops, input);
      r := LegacyReadInPlace(state, ops, input);
    } else {
      r := ExecuteLegacyCase(state, output, i, ops, input);
    }
  }
}
