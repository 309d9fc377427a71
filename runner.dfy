// run (run.js:10-28): one step of the machine. It decodes the instruction
// at pc, yields when the instruction wants input and none was given, stops
// at quit, and otherwise reads the operands, moves pc past the instruction
// and executes it.

module Runner {
  import opened Base
  import opened Opcodes
  import opened MachineState
  import opened Variables
  import opened Instructions
  import opened Input
  import opened Parser
  import opened Execution
  import opened Interpreter

  /** What run returns: 'yield', 'quit', or the `false` executeInstruction gives back. */
  datatype Outcome = Yield | Quit | Continue

  /** The operand is a constant, given as it is. */
  predicate IsConstant(operand: Operand)
  {
    operand.kind == ConstantOperand
  }

  /**
   * `instruction.operands.map(...)`: constants as they are, variables read
   * with variableLoad, from left to right, so that each stack read pops
   * before the next operand is read.
   */
  function OperandValues(s: State, operands: seq<Operand>): (r: Result<(seq<int>, State)>)
    ensures r.Ok? ==> |r.value.0| == |operands|
    ensures r.Ok? ==> forall k | 0 <= k < |operands| && IsConstant(operands[k]) :: r.value.0[k] == operands[k].value
    ensures r.Ok? ==> r.value.1.mem == s.mem && r.value.1.pc == s.pc && |r.value.1.frames| == |s.frames|
    ensures (forall k | 0 <= k < |operands| :: IsConstant(operands[k])) ==> r.Ok? && r.value.1 == s
    decreases |operands|
  {
    if operands == [] then Ok(([], s))
    else
      var first :- if IsConstant(operands[0]) then Ok((operands[0].value, s)) else Loaded(s, operands[0].value);
      var rest :- OperandValues(first.1, operands[1..]);
      Ok(([first.0] + rest.0, rest.1))
  }

  /** Values read so far, put in front of what the remaining operands give. */
  function Prefixed(values: seq<int>, r: Result<(seq<int>, State)>): Result<(seq<int>, State)>
  {
    match r
    case Err(f) => Err(f)
    case Ok(rest) => Ok((values + rest.0, rest.1))
  }

  /**
   * run (run.js:10-28): the outcome, the state after the step and the text
   * it printed. An instruction with no opcode is a fault.
   */
  function Ran(s: State, table: seq<OpcodeEntry>, input: Option<string>, random: int -> int): Result<(Outcome, Step)>
  {
    var i :- DecodedInstruction(s.mem, table, s.pc);
    if i.opcode.None? then Err(InvalidInstruction(s.pc))
    else if i.opcode.value.input && input.None? then Ok((Yield, Step(s, "")))
    else if i.opcode.value.op == OpName.Quit then Ok((Outcome.Quit, Step(s, "")))
    else
      var loaded :- OperandValues(s, i.operands);
      var step :- Executed(loaded.1.(pc := i.nextAddress), i, loaded.0, input, random);
      Ok((Continue, step))
  }

  /**
   * run yields exactly when the instruction at pc wants input and none was
   * given, and it quits exactly at quit; in both cases nothing changes and
   * nothing is printed.
   */
  lemma StopsLeaveStateAlone(s: State, table: seq<OpcodeEntry>, input: Option<string>, random: int -> int)
    requires Ran(s, table, input, random).Ok?
    ensures var i := DecodedInstruction(s.mem, table, s.pc).value;
      var outcome := Ran(s, table, input, random).value.0;
      && i.opcode.Some?
      && (outcome == Yield <==> i.opcode.value.input && input.None?)
      && (outcome == Outcome.Quit <==> !(i.opcode.value.input && input.None?) && i.opcode.value.op == OpName.Quit)
      && (outcome != Continue ==> Ran(s, table, input, random).value.1 == Step(s, ""))
  {
  }

  /** Storing a result leaves pc alone. */
  lemma StoreResultKeepsPc(s: State, result: Option<byte>, value: int)
    ensures StoreResult(s, result, value).Ok? ==> StoreResult(s, result, value).value.pc == s.pc
  {
  }

  /** load, store, pull, push and the memory and object-table writes leave pc alone. */
  lemma ChangingKeepsPc(s: State, i: Instruction, ops: seq<int>)
    requires i.opcode.Some? && |ops| >= Arity(i.opcode.value.op) && KindOf(i.opcode.value.op) in {MovesValue, WritesObject, StoresMemory}
    ensures ChangingStep(s, i, ops).Ok? ==> ChangingStep(s, i, ops).value.pc == s.pc
  {
    var op := i.opcode.value.op;
    if KindOf(op) == MovesValue {
      MovedKeepsPc(s, op, i, ops);
    }
  }

  /** The instructions that store a result leave pc alone. */
  lemma StoringKeepsPc(s: State, i: Instruction, ops: seq<int>, input: Option<string>, random: int -> int)
    requires i.opcode.Some? && |ops| >= Arity(i.opcode.value.op) && KindOf(i.opcode.value.op) in StoringKinds
    ensures StoringStep(s, i, ops, input, random).Ok? ==> StoringStep(s, i, ops, input, random).value.pc == s.pc
  {
    var op := i.opcode.value.op;
    var kind := KindOf(op);
    if kind == Calculates {
      StoreResultKeepsPc(s, i.resultVariable, Calculated(op, ops));
    } else if kind == QueriesObject && ObjectValue(s.mem, op, ops).Ok? {
      StoreResultKeepsPc(s, i.resultVariable, ObjectValue(s.mem, op, ops).value);
    } else if kind == LoadsMemory {
      StoreResultKeepsPc(s, i.resultVariable, LoadedFrom(s.mem, op, ops));
    } else if kind == Randoms {
      RandomKeepsPc(s, i, ops, random);
    } else if kind == Reads {
      ReadKeepsPc(s, i, ops, input);
    }
  }

  /** random leaves pc alone. */
  lemma RandomKeepsPc(s: State, i: Instruction, ops: seq<int>, random: int -> int)
    requires |ops| >= Arity(Random)
    ensures RandomStep(s, i, ops, random).Ok? ==> RandomStep(s, i, ops, random).value.pc == s.pc
  {
    StoreResultKeepsPc(s, i.resultVariable, random(ops[0]));
  }

  /** read leaves pc alone. */
  lemma ReadKeepsPc(s: State, i: Instruction, ops: seq<int>, input: Option<string>)
    requires |ops| >= Arity(Read)
    ensures ReadStep(s, i, ops, input).Ok? ==> ReadStep(s, i, ops, input).value.pc == s.pc
  {
    if input.Some? && ParsedText(s.mem, ReadInput(input.value), ops[0], ops[1]).Ok? {
      var mem := ParsedText(s.mem, ReadInput(input.value), ops[0], ops[1]).value;
      StoreResultKeepsPc(s.(mem := mem), i.resultVariable, 10);
    }
  }

  /** load, store, pull and push leave pc alone. */
  lemma MovedKeepsPc(s: State, op: OpName, i: Instruction, ops: seq<int>)
    requires op in ValueMovingOps && |ops| >= Arity(op)
    ensures ValueMoved(s, op, i, ops).Ok? ==> ValueMoved(s, op, i, ops).value.pc == s.pc
  {
    if op == Load && Loaded(s, ops[0]).Ok? {
      StoreResultKeepsPc(Loaded(s, ops[0]).value.1, i.resultVariable, Loaded(s, ops[0]).value.0);
    }
  }

  /**
   * The operand loop in place: each variable operand is read with
   * VariableLoad, so that stack reads pop in order.
   */
  method LoadOperands(state: Machine, operands: seq<Operand>) returns (r: Result<seq<int>>)
    modifies state
    ensures var spec := OperandValues(old(state.Snapshot()), operands);
      && (spec.Err? ==> r == Err(spec.fault))
      && (spec.Ok? ==> r == Ok(spec.value.0) && state.Snapshot() == spec.value.1)
  {
    var values: seq<int> := [];
    var k := 0;
    var start := OperandValues(state.Snapshot(), operands);
    assert operands[0..] == operands;
    if start.Ok? {
      assert [] + start.value.0 == start.value.0;
    }
    while k < |operands|
      invariant 0 <= k <= |operands|
      invariant OperandValues(old(state.Snapshot()), operands) == Prefixed(values, OperandValues(state.Snapshot(), operands[k..]))
    {
      var operand := operands[k];
      assert operands[k..][0] == operand && operands[k..][1..] == operands[k + 1..];
      var value;
      if IsConstant(operand) {
        value := operand.value;
      } else {
        value :- VariableLoad(state, operand.value);
      }
      PrefixedAppend(values, value, OperandValues(state.Snapshot(), operands[k + 1..]));
      values := values + [value];
      k := k + 1;
    }
    assert operands[k..] == [];
    assert values + [] == values;
    return Ok(values);
  }

  /** Moving one value from the results to the prefix. */
  lemma PrefixedAppend(values: seq<int>, value: int, r: Result<(seq<int>, State)>)
    ensures Prefixed(values + [value], r) == Prefixed(values, match r case Err(f) => Err(f) case Ok(rest) => Ok(([value] + rest.0, rest.1)))
  {
    if r.Ok? {
      assert values + [value] + r.value.0 == values + ([value] + r.value.0);
    }
  }

  /**
   * run (run.js:10-28), in place: the outcome Ran gives, with the machine
   * and the output changed as Ran says.
   */
  method Run(state: Machine, output: Output, input: Option<string>, random: int -> int) returns (r: Result<Outcome>)
    modifies state, state.memory, output
    ensures var spec := Ran(old(state.Snapshot()), state.opcodeTable, input, random);
      && (spec.Err? ==> r == Err(spec.fault))
      && (spec.Ok? ==> r == Ok(spec.value.0) && state.Snapshot() == spec.value.1.state && output.text == old(output.text) + spec.value.1.printed)
  {
    var i :- DecodeInstruction(state.memory, state.opcodeTable, state.pc);
    if i.opcode.None? {
      return Err(InvalidInstruction(state.pc));
    }
    if i.opcode.value.input && input.None? {
      assert output.text == old(output.text) + "";
      return Ok(Yield);
    }
    if i.opcode.value.op == OpName.Quit {
      assert output.text == old(output.text) + "";
      return Ok(Outcome.Quit);
    }
    var ops :- LoadOperands(state, i.operands);
    state.pc := i.nextAddress;
    var executed := ExecuteInstruction(state, output, i, ops, input, random);
    if executed.Err? {
      return Err(executed.fault);
    }
    return Ok(Continue);
  }
}
