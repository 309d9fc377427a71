// The older dispatcher, executeInstruction.js (executeInstruction.js:23-543),
// as functions of the state. It handles forty opcodes. Where a case does
// what run.js does, the model reuses the functions of module Execution;
// where it does not, the difference is written out here:
//  - a result goes through a variable descriptor, and none is an error;
//  - `call` pushes a frame without an argument count;
//  - loadb, loadw, storeb and storew address `array + 2*index`, without a wrap;
//  - `inc_chk` compares unsigned;
//  - `test` never branches;
//  - `set_attr` clears the attribute;
//  - insert_obj's walk along the sibling list starts from `undefined`;
//  - the property instructions call a name object.js does not export;
//  - read fills the text buffer and then throws.

module LegacyExecution {
  import opened Base
  import opened Rw16
  import opened Header
  import opened JsNumbers
  import opened Opcodes
  import opened MachineState
  import opened Variables
  import opened Routines
  import opened Objects
  import opened Instructions
  import opened Input
  import opened Parser
  import opened Execution

  /** The cases that store a value in the result variable. */
  const LegacyStoringOps: set<OpName> := {Add, OpName.And, OpName.Or, Sub, GetParent, Loadb, Loadw}

  /** The cases that may branch, with inc, which shares inc_chk's first half. */
  const LegacyBranchingOps: set<OpName> := {Je, Jg, Jl, Jz, Test, Jin, TestAttr, GetChild, GetSibling, Inc, IncChk, Jump}

  /** The cases that move values, write memory, call or return. */
  const LegacyChangingOps: set<OpName> := {Store, Pull, Push, Storeb, Storew, SetAttr, InsertObj, Call, Ret, RetPopped, Rfalse, Rtrue}

  /** The cases that append to `output.text`. */
  const LegacyPrintOps: set<OpName> := {NewLine, Print, PrintChar, PrintNum}

  /** The cases that begin with `getObjectPropertiesAddress(...)`. */
  const PropertyTableOps: set<OpName> := {GetProp, GetPropAddr, PrintObj, PutProp}

  /** The changing cases that only write memory. */
  const LegacyMemoryOps: set<OpName> := {Storeb, Storew, SetAttr, InsertObj}

  /** The cases that print nothing and do not throw outright. */
  const LegacyQuietOps: set<OpName> := LegacyStoringOps + LegacyBranchingOps + LegacyChangingOps

  /** Every case of the switch; any other opcode reaches `default`. */
  const LegacyOps: set<OpName> := LegacyQuietOps + LegacyPrintOps + PropertyTableOps + {Read}

  /**
   * How many operands a case reads before it can go on. The property cases
   * throw before any operand matters, read's faults do not depend on its
   * operands, and `test` never branches whatever it reads.
   */
  function LegacyArity(op: OpName): nat
  {
    if op in PropertyTableOps || op == Read || op == Test then 0 else Arity(op)
  }

  /**
   * `performStore(state, instruction.resultVariable, value)`: the decoder of
   * index.js gives this dispatcher a descriptor, and with none
   * `variable.type` throws. With one, it is run.js's store.
   */
  function LegacyStore(s: State, result: Option<byte>, value: int): (r: Result<State>)
    ensures result.None? ==> r == Err(NoResultVariable)
    ensures result.Some? ==> r == StoreResult(s, result, value)
  {
    if result.None? then Err(NoResultVariable)
    else
      StoredIsStoredThrough(s, result.value, value);
      StoredThrough(s, DecodeVariable(result.value), value)
  }

  // ---------------------------------------------------------------------
  // Instructions that store a value in the result variable.

  /** The value add, and, or, sub, get_parent, loadb and loadw store. */
  function LegacyStoredValue(mem: seq<byte>, op: OpName, ops: seq<int>): Result<int>
    requires op in LegacyStoringOps && |ops| >= Arity(op)
  {
    match op
    case Add => Ok(Calculated(op, ops))
    case And => Ok(Calculated(op, ops))
    case Or => Ok(Calculated(op, ops))
    case Sub => Ok(Calculated(op, ops))
    case GetParent => Relation(mem, ops[0], RelationParent)
    case Loadb => Ok(ByteAt(mem, ops[0] + 2 * ops[1]))
    case Loadw => Ok(Read16(mem, ops[0] + 2 * ops[1]))
  }

  /** The cases that store a result. */
  function LegacyStoring(s: State, i: Instruction, ops: seq<int>): Result<State>
    requires i.opcode.Some? && i.opcode.value.op in LegacyStoringOps && |ops| >= Arity(i.opcode.value.op)
  {
    var value :- LegacyStoredValue(s.mem, i.opcode.value.op, ops);
    LegacyStore(s, i.resultVariable, value)
  }

  // ---------------------------------------------------------------------
  // Instructions that may branch.

  /**
   * The first half of inc and inc_chk: decodeVariable, performDereference,
   * one added as a word, performStore through the same descriptor. It is
   * run.js's step up.
   */
  function LegacyStepped(s: State, variable: int): (r: Result<(int, State)>)
    ensures r == Stepped(s, variable, true)
  {
    var descriptor := DecodeVariable(variable);
    LoadedIsDereferenced(s, variable);
    var loaded :- Dereferenced(s, descriptor);
    var value := Low16(loaded.0 + 1);
    StoredIsStoredThrough(loaded.1, variable, value);
    match StoredThrough(loaded.1, descriptor, value)
    case Err(f) => Err(f)
    case Ok(t) => Ok((value, t))
  }

  /** get_child and get_sibling: store the link through the descriptor, then branch if it is not 0. */
  function LegacyLinkStep(s: State, op: OpName, i: Instruction, ops: seq<int>): Result<State>
    requires op in LinkReadOps && |ops| >= Arity(op)
  {
    var link :- Relation(s.mem, ops[0], if op == GetChild then RelationChild else RelationSibling);
    var t :- LegacyStore(s, i.resultVariable, link);
    BranchOn(t, i.branch, link != 0)
  }

  /**
   * The cases that may branch. `test` computes `a & b === b`, which is
   * `a & (b === b)`, a number; no number is `=== branchIf`, so it never
   * branches. inc_chk compares the new value and the operand unsigned.
   */
  function LegacyBranching(s: State, i: Instruction, ops: seq<int>): Result<State>
    requires i.opcode.Some? && i.opcode.value.op in LegacyBranchingOps && |ops| >= LegacyArity(i.opcode.value.op)
  {
    var op := i.opcode.value.op;
    if op in {Je, Jg, Jl, Jz} then BranchOn(s, i.branch, Compared(op, ops))
    else if op == Test then Ok(s)
    else if op in {Jin, TestAttr} then
      var test :- StateTest(s, op, ops);
      BranchOn(s, i.branch, test)
    else if op in LinkReadOps then LegacyLinkStep(s, op, i, ops)
    else if op == Inc then
      var stepped :- LegacyStepped(s, ops[0]);
      Ok(stepped.1)
    else if op == IncChk then
      var stepped :- LegacyStepped(s, ops[0]);
      BranchOn(stepped.1, i.branch, stepped.0 > ops[1])
    else JumpStep(s, i, ops)
  }

  // ---------------------------------------------------------------------
  // Instructions that move values, write memory, call or return.

  /**
   * call's frame (executeInstruction.js:53-69): the routine's defaults with
   * the leading ones replaced by the arguments, an empty stack, the result
   * descriptor, the return address, and no argument count.
   */
  function LegacyCalled(s: State, packed: int, args: seq<int>, result: Option<byte>): (r: State)
    ensures var t := Called(s, Call, packed, args, result);
      r == t.(frames := s.frames + [t.frames[|s.frames|].(argCount := None)])
  {
    var routine := RoutineAt(s.mem, UnpackAddress(s.mem, Call, packed));
    var frame := Frame([], WithArguments(routine.locals, args), None, result, s.pc);
    s.(frames := s.frames + [frame], pc := routine.firstInstructionAddress)
  }

  /** call: routine 0 stores 0 and calls nothing. */
  function LegacyCallStep(s: State, i: Instruction, ops: seq<int>): Result<State>
    requires |ops| >= Arity(Call)
  {
    if ops[0] == 0 then LegacyStore(s, i.resultVariable, 0)
    else Ok(LegacyCalled(s, ops[0], ops[1..], i.resultVariable))
  }

  /**
   * insert_obj's unlinking (executeInstruction.js:181-193). When the object
   * is its parent's first child, the parent's child link skips it. Otherwise
   * the walk starts with `nodeSibling` undefined: up to version 3 the link
   * read at address NaN is undefined again and the loop never ends; from
   * version 4 read16 turns it into 0, which is not the object, and the next
   * read of object 0 throws.
   */
  function LegacyUnlinked(mem: seq<byte>, obj: int, parent: int, sibling: int): Result<seq<byte>>
  {
    if parent == 0 then Ok(mem)
    else
      var node :- Relation(mem, parent, RelationChild);
      if node == obj then RelationSet(mem, parent, RelationChild, sibling)
      else if Version(mem) <= 3 then Err(Diverges)
      else Err(InvalidObject(0))
  }

  /**
   * insert_obj (executeInstruction.js:176-196): the three links read first,
   * the object unlinked, then the destination's child, the object's parent
   * and the object's sibling written, in that order.
   */
  function LegacyInserted(mem: seq<byte>, obj: int, dest: int): Result<seq<byte>>
  {
    var parent :- Relation(mem, obj, RelationParent);
    var sibling :- Relation(mem, obj, RelationSibling);
    var destChild :- Relation(mem, dest, RelationChild);
    var m :- LegacyUnlinked(mem, obj, parent, sibling);
    var m1 :- RelationSet(m, dest, RelationChild, obj);
    var m2 :- RelationSet(m1, obj, RelationParent, dest);
    RelationSet(m2, obj, RelationSibling, destChild)
  }

  /**
   * The cases that only write memory: storeb and storew at `array +
   * 2*index`, set_attr (which clears) and insert_obj.
   */
  function LegacyMemoryWritten(mem: seq<byte>, op: OpName, ops: seq<int>): Result<seq<byte>>
    requires op in LegacyMemoryOps && |ops| >= Arity(op)
  {
    if op == Storeb then Ok(Poked(mem, ops[0] + 2 * ops[1], ops[2]))
    else if op == Storew then Ok(Written16(mem, ops[0] + 2 * ops[1], ops[2]))
    else if op == SetAttr then AttributeSet(mem, ops[0], ops[1], false)
    else LegacyInserted(mem, ops[0], ops[1])
  }

  /**
   * The cases that move values, write memory, call or return. set_attr
   * passes no value to setObjectAttribute, so the attribute is cleared.
   */
  function LegacyChanging(s: State, i: Instruction, ops: seq<int>): Result<State>
    requires i.opcode.Some? && i.opcode.value.op in LegacyChangingOps && |ops| >= Arity(i.opcode.value.op)
  {
    var op := i.opcode.value.op;
    if op == Store then StoredThrough(s, DecodeVariable(ops[0]), ops[1])
    else if op == Pull then Pulled(s, DecodeVariable(ops[0]))
    else if op == Push then Pushed(s, ops[0])
    else if op in LegacyMemoryOps then
      var mem :- LegacyMemoryWritten(s.mem, op, ops);
      Ok(s.(mem := mem))
    else if op == Call then LegacyCallStep(s, i, ops)
    else ReturnStep(s, op, ops)
  }

  /** The cases that print nothing. */
  function LegacyQuiet(s: State, i: Instruction, ops: seq<int>): Result<State>
    requires i.opcode.Some? && i.opcode.value.op in LegacyQuietOps && |ops| >= LegacyArity(i.opcode.value.op)
  {
    var op := i.opcode.value.op;
    if op in LegacyStoringOps then LegacyStoring(s, i, ops)
    else if op in LegacyBranchingOps then LegacyBranching(s, i, ops)
    else LegacyChanging(s, i, ops)
  }

  // ---------------------------------------------------------------------
  // read.

  /**
   * The memory read leaves before it throws (executeInstruction.js:434-443):
   * the lowered line, cut at its first newline and to the buffer's room,
   * from the byte after the size byte (two bytes after it from version 5
   * on, with no length byte written), then a zero up to version 4.
   */
  function LegacyReadWritten(mem: seq<byte>, textBuffer: int, input: string): seq<byte>
  {
    var t := StoredText(mem, textBuffer, ReadInput(input));
    var start := TextStart(Version(mem), textBuffer);
    var m := CharsWritten(mem, start, t);
    if Version(m) <= 4 then Poked(m, start + |t|, 0) else m
  }

  /**
   * executeInstruction.js (executeInstruction.js:23-543): the state after
   * the instruction and the text it printed. The property cases call
   * `getObjectPropertiesAddress`, which object.js defines but does not
   * export, and read always throws; an opcode without a case throws too.
   */
  function LegacyExecuted(s: State, i: Instruction, ops: seq<int>, input: Option<string>): Result<Step>
    requires i.opcode.Some?
  {
    var op := i.opcode.value.op;
    if op !in LegacyOps then Err(UnimplementedOpcode)
    else if |ops| < LegacyArity(op) then Err(MissingOperand(|ops|))
    else if op in PropertyTableOps then Err(NotAFunction("getObjectPropertiesAddress"))
    else if op == Read then if input.None? then Err(NoInput) else Err(Unimplemented)
    else if op in LegacyPrintOps then
      var text :- PrintedText(s.mem, op, i, ops);
      Ok(Step(s, text))
    else
      var t :- LegacyQuiet(s, i, ops);
      Ok(Step(t, ""))
  }
}
