// The per-opcode semantics of run.js's executeInstruction (run.js:796-1514)
// as functions of the state: what each instruction leaves in memory, in the
// call frames and in pc, and the text it appends to `output.text`. The
// operands arrive already read (constants as they are, variables loaded),
// and pc already points past the instruction.

module Execution {
  import opened Base
  import opened Rw16
  import opened Header
  import opened Bitwise
  import opened JsNumbers
  import opened Opcodes
  import opened MachineState
  import opened Variables
  import opened Routines
  import opened Objects
  import opened Properties
  import opened TextDecoder
  import opened Instructions
  import opened Input
  import opened Parser

  /** The outcome of one instruction: the new state and the text it printed. */
  datatype Step = Step(state: State, printed: string)

  /**
   * How many operands each instruction reads. The source indexes `operands`
   * without a check; an instruction given fewer stops with MissingOperand,
   * naming the first absent index.
   */
  function Arity(op: OpName): nat
  {
    if op in {PutProp, Storeb, Storew} then 3
    else if op in {Add, OpName.And, ArtShift, Div, GetProp, GetPropAddr, GetNextProp, Loadb, Loadw, LogShift,
      Mod, Mul, OpName.Or, Sub, Jg, Jl, Jin, Test, TestAttr, IncChk, DecChk, Store,
      ClearAttr, SetAttr, InsertObj, Call2n, Call2s, Read} then 2
    else if op in {OpName.Not, GetParent, GetPropLen, CheckArgCount, Jz, GetChild, GetSibling, Inc, Dec,
      Load, Pull, Push, RemoveObj, Ret, Call1n, Call1s, CallVn, Call, CallVs, Jump,
      PrintAddr, PrintChar, PrintNum, PrintObj, PrintPaddr, Random} then 1
    else 0
  }

  /** The families of executeInstruction's cases, by what they read and what they change. */
  datatype Kind =
    | Calculates    // store a number computed from the operands alone
    | QueriesObject // store a number read from the object table
    | LoadsMemory   // store a byte or word of memory
    | Compares      // branch on a comparison of the operands
    | TestsState    // branch on the frame or the object table
    | ReadsLink     // get_child, get_sibling: store a link, branch if it is not 0
    | Counts        // inc, dec, inc_chk, dec_chk
    | MovesValue    // load, store, pull, push
    | WritesObject  // change the object table
    | StoresMemory  // storeb, storew
    | Calls         // push a frame for a routine
    | Returns       // pop a frame
    | Jumps         // jump
    | PrintsReturn  // print_ret
    | Prints        // append text to the output
    | Reads         // read
    | Randoms       // random
    | Styles        // set_text_style, which does nothing
    | NoCase        // no case in the switch

  /** The opcodes of each family with more than one member. */
  const CalculatingOps: set<OpName> :=
    {Add, OpName.And, ArtShift, Div, LogShift, Mod, Mul, OpName.Not, OpName.Or, SaveUndo, Sub}
  const ObjectQueryOps: set<OpName> := {GetParent, GetProp, GetPropAddr, GetPropLen, GetNextProp}
  const MemoryLoadOps: set<OpName> := {Loadb, Loadw}
  const ComparingOps: set<OpName> := {Je, Jg, Jl, Jz, Test}
  const StateTestOps: set<OpName> := {CheckArgCount, Jin, TestAttr}
  const LinkReadOps: set<OpName> := {GetChild, GetSibling}
  const CountingOps: set<OpName> := {Dec, DecChk, Inc, IncChk}
  const ValueMovingOps: set<OpName> := {Load, Pull, Push, Store}
  const ObjectWriteOps: set<OpName> := {ClearAttr, InsertObj, PutProp, RemoveObj, SetAttr}
  const MemoryStoreOps: set<OpName> := {Storeb, Storew}
  const CallOps: set<OpName> := {Call, Call1n, Call1s, Call2n, Call2s, CallVn, CallVs}
  const ReturnOps: set<OpName> := {Ret, RetPopped, Rfalse, Rtrue}
  const PrintOps: set<OpName> := {NewLine, Print, PrintAddr, PrintChar, PrintNum, PrintObj, PrintPaddr}

  function KindOf(op: OpName): Kind
  {
    if op in CalculatingOps then Calculates
    else if op in ObjectQueryOps then QueriesObject
    else if op in MemoryLoadOps then LoadsMemory
    else if op in ComparingOps then Compares
    else if op in StateTestOps then TestsState
    else if op in LinkReadOps then ReadsLink
    else if op in CountingOps then Counts
    else if op in ValueMovingOps then MovesValue
    else if op in ObjectWriteOps then WritesObject
    else if op in MemoryStoreOps then StoresMemory
    else if op in CallOps then Calls
    else if op in ReturnOps then Returns
    else if op == Jump then Jumps
    else if op == PrintRet then PrintsReturn
    else if op in PrintOps then Prints
    else if op == Read then Reads
    else if op == Random then Randoms
    else if op == SetTextStyle then Styles
    else NoCase
  }

  /**
   * `variableStore(state, instruction.resultVariable, value)`. Without a
   * store byte the variable is undefined, which addresses global NaN, and a
   * typed array ignores that write: nothing changes.
   */
  function StoreResult(s: State, result: Option<byte>, value: int): Result<State>
  {
    if result.None? then Ok(s) else Stored(s, result.value, value)
  }

  /**
   * `if (test === instruction.branchIf) performBranch(...)`: without branch
   * bytes `branchIf` is undefined and no boolean equals it.
   */
  function BranchOn(s: State, branch: Option<BranchInfo>, test: bool): Result<State>
  {
    if branch.Some? && test == branch.value.branchIf then Branched(s, branch.value.offset) else Ok(s)
  }

  /** `instruction.text` in a string concatenation: an absent text reads as "undefined". */
  function TextOf(text: Option<string>): string
  {
    if text.Some? then text.value else "undefined"
  }

  /**
   * `String.fromCharCode(code)`: the UTF-16 unit `code & 0xFFFF`. A lone
   * surrogate is no character here and stands as U+FFFD.
   */
  function CharOf(code: int): (r: char)
    ensures !(0xD800 <= Low16(code) < 0xE000) ==> r as int == Low16(code)
  {
    var u := Low16(code);
    if 0xD800 <= u < 0xE000 then '�' else u as char
  }

  // ---------------------------------------------------------------------
  // Instructions that store a value in the result variable.

  /** The number the arithmetic and bitwise instructions store. */
  function Calculated(op: OpName, ops: seq<int>): int
    requires op in CalculatingOps && |ops| >= Arity(op)
  {
    match op
    case Add => Low16(ops[0] + ops[1])
    case Sub => Low16(ops[0] - ops[1])
    case Mul => Low16(ops[0] * ops[1])
    case And => JsAnd(ops[0], ops[1])
    case Or => JsOr(ops[0], ops[1])
    case Not => Low16(-1 - ops[0]) // `~a` is `-a - 1` on 32 bits
    case Div => DivWord(Int16(ops[0]), Int16(ops[1]))
    case Mod => ModWord(Int16(ops[0]), Int16(ops[1]))
    case ArtShift =>
      var number, places := Int16(ops[0]), Int16(ops[1]);
      if places < 0 then ShiftRightWord(number, -places) else ShiftLeftWord(number, places)
    case LogShift =>
      var places := Int16(ops[1]);
      if places < 0 then ShiftRightUnsignedWord(ops[0], -places) else ShiftLeftWord(ops[0], places)
    case SaveUndo => Low16(-1)
  }

  /** The number the object-table queries store. */
  function ObjectValue(mem: seq<byte>, op: OpName, ops: seq<int>): Result<int>
    requires op in ObjectQueryOps && |ops| >= Arity(op)
  {
    match op
    case GetParent => Relation(mem, ops[0], RelationParent)
    case GetProp =>
      var data :- PropertyData(mem, ops[0], ops[1]);
      if data.Some? then Ok(if |data.value| == 1 then data.value[0] else Read16(data.value, 0))
      else DefaultPropertyData(mem, ops[1])
    case GetPropAddr => PropertyDataAddressOf(mem, ops[0], ops[1])
    case GetPropLen =>
      // the length is never 0, so the source's throw for a zero length is never reached
      Ok(DataLengthFromDataAddress(mem, ops[0]))
    case GetNextProp =>
      if ops[1] == 0 then FirstPropertyNumber(mem, ops[0]) else NextPropertyNumber(mem, ops[0], ops[1])
  }

  /** loadb and loadw: the address is the operands' sum, as a word. */
  function LoadedFrom(mem: seq<byte>, op: OpName, ops: seq<int>): int
    requires op in MemoryLoadOps && |ops| >= Arity(op)
  {
    match op
    case Loadb => ByteAt(mem, Low16(ops[0] + ops[1]))
    case Loadw => Read16(mem, Low16(ops[0] + 2 * ops[1]))
  }

  // ---------------------------------------------------------------------
  // Instructions that branch on a condition.

  /** `operands.slice(1).some(op => operands[0] === op)`, on the slice. */
  function AnyEqual(x: int, rest: seq<int>): bool
  {
    if rest == [] then false else x == rest[0] || AnyEqual(x, rest[1..])
  }

  /** The comparisons, on the operands alone. */
  function Compared(op: OpName, ops: seq<int>): bool
    requires op in ComparingOps && |ops| >= Arity(op)
  {
    match op
    case Je => |ops| > 0 && AnyEqual(ops[0], ops[1..])
    case Jg => Int16(ops[0]) > Int16(ops[1])
    case Jl => Int16(ops[0]) < Int16(ops[1])
    case Jz => ops[0] == 0
    case Test => JsAnd(ops[0], ops[1]) == ops[1]
  }

  /** The tests of the current frame and of the object table. */
  function StateTest(s: State, op: OpName, ops: seq<int>): Result<bool>
    requires op in StateTestOps && |ops| >= Arity(op)
  {
    match op
    case CheckArgCount =>
      var frame :- TopFrame(s);
      Ok(frame.argCount == Some(ops[0]))
    case Jin =>
      var parent :- Relation(s.mem, ops[0], RelationParent);
      Ok(parent == ops[1])
    case TestAttr => Attribute(s.mem, ops[0], ops[1])
  }

  /** get_child and get_sibling: store the link, then branch if it is not 0. */
  function LinkStep(s: State, op: OpName, i: Instruction, ops: seq<int>): Result<State>
    requires op in LinkReadOps && |ops| >= Arity(op)
  {
    var link :- Relation(s.mem, ops[0], if op == GetChild then RelationChild else RelationSibling);
    var t :- StoreResult(s, i.resultVariable, link);
    BranchOn(t, i.branch, link != 0)
  }

  // ---------------------------------------------------------------------
  // Instructions on the variable the first operand names.

  /** The common part of inc, dec and the _chk forms: load the variable, add or take one as a word, store it back. */
  function Stepped(s: State, variable: int, up: bool): Result<(int, State)>
  {
    var loaded :- Loaded(s, variable);
    var value := if up then Low16(loaded.0 + 1) else Low16(loaded.0 - 1);
    var t :- Stored(loaded.1, variable, value);
    Ok((value, t))
  }

  /** inc and dec add or take one, as a word; the _chk forms then compare the new value, signed. */
  function Counted(s: State, op: OpName, i: Instruction, ops: seq<int>): Result<State>
    requires op in CountingOps && |ops| >= Arity(op)
  {
    var stepped :- Stepped(s, ops[0], op == Inc || op == IncChk);
    var value := stepped.0;
    if op == IncChk then BranchOn(stepped.1, i.branch, Int16(value) > Int16(ops[1]))
    else if op == DecChk then BranchOn(stepped.1, i.branch, Int16(value) < Int16(ops[1]))
    else Ok(stepped.1)
  }

  /** load, store, pull and push move a value between variables, operands and the stack. */
  function ValueMoved(s: State, op: OpName, i: Instruction, ops: seq<int>): Result<State>
    requires op in ValueMovingOps && |ops| >= Arity(op)
  {
    match op
    case Load =>
      var loaded :- Loaded(s, ops[0]);
      StoreResult(loaded.1, i.resultVariable, loaded.0)
    case Store => Stored(s, ops[0], ops[1])
    case Pull =>
      // variableStore branches on the number as decodeVariable does (StoredIsStoredThrough)
      Pulled(s, DecodeVariable(ops[0]))
    case Push => Pushed(s, ops[0])
  }

  // ---------------------------------------------------------------------
  // Instructions that write memory.

  /** The object-table writes. */
  function ObjectWritten(mem: seq<byte>, op: OpName, ops: seq<int>): Result<seq<byte>>
    requires op in ObjectWriteOps && |ops| >= Arity(op)
  {
    match op
    case RemoveObj => Moved(mem, ops[0], 0)
    case InsertObj => Moved(mem, ops[0], ops[1])
    case ClearAttr => AttributeSet(mem, ops[0], ops[1], false)
    case SetAttr => AttributeSet(mem, ops[0], ops[1], true)
    case PutProp => PropertyDataSet(mem, ops[0], ops[1], ops[2])
  }

  /** storeb and storew: the address is the operands' sum, as a word. */
  function StoredTo(mem: seq<byte>, op: OpName, ops: seq<int>): seq<byte>
    requires op in MemoryStoreOps && |ops| >= Arity(op)
  {
    match op
    case Storeb => Poked(mem, Low16(ops[0] + ops[1]), ops[2])
    case Storew => Written16(mem, Low16(ops[0] + 2 * ops[1]), ops[2])
  }

  // ---------------------------------------------------------------------
  // Calls, returns and jump.

  /** The calls: the _n forms keep no result; call, call_vs and call_vn of routine 0 call nothing. */
  function CallStep(s: State, op: OpName, i: Instruction, ops: seq<int>): Result<State>
    requires op in CallOps && |ops| >= Arity(op)
  {
    match op
    case Call1n => Ok(Called(s, op, ops[0], [], None))
    case Call1s => Ok(Called(s, op, ops[0], [], i.resultVariable))
    case Call2n => Ok(Called(s, op, ops[0], [ops[1]], None))
    case Call2s => Ok(Called(s, op, ops[0], [ops[1]], i.resultVariable))
    case CallVn => if ops[0] != 0 then Ok(Called(s, op, ops[0], ops[1..], None)) else Ok(s)
    case Call | CallVs =>
      if ops[0] == 0 then StoreResult(s, i.resultVariable, 0)
      else Ok(Called(s, op, ops[0], ops[1..], i.resultVariable))
  }

  /** The returns. */
  function ReturnStep(s: State, op: OpName, ops: seq<int>): Result<State>
    requires op in ReturnOps && |ops| >= Arity(op)
  {
    match op
    case Rtrue => Returned(s, 1)
    case Rfalse => Returned(s, 0)
    case Ret => Returned(s, ops[0])
    case RetPopped =>
      var popped :- Loaded(s, 0);
      Returned(popped.1, popped.0)
  }

  /** jump: there is no `break` after it, so it goes on into the jz case. */
  function JumpStep(s: State, i: Instruction, ops: seq<int>): Result<State>
    requires |ops| >= Arity(Jump)
  {
    var t :- Branched(s, ops[0]);
    BranchOn(t, i.branch, ops[0] == 0)
  }

  // ---------------------------------------------------------------------
  // Instructions that print.

  /** The text these instructions append to `output.text`. */
  function PrintedText(mem: seq<byte>, op: OpName, i: Instruction, ops: seq<int>): Result<string>
    requires op in PrintOps && |ops| >= Arity(op)
  {
    match op
    case NewLine => Ok("\n")
    case Print => Ok(TextOf(i.text))
    case PrintAddr =>
      var decoded :- DecodedText(mem, ops[0], false);
      Ok(decoded.0)
    case PrintChar => Ok([CharOf(ops[0])])
    case PrintNum => Ok(DecimalString(Int16(ops[0])))
    case PrintObj => ObjectName(mem, ops[0])
    case PrintPaddr =>
      var decoded :- DecodedText(mem, UnpackAddress(mem, op, ops[0]), false);
      Ok(decoded.0)
  }

  // ---------------------------------------------------------------------
  // read and random.

  /**
   * read: the lowered line, cut at its first newline, into the text buffer
   * and the parse buffer, then in version 5 and later the terminating
   * character 10 into the result variable.
   */
  function ReadStep(s: State, i: Instruction, ops: seq<int>, input: Option<string>): Result<State>
    requires |ops| >= Arity(Read)
  {
    if input.None? then Err(NoInput)
    else
      var mem :- ParsedText(s.mem, ReadInput(input.value), ops[0], ops[1]);
      var t := s.(mem := mem);
      if Version(mem) >= 5 then StoreResult(t, i.resultVariable, 10) else Ok(t)
  }

  /** random: a positive range stores what the `random` callback gives; the reseeding case does nothing. */
  function RandomStep(s: State, i: Instruction, ops: seq<int>, random: int -> int): Result<State>
    requires |ops| >= Arity(Random)
  {
    if ops[0] > 0 then StoreResult(s, i.resultVariable, random(ops[0])) else Ok(s)
  }

  /** The kinds that store a value in the result variable, or do nothing, or have no case. */
  const StoringKinds: set<Kind> := {Calculates, QueriesObject, LoadsMemory, Reads, Randoms, Styles, NoCase}

  /** The kinds that may branch. */
  const BranchingKinds: set<Kind> := {Compares, TestsState, ReadsLink, Counts, Jumps}

  /** The kinds that write memory, move values or change the frame stack. */
  const ChangingKinds: set<Kind> := {MovesValue, WritesObject, StoresMemory, Calls, Returns}

  /** The cases of executeInstruction that store a result (or do nothing). */
  function StoringStep(s: State, i: Instruction, ops: seq<int>, input: Option<string>, random: int -> int): Result<State>
    requires i.opcode.Some? && |ops| >= Arity(i.opcode.value.op) && KindOf(i.opcode.value.op) in StoringKinds
  {
    var op := i.opcode.value.op;
    var kind := KindOf(op);
    if kind == Calculates then StoreResult(s, i.resultVariable, Calculated(op, ops))
    else if kind == QueriesObject then
      var value :- ObjectValue(s.mem, op, ops);
      StoreResult(s, i.resultVariable, value)
    else if kind == LoadsMemory then StoreResult(s, i.resultVariable, LoadedFrom(s.mem, op, ops))
    else if kind == Reads then ReadStep(s, i, ops, input)
    else if kind == Randoms then RandomStep(s, i, ops, random)
    else if kind == Styles then Ok(s)
    else Err(UnimplementedOpcode)
  }

  /** The cases of executeInstruction that may branch. */
  function BranchingStep(s: State, i: Instruction, ops: seq<int>): Result<State>
    requires i.opcode.Some? && |ops| >= Arity(i.opcode.value.op) && KindOf(i.opcode.value.op) in BranchingKinds
  {
    var op := i.opcode.value.op;
    var kind := KindOf(op);
    if kind == Compares then BranchOn(s, i.branch, Compared(op, ops))
    else if kind == TestsState then
      var test :- StateTest(s, op, ops);
      BranchOn(s, i.branch, test)
    else if kind == ReadsLink then LinkStep(s, op, i, ops)
    else if kind == Counts then Counted(s, op, i, ops)
    else JumpStep(s, i, ops)
  }

  /** The cases of executeInstruction that move values, write memory, call or return. */
  function ChangingStep(s: State, i: Instruction, ops: seq<int>): Result<State>
    requires i.opcode.Some? && |ops| >= Arity(i.opcode.value.op) && KindOf(i.opcode.value.op) in ChangingKinds
  {
    var op := i.opcode.value.op;
    var kind := KindOf(op);
    if kind == MovesValue then ValueMoved(s, op, i, ops)
    else if kind == WritesObject then
      var mem :- ObjectWritten(s.mem, op, ops);
      Ok(s.(mem := mem))
    else if kind == StoresMemory then Ok(s.(mem := StoredTo(s.mem, op, ops)))
    else if kind == Calls then CallStep(s, op, i, ops)
    else ReturnStep(s, op, ops)
  }

  /** The kinds that print nothing. */
  const QuietKinds: set<Kind> := StoringKinds + BranchingKinds + ChangingKinds

  /** The cases of executeInstruction that print nothing. */
  function QuietStep(s: State, i: Instruction, ops: seq<int>, input: Option<string>, random: int -> int): Result<State>
    requires i.opcode.Some? && |ops| >= Arity(i.opcode.value.op) && KindOf(i.opcode.value.op) in QuietKinds
  {
    var kind := KindOf(i.opcode.value.op);
    if kind in StoringKinds then StoringStep(s, i, ops, input, random)
    else if kind in BranchingKinds then BranchingStep(s, i, ops)
    else ChangingStep(s, i, ops)
  }

  /** print_ret and the printing instructions: the text they print, and the state after. */
  function PrintingStep(s: State, i: Instruction, ops: seq<int>): Result<Step>
    requires i.opcode.Some? && |ops| >= Arity(i.opcode.value.op) && KindOf(i.opcode.value.op) in {PrintsReturn, Prints}
  {
    var op := i.opcode.value.op;
    if KindOf(op) == PrintsReturn then
      var t :- Returned(s, 1);
      Ok(Step(t, TextOf(i.text) + "\n"))
    else
      var text :- PrintedText(s.mem, op, i, ops);
      Ok(Step(s, text))
  }

  /**
   * executeInstruction (run.js:796-1514): the state after the instruction
   * and the text it printed. print_ret prints before it returns, so a
   * failed return still leaves its text printed; here the step fails as a
   * whole.
   */
  function Executed(s: State, i: Instruction, ops: seq<int>, input: Option<string>, random: int -> int): Result<Step>
    requires i.opcode.Some?
  {
    var op := i.opcode.value.op;
    if |ops| < Arity(op) then Err(MissingOperand(|ops|))
    else if KindOf(op) in QuietKinds then
      var t :- QuietStep(s, i, ops, input, random);
      Ok(Step(t, ""))
    else PrintingStep(s, i, ops)
  }
}
