// What executeInstruction.js promises, and where it parts from run.js: the
// arithmetic and the calls it shares, the frame its call pushes and the
// return that pops it, the comparisons, push and pull, and the slips of
// set_attr, test, inc_chk, loadb/storeb and insert_obj, each shown on an
// input and set against run.js's behaviour.

module LegacyLaws {
  import opened Base
  import opened Rw16
  import opened Header
  import opened JsNumbers
  import opened Opcodes
  import opened MachineState
  import opened Variables
  import opened Routines
  import opened Objects
  import opened Instructions
  import opened Input
  import opened Parser
  import opened Execution
  import opened ExecutionLaws
  import opened ObjectLaws
  import opened LegacyExecution

  // ---------------------------------------------------------------------
  // Arithmetic and the result store.

  /** add and sub store the sum or difference modulo 2^16, as run.js does. */
  lemma LegacyAddSub(s: State, i: Instruction, a: int, b: int)
    requires i.opcode.Some? && i.opcode.value.op in {Add, Sub} && i.resultVariable.Some?
    ensures var value := if i.opcode.value.op == Add then a + b else a - b;
      LegacyStoring(s, i, [a, b]) == Stored(s, i.resultVariable.value, value % 0x10000)
    ensures LegacyStoring(s, i, [a, b]) == StoreResult(s, i.resultVariable, Calculated(i.opcode.value.op, [a, b]))
  {
    var op := i.opcode.value.op;
    var ops := [a, b];
    assert ops[0] == a && ops[1] == b;
    var value := Calculated(op, ops);
    assert value == (if op == Add then a + b else a - b) % 0x10000;
    calc {
      LegacyStoring(s, i, ops);
    == { assert LegacyStoredValue(s.mem, op, ops) == Ok(value); }
      LegacyStore(s, i.resultVariable, value);
    ==
      StoreResult(s, i.resultVariable, value);
    ==
      Stored(s, i.resultVariable.value, value);
    }
  }

  /** With a result variable, and, or and get_parent store what run.js stores. */
  lemma LegacyStoringAsRun(s: State, i: Instruction, ops: seq<int>, input: Option<string>, random: int -> int)
    requires i.opcode.Some? && i.opcode.value.op in {Add, OpName.And, OpName.Or, Sub, GetParent} && i.resultVariable.Some?
    requires |ops| >= Arity(i.opcode.value.op)
    ensures LegacyStoring(s, i, ops) == StoringStep(s, i, ops, input, random)
  {
    var op := i.opcode.value.op;
    assert KindOf(op) == if op == GetParent then QueriesObject else Calculates;
  }

  /** Without a result variable the store throws, where run.js stores nothing. */
  lemma LegacyStoreNeedsVariable(s: State, i: Instruction, ops: seq<int>)
    requires i.opcode.Some? && i.opcode.value.op in {Add, OpName.And, OpName.Or, Sub} && i.resultVariable.None?
    requires |ops| >= Arity(i.opcode.value.op)
    ensures LegacyStoring(s, i, ops) == Err(NoResultVariable)
    ensures StoreResult(s, i.resultVariable, Calculated(i.opcode.value.op, ops)) == Ok(s)
  {
  }

  // ---------------------------------------------------------------------
  // loadb, loadw, storeb, storew.

  /**
   * loadb reads the byte at `array + 2*index`, not at `array + index`: for
   * any two bytes that differ there, it reads the other one than run.js.
   */
  lemma LegacyLoadbDoublesIndex(mem: seq<byte>, a: int, b: int)
    requires 0 <= a && 0 <= b && a + 2 * b < |mem| && a + b < 0x10000
    requires mem[a + b] != mem[a + 2 * b]
    ensures LegacyStoredValue(mem, Loadb, [a, b]) == Ok(mem[a + 2 * b] as int)
    ensures LoadedFrom(mem, Loadb, [a, b]) == mem[a + b] as int
    ensures LegacyStoredValue(mem, Loadb, [a, b]) != Ok(LoadedFrom(mem, Loadb, [a, b]))
  {
    var ops := [a, b];
    assert ops[0] == a && ops[1] == b;
  }

  /** storeb then loadb with the same operands reads the byte back, modulo 256: the two slips agree with each other. */
  lemma LegacyStorebThenLoadb(s: State, store: Instruction, a: int, b: int, c: int)
    requires store.opcode.Some? && store.opcode.value.op == Storeb
    requires 0 <= a + 2 * b < |s.mem|
    ensures LegacyChanging(s, store, [a, b, c]).Ok?
    ensures LegacyStoredValue(LegacyChanging(s, store, [a, b, c]).value.mem, Loadb, [a, b]) == Ok(c % 256)
  {
    var ops := [a, b, c];
    assert ops[0] == a && ops[1] == b && ops[2] == c;
    var loads := [a, b];
    assert loads[0] == a && loads[1] == b;
  }

  /** storew then loadw with the same operands reads the word back, modulo 2^16. */
  lemma LegacyStorewThenLoadw(s: State, store: Instruction, a: int, b: int, c: int)
    requires store.opcode.Some? && store.opcode.value.op == Storew
    requires 0 <= a + 2 * b && a + 2 * b + 1 < |s.mem|
    ensures LegacyChanging(s, store, [a, b, c]).Ok?
    ensures LegacyStoredValue(LegacyChanging(s, store, [a, b, c]).value.mem, Loadw, [a, b]) == Ok(c % 0x10000)
  {
    var ops := [a, b, c];
    assert ops[0] == a && ops[1] == b && ops[2] == c;
    var loads := [a, b];
    assert loads[0] == a && loads[1] == b;
    Read16OfWritten16(s.mem, a + 2 * b, c);
  }

  // ---------------------------------------------------------------------
  // Comparisons.

  /** je branches exactly when some later operand equals the first. */
  lemma LegacyJe(s: State, i: Instruction, ops: seq<int>)
    requires i.opcode.Some? && i.opcode.value.op == Je
    ensures LegacyBranching(s, i, ops) == BranchOn(s, i.branch, |ops| > 0 && ops[0] in ops[1..])
  {
    JeFindsTheFirstOperand(ops);
  }

  /** jl and jg compare their operands as signed words. */
  lemma LegacySignedJumps(s: State, i: Instruction, a: int, b: int)
    requires i.opcode.Some? && i.opcode.value.op in {Jl, Jg}
    requires 0 <= a < 0x10000 && 0 <= b < 0x10000
    ensures LegacyBranching(s, i, [a, b])
      == BranchOn(s, i.branch, if i.opcode.value.op == Jl then Signed(a) < Signed(b) else Signed(a) > Signed(b))
  {
    SignedComparisons(a, b);
    SignedComparisons(b, a);
  }

  /** test never branches, whatever its operands. */
  lemma LegacyTestNeverBranches(s: State, i: Instruction, ops: seq<int>)
    requires i.opcode.Some? && i.opcode.value.op == Test
    ensures LegacyBranching(s, i, ops) == Ok(s)
  {
  }

  /**
   * test 1 1 with "branch on true" to offset 0x10: every flag is set, and
   * run.js, which branches on that comparison, moves pc; executeInstruction.js
   * stays.
   */
  lemma LegacyTestMissesFlags(s: State, i: Instruction)
    requires i.opcode.Some? && i.opcode.value.op == Test && i.branch == Some(BranchInfo(true, 0x10))
    ensures Compared(Test, [1, 1])
    ensures BranchOn(s, i.branch, Compared(Test, [1, 1])) == Ok(s.(pc := s.pc + 0x0E))
    ensures LegacyBranching(s, i, [1, 1]) == Ok(s)
  {
    TestChecksEveryFlag(1, 1);
    Int16Views(0x10);
    LegacyTestNeverBranches(s, i, [1, 1]);
  }

  // ---------------------------------------------------------------------
  // inc and inc_chk.

  /** inc is run.js's inc. */
  lemma LegacyIncAsRun(s: State, i: Instruction, variable: int)
    requires i.opcode.Some? && i.opcode.value.op == Inc
    ensures LegacyBranching(s, i, [variable]) == Counted(s, Inc, i, [variable])
  {
    var ops := [variable];
    assert ops[0] == variable;
  }

  /** inc_chk agrees with run.js while the new value and the bound are both below 0x8000. */
  lemma LegacyIncChkAgreesBelow(s: State, i: Instruction, variable: int, bound: int, value: int, t: State)
    requires i.opcode.Some? && i.opcode.value.op == IncChk
    requires Stepped(s, variable, true) == Ok((value, t)) && value < 0x8000 && 0 <= bound < 0x8000
    ensures LegacyBranching(s, i, [variable, bound]) == Counted(s, IncChk, i, [variable, bound])
  {
    IncChkCompares(s, i, variable, bound, value, t);
    SteppedIsAWord(s, variable, value, t);
    Int16Views(value);
    Int16Views(bound);
  }

  /**
   * inc_chk of a variable holding 0xFFFE (-2) against 0: the new value
   * 0xFFFF is -1, not greater than 0, so run.js does not branch; compared
   * unsigned it is greater, and executeInstruction.js branches.
   */
  lemma LegacyIncChkUnsigned(s: State, i: Instruction, variable: int, t: State)
    requires i.opcode.Some? && i.opcode.value.op == IncChk && i.branch == Some(BranchInfo(true, 0x10))
    requires Stepped(s, variable, true) == Ok((0xFFFF, t))
    ensures Counted(s, IncChk, i, [variable, 0]) == Ok(t)
    ensures LegacyBranching(s, i, [variable, 0]) == Ok(t.(pc := t.pc + 0x0E))
  {
    IncChkCompares(s, i, variable, 0, 0xFFFF, t);
    Int16Views(0xFFFF);
    Int16Views(0);
  }

  /** Both inc_chk steps, side by side: the same increment, compared signed by run.js and unsigned here. */
  lemma IncChkCompares(s: State, i: Instruction, variable: int, bound: int, value: int, t: State)
    requires i.opcode.Some? && i.opcode.value.op == IncChk
    requires Stepped(s, variable, true) == Ok((value, t))
    ensures LegacyBranching(s, i, [variable, bound]) == BranchOn(t, i.branch, value > bound)
    ensures Counted(s, IncChk, i, [variable, bound]) == BranchOn(t, i.branch, Int16(value) > Int16(bound))
  {
    var ops := [variable, bound];
    assert ops[0] == variable && ops[1] == bound;
  }

  /** The stepped value is a word. */
  lemma SteppedIsAWord(s: State, variable: int, value: int, t: State)
    requires Stepped(s, variable, true) == Ok((value, t))
    ensures 0 <= value < 0x10000
  {
  }

  // ---------------------------------------------------------------------
  // set_attr.

  /** set_attr clears the attribute: test_attr afterwards does not branch on true. */
  lemma LegacySetAttrClears(s: State, i: Instruction, obj: int, attribute: int)
    requires i.opcode.Some? && i.opcode.value.op == SetAttr
    requires AttributeLocation(s.mem, obj, attribute).Ok?
    requires 0 <= AttributeLocation(s.mem, obj, attribute).value.0 < |s.mem|
    ensures LegacyChanging(s, i, [obj, attribute]).Ok?
    ensures StateTest(LegacyChanging(s, i, [obj, attribute]).value, TestAttr, [obj, attribute]) == Ok(false)
  {
    var ops := [obj, attribute];
    assert ops[0] == obj && ops[1] == attribute;
    AttributeWriteReads(s.mem, obj, attribute, false);
  }

  // ---------------------------------------------------------------------
  // Moving values.

  /** store, pull and push are run.js's. */
  lemma LegacyMovesAsRun(s: State, i: Instruction, ops: seq<int>)
    requires i.opcode.Some? && i.opcode.value.op in {Store, Pull, Push} && |ops| >= Arity(i.opcode.value.op)
    ensures LegacyChanging(s, i, ops) == ValueMoved(s, i.opcode.value.op, i, ops)
  {
    var op := i.opcode.value.op;
    if op == Store {
      StoredIsStoredThrough(s, ops[0], ops[1]);
    }
  }

  /** push then pull into a variable stores the pushed value there and leaves the stack as it was. */
  lemma LegacyPushThenPull(s: State, push: Instruction, pull: Instruction, value: int, variable: int)
    requires push.opcode.Some? && push.opcode.value.op == Push
    requires pull.opcode.Some? && pull.opcode.value.op == Pull
    requires |s.frames| > 0
    ensures LegacyChanging(s, push, [value]).Ok?
    ensures LegacyChanging(LegacyChanging(s, push, [value]).value, pull, [variable])
      == StoredThrough(s, DecodeVariable(variable), value)
  {
    LegacyMovesAsRun(s, push, [value]);
    PushThenPull(s, push, value, variable);
    var t := LegacyChanging(s, push, [value]).value;
    LegacyMovesAsRun(t, pull, [variable]);
    assert ValueMoved(t, Pull, pull, [variable]) == ValueMoved(t, Pull, push, [variable]);
    StoredIsStoredThrough(s, variable, value);
  }

  // ---------------------------------------------------------------------
  // call and the returns.

  /** call of routine 0 is run.js's: it stores 0 and pushes no frame. */
  lemma LegacyCallZero(s: State, i: Instruction, ops: seq<int>)
    requires i.opcode.Some? && i.opcode.value.op == Call && |ops| >= 1 && ops[0] == 0
    ensures i.resultVariable.Some? ==> LegacyChanging(s, i, ops) == CallStep(s, Call, i, ops)
    ensures LegacyChanging(s, i, ops).Ok? ==>
      |LegacyChanging(s, i, ops).value.frames| == |s.frames| && LegacyChanging(s, i, ops).value.pc == s.pc
  {
  }

  /**
   * call of any other routine pushes one frame: an empty stack, the
   * routine's locals with the first min(#args, #locals) replaced by the
   * arguments, no argument count, the result variable, and the address
   * after the instruction; pc goes to the routine's first instruction.
   */
  lemma LegacyCallFrame(s: State, i: Instruction, ops: seq<int>)
    requires i.opcode.Some? && i.opcode.value.op == Call && |ops| >= 1 && ops[0] != 0
    ensures LegacyChanging(s, i, ops).Ok?
    ensures var t := LegacyChanging(s, i, ops).value;
      var address := UnpackAddress(s.mem, Call, ops[0]);
      var args := ops[1..];
      && t.mem == s.mem
      && |t.frames| == |s.frames| + 1 && t.frames[..|s.frames|] == s.frames
      && t.frames[|s.frames|].stack == [] && t.frames[|s.frames|].argCount == None
      && t.frames[|s.frames|].result == i.resultVariable && t.frames[|s.frames|].nextAddress == s.pc
      && |t.frames[|s.frames|].locals| == ByteAt(s.mem, address)
      && (forall k | 0 <= k < |args| && k < |t.frames[|s.frames|].locals| :: t.frames[|s.frames|].locals[k] == args[k])
      && t.pc == address + 1 + (if Version(s.mem) <= 4 then 2 * ByteAt(s.mem, address) else 0)
  {
    var t := LegacyChanging(s, i, ops).value;
    assert t == LegacyCalled(s, ops[0], ops[1..], i.resultVariable);
    CallPushesOneFrame(s, Call, ops[0], ops[1..], i.resultVariable);
    assert t.frames[..|s.frames|] == s.frames;
  }

  /** Returning from the frame call pushed gives back the caller's state, with the value stored in the result variable. */
  lemma LegacyCallThenReturn(s: State, packed: int, args: seq<int>, result: Option<byte>, value: int)
    ensures Returned(LegacyCalled(s, packed, args, result), value)
      == if result.None? then Ok(s) else Stored(s, result.value, value)
  {
    var t := LegacyCalled(s, packed, args, result);
    assert t.frames[..|t.frames| - 1] == s.frames;
    assert t.(frames := s.frames) == s.(pc := t.pc);
    if result.Some? {
      StoredIgnoresPc(s, result.value, value, t.pc);
    }
  }

  // ---------------------------------------------------------------------
  // insert_obj.

  /**
   * When insert_obj finishes, the object's parent is the destination, the
   * destination's first child is the object, and the object's sibling is
   * the destination's first child as read before the object was unlinked.
   */
  lemma LegacyInsertLinks(mem: seq<byte>, obj: int, dest: int)
    requires AllLinksInMemory(mem) && LegacyInserted(mem, obj, dest).Ok?
    ensures var m := LegacyInserted(mem, obj, dest).value;
      && Relation(m, obj, RelationParent) == Ok(dest)
      && Relation(m, dest, RelationChild) == Ok(obj)
      && Relation(m, obj, RelationSibling) == Relation(mem, dest, RelationChild)
  {
    var parent := Relation(mem, obj, RelationParent).value;
    var sibling := Relation(mem, obj, RelationSibling).value;
    var destChild := Relation(mem, dest, RelationChild).value;
    var m := LegacyUnlinked(mem, obj, parent, sibling).value;
    UnlinkedKeepsLinks(mem, obj, parent, sibling);
    var m1 := RelationSet(m, dest, RelationChild, obj).value;
    StepLinks(m, dest, RelationChild, obj, dest, RelationChild);
    RelationSetKeepsLinksInMemory(m, dest, RelationChild, obj);
    var m2 := RelationSet(m1, obj, RelationParent, dest).value;
    StepLinks(m1, obj, RelationParent, dest, dest, RelationChild);
    RelationSetKeepsLinksInMemory(m1, obj, RelationParent, dest);
    assert LegacyInserted(mem, obj, dest) == RelationSet(m2, obj, RelationSibling, destChild);
    StepLinks(m2, obj, RelationSibling, destChild, obj, RelationParent);
    StepLinks(m2, obj, RelationSibling, destChild, dest, RelationChild);
  }

  /** The unlinking keeps the version, the object bases and every link inside memory. */
  lemma UnlinkedKeepsLinks(mem: seq<byte>, obj: int, parent: int, sibling: int)
    requires AllLinksInMemory(mem) && LegacyUnlinked(mem, obj, parent, sibling).Ok?
    ensures var m := LegacyUnlinked(mem, obj, parent, sibling).value;
      && AllLinksInMemory(m) && Version(m) == Version(mem)
      && forall id :: ObjectBase(m, id) == ObjectBase(mem, id)
  {
    if parent != 0 {
      RelationSetKeepsLinksInMemory(mem, parent, RelationChild, sibling);
    }
  }

  /**
   * An object that is not its parent's first child cannot be moved: up to
   * version 3 the walk never ends, from version 4 on it reads object 0.
   */
  lemma LegacyInsertWalkFails(mem: seq<byte>, obj: int, dest: int)
    requires Relation(mem, obj, RelationParent).Ok? && Relation(mem, obj, RelationParent).value != 0
    requires Relation(mem, dest, RelationChild).Ok?
    requires Relation(mem, Relation(mem, obj, RelationParent).value, RelationChild).Ok?
    requires Relation(mem, Relation(mem, obj, RelationParent).value, RelationChild).value != obj
    ensures LegacyInserted(mem, obj, dest) == Err(if Version(mem) <= 3 then Diverges else InvalidObject(0))
  {
  }

  /**
   * insert_obj of an object into the parent whose first child it already
   * is: the destination's child is read before the object is unlinked, so
   * the object becomes its own sibling.
   */
  lemma LegacyReinsertLoops(mem: seq<byte>, obj: int, dest: int)
    requires AllLinksInMemory(mem)
    requires Relation(mem, obj, RelationParent) == Ok(dest) && dest != 0
    requires Relation(mem, dest, RelationChild) == Ok(obj)
    ensures LegacyInserted(mem, obj, dest).Ok?
    ensures Relation(LegacyInserted(mem, obj, dest).value, obj, RelationSibling) == Ok(obj)
  {
    assert ObjectBase(mem, obj).Ok? && ObjectBase(mem, dest).Ok?;
    var sibling := Relation(mem, obj, RelationSibling).value;
    assert LegacyUnlinked(mem, obj, dest, sibling) == RelationSet(mem, dest, RelationChild, sibling);
    StepLinks(mem, dest, RelationChild, sibling, dest, RelationChild);
    UnlinkedKeepsLinks(mem, obj, dest, sibling);
    var m := LegacyUnlinked(mem, obj, dest, sibling).value;
    StepLinks(m, dest, RelationChild, obj, dest, RelationChild);
    RelationSetKeepsLinksInMemory(m, dest, RelationChild, obj);
    var m1 := RelationSet(m, dest, RelationChild, obj).value;
    StepLinks(m1, obj, RelationParent, dest, obj, RelationSibling);
    RelationSetKeepsLinksInMemory(m1, obj, RelationParent, dest);
    var m2 := RelationSet(m1, obj, RelationParent, dest).value;
    StepLinks(m2, obj, RelationSibling, obj, obj, RelationSibling);
    LegacyInsertLinks(mem, obj, dest);
  }

  /**
   * run.js's moveObject re-inserting an object as the first child of its
   * own parent keeps the sibling it had: the destination's child is read
   * after the object was taken out.
   */
  lemma MovedReinsertKeepsSibling(mem: seq<byte>, obj: int, dest: int)
    requires AllLinksInMemory(mem) && Moved(mem, obj, dest).Ok?
    requires Relation(mem, obj, RelationParent) == Ok(dest) && dest != 0
    requires Relation(mem, dest, RelationChild) == Ok(obj)
    ensures Relation(Moved(mem, obj, dest).value, obj, RelationSibling) == Relation(mem, obj, RelationSibling)
  {
    MovedLinks(mem, obj, dest);
    DetachedBypasses(mem, obj);
  }

  // ---------------------------------------------------------------------
  // read.

  /** Up to version 4, read leaves memory as run.js's text buffer step does. */
  lemma LegacyReadEarly(mem: seq<byte>, textBuffer: int, input: string)
    requires 0 <= textBuffer && Version(mem) <= 4
    ensures LegacyReadWritten(mem, textBuffer, input) == TextBufferFilled(mem, textBuffer, ReadInput(input)).0
  {
    var t := StoredText(mem, textBuffer, ReadInput(input));
    var m := CharsWritten(mem, textBuffer + 1, t);
    if |mem| > 0 {
      assert m[0] == mem[0];
    }
  }

  /**
   * From version 5 on, read writes the characters from the byte two after
   * the size byte on, and leaves the length byte between them alone.
   */
  lemma LegacyReadLate(mem: seq<byte>, textBuffer: int, input: string, i: int)
    requires 0 <= textBuffer && 0 <= i < |mem| && Version(mem) >= 5
    ensures var t := StoredText(mem, textBuffer, ReadInput(input));
      var m := LegacyReadWritten(mem, textBuffer, input);
      && |m| == |mem|
      && m[i] == if textBuffer + 2 <= i < textBuffer + 2 + |t| then ToByte(t[i - textBuffer - 2] as int) else mem[i]
  {
    var t := StoredText(mem, textBuffer, ReadInput(input));
    var m := CharsWritten(mem, textBuffer + 2, t);
    assert m[0] == mem[0];
  }

  // ---------------------------------------------------------------------
  // The dispatcher as a whole.

  /**
   * The outright faults: an opcode without a case, the property cases, and
   * read, which fails without input and otherwise after filling the buffer.
   */
  lemma LegacyFaults(s: State, i: Instruction, ops: seq<int>, input: Option<string>)
    requires i.opcode.Some?
    ensures i.opcode.value.op !in LegacyOps ==> LegacyExecuted(s, i, ops, input) == Err(UnimplementedOpcode)
    ensures i.opcode.value.op in PropertyTableOps ==>
      LegacyExecuted(s, i, ops, input) == Err(NotAFunction("getObjectPropertiesAddress"))
    ensures i.opcode.value.op == Read ==>
      LegacyExecuted(s, i, ops, input) == Err(if input.None? then NoInput else Unimplemented)
  {
  }

  /** The printing cases leave the state alone, and the others print nothing. */
  lemma LegacyPrintingKeepsState(s: State, i: Instruction, ops: seq<int>, input: Option<string>)
    requires i.opcode.Some? && LegacyExecuted(s, i, ops, input).Ok?
    ensures i.opcode.value.op in LegacyPrintOps ==> LegacyExecuted(s, i, ops, input).value.state == s
    ensures i.opcode.value.op !in LegacyPrintOps ==> LegacyExecuted(s, i, ops, input).value.printed == ""
  {
  }
}
