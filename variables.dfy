// Variables (section 4.2.2 and 6.3 of the Z-Machine Standards Document 1.1):
// variable 0 is the top of the current routine's evaluation stack, 1-15 its
// local variables, 16-255 the global variables, stored as big-endian words
// from the global table on. run.js (run.js:662-687) and variables.js work on
// the variable number; decodeVariable.js turns the number into a descriptor
// that performDereference.js and performStore.js act on.
//
// A local variable the routine does not have reads as `undefined` in the
// source, and a store to one grows the JavaScript array; both are the
// MissingLocal fault here.

module Variables {
  import opened Base
  import opened Rw16
  import opened Header
  import opened MachineState

  /** The descriptors of decodeVariable.js and performDereference.js ('largeconstant' and 'smallconstant' alike). */
  datatype VarRef = StackRef | LocalRef(index: int) | GlobalRef(index: int) | ConstantRef(value: int)

  /** decodeVariable (decodeVariable.js:1-9). */
  function DecodeVariable(variable: int): (r: VarRef)
    ensures r.StackRef? <==> variable == 0
    ensures r.LocalRef? <==> variable != 0 && variable <= 0x0F
    ensures r.LocalRef? ==> r.index == variable - 1
    ensures r.GlobalRef? <==> variable > 0x0F
    ensures r.GlobalRef? ==> r.index == variable - 0x10
    ensures 1 <= variable <= 0x0F ==> r.LocalRef? && 0 <= r.index <= 14
    ensures 0x10 <= variable <= 0xFF ==> r.GlobalRef? && 0 <= r.index <= 239
  {
    if variable == 0 then StackRef
    else if variable <= 0x0F then LocalRef(variable - 1)
    else GlobalRef(variable - 0x10)
  }

  /** The address of global variable `index`. */
  function GlobalAddress(mem: seq<byte>, index: int): int
  {
    GlobalTableAddress(mem) + 2 * index
  }

  /** `frame.stack.push(value)` on the top frame. */
  function Pushed(s: State, value: int): (r: Result<State>)
    ensures r.Ok? <==> |s.frames| > 0
    ensures r.Ok? ==> r.value == WithTopFrame(s, s.frames[|s.frames| - 1].(stack := s.frames[|s.frames| - 1].stack + [value]))
  {
    match TopFrame(s)
    case Err(f) => Err(f)
    case Ok(frame) => Ok(WithTopFrame(s, frame.(stack := frame.stack + [value])))
  }

  /** `frame.stack.pop()` on the top frame, after the underflow check. */
  function Popped(s: State): (r: Result<(int, State)>)
    ensures r.Ok? <==> |s.frames| > 0 && |s.frames[|s.frames| - 1].stack| > 0
    ensures |s.frames| == 0 ==> r == Err(NoFrame)
    ensures |s.frames| > 0 && |s.frames[|s.frames| - 1].stack| == 0 ==> r == Err(StackUnderflow)
  {
    match TopFrame(s)
    case Err(f) => Err(f)
    case Ok(frame) =>
      if |frame.stack| < 1 then Err(StackUnderflow)
      else Ok((frame.stack[|frame.stack| - 1], WithTopFrame(s, frame.(stack := frame.stack[..|frame.stack| - 1]))))
  }

  /** `frame.localVariables[index]` of the top frame. */
  function LocalValue(s: State, index: int): (r: Result<int>)
    ensures r.Ok? <==> |s.frames| > 0 && 0 <= index < |s.frames[|s.frames| - 1].locals|
    ensures r.Ok? ==> r.value == s.frames[|s.frames| - 1].locals[index]
  {
    match TopFrame(s)
    case Err(f) => Err(f)
    case Ok(frame) => if 0 <= index < |frame.locals| then Ok(frame.locals[index]) else Err(MissingLocal(index))
  }

  /** `frame.localVariables[index] = value` on the top frame. */
  function LocalSet(s: State, index: int, value: int): (r: Result<State>)
    ensures r.Ok? <==> |s.frames| > 0 && 0 <= index < |s.frames[|s.frames| - 1].locals|
  {
    match TopFrame(s)
    case Err(f) => Err(f)
    case Ok(frame) =>
      if 0 <= index < |frame.locals| then Ok(WithTopFrame(s, frame.(locals := frame.locals[index := value])))
      else Err(MissingLocal(index))
  }

  /** variableLoad: the value of a variable, and the state after it (a stack read pops). */
  function Loaded(s: State, variable: int): Result<(int, State)>
  {
    if variable == 0 then Popped(s)
    else if variable <= 0x0F then
      match LocalValue(s, variable - 1)
      case Err(f) => Err(f)
      case Ok(v) => Ok((v, s))
    else Ok((Read16(s.mem, GlobalAddress(s.mem, variable - 0x10)), s))
  }

  /** variableStore: the state after storing `value` in a variable. */
  function Stored(s: State, variable: int, value: int): Result<State>
  {
    if variable == 0 then Pushed(s, value)
    else if variable <= 0x0F then LocalSet(s, variable - 1, value)
    else Ok(s.(mem := Written16(s.mem, GlobalAddress(s.mem, variable - 0x10), value)))
  }

  /** performDereference (performDereference.js:4-28). */
  function Dereferenced(s: State, operand: VarRef): Result<(int, State)>
  {
    match operand
    case ConstantRef(v) => Ok((v, s))
    case GlobalRef(i) => Ok((Read16(s.mem, GlobalAddress(s.mem, i)), s))
    case LocalRef(i) =>
      (match LocalValue(s, i)
       case Err(f) => Err(f)
       case Ok(v) => Ok((v, s)))
    case StackRef => Popped(s)
  }

  /** performStore (performStore.js:4-20): a constant descriptor stores nothing. */
  function StoredThrough(s: State, variable: VarRef, value: int): Result<State>
  {
    match variable
    case GlobalRef(i) => Ok(s.(mem := Written16(s.mem, GlobalAddress(s.mem, i), value)))
    case LocalRef(i) => LocalSet(s, i, value)
    case StackRef => Pushed(s, value)
    case ConstantRef(_) => Ok(s)
  }

  /**
   * pull (run.js:1271-1280, executeInstruction.js:328-338): the top frame's
   * stack popped with no underflow check, and the value stored through the
   * descriptor. An empty stack pops JavaScript's undefined, which write16
   * turns into the bytes 0 and 0, so a pull into a global stores 0; stored
   * into the stack or a local, undefined has no integer counterpart, and the
   * model reports StackUnderflow there.
   */
  function Pulled(s: State, variable: VarRef): (r: Result<State>)
    ensures r.Ok? ==> r.value.pc == s.pc
    ensures |s.frames| == 0 ==> r == Err(NoFrame)
  {
    match TopFrame(s)
    case Err(f) => Err(f)
    case Ok(frame) =>
      if |frame.stack| > 0 then
        StoredThrough(WithTopFrame(s, frame.(stack := frame.stack[..|frame.stack| - 1])), variable, frame.stack[|frame.stack| - 1])
      else if variable.GlobalRef? || variable.ConstantRef? then StoredThrough(s, variable, 0)
      else Err(StackUnderflow)
  }

  /** variableLoad of a number is performDereference of its decoded descriptor. */
  lemma LoadedIsDereferenced(s: State, variable: int)
    ensures Loaded(s, variable) == Dereferenced(s, DecodeVariable(variable))
  {
  }

  /** variableStore of a number is performStore through its decoded descriptor. */
  lemma StoredIsStoredThrough(s: State, variable: int, value: int)
    ensures Stored(s, variable, value) == StoredThrough(s, DecodeVariable(variable), value)
  {
  }

  /** Only a stack descriptor changes the state when it is dereferenced. */
  lemma DereferenceChangesOnlyTheStack(s: State, operand: VarRef)
    requires Dereferenced(s, operand).Ok?
    ensures !operand.StackRef? ==> Dereferenced(s, operand).value.1 == s
    ensures operand.StackRef? ==> Dereferenced(s, operand).value.1.mem == s.mem && Dereferenced(s, operand).value.1.pc == s.pc
  {
  }

  /**
   * A store followed by a load of the same variable gives back the value
   * (a global truncated to 16 bits), and the push of a stack store is undone
   * by the pop of the load.
   */
  lemma StoreThenLoad(s: State, variable: int, value: int)
    requires Stored(s, variable, value).Ok?
    requires variable > 0x0F ==> 0 <= GlobalAddress(s.mem, variable - 0x10) && GlobalAddress(s.mem, variable - 0x10) + 1 < |s.mem|
    requires variable > 0x0F ==> GlobalAddress(s.mem, variable - 0x10) > 0x0D
    ensures var t := Stored(s, variable, value).value;
      Loaded(t, variable) == Ok((if variable > 0x0F then value % 0x10000 else value, if variable == 0 then s else t))
  {
    var t := Stored(s, variable, value).value;
    if variable == 0 {
      var frame := s.frames[|s.frames| - 1];
      var pushed := frame.(stack := frame.stack + [value]);
      assert t == WithTopFrame(s, pushed);
      assert pushed.stack[..|pushed.stack| - 1] == frame.stack;
      assert pushed.(stack := frame.stack) == frame;
      assert s.frames[|s.frames| - 1 := frame] == s.frames;
      assert t.frames[|s.frames| - 1 := frame] == s.frames;
      assert Popped(t) == Ok((value, WithTopFrame(t, frame)));
    } else if variable > 0x0F {
      var a := GlobalAddress(s.mem, variable - 0x10);
      Read16OfWritten16(s.mem, a, value);
      assert GlobalTableAddress(t.mem) == GlobalTableAddress(s.mem);
    }
  }

  /**
   * A pull from an empty stack into a global does not halt: the global then
   * reads 0, and the stack stays empty.
   */
  lemma PullFromEmptyStack(s: State, index: int)
    requires |s.frames| > 0 && |s.frames[|s.frames| - 1].stack| == 0
    requires 0x0D < GlobalAddress(s.mem, index) && GlobalAddress(s.mem, index) + 1 < |s.mem|
    ensures Pulled(s, GlobalRef(index)).Ok?
    ensures var t := Pulled(s, GlobalRef(index)).value;
      Dereferenced(t, GlobalRef(index)) == Ok((0, t)) && t.frames == s.frames
    ensures Pulled(s, LocalRef(index)) == Err(StackUnderflow) && Pulled(s, StackRef) == Err(StackUnderflow)
  {
    var t := Pulled(s, GlobalRef(index)).value;
    Read16OfWritten16(s.mem, GlobalAddress(s.mem, index), 0);
    assert GlobalTableAddress(t.mem) == GlobalTableAddress(s.mem);
  }

  /** A store to one local leaves the other locals, the other frames, memory and pc as they were. */
  lemma LocalStoreLeavesOthers(s: State, index: int, other: int, value: int)
    requires LocalSet(s, index, value).Ok? && other != index
    ensures LocalValue(LocalSet(s, index, value).value, other) == LocalValue(s, other)
    ensures LocalSet(s, index, value).value.mem == s.mem && LocalSet(s, index, value).value.pc == s.pc
    ensures LocalSet(s, index, value).value.frames[..|s.frames| - 1] == s.frames[..|s.frames| - 1]
  {
  }

  /** variableLoad (run.js:662-675, variables.js:4-17), in place. */
  method VariableLoad(state: Machine, variable: int) returns (r: Result<int>)
    modifies state
    ensures var spec := Loaded(old(state.Snapshot()), variable);
      && (spec.Err? ==> r == Err(spec.fault) && state.Snapshot() == old(state.Snapshot()))
      && (spec.Ok? ==> r == Ok(spec.value.0) && state.Snapshot() == spec.value.1)
  {
    if variable == 0 {
      if |state.frames| == 0 {
        return Err(NoFrame);
      }
      var frame := state.frames[|state.frames| - 1];
      if |frame.stack| < 1 {
        return Err(StackUnderflow);
      }
      r := Ok(frame.stack[|frame.stack| - 1]);
      state.frames := state.frames[|state.frames| - 1 := frame.(stack := frame.stack[..|frame.stack| - 1])];
    } else if variable <= 0x0F {
      if |state.frames| == 0 {
        return Err(NoFrame);
      }
      var frame := state.frames[|state.frames| - 1];
      if !(0 <= variable - 1 < |frame.locals|) {
        return Err(MissingLocal(variable - 1));
      }
      r := Ok(frame.locals[variable - 1]);
    } else {
      r := Ok(Read16(state.memory[..], GlobalTableAddress(state.memory[..]) + 2 * (variable - 0x10)));
    }
  }

  /** variableStore (run.js:677-687, variables.js:19-29), in place. */
  method VariableStore(state: Machine, variable: int, value: int) returns (r: Result<()>)
    modifies state, state.memory
    ensures var spec := Stored(old(state.Snapshot()), variable, value);
      && (spec.Err? ==> r == Err(spec.fault) && state.Snapshot() == old(state.Snapshot()))
      && (spec.Ok? ==> r == Ok(()) && state.Snapshot() == spec.value)
  {
    if variable == 0 {
      if |state.frames| == 0 {
        return Err(NoFrame);
      }
      var frame := state.frames[|state.frames| - 1];
      state.frames := state.frames[|state.frames| - 1 := frame.(stack := frame.stack + [value])];
    } else if variable <= 0x0F {
      if |state.frames| == 0 {
        return Err(NoFrame);
      }
      var frame := state.frames[|state.frames| - 1];
      if !(0 <= variable - 1 < |frame.locals|) {
        return Err(MissingLocal(variable - 1));
      }
      state.frames := state.frames[|state.frames| - 1 := frame.(locals := frame.locals[variable - 1 := value])];
    } else {
      Write16(state.memory, GlobalTableAddress(state.memory[..]) + 2 * (variable - 0x10), value);
    }
    r := Ok(());
  }

  /** performDereference (performDereference.js:4-28), in place. */
  method PerformDereference(state: Machine, operand: VarRef) returns (r: Result<int>)
    modifies state
    ensures var spec := Dereferenced(old(state.Snapshot()), operand);
      && (spec.Err? ==> r == Err(spec.fault) && state.Snapshot() == old(state.Snapshot()))
      && (spec.Ok? ==> r == Ok(spec.value.0) && state.Snapshot() == spec.value.1)
  {
    match operand
    case ConstantRef(v) => r := Ok(v);
    case GlobalRef(i) => r := Ok(Read16(state.memory[..], GlobalTableAddress(state.memory[..]) + 2 * i));
    case LocalRef(i) =>
      if |state.frames| == 0 {
        return Err(NoFrame);
      }
      var frame := state.frames[|state.frames| - 1];
      if !(0 <= i < |frame.locals|) {
        return Err(MissingLocal(i));
      }
      r := Ok(frame.locals[i]);
    case StackRef =>
      if |state.frames| == 0 {
        return Err(NoFrame);
      }
      var frame := state.frames[|state.frames| - 1];
      if |frame.stack| < 1 {
        return Err(StackUnderflow);
      }
      r := Ok(frame.stack[|frame.stack| - 1]);
      state.frames := state.frames[|state.frames| - 1 := frame.(stack := frame.stack[..|frame.stack| - 1])];
  }

  /** performStore (performStore.js:4-20), in place. */
  method PerformStore(state: Machine, variable: VarRef, value: int) returns (r: Result<()>)
    modifies state, state.memory
    ensures var spec := StoredThrough(old(state.Snapshot()), variable, value);
      && (spec.Err? ==> r == Err(spec.fault) && state.Snapshot() == old(state.Snapshot()))
      && (spec.Ok? ==> r == Ok(()) && state.Snapshot() == spec.value)
  {
    r := Ok(());
    match variable
    case GlobalRef(i) =>
      Write16(state.memory, GlobalTableAddress(state.memory[..]) + 2 * i, value);
    case LocalRef(i) =>
      if |state.frames| == 0 {
        return Err(NoFrame);
      }
      var frame := state.frames[|state.frames| - 1];
      if !(0 <= i < |frame.locals|) {
        return Err(MissingLocal(i));
      }
      state.frames := state.frames[|state.frames| - 1 := frame.(locals := frame.locals[i := value])];
    case StackRef =>
      if |state.frames| == 0 {
        return Err(NoFrame);
      }
      var frame := state.frames[|state.frames| - 1];
      state.frames := state.frames[|state.frames| - 1 := frame.(stack := frame.stack + [value])];
    case ConstantRef(_) =>
  }

  /** pull (run.js:1271-1280, executeInstruction.js:328-338), in place. */
  method PullInPlace(state: Machine, variable: VarRef) returns (r: Result<()>)
    modifies state, state.memory
    ensures var spec := Pulled(old(state.Snapshot()), variable);
      && (spec.Err? ==> r == Err(spec.fault))
      && (spec.Ok? ==> r == Ok(()) && state.Snapshot() == spec.value)
  {
    if |state.frames| == 0 {
      return Err(NoFrame);
    }
    var frame := state.frames[|state.frames| - 1];
    if |frame.stack| > 0 {
      var value := frame.stack[|frame.stack| - 1];
      state.frames := state.frames[|state.frames| - 1 := frame.(stack := frame.stack[..|frame.stack| - 1])];
      r := PerformStore(state, variable, value);
    } else if variable.GlobalRef? || variable.ConstantRef? {
      r := PerformStore(state, variable, 0);
    } else {
      r := Err(StackUnderflow);
    }
  }
}
