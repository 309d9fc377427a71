// Routine calls, returns and branches (sections 1.2.3, 4.7, 5 and 6.4 of the
// Z-Machine Standards Document 1.1): unpackAddress.js, decodeRoutine.js,
// performCall.js, performReturn.js, performBranch.js, and their copies in
// run.js (run.js:594-660), which decode the routine header inline and store
// a result through the variable number rather than through a descriptor.

module Routines {
  import opened Base
  import opened Rw16
  import opened Header
  import opened Opcodes
  import opened MachineState
  import opened Variables
  import opened JsNumbers

  /**
   * unpackAddress (unpackAddress.js:3-18, run.js:594-609). Versions 6 and 7
   * add the header offset as it stands; section 1.2.3 of the Standards
   * Document scales it by 8.
   */
  function UnpackAddress(mem: seq<byte>, op: OpName, packed: int): int
  {
    var version := Version(mem);
    if version <= 3 then packed * 2
    else if version <= 5 then packed * 4
    else if version <= 7 then
      if op == PrintPaddr then packed * 4 + StaticStringsOffset(mem) else packed * 4 + RoutinesOffset(mem)
    else packed * 8
  }

  /** The unit a packed address counts in, for the versions that only scale. */
  function PackingUnit(version: int): int
  {
    if version <= 3 then 2 else if version <= 5 then 4 else 8
  }

  /**
   * Outside versions 6 and 7 a packed address is the address divided by the
   * version's unit; in every version distinct packed addresses of one kind
   * name distinct addresses.
   */
  lemma UnpackAddressScales(mem: seq<byte>, op: OpName, p: int, q: int)
    ensures !(6 <= Version(mem) <= 7) ==> UnpackAddress(mem, op, p) == PackingUnit(Version(mem)) * p
    ensures !(6 <= Version(mem) <= 7) ==> UnpackAddress(mem, op, p) % PackingUnit(Version(mem)) == 0
    ensures p != q ==> UnpackAddress(mem, op, p) != UnpackAddress(mem, op, q)
  {
  }

  /** decodeRoutine's result: the local variables' initial values and where the code starts. */
  datatype Routine = Routine(locals: seq<int>, firstInstructionAddress: int)

  /** The routine header at `address`: a count byte, then (up to version 4) one default word per local. */
  function RoutineAt(mem: seq<byte>, address: int): (r: Routine)
    ensures |r.locals| == ByteAt(mem, address)
  {
    var count := ByteAt(mem, address);
    if Version(mem) <= 4 then
      Routine(seq(count, i requires 0 <= i < count => Read16(mem, address + 1 + 2 * i)), address + 1 + 2 * count)
    else
      Routine(seq(count, i => 0), address + 1)
  }

  /** The routine's defaults with the leading ones replaced by the arguments; extra arguments are dropped. */
  function WithArguments(defaults: seq<int>, args: seq<int>): (r: seq<int>)
    ensures |r| == |defaults|
  {
    seq(|defaults|, i requires 0 <= i < |defaults| => if i < |args| then args[i] else defaults[i])
  }

  /** The state after performCall: one new frame, and pc at the routine's first instruction. */
  function Called(s: State, op: OpName, packed: int, args: seq<int>, result: Option<byte>): State
  {
    var routine := RoutineAt(s.mem, UnpackAddress(s.mem, op, packed));
    var frame := Frame([], WithArguments(routine.locals, args), Some(|args|), result, s.pc);
    s.(frames := s.frames + [frame], pc := routine.firstInstructionAddress)
  }

  /**
   * A call pushes exactly one frame and leaves the others and memory alone;
   * the frame's stack is empty, it counts every argument, its locals are the
   * routine's with the first min(#args, #locals) overwritten, and it resumes
   * at the old pc.
   */
  lemma CallPushesOneFrame(s: State, op: OpName, packed: int, args: seq<int>, result: Option<byte>)
    ensures var t := Called(s, op, packed, args, result);
      && t.mem == s.mem
      && |t.frames| == |s.frames| + 1 && t.frames[..|s.frames|] == s.frames
      && t.frames[|s.frames|].stack == [] && t.frames[|s.frames|].argCount == Some(|args|)
      && t.frames[|s.frames|].result == result && t.frames[|s.frames|].nextAddress == s.pc
    ensures var address := UnpackAddress(s.mem, op, packed);
      var locals := Called(s, op, packed, args, result).frames[|s.frames|].locals;
      && |locals| == ByteAt(s.mem, address)
      && (forall i | 0 <= i < |locals| && i < |args| :: locals[i] == args[i])
      && (forall i | |args| <= i < |locals| :: locals[i] == (if Version(s.mem) <= 4 then Read16(s.mem, address + 1 + 2 * i) else 0))
    ensures var address := UnpackAddress(s.mem, op, packed);
      Called(s, op, packed, args, result).pc
        == address + 1 + (if Version(s.mem) <= 4 then 2 * ByteAt(s.mem, address) else 0)
  {
    var t := Called(s, op, packed, args, result);
    assert t.frames[..|s.frames|] == s.frames;
  }

  /** performReturn: pop the frame, store the value through the caller's variable, resume at the saved address. */
  function Returned(s: State, value: int): Result<State>
  {
    if |s.frames| == 0 then Err(NoFrame)
    else
      var frame := s.frames[|s.frames| - 1];
      var popped := s.(frames := s.frames[..|s.frames| - 1]);
      if frame.result.None? then Ok(popped.(pc := frame.nextAddress))
      else
        match Stored(popped, frame.result.value, value)
        case Err(f) => Err(f)
        case Ok(t) => Ok(t.(pc := frame.nextAddress))
  }

  /** A store does not depend on pc, and does not change it. */
  lemma StoredIgnoresPc(s: State, variable: int, value: int, pc: int)
    ensures Stored(s.(pc := pc), variable, value).Ok? == Stored(s, variable, value).Ok?
    ensures Stored(s, variable, value).Ok? ==> Stored(s, variable, value).value.pc == s.pc
    ensures Stored(s, variable, value).Ok? ==> Stored(s.(pc := pc), variable, value).value == Stored(s, variable, value).value.(pc := pc)
  {
  }

  /**
   * A call followed by a return gives back the caller's frames and pc, with
   * the returned value stored in the result variable, if there is one.
   */
  lemma CallThenReturn(s: State, op: OpName, packed: int, args: seq<int>, result: Option<byte>, value: int)
    ensures Returned(Called(s, op, packed, args, result), value)
      == if result.None? then Ok(s) else Stored(s, result.value, value)
  {
    var t := Called(s, op, packed, args, result);
    assert t.frames[..|t.frames| - 1] == s.frames;
    var popped := t.(frames := s.frames);
    assert popped == s.(pc := t.pc);
    if result.Some? {
      StoredIgnoresPc(s, result.value, value, t.pc);
    }
  }

  /** performBranch: offsets 0 and 1 return false and true; any other moves pc by its signed value, less 2. */
  function Branched(s: State, offset: int): Result<State>
  {
    if offset == 0 then Returned(s, 0)
    else if offset == 1 then Returned(s, 1)
    else Ok(s.(pc := s.pc + Int16(offset) - 2))
  }

  /**
   * A branch other than a return keeps frames and memory; offsets below
   * 0x8000 jump forward, larger ones jump backward by their two's complement.
   */
  lemma BranchMoves(s: State, offset: int)
    requires offset != 0 && offset != 1 && 0 <= offset < 0x10000
    ensures Branched(s, offset).Ok?
    ensures Branched(s, offset).value.frames == s.frames && Branched(s, offset).value.mem == s.mem
    ensures offset < 0x8000 ==> Branched(s, offset).value.pc == s.pc + offset - 2
    ensures offset >= 0x8000 ==> Branched(s, offset).value.pc == s.pc + offset - 0x10000 - 2
  {
    Int16Views(offset);
  }

  /** decodeRoutine (decodeRoutine.js:4-21): the header loop. */
  method DecodeRoutine(state: Machine, address: int) returns (r: Routine)
    ensures r == RoutineAt(state.memory[..], address)
  {
    var mem := state.memory[..];
    var a := address;
    var count: int := ByteAt(mem, a);
    a := a + 1;
    var locals: seq<int> := [];
    var i: int := 0;
    while i < count
      invariant 0 <= i <= count
      invariant |locals| == i
      invariant a == address + 1 + (if Version(mem) <= 4 then 2 * i else 0)
      invariant forall j | 0 <= j < i :: locals[j] == RoutineAt(mem, address).locals[j]
    {
      if Version(mem) <= 4 {
        locals := locals + [Read16(mem, a)];
        a := a + 2;
      } else {
        locals := locals + [0];
      }
      i := i + 1;
    }
    r := Routine(locals, a);
  }

  /** performCall (performCall.js:4-23): decodeRoutine, then the arguments over the defaults. */
  method PerformCall(state: Machine, op: OpName, packed: int, args: seq<int>, result: Option<byte>)
    modifies state
    ensures state.Snapshot() == Called(old(state.Snapshot()), op, packed, args, result)
  {
    var address := UnpackAddress(state.memory[..], op, packed);
    var routine := DecodeRoutine(state, address);
    var locals := routine.locals;
    var i := 0;
    while i < |args|
      invariant 0 <= i <= |args|
      invariant |locals| == |routine.locals|
      invariant forall j | 0 <= j < |locals| :: locals[j] == if j < i then args[j] else routine.locals[j]
    {
      if |locals| > i {
        locals := locals[i := args[i]];
      }
      i := i + 1;
    }
    assert locals == WithArguments(routine.locals, args);
    state.frames := state.frames + [Frame([], locals, Some(|args|), result, state.pc)];
    state.pc := routine.firstInstructionAddress;
  }

  /** performCall of run.js (run.js:622-652): one loop reads each default and replaces it by its argument. */
  method PerformCallInline(state: Machine, op: OpName, packed: int, args: seq<int>, result: Option<byte>)
    modifies state
    ensures state.Snapshot() == Called(old(state.Snapshot()), op, packed, args, result)
  {
    var start := UnpackAddress(state.memory[..], op, packed);
    var locals, address := ReadLocals(state.memory[..], start, args);
    state.frames := state.frames + [Frame([], locals, Some(|args|), result, state.pc)];
    state.pc := address;
  }

  /**
   * The loop of performCall (run.js:631-645): for each local, the default
   * word (up to version 4) or zero, replaced by the argument when there is
   * one; the address after the defaults is the first instruction.
   */
  method ReadLocals(mem: seq<byte>, start: int, args: seq<int>) returns (locals: seq<int>, address: int)
    ensures locals == WithArguments(RoutineAt(mem, start).locals, args)
    ensures address == RoutineAt(mem, start).firstInstructionAddress
  {
    address := start;
    var count: int := ByteAt(mem, address);
    address := address + 1;
    locals := [];
    ghost var expected := WithArguments(RoutineAt(mem, start).locals, args);
    var i: int := 0;
    while i < count
      invariant 0 <= i <= count
      invariant |locals| == i
      invariant address == start + 1 + (if Version(mem) <= 4 then 2 * i else 0)
      invariant forall j | 0 <= j < i :: locals[j] == expected[j]
    {
      var value;
      if Version(mem) <= 4 {
        value := Read16(mem, address);
        address := address + 2;
      } else {
        value := 0;
      }
      DefaultLocal(mem, start, i);
      if i < |args| {
        value := args[i];
      }
      locals := locals + [value];
      i := i + 1;
    }
  }

  /** The default of local `i`: the word after the count up to version 4, zero from version 5 on. */
  lemma DefaultLocal(mem: seq<byte>, address: int, i: int)
    requires 0 <= i < ByteAt(mem, address)
    ensures RoutineAt(mem, address).locals[i] == if Version(mem) <= 4 then Read16(mem, address + 1 + 2 * i) else 0
  {
  }

  /** performReturn (performReturn.js:3-9): the result goes through performStore and a descriptor. */
  method PerformReturn(state: Machine, value: int) returns (r: Result<()>)
    modifies state, state.memory
    ensures var spec := Returned(old(state.Snapshot()), value);
      && (spec.Err? ==> r == Err(spec.fault))
      && (spec.Ok? ==> r == Ok(()) && state.Snapshot() == spec.value)
  {
    if |state.frames| == 0 {
      return Err(NoFrame);
    }
    var frame := state.frames[|state.frames| - 1];
    state.frames := state.frames[..|state.frames| - 1];
    ghost var popped := state.Snapshot();
    r := Ok(());
    if frame.result.Some? {
      StoredIsStoredThrough(popped, frame.result.value, value);
      r := PerformStore(state, DecodeVariable(frame.result.value), value);
      if r.Err? {
        return;
      }
    }
    state.pc := frame.nextAddress;
  }

  /** performReturn of run.js (run.js:654-660): the result goes through variableStore and the number. */
  method PerformReturnByNumber(state: Machine, value: int) returns (r: Result<()>)
    modifies state, state.memory
    ensures var spec := Returned(old(state.Snapshot()), value);
      && (spec.Err? ==> r == Err(spec.fault))
      && (spec.Ok? ==> r == Ok(()) && state.Snapshot() == spec.value)
  {
    if |state.frames| == 0 {
      return Err(NoFrame);
    }
    var frame := state.frames[|state.frames| - 1];
    state.frames := state.frames[..|state.frames| - 1];
    r := Ok(());
    if frame.result.Some? {
      r := VariableStore(state, frame.result.value, value);
      if r.Err? {
        return;
      }
    }
    state.pc := frame.nextAddress;
  }

  /** performBranch (performBranch.js:3-12, run.js:611-620). */
  method PerformBranch(state: Machine, offset: int) returns (r: Result<()>)
    modifies state, state.memory
    ensures var spec := Branched(old(state.Snapshot()), offset);
      && (spec.Err? ==> r == Err(spec.fault))
      && (spec.Ok? ==> r == Ok(()) && state.Snapshot() == spec.value)
  {
    if offset == 0 {
      r := PerformReturnByNumber(state, 0);
    } else if offset == 1 {
      r := PerformReturnByNumber(state, 1);
    } else {
      state.pc := state.pc + Int16(offset) - 2;
      r := Ok(());
    }
  }
}
