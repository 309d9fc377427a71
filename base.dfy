// Shared vocabulary of the interpreter model: bytes, optional values and the
// faults that end execution.

module Base {

  /** One cell of the story file image (a `Uint8Array` element). */
  type byte = x: int | 0 <= x < 256

  datatype Option<T> = None | Some(value: T)

  /**
   * The ways an operation of the interpreter stops instead of finishing.
   * Most are the source's `throw`s; `MissingLocal`, `Diverges` and the
   * `TypeError`-like cases name situations where the source reads an
   * undefined value, dereferences one, or never returns.
   */
  datatype Fault =
    | StackUnderflow                          // 'stack underflow'
    | NoFrame                                 // the top call frame is read while the call stack is empty
    | MissingLocal(index: int)                // a local variable the current routine does not have
    | InvalidObject(id: int)                  // 'tried to find invalid object id'
    | InvalidAttribute(id: int)               // 'tried to find invalid attribute id'
    | InvalidDefaultProperty(id: int)         // 'tried to read invalid default property id'
    | MissingProperty(obj: int, prop: int)    // 'nonexistent prop … on object …'
    | NestedAbbreviation                      // 'abbreviation used from inside abbreviation'
    | CannotEncode(c: char)                   // 'could not text encode character'
    | InvalidInstruction(address: int)        // 'invalid instruction at …'
    | UnimplementedOpcode                     // 'unimplemented opcode'
    | Unimplemented                           // 'UNIMPLEMENTED'
    | NotAFunction(name: string)              // a call of a name the imported module does not export
    | NotDefined(name: string)                // a reference to a name that is not in scope
    | NoResultVariable                        // a store through a missing result-variable descriptor
    | MissingOperand(index: int)              // an operand the instruction does not have
    | InvalidPattern                          // a regular expression that does not compile (SyntaxError)
    | NoInput                                 // `input.toLowerCase()` with no line of input (TypeError)
    | Diverges                                // the source loops for ever

  datatype Result<T> = Ok(value: T) | Err(fault: Fault)
  {
    predicate IsFailure()
    {
      Err?
    }

    function PropagateFailure<U>(): Result<U>
      requires Err?
    {
      Err(fault)
    }

    function Extract(): T
      requires Ok?
    {
      value
    }
  }

  /** Where JavaScript's `slice` puts a position `i` of a sequence of length `n`: negative positions count from the end. */
  function SliceIndex(n: nat, i: int): (r: nat)
    ensures r <= n
    ensures 0 <= i <= n ==> r == i
  {
    if i < 0 then (if n + i < 0 then 0 else n + i)
    else if i > n then n
    else i
  }

  /** `s.slice(start, end)` on an array or a string: a copy of the elements between the two positions, or nothing. */
  function JsSlice<T>(s: seq<T>, start: int, end: int): (r: seq<T>)
    ensures |r| == if SliceIndex(|s|, start) <= SliceIndex(|s|, end) then SliceIndex(|s|, end) - SliceIndex(|s|, start) else 0
    ensures forall k | 0 <= k < |r| :: r[k] == s[SliceIndex(|s|, start) + k]
  {
    var from := SliceIndex(|s|, start);
    var to := SliceIndex(|s|, end);
    if from <= to then s[from..to] else []
  }
}
