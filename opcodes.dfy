// The opcode table (state.opcodeTable) and lookupOpcode (lookupOpcode.js, and
// the copy at run.js:301-305). The table itself comes from a module that is
// not part of this model; here it is data: one entry per instruction, with
// the flags the decoder and the dispatcher consult.

module Opcodes {
  import opened Base

  /** The `operandCount` of an entry: '0OP', '1OP', '2OP', 'VAR' or 'EXT'. */
  datatype OperandCount = ZeroOp | OneOp | TwoOp | VarOp | ExtOp

  /**
   * The `op` names the dispatchers act on, plus the table's other names
   * (`Other`), which reach their `default` case.
   */
  datatype OpName =
    | Add | And | ArtShift | Call1n | Call1s | Call2n | Call2s | CallVn | Call | CallVs
    | CheckArgCount | ClearAttr | Dec | DecChk | Div | GetChild | GetNextProp | GetParent
    | GetProp | GetPropAddr | GetPropLen | GetSibling | Inc | IncChk | InsertObj
    | Je | Jg | Jin | Jl | Jump | Jz | Load | Loadb | Loadw | LogShift | Mod | Mul
    | NewLine | Not | Or | Print | PrintAddr | PrintChar | PrintNum | PrintObj | PrintPaddr
    | PrintRet | Pull | Push | PutProp | Random | Read | RemoveObj | Ret | RetPopped
    | Rfalse | Rtrue | SaveUndo | SetAttr | SetTextStyle | Store | Storeb | Storew | Sub
    | Test | TestAttr | Quit | CallVs2 | CallVn2
    | Other(name: string)

  /** One entry of the opcode table. */
  datatype OpcodeEntry = OpcodeEntry(
    code: int,
    operandCount: OperandCount,
    op: OpName,
    store: bool,    // a store byte follows the operands
    branch: bool,   // branch bytes follow the store byte
    text: bool,     // an inline z-string follows
    input: bool)    // the instruction waits for a line of input

  /** The entry `lookupOpcode` searches for. */
  predicate Matches(e: OpcodeEntry, code: int, count: OperandCount)
  {
    e.code == code && e.operandCount == count
  }

  /** lookupOpcode: `table.find(...)`, the first entry with this code and operand count. */
  function LookupOpcode(table: seq<OpcodeEntry>, code: int, count: OperandCount): (r: Option<OpcodeEntry>)
    ensures r.None? <==> forall i | 0 <= i < |table| :: !Matches(table[i], code, count)
    ensures r.Some? ==> Matches(r.value, code, count)
    ensures r.Some? ==> exists i | 0 <= i < |table| :: (table[i] == r.value && forall j | 0 <= j < i :: !Matches(table[j], code, count))
  {
    if table == [] then None
    else if Matches(table[0], code, count) then Some(table[0])
    else
      var rest := LookupOpcode(table[1..], code, count);
      assert forall i | 1 <= i < |table| :: table[i] == table[1..][i - 1];
      rest
  }
}
