// The instruction decoder (decodeInstruction.js and its copy at
// run.js:689-794; sections 4.3-4.7 of the Z-Machine Standards Document 1.1):
// the form from the opcode byte, the operand types, the operands, the store
// byte, the branch bytes and an inline z-string, read through an advancing
// address.

module Instructions {
  import opened Base
  import opened Rw16
  import opened Header
  import opened Bitwise
  import opened Opcodes
  import opened TextDecoder

  datatype Form = LongForm | ShortForm | VariableForm | ExtendedForm

  /** The two-bit operand types. */
  const LargeConstant := 0
  const SmallConstant := 1
  const VariableType := 2
  const Omitted := 3

  datatype OperandKind = ConstantOperand | VariableOperand

  /** `{ type: 'constant' | 'variable', value }`. */
  datatype Operand = Operand(kind: OperandKind, value: int)

  /** `branchIf` and `branchOffset`. */
  datatype BranchInfo = BranchInfo(branchIf: bool, offset: int)

  /** The decoded instruction; the optional parts are the fields the source leaves undefined. */
  datatype Instruction = Instruction(
    address: int,
    opcode: Option<OpcodeEntry>,
    operands: seq<Operand>,
    resultVariable: Option<byte>,
    branch: Option<BranchInfo>,
    text: Option<string>,
    nextAddress: int)

  /** A positive multiple of `d` is at least `d`. */
  lemma {:induction false} MultipleAtLeast(d: nat, k: nat)
    requires k >= 1
    ensures d * k >= d
    decreases k
  {
    if k > 1 {
      MultipleAtLeast(d, k - 1);
      assert d * k == d * (k - 1) + d;
    }
  }

  /** The quotient is the one `q` with `a == d * q + r` and `0 <= r < d`. */
  lemma QuotientUnique(a: int, d: int, q: int, r: int)
    requires d > 0 && 0 <= r < d && a == d * q + r
    ensures a / d == q
  {
    var q' := a / d;
    var r' := a % d;
    assert a == d * q' + r';
    assert d * (q - q') == r' - r;
    assert d * (q' - q) == r - r';
    if q > q' {
      MultipleAtLeast(d, q - q');
    } else if q < q' {
      MultipleAtLeast(d, q' - q);
    }
  }

  /** Dividing by two and then by `p` is dividing by `2 * p`. */
  lemma DivideTwice(a: nat, p: nat)
    requires p > 0
    ensures a / 2 / p == a / (2 * p)
  {
    var q := a / (2 * p);
    var r := a % (2 * p);
    assert a == (2 * p) * q + r;
    assert (2 * p) * q == 2 * (p * q);
    QuotientUnique(a, 2, p * q + r / 2, r % 2);
    QuotientUnique(a / 2, p, q, r / 2);
  }

  /** Bit `k` of `a` is the `k`-th binary digit. */
  lemma {:induction false} BitIsDigit(a: nat, k: nat)
    ensures Bit(a, k) <==> (a / Pow2(k)) % 2 == 1
    decreases k
  {
    if k > 0 {
      BitIsDigit(a / 2, k - 1);
      DivideTwice(a, Pow2(k - 1));
    }
  }

  /**
   * The form of the instruction whose opcode byte is `b`: tested in the
   * source's order, extended (0xBE from version 5 on), then the top two bits
   * `11` (variable) and `10` (short), else long.
   */
  function FormOf(version: int, b: byte): (r: Form)
    ensures r == ExtendedForm <==> version >= 5 && b == 0xBE
    ensures r == VariableForm <==> !(version >= 5 && b == 0xBE) && b >= 0xC0
    ensures r == ShortForm <==> !(version >= 5 && b == 0xBE) && 0x80 <= b < 0xC0
    ensures r == LongForm <==> b < 0x80
  {
    BitIsDigit(b, 7);
    BitIsDigit(b, 6);
    assert Pow2(7) == 128 && Pow2(6) == 64;
    if version >= 5 && b == 0xBE then ExtendedForm
    else if Bit(b, 7) && Bit(b, 6) then VariableForm
    else if Bit(b, 7) && !Bit(b, 6) then ShortForm
    else LongForm
  }

  /** `(b >> shift) & 0x3` for the type field `i` (shift 6, 4, 2, 0). */
  function TypeField(b: byte, i: nat): (r: int)
    requires i < 4
    ensures 0 <= r < 4
  {
    if i == 0 then b / 64 else if i == 1 then (b / 16) % 4 else if i == 2 then (b / 4) % 4 else b % 4
  }

  /**
   * The types in a type byte from field `i` on: read from the high bits down,
   * stopping before the first `omitted`.
   */
  function TypesFrom(b: byte, i: nat): (r: seq<int>)
    requires i <= 4
    ensures |r| <= 4 - i
    ensures forall j | 0 <= j < |r| :: r[j] == TypeField(b, i + j) && r[j] != Omitted
    ensures i + |r| < 4 ==> TypeField(b, i + |r|) == Omitted
    decreases 4 - i
  {
    if i == 4 || TypeField(b, i) == Omitted then []
    else [TypeField(b, i)] + TypesFrom(b, i + 1)
  }

  /** The types of one type byte. */
  function TypesIn(b: byte): seq<int>
  {
    TypesFrom(b, 0)
  }

  /** The opcodes whose second type byte is read. */
  predicate IsDoubleVarCall(opcode: Option<OpcodeEntry>)
  {
    opcode.Some? && (opcode.value.op == CallVs2 || opcode.value.op == CallVn2)
  }

  /** What the opcode byte (and the extended opcode byte) give: the entry, the types so far, and the next address. */
  datatype Head = Head(form: Form, opcode: Option<OpcodeEntry>, types: seq<int>, next: int)

  /** The `switch (form)` of the decoder. */
  function HeadAt(mem: seq<byte>, table: seq<OpcodeEntry>, address: int): (r: Head)
    ensures r.form == FormOf(Version(mem), ByteAt(mem, address))
    ensures r.next == if r.form == ExtendedForm then address + 2 else address + 1
    ensures |r.types| <= 2 && forall j | 0 <= j < |r.types| :: r.types[j] != Omitted
    ensures r.form == VariableForm || r.form == ExtendedForm ==> r.types == []
  {
    var b := ByteAt(mem, address);
    match FormOf(Version(mem), b)
    case ShortForm =>
      var zeroOp := Bit(b, 5) && Bit(b, 4);
      ShortTypeField(b);
      Head(ShortForm, LookupOpcode(table, b % 16, if zeroOp then ZeroOp else OneOp),
        if zeroOp then [] else [(b / 16) % 4], address + 1)
    case LongForm =>
      Head(LongForm, LookupOpcode(table, b % 32, TwoOp),
        [if Bit(b, 6) then VariableType else SmallConstant, if Bit(b, 5) then VariableType else SmallConstant], address + 1)
    case VariableForm =>
      Head(VariableForm, LookupOpcode(table, b % 32, if Bit(b, 5) then VarOp else TwoOp), [], address + 1)
    case ExtendedForm =>
      Head(ExtendedForm, LookupOpcode(table, ByteAt(mem, address + 1), ExtOp), [], address + 2)
  }

  /** Bits 5 and 4 are both set exactly when the two-bit field they form is `omitted`. */
  lemma ShortTypeField(b: byte)
    ensures Bit(b, 5) && Bit(b, 4) <==> (b / 16) % 4 == Omitted
  {
    BitIsDigit(b, 4);
    BitIsDigit(b, 5);
    assert Pow2(4) == 16 && Pow2(5) == 32;
  }

  /**
   * Short form: the low four bits are the opcode number; bits 5-4 hold the
   * one operand's type, and `omitted` there makes it a 0OP instruction.
   */
  lemma ShortHead(mem: seq<byte>, table: seq<OpcodeEntry>, address: int)
    requires HeadAt(mem, table, address).form == ShortForm
    ensures var r := HeadAt(mem, table, address); var b := ByteAt(mem, address);
      && r.opcode == LookupOpcode(table, b % 16, if (b / 16) % 4 == Omitted then ZeroOp else OneOp)
      && r.types == (if (b / 16) % 4 == Omitted then [] else [(b / 16) % 4])
  {
    ShortTypeField(ByteAt(mem, address));
  }

  /**
   * Long form: a 2OP instruction numbered by the low five bits, whose two
   * operands are a variable when bit 6 (first) or bit 5 (second) is set and
   * a small constant otherwise.
   */
  lemma LongHead(mem: seq<byte>, table: seq<OpcodeEntry>, address: int)
    requires HeadAt(mem, table, address).form == LongForm
    ensures var r := HeadAt(mem, table, address); var b := ByteAt(mem, address);
      && r.opcode == LookupOpcode(table, b % 32, TwoOp)
      && r.types == [if (b / 64) % 2 == 1 then VariableType else SmallConstant, if (b / 32) % 2 == 1 then VariableType else SmallConstant]
  {
    var b := ByteAt(mem, address);
    BitIsDigit(b, 5);
    BitIsDigit(b, 6);
    assert Pow2(5) == 32 && Pow2(6) == 64;
  }

  /** Variable form: VAR when bit 5 is set, else 2OP, numbered by the low five bits. */
  lemma VariableHead(mem: seq<byte>, table: seq<OpcodeEntry>, address: int)
    requires HeadAt(mem, table, address).form == VariableForm
    ensures var r := HeadAt(mem, table, address); var b := ByteAt(mem, address);
      r.opcode == LookupOpcode(table, b % 32, if (b / 32) % 2 == 1 then VarOp else TwoOp)
  {
    BitIsDigit(ByteAt(mem, address), 5);
    assert Pow2(5) == 32;
  }

  /**
   * The operand types and the address after them: for the variable and
   * extended forms the type byte is always consumed, and a second one only
   * for call_vs2 and call_vn2 after a first byte holding four types.
   */
  function TypesAt(mem: seq<byte>, head: Head): (r: (seq<int>, int))
  {
    if head.form == VariableForm || head.form == ExtendedForm then
      var first := TypesIn(ByteAt(mem, head.next));
      if |first| == 4 && IsDoubleVarCall(head.opcode) then (first + TypesIn(ByteAt(mem, head.next + 1)), head.next + 2)
      else (first, head.next + 1)
    else (head.types, head.next)
  }

  /**
   * The type list never holds `omitted`, and has more than four entries only
   * when call_vs2 or call_vn2 read a second type byte; the variable and
   * extended forms always consume their first type byte.
   */
  lemma TypesAtCount(mem: seq<byte>, table: seq<OpcodeEntry>, address: int)
    ensures var head := HeadAt(mem, table, address);
      var (types, next) := TypesAt(mem, head);
      && |types| <= 8
      && (|types| > 4 ==> IsDoubleVarCall(head.opcode) && next == head.next + 2)
      && (head.form == VariableForm || head.form == ExtendedForm ==> next > head.next)
      && (head.form == ShortForm || head.form == LongForm ==> next == head.next)
      && forall j | 0 <= j < |types| :: types[j] != Omitted
  {
    var head := HeadAt(mem, table, address);
    var (types, next) := TypesAt(mem, head);
    if head.form == VariableForm || head.form == ExtendedForm {
      var first := TypesIn(ByteAt(mem, head.next));
      if |first| == 4 && IsDoubleVarCall(head.opcode) {
        var second := TypesIn(ByteAt(mem, head.next + 1));
        assert types == first + second;
        forall j | 0 <= j < |types|
          ensures types[j] != Omitted
        {
          if j >= 4 {
            assert types[j] == second[j - 4];
          }
        }
      }
    }
  }

  /** The bytes an operand of each type takes: two for a large constant, one otherwise. */
  function OperandSize(t: int): int
  {
    if t == LargeConstant then 2 else 1
  }

  /** The total size of the operands of the given types. */
  function OperandBytes(types: seq<int>): (r: int)
    ensures r >= |types|
  {
    if |types| == 0 then 0 else OperandSize(types[0]) + OperandBytes(types[1..])
  }

  /** One operand: a big-endian word, or one byte naming a constant or a variable. */
  function OperandAt(mem: seq<byte>, address: int, t: int): (r: (Operand, int))
    ensures r.1 == address + OperandSize(t)
  {
    if t == LargeConstant then (Operand(ConstantOperand, Read16(mem, address)), address + 2)
    else if t == SmallConstant then (Operand(ConstantOperand, ByteAt(mem, address)), address + 1)
    else (Operand(VariableOperand, ByteAt(mem, address)), address + 1)
  }

  /**
   * `operandTypes.map(...)`: the operands left to right, each after the
   * previous one, and the address after the last.
   */
  function OperandsFrom(mem: seq<byte>, address: int, types: seq<int>): (r: (seq<Operand>, int))
    decreases |types|
    ensures |r.0| == |types|
    ensures r.1 == address + OperandBytes(types)
    ensures forall j | 0 <= j < |types| :: r.0[j].kind == (if types[j] == LargeConstant || types[j] == SmallConstant then ConstantOperand else VariableOperand)
  {
    if |types| == 0 then ([], address)
    else
      var (first, next) := OperandAt(mem, address, types[0]);
      var (rest, end) := OperandsFrom(mem, next, types[1..]);
      ([first] + rest, end)
  }

  /** Operand `j` is read where the operands before it end. */
  lemma {:induction false} OperandPlacement(mem: seq<byte>, address: int, types: seq<int>, j: int)
    requires 0 <= j < |types|
    ensures OperandsFrom(mem, address, types).0[j] == OperandAt(mem, address + OperandBytes(types[..j]), types[j]).0
    decreases j
  {
    if j == 0 {
      assert types[..0] == [];
    } else {
      var next := OperandAt(mem, address, types[0]).1;
      OperandPlacement(mem, next, types[1..], j - 1);
      assert types[1..][..j - 1] == types[..j][1..];
      assert OperandBytes(types[..j]) == OperandSize(types[0]) + OperandBytes(types[..j][1..]);
    }
  }

  /**
   * The branch bytes: bit 7 is `branchIf`; with bit 6 set the offset is
   * the low six bits of this byte, whose test of bit 7 can never fire, and
   * otherwise it is fourteen bits over two bytes, with bit 13 copied into
   * bits 14 and 15 (`|= 0xC000`; the low bits of the second byte and of
   * 0xC000 never overlap the ones below, so the `|`s add).
   */
  function BranchAt(mem: seq<byte>, address: int): (r: (BranchInfo, int))
  {
    var b := ByteAt(mem, address);
    if Bit(b, 6) then
      var offset := b % 64;
      (BranchInfo(Bit(b, 7), if Bit(offset, 7) then offset + 0xFF00 else offset), address + 1)
    else
      var offset := (b % 64) * 256 + ByteAt(mem, address + 1);
      (BranchInfo(Bit(b, 7), if Bit(offset, 13) then offset + 0xC000 else offset), address + 2)
  }

  /** `branchIf` is bit 7 of the first branch byte. */
  lemma BranchCondition(mem: seq<byte>, address: int)
    ensures BranchAt(mem, address).0.branchIf <==> ByteAt(mem, address) >= 0x80
  {
    BitIsDigit(ByteAt(mem, address), 7);
    assert Pow2(7) == 128;
  }

  /**
   * With bit 6 set the offset is the low six bits, 0..63: the source's test
   * for a negative six-bit offset never holds, so it is never sign-extended.
   */
  lemma ShortBranchOffset(mem: seq<byte>, address: int)
    requires (ByteAt(mem, address) / 64) % 2 == 1
    ensures var (branch, next) := BranchAt(mem, address);
      next == address + 1 && branch.offset == ByteAt(mem, address) % 64 && 0 <= branch.offset < 64
  {
    var b := ByteAt(mem, address);
    BitIsDigit(b, 6);
    BitIsDigit(b % 64, 7);
    assert Pow2(6) == 64 && Pow2(7) == 128;
    assert (b % 64) / 128 == 0;
  }

  /**
   * With bit 6 clear the offset is the fourteen bits after the two flag
   * bits, widened to sixteen: read as a signed word it is the fourteen-bit
   * two's complement value.
   */
  lemma LongBranchOffset(mem: seq<byte>, address: int)
    requires (ByteAt(mem, address) / 64) % 2 == 0
    ensures var (branch, next) := BranchAt(mem, address);
      var raw := (ByteAt(mem, address) % 64) * 256 + ByteAt(mem, address + 1);
      && next == address + 2
      && 0 <= branch.offset < 0x10000
      && (if branch.offset >= 0x8000 then branch.offset - 0x10000 else branch.offset) == (if raw >= 0x2000 then raw - 0x4000 else raw)
  {
    var b := ByteAt(mem, address);
    BitIsDigit(b, 6);
    var high := b % 64;
    var raw := high * 256 + ByteAt(mem, address + 1);
    assert 0 <= raw < 0x4000;
    BitIsDigit(raw, 13);
    assert Pow2(6) == 64 && Pow2(13) == 0x2000;
    assert (raw / 0x2000) % 2 == 1 <==> raw >= 0x2000;
  }

  /** The rest of the instruction after the operands: store byte, branch bytes and text. */
  function TailAt(mem: seq<byte>, opcode: Option<OpcodeEntry>, address: int): Result<(Option<byte>, Option<BranchInfo>, Option<string>, int)>
  {
    var (store, a4) := if opcode.Some? && opcode.value.store then (Some(ByteAt(mem, address)), address + 1) else (None, address);
    var (branch, a5) := if opcode.Some? && opcode.value.branch then (Some(BranchAt(mem, a4).0), BranchAt(mem, a4).1) else (None, a4);
    if opcode.Some? && opcode.value.text then
      var (text, next) :- DecodedText(mem, a5, false);
      Ok((store, branch, Some(text), next))
    else Ok((store, branch, None, a5))
  }

  /** decodeInstruction as a value. */
  function DecodedInstruction(mem: seq<byte>, table: seq<OpcodeEntry>, address: int): Result<Instruction>
  {
    DecodedAfter(mem, address, HeadAt(mem, table, address))
  }

  /** The instruction at `address` once its opcode bytes have been read into `head`. */
  function DecodedAfter(mem: seq<byte>, address: int, head: Head): Result<Instruction>
  {
    var (types, a2) := TypesAt(mem, head);
    var (operands, a3) := OperandsFrom(mem, a2, types);
    var (store, branch, text, next) :- TailAt(mem, head.opcode, a3);
    Ok(Instruction(address, head.opcode, operands, store, branch, text, next))
  }

  /**
   * After the operands: the store byte comes first, then the branch bytes,
   * then the z-string, which alone can fail; the instruction ends at or past
   * the last of them.
   */
  lemma TailLayout(mem: seq<byte>, opcode: Option<OpcodeEntry>, a3: int)
    ensures var a4 := if opcode.Some? && opcode.value.store then a3 + 1 else a3;
      var a5 := if opcode.Some? && opcode.value.branch then BranchAt(mem, a4).1 else a4;
      var r := TailAt(mem, opcode, a3);
      && a5 >= a3
      && (r.Err? <==> opcode.Some? && opcode.value.text && DecodedText(mem, a5, false).Err?)
      && (r.Ok? ==>
        && (r.value.0.Some? <==> opcode.Some? && opcode.value.store)
        && (r.value.0.Some? ==> r.value.0.value == ByteAt(mem, a3))
        && r.value.3 >= a5)
  {
  }

  /**
   * Only the inline z-string can fail to decode. Otherwise the store byte
   * is the byte right after the operands, the instruction ends past the
   * operands, the store byte and the branch bytes, and the next address is
   * always beyond the opcode byte.
   */
  lemma InstructionLayout(mem: seq<byte>, table: seq<OpcodeEntry>, address: int)
    ensures var head := HeadAt(mem, table, address);
      var (types, a2) := TypesAt(mem, head);
      var a3 := a2 + OperandBytes(types);
      var a4 := if head.opcode.Some? && head.opcode.value.store then a3 + 1 else a3;
      var a5 := if head.opcode.Some? && head.opcode.value.branch then BranchAt(mem, a4).1 else a4;
      var r := DecodedInstruction(mem, table, address);
      && (r.Err? <==> head.opcode.Some? && head.opcode.value.text && DecodedText(mem, a5, false).Err?)
      && (r.Ok? ==>
        && r.value.address == address
        && |r.value.operands| == |types|
        && (r.value.resultVariable.Some? ==> r.value.resultVariable.value == ByteAt(mem, a3))
        && r.value.nextAddress >= a5 > address)
  {
    var head := HeadAt(mem, table, address);
    LayoutAfter(mem, address, head);
  }

  /** InstructionLayout for a given head, which ends past `address`. */
  lemma LayoutAfter(mem: seq<byte>, address: int, head: Head)
    requires head.next > address
    ensures var (types, a2) := TypesAt(mem, head);
      var a3 := a2 + OperandBytes(types);
      var a4 := if head.opcode.Some? && head.opcode.value.store then a3 + 1 else a3;
      var a5 := if head.opcode.Some? && head.opcode.value.branch then BranchAt(mem, a4).1 else a4;
      var r := DecodedAfter(mem, address, head);
      && (r.Err? <==> head.opcode.Some? && head.opcode.value.text && DecodedText(mem, a5, false).Err?)
      && (r.Ok? ==>
        && r.value.address == address
        && |r.value.operands| == |types|
        && (r.value.resultVariable.Some? ==> r.value.resultVariable.value == ByteAt(mem, a3))
        && r.value.nextAddress >= a5 > address)
  {
    var (types, a2) := TypesAt(mem, head);
    var a3 := OperandsFrom(mem, a2, types).1;
    TailLayout(mem, head.opcode, a3);
  }

  /** The shift loop over one type byte, with its `break` at the first `omitted`. */
  method ReadTypes(memory: array<byte>, address: int) returns (types: seq<int>)
    ensures types == TypesIn(ByteAt(memory[..], address))
  {
    var b := ByteAt(memory[..], address);
    types := [];
    var i := 0;
    while i < 4
      invariant 0 <= i <= 4
      invariant types + TypesFrom(b, i) == TypesFrom(b, 0)
      decreases 4 - i
    {
      var t := TypeField(b, i);
      if t == Omitted {
        break;
      }
      types := types + [t];
      i := i + 1;
    }
  }

  /** The `operandTypes.map(...)` loop, with the address advancing past each operand. */
  method ReadOperands(memory: array<byte>, start: int, types: seq<int>) returns (operands: seq<Operand>, address: int)
    ensures operands == OperandsFrom(memory[..], start, types).0
    ensures address == OperandsFrom(memory[..], start, types).1
  {
    operands := [];
    address := start;
    var j := 0;
    assert types[j..] == types;
    while j < |types|
      invariant 0 <= j <= |types|
      invariant OperandsFrom(memory[..], start, types).0 == operands + OperandsFrom(memory[..], address, types[j..]).0
      invariant OperandsFrom(memory[..], start, types).1 == OperandsFrom(memory[..], address, types[j..]).1
    {
      var (operand, next) := OperandAt(memory[..], address, types[j]);
      assert types[j..][1..] == types[j + 1..];
      operands := operands + [operand];
      address := next;
      j := j + 1;
    }
    assert types[j..] == [];
  }

  /** The type bytes of the variable and extended forms. */
  method ReadTypeBytes(memory: array<byte>, head: Head) returns (types: seq<int>, address: int)
    ensures (types, address) == TypesAt(memory[..], head)
  {
    address := head.next;
    types := head.types;
    if head.form == VariableForm || head.form == ExtendedForm {
      types := ReadTypes(memory, address);
      address := address + 1;
      if |types| == 4 && IsDoubleVarCall(head.opcode) {
        var more := ReadTypes(memory, address);
        types := types + more;
        address := address + 1;
      }
    }
  }

  /** The store byte, the branch bytes and the inline text, each only when the opcode has it. */
  method ReadTail(memory: array<byte>, opcode: Option<OpcodeEntry>, start: int) returns (r: Result<(Option<byte>, Option<BranchInfo>, Option<string>, int)>)
    ensures r == TailAt(memory[..], opcode, start)
  {
    var address := start;
    var store: Option<byte> := None;
    if opcode.Some? && opcode.value.store {
      store := Some(ByteAt(memory[..], address));
      address := address + 1;
    }
    var branch: Option<BranchInfo> := None;
    if opcode.Some? && opcode.value.branch {
      var (info, next) := BranchAt(memory[..], address);
      branch := Some(info);
      address := next;
    }
    var text: Option<string> := None;
    if opcode.Some? && opcode.value.text {
      var decoded :- DecodeText(memory, address, false);
      text := Some(decoded.0);
      address := decoded.1;
    }
    r := Ok((store, branch, text, address));
  }

  /** decodeInstruction (decodeInstruction.js:11-116, run.js:689-794). */
  method DecodeInstruction(memory: array<byte>, table: seq<OpcodeEntry>, start: int) returns (r: Result<Instruction>)
    ensures r == DecodedInstruction(memory[..], table, start)
  {
    var head := HeadAt(memory[..], table, start);
    var types, address := ReadTypeBytes(memory, head);
    var operands;
    operands, address := ReadOperands(memory, address, types);
    var tail :- ReadTail(memory, head.opcode, address);
    var (store, branch, text, next) := tail;
    r := Ok(Instruction(start, head.opcode, operands, store, branch, text, next));
  }
}
