// What the instruction semantics of run.js promise, stated against
// independent readings: the bitwise meaning of `not` and `test`, the
// signed comparisons, division that agrees with its remainder, writes that
// read back, attributes and object links that read back, a push undone by a
// pull, a call undone by a return, and printing that changes no state.

module ExecutionLaws {
  import opened Base
  import opened Rw16
  import opened Bitwise
  import opened JsNumbers
  import opened Opcodes
  import opened MachineState
  import opened Variables
  import opened Routines
  import opened Objects
  import opened Instructions
  import opened Execution

  /** Subtracting after reducing to a word is subtracting, then reducing. */
  lemma WordThenSub(x: int, b: int)
    ensures Low16(Low16(x) - b) == Low16(x - b)
  {
    var k := x / 0x10000;
    assert Low16(x) == x - 0x10000 * k;
    assert Low16(x) - b == (x - b) + 0x10000 * -k;
  }

  /** add then sub of the same operand gives the first operand back, as a word. */
  lemma AddThenSub(a: int, b: int)
    ensures Calculated(Sub, [Calculated(Add, [a, b]), b]) == Low16(a)
  {
    WordThenSub(a + b, b);
    assert a + b - b == a;
  }

  /** The signed reading of a word: two's complement on 16 bits. */
  function Signed(w: int): int
  {
    if w < 0x8000 then w else w - 0x10000
  }

  /**
   * not is the complement in sixteen bits: the result is `0xFFFF - a`, which
   * flips every bit (Bitwise.ComplementFlipsBits), and applying it twice
   * gives `a` back.
   */
  lemma NotIsWordComplement(a: int)
    requires 0 <= a < 0x10000
    ensures Calculated(OpName.Not, [a]) == 0xFFFF - a
    ensures Calculated(OpName.Not, [0xFFFF - a]) == a
  {
  }

  /** The complement computed by not flips each of the sixteen bits. */
  lemma NotFlipsEveryBit(a: int)
    requires 0 <= a < 0x10000
    ensures forall k: nat | k < 16 :: Bit(Calculated(OpName.Not, [a]), k) == !Bit(a, k)
  {
    NotIsWordComplement(a);
    Pow2Words();
    ComplementFlipsBits(a, 16);
  }

  /** test branches exactly when every bit set in the flags is set in the bitmap. */
  lemma TestChecksEveryFlag(a: int, b: int)
    requires 0 <= a < 0x10000 && 0 <= b < 0x10000
    ensures Compared(Test, [a, b]) == (forall k: nat | k < 16 :: Bit(b, k) ==> Bit(a, k))
  {
    JsAndOfWords(a, b);
    Pow2Words();
    var r := Bitwise.And(a, b, 16);
    assert Compared(Test, [a, b]) == (r == b);
    if forall k: nat | k < 16 :: Bit(b, k) ==> Bit(a, k) {
      forall k: nat | k < 16
        ensures Bit(r, k) == Bit(b, k)
      {
        AndBit(a, b, 16, k);
      }
      BitsDetermine(r, b, 16);
    } else {
      var k: nat :| k < 16 && Bit(b, k) && !Bit(a, k);
      AndBit(a, b, 16, k);
      assert Bit(r, k) != Bit(b, k);
    }
  }

  /** `AnyEqual` is membership. */
  lemma {:induction false} AnyEqualIsMembership(x: int, rest: seq<int>)
    ensures AnyEqual(x, rest) <==> x in rest
  {
    if rest != [] {
      AnyEqualIsMembership(x, rest[1..]);
      assert rest == [rest[0]] + rest[1..];
    }
  }

  /** je branches exactly when some later operand equals the first. */
  lemma JeFindsTheFirstOperand(ops: seq<int>)
    ensures Compared(Je, ops) == (|ops| > 0 && ops[0] in ops[1..])
  {
    if |ops| > 0 {
      AnyEqualIsMembership(ops[0], ops[1..]);
    }
  }

  /** jl and jg compare the words as signed numbers, and each is the other with the operands swapped. */
  lemma SignedComparisons(a: int, b: int)
    requires 0 <= a < 0x10000 && 0 <= b < 0x10000
    ensures Compared(Jl, [a, b]) == (Signed(a) < Signed(b))
    ensures Compared(Jg, [b, a]) == Compared(Jl, [a, b])
  {
    Int16Views(a);
    Int16Views(b);
  }

  /**
   * Truncating division of signed words: quotient times divisor plus
   * remainder is the dividend, the remainder is smaller than the divisor
   * and has the dividend's sign, and the quotient fits in a word unless it
   * is -32768 / -1.
   */
  lemma SignedDivision(a: int, b: int)
    requires -0x8000 <= a < 0x8000 && -0x8000 <= b < 0x8000 && b != 0
    requires !(a == -0x8000 && b == -1)
    ensures TruncDiv(a, b) * b + TruncMod(a, b) == a
    ensures Abs(TruncMod(a, b)) < Abs(b)
    ensures TruncMod(a, b) != 0 ==> (TruncMod(a, b) < 0 <==> a < 0)
    ensures -0x8000 <= TruncDiv(a, b) < 0x8000
  {
    TruncDivMod(a, b);
    QuotientBound(Abs(a), Abs(b));
  }

  /** div and mod read their operands as signed words and truncate, as JavaScript's `/` and `%` do. */
  lemma DivModOfWords(a: int, b: int)
    requires -0x8000 <= a < 0x8000 && -0x8000 <= b < 0x8000 && b != 0
    ensures Calculated(Div, [Low16(a), Low16(b)]) == Low16(TruncDiv(a, b))
    ensures Calculated(Mod, [Low16(a), Low16(b)]) == Low16(TruncMod(a, b))
  {
    assert Int16(Low16(a)) == a;
    assert Int16(Low16(b)) == b;
  }

  /**
   * div and mod of signed words agree with each other: read back as signed
   * words, quotient times divisor plus remainder is the dividend, and the
   * remainder is smaller than the divisor and has the dividend's sign.
   */
  lemma DivModAgree(a: int, b: int)
    requires -0x8000 <= a < 0x8000 && -0x8000 <= b < 0x8000 && b != 0
    requires !(a == -0x8000 && b == -1)
    ensures var q := Int16(Calculated(Div, [Low16(a), Low16(b)]));
      var m := Int16(Calculated(Mod, [Low16(a), Low16(b)]));
      && q * b + m == a
      && Abs(m) < Abs(b)
      && (m != 0 ==> (m < 0 <==> a < 0))
  {
    DivModOfWords(a, b);
    SignedDivision(a, b);
    var q := TruncDiv(a, b);
    var m := TruncMod(a, b);
    SignedWordBack(q);
    SignedWordBack(m);
    assert Int16(Calculated(Div, [Low16(a), Low16(b)])) == q;
    assert Int16(Calculated(Mod, [Low16(a), Low16(b)])) == m;
  }

  /** A signed number in range survives `& 0xFFFF` followed by the signed reading. */
  lemma SignedWordBack(x: int)
    requires -0x8000 <= x < 0x8000
    ensures Int16(Low16(x)) == x
  {
  }

  /** A quotient by a positive number is no larger than the dividend. */
  lemma QuotientBound(n: nat, d: nat)
    requires d >= 1
    ensures n / d <= n
  {
    var q := n / d;
    assert n == d * q + n % d;
    assert d * q >= q;
  }

  /** `q` is `n / p` rounded toward minus infinity. */
  predicate RoundedDown(q: int, n: int, p: int)
  {
    q * p <= n < (q + 1) * p
  }

  /** A floor quotient `q` by a positive `p` brackets the dividend between `q * p` and `(q + 1) * p`. */
  lemma FloorQuotient(n: int, p: int)
    requires p >= 1
    ensures (n / p) * p <= n < (n / p + 1) * p
  {
    var q := n / p;
    assert n == p * q + n % p;
    assert (q + 1) * p == q * p + p;
  }

  /**
   * log_shift and art_shift of a word by a positive count below 16 shift it
   * left and drop the bits shifted past bit 15.
   */
  lemma ShiftLeftLaw(a: int, k: int)
    requires 0 <= a < 0x10000 && 0 <= k < 16
    ensures Calculated(LogShift, [a, k]) == (a * Pow2(k)) % 0x10000
    ensures Calculated(ArtShift, [a, k]) == (a * Pow2(k)) % 0x10000
  {
    assert Int16(k) == k;
    assert k % 32 == k;
    var p := Pow2(k);
    assert Calculated(LogShift, [a, k]) == ShiftLeftWord(a, k) == Low16(a * p);
    assert Calculated(ArtShift, [a, k]) == ShiftLeftWord(Int16(a), k) == Low16(Int16(a) * p);
    SameWordProduct(Int16(a), a, p);
  }

  /**
   * log_shift of a word by a negative count shifts it right and fills with
   * zeros: the result is the word divided by `2^k`, rounded down.
   */
  lemma LogShiftRightLaw(a: int, k: int)
    requires 0 <= a < 0x10000 && 0 < k < 16
    ensures var r := Calculated(LogShift, [a, Low16(-k)]);
      RoundedDown(r, a, Pow2(k))
  {
    var ops := [a, Low16(-k)];
    assert ops[1] == 0x10000 - k;
    assert Int16(ops[1]) == -k;
    assert Calculated(LogShift, ops) == ShiftRightUnsignedWord(a, k);
    UnsignedShiftRight(a, k);
  }

  /** `(a >>> k) & 0xFFFF` of a word is the word divided by `2^k`, rounded down. */
  lemma UnsignedShiftRight(a: int, k: int)
    requires 0 <= a < 0x10000 && 0 < k < 16
    ensures var r := ShiftRightUnsignedWord(a, k);
      RoundedDown(r, a, Pow2(k))
  {
    assert a % 0x1_0000_0000 == a;
    assert k % 32 == k;
    var p := Pow2(k);
    assert ShiftRightUnsignedWord(a, k) == Low16(a / p);
    FloorQuotient(a, p);
    QuotientBetween(a, p);
  }

  /**
   * art_shift of a word by a negative count shifts the signed word right,
   * copying the sign bit: the signed result is the signed word divided by
   * `2^k`, rounded toward minus infinity.
   */
  lemma ArtShiftRightLaw(a: int, k: int)
    requires 0 <= a < 0x10000 && 0 < k < 16
    ensures var r := Int16(Calculated(ArtShift, [a, Low16(-k)]));
      RoundedDown(r, Int16(a), Pow2(k))
  {
    var ops := [a, Low16(-k)];
    assert ops[1] == 0x10000 - k;
    assert Int16(ops[1]) == -k;
    assert Calculated(ArtShift, ops) == ShiftRightWord(Int16(a), k);
    SignedShiftRight(Int16(a), k);
  }

  /** `(n >> k) & 0xFFFF` of a signed word, read back as signed, is the word divided by `2^k`, rounded down. */
  lemma SignedShiftRight(n: int, k: int)
    requires -0x8000 <= n < 0x8000 && 0 < k < 16
    ensures var r := Int16(ShiftRightWord(n, k));
      RoundedDown(r, n, Pow2(k))
  {
    assert Int32(n) == n;
    assert k % 32 == k;
    var p := Pow2(k);
    assert ShiftRightWord(n, k) == Low16(n / p);
    FloorQuotient(n, p);
    QuotientBetween(n, p);
    SignedWordBack(n / p);
  }

  /** Numbers equal modulo 0x10000 have products equal modulo 0x10000. */
  lemma SameWordProduct(n: int, a: int, p: int)
    requires (n - a) % 0x10000 == 0
    ensures n * p % 0x10000 == a * p % 0x10000
  {
    assert n * p - a * p == (n - a) * p;
    ModOfMultiple(n - a, p);
    SameResidue(a * p, n * p);
  }

  /** Numbers whose difference is a multiple of 0x10000 leave the same remainder. */
  lemma SameResidue(x: int, y: int)
    requires (y - x) % 0x10000 == 0
    ensures y % 0x10000 == x % 0x10000
  {
    var k := (y - x) / 0x10000;
    assert y == x + 0x10000 * k;
  }

  /** Dividing by a positive number, rounding down, moves a number toward zero without crossing it. */
  lemma QuotientBetween(n: int, p: int)
    requires p >= 1
    ensures n >= 0 ==> 0 <= n / p <= n
    ensures n < 0 ==> n <= n / p < 0
  {
    FloorQuotient(n, p);
    BracketBetween(n, p, n / p);
  }

  /** A `q` with `q * p <= n < (q + 1) * p` for a positive `p` lies between 0 and `n`. */
  lemma BracketBetween(n: int, p: int, q: int)
    requires p >= 1 && q * p <= n < (q + 1) * p
    ensures n >= 0 ==> 0 <= q <= n
    ensures n < 0 ==> n <= q < 0
  {
    ProductSign(q, p - 1);
    ProductSign(q + 1, p - 1);
  }

  /** The sign of a product by a non-negative number. */
  lemma ProductSign(x: int, p: int)
    requires p >= 0
    ensures x >= 0 ==> x * p >= 0
    ensures x <= 0 ==> x * p <= 0
    ensures x * (p + 1) == x * p + x
  {
  }

  /** A multiple of a multiple of 0x10000 is a multiple of 0x10000. */
  lemma ModOfMultiple(d: int, p: int)
    requires d % 0x10000 == 0
    ensures (d * p) % 0x10000 == 0
  {
    var m := d / 0x10000;
    assert d == 0x10000 * m;
    assert d * p == 0x10000 * (m * p);
  }

  /** storeb then loadb at the same place reads the byte back; no other byte changes. */
  lemma StorebThenLoadb(mem: seq<byte>, a: int, b: int, c: int)
    requires Low16(a + b) < |mem|
    ensures var m := StoredTo(mem, Storeb, [a, b, c]);
      && |m| == |mem|
      && LoadedFrom(m, Loadb, [a, b]) == c % 256
      && forall i | 0 <= i < |mem| && i != Low16(a + b) :: m[i] == mem[i]
  {
  }

  /** storew then loadw at the same place reads the word back; only its two bytes change. */
  lemma StorewThenLoadw(mem: seq<byte>, a: int, b: int, c: int)
    requires Low16(a + 2 * b) + 1 < |mem|
    ensures var m := StoredTo(mem, Storew, [a, b, c]);
      && |m| == |mem|
      && LoadedFrom(m, Loadw, [a, b]) == Low16(c)
      && forall i | 0 <= i < |mem| && i != Low16(a + 2 * b) && i != Low16(a + 2 * b) + 1 :: m[i] == mem[i]
  {
    WordStore(mem, a, b, c);
    WordReadBack(mem, a, b, c);
  }

  /** storew writes the word at `a + 2 * b`, as a word address. */
  lemma WordStore(mem: seq<byte>, a: int, b: int, c: int)
    ensures StoredTo(mem, Storew, [a, b, c]) == Written16(mem, Low16(a + 2 * b), c)
  {
    var ops := [a, b, c];
    assert ops[0] + 2 * ops[1] == a + 2 * b;
  }

  /** loadw at `a + 2 * b` reads back the word written there. */
  lemma WordReadBack(mem: seq<byte>, a: int, b: int, c: int)
    requires Low16(a + 2 * b) + 1 < |mem|
    ensures LoadedFrom(Written16(mem, Low16(a + 2 * b), c), Loadw, [a, b]) == Low16(c)
  {
    var p := Low16(a + 2 * b);
    var ops := [a, b];
    assert ops[0] + 2 * ops[1] == a + 2 * b;
    Read16OfWritten16(mem, p, c);
  }

  /** push then pull into a variable stores the pushed value there and leaves the stack as it was. */
  lemma PushThenPull(s: State, i: Instruction, value: int, variable: int)
    requires |s.frames| > 0
    ensures ValueMoved(s, Push, i, [value]).Ok?
    ensures ValueMoved(ValueMoved(s, Push, i, [value]).value, Pull, i, [variable]) == Stored(s, variable, value)
  {
    var top := s.frames[|s.frames| - 1];
    var t := Pushed(s, value).value;
    var grown := top.(stack := top.stack + [value]);
    assert t.frames[|t.frames| - 1] == grown;
    assert grown.stack[..|grown.stack| - 1] == top.stack;
    assert grown.(stack := top.stack) == top;
    assert WithTopFrame(t, top) == s;
    assert Pulled(t, DecodeVariable(variable)) == StoredThrough(s, DecodeVariable(variable), value);
    StoredIsStoredThrough(s, variable, value);
  }

  /** inc of a global variable rewrites its word plus one. */
  lemma IncGlobal(s: State, i: Instruction, variable: int)
    requires 0x10 <= variable <= 0xFF
    ensures var g := GlobalAddress(s.mem, variable - 0x10);
      Counted(s, Inc, i, [variable]) == Ok(s.(mem := Written16(s.mem, g, Low16(Read16(s.mem, g) + 1))))
  {
    SteppedGlobal(s, variable, true);
    var ops := [variable];
    assert ops[0] == variable;
  }

  /** dec of a global variable rewrites its word minus one. */
  lemma DecGlobal(s: State, i: Instruction, variable: int)
    requires 0x10 <= variable <= 0xFF
    ensures var g := GlobalAddress(s.mem, variable - 0x10);
      Counted(s, Dec, i, [variable]) == Ok(s.(mem := Written16(s.mem, g, Low16(Read16(s.mem, g) - 1))))
  {
    SteppedGlobal(s, variable, false);
    var ops := [variable];
    assert ops[0] == variable;
  }

  /** Stepping a global variable rewrites its word one up or one down. */
  lemma SteppedGlobal(s: State, variable: int, up: bool)
    requires 0x10 <= variable <= 0xFF
    ensures var g := GlobalAddress(s.mem, variable - 0x10);
      var w := if up then Low16(Read16(s.mem, g) + 1) else Low16(Read16(s.mem, g) - 1);
      Stepped(s, variable, up) == Ok((w, s.(mem := Written16(s.mem, g, w))))
  {
  }

  /** inc then dec of a global variable leaves the whole state as it was. */
  lemma IncThenDec(s: State, i: Instruction, variable: int)
    requires 0x10 <= variable <= 0xFF
    requires 0x0D < GlobalAddress(s.mem, variable - 0x10) && GlobalAddress(s.mem, variable - 0x10) + 1 < |s.mem|
    ensures Counted(s, Inc, i, [variable]).Ok?
    ensures Counted(Counted(s, Inc, i, [variable]).value, Dec, i, [variable]) == Ok(s)
  {
    var g := GlobalAddress(s.mem, variable - 0x10);
    var t := s.(mem := Written16(s.mem, g, Low16(Read16(s.mem, g) + 1)));
    DecAfterIncGlobal(s, i, variable);
    IncGlobal(s, i, variable);
  }

  /** dec of a global variable just raised by one restores the state. */
  lemma DecAfterIncGlobal(s: State, i: Instruction, variable: int)
    requires 0x10 <= variable <= 0xFF
    requires 0x0D < GlobalAddress(s.mem, variable - 0x10) && GlobalAddress(s.mem, variable - 0x10) + 1 < |s.mem|
    ensures var g := GlobalAddress(s.mem, variable - 0x10);
      Counted(s.(mem := Written16(s.mem, g, Low16(Read16(s.mem, g) + 1))), Dec, i, [variable]) == Ok(s)
  {
    var g := GlobalAddress(s.mem, variable - 0x10);
    var t := s.(mem := Written16(s.mem, g, Low16(Read16(s.mem, g) + 1)));
    var h := GlobalAddress(t.mem, variable - 0x10);
    calc {
      Counted(t, Dec, i, [variable]);
    == { DecGlobal(t, i, variable); }
      Ok(t.(mem := Written16(t.mem, h, Low16(Read16(t.mem, h) - 1))));
    == { GlobalUpThenDown(s, variable); }
      Ok(s);
    }
  }

  /** Writing a global variable one up and then one down restores the state. */
  lemma GlobalUpThenDown(s: State, variable: int)
    requires 0x10 <= variable <= 0xFF
    requires 0x0D < GlobalAddress(s.mem, variable - 0x10) && GlobalAddress(s.mem, variable - 0x10) + 1 < |s.mem|
    ensures var g := GlobalAddress(s.mem, variable - 0x10);
      var up := Written16(s.mem, g, Low16(Read16(s.mem, g) + 1));
      && GlobalAddress(up, variable - 0x10) == g
      && s.(mem := up).(mem := Written16(up, g, Low16(Read16(up, g) - 1))) == s
  {
    var g := GlobalAddress(s.mem, variable - 0x10);
    WordUpThenDown(s.mem, g);
    Read16OfWritten16Elsewhere(s.mem, g, 0x0C, Low16(Read16(s.mem, g) + 1));
  }

  /** Adding one to a word of memory and then taking one away restores the memory. */
  lemma WordUpThenDown(mem: seq<byte>, g: int)
    requires 0 <= g && g + 1 < |mem|
    ensures var up := Written16(mem, g, Low16(Read16(mem, g) + 1));
      Written16(up, g, Low16(Read16(up, g) - 1)) == mem
  {
    var v := Read16(mem, g);
    var w := Low16(v + 1);
    assert w == if v == 0xFFFF then 0 else v + 1;
    var up := Written16(mem, g, w);
    Read16OfWritten16(mem, g, w);
    assert Read16(up, g) == w;
    assert Low16(w - 1) == v;
    Written16Twice(mem, g, w, v);
    Written16Same(mem, g);
  }

  /**
   * A call followed by a return gives back the caller's state with the
   * returned value in the call's result variable; call_vn has none.
   */
  lemma CallThenRet(s: State, op: OpName, i: Instruction, ops: seq<int>, value: int)
    requires op == Call || op == CallVs || op == CallVn
    requires |ops| >= 1 && ops[0] != 0
    ensures CallStep(s, op, i, ops).Ok?
    ensures ReturnStep(CallStep(s, op, i, ops).value, Ret, [value])
      == if op == CallVn then Ok(s) else StoreResult(s, i.resultVariable, value)
  {
    CallThenReturn(s, op, ops[0], ops[1..], if op == CallVn then None else i.resultVariable, value);
  }

  /**
   * jump is performBranch by its operand: it has no branch bytes, so the jz
   * case it falls into never branches a second time.
   */
  lemma JumpIsUnconditional(s: State, i: Instruction, ops: seq<int>)
    requires |ops| >= Arity(Jump) && i.branch.None?
    ensures JumpStep(s, i, ops) == Branched(s, ops[0])
  {
  }

  /** The printing instructions leave memory, frames and pc alone. */
  lemma PrintingKeepsState(s: State, i: Instruction, ops: seq<int>, input: Option<string>, random: int -> int)
    requires i.opcode.Some? && KindOf(i.opcode.value.op) == Prints
    requires Executed(s, i, ops, input, random).Ok?
    ensures Executed(s, i, ops, input, random).value.state == s
  {
    var kind := KindOf(i.opcode.value.op);
    assert kind !in QuietKinds && kind != PrintsReturn;
  }

  /** print_num shows the word as a signed number: the text reads back as that number. */
  lemma PrintNumIsSigned(mem: seq<byte>, i: Instruction, a: int)
    requires 0 <= a < 0x10000
    ensures PrintedText(mem, PrintNum, i, [a]).Ok?
    ensures var text := PrintedText(mem, PrintNum, i, [a]).value;
      && DecimalValue(text) == Signed(a)
      && (text[0] == '-' <==> a >= 0x8000)
  {
    Int16Views(a);
    DecimalRoundTrip(Int16(a));
  }
}
