// The JavaScript number conversions the interpreter leans on: `x & 0xFFFF`,
// `new Int16Array([x])[0]`, the 32-bit bitwise operators, truncating `/`
// and `%`, shifts (whose count JavaScript takes modulo 32), and
// `Number.prototype.toString(10)` for the integers print_num shows.

module JsNumbers {
  import opened Bitwise

  /** `x & 0xFFFF`: the low 16 bits of `x` (two's complement for negative `x`). */
  function Low16(x: int): (r: int)
    ensures 0 <= r < 0x10000
    ensures (r - x) % 0x10000 == 0
  {
    x % 0x10000
  }

  /** `new Int16Array([x])[0]`: `x` read as a signed 16-bit number. */
  function Int16(x: int): (r: int)
    ensures -0x8000 <= r < 0x8000
    ensures (r - x) % 0x10000 == 0
  {
    var u := x % 0x10000;
    if u >= 0x8000 then u - 0x10000 else u
  }

  /** A signed 16-bit view loses nothing for numbers already in range, and `& 0xFFFF` undoes it. */
  lemma Int16Views(x: int)
    ensures -0x8000 <= x < 0x8000 ==> Int16(x) == x
    ensures Low16(Int16(x)) == Low16(x)
    ensures 0 <= x < 0x8000 ==> Int16(x) == x
    ensures 0x8000 <= x < 0x10000 ==> Int16(x) == x - 0x10000
  {
  }

  /** ToInt32: `x | 0`. */
  function Int32(x: int): (r: int)
    ensures -0x8000_0000 <= r < 0x8000_0000
    ensures (r - x) % 0x1_0000_0000 == 0
  {
    var u := x % 0x1_0000_0000;
    if u >= 0x8000_0000 then u - 0x1_0000_0000 else u
  }

  /** `a & b` on numbers: both operands and the result as 32-bit two's complement. */
  function JsAnd(a: int, b: int): int
  {
    Int32(And(a % 0x1_0000_0000, b % 0x1_0000_0000, 32))
  }

  /** `a | b` on numbers. */
  function JsOr(a: int, b: int): int
  {
    Int32(Or(a % 0x1_0000_0000, b % 0x1_0000_0000, 32))
  }

  function Abs(x: int): nat
  {
    if x < 0 then -x else x
  }

  /** JavaScript's `a / b` truncated toward zero, for `b != 0`. */
  function TruncDiv(a: int, b: int): int
    requires b != 0
  {
    if (a >= 0) == (b > 0) then Abs(a) / Abs(b) else -(Abs(a) / Abs(b))
  }

  /** JavaScript's `a % b`: the remainder takes the sign of the dividend. */
  function TruncMod(a: int, b: int): int
    requires b != 0
  {
    if a >= 0 then Abs(a) % Abs(b) else -(Abs(a) % Abs(b))
  }

  /** Truncating quotient and remainder fit together as they do in JavaScript. */
  lemma TruncDivMod(a: int, b: int)
    requires b != 0
    ensures a == b * TruncDiv(a, b) + TruncMod(a, b)
    ensures Abs(TruncMod(a, b)) < Abs(b)
  {
    var n: int, m: int := Abs(a), Abs(b);
    var q: int, r: int := n / m, n % m;
    assert n == m * q + r;
    if a >= 0 && b > 0 {
    } else if a >= 0 {
      assert b * TruncDiv(a, b) == (-m) * (-q) == m * q;
    } else if b > 0 {
      assert b * TruncDiv(a, b) == m * (-q) == -(m * q);
    } else {
      assert b * TruncDiv(a, b) == (-m) * q == -(m * q);
    }
  }

  /** `(a / b) & 0xFFFF`: a division by zero gives Infinity or NaN, which `& 0xFFFF` turns into 0. */
  function DivWord(a: int, b: int): (r: int)
    ensures 0 <= r < 0x10000
  {
    if b == 0 then 0 else Low16(TruncDiv(a, b))
  }

  /** `(a % b) & 0xFFFF`, with NaN for `b == 0` becoming 0. */
  function ModWord(a: int, b: int): (r: int)
    ensures 0 <= r < 0x10000
  {
    if b == 0 then 0 else Low16(TruncMod(a, b))
  }

  /** `(x << k) & 0xFFFF`: the count is taken modulo 32. */
  function ShiftLeftWord(x: int, k: int): (r: int)
    ensures 0 <= r < 0x10000
  {
    Low16(x * Pow2(k % 32))
  }

  /** `(x >> k) & 0xFFFF`: arithmetic shift of the 32-bit `x`, the count taken modulo 32. */
  function ShiftRightWord(x: int, k: int): (r: int)
    ensures 0 <= r < 0x10000
  {
    Low16(Int32(x) / Pow2(k % 32))
  }

  /** `(x >>> k) & 0xFFFF`: logical shift of the unsigned 32-bit `x`. */
  function ShiftRightUnsignedWord(x: int, k: int): (r: int)
    ensures 0 <= r < 0x10000
  {
    Low16((x % 0x1_0000_0000) / Pow2(k % 32))
  }

  /** The decimal digits of `n`, most significant first. */
  function Digits(n: nat): (r: string)
    ensures |r| >= 1
    ensures forall i | 0 <= i < |r| :: '0' <= r[i] <= '9'
    ensures n > 0 ==> r[0] != '0'
  {
    if n < 10 then [('0' as int + n) as char]
    else Digits(n / 10) + [('0' as int + n % 10) as char]
  }

  /** `n.toString(10)` for an integer. */
  function DecimalString(n: int): (r: string)
  {
    if n < 0 then "-" + Digits(-n) else Digits(n)
  }

  /** The number a string of decimal digits denotes. */
  function DigitsValue(s: string): nat
    requires forall i | 0 <= i < |s| :: '0' <= s[i] <= '9'
  {
    if s == [] then 0 else 10 * DigitsValue(s[..|s| - 1]) + (s[|s| - 1] as int - '0' as int)
  }

  /** The number a decimal string (with an optional leading '-') denotes. */
  function DecimalValue(s: string): int
    requires forall i | 0 < i < |s| :: '0' <= s[i] <= '9'
    requires |s| > 0 && s[0] != '-' ==> '0' <= s[0] <= '9'
  {
    if |s| > 0 && s[0] == '-' then -(DigitsValue(s[1..]) as int) else DigitsValue(s) as int
  }

  /** Reading back the digits of `n` gives `n`. */
  lemma {:induction false} DigitsRoundTrip(n: nat)
    ensures DigitsValue(Digits(n)) == n
  {
    if n >= 10 {
      DigitsRoundTrip(n / 10);
      var d := Digits(n);
      assert d[..|d| - 1] == Digits(n / 10);
    }
  }

  /** print_num's text reads back as the number, and has no leading zero or "-0". */
  lemma DecimalRoundTrip(n: int)
    ensures DecimalValue(DecimalString(n)) == n
    ensures DecimalString(n)[0] == '-' <==> n < 0
    ensures n != 0 ==> DecimalString(n)[if n < 0 then 1 else 0] != '0'
  {
    var s := DecimalString(n);
    if n < 0 {
      assert s[1..] == Digits(-n);
      DigitsRoundTrip(-n);
    } else {
      DigitsRoundTrip(n);
    }
  }

  /** ToInt32 leaves a number that already fits alone. */
  lemma Int32OfSmall(x: int)
    requires 0 <= x < 0x8000_0000
    ensures Int32(x) == x
  {
  }

  /** `a & b` of two words is the bitwise and on their sixteen bits. */
  lemma JsAndOfWords(a: int, b: int)
    requires 0 <= a < 0x10000 && 0 <= b < 0x10000
    ensures JsAnd(a, b) == And(a, b, 16)
    ensures 0 <= JsAnd(a, b) < 0x10000
  {
    assert a % 0x1_0000_0000 == a && b % 0x1_0000_0000 == b;
    assert JsAnd(a, b) == Int32(And(a, b, 32));
    Pow2Words();
    AndOfSmall(a, b, 16, 32);
    Int32OfSmall(And(a, b, 16));
  }
}
