// Byte and big-endian word access to the story memory (rw16.js, and the
// copies of read16/write16 at the top of run.js).
//
// Memory is a typed byte array: reading past either end yields JavaScript's
// `undefined`, which every bit operation of the source treats as 0, and a
// store past the end is dropped; a stored number is reduced modulo 256.

module Rw16 {
  import opened Base

  /** `memory[a]` as the bit operations of the source see it. */
  function ByteAt(mem: seq<byte>, a: int): (r: byte)
    ensures 0 <= a < |mem| ==> r == mem[a]
    ensures !(0 <= a < |mem|) ==> r == 0
  {
    if 0 <= a < |mem| then mem[a] else 0
  }

  /** The value a `Uint8Array` keeps when the number `x` is stored in it. */
  function ToByte(x: int): (r: byte)
    ensures 0 <= x < 256 ==> r == x
    ensures (r - x) % 256 == 0
  {
    x % 256
  }

  /** read16: the big-endian word at `a`. */
  function Read16(mem: seq<byte>, a: int): (r: int)
    ensures 0 <= r < 0x10000
    ensures r / 256 == ByteAt(mem, a) && r % 256 == ByteAt(mem, a + 1)
  {
    ByteAt(mem, a) * 256 + ByteAt(mem, a + 1)
  }

  /** Memory after `memory[a] = x`. */
  function Poked(mem: seq<byte>, a: int, x: int): (r: seq<byte>)
    ensures |r| == |mem|
    ensures forall i | 0 <= i < |mem| :: r[i] == (if i == a then ToByte(x) else mem[i])
  {
    if 0 <= a < |mem| then mem[a := ToByte(x)] else mem
  }

  /** Memory after write16(memory, a, v): high byte at `a`, low byte at `a + 1`. */
  function Written16(mem: seq<byte>, a: int, v: int): (r: seq<byte>)
    ensures |r| == |mem|
    ensures forall i | 0 <= i < |mem| && i != a && i != a + 1 :: r[i] == mem[i]
    ensures 0 <= a < |mem| ==> r[a] == (v / 256) % 256
    ensures 0 <= a + 1 < |mem| ==> r[a + 1] == v % 256
  {
    Poked(Poked(mem, a, (v / 256) % 256), a + 1, v % 256)
  }

  /** The two bytes of a word put back together give the word modulo 2^16. */
  lemma WordBytes(v: int)
    ensures ((v / 256) % 256) * 256 + v % 256 == v % 0x10000
  {
    var q, lo := v / 256, v % 256;
    var k, hi := q / 256, q % 256;
    assert v == 0x10000 * k + (256 * hi + lo);
    assert 0 <= 256 * hi + lo < 0x10000;
  }

  /** A word written with write16 reads back, truncated to 16 bits, with read16. */
  lemma Read16OfWritten16(mem: seq<byte>, a: int, v: int)
    requires 0 <= a && a + 1 < |mem|
    ensures Read16(Written16(mem, a, v), a) == v % 0x10000
  {
    WordBytes(v);
  }

  /** write16 leaves every word that does not overlap it unchanged. */
  lemma Read16OfWritten16Elsewhere(mem: seq<byte>, a: int, b: int, v: int)
    requires b + 1 < a || a + 1 < b
    ensures Read16(Written16(mem, a, v), b) == Read16(mem, b)
  {
  }

  /** A second write16 to the same word hides the first. */
  lemma Written16Twice(mem: seq<byte>, a: int, v: int, w: int)
    ensures Written16(Written16(mem, a, v), a, w) == Written16(mem, a, w)
  {
  }

  /** Writing back the word that is already there changes nothing. */
  lemma Written16Same(mem: seq<byte>, a: int)
    ensures Written16(mem, a, Read16(mem, a)) == mem
  {
  }

  /** `memory[a] = x` in place. */
  method SetByte(buffer: array<byte>, a: int, x: int)
    modifies buffer
    ensures buffer[..] == Poked(old(buffer[..]), a, x)
  {
    if 0 <= a < buffer.Length {
      buffer[a] := ToByte(x);
    }
  }

  /** write16 (rw16.js:5-8), in place. */
  method Write16(buffer: array<byte>, a: int, v: int)
    modifies buffer
    ensures buffer[..] == Written16(old(buffer[..]), a, v)
  {
    SetByte(buffer, a + 0, (v / 256) % 256);
    SetByte(buffer, a + 1, v % 256);
  }
}
