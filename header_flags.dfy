// initHeaderFlags.js: the interpreter announces what it can do by setting and
// clearing bits of header bytes 0x01 (Flags 1) and 0x10 (Flags 2), as section
// 11.1 of the Z-Machine Standards Document 1.1 describes.

module HeaderFlags {
  import opened Base
  import opened Rw16
  import opened Bitwise

  /** Versions 1-3: bit 4 (no status line) set, bits 5 and 6 (split screen, variable pitch) cleared. */
  const EarlyFlags1Set: nat := 0x10
  const EarlyFlags1Clear: nat := 0x60
  /** Later versions: Flags 1 bits 0-5 and 7 cleared. */
  const LateFlags1Clear: nat := 0xBF
  /** Later versions: Flags 2 bits 3, 4, 5, 7 and 8 cleared; bit 8 lies outside the byte. */
  const LateFlags2Clear: nat := 0x1B8

  /** The memory initHeaderFlags leaves behind. */
  function FlagsInitialised(mem: seq<byte>): (r: seq<byte>)
    ensures |r| == |mem|
  {
    if ByteAt(mem, 0) <= 3 then
      Poked(mem, 0x01, AndNot(Or(ByteAt(mem, 0x01), EarlyFlags1Set, 8), EarlyFlags1Clear, 8))
    else
      Poked(Poked(mem, 0x01, AndNot(ByteAt(mem, 0x01), LateFlags1Clear, 8)),
            0x10, AndNot(ByteAt(mem, 0x10), LateFlags2Clear, 8))
  }

  /** The bits of the early-version Flags 1 byte after initHeaderFlags. */
  lemma EarlyFlags1Bits(b: byte, k: nat)
    requires k < 8
    ensures Bit(AndNot(Or(b, EarlyFlags1Set, 8), EarlyFlags1Clear, 8), k) ==
      if k == 4 then true else if k == 5 || k == 6 then false else Bit(b, k)
  {
    AndNotBit(Or(b, EarlyFlags1Set, 8), EarlyFlags1Clear, 8, k);
    OrBit(b, EarlyFlags1Set, 8, k);
    Pow2Bit(4, k);
    assert EarlyFlags1Set == Pow2(4);
    ConstBits(EarlyFlags1Clear, k);
  }

  /** The bits of the three masks, one position at a time. */
  lemma ConstBits(m: nat, k: nat)
    requires k < 9
    ensures m == EarlyFlags1Clear ==> (Bit(m, k) <==> k == 5 || k == 6)
    ensures m == LateFlags1Clear ==> (Bit(m, k) <==> k != 6 && k < 8)
    ensures m == LateFlags2Clear ==> (Bit(m, k) <==> k == 3 || k == 4 || k == 5 || k == 7 || k == 8)
  {
    if k == 0 {
    } else if k == 1 {
    } else if k == 2 {
    } else if k == 3 {
    } else if k == 4 {
    } else if k == 5 {
    } else if k == 6 {
    } else if k == 7 {
    } else {
    }
  }

  /**
   * Versions 1-3: Flags 1 bit 4 ends set, bits 5 and 6 end clear, every other
   * bit and every other byte keeps its value.
   */
  lemma EarlyFlags(mem: seq<byte>, k: nat)
    requires |mem| > 0x10 && mem[0] <= 3 && k < 8
    ensures Bit(FlagsInitialised(mem)[0x01], k) ==
      if k == 4 then true else if k == 5 || k == 6 then false else Bit(mem[0x01], k)
    ensures forall i | 0 <= i < |mem| && i != 0x01 :: FlagsInitialised(mem)[i] == mem[i]
  {
    EarlyFlags1Bits(mem[0x01], k);
  }

  /**
   * Versions 4 and later: Flags 1 keeps only bit 6, Flags 2 loses bits 3, 4, 5
   * and 7, and every other byte keeps its value.
   */
  lemma LateFlags(mem: seq<byte>, k: nat)
    requires |mem| > 0x10 && mem[0] > 3 && k < 8
    ensures Bit(FlagsInitialised(mem)[0x01], k) == (k == 6 && Bit(mem[0x01], k))
    ensures Bit(FlagsInitialised(mem)[0x10], k) == (k != 3 && k != 4 && k != 5 && k != 7 && Bit(mem[0x10], k))
    ensures forall i | 0 <= i < |mem| && i != 0x01 && i != 0x10 :: FlagsInitialised(mem)[i] == mem[i]
  {
    AndNotBit(mem[0x01], LateFlags1Clear, 8, k);
    AndNotBit(mem[0x10], LateFlags2Clear, 8, k);
    ConstBits(LateFlags1Clear, k);
    ConstBits(LateFlags2Clear, k);
  }

  /** The early-version update of Flags 1, done a second time, changes nothing. */
  lemma EarlyFlags1Twice(b: byte)
    ensures AndNot(Or(AndNot(Or(b, EarlyFlags1Set, 8), EarlyFlags1Clear, 8), EarlyFlags1Set, 8), EarlyFlags1Clear, 8)
         == AndNot(Or(b, EarlyFlags1Set, 8), EarlyFlags1Clear, 8)
  {
    var once := AndNot(Or(b, EarlyFlags1Set, 8), EarlyFlags1Clear, 8);
    var twice := AndNot(Or(once, EarlyFlags1Set, 8), EarlyFlags1Clear, 8);
    forall k: nat | k < 8
      ensures Bit(twice, k) == Bit(once, k)
    {
      EarlyFlags1Bits(b, k);
      EarlyFlags1Bits(once, k);
    }
    BitsDetermine(twice, once, 8);
  }

  /** Running initHeaderFlags twice has the effect of running it once. */
  lemma FlagsInitialisedIdempotent(mem: seq<byte>)
    ensures FlagsInitialised(FlagsInitialised(mem)) == FlagsInitialised(mem)
  {
    var once := FlagsInitialised(mem);
    if |mem| > 0 {
      assert once[0] == mem[0];
    }
    if ByteAt(mem, 0) <= 3 {
      EarlyFlags1Twice(ByteAt(mem, 0x01));
    } else {
      AndNotTwice(ByteAt(mem, 0x01), LateFlags1Clear, 8);
      AndNotTwice(ByteAt(mem, 0x10), LateFlags2Clear, 8);
    }
  }

  /** initHeaderFlags (initHeaderFlags.js:1-29), in place. */
  method InitHeaderFlags(memory: array<byte>)
    modifies memory
    ensures memory[..] == FlagsInitialised(old(memory[..]))
  {
    var version := if memory.Length > 0 then memory[0] else 0;
    if version <= 3 {
      var flags1 := if memory.Length > 0x01 then memory[0x01] else 0;
      flags1 := Or(flags1, EarlyFlags1Set, 8);
      flags1 := AndNot(flags1, EarlyFlags1Clear, 8);
      SetByte(memory, 0x01, flags1);
    } else {
      var flags1 := if memory.Length > 0x01 then memory[0x01] else 0;
      SetByte(memory, 0x01, AndNot(flags1, LateFlags1Clear, 8));
      var flags2 := if memory.Length > 0x10 then memory[0x10] else 0;
      SetByte(memory, 0x10, AndNot(flags2, LateFlags2Clear, 8));
    }
  }
}
