// decodeText.js (and its copy at run.js:138-218): z-string decoding. Each
// 16-bit word holds three 5-bit z-characters; bit 15 marks the last word.
// The z-characters drive a small state machine (current alphabet, one-shot
// shift, pending abbreviation, pending ten-bit ZSCII escape) that appends to
// the decoded text, as section 3 of the Z-Machine Standards Document 1.1
// describes.

module TextDecoder {
  import opened Base
  import opened Rw16
  import opened Header
  import opened Alphabets

  type ZChar = c: int | 0 <= c < 32

  /** The source's `tenbit`: null, -1 (waiting for the high half) or the high half. */
  datatype TenBit = NoEscape | AwaitHigh | AwaitLow(high: ZChar)

  /** The local variables of decodeText that survive from one z-character to the next. */
  datatype Decoder = Decoder(text: string, alphabet: int, shift: Option<int>, abbr: Option<int>, tenbit: TenBit)

  /** The ranges the decoder's variables stay in. */
  predicate Sane(d: Decoder)
  {
    && 0 <= d.alphabet < 3
    && (d.shift.Some? ==> 0 <= d.shift.value < 3)
    && (d.abbr.Some? ==> 0 <= d.abbr.value <= 64)
  }

  const Fresh: Decoder := Decoder("", 0, None, None, NoEscape)

  /** The three z-characters of a word, most significant first. */
  function ZCharsOfWord(w: int): (r: seq<ZChar>)
    requires 0 <= w < 0x10000
    ensures |r| == 3
    ensures w == (w / 0x8000) * 0x8000 + r[0] as int * 1024 + r[1] as int * 32 + r[2]
  {
    [(w / 1024) % 32, (w / 32) % 32, w % 32]
  }

  /** The character z-character `c` (6..31) stands for in alphabet `a`. */
  function AlphabetChar(mem: seq<byte>, a: int, c: ZChar): char
    requires 0 <= a < 3 && c >= 6
  {
    var version := Version(mem);
    if version <= 4 || AlphabetTableAddress(mem) == 0 then
      AlphabetRows(version)[a][c - 6]
    else
      ByteAt(mem, AlphabetTableAddress(mem) + 26 * a + (c - 6)) as char
  }

  /** One pass of the per-z-character callback (decodeText.js:27-77). */
  function StepZ(mem: seq<byte>, isAbbreviation: bool, d: Decoder, c: ZChar): (r: Result<Decoder>)
    requires Sane(d) && (isAbbreviation ==> d.abbr.None?)
    ensures r.Ok? ==> Sane(r.value) && (isAbbreviation ==> r.value.abbr.None?)
    ensures r.Err? ==> r.fault == NestedAbbreviation || r.fault == Diverges
    decreases if isAbbreviation then 0 else 1, 0, 0
  {
    var version := Version(mem);
    if d.abbr.Some? then
      var entry := AbbreviationsTableAddress(mem) + 2 * (d.abbr.value + c);
      match DecodeFrom(mem, 2 * Read16(mem, entry), true, Fresh)
      case Err(f) => Err(f)
      case Ok(expansion) => Ok(d.(text := d.text + expansion.0, abbr := None))
    else if d.tenbit.AwaitHigh? then
      Ok(d.(tenbit := AwaitLow(c)))
    else if d.tenbit.AwaitLow? then
      Ok(d.(text := d.text + [(d.tenbit.high * 32 + c) as char], tenbit := NoEscape))
    else if c == 0 then
      Ok(d.(text := d.text + " "))
    else if c == 1 && version == 1 then
      Ok(d.(text := d.text + "\n"))
    else if (c == 1 && version == 2) || (1 <= c <= 3 && version >= 3) then
      if isAbbreviation then Err(NestedAbbreviation) else Ok(d.(abbr := Some(32 * (c - 1))))
    else if c == 2 && version <= 2 then
      Ok(d.(shift := Some((d.alphabet + 1) % 3)))
    else if c == 3 && version <= 2 then
      Ok(d.(shift := Some((d.alphabet + 2) % 3)))
    else if c == 4 && version <= 2 then
      Ok(d.(alphabet := (d.alphabet + 1) % 3))
    else if c == 5 && version <= 2 then
      Ok(d.(alphabet := (d.alphabet + 2) % 3))
    else if c == 4 && version >= 3 then
      Ok(d.(shift := Some(1)))
    else if c == 5 && version >= 3 then
      Ok(d.(shift := Some(2)))
    else if c >= 6 then
      var a := if d.shift.Some? then d.shift.value else d.alphabet;
      if a == 2 && c == 6 then
        Ok(d.(shift := None, tenbit := AwaitHigh))
      else
        Ok(d.(shift := None, text := d.text + [AlphabetChar(mem, a, c)]))
    else
      Ok(d)
  }

  /** The callback applied to each z-character of `zs` in turn, stopping at the first throw. */
  function RunZ(mem: seq<byte>, isAbbreviation: bool, d: Decoder, zs: seq<ZChar>): (r: Result<Decoder>)
    requires Sane(d) && (isAbbreviation ==> d.abbr.None?)
    ensures r.Ok? ==> Sane(r.value) && (isAbbreviation ==> r.value.abbr.None?)
    ensures r.Err? ==> r.fault == NestedAbbreviation || r.fault == Diverges
    decreases if isAbbreviation then 0 else 1, 0, |zs|
  {
    if zs == [] then Ok(d)
    else
      match StepZ(mem, isAbbreviation, d, zs[0])
      case Err(f) => Err(f)
      case Ok(d') => RunZ(mem, isAbbreviation, d', zs[1..])
  }

  /**
   * decodeText from the word at `a` on, with the decoder already in state `d`:
   * the decoded text and the address after the last word. Past the end of
   * memory every word reads as 0 and never ends the string, so the source
   * loops for ever unless a pending abbreviation throws first.
   */
  function DecodeFrom(mem: seq<byte>, a: int, isAbbreviation: bool, d: Decoder): (r: Result<(string, int)>)
    requires Sane(d) && (isAbbreviation ==> d.abbr.None?)
    ensures r.Ok? ==> a < r.value.1 <= |mem| + 1
    ensures r.Err? ==> r.fault == NestedAbbreviation || r.fault == Diverges
    decreases if isAbbreviation then 0 else 1, (if a < |mem| then |mem| - a else 0) + 1, 0
  {
    if a >= |mem| then
      match RunZ(mem, isAbbreviation, d, [0, 0, 0])
      case Err(f) => Err(f)
      case Ok(_) => Err(Diverges)
    else
      var w := Read16(mem, a);
      match RunZ(mem, isAbbreviation, d, ZCharsOfWord(w))
      case Err(f) => Err(f)
      case Ok(d') =>
        if w >= 0x8000 then Ok((d'.text, a + 2))
        else DecodeFrom(mem, a + 2, isAbbreviation, d')
  }

  /** decodeText(state, address, isAbbreviation): the text and the address after the string. */
  function DecodedText(mem: seq<byte>, address: int, isAbbreviation: bool): (r: Result<(string, int)>)
    ensures r.Ok? ==> address < r.value.1 <= |mem| + 1
    ensures r.Err? ==> r.fault == NestedAbbreviation || r.fault == Diverges
  {
    DecodeFrom(mem, address, isAbbreviation, Fresh)
  }

  /**
   * A decoded string is a run of whole words ending at the first word with
   * bit 15 set: the address after it lies an even number of bytes on, the
   * last word has bit 15 set and every word before it has bit 15 clear.
   */
  lemma {:induction false} DecodeFromEnds(mem: seq<byte>, a: int, isAbbreviation: bool, d: Decoder, next: int)
    requires Sane(d) && (isAbbreviation ==> d.abbr.None?)
    requires DecodeFrom(mem, a, isAbbreviation, d).Ok? && DecodeFrom(mem, a, isAbbreviation, d).value.1 == next
    ensures (next - a) % 2 == 0 && Read16(mem, next - 2) >= 0x8000 && Continued(mem, a, next - 2)
    decreases if a < |mem| then |mem| - a else 0
  {
    var d' := DecodeFromStep(mem, a, isAbbreviation, d);
    if Read16(mem, a) < 0x8000 {
      DecodeFromEnds(mem, a + 2, isAbbreviation, d', next);
      EvenPlusTwo(next - (a + 2));
      ClearWordsBefore(mem, a, next - 2);
    }
  }

  /** One word of DecodeFrom: the decoder state `d'` after it, and where the string goes on. */
  lemma DecodeFromStep(mem: seq<byte>, a: int, isAbbreviation: bool, d: Decoder) returns (d': Decoder)
    requires Sane(d) && (isAbbreviation ==> d.abbr.None?)
    requires DecodeFrom(mem, a, isAbbreviation, d).Ok?
    ensures a < |mem| && Sane(d') && (isAbbreviation ==> d'.abbr.None?)
    ensures Read16(mem, a) >= 0x8000 ==> DecodeFrom(mem, a, isAbbreviation, d).value.1 == a + 2
    ensures Read16(mem, a) < 0x8000 ==> DecodeFrom(mem, a, isAbbreviation, d) == DecodeFrom(mem, a + 2, isAbbreviation, d')
  {
    d' := RunZ(mem, isAbbreviation, d, ZCharsOfWord(Read16(mem, a))).value;
  }

  lemma EvenPlusTwo(x: int)
    requires x % 2 == 0
    ensures (x + 2) % 2 == 0
  {
  }

  /** Every word from `a` on, before `last`, has bit 15 clear: the string goes on past it. */
  predicate Continued(mem: seq<byte>, a: int, last: int)
  {
    forall k | 0 <= k < (last - a) / 2 :: Read16(mem, a + 2 * k) < 0x8000
  }

  /** A word with bit 15 clear in front of continued words makes them continued from one word earlier. */
  lemma ClearWordsBefore(mem: seq<byte>, a: int, last: int)
    requires Read16(mem, a) < 0x8000 && Continued(mem, a + 2, last)
    ensures Continued(mem, a, last)
  {
    forall k | 0 <= k < (last - a) / 2
      ensures Read16(mem, a + 2 * k) < 0x8000
    {
      if k > 0 {
        assert a + 2 * k == a + 2 + 2 * (k - 1);
      }
    }
  }

  /** The end of a decoded string, from its start address (DecodeFromEnds). */
  lemma DecodedTextEnds(mem: seq<byte>, address: int, isAbbreviation: bool)
    requires DecodedText(mem, address, isAbbreviation).Ok?
    ensures var next := DecodedText(mem, address, isAbbreviation).value.1;
      && (next - address) % 2 == 0
      && Read16(mem, next - 2) >= 0x8000
      && Continued(mem, address, next - 2)
  {
    DecodeFromEnds(mem, address, isAbbreviation, Fresh, DecodedText(mem, address, isAbbreviation).value.1);
  }

  /** decodeText (decodeText.js:5-85): the word loop and the per-z-character loop. */
  method DecodeText(memory: array<byte>, address: int, isAbbreviation: bool) returns (r: Result<(string, int)>)
    ensures r == DecodedText(memory[..], address, isAbbreviation)
  {
    var d := Fresh;
    var a := address;
    while true
      invariant Sane(d) && (isAbbreviation ==> d.abbr.None?)
      invariant DecodeFrom(memory[..], address, isAbbreviation, Fresh) == DecodeFrom(memory[..], a, isAbbreviation, d)
      decreases memory.Length - a
    {
      var encoded := 0;
      if a < memory.Length {
        encoded := Read16(memory[..], a);
      }
      var zchars := ZCharsOfWord(encoded);
      ghost var d0 := d;
      var k := 0;
      while k < 3
        invariant 0 <= k <= 3
        invariant Sane(d) && (isAbbreviation ==> d.abbr.None?)
        invariant RunZ(memory[..], isAbbreviation, d0, zchars) == RunZ(memory[..], isAbbreviation, d, zchars[k..])
      {
        var step := StepZ(memory[..], isAbbreviation, d, zchars[k]);
        if step.Err? {
          return Err(step.fault);
        }
        d := step.value;
        k := k + 1;
      }
      if a >= memory.Length {
        return Err(Diverges);
      }
      a := a + 2;
      if encoded >= 0x8000 {
        return Ok((d.text, a));
      }
    }
  }
}
