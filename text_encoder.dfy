// encodeText.js (and the variant at run.js:220-257): text to z-characters to
// packed words. Every character becomes one z-character, or a shift followed
// by an alphabet index; the z-characters are packed three to a word, the last
// word padded with 5s and marked with bit 15 (section 3.7 of the Z-Machine
// Standards Document 1.1 describes the same packing for dictionary words).

module TextEncoder {
  import opened Base
  import opened Rw16
  import opened Header
  import opened Alphabets
  import opened TextDecoder

  /**
   * The z-characters for one character, or None when no alphabet has it.
   * `nulAsFive` is the variant of run.js, which writes '\0' as a lone 5.
   */
  function CharZChars(version: int, c: char, nulAsFive: bool): (r: Option<seq<ZChar>>)
    ensures r.Some? ==> 1 <= |r.value| <= 2
  {
    var rows := AlphabetRows(version);
    if c == ' ' then Some([0])
    else if nulAsFive && c == '\0' then Some([5])
    else if IndexOf(rows[0], c) > -1 then Some([6 + IndexOf(rows[0], c)])
    else if IndexOf(rows[1], c) > -1 then Some([if version <= 2 then 2 else 4, 6 + IndexOf(rows[1], c)])
    else if IndexOf(rows[2], c) > -1 then Some([if version <= 2 then 3 else 5, 6 + IndexOf(rows[2], c)])
    else None
  }

  /** A character has no z-characters exactly when it is in none of the three alphabets (and is not a space, nor '\0' where that is written as 5). */
  lemma CharZCharsNone(version: int, c: char, nulAsFive: bool)
    ensures CharZChars(version, c, nulAsFive).None? <==>
      (&& c != ' ' && !(nulAsFive && c == '\0')
       && c !in AlphabetRows(version)[0] && c !in AlphabetRows(version)[1] && c !in AlphabetRows(version)[2])
  {
    var rows := AlphabetRows(version);
    IndexOfIn(rows[0], c);
    IndexOfIn(rows[1], c);
    IndexOfIn(rows[2], c);
  }

  /** The z-characters of encodeText.js: the first character no alphabet has is thrown. */
  function ZCharsOfText(version: int, text: string): (r: Result<seq<ZChar>>)
    ensures r.Ok? ==> |text| <= |r.value| <= 2 * |text|
  {
    if text == [] then Ok([])
    else
      match CharZChars(version, text[0], false)
      case None => Err(CannotEncode(text[0]))
      case Some(zs) =>
        match ZCharsOfText(version, text[1..])
        case Err(f) => Err(f)
        case Ok(rest) => Ok(zs + rest)
  }

  /** The z-characters of run.js's encodeText: characters no alphabet has are skipped. */
  function ZCharsSkipping(version: int, text: string): (r: seq<ZChar>)
    ensures |r| <= 2 * |text|
    ensures (forall k | 0 <= k < |text| :: CharZChars(version, text[k], true).Some?) ==> |text| <= |r|
  {
    if text == [] then []
    else
      match CharZChars(version, text[0], true)
      case None => ZCharsSkipping(version, text[1..])
      case Some(zs) => zs + ZCharsSkipping(version, text[1..])
  }

  /** The word packed from the z-characters at `i`, `i + 1`, `i + 2`, padded with 5s, bit 15 on the last. */
  function PackedWord(zs: seq<ZChar>, i: nat): (r: int)
    requires i < |zs|
    ensures 0 <= r < 0x10000
    ensures r >= 0x8000 <==> i + 3 >= |zs|
  {
    zs[i] as int * 1024
      + (if i + 1 < |zs| then zs[i + 1] as int else 5) * 32
      + (if i + 2 < |zs| then zs[i + 2] as int else 5)
      + (if i + 3 < |zs| then 0 else 0x8000)
  }

  /** `[(value >> 8) & 0xFF, value & 0xFF]`. */
  function WordToBytes(v: int): (r: seq<byte>)
  {
    [(v / 256) % 256, v % 256]
  }

  /** The bytes the packing loop appends from index `i` on. */
  function PackFrom(zs: seq<ZChar>, i: nat): seq<byte>
    decreases |zs| - i
  {
    if i >= |zs| then [] else WordToBytes(PackedWord(zs, i)) + PackFrom(zs, i + 3)
  }

  /** encodeText (encodeText.js:4-38) as a value: the packed bytes, or the character it cannot encode. */
  function Encoded(mem: seq<byte>, text: string): Result<seq<byte>>
  {
    match ZCharsOfText(Version(mem), text)
    case Err(f) => Err(f)
    case Ok(zs) => Ok(PackFrom(zs, 0))
  }

  /** A successful encoding is the packing of the z-characters, two bytes for every three of them, rounded up. */
  lemma EncodedPacks(mem: seq<byte>, text: string)
    requires Encoded(mem, text).Ok?
    ensures ZCharsOfText(Version(mem), text).Ok?
    ensures Encoded(mem, text).value == PackFrom(ZCharsOfText(Version(mem), text).value, 0)
    ensures |Encoded(mem, text).value| == 2 * ((|ZCharsOfText(Version(mem), text).value| + 2) / 3)
  {
    PackFromLength(ZCharsOfText(Version(mem), text).value, 0);
  }

  /** The packing loop emits one word for each started group of three z-characters. */
  lemma {:induction false} PackFromLength(zs: seq<ZChar>, i: nat)
    requires i <= |zs|
    ensures |PackFrom(zs, i)| == 2 * ((|zs| - i + 2) / 3)
    decreases |zs| - i
  {
    if i < |zs| {
      if i + 3 <= |zs| {
        PackFromLength(zs, i + 3);
      }
    }
  }

  /** encodeText of run.js (run.js:220-257) as a value. */
  function EncodedSkipping(mem: seq<byte>, text: string): seq<byte>
  {
    PackFrom(ZCharsSkipping(Version(mem), text), 0)
  }

  /** The packing loop, shared by both versions of encodeText. */
  method Pack(zchars: seq<ZChar>) returns (result: seq<byte>)
    ensures result == PackFrom(zchars, 0)
  {
    result := [];
    var i := 0;
    while i < |zchars|
      invariant result + PackFrom(zchars, i) == PackFrom(zchars, 0)
      decreases |zchars| - i
    {
      var value := PackedWord(zchars, i);
      result := result + [(value / 256) % 256, value % 256];
      i := i + 3;
    }
  }

  /** encodeText (encodeText.js:4-38). */
  method EncodeText(memory: array<byte>, text: string) returns (r: Result<seq<byte>>)
    ensures r == Encoded(memory[..], text)
  {
    var version := Version(memory[..]);
    var zchars: seq<ZChar> := [];
    var k := 0;
    assert text[k..] == text;
    assert ZCharsOfText(version, text).Ok? ==> zchars + ZCharsOfText(version, text).value == ZCharsOfText(version, text).value;
    while k < |text|
      invariant 0 <= k <= |text|
      invariant ZCharsOfText(version, text) == Prepended(zchars, ZCharsOfText(version, text[k..]))
    {
      var more := CharZChars(version, text[k], false);
      if more.None? {
        ZCharsOfTextStep(version, text, k, zchars);
        return Err(CannotEncode(text[k]));
      }
      ZCharsOfTextStep(version, text, k, zchars);
      zchars := zchars + more.value;
      k := k + 1;
    }
    assert ZCharsOfText(version, text[k..]) == Ok([]);
    assert zchars + [] == zchars;
    var bytes := Pack(zchars);
    r := Ok(bytes);
  }

  /** One character of the encoding loop, seen from the rest of the text. */
  lemma ZCharsOfTextStep(version: int, text: string, k: nat, zs: seq<ZChar>)
    requires k < |text|
    ensures CharZChars(version, text[k], false).None? ==>
      Prepended(zs, ZCharsOfText(version, text[k..])) == Err(CannotEncode(text[k]))
    ensures CharZChars(version, text[k], false).Some? ==>
      Prepended(zs, ZCharsOfText(version, text[k..]))
        == Prepended(zs + CharZChars(version, text[k], false).value, ZCharsOfText(version, text[k + 1..]))
  {
    assert text[k..][0] == text[k];
    assert text[k..][1..] == text[k + 1..];
    var more := CharZChars(version, text[k], false);
    var rest := ZCharsOfText(version, text[k + 1..]);
    if more.Some? && rest.Ok? {
      assert zs + (more.value + rest.value) == (zs + more.value) + rest.value;
    }
  }

  /** `zs` in front of a successful result; a fault unchanged. */
  function Prepended(zs: seq<ZChar>, r: Result<seq<ZChar>>): Result<seq<ZChar>>
  {
    if r.Ok? then Ok(zs + r.value) else r
  }

  /** encodeText of run.js (run.js:220-257). */
  method EncodeTextSkipping(memory: array<byte>, text: string) returns (r: seq<byte>)
    ensures r == EncodedSkipping(memory[..], text)
  {
    var version := Version(memory[..]);
    var zchars: seq<ZChar> := [];
    var k := 0;
    assert text[k..] == text;
    while k < |text|
      invariant 0 <= k <= |text|
      invariant ZCharsSkipping(version, text) == zchars + ZCharsSkipping(version, text[k..])
    {
      var more := CharZChars(version, text[k], true);
      assert text[k..][1..] == text[k + 1..];
      if more.Some? {
        zchars := zchars + more.value;
      }
      k := k + 1;
    }
    assert text[k..] == [];
    assert zchars + ZCharsSkipping(version, text[k..]) == zchars;
    r := Pack(zchars);
  }
}
