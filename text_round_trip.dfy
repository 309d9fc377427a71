// What the text encoder and decoder promise each other: a string that
// encodeText accepts, stored in memory, decodes back to itself, ending just
// after the bytes the encoder produced. The default alphabets must be in
// force (a version 5+ story with its own alphabet table decodes with that
// table, while the encoder always uses the defaults).

module TextRoundTrip {
  import opened Base
  import opened Rw16
  import opened Header
  import opened Alphabets
  import opened TextDecoder
  import opened TextEncoder

  /** The decoder state at the start of a string and after each whole character. */
  predicate Neutral(d: Decoder)
  {
    d.alphabet == 0 && d.shift.None? && d.abbr.None? && d.tenbit.NoEscape?
  }

  /** The decoder looks characters up in the same rows the encoder uses. */
  predicate DefaultAlphabets(mem: seq<byte>)
  {
    Version(mem) <= 4 || AlphabetTableAddress(mem) == 0
  }

  /** `n` padding z-characters. */
  function Fives(n: nat): (r: seq<ZChar>)
    ensures |r| == n
  {
    if n == 0 then [] else [5] + Fives(n - 1)
  }

  /** The z-characters with the padding the last packed word adds. */
  function Padded(zs: seq<ZChar>): seq<ZChar>
  {
    zs + Fives((3 - |zs| % 3) % 3)
  }

  /** The outcome of the word loop once the z-characters have run. */
  function Finished(r: Result<Decoder>, next: int): Result<(string, int)>
  {
    match r
    case Err(f) => Err(f)
    case Ok(d) => Ok((d.text, next))
  }

  /** Running two z-character sequences one after the other is running their concatenation. */
  lemma {:induction false} RunZAppend(mem: seq<byte>, isAbbreviation: bool, d: Decoder, xs: seq<ZChar>, ys: seq<ZChar>)
    requires Sane(d) && (isAbbreviation ==> d.abbr.None?)
    ensures RunZ(mem, isAbbreviation, d, xs).Err? ==> RunZ(mem, isAbbreviation, d, xs + ys) == RunZ(mem, isAbbreviation, d, xs)
    ensures RunZ(mem, isAbbreviation, d, xs).Ok? ==>
      RunZ(mem, isAbbreviation, d, xs + ys) == RunZ(mem, isAbbreviation, RunZ(mem, isAbbreviation, d, xs).value, ys)
    decreases |xs|
  {
    if xs == [] {
      assert xs + ys == ys;
    } else {
      assert (xs + ys)[0] == xs[0];
      assert (xs + ys)[1..] == xs[1..] + ys;
      match StepZ(mem, isAbbreviation, d, xs[0])
      case Err(_) =>
      case Ok(d1) => RunZAppend(mem, isAbbreviation, d1, xs[1..], ys);
    }
  }

  /** A shift z-character read in a neutral state: the next character comes from row `row`. */
  lemma StepShift(mem: seq<byte>, d: Decoder, row: int)
    requires Neutral(d) && (row == 1 || row == 2)
    ensures StepZ(mem, false, d, if Version(mem) <= 2 then row + 1 else row + 3) == Ok(d.(shift := Some(row)))
  {
  }

  /** An alphabet z-character (other than the ten-bit escape) appends its character and ends any shift. */
  lemma StepLetter(mem: seq<byte>, d: Decoder, c: ZChar)
    requires Sane(d) && d.abbr.None? && d.tenbit.NoEscape? && c >= 6
    requires !(c == 6 && (if d.shift.Some? then d.shift.value else d.alphabet) == 2)
    ensures StepZ(mem, false, d, c) ==
      Ok(d.(shift := None, text := d.text + [AlphabetChar(mem, if d.shift.Some? then d.shift.value else d.alphabet, c)]))
  {
  }

  /** Two z-characters in a row. */
  lemma RunTwo(mem: seq<byte>, d: Decoder, x: ZChar, y: ZChar)
    requires Sane(d)
    ensures StepZ(mem, false, d, x).Ok? ==>
      RunZ(mem, false, d, [x, y]) == StepZ(mem, false, StepZ(mem, false, d, x).value, y)
  {
    assert [x, y][0] == x && [x, y][1..] == [y];
    var r1 := StepZ(mem, false, d, x);
    if r1.Ok? {
      var d1 := r1.value;
      assert RunZ(mem, false, d, [x, y]) == RunZ(mem, false, d1, [y]);
      assert [y][0] == y && [y][1..] == [];
      var r2 := StepZ(mem, false, d1, y);
      if r2.Ok? {
        assert RunZ(mem, false, r2.value, []) == Ok(r2.value);
      }
    }
  }

  /** One z-character on its own. */
  lemma RunOne(mem: seq<byte>, d: Decoder, x: ZChar)
    requires Sane(d)
    ensures RunZ(mem, false, d, [x]) == StepZ(mem, false, d, x)
  {
    assert [x][0] == x && [x][1..] == [];
    var r1 := StepZ(mem, false, d, x);
    if r1.Ok? {
      assert RunZ(mem, false, r1.value, []) == Ok(r1.value);
    }
  }

  /** A character of the current row: its one z-character appends it. */
  lemma UnshiftedDecodes(mem: seq<byte>, d: Decoder, c: char, z: ZChar)
    requires Neutral(d) && DefaultAlphabets(mem)
    requires z == 0 ==> c == ' '
    requires z != 0 ==> z >= 6 && AlphabetRows(Version(mem))[0][z - 6] == c
    ensures RunZ(mem, false, d, [z]) == Ok(d.(text := d.text + [c]))
  {
    RunOne(mem, d, z);
    if z != 0 {
      StepLetter(mem, d, z);
    }
  }

  /** A character of row 1 or 2: the shift, then its index, append it. */
  lemma ShiftedDecodes(mem: seq<byte>, d: Decoder, c: char, row: int, shift: ZChar, z: ZChar)
    requires Neutral(d) && DefaultAlphabets(mem) && (row == 1 || row == 2)
    requires shift == if Version(mem) <= 2 then row + 1 else row + 3
    requires z >= 6 && (row == 2 ==> z > 6) && AlphabetRows(Version(mem))[row][z - 6] == c
    ensures RunZ(mem, false, d, [shift, z]) == Ok(d.(text := d.text + [c]))
  {
    StepShift(mem, d, row);
    RunTwo(mem, d, shift, z);
    StepLetter(mem, d.(shift := Some(row)), z);
  }

  /** The z-characters of one encodable character decode to that character. */
  lemma CharDecodes(mem: seq<byte>, d: Decoder, c: char)
    requires Neutral(d) && DefaultAlphabets(mem)
    requires CharZChars(Version(mem), c, false).Some?
    ensures RunZ(mem, false, d, CharZChars(Version(mem), c, false).value) == Ok(d.(text := d.text + [c]))
  {
    var rows := AlphabetRows(Version(mem));
    if c == ' ' {
      UnshiftedDecodes(mem, d, c, 0);
    } else if IndexOf(rows[0], c) > -1 {
      UnshiftedDecodes(mem, d, c, 6 + IndexOf(rows[0], c));
    } else {
      ShiftedCharDecodes(mem, d, c);
    }
  }

  /** CharDecodes for a character of row 1 or 2. */
  lemma ShiftedCharDecodes(mem: seq<byte>, d: Decoder, c: char)
    requires Neutral(d) && DefaultAlphabets(mem)
    requires c != ' ' && IndexOf(AlphabetRows(Version(mem))[0], c) == -1
    requires CharZChars(Version(mem), c, false).Some?
    ensures RunZ(mem, false, d, CharZChars(Version(mem), c, false).value) == Ok(d.(text := d.text + [c]))
  {
    var version := Version(mem);
    if IndexOf(AlphabetRows(version)[1], c) > -1 {
      var row, shift, z := Row1ZChars(version, c);
      ShiftedDecodes(mem, d, c, 1, shift, z);
    } else {
      var row, shift, z := Row2ZChars(version, c);
      ShiftedDecodes(mem, d, c, 2, shift, z);
    }
  }

  /** ShiftedCharDecodes: the z-characters of a character of row 1. */
  lemma Row1ZChars(version: int, c: char) returns (row: int, shift: ZChar, z: ZChar)
    requires c != ' ' && IndexOf(AlphabetRows(version)[0], c) == -1 && IndexOf(AlphabetRows(version)[1], c) > -1
    ensures row == 1 && shift == (if version <= 2 then 2 else 4)
    ensures z >= 6 && AlphabetRows(version)[1][z - 6] == c
    ensures CharZChars(version, c, false).Some? && CharZChars(version, c, false).value == [shift, z]
  {
    var rows := AlphabetRows(version);
    row, shift, z := 1, if version <= 2 then 2 else 4, 6 + IndexOf(rows[1], c);
    assert CharZChars(version, c, false) == Some([shift, z]);
  }

  /** ShiftedCharDecodes: the z-characters of a character of row 2. */
  lemma Row2ZChars(version: int, c: char) returns (row: int, shift: ZChar, z: ZChar)
    requires c != ' ' && IndexOf(AlphabetRows(version)[0], c) == -1 && IndexOf(AlphabetRows(version)[1], c) == -1
    requires CharZChars(version, c, false).Some?
    ensures row == 2 && shift == (if version <= 2 then 3 else 5)
    ensures z > 6 && AlphabetRows(version)[2][z - 6] == c
    ensures CharZChars(version, c, false).value == [shift, z]
  {
    var rows := AlphabetRows(version);
    row, shift, z := 2, if version <= 2 then 3 else 5, 6 + IndexOf(rows[2], c);
    assert z > 6 by { assert rows[2][0] == ' '; }
    assert CharZChars(version, c, false) == Some([shift, z]);
  }

  /** An encodable string's z-characters are its first character's followed by the rest's. */
  lemma ZCharsOfTextCons(version: int, s: string)
    requires s != [] && ZCharsOfText(version, s).Ok?
    ensures CharZChars(version, s[0], false).Some? && ZCharsOfText(version, s[1..]).Ok?
    ensures ZCharsOfText(version, s).value == CharZChars(version, s[0], false).value + ZCharsOfText(version, s[1..]).value
  {
  }

  /** The z-characters of an encodable string, run from a neutral state, append exactly that string. */
  lemma {:induction false} TextDecodes(mem: seq<byte>, d: Decoder, s: string)
    requires Neutral(d) && DefaultAlphabets(mem)
    requires ZCharsOfText(Version(mem), s).Ok?
    ensures RunZ(mem, false, d, ZCharsOfText(Version(mem), s).value) == Ok(d.(text := d.text + s))
    decreases |s|
  {
    if s == [] {
      assert d.text + s == d.text;
    } else {
      var c, tail := s[0], s[1..];
      ZCharsOfTextCons(Version(mem), s);
      var d1 := d.(text := d.text + [c]);
      TextDecodes(mem, d1, tail);
      ConsText(d.text, s);
      assert d1.(text := d1.text + tail) == d.(text := d.text + s);
      CharThenRest(mem, d, c, ZCharsOfText(Version(mem), tail).value, d.(text := d.text + s));
    }
  }

  lemma ConsText(t: string, s: string)
    requires s != []
    ensures t + [s[0]] + s[1..] == t + s
  {
    assert s == [s[0]] + s[1..];
  }

  /** An encodable character's z-characters followed by more z-characters. */
  lemma CharThenRest(mem: seq<byte>, d: Decoder, c: char, rest: seq<ZChar>, d2: Decoder)
    requires Neutral(d) && DefaultAlphabets(mem)
    requires CharZChars(Version(mem), c, false).Some?
    requires RunZ(mem, false, d.(text := d.text + [c]), rest) == Ok(d2)
    ensures RunZ(mem, false, d, CharZChars(Version(mem), c, false).value + rest) == Ok(d2)
  {
    RunZAppend(mem, false, d, CharZChars(Version(mem), c, false).value, rest);
    CharDecodes(mem, d, c);
  }

  /** Padding z-characters leave the text alone and never fault. */
  lemma {:induction false} FivesDecodeToNothing(mem: seq<byte>, d: Decoder, n: nat)
    requires Sane(d) && d.abbr.None? && d.tenbit.NoEscape?
    ensures RunZ(mem, false, d, Fives(n)).Ok?
    ensures RunZ(mem, false, d, Fives(n)).value.text == d.text
    decreases n
  {
    if n > 0 {
      assert Fives(n)[0] == 5 && Fives(n)[1..] == Fives(n - 1);
      var d1 := StepZ(mem, false, d, 5).value;
      assert d1.text == d.text && d1.abbr.None? && d1.tenbit.NoEscape?;
      FivesDecodeToNothing(mem, d1, n - 1);
    }
  }

  /** `x == q * 32 + r` with `0 <= r < 32` determines `x / 32` and `x % 32`. */
  lemma DivMod32(x: int, q: int, r: int)
    requires 0 <= r < 32 && x == q * 32 + r
    ensures x / 32 == q && x % 32 == r
  {
  }

  /** `x == q * 1024 + r` with `0 <= r < 1024` determines `x / 1024` and `x % 1024`. */
  lemma DivMod1024(x: int, q: int, r: int)
    requires 0 <= r < 1024 && x == q * 1024 + r
    ensures x / 1024 == q && x % 1024 == r
  {
  }

  /** A packed word splits back into the three z-characters it was packed from. */
  lemma WordFields(z0: ZChar, z1: ZChar, z2: ZChar, f: int)
    requires f == 0 || f == 1
    ensures ZCharsOfWord(z0 * 1024 + z1 * 32 + z2 + f * 0x8000) == [z0, z1, z2]
  {
    var w := z0 as int * 1024 + z1 as int * 32 + z2 as int + f * 0x8000;
    DivMod1024(w, f * 32 + z0, z1 * 32 + z2);
    DivMod32(f * 32 + z0, f, z0);
    DivMod32(w, f * 1024 + z0 * 32 + z1, z2);
    DivMod32(f * 1024 + z0 * 32 + z1, f * 32 + z0, z1);
  }

  /** The bytes of a word read back as that word. */
  lemma ReadWordBytes(mem: seq<byte>, b: int, w: int)
    requires 0 <= w < 0x10000
    requires 0 <= b && b + 2 <= |mem| && mem[b..b + 2] == WordToBytes(w)
    ensures Read16(mem, b) == w
  {
    assert mem[b] == (w / 256) % 256 && mem[b + 1] == w % 256 by {
      assert mem[b] == mem[b..b + 2][0] && mem[b + 1] == mem[b..b + 2][1];
    }
    WordBytes(w);
  }

  /** The z-characters the decoder finds in the word packed at `i`. */
  lemma PackedWordFields(zs: seq<ZChar>, i: nat)
    requires i < |zs|
    ensures ZCharsOfWord(PackedWord(zs, i)) ==
      [zs[i], if i + 1 < |zs| then zs[i + 1] else 5, if i + 2 < |zs| then zs[i + 2] else 5]
  {
    WordFields(zs[i], if i + 1 < |zs| then zs[i + 1] else 5, if i + 2 < |zs| then zs[i + 2] else 5,
               if i + 3 < |zs| then 0 else 1);
  }

  /** The first packed word and the bytes after it. */
  lemma PackFromSplit(zs: seq<ZChar>, i: nat)
    requires i < |zs|
    ensures PackFrom(zs, i) == WordToBytes(PackedWord(zs, i)) + PackFrom(zs, i + 3)
    ensures |PackFrom(zs, i)| == 2 + |PackFrom(zs, i + 3)|
    ensures i + 3 >= |zs| ==> PackFrom(zs, i + 3) == []
  {
  }

  /** The last word's z-characters are the remaining ones and their padding. */
  lemma PaddedLast(zs: seq<ZChar>, i: nat)
    requires i < |zs| <= i + 3
    ensures Padded(zs[i..]) == [zs[i], if i + 1 < |zs| then zs[i + 1] else 5, if i + 2 < |zs| then zs[i + 2] else 5]
  {
    if i + 1 == |zs| {
      assert Fives(2) == [5, 5];
    } else if i + 2 == |zs| {
      assert Fives(1) == [5];
    } else {
      assert Fives(0) == [];
    }
  }

  /** A word that is not the last one: its three z-characters, then the rest. */
  lemma PaddedSplit(zs: seq<ZChar>, i: nat)
    requires i + 3 < |zs|
    ensures Padded(zs[i..]) == [zs[i], zs[i + 1], zs[i + 2]] + Padded(zs[i + 3..])
  {
    assert zs[i..] == [zs[i], zs[i + 1], zs[i + 2]] + zs[i + 3..];
    assert |zs[i + 3..]| % 3 == |zs[i..]| % 3;
  }

  /** The word loop over packed bytes is the z-character loop over the padded z-characters. */
  lemma {:induction false} DecodePacked(mem: seq<byte>, b: int, d: Decoder, zs: seq<ZChar>, i: nat)
    requires i < |zs| && Sane(d)
    requires 0 <= b && b + |PackFrom(zs, i)| <= |mem|
    requires mem[b..b + |PackFrom(zs, i)|] == PackFrom(zs, i)
    ensures DecodeFrom(mem, b, false, d) == Finished(RunZ(mem, false, d, Padded(zs[i..])), b + |PackFrom(zs, i)|)
    decreases |zs| - i, 1
  {
    var word, rest := WordToBytes(PackedWord(zs, i)), PackFrom(zs, i + 3);
    PackFromSplit(zs, i);
    assert |word| == 2 && PackFrom(zs, i) == word + rest;
    SliceSplit(mem, b, word, rest);
    if i + 3 >= |zs| {
      DecodeLastWord(mem, b, d, zs, i);
    } else {
      DecodePackedRest(mem, b, d, zs, i);
    }
  }

  /** The inductive step of DecodePacked: a word before the last, then the words after it. */
  lemma {:induction false} DecodePackedRest(mem: seq<byte>, b: int, d: Decoder, zs: seq<ZChar>, i: nat)
    requires i + 3 < |zs| && Sane(d)
    requires 0 <= b && b + 2 + |PackFrom(zs, i + 3)| <= |mem|
    requires mem[b..b + 2] == WordToBytes(PackedWord(zs, i))
    requires mem[b + 2..b + 2 + |PackFrom(zs, i + 3)|] == PackFrom(zs, i + 3)
    ensures DecodeFrom(mem, b, false, d) == Finished(RunZ(mem, false, d, Padded(zs[i..])), b + 2 + |PackFrom(zs, i + 3)|)
    decreases |zs| - i, 0
  {
    var r1 := RunZ(mem, false, d, [zs[i], zs[i + 1], zs[i + 2]]);
    if r1.Ok? {
      DecodePacked(mem, b + 2, r1.value, zs, i + 3);
    }
    DecodeMiddleWord(mem, b, d, zs, i);
  }

  /** Bytes found at `b` that are `xs + ys`: `xs` at `b`, then `ys`. */
  lemma SliceSplit(mem: seq<byte>, b: int, xs: seq<byte>, ys: seq<byte>)
    requires 0 <= b && b + |xs + ys| <= |mem| && mem[b..b + |xs + ys|] == xs + ys
    ensures mem[b..b + |xs|] == xs
    ensures mem[b + |xs|..b + |xs| + |ys|] == ys
  {
    assert mem[b..b + |xs|] == mem[b..b + |xs + ys|][..|xs|];
    assert mem[b + |xs|..b + |xs| + |ys|] == mem[b..b + |xs + ys|][|xs|..];
  }

  /** The last word: its z-characters with their padding, and the decoder stops after it. */
  lemma DecodeLastWord(mem: seq<byte>, b: int, d: Decoder, zs: seq<ZChar>, i: nat)
    requires i < |zs| <= i + 3 && Sane(d)
    requires 0 <= b && b + 2 <= |mem| && mem[b..b + 2] == WordToBytes(PackedWord(zs, i))
    ensures DecodeFrom(mem, b, false, d) == Finished(RunZ(mem, false, d, Padded(zs[i..])), b + 2)
  {
    ReadWordBytes(mem, b, PackedWord(zs, i));
    PackedWordFields(zs, i);
    PaddedLast(zs, i);
  }

  /** A word before the last: its three z-characters, then the words after it. */
  lemma DecodeMiddleWord(mem: seq<byte>, b: int, d: Decoder, zs: seq<ZChar>, i: nat)
    requires i + 3 < |zs| && Sane(d)
    requires 0 <= b && b + 2 <= |mem| && mem[b..b + 2] == WordToBytes(PackedWord(zs, i))
    requires RunZ(mem, false, d, [zs[i], zs[i + 1], zs[i + 2]]).Ok? ==>
      DecodeFrom(mem, b + 2, false, RunZ(mem, false, d, [zs[i], zs[i + 1], zs[i + 2]]).value)
        == Finished(RunZ(mem, false, RunZ(mem, false, d, [zs[i], zs[i + 1], zs[i + 2]]).value, Padded(zs[i + 3..])),
                    b + 2 + |PackFrom(zs, i + 3)|)
    ensures DecodeFrom(mem, b, false, d) == Finished(RunZ(mem, false, d, Padded(zs[i..])), b + 2 + |PackFrom(zs, i + 3)|)
  {
    var chunk := [zs[i], zs[i + 1], zs[i + 2]];
    ReadWordBytes(mem, b, PackedWord(zs, i));
    PackedWordFields(zs, i);
    PaddedSplit(zs, i);
    RunZAppend(mem, false, d, chunk, Padded(zs[i + 3..]));
  }

  /** The padded z-characters of an encodable string decode, from the start, to exactly that string. */
  lemma PaddedDecodes(mem: seq<byte>, d: Decoder, s: string, zs: seq<ZChar>)
    requires Neutral(d) && DefaultAlphabets(mem) && ZCharsOfText(Version(mem), s) == Ok(zs)
    ensures RunZ(mem, false, d, Padded(zs)).Ok?
    ensures RunZ(mem, false, d, Padded(zs)).value.text == d.text + s
  {
    TextDecodes(mem, d, s);
    PaddingDecodesToNothing(mem, d, zs, d.(text := d.text + s));
  }

  /** Padding z-characters that decode to a neutral decoder adds no text. */
  lemma PaddingDecodesToNothing(mem: seq<byte>, d: Decoder, zs: seq<ZChar>, d1: Decoder)
    requires Sane(d) && RunZ(mem, false, d, zs) == Ok(d1) && Neutral(d1)
    ensures RunZ(mem, false, d, Padded(zs)).Ok?
    ensures RunZ(mem, false, d, Padded(zs)).value.text == d1.text
  {
    var n := (3 - |zs| % 3) % 3;
    var padded := Padded(zs);
    assert padded == zs + Fives(n);
    RunZAppend(mem, false, d, zs, Fives(n));
    FivesDecodeToNothing(mem, d1, n);
  }

  /**
   * Encode then decode: a nonempty string encodeText accepts, stored at `a`,
   * decodes back to itself and the decoder stops right after it.
   */
  lemma EncodeThenDecode(mem: seq<byte>, a: int, s: string)
    requires s != [] && DefaultAlphabets(mem)
    requires Encoded(mem, s).Ok?
    requires 0 <= a && a + |Encoded(mem, s).value| <= |mem|
    requires mem[a..a + |Encoded(mem, s).value|] == Encoded(mem, s).value
    ensures DecodedText(mem, a, false) == Ok((s, a + |Encoded(mem, s).value|))
  {
    EncodedPacks(mem, s);
    var zs := ZCharsOfText(Version(mem), s).value;
    var enc := Encoded(mem, s).value;
    assert enc == PackFrom(zs, 0);
    assert |zs| >= |s| > 0;
    assert ZCharsOfText(Version(mem), s) == Ok(zs);
    assert mem[a..a + |PackFrom(zs, 0)|] == PackFrom(zs, 0);
    PackedTextDecodes(mem, a, Fresh, s, zs);
    assert Fresh.text + s == s;
  }

  /** The packed z-characters of `s`, stored at `a`, decode from `a` to `s`. */
  lemma PackedTextDecodes(mem: seq<byte>, a: int, d: Decoder, s: string, zs: seq<ZChar>)
    requires Neutral(d) && DefaultAlphabets(mem) && ZCharsOfText(Version(mem), s) == Ok(zs) && zs != []
    requires 0 <= a && a + |PackFrom(zs, 0)| <= |mem|
    requires mem[a..a + |PackFrom(zs, 0)|] == PackFrom(zs, 0)
    ensures DecodeFrom(mem, a, false, d) == Ok((d.text + s, a + |PackFrom(zs, 0)|))
  {
    PaddedDecodes(mem, d, s, zs);
    PackedDecodesTo(mem, a, d, zs, d.text + s);
  }

  /** Packed z-characters whose padded run gives `text` decode, as a string, to `text`. */
  lemma PackedDecodesTo(mem: seq<byte>, a: int, d: Decoder, zs: seq<ZChar>, text: string)
    requires zs != [] && Sane(d)
    requires 0 <= a && a + |PackFrom(zs, 0)| <= |mem|
    requires mem[a..a + |PackFrom(zs, 0)|] == PackFrom(zs, 0)
    requires RunZ(mem, false, d, Padded(zs)).Ok? && RunZ(mem, false, d, Padded(zs)).value.text == text
    ensures DecodeFrom(mem, a, false, d) == Ok((text, a + |PackFrom(zs, 0)|))
  {
    DecodePackedWhole(mem, a, d, zs);
  }

  /** DecodePacked from the first z-character. */
  lemma DecodePackedWhole(mem: seq<byte>, b: int, d: Decoder, zs: seq<ZChar>)
    requires zs != [] && Sane(d)
    requires 0 <= b && b + |PackFrom(zs, 0)| <= |mem|
    requires mem[b..b + |PackFrom(zs, 0)|] == PackFrom(zs, 0)
    ensures DecodeFrom(mem, b, false, d) == Finished(RunZ(mem, false, d, Padded(zs)), b + |PackFrom(zs, 0)|)
  {
    assert zs[0..] == zs;
    DecodePacked(mem, b, d, zs, 0);
  }

  /** encodeText throws exactly when some character is in no alphabet, and it names the first one. */
  lemma EncodeFailsOnFirstUnknown(version: int, text: string)
    ensures ZCharsOfText(version, text).Ok? <==> forall k | 0 <= k < |text| :: CharZChars(version, text[k], false).Some?
    ensures ZCharsOfText(version, text).Err? ==>
      exists k | 0 <= k < |text| ::
        && ZCharsOfText(version, text).fault == CannotEncode(text[k])
        && CharZChars(version, text[k], false).None?
        && forall j | 0 <= j < k :: CharZChars(version, text[j], false).Some?
  {
    EncodeOkIffEncodable(version, text);
    if ZCharsOfText(version, text).Err? {
      var k := FirstUnencodable(version, text);
    }
  }

  /** encodeText succeeds exactly when every character has z-characters. */
  lemma {:induction false} EncodeOkIffEncodable(version: int, text: string)
    ensures ZCharsOfText(version, text).Ok? <==> forall k | 0 <= k < |text| :: CharZChars(version, text[k], false).Some?
    decreases |text|
  {
    if text != [] {
      EncodeOkIffEncodable(version, text[1..]);
      assert forall k | 1 <= k < |text| :: text[k] == text[1..][k - 1];
    }
  }

  /** The character a failed encodeText names, and that every character before it is encodable. */
  lemma {:induction false} FirstUnencodable(version: int, text: string) returns (k: int)
    requires ZCharsOfText(version, text).Err?
    ensures 0 <= k < |text| && ZCharsOfText(version, text).fault == CannotEncode(text[k])
    ensures CharZChars(version, text[k], false).None?
    ensures forall j | 0 <= j < k :: CharZChars(version, text[j], false).Some?
    decreases |text|
  {
    if CharZChars(version, text[0], false).None? {
      k := 0;
    } else {
      var k1 := FirstUnencodable(version, text[1..]);
      k := k1 + 1;
      assert text[k] == text[1..][k1];
      forall j | 0 <= j < k
        ensures CharZChars(version, text[j], false).Some?
      {
        if j > 0 {
          assert text[j] == text[1..][j - 1];
        }
      }
    }
  }

  /** Where every character is encodable and none is '\0', the two encoders agree. */
  lemma {:induction false} SkippingAgrees(version: int, text: string)
    requires forall k | 0 <= k < |text| :: text[k] != '\0' && CharZChars(version, text[k], false).Some?
    ensures ZCharsOfText(version, text) == Ok(ZCharsSkipping(version, text))
    decreases |text|
  {
    if text != [] {
      assert forall k | 0 <= k < |text[1..]| :: text[1..][k] == text[k + 1];
      SkippingAgrees(version, text[1..]);
    }
  }
}
