// parseText of run.js (run.js:535-592): the input line is stored in the
// text buffer, split into words at the dictionary's separators, each word
// looked up in the dictionary, and one block per word written into the parse
// buffer (section 15 of the Z-Machine Standards Document 1.1, `read`).

module Parser {
  import opened Base
  import opened Rw16
  import opened Header
  import opened Dictionary
  import opened TextEncoder
  import opened Tokenizer
  import opened MachineState

  /**
   * `state.memory[textBufferAddress] - (version <= 4 ? 1 : 0)`: the room in
   * the buffer, less the terminating zero up to version 4. None when the
   * byte is outside memory, where the source computes NaN.
   */
  function MaxInputLength(mem: seq<byte>, textBuffer: int): (r: Option<int>)
    ensures r.Some? <==> 0 <= textBuffer < |mem|
    ensures r.Some? ==> r.value == mem[textBuffer] as int - (if Version(mem) <= 4 then 1 else 0)
  {
    if 0 <= textBuffer < |mem| then Some(mem[textBuffer] as int - (if Version(mem) <= 4 then 1 else 0)) else None
  }

  /**
   * `text.slice(0, maxInputLength)`: the part of the input the buffer takes.
   * A maximum of -1 (a buffer size byte of 0 up to version 4) drops the last
   * character, as a negative end does in JavaScript; NaN keeps nothing.
   */
  function StoredText(mem: seq<byte>, textBuffer: int, text: string): (r: string)
    ensures |r| <= |text| && r == text[..|r|]
    ensures MaxInputLength(mem, textBuffer).None? ==> r == ""
    ensures MaxInputLength(mem, textBuffer).Some? && MaxInputLength(mem, textBuffer).value >= 0 ==>
      |r| == if |text| <= MaxInputLength(mem, textBuffer).value then |text| else MaxInputLength(mem, textBuffer).value
  {
    var max := MaxInputLength(mem, textBuffer);
    if max.Some? then JsSlice(text, 0, max.value) else ""
  }

  /**
   * The character loop: `memory[address++] = text.charCodeAt(i)`, each code
   * kept modulo 256 by the byte array.
   */
  function CharsWritten(mem: seq<byte>, address: int, t: string): (r: seq<byte>)
    ensures |r| == |mem|
    ensures forall i | 0 <= i < |mem| :: r[i] == if address <= i < address + |t| then ToByte(t[i - address] as int) else mem[i]
  {
    if |t| == 0 then mem
    else Poked(CharsWritten(mem, address, t[..|t| - 1]), address + |t| - 1, t[|t| - 1] as int)
  }

  /** Where the characters of the text buffer start: after the size byte, and the length byte from version 5 on. */
  function TextStart(version: int, textBuffer: int): int
  {
    if version >= 5 then textBuffer + 2 else textBuffer + 1
  }

  /**
   * The text buffer step of parseText: the memory afterwards and the text
   * stored. From version 5 on the length goes before the characters, up to
   * version 4 a zero after them; every version test reads byte 0 afresh.
   */
  function TextBufferFilled(mem: seq<byte>, textBuffer: int, text: string): (seq<byte>, string)
  {
    var t := StoredText(mem, textBuffer, text);
    var m1 := if Version(mem) >= 5 then Poked(mem, textBuffer + 1, |t|) else mem;
    var start := TextStart(Version(mem), textBuffer);
    var m2 := CharsWritten(m1, start, t);
    var m3 := if Version(m2) <= 4 then Poked(m2, start + |t|, 0) else m2;
    (m3, t)
  }

  /** The text buffer step writes nothing below the byte after the size byte, so byte 0 keeps the version. */
  lemma TextBufferBelow(mem: seq<byte>, textBuffer: int, text: string, i: int)
    requires 0 <= i <= textBuffer < |mem|
    ensures |TextBufferFilled(mem, textBuffer, text).0| == |mem|
    ensures TextBufferFilled(mem, textBuffer, text).0[i] == mem[i]
  {
    var t := StoredText(mem, textBuffer, text);
    var m1 := if Version(mem) >= 5 then Poked(mem, textBuffer + 1, |t|) else mem;
    var start := TextStart(Version(mem), textBuffer);
    var m2 := CharsWritten(m1, start, t);
    assert m1[i] == mem[i];
    assert m2[i] == m1[i];
  }

  /**
   * Byte `i` of memory after the text buffer step, up to version 4: the
   * characters from the byte after the size byte on, then a zero; nothing
   * else changes.
   */
  lemma TextBufferEarly(mem: seq<byte>, textBuffer: int, text: string, i: int)
    requires 0 <= textBuffer && 0 <= i < |mem| && Version(mem) <= 4
    ensures var (m, t) := TextBufferFilled(mem, textBuffer, text);
      && |m| == |mem|
      && m[i] == if textBuffer + 1 <= i < textBuffer + 1 + |t| then ToByte(t[i - textBuffer - 1] as int)
        else if i == textBuffer + 1 + |t| then 0 else mem[i]
  {
    var t := StoredText(mem, textBuffer, text);
    var start := textBuffer + 1;
    var m2 := CharsWritten(mem, start, t);
    if |mem| > 0 {
      assert m2[0] == mem[0];
    }
    assert Version(m2) == Version(mem);
    assert TextBufferFilled(mem, textBuffer, text) == (Poked(m2, start + |t|, 0), t);
  }

  /**
   * Byte `i` of memory after the text buffer step, from version 5 on: the
   * length after the size byte, then the characters; nothing else changes.
   */
  lemma TextBufferLate(mem: seq<byte>, textBuffer: int, text: string, i: int)
    requires 0 <= textBuffer && 0 <= i < |mem| && Version(mem) >= 5
    ensures var (m, t) := TextBufferFilled(mem, textBuffer, text);
      && |m| == |mem|
      && m[i] == if i == textBuffer + 1 then ToByte(|t|)
        else if textBuffer + 2 <= i < textBuffer + 2 + |t| then ToByte(t[i - textBuffer - 2] as int) else mem[i]
  {
    var t := StoredText(mem, textBuffer, text);
    var m1 := Poked(mem, textBuffer + 1, |t|);
    var m2 := CharsWritten(m1, textBuffer + 2, t);
    assert m1[0] == mem[0] && m2[0] == m1[0];
    assert Version(m2) == Version(mem);
    assert TextBufferFilled(mem, textBuffer, text) == (m2, t);
  }

  /** A word of the parse: its record and the dictionary entry found for it, if any. */
  datatype ParsedWord = ParsedWord(token: Token, entry: Option<Entry>)

  /**
   * The `words.forEach(...)` lookup: each word's text encoded, and the first
   * entry whose encoded word is a prefix of the encoding.
   */
  function LookedUp(mem: seq<byte>, entries: seq<Entry>, tokens: seq<Token>): (r: seq<ParsedWord>)
    ensures |r| == |tokens|
  {
    if |tokens| == 0 then []
    else LookedUp(mem, entries, tokens[..|tokens| - 1]) + [Looked(mem, entries, tokens[|tokens| - 1])]
  }

  /** One word with the entry found for it. */
  function Looked(mem: seq<byte>, entries: seq<Entry>, token: Token): ParsedWord
  {
    ParsedWord(token, LookupEntry(entries, EncodedSkipping(mem, token.text)))
  }

  /** One more word looked up after the first `k`. */
  lemma LookedUpStep(mem: seq<byte>, entries: seq<Entry>, tokens: seq<Token>, k: int)
    requires 0 <= k < |tokens|
    ensures LookedUp(mem, entries, tokens[..k + 1]) == LookedUp(mem, entries, tokens[..k]) + [Looked(mem, entries, tokens[k])]
  {
    assert tokens[..k + 1][..k] == tokens[..k];
  }

  /** Word `k` of the lookup is token `k` with the first entry whose encoded word prefixes the token's encoding. */
  lemma {:induction false} LookedUpWord(mem: seq<byte>, entries: seq<Entry>, tokens: seq<Token>, k: int)
    requires 0 <= k < |tokens|
    ensures LookedUp(mem, entries, tokens)[k].token == tokens[k]
    ensures LookedUp(mem, entries, tokens)[k].entry == LookupEntry(entries, EncodedSkipping(mem, tokens[k].text))
    decreases |tokens|
  {
    if k < |tokens| - 1 {
      LookedUpWord(mem, entries, tokens[..|tokens| - 1], k);
    }
  }

  /** The first word of a parse block: the entry's address, or 0 for a word not in the dictionary. */
  function BlockAddress(w: ParsedWord): int
  {
    if w.entry.Some? then w.entry.value.address % 0x10000 else 0
  }

  /** One 4-byte block of the parse buffer at `address`: the entry address, the length and the position. */
  function BlockWritten(mem: seq<byte>, address: int, w: ParsedWord): (r: seq<byte>)
    ensures |r| == |mem|
    ensures forall i | 0 <= i < |mem| && !(address <= i < address + 4) :: r[i] == mem[i]
  {
    var m1 := if w.entry.Some? then Written16(mem, address, w.entry.value.address)
      else Poked(Poked(mem, address, 0), address + 1, 0);
    Poked(Poked(m1, address + 2, w.token.length), address + 3, w.token.position)
  }

  /** A block reads back as its word: the address word, then the length and position bytes. */
  lemma BlockReadBack(mem: seq<byte>, address: int, w: ParsedWord)
    requires 0 <= address && address + 4 <= |mem|
    ensures var r := BlockWritten(mem, address, w);
      && Read16(r, address) == BlockAddress(w)
      && r[address + 2] == ToByte(w.token.length)
      && r[address + 3] == ToByte(w.token.position)
  {
    var m1 := if w.entry.Some? then Written16(mem, address, w.entry.value.address)
      else Poked(Poked(mem, address, 0), address + 1, 0);
    if w.entry.Some? {
      Read16OfWritten16(mem, address, w.entry.value.address);
    }
    assert Read16(m1, address) == BlockAddress(w);
    var r := BlockWritten(mem, address, w);
    assert r[address] == m1[address] && r[address + 1] == m1[address + 1];
  }

  /** The `words.forEach(...)` writing loop: block `k` at `address + 4 * k`. */
  function BlocksWritten(mem: seq<byte>, address: int, words: seq<ParsedWord>): (r: seq<byte>)
    ensures |r| == |mem|
  {
    if |words| == 0 then mem
    else BlockWritten(BlocksWritten(mem, address, words[..|words| - 1]), address + 4 * (|words| - 1), words[|words| - 1])
  }

  /** The blocks change no byte outside them. */
  lemma {:induction false} BlocksFrame(mem: seq<byte>, address: int, words: seq<ParsedWord>, i: int)
    requires 0 <= i < |mem| && !(address <= i < address + 4 * |words|)
    ensures BlocksWritten(mem, address, words)[i] == mem[i]
    decreases |words|
  {
    if |words| > 0 {
      BlocksFrame(mem, address, words[..|words| - 1], i);
    }
  }

  /** Every block of the parse buffer reads back as its word; the later blocks do not touch it. */
  lemma {:induction false} BlocksReadBack(mem: seq<byte>, address: int, words: seq<ParsedWord>, k: int)
    requires 0 <= k < |words| && 0 <= address && address + 4 * |words| <= |mem|
    ensures var r := BlocksWritten(mem, address, words); var b := address + 4 * k;
      && Read16(r, b) == BlockAddress(words[k])
      && r[b + 2] == ToByte(words[k].token.length)
      && r[b + 3] == ToByte(words[k].token.position)
    decreases |words|
  {
    var n := |words| - 1;
    var before := BlocksWritten(mem, address, words[..n]);
    var b := address + 4 * k;
    if k == n {
      BlockReadBack(before, b, words[k]);
    } else {
      BlocksReadBack(mem, address, words[..n], k);
      var r := BlockWritten(before, address + 4 * n, words[n]);
      assert r[b] == before[b] && r[b + 1] == before[b + 1];
      assert r[b + 2] == before[b + 2] && r[b + 3] == before[b + 3];
    }
  }

  /**
   * `words.slice(0, maxParsedWords)`: as many words as the parse buffer's
   * first byte allows, or all of them when that byte is outside memory
   * (`slice(0, undefined)`).
   */
  function ShownWords(mem: seq<byte>, parseBuffer: int, words: seq<ParsedWord>): (r: seq<ParsedWord>)
    ensures |r| <= |words| && r == words[..|r|]
    ensures |r| == if 0 <= parseBuffer < |mem| && mem[parseBuffer] < |words| then mem[parseBuffer] else |words|
  {
    if 0 <= parseBuffer < |mem| then JsSlice(words, 0, mem[parseBuffer]) else words
  }

  /** The parse buffer step: the word count after the size byte, then one block per word. */
  function ParseBufferWritten(mem: seq<byte>, parseBuffer: int, words: seq<ParsedWord>): seq<byte>
  {
    var shown := ShownWords(mem, parseBuffer, words);
    BlocksWritten(Poked(mem, parseBuffer + 1, |shown|), parseBuffer + 2, shown)
  }

  /**
   * The parse buffer afterwards: the byte after the size byte holds the
   * number of words written, and block `k` describes word `k`.
   */
  lemma ParseBufferLayout(mem: seq<byte>, parseBuffer: int, words: seq<ParsedWord>, k: int)
    requires 0 <= parseBuffer
    requires parseBuffer + 2 + 4 * |ShownWords(mem, parseBuffer, words)| <= |mem|
    requires 0 <= k < |ShownWords(mem, parseBuffer, words)|
    ensures var r := ParseBufferWritten(mem, parseBuffer, words);
      && |r| == |mem|
      && r[parseBuffer + 1] == ToByte(|ShownWords(mem, parseBuffer, words)|)
      && Read16(r, parseBuffer + 2 + 4 * k) == BlockAddress(words[k])
      && r[parseBuffer + 4 + 4 * k] == ToByte(words[k].token.length)
      && r[parseBuffer + 5 + 4 * k] == ToByte(words[k].token.position)
  {
    var shown := ShownWords(mem, parseBuffer, words);
    var m1 := Poked(mem, parseBuffer + 1, |shown|);
    BlocksReadBack(m1, parseBuffer + 2, shown, k);
    BlocksFrame(m1, parseBuffer + 2, shown, parseBuffer + 1);
    assert shown[k] == words[k];
  }

  /** The parse buffer step changes no byte outside the count and the blocks. */
  lemma ParseBufferFrame(mem: seq<byte>, parseBuffer: int, words: seq<ParsedWord>, i: int)
    requires 0 <= i < |mem| && !(parseBuffer + 1 <= i < parseBuffer + 2 + 4 * |ShownWords(mem, parseBuffer, words)|)
    ensures |ParseBufferWritten(mem, parseBuffer, words)| == |mem|
    ensures ParseBufferWritten(mem, parseBuffer, words)[i] == mem[i]
  {
    var shown := ShownWords(mem, parseBuffer, words);
    var m1 := Poked(mem, parseBuffer + 1, |shown|);
    assert m1[i] == mem[i];
    BlocksFrame(m1, parseBuffer + 2, shown, i);
  }

  /** Whether parseText tokenises: always up to version 4, and from version 5 on when there is a parse buffer. */
  predicate Tokenises(mem: seq<byte>, parseBuffer: int)
  {
    Version(mem) <= 4 || parseBuffer != 0
  }

  /** The position the first character of the text buffer is counted at. */
  function FirstPosition(version: int): int
  {
    if version <= 4 then 1 else 2
  }

  /** The words of the stored text with their dictionary entries, as parseText builds them. */
  function ParsedWords(mem: seq<byte>, t: string, items: seq<ClassItem>): seq<ParsedWord>
  {
    var dictionary := DecodedDictionary(mem);
    LookedUp(mem, dictionary.entries, Words(t, items, dictionary.textLength, FirstPosition(Version(mem))))
  }

  /**
   * parseText of run.js as a value: the memory afterwards, or the fault of
   * a separator class that does not compile.
   */
  function ParsedText(mem: seq<byte>, text: string, textBuffer: int, parseBuffer: int): Result<seq<byte>>
  {
    var (m3, t) := TextBufferFilled(mem, textBuffer, text);
    if Tokenises(m3, parseBuffer) then
      var items :- SeparatorClass(DecodedDictionary(m3).wordSeparators);
      Ok(ParseBufferWritten(m3, parseBuffer, ParsedWords(m3, t, items)))
    else Ok(m3)
  }

  /**
   * parseText fails only when it tokenises with a dictionary whose separators
   * make an out-of-order range; without a `-` among them it never fails.
   */
  lemma ParsedTextFails(mem: seq<byte>, text: string, textBuffer: int, parseBuffer: int)
    ensures var m3 := TextBufferFilled(mem, textBuffer, text).0;
      ParsedText(mem, text, textBuffer, parseBuffer).Err? <==>
        Tokenises(m3, parseBuffer) && SeparatorClass(DecodedDictionary(m3).wordSeparators).Err?
    ensures var m3 := TextBufferFilled(mem, textBuffer, text).0;
      '-' !in DecodedDictionary(m3).wordSeparators ==> ParsedText(mem, text, textBuffer, parseBuffer).Ok?
  {
    var m3 := TextBufferFilled(mem, textBuffer, text).0;
    var separators := DecodedDictionary(m3).wordSeparators;
    if '-' !in separators {
      ClassWithoutDash([' '] + separators, ' ');
    }
  }

  /** The character loop of parseText (run.js:543-545). */
  method WriteChars(memory: array<byte>, start: int, t: string)
    modifies memory
    ensures memory[..] == CharsWritten(old(memory[..]), start, t)
  {
    ghost var m := memory[..];
    var address := start;
    var i := 0;
    while i < |t|
      invariant 0 <= i <= |t|
      invariant address == start + i
      invariant memory[..] == CharsWritten(m, start, t[..i])
    {
      assert t[..i + 1][..i] == t[..i];
      assert CharsWritten(m, start, t[..i + 1]) == Poked(CharsWritten(m, start, t[..i]), address, t[i] as int);
      SetByte(memory, address, t[i] as int);
      address := address + 1;
      i := i + 1;
    }
    assert t[..i] == t;
  }

  /** The text buffer step of parseText (run.js:536-548). */
  method FillTextBuffer(state: Machine, textBuffer: int, text: string) returns (t: string)
    modifies state.memory
    ensures (state.memory[..], t) == TextBufferFilled(old(state.memory[..]), textBuffer, text)
  {
    ghost var mem := state.memory[..];
    var address := textBuffer;
    var max := MaxInputLength(state.memory[..], address);
    address := address + 1;
    t := if max.Some? then JsSlice(text, 0, max.value) else "";
    assert t == StoredText(mem, textBuffer, text);
    if Version(state.memory[..]) >= 5 {
      SetByte(state.memory, address, |t|);
      address := address + 1;
    }
    ghost var m1 := state.memory[..];
    assert m1 == if Version(mem) >= 5 then Poked(mem, textBuffer + 1, |t|) else mem;
    assert address == TextStart(Version(mem), textBuffer);
    WriteChars(state.memory, address, t);
    ghost var m2 := state.memory[..];
    address := address + |t|;
    if Version(state.memory[..]) <= 4 {
      SetByte(state.memory, address, 0);
      assert state.memory[..] == Poked(m2, address, 0);
    }
  }

  /** The lookup loop: each word encoded and found in the dictionary. */
  method LookUpWords(memory: array<byte>, entries: seq<Entry>, tokens: seq<Token>) returns (words: seq<ParsedWord>)
    ensures words == LookedUp(memory[..], entries, tokens)
  {
    words := [];
    var k := 0;
    while k < |tokens|
      invariant 0 <= k <= |tokens|
      invariant words == LookedUp(memory[..], entries, tokens[..k])
    {
      var encoded := EncodeTextSkipping(memory, tokens[k].text);
      words := words + [ParsedWord(tokens[k], LookupEntry(entries, encoded))];
      LookedUpStep(memory[..], entries, tokens, k);
      k := k + 1;
    }
    assert tokens[..k] == tokens;
  }

  /** The body of the block-writing loop. */
  method WriteBlock(memory: array<byte>, address: int, word: ParsedWord)
    modifies memory
    ensures memory[..] == BlockWritten(old(memory[..]), address, word)
  {
    var a := address;
    if word.entry.Some? {
      Write16(memory, a, word.entry.value.address);
      a := a + 2;
    } else {
      SetByte(memory, a, 0);
      a := a + 1;
      SetByte(memory, a, 0);
      a := a + 1;
    }
    SetByte(memory, a, word.token.length);
    a := a + 1;
    SetByte(memory, a, word.token.position);
  }

  /** One more block written after the first `k`. */
  lemma BlocksStep(mem: seq<byte>, start: int, words: seq<ParsedWord>, k: int)
    requires 0 <= k < |words|
    ensures BlocksWritten(mem, start, words[..k + 1]) == BlockWritten(BlocksWritten(mem, start, words[..k]), start + 4 * k, words[k])
  {
    assert words[..k + 1][..k] == words[..k];
  }

  /** The block-writing loop of parseText (run.js:578-590). */
  method WriteBlocks(memory: array<byte>, start: int, words: seq<ParsedWord>)
    modifies memory
    ensures memory[..] == BlocksWritten(old(memory[..]), start, words)
  {
    ghost var m := memory[..];
    var address := start;
    var k := 0;
    while k < |words|
      invariant 0 <= k <= |words|
      invariant address == start + 4 * k
      invariant memory[..] == BlocksWritten(m, start, words[..k])
    {
      BlocksStep(m, start, words, k);
      WriteBlock(memory, address, words[k]);
      address := address + 4;
      k := k + 1;
    }
    assert words[..k] == words;
  }

  /** The parse buffer step of parseText (run.js:575-591). */
  method WriteParseBuffer(state: Machine, parseBuffer: int, words: seq<ParsedWord>)
    modifies state.memory
    ensures state.memory[..] == ParseBufferWritten(old(state.memory[..]), parseBuffer, words)
  {
    var address := parseBuffer;
    var shown := if 0 <= address < state.memory.Length then JsSlice(words, 0, state.memory[address] as int) else words;
    assert shown == ShownWords(state.memory[..], parseBuffer, words);
    address := address + 1;
    SetByte(state.memory, address, |shown|);
    address := address + 1;
    WriteBlocks(state.memory, address, shown);
  }

  /** parseText of run.js (run.js:535-592). */
  method ParseText(state: Machine, text: string, textBuffer: int, parseBuffer: int) returns (r: Result<()>)
    modifies state.memory
    ensures var spec := ParsedText(old(state.memory[..]), text, textBuffer, parseBuffer);
      && (spec.Err? ==> r == Err(spec.fault))
      && (spec.Ok? ==> r == Ok(()) && state.memory[..] == spec.value)
  {
    var t := FillTextBuffer(state, textBuffer, text);
    if Version(state.memory[..]) <= 4 || parseBuffer != 0 {
      var dictionary := DecodeDictionaryTable(state.memory);
      var items :- SeparatorClass(dictionary.wordSeparators);
      var tokens := Words(t, items, dictionary.textLength, FirstPosition(Version(state.memory[..])));
      var words := LookUpWords(state.memory, dictionary.entries, tokens);
      WriteParseBuffer(state, parseBuffer, words);
    }
    r := Ok(());
  }

  /**
   * parseText.js as a value: the same text buffer step, then, when it
   * tokenises, the decodeDictionaryTable.js it calls reads the undeclared
   * name `header` (decodeDictionaryTable.js:5) and throws.
   */
  function LegacyParsedText(mem: seq<byte>, text: string, textBuffer: int, parseBuffer: int): Result<seq<byte>>
  {
    var m3 := TextBufferFilled(mem, textBuffer, text).0;
    if Tokenises(m3, parseBuffer) then Err(NotDefined("header")) else Ok(m3)
  }

  /**
   * The two parseText agree exactly when there is nothing to tokenise (a
   * version 5 or later call without a parse buffer); otherwise parseText.js
   * always fails.
   */
  lemma LegacyParsedTextAgrees(mem: seq<byte>, text: string, textBuffer: int, parseBuffer: int)
    ensures var m3 := TextBufferFilled(mem, textBuffer, text).0;
      && (!Tokenises(m3, parseBuffer) ==> LegacyParsedText(mem, text, textBuffer, parseBuffer) == ParsedText(mem, text, textBuffer, parseBuffer))
      && (Tokenises(m3, parseBuffer) <==> LegacyParsedText(mem, text, textBuffer, parseBuffer).Err?)
  {
  }

  /** parseText.js (parseText.js:6-64). */
  method LegacyParseText(state: Machine, text: string, textBuffer: int, parseBuffer: int) returns (r: Result<()>)
    modifies state.memory
    ensures var spec := LegacyParsedText(old(state.memory[..]), text, textBuffer, parseBuffer);
      && (spec.Err? ==> r == Err(spec.fault))
      && (spec.Ok? ==> r == Ok(()) && state.memory[..] == spec.value)
  {
    var t := FillTextBuffer(state, textBuffer, text);
    if Version(state.memory[..]) <= 4 || parseBuffer != 0 {
      return Err(NotDefined("header"));
    }
    r := Ok(());
  }
}
