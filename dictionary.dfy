// The dictionary table (section 13.2 of the Z-Machine Standards Document
// 1.1; decodeDictionaryTable at run.js:103-136): a count of word-separator
// characters and the characters, the entry length, the entry count, then the
// entries, each an encoded word of 4 (versions 1-3) or 6 bytes followed by
// data.

module Dictionary {
  import opened Base
  import opened Rw16
  import opened Header

  /** One dictionary word: its index, its encoded text, its data and its address. */
  datatype Entry = Entry(number: int, encodedText: seq<byte>, data: seq<byte>, address: int)

  datatype DictionaryTable = DictionaryTable(
    wordSeparators: string,
    entries: seq<Entry>,
    textLength: int,
    encodedTextLength: int,
    dataLength: int)

  /** The characters of a dictionary word: 6 up to version 3, 9 later. */
  function TextLength(version: int): int
  {
    if version <= 3 then 6 else 9
  }

  /** The bytes of an encoded dictionary word: 4 up to version 3, 6 later. */
  function EncodedTextLength(version: int): int
  {
    if version <= 3 then 4 else 6
  }

  /** The entry numbered `number` at `address`: `encoded` bytes of word, then the data up to the entry length `step`. */
  function EntryAt(mem: seq<byte>, address: int, number: int, encoded: int, step: int): Entry
  {
    Entry(number, JsSlice(mem, address, address + encoded), JsSlice(mem, address + encoded, address + step), address)
  }

  /** The first `count` separator characters, stored from `address` on. */
  function Separators(mem: seq<byte>, address: int, count: nat): (r: string)
    ensures |r| == count
  {
    if count == 0 then ""
    else Separators(mem, address, count - 1) + [ByteAt(mem, address + count - 1) as char]
  }

  /** Separator `i` of the first `count` is the byte `i` places after `address`. */
  lemma {:induction false} SeparatorsAt(mem: seq<byte>, address: int, count: nat, i: int)
    requires 0 <= i < count
    ensures Separators(mem, address, count)[i] as int == ByteAt(mem, address + i)
  {
    if i < count - 1 {
      SeparatorsAt(mem, address, count - 1, i);
    }
  }

  /**
   * The first `count` entries: entry `i` is numbered `i` and lies `i` entry
   * lengths after the first, where the source's loop has advanced its
   * address by one entry length per entry.
   */
  function Entries(mem: seq<byte>, first: int, count: nat, encoded: int, step: int): (r: seq<Entry>)
  {
    seq(count, i => EntryAt(mem, first + i * step, i, encoded, step))
  }

  /** The parts of the table header: separator count, entry length, entry count. */
  function SeparatorCount(mem: seq<byte>): byte
  {
    ByteAt(mem, DictionaryAddress(mem))
  }

  function EntryLength(mem: seq<byte>): byte
  {
    ByteAt(mem, DictionaryAddress(mem) + 1 + SeparatorCount(mem))
  }

  function EntryCount(mem: seq<byte>): int
  {
    Read16(mem, DictionaryAddress(mem) + 2 + SeparatorCount(mem))
  }

  /** Where the first entry starts: after the separators, the entry length and the entry count. */
  function FirstEntry(mem: seq<byte>): int
  {
    DictionaryAddress(mem) + 4 + SeparatorCount(mem)
  }

  /**
   * decodeDictionaryTable (run.js:103-136) as a value: the separators as
   * characters, and entry `i` at `i` entry lengths after the first, with its
   * encoded word as the bytes stored there.
   */
  function DecodedDictionary(mem: seq<byte>): (r: DictionaryTable)
  {
    var encoded := EncodedTextLength(Version(mem));
    var step := EntryLength(mem) as int;
    var entries := Entries(mem, FirstEntry(mem), EntryCount(mem), encoded, step);
    DictionaryTable(Separators(mem, DictionaryAddress(mem) + 1, SeparatorCount(mem)), entries,
      TextLength(Version(mem)), encoded, step - encoded)
  }

  /**
   * The layout decodeDictionaryTable reads: separator `i` is the byte after
   * the count, entry `i` starts `i` entry lengths after the first entry and
   * its encoded word is the bytes stored there, and an entry's word and data
   * fill the entry length.
   */
  lemma DictionaryLayout(mem: seq<byte>, i: int)
    ensures var r := DecodedDictionary(mem);
      && |r.wordSeparators| == SeparatorCount(mem)
      && (0 <= i < |r.wordSeparators| ==> r.wordSeparators[i] as int == ByteAt(mem, DictionaryAddress(mem) + 1 + i))
      && |r.entries| == EntryCount(mem)
      && r.encodedTextLength + r.dataLength == EntryLength(mem)
      && (0 <= i < |r.entries| ==> r.entries[i].number == i && r.entries[i].address == FirstEntry(mem) + i * EntryLength(mem))
  {
    if 0 <= i < SeparatorCount(mem) {
      SeparatorsAt(mem, DictionaryAddress(mem) + 1, SeparatorCount(mem), i);
    }
  }

  /** An entry's encoded word is read from memory whenever it lies there. */
  lemma EntryWordInMemory(mem: seq<byte>, i: int)
    requires 0 <= i < |DecodedDictionary(mem).entries|
    ensures var r := DecodedDictionary(mem); var a := r.entries[i].address;
      0 <= a && a + r.encodedTextLength <= |mem| ==> r.entries[i].encodedText == mem[a..a + r.encodedTextLength]
  {
  }

  /** The separator loop of decodeDictionaryTable (run.js:107-111). */
  method ReadSeparators(memory: array<byte>, start: int, count: byte) returns (r: string)
    ensures r == Separators(memory[..], start, count)
  {
    r := "";
    var address := start;
    var i := 0;
    while i < count
      invariant 0 <= i <= count
      invariant address == start + i
      invariant r == Separators(memory[..], start, i)
    {
      r := r + [ByteAt(memory[..], address) as char];
      address := address + 1;
      i := i + 1;
    }
  }

  /** The entry loop of decodeDictionaryTable (run.js:121-133). */
  method ReadEntries(mem: seq<byte>, first: int, count: int, encoded: int, step: int) returns (r: seq<Entry>)
    requires count >= 0
    ensures r == Entries(mem, first, count, encoded, step)
  {
    r := [];
    var address := first;
    var n := 0;
    while n < count
      invariant 0 <= n <= count && |r| == n
      invariant address == first + n * step
      invariant forall j | 0 <= j < n :: r[j] == EntryAt(mem, first + j * step, j, encoded, step)
    {
      var encodedText := JsSlice(mem, address, address + encoded);
      var data := JsSlice(mem, address + encoded, address + step);
      r := r + [Entry(n, encodedText, data, address)];
      address := address + step;
      assert (n + 1) * step == n * step + step;
      n := n + 1;
    }
  }

  /** decodeDictionaryTable (run.js:103-136). */
  method DecodeDictionaryTable(memory: array<byte>) returns (r: DictionaryTable)
    ensures r == DecodedDictionary(memory[..])
  {
    var separatorCount := SeparatorCount(memory[..]);
    var wordSeparators := ReadSeparators(memory, DictionaryAddress(memory[..]) + 1, separatorCount);
    var entryLength := EntryLength(memory[..]);
    var entryCount := EntryCount(memory[..]);
    var encoded := EncodedTextLength(Version(memory[..]));
    var entries := ReadEntries(memory[..], FirstEntry(memory[..]), entryCount, encoded, entryLength);
    r := DictionaryTable(wordSeparators, entries, TextLength(Version(memory[..])), encoded, entryLength - encoded);
  }

  /** Whether the encoded word of `entry` matches `encoded`: `entry.encodedText.every((c, i) => c === encoded[i])`. */
  predicate Matches(entry: Entry, encoded: seq<byte>)
  {
    |entry.encodedText| <= |encoded| && encoded[..|entry.encodedText|] == entry.encodedText
  }

  /** `entries.find(...)` (run.js:563-564): the first entry whose encoded word is a prefix of `encoded`. */
  function LookupEntry(entries: seq<Entry>, encoded: seq<byte>): (r: Option<Entry>)
    ensures r.None? <==> forall i | 0 <= i < |entries| :: !Matches(entries[i], encoded)
    ensures r.Some? ==> exists i | 0 <= i < |entries| :: (entries[i] == r.value && Matches(r.value, encoded)
      && forall j | 0 <= j < i :: !Matches(entries[j], encoded))
  {
    if |entries| == 0 then None
    else if Matches(entries[0], encoded) then Some(entries[0])
    else
      var r := LookupEntry(entries[1..], encoded);
      assert forall i | 1 <= i < |entries| :: entries[i] == entries[1..][i - 1];
      r
  }
}
