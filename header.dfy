// The story file header (header.js): the version byte and the big-endian
// addresses the rest of the interpreter looks up. Every getter reads memory
// afresh, so a write to the header is seen by the next lookup.

module Header {
  import opened Base
  import opened Rw16

  const DictionaryField := 0x08
  const ObjectTableField := 0x0A
  const GlobalTableField := 0x0C
  const AbbreviationsTableField := 0x18
  const RoutinesOffsetField := 0x28
  const StaticStringsOffsetField := 0x2A
  const AlphabetTableField := 0x34

  /** getVersion: byte 0 of memory. */
  function Version(mem: seq<byte>): (r: byte)
    ensures |mem| > 0 ==> r == mem[0]
  {
    ByteAt(mem, 0)
  }

  /** The header word whose high byte is at `field`. */
  function HeaderWord(mem: seq<byte>, field: nat): (r: int)
    ensures 0 <= r < 0x10000
    ensures field + 1 < |mem| ==> r == mem[field] as int * 256 + mem[field + 1]
  {
    Read16(mem, field)
  }

  function DictionaryAddress(mem: seq<byte>): (r: int)
    ensures |mem| > 0x09 ==> r == mem[0x08] as int * 256 + mem[0x09]
  {
    HeaderWord(mem, DictionaryField)
  }

  function ObjectTableAddress(mem: seq<byte>): (r: int)
    ensures |mem| > 0x0B ==> r == mem[0x0A] as int * 256 + mem[0x0B]
  {
    HeaderWord(mem, ObjectTableField)
  }

  function GlobalTableAddress(mem: seq<byte>): (r: int)
    ensures |mem| > 0x0D ==> r == mem[0x0C] as int * 256 + mem[0x0D]
  {
    HeaderWord(mem, GlobalTableField)
  }

  function AbbreviationsTableAddress(mem: seq<byte>): (r: int)
    ensures |mem| > 0x19 ==> r == mem[0x18] as int * 256 + mem[0x19]
  {
    HeaderWord(mem, AbbreviationsTableField)
  }

  function RoutinesOffset(mem: seq<byte>): (r: int)
    ensures |mem| > 0x29 ==> r == mem[0x28] as int * 256 + mem[0x29]
  {
    HeaderWord(mem, RoutinesOffsetField)
  }

  function StaticStringsOffset(mem: seq<byte>): (r: int)
    ensures |mem| > 0x2B ==> r == mem[0x2A] as int * 256 + mem[0x2B]
  {
    HeaderWord(mem, StaticStringsOffsetField)
  }

  function AlphabetTableAddress(mem: seq<byte>): (r: int)
    ensures |mem| > 0x35 ==> r == mem[0x34] as int * 256 + mem[0x35]
  {
    HeaderWord(mem, AlphabetTableField)
  }

  /**
   * The getters hold no cache: after write16 to a header field the field
   * reads back the written word, and a write that does not touch a field
   * leaves it as it was.
   */
  lemma HeaderWordAfterWrite(mem: seq<byte>, field: nat, a: int, v: int)
    requires field + 1 < |mem|
    ensures a == field ==> HeaderWord(Written16(mem, a, v), field) == v % 0x10000
    ensures a + 1 < field || field + 1 < a ==> HeaderWord(Written16(mem, a, v), field) == HeaderWord(mem, field)
  {
    if a == field {
      Read16OfWritten16(mem, a, v);
    }
  }

  /** The version byte changes only through a store to byte 0. */
  lemma VersionAfterWrite(mem: seq<byte>, a: int, v: int)
    requires a != 0 && a + 1 != 0
    ensures Version(Written16(mem, a, v)) == Version(mem)
    ensures Version(Poked(mem, a, v)) == Version(mem)
  {
  }
}
