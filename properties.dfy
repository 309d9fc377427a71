// Property tables (section 12.4 of the Z-Machine Standards Document 1.1;
// object.js:110-235, repeated at run.js:405-533): an object's property table
// starts with its short name, then holds records in descending order of
// property number, each a size byte (two in version 4 and later when bit 7
// is set) followed by the data, and ends at a zero size byte.

module Properties {
  import opened Base
  import opened Rw16
  import opened Header
  import opened Objects
  import opened TextDecoder
  import opened MachineState

  /** The offset of the property-table address inside an object entry. */
  function PropertiesOffset(version: int): int
  {
    if version <= 3 then 7 else 12
  }

  /** getObjectPropertiesAddress (object.js:110-114): the word at entry offset 7 or 12. */
  function PropertiesAddress(mem: seq<byte>, obj: int): (r: Result<int>)
    ensures r.Ok? <==> ObjectBase(mem, obj).Ok?
    ensures r.Err? ==> r.fault == InvalidObject(obj)
    ensures r.Ok? ==> 0 <= r.value < 0x10000
  {
    var base :- ObjectBase(mem, obj);
    Ok(Read16(mem, base + PropertiesOffset(Version(mem))))
  }

  /** The memory setObjectPropertiesAddress (object.js:116-120) leaves. */
  function PropertiesAddressSet(mem: seq<byte>, obj: int, address: int): (r: Result<seq<byte>>)
    ensures r.Ok? <==> ObjectBase(mem, obj).Ok?
  {
    var base :- ObjectBase(mem, obj);
    Ok(Written16(mem, base + PropertiesOffset(Version(mem)), address))
  }

  /**
   * Setting the property-table address and reading it back gives the
   * address as a word; no other object's entry changes.
   */
  lemma PropertiesAddressSetThenGet(mem: seq<byte>, obj: int, address: int, other: int)
    requires LinksInMemory(mem, obj) && ObjectBase(mem, other).Ok?
    requires ObjectBase(mem, obj).value + PropertiesOffset(Version(mem)) + 1 < |mem|
    ensures PropertiesAddressSet(mem, obj, address).Ok?
    ensures PropertiesAddress(PropertiesAddressSet(mem, obj, address).value, obj) == Ok(address % 0x10000)
    ensures other != obj ==>
      PropertiesAddress(PropertiesAddressSet(mem, obj, address).value, other) == PropertiesAddress(mem, other)
  {
    var m := PropertiesAddressSet(mem, obj, address).value;
    var at := ObjectBase(mem, obj).value + PropertiesOffset(Version(mem));
    HeaderUnchanged(mem, m);
    Read16OfWritten16(mem, at, address);
    if other != obj {
      if other < obj {
        ObjectEntriesDisjoint(mem, other, obj);
      } else {
        ObjectEntriesDisjoint(mem, obj, other);
      }
      Read16OfWritten16Elsewhere(mem, at, ObjectBase(mem, other).value + PropertiesOffset(Version(mem)), address);
    }
  }

  /** getObjectName (object.js:122-125): the string encoded after the table's length byte. */
  function ObjectName(mem: seq<byte>, obj: int): (r: Result<string>)
    ensures ObjectBase(mem, obj).Err? ==> r == Err(InvalidObject(obj))
  {
    var address :- PropertiesAddress(mem, obj);
    var (text, _) :- DecodedText(mem, address + 1, false);
    Ok(text)
  }

  /** getObjectFirstPropertyAddress (object.js:127-130): past the length byte and the name's words. */
  function FirstPropertyAddress(mem: seq<byte>, obj: int): (r: Result<int>)
    ensures r.Ok? <==> ObjectBase(mem, obj).Ok?
    ensures r.Ok? ==> r.value >= 1
  {
    var address :- PropertiesAddress(mem, obj);
    Ok(address + 1 + 2 * ByteAt(mem, address))
  }

  /** getPropertyNumber (object.js:132-140): 0 at the terminator, else the low 5 or 6 bits of the size byte. */
  function PropertyNumber(mem: seq<byte>, address: int): (r: int)
    ensures 0 <= r < MaxPropertyId(Version(mem))
    ensures r != 0 ==> 0 <= address < |mem| && mem[address] != 0
  {
    if ByteAt(mem, address) == 0 then 0
    else if Version(mem) <= 3 then ByteAt(mem, address) % 0x20
    else ByteAt(mem, address) % 0x40
  }

  /** getPropertyDataAddress (object.js:142-148): after one size byte, or two when bit 7 is set in version 4 and later. */
  function PropertyDataAddress(mem: seq<byte>, address: int): (r: int)
    ensures r == address + 1 || r == address + 2
    ensures r == address + 2 <==> Version(mem) > 3 && ByteAt(mem, address) >= 0x80
  {
    if Version(mem) <= 3 || ByteAt(mem, address) < 0x80 then address + 1 else address + 2
  }

  /** The length a size byte gives in version 4 and later when bit 7 is set: the low 6 bits of `b`, 0 meaning 64. */
  function SecondSizeLength(b: byte): (r: int)
    ensures 1 <= r <= 64
  {
    if b % 0x40 == 0 then 64 else b % 0x40
  }

  /**
   * getPropertyDataLength (object.js:150-160): the top 3 bits plus one up to
   * version 3; later, the second size byte's low 6 bits (0 meaning 64), or
   * 2 or 1 by bit 6.
   */
  function PropertyDataLength(mem: seq<byte>, address: int): (r: int)
    ensures 1 <= r <= 64
    ensures Version(mem) <= 3 ==> r <= 8
  {
    var b := ByteAt(mem, address);
    if Version(mem) <= 3 then 1 + b / 0x20
    else if b >= 0x80 then SecondSizeLength(ByteAt(mem, address + 1))
    else if b >= 0x40 then 2
    else 1
  }

  /**
   * getObjectPropertyDataLengthFromDataAddress (object.js:162-173): the
   * length read back from the byte just before the data.
   */
  function DataLengthFromDataAddress(mem: seq<byte>, dataAddress: int): (r: int)
    ensures 1 <= r <= 64
  {
    var b := ByteAt(mem, dataAddress - 1);
    if Version(mem) <= 3 then 1 + b / 0x20
    else if b >= 0x80 then SecondSizeLength(b)
    else if b >= 0x40 then 2
    else 1
  }

  /**
   * The length found from the data address is the record's own length,
   * provided that a two-byte header's second byte has bit 7 set, as section
   * 12.4.2.1.1 of the Standard requires; with that bit clear the two differ.
   */
  lemma DataLengthAgrees(mem: seq<byte>, address: int)
    requires Version(mem) <= 3 || ByteAt(mem, address) < 0x80 || ByteAt(mem, address + 1) >= 0x80
    ensures DataLengthFromDataAddress(mem, PropertyDataAddress(mem, address)) == PropertyDataLength(mem, address)
  {
  }

  /** A second size byte with bit 7 clear makes the two lengths disagree. */
  lemma DataLengthDisagrees(mem: seq<byte>, address: int)
    requires Version(mem) > 3 && ByteAt(mem, address) >= 0x80 && ByteAt(mem, address + 1) < 0x80
    requires ByteAt(mem, address + 1) % 0x40 > 2
    ensures DataLengthFromDataAddress(mem, PropertyDataAddress(mem, address)) != PropertyDataLength(mem, address)
  {
  }

  /** getNextPropertyAddress (object.js:175-177): the record after the data. */
  function NextPropertyAddress(mem: seq<byte>, address: int): (r: int)
    ensures address + 2 <= r <= address + 66
  {
    PropertyDataAddress(mem, address) + PropertyDataLength(mem, address)
  }

  /**
   * The loop of getObjectPropertyAddress (object.js:181-190) from the record
   * at `address`: skip records whose number is above `propertyId`, then
   * answer the record reached if its number is `propertyId`, else 0. A
   * record with a nonzero number lies inside memory, so the walk ends.
   */
  function PropertyFrom(mem: seq<byte>, address: int, propertyId: int): (r: int)
    requires propertyId >= 0
    ensures r != 0 ==> r >= address && PropertyNumber(mem, r) == propertyId
    decreases |mem| - address
  {
    if PropertyNumber(mem, address) > propertyId then PropertyFrom(mem, NextPropertyAddress(mem, address), propertyId)
    else if PropertyNumber(mem, address) == propertyId then address
    else 0
  }

  /**
   * getObjectPropertyAddress (object.js:179-191). With a negative id every
   * record number is above it, so the source walks for ever.
   */
  function PropertyAddress(mem: seq<byte>, obj: int, propertyId: int): (r: Result<int>)
    ensures ObjectBase(mem, obj).Err? ==> r == Err(InvalidObject(obj))
    ensures ObjectBase(mem, obj).Ok? && propertyId < 0 ==> r == Err(Diverges)
    ensures ObjectBase(mem, obj).Ok? && propertyId >= 0 ==> r.Ok?
    ensures r.Ok? && r.value != 0 ==> PropertyNumber(mem, r.value) == propertyId
  {
    var first :- FirstPropertyAddress(mem, obj);
    if propertyId < 0 then Err(Diverges) else Ok(PropertyFrom(mem, first, propertyId))
  }

  /** getObjectPropertyAddress (object.js:179-191), with its walk as a loop. */
  method GetObjectPropertyAddress(state: Machine, obj: int, propertyId: int) returns (r: Result<int>)
    ensures r == PropertyAddress(state.memory[..], obj, propertyId)
  {
    var first :- FirstPropertyAddress(state.memory[..], obj);
    if propertyId < 0 {
      return Err(Diverges);
    }
    var address := first;
    var id := PropertyNumber(state.memory[..], address);
    while id > propertyId
      invariant id == PropertyNumber(state.memory[..], address)
      invariant PropertyFrom(state.memory[..], address, propertyId) == PropertyFrom(state.memory[..], first, propertyId)
      decreases state.memory.Length - address
    {
      address := NextPropertyAddress(state.memory[..], address);
      id := PropertyNumber(state.memory[..], address);
    }
    if id == propertyId {
      r := Ok(address);
    } else {
      r := Ok(0);
    }
  }

  /** getObjectPropertyDataAddress (object.js:193-196): the data address of the property, or 0. */
  function PropertyDataAddressOf(mem: seq<byte>, obj: int, propertyId: int): (r: Result<int>)
    ensures r.Ok? <==> PropertyAddress(mem, obj, propertyId).Ok?
    ensures r.Ok? ==> (r.value == 0 <==> PropertyAddress(mem, obj, propertyId).value == 0)
  {
    var address :- PropertyAddress(mem, obj, propertyId);
    if address == 0 then Ok(0) else Ok(PropertyDataAddress(mem, address))
  }

  /** getObjectPropertyData (object.js:198-206): a copy of the data bytes, cut short at the end of memory; None for an absent property. */
  function PropertyData(mem: seq<byte>, obj: int, propertyId: int): (r: Result<Option<seq<byte>>>)
    ensures r.Ok? <==> PropertyAddress(mem, obj, propertyId).Ok?
    ensures r.Ok? ==> (r.value.None? <==> PropertyAddress(mem, obj, propertyId).value == 0)
    ensures r.Ok? && r.value.Some? ==> 0 < |r.value.value| <= 64 || PropertyDataAddressOf(mem, obj, propertyId).value >= |mem|
  {
    var address :- PropertyAddress(mem, obj, propertyId);
    if address == 0 then Ok(None)
    else
      var dataAddress := PropertyDataAddress(mem, address);
      Ok(Some(JsSlice(mem, dataAddress, dataAddress + PropertyDataLength(mem, address))))
  }

  /** getObjectFirstPropertyNumber (object.js:208-211): the number of the first record, 0 for an empty table. */
  function FirstPropertyNumber(mem: seq<byte>, obj: int): (r: Result<int>)
    ensures r.Ok? <==> ObjectBase(mem, obj).Ok?
    ensures r.Ok? ==> 0 <= r.value < MaxPropertyId(Version(mem))
  {
    var first :- FirstPropertyAddress(mem, obj);
    Ok(PropertyNumber(mem, first))
  }

  /** getObjectNextPropertyNumber (object.js:213-220): the number of the record after `propertyId`'s; an absent property throws. */
  function NextPropertyNumber(mem: seq<byte>, obj: int, propertyId: int): (r: Result<int>)
    ensures PropertyAddress(mem, obj, propertyId).Ok? && PropertyAddress(mem, obj, propertyId).value == 0 ==>
      r == Err(MissingProperty(obj, propertyId))
    ensures r.Ok? ==> PropertyAddress(mem, obj, propertyId).Ok? && PropertyAddress(mem, obj, propertyId).value != 0
  {
    var address :- PropertyAddress(mem, obj, propertyId);
    if address == 0 then Err(MissingProperty(obj, propertyId))
    else Ok(PropertyNumber(mem, NextPropertyAddress(mem, address)))
  }

  /**
   * The memory setObjectPropertyData (object.js:222-235) leaves: the low
   * byte into a 1-byte property, else a big-endian word into the first two
   * data bytes; an absent property throws.
   */
  function PropertyDataSet(mem: seq<byte>, obj: int, propertyId: int, value: int): (r: Result<seq<byte>>)
    ensures PropertyAddress(mem, obj, propertyId).Ok? && PropertyAddress(mem, obj, propertyId).value == 0 ==>
      r == Err(MissingProperty(obj, propertyId))
    ensures r.Ok? ==> PropertyAddress(mem, obj, propertyId).Ok? && PropertyAddress(mem, obj, propertyId).value != 0
    ensures r.Ok? ==> |r.value| == |mem|
  {
    var address :- PropertyAddress(mem, obj, propertyId);
    if address == 0 then Err(MissingProperty(obj, propertyId))
    else
      var dataAddress := PropertyDataAddress(mem, address);
      if PropertyDataLength(mem, address) == 1 then Ok(Poked(mem, dataAddress, value % 0x100))
      else Ok(Written16(mem, dataAddress, value))
  }

  /**
   * After setObjectPropertyData, the record keeps its header, its data
   * reads back as the value (its low byte, or the word), and no byte outside
   * the one or two data bytes written changes.
   */
  lemma PropertyDataSetThenGet(mem: seq<byte>, obj: int, propertyId: int, value: int)
    requires PropertyDataSet(mem, obj, propertyId, value).Ok?
    ensures var m := PropertyDataSet(mem, obj, propertyId, value).value;
      var address := PropertyAddress(mem, obj, propertyId).value;
      var dataAddress := PropertyDataAddress(mem, address);
      var length := PropertyDataLength(mem, address);
      && PropertyNumber(m, address) == PropertyNumber(mem, address)
      && PropertyDataAddress(m, address) == dataAddress
      && PropertyDataLength(m, address) == length
      && (length == 1 && dataAddress < |mem| ==> m[dataAddress] == value % 0x100)
      && (length != 1 && dataAddress + 1 < |mem| ==> Read16(m, dataAddress) == value % 0x10000)
      && (forall i | 0 <= i < |mem| && i != dataAddress && (length == 1 || i != dataAddress + 1) :: m[i] == mem[i])
  {
    var address := PropertyAddress(mem, obj, propertyId).value;
    var dataAddress := PropertyDataAddress(mem, address);
    if PropertyDataLength(mem, address) != 1 && 0 <= dataAddress && dataAddress + 1 < |mem| {
      Read16OfWritten16(mem, dataAddress, value);
    }
  }

  /** setObjectPropertyData (object.js:222-235), in place. */
  method SetObjectPropertyData(state: Machine, obj: int, propertyId: int, value: int) returns (r: Result<()>)
    modifies state.memory
    ensures var spec := PropertyDataSet(old(state.memory[..]), obj, propertyId, value);
      && (spec.Err? ==> r == Err(spec.fault) && state.memory[..] == old(state.memory[..]))
      && (spec.Ok? ==> r == Ok(()) && state.memory[..] == spec.value)
  {
    var address :- GetObjectPropertyAddress(state, obj, propertyId);
    if address == 0 {
      return Err(MissingProperty(obj, propertyId));
    }
    var dataAddress := PropertyDataAddress(state.memory[..], address);
    var dataLength := PropertyDataLength(state.memory[..], address);
    if dataLength == 1 {
      SetByte(state.memory, dataAddress, value % 0x100);
    } else {
      Write16(state.memory, dataAddress, value);
    }
    r := Ok(());
  }
}
