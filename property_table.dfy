// The record-by-record view of a property table: decodeProperty.js reads one
// record header, decodePropertyTable.js walks a whole table into its short
// name and a list of records. Both read the same size bytes as the getters
// of object.js, and the lemmas here tie the two views together.

module PropertyTable {
  import opened Base
  import opened Rw16
  import opened Header
  import opened Objects
  import opened Properties
  import opened TextDecoder

  /** What decodeProperty returns for a record: its number, header address, data address, data length and a copy of the data. */
  datatype PropertyRecord = PropertyRecord(number: int, address: int, dataAddress: int, dataLength: int, data: seq<byte>)

  /**
   * The number, data address and data length that the size byte at
   * `address` (and the next one, in version 4 and later with bit 7 set)
   * give (decodeProperty.js:10-23, decodePropertyTable.js:19-31); they are
   * what the getters of object.js give for the same record.
   */
  function SizeFields(mem: seq<byte>, address: int): (r: (int, int, int))
    ensures r == (PropertyNumber(mem, address), PropertyDataAddress(mem, address), PropertyDataLength(mem, address))
  {
    var sizeByte := ByteAt(mem, address);
    if Version(mem) <= 3 then (sizeByte % 0x20, address + 1, sizeByte / 0x20 + 1)
    else if sizeByte >= 0x80 then (sizeByte % 0x40, address + 2, SecondSizeLength(ByteAt(mem, address + 1)))
    else (sizeByte % 0x40, address + 1, if sizeByte >= 0x40 then 2 else 1)
  }

  /** A zero size byte inside memory; past the end the source reads `undefined`, which is not `=== 0`. */
  predicate IsTerminator(mem: seq<byte>, address: int)
  {
    0 <= address < |mem| && mem[address] == 0
  }

  /** decodeProperty (decodeProperty.js:3-26): None at the terminator, else the record with exactly `dataLength` bytes of data where memory holds them. */
  function DecodeProperty(mem: seq<byte>, address: int): (r: Option<PropertyRecord>)
    ensures r.None? <==> IsTerminator(mem, address)
    ensures r.Some? ==> r.value.address == address && 1 <= r.value.dataLength <= 64
    ensures r.Some? ==> r.value.dataAddress == address + 1 || r.value.dataAddress == address + 2
    ensures r.Some? && 0 <= r.value.dataAddress && r.value.dataAddress + r.value.dataLength <= |mem| ==>
      r.value.data == mem[r.value.dataAddress..r.value.dataAddress + r.value.dataLength]
  {
    if IsTerminator(mem, address) then None
    else
      var (number, dataAddress, dataLength) := SizeFields(mem, address);
      Some(PropertyRecord(number, address, dataAddress, dataLength, JsSlice(mem, dataAddress, dataAddress + dataLength)))
  }

  /** One entry of decodePropertyTable's list: the number, the data address, and `memory.slice(address, length)`. */
  datatype TableRecord = TableRecord(number: int, address: int, data: seq<byte>)

  /** decodePropertyTable's result: the decoded short name and the records in table order. */
  datatype TableView = TableView(shortName: string, properties: seq<TableRecord>)

  /**
   * The record loop of decodePropertyTable (decodePropertyTable.js:11-35)
   * from the size byte at `address`. The data is sliced as written, with
   * the length as end position. Past the end of memory the size byte is
   * never `=== 0`, so the loop runs for ever.
   */
  function RecordsFrom(mem: seq<byte>, address: int): (r: Result<seq<TableRecord>>)
    ensures r.Err? ==> r.fault == Diverges
    decreases |mem| - address
  {
    if address >= |mem| then Err(Diverges)
    else if IsTerminator(mem, address) then Ok([])
    else
      var (number, dataAddress, length) := SizeFields(mem, address);
      var rest :- RecordsFrom(mem, dataAddress + length);
      Ok([TableRecord(number, dataAddress, JsSlice(mem, dataAddress, length))] + rest)
  }

  /** decodePropertyTable (decodePropertyTable.js:4-41). */
  function DecodedPropertyTable(mem: seq<byte>, address: int): (r: Result<TableView>)
  {
    var (shortName, _) :- DecodedText(mem, address + 1, false);
    var properties :- RecordsFrom(mem, address + 1 + 2 * ByteAt(mem, address));
    Ok(TableView(shortName, properties))
  }

  /** The short name decodePropertyTable gives for an object's table is getObjectName's. */
  lemma ShortNameIsObjectName(mem: seq<byte>, obj: int)
    requires PropertiesAddress(mem, obj).Ok?
    requires DecodedPropertyTable(mem, PropertiesAddress(mem, obj).value).Ok?
    ensures ObjectName(mem, obj) == Ok(DecodedPropertyTable(mem, PropertiesAddress(mem, obj).value).value.shortName)
  {
  }

  /**
   * `memory.slice(address, length)` takes the length as an end position, so
   * every record whose data starts at or after byte 64 (every record of a
   * real story file) gets no data at all.
   */
  lemma {:induction false} TableDataEmpty(mem: seq<byte>, address: int)
    requires RecordsFrom(mem, address).Ok?
    ensures var records := RecordsFrom(mem, address).value;
      forall i | 0 <= i < |records| && records[i].address >= 64 :: records[i].data == []
    decreases |mem| - address
  {
    if !IsTerminator(mem, address) {
      var (number, dataAddress, length) := SizeFields(mem, address);
      TableDataEmpty(mem, dataAddress + length);
    }
  }

  /** The records of a table, with the data slice the loop evidently intends: `slice(address, address + length)`. */
  function IntendedRecordsFrom(mem: seq<byte>, address: int): (r: Result<seq<TableRecord>>)
    ensures r.Err? ==> r.fault == Diverges
    decreases |mem| - address
  {
    if address >= |mem| then Err(Diverges)
    else if IsTerminator(mem, address) then Ok([])
    else
      var (number, dataAddress, length) := SizeFields(mem, address);
      var rest :- IntendedRecordsFrom(mem, dataAddress + length);
      Ok([TableRecord(number, dataAddress, JsSlice(mem, dataAddress, dataAddress + length))] + rest)
  }

  /**
   * With the intended slice, the table walk lists exactly the records
   * decodeProperty reads one at a time: same numbers, data addresses and
   * data, the first record at `address` and each next one after the data of
   * the one before.
   */
  lemma {:induction false} IntendedRecordsAgree(mem: seq<byte>, address: int)
    requires IntendedRecordsFrom(mem, address).Ok?
    ensures var records := IntendedRecordsFrom(mem, address).value;
      var p := DecodeProperty(mem, address);
      && (records == [] <==> p.None?)
      && (p.Some? ==> records[0] == TableRecord(p.value.number, p.value.dataAddress, p.value.data))
      && (p.Some? ==> records[1..] == IntendedRecordsFrom(mem, p.value.dataAddress + p.value.dataLength).value)
  {
  }

  /** The size byte of record `i` of a walk from `address`: the first at `address`, each next one right after the data of the one before. */
  function SizeByteOf(records: seq<TableRecord>, address: int, i: int): int
    requires 0 <= i < |records|
  {
    if i == 0 then address else records[i - 1].address + |records[i - 1].data|
  }

  /**
   * The record `record` is the one the getters of object.js read at the size
   * byte `h`: its number and data address, and as data exactly the
   * getPropertyDataLength bytes at that address, all inside memory.
   */
  predicate RecordAt(mem: seq<byte>, record: TableRecord, h: int)
  {
    && record.number == PropertyNumber(mem, h)
    && record.address == PropertyDataAddress(mem, h)
    && 0 <= record.address && record.address + PropertyDataLength(mem, h) < |mem|
    && record.data == mem[record.address..record.address + PropertyDataLength(mem, h)]
  }

  /**
   * With the intended slice every record the walk lists is the one read at
   * its size byte, and its data is exactly the record's bytes: the law the
   * mis-slice of decodePropertyTable.js breaks.
   */
  lemma {:induction false} IntendedRecordsRead(mem: seq<byte>, address: int)
    requires 0 <= address && IntendedRecordsFrom(mem, address).Ok?
    ensures var records := IntendedRecordsFrom(mem, address).value;
      forall i | 0 <= i < |records| :: RecordAt(mem, records[i], SizeByteOf(records, address, i))
    decreases |mem| - address
  {
    if !IsTerminator(mem, address) {
      var next := IntendedRecordStep(mem, address);
      IntendedRecordsRead(mem, next);
      RecordsAtShift(mem, IntendedRecordsFrom(mem, address).value, address, next);
    }
  }

  /** One record of the intended walk: it is read at `address`, and the rest of the walk starts right after its data. */
  lemma IntendedRecordStep(mem: seq<byte>, address: int) returns (next: int)
    requires 0 <= address && IntendedRecordsFrom(mem, address).Ok? && !IsTerminator(mem, address)
    ensures var records := IntendedRecordsFrom(mem, address).value;
      && |records| >= 1 && RecordAt(mem, records[0], address)
      && next == records[0].address + |records[0].data| && address < next
      && IntendedRecordsFrom(mem, next).Ok? && records[1..] == IntendedRecordsFrom(mem, next).value
  {
    var (number, dataAddress, length) := SizeFields(mem, address);
    next := dataAddress + length;
    var records := IntendedRecordsFrom(mem, address).value;
    var rest := IntendedRecordsFrom(mem, next).value;
    assert records == [TableRecord(number, dataAddress, JsSlice(mem, dataAddress, next))] + rest;
    assert next < |mem|;
    assert records[0].data == mem[dataAddress..next];
  }

  /** Records each read at its size byte from `next`, behind one read at `address` whose data ends at `next`, are each read at theirs from `address`. */
  lemma RecordsAtShift(mem: seq<byte>, records: seq<TableRecord>, address: int, next: int)
    requires |records| >= 1 && RecordAt(mem, records[0], address)
    requires next == records[0].address + |records[0].data|
    requires var rest := records[1..];
      forall i | 0 <= i < |rest| :: RecordAt(mem, rest[i], SizeByteOf(rest, next, i))
    ensures forall i | 0 <= i < |records| :: RecordAt(mem, records[i], SizeByteOf(records, address, i))
  {
    var rest := records[1..];
    forall i | 1 <= i < |records|
      ensures RecordAt(mem, records[i], SizeByteOf(records, address, i))
    {
      assert records[i] == rest[i - 1];
      assert SizeByteOf(records, address, i) == SizeByteOf(rest, next, i - 1) by {
        if i > 1 {
          assert records[i - 1] == rest[i - 2];
        }
      }
    }
  }

  /** A table whose records have nonzero numbers in strictly descending order, as section 12.4 of the Standard lays them out. */
  predicate Descending(records: seq<TableRecord>)
  {
    && (forall i | 0 <= i < |records| :: records[i].number >= 1)
    && (forall i, j | 0 <= i < j < |records| :: records[i].number > records[j].number)
  }

  /**
   * On a table in descending order, the walk of getObjectPropertyAddress
   * finds a property exactly when decodePropertyTable lists a record with
   * that number, and then the record it stops at is that one.
   */
  lemma {:induction false} PropertyFromFinds(mem: seq<byte>, address: int, propertyId: int)
    requires propertyId >= 1 && address >= 1
    requires RecordsFrom(mem, address).Ok? && Descending(RecordsFrom(mem, address).value)
    ensures var records := RecordsFrom(mem, address).value;
      (exists i | 0 <= i < |records| :: records[i].number == propertyId) <==> PropertyFrom(mem, address, propertyId) != 0
    ensures var records := RecordsFrom(mem, address).value;
      forall i | 0 <= i < |records| && records[i].number == propertyId ::
        PropertyDataAddress(mem, PropertyFrom(mem, address, propertyId)) == records[i].address
    decreases |mem| - address
  {
    var records := RecordsFrom(mem, address).value;
    if !IsTerminator(mem, address) {
      var (number, dataAddress, length) := SizeFields(mem, address);
      var next := dataAddress + length;
      RecordsStep(mem, address);
      DescendingTail(records);
      if number > propertyId {
        PropertyFromFinds(mem, next, propertyId);
        assert PropertyFrom(mem, address, propertyId) == PropertyFrom(mem, next, propertyId);
        NumberNotFirst(records, propertyId);
      } else {
        DescendingHead(records);
        assert records[0].number == number;
      }
    }
  }

  /** One step of the record loop: a record that is not the terminator heads the list, and the rest starts after its data. */
  lemma RecordsStep(mem: seq<byte>, address: int)
    requires RecordsFrom(mem, address).Ok? && !IsTerminator(mem, address)
    ensures var (number, dataAddress, length) := SizeFields(mem, address);
      var records := RecordsFrom(mem, address).value;
      && RecordsFrom(mem, dataAddress + length).Ok?
      && |records| >= 1
      && records[0].number == number && records[0].address == dataAddress
      && records[1..] == RecordsFrom(mem, dataAddress + length).value
  {
  }

  /** The tail of a descending table is descending. */
  lemma DescendingTail(records: seq<TableRecord>)
    requires Descending(records) && |records| >= 1
    ensures Descending(records[1..])
  {
    forall i, j | 0 <= i < j < |records| - 1
      ensures records[1..][i].number > records[1..][j].number
    {
      assert records[1..][i] == records[i + 1] && records[1..][j] == records[j + 1];
    }
  }

  /** In a descending table the first record has the largest number, and no later record repeats it. */
  lemma DescendingHead(records: seq<TableRecord>)
    requires Descending(records) && |records| >= 1
    ensures forall i | 1 <= i < |records| :: records[i].number < records[0].number
  {
  }

  /** A number above the one sought: the record sought, if any, is in the tail. */
  lemma NumberNotFirst(records: seq<TableRecord>, propertyId: int)
    requires |records| >= 1 && records[0].number != propertyId
    ensures (exists i | 0 <= i < |records| :: records[i].number == propertyId) <==>
      (exists i | 0 <= i < |records| - 1 :: records[1..][i].number == propertyId)
    ensures forall i | 0 <= i < |records| && records[i].number == propertyId ::
      i >= 1 && records[1..][i - 1] == records[i]
  {
    if exists i | 0 <= i < |records| :: records[i].number == propertyId {
      var i :| 0 <= i < |records| && records[i].number == propertyId;
      assert records[1..][i - 1] == records[i];
    }
  }

  /** The record loop of decodePropertyTable (decodePropertyTable.js:11-35), with its cursor. */
  method ReadRecords(memory: array<byte>, start: int) returns (r: Result<seq<TableRecord>>)
    ensures r == RecordsFrom(memory[..], start)
  {
    var cursor := start;
    var properties: seq<TableRecord> := [];
    assert RecordsFrom(memory[..], start).Ok? ==> [] + RecordsFrom(memory[..], start).value == RecordsFrom(memory[..], start).value;
    while true
      invariant RecordsFrom(memory[..], start) ==
        (var rest := RecordsFrom(memory[..], cursor); if rest.Ok? then Ok(properties + rest.value) else rest)
      decreases memory.Length - cursor
    {
      if cursor >= memory.Length {
        return Err(Diverges);
      }
      if cursor >= 0 && memory[cursor] == 0 {
        assert properties + [] == properties;
        return Ok(properties);
      }
      var (number, dataAddress, length) := SizeFields(memory[..], cursor);
      var record := TableRecord(number, dataAddress, JsSlice(memory[..], dataAddress, length));
      ghost var rest := RecordsFrom(memory[..], dataAddress + length);
      assert rest.Ok? ==> (properties + [record]) + rest.value == properties + ([record] + rest.value);
      properties := properties + [record];
      cursor := dataAddress + length;
    }
  }

  /** decodePropertyTable (decodePropertyTable.js:4-41). */
  method DecodePropertyTable(memory: array<byte>, address: int) returns (r: Result<TableView>)
    ensures r == DecodedPropertyTable(memory[..], address)
  {
    var name :- DecodeText(memory, address + 1, false);
    var properties :- ReadRecords(memory, address + 1 + 2 * ByteAt(memory[..], address));
    r := Ok(TableView(name.0, properties));
  }
}
