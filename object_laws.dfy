// What the object instructions of run.js promise: an attribute set or
// cleared reads back through test_attr, and after insert_obj or remove_obj
// the links read back through get_parent, jin and the child and sibling links.

module ObjectLaws {
  import opened Base
  import opened Opcodes
  import opened MachineState
  import opened Objects
  import opened Execution

  /** set_attr makes test_attr branch, for an attribute whose byte is in memory. */
  lemma SetAttrThenTest(s: State, obj: int, attribute: int)
    requires AttributeLocation(s.mem, obj, attribute).Ok?
    requires 0 <= AttributeLocation(s.mem, obj, attribute).value.0 < |s.mem|
    ensures ObjectWritten(s.mem, SetAttr, [obj, attribute]).Ok?
    ensures StateTest(s.(mem := ObjectWritten(s.mem, SetAttr, [obj, attribute]).value), TestAttr, [obj, attribute]) == Ok(true)
  {
    AttributeWriteReads(s.mem, obj, attribute, true);
  }

  /** clear_attr stops test_attr branching, for an attribute whose byte is in memory. */
  lemma ClearAttrThenTest(s: State, obj: int, attribute: int)
    requires AttributeLocation(s.mem, obj, attribute).Ok?
    requires 0 <= AttributeLocation(s.mem, obj, attribute).value.0 < |s.mem|
    ensures ObjectWritten(s.mem, ClearAttr, [obj, attribute]).Ok?
    ensures StateTest(s.(mem := ObjectWritten(s.mem, ClearAttr, [obj, attribute]).value), TestAttr, [obj, attribute]) == Ok(false)
  {
    AttributeWriteReads(s.mem, obj, attribute, false);
  }

  /** AttributeSetThenGet, cut down to the attribute read back. */
  lemma AttributeWriteReads(mem: seq<byte>, obj: int, attribute: int, value: bool)
    requires AttributeLocation(mem, obj, attribute).Ok?
    requires 0 <= AttributeLocation(mem, obj, attribute).value.0 < |mem|
    ensures AttributeSet(mem, obj, attribute, value).Ok?
    ensures Attribute(AttributeSet(mem, obj, attribute, value).value, obj, attribute) == Ok(value)
  {
    AttributeSetThenGet(mem, obj, attribute, value);
  }

  /** After insert_obj the object's parent is the destination, so jin branches, and the destination's first child is the object. */
  lemma InsertThenRelations(s: State, obj: int, dest: int)
    requires AllLinksInMemory(s.mem) && Moved(s.mem, obj, dest).Ok?
    ensures ObjectWritten(s.mem, InsertObj, [obj, dest]) == Moved(s.mem, obj, dest)
    ensures var m := Moved(s.mem, obj, dest).value;
      && ObjectValue(m, GetParent, [obj]) == Ok(dest)
      && StateTest(s.(mem := m), Jin, [obj, dest]) == Ok(true)
      && (dest != 0 ==> Relation(m, dest, RelationChild) == Ok(obj))
  {
    var m := Moved(s.mem, obj, dest).value;
    MovedParentAndChild(s.mem, obj, dest);
    ParentReads(s, obj, dest, m);
    MoveWrites(s.mem, obj, dest);
  }

  /** After remove_obj the object has neither parent nor sibling. */
  lemma RemoveThenRelations(s: State, obj: int)
    requires AllLinksInMemory(s.mem) && Moved(s.mem, obj, 0).Ok?
    ensures ObjectWritten(s.mem, RemoveObj, [obj]) == Moved(s.mem, obj, 0)
    ensures var m := Moved(s.mem, obj, 0).value;
      && ObjectValue(m, GetParent, [obj]) == Ok(0)
      && Relation(m, obj, RelationSibling) == Ok(0)
  {
    var m := Moved(s.mem, obj, 0).value;
    MovedParentAndChild(s.mem, obj, 0);
    ParentReads(s, obj, 0, m);
    MoveWrites(s.mem, obj, 0);
  }

  /** insert_obj and remove_obj write what Moved gives. */
  lemma MoveWrites(mem: seq<byte>, obj: int, dest: int)
    ensures ObjectWritten(mem, InsertObj, [obj, dest]) == Moved(mem, obj, dest)
    ensures ObjectWritten(mem, RemoveObj, [obj]) == Moved(mem, obj, 0)
  {
  }

  /** get_parent and jin read the parent link. */
  lemma ParentReads(s: State, obj: int, parent: int, m: seq<byte>)
    requires Relation(m, obj, RelationParent) == Ok(parent)
    ensures ObjectValue(m, GetParent, [obj]) == Ok(parent)
    ensures StateTest(s.(mem := m), Jin, [obj, parent]) == Ok(true)
  {
  }

  /** MovedLinks, cut down to the links the laws above read. */
  lemma MovedParentAndChild(mem: seq<byte>, obj: int, dest: int)
    requires AllLinksInMemory(mem) && Moved(mem, obj, dest).Ok?
    ensures Relation(Moved(mem, obj, dest).value, obj, RelationParent) == Ok(dest)
    ensures dest != 0 ==> Relation(Moved(mem, obj, dest).value, dest, RelationChild) == Ok(obj)
    ensures dest == 0 ==> Relation(Moved(mem, obj, dest).value, obj, RelationSibling) == Ok(0)
  {
    MovedLinks(mem, obj, dest);
  }
}
