// The object table (section 12 of the Z-Machine Standards Document 1.1;
// object.js:1-108 and the copy in run.js): after the property defaults
// table come fixed-size object entries holding the attribute flags, the
// parent, sibling and child links (bytes up to version 3, words later) and
// the address of the object's property table.

module Objects {
  import opened Base
  import opened Rw16
  import opened Header
  import opened Bitwise
  import opened MachineState

  const RelationParent := 0
  const RelationSibling := 1
  const RelationChild := 2

  function MaxObjectId(version: int): int
  {
    if version <= 3 then 255 else 65535
  }

  function MaxPropertyId(version: int): int
  {
    if version <= 3 then 32 else 64
  }

  function MaxAttributeId(version: int): int
  {
    if version <= 3 then 32 else 48
  }

  /** The largest value a link holds: a byte up to version 3, a word later. */
  function LinkLimit(version: int): int
  {
    if version <= 3 then 0x100 else 0x10000
  }

  /** getDefaultPropertyData (object.js:9-20): the word for property `id` in the defaults table. */
  function DefaultPropertyData(mem: seq<byte>, propertyId: int): (r: Result<int>)
    ensures r.Err? <==> !(1 <= propertyId <= MaxPropertyId(Version(mem)))
    ensures r.Err? ==> r.fault == InvalidDefaultProperty(propertyId)
    ensures r.Ok? ==> 0 <= r.value < 0x10000
  {
    if propertyId > MaxPropertyId(Version(mem)) || propertyId < 1 then Err(InvalidDefaultProperty(propertyId))
    else Ok(Read16(mem, ObjectTableAddress(mem) + 2 * (propertyId - 1)))
  }

  /**
   * getObjectBase (object.js:22-34): entries of 9 bytes (versions 1-3) or
   * 14 bytes follow the 31 or 63 default words.
   */
  function ObjectBase(mem: seq<byte>, id: int): (r: Result<int>)
    ensures r.Ok? <==> 1 <= id <= MaxObjectId(Version(mem))
    ensures r.Err? ==> r.fault == InvalidObject(id)
  {
    if id > MaxObjectId(Version(mem)) || id < 1 then Err(InvalidObject(id))
    else if Version(mem) <= 3 then Ok(ObjectTableAddress(mem) + 2 * (32 - 1) + 9 * (id - 1))
    else Ok(ObjectTableAddress(mem) + 2 * (64 - 1) + 14 * (id - 1))
  }

  /**
   * Object entries lie after the defaults table, and the entries of two
   * different objects do not overlap.
   */
  lemma ObjectEntriesDisjoint(mem: seq<byte>, a: int, b: int)
    requires ObjectBase(mem, a).Ok? && ObjectBase(mem, b).Ok? && a < b
    ensures ObjectBase(mem, a).value >= ObjectTableAddress(mem) + 2 * (MaxPropertyId(Version(mem)) - 1)
    ensures ObjectBase(mem, a).value + (if Version(mem) <= 3 then 9 else 14) <= ObjectBase(mem, b).value
  {
  }

  /** getAttributeBase (object.js:36-48): the byte holding attribute `attribute` and the bit within it. */
  function AttributeLocation(mem: seq<byte>, obj: int, attribute: int): (r: Result<(int, nat)>)
    ensures r.Ok? <==> ObjectBase(mem, obj).Ok? && 0 <= attribute < MaxAttributeId(Version(mem))
    ensures ObjectBase(mem, obj).Err? ==> r == Err(InvalidObject(obj))
    ensures ObjectBase(mem, obj).Ok? && r.Err? ==> r.fault == InvalidAttribute(attribute)
    ensures r.Ok? ==> r.value.1 < 8
  {
    var base :- ObjectBase(mem, obj);
    if attribute >= MaxAttributeId(Version(mem)) || attribute < 0 then Err(InvalidAttribute(attribute))
    else Ok((base + attribute / 8, 7 - attribute % 8))
  }

  /** getObjectAttribute (object.js:50-53): `!!(memory[address] & (1 << bit))`. */
  function Attribute(mem: seq<byte>, obj: int, attribute: int): Result<bool>
  {
    var (address, bit) :- AttributeLocation(mem, obj, attribute);
    Ok(And(ByteAt(mem, address), Pow2(bit), 8) != 0)
  }

  /** The memory setObjectAttribute (object.js:55-62) leaves: `|= (1 << bit)` or `&= ~(1 << bit)`. */
  function AttributeSet(mem: seq<byte>, obj: int, attribute: int, value: bool): Result<seq<byte>>
  {
    var (address, bit) :- AttributeLocation(mem, obj, attribute);
    if value then Ok(Poked(mem, address, Or(ByteAt(mem, address), Pow2(bit), 8)))
    else Ok(Poked(mem, address, AndNot(ByteAt(mem, address), Pow2(bit), 8)))
  }

  /**
   * Setting or clearing an attribute and reading it back gives the value
   * set; only the one bit of the one byte changes.
   */
  lemma AttributeSetThenGet(mem: seq<byte>, obj: int, attribute: int, value: bool)
    requires AttributeLocation(mem, obj, attribute).Ok?
    requires 0 <= AttributeLocation(mem, obj, attribute).value.0 < |mem|
    ensures AttributeSet(mem, obj, attribute, value).Ok?
    ensures var m := AttributeSet(mem, obj, attribute, value).value;
      var (address, bit) := AttributeLocation(mem, obj, attribute).value;
      && Attribute(m, obj, attribute) == Ok(value)
      && (forall i | 0 <= i < |mem| && i != address :: m[i] == mem[i])
      && (forall k: nat | k < 8 && k != bit :: Bit(m[address], k) == Bit(mem[address], k))
  {
    var (address, bit) := AttributeLocation(mem, obj, attribute).value;
    var m := AttributeSet(mem, obj, attribute, value).value;
    assert ObjectBase(m, obj) == ObjectBase(mem, obj);
    assert AttributeLocation(m, obj, attribute) == AttributeLocation(mem, obj, attribute);
    AndPow2NonZero(m[address], bit, 8);
    Pow2Bit(bit, bit);
    if value {
      OrBit(mem[address], Pow2(bit), 8, bit);
    } else {
      AndNotBit(mem[address], Pow2(bit), 8, bit);
    }
    forall k: nat | k < 8 && k != bit
      ensures Bit(m[address], k) == Bit(mem[address], k)
    {
      Pow2Bit(bit, k);
      if value {
        OrBit(mem[address], Pow2(bit), 8, k);
      } else {
        AndNotBit(mem[address], Pow2(bit), 8, k);
      }
    }
  }

  /** The address of a link: byte 4 + r (versions 1-3) or word at 6 + 2r of the entry. */
  function RelationAddress(version: int, base: int, relation: int): int
  {
    if version <= 3 then base + 4 + relation else base + 6 + 2 * relation
  }

  /** getObjectRelation (object.js:64-70). */
  function Relation(mem: seq<byte>, obj: int, relation: int): (r: Result<int>)
    ensures r.Ok? <==> ObjectBase(mem, obj).Ok?
    ensures r.Err? ==> r.fault == InvalidObject(obj)
    ensures r.Ok? ==> 0 <= r.value < LinkLimit(Version(mem))
  {
    var base :- ObjectBase(mem, obj);
    var address := RelationAddress(Version(mem), base, relation);
    if Version(mem) <= 3 then Ok(ByteAt(mem, address)) else Ok(Read16(mem, address))
  }

  /** The memory setObjectRelation (object.js:72-80) leaves. */
  function RelationSet(mem: seq<byte>, obj: int, relation: int, value: int): (r: Result<seq<byte>>)
    ensures r.Ok? <==> ObjectBase(mem, obj).Ok?
    ensures r.Err? ==> r.fault == InvalidObject(obj)
    ensures r.Ok? ==> |r.value| == |mem|
    ensures r.Ok? && 0 <= relation <= 2 ==> Version(r.value) == Version(mem)
    ensures r.Ok? && 0 <= relation <= 2 ==> forall id :: ObjectBase(r.value, id) == ObjectBase(mem, id)
  {
    var base :- ObjectBase(mem, obj);
    var address := RelationAddress(Version(mem), base, relation);
    var m := if Version(mem) <= 3 then Poked(mem, address, value) else Written16(mem, address, value);
    if 0 <= relation <= 2 then
      HeaderUnchanged(mem, m);
      Ok(m)
    else Ok(m)
  }

  /** An object whose links all lie inside memory. */
  predicate LinksInMemory(mem: seq<byte>, obj: int)
  {
    ObjectBase(mem, obj).Ok? && RelationAddress(Version(mem), ObjectBase(mem, obj).value, RelationChild) + 1 < |mem|
  }

  /** A write at or above address 0x0E leaves the version and the object table address alone. */
  lemma HeaderUnchanged(mem: seq<byte>, m: seq<byte>)
    requires |m| == |mem| && forall i | 0 <= i < 0x0E && i < |mem| :: m[i] == mem[i]
    ensures Version(m) == Version(mem) && ObjectTableAddress(m) == ObjectTableAddress(mem)
    ensures forall id :: ObjectBase(m, id) == ObjectBase(mem, id)
  {
  }

  /**
   * A link reads back as stored (truncated to a byte or a word), and every
   * other link of every object keeps its value.
   */
  lemma RelationSetThenGet(mem: seq<byte>, obj: int, relation: int, value: int, other: int, otherRelation: int)
    requires 0 <= relation <= 2 && 0 <= otherRelation <= 2
    requires LinksInMemory(mem, obj) && ObjectBase(mem, other).Ok?
    ensures RelationSet(mem, obj, relation, value).Ok?
    ensures Relation(RelationSet(mem, obj, relation, value).value, obj, relation) == Ok(value % LinkLimit(Version(mem)))
    ensures other != obj || otherRelation != relation ==>
      Relation(RelationSet(mem, obj, relation, value).value, other, otherRelation) == Relation(mem, other, otherRelation)
  {
    var m := RelationSet(mem, obj, relation, value).value;
    var address := RelationAddress(Version(mem), ObjectBase(mem, obj).value, relation);
    HeaderUnchanged(mem, m);
    if Version(mem) > 3 {
      Read16OfWritten16(mem, address, value);
      var otherAddress := RelationAddress(Version(mem), ObjectBase(mem, other).value, otherRelation);
      if other != obj || otherRelation != relation {
        Read16OfWritten16Elsewhere(mem, address, otherAddress, value);
      }
    }
  }

  /** getObjectRelation (object.js:64-70) from the Machine. */
  method GetObjectRelation(state: Machine, obj: int, relation: int) returns (r: Result<int>)
    ensures r == Relation(state.memory[..], obj, relation)
  {
    var base :- ObjectBase(state.memory[..], obj);
    if Version(state.memory[..]) <= 3 {
      r := Ok(ByteAt(state.memory[..], base + 4 + relation));
    } else {
      r := Ok(Read16(state.memory[..], base + 6 + 2 * relation));
    }
  }

  /** setObjectRelation (object.js:72-80), in place. */
  method SetObjectRelation(state: Machine, obj: int, relation: int, value: int) returns (r: Result<()>)
    modifies state.memory
    ensures var spec := RelationSet(old(state.memory[..]), obj, relation, value);
      && (spec.Err? ==> r == Err(spec.fault) && state.memory[..] == old(state.memory[..]))
      && (spec.Ok? ==> r == Ok(()) && state.memory[..] == spec.value)
  {
    var base :- ObjectBase(state.memory[..], obj);
    if Version(state.memory[..]) <= 3 {
      SetByte(state.memory, base + 4 + relation, value);
    } else {
      Write16(state.memory, base + 6 + 2 * relation, value);
    }
    r := Ok(());
  }

  /** setObjectAttribute (object.js:55-62), in place. */
  method SetObjectAttribute(state: Machine, obj: int, attribute: int, value: bool) returns (r: Result<()>)
    modifies state.memory
    ensures var spec := AttributeSet(old(state.memory[..]), obj, attribute, value);
      && (spec.Err? ==> r == Err(spec.fault) && state.memory[..] == old(state.memory[..]))
      && (spec.Ok? ==> r == Ok(()) && state.memory[..] == spec.value)
  {
    var location :- AttributeLocation(state.memory[..], obj, attribute);
    var (address, bit) := location;
    var current := ByteAt(state.memory[..], address);
    if value {
      SetByte(state.memory, address, Or(current, Pow2(bit), 8));
    } else {
      SetByte(state.memory, address, AndNot(current, Pow2(bit), 8));
    }
    r := Ok(());
  }

  /**
   * The walk of moveObject's loop (object.js:90-94): from `node`, whose
   * sibling is `nodeSibling`, along sibling links to the object whose sibling
   * is `obj`. The source loops for ever on a cycle that misses `obj`; a walk
   * that has read more links than there are object ids has met such a cycle,
   * and `fuel` counts the reads left before that point.
   */
  function SiblingBefore(mem: seq<byte>, node: int, nodeSibling: int, obj: int, fuel: nat): (r: Result<int>)
    ensures r.Ok? && Relation(mem, node, RelationSibling) == Ok(nodeSibling) ==>
      Relation(mem, r.value, RelationSibling) == Ok(obj)
    decreases fuel
  {
    if nodeSibling == obj then Ok(node)
    else if fuel == 0 then Err(Diverges)
    else
      var next :- Relation(mem, nodeSibling, RelationSibling);
      SiblingBefore(mem, nodeSibling, next, obj, fuel - 1)
  }

  /** The links the walk may read before it must have gone round a cycle. */
  function WalkFuel(mem: seq<byte>): nat
  {
    MaxObjectId(Version(mem))
  }

  /**
   * The link that points at `obj` in the list of `parent`'s children
   * (object.js:86-94): the parent's child link when `obj` comes first, else
   * the sibling link of the object before it.
   */
  function LinkTo(mem: seq<byte>, obj: int, parent: int): (r: Result<(int, int)>)
    ensures r.Ok? ==> Relation(mem, r.value.0, r.value.1) == Ok(obj)
    ensures r.Ok? ==> r.value.1 == RelationSibling || (r.value.1 == RelationChild && r.value.0 == parent)
  {
    var node :- Relation(mem, parent, RelationChild);
    if node == obj then Ok((parent, RelationChild))
    else
      var nodeSibling :- Relation(mem, node, RelationSibling);
      var before :- SiblingBefore(mem, node, nodeSibling, obj, WalkFuel(mem));
      Ok((before, RelationSibling))
  }

  /** The first half of moveObject (object.js:83-97): `obj` taken out of its parent's list of children. */
  function Detached(mem: seq<byte>, obj: int): Result<seq<byte>>
  {
    var parent :- Relation(mem, obj, RelationParent);
    if parent == 0 then Ok(mem)
    else
      var sibling := Relation(mem, obj, RelationSibling).value;
      var (holder, relation) :- LinkTo(mem, obj, parent);
      RelationSet(mem, holder, relation, sibling)
  }

  /** The second half (object.js:99-107): `obj` becomes the first child of `dest`, or an orphan. */
  function Attached(mem: seq<byte>, obj: int, dest: int): Result<seq<byte>>
  {
    if dest != 0 then
      var destChild :- Relation(mem, dest, RelationChild);
      var m :- RelationSet(mem, obj, RelationSibling, destChild);
      var m' :- RelationSet(m, dest, RelationChild, obj);
      RelationSet(m', obj, RelationParent, dest)
    else
      var m :- RelationSet(mem, obj, RelationSibling, 0);
      RelationSet(m, obj, RelationParent, dest)
  }

  /** moveObject (object.js:82-108) as a value: the memory it leaves, or the fault it throws. */
  function Moved(mem: seq<byte>, obj: int, dest: int): Result<seq<byte>>
  {
    var m :- Detached(mem, obj);
    Attached(m, obj, dest)
  }

  /** Every object's links lie inside memory. */
  predicate AllLinksInMemory(mem: seq<byte>)
  {
    forall id | 1 <= id <= MaxObjectId(Version(mem)) :: LinksInMemory(mem, id)
  }

  /** A write of the object table keeps every object's links inside memory. */
  lemma RelationSetKeepsLinksInMemory(mem: seq<byte>, obj: int, relation: int, value: int)
    requires RelationSet(mem, obj, relation, value).Ok? && 0 <= relation <= 2 && AllLinksInMemory(mem)
    ensures AllLinksInMemory(RelationSet(mem, obj, relation, value).value)
  {
    var m := RelationSet(mem, obj, relation, value).value;
    forall id | 1 <= id <= MaxObjectId(Version(m))
      ensures LinksInMemory(m, id)
    {
      assert LinksInMemory(mem, id);
    }
  }

  /**
   * Taking `obj` out of its parent's list redirects the one link that
   * pointed at it to `obj`'s own sibling.
   */
  lemma DetachedBypasses(mem: seq<byte>, obj: int)
    requires Detached(mem, obj).Ok? && AllLinksInMemory(mem)
    requires Relation(mem, obj, RelationParent).Ok? && Relation(mem, obj, RelationParent).value != 0
    ensures LinkTo(mem, obj, Relation(mem, obj, RelationParent).value).Ok?
    ensures var (holder, relation) := LinkTo(mem, obj, Relation(mem, obj, RelationParent).value).value;
      Relation(Detached(mem, obj).value, holder, relation) == Relation(mem, obj, RelationSibling)
  {
    var parent := Relation(mem, obj, RelationParent).value;
    var sibling := Relation(mem, obj, RelationSibling).value;
    var link := LinkTo(mem, obj, parent).value;
    assert Detached(mem, obj) == RelationSet(mem, link.0, link.1, sibling);
    StepLinks(mem, link.0, link.1, sibling, link.0, link.1);
  }

  /** Detaching keeps the version and every object's links inside memory. */
  lemma DetachedKeepsLinks(mem: seq<byte>, obj: int)
    requires Detached(mem, obj).Ok? && AllLinksInMemory(mem)
    ensures AllLinksInMemory(Detached(mem, obj).value) && Version(Detached(mem, obj).value) == Version(mem)
    ensures forall id :: ObjectBase(Detached(mem, obj).value, id) == ObjectBase(mem, id)
  {
    var parent := Relation(mem, obj, RelationParent).value;
    if parent != 0 {
      var sibling := Relation(mem, obj, RelationSibling).value;
      var (holder, relation) := LinkTo(mem, obj, parent).value;
      RelationSetKeepsLinksInMemory(mem, holder, relation, sibling);
    }
  }

  /**
   * Attaching to an object makes `obj` its first child, with `dest` as
   * parent and the old first child as sibling.
   */
  lemma AttachedToObject(mem: seq<byte>, obj: int, dest: int)
    requires Attached(mem, obj, dest).Ok? && AllLinksInMemory(mem) && dest != 0
    ensures var m := Attached(mem, obj, dest).value;
      && Relation(m, obj, RelationParent) == Ok(dest)
      && Relation(m, dest, RelationChild) == Ok(obj)
      && Relation(m, obj, RelationSibling) == Relation(mem, dest, RelationChild)
  {
    var destChild := Relation(mem, dest, RelationChild).value;
    var m2 := RelationSet(mem, obj, RelationSibling, destChild).value;
    var m3 := RelationSet(m2, dest, RelationChild, obj).value;
    assert Attached(mem, obj, dest) == RelationSet(m3, obj, RelationParent, dest);
    StepLinks(mem, obj, RelationSibling, destChild, obj, RelationSibling);
    RelationSetKeepsLinksInMemory(mem, obj, RelationSibling, destChild);
    StepLinks(m2, dest, RelationChild, obj, obj, RelationSibling);
    RelationSetKeepsLinksInMemory(m2, dest, RelationChild, obj);
    StepLinks(m3, obj, RelationParent, dest, obj, RelationSibling);
    StepLinks(m3, obj, RelationParent, dest, dest, RelationChild);
  }

  /** Attaching to 0 leaves `obj` an orphan with no sibling. */
  lemma AttachedToNothing(mem: seq<byte>, obj: int)
    requires Attached(mem, obj, 0).Ok? && AllLinksInMemory(mem)
    ensures var m := Attached(mem, obj, 0).value;
      Relation(m, obj, RelationParent) == Ok(0) && Relation(m, obj, RelationSibling) == Ok(0)
  {
    var m2 := RelationSet(mem, obj, RelationSibling, 0).value;
    assert Attached(mem, obj, 0) == RelationSet(m2, obj, RelationParent, 0);
    StepLinks(mem, obj, RelationSibling, 0, obj, RelationSibling);
    RelationSetKeepsLinksInMemory(mem, obj, RelationSibling, 0);
    StepLinks(m2, obj, RelationParent, 0, obj, RelationSibling);
  }

  /** RelationSetThenGet for two valid objects of a memory whose links all lie inside it. */
  lemma StepLinks(mem: seq<byte>, obj: int, relation: int, value: int, other: int, otherRelation: int)
    requires 0 <= relation <= 2 && 0 <= otherRelation <= 2 && AllLinksInMemory(mem)
    requires ObjectBase(mem, obj).Ok? && ObjectBase(mem, other).Ok?
    requires 0 <= value < LinkLimit(Version(mem))
    ensures RelationSet(mem, obj, relation, value).Ok?
    ensures Relation(RelationSet(mem, obj, relation, value).value, obj, relation) == Ok(value)
    ensures other != obj || otherRelation != relation ==>
      Relation(RelationSet(mem, obj, relation, value).value, other, otherRelation) == Relation(mem, other, otherRelation)
  {
    assert LinksInMemory(mem, obj);
    RelationSetThenGet(mem, obj, relation, value, other, otherRelation);
  }

  /**
   * moveObject as a whole: `obj` ends up under `dest` as its first child,
   * ahead of the children `dest` had once `obj` was taken out of its old
   * list; moving to 0 leaves `obj` without parent or sibling.
   */
  lemma MovedLinks(mem: seq<byte>, obj: int, dest: int)
    requires Moved(mem, obj, dest).Ok? && AllLinksInMemory(mem)
    ensures var m := Moved(mem, obj, dest).value;
      && Relation(m, obj, RelationParent) == Ok(dest)
      && (dest != 0 ==> Relation(m, dest, RelationChild) == Ok(obj))
      && (dest != 0 ==> Relation(m, obj, RelationSibling) == Relation(Detached(mem, obj).value, dest, RelationChild))
      && (dest == 0 ==> Relation(m, obj, RelationSibling) == Ok(0))
  {
    DetachedKeepsLinks(mem, obj);
    if dest != 0 {
      AttachedToObject(Detached(mem, obj).value, obj, dest);
    } else {
      AttachedToNothing(Detached(mem, obj).value, obj);
    }
  }

  /** The first half of moveObject (object.js:83-97), in place, with the sibling walk as a loop. */
  method DetachObject(state: Machine, obj: int) returns (r: Result<()>)
    modifies state.memory
    ensures var spec := Detached(old(state.memory[..]), obj);
      && (spec.Err? ==> r == Err(spec.fault))
      && (spec.Ok? ==> r == Ok(()) && state.memory[..] == spec.value)
  {
    ghost var mem := state.memory[..];
    var parent :- GetObjectRelation(state, obj, RelationParent);
    if parent != 0 {
      var sibling := GetObjectRelation(state, obj, RelationSibling);
      var node :- GetObjectRelation(state, parent, RelationChild);
      if node == obj {
        var _ := SetObjectRelation(state, parent, RelationChild, sibling.value);
      } else {
        var nodeSibling :- GetObjectRelation(state, node, RelationSibling);
        var fuel: nat := MaxObjectId(Version(state.memory[..]));
        ghost var first := node;
        while nodeSibling != obj
          invariant state.memory[..] == mem
          invariant Relation(mem, node, RelationSibling) == Ok(nodeSibling)
          invariant SiblingBefore(mem, node, nodeSibling, obj, fuel)
            == SiblingBefore(mem, first, Relation(mem, first, RelationSibling).value, obj, WalkFuel(mem))
          decreases fuel
        {
          if fuel == 0 {
            return Err(Diverges);
          }
          node := nodeSibling;
          nodeSibling :- GetObjectRelation(state, node, RelationSibling);
          fuel := fuel - 1;
        }
        var _ := SetObjectRelation(state, node, RelationSibling, sibling.value);
      }
    }
    r := Ok(());
  }

  /** moveObject (object.js:82-108), in place. */
  method MoveObject(state: Machine, obj: int, dest: int) returns (r: Result<()>)
    modifies state.memory
    ensures var spec := Moved(old(state.memory[..]), obj, dest);
      && (spec.Err? ==> r == Err(spec.fault))
      && (spec.Ok? ==> r == Ok(()) && state.memory[..] == spec.value)
  {
    ghost var mem := state.memory[..];
    var _ :- DetachObject(state, obj);
    if dest != 0 {
      var destChild :- GetObjectRelation(state, dest, RelationChild);
      var _ := SetObjectRelation(state, obj, RelationSibling, destChild);
      var _ := SetObjectRelation(state, dest, RelationChild, obj);
    } else {
      var _ := SetObjectRelation(state, obj, RelationSibling, 0);
    }
    var _ := SetObjectRelation(state, obj, RelationParent, dest);
    r := Ok(());
  }
}
