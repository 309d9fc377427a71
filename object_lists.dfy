// The lists of children that moveObject (object.js:82-108) edits: an
// object's child link names its first child, each child's sibling link names
// the next one, and the last child's sibling link is 0 (section 12.3 of the
// Z-Machine Standards Document 1.1).

module ObjectLists {
  import opened Base
  import opened Header
  import opened Objects

  /** The first object of a list, or 0 for an empty one. */
  function Head(xs: seq<int>): int
  {
    if |xs| == 0 then 0 else xs[0]
  }

  /** The object after `xs[i]`: the next one, or 0 after the last. */
  function NextIn(xs: seq<int>, i: int): int
    requires 0 <= i < |xs|
  {
    if i + 1 < |xs| then xs[i + 1] else 0
  }

  /** Each object's sibling link names the object after it in `xs`, so the walk along them ends. */
  predicate Linked(mem: seq<byte>, xs: seq<int>)
  {
    forall i | 0 <= i < |xs| :: Relation(mem, xs[i], RelationSibling) == Ok(NextIn(xs, i))
  }

  /** `xs` is the list of `parent`'s children. */
  predicate ChildListOf(mem: seq<byte>, parent: int, xs: seq<int>)
  {
    Relation(mem, parent, RelationChild) == Ok(Head(xs)) && Linked(mem, xs)
  }

  predicate Distinct(xs: seq<int>)
  {
    forall i, j | 0 <= i < j < |xs| :: xs[i] != xs[j]
  }

  /** `xs` with its element at `k` taken out. */
  function Without(xs: seq<int>, k: int): (r: seq<int>)
    requires 0 <= k < |xs|
    ensures |r| == |xs| - 1
    ensures forall i | 0 <= i < |r| :: r[i] == if i < k then xs[i] else xs[i + 1]
  {
    xs[..k] + xs[k + 1..]
  }

  /**
   * The sibling walk of moveObject, started on a list whose links end, stays
   * on the list: it stops at the object `xs[j]` whose successor is `obj`.
   */
  lemma {:induction false} WalkStaysOnList(mem: seq<byte>, xs: seq<int>, i: int, obj: int, fuel: nat) returns (j: int)
    requires Linked(mem, xs) && 0 <= i < |xs|
    requires SiblingBefore(mem, xs[i], NextIn(xs, i), obj, fuel).Ok?
    ensures i <= j < |xs| && xs[j] == SiblingBefore(mem, xs[i], NextIn(xs, i), obj, fuel).value
    ensures NextIn(xs, j) == obj
    decreases fuel
  {
    if NextIn(xs, i) == obj {
      j := i;
    } else {
      WalkStep(mem, xs[i], NextIn(xs, i), obj, fuel);
      if i + 1 == |xs| {
        assert false;
      }
      assert Relation(mem, xs[i + 1], RelationSibling) == Ok(NextIn(xs, i + 1));
      j := WalkStaysOnList(mem, xs, i + 1, obj, fuel - 1);
    }
  }

  /** One link of the sibling walk: a walk that has not arrived reads the next sibling link and goes on. */
  lemma WalkStep(mem: seq<byte>, node: int, nodeSibling: int, obj: int, fuel: nat)
    requires SiblingBefore(mem, node, nodeSibling, obj, fuel).Ok? && nodeSibling != obj
    ensures fuel > 0 && Relation(mem, nodeSibling, RelationSibling).Ok?
    ensures SiblingBefore(mem, node, nodeSibling, obj, fuel)
      == SiblingBefore(mem, nodeSibling, Relation(mem, nodeSibling, RelationSibling).value, obj, fuel - 1)
  {
  }

  /**
   * Detaching `obj` from its parent's list of children, when that list ends
   * and holds each object once, takes out exactly `obj`: the parent's list
   * afterwards is the old list without it.
   */
  lemma DetachedUnlinks(mem: seq<byte>, obj: int, parent: int, xs: seq<int>, k: int)
    requires Detached(mem, obj).Ok? && AllLinksInMemory(mem)
    requires Relation(mem, obj, RelationParent) == Ok(parent) && parent != 0
    requires ChildListOf(mem, parent, xs) && Distinct(xs) && 0 <= k < |xs| && xs[k] == obj
    ensures ChildListOf(Detached(mem, obj).value, parent, Without(xs, k))
    ensures obj !in Without(xs, k)
  {
    DetachedLink(mem, obj, parent, xs, k);
    LinkedWithout(mem, parent, xs, k);
  }

  /** The link that points at `xs[k]`: the parent's child link for the first child, else the sibling link before it. */
  function HolderOf(parent: int, xs: seq<int>, k: int): (int, int)
    requires 0 <= k < |xs|
  {
    if k == 0 then (parent, RelationChild) else (xs[k - 1], RelationSibling)
  }

  /** The detach rewrites the link that points at `obj` to `obj`'s successor. */
  lemma DetachedLink(mem: seq<byte>, obj: int, parent: int, xs: seq<int>, k: int)
    requires Detached(mem, obj).Ok?
    requires Relation(mem, obj, RelationParent) == Ok(parent) && parent != 0
    requires ChildListOf(mem, parent, xs) && Distinct(xs) && 0 <= k < |xs| && xs[k] == obj
    ensures Detached(mem, obj) == RelationSet(mem, HolderOf(parent, xs, k).0, HolderOf(parent, xs, k).1, NextIn(xs, k))
  {
    var sibling := Relation(mem, obj, RelationSibling).value;
    assert sibling == NextIn(xs, k);
    var link := LinkTo(mem, obj, parent).value;
    assert Detached(mem, obj) == RelationSet(mem, link.0, link.1, sibling);
    if k > 0 {
      assert xs[0] != obj;
      var j := WalkStaysOnList(mem, xs, 0, obj, WalkFuel(mem));
      assert j + 1 == k;
    }
  }

  /** Rewriting the link that points at `xs[k]` to its successor leaves `xs` without it as the parent's list. */
  lemma LinkedWithout(mem: seq<byte>, parent: int, xs: seq<int>, k: int)
    requires AllLinksInMemory(mem) && ChildListOf(mem, parent, xs) && Distinct(xs) && 0 <= k < |xs|
    ensures var (holder, relation) := HolderOf(parent, xs, k);
      && RelationSet(mem, holder, relation, NextIn(xs, k)).Ok?
      && ChildListOf(RelationSet(mem, holder, relation, NextIn(xs, k)).value, parent, Without(xs, k))
    ensures xs[k] !in Without(xs, k)
  {
    var (holder, relation) := HolderOf(parent, xs, k);
    var value := NextIn(xs, k);
    RewriteValid(mem, parent, xs, k);
    StepLinks(mem, holder, relation, value, parent, RelationChild);
    var m := RelationSet(mem, holder, relation, value).value;
    var ys := Without(xs, k);
    forall i | 0 <= i < |ys|
      ensures Relation(m, ys[i], RelationSibling) == Ok(NextIn(ys, i))
    {
      SiblingAfterRewrite(mem, parent, xs, k, i);
    }
  }

  /** The holder of the link to `xs[k]` is an object, and `xs[k]`'s successor fits in a link. */
  lemma RewriteValid(mem: seq<byte>, parent: int, xs: seq<int>, k: int)
    requires ChildListOf(mem, parent, xs) && 0 <= k < |xs|
    ensures ObjectBase(mem, HolderOf(parent, xs, k).0).Ok?
    ensures 0 <= NextIn(xs, k) < LinkLimit(Version(mem))
  {
    assert Relation(mem, xs[k], RelationSibling) == Ok(NextIn(xs, k));
    if k > 0 {
      assert Relation(mem, xs[k - 1], RelationSibling).Ok?;
    }
  }

  /** One sibling link of the shortened list, after the rewrite. */
  lemma SiblingAfterRewrite(mem: seq<byte>, parent: int, xs: seq<int>, k: int, i: int)
    requires AllLinksInMemory(mem) && ChildListOf(mem, parent, xs) && Distinct(xs) && 0 <= k < |xs|
    requires 0 <= i < |xs| - 1
    ensures var (holder, relation) := HolderOf(parent, xs, k);
      && RelationSet(mem, holder, relation, NextIn(xs, k)).Ok?
      && Relation(RelationSet(mem, holder, relation, NextIn(xs, k)).value, Without(xs, k)[i], RelationSibling)
        == Ok(NextIn(Without(xs, k), i))
  {
    var (holder, relation) := HolderOf(parent, xs, k);
    var ys := Without(xs, k);
    var x := if i < k then i else i + 1;
    assert ys[i] == xs[x];
    assert Relation(mem, xs[x], RelationSibling) == Ok(NextIn(xs, x));
    RewriteValid(mem, parent, xs, k);
    StepLinks(mem, holder, relation, NextIn(xs, k), xs[x], RelationSibling);
    if x == k - 1 {
      assert NextIn(ys, i) == NextIn(xs, k);
    } else {
      assert xs[x] != holder || relation != RelationSibling;
      assert NextIn(ys, i) == NextIn(xs, x);
    }
  }

  /** The attach half of moveObject leaves the sibling link of every object but `obj` alone. */
  lemma AttachedKeepsSiblings(mem: seq<byte>, obj: int, dest: int, other: int)
    requires Attached(mem, obj, dest).Ok? && AllLinksInMemory(mem) && dest != 0
    requires other != obj && Relation(mem, other, RelationSibling).Ok?
    ensures Relation(Attached(mem, obj, dest).value, other, RelationSibling) == Relation(mem, other, RelationSibling)
  {
    var destChild := Relation(mem, dest, RelationChild).value;
    var m2 := RelationSet(mem, obj, RelationSibling, destChild).value;
    var m3 := RelationSet(m2, dest, RelationChild, obj).value;
    assert Attached(mem, obj, dest) == RelationSet(m3, obj, RelationParent, dest);
    StepLinks(mem, obj, RelationSibling, destChild, other, RelationSibling);
    RelationSetKeepsLinksInMemory(mem, obj, RelationSibling, destChild);
    StepLinks(m2, dest, RelationChild, obj, other, RelationSibling);
    RelationSetKeepsLinksInMemory(m2, dest, RelationChild, obj);
    StepLinks(m3, obj, RelationParent, dest, other, RelationSibling);
  }

  /**
   * moveObject to an object puts `obj` at the head of `dest`'s list of
   * children, ahead of the list `dest` had once `obj` was detached; a list
   * that held each object once and not `obj` still holds each object once.
   */
  lemma MovedPrepends(mem: seq<byte>, obj: int, dest: int, ys: seq<int>)
    requires Moved(mem, obj, dest).Ok? && AllLinksInMemory(mem) && dest != 0
    requires ChildListOf(Detached(mem, obj).value, dest, ys) && obj !in ys
    ensures ChildListOf(Moved(mem, obj, dest).value, dest, [obj] + ys)
    ensures Distinct(ys) ==> Distinct([obj] + ys)
  {
    var m1 := Detached(mem, obj).value;
    DetachedKeepsLinks(mem, obj);
    MovedLinks(mem, obj, dest);
    assert Moved(mem, obj, dest) == Attached(m1, obj, dest);
    var m := Moved(mem, obj, dest).value;
    var zs := [obj] + ys;
    assert Relation(m, zs[0], RelationSibling) == Ok(NextIn(zs, 0));
    forall i | 0 <= i < |ys|
      ensures Relation(m, ys[i], RelationSibling) == Ok(NextIn(ys, i))
    {
      SiblingAfterAttach(m1, obj, dest, ys, i);
    }
    assert Linked(m, zs) by {
      forall i | 0 <= i < |zs|
        ensures Relation(m, zs[i], RelationSibling) == Ok(NextIn(zs, i))
      {
        if i > 0 {
          assert zs[i] == ys[i - 1] && NextIn(zs, i) == NextIn(ys, i - 1);
        }
      }
    }
  }

  /** One sibling link of the list `dest` had, after `obj` is attached in front of it. */
  lemma SiblingAfterAttach(m1: seq<byte>, obj: int, dest: int, ys: seq<int>, i: int)
    requires Attached(m1, obj, dest).Ok? && AllLinksInMemory(m1) && dest != 0
    requires Linked(m1, ys) && obj !in ys && 0 <= i < |ys|
    ensures Relation(Attached(m1, obj, dest).value, ys[i], RelationSibling) == Ok(NextIn(ys, i))
  {
    assert Relation(m1, ys[i], RelationSibling) == Ok(NextIn(ys, i));
    AttachedKeepsSiblings(m1, obj, dest, ys[i]);
  }
}
