/**
 * src/container.cpp: items that may hold items, changed in place. A null parent stands for every holder that is not
 * a container (a tile, a player, or nobody): weight propagation stops there. The ghost argument S names the items of
 * the world; Snap(S) is their forest as a value, whose theory is in ForestModel.
 */
module ContainerForest {
  import opened Options
  import opened WordArithmetic
  import opened SnapshotSums
  import opened ForestModel

  /** The columns of the item table that the forest depends on. */
  datatype ItemType = ItemType(weight: nat, stackable: bool, countIsSubType: bool, ammo: bool, quiver: bool,
                               pickupable: bool)

  /** Item::getWeight: a stack weighs what its items weigh. */
  function StackWeight(kind: ItemType, count: nat): nat {
    Wrap(kind.weight * (if kind.stackable && count > 1 then count else 1))
  }

  /** Splitting or joining stacks changes no weight, in 32 bits. */
  lemma StacksAddUp(kind: ItemType, m: nat, n: nat)
    requires kind.stackable && m > 0 && n > 0
    ensures StackWeight(kind, m + n) == Wrap(StackWeight(kind, m) + StackWeight(kind, n))
    ensures StackWeight(kind, 1) == Wrap(kind.weight)
  {
    var a, b := kind.weight * m, kind.weight * n;
    assert kind.weight * (m + n) == a + b;
    WrapOfSum(a, Wrap(b));
    WrapOfSum(b, a);
  }


  class Item {
    const isContainer: bool
    const maxSize: nat
    var kind: ItemType
    var count: nat  // uint8_t
    var parent: Item?
    var itemlist: seq<Item>
    var totalWeight: nat  // uint32_t
    var ammoCount: nat
    ghost var depth: nat  // grows strictly from a container to its content

    constructor (kind: ItemType, count: nat, isContainer: bool, maxSize: nat)
      ensures this.kind == kind && this.count == count && this.isContainer == isContainer && this.maxSize == maxSize
      ensures parent == null && itemlist == [] && totalWeight == 0 && ammoCount == 0 && depth == 0
    {
      this.kind, this.count, this.isContainer, this.maxSize := kind, count, isContainer, maxSize;
      parent, itemlist, totalWeight, ammoCount, depth := null, [], 0, 0, 0;
    }

    /** Item::getWeight */
    function OwnWeight(): nat
      reads this`kind, this`count
    {
      StackWeight(kind, count)
    }

    /** Container::getWeight, or Item::getWeight for a plain item. */
    function Weight(): nat
      reads this`kind, this`count, this`totalWeight
    {
      if isContainer then Wrap(OwnWeight() + totalWeight) else OwnWeight()
    }

    function AmmoUnits(): nat
      reads this`kind, this`count
    {
      if kind.ammo then count else 0
    }

    ghost function View(): Node<Item>
      reads this
    {
      Node(isContainer, OwnWeight(), AmmoUnits(), if parent == null then None else Some(parent as Item), itemlist,
           totalWeight, ammoCount, depth)
    }
  }

  ghost function Snap(S: set<Item>): (f: Forest<Item>)
    reads S
    ensures f.Keys == S && forall x | x in S :: f[x] == x.View()
  {
    map x | x in S :: x.View()
  }

  lemma SnapIs(S: set<Item>, f: Forest<Item>)
    requires f.Keys == S && forall y | y in S :: f[y] == y.View()
    ensures Snap(S) == f
  {
  }

  /** Container::updateItemWeight */
  method UpdateItemWeight(c: Item, diff: int, ghost S: set<Item>)
    requires Linked(Snap(S)) && c in S && c.isContainer
    modifies S`totalWeight
    ensures Snap(S) == Propagate(old(Snap(S)), c, diff)
    decreases c.depth
  {
    hide *;
    ghost var f := Snap(S);
    PropagateUnfolds(f, c, diff);
    ViewParent(c);
    if c.parent == null {
      AddWeight(c, diff, S);
    } else {
      ViewParent(c.parent);
      ViewParts(c.parent);
      AddWeight(c, diff, S);
      UpdateItemWeight(c.parent, diff, S);
    }
  }

  method AddWeight(c: Item, diff: int, ghost S: set<Item>)
    requires c in S
    modifies c`totalWeight
    ensures Snap(S) == Bump(old(Snap(S)), c, diff)
  {
    ghost var f := Snap(S);
    c.totalWeight := Wrap(c.totalWeight + diff);
    assert Bump(f, c, diff)[c] == c.View();
    SnapIs(S, Bump(f, c, diff));
  }

  lemma ViewParts(c: Item)
    ensures c.View().box == c.isContainer && c.View().list == c.itemlist
  {
  }

  lemma ViewParent(c: Item)
    ensures c.View().parent == (if c.parent == null then None else Some(c.parent as Item)) && c.View().depth == c.depth
  {
  }

  /** Container::updateAmmoCount */
  method UpdateAmmoCount(c: Item, item: Item, diff: int)
    modifies c`ammoCount
    ensures c.ammoCount == UpdatedAmmo(old(c.ammoCount), item.kind.ammo, diff)
  {
    if !item.kind.ammo || diff == 0 {
      return;
    }
    if diff > 0 {
      c.ammoCount := c.ammoCount + diff;
      return;
    }
    c.ammoCount := c.ammoCount - (if c.ammoCount < -diff then c.ammoCount else -diff);
  }

  /** Moves the tree below root to below level k; depths exist only for the proof. */
  ghost method SinkTree(root: Item, k: nat, S: set<Item>)
    requires Linked(Snap(S))
    modifies S`depth
    ensures Snap(S) == Sink(old(Snap(S)), root, k)
  {
    var f := Snap(S);
    forall x | x in S {
      x.depth := if Reaches(f, x, root) then x.depth + k else x.depth;
    }
    assert Snap(S) == Sink(f, root, k);
  }

  // ---------------------------------------------------------------- adding

  /** The common part of all additions: list, parent pointer and ammunition; back or front of the list. */
  method Link(c: Item, item: Item, back: bool, ghost S: set<Item>)
    requires c in S && item in S && c != item
    modifies c`itemlist, c`ammoCount, item`parent
    ensures c.itemlist == (if back then old(c.itemlist) + [item] else [item] + old(c.itemlist)) && item.parent == c
    ensures Snap(S) == ForestModel.Link(old(Snap(S)), c, c.itemlist, item)
  {
    ghost var f := Snap(S);
    item.parent := c;
    c.itemlist := if back then c.itemlist + [item] else [item] + c.itemlist;
    UpdateAmmoCount(c, item, item.count);
    ghost var g := ForestModel.Link(f, c, c.itemlist, item);
    assert g[c] == c.View();
    assert g[item] == item.View();
    forall y | y in S && y != c && y != item
      ensures g[y] == y.View()
    {
    }
    SnapIs(S, g);
  }

  /** The links and ammunition of an addition, with the depths below item made to fit. */
  method Enter(c: Item, item: Item, back: bool, ghost S: set<Item>)
    requires Attachable(Snap(S), c, if back then |c.itemlist| else 0, item)
    modifies S`depth, c`itemlist, c`ammoCount, item`parent
    ensures c.itemlist == (if back then old(c.itemlist) + [item] else [item] + old(c.itemlist)) && item.parent == c
    ensures Snap(S) == Attach(old(Snap(S)), c, if back then |old(c.itemlist)| else 0, item)
  {
    ghost var f, i, k := Snap(S), if back then |c.itemlist| else 0, c.depth + 1;
    ghost var list := InsertAt(c.itemlist, i, item);
    InsertAtEnds(c.itemlist, item);
    assert list == if back then c.itemlist + [item] else [item] + c.itemlist;
    AttachIsLink(f, c, i, item, k, list);
    SinkTree(item, k, S);
    Link(c, item, back, S);
  }

  /** Container::addItem: links and ammunition only; the weight is left to the caller. */
  method AddItem(c: Item, item: Item, ghost S: set<Item>)
    requires Attachable(Snap(S), c, |c.itemlist|, item)
    modifies S`depth, c`itemlist, c`ammoCount, item`parent
    ensures Snap(S) == Attach(old(Snap(S)), c, |old(c.itemlist)|, item)
    ensures c.itemlist == old(c.itemlist) + [item] && item.parent == c
  {
    Enter(c, item, true, S);
  }

  /** Container::addItemBack */
  method AddItemBack(c: Item, item: Item, ghost S: set<Item>)
    requires Valid(Snap(S)) && Attachable(Snap(S), c, |c.itemlist|, item)
    modifies S`depth, S`totalWeight, c`itemlist, c`ammoCount, item`parent
    ensures Snap(S) == Insert(old(Snap(S)), c, |old(c.itemlist)|, item) && Valid(Snap(S))
    ensures c.itemlist == old(c.itemlist) + [item] && item.parent == c
  {
    ghost var f, i := Snap(S), |c.itemlist|;
    var d := AsInt32(item.Weight());
    InsertKeepsValid(f, c, i, item, d);
    AddItem(c, item, S);
    UpdateItemWeight(c, d, S);
  }

  /** Container::addThing: the item goes to the front; an index past the capacity is refused. */
  method AddThing(c: Item, index: int, item: Item, ghost S: set<Item>)
    requires Valid(Snap(S)) && (index < AsInt32(c.maxSize) ==> Attachable(Snap(S), c, 0, item))
    modifies S`depth, S`totalWeight, c`itemlist, c`ammoCount, item`parent
    ensures Snap(S) == (if index < AsInt32(c.maxSize) then Insert(old(Snap(S)), c, 0, item) else old(Snap(S)))
    ensures Valid(Snap(S))
    ensures index < AsInt32(c.maxSize) ==> c.itemlist == [item] + old(c.itemlist) && item.parent == c
  {
    if index >= AsInt32(c.maxSize) {
      return;
    }
    InternalAddThing(c, item, S);
  }

  /** Container::internalAddThing: like addThing, without looking at the capacity. */
  method InternalAddThing(c: Item, item: Item, ghost S: set<Item>)
    requires Valid(Snap(S)) && Attachable(Snap(S), c, 0, item)
    modifies S`depth, S`totalWeight, c`itemlist, c`ammoCount, item`parent
    ensures Snap(S) == Insert(old(Snap(S)), c, 0, item) && Valid(Snap(S))
    ensures c.itemlist == [item] + old(c.itemlist) && item.parent == c
  {
    ghost var f := Snap(S);
    var d := AsInt32(item.Weight());
    InsertKeepsValid(f, c, 0, item, d);
    Enter(c, item, false, S);
    UpdateItemWeight(c, d, S);
  }

  // ---------------------------------------------------------------- changing, removing, replacing

  /** Container::getThingIndex */
  method GetThingIndex(c: Item, thing: Item) returns (index: int)
    ensures -1 <= index < |c.itemlist|
    ensures index == -1 <==> thing !in c.itemlist
    ensures index >= 0 ==> c.itemlist[index] == thing && thing !in c.itemlist[..index]
  {
    index := 0;
    while index < |c.itemlist|
      invariant 0 <= index <= |c.itemlist| && thing !in c.itemlist[..index]
    {
      if c.itemlist[index] == thing {
        return;
      }
      index := index + 1;
    }
    index := -1;
  }

  /** Item::setID followed by Item::setSubType with a 16-bit argument. */
  method SetTypeAndSubType(item: Item, newKind: ItemType, count: nat)
    modifies item`kind, item`count
    ensures item.kind == newKind
    ensures item.count == if newKind.countIsSubType then count % 0x100 else old(item.count)
  {
    item.kind := newKind;
    if newKind.countIsSubType {
      item.count := count % 0x1_0000 % 0x100;
    }
  }

  /** The item changes in place and its container accounts for its ammunition. */
  method ChangeType(c: Item, thing: Item, newKind: ItemType, count: nat, ghost S: set<Item>)
    requires c in S && thing in S && c != thing && c.ammoCount >= thing.AmmoUnits()
    modifies c`ammoCount, thing`kind, thing`count
    ensures thing.kind == newKind
    ensures thing.count == if newKind.countIsSubType then count % 0x100 else old(thing.count)
    ensures Snap(S) == Recast(old(Snap(S)), c, thing, thing.OwnWeight(), thing.AmmoUnits())
  {
    ghost var f := Snap(S);
    UpdateAmmoCount(c, thing, 0 - thing.count);
    SetTypeAndSubType(thing, newKind, count);
    UpdateAmmoCount(c, thing, thing.count);
    RecastSeen(f, c, thing, S);
  }

  method ChangeCount(c: Item, thing: Item, newCount: nat, ghost S: set<Item>)
    requires c in S && thing in S && c != thing && c.ammoCount >= thing.AmmoUnits()
    modifies c`ammoCount, thing`count
    ensures thing.count == newCount
    ensures Snap(S) == Recast(old(Snap(S)), c, thing, thing.OwnWeight(), thing.AmmoUnits())
  {
    ghost var f := Snap(S);
    UpdateAmmoCount(c, thing, newCount - thing.count);
    thing.count := newCount;
    RecastSeen(f, c, thing, S);
  }

  lemma RecastSeen(f: Forest<Item>, c: Item, item: Item, S: set<Item>)
    requires f.Keys == S && c in S && item in S && c != item && f[c].ammo >= f[item].units
    requires item.View() == f[item].(own := item.OwnWeight(), units := item.AmmoUnits())
    requires c.View() == f[c].(ammo := f[c].ammo - f[item].units + item.AmmoUnits())
    requires forall y | y in S && y != c && y != item :: y.View() == f[y]
    ensures Snap(S) == Recast(f, c, item, item.OwnWeight(), item.AmmoUnits())
  {
    SnapIs(S, Recast(f, c, item, item.OwnWeight(), item.AmmoUnits()));
  }

  /** The change of weight of a changed item is passed on. */
  method PassOnChange(c: Item, thing: Item, oldWeight: nat, ghost f: Forest<Item>, ghost S: set<Item>)
    requires Recastable(f, c, thing) && f[c].ammo >= f[thing].units && f[thing].Weight() == oldWeight
    requires Snap(S) == Recast(f, c, thing, thing.OwnWeight(), thing.AmmoUnits()) && thing in S && c in S
    modifies S`totalWeight
    ensures Snap(S) == Update(f, c, thing, thing.OwnWeight(), thing.AmmoUnits()) && Valid(Snap(S))
  {
    var d := AsInt32(thing.Weight() - oldWeight);
    assert Snap(S)[thing].Weight() == thing.Weight();
    UpdateKeepsValid(f, c, thing, thing.OwnWeight(), thing.AmmoUnits(), d);
    UpdateItemWeight(c, d, S);
  }

  /** Container::updateThing */
  method UpdateThing(c: Item, thing: Item, newKind: ItemType, count: nat, ghost S: set<Item>)
    requires Valid(Snap(S)) && c in S && thing in S
    modifies S`totalWeight, c`ammoCount, thing`kind, thing`count
    ensures Valid(Snap(S))
    ensures thing !in c.itemlist ==> Snap(S) == old(Snap(S)) && thing.kind == old(thing.kind)
    ensures thing in c.itemlist ==>
              && thing.kind == newKind
              && thing.count == (if newKind.countIsSubType then count % 0x100 else old(thing.count))
              && Snap(S) == Update(old(Snap(S)), c, thing, thing.OwnWeight(), thing.AmmoUnits())
  {
    ghost var f := Snap(S);
    var index := GetThingIndex(c, thing);
    if index == -1 {
      return;
    }
    RecastFacts(f, c, thing);
    var oldWeight := thing.Weight();
    assert f[thing].Weight() == oldWeight;
    ChangeType(c, thing, newKind, count, S);
    PassOnChange(c, thing, oldWeight, f, S);
  }

  /** The full branch of Container::removeThing: the weight leaves first, then the item leaves the list. */
  method RemoveAtIndex(c: Item, index: nat, item: Item, ghost S: set<Item>)
    requires Valid(Snap(S)) && c in S && item in S && index < |c.itemlist| && c.itemlist[index] == item
    modifies S`totalWeight, c`ammoCount, c`itemlist, item`parent
    ensures Snap(S) == Remove(old(Snap(S)), c, index) && Valid(Snap(S))
    ensures c.itemlist == old(c.itemlist[..index] + c.itemlist[index + 1..])
    ensures item.parent == null && item !in c.itemlist
  {
    ghost var f := Snap(S);
    var d := AsInt32(0 - item.Weight());
    RemoveKeepsValid(f, c, index, d);
    UpdateItemWeight(c, d, S);
    Unlink(c, index, item, S);
  }

  method Unlink(c: Item, index: nat, item: Item, ghost S: set<Item>)
    requires c in S && item in S && item != c && index < |c.itemlist| && c.itemlist[index] == item
    modifies c`ammoCount, c`itemlist, item`parent
    ensures Snap(S) == Detach(old(Snap(S)), c, index)
    ensures c.itemlist == old(c.itemlist[..index] + c.itemlist[index + 1..]) && item.parent == null
  {
    ghost var f := Snap(S);
    UpdateAmmoCount(c, item, 0 - item.count);
    item.parent := null;
    c.itemlist := c.itemlist[..index] + c.itemlist[index + 1..];
    ghost var g := Detach(f, c, index);
    assert g[c] == c.View();
    assert g[item] == item.View();
    SnapIs(S, g);
  }

  /** The count that stays behind, in the arithmetic of the source: 32-bit subtraction, clamped, then 8 bits. */
  function RemainingCount(have: nat, count: nat): nat {
    var left := AsInt32(have - count);
    (if left > 0 then left else 0) % 0x100
  }

  /** Taking off part of a stack of at most 255 leaves the rest, and taking off more leaves nothing. */
  lemma RemainingIsTheRest(have: nat, count: nat)
    requires have <= 255 && count < 0x8000_0000
    ensures RemainingCount(have, count) == if count <= have then have - count else 0
  {
    WrapCongruent(have - count, have - count + WORD, 0);
  }

  /** Container::removeThing */
  method RemoveThing(c: Item, thing: Item, count: nat, ghost S: set<Item>)
    requires Valid(Snap(S)) && c in S && thing in S
    modifies S`totalWeight, c`ammoCount, c`itemlist, thing`count, thing`parent
    ensures Valid(Snap(S))
    ensures thing !in old(c.itemlist) ==> Snap(S) == old(Snap(S))
    ensures thing in old(c.itemlist) && old(thing.kind.stackable && count != thing.count) ==>
              && thing.count == RemainingCount(old(thing.count), count)
              && (old(thing.count) <= 255 && count < 0x8000_0000 ==>
                    thing.count == if count <= old(thing.count) then old(thing.count) - count else 0)
              && Snap(S) == Update(old(Snap(S)), c, thing, thing.OwnWeight(), thing.AmmoUnits())
    ensures thing in old(c.itemlist) && !old(thing.kind.stackable && count != thing.count) ==>
              && thing.parent == null && thing !in c.itemlist
              && exists i: nat | i < |old(c.itemlist)| && old(c.itemlist)[i] == thing ::
                   Snap(S) == Remove(old(Snap(S)), c, i)
  {
    ghost var f := Snap(S);
    var index := GetThingIndex(c, thing);
    if index == -1 {
      return;
    }
    if thing.kind.stackable && count != thing.count {
      RecastFacts(f, c, thing);
      if thing.count <= 255 && count < 0x8000_0000 {
        RemainingIsTheRest(thing.count, count);
      }
      var oldWeight := thing.Weight();
      assert f[thing].Weight() == oldWeight;
      ChangeCount(c, thing, RemainingCount(thing.count, count), S);
      PassOnChange(c, thing, oldWeight, f, S);
    } else {
      RemoveAtIndex(c, index, thing, S);
    }
  }

  /** Container::replaceThing; an index past the list is refused. */
  method ReplaceThing(c: Item, index: nat, item: Item, replaced: Item, ghost S: set<Item>)
    requires Valid(Snap(S)) && c in S && c.isContainer && item in S && replaced in S
    requires item.parent == null && !Reaches(Snap(S), c, item)
    requires index < |c.itemlist| ==> c.itemlist[index] == replaced
    modifies S`depth, S`totalWeight, c`ammoCount, c`itemlist, item`parent, replaced`parent
    ensures Valid(Snap(S))
    ensures index >= |old(c.itemlist)| ==> Snap(S) == old(Snap(S))
    ensures index < |old(c.itemlist)| ==>
              && Snap(S) == Replace(old(Snap(S)), c, index, item)
              && c.itemlist == old(c.itemlist)[index := item] && item.parent == c && replaced.parent == null
  {
    if index >= |c.itemlist| {
      return;
    }
    hide *;
    ghost var f, k := Snap(S), c.depth + 1;
    var d := AsInt32(item.Weight() - replaced.Weight());
    ViewParts(c);
    ViewWeight(item);
    ViewWeight(replaced);
    ViewDepth(c);
    MayReplace(f, c, index, item);
    ReplaceKeepsValid(f, c, index, item, k, d);
    Exchange(c, index, item, replaced, k, d, S);
  }

  /** The item takes the seat, the weight difference goes up, and the replaced item is let go. */
  method Exchange(c: Item, index: nat, item: Item, replaced: Item, ghost k: nat, d: int, ghost S: set<Item>)
    requires Linked(Snap(S)) && c in S && c.isContainer && item in S && replaced in S
    requires c != item && c != replaced && item != replaced && index < |c.itemlist|
    requires Linked(Seat(Sink(Snap(S), item, k), c, index, item))
    modifies S`depth, S`totalWeight, c`ammoCount, c`itemlist, item`parent, replaced`parent
    ensures var g := Propagate(Seat(Sink(old(Snap(S)), item, k), c, index, item), c, d);
            c in g && item in g && replaced in g && Snap(S) == Release(g, c, item, replaced)
    ensures c.itemlist == old(c.itemlist)[index := item] && item.parent == c && replaced.parent == null
  {
    hide *;
    SinkTree(item, k, S);
    TakeSeat(c, index, item, S);
    ghost var seated := Snap(S);
    UpdateItemWeight(c, d, S);
    PropagateKeys(seated, c, d);
    GiveUpSeat(c, item, replaced, S);
  }

  lemma MayReplace(f: Forest<Item>, c: Item, index: nat, item: Item)
    requires Valid(f) && c in f && index < |f[c].list| && f[c].list[index] in f
    requires item in f && f[item].parent.None? && !Reaches(f, c, item)
    ensures Replaceable(f, c, index, item)
  {
  }

  lemma ViewWeight(item: Item)
    ensures item.View().Weight() == item.Weight() && (item.parent == null ==> item.View().parent == None)
  {
  }

  lemma ViewDepth(item: Item)
    ensures item.View().depth == item.depth
  {
  }

  method TakeSeat(c: Item, index: nat, item: Item, ghost S: set<Item>)
    requires c in S && item in S && item != c && index < |c.itemlist|
    modifies c`itemlist, item`parent
    ensures c.itemlist == old(c.itemlist)[index := item] && item.parent == c
    ensures Snap(S) == Seat(old(Snap(S)), c, index, item)
  {
    ghost var f := Snap(S);
    c.itemlist := c.itemlist[index := item];
    item.parent := c;
    ghost var g := Seat(f, c, index, item);
    assert g[c] == c.View();
    assert g[item] == item.View();
    SnapIs(S, g);
  }

  method GiveUpSeat(c: Item, item: Item, replaced: Item, ghost S: set<Item>)
    requires c in S && item in S && replaced in S && c != item && c != replaced && item != replaced
    modifies c`ammoCount, replaced`parent
    ensures replaced.parent == null
    ensures Snap(S) == Release(old(Snap(S)), c, item, replaced)
  {
    ghost var f := Snap(S);
    UpdateAmmoCount(c, replaced, 0 - replaced.count);
    UpdateAmmoCount(c, item, item.count);
    replaced.parent := null;
    ghost var g := Release(f, c, item, replaced);
    assert g[c] == c.View();
    assert g[replaced] == replaced.View();
    forall y | y in S && y != c && y != replaced
      ensures g[y] == y.View()
    {
    }
    SnapIs(S, g);
  }

  // ---------------------------------------------------------------- enumerating

  /** The inner loop of Container::iterator: all content is listed, the containers among it are queued. */
  method ListContent(container: Item, before: seq<Item>, rest: seq<Item>, ghost S: set<Item>)
    returns (items: seq<Item>, pending: seq<Item>)
    requires forall x | x in container.itemlist :: x in S
    ensures items == before + container.itemlist
    ensures pending == rest + Boxes(Snap(S), container.itemlist)
  {
    hide *;
    ghost var f := Snap(S);
    items, pending := before, rest;
    NoBoxes(f);
    var k := 0;
    while k < |container.itemlist|
      invariant k <= |container.itemlist|
      invariant items == before + container.itemlist[..k]
      invariant pending == rest + Boxes(f, container.itemlist[..k])
    {
      var item := container.itemlist[k];
      MoreBoxes(f, container.itemlist, k);
      ViewParts(item);
      items := items + [item];
      if item.isContainer {
        pending := pending + [item];
      }
      k := k + 1;
    }
    assert container.itemlist[..k] == container.itemlist;
  }

  lemma NoBoxes(f: Forest<Item>)
    ensures Boxes(f, []) == []
  {
  }

  lemma MoreBoxes(f: Forest<Item>, l: seq<Item>, k: nat)
    requires k < |l| && forall x | x in l :: x in f
    ensures Boxes(f, l[..k + 1]) == Boxes(f, l[..k]) + if f[l[k]].box then [l[k]] else []
    ensures l[..k + 1] == l[..k] + [l[k]]
  {
    assert l[..k + 1][..k] == l[..k] && l[..k + 1][k] == l[k];
  }

  /** Container::iterator: breadth-first, with a queue of the containers still to be listed. */
  method Iterator(c: Item, ghost S: set<Item>) returns (items: seq<Item>)
    requires Valid(Snap(S)) && c in S && c.isContainer
    ensures NoDup(items) && forall x :: x in items <==> x in Inside(Snap(S), c)
  {
    hide *;
    ghost var f, done := Snap(S), [];
    items := [];
    var pending := [c];
    ViewParts(c);
    EnumerationStart(f, c);
    while pending != []
      invariant Enumerating(f, c, done, pending, items)
      invariant |done| <= |S|
      decreases |S| - |done|
    {
      EnumerationStep(f, c, done, pending, items);
      var container := pending[0];
      ListedContent(f, c, done, pending, items);
      ViewParts(container);
      items, pending := ListContent(container, items, pending[1..], S);
      done := done + [container];
      DoneFits(f, c, done, pending, items);
    }
    EnumerationComplete(f, c, done, items);
  }

  /** Container::isHoldingItem */
  method IsHoldingItem(c: Item, item: Item, ghost S: set<Item>) returns (holding: bool)
    requires Valid(Snap(S)) && c in S && c.isContainer && item in S
    ensures holding <==> item != c && Reaches(Snap(S), item, c)
  {
    var items := Iterator(c, S);
    var k := 0;
    while k < |items|
      invariant k <= |items| && item !in items[..k]
    {
      if items[k] == item {
        assert item in items;
        return true;
      }
      k := k + 1;
    }
    assert item !in items;
    return false;
  }

  /** Container::getItemHoldingCount and size(true): the number of items strictly inside. */
  method GetItemHoldingCount(c: Item, ghost S: set<Item>) returns (n: nat)
    requires Valid(Snap(S)) && c in S && c.isContainer
    ensures n == |Inside(Snap(S), c)|
  {
    var items := Iterator(c, S);
    NoDupCount(items, Inside(Snap(S), c));
    n := |items|;
  }

  // ---------------------------------------------------------------- asking before adding

  datatype ReturnValue =
    | NoError | NotPossible | CannotPickup | ThisIsImpossible | ItemCannotBeMovedThere | CannotPlaceInMonsterCorpse
    | QuiverAmmoOnly | NotEnoughRoom | Other(code: nat)

  /** What queryAdd learns from outside the forest: item flags, the owner of a corpse, the inbox, the house. */
  datatype Surroundings = Surroundings(browseField: bool, storeItemElsewhere: bool, ownedCorpse: bool,
                                       storeInbox: Option<ReturnValue>, limited: bool, canMerge: bool,
                                       house: Option<ReturnValue>, topParent: Option<ReturnValue>)

  /** Container::getFreeSlotsFor and hasRoomForItem */
  predicate HasRoom(c: Item, item: Item, count: nat, around: Surroundings)
    reads c, item
  {
    var free := if |c.itemlist| < c.maxSize then c.maxSize - |c.itemlist| else 0;
    var leaves := item.parent == c && (!item.kind.stackable || count >= item.count);
    !around.limited || free + (if leaves then 1 else 0) > 0 || around.canMerge
  }

  /** The refusals that come before the walk over the ancestors; an outside answer may not be NoError itself. */
  predicate Clear(c: Item, item: Item, around: Surroundings)
    reads c, item
  {
    && item.kind.pickupable && item != c && !around.storeItemElsewhere && !around.ownedCorpse
    && !(c.kind.quiver && !item.kind.ammo) && around.storeInbox.None?
  }

  /** Container::queryAdd */
  method QueryAdd(c: Item, item: Item, count: nat, childIsOwner: bool, around: Surroundings, ghost S: set<Item>)
    returns (r: ReturnValue)
    requires Linked(Snap(S)) && c in S && item in S
    requires around.storeInbox != Some(NoError) && around.house != Some(NoError)
    ensures r == NoError <==>
              && !around.browseField
              && (childIsOwner || (Clear(c, item, around) && !Reaches(Snap(S), c, item)
                                   && HasRoom(c, item, count, around)
                                   && around.house.None? && around.topParent in {None, Some(NoError)}))
    ensures !around.browseField && !childIsOwner && Clear(c, item, around) && Reaches(Snap(S), c, item) ==>
              r == ThisIsImpossible
  {
    if around.browseField { return NotPossible; }
    if childIsOwner { return NoError; }
    if !item.kind.pickupable { return CannotPickup; }
    if item == c { return ThisIsImpossible; }
    if around.storeItemElsewhere { return ItemCannotBeMovedThere; }
    if around.ownedCorpse { return CannotPlaceInMonsterCorpse; }
    if c.kind.quiver && !item.kind.ammo { return QuiverAmmoOnly; }
    if around.storeInbox.Some? { return around.storeInbox.value; }
    ghost var f := Snap(S);
    assert LinkOk(f, c);
    var cylinder := c.parent;
    while cylinder != null
      invariant cylinder != null ==> cylinder in S
      invariant Reaches(f, c, item) <==> (cylinder != null && Reaches(f, cylinder, item))
      decreases if cylinder == null then -1 else cylinder.depth
    {
      if cylinder == item { return ThisIsImpossible; }
      assert LinkOk(f, cylinder);
      cylinder := cylinder.parent;
    }
    if !HasRoom(c, item, count, around) { return NotEnoughRoom; }
    if around.house.Some? { return around.house.value; }
    if around.topParent.Some? { return around.topParent.value; }
    return NoError;
  }

  /** An addition that queryAdd has allowed keeps the forest, however full the container is by then. */
  method QueryThenAdd(c: Item, item: Item, count: nat, index: int, around: Surroundings, ghost S: set<Item>)
    returns (r: ReturnValue)
    requires Valid(Snap(S)) && c in S && c.isContainer && item in S && item.parent == null
    requires around.storeInbox != Some(NoError) && around.house != Some(NoError)
    modifies S`depth, S`totalWeight, c`itemlist, c`ammoCount, item`parent
    ensures Valid(Snap(S))
    ensures r == NoError && index < AsInt32(c.maxSize) ==> c.itemlist == [item] + old(c.itemlist) && item.parent == c
    ensures r != NoError ==> Snap(S) == old(Snap(S))
  {
    r := QueryAdd(c, item, count, false, around, S);
    if r == NoError {
      AddThing(c, index, item, S);
    }
  }

  // ---------------------------------------------------------------- creating whole trees

  lemma SnapUnion(S: set<Item>, F: set<Item>)
    requires S !! F
    ensures Snap(S + F) == Snap(S) + Snap(F) && Snap(S).Keys !! Snap(F).Keys
  {
    SnapIs(S + F, Snap(S) + Snap(F));
  }

  /** The count CreateItem gives to a clone. */
  function ClonedCount(kind: ItemType, count: nat): nat {
    if kind.stackable then (if count == 0 then 1 else count) else 1
  }

  lemma NewItemOwesNothing(x: Item)
    requires x.parent == null && x.itemlist == [] && x.totalWeight == 0 && x.ammoCount == 0
    ensures Owing(Snap({x}), x, 0) && Valid(Snap({x}))
  {
    var f := Snap({x});
    assert LinkOk(f, x) && Listed(f, x) && AmmoOk(f, x) && Owes(f, Due(x, 0), x) && Owes(f, map[], x);
  }

  ghost predicate TypeOf(y: Item, o: Item)
    reads y`kind, y`count, o`kind, o`count
  {
    y.kind == o.kind && y.maxSize == o.maxSize && y.count == ClonedCount(o.kind, o.count)
  }

  /** What CreateItem takes over from the originals besides the content. */
  ghost predicate SameTypes(F: set<Item>, origin: map<Item, Item>)
    reads F`kind, F`count, (set y | y in origin :: origin[y])`kind, (set y | y in origin :: origin[y])`count
  {
    origin.Keys == F && forall y {:trigger TypeOf(y, origin[y])} | y in F :: TypeOf(y, origin[y])
  }

  lemma SameTypesUnion(F: set<Item>, G: set<Item>, o: map<Item, Item>, p: map<Item, Item>)
    requires F !! G && SameTypes(F, o) && SameTypes(G, p)
    ensures SameTypes(F + G, o + p)
  {
    forall y | y in F + G
      ensures TypeOf(y, (o + p)[y])
    {
      assert if y in F then TypeOf(y, o[y]) else TypeOf(y, p[y]);
    }
  }

  lemma CloningStarts(copy: Item, x: Item, S: set<Item>)
    requires Valid(Snap(S)) && x in S
    requires copy.parent == null && copy.itemlist == [] && copy.totalWeight == 0 && copy.ammoCount == 0
    requires copy.kind == x.kind && copy.count == ClonedCount(x.kind, x.count)
    requires copy.isContainer == x.isContainer && copy.maxSize == x.maxSize
    ensures Cloning(Snap(S), Snap({copy}), map[copy := x], copy, x, 0, 0) && SameTypes({copy}, map[copy := x])
  {
    NewItemOwesNothing(copy);
    assert CloneOk(Snap(S), Snap({copy}), map[copy := x], copy, {copy});
  }

  lemma ItemsLieBelow(S: set<Item>, x: Item, y: Item)
    requires Valid(Snap(S)) && x in S && y in x.itemlist
    ensures x.isContainer && y in S && x in Snap(S) && y in Snap(S) && Below(Snap(S), y) < Below(Snap(S), x)
  {
    var f := Snap(S);
    assert LinkOk(f, x) && LinkOk(f, y);
    assert y in Below(f, x) && y !in Below(f, y);
  }

  lemma NextClonedHere(copy: Item, item: Item, x: Item, k: nat, e: int, F: set<Item>, G: set<Item>, S: set<Item>,
                       o: map<Item, Item>, p: map<Item, Item>)
    requires copy in F && item in G && F !! G && x in S && k < |x.itemlist| && x.isContainer
    requires Cloning(Snap(S), Snap(F), o, copy, x, k, e) && Valid(Snap(G)) && OnlyRoot(Snap(G), item)
    requires Cloned(Snap(S), Snap(G), p, {}) && p[item] == x.itemlist[k]
    ensures NextCloned(Snap(S), Snap(F), Snap(G), o, p, copy, x, k, e, item)
  {
  }

  /** addItem for the root of a tree that was built apart. */
  method AdoptTree(c: Item, item: Item, ghost F: set<Item>, ghost G: set<Item>)
    requires F !! G && c in F && item in G
    requires Attachable(Snap(F) + Snap(G), c, |c.itemlist|, item)
    modifies F`depth, G`depth, c`itemlist, c`ammoCount, item`parent
    ensures Snap(F + G) == Attach(old(Snap(F)) + old(Snap(G)), c, |old(c.itemlist)|, item)
  {
    SnapUnion(F, G);
    AddItem(c, item, F + G);
  }

  lemma CloneMayEnterHere(copy: Item, item: Item, x: Item, k: nat, e: int, F: set<Item>, G: set<Item>,
                          f: Forest<Item>, o: map<Item, Item>, p: map<Item, Item>)
    requires copy in F && item in G && NextCloned(f, Snap(F), Snap(G), o, p, copy, x, k, e, item)
    ensures F !! G && k == |copy.itemlist| && copy in Snap(F) && item in Snap(G)
    ensures Linked(Snap(F) + Snap(G)) && |Snap(F)[copy].list| == k
    ensures Attachable(Snap(F) + Snap(G), copy, |copy.itemlist|, item)
  {
    CloneMayEnter(f, Snap(F), Snap(G), o, p, copy, x, k, e, item);
    assert Snap(F).Keys == F && Snap(G).Keys == G;
  }

  /** The finished clone of an item enters the clone of its container. */
  method AdoptClone(copy: Item, item: Item, ghost x: Item, ghost k: nat, ghost e: int, ghost F: set<Item>,
                    ghost G: set<Item>, ghost f: Forest<Item>, ghost o: map<Item, Item>, ghost p: map<Item, Item>)
    returns (ghost e': int)
    requires copy in F && item in G && NextCloned(f, Snap(F), Snap(G), o, p, copy, x, k, e, item)
    requires SameTypes(F + G, o + p)
    modifies F`depth, G`depth, copy`itemlist, copy`ammoCount, item`parent
    ensures copy.parent == old(copy.parent) && SameTypes(F + G, o + p)
    ensures Cloning(f, Snap(F + G), o + p, copy, x, k + 1, e')
  {
    hide *;
    ghost var g, g2 := Snap(F), Snap(G);
    CloneMayEnterHere(copy, item, x, k, e, F, G, f, o, p);
    e' := e + g2[item].Weight();
    AdoptTree(copy, item, F, G);
    CloningStep(f, g, g2, o, p, copy, x, k, e, item, Snap(F + G));
  }

  method SetTotal(c: Item, total: nat, ghost F: set<Item>)
    requires c in F
    modifies c`totalWeight
    ensures Snap(F) == WithTotal(old(Snap(F)), c, total)
  {
    ghost var g := WithTotal(Snap(F), c, total);
    c.totalWeight := total;
    assert g[c] == c.View();
    SnapIs(F, g);
  }

  lemma CloningEndsHere(copy: Item, x: Item, e: int, F: set<Item>, S: set<Item>, origin: map<Item, Item>)
    requires Valid(Snap(S)) && x in S && Cloning(Snap(S), Snap(F), origin, copy, x, |x.itemlist|, e)
    ensures copy in F && copy in Snap(F)
    ensures var h := if x.isContainer then WithTotal(Snap(F), copy, x.totalWeight) else Snap(F);
            && Valid(h) && OnlyRoot(h, copy) && Cloned(Snap(S), h, origin, {}) && copy in origin && origin[copy] == x
            && OneToOne(origin) && origin.Values == {x} + Inside(Snap(S), x)
  {
    CloningEnds(Snap(S), Snap(F), origin, copy, x, e);
    var h := if x.isContainer then WithTotal(Snap(F), copy, x.totalWeight) else Snap(F);
    CloneIsBijection(Snap(S), h, origin, copy, x);
  }

  /**
   * Item::clone and Container::clone: a separate tree with one clone of x and of each item inside it, whose totals are
   * copied, not summed.
   */
  method Clone(x: Item, ghost S: set<Item>) returns (copy: Item, ghost F: set<Item>, ghost origin: map<Item, Item>)
    requires Valid(Snap(S)) && x in S
    ensures fresh(F) && copy in F && copy.parent == null && Valid(Snap(F)) && OnlyRoot(Snap(F), copy)
    ensures Cloned(Snap(S), Snap(F), origin, {}) && SameTypes(F, origin) && copy in origin && origin[copy] == x
    ensures OneToOne(origin) && origin.Values == {x} + Inside(Snap(S), x)
    decreases Below(Snap(S), x), 1
  {
    hide *;
    copy := new Item(x.kind, ClonedCount(x.kind, x.count), x.isContainer, x.maxSize);
    F, origin := {copy}, map[copy := x];
    ghost var e := 0;
    CloningStarts(copy, x, S);
    var k := 0;
    while k < |x.itemlist|
      invariant k <= |x.itemlist| && fresh(F) && copy in F && copy.parent == null && SameTypes(F, origin)
      invariant Cloning(Snap(S), Snap(F), origin, copy, x, k, e)
    {
      e, F, origin := CloneNext(copy, x, k, e, F, S, origin);
      k := k + 1;
    }
    CloningEndsHere(copy, x, e, F, S, origin);
    if x.isContainer {
      SetTotal(copy, x.totalWeight, F);
    }
  }

  /** The body of the loop of Container::clone: the next item is cloned and added. */
  method CloneNext(copy: Item, x: Item, k: nat, ghost e: int, ghost F: set<Item>, ghost S: set<Item>,
                   ghost o: map<Item, Item>)
    returns (ghost e': int, ghost F': set<Item>, ghost origin: map<Item, Item>)
    requires Valid(Snap(S)) && x in S && k < |x.itemlist| && F !! S && copy in F && SameTypes(F, o)
    requires Cloning(Snap(S), Snap(F), o, copy, x, k, e)
    modifies F`depth, copy`itemlist, copy`ammoCount
    ensures F <= F' && fresh(F' - F) && copy.parent == old(copy.parent) && SameTypes(F', origin)
    ensures Cloning(Snap(S), Snap(F'), origin, copy, x, k + 1, e')
    decreases Below(Snap(S), x), 0
  {
    hide *;
    ItemsLieBelow(S, x, x.itemlist[k]);
    var item; ghost var G, p;
    item, G, p := Clone(x.itemlist[k], S);
    NextClonedHere(copy, item, x, k, e, F, G, S, o, p);
    SameTypesUnion(F, G, o, p);
    F', origin := F + G, o + p;
    e' := AdoptClone(copy, item, x, k, e, F, G, Snap(S), o, p);
  }

  // ---------------------------------------------------------------- loading

  /** An item that CreateItem makes from the start of a property stream. */
  datatype Created = Created(kind: ItemType, isContainer: bool, maxSize: nat)

  /**
   * A node of a map or item file as the loader of containers meets it: whether it is an item node, whether it has
   * properties, what they create, the count its attributes leave (None when they do not parse), and its children.
   */
  datatype ItemNode = ItemNode(isItem: bool, hasProps: bool, created: Option<Created>, count: Option<nat>,
                               children: seq<ItemNode>)

  /** What is created for the node is a container. */
  predicate CreatesBox(node: ItemNode) {
    node.created.Some? && node.created.value.isContainer
  }

  /** A child node an item can be made of: an item node with properties that create it and attributes that parse. */
  predicate Sound(n: ItemNode) {
    n.isItem && n.hasProps && n.created.Some? && n.count.Some?
  }

  /** The attributes of the node parse and, if it is loaded into a container, so do its child nodes. */
  predicate Loadable(node: ItemNode, box: bool)
    decreases node, 0
  {
    node.count.Some? && (box ==> forall k | 0 <= k < |node.children| :: ChildLoadable(node.children[k]))
  }

  predicate ChildLoadable(child: ItemNode)
    decreases child, 1
  {
    child.isItem && child.hasProps && child.created.Some? && Loadable(child, CreatesBox(child))
  }

  /** The node at the end of a path of child numbers, if the loader gets there: through containers only. */
  function NodeAt(node: ItemNode, box: bool, path: seq<nat>): Option<ItemNode>
    decreases |path|
  {
    if path == [] then Some(node)
    else if !box || path[0] >= |node.children| then None
    else NodeAt(node.children[path[0]], CreatesBox(node.children[path[0]]), path[1..])
  }

  lemma {:induction false} LoadableReachesSound(node: ItemNode, box: bool, path: seq<nat>)
    requires Loadable(node, box) && path != [] && NodeAt(node, box, path).Some?
    ensures Sound(NodeAt(node, box, path).value)
    decreases |path|
  {
    var child := node.children[path[0]];
    assert ChildLoadable(child);
    assert Loadable(child, CreatesBox(child));
    if |path| == 1 {
      assert path[1..] == [];
    } else {
      LoadableReachesSound(child, CreatesBox(child), path[1..]);
    }
  }

  lemma {:induction false} UnloadableReachesUnsound(node: ItemNode, box: bool) returns (path: seq<nat>)
    requires !Loadable(node, box) && node.count.Some?
    ensures path != [] && NodeAt(node, box, path).Some? && !Sound(NodeAt(node, box, path).value)
    decreases node
  {
    var k: nat :| k < |node.children| && !ChildLoadable(node.children[k]);
    var child, rest := node.children[k], [];
    if Sound(child) {
      rest := UnloadableReachesUnsound(child, CreatesBox(child));
    }
    path := [k] + rest;
    assert path[1..] == rest;
  }

  /** A node can be loaded exactly when its attributes parse and every node the loader gets to from it is sound. */
  lemma LoadableIffAllSound(node: ItemNode, box: bool)
    ensures Loadable(node, box) <==>
            && node.count.Some?
            && forall path: seq<nat> | path != [] && NodeAt(node, box, path).Some? ::
                 Sound(NodeAt(node, box, path).value)
  {
    if Loadable(node, box) {
      forall path: seq<nat> | path != [] && NodeAt(node, box, path).Some?
        ensures Sound(NodeAt(node, box, path).value)
      {
        LoadableReachesSound(node, box, path);
      }
    } else if node.count.Some? {
      var path := UnloadableReachesUnsound(node, box);
    }
  }

  /** The first k child nodes can be loaded, and the one behind them, if there is one, cannot. */
  predicate StopsAt(children: seq<ItemNode>, k: nat) {
    && k <= |children| && (forall j | 0 <= j < k :: ChildLoadable(children[j]))
    && (k < |children| ==> !ChildLoadable(children[k]))
  }

  lemma LoadableIs(node: ItemNode, box: bool)
    ensures Loadable(node, box) <==>
            node.count.Some? && (box ==> forall k | 0 <= k < |node.children| :: ChildLoadable(node.children[k]))
    ensures box && node.count.Some? ==> (Loadable(node, box) <==> StopsAt(node.children, |node.children|))
  {
  }

  lemma ChildLoadableIs(child: ItemNode)
    ensures ChildLoadable(child) <==>
            child.isItem && child.hasProps && child.created.Some? && Loadable(child, child.created.value.isContainer)
  {
  }

  lemma StopsAtIs(children: seq<ItemNode>, k: nat)
    ensures StopsAt(children, k) <==>
              && k <= |children| && (forall j | 0 <= j < k :: ChildLoadable(children[j]))
              && (k < |children| ==> !ChildLoadable(children[k]))
  {
  }

  /** The item carries what its node says and lists one item per child node, in order. */
  ghost predicate LoadedFrom(y: Item, node: ItemNode, origin: map<Item, ItemNode>)
    reads y`kind, y`count, y`itemlist
  {
    && node.created.Some? && node.count.Some?
    && Created(y.kind, y.isContainer, y.maxSize) == node.created.value && y.count == node.count.value
    && (y.isContainer ==> ListLoaded(y.itemlist, node.children, origin))
  }

  ghost predicate ListLoaded(list: seq<Item>, nodes: seq<ItemNode>, origin: map<Item, ItemNode>) {
    |list| == |nodes| && forall i | 0 <= i < |list| :: list[i] in origin && origin[list[i]] == nodes[i]
  }

  ghost predicate AllLoaded(F: set<Item>, origin: map<Item, ItemNode>)
    reads F`kind, F`count, F`itemlist
  {
    F == origin.Keys &&
    forall y {:trigger LoadedFrom(y, origin[y], origin)} | y in F :: LoadedFrom(y, origin[y], origin)
  }

  lemma AllLoadedUnion(F: set<Item>, G: set<Item>, o: map<Item, ItemNode>, p: map<Item, ItemNode>)
    requires F !! G && AllLoaded(F, o) && AllLoaded(G, p)
    ensures AllLoaded(F + G, o + p) && o.Keys !! p.Keys
  {
    forall y | y in F + G
      ensures LoadedFrom(y, (o + p)[y], o + p)
    {
      assert if y in F then LoadedFrom(y, o[y], o) else LoadedFrom(y, p[y], p);
    }
  }

  lemma OneMoreLoaded(list: seq<Item>, nodes: seq<ItemNode>, k: nat, item: Item, o: map<Item, ItemNode>,
                      p: map<Item, ItemNode>)
    requires k < |nodes| && ListLoaded(list, nodes[..k], o) && o.Keys !! p.Keys
    requires item in p && p[item] == nodes[k]
    ensures ListLoaded(list + [item], nodes[..k + 1], o + p)
  {
  }

  lemma ChildMayEnter(c: Item, item: Item, S: set<Item>, F: set<Item>)
    requires Valid(Snap(S)) && c in S && c.isContainer && S !! F
    requires Valid(Snap(F)) && item in F && item.parent == null
    ensures Valid(Snap(S + F)) && Attachable(Snap(S + F), c, |c.itemlist|, item)
  {
    SnapUnion(S, F);
    UnionValid(Snap(S), Snap(F));
    UnionAttachable(Snap(S), Snap(F), c, |c.itemlist|, item);
  }

  lemma ChildLoaded(item: Item, child: ItemNode, F: set<Item>, origin: map<Item, ItemNode>)
    requires AllLoaded(F, origin) && item !in F
    requires child.created == Some(Created(item.kind, item.isContainer, item.maxSize))
    requires child.count == Some(item.count)
    requires item.isContainer ==> ListLoaded(item.itemlist, child.children, origin)
    ensures AllLoaded({item} + F, origin[item := child])
  {
    forall y | y in {item} + F
      ensures LoadedFrom(y, origin[item := child][y], origin[item := child])
    {
      if y in F {
        assert LoadedFrom(y, origin[y], origin);
      }
    }
  }

  method SetCount(c: Item, count: nat, ghost S: set<Item>)
    requires Valid(Snap(S)) && c in S && c.parent == null
    modifies c`count
    ensures c.count == count && Valid(Snap(S))
  {
    ghost var f := Snap(S);
    c.count := count;
    RootMayChange(f, c, c.OwnWeight(), c.AmmoUnits());
    SnapIs(S, f[c := f[c].(own := c.OwnWeight(), units := c.AmmoUnits())]);
  }

  lemma NothingLoaded()
    ensures AllLoaded({}, map[]) && ListLoaded([], [], map[])
  {
  }

  lemma LoadedAre(F: set<Item>, origin: map<Item, ItemNode>)
    requires AllLoaded(F, origin)
    ensures F == origin.Keys
  {
  }

  /**
   * Container::unserializeItemNode, and Item::unserializeItemNode for a plain item; c lies nowhere yet. Whether it
   * succeeds or not, c has the items of the child nodes before the first one that cannot be loaded.
   */
  method UnserializeItemNode(c: Item, node: ItemNode, ghost S: set<Item>)
    returns (ok: bool, ghost F: set<Item>, ghost origin: map<Item, ItemNode>)
    requires Valid(Snap(S)) && c in S && c.parent == null && c.itemlist == []
    modifies S`depth, S`totalWeight, c`count, c`itemlist, c`ammoCount
    ensures fresh(F) && Valid(Snap(S + F)) && c.parent == null
    ensures ok <==> Loadable(node, c.isContainer)
    ensures origin.Keys <= F && AllLoaded(origin.Keys, origin) && (ok ==> AllLoaded(F, origin))
    ensures c.count == if node.count.Some? then node.count.value else old(c.count)
    ensures if c.isContainer && node.count.Some? then
              exists k: nat :: StopsAt(node.children, k) && ListLoaded(c.itemlist, node.children[..k], origin)
            else c.itemlist == []
    ensures ok && c.isContainer ==> ListLoaded(c.itemlist, node.children, origin)
    decreases node, 1
  {
    hide *;
    F, origin := {}, map[];
    NothingLoaded();
    LoadableIs(node, c.isContainer);
    assert S + F == S;
    if node.count.None? {
      return false, F, origin;
    }
    SetCount(c, node.count.value, S);
    if !c.isContainer {
      return true, F, origin;
    }
    ok, F, origin := LoadChildren(c, node, S);
  }

  method LoadChildren(c: Item, node: ItemNode, ghost S: set<Item>)
    returns (ok: bool, ghost F: set<Item>, ghost origin: map<Item, ItemNode>)
    requires Valid(Snap(S)) && c in S && c.parent == null && c.itemlist == [] && c.isContainer
    modifies S`depth, S`totalWeight, c`itemlist, c`ammoCount
    ensures fresh(F) && Valid(Snap(S + F))
    ensures ok <==> StopsAt(node.children, |node.children|)
    ensures origin.Keys <= F && AllLoaded(origin.Keys, origin) && (ok ==> AllLoaded(F, origin))
    ensures exists k: nat :: StopsAt(node.children, k) && ListLoaded(c.itemlist, node.children[..k], origin)
    ensures ok ==> ListLoaded(c.itemlist, node.children, origin)
    decreases node, 0
  {
    hide *;
    F, origin := {}, map[];
    NothingLoaded();
    assert S + F == S;
    var k := 0;
    assert node.children[..k] == [];
    while k < |node.children|
      invariant k <= |node.children| && fresh(F) && Valid(Snap(S + F)) && AllLoaded(F, origin)
      invariant c.parent == null
      invariant forall j | 0 <= j < k :: ChildLoadable(node.children[j])
      invariant ListLoaded(c.itemlist, node.children[..k], origin)
    {
      ghost var list := c.itemlist;
      var item, G, p := LoadChild(c, node.children[k], S + F);
      assert S + F + G == S + (F + G);
      if item == null {
        StopsAtIs(node.children, k);
        StopsAtIs(node.children, |node.children|);
        LoadedAre(F, origin);
        return false, F + G, origin;
      }
      AllLoadedUnion(F, G, origin, p);
      OneMoreLoaded(list, node.children, k, item, origin, p);
      F, origin := F + G, origin + p;
      k := k + 1;
    }
    assert node.children[..k] == node.children;
    StopsAtIs(node.children, k);
    LoadedAre(F, origin);
    ok := true;
  }

  /** One round of the loading loop: the child is created, loaded and, if all went well, added to c. */
  method LoadChild(c: Item, child: ItemNode, ghost S: set<Item>)
    returns (loaded: Item?, ghost F: set<Item>, ghost origin: map<Item, ItemNode>)
    requires Valid(Snap(S)) && c in S && c.isContainer
    modifies S`depth, S`totalWeight, c`itemlist, c`ammoCount
    ensures fresh(F) && Valid(Snap(S + F))
    ensures loaded != null <==> ChildLoadable(child)
    ensures loaded != null ==>
              && AllLoaded(F, origin) && loaded in origin && origin[loaded] == child
              && c.itemlist == old(c.itemlist) + [loaded]
    ensures loaded == null ==> c.itemlist == old(c.itemlist)
    decreases child, 3
  {
    hide *;
    loaded, F, origin := null, {}, map[];
    assert S + F == S;
    ChildLoadableIs(child);
    if !child.isItem || !child.hasProps || child.created.None? {
      return;
    }
    var item, ok;
    item, ok, F, origin := LoadNew(child, child.created.value);
    ChildMayEnter(c, item, S, F);
    if !ok {
      return;
    }
    loaded := item;
    AddItemBack(c, item, S + F);
  }

  /** The item a child node creates, with all that is loaded into it. */
  method LoadNew(child: ItemNode, created: Created)
    returns (item: Item, ok: bool, ghost F: set<Item>, ghost origin: map<Item, ItemNode>)
    requires child.created == Some(created)
    ensures fresh(F) && Valid(Snap(F)) && item in F && item.parent == null
    ensures ok <==> Loadable(child, created.isContainer)
    ensures ok ==> AllLoaded(F, origin) && item in origin && origin[item] == child
    decreases child, 2
  {
    hide *;
    item := new Item(created.kind, 1, created.isContainer, created.maxSize);
    NewItemOwesNothing(item);
    LoadableIs(child, created.isContainer);
    ok, F, origin := UnserializeItemNode(item, child, {item});
    if ok {
      ChildLoaded(item, child, F, origin);
      origin := origin[item := child];
    }
    F := {item} + F;
  }
}
