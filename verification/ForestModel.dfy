/**
 * The container forest as a value: what every mutation of src/container.cpp does to links, cached weights and
 * cached ammunition counts, and why the caches stay equal to the recomputed values.
 */
module ForestModel {
  import opened WordArithmetic
  import opened Options
  import opened SnapshotSums

  /**
   * An item. Only a box holds others; own is its weight without content, units the ammunition it stands for,
   * total and ammo are the caches; depth grows strictly from a box to its content.
   */
  datatype Node<T> = Node(box: bool, own: nat, units: nat, parent: Option<T>, list: seq<T>, total: nat, ammo: nat,
                          depth: nat)
  {
    function Weight(): nat {
      if box then Wrap(own + total) else own
    }
  }

  type Forest<T> = map<T, Node<T>>

  ghost function Weights<T>(f: Forest<T>): map<T, int> {
    map x | x in f :: f[x].Weight()
  }

  ghost function Units<T>(f: Forest<T>): map<T, int> {
    map x | x in f :: f[x].units
  }

  /** x is the parent of what it lists, lists nothing twice, and lies strictly below its own parent. */
  ghost predicate LinkOk<T>(f: Forest<T>, x: T)
    requires x in f
  {
    && (f[x].parent.Some? ==>
          f[x].parent.value in f && f[f[x].parent.value].box && f[f[x].parent.value].depth < f[x].depth)
    && NoDup(f[x].list)
    && (forall c | c in f[x].list :: c in f && f[c].parent == Some(x))
    && (!f[x].box ==> f[x].list == [])
  }

  ghost predicate Linked<T>(f: Forest<T>) {
    forall x {:trigger LinkOk(f, x)} | x in f :: LinkOk(f, x)
  }

  /** The parent of x lists it. */
  ghost predicate Listed<T>(f: Forest<T>, x: T)
    requires x in f
  {
    f[x].parent.Some? ==> f[x].parent.value in f && x in f[f[x].parent.value].list
  }

  ghost predicate ListedTo<T>(f: Forest<T>, depth: int) {
    forall x {:trigger Listed(f, x)} | x in f && f[x].depth <= depth :: Listed(f, x)
  }

  /** The cached weight of box x equals the sum over its content, short of d. */
  ghost predicate WeightOff<T>(f: Forest<T>, x: T, d: int)
    requires x in f
  {
    f[x].box ==> f[x].total == Wrap(Sum(f[x].list, Weights(f)) - d)
  }

  /** The cached weight of x is short of exactly its deficit. */
  ghost predicate Owes<T>(f: Forest<T>, off: map<T, int>, x: T)
    requires x in f
  {
    WeightOff(f, x, At(off, x))
  }

  /** Only c is short, by e. */
  ghost function Due<T>(c: T, e: int): map<T, int> {
    map[c := e]
  }

  ghost predicate Deficits<T>(f: Forest<T>, off: map<T, int>) {
    forall x {:trigger Owes(f, off, x)} | x in f :: Owes(f, off, x)
  }

  ghost predicate AmmoOk<T>(f: Forest<T>, x: T)
    requires x in f
  {
    f[x].box ==> f[x].ammo == Sum(f[x].list, Units(f))
  }

  ghost predicate AmmoExact<T>(f: Forest<T>) {
    forall x {:trigger AmmoOk(f, x)} | x in f :: AmmoOk(f, x)
  }

  /** The forest invariant: mirrored links without duplicates or cycles, and exact caches. */
  ghost predicate Valid<T>(f: Forest<T>) {
    && Linked(f)
    && (forall x {:trigger Listed(f, x)} | x in f :: Listed(f, x))
    && Deficits(f, map[])
    && AmmoExact(f)
  }

  // ---------------------------------------------------------------- weight propagation

  function Bump<T>(f: Forest<T>, c: T, d: int): Forest<T>
    requires c in f
  {
    f[c := f[c].(total := Wrap(f[c].total + d))]
  }

  lemma BumpLinked<T>(f: Forest<T>, c: T, d: int)
    requires Linked(f) && c in f
    ensures Linked(Bump(f, c, d))
    ensures forall depth | ListedTo(f, depth) :: ListedTo(Bump(f, c, d), depth)
  {
    var g := Bump(f, c, d);
    forall x | x in g
      ensures LinkOk(g, x)
    {
      assert LinkOk(f, x);
    }
    forall depth | ListedTo(f, depth)
      ensures ListedTo(g, depth)
    {
      forall x | x in g && g[x].depth <= depth
        ensures Listed(g, x)
      {
        assert Listed(f, x);
      }
    }
  }

  lemma BumpedWeight<T>(f: Forest<T>, c: T, d: int)
    requires c in f && f[c].box
    ensures Wrap(Bump(f, c, d)[c].Weight()) == Wrap(f[c].Weight() + d)
  {
    var own, total := f[c].own, f[c].total;
    WrapOfSum(own, total + d);
    WrapOfSum(own + total, d);
    WrapOfSum(own + total + d, 0);
  }

  /** Adding d to the cache of c moves the deficit d from c to its parent. */
  lemma BumpOne<T>(f: Forest<T>, c: T, d: int, x: T, e: int)
    requires Linked(f) && c in f && f[c].box && Listed(f, c)
    requires x in f && WeightOff(f, x, e)
    ensures WeightOff(Bump(f, c, d), x,
                      e - (if x == c then d else 0) + (if f[c].parent == Some(x) then d else 0))
  {
    assert LinkOk(f, x) && LinkOk(f, c);
    var m, m' := Weights(f), Weights(Bump(f, c, d));
    var sum, total := Sum(f[x].list, m), f[x].total;
    assert forall y | y in f && y != c :: At(m, y) == At(m', y);
    if f[c].parent == Some(x) {
      BumpedWeight(f, c, d);
      SumOneChange(f[x].list, m, m', c);
      WrapCongruent(m'[c], m[c] + d, sum - m[c] - e - d);
    } else {
      SumSame(f[x].list, m, m');
      WrapOfSum(sum - e, d);
    }
  }

  /** The deficits after Bump: d less at c, d more at its parent. */
  ghost function Moved<T>(off: map<T, int>, c: T, d: int, p: Option<T>): map<T, int> {
    var off' := off[c := At(off, c) - d];
    if p.Some? then off'[p.value := At(off', p.value) + d] else off'
  }

  lemma BumpMoves<T>(f: Forest<T>, c: T, d: int, off: map<T, int>)
    requires Linked(f) && c in f && f[c].box && Listed(f, c) && Deficits(f, off)
    ensures Deficits(Bump(f, c, d), Moved(off, c, d, f[c].parent))
  {
    var g, off' := Bump(f, c, d), Moved(off, c, d, f[c].parent);
    forall x | x in g
      ensures Owes(g, off', x)
    {
      assert Owes(f, off, x);
      BumpOne(f, c, d, x, At(off, x));
    }
  }

  lemma SameDeficits<T>(f: Forest<T>, off: map<T, int>, off': map<T, int>)
    requires Deficits(f, off) && forall x | x in f :: At(off, x) == At(off', x)
    ensures Deficits(f, off')
  {
    forall x | x in f
      ensures Owes(f, off', x)
    {
      assert Owes(f, off, x);
    }
  }

  /** Container::updateItemWeight: the difference is added here and in every enclosing box. */
  ghost function Propagate<T>(f: Forest<T>, c: T, d: int): Forest<T>
    requires Linked(f) && c in f
    decreases f[c].depth
  {
    assert LinkOk(f, c);
    BumpLinked(f, c, d);
    if f[c].parent.Some? then Propagate(Bump(f, c, d), f[c].parent.value, d) else Bump(f, c, d)
  }

  /** f and g differ in cached weights only. */
  ghost predicate SameButTotals<T>(f: Forest<T>, g: Forest<T>) {
    f.Keys == g.Keys && forall x | x in f :: g[x] == f[x].(total := g[x].total)
  }

  /** Propagation of d from c changes one deficit: the one of c, by d. All boxes above stay as they were. */
  lemma {:induction false} PropagateShifts<T>(f: Forest<T>, c: T, d: int, off: map<T, int>)
    requires Linked(f) && c in f && f[c].box && ListedTo(f, f[c].depth)
    requires Deficits(f, off)
    ensures Linked(Propagate(f, c, d)) && SameButTotals(f, Propagate(f, c, d))
    ensures Deficits(Propagate(f, c, d), off[c := At(off, c) - d])
    decreases f[c].depth
  {
    var g, off' := Bump(f, c, d), Moved(off, c, d, f[c].parent);
    assert LinkOk(f, c) && Listed(f, c);
    BumpLinked(f, c, d);
    BumpMoves(f, c, d, off);
    if f[c].parent.Some? {
      var p := f[c].parent.value;
      PropagateShifts(g, p, d, off');
      SameDeficits(Propagate(g, p, d), off'[p := At(off', p) - d], off[c := At(off, c) - d]);
    }
  }

  /** Deficits count modulo 2^32. */
  lemma DeficitModuloWord<T>(f: Forest<T>, c: T, e: int, d: int)
    requires Deficits(f, Due(c, e)) && Wrap(e - d) == 0
    ensures Deficits(f, Due(c, d))
  {
    forall x | x in f
      ensures Owes(f, Due(c, d), x)
    {
      assert Owes(f, Due(c, e), x);
      if x == c {
        WrapCongruent(e - d, 0, Sum(f[x].list, Weights(f)) - e);
      }
    }
  }

  /** Propagating the one missing difference, given modulo 2^32, leaves no deficit. */
  lemma Settle<T>(f: Forest<T>, c: T, e: int, d: int)
    requires Linked(f) && c in f && f[c].box && ListedTo(f, f[c].depth)
    requires Deficits(f, Due(c, e)) && Wrap(e - d) == 0
    ensures Linked(Propagate(f, c, d)) && SameButTotals(f, Propagate(f, c, d))
    ensures Deficits(Propagate(f, c, d), map[])
  {
    DeficitModuloWord(f, c, e, d);
    PropagateShifts(f, c, d, Due(c, d));
    SameDeficits(Propagate(f, c, d), Due(c, d)[c := 0], map[]);
  }

  /** Forests with the same links, weights and ammunition have the same upward mirror and exact ammunition. */
  lemma TotalsDoNotMatter<T>(f: Forest<T>, g: Forest<T>)
    requires SameButTotals(f, g)
    ensures forall x | x in f && Listed(f, x) :: Listed(g, x)
    ensures forall x | x in f && AmmoOk(f, x) :: AmmoOk(g, x)
  {
    assert Units(f) == Units(g);
  }

  // ---------------------------------------------------------------- ancestors

  /** The parent chain of x reaches a. */
  ghost predicate Reaches<T>(f: Forest<T>, x: T, a: T)
    requires Linked(f) && x in f
    decreases f[x].depth
  {
    x == a || (f[x].parent.Some? && (assert LinkOk(f, x); Reaches(f, f[x].parent.value, a)))
  }

  /** A chain leads to strictly smaller depths. */
  lemma {:induction false} ReachesUp<T>(f: Forest<T>, x: T, a: T)
    requires Linked(f) && x in f && Reaches(f, x, a)
    ensures a in f && (x != a ==> f[a].depth < f[x].depth)
    decreases f[x].depth
  {
    assert LinkOk(f, x);
    if x != a {
      ReachesUp(f, f[x].parent.value, a);
    }
  }

  /** No item lies inside itself. */
  lemma NoCycle<T>(f: Forest<T>, x: T)
    requires Linked(f) && x in f && f[x].parent.Some?
    ensures LinkOk(f, x) && !Reaches(f, f[x].parent.value, x)
  {
    assert LinkOk(f, x);
    if Reaches(f, f[x].parent.value, x) {
      ReachesUp(f, f[x].parent.value, x);
    }
  }

  /** A chain of f that does not pass x is still a chain when only the parent of x has changed. */
  lemma {:induction false} ChainSurvives<T>(f: Forest<T>, g: Forest<T>, y: T, x: T)
    requires Linked(f) && Linked(g) && f.Keys == g.Keys && y in f && Reaches(f, y, x)
    requires forall z | z in f && z != x :: g[z].parent == f[z].parent
    ensures Reaches(g, y, x)
    decreases f[y].depth
  {
    assert LinkOk(f, y) && LinkOk(g, y);
    if y != x {
      ChainSurvives(f, g, f[y].parent.value, x);
    }
  }

  /** Hanging x below c when x already encloses c is never a forest, however depths are chosen. */
  lemma EnclosingItemMakesCycle<T>(f: Forest<T>, g: Forest<T>, c: T, x: T)
    requires Linked(f) && c in f && x in f && Reaches(f, c, x)
    requires f.Keys == g.Keys && g[x].parent == Some(c)
    requires forall z | z in f && z != x :: g[z].parent == f[z].parent
    ensures !Linked(g)
  {
    if Linked(g) {
      ChainSurvives(f, g, c, x);
      NoCycle(g, x);
    }
  }

  // ---------------------------------------------------------------- putting an item into a box

  /** The tree below a sinks by k. */
  ghost function Sink<T>(f: Forest<T>, a: T, k: nat): (g: Forest<T>)
    requires Linked(f)
  {
    map x | x in f :: if Reaches(f, x, a) then f[x].(depth := f[x].depth + k) else f[x]
  }

  ghost function InsertAt<T>(s: seq<T>, i: nat, x: T): seq<T>
    requires i <= |s|
  {
    s[..i] + [x] + s[i..]
  }

  lemma InsertAtEnds<T>(s: seq<T>, x: T)
    ensures InsertAt(s, 0, x) == [x] + s && InsertAt(s, |s|, x) == s + [x]
  {
    assert s[..0] + [x] + s[0..] == [x] + s;
    assert s[..|s|] + [x] + s[|s|..] == s + [x];
  }

  /** x becomes content of c at place i: links and ammunition, with the weight still missing at c. */
  ghost function Link<T>(f: Forest<T>, c: T, list: seq<T>, x: T): (g: Forest<T>)
    requires c in f && x in f
  {
    f[x := f[x].(parent := Some(c))][c := f[c].(list := list, ammo := f[c].ammo + f[x].units)]
  }

  ghost function Attach<T>(f: Forest<T>, c: T, i: nat, x: T): (g: Forest<T>)
    requires Linked(f) && c in f && x in f && i <= |f[c].list|
  {
    Link(Sink(f, x, f[c].depth + 1), c, InsertAt(f[c].list, i, x), x)
  }

  lemma AttachIsLink<T>(f: Forest<T>, c: T, i: nat, x: T, k: nat, list: seq<T>)
    requires Attachable(f, c, i, x) && k == f[c].depth + 1 && list == InsertAt(f[c].list, i, x)
    ensures c != x && Attach(f, c, i, x) == Link(Sink(f, x, k), c, list, x)
  {
  }

  /** Everything of the invariant but the cached weights. */
  ghost predicate Tidy<T>(f: Forest<T>) {
    Linked(f) && (forall x {:trigger Listed(f, x)} | x in f :: Listed(f, x)) && AmmoExact(f)
  }

  /** The item x, in no box itself and not enclosing c, may enter box c at place i. */
  ghost predicate Attachable<T>(f: Forest<T>, c: T, i: nat, x: T) {
    Tidy(f) && c in f && f[c].box && x in f && f[x].parent.None? && i <= |f[c].list| && !Reaches(f, c, x)
  }

  lemma AttachLinks<T>(f: Forest<T>, c: T, i: nat, x: T)
    requires Attachable(f, c, i, x)
    ensures Linked(Attach(f, c, i, x))
  {
    var g := Attach(f, c, i, x);
    forall y | y in g
      ensures LinkOk(g, y)
    {
      assert LinkOk(f, y) && LinkOk(f, c);
      assert x !in f[y].list;
    }
  }

  lemma AttachListed<T>(f: Forest<T>, c: T, i: nat, x: T)
    requires Attachable(f, c, i, x)
    ensures forall y | y in f :: Listed(Attach(f, c, i, x), y)
  {
    var g := Attach(f, c, i, x);
    assert forall y | y in f[c].list :: y in g[c].list;
    forall y | y in g
      ensures Listed(g, y)
    {
      assert Listed(f, y);
    }
  }

  lemma AttachAmmo<T>(f: Forest<T>, c: T, i: nat, x: T)
    requires Attachable(f, c, i, x)
    ensures AmmoExact(Attach(f, c, i, x))
  {
    var g := Attach(f, c, i, x);
    assert Units(f) == Units(g);
    SumInsertAt(f[c].list, i, x, Units(f));
    forall y | y in g
      ensures AmmoOk(g, y)
    {
      assert AmmoOk(f, y);
    }
  }

  lemma AttachWeights<T>(f: Forest<T>, c: T, i: nat, x: T)
    requires Attachable(f, c, i, x)
    ensures var g := Attach(f, c, i, x);
            && g.Keys == f.Keys && Weights(g) == Weights(f) && g[x].Weight() == f[x].Weight()
            && forall y | y in f :: g[y].box == f[y].box && g[y].total == f[y].total
    ensures forall y | y in f :: Attach(f, c, i, x)[y].list == if y == c then InsertAt(f[c].list, i, x) else f[y].list
  {
    hide *;
    AttachedNodes(f, c, i, x);
    SameWeights(f, Attach(f, c, i, x));
  }

  lemma AttachedNodes<T>(f: Forest<T>, c: T, i: nat, x: T)
    requires Attachable(f, c, i, x)
    ensures Linked(f) && c in f && x in f && i <= |f[c].list|
    ensures var g := Attach(f, c, i, x);
            && g.Keys == f.Keys
            && forall y | y in f ::
                 && g[y].box == f[y].box && g[y].own == f[y].own && g[y].total == f[y].total
                 && g[y].list == if y == c then InsertAt(f[c].list, i, x) else f[y].list
  {
  }

  lemma SameWeights<T>(f: Forest<T>, g: Forest<T>)
    requires f.Keys == g.Keys
    requires forall y | y in f :: g[y].box == f[y].box && g[y].own == f[y].own && g[y].total == f[y].total
    ensures Weights(g) == Weights(f) && forall y | y in f :: g[y].Weight() == f[y].Weight()
  {
  }

  lemma AttachDeficit<T>(f: Forest<T>, c: T, i: nat, x: T, off: map<T, int>)
    requires Attachable(f, c, i, x) && Deficits(f, off)
    ensures Deficits(Attach(f, c, i, x), off[c := At(off, c) + f[x].Weight()])
  {
    var g, off' := Attach(f, c, i, x), off[c := At(off, c) + f[x].Weight()];
    AttachWeights(f, c, i, x);
    SumInsertAt(f[c].list, i, x, Weights(f));
    forall y | y in g
      ensures Owes(g, off', y)
    {
      assert Owes(f, off, y);
      if y == c {
        assert At(off', y) == At(off, y) + f[x].Weight();
      }
    }
  }

  lemma SumInsertAt<T>(s: seq<T>, i: nat, x: T, m: map<T, int>)
    requires i <= |s|
    ensures Sum(InsertAt(s, i, x), m) == Sum(s, m) + At(m, x)
  {
    assert s == s[..i] + s[i..];
    SumConcat(s[..i], s[i..], m);
    SumConcat(s[..i] + [x], s[i..], m);
    SumConcat(s[..i], [x], m);
  }

  /** What every way of putting x into box c does: attach, then spread the 32-bit weight upwards. */
  ghost function Insert<T>(f: Forest<T>, c: T, i: nat, x: T): Forest<T>
    requires Attachable(f, c, i, x)
  {
    AttachLinks(f, c, i, x);
    Propagate(Attach(f, c, i, x), c, AsInt32(f[x].Weight()))
  }

  lemma InsertSettles<T>(f: Forest<T>, c: T, i: nat, x: T)
    requires Valid(f) && Attachable(f, c, i, x)
    ensures Valid(Insert(f, c, i, x)) && SameButTotals(Attach(f, c, i, x), Insert(f, c, i, x))
  {
    var w := f[x].Weight();
    AttachLinks(f, c, i, x);
    AttachListed(f, c, i, x);
    AttachAmmo(f, c, i, x);
    AttachDeficit(f, c, i, x, map[]);
    SameDeficits(Attach(f, c, i, x), map[][c := w], Due(c, w));
    WrapCongruent(w, AsInt32(w), 0 - AsInt32(w));
    Settle(Attach(f, c, i, x), c, w, AsInt32(w));
    TotalsDoNotMatter(Attach(f, c, i, x), Insert(f, c, i, x));
    assert forall y | y in f :: AmmoOk(Attach(f, c, i, x), y);
  }

  lemma InsertKeepsValid<T>(f: Forest<T>, c: T, i: nat, x: T, d: int)
    requires Valid(f) && Attachable(f, c, i, x) && d == AsInt32(f[x].Weight())
    ensures Linked(Attach(f, c, i, x)) && Attach(f, c, i, x)[c].box
    ensures Insert(f, c, i, x) == Propagate(Attach(f, c, i, x), c, d)
    ensures Valid(Insert(f, c, i, x))
  {
    AttachLinks(f, c, i, x);
    InsertSettles(f, c, i, x);
  }

  /** The links after x has been put into place i of c, whatever depths and caches are. */
  ghost predicate Inserted<T>(f: Forest<T>, g: Forest<T>, c: T, i: nat, x: T)
    requires c in f && i <= |f[c].list|
  {
    && f.Keys == g.Keys && g[c].list == InsertAt(f[c].list, i, x)
    && (forall y | y in f :: g[y].box == f[y].box && (y != c ==> g[y].list == f[y].list))
    && (forall y | y in f :: g[y].parent == if y == x then Some(c) else f[y].parent)
  }

  /** An item that lies in a container already is listed twice after it has been put into one. */
  lemma InsertedWasDetached<T>(f: Forest<T>, g: Forest<T>, c: T, i: nat, x: T)
    requires Valid(f) && c in f && i <= |f[c].list| && x in f
    requires Inserted(f, g, c, i, x) && Linked(g)
    ensures f[x].parent.None?
  {
    assert LinkOk(f, c) && LinkOk(g, c) && Listed(f, x);
    assert g[c].list[i] == x && g[x].parent == Some(c);
    forall p | p in f
      ensures x !in f[p].list
    {
      assert LinkOk(g, p);
      if p == c {
        assert forall j | 0 <= j < i :: g[c].list[j] == f[c].list[j];
        assert forall j | i <= j < |f[c].list| :: g[c].list[j + 1] == f[c].list[j];
      }
    }
  }

  lemma InsertHasTheseLinks<T>(f: Forest<T>, c: T, i: nat, x: T)
    requires Valid(f) && Attachable(f, c, i, x)
    ensures Inserted(f, Insert(f, c, i, x), c, i, x) && Valid(Insert(f, c, i, x))
  {
    InsertSettles(f, c, i, x);
  }

  /**
   * Putting x into c leaves a forest, with some depths, exactly when x was detached and does not enclose c. It is then
   * a valid one.
   */
  lemma InsertNeedsDetached<T>(f: Forest<T>, c: T, i: nat, x: T)
    requires Valid(f) && c in f && f[c].box && i <= |f[c].list| && x in f
    ensures (exists g :: Inserted(f, g, c, i, x) && Linked(g)) <==> f[x].parent.None? && !Reaches(f, c, x)
    ensures f[x].parent.None? && !Reaches(f, c, x) ==>
              Attachable(f, c, i, x) && Inserted(f, Insert(f, c, i, x), c, i, x) && Valid(Insert(f, c, i, x))
  {
    if f[x].parent.None? && !Reaches(f, c, x) {
      InsertHasTheseLinks(f, c, i, x);
    }
    forall g | Inserted(f, g, c, i, x) && Linked(g)
      ensures f[x].parent.None? && !Reaches(f, c, x)
    {
      InsertedWasDetached(f, g, c, i, x);
      if Reaches(f, c, x) {
        EnclosingItemMakesCycle(f, g, c, x);
      }
    }
  }

  // ---------------------------------------------------------------- changing a listed item

  /** updateAmmoCount: additions are plain, subtractions stop at zero. */
  function UpdatedAmmo(ammo: nat, isAmmo: bool, diff: int): nat {
    if !isAmmo || diff == 0 then ammo
    else if diff > 0 then ammo + diff
    else ammo - (if ammo < -diff then ammo else -diff)
  }

  lemma {:induction false} ListedUnits<T>(s: seq<T>, m: map<T, int>, x: T)
    requires x in s && forall y | y in s :: At(m, y) >= 0
    ensures Sum(s, m) >= At(m, x)
  {
    if s[0] == x {
      SumNonNegative(s[1..], m);
    } else {
      ListedUnits(s[1..], m, x);
    }
  }

  lemma {:induction false} SumNonNegative<T>(s: seq<T>, m: map<T, int>)
    requires forall y | y in s :: At(m, y) >= 0
    ensures Sum(s, m) >= 0
  {
    if s != [] {
      SumNonNegative(s[1..], m);
    }
  }

  /** The listed item x of c gets another own weight and ammunition; c accounts for the ammunition. */
  ghost function Recast<T>(f: Forest<T>, c: T, x: T, own: nat, units: nat): Forest<T>
    requires c in f && x in f && f[c].ammo + units >= f[x].units
  {
    var g := f[x := f[x].(own := own, units := units)];
    g[c := g[c].(ammo := g[c].ammo - f[x].units + units)]
  }

  ghost predicate Recastable<T>(f: Forest<T>, c: T, x: T) {
    Valid(f) && c in f && x in f && x in f[c].list
  }

  lemma RecastFacts<T>(f: Forest<T>, c: T, x: T)
    requires Recastable(f, c, x)
    ensures f[c].box && f[x].parent == Some(c) && x != c && f[c].ammo >= f[x].units
  {
    assert LinkOk(f, c) && LinkOk(f, x) && AmmoOk(f, c);
    ListedUnits(f[c].list, Units(f), x);
  }

  lemma RecastKeepsLinks<T>(f: Forest<T>, c: T, x: T, own: nat, units: nat)
    requires Recastable(f, c, x) && f[c].ammo >= f[x].units
    ensures Linked(Recast(f, c, x, own, units))
    ensures forall y | y in f :: Listed(Recast(f, c, x, own, units), y)
  {
    var g := Recast(f, c, x, own, units);
    forall y | y in g
      ensures LinkOk(g, y) && Listed(g, y)
    {
      assert LinkOk(f, y) && Listed(f, y);
    }
  }

  lemma RecastAmmo<T>(f: Forest<T>, c: T, x: T, own: nat, units: nat)
    requires Recastable(f, c, x) && f[c].ammo >= f[x].units
    ensures AmmoExact(Recast(f, c, x, own, units))
  {
    var g := Recast(f, c, x, own, units);
    RecastFacts(f, c, x);
    forall y | y in g
      ensures AmmoOk(g, y)
    {
      assert AmmoOk(f, y) && LinkOk(f, y);
      if y == c {
        SumOneChange(f[y].list, Units(f), Units(g), x);
      } else {
        SumSame(f[y].list, Units(f), Units(g));
      }
    }
  }

  lemma RecastDeficit<T>(f: Forest<T>, c: T, x: T, own: nat, units: nat)
    requires Recastable(f, c, x) && f[c].ammo >= f[x].units
    ensures var g := Recast(f, c, x, own, units);
            Deficits(g, Due(c, g[x].Weight() - f[x].Weight()))
  {
    var g := Recast(f, c, x, own, units);
    var off := Due(c, g[x].Weight() - f[x].Weight());
    RecastFacts(f, c, x);
    forall y | y in g
      ensures Owes(g, off, y)
    {
      assert Owes(f, map[], y) && LinkOk(f, y);
      if y == c {
        SumOneChange(f[y].list, Weights(f), Weights(g), x);
      } else {
        SumSame(f[y].list, Weights(f), Weights(g));
      }
    }
  }

  /** updateThing and the partial branch of removeThing. */
  ghost function Update<T>(f: Forest<T>, c: T, x: T, own: nat, units: nat): Forest<T>
    requires Recastable(f, c, x)
  {
    RecastFacts(f, c, x);
    RecastKeepsLinks(f, c, x, own, units);
    var g := Recast(f, c, x, own, units);
    Propagate(g, c, AsInt32(g[x].Weight() - f[x].Weight()))
  }

  lemma UpdateSettles<T>(f: Forest<T>, c: T, x: T, own: nat, units: nat)
    requires Recastable(f, c, x)
    ensures Valid(Update(f, c, x, own, units))
    ensures f[c].ammo >= f[x].units
    ensures SameButTotals(Recast(f, c, x, own, units), Update(f, c, x, own, units))
  {
    RecastFacts(f, c, x);
    var g := Recast(f, c, x, own, units);
    var d := g[x].Weight() - f[x].Weight();
    RecastKeepsLinks(f, c, x, own, units);
    RecastAmmo(f, c, x, own, units);
    RecastDeficit(f, c, x, own, units);
    WrapCongruent(d, AsInt32(d), 0 - AsInt32(d));
    Settle(g, c, d, AsInt32(d));
    TotalsDoNotMatter(g, Update(f, c, x, own, units));
    assert forall y | y in f :: AmmoOk(g, y);
  }

  lemma UpdateKeepsValid<T>(f: Forest<T>, c: T, x: T, own: nat, units: nat, d: int)
    requires Recastable(f, c, x) && f[c].ammo >= f[x].units
    requires d == AsInt32(Recast(f, c, x, own, units)[x].Weight() - f[x].Weight())
    ensures var g := Recast(f, c, x, own, units);
            Linked(g) && g[c].box && Update(f, c, x, own, units) == Propagate(g, c, d)
    ensures Valid(Update(f, c, x, own, units))
  {
    RecastFacts(f, c, x);
    RecastKeepsLinks(f, c, x, own, units);
    UpdateSettles(f, c, x, own, units);
  }

  // ---------------------------------------------------------------- taking an item out of a box

  /** Propagation from c touches c and its ancestors only. */
  lemma {:induction false} PropagateLeavesLower<T>(f: Forest<T>, c: T, d: int, y: T)
    requires Linked(f) && c in f && y in f && f[c].depth < f[y].depth
    ensures y in Propagate(f, c, d) && Propagate(f, c, d)[y] == f[y]
    decreases f[c].depth
  {
    assert LinkOk(f, c);
    BumpLinked(f, c, d);
    if f[c].parent.Some? {
      PropagateLeavesLower(Bump(f, c, d), f[c].parent.value, d, y);
    }
  }

  ghost function RemoveAt<T>(s: seq<T>, i: nat): seq<T>
    requires i < |s|
  {
    s[..i] + s[i + 1..]
  }

  /** c no longer lists its item at place i, which becomes a root. */
  ghost function Detach<T>(f: Forest<T>, c: T, i: nat): Forest<T>
    requires c in f && i < |f[c].list| && f[c].list[i] in f
  {
    var x := f[c].list[i];
    var g := f[c := f[c].(list := RemoveAt(f[c].list, i), ammo := UpdatedAmmo(f[c].ammo, true, 0 - f[x].units))];
    g[x := g[x].(parent := None)]
  }

  lemma DetachLinks<T>(f: Forest<T>, c: T, i: nat)
    requires Linked(f) && (forall x | x in f :: Listed(f, x)) && c in f && i < |f[c].list|
    ensures f[c].list[i] in f && f[c].list[i] != c
    ensures Linked(Detach(f, c, i)) && forall x | x in f :: Listed(Detach(f, c, i), x)
  {
    assert LinkOk(f, c);
    var g, r := Detach(f, c, i), f[c].list[i];
    assert LinkOk(f, r);
    forall y | y in g
      ensures LinkOk(g, y)
    {
      DetachKeepsLink(f, c, i, y);
    }
    forall y | y in g
      ensures Listed(g, y)
    {
      assert Listed(f, y);
      assert y in f[c].list && y != r ==> y in RemoveAt(f[c].list, i);
    }
  }

  lemma DetachKeepsLink<T>(f: Forest<T>, c: T, i: nat, y: T)
    requires Linked(f) && c in f && i < |f[c].list| && f[c].list[i] in f && f[c].list[i] != c && y in f
    ensures LinkOk(Detach(f, c, i), y)
  {
    assert LinkOk(f, c) && LinkOk(f, y);
    assert f[c].list[i] !in RemoveAt(f[c].list, i);
  }

  lemma DetachAmmo<T>(f: Forest<T>, c: T, i: nat)
    requires Linked(f) && AmmoExact(f) && c in f && i < |f[c].list| && f[c].list[i] in f && f[c].list[i] != c
    ensures AmmoExact(Detach(f, c, i))
  {
    assert LinkOk(f, c) && AmmoOk(f, c);
    var g, r := Detach(f, c, i), f[c].list[i];
    assert Units(f) == Units(g);
    SumRemoveAt(f[c].list, i, Units(f));
    ListedUnits(f[c].list, Units(f), r);
    forall y | y in g
      ensures AmmoOk(g, y)
    {
      assert AmmoOk(f, y);
    }
  }

  lemma DetachDeficit<T>(f: Forest<T>, c: T, i: nat)
    requires Linked(f) && c in f && i < |f[c].list| && f[c].list[i] in f && f[c].list[i] != c
    requires Deficits(f, Due(c, f[f[c].list[i]].Weight()))
    ensures Deficits(Detach(f, c, i), map[])
  {
    var g, off := Detach(f, c, i), Due(c, f[f[c].list[i]].Weight());
    assert LinkOk(f, c);
    assert Weights(f) == Weights(g);
    SumRemoveAt(f[c].list, i, Weights(f));
    forall y | y in g
      ensures Owes(g, map[], y)
    {
      assert Owes(f, off, y);
    }
  }

  ghost predicate Removable<T>(f: Forest<T>, c: T, i: nat) {
    Valid(f) && c in f && i < |f[c].list| && f[c].list[i] in f
  }

  /** The full branch of removeThing: the weight leaves the ancestors first, then the item leaves the list. */
  ghost function Remove<T>(f: Forest<T>, c: T, i: nat): (g: Forest<T>)
    requires Removable(f, c, i)
  {
    var d := AsInt32(0 - f[f[c].list[i]].Weight());
    RemovalSpreads(f, c, i);
    Detach(Propagate(f, c, d), c, i)
  }

  lemma SpreadOverValid<T>(f: Forest<T>, c: T, d: int)
    requires Valid(f) && c in f && f[c].box
    ensures var g := Propagate(f, c, d);
            && SameButTotals(f, g) && Linked(g) && AmmoExact(g) && (forall x | x in g :: Listed(g, x))
            && Deficits(g, Due(c, 0 - d))
  {
    PropagateShifts(f, c, d, map[]);
    TotalsDoNotMatter(f, Propagate(f, c, d));
    SameDeficits(Propagate(f, c, d), map[][c := 0 - d], Due(c, 0 - d));
    assert forall x | x in f :: AmmoOk(f, x);
  }

  lemma RemovalSpreads<T>(f: Forest<T>, c: T, i: nat)
    requires Removable(f, c, i)
    ensures var g := Propagate(f, c, AsInt32(0 - f[f[c].list[i]].Weight()));
            && SameButTotals(f, g) && Linked(g) && AmmoExact(g) && (forall x | x in g :: Listed(g, x))
            && g[f[c].list[i]] == f[f[c].list[i]]
            && Deficits(g, Due(c, g[f[c].list[i]].Weight()))
  {
    var r := f[c].list[i];
    var w: int := f[r].Weight();
    var d: int := AsInt32(0 - w);
    assert LinkOk(f, c) && LinkOk(f, r);
    SpreadOverValid(f, c, d);
    PropagateLeavesLower(f, c, d, r);
    NegatedWord(w);
    DeficitModuloWord(Propagate(f, c, d), c, 0 - d, w);
  }

  lemma NegatedWord(w: int)
    ensures Wrap(0 - AsInt32(0 - w) - w) == 0
  {
    var d: int := AsInt32(0 - w);
    WrapCongruent(d, 0 - w, 0 - d - w + w);
    WrapCongruent(0 - w - d, 0, 0);
    WrapCongruent(d, 0 - w, w);
    WrapCongruent(d + w, 0, 0 - d - w);
  }

  lemma RemoveSettles<T>(f: Forest<T>, c: T, i: nat)
    requires Removable(f, c, i)
    ensures Valid(Remove(f, c, i))
    ensures SameButTotals(Detach(f, c, i), Remove(f, c, i))
  {
    RemovalSpreads(f, c, i);
    var g := Propagate(f, c, AsInt32(0 - f[f[c].list[i]].Weight()));
    DetachLinks(g, c, i);
    DetachAmmo(g, c, i);
    DetachDeficit(g, c, i);
  }

  lemma RemoveKeepsValid<T>(f: Forest<T>, c: T, i: nat, d: int)
    requires Removable(f, c, i) && d == AsInt32(0 - f[f[c].list[i]].Weight())
    ensures f[c].box && f[c].list[i] != c && f[c].list[i] !in RemoveAt(f[c].list, i)
    ensures var g := Propagate(f, c, d);
            && c in g && g[c].list == f[c].list && f[c].list[i] in g
            && Remove(f, c, i) == Detach(g, c, i)
    ensures Valid(Remove(f, c, i))
  {
    assert LinkOk(f, c) && LinkOk(f, f[c].list[i]);
    RemovalSpreads(f, c, i);
    RemoveSettles(f, c, i);
  }

  // ---------------------------------------------------------------- replacing an item of a box

  ghost predicate Replaceable<T>(f: Forest<T>, c: T, i: nat, x: T) {
    && Valid(f) && c in f && i < |f[c].list| && f[c].list[i] in f
    && x in f && f[x].parent.None? && !Reaches(f, c, x)
  }

  /** x takes place i of c; the item that was there still names c as its parent. */
  ghost function Seat<T>(f: Forest<T>, c: T, i: nat, x: T): Forest<T>
    requires c in f && x in f && i < |f[c].list|
  {
    f[x := f[x].(parent := Some(c))][c := f[c].(list := f[c].list[i := x])]
  }

  ghost function Place<T>(f: Forest<T>, c: T, i: nat, x: T): Forest<T>
    requires Replaceable(f, c, i, x)
  {
    Seat(Sink(f, x, f[c].depth + 1), c, i, x)
  }

  lemma PlaceLinks<T>(f: Forest<T>, c: T, i: nat, x: T)
    requires Replaceable(f, c, i, x)
    ensures Linked(Place(f, c, i, x)) && f[c].list[i] != c && x != f[c].list[i] && x != c
  {
    var g, r := Place(f, c, i, x), f[c].list[i];
    assert LinkOk(f, c) && LinkOk(f, r);
    forall y | y in g
      ensures LinkOk(g, y)
    {
      assert LinkOk(f, y);
      assert x !in f[y].list;
    }
  }

  lemma {:induction false} StillListed<T>(s: seq<T>, i: nat, x: T, y: T)
    requires i < |s| && y in s && y != s[i]
    ensures y in s[i := x]
  {
    var k :| 0 <= k < |s| && s[k] == y;
    assert s[i := x][k] == y;
  }

  lemma PlaceListed<T>(f: Forest<T>, c: T, i: nat, x: T)
    requires Replaceable(f, c, i, x)
    ensures forall y | y in f && y != f[c].list[i] :: Listed(Place(f, c, i, x), y)
  {
    var g := Place(f, c, i, x);
    assert g[c].list[i] == x;
    forall y | y in f && y != f[c].list[i]
      ensures Listed(g, y)
    {
      assert Listed(f, y);
      if y != x && f[y].parent == Some(c) {
        StillListed(f[c].list, i, x, y);
      }
    }
  }

  lemma PlaceDeficit<T>(f: Forest<T>, c: T, i: nat, x: T)
    requires Replaceable(f, c, i, x)
    ensures Deficits(Place(f, c, i, x), Due(c, f[x].Weight() - f[f[c].list[i]].Weight()))
  {
    var g := Place(f, c, i, x);
    var off := Due(c, f[x].Weight() - f[f[c].list[i]].Weight());
    assert Weights(f) == Weights(g);
    SumReplaceAt(f[c].list, i, x, Weights(f));
    forall y | y in g
      ensures Owes(g, off, y)
    {
      assert Owes(f, map[], y);
    }
  }

  /** The last steps of replaceThing: ammunition is exchanged and the replaced item r becomes a root. */
  ghost function Release<T>(f: Forest<T>, c: T, x: T, r: T): Forest<T>
    requires c in f && x in f && r in f
  {
    var ammo := UpdatedAmmo(UpdatedAmmo(f[c].ammo, true, 0 - f[r].units), true, f[x].units);
    var g := f[c := f[c].(ammo := ammo)];
    g[r := g[r].(parent := None)]
  }

  ghost function Replace<T>(f: Forest<T>, c: T, i: nat, x: T): Forest<T>
    requires Replaceable(f, c, i, x)
  {
    var r := f[c].list[i];
    PlaceLinks(f, c, i, x);
    PropagateKeys(Place(f, c, i, x), c, AsInt32(f[x].Weight() - f[r].Weight()));
    Release(Propagate(Place(f, c, i, x), c, AsInt32(f[x].Weight() - f[r].Weight())), c, x, r)
  }

  lemma {:induction false} PropagateKeys<T>(f: Forest<T>, c: T, d: int)
    requires Linked(f) && c in f
    ensures Propagate(f, c, d).Keys == f.Keys
    decreases f[c].depth
  {
    assert LinkOk(f, c);
    BumpLinked(f, c, d);
    if f[c].parent.Some? {
      PropagateKeys(Bump(f, c, d), f[c].parent.value, d);
    }
  }

  lemma ReplacementSpreads<T>(f: Forest<T>, c: T, i: nat, x: T)
    requires Replaceable(f, c, i, x)
    ensures Linked(Place(f, c, i, x)) && f[c].list[i] != c && x != f[c].list[i] && x != c
    ensures var r := f[c].list[i];
            var p := Place(f, c, i, x);
            var g := Propagate(p, c, AsInt32(f[x].Weight() - f[r].Weight()));
            SameButTotals(p, g) && Linked(g) && Deficits(g, map[]) && forall y | y in g && y != r :: Listed(g, y)
  {
    var r := f[c].list[i];
    var p := Place(f, c, i, x);
    var d := f[x].Weight() - f[r].Weight();
    PlaceLinks(f, c, i, x);
    PlaceListed(f, c, i, x);
    PlaceDeficit(f, c, i, x);
    assert LinkOk(p, r) && p[c].depth < p[r].depth by {
      assert LinkOk(f, c) && LinkOk(f, r);
    }
    WrapCongruent(d, AsInt32(d), 0 - AsInt32(d));
    Settle(p, c, d, AsInt32(d));
    TotalsDoNotMatter(p, Propagate(p, c, AsInt32(d)));
  }

  /** What holds once the weights of a replacement have spread and only the last steps are missing. */
  ghost predicate Replacing<T>(f: Forest<T>, g: Forest<T>, c: T, i: nat, x: T) {
    && Replaceable(f, c, i, x) && SameButTotals(Place(f, c, i, x), g)
    && f[c].list[i] != c && x != f[c].list[i] && x != c
    && Linked(g) && Deficits(g, map[]) && forall y | y in g && y != f[c].list[i] :: Listed(g, y)
  }

  lemma ReleaseLinks<T>(f: Forest<T>, g: Forest<T>, c: T, i: nat, x: T)
    requires Replacing(f, g, c, i, x)
    ensures Linked(Release(g, c, x, f[c].list[i]))
  {
    var r := f[c].list[i];
    var h := Release(g, c, x, r);
    assert LinkOk(f, c) && r !in g[c].list;
    forall y | y in h
      ensures LinkOk(h, y)
    {
      assert LinkOk(g, y) && LinkOk(f, y);
    }
  }

  lemma ReleaseListed<T>(f: Forest<T>, g: Forest<T>, c: T, i: nat, x: T)
    requires Replacing(f, g, c, i, x)
    ensures var h := Release(g, c, x, f[c].list[i]);
            (forall y | y in h :: Listed(h, y)) && Deficits(h, map[])
  {
    var r := f[c].list[i];
    var h := Release(g, c, x, r);
    assert Weights(g) == Weights(h);
    forall y | y in h
      ensures Listed(h, y) && Owes(h, map[], y)
    {
      assert Owes(g, map[], y);
      assert y != r ==> Listed(g, y);
    }
  }

  lemma ReleaseAmmo<T>(f: Forest<T>, g: Forest<T>, c: T, i: nat, x: T)
    requires Replacing(f, g, c, i, x)
    ensures AmmoExact(Release(g, c, x, f[c].list[i]))
  {
    var r := f[c].list[i];
    var h := Release(g, c, x, r);
    assert Units(f) == Units(h);
    SumReplaceAt(f[c].list, i, x, Units(f));
    ListedUnits(f[c].list, Units(f), r);
    forall y | y in h
      ensures AmmoOk(h, y)
    {
      assert AmmoOk(f, y);
    }
  }

  lemma ReplaceSettles<T>(f: Forest<T>, c: T, i: nat, x: T)
    requires Replaceable(f, c, i, x)
    ensures Valid(Replace(f, c, i, x))
  {
    ReplacementSpreads(f, c, i, x);
    var r := f[c].list[i];
    var g := Propagate(Place(f, c, i, x), c, AsInt32(f[x].Weight() - f[r].Weight()));
    ReleaseLinks(f, g, c, i, x);
    ReleaseListed(f, g, c, i, x);
    ReleaseAmmo(f, g, c, i, x);
  }

  lemma ReplaceKeepsValid<T>(f: Forest<T>, c: T, i: nat, x: T, k: nat, d: int)
    requires Replaceable(f, c, i, x)
    requires k == f[c].depth + 1 && d == AsInt32(f[x].Weight() - f[f[c].list[i]].Weight())
    ensures c != x && f[c].list[i] != x && f[c].list[i] != c
    ensures var p := Seat(Sink(f, x, k), c, i, x);
            && Linked(p) && p[c].box
            && var g := Propagate(p, c, d);
               c in g && x in g && f[c].list[i] in g && Replace(f, c, i, x) == Release(g, c, x, f[c].list[i])
    ensures Valid(Replace(f, c, i, x))
  {
    ReplacementSpreads(f, c, i, x);
    ReplaceSettles(f, c, i, x);
    assert LinkOk(f, c);
  }

  /**
   * The links after replaceThing has put x into place i of c, whatever depths and caches are: x names c as its parent,
   * and last of all the item that was there names none.
   */
  ghost predicate Replaced<T>(f: Forest<T>, g: Forest<T>, c: T, i: nat, x: T)
    requires c in f && i < |f[c].list|
  {
    && f.Keys == g.Keys && g[c].list == f[c].list[i := x]
    && (forall y | y in f :: g[y].box == f[y].box && (y != c ==> g[y].list == f[y].list))
    && (forall y | y in f ::
          g[y].parent == if y == f[c].list[i] then None else if y == x then Some(c) else f[y].parent)
  }

  /** An item that lies in a container already cannot be put into another place and leave a forest. */
  lemma ReplacedWasDetached<T>(f: Forest<T>, g: Forest<T>, c: T, i: nat, x: T)
    requires Valid(f) && c in f && i < |f[c].list| && x in f
    requires Replaced(f, g, c, i, x) && Linked(g)
    ensures f[x].parent.None?
  {
    assert LinkOk(f, c) && LinkOk(g, c) && Listed(f, x);
    assert g[c].list[i] == x && g[x].parent == Some(c);
    forall p | p in f
      ensures x !in f[p].list
    {
      assert LinkOk(g, p);
      if p == c {
        assert forall j | 0 <= j < |f[c].list| && j != i :: g[c].list[j] == f[c].list[j];
      }
    }
  }

  /** Depths still fall along a chain that avoids the replaced item. */
  lemma {:induction false} ChainOutlasts<T>(f: Forest<T>, g: Forest<T>, z: T, x: T, r: T)
    requires Linked(f) && Linked(g) && f.Keys == g.Keys && z in f && x in f && !Reaches(f, z, r)
    requires forall y | y in f && y != x && y != r :: g[y].parent == f[y].parent
    ensures Reaches(f, z, x) ==> g[x].depth <= g[z].depth
    decreases f[z].depth
  {
    assert LinkOk(f, z) && LinkOk(g, z);
    if z != x && f[z].parent.Some? {
      ChainOutlasts(f, g, f[z].parent.value, x, r);
    }
  }

  lemma ReplacedEnclosesNothing<T>(f: Forest<T>, g: Forest<T>, c: T, i: nat, x: T)
    requires Valid(f) && c in f && i < |f[c].list| && x in f && f[x].parent.None?
    requires Replaced(f, g, c, i, x) && Linked(g)
    ensures !Reaches(f, c, x)
  {
    var r := f[c].list[i];
    assert LinkOk(f, c) && r in f && f[r].parent == Some(c);
    NoCycle(f, r);
    ChainOutlasts(f, g, c, x, r);
    assert g[x].parent == Some(c) && LinkOk(g, x);
  }

  lemma ReplaceHasTheseLinks<T>(f: Forest<T>, c: T, i: nat, x: T)
    requires Replaceable(f, c, i, x)
    ensures Replaced(f, Replace(f, c, i, x), c, i, x)
  {
    ReplacementSpreads(f, c, i, x);
    assert LinkOk(f, c);
  }

  /**
   * Putting x into a place of c leaves a forest, with some depths, exactly when x was detached and does not enclose c.
   * It is then a valid one.
   */
  lemma ReplaceNeedsDetached<T>(f: Forest<T>, c: T, i: nat, x: T)
    requires Valid(f) && c in f && i < |f[c].list| && x in f
    ensures (exists g :: Replaced(f, g, c, i, x) && Linked(g)) <==> f[x].parent.None? && !Reaches(f, c, x)
    ensures f[x].parent.None? && !Reaches(f, c, x) ==>
              Replaceable(f, c, i, x) && Replaced(f, Replace(f, c, i, x), c, i, x) && Valid(Replace(f, c, i, x))
  {
    if f[x].parent.None? && !Reaches(f, c, x) {
      assert LinkOk(f, c);
      ReplaceHasTheseLinks(f, c, i, x);
      ReplaceSettles(f, c, i, x);
    }
    forall g | Replaced(f, g, c, i, x) && Linked(g)
      ensures f[x].parent.None? && !Reaches(f, c, x)
    {
      ReplacedWasDetached(f, g, c, i, x);
      ReplacedEnclosesNothing(f, g, c, i, x);
    }
  }

  /**
   * replaceThing does not look where the new item comes from: handed the very item it replaces, it leaves that item
   * listed by a container it no longer names as its parent.
   */
  lemma ReplacingItemByItselfStrandsIt<T>(f: Forest<T>, c: T, i: nat, d: int)
    requires Valid(f) && c in f && i < |f[c].list| && f[c].list[i] in f
    ensures var r := f[c].list[i];
            && Linked(Seat(f, c, i, r)) && r in Propagate(Seat(f, c, i, r), c, d)
            && c in Propagate(Seat(f, c, i, r), c, d)
            && !Linked(Release(Propagate(Seat(f, c, i, r), c, d), c, r, r))
  {
    var r := f[c].list[i];
    assert LinkOk(f, c) && LinkOk(f, r);
    var p := Seat(f, c, i, r);
    assert f[c].list[i := r] == f[c].list;
    assert p == f;
    SpreadOverValid(f, c, d);
    var h := Release(Propagate(p, c, d), c, r, r);
    assert r in h[c].list && h[r].parent.None?;
    assert !LinkOk(h, c);
  }

  // ---------------------------------------------------------------- caches against recomputation

  ghost function Below<T>(f: Forest<T>, x: T): set<T>
    requires x in f
  {
    set y | y in f && f[y].depth > f[x].depth
  }

  /** The weight of the items s of box x with everything inside them, recomputed without any cache or word size. */
  ghost function Recomputed<T>(f: Forest<T>, x: T, s: seq<T>): int
    requires Linked(f) && x in f && forall c | c in s :: c in f && f[c].parent == Some(x)
    decreases Below(f, x), |s|
  {
    if s == [] then 0 else
      var c := s[0];
      assert LinkOk(f, c) && c in Below(f, x) && c !in Below(f, c);
      f[c].own + Recomputed(f, c, f[c].list) + Recomputed(f, x, s[1..])
  }

  lemma {:induction false} RecomputedSum<T>(f: Forest<T>, x: T, s: seq<T>)
    requires Valid(f) && x in f && forall c | c in s :: c in f && f[c].parent == Some(x)
    ensures Wrap(Sum(s, Weights(f))) == Wrap(Recomputed(f, x, s))
    decreases Below(f, x), |s|
  {
    if s != [] {
      var c := s[0];
      assert LinkOk(f, c) && c in Below(f, x) && c !in Below(f, c);
      RecomputedSum(f, x, s[1..]);
      RecomputedSum(f, c, f[c].list);
      assert Owes(f, map[], c);
      var inner, rest := Recomputed(f, c, f[c].list), Recomputed(f, x, s[1..]);
      assert Wrap(f[c].Weight()) == Wrap(f[c].own + inner) by {
        if f[c].box {
          WrapOfSum(f[c].own, inner);
          WrapOfSum(f[c].own + inner, 0);
        }
      }
      WrapCongruent(f[c].Weight(), f[c].own + inner, Sum(s[1..], Weights(f)));
      WrapCongruent(Sum(s[1..], Weights(f)), rest, f[c].own + inner);
    }
  }

  /** At every depth the cached total is the weight of the whole content modulo 2^32. */
  lemma CachedTotalIsContentWeight<T>(f: Forest<T>, x: T)
    requires Valid(f) && x in f && f[x].box
    ensures LinkOk(f, x) && f[x].total == Wrap(Recomputed(f, x, f[x].list))
    ensures 0 <= Recomputed(f, x, f[x].list) < WORD ==> f[x].total == Recomputed(f, x, f[x].list)
  {
    assert LinkOk(f, x) && Owes(f, map[], x);
    RecomputedSum(f, x, f[x].list);
  }

  // ---------------------------------------------------------------- breadth-first enumeration

  /** Everything strictly inside c. */
  ghost function Inside<T>(f: Forest<T>, c: T): set<T>
    requires Linked(f)
  {
    set x | x in f && x != c && Reaches(f, x, c)
  }

  ghost function Boxes<T>(f: Forest<T>, s: seq<T>): (r: seq<T>)
    ensures forall x | x in r :: x in s && x in f && f[x].box
    ensures forall x | x in s && x in f && f[x].box :: x in r
  {
    if s == [] then [] else
      var last := s[|s| - 1];
      Boxes(f, s[..|s| - 1]) + (if last in f && f[last].box then [last] else [])
  }

  lemma {:induction false} BoxesConcat<T>(f: Forest<T>, a: seq<T>, b: seq<T>)
    ensures Boxes(f, a + b) == Boxes(f, a) + Boxes(f, b)
  {
    if b == [] {
      assert a + b == a;
    } else {
      assert (a + b)[..|a + b| - 1] == a + b[..|b| - 1];
      BoxesConcat(f, a, b[..|b| - 1]);
    }
  }

  lemma {:induction false} BoxesNoDup<T>(f: Forest<T>, s: seq<T>)
    requires NoDup(s)
    ensures NoDup(Boxes(f, s))
  {
    if s != [] {
      BoxesNoDup(f, s[..|s| - 1]);
    }
  }

  /**
   * The state of the enumeration of c between two boxes: done are the boxes whose content has been listed, in order;
   * pending are the boxes listed and still waiting.
   */
  ghost predicate Enumerating<T>(f: Forest<T>, c: T, done: seq<T>, pending: seq<T>, items: seq<T>) {
    && Valid(f) && c in f && f[c].box
    && [c] + Boxes(f, items) == done + pending
    && NoDup(items) && c !in items
    && (forall x | x in items :: x in f && f[x].parent.Some? && f[x].parent.value in done && Reaches(f, x, c))
    && (forall b | b in done :: b in f && forall x | x in f[b].list :: x in items)
  }

  lemma EnumerationStart<T>(f: Forest<T>, c: T)
    requires Valid(f) && c in f && f[c].box
    ensures Enumerating(f, c, [], [c], [])
  {
    assert Boxes(f, []) == [];
  }

  /** Only as many boxes can have been listed as there are items. */
  lemma DoneFits<T>(f: Forest<T>, c: T, done: seq<T>, pending: seq<T>, items: seq<T>)
    requires Enumerating(f, c, done, pending, items)
    ensures |done| <= |f.Keys|
  {
    QueueNoDup(f, c, done, pending, items);
    forall i, j | 0 <= i < j < |done|
      ensures done[i] != done[j]
    {
      assert (done + pending)[i] != (done + pending)[j];
    }
    assert forall b | b in done :: b in done + pending;
    NoDupFits(done, f.Keys);
  }

  lemma PropagateUnfolds<T>(f: Forest<T>, c: T, d: int)
    requires Linked(f) && c in f
    ensures Linked(Bump(f, c, d))
    ensures match f[c].parent
            case None => Propagate(f, c, d) == Bump(f, c, d)
            case Some(p) =>
              && p in f && f[p].box && f[p].depth < f[c].depth && p in Bump(f, c, d)
              && Propagate(f, c, d) == Propagate(Bump(f, c, d), p, d)
  {
    assert LinkOk(f, c);
    BumpLinked(f, c, d);
  }

  /** The first queued box and its content are in the forest. */
  lemma ListedContent<T>(f: Forest<T>, c: T, done: seq<T>, pending: seq<T>, items: seq<T>)
    requires Enumerating(f, c, done, pending, items) && pending != []
    ensures pending[0] in f && forall x | x in f[pending[0]].list :: x in f
  {
    QueueNoDup(f, c, done, pending, items);
    assert pending[0] in done + pending;
    assert LinkOk(f, pending[0]);
  }

  lemma QueueNoDup<T>(f: Forest<T>, c: T, done: seq<T>, pending: seq<T>, items: seq<T>)
    requires Enumerating(f, c, done, pending, items)
    ensures NoDup(done + pending) && forall b | b in done + pending :: b in f && f[b].box
  {
    BoxesNoDup(f, items);
    assert c !in Boxes(f, items);
    assert forall b | b in done + pending :: b == c || b in Boxes(f, items);
  }

  lemma NextBox<T>(f: Forest<T>, c: T, done: seq<T>, pending: seq<T>, items: seq<T>)
    requires Enumerating(f, c, done, pending, items) && pending != []
    ensures var b := pending[0];
            b in f && f[b].box && b !in done && LinkOk(f, b) && Reaches(f, b, c)
  {
    QueueNoDup(f, c, done, pending, items);
    var b := pending[0];
    assert (done + pending)[|done|] == b;
    forall k | 0 <= k < |done|
      ensures done[k] != b
    {
      assert (done + pending)[k] != (done + pending)[|done|];
    }
    assert b in done + pending && b in [c] + Boxes(f, items);
    assert LinkOk(f, b);
  }

  lemma NextContent<T>(f: Forest<T>, c: T, done: seq<T>, items: seq<T>, b: T, x: T)
    requires Linked(f) && c in f && b in f && b !in done && LinkOk(f, b) && Reaches(f, b, c) && x in f[b].list
    requires forall y | y in items :: y in f && f[y].parent.Some? && f[y].parent.value in done
    ensures x in f && f[x].parent == Some(b) && x !in items && Reaches(f, x, c) && x != c
  {
    assert LinkOk(f, x);
    if x == c {
      NoCycle(f, c);
    }
  }

  lemma NextQueue<T>(f: Forest<T>, c: T, done: seq<T>, pending: seq<T>, items: seq<T>, l: seq<T>)
    requires [c] + Boxes(f, items) == done + pending && pending != []
    ensures [c] + Boxes(f, items + l) == (done + [pending[0]]) + (pending[1..] + Boxes(f, l))
  {
    BoxesConcat(f, items, l);
    assert [c] + (Boxes(f, items) + Boxes(f, l)) == (done + pending) + Boxes(f, l);
    assert pending == [pending[0]] + pending[1..];
  }

  lemma NoDupConcat<T>(a: seq<T>, b: seq<T>)
    requires NoDup(a) && NoDup(b) && forall x | x in b :: x !in a
    ensures NoDup(a + b)
  {
    forall i, j | 0 <= i < j < |a + b|
      ensures (a + b)[i] != (a + b)[j]
    {
      assert j >= |a| ==> (a + b)[j] in b;
      assert i < |a| ==> (a + b)[i] in a;
    }
  }

  /** Listing the content of the first pending box keeps the enumeration going. */
  lemma EnumerationStep<T>(f: Forest<T>, c: T, done: seq<T>, pending: seq<T>, items: seq<T>)
    requires Enumerating(f, c, done, pending, items) && pending != []
    ensures pending[0] in f
    ensures Enumerating(f, c, done + [pending[0]], pending[1..] + Boxes(f, f[pending[0]].list),
                        items + f[pending[0]].list)
  {
    var b := pending[0];
    NextBox(f, c, done, pending, items);
    var l := f[b].list;
    forall x | x in l
      ensures x in f && f[x].parent == Some(b) && x !in items && Reaches(f, x, c) && x != c
    {
      NextContent(f, c, done, items, b, x);
    }
    NoDupConcat(items, l);
    NextQueue(f, c, done, pending, items, l);
    EnumeratingAgain(f, c, done, pending, items);
  }

  lemma EnumeratingAgain<T>(f: Forest<T>, c: T, done: seq<T>, pending: seq<T>, items: seq<T>)
    requires Enumerating(f, c, done, pending, items) && pending != [] && pending[0] in f
    requires var l := f[pending[0]].list;
             && NoDup(items + l)
             && (forall x | x in l :: x in f && f[x].parent == Some(pending[0]) && Reaches(f, x, c) && x != c)
             && [c] + Boxes(f, items + l) == (done + [pending[0]]) + (pending[1..] + Boxes(f, l))
    ensures Enumerating(f, c, done + [pending[0]], pending[1..] + Boxes(f, f[pending[0]].list),
                        items + f[pending[0]].list)
  {
    var b := pending[0];
    assert b in done + [b];
  }

  lemma {:induction false} InsideIsListed<T>(f: Forest<T>, c: T, done: seq<T>, items: seq<T>, x: T)
    requires Enumerating(f, c, done, [], items) && x in f && x != c && Reaches(f, x, c)
    ensures x in items
    decreases f[x].depth
  {
    assert LinkOk(f, x) && Listed(f, x);
    var p := f[x].parent.value;
    assert [c] + Boxes(f, items) == done;
    if p == c {
      assert ([c] + Boxes(f, items))[0] == c;
    } else {
      InsideIsListed(f, c, done, items, p);
      assert p in Boxes(f, items);
    }
    assert p in done;
  }

  /** A finished enumeration lists everything strictly inside c, each exactly once. */
  lemma EnumerationComplete<T>(f: Forest<T>, c: T, done: seq<T>, items: seq<T>)
    requires Enumerating(f, c, done, [], items)
    ensures NoDup(items) && forall x :: x in items <==> x in Inside(f, c)
  {
    forall x | x in Inside(f, c)
      ensures x in items
    {
      InsideIsListed(f, c, done, items, x);
    }
  }

  lemma {:induction false} NoDupFits<T>(s: seq<T>, u: set<T>)
    requires NoDup(s) && forall x | x in s :: x in u
    ensures |s| <= |u|
  {
    if s != [] {
      NoDupFits(s[1..], u - {s[0]});
    }
  }

  lemma {:induction false} NoDupCount<T>(s: seq<T>, u: set<T>)
    requires NoDup(s) && forall x :: x in s <==> x in u
    ensures |s| == |u|
  {
    if s == [] {
      assert u == {};
    } else {
      assert forall x :: x in s[1..] <==> x in u - {s[0]};
      NoDupCount(s[1..], u - {s[0]});
    }
  }

  // ---------------------------------------------------------------- separate forests side by side

  lemma UnionSum<T>(f: Forest<T>, g: Forest<T>, x: T)
    requires f.Keys !! g.Keys && x in f && LinkOk(f, x)
    ensures Sum(f[x].list, Weights(f + g)) == Sum(f[x].list, Weights(f))
    ensures Sum(f[x].list, Weights(g + f)) == Sum(f[x].list, Weights(f))
    ensures Sum(f[x].list, Units(f + g)) == Sum(f[x].list, Units(f))
    ensures Sum(f[x].list, Units(g + f)) == Sum(f[x].list, Units(f))
  {
    SumSame(f[x].list, Weights(f + g), Weights(f));
    SumSame(f[x].list, Weights(g + f), Weights(f));
    SumSame(f[x].list, Units(f + g), Units(f));
    SumSame(f[x].list, Units(g + f), Units(f));
  }

  lemma UnionTidy<T>(f: Forest<T>, g: Forest<T>)
    requires f.Keys !! g.Keys && Tidy(f) && Tidy(g)
    ensures Tidy(f + g)
  {
    var h := f + g;
    forall x | x in h
      ensures LinkOk(h, x) && Listed(h, x) && AmmoOk(h, x)
    {
      if x in f {
        assert LinkOk(f, x) && Listed(f, x) && AmmoOk(f, x);
        UnionSum(f, g, x);
      } else {
        assert LinkOk(g, x) && Listed(g, x) && AmmoOk(g, x);
        UnionSum(g, f, x);
      }
    }
  }

  lemma UnionDeficits<T>(f: Forest<T>, g: Forest<T>, off: map<T, int>)
    requires f.Keys !! g.Keys && Tidy(f) && Tidy(g)
    requires off.Keys <= f.Keys && Deficits(f, off) && Deficits(g, map[])
    ensures Deficits(f + g, off)
  {
    var h := f + g;
    forall x | x in h
      ensures Owes(h, off, x)
    {
      if x in f {
        assert LinkOk(f, x) && Owes(f, off, x);
        UnionSum(f, g, x);
      } else {
        assert LinkOk(g, x) && Owes(g, map[], x);
        UnionSum(g, f, x);
      }
    }
  }

  lemma {:induction false} ChainStays<T>(f: Forest<T>, g: Forest<T>, y: T, x: T)
    requires f.Keys !! g.Keys && Linked(f) && Linked(f + g) && y in f && Reaches(f + g, y, x)
    ensures x in f
    decreases f[y].depth
  {
    assert LinkOk(f, y) && LinkOk(f + g, y);
    if y != x {
      ChainStays(f, g, f[y].parent.value, x);
    }
  }

  /** A root of a separate forest may enter any box of this one. */
  lemma UnionAttachable<T>(f: Forest<T>, g: Forest<T>, c: T, i: nat, x: T)
    requires f.Keys !! g.Keys && Tidy(f) && Tidy(g)
    requires c in f && f[c].box && i <= |f[c].list| && x in g && g[x].parent.None?
    ensures Attachable(f + g, c, i, x)
  {
    UnionTidy(f, g);
    if Reaches(f + g, c, x) {
      ChainStays(f, g, c, x);
    }
  }

  /** A forest in order but for the cached weight of c, which lacks e. */
  ghost predicate Owing<T>(f: Forest<T>, c: T, e: int) {
    Tidy(f) && Deficits(f, Due(c, e))
  }

  /** Adopting the root of a separate forest makes c owe its weight; u is both forests together. */
  lemma AdoptionKeepsTidy<T>(f: Forest<T>, g: Forest<T>, u: Forest<T>, c: T, i: nat, x: T, e: int, w: int)
    requires f.Keys !! g.Keys && Owing(f, c, e) && Valid(g) && u == f + g
    requires c in f && f[c].box && i <= |f[c].list| && x in g && g[x].parent.None? && w == g[x].Weight()
    ensures Attachable(u, c, i, x)
    ensures Owing(Attach(u, c, i, x), c, e + w)
  {
    UnionAttachable(f, g, c, i, x);
    UnionDeficits(f, g, Due(c, e));
    AttachLinks(u, c, i, x);
    AttachListed(u, c, i, x);
    AttachAmmo(u, c, i, x);
    AttachDeficit(u, c, i, x, Due(c, e));
    SameDeficits(Attach(u, c, i, x), Due(c, e)[c := e + w], Due(c, e + w));
  }

  lemma UnionValid<T>(f: Forest<T>, g: Forest<T>)
    requires f.Keys !! g.Keys && Valid(f) && Valid(g)
    ensures Valid(f + g)
  {
    UnionTidy(f, g);
    UnionDeficits(f, g, map[]);
  }

  lemma {:induction false} SumMapped<T>(s: seq<T>, t: seq<T>, m: map<T, int>, m': map<T, int>)
    requires |s| == |t| && forall i | 0 <= i < |s| :: At(m, s[i]) == At(m', t[i])
    ensures Sum(s, m) == Sum(t, m')
  {
    if s != [] {
      SumMapped(s[1..], t[1..], m, m');
    }
  }

  function WithTotal<T>(f: Forest<T>, c: T, total: nat): Forest<T>
    requires c in f
  {
    f[c := f[c].(total := total)]
  }

  /** g rewrites the root c of f: own weight, ammunition, cached total; nobody lists c. */
  ghost predicate RootRewritten<T>(f: Forest<T>, g: Forest<T>, c: T) {
    && c in f && f[c].parent.None? && g.Keys == f.Keys
    && (forall x | x in f && x != c :: g[x] == f[x])
    && g[c] == f[c].(own := g[c].own, units := g[c].units, total := g[c].total)
  }

  lemma RootNode<T>(f: Forest<T>, g: Forest<T>, c: T, x: T)
    requires Tidy(f) && RootRewritten(f, g, c) && x in f
    ensures LinkOk(g, x) && Listed(g, x) && AmmoOk(g, x)
    ensures Sum(g[x].list, Weights(g)) == Sum(f[x].list, Weights(f))
  {
    assert LinkOk(f, x) && Listed(f, x) && AmmoOk(f, x);
    assert c !in f[x].list by {
      assert forall y | y in f[x].list :: f[y].parent == Some(x);
    }
    SumSame(f[x].list, Weights(f), Weights(g));
    SumSame(f[x].list, Units(f), Units(g));
  }

  /** The one box whose cache was not kept up to date gets the right total. */
  lemma TotalSet<T>(f: Forest<T>, c: T, e: int, total: nat)
    requires Owing(f, c, e) && c in f && f[c].box && f[c].parent.None?
    requires total == Wrap(Sum(f[c].list, Weights(f)))
    ensures Valid(WithTotal(f, c, total))
  {
    var g := WithTotal(f, c, total);
    assert RootRewritten(f, g, c);
    forall x | x in g
      ensures LinkOk(g, x) && Listed(g, x) && AmmoOk(g, x) && Owes(g, map[], x)
    {
      RootNode(f, g, c, x);
      assert Owes(f, Due(c, e), x);
    }
  }

  /** An item that is no box owes nothing. */
  lemma PlainItemOwesNothing<T>(f: Forest<T>, c: T, e: int)
    requires Owing(f, c, e) && c in f && !f[c].box
    ensures Valid(f)
  {
    forall x | x in f
      ensures Owes(f, map[], x)
    {
      assert Owes(f, Due(c, e), x);
    }
  }

  // ---------------------------------------------------------------- cloning

  /** The clone y has the weight of its original and, once complete, its cached total and clones of its content. */
  ghost predicate CloneOk<T>(f: Forest<T>, g: Forest<T>, origin: map<T, T>, y: T, open: set<T>)
    requires y in g && y in origin
  {
    var o := origin[y];
    && o in f && g[y].box == f[o].box && g[y].own == f[o].own
    && (y !in open ==>
          && (g[y].box ==> g[y].total == f[o].total)
          && |g[y].list| == |f[o].list|
          && forall i | 0 <= i < |f[o].list| :: g[y].list[i] in origin && origin[g[y].list[i]] == f[o].list[i])
  }

  /** g consists of clones of f, all complete but for those in open. */
  ghost predicate Cloned<T>(f: Forest<T>, g: Forest<T>, origin: map<T, T>, open: set<T>) {
    && origin.Keys == g.Keys
    && forall y {:trigger CloneOk(f, g, origin, y, open)} | y in g :: CloneOk(f, g, origin, y, open)
  }

  /** The clone c of x lists clones of the first k items of x, in order. */
  ghost predicate ListCloned<T>(f: Forest<T>, g: Forest<T>, origin: map<T, T>, c: T, x: T, k: nat)
    requires c in g && x in f
  {
    && k == |g[c].list| <= |f[x].list|
    && forall i | 0 <= i < k :: g[c].list[i] in origin && origin[g[c].list[i]] == f[x].list[i]
  }

  /** Everything in g hangs below c. */
  ghost predicate OnlyRoot<T>(g: Forest<T>, c: T) {
    c in g && forall y | y in g :: g[y].parent.None? <==> y == c
  }

  /** The clone c of x is under construction: k items are in and its cached total is short of e. */
  ghost predicate Cloning<T>(f: Forest<T>, g: Forest<T>, origin: map<T, T>, c: T, x: T, k: nat, e: int) {
    && Owing(g, c, e) && OnlyRoot(g, c) && x in f
    && Cloned(f, g, origin, {c}) && origin[c] == x && ListCloned(f, g, origin, c, x, k)
  }

  lemma CloneOkAttached<T>(f: Forest<T>, g: Forest<T>, g2: Forest<T>, o: map<T, T>, p: map<T, T>,
                           c: T, i: nat, item: T, h: Forest<T>, y: T)
    requires g.Keys !! g2.Keys && o.Keys == g.Keys && p.Keys == g2.Keys
    requires c in g && i <= |g[c].list| && item in g2 && y in g + g2 && Linked(g + g2)
    requires h == Attach(g + g2, c, i, item)
    requires if y in g then CloneOk(f, g, o, y, {c}) else CloneOk(f, g2, p, y, {})
    ensures y in h && CloneOk(f, h, o + p, y, {c})
  {
  }

  lemma ClonedAttached<T>(f: Forest<T>, g: Forest<T>, g2: Forest<T>, o: map<T, T>, p: map<T, T>, c: T, i: nat, item: T,
                          h: Forest<T>)
    requires g.Keys !! g2.Keys && Cloned(f, g, o, {c}) && Cloned(f, g2, p, {})
    requires c in g && i <= |g[c].list| && item in g2 && Linked(g + g2)
    requires h == Attach(g + g2, c, i, item) && h.Keys == g.Keys + g2.Keys
    ensures Cloned(f, h, o + p, {c})
  {
    forall y | y in h
      ensures CloneOk(f, h, o + p, y, {c})
    {
      assert if y in g then CloneOk(f, g, o, y, {c}) else CloneOk(f, g2, p, y, {});
      CloneOkAttached(f, g, g2, o, p, c, i, item, h, y);
    }
  }

  /** A finished clone g2 of the next item of x may enter the clone c under construction in g. */
  ghost predicate NextCloned<T>(f: Forest<T>, g: Forest<T>, g2: Forest<T>, o: map<T, T>, p: map<T, T>, c: T, x: T,
                                k: nat, e: int, item: T) {
    && g.Keys !! g2.Keys && Cloning(f, g, o, c, x, k, e) && k < |f[x].list| && f[x].box
    && Valid(g2) && OnlyRoot(g2, item) && Cloned(f, g2, p, {}) && p[item] == f[x].list[k]
  }

  lemma CloneMayEnter<T>(f: Forest<T>, g: Forest<T>, g2: Forest<T>, o: map<T, T>, p: map<T, T>, c: T, x: T, k: nat,
                         e: int, item: T)
    requires NextCloned(f, g, g2, o, p, c, x, k, e, item)
    ensures Attachable(g + g2, c, k, item) && Linked(g + g2) && c in g && |g[c].list| == k
  {
    assert CloneOk(f, g, o, c, {c});
    UnionAttachable(g, g2, c, k, item);
  }

  lemma CloningStep<T>(f: Forest<T>, g: Forest<T>, g2: Forest<T>, o: map<T, T>, p: map<T, T>, c: T, x: T, k: nat,
                       e: int, item: T, h: Forest<T>)
    requires NextCloned(f, g, g2, o, p, c, x, k, e, item)
    requires Linked(g + g2) && k <= |g[c].list| && h == Attach(g + g2, c, k, item)
    ensures Cloning(f, h, o + p, c, x, k + 1, e + g2[item].Weight())
  {
    assert CloneOk(f, g, o, c, {c});
    AdoptionKeepsTidy(g, g2, g + g2, c, k, item, e, g2[item].Weight());
    assert h.Keys == g.Keys + g2.Keys;
    ClonedAttached(f, g, g2, o, p, c, k, item, h);
    RootAttached(g, g2, c, k, item);
    ListClonedStep(f, g, g2, o, p, c, x, k, item);
  }

  lemma RootAttached<T>(g: Forest<T>, g2: Forest<T>, c: T, k: nat, item: T)
    requires g.Keys !! g2.Keys && OnlyRoot(g, c) && OnlyRoot(g2, item) && Linked(g + g2) && k <= |g[c].list|
    requires Attach(g + g2, c, k, item).Keys == g.Keys + g2.Keys
    ensures OnlyRoot(Attach(g + g2, c, k, item), c)
  {
  }

  lemma ListClonedStep<T>(f: Forest<T>, g: Forest<T>, g2: Forest<T>, o: map<T, T>, p: map<T, T>, c: T, x: T, k: nat,
                          item: T)
    requires g.Keys !! g2.Keys && o.Keys == g.Keys && p.Keys == g2.Keys && Linked(g + g2)
    requires c in g && x in f && item in p && ListCloned(f, g, o, c, x, k)
    requires k < |f[x].list| && p[item] == f[x].list[k]
    ensures ListCloned(f, Attach(g + g2, c, k, item), o + p, c, x, k + 1)
    ensures Attach(g + g2, c, k, item)[c].parent == g[c].parent
  {
    assert InsertAt(g[c].list, k, item) == g[c].list + [item];
  }

  /** The original's cached total is right for the complete clone. */
  lemma ClonedTotal<T>(f: Forest<T>, g: Forest<T>, origin: map<T, T>, c: T, x: T, e: int)
    requires Valid(f) && x in f && Cloning(f, g, origin, c, x, |f[x].list|, e) && f[x].box
    ensures f[x].total == Wrap(Sum(g[c].list, Weights(g)))
  {
    assert LinkOk(g, c) && LinkOk(f, x) && Owes(f, map[], x);
    forall i | 0 <= i < |g[c].list|
      ensures At(Weights(g), g[c].list[i]) == At(Weights(f), f[x].list[i])
    {
      assert CloneOk(f, g, origin, g[c].list[i], {c});
    }
    SumMapped(g[c].list, f[x].list, Weights(g), Weights(f));
  }

  /** `clone->totalWeight = totalWeight` finishes the clone. */
  lemma CloningEnds<T>(f: Forest<T>, g: Forest<T>, origin: map<T, T>, c: T, x: T, e: int)
    requires Valid(f) && x in f && Cloning(f, g, origin, c, x, |f[x].list|, e)
    ensures var h := if f[x].box then WithTotal(g, c, f[x].total) else g;
            Valid(h) && OnlyRoot(h, c) && Cloned(f, h, origin, {})
  {
    var h := if f[x].box then WithTotal(g, c, f[x].total) else g;
    assert CloneOk(f, g, origin, c, {c});
    if f[x].box {
      ClonedTotal(f, g, origin, c, x, e);
      TotalSet(g, c, e, f[x].total);
    } else {
      PlainItemOwesNothing(g, c, e);
    }
    forall y | y in h
      ensures CloneOk(f, h, origin, y, {})
    {
      assert CloneOk(f, g, origin, y, {c});
    }
  }

  // What a finished clone is a clone of: x and what lies inside it, each once.

  ghost predicate OneToOne<T>(m: map<T, T>) {
    forall y, z | y in m && z in m && m[y] == m[z] :: y == z
  }

  /** The parent of a clone is the clone of the parent, and lists it at the same place. */
  lemma CloneOfContent<T>(f: Forest<T>, g: Forest<T>, origin: map<T, T>, y: T) returns (i: nat)
    requires Linked(f) && Valid(g) && Cloned(f, g, origin, {}) && y in g && g[y].parent.Some?
    ensures var p := g[y].parent.value;
            && p in g && g[p].depth < g[y].depth && i < |g[p].list| && g[p].list[i] == y
            && origin[p] in f && i < |f[origin[p]].list| && f[origin[p]].list[i] == origin[y]
            && origin[y] in f && f[origin[y]].parent == Some(origin[p])
  {
    assert LinkOk(g, y) && Listed(g, y);
    var p := g[y].parent.value;
    i :| 0 <= i < |g[p].list| && g[p].list[i] == y;
    assert CloneOk(f, g, origin, p, {}) && LinkOk(f, origin[p]);
  }

  /** A clone is a clone of something in x. */
  lemma {:induction false} CloneLiesWithin<T>(f: Forest<T>, g: Forest<T>, origin: map<T, T>, c: T, x: T, y: T)
    requires Linked(f) && Valid(g) && Cloned(f, g, origin, {}) && OnlyRoot(g, c) && origin[c] == x && x in f && y in g
    ensures origin[y] in f && Reaches(f, origin[y], x)
    decreases g[y].depth
  {
    if y != c {
      var i := CloneOfContent(f, g, origin, y);
      CloneLiesWithin(f, g, origin, c, x, g[y].parent.value);
    }
  }

  /** No two clones are clones of the same item. */
  lemma {:induction false} CloneIsTheOnlyOne<T>(f: Forest<T>, g: Forest<T>, origin: map<T, T>, c: T, x: T, y: T, z: T)
    requires Linked(f) && Valid(g) && Cloned(f, g, origin, {}) && OnlyRoot(g, c) && origin[c] == x && x in f
    requires y in g && z in g && origin[y] == origin[z]
    ensures y == z
    decreases g[y].depth
  {
    if y == c || z == c {
      RootHasOneClone(f, g, origin, c, x, if y == c then z else y);
    } else {
      var i := CloneOfContent(f, g, origin, y);
      var j := CloneOfContent(f, g, origin, z);
      CloneIsTheOnlyOne(f, g, origin, c, x, g[y].parent.value, g[z].parent.value);
      assert LinkOk(f, origin[g[y].parent.value]);
    }
  }

  lemma RootHasOneClone<T>(f: Forest<T>, g: Forest<T>, origin: map<T, T>, c: T, x: T, z: T)
    requires Linked(f) && Valid(g) && Cloned(f, g, origin, {}) && OnlyRoot(g, c) && origin[c] == x && x in f
    requires z in g
    ensures origin[z] == x <==> z == c
  {
    if z != c {
      var i := CloneOfContent(f, g, origin, z);
      CloneLiesWithin(f, g, origin, c, x, g[z].parent.value);
      NoCycle(f, origin[z]);
      ReachesUp(f, origin[g[z].parent.value], x);
    }
  }

  /** Whatever lies in x has a clone. */
  lemma {:induction false} ContentIsCloned<T>(f: Forest<T>, g: Forest<T>, origin: map<T, T>, c: T, x: T, o: T)
    requires Valid(f) && Valid(g) && Cloned(f, g, origin, {}) && OnlyRoot(g, c) && origin[c] == x && x in f
    requires o in f && Reaches(f, o, x)
    ensures o in origin.Values
    decreases f[o].depth
  {
    if o == x {
      assert c in origin;
    } else {
      assert LinkOk(f, o) && Listed(f, o);
      var q := f[o].parent.value;
      ContentIsCloned(f, g, origin, c, x, q);
      var p :| p in origin && origin[p] == q;
      var i :| 0 <= i < |f[q].list| && f[q].list[i] == o;
      assert CloneOk(f, g, origin, p, {});
      assert g[p].list[i] in origin;
    }
  }

  /** A clone of x has exactly one clone of x and of each item inside x. */
  lemma CloneIsBijection<T>(f: Forest<T>, g: Forest<T>, origin: map<T, T>, c: T, x: T)
    requires Valid(f) && Valid(g) && Cloned(f, g, origin, {}) && OnlyRoot(g, c) && origin[c] == x && x in f
    ensures OneToOne(origin) && origin.Values == {x} + Inside(f, x)
  {
    forall y, z | y in origin && z in origin && origin[y] == origin[z]
      ensures y == z
    {
      CloneIsTheOnlyOne(f, g, origin, c, x, y, z);
    }
    forall o | o in {x} + Inside(f, x)
      ensures o in origin.Values
    {
      ContentIsCloned(f, g, origin, c, x, o);
    }
    forall o | o in origin.Values
      ensures o in {x} + Inside(f, x)
    {
      var y :| y in origin && origin[y] == o;
      CloneLiesWithin(f, g, origin, c, x, y);
    }
  }

  /** Clones weigh what their originals weigh. */
  lemma CloneWeight<T>(f: Forest<T>, g: Forest<T>, origin: map<T, T>, y: T)
    requires Cloned(f, g, origin, {}) && y in g
    ensures origin[y] in f && g[y].Weight() == f[origin[y]].Weight()
  {
    assert CloneOk(f, g, origin, y, {});
  }

  /** Nobody accounts for the own weight and ammunition of a root. */
  lemma RootMayChange<T>(f: Forest<T>, c: T, own: nat, units: nat)
    requires Valid(f) && c in f && f[c].parent.None?
    ensures Valid(f[c := f[c].(own := own, units := units)])
  {
    var g := f[c := f[c].(own := own, units := units)];
    assert RootRewritten(f, g, c);
    forall x | x in g
      ensures LinkOk(g, x) && Listed(g, x) && AmmoOk(g, x) && Owes(g, map[], x)
    {
      RootNode(f, g, c, x);
      assert Owes(f, map[], x);
    }
  }
}
