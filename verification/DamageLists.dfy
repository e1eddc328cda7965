/** ConditionDamage::generateDamageList of src/condition.cpp: how an amount is dealt out in falling portions. */
module DamageLists {
  function Total(s: seq<int>): int {
    if s == [] then 0 else s[0] + Total(s[1..])
  }

  function Abs(n: int): nat {
    if n < 0 then 0 - n else n
  }

  /** 1 + 2 + .. + n */
  function Triangle(n: nat): nat {
    if n == 0 then 0 else n + Triangle(n - 1)
  }

  /** The sum aimed at while portions of size i are dealt. */
  function Target(i: nat, amount: nat, start: nat): nat
    requires 0 < i <= start
  {
    (start + 1 - i) * amount / start
  }

  /** One run of the do-while loop: |1 - (sum + i) / med| < |1 - sum / med| in exact arithmetic. */
  predicate AnotherIsCloser(sum: int, i: nat, med: nat) {
    2 * sum + i < 2 * med
  }

  function Phase(sum: int, i: nat, med: nat): (portions: seq<int>)
    requires i > 0
    decreases if sum < med then med - sum else 0
  {
    if AnotherIsCloser(sum + i, i, med) then [i] + Phase(sum + i, i, med) else [i]
  }

  /** The portions of size i and below, after sum has been dealt. */
  function Dealt(i: nat, sum: int, amount: nat, start: nat): seq<int>
    requires i <= start
  {
    if i == 0 then [] else
      var portions := Phase(sum, i, Target(i, amount, start));
      portions + Dealt(i - 1, sum + Total(portions), amount, start)
  }

  /** The list for an amount and a first portion; no portion at all when start is not positive. */
  function Generate(amount: int, start: int): seq<int> {
    if start <= 0 then [] else Dealt(start, 0, Abs(amount), start)
  }

  lemma {:induction false} TotalAppend(a: seq<int>, b: seq<int>)
    ensures Total(a + b) == Total(a) + Total(b)
  {
    if a == [] {
      assert a + b == b;
    } else {
      TotalAppend(a[1..], b);
      assert (a + b)[1..] == a[1..] + b;
    }
  }

  lemma {:induction false} TriangleClosed(n: nat)
    ensures 2 * Triangle(n) == n * (n + 1)
  {
    if n == 0 {
    } else {
      TriangleClosed(n - 1);
    }
  }

  // ---------------------------------------------------------------- one phase

  /**
   * A phase deals portions of one size, at least one; it ends within half a portion of its target unless a single
   * portion already overshoots.
   */
  lemma {:induction false} PhaseNearsTarget(sum: int, i: nat, med: nat)
    requires i > 0
    ensures var portions := Phase(sum, i, med);
            && portions != []
            && (forall k | 0 <= k < |portions| :: portions[k] == i)
            && 2 * (sum + Total(portions)) + i >= 2 * med
            && (2 * (sum + Total(portions)) - i < 2 * med || (|portions| == 1 && Total(portions) == i))
    decreases if sum < med then med - sum else 0
  {
    if AnotherIsCloser(sum + i, i, med) {
      PhaseNearsTarget(sum + i, i, med);
      assert Phase(sum, i, med)[1..] == Phase(sum + i, i, med);
    } else {
      assert Total([i]) == i + Total([]);
    }
  }

  // ---------------------------------------------------------------- the whole list

  /** The list never rises and uses every value from top down to 1, nothing else. */
  ghost predicate Falls(list: seq<int>, top: int) {
    && (forall j, k | 0 <= j < k < |list| :: list[j] >= list[k])
    && (forall v :: v in list <==> 1 <= v <= top)
  }

  lemma FallsThroughEveryValue(amount: int, start: int)
    ensures Falls(Generate(amount, start), start)
  {
    if start > 0 {
      DealtFalls(start, 0, Abs(amount), start);
    }
  }

  lemma {:induction false} DealtFalls(i: nat, sum: int, amount: nat, start: nat)
    requires i <= start
    ensures Falls(Dealt(i, sum, amount, start), i)
  {
    if i == 0 {
    } else {
      var portions := Phase(sum, i, Target(i, amount, start));
      PhaseNearsTarget(sum, i, Target(i, amount, start));
      DealtFalls(i - 1, sum + Total(portions), amount, start);
      FallsAfter(i, portions, Dealt(i - 1, sum + Total(portions), amount, start));
    }
  }

  lemma FallsAfter(i: nat, portions: seq<int>, rest: seq<int>)
    requires i > 0 && portions != [] && (forall k | 0 <= k < |portions| :: portions[k] == i)
    requires Falls(rest, i - 1)
    ensures Falls(portions + rest, i)
  {
    var list := portions + rest;
    forall v
      ensures v in list <==> 1 <= v <= i
    {
      assert v in list <==> v in portions || v in rest;
      assert portions[0] in portions;
    }
    forall j, k | 0 <= j < k < |list|
      ensures list[j] >= list[k]
    {
      assert list[j] == (if j < |portions| then portions[j] else rest[j - |portions|]);
      assert list[k] == (if k < |portions| then portions[k] else rest[k - |portions|]);
      if j < |portions| <= k {
        assert rest[k - |portions|] in rest;
      }
    }
  }

  /** Enough is left for one portion of each remaining size, so no phase runs past the amount. */
  lemma {:induction false} DealtExactly(i: nat, sum: int, amount: nat, start: nat)
    requires 0 < i <= start
    requires Triangle(start) <= amount && sum + Triangle(i) <= amount
    ensures sum + Total(Dealt(i, sum, amount, start)) == amount
  {
    hide *;
    var portions := Phase(sum, i, Target(i, amount, start));
    var dealt := sum + Total(portions);
    DealtUnfolds(i, sum, amount, start);
    PhaseLeavesRoom(i, sum, amount, start);
    if i > 1 {
      DealtExactly(i - 1, dealt, amount, start);
    }
  }

  lemma DealtUnfolds(i: nat, sum: int, amount: nat, start: nat)
    requires 0 < i <= start
    ensures var dealt := Total(Phase(sum, i, Target(i, amount, start)));
            && Total(Dealt(i, sum, amount, start)) == dealt + Total(Dealt(i - 1, sum + dealt, amount, start))
            && (i == 1 ==> Total(Dealt(i, sum, amount, start)) == dealt)
  {
    var portions := Phase(sum, i, Target(i, amount, start));
    TotalAppend(portions, Dealt(i - 1, sum + Total(portions), amount, start));
  }

  lemma PhaseLeavesRoom(i: nat, sum: int, amount: nat, start: nat)
    requires 0 < i <= start
    requires Triangle(start) <= amount && sum + Triangle(i) <= amount
    ensures sum + Total(Phase(sum, i, Target(i, amount, start))) + Triangle(i - 1) <= amount
    ensures i == 1 ==> sum + Total(Phase(sum, i, Target(i, amount, start))) == amount
  {
    hide *;
    PhaseNearsTarget(sum, i, Target(i, amount, start));
    TargetLeavesTriangle(i, amount, start);
    TriangleUnfolds(i);
    if i == 1 {
      LastTarget(amount, start);
    }
  }

  lemma TriangleUnfolds(i: nat)
    requires i > 0
    ensures Triangle(i) == i + Triangle(i - 1) && (i == 1 ==> Triangle(i) == 1)
  {
  }

  lemma LastTarget(amount: nat, start: nat)
    requires start > 0
    ensures Target(1, amount, start) == amount
  {
    var q, r := Target(1, amount, start), start * amount % start;
    assert start * amount == start * q + r;
    LessTimes(start, q, amount);
    ProductLess(start, q, amount);
  }

  lemma ProductLess(a: nat, b: int, c: int)
    requires a > 0 && a * c < a * b + a
    ensures c <= b
  {
    assert a * (b + 1) == a * b + a;
    if c > b {
      TimesMonotone(a, b + 1, c);
    }
  }

  /** Half a portion beyond the target of phase i there is still room for the smaller portions. */
  lemma TargetLeavesTriangle(i: nat, amount: nat, start: nat)
    requires 0 < i <= start && Triangle(start) <= amount
    ensures 2 * Target(i, amount, start) + i - 1 + 2 * Triangle(i - 1) <= 2 * amount
  {
    hide *;
    TriangleClosed(start);
    TriangleClosed(i - 1);
    TargetRounds(i, amount, start);
    TargetBelow(i - 1, amount, start, Target(i, amount, start));
    TimesMonotone(i - 1, i + 1, start + 1);
    assert 2 * Triangle(i - 1) == (i - 1) * i;
    assert (i - 1) * (i + 1) == (i - 1) * i + (i - 1);
  }

  lemma TargetRounds(i: nat, amount: nat, start: nat)
    requires 0 < i <= start
    ensures start * Target(i, amount, start) <= start * amount - (i - 1) * amount
  {
    var x := (start + 1 - i) * amount;
    assert start * (x / start) <= x;
    assert x == start * amount - (i - 1) * amount;
  }

  /** 2 med <= 2 amount - m (start + 1), for a target med that leaves m smaller sizes out. */
  lemma TargetBelow(m: nat, amount: nat, start: nat, med: nat)
    requires 0 < start && start * (start + 1) <= 2 * amount
    requires start * med <= start * amount - m * amount
    ensures 2 * med <= 2 * amount - m * (start + 1)
  {
    TimesMonotone(m, start * (start + 1), 2 * amount);
    assert m * (start * (start + 1)) == start * (m * (start + 1));
    assert start * (2 * med) <= start * (2 * amount) - m * (2 * amount);
    assert start * (2 * amount) - start * (m * (start + 1)) == start * (2 * amount - m * (start + 1));
    LessTimes(start, 2 * med, 2 * amount - m * (start + 1));
  }

  lemma TimesMonotone(m: nat, a: int, b: int)
    requires a <= b
    ensures m * a <= m * b
  {
  }

  lemma LessTimes(a: nat, b: int, c: int)
    requires a > 0 && a * b <= a * c
    ensures b <= c
  {
    if b > c {
      assert a * (c + 1) == a * c + a;
      TimesMonotone(a, c + 1, b);
    }
  }

  /** Too little for one portion of each size: every phase deals a single portion. */
  lemma {:induction false} DealtOnce(i: nat, sum: int, amount: nat, start: nat)
    requires 0 < start && i <= start
    requires amount < Triangle(start) && sum == Triangle(start) - Triangle(i)
    ensures sum + Total(Dealt(i, sum, amount, start)) == Triangle(start)
  {
    if i == 0 {
    } else {
      var med := Target(i, amount, start);
      TargetIsReached(i, amount, start);
      assert Phase(sum, i, med) == [i] && Total([i]) == i + Total([]);
      TotalAppend([i], Dealt(i - 1, sum + i, amount, start));
      DealtOnce(i - 1, sum + i, amount, start);
    }
  }

  lemma TargetIsReached(i: nat, amount: nat, start: nat)
    requires 0 < i <= start && amount < Triangle(start)
    ensures !AnotherIsCloser(Triangle(start) - Triangle(i) + i, i, Target(i, amount, start))
  {
    TriangleClosed(start);
    TriangleClosed(i);
    var med := Target(i, amount, start);
    TargetRounds(i, amount, start);
    TargetReached(i, amount, start, med);
  }

  lemma TargetReached(i: nat, amount: nat, start: nat, med: nat)
    requires 0 < i <= start && 2 * amount <= start * (start + 1)
    requires start * med <= start * amount - (i - 1) * amount
    ensures start * (start + 1) - i * (i + 1) + 3 * i >= 2 * med
  {
    hide *;
    var n := start + 1 - i;
    assert start * amount - (i - 1) * amount == n * amount;
    TargetAbove(n, amount, start, med);
    ShareOfTriangle(i, start);
  }

  lemma TargetAbove(n: nat, amount: nat, start: nat, med: nat)
    requires 0 < start && 2 * amount <= start * (start + 1) && start * med <= n * amount
    ensures 2 * med <= n * (start + 1)
  {
    hide *;
    TimesMonotone(n, 2 * amount, start * (start + 1));
    assert n * (2 * amount) == 2 * (n * amount) && start * (2 * med) == 2 * (start * med);
    assert n * (start * (start + 1)) == start * (n * (start + 1));
    LessTimes(start, 2 * med, n * (start + 1));
  }

  lemma ShareOfTriangle(i: nat, start: nat)
    requires 0 < i <= start
    ensures (start + 1 - i) * (start + 1) <= start * (start + 1) - i * (i + 1) + 3 * i
  {
    hide *;
    assert (start + 1 - i) * (start + 1) == start * (start + 1) - (i - 1) * (start + 1);
    TimesMonotone(i - 1, i + 1, start + 1);
    assert (i - 1) * (i + 1) == i * (i + 1) - (i + 1);
  }

  /** The list deals the amount, or one portion of each size when that is more. */
  lemma TotalOfGenerate(amount: int, start: int)
    requires start > 0
    ensures Total(Generate(amount, start)) ==
            if Abs(amount) >= Triangle(start) then Abs(amount) else Triangle(start)
  {
    if Abs(amount) >= Triangle(start) {
      DealtExactly(start, 0, Abs(amount), start);
    } else {
      DealtOnce(start, 0, Abs(amount), start);
    }
  }

  /** The start value chosen when none was set: a twentieth of the amount, rounded up, at least 1. */
  function DefaultStart(amount: int): int {
    var twentieth := if amount >= 0 then (amount + 19) / 20 else 0 - (0 - amount) / 20;
    if twentieth < 1 then 1 else twentieth
  }

  /** With the default start value the damage dealt is the amount drawn exactly up to 760, and for 780. */
  lemma DefaultStartIsExact(amount: nat)
    requires amount > 0
    ensures Total(Generate(amount, DefaultStart(amount))) == amount <==> (amount <= 760 || amount == 780)
  {
    var s := DefaultStart(amount);
    TotalOfGenerate(amount, s);
    TriangleClosed(s);
    assert 20 * (s - 1) < amount <= 20 * s;
    TwentiethOfTriangle(s, amount, s * (s + 1));
  }

  lemma TwentiethOfTriangle(s: nat, amount: nat, product: nat)
    requires s > 0 && 20 * (s - 1) < amount <= 20 * s && product == s * (s + 1)
    ensures 2 * amount >= product <==> (amount <= 760 || amount == 780)
  {
    if s <= 38 {
      assert (s - 1) * (38 - s) >= 0;
      assert (s - 1) * (38 - s) == 40 * s - 38 - s * (s + 1);
    } else if s >= 40 {
      TimesMonotone(s, 41, s + 1);
    }
  }

  method GenerateDamageList(signedAmount: int, start: int) returns (list: seq<int>)
    ensures list == Generate(signedAmount, start)
  {
    hide *;
    AbsGenerate(signedAmount, start);
    var amount := if signedAmount < 0 then 0 - signedAmount else signedAmount;
    var sum := 0;
    list := [];
    var i := start;
    while i > 0
      invariant start <= 0 ==> list == [] && i == start
      invariant start > 0 ==> 0 <= i <= start && Generate(signedAmount, start) == list + Dealt(i, sum, amount, start)
    {
      DealtIs(i, sum, amount, start);
      var med := (start + 1 - i) * amount / start;
      list, sum := DealPhase(list, sum, i, med);
      i := i - 1;
    }
    if start > 0 {
      NoneDealt(sum, amount, start);
    }
  }

  lemma NoneDealt(sum: int, amount: nat, start: nat)
    ensures Dealt(0, sum, amount, start) == []
  {
  }

  lemma AbsGenerate(amount: int, start: int)
    ensures Abs(amount) == if amount < 0 then 0 - amount else amount
    ensures Generate(amount, start) == if start <= 0 then [] else [] + Dealt(start, 0, Abs(amount), start)
  {
  }

  lemma DealtIs(i: nat, sum: int, amount: nat, start: nat)
    requires 0 < i <= start
    ensures var med := (start + 1 - i) * amount / start;
            && med >= 0
            && Dealt(i, sum, amount, start) ==
               Phase(sum, i, med) + Dealt(i - 1, sum + Total(Phase(sum, i, med)), amount, start)
  {
    assert Target(i, amount, start) == (start + 1 - i) * amount / start;
  }

  /** The inner do-while loop. */
  method DealPhase(before: seq<int>, dealt: int, i: nat, med: nat) returns (list: seq<int>, sum: int)
    requires i > 0
    ensures list == before + Phase(dealt, i, med) && sum == dealt + Total(Phase(dealt, i, med))
  {
    hide *;
    list, sum := before, dealt;
    var again := true;
    while again
      invariant before + Phase(dealt, i, med) == list + (if again then Phase(sum, i, med) else [])
      invariant dealt + Total(Phase(dealt, i, med)) == sum + (if again then Total(Phase(sum, i, med)) else 0)
      decreases again, if sum < med then med - sum else 0
    {
      PhaseUnfolds(sum, i, med);
      sum := sum + i;
      list := list + [i];
      again := AnotherIsCloser(sum, i, med);
    }
  }

  lemma PhaseUnfolds(sum: int, i: nat, med: nat)
    requires i > 0
    ensures AnotherIsCloser(sum + i, i, med) ==> sum + i < med
    ensures var rest := if AnotherIsCloser(sum + i, i, med) then Phase(sum + i, i, med) else [];
            Phase(sum, i, med) == [i] + rest && Total(Phase(sum, i, med)) == i + Total(rest) && Total([]) == 0
  {
    var rest := if AnotherIsCloser(sum + i, i, med) then Phase(sum + i, i, med) else [];
    assert ([i] + rest)[1..] == rest;
  }
}
