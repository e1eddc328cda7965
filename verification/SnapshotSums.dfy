/** Sums of a per-element value, taken from a snapshot map, over a list. */
module SnapshotSums {
  ghost predicate NoDup<T>(s: seq<T>) {
    forall i, j | 0 <= i < j < |s| :: s[i] != s[j]
  }

  ghost function At<T>(m: map<T, int>, x: T): int {
    if x in m then m[x] else 0
  }

  ghost function Sum<T>(s: seq<T>, m: map<T, int>): int {
    if s == [] then 0 else At(m, s[0]) + Sum(s[1..], m)
  }

  lemma {:induction false} SumConcat<T>(a: seq<T>, b: seq<T>, m: map<T, int>)
    ensures Sum(a + b, m) == Sum(a, m) + Sum(b, m)
  {
    if a == [] {
      assert a + b == b;
    } else {
      assert (a + b)[1..] == a[1..] + b;
      SumConcat(a[1..], b, m);
    }
  }

  lemma {:induction false} SumSame<T>(s: seq<T>, m: map<T, int>, m': map<T, int>)
    requires forall x | x in s :: At(m, x) == At(m', x)
    ensures Sum(s, m) == Sum(s, m')
  {
    if s != [] {
      SumSame(s[1..], m, m');
    }
  }

  /** Re-valuing one listed element moves the sum by exactly that element's difference. */
  lemma {:induction false} SumOneChange<T>(s: seq<T>, m: map<T, int>, m': map<T, int>, k: T)
    requires NoDup(s) && k in s
    requires forall x | x in s && x != k :: At(m, x) == At(m', x)
    ensures Sum(s, m') == Sum(s, m) - At(m, k) + At(m', k)
  {
    if s[0] == k {
      SumSame(s[1..], m, m');
    } else {
      SumOneChange(s[1..], m, m', k);
    }
  }

  lemma SumReplaceAt<T>(s: seq<T>, i: nat, x: T, m: map<T, int>)
    requires i < |s|
    ensures Sum(s[i := x], m) == Sum(s, m) - At(m, s[i]) + At(m, x)
  {
    assert s == s[..i] + ([s[i]] + s[i + 1..]);
    assert s[i := x] == s[..i] + ([x] + s[i + 1..]);
    SumConcat(s[..i], [s[i]] + s[i + 1..], m);
    SumConcat(s[..i], [x] + s[i + 1..], m);
  }

  lemma SumRemoveAt<T>(s: seq<T>, i: nat, m: map<T, int>)
    requires i < |s|
    ensures Sum(s[..i] + s[i + 1..], m) == Sum(s, m) - At(m, s[i])
  {
    assert s == s[..i] + ([s[i]] + s[i + 1..]);
    SumConcat(s[..i], [s[i]] + s[i + 1..], m);
    SumConcat(s[..i], s[i + 1..], m);
  }
}
