/** 32-bit arithmetic as the C++ source performs it: every unsigned sum is reduced modulo 2^32. */
module WordArithmetic {
  const WORD: int := 0x1_0000_0000

  type Int32 = n: int | -0x8000_0000 <= n < 0x8000_0000

  function Max(a: int, b: int): int {
    if a > b then a else b
  }

  function Wrap(n: int): nat {
    n % WORD
  }

  /** `static_cast<int32_t>`: the representative of n modulo 2^32 in -2^31 .. 2^31-1. */
  function AsInt32(n: int): (r: Int32)
    ensures Wrap(r) == Wrap(n)
  {
    var w := Wrap(n);
    if w < 0x8000_0000 then w else w - WORD
  }

  lemma WrapOfSum(a: int, b: int)
    ensures Wrap(Wrap(a) + b) == Wrap(a + b)
    ensures Wrap(a + Wrap(b)) == Wrap(a + b)
  {
    var qa, qb := a / WORD, b / WORD;
    assert a == qa * WORD + Wrap(a) && b == qb * WORD + Wrap(b);
  }

  /** Two numbers with the same residue stay congruent when the same number is added to both. */
  lemma WrapCongruent(a: int, b: int, c: int)
    requires Wrap(a) == Wrap(b)
    ensures Wrap(a + c) == Wrap(b + c)
  {
    WrapOfSum(a, c);
    WrapOfSum(b, c);
  }
}
