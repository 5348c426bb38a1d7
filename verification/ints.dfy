/** Integer helpers shared by the model: the C# `int` type (32-bit, wrapping on
    overflow in the default unchecked context), `Math.Abs`, `Math.Sign` and the
    draws of `System.Random.Next`, which the model receives as explicit values. */
module Ints {

  const MinInt32: int := -0x8000_0000
  const MaxInt32: int := 0x7fff_ffff

  predicate IsInt32(x: int) {
    MinInt32 <= x <= MaxInt32
  }

  /** A value of the C# `int` type. */
  type i32 = x: int | -0x8000_0000 <= x <= 0x7fff_ffff

  /** The result of an unchecked 32-bit `+`, `-` or `*`: the two's-complement
      value congruent to the mathematical result modulo 2^32. */
  function Wrap(x: int): (r: i32)
    ensures IsInt32(x) ==> r == x
    decreases if x < MinInt32 then MinInt32 - x else if x > MaxInt32 then x - MaxInt32 else 0
  {
    if x < MinInt32 then Wrap(x + 0x1_0000_0000)
    else if x > MaxInt32 then Wrap(x - 0x1_0000_0000)
    else x
  }

  /** `Wrap` is reduction modulo 2^32 into the `int` range. */
  lemma {:induction false} WrapIsModulo(x: int)
    ensures Wrap(x) == (x + 0x8000_0000) % 0x1_0000_0000 - 0x8000_0000
    decreases if x < MinInt32 then MinInt32 - x else if x > MaxInt32 then x - MaxInt32 else 0
  {
    if x < MinInt32 {
      WrapIsModulo(x + 0x1_0000_0000);
      ModShift(x + 0x8000_0000, 1);
    } else if x > MaxInt32 {
      WrapIsModulo(x - 0x1_0000_0000);
      ModShift(x - 0x1_0000_0000 + 0x8000_0000, 1);
    }
  }

  /** Adding a multiple of 2^32 does not change the remainder. */
  lemma ModShift(a: int, q: int)
    ensures (a + q * 0x1_0000_0000) % 0x1_0000_0000 == a % 0x1_0000_0000
  {
    var m := 0x1_0000_0000;
    var b := a + q * m;
    assert b == (a / m + q) * m + a % m;
    assert 0 <= a % m < m;
  }

  /** Wrapping an intermediate result changes nothing: a sum of several
      unchecked additions is the wrapped mathematical sum. */
  lemma WrapAdd(x: int, y: int)
    ensures Wrap(Wrap(x) + y) == Wrap(x + y)
  {
    var m, h := 0x1_0000_0000, 0x8000_0000;
    WrapIsModulo(x);
    WrapIsModulo(Wrap(x) + y);
    WrapIsModulo(x + y);
    var a := x + h;
    assert a == (a / m) * m + a % m;
    ModShift(a % m + y, a / m);
    assert Wrap(x) + y + h == a % m + y;
  }

  /** One more wrapping addition onto a wrapped sum is the wrapped sum of
      all the terms. */
  lemma WrapChain(start: int, before: int, x: int, paid: int)
    requires paid == Wrap(start + before)
    ensures Wrap(paid + x) == Wrap(start + (before + x))
  {
    WrapAdd(start + before, x);
    WrapEqual(start + before + x, start + (before + x));
  }

  /** Equal arguments wrap equally (stated for arguments the solver only
      knows to be arithmetically equal). */
  lemma WrapEqual(x: int, y: int)
    requires x == y
    ensures Wrap(x) == Wrap(y)
  {
  }

  function Abs(x: int): (r: nat)
    ensures r == x || r == -x
  {
    if x < 0 then -x else x
  }

  /** `Math.Sign`. */
  function Sign(x: int): (r: int)
    ensures -1 <= r <= 1
    ensures r * x == Abs(x)
    ensures (r == 0) == (x == 0)
  {
    if x < 0 then -1 else if x > 0 then 1 else 0
  }

  /** `Random.Next(lo, hi)` as a function of an arbitrary draw: `lo` when the
      range is empty (the source's behaviour for `lo == hi`), otherwise a value
      in `[lo, hi)`. */
  function Next(lo: int, hi: int, draw: nat): (r: int)
    requires lo <= hi
    ensures lo == hi ==> r == lo
    ensures lo < hi ==> lo <= r < hi
  {
    if lo == hi then lo else lo + draw % (hi - lo)
  }

  /** Every value `Random.Next(lo, hi)` can return is reached by some draw, so
      passing draws as parameters loses no behaviour. */
  lemma NextCoversRange(lo: int, hi: int, v: int)
    requires lo <= v < hi
    ensures Next(lo, hi, v - lo) == v
  {
  }
}
