/** Java's 32-bit two's-complement `int`, with the wrap-around its `+` performs. */
module JavaInt {

  const TwoTo32: int := 0x1_0000_0000
  const MinValue: int := -0x8000_0000
  const MaxValue: int := 0x7fff_ffff

  /** The values of a Java `int` (Integer.MIN_VALUE .. Integer.MAX_VALUE). */
  newtype Int32 = x: int | InRange(x)

  predicate InRange(x: int) {
    MinValue <= x <= MaxValue
  }

  /** The unique `int` congruent to `x` modulo 2^32: what a Java `int` holds
      after an exact result `x` has been truncated to 32 bits. */
  function Wrap(x: int): (r: Int32)
    ensures (x - r as int) % TwoTo32 == 0
    ensures InRange(x) ==> r as int == x
  {
    var m := x % TwoTo32;
    if m < 0x8000_0000 then m as Int32 else (m - TwoTo32) as Int32
  }

  /** Wrap is the only 32-bit value congruent to its argument. */
  lemma WrapUnique(x: int, r: Int32)
    requires (x - r as int) % TwoTo32 == 0
    ensures r == Wrap(x)
  {
    var w := Wrap(x);
    assert ((r as int) - (w as int)) % TwoTo32 == 0 by {
      assert (r as int) - (w as int) == (x - w as int) - (x - r as int);
    }
    assert InRange(r as int) && InRange(w as int);
    var d := (r as int) - (w as int);
    assert -TwoTo32 < d < TwoTo32;
  }

  /** Java's `a + b` on two `int`s: the exact sum, wrapped. */
  function Add(a: Int32, b: Int32): (r: Int32)
    ensures (a as int + b as int - r as int) % TwoTo32 == 0
    ensures InRange(a as int + b as int) ==> r as int == a as int + b as int
  {
    Wrap(a as int + b as int)
  }

  /** Wrapping an intermediate result does not change the final wrapped value,
      so adding step by step in 32 bits equals wrapping the exact total. */
  lemma WrapAbsorbsAdd(a: int, b: int)
    ensures Wrap(Wrap(a) as int + b) == Wrap(a + b)
  {
    var w := Wrap(a);
    var r := Wrap(a + b);
    assert (w as int + b - r as int) % TwoTo32 == 0 by {
      var k := (a - w as int) / TwoTo32;
      assert a - w as int == k * TwoTo32;
      assert (a + b - r as int) % TwoTo32 == 0;
      assert w as int + b - r as int == (a + b - r as int) - k * TwoTo32;
      ModMultiple(a + b - r as int, k);
    }
    WrapUnique(w as int + b, r);
  }

  lemma ModMultiple(x: int, k: int)
    requires x % TwoTo32 == 0
    ensures (x - k * TwoTo32) % TwoTo32 == 0
  {
    var q := x / TwoTo32;
    assert x == q * TwoTo32;
    assert x - k * TwoTo32 == (q - k) * TwoTo32;
  }
}
