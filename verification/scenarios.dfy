/** Concrete scenarios from the service and API tests, stated over the model. */
module Scenarios {
  import opened Wrappers
  import opened JavaInt
  import opened Decimal
  import opened Canonical
  import opened Repository
  import opened SumServices

  function Ints(xs: seq<Int32>): (r: seq<BoxedInt>)
    ensures |r| == |xs| && forall i :: 0 <= i < |xs| ==> r[i] == Int(xs[i])
  {
    if |xs| == 0 then [] else [Int(xs[0])] + Ints(xs[1..])
  }

  lemma IntsUnbox(xs: seq<Int32>)
    ensures Unbox(Ints(xs)) == Some(xs)
  {
    var r := Unbox(Ints(xs));
    assert r.Some?;
    assert r.value == xs;
  }

  lemma SmallText(n: Int32)
    requires 0 <= n < 10
    ensures ElementToString(Int(n)) == [DigitChar(n as nat)]
  {
  }

  lemma NegativeSmallText(n: Int32)
    requires -10 < n < 0
    ensures ElementToString(Int(n)) == ['-', DigitChar(-n as nat)]
  {
  }

  /** Keys are the in-order comma-join of signed decimals, with no trailing separator. */
  lemma KeyOfOneToFive()
    ensures Canonicalize(Ints([1, 2, 3, 4, 5])) == "1,2,3,4,5"
  {
    SmallText(1); SmallText(2); SmallText(3); SmallText(4); SmallText(5);
    assert Texts(Ints([1, 2, 3, 4, 5])) == ["1", "2", "3", "4", "5"];
    assert Join(["4", "5"]) == "4,5";
    assert Join(["3", "4", "5"]) == "3,4,5";
    assert Join(["2", "3", "4", "5"]) == "2,3,4,5";
  }

  lemma KeyOfOneToThree()
    ensures Canonicalize(Ints([1, 2, 3])) == "1,2,3"
  {
    SmallText(1); SmallText(2); SmallText(3);
    assert Texts(Ints([1, 2, 3])) == ["1", "2", "3"];
    assert Join(["2", "3"]) == "2,3";
  }

  /** Negative values keep their sign in the key. */
  lemma KeyOfNegatives()
    ensures Canonicalize(Ints([-1, -2, 3, 4])) == "-1,-2,3,4"
  {
    NegativeSmallText(-1); NegativeSmallText(-2); SmallText(3); SmallText(4);
    assert Texts(Ints([-1, -2, 3, 4])) == ["-1", "-2", "3", "4"];
    assert Join(["3", "4"]) == "3,4";
    assert Join(["-2", "3", "4"]) == "-2,3,4";
  }

  /** A single element has no separator. */
  lemma KeyOfSingle()
    ensures Canonicalize(Ints([42])) == "42"
  {
    assert NatToString(4) == "4";
    assert NatToString(42) == "42";
    assert Texts(Ints([42])) == ["42"];
  }

  /** A null element is rendered as "null". */
  lemma KeyWithNull()
    ensures Canonicalize([Int(1), Null]) == "1,null"
  {
    SmallText(1);
    assert Texts([Int(1), Null]) == ["1", "null"];
  }

  /** Reordering the same values changes the key. */
  lemma OrderMatters()
    ensures Canonicalize(Ints([1, 2])) != Canonicalize(Ints([2, 1]))
  {
    var a := Ints([1, 2]);
    var b := Ints([2, 1]);
    CanonicalizeInjective(a, b);
    assert a[0] != b[0];
  }

  /** Overflow wraps instead of raising an error: MAX_VALUE + 1 is MIN_VALUE,
      and three times MAX_VALUE is 2147483645 (MAX + MAX wraps to -2). */
  lemma OverflowExamples()
    ensures ComputeSum(Some(Ints([0x7fff_ffff, 1])), map[]).response == Success(-0x8000_0000)
    ensures ComputeSum(Some(Ints([0x7fff_ffff, 0x7fff_ffff, 0x7fff_ffff])), map[]).response ==
            Success(0x7fff_fffd)
  {
    var xs: seq<Int32> := [0x7fff_ffff, 1];
    var ys: seq<Int32> := [0x7fff_ffff, 0x7fff_ffff, 0x7fff_ffff];
    IntsUnbox(xs);
    IntsUnbox(ys);
    assert ExactSum(xs) == 0x8000_0000;
    assert ExactSum(ys) == 3 * 0x7fff_ffff;
    WrapUnique(0x8000_0000, -0x8000_0000);
    WrapUnique(3 * 0x7fff_ffff, 0x7fff_fffd);
  }

  /** A first request for [1,2,3,4,5] returns 15 and writes one row keyed "1,2,3,4,5". */
  lemma FirstRequestSaves()
    ensures ComputeSum(Some(Ints([1, 2, 3, 4, 5])), map[]) ==
            Step(Success(15), map["1,2,3,4,5" := 15],
                 [Find("1,2,3,4,5"), Saved(SumEntity("1,2,3,4,5", 15))])
  {
    KeyOfOneToFive();
    IntsUnbox([1, 2, 3, 4, 5]);
    assert ExactSum([1, 2, 3, 4, 5]) == 15;
  }

  /** [1,2,3] sent five times returns 6 every time and leaves exactly one row. */
  lemma FiveIdenticalRequests()
    ensures var r := Serve(seq(5, _ => Some(Ints([1, 2, 3]))), map[]);
            (forall i :: 0 <= i < 5 ==> r.0[i] == Success(6)) && r.1 == map["1,2,3" := 6]
  {
    KeyOfOneToThree();
    IntsUnbox([1, 2, 3]);
    assert ExactSum([1, 2, 3]) == 6;
    ServeRepeated(Some(Ints([1, 2, 3])), 5, map[]);
  }
}
