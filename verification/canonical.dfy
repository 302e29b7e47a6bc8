/** The lookup key of a request: each list element rendered by String.valueOf
    and the renderings joined with "," in input order (Collectors.joining).
    Decode splits a key back into the list it came from, which is what makes
    the key a sound identity for memoisation. */
module Canonical {
  import opened Wrappers
  import opened JavaInt
  import opened Decimal

  /** An element of a Java `List<Integer>`: a null reference or a boxed `int`. */
  datatype BoxedInt = Null | Int(value: Int32)

  const Separator: char := ','
  const NullText: string := "null"

  /** String.valueOf(Object) on a list element. */
  function ElementToString(e: BoxedInt): (t: string)
    ensures |t| > 0 && Separator !in t
  {
    match e
    case Null => NullText
    case Int(v) => IntToString(v as int)
  }

  /** Inverse of ElementToString on the texts it produces. */
  function ParseElement(t: string): Option<BoxedInt>
  {
    if t == NullText then Some(Null)
    else match ParseInt(t)
      case Some(n) => if InRange(n) then Some(Int(n as Int32)) else None
      case None => None
  }

  /** Joins the texts with a single separator between neighbours and none at the ends. */
  function Join(parts: seq<string>): string
  {
    if |parts| == 0 then ""
    else if |parts| == 1 then parts[0]
    else parts[0] + [Separator] + Join(parts[1..])
  }

  /** Cuts a text at every separator; "" yields one empty part. */
  function Split(s: string): (parts: seq<string>)
    ensures |parts| > 0
    ensures forall i :: 0 <= i < |parts| ==> Separator !in parts[i]
  {
    if |s| == 0 then [""]
    else
      var rest := Split(s[1..]);
      if s[0] == Separator then [""] + rest
      else [[s[0]] + rest[0]] + rest[1..]
  }

  function Texts(xs: seq<BoxedInt>): (ts: seq<string>)
    ensures |ts| == |xs|
    ensures forall i :: 0 <= i < |xs| ==> ts[i] == ElementToString(xs[i])
  {
    if |xs| == 0 then [] else [ElementToString(xs[0])] + Texts(xs[1..])
  }

  /** The key SumServices.computeSum looks up and stores. */
  function Canonicalize(xs: seq<BoxedInt>): (key: string)
    ensures |xs| == 0 <==> key == ""
  {
    Join(Texts(xs))
  }

  function ParseAll(ts: seq<string>): (r: Option<seq<BoxedInt>>)
    ensures r.Some? ==> |r.value| == |ts|
  {
    if |ts| == 0 then Some([])
    else match (ParseElement(ts[0]), ParseAll(ts[1..]))
      case (Some(x), Some(rest)) => Some([x] + rest)
      case _ => None
  }

  /** The list a key encodes, if it is the key of some non-empty list. */
  function Decode(key: string): (r: Option<seq<BoxedInt>>)
    ensures r.Some? ==> |r.value| > 0
  {
    ParseAll(Split(key))
  }

  lemma ElementRoundTrip(e: BoxedInt)
    ensures ParseElement(ElementToString(e)) == Some(e)
  {
    match e
    case Null =>
    case Int(v) =>
      IntToStringRoundTrip(v as int);
      assert IntToString(v as int) != NullText by {
        assert IntToString(v as int)[0] != 'n';
      }
  }

  lemma ParseElementRoundTrip(t: string)
    requires ParseElement(t).Some?
    ensures ElementToString(ParseElement(t).value) == t
  {
    if t != NullText {
      ParseIntRoundTrip(t);
    }
  }

  lemma {:induction false} SplitText(t: string)
    requires Separator !in t
    ensures Split(t) == [t]
    decreases |t|
  {
    if |t| > 0 {
      SplitText(t[1..]);
      assert [t[0]] + t[1..] == t;
    }
  }

  lemma {:induction false} SplitAfterText(t: string, r: string)
    requires Separator !in t
    ensures Split(t + [Separator] + r) == [t] + Split(r)
    decreases |t|
  {
    var s := t + [Separator] + r;
    if |t| == 0 {
      assert s[1..] == r;
    } else {
      assert s[1..] == t[1..] + [Separator] + r;
      SplitAfterText(t[1..], r);
      assert [t[0]] + t[1..] == t;
    }
  }

  /** Splitting a join gives back the texts, provided none contains the separator. */
  lemma {:induction false} SplitJoin(parts: seq<string>)
    requires |parts| > 0
    requires forall i :: 0 <= i < |parts| ==> Separator !in parts[i]
    ensures Split(Join(parts)) == parts
    decreases |parts|
  {
    if |parts| == 1 {
      SplitText(parts[0]);
    } else {
      SplitAfterText(parts[0], Join(parts[1..]));
      SplitJoin(parts[1..]);
      assert [parts[0]] + parts[1..] == parts;
    }
  }

  /** Joining a split gives back the text. */
  lemma {:induction false} JoinSplit(s: string)
    ensures Join(Split(s)) == s
    decreases |s|
  {
    if |s| > 0 {
      var rest := Split(s[1..]);
      JoinSplit(s[1..]);
      if s[0] == Separator {
        assert s == [Separator] + s[1..];
      } else {
        var ps := [[s[0]] + rest[0]] + rest[1..];
        if |rest| == 1 {
          assert s == [s[0]] + rest[0];
        } else {
          assert ps[1..] == rest[1..];
          assert Join(rest) == rest[0] + [Separator] + Join(rest[1..]);
          assert s == [s[0]] + s[1..];
        }
      }
    }
  }

  lemma ParseAllCons(t: string, ts: seq<string>, x: BoxedInt, xs: seq<BoxedInt>)
    requires ParseElement(t) == Some(x) && ParseAll(ts) == Some(xs)
    ensures ParseAll([t] + ts) == Some([x] + xs)
  {
    assert ([t] + ts)[1..] == ts;
  }

  lemma {:induction false} ParseTexts(xs: seq<BoxedInt>)
    ensures ParseAll(Texts(xs)) == Some(xs)
    decreases |xs|
  {
    if |xs| > 0 {
      var ts := Texts(xs);
      assert ts == [ElementToString(xs[0])] + Texts(xs[1..]);
      ElementRoundTrip(xs[0]);
      ParseTexts(xs[1..]);
      ParseAllCons(ElementToString(xs[0]), Texts(xs[1..]), xs[0], xs[1..]);
      assert [xs[0]] + xs[1..] == xs;
    }
  }

  lemma {:induction false} TextsOfParse(ts: seq<string>)
    requires ParseAll(ts).Some?
    ensures Texts(ParseAll(ts).value) == ts
    decreases |ts|
  {
    if |ts| > 0 {
      ParseElementRoundTrip(ts[0]);
      TextsOfParse(ts[1..]);
      var xs := ParseAll(ts).value;
      assert xs[1..] == ParseAll(ts[1..]).value;
      assert [ts[0]] + ts[1..] == ts;
    }
  }

  /** Decoding a key gives back the non-empty list it was computed from. */
  lemma CanonicalizeRoundTrip(xs: seq<BoxedInt>)
    requires |xs| > 0
    ensures Decode(Canonicalize(xs)) == Some(xs)
  {
    SplitJoin(Texts(xs));
    ParseTexts(xs);
  }

  /** A text decodes to a list exactly when it is that list's key. */
  lemma DecodeCharacterizes(key: string, xs: seq<BoxedInt>)
    ensures Decode(key) == Some(xs) <==> |xs| > 0 && Canonicalize(xs) == key
  {
    if Decode(key) == Some(xs) {
      TextsOfParse(Split(key));
      JoinSplit(key);
    }
    if |xs| > 0 && Canonicalize(xs) == key {
      CanonicalizeRoundTrip(xs);
    }
  }

  /** Different lists, including reorderings of the same values, never share a key. */
  lemma CanonicalizeInjective(xs: seq<BoxedInt>, ys: seq<BoxedInt>)
    ensures Canonicalize(xs) == Canonicalize(ys) <==> xs == ys
  {
    if |xs| > 0 && |ys| > 0 {
      CanonicalizeRoundTrip(xs);
      CanonicalizeRoundTrip(ys);
    }
  }
}
