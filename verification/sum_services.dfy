/** SumServices.computeSum: validate the list, build its key, return the
    stored result on a hit, otherwise sum in 32-bit arithmetic, save one row
    and return the sum. The repository is passed in as a value and handed
    back updated; every repository call made is recorded in order. */
module SumServices {
  import opened Wrappers
  import opened JavaInt
  import opened Canonical
  import opened Repository

  const EmptyInputMessage: string := "Input number list cannot be empty."

  /** The exceptions computeSum lets escape. */
  datatype Error =
    | IllegalArgument(message: string)      // null or empty list
    | NullPointer                           // a null element reached Integer::intValue
    | DataIntegrityViolation(key: string)   // save hit the unique constraint

  /** A call made on the repository. */
  datatype RepoCall = Find(key: string) | Saved(entity: SumEntity)

  /** What one computeSum call returns, the repository afterwards, and the calls it made. */
  datatype Step = Step(response: Result<Int32, Error>, store: Store, calls: seq<RepoCall>)

  /** The exact (unbounded) sum of the values. */
  function ExactSum(xs: seq<Int32>): int
  {
    if |xs| == 0 then 0 else xs[0] as int + ExactSum(xs[1..])
  }

  /** IntStream.sum(): a left-to-right fold of Java's `int` addition from 0. */
  function StreamSum(xs: seq<Int32>): Int32
  {
    if |xs| == 0 then 0 else Add(StreamSum(xs[..|xs| - 1]), xs[|xs| - 1])
  }

  lemma {:induction false} ExactSumSnoc(xs: seq<Int32>)
    requires |xs| > 0
    ensures ExactSum(xs) == ExactSum(xs[..|xs| - 1]) + xs[|xs| - 1] as int
    decreases |xs|
  {
    if |xs| > 1 {
      ExactSumSnoc(xs[1..]);
      assert xs[1..][..|xs| - 2] == xs[..|xs| - 1][1..];
    }
  }

  /** Summing in 32 bits, one addition at a time, is the exact sum taken modulo 2^32. */
  lemma {:induction false} StreamSumWraps(xs: seq<Int32>)
    ensures StreamSum(xs) == Wrap(ExactSum(xs))
    decreases |xs|
  {
    if |xs| > 0 {
      var init := xs[..|xs| - 1];
      StreamSumWraps(init);
      ExactSumSnoc(xs);
      WrapAbsorbsAdd(ExactSum(init), xs[|xs| - 1] as int);
    }
  }

  /** mapToInt(Integer::intValue): the values, or None at the first null element. */
  function Unbox(xs: seq<BoxedInt>): (r: Option<seq<Int32>>)
    ensures r.Some? <==> forall i :: 0 <= i < |xs| ==> xs[i].Int?
    ensures r.Some? ==> |r.value| == |xs|
    ensures r.Some? ==> forall i :: 0 <= i < |xs| ==> r.value[i] == xs[i].value
  {
    if |xs| == 0 then Some([])
    else match (xs[0], Unbox(xs[1..]))
      case (Int(v), Some(rest)) => Some([v] + rest)
      case _ => None
  }

  /** The model of computeSum; `numbers` is None for a null list. */
  function ComputeSum(numbers: Option<seq<BoxedInt>>, store: Store): (r: Step)
    // a null or empty list throws before the repository is touched
    ensures (numbers.None? || |numbers.value| == 0) <==> r.calls == []
    ensures (numbers.None? || |numbers.value| == 0) ==>
              r == Step(Failure(IllegalArgument(EmptyInputMessage)), store, [])
    // otherwise the key of the list is looked up first
    ensures numbers.Some? && |numbers.value| > 0 ==>
              r.calls[0] == Find(Canonicalize(numbers.value))
    // hit: the stored result verbatim, no save
    ensures numbers.Some? && Canonicalize(numbers.value) in store && |numbers.value| > 0 ==>
              r == Step(Success(store[Canonicalize(numbers.value)]), store,
                        [Find(Canonicalize(numbers.value))])
    // miss on a list of values: the wrapped sum, saved as exactly one new row
    ensures numbers.Some? && |numbers.value| > 0 && Canonicalize(numbers.value) !in store &&
            Unbox(numbers.value).Some? ==>
              var key := Canonicalize(numbers.value);
              var sum := Wrap(ExactSum(Unbox(numbers.value).value));
              r == Step(Success(sum), store[key := sum], [Find(key), Saved(SumEntity(key, sum))])
    // miss on a list holding a null: NullPointerException, nothing saved
    ensures numbers.Some? && |numbers.value| > 0 && Canonicalize(numbers.value) !in store &&
            Unbox(numbers.value).None? ==>
              r == Step(Failure(NullPointer), store, [Find(Canonicalize(numbers.value))])
  {
    if numbers.None? || |numbers.value| == 0 then
      Step(Failure(IllegalArgument(EmptyInputMessage)), store, [])
    else
      var key := Canonicalize(numbers.value);
      match FindByInputNumbers(store, key)
      case Some(existing) => Step(Success(existing.result), store, [Find(key)])
      case None =>
        match Unbox(numbers.value)
        case None => Step(Failure(NullPointer), store, [Find(key)])
        case Some(values) =>
          var sum := StreamSum(values);
          StreamSumWraps(values);
          var entity := SumEntity(key, sum);
          match Save(store, entity)
          case Success(store') => Step(Success(sum), store', [Find(key), Saved(entity)])
          case Failure(UniqueViolation(k)) =>
            Step(Failure(DataIntegrityViolation(k)), store, [Find(key), Saved(entity)])
  }

  /** A row is sound when its key is the key of a list of values and its
      result is the wrapped sum of those values. */
  predicate SoundEntry(key: string, result: Int32)
  {
    match Decode(key)
    case None => false
    case Some(xs) =>
      match Unbox(xs)
      case None => false
      case Some(values) => result == Wrap(ExactSum(values))
  }

  /** The store invariant: every row is sound. Keys are unique by construction of the map. */
  predicate Sound(store: Store)
  {
    forall k :: k in store ==> SoundEntry(k, store[k])
  }

  /** computeSum keeps every row sound. */
  lemma ComputeSumPreservesSound(numbers: Option<seq<BoxedInt>>, store: Store)
    requires Sound(store)
    ensures Sound(ComputeSum(numbers, store).store)
  {
    if numbers.Some? && |numbers.value| > 0 {
      var key := Canonicalize(numbers.value);
      if key !in store && Unbox(numbers.value).Some? {
        CanonicalizeRoundTrip(numbers.value);
        assert SoundEntry(key, Wrap(ExactSum(Unbox(numbers.value).value)));
      }
    }
  }

  /** In a sound store, a list of values always gets its own wrapped sum back,
      whether from the store or freshly computed: a hit never returns another
      list's sum. */
  lemma ComputeSumCorrect(numbers: seq<BoxedInt>, store: Store)
    requires Sound(store)
    requires |numbers| > 0 && Unbox(numbers).Some?
    ensures ComputeSum(Some(numbers), store).response == Success(Wrap(ExactSum(Unbox(numbers).value)))
  {
    var key := Canonicalize(numbers);
    if key in store {
      CanonicalizeRoundTrip(numbers);
      assert SoundEntry(key, store[key]);
    }
  }

  /** In a sound store, a list holding a null is never found, so it always
      throws NullPointerException and saves nothing. */
  lemma ComputeSumNullElement(numbers: seq<BoxedInt>, store: Store)
    requires Sound(store)
    requires |numbers| > 0 && Unbox(numbers).None?
    ensures ComputeSum(Some(numbers), store) ==
            Step(Failure(NullPointer), store, [Find(Canonicalize(numbers))])
  {
    var key := Canonicalize(numbers);
    if key in store {
      CanonicalizeRoundTrip(numbers);
      assert false;
    }
  }

  /** A second identical call returns the same response, saves nothing and leaves the store as the first call left it. */
  lemma ComputeSumIdempotent(numbers: Option<seq<BoxedInt>>, store: Store)
    ensures var first := ComputeSum(numbers, store);
            var second := ComputeSum(numbers, first.store);
            second.response == first.response && second.store == first.store &&
            forall c :: c in second.calls ==> c.Find?
  {
  }

  /** One call adds at most one row, and adds one exactly when a list of values misses. */
  lemma ComputeSumGrowth(numbers: Option<seq<BoxedInt>>, store: Store)
    ensures var r := ComputeSum(numbers, store);
            |r.store| == |store| + (if numbers.Some? && |numbers.value| > 0 &&
                                        Canonicalize(numbers.value) !in store &&
                                        Unbox(numbers.value).Some? then 1 else 0)
  {
  }

  /** Serves requests one after another against one store. */
  function Serve(requests: seq<Option<seq<BoxedInt>>>, store: Store): (r: (seq<Result<Int32, Error>>, Store))
    ensures |r.0| == |requests|
  {
    if |requests| == 0 then ([], store)
    else
      var step := ComputeSum(requests[0], store);
      var rest := Serve(requests[1..], step.store);
      ([step.response] + rest.0, rest.1)
  }

  /** The store after serving the requests one after another. */
  function StoreAfter(requests: seq<Option<seq<BoxedInt>>>, store: Store): Store
  {
    if |requests| == 0 then store
    else StoreAfter(requests[1..], ComputeSum(requests[0], store).store)
  }

  /** Response i is what computeSum answers for request i against the store
      the earlier requests left, and the final store is the one all of them leave. */
  lemma {:induction false} ServeAnswersInOrder(requests: seq<Option<seq<BoxedInt>>>, store: Store)
    ensures forall i :: 0 <= i < |requests| ==>
              Serve(requests, store).0[i] == ComputeSum(requests[i], StoreAfter(requests[..i], store)).response
    ensures Serve(requests, store).1 == StoreAfter(requests, store)
    decreases |requests|
  {
    if |requests| > 0 {
      var first := ComputeSum(requests[0], store);
      var rest := requests[1..];
      var tail := Serve(rest, first.store);
      assert Serve(requests, store) == ([first.response] + tail.0, tail.1);
      ServeAnswersInOrder(rest, first.store);
      assert StoreAfter(requests, store) == StoreAfter(rest, first.store);
      forall i | 0 <= i < |requests|
        ensures Serve(requests, store).0[i] == ComputeSum(requests[i], StoreAfter(requests[..i], store)).response
      {
        if i == 0 {
          assert requests[..0] == [];
        } else {
          var prefix := requests[..i];
          assert prefix[0] == requests[0] && prefix[1..] == rest[..i - 1];
          assert StoreAfter(prefix, store) == StoreAfter(rest[..i - 1], first.store);
          assert requests[i] == rest[i - 1];
          assert Serve(requests, store).0[i] == tail.0[i - 1];
        }
      }
    }
  }

  /** Sending the same request n times gives n identical responses, and the
      store ends as the first call left it: at most one row is ever added. */
  lemma {:induction false} ServeRepeated(request: Option<seq<BoxedInt>>, n: nat, store: Store)
    requires n > 0
    ensures var first := ComputeSum(request, store);
            var r := Serve(seq(n, _ => request), store);
            (forall i :: 0 <= i < n ==> r.0[i] == first.response) &&
            r.1 == first.store && |r.1| <= |store| + 1
    decreases n
  {
    var first := ComputeSum(request, store);
    ComputeSumGrowth(request, store);
    if n > 1 {
      ServeRepeatedFrom(request, n - 1, store);
      assert seq(n, _ => request)[1..] == seq(n - 1, _ => request);
    }
  }

  /** After a first call from `origin`, every further identical call repeats
      its response and leaves the store as that call left it. */
  lemma {:induction false} ServeRepeatedFrom(request: Option<seq<BoxedInt>>, n: nat, origin: Store)
    ensures var first := ComputeSum(request, origin);
            var r := Serve(seq(n, _ => request), first.store);
            (forall i :: 0 <= i < n ==> r.0[i] == first.response) && r.1 == first.store
    decreases n
  {
    if n > 0 {
      ComputeSumIdempotent(request, origin);
      ServeRepeatedFrom(request, n - 1, origin);
      assert seq(n, _ => request)[1..] == seq(n - 1, _ => request);
    }
  }

  /** Serving any sequence of requests keeps every row sound. */
  lemma {:induction false} ServePreservesSound(requests: seq<Option<seq<BoxedInt>>>, store: Store)
    requires Sound(store)
    ensures Sound(Serve(requests, store).1)
    decreases |requests|
  {
    if |requests| > 0 {
      ComputeSumPreservesSound(requests[0], store);
      ServePreservesSound(requests[1..], ComputeSum(requests[0], store).store);
    }
  }
}
