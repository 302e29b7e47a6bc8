# Memoised sum service, modelled in Dafny

This project models `SumServices.computeSum`, the core of a small web service.
The service takes a list of Java `Integer`s and returns their 32-bit sum. It memoises
each result in a table keyed by the list's canonical text.

- **Validation.** A null or empty list throws `IllegalArgumentException("Input number list cannot be empty.")`.
  The repository is never called.
- **Key.** Each element is rendered by `String.valueOf` and the renderings are joined with `","` in input order.
  An `int` renders as an optional `-` followed by base-10 digits with no leading zero. A null element renders as `null`.
- **Lookup.** `findByInputNumbers(key)` is called. On a hit the stored result is returned verbatim and nothing is saved.
- **Compute and save.** On a miss the elements are summed by `IntStream.sum()`, which uses 32-bit wrap-around.
  One `SumEntity(key, sum)` is saved and the sum is returned.
  A null element makes `Integer::intValue` throw `NullPointerException` at this point.

The repository is a value of type `map<string, Int32>` (`Repository.Store`). It is passed in and handed back updated.
A map fits because `inputNumbers` carries a unique constraint.
Each call also returns the repository calls it made, in order (`Find` and `Saved`).
That trace is how "no lookup and no save" and "exactly one save" are stated.

Modules, one per concern:

- `Wrappers` (`wrappers.dfy`): `Option` and `Result`.
- `JavaInt` (`int32.dfy`): the `Int32` newtype, `Wrap` (reduction into the signed 32-bit range) and Java's `+`.
- `Decimal` (`decimal.dfy`): `Integer.toString` and a strict parser that inverts it.
- `Canonical` (`canonical.dfy`): the key, and `Decode`, which splits and parses a key back into its list.
- `Repository` (`repository.dfy`): the `sum_data` table, with `findByInputNumbers` and `save`.
- `SumServices` (`sum_services.dfy`): `ComputeSum`, the store invariant `Sound`, idempotence, and `Serve` (a sequence of calls).
- `Scenarios` (`scenarios.dfy`): the concrete cases from the Java tests.

The central results:

- The key is injective: `Decode(Canonicalize(xs)) == Some(xs)` for every non-empty `xs`, and `Decode(k) == Some(xs)` exactly when `k` is the key of the non-empty list `xs`.
- Every call keeps every stored row sound: its key decodes to a list of values, and its result is that list's wrapped sum.
- Against a sound store, `ComputeSum` returns the wrapped exact sum of its own list for every non-empty list of non-null values, on a hit as well as on a miss.
- Repeating a request returns the same response and adds no further row.

## Model

| member | source | states |
|---|---|---|
| JavaInt.Wrap | src/main/java/com/example/assignment_anulom/services/SumServices.java:38 | the result is a 32-bit value congruent to its argument modulo 2^32, and equals the argument when that is already in range |
| JavaInt.WrapUnique | src/main/java/com/example/assignment_anulom/services/SumServices.java:38 | any 32-bit value congruent to x modulo 2^32 is Wrap(x), so the wrapped sum is uniquely determined |
| JavaInt.Add | src/main/java/com/example/assignment_anulom/services/SumServices.java:38 | Java's int + agrees with the exact sum modulo 2^32 and equals it when there is no overflow |
| JavaInt.WrapAbsorbsAdd | src/main/java/com/example/assignment_anulom/services/SumServices.java:38 | wrapping a partial sum before adding the next value does not change the wrapped total |
| Decimal.NatToString | src/main/java/com/example/assignment_anulom/services/SumServices.java:28 | a magnitude renders as a non-empty digit string with no leading zero, starting with '0' only for zero |
| Decimal.IntToString | src/main/java/com/example/assignment_anulom/services/SumServices.java:28 | an int renders as digits with a leading '-' exactly when it is negative |
| Decimal.NatToStringValue | src/main/java/com/example/assignment_anulom/services/SumServices.java:28 | the digits of n denote n |
| Decimal.ValueNatToString | src/main/java/com/example/assignment_anulom/services/SumServices.java:28 | every canonical digit string is the rendering of the number it denotes |
| Decimal.IntToStringRoundTrip | src/main/java/com/example/assignment_anulom/services/SumServices.java:28 | parsing a rendered int gives the int back |
| Decimal.ParseIntRoundTrip | src/main/java/com/example/assignment_anulom/services/SumServices.java:28 | every string the parser accepts is exactly the rendering of its value |
| Decimal.IntToStringInjective | src/main/java/com/example/assignment_anulom/services/SumServices.java:28 | distinct ints render differently |
| Canonical.ElementToString | src/main/java/com/example/assignment_anulom/services/SumServices.java:28 | an element's text is non-empty and holds no comma, whether it is a value or "null" |
| Canonical.ElementRoundTrip | src/main/java/com/example/assignment_anulom/services/SumServices.java:28 | parsing an element's text gives the element back, including null |
| Canonical.ParseElementRoundTrip | src/main/java/com/example/assignment_anulom/services/SumServices.java:28 | every text the element parser accepts is the rendering of what it parses to |
| Canonical.Split | src/main/java/com/example/assignment_anulom/services/SumServices.java:29 | splitting at commas yields at least one part and no part holds a comma |
| Canonical.Join | src/main/java/com/example/assignment_anulom/services/SumServices.java:29 | Collectors.joining(","): one comma between neighbours and none at the ends; SplitJoin and JoinSplit prove Split inverts it on a non-empty sequence of comma-free texts |
| Canonical.SplitJoin | src/main/java/com/example/assignment_anulom/services/SumServices.java:29 | splitting the comma-join of a non-empty sequence of comma-free texts gives the texts back in order |
| Canonical.JoinSplit | src/main/java/com/example/assignment_anulom/services/SumServices.java:29 | re-joining the parts of a split gives the original text |
| Canonical.Texts | src/main/java/com/example/assignment_anulom/services/SumServices.java:27-28 | the i-th text is the rendering of the i-th element, in input order |
| Canonical.Canonicalize | src/main/java/com/example/assignment_anulom/services/SumServices.java:27-29 | the key is empty exactly when the list is empty |
| Canonical.Decode | src/main/java/com/example/assignment_anulom/services/SumServices.java:27-29 | a key that decodes at all decodes to a non-empty list |
| Canonical.CanonicalizeRoundTrip | src/main/java/com/example/assignment_anulom/services/SumServices.java:27-29 | decoding the key of a non-empty list gives that list back |
| Canonical.DecodeCharacterizes | src/main/java/com/example/assignment_anulom/services/SumServices.java:27-29 | a text decodes to xs if and only if xs is non-empty and the text is the key of xs |
| Canonical.CanonicalizeInjective | src/main/java/com/example/assignment_anulom/services/SumServices.java:27-29 | two lists share a key if and only if they are equal, so reorderings get different keys |
| Repository.FindByInputNumbers | src/main/java/com/example/assignment_anulom/repository/SumRequestRepository.java:9 | a row is found exactly when its key is stored, and it carries that key and the stored result |
| Repository.Save | src/main/java/com/example/assignment_anulom/entity/SumEntity.java:23 | save fails exactly on a taken key; otherwise it adds that one row and keeps every other row |
| Repository.FindAfterSave | src/main/java/com/example/assignment_anulom/repository/SumRequestRepository.java:9 | after a save, the saved row is found under its key and every other lookup is unchanged |
| SumServices.Unbox | src/main/java/com/example/assignment_anulom/services/SumServices.java:38 | unboxing succeeds exactly when no element is null and then yields the elements' values in order |
| SumServices.StreamSum | src/main/java/com/example/assignment_anulom/services/SumServices.java:38 | mapToInt(Integer::intValue).sum() as a left fold of Java's int + from 0; StreamSumWraps proves it is the exact sum wrapped into 32 bits |
| SumServices.StreamSumWraps | src/main/java/com/example/assignment_anulom/services/SumServices.java:38 | the stream's step-by-step 32-bit sum equals the exact sum reduced modulo 2^32 into the signed range |
| SumServices.ComputeSum | src/main/java/com/example/assignment_anulom/services/SumServices.java:20-47 | a null or empty list throws the empty-input message with no repository call; otherwise the key is looked up first; a hit returns the stored result and saves nothing; a miss returns the wrapped sum and saves exactly that one row, or throws NullPointerException for a null element and saves nothing |
| SumServices.ComputeSumPreservesSound | src/main/java/com/example/assignment_anulom/services/SumServices.java:32-46 | if every row's result is the wrapped sum of the list its key encodes, that still holds after the call |
| SumServices.ComputeSumCorrect | src/main/java/com/example/assignment_anulom/services/SumServices.java:32-46 | with a sound store, a non-empty list of values gets its own wrapped sum back on a hit as on a miss |
| SumServices.ComputeSumNullElement | src/main/java/com/example/assignment_anulom/services/SumServices.java:27-38 | with a sound store, a list holding a null is always a miss: it throws NullPointerException after one lookup and saves nothing |
| SumServices.ComputeSumIdempotent | src/main/java/com/example/assignment_anulom/services/SumServices.java:32-46 | a second identical call returns the same response, leaves the store as the first left it and makes no save |
| SumServices.ComputeSumGrowth | src/main/java/com/example/assignment_anulom/services/SumServices.java:40-46 | a call adds one row exactly when a list of values misses, and none otherwise |
| SumServices.Serve | src/main/java/com/example/assignment_anulom/services/SumServices.java:20-47 | serving a sequence of requests returns one response per request |
| SumServices.ServeAnswersInOrder | src/main/java/com/example/assignment_anulom/services/SumServices.java:20-47 | response i is computeSum of request i against the store the earlier requests left, and the final store is the one all of them leave |
| SumServices.ServeRepeated | src/test/java/com/example/assignment_anulom/integration/SumApiIntegrationTest.java:320-338 | n identical requests get n identical responses, and the store ends with at most one new row |
| SumServices.ServeRepeatedFrom | src/main/java/com/example/assignment_anulom/services/SumServices.java:32-35 | once a request has been served, repeating it any number of times repeats its response and leaves the store alone |
| SumServices.ServePreservesSound | src/main/java/com/example/assignment_anulom/services/SumServices.java:32-46 | any sequence of calls keeps every row sound |
| Scenarios.KeyOfOneToFive | src/test/java/com/example/assignment_anulom/services/SumServicesTest.java:45-46 | [1,2,3,4,5] has key "1,2,3,4,5" |
| Scenarios.KeyOfOneToThree | src/test/java/com/example/assignment_anulom/services/SumServicesTest.java:267-268 | [1,2,3] has key "1,2,3" |
| Scenarios.KeyOfNegatives | src/test/java/com/example/assignment_anulom/services/SumServicesTest.java:117-118 | [-1,-2,3,4] has key "-1,-2,3,4" |
| Scenarios.KeyOfSingle | src/test/java/com/example/assignment_anulom/services/SumServicesTest.java:63-64 | [42] has key "42", with no separator |
| Scenarios.KeyWithNull | src/main/java/com/example/assignment_anulom/services/SumServices.java:28 | a null element appears in the key as "null" |
| Scenarios.OrderMatters | src/main/java/com/example/assignment_anulom/services/SumServices.java:27-29 | [1,2] and [2,1] have different keys |
| Scenarios.OverflowExamples | src/test/java/com/example/assignment_anulom/services/SumServicesTest.java:172-181 | [2147483647,1] sums to -2147483648, and three times 2147483647 sums to 2147483645 |
| Scenarios.FirstRequestSaves | src/test/java/com/example/assignment_anulom/services/SumServicesTest.java:41-57 | a first request for [1,2,3,4,5] returns 15, looks up "1,2,3,4,5" and saves that one row |
| Scenarios.FiveIdenticalRequests | src/test/java/com/example/assignment_anulom/integration/SumApiIntegrationTest.java:320-338 | [1,2,3] sent five times from an empty table returns 6 each time and leaves exactly the one row "1,2,3" mapped to 6 |

## Tests that disagree with the code

`SumServicesTest.java:249-258` and `SumApiIntegrationTest.java:254-266` expect `[2147483647, 2147483647, 2147483647]` to sum to `-2147483647`.
The code at `SumServices.java:38` sums with Java `int` addition. `2147483647 + 2147483647` wraps to `-2`, and `-2 + 2147483647` is `2147483645`.
The exact total 6442450941 reduced modulo 2^32 is also `2147483645`.
The model follows the code, so `Scenarios.OverflowExamples` proves `2147483645`.

## Left out

- The HTTP layer (`SumController`) is left out, together with the JSON request binding and the mapping of exceptions to status codes. These are framework plumbing. The binding layer decides which JSON values become list elements. A JSON `null` becomes a null element, which the model covers (`BoxedInt.Null`).
- The Swagger/OpenAPI configuration (`AppConfig`) is left out because it has no behaviour.
- The generated `id` of `SumEntity` is left out because it is assigned by the database and never read by the core.
- The 1000-character length limit on `inputNumbers` is left out because it is enforced by the database schema, not by the code. Keys of any length are stored in the model.
- Concurrent requests for the same key are left out. Two requests can both miss and race on the unique constraint. The model is sequential; `Repository.Save` does model the constraint violation, and `ComputeSum` is proved never to reach it.
- Performance and timing assertions are left out because they are not behavioural properties.
- Repository failures other than the unique constraint, such as a lost connection, are left out. They come from I/O outside the code.
- A null `SumRequest` is left out. `computeSum(null)` throws `NullPointerException` at `request.getNumbers()` (`SumServices.java:21`), before validation and with no repository call. The controller never passes one, because its `@RequestBody` is required.
- The `SumRequest` and `SumResponse` wrappers are not part of this model. A request is its `Option<seq<BoxedInt>>` list (None for a null list), and a response is its `Int32` result.
