/** The `sum_data` table behind SumRequestRepository, reduced to what
    computeSum uses: rows are SumEntity values and `inputNumbers` is unique,
    so the table is a map from key to stored result. */
module Repository {
  import opened Wrappers
  import opened JavaInt

  /** One row: the canonical key and the sum stored for it. */
  datatype SumEntity = SumEntity(inputNumbers: string, result: Int32)

  type Store = map<string, Int32>

  /** What a rejected save raises: the unique constraint on `inputNumbers`. */
  datatype StoreError = UniqueViolation(key: string)

  /** findByInputNumbers: the row with this key, if there is one. */
  function FindByInputNumbers(store: Store, key: string): (r: Option<SumEntity>)
    ensures r.Some? <==> key in store
    ensures r.Some? ==> r.value.inputNumbers == key && r.value.result == store[key]
  {
    if key in store then Some(SumEntity(key, store[key])) else None
  }

  /** save of a new entity: inserts one row, or fails when the key is already taken. */
  function Save(store: Store, e: SumEntity): (r: Result<Store, StoreError>)
    ensures r.Failure? <==> e.inputNumbers in store
    ensures r.Success? ==> r.value.Keys == store.Keys + {e.inputNumbers}
    ensures r.Success? ==> r.value[e.inputNumbers] == e.result
    ensures r.Success? ==> forall k :: k in store ==> r.value[k] == store[k]
    ensures r.Success? ==> |r.value| == |store| + 1
  {
    if e.inputNumbers in store then Failure(UniqueViolation(e.inputNumbers))
    else Success(store[e.inputNumbers := e.result])
  }

  /** A saved row is found again under its key, and only under its key. */
  lemma FindAfterSave(store: Store, e: SumEntity, key: string)
    requires Save(store, e).Success?
    ensures FindByInputNumbers(Save(store, e).value, key) ==
            if key == e.inputNumbers then Some(e) else FindByInputNumbers(store, key)
  {
  }
}
