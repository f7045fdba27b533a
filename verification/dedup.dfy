/** `checkDuplicate(siteHash)` from api/bot.js: an exact-match query on
    the `hash` column, failing open when the query errors. */
module Dedup {
  import opened Wrappers
  import opened Records

  /** Fail-open duplicate test over the result of the hash query: an
      error or a `null` result means "not a duplicate"; otherwise any
      returned row means "duplicate". */
  function CheckDuplicate(result: Fetch<seq<Site>>): (duplicate: bool)
    ensures result.FetchError? ==> !duplicate
    ensures result == Fetched(None) ==> !duplicate
    ensures result.Fetched? && result.data.Some? ==> (duplicate <==> result.data.value != [])
  {
    match result
    case FetchError(_) => false
    case Fetched(None) => false
    case Fetched(Some(rows)) => |rows| > 0
  }

  /** The answer a healthy store gives to the hash query. */
  function ReadByHash(store: Store, hash: string): Fetch<seq<Site>> {
    Fetched(Some(RowsWithHash(store, hash)))
  }

  /** Against a healthy store the check reports a duplicate exactly when
      some stored row already carries the hash. */
  lemma DuplicateIffHashStored(store: Store, hash: string)
    ensures CheckDuplicate(ReadByHash(store, hash)) <==> exists i :: 0 <= i < |store| && store[i].hash == hash
  {
    var rows := RowsWithHash(store, hash);
    if i :| 0 <= i < |store| && store[i].hash == hash {
      assert store[i] in rows;
    }
    if rows != [] {
      assert rows[0] in store;
    }
  }
}
