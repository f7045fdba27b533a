/** The `sites` table both bots share, seen as a sequence of rows, plus
    the two writes the core issues against it: `insert` (append a row)
    and `update({ files }).eq('hash', h)` (replace the files of every row
    with that hash). Reads are abstract results handed in by the caller. */
module Records {
  import opened Wrappers
  import opened Moderation

  /** One row. `createdAt` is the creation instant in milliseconds since
      the epoch; `apiKey` is absent for rows created by the local bot. */
  datatype Site = Site(
    name: string,
    description: string,
    files: Files,
    hash: string,
    createdAt: int,
    apiKey: Option<string>)

  type Store = seq<Site>

  /** What a store read hands back: an error, or data that may be `null`. */
  datatype Fetch<T> = FetchError(message: string) | Fetched(data: Option<T>)

  /** The partial update `update({ files }).eq('hash', hash)`. */
  datatype Update = Update(hash: string, files: Files)

  /** The rows an exact-match query on `hash` returns: every stored row
      with that hash, as often as it is stored, and no other. */
  function RowsWithHash(store: Store, hash: string): (rows: seq<Site>)
    ensures forall row :: row in rows <==> row in store && row.hash == hash
    ensures forall row :: multiset(rows)[row] == if row.hash == hash then multiset(store)[row] else 0
    ensures |rows| <= |store|
  {
    if store == [] then []
    else
      var head := if store[0].hash == hash then [store[0]] else [];
      var rest := RowsWithHash(store[1..], hash);
      assert store == [store[0]] + store[1..];
      assert multiset(store) == multiset{store[0]} + multiset(store[1..]);
      assert multiset(head + rest) == multiset(head) + multiset(rest);
      head + rest
  }

  /** A successful partial update: every row with the update's hash gets
      the new files; nothing else changes. */
  function ApplyUpdate(store: Store, u: Update): (store': Store)
    ensures |store'| == |store|
    ensures forall i :: 0 <= i < |store| ==> store'[i].(files := store[i].files) == store[i]
    ensures forall i :: 0 <= i < |store| ==>
              store'[i].files == (if store[i].hash == u.hash then u.files else store[i].files)
  {
    if store == [] then []
    else
      var row := if store[0].hash == u.hash then store[0].(files := u.files) else store[0];
      [row] + ApplyUpdate(store[1..], u)
  }

  /** A partial update the store may reject: a rejected write changes
      nothing, an accepted one is `ApplyUpdate`. */
  function TryUpdate(store: Store, u: Update, writeOk: bool): (store': Store)
    ensures |store'| == |store|
    ensures forall i :: 0 <= i < |store| ==> store'[i].(files := store[i].files) == store[i]
    ensures forall i :: 0 <= i < |store| ==>
              store'[i].files == (if writeOk && store[i].hash == u.hash then u.files else store[i].files)
  {
    if writeOk then ApplyUpdate(store, u) else store
  }

  /** An insert the store may reject: a rejected insert changes nothing;
      an accepted one appends the row after all existing rows. */
  function TryInsert(store: Store, row: Site, writeOk: bool): (store': Store)
    ensures |store'| == |store| + (if writeOk then 1 else 0)
    ensures store'[..|store|] == store
    ensures writeOk ==> store'[|store|] == row
  {
    if writeOk then store + [row] else store
  }
}
