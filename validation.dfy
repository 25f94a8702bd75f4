/** memories/validation.py: the index and the raw data must hold as many items. */
module Validation {
  import opened Wrappers
  import opened Errors
  import opened Records
  import opened Annoy

  /** ensure_parity_between_databases: raises DisparityBetweenDatabasesError,
      carrying both counts, exactly when the counts differ. */
  function EnsureParityBetweenDatabases(data: Table, index: AnnoyIndex): (o: Outcome<Error>)
    reads index
    ensures o.Pass? <==> index.ItemCount() == |data|
    ensures o.Fail? ==> o.error == DisparityBetweenDatabases(index.ItemCount(), |data|)
  {
    if index.ItemCount() != |data| then
      Fail(DisparityBetweenDatabases(index.ItemCount(), |data|))
    else
      Pass
  }

  /** Only the number of entries matters: neither the keys nor the records are looked at. */
  lemma ParityLooksOnlyAtCounts(a: Table, b: Table, index: AnnoyIndex)
    requires |a| == |b|
    ensures EnsureParityBetweenDatabases(a, index) == EnsureParityBetweenDatabases(b, index)
  {
  }

  /** A table whose single key is not 0 passes against an index of one item. */
  lemma ParityIgnoresSlotIds(r: Record, index: AnnoyIndex)
    requires index.ItemCount() == 1
    ensures EnsureParityBetweenDatabases(map[7 := r], index).Pass?
  {
    assert map[7 := r].Keys == {7};
  }
}
