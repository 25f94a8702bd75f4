/** memories/saving.py: new memories go into the index under consecutive ids,
    the index is built and saved, and the JSON document is rewritten with them. */
module Saving {
  import opened Wrappers
  import opened Errors
  import opened Timestamps
  import opened Records
  import opened Files
  import opened Annoy
  import opened Validation
  import opened Jsonification
  import opened Vectorization
  import opened Creation

  /** The embeddings of the descriptions, in order. */
  function Embeddings(descriptions: seq<string>, c: Collaborators): (r: seq<Vector>)
    ensures |r| == |descriptions|
    ensures forall i | 0 <= i < |r| :: r[i] == c.embed(descriptions[i])
  {
    seq(|descriptions|, i requires 0 <= i < |descriptions| => c.embed(descriptions[i]))
  }

  /** The `memories` dict that the loop of save_memories builds when the index
      held `firstId` items: the records of the descriptions under ids firstId,
      firstId + 1, ..., or the first rating error. */
  function MemoryDictionaries(firstId: nat, descriptions: seq<string>, now: DateTime, c: Collaborators)
    : Result<Table, Error>
    decreases |descriptions|
  {
    if descriptions == [] then Success(map[])
    else
      var n := |descriptions| - 1;
      var earlier :- MemoryDictionaries(firstId, descriptions[..n], now, c);
      var memory :- Rated(descriptions[n], now, c);
      Success(earlier[firstId + n := memory])
  }

  /** The record of one description, as the loop of save_memories asks for it. */
  function Rated(description: string, now: DateTime, c: Collaborators): Result<Record, Error> {
    CreateMemoryDictionary(description, now, c.rate(description), c.exp)
  }

  /** The dict is built exactly when every rating succeeds. */
  lemma {:induction false} MemoryDictionariesSucceed(firstId: nat, descriptions: seq<string>, now: DateTime, c: Collaborators)
    ensures MemoryDictionaries(firstId, descriptions, now, c).Success? <==>
      forall i | 0 <= i < |descriptions| :: Rated(descriptions[i], now, c).Success?
    decreases |descriptions|
  {
    if descriptions != [] {
      var n := |descriptions| - 1;
      var prefix := descriptions[..n];
      MemoryDictionariesSucceed(firstId, prefix, now, c);
      assert forall i | 0 <= i < n :: prefix[i] == descriptions[i];
    }
  }

  /** Its keys are firstId .. firstId + n - 1, one per description. */
  lemma {:induction false} MemoryDictionariesKeys(firstId: nat, descriptions: seq<string>, now: DateTime, c: Collaborators)
    requires MemoryDictionaries(firstId, descriptions, now, c).Success?
    ensures var t := MemoryDictionaries(firstId, descriptions, now, c).value;
      && (forall k :: k in t <==> firstId <= k < firstId + |descriptions|)
      && |t| == |descriptions|
    decreases |descriptions|
  {
    if descriptions != [] {
      var n := |descriptions| - 1;
      var prefix := descriptions[..n];
      MemoryDictionariesKeys(firstId, prefix, now, c);
      var t := MemoryDictionaries(firstId, prefix, now, c).value;
      var memory := Rated(descriptions[n], now, c).value;
      assert MemoryDictionaries(firstId, descriptions, now, c).value == t[firstId + n := memory];
      assert firstId + n !in t;
    }
  }

  /** Under id firstId + i it holds the record of the i-th description, and
      every record can be written to JSON. */
  lemma {:induction false} MemoryDictionariesValues(firstId: nat, descriptions: seq<string>, now: DateTime, c: Collaborators)
    requires MemoryDictionaries(firstId, descriptions, now, c).Success?
    ensures var t := MemoryDictionaries(firstId, descriptions, now, c).value;
      forall k: nat | firstId <= k < firstId + |descriptions| ::
        k in t && Success(t[k]) == Rated(descriptions[k - firstId], now, c)
    ensures TableJsonReady(MemoryDictionaries(firstId, descriptions, now, c).value)
    decreases |descriptions|
  {
    if descriptions != [] {
      var n := |descriptions| - 1;
      var prefix := descriptions[..n];
      MemoryDictionariesValues(firstId, prefix, now, c);
      var t := MemoryDictionaries(firstId, prefix, now, c).value;
      var memory := Rated(descriptions[n], now, c).value;
      var extended := t[firstId + n := memory];
      assert MemoryDictionaries(firstId, descriptions, now, c).value == extended;
      forall k: nat | firstId <= k < firstId + |descriptions|
        ensures k in extended && Success(extended[k]) == Rated(descriptions[k - firstId], now, c)
      {
        if k < firstId + n {
          assert prefix[k - firstId] == descriptions[k - firstId];
        }
      }
    }
  }

  /** save_memories_to_json_file_ensuring_parity: write the document, read it
      back, and compare its size with the index's item count. */
  method SaveMemoriesToJsonFileEnsuringParity(fs: FileSystem, path: Path, memories: Table, index: AnnoyIndex)
    returns (o: Outcome<Error>)
    modifies fs
    ensures path in fs.unwritable ==> o == Fail(OSError(path)) && fs.files == old(fs.files)
    ensures path !in fs.unwritable && !TableJsonReady(memories) ==>
      o == Fail(TypeError) && fs.files == old(fs.files)[path := Unparsable]
    ensures path !in fs.unwritable && TableJsonReady(memories) ==>
      && fs.files == old(fs.files)[path := JsonFile(memories)]
      && o == EnsureParityBetweenDatabases(memories, index)
  {
    o := fs.WriteJson(path, memories);
    if o.Fail? {
      return;
    }
    o := EnsureParityBetweenDatabases(fs.ReadJson(path).value, index);
  }

  /** What format_python_memory_data_for_json followed by
      save_memories_to_json_file_ensuring_parity leaves behind, `records`
      being the data before the formatting and `saved` after it: the first
      record in id order that is not complete stops the formatting before
      anything is written;
      otherwise every record is in its JSON form, and the document is
      written and checked against the index unless the path cannot be
      written. */
  ghost predicate FormattedAndSaved(before: map<Path, File>, after: map<Path, File>, unwritable: set<Path>, path: Path,
                                    records: Table, saved: Table, index: AnnoyIndex, o: Outcome<Error>)
    reads index
  {
    && saved.Keys == records.Keys
    && if !(forall k | k in records :: Complete(records[k])) then
         && o.Fail? && after == before
         && exists k | k in records ::
              RecordForJson(records[k]) == Failure(o.error) && forall j | j in records && j < k :: Complete(records[j])
       else
         && (forall k | k in saved :: Success(saved[k]) == RecordForJson(records[k]))
         && TableJsonReady(saved)
         && (path in unwritable ==> o == Fail(OSError(path)) && after == before)
         && (path !in unwritable ==>
               after == before[path := JsonFile(saved)] && o == EnsureParityBetweenDatabases(saved, index))
  }

  /** The document append_to_previous_json_memories_if_necessary produces from
      the files as they are when it runs, when that succeeds. */
  ghost function Merged(files: map<Path, File>, path: Path, memories: Table): Table {
    if path in files && files[path].JsonFile? then files[path].document + memories else memories
  }

  /** The loop of save_memories: each description is vectorized in turn and its
      record stored under the id it was given. */
  method VectorizeMemories(now: DateTime, newMemories: seq<string>, index: AnnoyIndex, c: Collaborators)
    returns (r: Result<Table, Error>)
    modifies index
    ensures !CanAddItems(old(index.state)) && newMemories != [] ==>
      r == Failure(AnnoyMisuse) && index.items == old(index.items)
    ensures CanAddItems(old(index.state)) || newMemories == [] ==>
      r == MemoryDictionaries(old(index.ItemCount()), newMemories, now, c)
    ensures r.Success? ==>
      && index.items == old(index.items) + Embeddings(newMemories, c)
      && index.state == (if newMemories == [] then old(index.state) else Populated)
    ensures index.trees == old(index.trees)
  {
    ghost var firstId := index.ItemCount();
    var memories: Table := map[];
    var i := 0;
    while i < |newMemories|
      invariant 0 <= i <= |newMemories|
      invariant index.items == old(index.items) + Embeddings(newMemories[..i], c)
      invariant MemoryDictionaries(firstId, newMemories[..i], now, c) == Success(memories)
      invariant if i == 0 then index.state == old(index.state) else index.state == Populated
      invariant i > 0 ==> CanAddItems(old(index.state))
      invariant index.trees == old(index.trees)
    {
      assert newMemories[..i + 1][..i] == newMemories[..i];
      var created := CreateVectorizedMemory(newMemories[i], now, index, c);
      if created.Failure? {
        if CanAddItems(old(index.state)) {
          assert newMemories[..i + 1][i] == newMemories[i];
          assert Rated(newMemories[i], now, c) == Failure(created.error);
          MemoryDictionariesPrefixFailure(firstId, newMemories, i + 1, now, c);
        }
        return Failure(created.error);
      }
      memories := memories[created.value.0 := created.value.1];
      i := i + 1;
    }
    assert newMemories[..i] == newMemories;
    return Success(memories);
  }

  /** The files after save_memories succeeded: the index file holds `vectors`,
      and the JSON document is the one found after the index was written,
      merged with `memories`, as large as the index. */
  ghost predicate SavedTogether(before: map<Path, File>, after: map<Path, File>, vectorPath: Path, jsonPath: Path,
                                vectors: seq<Vector>, memories: Table)
  {
    var filesWithIndex := before[vectorPath := IndexFile(vectors)];
    var document := Merged(filesWithIndex, jsonPath, memories);
    && TableJsonReady(document)
    && after == filesWithIndex[jsonPath := JsonFile(document)]
    && |document| == |vectors|
  }

  /** With no JSON document to merge into, the document written is the new memories alone. */
  lemma SavedIntoNothing(before: map<Path, File>, after: map<Path, File>, vectorPath: Path, jsonPath: Path,
                         vectors: seq<Vector>, memories: Table)
    requires jsonPath !in before
    requires SavedTogether(before, after, vectorPath, jsonPath, vectors, memories)
    ensures TableJsonReady(memories)
    ensures after == before[vectorPath := IndexFile(vectors)][jsonPath := JsonFile(memories)]
  {
  }

  /** What save_memories does to the files once the index holds `vectors`
      and is built: the index is saved first, and an OSError there
      (UnableToSaveVectorDatabaseError) leaves every file as it was; then the
      JSON document found at `jsonPath` is read, and a file there that is not
      a document raises its decoding error with only the index written; then
      the merged document is written, an unwritable path raising OSError, and
      its size is checked against the index's count, a mismatch raising
      DisparityBetweenDatabasesError with both counts. */
  ghost predicate IndexThenJson(before: map<Path, File>, after: map<Path, File>, unwritable: set<Path>,
                                vectorPath: Path, jsonPath: Path, vectors: seq<Vector>, memories: Table,
                                o: Outcome<Error>)
  {
    var filesWithIndex := before[vectorPath := IndexFile(vectors)];
    if vectorPath in unwritable then
      o == Fail(UnableToSaveVectorDatabase(vectorPath)) && after == before
    else if jsonPath in filesWithIndex && !filesWithIndex[jsonPath].JsonFile? then
      o == Fail(JsonDecodeError(jsonPath)) && after == filesWithIndex
    else
      var document := Merged(filesWithIndex, jsonPath, memories);
      && TableJsonReady(document)
      && if jsonPath in unwritable then
           o == Fail(OSError(jsonPath)) && after == filesWithIndex
         else
           && after == filesWithIndex[jsonPath := JsonFile(document)]
           && (o.Pass? <==> |document| == |vectors|)
           && (o.Fail? ==> o.error == DisparityBetweenDatabases(|vectors|, |document|))
  }

  /** A save that passes leaves both files as SavedTogether describes them. */
  lemma IndexThenJsonPassed(before: map<Path, File>, after: map<Path, File>, unwritable: set<Path>,
                            vectorPath: Path, jsonPath: Path, vectors: seq<Vector>, memories: Table)
    requires TableJsonReady(memories)
    requires IndexThenJson(before, after, unwritable, vectorPath, jsonPath, vectors, memories, Pass)
    ensures SavedTogether(before, after, vectorPath, jsonPath, vectors, memories)
  {
  }

  /** save_memories: the new memories take ids from the index's item count on,
      the index is built and saved before the JSON document is touched, and the
      document written is the one on disk merged with the new records, checked
      against the index's count. With no new memories the index is still built
      and saved and the document rewritten. */
  method SaveMemories(fs: FileSystem, now: DateTime, newMemories: seq<string>, index: AnnoyIndex,
                      vectorPath: Path, jsonPath: Path, c: Collaborators)
    returns (o: Outcome<Error>)
    modifies fs, index
    ensures !CanAddItems(old(index.state)) ==> o == Fail(AnnoyMisuse) && fs.files == old(fs.files)
    ensures CanAddItems(old(index.state)) && MemoryDictionaries(old(index.ItemCount()), newMemories, now, c).Failure? ==>
      o == Fail(MemoryDictionaries(old(index.ItemCount()), newMemories, now, c).error) && fs.files == old(fs.files)
    ensures CanAddItems(old(index.state)) && MemoryDictionaries(old(index.ItemCount()), newMemories, now, c).Success? ==>
      && index.items == old(index.items) + Embeddings(newMemories, c)
      && index.state == Built && index.trees == NUMBER_OF_TREES
      && IndexThenJson(old(fs.files), fs.files, fs.unwritable, vectorPath, jsonPath, index.items,
                       MemoryDictionaries(old(index.ItemCount()), newMemories, now, c).value, o)
    ensures o.Pass? ==>
      && MemoryDictionaries(old(index.ItemCount()), newMemories, now, c).Success?
      && index.items == old(index.items) + Embeddings(newMemories, c)
      && index.state == Built && index.trees == NUMBER_OF_TREES
      && SavedTogether(old(fs.files), fs.files, vectorPath, jsonPath, index.items,
                       MemoryDictionaries(old(index.ItemCount()), newMemories, now, c).value)
  {
    ghost var firstId := index.ItemCount();
    var vectorized := VectorizeMemories(now, newMemories, index, c);
    if vectorized.Failure? {
      return Fail(vectorized.error);
    }
    var memories := vectorized.value;
    o := CreateVectorDatabase(fs, vectorPath, index);
    if o.Fail? {
      return;
    }
    var merged := AppendToPreviousJsonMemoriesIfNecessary(fs, jsonPath, memories);
    if merged.Failure? {
      return Fail(merged.error);
    }
    MemoryDictionariesValues(firstId, newMemories, now, c);
    assert merged.value == Merged(fs.files, jsonPath, memories);
    o := SaveMemoriesToJsonFileEnsuringParity(fs, jsonPath, merged.value, index);
  }

  /** Once a prefix of the descriptions fails, so does the whole list, with the same error. */
  lemma {:induction false} MemoryDictionariesPrefixFailure(firstId: nat, descriptions: seq<string>, k: nat,
                                                          now: DateTime, c: Collaborators)
    requires k <= |descriptions|
    requires MemoryDictionaries(firstId, descriptions[..k], now, c).Failure?
    ensures MemoryDictionaries(firstId, descriptions, now, c) == MemoryDictionaries(firstId, descriptions[..k], now, c)
    decreases |descriptions| - k
  {
    if k < |descriptions| {
      var longer := descriptions[..k + 1];
      assert longer[..k] == descriptions[..k];
      MemoryDictionariesPrefixFailure(firstId, descriptions, k + 1, now, c);
    } else {
      assert descriptions[..k] == descriptions;
    }
  }
}
