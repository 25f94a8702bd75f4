/** vector_databases/database_updater.py: a database grows by new entries
    (the old vectors are copied into a fresh index, which then receives the
    new ones), and the entries a query returned have their recency and
    access time rewritten. memories/memories_database_updater.py grows an
    agent's memories by the same steps. */
module DatabaseUpdater {
  import opened Wrappers
  import opened Errors
  import opened StringUtils
  import opened Timestamps
  import opened MathUtils
  import opened Records
  import opened Files
  import opened Annoy
  import opened Validation
  import opened Jsonification
  import opened DatabaseEntries
  import opened Vectorization
  import opened Saving
  import opened Ranking

  /** The copy loop: a fresh index receiving every item of `index` under its own id. */
  method CopyItems(index: AnnoyIndex) returns (newIndex: AnnoyIndex)
    ensures fresh(newIndex)
    ensures newIndex.items == index.items && newIndex.trees == 0
    ensures newIndex.state == (if index.items == [] then Empty else Populated)
  {
    newIndex := new AnnoyIndex();
    var i := 0;
    while i < index.ItemCount()
      invariant 0 <= i <= |index.items|
      invariant newIndex.items == index.items[..i] && newIndex.trees == 0
      invariant newIndex.state == (if i == 0 then Empty else Populated)
    {
      var added := newIndex.AddItem(i, index.ItemVector(i));
      assert index.items[..i + 1] == index.items[..i] + [index.items[i]];
      i := i + 1;
    }
    assert index.items[..i] == index.items;
  }

  /** update_database_with_new_entries (and MemoriesDatabaseUpdater.update):
      the original index is unloaded once its items are copied, before
      anything is saved; the new entries take the ids after the old ones;
      the new index is unloaded whatever happens. */
  method UpdateWithNewEntries(fs: FileSystem, now: DateTime, newEntries: seq<string>, index: AnnoyIndex,
                              vectorPath: Path, jsonPath: Path, c: Collaborators)
    returns (o: Outcome<Error>, newIndex: AnnoyIndex)
    modifies fs, index
    ensures fresh(newIndex) && newIndex.state == Unloaded && newIndex.items == []
    ensures index.state == Unloaded && index.items == []
    ensures MemoryDictionaries(old(|index.items|), newEntries, now, c).Failure? ==>
      o == Fail(MemoryDictionaries(old(|index.items|), newEntries, now, c).error) && fs.files == old(fs.files)
    ensures MemoryDictionaries(old(|index.items|), newEntries, now, c).Success? ==>
      IndexThenJson(old(fs.files), fs.files, fs.unwritable, vectorPath, jsonPath,
                    old(index.items) + Embeddings(newEntries, c),
                    MemoryDictionaries(old(|index.items|), newEntries, now, c).value, o)
    ensures o.Pass? ==>
      && MemoryDictionaries(old(|index.items|), newEntries, now, c).Success?
      && SavedTogether(old(fs.files), fs.files, vectorPath, jsonPath, old(index.items) + Embeddings(newEntries, c),
                       MemoryDictionaries(old(|index.items|), newEntries, now, c).value)
  {
    newIndex := CopyItems(index);
    index.Unload();
    o := SaveMemories(fs, now, newEntries, newIndex, vectorPath, jsonPath, c);
    newIndex.Unload();
  }

  /** The old entries kept ids 0 .. n - 1 and the new ones take n .. n + m - 1,
      so after an update the JSON document's ids are again consecutive from 0
      and as many as the index's items. */
  lemma UpdateKeepsIdsConsecutive(before: map<Path, File>, after: map<Path, File>, vectorPath: Path, jsonPath: Path,
                                  oldVectors: seq<Vector>, now: DateTime, newEntries: seq<string>, c: Collaborators)
    requires vectorPath != jsonPath
    requires jsonPath in before && before[jsonPath].JsonFile?
    requires forall k: nat :: k in before[jsonPath].document <==> k < |oldVectors|
    requires MemoryDictionaries(|oldVectors|, newEntries, now, c).Success?
    requires SavedTogether(before, after, vectorPath, jsonPath, oldVectors + Embeddings(newEntries, c),
                           MemoryDictionaries(|oldVectors|, newEntries, now, c).value)
    ensures jsonPath in after && after[jsonPath].JsonFile?
    ensures forall k: nat :: k in after[jsonPath].document <==> k < |oldVectors| + |newEntries|
    ensures forall k | k in before[jsonPath].document ::
      after[jsonPath].document[k] == before[jsonPath].document[k]
  {
    MemoryDictionariesKeys(|oldVectors|, newEntries, now, c);
  }

  /** A table whose ids are exactly 0 .. n - 1 holds n records. */
  lemma {:induction false} SizeOfIdRange(t: Table, n: nat)
    requires forall k: nat :: k in t <==> k < n
    ensures |t| == n
    decreases n
  {
    if n == 0 {
      assert t == map[];
    } else {
      var smaller := t - {n - 1};
      SizeOfIdRange(smaller, n - 1);
      assert t.Keys == smaller.Keys + {n - 1};
    }
  }

  /** When the JSON document holds the ids 0 .. n - 1 of the n old vectors and
      both paths can be written, an update whose ratings all succeed passes:
      the merged document is as large as the new index. */
  lemma UpdatePassesWhenWritable(before: map<Path, File>, after: map<Path, File>, unwritable: set<Path>,
                                 vectorPath: Path, jsonPath: Path, oldVectors: seq<Vector>, now: DateTime,
                                 newEntries: seq<string>, c: Collaborators, o: Outcome<Error>)
    requires vectorPath != jsonPath
    requires vectorPath !in unwritable && jsonPath !in unwritable
    requires jsonPath in before && before[jsonPath].JsonFile?
    requires forall k: nat :: k in before[jsonPath].document <==> k < |oldVectors|
    requires MemoryDictionaries(|oldVectors|, newEntries, now, c).Success?
    requires IndexThenJson(before, after, unwritable, vectorPath, jsonPath, oldVectors + Embeddings(newEntries, c),
                           MemoryDictionaries(|oldVectors|, newEntries, now, c).value, o)
    ensures o.Pass?
    ensures SavedTogether(before, after, vectorPath, jsonPath, oldVectors + Embeddings(newEntries, c),
                          MemoryDictionaries(|oldVectors|, newEntries, now, c).value)
  {
    var memories := MemoryDictionaries(|oldVectors|, newEntries, now, c).value;
    MemoryDictionariesKeys(|oldVectors|, newEntries, now, c);
    MemoryDictionariesValues(|oldVectors|, newEntries, now, c);
    var document := before[jsonPath].document + memories;
    assert forall k: nat :: k in document <==> k < |oldVectors| + |newEntries|;
    SizeOfIdRange(document, |oldVectors| + |newEntries|);
    IndexThenJsonPassed(before, after, unwritable, vectorPath, jsonPath, oldVectors + Embeddings(newEntries, c), memories);
  }

  /** The recency rule of the update: calculate_recency(now, previous access, DECAY_RATE). */
  function RecencyRule(exp: Exponential): (DateTime, DateTime) -> real {
    (current: DateTime, access: DateTime) => CalculateRecency(current, access, DECAY_RATE, exp)
  }

  /** A scored entry's record once it has been accessed at `now`, the previous
      access having been at `previous`; `rule` computes the new recency from
      the two. */
  function Touched(record: Record, previous: DateTime, now: DateTime, rule: (DateTime, DateTime) -> real): Record {
    record.(recency := Some(rule(now, previous)),
            mostRecentAccessTimestamp := Some(IsoText(IsoFormat(now))))
  }

  /** The data an entry is read through: a DatabaseEntry holds the very dict
      stored in raw_data under its id, so it sees the updates made to that
      dict; an entry whose id is absent holds a dict of its own. */
  function LiveRecord(t: Table, entry: DatabaseEntry): Record {
    if entry.index in t then t[entry.index] else entry.data
  }

  /** get_most_recent_access_timestamp of the entry, read through its live record. */
  function PreviousAccess(t: Table, entry: DatabaseEntry, wallClock: DateTime): Result<DateTime, Error> {
    DatabaseEntry(entry.index, LiveRecord(t, entry)).GetMostRecentAccessTimestamp(wallClock)
  }

  /** One iteration of the update loop: the previous access time is read
      before raw_data is indexed, so a malformed timestamp is reported before
      a missing id. */
  function TouchEntry(t: Table, entry: DatabaseEntry, now: DateTime, wallClock: DateTime, rule: (DateTime, DateTime) -> real)
    : Result<Table, Error>
  {
    var previous :- PreviousAccess(t, entry, wallClock);
    if entry.index !in t then Failure(KeyError(NatToString(entry.index)))
    else Success(t[entry.index := Touched(t[entry.index], previous, now, rule)])
  }

  /** The update loop over the scored entries, in ranking order. */
  function AccessesRecorded(t: Table, scores: seq<Scored<DatabaseEntry>>, now: DateTime, wallClock: DateTime,
                            rule: (DateTime, DateTime) -> real): Result<Table, Error>
    decreases |scores|
  {
    if scores == [] then Success(t)
    else
      var earlier :- AccessesRecorded(t, scores[..|scores| - 1], now, wallClock, rule);
      TouchEntry(earlier, scores[|scores| - 1].item, now, wallClock, rule)
  }

  /** One step succeeds exactly when the id is present and its access time
      can be read, and then it replaces that id's record by its touched form. */
  lemma TouchEntryCases(t: Table, entry: DatabaseEntry, now: DateTime, wallClock: DateTime, rule: (DateTime, DateTime) -> real)
    ensures TouchEntry(t, entry, now, wallClock, rule).Success? <==>
      entry.index in t && PreviousAccess(t, entry, wallClock).Success?
    ensures TouchEntry(t, entry, now, wallClock, rule).Success? ==>
      TouchEntry(t, entry, now, wallClock, rule).value ==
        t[entry.index := Touched(t[entry.index], PreviousAccess(t, entry, wallClock).value, now, rule)]
  {
  }

  /** The fields an access leaves alone. */
  predicate SameContent(before: Record, after: Record) {
    && after.description == before.description
    && after.creationTimestamp == before.creationTimestamp
    && after.importance == before.importance
  }

  /** The fields an access at `now` writes. */
  predicate AccessedAt(r: Record, now: DateTime) {
    r.mostRecentAccessTimestamp == Some(IsoText(IsoFormat(now))) && r.recency.Some?
  }

  /** Every scored id is present and keeps its record's description, creation
      time and importance, with now as its access time; the ids that were not
      scored keep their records as they were; no id is added or removed. */
  lemma {:induction false} AccessesRecordedShape(t: Table, scores: seq<Scored<DatabaseEntry>>, now: DateTime,
                                                 wallClock: DateTime, rule: (DateTime, DateTime) -> real)
    requires AccessesRecorded(t, scores, now, wallClock, rule).Success?
    ensures var u := AccessesRecorded(t, scores, now, wallClock, rule).value;
      && u.Keys == t.Keys
      && (forall i | 0 <= i < |scores| ::
            scores[i].item.index in t && AccessedAt(u[scores[i].item.index], now)
            && SameContent(t[scores[i].item.index], u[scores[i].item.index]))
      && (forall k | k in t && (forall i | 0 <= i < |scores| :: scores[i].item.index != k) :: u[k] == t[k])
    decreases |scores|
  {
    if scores != [] {
      var n := |scores| - 1;
      var prefix := scores[..n];
      AccessesRecordedStep(t, scores, n, now, wallClock, rule);
      assert scores[..n + 1] == scores;
      var earlier := AccessesRecorded(t, prefix, now, wallClock, rule);
      assert earlier.Success?;
      AccessesRecordedShape(t, prefix, now, wallClock, rule);
      var entry := scores[n].item;
      TouchEntryCases(earlier.value, entry, now, wallClock, rule);
      var touched := Touched(earlier.value[entry.index], PreviousAccess(earlier.value, entry, wallClock).value, now, rule);
      var u := earlier.value[entry.index := touched];
      assert AccessesRecorded(t, scores, now, wallClock, rule).value == u;
      forall i | 0 <= i < n ensures prefix[i] == scores[i] { }
      assert SameContent(earlier.value[entry.index], touched) && AccessedAt(touched, now);
    }
  }

  /** Ids that appear once each: every one is touched exactly once, with the
      previous access time it had before the loop. */
  predicate DistinctIds(scores: seq<Scored<DatabaseEntry>>) {
    forall i, j | 0 <= i < j < |scores| :: scores[i].item.index != scores[j].item.index
  }

  /** The loop over one more score is the loop over the shorter list, then one more step. */
  lemma AccessesRecordedStep(t: Table, scores: seq<Scored<DatabaseEntry>>, i: nat, now: DateTime,
                             wallClock: DateTime, rule: (DateTime, DateTime) -> real)
    requires i < |scores|
    ensures AccessesRecorded(t, scores[..i + 1], now, wallClock, rule) ==
      var earlier := AccessesRecorded(t, scores[..i], now, wallClock, rule);
      if earlier.Failure? then earlier else TouchEntry(earlier.value, scores[i].item, now, wallClock, rule)
  {
    assert scores[..i + 1][..i] == scores[..i];
    assert scores[..i + 1][i] == scores[i];
  }

  /** The previous access time only depends on the entry's own record. */
  lemma PreviousAccessOfSameRecord(t1: Table, t2: Table, entry: DatabaseEntry, wallClock: DateTime)
    requires entry.index in t1 <==> entry.index in t2
    requires entry.index in t1 ==> t1[entry.index] == t2[entry.index]
    ensures PreviousAccess(t1, entry, wallClock) == PreviousAccess(t2, entry, wallClock)
  {
  }

  /** Every scored id is present and its access time can be read. */
  predicate AllReadable(t: Table, scores: seq<Scored<DatabaseEntry>>, wallClock: DateTime) {
    forall i | 0 <= i < |scores| :: scores[i].item.index in t && PreviousAccess(t, scores[i].item, wallClock).Success?
  }

  /** A step on a table that agrees with `t` on the entry's id succeeds as
      it would on `t`. */
  lemma TouchEntryOnAgreeingTable(t: Table, earlier: Table, entry: DatabaseEntry, now: DateTime,
                                  wallClock: DateTime, rule: (DateTime, DateTime) -> real)
    requires earlier.Keys == t.Keys
    requires entry.index in t ==> earlier[entry.index] == t[entry.index]
    ensures TouchEntry(earlier, entry, now, wallClock, rule).Success? <==>
      entry.index in t && PreviousAccess(t, entry, wallClock).Success?
    ensures TouchEntry(earlier, entry, now, wallClock, rule).Success? ==>
      TouchEntry(earlier, entry, now, wallClock, rule).value ==
        earlier[entry.index := Touched(t[entry.index], PreviousAccess(t, entry, wallClock).value, now, rule)]
  {
    PreviousAccessOfSameRecord(earlier, t, entry, wallClock);
    TouchEntryCases(earlier, entry, now, wallClock, rule);
  }

  /** With distinct ids the loop succeeds exactly when every id is present
      with a readable access time. */
  lemma {:induction false} AccessesRecordedSucceeds(t: Table, scores: seq<Scored<DatabaseEntry>>, now: DateTime,
                                                    wallClock: DateTime, rule: (DateTime, DateTime) -> real)
    requires DistinctIds(scores)
    ensures AccessesRecorded(t, scores, now, wallClock, rule).Success? <==> AllReadable(t, scores, wallClock)
    decreases |scores|
  {
    if scores != [] {
      var n := |scores| - 1;
      var prefix := scores[..n];
      assert DistinctIds(prefix);
      AccessesRecordedSucceeds(t, prefix, now, wallClock, rule);
      AccessesRecordedStep(t, scores, n, now, wallClock, rule);
      assert scores[..n + 1] == scores;
      forall i | 0 <= i < n ensures prefix[i] == scores[i] { }
      var earlier := AccessesRecorded(t, prefix, now, wallClock, rule);
      if earlier.Success? {
        AccessesRecordedShape(t, prefix, now, wallClock, rule);
        var entry := scores[n].item;
        assert forall i | 0 <= i < n :: prefix[i].item.index != entry.index;
        TouchEntryOnAgreeingTable(t, earlier.value, entry, now, wallClock, rule);
      } else {
        assert !AllReadable(t, prefix, wallClock);
      }
    }
  }

  /** The record under the entry's id in `u` is the touched form of its
      record in `t`, with the access time it had in `t`. */
  predicate TouchedFrom(t: Table, u: Table, entry: DatabaseEntry, now: DateTime, wallClock: DateTime,
                        rule: (DateTime, DateTime) -> real)
  {
    && entry.index in t && PreviousAccess(t, entry, wallClock).Success? && entry.index in u
    && u[entry.index] == Touched(t[entry.index], PreviousAccess(t, entry, wallClock).value, now, rule)
  }

  /** With distinct ids each scored entry's recency is computed from the
      access time it had before the query. */
  lemma {:induction false} AccessesRecordedOfDistinctIds(t: Table, scores: seq<Scored<DatabaseEntry>>, now: DateTime,
                                                         wallClock: DateTime, rule: (DateTime, DateTime) -> real)
    requires DistinctIds(scores)
    requires AccessesRecorded(t, scores, now, wallClock, rule).Success?
    ensures forall i | 0 <= i < |scores| ::
      TouchedFrom(t, AccessesRecorded(t, scores, now, wallClock, rule).value, scores[i].item, now, wallClock, rule)
    decreases |scores|
  {
    if scores == [] {
      return;
    }
    var n := |scores| - 1;
    var prefix := scores[..n];
    assert DistinctIds(prefix);
    AccessesRecordedStep(t, scores, n, now, wallClock, rule);
    assert scores[..n + 1] == scores;
    var earlier := AccessesRecorded(t, prefix, now, wallClock, rule);
    assert earlier.Success?;
    AccessesRecordedOfDistinctIds(t, prefix, now, wallClock, rule);
    AccessesRecordedShape(t, prefix, now, wallClock, rule);
    var entry := scores[n].item;
    forall i | 0 <= i < n ensures prefix[i] == scores[i] && scores[i].item.index != entry.index { }
    TouchEntryOnAgreeingTable(t, earlier.value, entry, now, wallClock, rule);
    var u := AccessesRecorded(t, scores, now, wallClock, rule).value;
    assert u == earlier.value[entry.index :=
      Touched(t[entry.index], PreviousAccess(t, entry, wallClock).value, now, rule)];
    forall i | 0 <= i < |scores| ensures TouchedFrom(t, u, scores[i].item, now, wallClock, rule) {
      if i < n {
        assert TouchedFrom(t, earlier.value, prefix[i].item, now, wallClock, rule);
      }
    }
  }

  /** An entry scored twice sees, the second time, the access time written
      the first time: its recency becomes calculate_recency(now, now) = 1. */
  lemma RepeatedEntrySeesFirstAccess(t: Table, entry: DatabaseEntry, s1: real, s2: real, now: DateTime,
                                     wallClock: DateTime, exp: Exponential)
    requires entry.index in t && PreviousAccess(t, entry, wallClock).Success?
    ensures var u := AccessesRecorded(t, [Scored(entry, s1), Scored(entry, s2)], now, wallClock, RecencyRule(exp));
      u.Success? && u.value[entry.index].recency == Some(1.0)
  {
    var scores := [Scored(entry, s1), Scored(entry, s2)];
    AccessesRecordedStep(t, scores, 0, now, wallClock, RecencyRule(exp));
    AccessesRecordedStep(t, scores, 1, now, wallClock, RecencyRule(exp));
    assert scores[..0] == [] && scores[..2] == scores;
    var first := TouchEntry(t, entry, now, wallClock, RecencyRule(exp));
    assert first.Success?;
    ParseIsoOfIsoFormat(now);
    assert PreviousAccess(first.value, entry, wallClock) == Success(now);
    RecencyOfNowIsOne(now, DECAY_RATE, exp);
  }

  /** Once a prefix of the scores fails, so does the whole loop, with the same error. */
  lemma {:induction false} AccessesRecordedPrefixFailure(t: Table, scores: seq<Scored<DatabaseEntry>>, k: nat,
                                                          now: DateTime, wallClock: DateTime, rule: (DateTime, DateTime) -> real)
    requires k <= |scores|
    requires AccessesRecorded(t, scores[..k], now, wallClock, rule).Failure?
    ensures AccessesRecorded(t, scores, now, wallClock, rule) == AccessesRecorded(t, scores[..k], now, wallClock, rule)
    decreases |scores| - k
  {
    if k < |scores| {
      assert scores[..k + 1][..k] == scores[..k];
      AccessesRecordedPrefixFailure(t, scores, k + 1, now, wallClock, rule);
    } else {
      assert scores[..k] == scores;
    }
  }

  /** The loop stopped at the k-th scored entry: the entries before it were
      recorded, leaving `left`, and that entry's step failed with `e`. */
  predicate StoppedAt(t: Table, scores: seq<Scored<DatabaseEntry>>, k: nat, now: DateTime, wallClock: DateTime,
                      rule: (DateTime, DateTime) -> real, left: Table, e: Error)
  {
    && k < |scores|
    && AccessesRecorded(t, scores[..k], now, wallClock, rule) == Success(left)
    && TouchEntry(left, scores[k].item, now, wallClock, rule) == Failure(e)
  }

  /** A failing loop fails with the error of the entry it stopped at. */
  lemma StoppedAtFailure(t: Table, scores: seq<Scored<DatabaseEntry>>, k: nat, now: DateTime, wallClock: DateTime,
                         rule: (DateTime, DateTime) -> real, left: Table, e: Error)
    requires StoppedAt(t, scores, k, now, wallClock, rule, left, e)
    ensures AccessesRecorded(t, scores, now, wallClock, rule) == Failure(e)
  {
    AccessesRecordedStep(t, scores, k, now, wallClock, rule);
    AccessesRecordedPrefixFailure(t, scores, k + 1, now, wallClock, rule);
  }

  /** DatabaseUpdater: the current time and the database's two files. */
  class DatabaseUpdater {
    const now: DateTime
    const databasePath: Path
    const databaseJsonPath: Path

    constructor (currentTimestamp: DateTime, vectorPath: Path, jsonPath: Path)
      ensures now == currentTimestamp && databasePath == vectorPath && databaseJsonPath == jsonPath
    {
      now := currentTimestamp;
      databasePath := vectorPath;
      databaseJsonPath := jsonPath;
    }

    /** update_database_with_new_entries */
    method UpdateDatabaseWithNewEntries(fs: FileSystem, newEntries: seq<string>, index: AnnoyIndex, c: Collaborators)
      returns (o: Outcome<Error>, newIndex: AnnoyIndex)
      modifies fs, index
      ensures fresh(newIndex) && newIndex.state == Unloaded && newIndex.items == []
      ensures index.state == Unloaded && index.items == []
      ensures MemoryDictionaries(old(|index.items|), newEntries, now, c).Failure? ==>
        o == Fail(MemoryDictionaries(old(|index.items|), newEntries, now, c).error) && fs.files == old(fs.files)
      ensures MemoryDictionaries(old(|index.items|), newEntries, now, c).Success? ==>
        IndexThenJson(old(fs.files), fs.files, fs.unwritable, databasePath, databaseJsonPath,
                      old(index.items) + Embeddings(newEntries, c),
                      MemoryDictionaries(old(|index.items|), newEntries, now, c).value, o)
      ensures o.Pass? ==>
        && MemoryDictionaries(old(|index.items|), newEntries, now, c).Success?
        && SavedTogether(old(fs.files), fs.files, databasePath, databaseJsonPath,
                         old(index.items) + Embeddings(newEntries, c),
                         MemoryDictionaries(old(|index.items|), newEntries, now, c).value)
    {
      o, newIndex := UpdateWithNewEntries(fs, now, newEntries, index, databasePath, databaseJsonPath, c);
    }

    /** One iteration of the loop of update_most_recent_access_timestamps:
        the recency from the previous access is computed first, then the
        record under the entry's id gets it, then its access time becomes now. */
    method RecordAccess(entry: DatabaseEntry, table: MemoryTable, wallClock: DateTime, exp: Exponential)
      returns (o: Outcome<Error>)
      modifies table
      ensures var u := TouchEntry(old(table.entries), entry, now, wallClock, RecencyRule(exp));
        && (u.Success? <==> o.Pass?)
        && (u.Success? ==> table.entries == u.value)
        && (u.Failure? ==> o == Fail(u.error) && table.entries == old(table.entries))
    {
      var previous := PreviousAccess(table.entries, entry, wallClock);
      if previous.Failure? {
        return Fail(previous.error);
      }
      var recency := CalculateRecency(now, previous.value, DECAY_RATE, exp);
      if entry.index !in table.entries {
        return Fail(KeyError(NatToString(entry.index)));
      }
      ghost var touched := Touched(table.entries[entry.index], previous.value, now, RecencyRule(exp));
      ghost var before := table.entries;
      table.entries := table.entries[entry.index := table.entries[entry.index].(recency := Some(recency))];
      table.entries := table.entries[entry.index :=
        table.entries[entry.index].(mostRecentAccessTimestamp := Some(IsoText(IsoFormat(now))))];
      assert table.entries == before[entry.index := touched];
      return Pass;
    }

    /** The loop of update_most_recent_access_timestamps, in place on the raw data. */
    method RecordAccesses(scores: seq<Scored<DatabaseEntry>>, table: MemoryTable, wallClock: DateTime, exp: Exponential)
      returns (o: Outcome<Error>)
      modifies table
      ensures var u := AccessesRecorded(old(table.entries), scores, now, wallClock, RecencyRule(exp));
        && (u.Success? <==> o.Pass?)
        && (u.Success? ==> table.entries == u.value)
        && (u.Failure? ==> o == Fail(u.error))
      ensures o.Fail? ==>
        exists k :: StoppedAt(old(table.entries), scores, k, now, wallClock, RecencyRule(exp), table.entries, o.error)
    {
      ghost var original := table.entries;
      var i := 0;
      while i < |scores|
        invariant 0 <= i <= |scores|
        invariant AccessesRecorded(original, scores[..i], now, wallClock, RecencyRule(exp)) == Success(table.entries)
      {
        AccessesRecordedStep(original, scores, i, now, wallClock, RecencyRule(exp));
        o := RecordAccess(scores[i].item, table, wallClock, exp);
        if o.Fail? {
          assert StoppedAt(original, scores, i, now, wallClock, RecencyRule(exp), table.entries, o.error);
          AccessesRecordedPrefixFailure(original, scores, i + 1, now, wallClock, RecencyRule(exp));
          return;
        }
        i := i + 1;
      }
      assert scores[..i] == scores;
      return Pass;
    }

    /** update_most_recent_access_timestamps: the accesses are recorded, all
        the data is turned into its JSON form and saved with a parity check;
        the index is left as it is. */
    method UpdateMostRecentAccessTimestamps(fs: FileSystem, scores: seq<Scored<DatabaseEntry>>, index: AnnoyIndex,
                                            table: MemoryTable, wallClock: DateTime, exp: Exponential)
      returns (o: Outcome<Error>)
      modifies fs, table
      ensures var u := AccessesRecorded(old(table.entries), scores, now, wallClock, RecencyRule(exp));
        && (u.Failure? ==>
              && o == Fail(u.error) && fs.files == old(fs.files)
              && exists k :: StoppedAt(old(table.entries), scores, k, now, wallClock, RecencyRule(exp), table.entries, u.error))
        && (u.Success? ==>
              FormattedAndSaved(old(fs.files), fs.files, fs.unwritable, databaseJsonPath, u.value, table.entries, index, o))
    {
      o := RecordAccesses(scores, table, wallClock, exp);
      if o.Fail? {
        return;
      }
      o := FormatPythonMemoryDataForJson(table);
      if o.Fail? {
        return;
      }
      o := SaveMemoriesToJsonFileEnsuringParity(fs, databaseJsonPath, table.entries, index);
    }
  }
}
