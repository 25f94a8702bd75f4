/** memories/memories_database_querier.py: an agent's memories are queried
    by scoring the index's nearest neighbours, ranking them, and marking the
    top of the ranking as accessed now. */
module MemoriesDatabaseQuerier {
  import opened Wrappers
  import opened Errors
  import opened StringUtils
  import opened Timestamps
  import opened MathUtils
  import opened Records
  import opened Files
  import opened Annoy
  import opened Jsonification
  import opened Vectorization
  import opened Saving
  import opened Ranking

  /** One iteration of _calculate_custom_scores_of_memories: the record under
      the neighbour's id must exist and hold a recency and an importance. */
  function MemoryScore(t: Table, id: nat, distance: real): (r: Result<Scored<nat>, Error>)
    ensures r.Success? <==> id in t && t[id].recency.Some? && t[id].importance.Some?
    ensures r.Success? ==>
      r.value == Scored(id, CalculateScore(1.0 - distance, t[id].recency.value, t[id].importance.value))
    ensures id !in t ==> r == Failure(KeyError(NatToString(id)))
    ensures id in t && t[id].recency.None? ==> r == Failure(KeyError("recency"))
    ensures id in t && t[id].recency.Some? && t[id].importance.None? ==> r == Failure(KeyError("importance"))
  {
    var relevance := 1.0 - distance;
    if id !in t then Failure(KeyError(NatToString(id)))
    else
      var recency :- Lookup("recency", t[id].recency);
      var importance :- Lookup("importance", t[id].importance);
      Success(Scored(id, CalculateScore(relevance, recency, importance)))
  }

  /** The scores of all the neighbours, in the order the index returned them. */
  function MemoryScores(t: Table, neighbours: seq<(nat, real)>): Result<seq<Scored<nat>>, Error> {
    ScoreAll(neighbours, (id, distance) => MemoryScore(t, id, distance))
  }

  /** Every scored candidate is a memory of the table. */
  lemma ScoredMemoriesArePresent(t: Table, neighbours: seq<(nat, real)>)
    requires MemoryScores(t, neighbours).Success?
    ensures forall x | x in MemoryScores(t, neighbours).value :: x.item in t
  {
    var score := (id, distance) => MemoryScore(t, id, distance);
    ScoreAllCases(neighbours, score);
  }

  /** A record as the update loop leaves it: recency calculate_recency(now, now),
      which is 1, and now as its access time. */
  function Refreshed(r: Record, now: DateTime): Record {
    r.(recency := Some(1.0), mostRecentAccessTimestamp := Some(IsoText(IsoFormat(now))))
  }

  /** The table once every listed id has been accessed now. */
  function Refresh(t: Table, ids: seq<nat>, now: DateTime): (u: Table)
    ensures u.Keys == t.Keys
  {
    map k | k in t :: if k in ids then Refreshed(t[k], now) else t[k]
  }

  /** The listed ids are accessed now and keep their description, creation
      time and importance; every other record is untouched; accessing the
      same ids twice changes nothing more. */
  lemma RefreshProperties(t: Table, ids: seq<nat>, now: DateTime)
    ensures forall k | k in t && k in ids ::
      && Refresh(t, ids, now)[k].recency == Some(1.0)
      && Refresh(t, ids, now)[k].mostRecentAccessTimestamp == Some(IsoText(IsoFormat(now)))
      && Refresh(t, ids, now)[k].description == t[k].description
      && Refresh(t, ids, now)[k].creationTimestamp == t[k].creationTimestamp
      && Refresh(t, ids, now)[k].importance == t[k].importance
    ensures forall k | k in t && k !in ids :: Refresh(t, ids, now)[k] == t[k]
    ensures Refresh(Refresh(t, ids, now), ids, now) == Refresh(t, ids, now)
  {
  }

  lemma RefreshStep(t: Table, ids: seq<nat>, i: nat, now: DateTime)
    requires i < |ids| && ids[i] in t
    ensures Refresh(t, ids[..i + 1], now) == Refresh(t, ids[..i], now)[ids[i] := Refreshed(t[ids[i]], now)]
  {
    assert ids[..i + 1] == ids[..i] + [ids[i]];
    var u := Refresh(t, ids[..i + 1], now);
    var v := Refresh(t, ids[..i], now)[ids[i] := Refreshed(t[ids[i]], now)];
    forall k | k in t ensures u[k] == v[k] {
      assert k in ids[..i + 1] <==> k in ids[..i] || k == ids[i];
    }
    assert u.Keys == v.Keys;
  }

  /** The descriptions of the listed records, looked up in order. */
  function Descriptions(t: Table, ids: seq<nat>): (r: Result<seq<string>, Error>)
    ensures r.Success? <==> forall i | 0 <= i < |ids| :: ids[i] in t && t[ids[i]].description.Some?
    ensures r.Success? ==>
      |r.value| == |ids| && forall i | 0 <= i < |ids| :: Some(r.value[i]) == t[ids[i]].description
    decreases |ids|
  {
    if ids == [] then Success([])
    else if ids[0] !in t then Failure(KeyError(NatToString(ids[0])))
    else
      var first :- Lookup("description", t[ids[0]].description);
      var rest :- Descriptions(t, ids[1..]);
      assert forall i | 1 <= i < |ids| :: ids[i] == ids[1..][i - 1];
      Success([first] + rest)
  }

  class MemoriesDatabaseQuerier {
    const agentName: string
    const now: DateTime
    /** _memories_raw_data: the dict is shared with the caller and updated in place. */
    const table: MemoryTable
    const index: AnnoyIndex

    constructor (name: string, currentTimestamp: DateTime, memoriesRawData: MemoryTable, annoyIndex: AnnoyIndex)
      ensures agentName == name && now == currentTimestamp && table == memoriesRawData && index == annoyIndex
    {
      agentName := name;
      now := currentTimestamp;
      table := memoriesRawData;
      index := annoyIndex;
    }

    /** _calculate_custom_scores_of_memories */
    method CalculateCustomScoresOfMemories(neighbours: seq<(nat, real)>) returns (r: Result<seq<Scored<nat>>, Error>)
      ensures r == MemoryScores(table.entries, neighbours)
    {
      var t := table.entries;
      r := ScoreCandidates(neighbours, (id, distance) => MemoryScore(t, id, distance));
    }

    /** The loop of _update_most_recent_access_timestamps: calculate_recency is
        evaluated before the record is looked up, so a missing id raises
        KeyError before anything is written for it. */
    method RefreshAccesses(ids: seq<nat>, exp: Exponential) returns (o: Outcome<Error>)
      modifies table
      ensures (forall i | 0 <= i < |ids| :: ids[i] in old(table.entries)) ==>
        o.Pass? && table.entries == Refresh(old(table.entries), ids, now)
      ensures !(forall i | 0 <= i < |ids| :: ids[i] in old(table.entries)) ==>
        exists i | 0 <= i < |ids| ::
          && ids[i] !in old(table.entries)
          && (forall j | 0 <= j < i :: ids[j] in old(table.entries))
          && o == Fail(KeyError(NatToString(ids[i])))
    {
      ghost var original := table.entries;
      var i := 0;
      while i < |ids|
        invariant 0 <= i <= |ids|
        invariant forall j | 0 <= j < i :: ids[j] in original
        invariant table.entries == Refresh(original, ids[..i], now)
      {
        var recency := CalculateRecency(now, now, DECAY_RATE, exp);
        RecencyOfNowIsOne(now, DECAY_RATE, exp);
        if ids[i] !in table.entries {
          return Fail(KeyError(NatToString(ids[i])));
        }
        RefreshStep(original, ids, i, now);
        table.entries := table.entries[ids[i] := table.entries[ids[i]].(recency := Some(recency))];
        table.entries := table.entries[ids[i] :=
          table.entries[ids[i]].(mostRecentAccessTimestamp := Some(IsoText(IsoFormat(now))))];
        i := i + 1;
      }
      assert ids[..i] == ids;
      return Pass;
    }

    /** _update_most_recent_access_timestamps: the top `numberOfResults`
        entries of the ranking are accessed now, then all the data is turned
        into its JSON form and saved with a parity check; the index stays
        loaded. */
    method UpdateMostRecentAccessTimestamps(fs: FileSystem, scores: seq<Scored<nat>>, numberOfResults: int,
                                            exp: Exponential, jsonPath: Path)
      returns (o: Outcome<Error>)
      modifies fs, table
      ensures var top := Ids(PySliceTo(scores, numberOfResults));
        && ((forall i | 0 <= i < |top| :: top[i] in old(table.entries)) ==>
              FormattedAndSaved(old(fs.files), fs.files, fs.unwritable, jsonPath,
                                Refresh(old(table.entries), top, now), table.entries, index, o))
        && (!(forall i | 0 <= i < |top| :: top[i] in old(table.entries)) ==> o.Fail? && fs.files == old(fs.files))
    {
      var top := Ids(PySliceTo(scores, numberOfResults));
      o := RefreshAccesses(top, exp);
      if o.Fail? {
        return;
      }
      o := FormatPythonMemoryDataForJson(table);
      if o.Fail? {
        return;
      }
      o := SaveMemoriesToJsonFileEnsuringParity(fs, jsonPath, table.entries, index);
    }

    /** query(): the index is asked for a fixed number of neighbours,
        whatever `numberOfResults` is; `nearest` stands for
        get_nns_by_vector. `numberOfResults` is not checked, so a negative
        one counts from the end of the ranking as Python's slice does. */
    method Query(fs: FileSystem, query: string, numberOfResults: int, nearest: (Vector, nat) -> seq<(nat, real)>,
                 numberOfBaseResults: nat, c: Collaborators, layout: string -> MemoryPaths)
      returns (r: Result<seq<string>, Error>)
      modifies fs, table
      ensures var scored := MemoryScores(old(table.entries), nearest(c.embed(query), numberOfBaseResults));
        && (scored.Failure? ==>
              r == Failure(scored.error) && fs.files == old(fs.files) && table.entries == old(table.entries))
        && (scored.Success? ==>
              var top := Ids(PySliceTo(SortByScoreDescending(scored.value), numberOfResults));
              && FormattedAndSaved(old(fs.files), fs.files, fs.unwritable, layout(agentName).baseMemoriesJson,
                                   Refresh(old(table.entries), top, now), table.entries, index,
                                   if r.Success? then Pass else Fail(r.error))
              && (r.Success? ==>
                    |r.value| == |top| &&
                    forall i | 0 <= i < |top| ::
                      top[i] in old(table.entries) && Some(r.value[i]) == old(table.entries)[top[i]].description))
    {
      ghost var original := table.entries;
      var neighbours := nearest(c.embed(query), numberOfBaseResults);
      var scored := CalculateCustomScoresOfMemories(neighbours);
      if scored.Failure? {
        return Failure(scored.error);
      }
      var ranked := SortByScoreDescending(scored.value);
      var top := Ids(PySliceTo(ranked, numberOfResults));
      TopMemoriesArePresent(original, neighbours, numberOfResults);
      var o := UpdateMostRecentAccessTimestamps(fs, ranked, numberOfResults, c.exp, layout(agentName).baseMemoriesJson);
      if o.Fail? {
        return Failure(o.error);
      }
      SavedOnPass(old(fs.files), fs.files, fs.unwritable, layout(agentName).baseMemoriesJson,
                  Refresh(original, top, now), table.entries, index);
      KeptDescriptions(original, Refresh(original, top, now), table.entries, top, now);
      r := Descriptions(table.entries, top);
    }
  }

  /** The top of the ranking are memories of the table. */
  lemma TopMemoriesArePresent(t: Table, neighbours: seq<(nat, real)>, k: int)
    requires MemoryScores(t, neighbours).Success?
    ensures var top := Ids(PySliceTo(SortByScoreDescending(MemoryScores(t, neighbours).value), k));
      forall i | 0 <= i < |top| :: top[i] in t
  {
    var scored := MemoryScores(t, neighbours).value;
    ScoredMemoriesArePresent(t, neighbours);
    TopAreCandidates(scored, k);
    var slice := PySliceTo(SortByScoreDescending(scored), k);
    assert forall i | 0 <= i < |slice| :: slice[i] in scored;
  }

  /** A save that passed wrote the JSON form of every record, all of them complete. */
  lemma SavedOnPass(before: map<Path, File>, after: map<Path, File>, unwritable: set<Path>, path: Path,
                    records: Table, saved: Table, index: AnnoyIndex)
    requires FormattedAndSaved(before, after, unwritable, path, records, saved, index, Pass)
    ensures saved.Keys == records.Keys
    ensures forall k | k in records :: Complete(records[k])
    ensures forall k | k in saved :: Success(saved[k]) == RecordForJson(records[k])
  {
  }

  /** The records the query accessed keep their descriptions through the save. */
  lemma KeptDescriptions(original: Table, records: Table, saved: Table, ids: seq<nat>, now: DateTime)
    requires records == Refresh(original, ids, now)
    requires forall i | 0 <= i < |ids| :: ids[i] in original
    requires saved.Keys == records.Keys
    requires forall k | k in records :: Complete(records[k])
    requires forall k | k in saved :: Success(saved[k]) == RecordForJson(records[k])
    ensures forall i | 0 <= i < |ids| :: ids[i] in saved && saved[ids[i]].description == original[ids[i]].description
    ensures forall i | 0 <= i < |ids| :: saved[ids[i]].description.Some?
  {
    forall i | 0 <= i < |ids|
      ensures ids[i] in saved && saved[ids[i]].description == original[ids[i]].description
    {
      RecordForJsonProperties(records[ids[i]]);
    }
  }
}
