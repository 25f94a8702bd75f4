/** vector_databases/database_querier.py: a vector database is queried by
    checking the arguments, scoring the index's nearest neighbours through
    DatabaseEntry, ranking them, and handing the top of the ranking to the
    database's updater. */
module DatabaseQuerier {
  import opened Wrappers
  import opened Errors
  import opened StringUtils
  import opened Timestamps
  import opened MathUtils
  import opened Records
  import opened Files
  import opened Annoy
  import opened DatabaseEntries
  import opened Vectorization
  import opened Saving
  import opened Ranking
  import opened DatabaseUpdater

  /** The Python values query() can be called with, as far as its isinstance
      checks tell them apart. */
  datatype Argument = Text(text: string) | Integer(number: int) | OtherValue

  /** One iteration of _calculate_custom_scores_of_query_results: the record
      under the neighbour's id must exist; a missing recency or importance
      counts as 0.0. */
  function EntryScore(t: Table, id: nat, distance: real): (r: Result<Scored<DatabaseEntry>, Error>)
    ensures r.Success? <==> id in t
    ensures r.Success? ==>
      && r.value.item == DatabaseEntry(id, t[id])
      && r.value.score == CalculateScore(1.0 - distance,
                                         if t[id].recency.Some? then t[id].recency.value else 0.0,
                                         if t[id].importance.Some? then t[id].importance.value else 0.0)
    ensures id !in t ==> r == Failure(KeyError(NatToString(id)))
  {
    if id !in t then Failure(KeyError(NatToString(id)))
    else
      var entry := DatabaseEntry(id, t[id]);
      var relevance := 1.0 - distance;
      Success(Scored(entry, CalculateScore(relevance, entry.GetRecency(), entry.GetImportance())))
  }

  /** The scores of all the neighbours, in the order the index returned them. */
  function EntryScores(t: Table, neighbours: seq<(nat, real)>): Result<seq<Scored<DatabaseEntry>>, Error> {
    ScoreAll(neighbours, (id, distance) => EntryScore(t, id, distance))
  }

  /** Scoring succeeds exactly when every neighbour's id is in the table, and
      then scores every neighbour; each entry holds the record under its id. */
  lemma EntryScoresCases(t: Table, neighbours: seq<(nat, real)>)
    ensures EntryScores(t, neighbours).Success? <==> forall i | 0 <= i < |neighbours| :: neighbours[i].0 in t
    ensures EntryScores(t, neighbours).Success? ==>
      && |EntryScores(t, neighbours).value| == |neighbours|
      && forall i | 0 <= i < |neighbours| ::
           EntryScores(t, neighbours).value[i].item == DatabaseEntry(neighbours[i].0, t[neighbours[i].0])
  {
    var score := (id, distance) => EntryScore(t, id, distance);
    ScoreAllCases(neighbours, score);
  }

  /** [entry.get_description() for entry in scores] */
  function Descriptions(scores: seq<Scored<DatabaseEntry>>): (r: seq<string>)
    ensures |r| == |scores| && forall i | 0 <= i < |scores| :: r[i] == scores[i].item.GetDescription()
  {
    seq(|scores|, i requires 0 <= i < |scores| => scores[i].item.GetDescription())
  }

  function Min(a: int, b: int): int {
    if a < b then a else b
  }

  class DatabaseQuerier {
    const now: DateTime
    /** _raw_data: shared with the caller and updated in place by the updater. */
    const table: MemoryTable
    const index: AnnoyIndex
    const databasePath: Path
    const databaseJsonPath: Path
    const updater: DatabaseUpdater

    constructor (currentTimestamp: DateTime, rawData: MemoryTable, annoyIndex: AnnoyIndex,
                 vectorPath: Path, jsonPath: Path, databaseUpdater: DatabaseUpdater)
      ensures now == currentTimestamp && table == rawData && index == annoyIndex
      ensures databasePath == vectorPath && databaseJsonPath == jsonPath && updater == databaseUpdater
    {
      now := currentTimestamp;
      table := rawData;
      index := annoyIndex;
      databasePath := vectorPath;
      databaseJsonPath := jsonPath;
      updater := databaseUpdater;
    }

    /** _calculate_custom_scores_of_query_results */
    method CalculateCustomScoresOfQueryResults(neighbours: seq<(nat, real)>)
      returns (r: Result<seq<Scored<DatabaseEntry>>, Error>)
      ensures r == EntryScores(table.entries, neighbours)
    {
      var t := table.entries;
      r := ScoreCandidates(neighbours, (id, distance) => EntryScore(t, id, distance));
    }

    /** query(): the arguments are checked before the index is asked for a
        fixed number of neighbours (`nearest` stands for get_nns_by_vector);
        the ranking is cut to `numberOfResults` entries, exactly those are
        marked as accessed, and their descriptions are returned in ranked
        order. The index is left loaded. */
    method Query(fs: FileSystem, query: Argument, numberOfResults: Argument, nearest: (Vector, nat) -> seq<(nat, real)>,
                 numberOfBaseResults: nat, c: Collaborators, wallClock: DateTime)
      returns (r: Result<seq<string>, Error>)
      modifies fs, table
      ensures !query.Text? ==> r == Failure(TypeError) && fs.files == old(fs.files) && table.entries == old(table.entries)
      ensures query.Text? && !numberOfResults.Integer? ==>
        r == Failure(TypeError) && fs.files == old(fs.files) && table.entries == old(table.entries)
      ensures query.Text? && numberOfResults.Integer? && numberOfResults.number <= 0 ==>
        r == Failure(ValueError) && fs.files == old(fs.files) && table.entries == old(table.entries)
      ensures query.Text? && numberOfResults.Integer? && numberOfResults.number > 0 ==>
        var neighbours := nearest(c.embed(query.text), numberOfBaseResults);
        var scored := EntryScores(old(table.entries), neighbours);
        && (scored.Failure? ==>
              r == Failure(scored.error) && fs.files == old(fs.files) && table.entries == old(table.entries))
        && (scored.Success? ==>
              var top := PySliceTo(SortByScoreDescending(scored.value), numberOfResults.number);
              var u := AccessesRecorded(old(table.entries), top, updater.now, wallClock, RecencyRule(c.exp));
              && |top| == Min(numberOfResults.number, |neighbours|)
              && (u.Failure? ==>
                    && r == Failure(u.error) && fs.files == old(fs.files)
                    && exists k :: StoppedAt(old(table.entries), top, k, updater.now, wallClock, RecencyRule(c.exp),
                                             table.entries, u.error))
              && (u.Success? ==>
                    FormattedAndSaved(old(fs.files), fs.files, fs.unwritable, updater.databaseJsonPath, u.value,
                                      table.entries, index, if r.Success? then Pass else Fail(r.error)))
              && (r.Success? ==> r.value == Descriptions(top)))
    {
      if !query.Text? {
        return Failure(TypeError);
      }
      if !numberOfResults.Integer? {
        return Failure(TypeError);
      }
      if !(numberOfResults.number > 0) {
        return Failure(ValueError);
      }
      var neighbours := nearest(c.embed(query.text), numberOfBaseResults);
      var scored := CalculateCustomScoresOfQueryResults(neighbours);
      if scored.Failure? {
        return Failure(scored.error);
      }
      EntryScoresCases(old(table.entries), neighbours);
      var ranked := SortByScoreDescending(scored.value);
      var top := PySliceTo(ranked, numberOfResults.number);
      var o := updater.UpdateMostRecentAccessTimestamps(fs, top, index, table, wallClock, c.exp);
      if o.Fail? {
        return Failure(o.error);
      }
      // Each entry holds its record as it was when it was scored; the update
      // leaves the description alone, so it reads the same afterwards.
      return Success(Descriptions(top));
    }
  }
}
