/** vector_databases/database_loader.py: a database is loaded as its index
    and its raw data, checked against each other before the timestamps are
    converted. memories/memories_database_loader.py runs the same steps on
    an agent's files. */
module DatabaseLoader {
  import opened Wrappers
  import opened Errors
  import opened Records
  import opened Files
  import opened Annoy
  import opened Validation
  import opened Jsonification

  /** The records a load hands back, or its error. */
  function Entries(r: Result<MemoryTable, Error>): Result<Table, Error>
    reads if r.Success? then {r.value} else {}
  {
    if r.Success? then Success(r.value.entries) else Failure(r.error)
  }

  /** What load() leaves behind: the index state and items, and the records
      or the error. A missing index file is reported as FileNotFoundError
      before the JSON is opened; a readable document whose count differs
      from the index's is reported before any timestamp is converted; after
      that, success means every record has its Python form, and a failure
      is the error of the first record in id order that has none. */
  ghost predicate LoadedFrom(fs: FileSystem, vectorPath: Path, jsonPath: Path,
                             state: State, items: seq<Vector>, r: Result<Table, Error>)
    reads fs
  {
    if !(vectorPath in fs.files && fs.files[vectorPath].IndexFile?) then
      r == Failure(FileNotFound(vectorPath)) && state == Empty && items == []
    else
      && state == Loaded && items == fs.files[vectorPath].vectors
      && if fs.ReadJson(jsonPath).Failure? then r == Failure(fs.ReadJson(jsonPath).error)
         else
           var raw := fs.ReadJson(jsonPath).value;
           if |raw| != |items| then r == Failure(DisparityBetweenDatabases(|items|, |raw|))
           else
             && (r.Success? <==> forall k | k in raw :: RecordForPython(raw[k]).Success?)
             && (r.Success? ==> r.value.Keys == raw.Keys)
             && (r.Success? ==> forall k | k in raw :: Success(r.value[k]) == RecordForPython(raw[k]))
             && (r.Failure? ==> exists k | k in raw ::
                   && RecordForPython(raw[k]) == Failure(r.error)
                   && forall j | j in raw && j < k :: RecordForPython(raw[j]).Success?)
  }

  /** The steps of load(): the index file, the JSON document, the parity
      check on the raw document, then the records in their Python form.
      The index is handed back however far the steps got and is never
      unloaded here. */
  method LoadIndexAndData(fs: FileSystem, vectorPath: Path, jsonPath: Path)
    returns (index: AnnoyIndex, r: Result<MemoryTable, Error>)
    ensures fresh(index) && (r.Success? ==> fresh(r.value))
    ensures LoadedFrom(fs, vectorPath, jsonPath, index.state, index.items, Entries(r))
  {
    index := new AnnoyIndex();
    var loaded := index.Load(fs, vectorPath);
    if loaded.Fail? {
      return index, Failure(FileNotFound(vectorPath));
    }
    var raw := fs.ReadJson(jsonPath);
    if raw.Failure? {
      return index, Failure(raw.error);
    }
    var parity := EnsureParityBetweenDatabases(raw.value, index);
    if parity.Fail? {
      return index, Failure(parity.error);
    }
    var table := new MemoryTable(raw.value);
    var formatted := FormatJsonMemoryDataForPython(table);
    if formatted.Fail? {
      return index, Failure(formatted.error);
    }
    return index, Success(table);
  }

  /** DatabaseLoader: a named database whose two files are given. */
  class DatabaseLoader {
    const databaseName: string
    const databasePath: Path
    const databaseJsonPath: Path

    constructor (name: string, vectorPath: Path, jsonPath: Path)
      ensures databaseName == name && databasePath == vectorPath && databaseJsonPath == jsonPath
    {
      databaseName := name;
      databasePath := vectorPath;
      databaseJsonPath := jsonPath;
    }

    /** load() */
    method Load(fs: FileSystem) returns (index: AnnoyIndex, r: Result<MemoryTable, Error>)
      ensures fresh(index) && (r.Success? ==> fresh(r.value))
      ensures LoadedFrom(fs, databasePath, databaseJsonPath, index.state, index.items, Entries(r))
    {
      index, r := LoadIndexAndData(fs, databasePath, databaseJsonPath);
    }
  }
}
