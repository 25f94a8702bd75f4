/** The files the store reads and writes: vector index files, JSON documents
    and text files of seed lines, as a map from path to content. */
module Files {
  import opened Wrappers
  import opened Errors
  import opened Records

  /** VECTOR_DIMENSIONS (defines/defines.py). */
  const VECTOR_DIMENSIONS: nat := 384

  /** An embedding, as MODEL.encode produces it. */
  type Vector = v: seq<real> | |v| == VECTOR_DIMENSIONS witness seq(VECTOR_DIMENSIONS, _ => 0.0)

  datatype File =
    | IndexFile(vectors: seq<Vector>)
    | JsonFile(document: JsonDocument)
    | TextFile(lines: seq<string>)
    // what json.dump leaves behind when it stops half-way through a document
    | Unparsable

  /** Where an agent's memory files live: the index file, the JSON document
      and the seed text. The functions that compute them from the agent's name
      are not part of this model; they are given as a function of the name. */
  datatype MemoryPaths = MemoryPaths(baseMemories: Path, baseMemoriesJson: Path, seedMemories: Path)

  class FileSystem {
    var files: map<Path, File>
    /** Paths where opening a file for writing raises OSError. */
    const unwritable: set<Path>

    constructor (initial: map<Path, File>, readOnly: set<Path>)
      ensures files == initial && unwritable == readOnly
    {
      files := initial;
      unwritable := readOnly;
    }

    /** os.path.isfile */
    predicate IsFile(path: Path)
      reads this
    {
      path in files
    }

    /** open(path, "r") then json.load: FileNotFoundError on a missing file,
        a decoding error on anything that is not a JSON document. */
    function ReadJson(path: Path): (r: Result<Table, Error>)
      reads this
      ensures r.Success? <==> path in files && files[path].JsonFile?
      ensures r.Success? ==> r.value == files[path].document && TableJsonReady(r.value)
      ensures path !in files ==> r == Failure(FileNotFound(path))
    {
      if path !in files then Failure(FileNotFound(path))
      else match files[path]
        case JsonFile(document) => Success(document)
        case _ => Failure(JsonDecodeError(path))
    }

    /** open(path, "r") and iteration over its lines; a file that is not text
        fails to decode. */
    function ReadLines(path: Path): (r: Result<seq<string>, Error>)
      reads this
      ensures r.Success? <==> path in files && files[path].TextFile?
      ensures r.Success? ==> r.value == files[path].lines
    {
      if path !in files then Failure(FileNotFound(path))
      else match files[path]
        case TextFile(lines) => Success(lines)
        case _ => Failure(ValueError)
    }

    /** open(path, "w") then json.dump(document): opening an unwritable path
        raises OSError and leaves the files alone; a datetime in the document
        raises TypeError after the file has been truncated and partly written. */
    method WriteJson(path: Path, document: Table) returns (o: Outcome<Error>)
      modifies this
      ensures path in unwritable ==> o == Fail(OSError(path)) && files == old(files)
      ensures path !in unwritable && TableJsonReady(document) ==>
        o.Pass? && files == old(files)[path := JsonFile(document)]
      ensures path !in unwritable && !TableJsonReady(document) ==>
        o == Fail(TypeError) && files == old(files)[path := Unparsable]
    {
      if path in unwritable {
        return Fail(OSError(path));
      }
      if !TableJsonReady(document) {
        files := files[path := Unparsable];
        return Fail(TypeError);
      }
      files := files[path := JsonFile(document)];
      return Pass;
    }

    /** The index's own writer: OSError on an unwritable path. */
    method WriteIndex(path: Path, vectors: seq<Vector>) returns (o: Outcome<Error>)
      modifies this
      ensures path in unwritable ==> o == Fail(OSError(path)) && files == old(files)
      ensures path !in unwritable ==> o.Pass? && files == old(files)[path := IndexFile(vectors)]
    {
      if path in unwritable {
        return Fail(OSError(path));
      }
      files := files[path := IndexFile(vectors)];
      return Pass;
    }
  }
}
