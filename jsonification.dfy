/** memories/jsonification.py: merging new memories into the JSON document on
    disk, building the record of a new memory, and converting the timestamps of
    every record between ISO strings and datetimes. */
module Jsonification {
  import opened Wrappers
  import opened Errors
  import opened Timestamps
  import opened MathUtils
  import opened Records
  import opened Files

  /** The reply of the importance-rating request: either no function call, or a
      function call whose `rating` argument is an integer or missing. */
  datatype RatingReply = NoFunctionCall | FunctionCall(rating: Option<int>)

  /** append_to_previous_json_memories_if_necessary: when a file exists at the
      path, the result is its document with every new memory written over it;
      otherwise it is the new memories. */
  method AppendToPreviousJsonMemoriesIfNecessary(fs: FileSystem, path: Path, memories: Table)
    returns (r: Result<Table, Error>)
    ensures !fs.IsFile(path) ==> r == Success(memories)
    ensures fs.IsFile(path) ==> (r.Success? <==> fs.ReadJson(path).Success?)
    ensures fs.IsFile(path) && r.Failure? ==> r == Failure(JsonDecodeError(path))
    ensures fs.IsFile(path) && r.Success? ==>
      var previous := fs.ReadJson(path).value;
      && r.value.Keys == previous.Keys + memories.Keys
      && (forall k | k in memories :: r.value[k] == memories[k])
      && (forall k | k in previous && k !in memories :: r.value[k] == previous[k])
  {
    if !fs.IsFile(path) {
      return Success(memories);
    }
    var previous :- fs.ReadJson(path);
    var merged := previous;
    var remaining := memories.Keys;
    while remaining != {}
      invariant remaining <= memories.Keys
      invariant merged.Keys == previous.Keys + (memories.Keys - remaining)
      invariant forall k | k in memories && k !in remaining :: merged[k] == memories[k]
      invariant forall k | k in previous && (k !in memories || k in remaining) :: merged[k] == previous[k]
      decreases remaining
    {
      var k :| k in remaining;
      merged := merged[k := memories[k]];
      remaining := remaining - {k};
    }
    return Success(merged);
  }

  /** create_memory_dictionary: the record of a memory first seen at `now`. */
  function CreateMemoryDictionary(description: string, now: DateTime, reply: RatingReply, exp: Exponential)
    : (r: Result<Record, Error>)
    ensures r.Success? <==> reply.FunctionCall? && reply.rating.Some?
    ensures reply.NoFunctionCall? ==> r == Failure(FailedToReceiveFunctionCallFromAiModel)
    ensures reply.FunctionCall? && reply.rating.None? ==> r == Failure(TypeError)
    ensures r.Success? ==>
      && r.value.description == Some(description)
      && r.value.creationTimestamp == r.value.mostRecentAccessTimestamp == Some(IsoText(IsoFormat(now)))
      && r.value.recency == Some(1.0)
      && r.value.importance == Some(NormalizeValue(reply.rating.value as real))
      && JsonReady(r.value)
  {
    var recency := CalculateRecency(now, now, DECAY_RATE, exp);
    RecencyOfNowIsOne(now, DECAY_RATE, exp);
    match reply
    case NoFunctionCall => Failure(FailedToReceiveFunctionCallFromAiModel)
    case FunctionCall(None) => Failure(TypeError)
    case FunctionCall(Some(rating)) =>
      var stamp := Some(IsoText(IsoFormat(now)));
      Success(Record(Some(description), stamp, stamp, Some(recency), Some(NormalizeValue(rating as real))))
  }

  /** Both timestamps of a new record read back as `now`, and the record's
      Python form holds `now` in both. */
  lemma CreateMemoryDictionaryTimestamps(description: string, now: DateTime, reply: RatingReply, exp: Exponential)
    requires CreateMemoryDictionary(description, now, reply, exp).Success?
    ensures var r := CreateMemoryDictionary(description, now, reply, exp).value;
      && ParseIso(r.creationTimestamp.value.text) == Some(now)
      && RecordForPython(r).Success?
      && RecordForPython(r).value.creationTimestamp == Some(Instant(now))
      && RecordForPython(r).value.mostRecentAccessTimestamp == Some(Instant(now))
  {
    ParseIsoOfIsoFormat(now);
  }

  /** The value of a field, or the KeyError raised on looking it up. */
  function Lookup<T>(key: string, field: Option<T>): Result<T, Error> {
    match field
    case None => Failure(KeyError(key))
    case Some(v) => Success(v)
  }

  /** datetime.fromisoformat(record[key]) */
  function StampForPython(key: string, field: Option<Stamp>): Result<Stamp, Error> {
    var stamp :- Lookup(key, field);
    match stamp
    case Instant(_) => Failure(TypeError)
    case IsoText(text) =>
      match ParseIso(text)
      case None => Failure(ValueError)
      case Some(t) => Success(Instant(t))
  }

  /** The dict that format_json_memory_data_for_python builds for one record,
      its fields looked up in the order of the dict literal. */
  function RecordForPython(r: Record): Result<Record, Error> {
    var description :- Lookup("description", r.description);
    var creation :- StampForPython("creation_timestamp", r.creationTimestamp);
    var access :- StampForPython("most_recent_access_timestamp", r.mostRecentAccessTimestamp);
    var recency :- Lookup("recency", r.recency);
    var importance :- Lookup("importance", r.importance);
    Success(Record(Some(description), Some(creation), Some(access), Some(recency), Some(importance)))
  }

  /** A timestamp as format_python_memory_data_for_json leaves it: a datetime
      becomes its ISO string, anything else is kept. */
  function StampForJson(key: string, field: Option<Stamp>): Result<Stamp, Error> {
    var stamp :- Lookup(key, field);
    match stamp
    case Instant(t) => Success(IsoText(IsoFormat(t)))
    case IsoText(_) => Success(stamp)
  }

  /** The dict that format_python_memory_data_for_json builds for one record:
      both timestamps are computed before the dict literal is evaluated. */
  function RecordForJson(r: Record): Result<Record, Error> {
    var creation :- StampForJson("creation_timestamp", r.creationTimestamp);
    var access :- StampForJson("most_recent_access_timestamp", r.mostRecentAccessTimestamp);
    var description :- Lookup("description", r.description);
    var recency :- Lookup("recency", r.recency);
    var importance :- Lookup("importance", r.importance);
    Success(Record(Some(description), Some(creation), Some(access), Some(recency), Some(importance)))
  }

  /** A record is complete when it has all five fields. */
  predicate Complete(r: Record) {
    r.description.Some? && r.creationTimestamp.Some? && r.mostRecentAccessTimestamp.Some?
    && r.recency.Some? && r.importance.Some?
  }

  /** Turning timestamps into strings succeeds exactly on complete records,
      always gives a serialisable record, keeps the other fields, and doing it
      again changes nothing. */
  lemma RecordForJsonProperties(r: Record)
    ensures RecordForJson(r).Success? <==> Complete(r)
    ensures RecordForJson(r).Success? ==>
      var j := RecordForJson(r).value;
      && JsonReady(j) && Complete(j)
      && j.description == r.description && j.recency == r.recency && j.importance == r.importance
      && RecordForJson(j) == Success(j)
  {
  }

  /** Reading a record back gives the datetimes it held, with the other fields
      unchanged. */
  lemma {:induction false} StampRoundTrip(key: string, t: DateTime)
    ensures StampForJson(key, Some(Instant(t))) == Success(IsoText(IsoFormat(t)))
    ensures StampForPython(key, Some(IsoText(IsoFormat(t)))) == Success(Instant(t))
  {
    ParseIsoOfIsoFormat(t);
  }

  /** A record in Python form survives the trip to JSON form and back. */
  lemma {:induction false} RecordRoundTrip(r: Record)
    requires RecordForPython(r).Success?
    ensures var p := RecordForPython(r).value;
      && RecordForJson(p).Success?
      && RecordForPython(RecordForJson(p).value) == Success(p)
  {
    var p := RecordForPython(r).value;
    StampRoundTrip("creation_timestamp", p.creationTimestamp.value.time);
    StampRoundTrip("most_recent_access_timestamp", p.mostRecentAccessTimestamp.value.time);
  }

  /** Which error a record stops at on its way to Python form: a missing
      description is reported before anything else, a bad creation timestamp
      before a bad access timestamp. */
  lemma RecordForPythonErrorOrder(r: Record)
    ensures r.description.None? ==> RecordForPython(r) == Failure(KeyError("description"))
    ensures r.description.Some? && r.creationTimestamp.None? ==>
      RecordForPython(r) == Failure(KeyError("creation_timestamp"))
    ensures r.description.Some? && r.creationTimestamp.Some? && r.creationTimestamp.value.Instant? ==>
      RecordForPython(r) == Failure(TypeError)
  {
  }

  /** A non-empty set of ids has a least element. */
  lemma LeastKeyExists(s: set<nat>)
    requires s != {}
    ensures exists m :: m in s && forall j | j in s :: m <= j
  {
    var x :| x in s;
    LeastKeyAtMost(s, x);
  }

  /** ... found by walking down from any of its elements. */
  lemma {:induction false} LeastKeyAtMost(s: set<nat>, x: nat)
    requires x in s
    ensures exists m :: m in s && forall j | j in s :: m <= j
    decreases x
  {
    if !(forall j | j in s :: x <= j) {
      var y :| y in s && y < x;
      LeastKeyAtMost(s, y);
    }
  }

  /** What the conversion loop leaves behind when it stops at id `k`: every
      record before `k` has been converted and the others are as they were. */
  ghost predicate ConvertedBelow(original: Table, current: Table, k: nat, convert: Record -> Result<Record, Error>) {
    && current.Keys == original.Keys
    && (forall j | j in original && j < k :: Success(current[j]) == convert(original[j]))
    && (forall j | j in original && k <= j :: current[j] == original[j])
  }

  /** The invariant of the conversion loop: the ids still to visit are all
      above `bound`, the visited ones below it have been converted, and the
      records still to visit are as they were. */
  ghost predicate ConversionInvariant(original: Table, current: Table, remaining: set<nat>, bound: nat,
                                      convert: Record -> Result<Record, Error>)
  {
    && remaining <= original.Keys && current.Keys == original.Keys
    && (forall j | j in original && j !in remaining :: j < bound && Success(current[j]) == convert(original[j]))
    && (forall j | j in remaining :: bound <= j && current[j] == original[j])
  }

  /** Converting the least remaining record keeps the invariant. */
  lemma ConversionStep(original: Table, current: Table, remaining: set<nat>, bound: nat, k: nat,
                       convert: Record -> Result<Record, Error>, converted: Record)
    requires ConversionInvariant(original, current, remaining, bound, convert)
    requires k in remaining && forall j | j in remaining :: k <= j
    requires convert(current[k]) == Success(converted)
    ensures ConversionInvariant(original, current[k := converted], remaining - {k}, k + 1, convert)
  {
    forall j | j in remaining - {k}
      ensures k + 1 <= j
    {
      assert k <= j && k != j;
    }
  }

  /** When the least remaining record cannot be converted, the loop stops with
      the records below it converted. */
  lemma ConversionStopped(original: Table, current: Table, remaining: set<nat>, bound: nat, k: nat,
                          convert: Record -> Result<Record, Error>)
    requires ConversionInvariant(original, current, remaining, bound, convert)
    requires k in remaining && forall j | j in remaining :: k <= j
    ensures ConvertedBelow(original, current, k, convert)
  {
    assert forall j | j in original && k <= j :: j in remaining;
  }

  /** The loop both format functions run, `for memory_key in memories_raw_data`,
      with `convert` building the new dict of one record: the records are
      visited in the order of their ids, and the first one that cannot be
      converted raises its error, the records before it already replaced and
      it and the ones after it left as they were. */
  method ConvertEachRecord(original: Table, convert: Record -> Result<Record, Error>)
    returns (current: Table, o: Outcome<Error>)
    ensures current.Keys == original.Keys
    ensures o.Pass? <==> forall k | k in original :: convert(original[k]).Success?
    ensures o.Pass? ==> forall k | k in current :: Success(current[k]) == convert(original[k])
    ensures o.Fail? ==> exists k | k in original ::
      convert(original[k]) == Failure(o.error) && ConvertedBelow(original, current, k, convert)
    ensures forall k | k in current :: current[k] == original[k] || Success(current[k]) == convert(original[k])
  {
    current := original;
    var remaining := original.Keys;
    ghost var bound: nat := 0;
    while remaining != {}
      invariant ConversionInvariant(original, current, remaining, bound, convert)
      decreases remaining
    {
      LeastKeyExists(remaining);
      var k :| k in remaining && forall j | j in remaining :: k <= j;
      var converted := convert(current[k]);
      if converted.Failure? {
        ConversionStopped(original, current, remaining, bound, k, convert);
        return current, Fail(converted.error);
      }
      ConversionStep(original, current, remaining, bound, k, convert, converted.value);
      current := current[k := converted.value];
      remaining := remaining - {k};
      bound := k + 1;
    }
    return current, Pass;
  }

  /** format_json_memory_data_for_python, in place: every record is replaced by
      its Python form, in the order of the ids; the first record that cannot
      be converted raises its error, with the records before it converted. */
  method FormatJsonMemoryDataForPython(table: MemoryTable) returns (o: Outcome<Error>)
    modifies table
    ensures table.entries.Keys == old(table.entries).Keys
    ensures o.Pass? <==> forall k | k in old(table.entries) :: RecordForPython(old(table.entries)[k]).Success?
    ensures o.Pass? ==> forall k | k in table.entries :: Success(table.entries[k]) == RecordForPython(old(table.entries)[k])
    ensures o.Fail? ==> exists k | k in old(table.entries) ::
      RecordForPython(old(table.entries)[k]) == Failure(o.error)
      && ConvertedBelow(old(table.entries), table.entries, k, RecordForPython)
    ensures forall k | k in table.entries ::
      table.entries[k] == old(table.entries)[k] || Success(table.entries[k]) == RecordForPython(old(table.entries)[k])
  {
    var converted;
    converted, o := ConvertEachRecord(table.entries, RecordForPython);
    table.entries := converted;
  }

  /** format_python_memory_data_for_json, in place: every record is replaced by
      its JSON form, in the order of the ids, and the first incomplete record
      raises its KeyError with the records before it converted. */
  method FormatPythonMemoryDataForJson(table: MemoryTable) returns (o: Outcome<Error>)
    modifies table
    ensures table.entries.Keys == old(table.entries).Keys
    ensures o.Pass? <==> forall k | k in old(table.entries) :: Complete(old(table.entries)[k])
    ensures o.Pass? ==> forall k | k in table.entries :: Success(table.entries[k]) == RecordForJson(old(table.entries)[k])
    ensures o.Pass? ==> TableJsonReady(table.entries)
    ensures o.Fail? ==> exists k | k in old(table.entries) ::
      && RecordForJson(old(table.entries)[k]) == Failure(o.error)
      && (forall j | j in old(table.entries) && j < k :: Complete(old(table.entries)[j]))
      && ConvertedBelow(old(table.entries), table.entries, k, RecordForJson)
    ensures forall k | k in table.entries ::
      table.entries[k] == old(table.entries)[k] || Success(table.entries[k]) == RecordForJson(old(table.entries)[k])
  {
    ghost var original := table.entries;
    var converted;
    converted, o := ConvertEachRecord(table.entries, RecordForJson);
    forall k | k in original
      ensures RecordForJson(original[k]).Success? <==> Complete(original[k])
      ensures RecordForJson(original[k]).Success? ==> JsonReady(RecordForJson(original[k]).value)
    {
      RecordForJsonProperties(original[k]);
    }
    table.entries := converted;
  }
}
