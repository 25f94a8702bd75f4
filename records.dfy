/** A memory record, the dict with the fields description, creation_timestamp,
    most_recent_access_timestamp, recency and importance, in both the forms the
    store keeps it in: read from JSON (timestamps as ISO strings) and ready for
    Python (timestamps as datetimes). A field that is absent from the dict is None. */
module Records {
  import opened Wrappers
  import opened Timestamps

  /** A timestamp field holds either an ISO string or a datetime. */
  datatype Stamp = IsoText(text: string) | Instant(time: DateTime)

  datatype Record = Record(
    description: Option<string>,
    creationTimestamp: Option<Stamp>,
    mostRecentAccessTimestamp: Option<Stamp>,
    recency: Option<real>,
    importance: Option<real>)

  /** The raw data of a database: records keyed by their slot id in the index. */
  type Table = map<nat, Record>

  predicate StampJsonReady(s: Option<Stamp>) {
    s.None? || s.value.IsoText?
  }

  /** json.dump can serialise the record: it holds no datetime. */
  predicate JsonReady(r: Record) {
    StampJsonReady(r.creationTimestamp) && StampJsonReady(r.mostRecentAccessTimestamp)
  }

  predicate TableJsonReady(t: Table) {
    forall k | k in t :: JsonReady(t[k])
  }

  /** What a JSON file can hold: no datetimes. */
  type JsonDocument = t: Table | TableJsonReady(t) witness map[]

  /** Merging tables of serialisable records gives a table of serialisable records. */
  lemma MergeJsonReady(previous: Table, added: Table)
    requires TableJsonReady(previous) && TableJsonReady(added)
    ensures TableJsonReady(previous + added)
  {
  }

  /** The raw data dict, which the querier, the updater and their caller share
      and update in place. */
  class MemoryTable {
    var entries: Table

    constructor (initial: Table)
      ensures entries == initial
    {
      entries := initial;
    }
  }
}
