/** vector_databases/database_entry.py: a record seen through its slot id, with
    a default for every missing field. */
module DatabaseEntries {
  import opened Wrappers
  import opened Errors
  import opened Timestamps
  import opened Records

  datatype DatabaseEntry = DatabaseEntry(index: nat, data: Record) {
    function GetIndex(): nat {
      index
    }

    function GetRecency(): real {
      data.recency.GetOr(0.0)
    }

    function GetImportance(): real {
      data.importance.GetOr(0.0)
    }

    function GetDescription(): string {
      data.description.GetOr("")
    }

    /** get_most_recent_access_timestamp: a stored datetime as it is, a stored
        string parsed with fromisoformat, and when the field is missing the
        ISO string of the wall-clock time `wallClock` parsed back. */
    function GetMostRecentAccessTimestamp(wallClock: DateTime): Result<DateTime, Error> {
      match data.mostRecentAccessTimestamp.GetOr(IsoText(IsoFormat(wallClock)))
      case Instant(t) => Success(t)
      case IsoText(text) =>
        match ParseIso(text)
        case None => Failure(ValueError)
        case Some(t) => Success(t)
    }
  }

  /** Every getter returns the stored value, or its default (0.0 for recency and
      importance, "" for the description) when the field is missing. */
  lemma GettersWithDefaults(entry: DatabaseEntry, id: nat, data: Record)
    requires entry == DatabaseEntry(id, data)
    ensures entry.GetIndex() == id
    ensures entry.GetRecency() == (if data.recency.Some? then data.recency.value else 0.0)
    ensures entry.GetImportance() == (if data.importance.Some? then data.importance.value else 0.0)
    ensures entry.GetDescription() == (if data.description.Some? then data.description.value else "")
  {
  }

  /** The access timestamp getter: a missing field reads as the wall-clock time,
      a datetime as itself, and an ISO string written by isoformat as the
      datetime it was written from. */
  lemma {:induction false} AccessTimestampDefaults(id: nat, data: Record, wallClock: DateTime, t: DateTime)
    ensures data.mostRecentAccessTimestamp.None? ==>
      DatabaseEntry(id, data).GetMostRecentAccessTimestamp(wallClock) == Success(wallClock)
    ensures data.mostRecentAccessTimestamp == Some(Instant(t)) ==>
      DatabaseEntry(id, data).GetMostRecentAccessTimestamp(wallClock) == Success(t)
    ensures data.mostRecentAccessTimestamp == Some(IsoText(IsoFormat(t))) ==>
      DatabaseEntry(id, data).GetMostRecentAccessTimestamp(wallClock) == Success(t)
  {
    ParseIsoOfIsoFormat(wallClock);
    ParseIsoOfIsoFormat(t);
  }
}
