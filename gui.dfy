/**
 * The parts of the monitor window that do more than draw: the timestamp
 * text, the two control buttons and the choice of rows in the history table.
 */
module Gui {
  import opened Common
  import opened JsonValue
  import opened Location
  import opened Server

  /**
   * `format_timestamp`: `N/A` for a zero timestamp, otherwise the local-time
   * text `strftime` produces. That text is a date and a time, never `N/A`, so
   * the table shows `N/A` exactly for a record without a timestamp.
   */
  function FormatTimestamp(timestamp: int, localTime: int -> string): (text: string)
    requires forall t :: localTime(t) != "N/A"
    ensures text == "N/A" <==> timestamp == 0
    ensures timestamp != 0 ==> text == localTime(timestamp)
  {
    if timestamp == 0 then "N/A" else localTime(timestamp)
  }

  /** "Clear Log Files": both files are truncated to empty. */
  method ClearLogFiles(files: LogFiles)
    modifies files
    ensures files.locationData == Unparsable && files.locationLog == ""
  {
    files.locationData := Unparsable;
    files.locationLog := "";
  }

  /** After the files are cleared, the data file is rebuilt from an empty array: it holds exactly the payloads accepted since. */
  lemma ClearedFileRestarts(payloads: seq<Json>)
    ensures PushAll(Loaded(Unparsable), payloads) == Success(Array(payloads))
  {
    PushAllOntoArray([], payloads);
    assert [] + payloads == payloads;
  }

  /** "Reset Counter": the counter goes back to zero and the history is emptied; the position is kept. */
  method ResetCounter(shared: SharedData)
    requires shared.Valid()
    modifies shared
    ensures shared.Valid()
    ensures shared.counter == 0 && shared.recentRecords == [] && shared.acceptedAt == []
    ensures shared.currentLocation == old(shared.currentLocation)
  {
    shared.counter := 0;
    shared.recentRecords := [];
    shared.acceptedAt := [];
  }

  /** The most rows the history table shows. */
  const MaxRows: nat := 20

  const NoRecordsYet := "No records yet..."

  /** One row of the history table: the label in the ID column and the record the other columns show. */
  datatype Row = Row(id: int, record: Json)

  /** The history tab: a placeholder line, or the table's rows from top to bottom. */
  datatype HistoryView = Placeholder(text: string) | Table(rows: seq<Row>)

  /**
   * The rows of the history tab, read under the lock: newest record first,
   * at most `MaxRows` of them, each labelled `counter - idx`, which is the
   * counter value at which that record was accepted.
   */
  method ShowHistory(shared: SharedData) returns (view: HistoryView)
    requires shared.Valid()
    ensures shared.recentRecords == [] <==> view == Placeholder(NoRecordsYet)
    ensures shared.recentRecords != [] ==>
      var records := shared.recentRecords;
      && view.Table?
      && |view.rows| == Min(|records|, MaxRows)
      && forall i :: 0 <= i < |view.rows| ==>
           view.rows[i].record == records[|records| - 1 - i]
           && view.rows[i].id == shared.acceptedAt[|records| - 1 - i]
  {
    var records := shared.recentRecords;
    if records == [] {
      return Placeholder(NoRecordsYet);
    }
    var rows: seq<Row> := [];
    var idx := 0;
    while idx < |records|
      invariant 0 <= idx <= |records| && idx < MaxRows
      invariant |rows| == idx
      invariant forall i :: 0 <= i < idx ==> rows[i] == Row(shared.counter - i, records[|records| - 1 - i])
    {
      rows := rows + [Row(shared.counter - idx, records[|records| - 1 - idx])];
      idx := idx + 1;
      if idx >= MaxRows {
        break;
      }
    }
    view := Table(rows);
  }
}
