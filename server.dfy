/**
 * One pass of the `run_server` loop: a raw request is parsed, validated,
 * recorded in the shared store, appended to the JSON data file and to the
 * text log, and answered with exactly one reply.
 */
module Server {
  import opened Common
  import opened Text
  import opened JsonValue
  import opened Location

  /**
   * What `json::parse` does with a request text: returns a document, throws
   * `parse_error` (a syntax error), or throws another exception, such as
   * `out_of_range.406` for a number too large for a `double`, with its
   * `what()` text.
   */
  datatype ParseOutcome = Document(doc: Json) | SyntaxError | OtherError(what: string)

  /**
   * The JSON library and stream formatting the handler relies on, which this
   * model does not define: `json::parse`, `operator<<` on a JSON value, on the
   * `double` a value converts to, and on the `int` a value converts to.
   */
  datatype Library = Library(
    parse: string -> ParseOutcome,
    dump: Json -> string,
    showDouble: Json -> string,
    showInt: Json -> string)

  /** What reading `location_data.json` yields: no file, a file that does not parse (an empty one included), or a document. */
  datatype DataFile = Missing | Unparsable | Parsed(doc: Json)

  /** The two files the server writes: `location_data.json` and `location_log.txt`. */
  class LogFiles {
    var locationData: DataFile
    var locationLog: string

    constructor (data: DataFile, log: string)
      ensures locationData == data && locationLog == log
    {
      locationData := data;
      locationLog := log;
    }
  }

  const InvalidJson := "ERROR:Invalid JSON"
  const NoLatLon := "ERROR:No lat/lon"

  /** The reply to any other exception: `"ERROR:" + e.what()`. */
  function ErrorReply(what: string): string {
    "ERROR:" + what
  }

  /** The reply to an accepted record. */
  function OkReply(counter: nat): string {
    "OK:" + NatToString(counter)
  }

  /** How a client reads a reply: the counter of an `OK:` reply, nothing for any other. */
  function ParseOkReply(reply: string): Option<nat> {
    if |reply| >= 3 && reply[..3] == "OK:" then ParseNat(reply[3..]) else None
  }

  /** An accepted reply carries the new counter and reads back as it; no error reply reads as accepted. */
  lemma OkReplyRoundTrip(counter: nat, what: string)
    ensures ParseOkReply(OkReply(counter)) == Some(counter)
    ensures ParseOkReply(ErrorReply(what)) == None
    ensures ParseOkReply(InvalidJson) == None && ParseOkReply(NoLatLon) == None
  {
    ParseNatToString(counter);
    assert OkReply(counter)[3..] == NatToString(counter);
    assert ErrorReply(what)[..3] == "ERR";
  }

  /** Both coordinates are top-level members (never true of a value that is not an object). */
  predicate HasLatLon(j: Json) {
    Contains(j, "latitude") && Contains(j, "longitude")
  }

  /** The position an accepted payload sets: altitude defaults to 0.0 and the timestamp, read from `"time"`, to 0. */
  function LocationOf(payload: Json): Location
    requires HasLatLon(payload)
  {
    Location(
      payload.fields["latitude"],
      payload.fields["longitude"],
      ValueOr(payload, "altitude", Float(0.0)),
      ValueOr(payload, "time", Integer(0)))
  }

  /** The document the rewrite starts from: the file's own, or an empty array when the file is missing or does not parse. */
  function Loaded(f: DataFile): Json {
    match f
    case Parsed(d) => d
    case _ => Array([])
  }

  /** The records a data file already holds: those of a parsed array, none for a missing, unparsable or null file. */
  function StoredRecords(f: DataFile): seq<Json> {
    if f.Parsed? && f.doc.Array? then f.doc.items else []
  }

  /**
   * The rewrite of the data file succeeds exactly when the file is missing,
   * does not parse, or holds an array or null; the rewritten file is then an
   * array of the records it held followed by the new payload.
   */
  lemma RewriteAppends(f: DataFile, payload: Json)
    ensures PushBack(Loaded(f), payload).Success?
        <==> !f.Parsed? || f.doc.Array? || f.doc.Null?
    ensures PushBack(Loaded(f), payload).Success? ==>
        PushBack(Loaded(f), payload).value == Array(StoredRecords(f) + [payload])
  {
  }

  /** The six lines written to the text log for the record accepted as number `id`. */
  function RecordLines(lib: Library, id: nat, payload: Json): seq<string>
    requires HasLatLon(payload)
  {
    [ "Record #" + NatToString(id) + ":",
      "  Latitude: " + lib.dump(payload.fields["latitude"]),
      "  Longitude: " + lib.dump(payload.fields["longitude"]),
      "  Altitude: " + lib.showDouble(ValueOr(payload, "altitude", Float(0.0))),
      "  Time: " + lib.showInt(ValueOr(payload, "time", Integer(0))),
      "---" ]
  }

  /** The block appended to `location_log.txt`. */
  function LogBlock(lib: Library, id: nat, payload: Json): string
    requires HasLatLon(payload)
  {
    Unlines(RecordLines(lib, id, payload))
  }

  /** The formatting functions never produce a line break (the library escapes one inside a string). */
  ghost predicate SingleLine(lib: Library) {
    forall j :: '\n' !in lib.dump(j) && '\n' !in lib.showDouble(j) && '\n' !in lib.showInt(j)
  }

  /** The record number a log header line carries. */
  function RecordIdOf(line: string): Option<nat> {
    if |line| >= 8 && line[..8] == "Record #" then
      var rest := line[8..];
      var k := LeadingDigits(rest);
      if k + 1 == |rest| && rest[k] == ':' then ParseNat(rest[..k]) else None
    else None
  }

  /** The header line of a block reads back as the record number it was written with. */
  lemma HeaderReadsBack(id: nat)
    ensures RecordIdOf("Record #" + NatToString(id) + ":") == Some(id)
  {
    var d := NatToString(id);
    var rest := ("Record #" + d + ":")[8..];
    assert rest == d + ":";
    DigitsThenText(d, ":");
    assert rest[..|d|] == d;
    ParseNatToString(id);
  }

  /**
   * Read back line by line, a log block is exactly six lines: a header that
   * names the record number, the four field lines, and the separator.
   */
  lemma LogBlockLines(lib: Library, id: nat, payload: Json)
    requires HasLatLon(payload) && SingleLine(lib)
    ensures SplitLines(LogBlock(lib, id, payload)) == RecordLines(lib, id, payload)
    ensures |RecordLines(lib, id, payload)| == 6
    ensures RecordIdOf(RecordLines(lib, id, payload)[0]) == Some(id)
    ensures RecordLines(lib, id, payload)[5] == "---"
  {
    var ls := RecordLines(lib, id, payload);
    assert forall c :: c in NatToString(id) ==> IsDigit(c);
    assert '\n' !in ls[0];
    assert '\n' !in ls[1] && '\n' !in ls[2];
    assert '\n' !in ls[3] && '\n' !in ls[4] && '\n' !in ls[5];
    SplitUnlines(ls);
    HeaderReadsBack(id);
  }

  /**
   * The rest of the loop pass once a payload with both coordinates has been
   * parsed: the store is updated first (position, counter, history), and only
   * then is the data file rewritten. When the file holds JSON that is neither
   * an array nor null, `push_back` throws, the reply is the exception's text,
   * and the store update stands.
   */
  method AcceptPayload(lib: Library, shared: SharedData, files: LogFiles, payload: Json) returns (reply: string)
    requires shared.Valid() && HasLatLon(payload)
    modifies shared, files
    ensures shared.Valid()
    ensures shared.currentLocation == LocationOf(payload)
    ensures shared.counter == old(shared.counter) + 1
    ensures shared.recentRecords == Appended(old(shared.recentRecords), payload)
    ensures shared.acceptedAt == Appended(old(shared.acceptedAt), shared.counter)
    ensures match PushBack(Loaded(old(files.locationData)), payload)
      case Failure(what) =>
        && reply == ErrorReply(what)
        && files.locationData == old(files.locationData)
        && files.locationLog == old(files.locationLog)
      case Success(doc) =>
        && files.locationData == Parsed(doc)
        && files.locationLog == old(files.locationLog) + LogBlock(lib, shared.counter, payload)
        && reply == OkReply(shared.counter)
  {
    shared.Record(LocationOf(payload), payload);

    // Read, extend and rewrite the JSON data file.
    var allData: Json;
    match files.locationData {
      case Parsed(doc) => allData := doc;
      case Unparsable => allData := Array([]);
      case Missing => allData := Array([]);
    }
    var pushed := PushBack(allData, payload);
    if pushed.Failure? {
      return ErrorReply(pushed.error);
    }
    files.locationData := Parsed(pushed.value);

    // Append the record's block to the text log and answer.
    files.locationLog := files.locationLog + LogBlock(lib, shared.counter, payload);
    reply := OkReply(shared.counter);
  }

  /**
   * One iteration of the `run_server` loop for the request text `raw`.
   * Invalid JSON, any other exception from the parser and a payload without
   * both coordinates are answered without touching the store or the files;
   * any other payload is accepted.
   */
  method HandleRequest(lib: Library, shared: SharedData, files: LogFiles, raw: string) returns (reply: string)
    requires shared.Valid()
    modifies shared, files
    ensures shared.Valid()
    ensures lib.parse(raw).SyntaxError? ==> reply == InvalidJson && unchanged(shared, files)
    ensures lib.parse(raw).OtherError? ==> reply == ErrorReply(lib.parse(raw).what) && unchanged(shared, files)
    ensures lib.parse(raw).Document? && !HasLatLon(lib.parse(raw).doc) ==>
      reply == NoLatLon && unchanged(shared, files)
    ensures lib.parse(raw).Document? && HasLatLon(lib.parse(raw).doc) ==>
      var payload := lib.parse(raw).doc;
      && shared.currentLocation == LocationOf(payload)
      && shared.counter == old(shared.counter) + 1
      && shared.recentRecords == Appended(old(shared.recentRecords), payload)
      && shared.acceptedAt == Appended(old(shared.acceptedAt), shared.counter)
      && match PushBack(Loaded(old(files.locationData)), payload)
         case Failure(what) =>
           && reply == ErrorReply(what)
           && files.locationData == old(files.locationData)
           && files.locationLog == old(files.locationLog)
         case Success(doc) =>
           && files.locationData == Parsed(doc)
           && files.locationLog == old(files.locationLog) + LogBlock(lib, shared.counter, payload)
           && reply == OkReply(shared.counter)
  {
    match lib.parse(raw)
    case SyntaxError =>
      reply := InvalidJson;
    case OtherError(what) =>
      reply := ErrorReply(what);
    case Document(payload) =>
      if !HasLatLon(payload) {
        reply := NoLatLon;
      } else {
        reply := AcceptPayload(lib, shared, files, payload);
      }
  }
}
