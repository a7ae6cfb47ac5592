# Location server ingestion step, modelled in Dafny

The server takes one request at a time over a request/reply socket. The
request text is parsed as JSON. A payload without top-level `latitude` and
`longitude` is turned away. An accepted payload:

- overwrites the current position;
- raises the record counter by one;
- joins a history deque of at most 100 entries, and the oldest entry is dropped first;
- is appended to the JSON array kept in `location_data.json`, which is read and rewritten whole each time;
- is logged as a six-line block at the end of `location_log.txt`.

The reply is `OK:<counter>`. A syntax error is answered with `ERROR:Invalid JSON`,
a missing coordinate with `ERROR:No lat/lon`, and any other exception (the
parser's `out_of_range.406` for a number too large for a `double` included) with
`ERROR:` followed by its message. The monitor window shares the store. It can
reset the counter and history, and it can truncate both files. Its history tab
lists at most 20 records, newest first. An earlier Python server (`show`
returns the log file; any other message is numbered, appended and acknowledged)
is modelled beside it.

Modules (one file each):

- `Common`: `Option`, `Result`, `Min`.
- `Text`: decimal printing of counters and its inverse; newline-terminated
  lines and splitting them back; the line-ending translation of Python's text
  mode.
- `JsonValue`: JSON values with the library's `contains`, `value` and
  `push_back` (null becomes `[x]`; a value that is neither null nor an array
  throws `type_error.308`).
- `Location`: `include/location.hpp`. It holds the `Location` record, the
  `SharedData` class, `max_history` and the bounded append.
- `Server`: the body of the `run_server` loop (`HandleRequest`). The two files
  are the `LogFiles` class. The JSON library's parser and printers come in as
  a `Library` value.
- `Gui`: `format_timestamp`, the "Clear Log Files" and "Reset Counter" buttons,
  and the rows of the history tab.
- `ServerOld`: `src/server_old.py`.

`examples/server.cpp` is a single-file copy of `src/server.cpp` and
`src/gui.cpp`, with the same `run_server` loop (lines 321-406), the same
buttons (lines 164-176) and the same history rows (lines 188-231). Every
member below that cites `src/server.cpp` or `src/gui.cpp` models that copy
too.

Facts about the code that shape the model:

- The C++ server has no `ping` or `show` branch. `ping` is not JSON, so it is
  answered `ERROR:Invalid JSON`, even though `src/client.cpp:31` expects `pong`.
- The C++ server handles only location payloads.
- The timestamp is read from the key `"time"` only.

## Model

| member | source | states |
|---|---|---|
| `Location.SharedData.constructor` | include/location.hpp:9-22 | The counter starts at 0, the history starts empty, and all four position fields start at zero. The `Valid` invariant holds from the start. |
| `Location.SharedData.Record` | src/server.cpp:38-50 | The locked update (also examples/server.cpp:347-360). The position becomes the given one and the counter rises by exactly 1. The history is `Appended(old history, payload)`. The store stays `Valid`: at most 100 entries, accepted at consecutive counter values that end at the counter. |
| `Location.Appended` | src/server.cpp:46-49 | Pushing at the back and popping once at the front when over 100 gives a non-empty history whose newest entry is the payload. From a history within the cap, the size is `min(old + 1, 100)` and the result is the last 100 entries of old history plus payload. |
| `Location.IngestKeepsNewest` | src/server.cpp:46-49 | For any run of accepted payloads, the history is exactly the newest `min(n, 100)` payloads of everything seen, oldest first. For example, 101 payloads leave the last 100. |
| `Server.HandleRequest` | src/server.cpp:22-94 | One loop pass (also examples/server.cpp:331-405). A syntax error from the parser gets exactly `ERROR:Invalid JSON`, and the store and both files are unchanged. Any other exception the parser throws gets `ERROR:` plus its text, again with nothing changed. Without top-level latitude/longitude, including non-objects, the reply is exactly `ERROR:No lat/lon`, again with nothing changed. Any other document is accepted, with every effect `AcceptPayload` states. |
| `Server.AcceptPayload` | src/server.cpp:38-80 | The position takes lat/lon, altitude defaults to 0.0 and the timestamp comes from `"time"`, defaulting to 0. The counter rises by 1 and the history is `Appended`. If `push_back` onto the loaded document fails, the reply is `ERROR:` plus its message, neither file changes, and the store update is not rolled back. If it succeeds, the data file holds the extended document, the text log is its old contents plus one block numbered with the new counter, and the reply is `OK:<counter>`. |
| `Server.RewriteAppends` | src/server.cpp:52-67 | The data file is rewritten exactly when it is missing, does not parse, or holds an array or null. A missing or unparsable file is treated as an empty array. The rewritten file is then the array of records it held, followed by the payload as its new last element. A file holding any other JSON value makes `push_back` throw. |
| `JsonValue.PushBack` | src/server.cpp:64 | `push_back` succeeds exactly on null or an array, and the result is an array whose last element is the payload. Null becomes exactly `[payload]`. On an array the earlier elements are kept in order. On any other value it fails with exactly the library's `type_error.308` text naming that value's kind. |
| `JsonValue.PushAllOntoArray` | src/server.cpp:52-67 | Successive rewrites of an array file leave the old array followed by every accepted payload, in order. |
| `Server.LogBlockLines` | src/server.cpp:69-75 | When the printers emit no line break, the appended block reads back as exactly six lines. The first reads back as the record number, the four field lines follow, and the last is `---`. |
| `Server.HeaderReadsBack` | src/server.cpp:70 | The header line `Record #<counter>:` reads back as the counter it was written with. |
| `Server.OkReplyRoundTrip` | src/server.cpp:77 | `OK:` plus `to_string(counter)` reads back as that counter. No error reply reads back as an acceptance. |
| `Text.NatToString` | src/server.cpp:77 | The decimal text of a counter is a non-empty run of digits that starts with `0` only for the number 0. |
| `Text.ParseNatToString` | src/server.cpp:77 | Reading a printed counter back gives the counter. |
| `Text.NatToStringInjective` | src/server.cpp:70 | Distinct counters print as distinct record numbers. |
| `Text.SplitUnlines` | src/server.cpp:69-75 | Lines without line breaks, written each with a trailing newline, split back into the same lines. |
| `Gui.FormatTimestamp` | src/gui.cpp:13-19 | Given that the `strftime` date-and-time text is never `N/A`, the cell shows `N/A` exactly when the timestamp is zero. Any other timestamp shows the local-time text for that timestamp. |
| `Gui.ClearLogFiles` | src/gui.cpp:127-130 | Both files are truncated to empty (also examples/server.cpp:164-168). The data file is then empty text, which does not parse. |
| `Gui.ClearedFileRestarts` | src/gui.cpp:127-130 | After a clear, the data file is rebuilt from an empty array and holds exactly the payloads accepted since, in order. |
| `Gui.ResetCounter` | src/gui.cpp:134-138 | The counter becomes 0 and the history empty, and the current position is unchanged (also examples/server.cpp:172-176). The store stays `Valid`. |
| `Gui.ShowHistory` | src/gui.cpp:151-183 | An empty history shows `No records yet...`, and only then. Otherwise the table has `min(size, 20)` rows, newest record first. Row `i` shows the record `i` places from the back, labelled with the counter value at which that record was accepted. The source prints this label as `counter - idx`. |
| `ServerOld.PacketServer.constructor` | src/server_old.py:3-4 | The counter starts at 0, and the log file is whatever an earlier run left. |
| `ServerOld.PacketServer.Handle` | src/server_old.py:13-43 | `show` changes neither the counter nor the file. It replies with the whole file as text mode reads it back (each `\r\n` and lone `\r` turned into `\n`) when the file is non-empty, `Файл пуст` when it is empty, and `Файл не существует` when it is missing. Any other message raises the counter by exactly 1 and appends exactly `Пакет #<counter>: <message>\n`, keeping the old contents as a prefix. It is answered `hello from server (пакет #<counter>)`. The file always equals the starting file plus one line per packet. |
| `ServerOld.LoggedAppend` | src/server_old.py:34-38 | Each packet appends exactly its own numbered line to the log built so far. |
| `ServerOld.PacketLineRoundTrip` | src/server_old.py:38 | A logged line reads back as the packet number and the message it was written from. |
| `ServerOld.PacketLogReadsBack` | src/server_old.py:34-38 | When no message contains a line break, the file written by a run splits back into one line per packet. The lines are numbered 1, 2, … in arrival order, each with its message. |
| `ServerOld.ShowAfterPackets` | src/server_old.py:17-31 | On a server started without a file, `show` reports the missing file before the first packet. Afterwards it returns the whole log as text mode reads it back, which is the log exactly as written when no message holds a carriage return. |
| `ServerOld.ShowTranslatesCarriageReturn` | src/server_old.py:20-21 | On a server started without a file, take a first packet whose message holds one lone carriage return followed by a character other than a newline. `show` then returns that message with a newline in place of the carriage return, which differs from the file as written. The general translation for any run of packets is the `UniversalNewlines` clause of `ShowAfterPackets`. |
| `ServerOld.ShowReply` | src/server_old.py:17-31 | The `show` reply is never empty and never holds a carriage return. |
| `Text.UniversalNewlinesKeeps` | src/server_old.py:20-21 | Text-mode reading returns a text without carriage returns unchanged. |

## Left out

- Transport: the ZeroMQ context, socket, `recv`/`send` and `memcpy` into messages are not modelled. A request is the `raw` argument and the reply is the method's result.
- Concurrency: the server and GUI threads and the mutex are not modelled. Each operation is atomic, and the operations run in sequence. The unlocked reads of `counter` when writing the log header and the reply (`src/server.cpp:70`, `src/server.cpp:77`) can race with a reset, and this race is not captured.
- JSON library: parsing, `operator<<` on a JSON value (the compact `dump()`, `Library.dump`) and the printing of the converted `double` and `int` are the `Library` functions, which the model leaves undefined. The `dump(4)` text of the data file is not modelled: the data file is kept as the document written, and a rewritten data file is assumed to parse back to that document.
- Server.AcceptPayload: coordinates are opaque JSON values, and the numeric conversions are not modelled, so the model accepts every payload that has both coordinates. In the source, the conversions to `float` and `long long` inside the lock (`src/server.cpp:40-43`) throw `type_error` for a latitude, longitude, altitude or `"time"` that is neither a number nor a boolean (null, a string, an array or an object); a boolean converts to 0 or 1 and passes. The fields assigned before the failing one stay assigned, the counter and history are not updated, and the reply is `ERROR:` plus the message. A `"time"` that is neither a number nor a boolean throws after latitude, longitude and altitude are all set. The conversions to `double` and `int` for the log (`src/server.cpp:73-74`) can also throw, the conversion to `double` for a boolean altitude included. This happens after the data file has been rewritten and after the header and coordinate lines have been written. For example, `"altitude": true` converts to `float` but not to `double`. The source then keeps the rewritten data file, leaves a block that ends with `  Altitude: `, and replies `ERROR:` plus the `type_error.302` message. The model writes the full block and replies `OK:<counter>`.
- Server.HandleRequest: inherits the conversion gap of `Server.AcceptPayload` for accepted payloads.
- Location.SharedData.Record: the counter is an unbounded natural number. The source's `int` would overflow after 2^31 - 1 acceptances.
- Gui.FormatTimestamp: the `localtime`/`strftime` rendering of a non-zero timestamp is the `localTime` parameter.
- Server.LogBlockLines: the altitude and time lines print the converted `double` and `int`. Here they are the `showDouble` and `showInt` functions of the JSON value.
- File input and output errors are not modelled. A data file that exists but cannot be opened counts as missing, write failures are ignored, and a crash during the rewrite is out of scope.
- GUI rendering (windows, colours, plots, the statistics tab, the frame loop) and the column text of each history row are not modelled. A row is the record it shows.
- `src/server_old.py`: console printing, undecodable UTF-8 in the file and shutdown on `KeyboardInterrupt` are not modelled.
- `src/client.cpp`, `examples/client.py` and `src/main.cpp` are client scripts and process start-up, and are not part of this model.
