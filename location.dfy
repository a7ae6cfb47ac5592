/**
 * The state the server thread and the monitor share (`include/location.hpp`):
 * the current position, the count of accepted records and the deque of the
 * most recent raw payloads, bounded by `max_history`.
 */
module Location {
  import opened Common
  import opened JsonValue

  /** `max_history`: the most payloads `recent_records` holds. */
  const MaxHistory: nat := 100

  /**
   * `Location`. The source keeps latitude, longitude and altitude as `float`
   * and the timestamp as `long long`; here each holds the JSON value it is
   * converted from, so the coordinates stay opaque.
   */
  datatype Location = Location(latitude: Json, longitude: Json, altitude: Json, timestamp: Json)

  /** A default-constructed `Location`: every field zero. */
  const Origin := Location(Float(0.0), Float(0.0), Float(0.0), Integer(0))

  /** The last `n` elements of `s`, or all of `s` when it is shorter. */
  function LastN<T>(s: seq<T>, n: nat): seq<T> {
    s[|s| - Min(|s|, n)..]
  }

  /**
   * `push_back(x)` followed by one `pop_front()` when the deque has grown
   * past `max_history`: the oldest entry is the one evicted.
   */
  function Appended<T>(h: seq<T>, x: T): (r: seq<T>)
    ensures |r| > 0 && r[|r| - 1] == x
    ensures |h| <= MaxHistory ==> |r| == Min(|h| + 1, MaxHistory) && r == LastN(h + [x], MaxHistory)
  {
    var pushed := h + [x];
    if |pushed| > MaxHistory then pushed[1..] else pushed
  }

  /** The history after `xs` is appended one payload at a time. */
  function Ingest<T>(h: seq<T>, xs: seq<T>): seq<T> {
    if xs == [] then h else Appended(Ingest(h, xs[..|xs| - 1]), xs[|xs| - 1])
  }

  /** Keeping the last `n` of the last `n` plus one more is keeping the last `n` of all. */
  lemma LastNAppend<T>(s: seq<T>, x: T, n: nat)
    ensures LastN(LastN(s, n) + [x], n) == LastN(s + [x], n)
  {
  }

  /**
   * However many payloads arrive, the history holds exactly the newest
   * `MaxHistory` of everything seen, oldest first: the bounded FIFO keeps a
   * sliding window.
   */
  lemma {:induction false} IngestKeepsNewest<T>(h: seq<T>, xs: seq<T>)
    requires |h| <= MaxHistory
    ensures Ingest(h, xs) == LastN(h + xs, MaxHistory)
    ensures |Ingest(h, xs)| == Min(|h| + |xs|, MaxHistory)
  {
    if xs == [] {
      assert h + xs == h;
    } else {
      var init, x := xs[..|xs| - 1], xs[|xs| - 1];
      IngestKeepsNewest(h, init);
      LastNAppend(h + init, x, MaxHistory);
      assert h + init + [x] == h + xs;
    }
  }

  /** `SharedData`: the store shared by the server loop and the monitor, guarded in the source by one mutex. */
  class SharedData {
    var currentLocation: Location
    var counter: nat
    var recentRecords: seq<Json>
    /** For each entry of `recentRecords`, the value `counter` took when that entry was accepted. */
    ghost var acceptedAt: seq<nat>

    /**
     * The deque is bounded, and its entries were accepted at consecutive
     * counter values ending at the current counter, newest last.
     */
    ghost predicate Valid()
      reads this
    {
      && |recentRecords| <= MaxHistory
      && |acceptedAt| == |recentRecords| <= counter
      && forall k :: 0 <= k < |acceptedAt| ==> acceptedAt[k] == counter - (|acceptedAt| - 1 - k)
    }

    /** Counter zero, empty history, every coordinate zero. */
    constructor ()
      ensures Valid()
      ensures currentLocation == Origin && counter == 0 && recentRecords == [] && acceptedAt == []
    {
      currentLocation := Origin;
      counter := 0;
      recentRecords := [];
      acceptedAt := [];
    }

    /**
     * The locked update of an accepted record: the position is overwritten,
     * the counter goes up by one and the payload joins the history, the
     * oldest entry making way once more than `MaxHistory` are held.
     */
    method Record(location: Location, payload: Json)
      requires Valid()
      modifies this
      ensures Valid()
      ensures currentLocation == location && counter == old(counter) + 1
      ensures recentRecords == Appended(old(recentRecords), payload)
      ensures acceptedAt == Appended(old(acceptedAt), counter)
    {
      currentLocation := location;
      counter := counter + 1;
      recentRecords := recentRecords + [payload];
      acceptedAt := acceptedAt + [counter];
      if |recentRecords| > MaxHistory {
        recentRecords := recentRecords[1..];
        acceptedAt := acceptedAt[1..];
      }
    }
  }
}
