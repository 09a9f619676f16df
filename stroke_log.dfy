/** The stroke record shared by the server and the client, the timestamp
    defaulting rule both endpoints apply, and the FIFO retention rule both
    server logs apply. */
module StrokeLog {

  /** One line segment drawn or erased (the `DrawData` record). Coordinates
      and width are opaque payload: nothing here computes with them. JSON's
      falsy timestamps (absent, null, false, "" and 0) are all represented
      by 0, the only falsy integer. */
  datatype Stroke = Stroke(
    x0: real, y0: real, x1: real, y1: real,
    color: string,
    lineWidth: real,
    isEraser: bool,
    timestamp: int)

  /** JavaScript truthiness of the timestamp field. */
  predicate HasTimestamp(s: Stroke)
  {
    s.timestamp != 0
  }

  /** The `if (!stroke.timestamp) stroke.timestamp = Date.now()` rule. */
  function Stamp(s: Stroke, now: int): (r: Stroke)
    ensures HasTimestamp(s) ==> r == s
    ensures !HasTimestamp(s) ==> r.timestamp == now
    ensures r.(timestamp := s.timestamp) == s
  {
    if HasTimestamp(s) then s else s.(timestamp := now)
  }

  /** The defaulting rule applied to every stroke of a batch, in order. */
  function StampAll(strokes: seq<Stroke>, now: int): (r: seq<Stroke>)
    ensures |r| == |strokes|
    ensures forall i :: 0 <= i < |strokes| ==> r[i] == Stamp(strokes[i], now)
  {
    if strokes == [] then [] else [Stamp(strokes[0], now)] + StampAll(strokes[1..], now)
  }

  /** Stamping with a real clock reading leaves nothing to stamp a second
      time: an already stamped batch passes through unchanged. */
  lemma {:induction false} StampAllIdempotent(strokes: seq<Stroke>, now: int, later: int)
    requires now != 0
    ensures forall s :: s in StampAll(strokes, now) ==> HasTimestamp(s)
    ensures StampAll(StampAll(strokes, now), later) == StampAll(strokes, now)
  {
    if strokes != [] {
      StampAllIdempotent(strokes[1..], now, later);
      assert StampAll(strokes, now) == [Stamp(strokes[0], now)] + StampAll(strokes[1..], now);
    }
  }

  /** Retention capacity. It is positive: `slice(-0)` would keep the whole
      array, so a zero capacity would not bound anything. */
  type Capacity = n: nat | 0 < n witness 1

  /** `log.length > cap ? log.slice(-cap) : log`: keep the newest `cap`
      entries, dropping the oldest first. */
  function Retain(log: seq<Stroke>, cap: Capacity): (kept: seq<Stroke>)
    ensures |kept| == if |log| <= cap then |log| else cap
    ensures |log| <= cap ==> kept == log
    ensures kept == log[|log| - |kept|..]
  {
    if |log| > cap then log[|log| - cap..] else log
  }

  /** Appending `batch` after retention keeps the batch, in its input order,
      at the end of the log whenever the batch alone fits. */
  lemma AppendKeepsBatchAtEnd(log: seq<Stroke>, batch: seq<Stroke>, cap: Capacity)
    requires |batch| <= cap
    ensures var kept := Retain(log + batch, cap);
      |kept| >= |batch| && kept[|kept| - |batch|..] == batch
  {
    var all := log + batch;
    var kept := Retain(all, cap);
    assert kept == all[|all| - |kept|..];
    assert kept[|kept| - |batch|..] == all[|log|..];
    assert all[|log|..] == batch;
  }

  /** Retaining twice with the same capacity is retaining once: trimming
      between two appends drops nothing that the final trim would keep. */
  lemma RetainAfterRetain(x: seq<Stroke>, y: seq<Stroke>, cap: Capacity)
    ensures Retain(Retain(x, cap) + y, cap) == Retain(x + y, cap)
  {
    var rx := Retain(x, cap);
    if |x| > cap {
      var d := |x| - cap;
      assert rx == x[d..];
      assert rx + y == (x + y)[d..];
      var a := rx + y;
      var b := x + y;
      assert |a| >= cap;
      assert Retain(a, cap) == a[|a| - cap..];
      assert Retain(b, cap) == b[|b| - cap..];
      assert a[|a| - cap..] == b[d..][|a| - cap..];
    }
  }

  /** All batches of a sequence, concatenated in order. */
  function Concat(batches: seq<seq<Stroke>>): seq<Stroke>
  {
    if batches == [] then [] else batches[0] + Concat(batches[1..])
  }

  /** The log after appending each batch in turn, trimming after each one. */
  function Replay(log: seq<Stroke>, batches: seq<seq<Stroke>>, cap: Capacity): seq<Stroke>
    decreases |batches|
  {
    if batches == [] then log else Replay(Retain(log + batches[0], cap), batches[1..], cap)
  }

  /** A run of appends ends where one append of everything would: its length
      is the total number of strokes capped at the capacity, and only the
      oldest entries were evicted. */
  lemma {:induction false} ReplayIsOneAppend(log: seq<Stroke>, batches: seq<seq<Stroke>>, cap: Capacity)
    requires |log| <= cap
    ensures Replay(log, batches, cap) == Retain(log + Concat(batches), cap)
    decreases |batches|
  {
    if batches != [] {
      var next := Retain(log + batches[0], cap);
      ReplayIsOneAppend(next, batches[1..], cap);
      RetainAfterRetain(log + batches[0], Concat(batches[1..]), cap);
      assert (log + batches[0]) + Concat(batches[1..]) == log + Concat(batches);
    }
  }
}
