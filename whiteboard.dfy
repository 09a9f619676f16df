/** The client of `components/Whiteboard.tsx` as state transitions over
    its browser-local replica: the `canvasStrokes` list and the
    `lastSyncTime` cursor it keeps in localStorage. `Date.now()` is the
    `now` parameter of each step. */
module Whiteboard {
  import opened StrokeLog

  /** The replica and the cursor; a missing item reads as `[]` and `0`. */
  datatype Replica = Replica(strokes: seq<Stroke>, lastSyncTime: int)

  /** A browser that has stored nothing yet. */
  const Fresh: Replica := Replica([], 0)

  /** The outcome of one poll of `GET /api/canvas`: the `strokes` it
      returned, or a failure (network error, unreadable body, or no
      `strokes` field), which the tick catches and ignores. */
  datatype Fetch = FetchFailed | Fetched(strokes: seq<Stroke>)

  /** The delta filter: the server strokes strictly newer than the cursor,
      kept in server order. */
  function NewerThan(log: seq<Stroke>, cursor: int): (delta: seq<Stroke>)
    ensures |delta| <= |log|
  {
    if log == [] then []
    else (if log[0].timestamp > cursor then [log[0]] else []) + NewerThan(log[1..], cursor)
  }

  /** A stroke is in the delta exactly when it is in the log and newer than
      the cursor; so the delta is empty exactly when nothing is newer. */
  lemma {:induction false} NewerThanMembers(log: seq<Stroke>, cursor: int)
    ensures forall s :: s in NewerThan(log, cursor) <==> s in log && s.timestamp > cursor
    ensures NewerThan(log, cursor) == [] <==> forall s :: s in log ==> s.timestamp <= cursor
  {
    if log != [] {
      NewerThanMembers(log[1..], cursor);
      assert log == [log[0]] + log[1..];
    }
  }

  /** The filter distributes over concatenation, so the delta keeps the
      relative order the strokes have on the server. */
  lemma {:induction false} NewerThanSplit(a: seq<Stroke>, b: seq<Stroke>, cursor: int)
    ensures NewerThan(a + b, cursor) == NewerThan(a, cursor) + NewerThan(b, cursor)
  {
    if a == [] {
      assert a + b == b;
    } else {
      var head := if a[0].timestamp > cursor then [a[0]] else [];
      assert (a + b)[0] == a[0];
      assert (a + b)[1..] == a[1..] + b;
      assert NewerThan(a + b, cursor) == head + NewerThan(a[1..] + b, cursor);
      NewerThanSplit(a[1..], b, cursor);
      assert NewerThan(a, cursor) == head + NewerThan(a[1..], cursor);
      assert head + (NewerThan(a[1..], cursor) + NewerThan(b, cursor))
          == (head + NewerThan(a[1..], cursor)) + NewerThan(b, cursor);
    }
  }

  /** The delta holds each newer stroke exactly as often as the log does,
      and no older one. */
  lemma {:induction false} NewerThanCount(log: seq<Stroke>, cursor: int, s: Stroke)
    ensures multiset(NewerThan(log, cursor))[s] ==
      if s.timestamp > cursor then multiset(log)[s] else 0
  {
    if log != [] {
      NewerThanCount(log[1..], cursor, s);
      assert log == [log[0]] + log[1..];
    }
  }

  /** When every stroke is newer than the cursor the delta is the whole log. */
  lemma {:induction false} NewerThanAll(log: seq<Stroke>, cursor: int)
    requires forall i :: 0 <= i < |log| ==> log[i].timestamp > cursor
    ensures NewerThan(log, cursor) == log
  {
    if log != [] {
      NewerThanAll(log[1..], cursor);
    }
  }

  /** One tick of the 300 ms sync loop. A failed poll, an empty server log
      or an empty delta leave replica and cursor alone; otherwise the delta
      is appended after the replica and the cursor jumps to the client's
      own clock, not to the newest applied timestamp. */
  function SyncTick(r: Replica, fetch: Fetch, now: int): (next: Replica)
    ensures |r.strokes| <= |next.strokes| && next.strokes[..|r.strokes|] == r.strokes
    ensures fetch.FetchFailed? ==> next == r
    ensures fetch.Fetched? ==>
      next.strokes[|r.strokes|..] == NewerThan(fetch.strokes, r.lastSyncTime)
    ensures |next.strokes| == |r.strokes| ==> next == r
    ensures |next.strokes| > |r.strokes| ==> next.lastSyncTime == now
  {
    if fetch.FetchFailed? || |fetch.strokes| == 0 then r
    else
      var delta := NewerThan(fetch.strokes, r.lastSyncTime);
      if |delta| > 0 then Replica(r.strokes + delta, now) else r
  }

  /** What `sendDrawData` does locally before it POSTs: the new stroke,
      stamped with the client's clock, and the replica with that stroke
      appended. */
  datatype DrawStep = DrawStep(replica: Replica, sent: Stroke)

  /** A local draw: one stroke with `timestamp = now` goes to the end of the
      replica and to the server; the cursor is not touched. */
  function Draw(r: Replica, x0: real, y0: real, x1: real, y1: real,
                color: string, lineWidth: real, isEraser: bool, now: int): (step: DrawStep)
    ensures step.sent == Stroke(x0, y0, x1, y1, color, lineWidth, isEraser, now)
    ensures |step.replica.strokes| == |r.strokes| + 1
    ensures step.replica.strokes[..|r.strokes|] == r.strokes
    ensures step.replica.strokes[|r.strokes|..] == [step.sent]
    ensures step.replica.lastSyncTime == r.lastSyncTime
  {
    var drawData := Stroke(x0, y0, x1, y1, color, lineWidth, isEraser, now);
    DrawStep(Replica(r.strokes + [drawData], r.lastSyncTime), drawData)
  }

  /** `clearCanvas`: the replica is removed and the cursor set to `now`,
      whatever the replica held before. */
  function Clear(r: Replica, now: int): (next: Replica)
    ensures next.strokes == [] && next.lastSyncTime == now
  {
    Replica([], now)
  }

  /** Polling the same log again right away adds nothing, provided its
      timestamps are not ahead of the clock of the first tick. */
  lemma TickTwiceIsTickOnce(r: Replica, log: seq<Stroke>, now: int, later: int)
    requires forall s :: s in log ==> s.timestamp <= now
    ensures SyncTick(SyncTick(r, Fetched(log), now), Fetched(log), later) == SyncTick(r, Fetched(log), now)
  {
    var once := SyncTick(r, Fetched(log), now);
    if |once.strokes| > |r.strokes| {
      NewerThanMembers(log, once.lastSyncTime);
    }
  }

  /** A stroke that reaches the server after a tick, but with a timestamp
      not later than that tick's clock (stamped earlier, or by a slower
      clock), is never applied: the next tick adds exactly the strokes
      that are newer than the moved cursor, and it is not one of them. */
  lemma LateArrivalMissed(r: Replica, log: seq<Stroke>, late: Stroke, now: int, later: int)
    requires NewerThan(log, r.lastSyncTime) != []
    requires late.timestamp <= now
    ensures var ticked := SyncTick(r, Fetched(log), now);
      ticked.lastSyncTime == now &&
      late !in SyncTick(ticked, Fetched(log + [late]), later).strokes[|ticked.strokes|..]
  {
    NewerThanMembers(log + [late], now);
  }

  /** A client's own stroke comes back from the server: drawn with a
      timestamp past the cursor, it is appended to the replica once by the
      draw, and the next tick over any server log that holds it appends it
      again, so the replica then holds it at least twice. */
  lemma OwnStrokeEchoed(r: Replica, x0: real, y0: real, x1: real, y1: real,
                        color: string, lineWidth: real, isEraser: bool,
                        now: int, log: seq<Stroke>, later: int)
    requires now > r.lastSyncTime
    requires Stroke(x0, y0, x1, y1, color, lineWidth, isEraser, now) in log
    ensures var step := Draw(r, x0, y0, x1, y1, color, lineWidth, isEraser, now);
      var next := SyncTick(step.replica, Fetched(log), later);
      next.strokes[..|r.strokes| + 1] == r.strokes + [step.sent] &&
      step.sent in next.strokes[|r.strokes| + 1..] &&
      multiset(next.strokes)[step.sent] >= 2
  {
    var step := Draw(r, x0, y0, x1, y1, color, lineWidth, isEraser, now);
    NewerThanMembers(log, r.lastSyncTime);
    var next := SyncTick(step.replica, Fetched(log), later);
    var k := |r.strokes|;
    assert next.strokes[..k + 1] == r.strokes + [step.sent];
    var rest := next.strokes[k + 1..];
    assert step.sent in rest;
    assert next.strokes == r.strokes + [step.sent] + rest;
    assert multiset(rest)[step.sent] >= 1;
  }

  /** A stroke stamped ahead of the client's clock (a faster clock on the
      drawing client) is applied again on every tick until the client's
      clock passes it, because the cursor moves to the client's clock and
      not to the newest applied timestamp. */
  lemma AheadStrokeReapplied(r: Replica, s: Stroke, now: int, later: int)
    requires s.timestamp > r.lastSyncTime && s.timestamp > now
    ensures var once := SyncTick(r, Fetched([s]), now);
      once == Replica(r.strokes + [s], now) &&
      SyncTick(once, Fetched([s]), later).strokes == r.strokes + [s, s]
  {
    NewerThanAll([s], r.lastSyncTime);
    NewerThanAll([s], now);
  }

  /** A browser that has stored nothing yet applies, on its first successful
      poll, every stroke of the server log in server order, provided their
      timestamps are positive (as real clock readings are). */
  lemma FreshBrowserLoadsAll(log: seq<Stroke>, now: int)
    requires forall i :: 0 <= i < |log| ==> log[i].timestamp > 0
    ensures SyncTick(Fresh, Fetched(log), now).strokes == log
  {
    NewerThanAll(log, Fresh.lastSyncTime);
  }

  /** After a clear at `now`, strokes stamped no later than `now` (the log
      as it was before the clear reached the server) are not re-applied. */
  lemma ClearSkipsEarlierStrokes(r: Replica, log: seq<Stroke>, now: int, later: int)
    requires forall s :: s in log ==> s.timestamp <= now
    ensures SyncTick(Clear(r, now), Fetched(log), later) == Clear(r, now)
  {
    NewerThanMembers(log, now);
  }
}
