/** The single-stroke endpoint `app/api/canvas/route.ts`. It keeps its OWN
    module-level log, separate from the store of `storage.ts`: the client's
    polling and drawing use this log, the batch endpoint does not. */
module CanvasRoute {
  import opened StrokeLog
  import opened Http

  /** Retention limit of this endpoint's log (declared again in this file). */
  const MAX_STROKES: Capacity := 10000

  /** The module-level `canvasStrokes` of this endpoint with its handlers. */
  class CanvasEndpoint {
    var canvasStrokes: seq<Stroke>

    ghost predicate Valid()
      reads this
    {
      |canvasStrokes| <= MAX_STROKES
    }

    /** The log starts empty when the module is loaded. */
    constructor ()
      ensures Valid() && canvasStrokes == []
    {
      canvasStrokes := [];
    }

    /** `GET`: the whole log, oldest first, never more than `MAX_STROKES`
        entries; nothing changes. */
    method Get() returns (resp: Response)
      requires Valid()
      ensures resp == StrokeList(canvasStrokes)
      ensures |resp.strokes| <= MAX_STROKES
      ensures resp.Status() == 200
    {
      resp := StrokeList(canvasStrokes);
    }

    /** `POST`: default a falsy timestamp to `now`, append the one stroke,
        keep the newest `MAX_STROKES` entries and report the new length. A
        body that throws leaves the log as it was and yields 500. */
    method Post(body: Body<Stroke>, now: int) returns (resp: Response)
      requires Valid()
      modifies this
      ensures body.Malformed? ==>
        canvasStrokes == old(canvasStrokes) && resp == Failure(500, "Failed to save stroke")
      ensures body.Parsed? ==>
        canvasStrokes == Retain(old(canvasStrokes) + [Stamp(body.value, now)], MAX_STROKES) &&
        resp == Saved(|canvasStrokes|)
      ensures Valid()
      ensures resp.Saved? ==> resp.totalStrokes <= MAX_STROKES
    {
      match body
      case Malformed =>
        resp := Failure(500, "Failed to save stroke");
      case Parsed(drawData) =>
        var stroke := drawData;
        if !HasTimestamp(stroke) {
          stroke := stroke.(timestamp := now);
        }
        canvasStrokes := canvasStrokes + [stroke];
        if |canvasStrokes| > MAX_STROKES {
          canvasStrokes := canvasStrokes[|canvasStrokes| - MAX_STROKES..];
        }
        resp := Saved(|canvasStrokes|);
    }

    /** `DELETE`: the log becomes empty whatever it held, so a second call
        changes nothing. */
    method Delete() returns (resp: Response)
      modifies this
      ensures Valid() && canvasStrokes == []
      ensures resp == Cleared("Canvas cleared") && resp.Status() == 200
    {
      canvasStrokes := [];
      resp := Cleared("Canvas cleared");
    }
  }

  /** What a successful `POST` promises about the stored stroke, whatever
      the earlier log: it is the last entry, it carries the request's
      timestamp when that was truthy and `now` otherwise, its other fields
      are the request's, the entries before it are the newest entries of
      the earlier log in their order, and the total is at most `MAX_STROKES`. */
  lemma PostStoresStampedStroke(log: seq<Stroke>, drawData: Stroke, now: int)
    ensures var next := Retain(log + [Stamp(drawData, now)], MAX_STROKES);
      |next| <= MAX_STROKES && |next| > 0 &&
      next[|next| - 1].timestamp == (if HasTimestamp(drawData) then drawData.timestamp else now) &&
      next[|next| - 1].(timestamp := drawData.timestamp) == drawData &&
      |next| - 1 <= |log| && next[..|next| - 1] == log[|log| - (|next| - 1)..]
  {
    var all := log + [Stamp(drawData, now)];
    var next := Retain(all, MAX_STROKES);
    assert next == all[|all| - |next|..];
    assert next[|next| - 1] == all[|all| - 1];
    assert next[..|next| - 1] == all[|all| - |next|..|all| - 1];
    assert all[..|log|] == log;
  }
}
