/** The batch endpoint `app/api/canvas/batch/route.ts`: validate the
    `strokes` field, default falsy timestamps in place, and append through
    the store of `storage.ts`. */
module BatchRoute {
  import opened StrokeLog
  import opened Http
  import opened Storage

  /** The `strokes` field of the parsed body, after `body.strokes || []`. */
  datatype StrokesField =
    | Absent                          // missing or falsy: becomes `[]`
    | NotAnArray                      // truthy, but `Array.isArray` fails
    | StrokeArray(items: seq<Stroke>)

  /** The 400 rule: only a non-empty array gets through. */
  predicate Accepted(field: StrokesField)
  {
    field.StrokeArray? && |field.items| > 0
  }

  /** The `forEach` loop: every stroke with a falsy timestamp gets `now`,
      in place; the others are left untouched. */
  method StampInPlace(strokes: array<Stroke>, now: int)
    modifies strokes
    ensures strokes[..] == StampAll(old(strokes[..]), now)
  {
    var i := 0;
    while i < strokes.Length
      invariant 0 <= i <= strokes.Length
      invariant forall k :: 0 <= k < i ==> strokes[k] == Stamp(old(strokes[k]), now)
      invariant forall k :: i <= k < strokes.Length ==> strokes[k] == old(strokes[k])
    {
      if !HasTimestamp(strokes[i]) {
        strokes[i] := strokes[i].(timestamp := now);
      }
      i := i + 1;
    }
  }

  /** `POST /api/canvas/batch`. A body that throws yields 500 and a missing,
      falsy, non-array or empty `strokes` yields 400, in both cases before
      the store is touched. Otherwise the store changes exactly as
      `AddStrokes` of the stamped strokes in input order, and the response
      reports how many were received and the store's new length. */
  method Post(store: StrokeStore, body: Body<StrokesField>, now: int) returns (resp: Response)
    requires store.Valid()
    modifies store
    ensures body.Malformed? ==>
      store.canvasStrokes == old(store.canvasStrokes) && resp == Failure(500, "Failed to save strokes")
    ensures body.Parsed? && !Accepted(body.value) ==>
      store.canvasStrokes == old(store.canvasStrokes) && resp == Failure(400, "Invalid strokes data")
    ensures body.Parsed? && Accepted(body.value) ==>
      store.canvasStrokes ==
        Retain(old(store.canvasStrokes) + StampAll(body.value.items, now), store.capacity) &&
      resp == BatchSaved(|body.value.items|, |store.canvasStrokes|)
    ensures store.Valid()
    ensures resp.BatchSaved? ==> resp.totalStrokes <= store.capacity
  {
    if body.Malformed? {
      return Failure(500, "Failed to save strokes");
    }
    var field := body.value;
    if !Accepted(field) {
      return Failure(400, "Invalid strokes data");
    }
    var items := field.items;
    var strokes := new Stroke[|items|](i requires 0 <= i < |items| => items[i]);
    assert strokes[..] == items;
    StampInPlace(strokes, now);
    var totalStrokes := store.AddStrokes(strokes[..]);
    resp := BatchSaved(strokes.Length, totalStrokes);
  }
}
