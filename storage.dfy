/** The shared stroke store of `app/api/canvas/storage.ts`: a process-wide
    append log with FIFO retention, written by the batch endpoint. */
module Storage {
  import opened StrokeLog

  /** Retention limit of the store. */
  const MAX_STROKES: Capacity := 10000

  /** The module-level `canvasStrokes` array together with the functions
      that read and replace it. */
  class StrokeStore {
    var canvasStrokes: seq<Stroke>
    const capacity: Capacity

    /** The log never holds more than `capacity` strokes. */
    ghost predicate Valid()
      reads this
    {
      |canvasStrokes| <= capacity
    }

    /** A store starts empty. The deployed store uses `MAX_STROKES`. */
    constructor (capacity: Capacity)
      ensures Valid()
      ensures canvasStrokes == [] && this.capacity == capacity
    {
      canvasStrokes := [];
      this.capacity := capacity;
    }

    /** `addStrokes`: push all strokes in order, then keep the newest
        `capacity` of them; returns the new length. */
    method AddStrokes(strokes: seq<Stroke>) returns (total: nat)
      modifies this
      ensures Valid()
      ensures canvasStrokes == Retain(old(canvasStrokes) + strokes, capacity)
      ensures total == |canvasStrokes|
    {
      canvasStrokes := canvasStrokes + strokes;
      if |canvasStrokes| > capacity {
        canvasStrokes := canvasStrokes[|canvasStrokes| - capacity..];
      }
      total := |canvasStrokes|;
    }

    /** `getStrokes`: the current log, oldest first. */
    method GetStrokes() returns (log: seq<Stroke>)
      ensures log == canvasStrokes
    {
      log := canvasStrokes;
    }

    /** `clearStrokes`: the log becomes empty whatever it held, so a second
        clear changes nothing. */
    method ClearStrokes()
      modifies this
      ensures Valid()
      ensures canvasStrokes == []
    {
      canvasStrokes := [];
    }
  }

  /** The store as the module creates it: empty, with the retention limit
      `MAX_STROKES`. */
  method DeployedStore() returns (store: StrokeStore)
    ensures fresh(store) && store.Valid()
    ensures store.canvasStrokes == [] && store.capacity == MAX_STROKES
  {
    store := new StrokeStore(MAX_STROKES);
  }

  /** Appending nothing changes nothing and reports the current length. */
  method AddNothing(store: StrokeStore) returns (total: nat)
    requires store.Valid()
    modifies store
    ensures store.canvasStrokes == old(store.canvasStrokes)
    ensures total == |store.canvasStrokes|
  {
    total := store.AddStrokes([]);
  }

  /** Clearing twice leaves the same empty log as clearing once. */
  method ClearTwice(store: StrokeStore)
    modifies store
    ensures store.canvasStrokes == []
  {
    store.ClearStrokes();
    store.ClearStrokes();
  }

  /** With room for three strokes, appending four one at a time evicts the
      first and keeps the other three in order. */
  method EvictionScenario(s1: Stroke, s2: Stroke, s3: Stroke, s4: Stroke) returns (log: seq<Stroke>)
    ensures log == [s2, s3, s4]
  {
    var store := new StrokeStore(3);
    var n := store.AddStrokes([s1]);
    n := store.AddStrokes([s2]);
    n := store.AddStrokes([s3]);
    n := store.AddStrokes([s4]);
    log := store.GetStrokes();
  }
}
