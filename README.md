# Collaborative whiteboard: stroke log and delta sync

A Dafny model of the synchronisation core of a shared whiteboard. Each
drawn segment is a *stroke* (end points, colour, width, eraser flag and a
millisecond timestamp). Strokes go into a server-side append log that keeps
only the newest 10000 entries. Every browser polls that log and appends the
strokes newer than its cursor to a local replica.

Modules: one per core source file, two shared ones (`StrokeLog`, `Http`),
and `Sync`, which relates the client to the server:

- `StrokeLog` (`stroke_log.dfy`): the `Stroke` record. Also the timestamp
  defaulting rule (`Stamp`, `StampAll`) and FIFO retention (`Retain`), which
  both server logs apply, with their lemmas.
- `Http` (`http.dfy`): a parsed request body (`Malformed` or `Parsed`) and
  the JSON responses, as values.
- `Storage` (`storage.dfy`): `app/api/canvas/storage.ts`. The class
  `StrokeStore` holds the module-level `canvasStrokes` log and has the
  methods `AddStrokes`, `GetStrokes` and `ClearStrokes`.
- `CanvasRoute` (`canvas_route.dfy`): `app/api/canvas/route.ts`. The class
  `CanvasEndpoint` holds this file's own `canvasStrokes` log and has `Get`,
  `Post` and `Delete`.
- `BatchRoute` (`batch_route.dfy`): `app/api/canvas/batch/route.ts`. It
  validates the body, stamps timestamps in place in an array loop and
  delegates to `StrokeStore.AddStrokes`.
- `Whiteboard` (`whiteboard.dfy`): the client in `components/Whiteboard.tsx`.
  It has pure transitions over `Replica(strokes, lastSyncTime)`: `SyncTick`,
  `Draw` and `Clear`, plus the delta filter `NewerThan`.
- `Sync` (`sync.dfy`): properties that span client and server.

Modelling conventions:

- JavaScript truthiness of `timestamp` is modelled on integers. Every falsy
  wire value (absent, `null`, `false`, `""`, `0`) is represented by `0`, so
  `HasTimestamp(s)` is `s.timestamp != 0`. A timestamp of 0 therefore counts
  as missing and is replaced by `now`.
- `Date.now()` is a `now: int` parameter of each handler call and each
  client step.
- `request.json()` becomes a `Body<T>`. `Malformed` stands for every body
  that throws inside the handler's `try` and so yields 500: text that is not
  JSON, or JSON such as `null` whose fields cannot be read or written.
- The batch body's `strokes` field is `Absent` (missing or falsy, which
  `|| []` turns into `[]`), `NotAnArray`, or `StrokeArray(items)`.
- The code has **two independent server logs**. `route.ts` declares its own
  `canvasStrokes` (line 16), and `GET`, `POST` and `DELETE` of
  `/api/canvas` use that one. The batch endpoint writes the log of
  `storage.ts`, which nothing in the client reads. The model keeps two
  separate objects, and `Sync.BatchInvisibleToGet` states the consequence.

Behaviour of the code that the lemmas make explicit:

- The client has no debounce or batch buffer: `sendDrawData` POSTs every
  pointer-move segment on its own to `/api/canvas`
  (components/Whiteboard.tsx:149-156). No buffer is modelled.
- After a non-empty delta the cursor becomes the client's own clock
  (components/Whiteboard.tsx:115), not the newest applied timestamp. So a
  stroke that reaches the server late with an older timestamp is never
  applied (`Whiteboard.LateArrivalMissed`). A stroke stamped ahead of the
  client's clock is applied again on every tick until that clock passes it
  (`Whiteboard.AheadStrokeReapplied`).
- Clients do not detect a cleared log: an empty server log leaves a replica
  as it was (`Sync.DeleteNotSeenByPeers`).
- Local strokes are not de-duplicated against the server's copies
  (`Whiteboard.OwnStrokeEchoed`).

## Model

| member | source | states |
|---|---|---|
| StrokeLog.Stamp | app/api/canvas/route.ts:28-30 | a stroke with a truthy timestamp is unchanged; a falsy one gets `now`; no other field changes |
| StrokeLog.StampAll | app/api/canvas/batch/route.ts:25-29 | the batch keeps its length and order, and each stroke is stamped by the single-stroke rule |
| StrokeLog.StampAllIdempotent | app/api/canvas/batch/route.ts:25-29 | with a non-zero clock every stamped stroke has a timestamp, so stamping again changes nothing |
| StrokeLog.Retain | app/api/canvas/storage.ts:21-23 | the kept log has length min(length, cap), is the log itself when it fits, and is always a suffix of it, so only the oldest entries are dropped |
| StrokeLog.AppendKeepsBatchAtEnd | app/api/canvas/storage.ts:18-23 | after append and trim, a batch no longer than the cap sits at the end of the log in input order |
| StrokeLog.RetainAfterRetain | app/api/canvas/storage.ts:18-23 | trimming, appending and trimming again equals one trim of the whole concatenation |
| StrokeLog.ReplayIsOneAppend | app/api/canvas/storage.ts:17-26 | from a log within the cap, any run of appends ends as one append of all batches in order, so the length is the total capped at the cap and eviction is FIFO |
| Storage.StrokeStore.constructor | app/api/canvas/storage.ts:14-15 | a store starts empty and within its capacity |
| Storage.StrokeStore.AddStrokes | app/api/canvas/storage.ts:17-26 | the new log is the old log plus the strokes in order, trimmed to the newest `capacity`; the returned count is the new length; the cap holds afterwards |
| Storage.StrokeStore.GetStrokes | app/api/canvas/storage.ts:28-30 | returns the current log and changes nothing |
| Storage.StrokeStore.ClearStrokes | app/api/canvas/storage.ts:32-34 | the log is empty afterwards whatever it held |
| Storage.DeployedStore | app/api/canvas/storage.ts:14-15 | the module's store starts empty, within its cap, with the retention limit 10000 |
| Storage.AddNothing | app/api/canvas/storage.ts:17-26 | appending an empty sequence leaves the log unchanged and returns its length |
| Storage.ClearTwice | app/api/canvas/storage.ts:32-34 | clearing twice leaves the same empty log as clearing once |
| Storage.EvictionScenario | app/api/canvas/storage.ts:17-26 | with capacity 3, appending s1..s4 one at a time leaves exactly [s2, s3, s4] |
| CanvasRoute.CanvasEndpoint.constructor | app/api/canvas/route.ts:16-17 | the endpoint's own log starts empty |
| CanvasRoute.CanvasEndpoint.Get | app/api/canvas/route.ts:19-21 | returns this endpoint's log, never more than 10000 entries, with status 200, and changes nothing |
| CanvasRoute.CanvasEndpoint.Post | app/api/canvas/route.ts:23-44 | a parsed stroke is stamped, appended as the one new entry and the log trimmed to 10000, and the response carries the new length, at most 10000; a malformed body yields 500 and leaves the log unchanged |
| CanvasRoute.CanvasEndpoint.Delete | app/api/canvas/route.ts:46-49 | the log is empty afterwards whatever it held (so a second call changes nothing), and the response is 200 with "Canvas cleared" |
| CanvasRoute.PostStoresStampedStroke | app/api/canvas/route.ts:28-39 | after a POST the newest entry is the request's stroke, with its truthy timestamp or `now`. The entries before it are the newest entries of the old log in order, and the total is at most 10000 |
| BatchRoute.StampInPlace | app/api/canvas/batch/route.ts:25-29 | the in-place loop leaves the array equal to `StampAll` of its old contents |
| BatchRoute.Post | app/api/canvas/batch/route.ts:15-42 | 500 on a malformed body and 400 on a missing, non-array or empty `strokes`, both leaving the store unchanged. Otherwise the store changes exactly as `AddStrokes` of the stamped strokes in input order, and `received` and `totalStrokes` are the input length and the new length |
| Whiteboard.NewerThan | components/Whiteboard.tsx:102-103 | the delta is never longer than the server log |
| Whiteboard.NewerThanMembers | components/Whiteboard.tsx:103 | a stroke is in the delta if and only if it is in the server log with a timestamp strictly greater than the cursor; the delta is empty if and only if no stroke is newer |
| Whiteboard.NewerThanSplit | components/Whiteboard.tsx:103 | the delta of a concatenation is the concatenation of the deltas, so server order is kept |
| Whiteboard.NewerThanCount | components/Whiteboard.tsx:103 | each newer stroke occurs in the delta exactly as often as in the log, and each older one never |
| Whiteboard.NewerThanAll | components/Whiteboard.tsx:103 | when every stroke is newer than the cursor the delta is the whole log |
| Whiteboard.SyncTick | components/Whiteboard.tsx:96-119 | the old replica is kept as a prefix and what follows is exactly the delta. A failed poll, an empty log or an empty delta change nothing; a non-empty delta moves the cursor to the client's `now` |
| Whiteboard.Draw | components/Whiteboard.tsx:126-146 | the sent stroke carries the drawing fields and `timestamp = now`; the replica gains exactly that stroke at the end; the cursor is unchanged |
| Whiteboard.Clear | components/Whiteboard.tsx:226-228 | the replica is empty and the cursor is `now`, whatever the state before |
| Whiteboard.TickTwiceIsTickOnce | components/Whiteboard.tsx:100-116 | polling the same log again adds nothing when its timestamps are not ahead of the first tick's clock |
| Whiteboard.LateArrivalMissed | components/Whiteboard.tsx:102-115 | after a tick moves the cursor to `now`, a stroke that reaches the server later with a timestamp at or below `now` is not applied by the next tick |
| Whiteboard.AheadStrokeReapplied | components/Whiteboard.tsx:102-115 | a stroke stamped ahead of the client's clock is appended on one tick and again on the next, because the cursor becomes the client's clock |
| Whiteboard.FreshBrowserLoadsAll | components/Whiteboard.tsx:100-115 | a browser with nothing stored (cursor read as 0) applies the whole server log, in order, on its first poll when all timestamps are positive |
| Whiteboard.OwnStrokeEchoed | components/Whiteboard.tsx:100-146 | after a draw with a timestamp past the cursor, the next tick over any server log that holds the stroke appends it again after the drawn copy, so the replica holds it at least twice |
| Whiteboard.ClearSkipsEarlierStrokes | components/Whiteboard.tsx:226-228 | after a clear at `now`, a poll of strokes stamped at or before `now` changes nothing |
| Sync.BatchInvisibleToGet | app/api/canvas/batch/route.ts:2-31 | a batch request, accepted or rejected, does not change what `GET /api/canvas` returns |
| Sync.DrawnStrokeKeptByServer | components/Whiteboard.tsx:127-156 | a stroke drawn at a non-zero clock reading is stored by `POST /api/canvas` unchanged as the newest entry, keeping the client's timestamp |
| Sync.DrawnStrokeReachesPeer | components/Whiteboard.tsx:100-115 | a peer whose cursor is behind a posted stroke applies it on its next successful poll, as the last new entry of its replica, and moves its cursor |
| Sync.DeleteNotSeenByPeers | app/api/canvas/route.ts:46-48 | after `DELETE` the log is empty, and another client's next poll leaves its replica unchanged |

## Left out

- Canvas rendering (`drawLine`, resize and fill) and pointer coordinate
  arithmetic: browser APIs and floating point. Coordinates and widths are
  opaque `real` fields.
- `fetch`, `NextRequest`/`NextResponse` and JSON encoding: a request is a
  `Body` value and a response a `Response` value.
- The 300 ms `setInterval` timer and concurrent request handling. Each
  handler call and each sync tick is one atomic step.
- localStorage serialisation, a replica that fails to parse, and quota
  errors. The stored state is the pair (replica, cursor). In the source a
  failed `setItem` also skips the cursor update; that path is not modelled.
- React state, hooks and event wiring, `components/Toolbar.tsx` and
  `app/layout.tsx`, which are UI only; `console.error` logging.
- The client's fire-and-forget `POST` and `DELETE` requests, and the network
  failures they ignore. `Sync` composes the client steps with the handlers
  directly.
- Timestamps that are truthy but not numbers (strings, objects), and
  `lastSyncTime` values that `parseInt` reads as `NaN`. The model's
  timestamps and cursor are integers.
- Batch elements that are not objects. For those, assigning `timestamp`
  throws, and the handler answers 500 after stamping the elements before
  them.
- BatchRoute.Post: reads the clock once per request; the source calls
  `Date.now()` again for every stroke it stamps, so stamps within one batch
  may differ by the time the loop takes.
- Storage.StrokeStore.GetStrokes: returns the log as a value, whereas the
  source returns the array itself, which a later `push` in `addStrokes`
  extends in place.
- Storage.StrokeStore.AddStrokes: does not model the engine's limit on the
  number of spread arguments in `push(...strokes)`; a very large batch would
  throw there.
