/** The request and response shapes of the canvas endpoints, with JSON
    parsing and `NextResponse` reduced to values. */
module Http {
  import opened StrokeLog

  /** What `await request.json()` produced. `Malformed` is a body that
      throws inside the handler's `try`: text that is not JSON, or a JSON
      value (such as `null`) whose fields cannot be read or written. */
  datatype Body<T> = Malformed | Parsed(value: T)

  /** The JSON responses the handlers return. */
  datatype Response =
    | StrokeList(strokes: seq<Stroke>)                 // { strokes }
    | Saved(totalStrokes: nat)                         // { success: true, totalStrokes }
    | BatchSaved(received: nat, totalStrokes: nat)     // { success: true, received, totalStrokes }
    | Cleared(message: string)                         // { success: true, message }
    | Failure(status: nat, error: string)              // { error } with a status code
  {
    /** The HTTP status: 200 unless a status was given. */
    function Status(): nat
    {
      if Failure? then status else 200
    }
  }
}
