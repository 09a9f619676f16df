/** How the client and the two server logs fit together: the client polls
    and posts to `/api/canvas` (the log of `route.ts`), while the batch
    endpoint writes the separate store of `storage.ts`. */
module Sync {
  import opened StrokeLog
  import opened Http
  import Storage
  import CanvasRoute
  import BatchRoute
  import opened Whiteboard

  /** A batch request, accepted or not, never changes what `GET
      /api/canvas` returns: the two endpoints keep separate logs. */
  method BatchInvisibleToGet(canvas: CanvasRoute.CanvasEndpoint, store: Storage.StrokeStore,
                             body: Body<BatchRoute.StrokesField>, now: int)
    returns (before: Response, after: Response)
    requires canvas.Valid() && store.Valid()
    modifies store
    ensures before == after == StrokeList(canvas.canvasStrokes)
  {
    before := canvas.Get();
    var _ := BatchRoute.Post(store, body, now);
    after := canvas.Get();
  }

  /** A stroke drawn with a non-zero clock reading is stored by `POST
      /api/canvas` exactly as the client sent it, as the newest entry: the
      client's timestamp is truthy, so the server's clock is not used. */
  lemma DrawnStrokeKeptByServer(r: Replica, x0: real, y0: real, x1: real, y1: real,
                                color: string, lineWidth: real, isEraser: bool,
                                now: int, serverNow: int, log: seq<Stroke>)
    requires now != 0
    ensures var sent := Draw(r, x0, y0, x1, y1, color, lineWidth, isEraser, now).sent;
      var next := Retain(log + [Stamp(sent, serverNow)], CanvasRoute.MAX_STROKES);
      |next| > 0 && next[|next| - 1] == sent && next[|next| - 1].timestamp == now
  {
    var sent := Draw(r, x0, y0, x1, y1, color, lineWidth, isEraser, now).sent;
    CanvasRoute.PostStoresStampedStroke(log, sent, serverNow);
  }

  /** Once a drawn stroke is on the server, a peer whose cursor is behind
      the stroke's timestamp applies it on its next successful poll, as the
      last stroke of the delta and thus of its replica. */
  lemma DrawnStrokeReachesPeer(peer: Replica, log: seq<Stroke>, sent: Stroke, later: int)
    requires HasTimestamp(sent) && sent.timestamp > peer.lastSyncTime
    ensures var onServer := Retain(log + [Stamp(sent, later)], CanvasRoute.MAX_STROKES);
      var next := SyncTick(peer, Fetched(onServer), later);
      |next.strokes| > |peer.strokes| && next.strokes[|next.strokes| - 1] == sent &&
      next.lastSyncTime == later
  {
    var all := log + [sent];
    var onServer := Retain(all, CanvasRoute.MAX_STROKES);
    var k := |onServer|;
    assert onServer == all[|all| - k..];
    assert onServer == onServer[..k - 1] + [sent];
    NewerThanSplit(onServer[..k - 1], [sent], peer.lastSyncTime);
    NewerThanAll([sent], peer.lastSyncTime);
    var delta := NewerThan(onServer, peer.lastSyncTime);
    assert delta == NewerThan(onServer[..k - 1], peer.lastSyncTime) + [sent];
  }

  /** A `DELETE /api/canvas` is not seen by other clients: their next poll
      returns an empty log, and an empty log leaves a replica as it was. */
  method DeleteNotSeenByPeers(canvas: CanvasRoute.CanvasEndpoint, peer: Replica, now: int)
    returns (after: Replica)
    modifies canvas
    ensures canvas.canvasStrokes == [] && after == peer
  {
    var _ := canvas.Delete();
    var resp := canvas.Get();
    after := SyncTick(peer, Fetched(resp.strokes), now);
  }
}
