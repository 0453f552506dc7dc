/** internal/api/api.go nodeConfig: the long poll. It reads a snapshot every
    tick and answers as soon as one differs from what the node has. */
module LongPoll {
  import opened Basics
  import opened Proto

  /** What one turn of the loop meets: whether recording the node's visit
      failed, the snapshot read (None if that failed), and whether the window
      had closed by then. */
  datatype Tick = Tick(touchFailed: bool, read: Option<NodeConfig>, over: bool)

  /** Silent: the node itself hung up. */
  datatype Reply = Answer(cfg: NodeConfig) | NotModified | Failed | Silent

  /** While the window is open an error ends the poll. */
  predicate Breaks(t: Tick) {
    (t.touchFailed || t.read.None?) && !t.over
  }

  predicate News(t: Tick, since: Option<NodeConfig>) {
    t.read.Some? && t.read != since
  }

  /** The ticks of the window: all of them, up to the first that finds it
      closed. */
  ghost predicate Window(ticks: seq<Tick>, n: nat) {
    && n <= |ticks|
    && (forall i :: 0 <= i < n - 1 ==> !ticks[i].over)
    && (n < |ticks| ==> n > 0 && ticks[n - 1].over)
  }

  /** `since` is the version the node sent, None for the empty one; after the
      last tick the window closes, with the node gone or not. */
  method Poll(since: Option<NodeConfig>, ticks: seq<Tick>, gone: bool) returns (reply: Reply)
    ensures reply.Answer? ==>
              exists i :: && 0 <= i < |ticks| && ticks[i].read == Some(reply.cfg) && News(ticks[i], since)
                          && forall j :: 0 <= j < i ==> !News(ticks[j], since) && !Breaks(ticks[j]) && !ticks[j].over
    ensures reply.Failed? ==>
              exists i :: && 0 <= i < |ticks| && Breaks(ticks[i])
                          && forall j :: 0 <= j < i ==> !News(ticks[j], since) && !Breaks(ticks[j]) && !ticks[j].over
    ensures forall n :: Window(ticks, n) ==>
              (reply == (if gone then Silent else NotModified) <==>
               forall i :: 0 <= i < n ==> !News(ticks[i], since) && !Breaks(ticks[i]))
  {
    for k := 0 to |ticks|
      invariant forall j :: 0 <= j < k ==> !News(ticks[j], since) && !Breaks(ticks[j]) && !ticks[j].over
    {
      var t := ticks[k];
      if t.touchFailed && !t.over {
        return Failed;
      }
      if t.read.None? && !t.over {
        return Failed;
      }
      if t.read.Some? && t.read != since {
        return Answer(t.read.value);
      }
      if t.over {
        return if gone then Silent else NotModified;
      }
    }
    return if gone then Silent else NotModified;
  }
}
