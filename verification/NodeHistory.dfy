/** A node's view against the history of the database: internal/node/node.go
    syncLoop and internal/api/api.go nodeConfig. */
module NodeHistory {
  import opened Basics
  import Node
  import opened Proto
  import opened Relay
  import opened Routing
  import opened Store
  import WgNet

  /** The configuration is the snapshot the control plane held after the first
      `n` steps of the run. */
  ghost predicate TakenAt(cfg: NodeConfig, es: seq<Event>, base: string, n: nat) {
    n < |es| && var s := Run(START, es[..n], base); cfg == Config(s.db, s.now, base, cfg.dns)
  }

  /** The peers, the routes and the version are all of one snapshot, an answer
      on its way is one too, and it was asked for later. */
  ghost predicate OneSnapshot(v: NodeView, es: seq<Event>, base: string) {
    && (v.version.None? ==> v.record == map[] && v.routes == map[])
    && (v.version.Some? ==>
          && TakenAt(v.version.value, es, base, v.appliedAt)
          && Node.Parses(v.version.value)
          && v.record == Node.RecordOf(v.version.value) && v.routes == Node.RouteTable(v.version.value))
    && (v.answer.Some? ==> TakenAt(v.answer.value, es, base, v.askedAt))
    && v.appliedAt <= v.askedAt && (v.askedAt < |es| || v.askedAt == 0)
    && (v.version.Some? && v.answer.Some? ==> v.appliedAt < v.askedAt)
  }

  lemma TakenAtLasts(cfg: NodeConfig, es: seq<Event>, e: Event, base: string, n: nat)
    requires TakenAt(cfg, es, base, n)
    ensures TakenAt(cfg, es + [e], base, n)
  {
    assert (es + [e])[..n] == es[..n];
  }

  lemma OneSnapshotLasts(v: NodeView, es: seq<Event>, e: Event, base: string)
    requires OneSnapshot(v, es, base)
    ensures OneSnapshot(v, es + [e], base)
  {
    if v.version.Some? {
      TakenAtLasts(v.version.value, es, e, base, v.appliedAt);
    }
    if v.answer.Some? {
      TakenAtLasts(v.answer.value, es, e, base, v.askedAt);
    }
  }

  lemma PollKeepsOneSnapshot(v: NodeView, es: seq<Event>, e: Event, base: string)
    requires OneSnapshot(v, es, base) && e.Poll?
    ensures OneSnapshot(NodeStep(Run(START, es, base), v, e, base), es + [e], base)
  {
    OneSnapshotLasts(v, es, e, base);
    StepsCount(START, es, base);
    var s := Run(START, es, base);
    var w := NodeStep(s, v, e, base);
    if w != v {
      assert (es + [e])[..|es|] == es;
      assert TakenAt(w.answer.value, es + [e], base, |es|);
    }
  }

  lemma NodeStepKeepsOneSnapshot(v: NodeView, es: seq<Event>, e: Event, base: string)
    requires OneSnapshot(v, es, base)
    ensures OneSnapshot(NodeStep(Run(START, es, base), v, e, base), es + [e], base)
    ensures v.appliedAt <= NodeStep(Run(START, es, base), v, e, base).appliedAt
  {
    if e.Poll? {
      PollKeepsOneSnapshot(v, es, e, base);
    } else {
      OneSnapshotLasts(v, es, e, base);
    }
  }

  lemma {:induction false} ViewsAreOneSnapshot(es: seq<Event>, base: string, node: nat)
    ensures OneSnapshot(ViewOf(Run(START, es, base), node), es, base)
    decreases |es|
  {
    if es != [] {
      var init, e := es[..|es| - 1], es[|es| - 1];
      var s := Run(START, init, base);
      assert es == init + [e];
      ViewsAreOneSnapshot(init, base, node);
      OnlyNodeEventsTouchViews(s, e, base);
      if IsNodeEvent(e) && e.node == node {
        NodeStepKeepsOneSnapshot(ViewOf(s, node), init, e, base);
      } else {
        OneSnapshotLasts(ViewOf(s, node), init, e, base);
      }
    }
  }

  /** At every moment a node's recorded peers and routes are both the image of
      one single snapshot the control plane really held, the one its version
      names; before the first there are none. */
  lemma NodeViewIsOneSnapshot(es: seq<Event>, base: string, node: nat)
    ensures var v := ViewOf(Run(START, es, base), node);
            && (v.version.None? ==> v.record == map[] && v.routes == map[])
            && (v.version.Some? ==>
                  && v.appliedAt < |es|
                  && var past := Run(START, es[..v.appliedAt], base);
                     var cfg := Config(past.db, past.now, base, v.version.value.dns);
                     v.version == Some(cfg) && Node.Parses(cfg)
                     && v.record == Node.RecordOf(cfg) && v.routes == Node.RouteTable(cfg))
  {
    ViewsAreOneSnapshot(es, base, node);
  }

  lemma {:induction false} ViewsNeverGoBack(es: seq<Event>, fs: seq<Event>, base: string, node: nat)
    ensures ViewOf(Run(START, es, base), node).appliedAt <= ViewOf(Run(START, es + fs, base), node).appliedAt
    decreases |fs|
  {
    if fs == [] {
      assert es + fs == es;
    } else {
      var n := |fs| - 1;
      var before, e := es + fs[..n], fs[n];
      assert es + fs == before + [e];
      assert (before + [e])[..|before|] == before;
      var s := Run(START, before, base);
      ViewsNeverGoBack(es, fs[..n], base, node);
      ViewsAreOneSnapshot(before, base, node);
      OnlyNodeEventsTouchViews(s, e, base);
      if IsNodeEvent(e) && e.node == node {
        NodeStepKeepsOneSnapshot(ViewOf(s, node), before, e, base);
      }
    }
  }

  /** A rejected configuration changes neither peers nor routes nor version, and
      an accepted one always belongs to a later moment of the database than the
      one it replaces. */
  lemma ApplyMovesForward(es: seq<Event>, base: string, node: nat, accepted: bool)
    ensures var s := Run(START, es, base);
            var v, w := ViewOf(s, node), ViewOf(Next(s, Apply(node, accepted), base), node);
            && (!accepted || v.answer.None? ==>
                  w.record == v.record && w.routes == v.routes && w.version == v.version && w.appliedAt == v.appliedAt)
            && (accepted && v.answer.Some? ==>
                  w.version == v.answer && (v.version.Some? ==> v.appliedAt < w.appliedAt))
  {
    var s := Run(START, es, base);
    var v := ViewOf(s, node);
    ViewsAreOneSnapshot(es, base, node);
    OnlyNodeEventsTouchViews(s, Apply(node, accepted), base);
    if v.answer.Some? {
      var past := Run(START, es[..v.askedAt], base);
      SnapshotParses(past.db, past.now, base, v.answer.value.dns);
    }
  }

  // ---------------------------------------------------------- the long poll

  /** The node's request reads a snapshot at this step. */
  ghost predicate Ticks(fs: seq<Event>, i: int, node: nat) {
    0 <= i < |fs| && fs[i].Poll? && fs[i].node == node
  }

  /** The snapshot it reads there. */
  ghost function Seen(s: Sys, fs: seq<Event>, base: string, i: nat): NodeConfig
    requires i < |fs| && fs[i].Poll?
  {
    var m := Run(s, fs[..i], base);
    Config(m.db, m.now, base, fs[i].dns)
  }

  /** Nothing but its own request reaches the node. */
  ghost predicate Waits(fs: seq<Event>, node: nat) {
    forall i :: 0 <= i < |fs| && IsNodeEvent(fs[i]) && fs[i].node == node ==> fs[i].Poll?
  }

  /** The answer is the first snapshot read that differs from `since`. */
  ghost predicate FirstNews(s: Sys, fs: seq<Event>, base: string, node: nat, since: Option<NodeConfig>, i: int) {
    && Ticks(fs, i, node) && Some(Seen(s, fs, base, i)) != since
    && forall j :: 0 <= j < i && Ticks(fs, j, node) ==> Some(Seen(s, fs, base, j)) == since
  }

  lemma SeenBefore(s: Sys, fs: seq<Event>, e: Event, base: string, i: nat)
    requires i < |fs| && fs[i].Poll?
    ensures Seen(s, fs + [e], base, i) == Seen(s, fs, base, i)
  {
    assert (fs + [e])[..i] == fs[..i];
  }

  /** What has become of the node's request: it has the first news, or there
      were none. */
  ghost predicate Polled(s: Sys, fs: seq<Event>, base: string, node: nat, v: NodeView, w: NodeView) {
    && w.version == v.version && w.record == v.record && w.routes == v.routes
    && (w.answer.None? <==> forall i :: Ticks(fs, i, node) ==> Some(Seen(s, fs, base, i)) == v.version)
    && (w.answer.Some? ==> exists i :: AnsweredAt(s, fs, base, node, v, w, i))
  }

  ghost predicate AnsweredAt(s: Sys, fs: seq<Event>, base: string, node: nat, v: NodeView, w: NodeView, i: int) {
    && FirstNews(s, fs, base, node, v.version, i)
    && w.answer == Some(Seen(s, fs, base, i)) && w.askedAt == s.steps + i
    && w.answer.value.dns == fs[i].dns
  }

  /** A long poll, with anything else going on between its ticks: it is
      answered with the first snapshot that differs from what the node has, and
      is still unanswered exactly when none so far did. */
  lemma {:induction false} LongPollAnswersFirstNews(s: Sys, fs: seq<Event>, base: string, node: nat)
    requires ViewOf(s, node).answer.None? && Waits(fs, node)
    ensures Polled(s, fs, base, node, ViewOf(s, node), ViewOf(Run(s, fs, base), node))
    decreases |fs|
  {
    if fs != [] {
      var init, e := fs[..|fs| - 1], fs[|fs| - 1];
      assert fs == init + [e];
      assert forall i :: 0 <= i < |init| ==> init[i] == fs[i];
      LongPollAnswersFirstNews(s, init, base, node);
      LongPollStep(s, init, e, base, node);
    }
  }

  lemma LongPollStep(s: Sys, init: seq<Event>, e: Event, base: string, node: nat)
    requires Waits(init + [e], node)
    requires Polled(s, init, base, node, ViewOf(s, node), ViewOf(Run(s, init, base), node))
    ensures Polled(s, init + [e], base, node, ViewOf(s, node), ViewOf(Run(s, init + [e], base), node))
  {
    var fs, m := init + [e], Run(s, init, base);
    assert fs[..|init|] == init && fs[|init|] == e;
    OnlyNodeEventsTouchViews(m, e, base);
    StepsCount(s, init, base);
    assert Run(s, fs, base) == Next(m, e, base);
    if Ticks(fs, |init|, node) {
      TickKeepsPolled(s, init, e, base, node, ViewOf(s, node), ViewOf(m, node));
    } else {
      OtherKeepsPolled(s, init, e, base, node, ViewOf(s, node), ViewOf(m, node));
    }
  }

  lemma TicksBefore(s: Sys, init: seq<Event>, e: Event, base: string, node: nat)
    ensures forall i :: Ticks(init + [e], i, node) <==>
              Ticks(init, i, node) || (i == |init| && e.Poll? && e.node == node)
    ensures forall i :: Ticks(init, i, node) ==> Seen(s, init + [e], base, i) == Seen(s, init, base, i)
  {
    forall i | Ticks(init, i, node) ensures Seen(s, init + [e], base, i) == Seen(s, init, base, i) {
      SeenBefore(s, init, e, base, i);
    }
  }

  lemma OtherKeepsPolled(s: Sys, init: seq<Event>, e: Event, base: string, node: nat, v: NodeView, w: NodeView)
    requires Polled(s, init, base, node, v, w) && !(e.Poll? && e.node == node)
    ensures Polled(s, init + [e], base, node, v, w)
  {
    TicksBefore(s, init, e, base, node);
    if w.answer.Some? {
      var i :| AnsweredAt(s, init, base, node, v, w, i);
      assert AnsweredAt(s, init + [e], base, node, v, w, i);
    }
  }

  lemma TickKeepsPolled(s: Sys, init: seq<Event>, e: Event, base: string, node: nat, v: NodeView, w: NodeView)
    requires Polled(s, init, base, node, v, w) && e.Poll? && e.node == node
    requires Run(s, init, base).steps == s.steps + |init|
    ensures Polled(s, init + [e], base, node, v, NodeStep(Run(s, init, base), w, e, base))
  {
    var fs, n := init + [e], |init|;
    var r := NodeStep(Run(s, init, base), w, e, base);
    TicksBefore(s, init, e, base, node);
    assert Ticks(fs, n, node) && fs[..n] == init;
    if w.answer.Some? {
      var i :| AnsweredAt(s, init, base, node, v, w, i);
      assert AnsweredAt(s, fs, base, node, v, r, i);
    } else if r.answer.Some? {
      assert AnsweredAt(s, fs, base, node, v, r, n);
    }
  }

  // ------------------------------------------------------------- the device

  /** Every configuration fetched is a snapshot of the run. */
  ghost predicate FromHistory(responses: seq<Node.Response>, es: seq<Event>, base: string) {
    forall i :: 0 <= i < |responses| && responses[i].Fetched? ==>
      exists n: nat :: TakenAt(responses[i].cfg, es, base, n)
  }

  lemma HistoryIsFollowable(responses: seq<Node.Response>, es: seq<Event>, base: string)
    requires FromHistory(responses, es, base)
    ensures Node.Followable(responses)
    ensures forall i :: 0 <= i < |responses| && responses[i].Fetched? ==> Node.Readable(responses[i])
  {
    forall i | 0 <= i < |responses| && responses[i].Fetched?
      ensures Node.Readable(responses[i]) && WgNet.Distinct(Node.RecordOf(responses[i].cfg))
    {
      var n: nat :| TakenAt(responses[i].cfg, es, base, n);
      SnapshotPeersAreDistinct(es[..n], base, responses[i].cfg.dns);
    }
  }

  /** A node's loop over snapshots of a real run, lost answers and errors in
      between: as long as the device refuses none of them it agrees with the
      node's record at every head of the loop, whatever order the peers were
      written in. */
  method Follow(node: Node.Node, responses: seq<Node.Response>, ghost es: seq<Event>, ghost base: string)
    returns (err: bool, ghost log: Node.Log)
    requires FromHistory(responses, es, base) && node.InStep()
    requires WgNet.WellFormed(node.wg.dev.State()) && WgNet.Agrees(node.wg.peers, node.wg.dev.State())
    modifies node`routes, node`zone, node`version, node.wg`peers, node.wg.dev
    ensures node.InStep() && Node.IsLog(log, responses)
    ensures (forall i :: 0 <= i < log.read && responses[i].Fetched? ==> i in log.applied) ==>
              WgNet.Agrees(node.wg.peers, node.wg.dev.State())
  {
    HistoryIsFollowable(responses, es, base);
    err, log := node.SyncLoop(responses);
  }
}
