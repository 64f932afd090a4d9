/** A handler whose calls are not interleaved with anything computes the one-step handler: the bridge between the
    call-by-call protocol and the handlers of `Commands`. */
module CommandRefinement {
  import opened Prelude
  import opened Commands
  import opened CommandRuns

  /** Actor `a` makes one call per entry of `oks`, undisturbed. */
  function AdvanceAll(w: World, a: Actor, oks: seq<bool>): World
    decreases |oks|
  {
    if oks == [] then w else AdvanceAll(Continue(w, a, oks[0]), a, oks[1..])
  }

  lemma {:induction false} AdvanceAllConcat(w: World, a: Actor, xs: seq<bool>, ys: seq<bool>)
    ensures AdvanceAll(w, a, xs + ys) == AdvanceAll(AdvanceAll(w, a, xs), a, ys)
    decreases |xs|
  {
    if xs == [] {
      assert [] + ys == ys;
    } else {
      assert (xs + ys)[1..] == xs[1..] + ys;
      AdvanceAllConcat(Continue(w, a, xs[0]), a, xs[1..], ys);
    }
  }

  lemma Two(w: World, a: Actor, p: bool, q: bool)
    ensures AdvanceAll(w, a, [p, q]) == Continue(Continue(w, a, p), a, q)
  {
    assert [p, q][1..] == [q] && [q][1..] == [];
    assert AdvanceAll(Continue(Continue(w, a, p), a, q), a, []) == Continue(Continue(w, a, p), a, q);
  }

  lemma Three(w: World, a: Actor, p: bool, q: bool, r: bool)
    ensures AdvanceAll(w, a, [p, q, r]) == Continue(Continue(Continue(w, a, p), a, q), a, r)
  {
    assert [p, q, r][1..] == [q, r];
    Two(Continue(w, a, p), a, q, r);
  }

  lemma Four(w: World, a: Actor, p: bool, q: bool, r: bool, s: bool)
    ensures AdvanceAll(w, a, [p, q, r, s]) == Continue(Continue(Continue(Continue(w, a, p), a, q), a, r), a, s)
  {
    assert [p, q, r, s][1..] == [q, r, s];
    Three(Continue(w, a, p), a, q, r, s);
  }

  /** confirm_command (`Ack`) and expire_command (`Timeout`) run alone. */
  lemma SettleRefines(w: World, a: Actor, id: CommandId, event: Event)
    requires PcOf(w, a) == SettleLoad(id, event) && (event == Ack || event == Timeout)
    ensures
      var calls := if Settle(w.store, id, event).1 == None then [true] else [true, true];
      var v := AdvanceAll(w, a, calls);
      v.store == Settle(w.store, id, event).0 && PcOf(v, a) == Idle
  {
    var v := Continue(w, a, true);
    if Settle(w.store, id, event).1 == None {
      assert [true][1..] == [];
      assert AdvanceAll(v, a, []) == v;
    } else {
      Two(w, a, true, true);
    }
  }

  /** issue_command run alone, online and offline. */
  lemma IssueRefines(w: World, a: Actor, id: CommandId, req: Request)
    requires Enabled(w, BeginIssue(a, id, req))
    ensures
      var calls := if req.device !in w.store.online then [true, true, true, true]
                   else if req.ackTimeout > 0 then [true, true, true] else [true, true];
      var v := AdvanceAll(Apply(w, BeginIssue(a, id, req)), a, calls);
      v.store == Issue(w.store, id, req, true).0 && PcOf(v, a) == Idle
  {
    var u := Apply(w, BeginIssue(a, id, req));
    hide Continue, AdvanceAll;
    if req.device !in w.store.online {
      Four(u, a, true, true, true, true);
      OfflineIssueRefines(w, u, a, id, req);
    } else {
      Three(u, a, true, true, true);
      Two(u, a, true, true);
      OnlineIssueRefines(w, u, a, id, req);
    }
  }

  lemma OnlineIssueRefines(w: World, u: World, a: Actor, id: CommandId, req: Request)
    requires PcOf(u, a) == IssuePublish(id, BodyOf(req), req.ackTimeout > 0) && u.store == w.store
    requires WellFormed(req) && req.device in w.store.online
    ensures
      var saved := Continue(Continue(u, a, true), a, true);
      var v := if req.ackTimeout > 0 then Continue(saved, a, true) else saved;
      v.store == Issue(w.store, id, req, true).0 && PcOf(v, a) == Idle
  {
    hide ContinueOfflineIssue, ContinueFlush, ContinueSettle;
    var saved := Continue(Continue(u, a, true), a, true);
    assert PcOf(saved, a) == if req.ackTimeout > 0 then IssueArm(id) else Idle;
  }

  lemma PushAndTrim(u: World, a: Actor, id: CommandId, body: Body)
    requires PcOf(u, a) == IssuePush(id, body)
    ensures
      var v := Continue(Continue(u, a, true), a, true);
      && v.store == WithQueue(u.store, body.device, LastN(QueueOf(u.store, body.device) + [id], QUEUE_CAP))
      && PcOf(v, a) == IssueExpire(id, body)
  {
    hide ContinueOnlineIssue, ContinueFlush, ContinueSettle, NextStatus;
    var q := QueueOf(u.store, body.device) + [id];
    var u1 := Continue(u, a, true);
    assert QueueOf(u1.store, body.device) == q && PcOf(u1, a) == IssueTrim(id, body);
    var u2 := Continue(u1, a, true);
    assert u2.store.queues == u.store.queues[body.device := LastN(q, QUEUE_CAP)];
  }

  lemma ExpireAndSave(u: World, a: Actor, id: CommandId, body: Body)
    requires PcOf(u, a) == IssueExpire(id, body)
    ensures
      var v := Continue(Continue(u, a, true), a, true);
      v.store == u.store.(records := u.store.records[id := Record(body, Queued)]) && PcOf(v, a) == Idle
  {
    hide ContinueOnlineIssue, ContinueFlush, ContinueSettle, NextStatus;
    assert PcOf(Continue(u, a, true), a) == IssueSaveQueued(id, body);
  }

  lemma OfflineIssueRefines(w: World, u: World, a: Actor, id: CommandId, req: Request)
    requires PcOf(u, a) == IssuePush(id, BodyOf(req)) && u.store == w.store && req.device !in w.store.online
    requires WellFormed(req)
    ensures
      var v := Continue(Continue(Continue(Continue(u, a, true), a, true), a, true), a, true);
      v.store == Issue(w.store, id, req, true).0 && PcOf(v, a) == Idle
  {
    hide Continue;
    PushAndTrim(u, a, id, BodyOf(req));
    ExpireAndSave(Continue(Continue(u, a, true), a, true), a, id, BodyOf(req));
  }

  /** The calls of one flush, in order: pop, load, and for a live entry publish and save; a raise ends it. */
  ghost function FlushCalls(s: Store, d: DeviceId, raiseAt: Option<nat>): seq<bool>
    decreases |QueueOf(s, d)|
  {
    var q := QueueOf(s, d);
    if q == [] then [true]
    else if q[0] !in s.records || s.records[q[0]].status != Queued then
      [true, true] + FlushCalls(WithQueue(s, d, q[1..]), d, raiseAt)
    else if raiseAt == Some(0) then [true, true, false]
    else
      [true, true, true, true] + FlushCalls(AfterDelivery(s, d), d, OneFewer(raiseAt))
  }

  /** flush_queued_commands run alone, from any queue and with the publisher raising at any call or never. */
  lemma {:induction false} FlushRefines(w: World, a: Actor, d: DeviceId, raiseAt: Option<nat>)
    requires PcOf(w, a) == FlushPop(d)
    ensures
      var v := AdvanceAll(w, a, FlushCalls(w.store, d, raiseAt));
      v.store == Flush(w.store, d, raiseAt).store && PcOf(v, a) == Idle
    decreases |QueueOf(w.store, d)|
  {
    hide Continue, AdvanceAll, NextStatus, AfterDelivery;
    var s := w.store;
    var q := QueueOf(s, d);
    if q == [] {
      EmptyCalls(w, a, d);
    } else if q[0] !in s.records || s.records[q[0]].status != Queued {
      SkipCalls(w, a, d);
      var popped := WithQueue(s, d, q[1..]);
      AdvanceAllConcat(w, a, [true, true], FlushCalls(popped, d, raiseAt));
      FlushRefines(AdvanceAll(w, a, [true, true]), a, d, raiseAt);
      FlushSkips(s, d, raiseAt);
    } else if raiseAt == Some(0) {
      RaisingCalls(w, a, d);
      FlushRaises(s, d);
    } else {
      DeliveryCalls(w, a, d);
      DeliveryShortens(s, d);
      FlushRefines(AdvanceAll(w, a, [true, true, true, true]), a, d, OneFewer(raiseAt));
      AdvanceAllConcat(w, a, [true, true, true, true], FlushCalls(AfterDelivery(s, d), d, OneFewer(raiseAt)));
      FlushUnfoldsHead(s, d, raiseAt);
    }
  }

  lemma FlushSkips(s: Store, d: DeviceId, raiseAt: Option<nat>)
    requires
      var q := QueueOf(s, d);
      q != [] && (q[0] !in s.records || s.records[q[0]].status != Queued)
    ensures Flush(s, d, raiseAt) == Flush(WithQueue(s, d, QueueOf(s, d)[1..]), d, raiseAt)
  {
  }

  lemma FlushRaises(s: Store, d: DeviceId)
    requires
      var q := QueueOf(s, d);
      q != [] && q[0] in s.records && s.records[q[0]].status == Queued
    ensures Flush(s, d, Some(0)).store == WithQueue(s, d, QueueOf(s, d)[1..])
  {
  }

  lemma DeliveryShortens(s: Store, d: DeviceId)
    requires QueueOf(s, d) != [] && QueueOf(s, d)[0] in s.records
    ensures |QueueOf(AfterDelivery(s, d), d)| < |QueueOf(s, d)|
  {
  }

  lemma EmptyCalls(w: World, a: Actor, d: DeviceId)
    requires PcOf(w, a) == FlushPop(d) && QueueOf(w.store, d) == []
    ensures
      var v := AdvanceAll(w, a, [true]);
      v.store == w.store && PcOf(v, a) == Idle
  {
    assert [true][1..] == [];
    assert AdvanceAll(Continue(w, a, true), a, []) == Continue(w, a, true);
  }

  lemma SkipCalls(w: World, a: Actor, d: DeviceId)
    requires PcOf(w, a) == FlushPop(d)
    requires
      var q := QueueOf(w.store, d);
      q != [] && (q[0] !in w.store.records || w.store.records[q[0]].status != Queued)
    ensures
      var v := AdvanceAll(w, a, [true, true]);
      v.store == WithQueue(w.store, d, QueueOf(w.store, d)[1..]) && PcOf(v, a) == FlushPop(d)
  {
    hide ContinueOnlineIssue, ContinueOfflineIssue, ContinueSettle;
    Two(w, a, true, true);
    var u := Continue(w, a, true);
    assert PcOf(u, a) == FlushLoad(d, QueueOf(w.store, d)[0]);
  }

  lemma RaisingCalls(w: World, a: Actor, d: DeviceId)
    requires PcOf(w, a) == FlushPop(d)
    requires
      var q := QueueOf(w.store, d);
      q != [] && q[0] in w.store.records && w.store.records[q[0]].status == Queued
    ensures
      var v := AdvanceAll(w, a, [true, true, false]);
      v.store == WithQueue(w.store, d, QueueOf(w.store, d)[1..]) && PcOf(v, a) == Idle
  {
    hide ContinueOnlineIssue, ContinueOfflineIssue, ContinueSettle;
    Three(w, a, true, true, false);
    var u := Continue(w, a, true);
    assert PcOf(u, a) == FlushLoad(d, QueueOf(w.store, d)[0]);
    assert PcOf(Continue(u, a, true), a).FlushPublish?;
  }

  lemma DeliveryCalls(w: World, a: Actor, d: DeviceId)
    requires PcOf(w, a) == FlushPop(d)
    requires
      var q := QueueOf(w.store, d);
      q != [] && q[0] in w.store.records && w.store.records[q[0]].status == Queued
    ensures
      var v := AdvanceAll(w, a, [true, true, true, true]);
      v.store == AfterDelivery(w.store, d) && PcOf(v, a) == FlushPop(d)
  {
    Four(w, a, true, true, true, true);
    PopAndLoad(w, a, d);
    PublishAndSave(Continue(Continue(w, a, true), a, true), a, d, QueueOf(w.store, d)[0]);
    hide Continue;
  }

  lemma PopAndLoad(w: World, a: Actor, d: DeviceId)
    requires PcOf(w, a) == FlushPop(d)
    requires
      var q := QueueOf(w.store, d);
      q != [] && q[0] in w.store.records && w.store.records[q[0]].status == Queued
    ensures
      var q := QueueOf(w.store, d);
      var v := Continue(Continue(w, a, true), a, true);
      && v.store == WithQueue(w.store, d, q[1..])
      && PcOf(v, a) == FlushPublish(d, q[0], w.store.records[q[0]].(status := Sent))
  {
    hide ContinueOnlineIssue, ContinueOfflineIssue, ContinueSettle;
    assert PcOf(Continue(w, a, true), a) == FlushLoad(d, QueueOf(w.store, d)[0]);
  }

  lemma PublishAndSave(w: World, a: Actor, d: DeviceId, id: CommandId)
    requires PcOf(w, a).FlushPublish? && PcOf(w, a).device == d && PcOf(w, a).id == id
    ensures
      var r := PcOf(w, a).record;
      var v := Continue(Continue(w, a, true), a, true);
      && v.store == w.store.(
                      published := w.store.published + [MessageOf(id, r.body)],
                      records := w.store.records[id := r])
      && PcOf(v, a) == FlushPop(d)
  {
    hide ContinueOnlineIssue, ContinueOfflineIssue, ContinueSettle, NextStatus;
    assert PcOf(Continue(w, a, true), a) == FlushSave(d, id, PcOf(w, a).record);
  }
}
