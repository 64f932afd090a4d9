/** Exactly which SENT commands can still time out. */
module CommandTimeouts {
  import opened Prelude
  import opened Commands
  import opened CommandRuns
  import opened CommandSafety
  import opened CommandRefinement
  import opened CommandRaces
  import opened CommandDelivery

  /** A timeout of the command is still ahead: its timer is armed or about to be, or has fired and not yet saved. */
  ghost predicate TimeoutAhead(w: World, id: CommandId) {
    id in w.store.timers || exists a :: TimesOut(PcOf(w, a), id)
  }

  predicate TimesOut(pc: Pc, id: CommandId) {
    pc == IssueArm(id) || pc == SettleLoad(id, Timeout) || Saves(pc, id, Timeout)
  }

  // ---------------------------------------------------------------- without a timer ahead there never is one

  /** Delivered, with no timeout ahead. */
  ghost predicate Untimed(w: World, id: CommandId) {
    IsDelivered(w, id) && !TimeoutAhead(w, id) && !HasStatus(w, id, Unacknowledged)
  }

  predicate UntimedBy(w: World, a: Actor, id: CommandId) {
    && LocalOk(w, a) && IsDelivered(w, id)
    && id !in w.store.timers && !TimesOut(PcOf(w, a), id) && !HasStatus(w, id, Unacknowledged)
  }

  predicate UntimedAfter(v: World, a: Actor, id: CommandId) {
    id !in v.store.timers && !TimesOut(PcOf(v, a), id) && !HasStatus(v, id, Unacknowledged)
  }

  lemma UntimedFlush(w: World, a: Actor, ok: bool, id: CommandId)
    requires UntimedBy(w, a, id) && InFlush(PcOf(w, a))
    ensures UntimedAfter(Continue(w, a, ok), a, id)
  {
    hide ContinueOnlineIssue, ContinueOfflineIssue, ContinueSettle;
  }

  lemma UntimedOnlineIssue(w: World, a: Actor, ok: bool, id: CommandId)
    requires UntimedBy(w, a, id) && InOnlineIssue(PcOf(w, a))
    ensures UntimedAfter(Continue(w, a, ok), a, id)
  {
    hide ContinueFlush, ContinueOfflineIssue, ContinueSettle;
  }

  lemma UntimedOfflineIssue(w: World, a: Actor, ok: bool, id: CommandId)
    requires UntimedBy(w, a, id) && InOfflineIssue(PcOf(w, a))
    ensures UntimedAfter(Continue(w, a, ok), a, id)
  {
    hide ContinueFlush, ContinueOnlineIssue, ContinueSettle;
  }

  lemma UntimedSettle(w: World, a: Actor, ok: bool, id: CommandId)
    requires UntimedBy(w, a, id) && (PcOf(w, a).SettleLoad? || PcOf(w, a).SettleSave?)
    ensures UntimedAfter(Continue(w, a, ok), a, id)
  {
    hide ContinueFlush, ContinueOnlineIssue, ContinueOfflineIssue;
  }

  lemma UntimedCall(w: World, a: Actor, ok: bool, id: CommandId)
    requires UntimedBy(w, a, id)
    ensures UntimedAfter(Continue(w, a, ok), a, id)
  {
    assert PcOf(w, a) != Idle;
    hide Continue, UntimedBy, UntimedAfter;
    if InFlush(PcOf(w, a)) {
      UntimedFlush(w, a, ok, id);
    } else if InOnlineIssue(PcOf(w, a)) {
      UntimedOnlineIssue(w, a, ok, id);
    } else if InOfflineIssue(PcOf(w, a)) {
      UntimedOfflineIssue(w, a, ok, id);
    } else {
      UntimedSettle(w, a, ok, id);
    }
  }

  lemma UntimedStep(w: World, step: Step, id: CommandId)
    requires Inv(w) && Enabled(w, step) && Untimed(w, id)
    ensures Untimed(Apply(w, step), id)
  {
    if step.Advance? && !PcOf(w, step.actor).IssueTrim? {
      hide ContinueOnlineIssue, ContinueOfflineIssue, ContinueFlush, ContinueSettle, ActorOk, QueuesOk, PublishedOk;
      hide TimesOut;
      var v, a := Apply(w, step), step.actor;
      assert v == Continue(w, a, step.ok);
      InvLocal(w, a);
      AdvanceMoves(w, a, step.ok);
      UntimedCall(w, a, step.ok, id);
      assert forall b :: b != a ==> PcOf(v, b) == PcOf(w, b);
    } else {
      UntimedElsewhere(w, step, id);
    }
  }

  lemma UntimedElsewhere(w: World, step: Step, id: CommandId)
    requires Inv(w) && Enabled(w, step) && Untimed(w, id) && (step.Advance? ==> PcOf(w, step.actor).IssueTrim?)
    ensures Untimed(Apply(w, step), id)
  {
    hide Continue, DropOldest, ActorOk, RecordOk, QueuesOk, PublishedOk, TrackIs;
    var v := Apply(w, step);
    if step.Advance? {
      UntimedTrim(w, step.actor, step.ok, id);
    } else if step.QueueExpires? {
      DropKeepsDelivered(w, step.device, |QueueOf(w.store, step.device)|, id);
    }
    assert forall b :: TimesOut(PcOf(v, b), id) ==> PcOf(v, b) == PcOf(w, b);
  }

  lemma UntimedTrim(w: World, a: Actor, ok: bool, id: CommandId)
    requires QueuesOk(w) && IsDelivered(w, id) && PcOf(w, a).IssueTrim?
    ensures
      var v := Continue(w, a, ok);
      && IsDelivered(v, id) && v.store.timers == w.store.timers && v.store.records == w.store.records
      && (forall b :: b != a ==> PcOf(v, b) == PcOf(w, b)) && !TimesOut(PcOf(v, a), id)
  {
    hide ContinueOnlineIssue, ContinueFlush, ContinueSettle, DropOldest, QueuesOk;
    var d := PcOf(w, a).body.device;
    var n := |QueueOf(w.store, d)|;
    DropKeepsDelivered(w, d, n - Min(n, QUEUE_CAP), id);
  }

  lemma DropKeepsDelivered(w: World, d: DeviceId, n: nat, id: CommandId)
    requires QueuesOk(w) && n <= |QueueOf(w.store, d)| && IsDelivered(w, id)
    ensures
      var v := DropOldest(w, d, n);
      && IsDelivered(v, id) && v.actors == w.actors
      && v.store.timers == w.store.timers && v.store.records == w.store.records
  {
    assert id !in QueueOf(w.store, d) by {
      assert !TrackIs(w, id, Waiting(d));
    }
  }

  lemma {:induction false} UntimedAlong(w: World, run: seq<Step>, id: CommandId)
    requires Good(w) && ValidRun(w, run) && Untimed(w, id)
    ensures Untimed(RunFrom(w, run), id)
    decreases |run|
  {
    hide Untimed;
    if run != [] {
      UntimedStep(w, run[0], id);
      GoodStep(w, run[0]);
      UntimedAlong(Apply(w, run[0]), run[1..], id);
    }
  }

  // ---------------------------------------------------------------- with one ahead the command can time out

  ghost predicate CanTimeOut(w: World, id: CommandId) {
    exists run :: ValidRun(w, run) && HasStatus(RunFrom(w, run), id, Unacknowledged)
  }

  lemma CanTimeOutByStep(w: World, step: Step, id: CommandId)
    requires Enabled(w, step) && CanTimeOut(Apply(w, step), id)
    ensures CanTimeOut(w, id)
  {
    hide Apply, Enabled;
    var run :| ValidRun(Apply(w, step), run) && HasStatus(RunFrom(Apply(w, step), run), id, Unacknowledged);
    StepThenRun(w, step, run);
  }

  lemma FromSave(w: World, a: Actor, id: CommandId)
    requires Saves(PcOf(w, a), id, Timeout) && PcOf(w, a).record.status == Unacknowledged
    ensures CanTimeOut(w, id)
  {
    hide ContinueOnlineIssue, ContinueOfflineIssue, ContinueFlush;
    var v := Continue(w, a, true);
    assert ValidRun(v, []) && RunFrom(v, []) == v;
    hide ValidRun, RunFrom;
    CanTimeOutByStep(w, Advance(a, true), id);
  }

  lemma FromLoad(w: World, a: Actor, id: CommandId)
    requires PcOf(w, a) == SettleLoad(id, Timeout) && HasStatus(w, id, Sent)
    ensures CanTimeOut(w, id)
  {
    hide ContinueOnlineIssue, ContinueOfflineIssue, ContinueFlush, ValidRun, RunFrom;
    FromSave(Continue(w, a, true), a, id);
    CanTimeOutByStep(w, Advance(a, true), id);
  }

  lemma FromTimer(w: World, id: CommandId)
    requires id in w.store.timers && HasStatus(w, id, Sent)
    ensures CanTimeOut(w, id)
  {
    hide Continue, ValidRun, RunFrom;
    var a := Unused(w.actors);
    FromLoad(Apply(w, FireTimer(a, id)), a, id);
    CanTimeOutByStep(w, FireTimer(a, id), id);
  }

  lemma FromArm(w: World, a: Actor, id: CommandId)
    requires PcOf(w, a) == IssueArm(id) && HasStatus(w, id, Sent)
    ensures CanTimeOut(w, id)
  {
    hide ContinueSettle, ContinueOfflineIssue, ContinueFlush, ValidRun, RunFrom;
    FromTimer(Continue(w, a, true), id);
    CanTimeOutByStep(w, Advance(a, true), id);
  }

  /** Call by call, a SENT command can become UNACKNOWLEDGED in some continuation if and only if a timeout is ahead: its
      timer is armed, its issuer is about to arm it, or it has fired and has not yet saved its verdict. */
  lemma SentTimesOutIff(w: World, id: CommandId)
    requires Reachable(w) && HasStatus(w, id, Sent)
    ensures CanTimeOut(w, id) <==> TimeoutAhead(w, id)
  {
    hide ValidRun, RunFrom, Faithful, PublishedOk;
    ReachableGood(w);
    assert RecordOk(w, id);
    if id in w.store.timers {
      FromTimer(w, id);
    } else if a :| TimesOut(PcOf(w, a), id) {
      assert ActorOk(w, a);
      if PcOf(w, a) == IssueArm(id) {
        FromArm(w, a, id);
      } else if PcOf(w, a) == SettleLoad(id, Timeout) {
        FromLoad(w, a, id);
      } else {
        FromSave(w, a, id);
      }
    } else {
      forall run | ValidRun(w, run) ensures !HasStatus(RunFrom(w, run), id, Unacknowledged) {
        UntimedAlong(w, run, id);
      }
    }
  }

  // ---------------------------------------------------------------- a flushed command waits for ever

  /** A command delivered by a reconnect reads SENT; no continuation arms a timer for it or calls it UNACKNOWLEDGED. */
  lemma FlushedNeverTimesOut()
    ensures exists w :: Reachable(w) && HasStatus(w, 7, Sent)
              && forall run :: ValidRun(w, run) ==>
                   7 !in RunFrom(w, run).store.timers && !HasStatus(RunFrom(w, run), 7, Unacknowledged)
  {
    hide Continue, AdvanceAll, FlushCalls, Flush, Live, Faithful;
    ReachableStart();
    var queued := IssuedOffline(START, 7);
    ReachableGood(queued);
    assert RecordOk(queued, 7);
    var first := BeginFlush(1, 0);
    var begun := Apply(queued, first);
    var calls := FlushCalls(begun.store, 0, None);
    HandlerAlone(queued, first, 1, calls);
    FlushRefines(begun, 1, 0, None);
    FlushOfOne(begun.store, 0, 7);
    var w := AdvanceAll(begun, 1, calls);
    AloneIsRun(begun, 1, calls);
    OfflineBornStep(queued, first, 7);
    GoodStep(queued, first);
    OfflineBornAlong(begun, AloneRun(begun, 1, calls), 7);
    ReachableGood(w);
    forall run | ValidRun(w, run)
      ensures 7 !in RunFrom(w, run).store.timers && !HasStatus(RunFrom(w, run), 7, Unacknowledged)
    {
      NeverTimed(w, run, 7);
    }
  }

  lemma NeverTimed(w: World, run: seq<Step>, id: CommandId)
    requires Good(w) && ValidRun(w, run) && OfflineBorn(w, id)
    ensures id !in RunFrom(w, run).store.timers && !HasStatus(RunFrom(w, run), id, Unacknowledged)
  {
    OfflineBornAlong(w, run, id);
    GoodRun(w, run);
    hide ValidRun, RunFrom;
    assert RecordOk(RunFrom(w, run), id);
    assert !TrackIs(RunFrom(w, run), id, Delivered(true));
  }

  lemma FlushOfOne(s: Store, d: DeviceId, id: CommandId)
    requires QueueOf(s, d) == [id] && id in s.records && s.records[id].status == Queued
    ensures
      var t := Flush(s, d, None).store;
      id in t.records && t.records[id].status == Sent && t.timers == s.timers
  {
    FlushExact(s, d, None);
    assert Live(s.records, [id]) == [id];
  }
}
