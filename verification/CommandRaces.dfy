/** Three interleavings in which the documented command lifecycle fails, as runs from the empty state. */
module CommandRaces {
  import opened Prelude
  import opened Commands
  import opened CommandRuns
  import opened CommandSafety
  import opened CommandRefinement

  lemma {:induction false} ReachableAlone(w: World, a: Actor, oks: seq<bool>)
    requires Reachable(w)
    ensures Reachable(AdvanceAll(w, a, oks))
    ensures forall b :: b != a ==> PcOf(AdvanceAll(w, a, oks), b) == PcOf(w, b)
    decreases |oks|
  {
    if oks != [] {
      OneCallAlone(w, a, oks[0]);
      ReachableAlone(Continue(w, a, oks[0]), a, oks[1..]);
    }
  }

  lemma OneCallAlone(w: World, a: Actor, ok: bool)
    requires Reachable(w)
    ensures Reachable(Continue(w, a, ok))
    ensures forall b :: b != a ==> PcOf(Continue(w, a, ok), b) == PcOf(w, b)
  {
    hide ContinueOnlineIssue, ContinueOfflineIssue, ContinueFlush;
    if PcOf(w, a) == Idle {
      assert Continue(w, a, ok) == w;
    } else {
      ReachableStep(w, Advance(a, ok));
      assert Apply(w, Advance(a, ok)) == Continue(w, a, ok);
      hide Continue;
      if PcOf(w, a).IssueTrim? {
        TrimAlone(w, a, ok);
      } else {
        hide ActorOk, RecordOk, LegalMove, Faithful;
        ReachableGood(w);
        InvLocal(w, a);
        AdvanceMoves(w, a, ok);
      }
    }
  }

  lemma TrimAlone(w: World, a: Actor, ok: bool)
    requires PcOf(w, a).IssueTrim?
    ensures forall b :: b != a ==> PcOf(Continue(w, a, ok), b) == PcOf(w, b)
  {
  }

  /** A whole handler run alone by an idle actor, from its first step on. */
  lemma HandlerAlone(w: World, first: Step, a: Actor, oks: seq<bool>)
    requires Reachable(w) && Enabled(w, first)
    requires forall b :: b != a ==> PcOf(Apply(w, first), b) == PcOf(w, b)
    ensures
      var v := AdvanceAll(Apply(w, first), a, oks);
      Reachable(v) && forall b :: b != a ==> PcOf(v, b) == PcOf(w, b)
  {
    ReachableStep(w, first);
    ReachableAlone(Apply(w, first), a, oks);
  }

  // ---------------------------------------------------------------- a CONFIRMED command is downgraded

  const SWITCH_ON: Request := Request(0, "on", None, None, 5)

  lemma SentWithTimer() returns (w: World)
    ensures Reachable(w) && 7 in w.store.timers && 7 in w.store.records && w.store.records[7].status == Sent
    ensures PcOf(w, 1) == Idle && PcOf(w, 2) == Idle
  {
    ReachableStart();
    ReachableStep(START, SetPresence(0, true));
    var on := Apply(START, SetPresence(0, true));
    var first := BeginIssue(0, 7, SWITCH_ON);
    HandlerAlone(on, first, 0, [true, true, true]);
    IssueRefines(on, 0, 7, SWITCH_ON);
    w := AdvanceAll(Apply(on, first), 0, [true, true, true]);
    assert PcOf(on, 1) == Idle && PcOf(on, 2) == Idle;
  }

  /** An acknowledgement or a timer loads a SENT record and is then about to save its verdict. */
  lemma VerdictLoads(w: World, a: Actor, id: CommandId, event: Event)
    requires Reachable(w) && PcOf(w, a) == SettleLoad(id, event) && HasStatus(w, id, Sent)
          && (event == Ack || event == Timeout)
    ensures
      var v := Continue(w, a, true);
      && Reachable(v) && v.store == w.store && Saves(PcOf(v, a), id, event)
      && (forall b :: b != a ==> PcOf(v, b) == PcOf(w, b))
  {
    hide ContinueOnlineIssue, ContinueOfflineIssue, ContinueFlush;
    OneCallAlone(w, a, true);
  }

  /** The other verdict runs alone, from load to save, while actor `b` stays where it is. */
  lemma VerdictAlone(w: World, first: Step, a: Actor, b: Actor, id: CommandId, event: Event) returns (v: World)
    requires Reachable(w) && Enabled(w, first) && HasStatus(w, id, Sent) && (event == Ack || event == Timeout) && a != b
    requires forall c :: c != a ==> PcOf(Apply(w, first), c) == PcOf(w, c)
    requires PcOf(Apply(w, first), a) == SettleLoad(id, event) && Apply(w, first).store.records == w.store.records
    ensures Reachable(v) && HasStatus(v, id, VerdictOf(event)) && PcOf(v, b) == PcOf(w, b)
  {
    hide Continue, AdvanceAll;
    HandlerAlone(w, first, a, [true, true]);
    SettleRefines(Apply(w, first), a, id, event);
    v := AdvanceAll(Apply(w, first), a, [true, true]);
  }

  /** The timer loads SENT, the acknowledgement is saved as CONFIRMED, and the timer's save is still to come. */
  lemma ConfirmedCanBeDowngraded()
    ensures exists w :: Reachable(w) && HasStatus(w, 7, Confirmed) && SaveInFlight(w, 7, Timeout)
  {
    hide Continue, AdvanceAll;
    var sent := SentWithTimer();
    ReachableStep(sent, FireTimer(1, 7));
    var fired := Apply(sent, FireTimer(1, 7));
    assert PcOf(fired, 1) == SettleLoad(7, Timeout) && PcOf(fired, 2) == Idle;
    VerdictLoads(fired, 1, 7, Timeout);
    var w := VerdictAlone(Continue(fired, 1, true), BeginConfirm(2, 7), 2, 1, 7, Ack);
    assert Saves(PcOf(w, 1), 7, Timeout);
  }

  /** The mirror image: the acknowledgement loads SENT, the timer saves UNACKNOWLEDGED, and the acknowledgement's save
      is still to come. */
  lemma UnacknowledgedCanBeRevived()
    ensures exists w :: Reachable(w) && HasStatus(w, 7, Unacknowledged) && SaveInFlight(w, 7, Ack)
  {
    hide Continue, AdvanceAll;
    var sent := SentWithTimer();
    ReachableStep(sent, BeginConfirm(2, 7));
    var begun := Apply(sent, BeginConfirm(2, 7));
    assert PcOf(begun, 2) == SettleLoad(7, Ack) && PcOf(begun, 1) == Idle;
    VerdictLoads(begun, 2, 7, Ack);
    var w := VerdictAlone(Continue(begun, 2, true), FireTimer(1, 7), 1, 2, 7, Timeout);
    assert Saves(PcOf(w, 2), 7, Ack);
  }

  // ---------------------------------------------------------------- a QUEUED command is stranded

  const SWITCH_OFF: Request := Request(0, "off", None, None, 0)

  /** One more command queued for the offline device 0, by actor 0 alone. */
  lemma IssuedOffline(w: World, id: CommandId) returns (v: World)
    requires Reachable(w) && PcOf(w, 0) == Idle && id !in w.track
    requires 0 !in w.store.online && |QueueOf(w.store, 0)| < QUEUE_CAP
    ensures Reachable(v) && QueueOf(v.store, 0) == QueueOf(w.store, 0) + [id] && HasStatus(v, id, Queued)
    ensures forall other :: other != id && HasStatus(w, other, Queued) ==> HasStatus(v, other, Queued)
    ensures v.store.online == w.store.online && forall b :: PcOf(v, b) == PcOf(w, b)
  {
    hide Continue, AdvanceAll;
    var first := BeginIssue(0, id, SWITCH_OFF);
    HandlerAlone(w, first, 0, [true, true, true, true]);
    IssueRefines(w, 0, id, SWITCH_OFF);
    v := AdvanceAll(Apply(w, first), 0, [true, true, true, true]);
  }

  lemma PushedNotSaved() returns (w: World)
    ensures Reachable(w) && PcOf(w, 1) == Idle && PcOf(w, 0) == IssueSaveQueued(7, BodyOf(SWITCH_OFF))
    ensures QueueOf(w.store, 0) == [7] && w.store.records == map[]
  {
    ReachableStart();
    var first := BeginIssue(0, 7, SWITCH_OFF);
    HandlerAlone(START, first, 0, [true, true, true]);
    var u := Apply(START, first);
    PushTrimExpire(u, 0, 7, BodyOf(SWITCH_OFF));
    w := AdvanceAll(u, 0, [true, true, true]);
    assert PcOf(w, 1) == PcOf(START, 1);
  }

  lemma PushTrimExpire(u: World, a: Actor, id: CommandId, body: Body)
    requires PcOf(u, a) == IssuePush(id, body) && QueueOf(u.store, body.device) == []
    ensures
      var w := AdvanceAll(u, a, [true, true, true]);
      && PcOf(w, a) == IssueSaveQueued(id, body)
      && QueueOf(w.store, body.device) == [id] && w.store.records == u.store.records
  {
    Three(u, a, true, true, true);
    var u1 := Continue(u, a, true);
    assert QueueOf(u1.store, body.device) == [id] && PcOf(u1, a) == IssueTrim(id, body);
    var u2 := Continue(u1, a, true);
    assert QueueOf(u2.store, body.device) == [id] && PcOf(u2, a) == IssueExpire(id, body);
  }

  /** The flush pops the entry, finds no record and moves on. */
  lemma FlushDropsEntry(w: World, a: Actor, d: DeviceId, id: CommandId)
    requires PcOf(w, a) == FlushPop(d) && QueueOf(w.store, d) == [id] && id !in w.store.records
    ensures
      var v := AdvanceAll(w, a, [true, true]);
      IsLost(v, id) && v.store.records == w.store.records
  {
    Two(w, a, true, true);
    var u := Continue(w, a, true);
    assert PcOf(u, a) == FlushLoad(d, id) && u.store.records == w.store.records;
  }

  /** The entry is pushed before its record is saved, so a reconnect in between pops it, finds no record and drops
      it: the command is reported QUEUED although, by `LostForever`, it will never be delivered. */
  lemma QueuedCanBeStranded()
    ensures exists w :: Reachable(w) && IsLost(w, 7) && 7 in w.store.records && w.store.records[7].status == Queued
  {
    var pushed := PushedNotSaved();
    var first := BeginFlush(1, 0);
    HandlerAlone(pushed, first, 1, [true, true]);
    FlushDropsEntry(Apply(pushed, first), 1, 0, 7);
    var dropped := AdvanceAll(Apply(pushed, first), 1, [true, true]);
    assert PcOf(dropped, 0) == PcOf(pushed, 0);
    OneCallAlone(dropped, 0, true);
    var w := Continue(dropped, 0, true);
    assert IsLost(w, 7) && w.store.records[7].status == Queued;
  }
}
