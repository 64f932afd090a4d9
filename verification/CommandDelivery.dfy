/** Exactly which QUEUED commands a reconnect can still deliver. */
module CommandDelivery {
  import opened Prelude
  import opened Commands
  import opened CommandRuns
  import opened CommandSafety
  import opened CommandRefinement
  import opened CommandRaces

  /** The steps by which actor `a` makes its calls alone; an idle actor makes none. */
  ghost function AloneRun(w: World, a: Actor, oks: seq<bool>): seq<Step>
    decreases |oks|
  {
    if oks == [] || PcOf(w, a) == Idle then []
    else [Advance(a, oks[0])] + AloneRun(Continue(w, a, oks[0]), a, oks[1..])
  }

  lemma {:induction false} AloneIsRun(w: World, a: Actor, oks: seq<bool>)
    ensures ValidRun(w, AloneRun(w, a, oks)) && RunFrom(w, AloneRun(w, a, oks)) == AdvanceAll(w, a, oks)
    decreases |oks|
  {
    hide ContinueOnlineIssue, ContinueOfflineIssue, ContinueFlush;
    if oks != [] {
      var v := Continue(w, a, oks[0]);
      if PcOf(w, a) == Idle {
        IdleStays(w, a, oks);
      } else {
        AloneIsRun(v, a, oks[1..]);
        var run := AloneRun(w, a, oks);
        assert run[0] == Advance(a, oks[0]) && run[1..] == AloneRun(v, a, oks[1..]);
      }
    }
  }

  lemma {:induction false} AloneStepsAreOwn(w: World, a: Actor, oks: seq<bool>)
    ensures forall step :: step in AloneRun(w, a, oks) ==> step.Advance? && step.actor == a
    decreases |oks|
  {
    hide Continue;
    if oks != [] && PcOf(w, a) != Idle {
      AloneStepsAreOwn(Continue(w, a, oks[0]), a, oks[1..]);
    }
  }

  lemma {:induction false} IdleStays(w: World, a: Actor, oks: seq<bool>)
    requires PcOf(w, a) == Idle
    ensures AdvanceAll(w, a, oks) == w
    decreases |oks|
  {
    hide ContinueOnlineIssue, ContinueOfflineIssue, ContinueFlush;
    if oks != [] {
      assert Continue(w, a, oks[0]) == w;
      IdleStays(w, a, oks[1..]);
    }
  }

  lemma {:induction false} Unused<V>(m: map<nat, V>) returns (a: nat)
    ensures a !in m
  {
    a := 0;
    var rest := m.Keys;
    ghost var below: set<nat> := {};
    while a in m
      invariant rest + below == m.Keys && (forall b :: b in below ==> b < a) && (forall b :: b in rest ==> b >= a)
      decreases rest
    {
      rest, below := rest - {a}, below + {a};
      a := a + 1;
    }
  }

  /** A run that ends with the command published. */
  ghost predicate DeliverableFrom(w: World, id: CommandId) {
    exists run :: ValidRun(w, run) && IsPublished(RunFrom(w, run), id)
  }

  lemma DeliverableByStep(w: World, step: Step, id: CommandId)
    requires Enabled(w, step) && DeliverableFrom(Apply(w, step), id)
    ensures DeliverableFrom(w, id)
  {
    hide Apply, Enabled;
    var run :| ValidRun(Apply(w, step), run) && IsPublished(RunFrom(Apply(w, step), run), id);
    StepThenRun(w, step, run);
  }

  lemma DeliverableNow(w: World, id: CommandId)
    requires IsPublished(w, id)
    ensures DeliverableFrom(w, id)
  {
    assert ValidRun(w, []) && RunFrom(w, []) == w;
  }

  // ---------------------------------------------------------------- from the queue

  /** The run is a reconnect of the device and the calls of the flush it starts, and nothing else. */
  ghost predicate ReconnectOnly(d: DeviceId, run: seq<Step>) {
    && run != [] && run[0].BeginFlush? && run[0].device == d
    && forall step :: step in run[1..] ==> step.Advance? && step.actor == run[0].actor
  }

  /** The next reconnect of its device, if nothing disturbs it, publishes a QUEUED command that stands in the queue. */
  lemma QueuedIsDeliverable(w: World, id: CommandId, d: DeviceId)
    requires Inv(w) && id in QueueOf(w.store, d) && HasStatus(w, id, Queued)
    ensures exists run :: ReconnectOnly(d, run) && ValidRun(w, run) && IsPublished(RunFrom(w, run), id)
  {
    hide Continue, AdvanceAll, ValidRun, RunFrom, FlushCalls, AloneRun;
    var a := Unused(w.actors);
    var first := BeginFlush(a, d);
    var begun := Apply(w, first);
    assert PcOf(begun, a) == FlushPop(d) && begun.store == w.store;
    var calls := FlushCalls(w.store, d, None);
    FlushRefines(begun, a, d, None);
    AloneIsRun(begun, a, calls);
    AloneStepsAreOwn(begun, a, calls);
    FlushPublishes(w.store, d, id);
    var run := AloneRun(begun, a, calls);
    StepThenRun(w, first, run);
    assert ([first] + run)[1..] == run;
    assert ReconnectOnly(d, [first] + run) && IsPublished(RunFrom(w, [first] + run), id);
  }

  lemma FlushPublishes(s: Store, d: DeviceId, id: CommandId)
    requires Distinct(QueueOf(s, d)) && id in QueueOf(s, d) && id in s.records && s.records[id].status == Queued
    ensures id in IdsOf(Flush(s, d, None).store.published)
  {
    hide Flush, Live;
    FlushExact(s, d, None);
    LiveMembers(s.records, QueueOf(s, d));
    var live := Live(s.records, QueueOf(s, d));
    var i :| 0 <= i < |live| && live[i] == id;
    var published := Flush(s, d, None).store.published;
    assert live[..|live|] == live;
    assert published == s.published + Messages(s.records, live);
    assert published[|s.published| + i] == MessageOf(id, s.records[id].body);
    assert IdsOf(published)[|s.published| + i] == id;
  }

  // ---------------------------------------------------------------- from the hands of a flush

  /** A popped QUEUED command is published by the next call or two of the flush that popped it. */
  lemma TakenIsDeliverable(w: World, id: CommandId, a: Actor)
    requires HasStatus(w, id, Queued)
    requires (PcOf(w, a).FlushLoad? || PcOf(w, a).FlushPublish?) && PcOf(w, a).id == id
    ensures DeliverableFrom(w, id)
  {
    hide ValidRun, RunFrom, ContinueOnlineIssue, ContinueOfflineIssue, ContinueSettle;
    var v := Continue(w, a, true);
    if PcOf(w, a).FlushLoad? {
      assert PcOf(v, a).FlushPublish? && PcOf(v, a).id == id;
      PublishCallPublishes(v, id, a);
      DeliverableByStep(w, Advance(a, true), id);
    } else {
      PublishCallPublishes(w, id, a);
    }
  }

  lemma PublishCallPublishes(w: World, id: CommandId, a: Actor)
    requires PcOf(w, a).FlushPublish? && PcOf(w, a).id == id
    ensures DeliverableFrom(w, id)
  {
    hide ValidRun, RunFrom, ContinueOnlineIssue, ContinueOfflineIssue, ContinueSettle;
    var v := Continue(w, a, true);
    assert v.store.published[|w.store.published|].id == id;
    assert IdsOf(v.store.published)[|w.store.published|] == id;
    DeliverableNow(v, id);
    DeliverableByStep(w, Advance(a, true), id);
  }

  // ---------------------------------------------------------------- the exact condition

  /** A command that reads QUEUED can still be delivered, in some continuation, if and only if it stands in a queue, is
      in the hands of a flush, or has been published already. */
  lemma QueuedDeliverableIff(w: World, id: CommandId)
    requires Reachable(w) && HasStatus(w, id, Queued)
    ensures DeliverableFrom(w, id) <==> InSomeQueue(w, id) || InAFlush(w, id) || IsPublished(w, id)
  {
    hide ValidRun, RunFrom, ActorOk, Faithful, PublishedOk;
    ReachableGood(w);
    assert RecordOk(w, id);
    CommandsConserved(w, id);
    if InSomeQueue(w, id) {
      var d :| id in QueueOf(w.store, d);
      QueuedIsDeliverable(w, id, d);
    } else if InAFlush(w, id) {
      var a :| (PcOf(w, a).FlushLoad? || PcOf(w, a).FlushPublish?) && PcOf(w, a).id == id;
      TakenIsDeliverable(w, id, a);
    } else if IsPublished(w, id) {
      DeliverableNow(w, id);
    } else {
      assert IsLost(w, id);
      forall run | ValidRun(w, run) ensures !IsPublished(RunFrom(w, run), id) {
        LostForever(w, run, id);
      }
    }
  }

  /** A flush drops the entry it has popped exactly when the record is absent at its load; otherwise the entry goes on
      to be published. The entry is pushed before the record is saved, so the guard can fail on a live command. */
  lemma PoppedEntryDroppedIff(w: World, a: Actor, d: DeviceId, id: CommandId)
    requires Reachable(w) && PcOf(w, a) == FlushLoad(d, id)
    ensures IsLost(Continue(w, a, true), id) <==> id !in w.store.records
    ensures id in w.store.records
          ==> PcOf(Continue(w, a, true), a).FlushPublish? && PcOf(Continue(w, a, true), a).id == id
  {
    hide ContinueOnlineIssue, ContinueOfflineIssue, ContinueSettle;
    ReachableGood(w);
    assert ActorOk(w, a);
    if id in w.store.records {
      FlushFindsQueued(w, a, d, id);
    }
  }
}
