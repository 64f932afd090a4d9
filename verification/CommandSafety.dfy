/** What holds of every interleaving of the command protocol, and exactly where the documented guarantees stop. */
module CommandSafety {
  import opened Prelude
  import opened Commands
  import opened CommandRuns

  // ---------------------------------------------------------------- the rank only climbs

  /** No step lowers the rank of any command, except the expiry of its own record. */
  lemma StepRaisesRank(w: World, step: Step, id: CommandId)
    requires Inv(w) && Enabled(w, step) && step != RecordExpires(id)
    ensures Rank(Apply(w, step).store.records, id) >= Rank(w.store.records, id)
  {
    if step.Advance? && !PcOf(w, step.actor).IssueTrim? {
      InvLocal(w, step.actor);
      assert RecordOk(w, id);
      if id != Focus(w, step.actor) {
        AdvanceMoves(w, step.actor, step.ok);
      } else {
        AdvanceRaisesRank(w, step.actor, step.ok);
      }
    }
  }

  lemma AdvanceRaisesRank(w: World, a: Actor, ok: bool)
    requires LocalOk(w, a) && RecordOk(w, Focus(w, a))
    ensures Rank(Continue(w, a, ok).store.records, Focus(w, a)) >= Rank(w.store.records, Focus(w, a))
  {
    if InFlush(PcOf(w, a)) {
      FlushRaisesRank(w, a, ok);
    } else {
      hide ContinueFlush;
    }
  }

  lemma FlushRaisesRank(w: World, a: Actor, ok: bool)
    requires LocalOk(w, a) && RecordOk(w, Focus(w, a)) && InFlush(PcOf(w, a))
    ensures Rank(Continue(w, a, ok).store.records, Focus(w, a)) >= Rank(w.store.records, Focus(w, a))
  {
    hide ContinueOnlineIssue, ContinueOfflineIssue, ContinueSettle;
  }

  /** absent < QUEUED < SENT < {CONFIRMED, UNACKNOWLEDGED} never decreases over any run in which the record of the
      command does not expire, however the calls of issuers, flushes, acknowledgements and timers interleave. */
  lemma {:induction false} RankNeverDecreases(w: World, run: seq<Step>, id: CommandId)
    requires Reachable(w) && ValidRun(w, run) && RecordExpires(id) !in run
    ensures Rank(RunFrom(w, run).store.records, id) >= Rank(w.store.records, id)
  {
    ReachableGood(w);
    RankAlong(w, run, id);
  }

  lemma {:induction false} RankAlong(w: World, run: seq<Step>, id: CommandId)
    requires Good(w) && ValidRun(w, run) && RecordExpires(id) !in run
    ensures Rank(RunFrom(w, run).store.records, id) >= Rank(w.store.records, id)
    decreases |run|
  {
    if run != [] {
      StepRaisesRank(w, run[0], id);
      GoodStep(w, run[0]);
      RankAlong(Apply(w, run[0]), run[1..], id);
    }
  }

  // ---------------------------------------------------------------- a call that raises

  /** A call that raises ends its handler and leaves the shared state as it was; arming a timer is no such call. */
  lemma RaisedCallStops(w: World, a: Actor)
    requires PcOf(w, a) != Idle && !PcOf(w, a).IssueArm?
    ensures PcOf(Continue(w, a, false), a) == Idle && Continue(w, a, false).store == w.store
  {
    hide ContinueOnlineIssue, ContinueOfflineIssue, ContinueFlush, ContinueSettle;
    var pc := PcOf(w, a);
    if InOnlineIssue(pc) {
      RaisedOnlineIssue(w, a, pc);
    } else if InOfflineIssue(pc) {
      RaisedOfflineIssue(w, a, pc);
    } else if InFlush(pc) {
      RaisedFlush(w, a, pc);
    } else {
      RaisedSettle(w, a, pc);
    }
  }

  lemma RaisedOnlineIssue(w: World, a: Actor, pc: Pc)
    requires InOnlineIssue(pc) && !pc.IssueArm?
    ensures var v := ContinueOnlineIssue(w, a, pc, false); PcOf(v, a) == Idle && v.store == w.store
  {
  }

  lemma RaisedOfflineIssue(w: World, a: Actor, pc: Pc)
    requires InOfflineIssue(pc)
    ensures var v := ContinueOfflineIssue(w, a, pc, false); PcOf(v, a) == Idle && v.store == w.store
  {
  }

  lemma RaisedFlush(w: World, a: Actor, pc: Pc)
    requires InFlush(pc)
    ensures var v := ContinueFlush(w, a, pc, false); PcOf(v, a) == Idle && v.store == w.store
  {
  }

  lemma RaisedSettle(w: World, a: Actor, pc: Pc)
    requires pc.SettleLoad? || pc.SettleSave?
    ensures var v := ContinueSettle(w, a, pc, false); PcOf(v, a) == Idle && v.store == w.store
  {
  }

  // ---------------------------------------------------------------- at most once, and nothing unaccounted for

  /** In every run each command is published at most once, and each message is the command as it was issued,
      addressed to the device it was issued for. */
  lemma PublishedAtMostOnce(w: World)
    requires Reachable(w)
    ensures Distinct(IdsOf(w.store.published))
    ensures forall m :: m in w.store.published ==> m.id in w.drafts && Tells(m, m.id, w.drafts[m.id])
  {
    ReachableGood(w);
  }

  lemma DraftStays(w: World, step: Step, id: CommandId)
    requires Good(w) && Enabled(w, step) && id in w.drafts
    ensures id in Apply(w, step).drafts && Apply(w, step).drafts[id] == w.drafts[id]
  {
    hide ContinueOnlineIssue, ContinueFlush, ContinueSettle;
    if step.Advance? && !PcOf(w, step.actor).IssueTrim? {
      hide Apply, Continue, ContinueOfflineIssue;
      InvLocal(w, step.actor);
      AdvanceMoves(w, step.actor, step.ok);
      StepIsCall(w, step);
    }
  }

  lemma StepIsCall(w: World, step: Step)
    requires Enabled(w, step) && step.Advance?
    ensures Apply(w, step) == Continue(w, step.actor, step.ok)
  {
    hide Continue;
  }

  lemma {:induction false} DraftStaysAlong(w: World, run: seq<Step>, id: CommandId)
    requires Good(w) && ValidRun(w, run) && id in w.drafts
    ensures Good(RunFrom(w, run))
    ensures id in RunFrom(w, run).drafts && RunFrom(w, run).drafts[id] == w.drafts[id]
    decreases |run|
  {
    hide Good;
    if run != [] {
      DraftStays(w, run[0], id);
      GoodStep(w, run[0]);
      DraftStaysAlong(Apply(w, run[0]), run[1..], id);
    }
  }

  /** Whatever interleaves after a command is issued, any message that ever carries its id says what was requested, and
      any record under its id holds what was requested. */
  lemma RunsSayRequested(w: World, a: Actor, id: CommandId, req: Request, run: seq<Step>)
    requires Reachable(w) && Enabled(w, BeginIssue(a, id, req)) && ValidRun(Apply(w, BeginIssue(a, id, req)), run)
    ensures
      var v := RunFrom(Apply(w, BeginIssue(a, id, req)), run);
      && (forall m :: m in v.store.published && m.id == id ==> Says(m, id, req))
      && (id in v.store.records ==> Notes(v.store.records[id], req, v.store.records[id].status))
  {
    var issued := Apply(w, BeginIssue(a, id, req));
    assert id in issued.drafts && issued.drafts[id] == BodyOf(req);
    ReachableGood(w);
    GoodStep(w, BeginIssue(a, id, req));
    hide Apply, Enabled, ValidRun, RunFrom, BodyOf, Inv;
    DraftStaysAlong(issued, run, id);
    var v := RunFrom(issued, run);
    forall m | m in v.store.published && m.id == id ensures Says(m, id, req) {
      RequestNoted(id, req, Sent);
    }
    if id in v.store.records {
      RequestNoted(id, req, v.store.records[id].status);
    }
  }

  ghost predicate BeingIssued(w: World, id: CommandId) {
    exists a :: (PcOf(w, a).IssuePublish? || PcOf(w, a).IssuePush?) && PcOf(w, a).id == id
  }

  ghost predicate InSomeQueue(w: World, id: CommandId) {
    exists d :: id in QueueOf(w.store, d)
  }

  ghost predicate InAFlush(w: World, id: CommandId) {
    exists a :: (PcOf(w, a).FlushLoad? || PcOf(w, a).FlushPublish?) && PcOf(w, a).id == id
  }

  predicate IsPublished(w: World, id: CommandId) {
    id in IdsOf(w.store.published)
  }

  predicate IsLost(w: World, id: CommandId) {
    id in w.track && w.track[id].Lost?
  }

  /** Conservation: every command ever drawn is in exactly one place, read off the real state: about to be published
      or queued by its issuer, in a queue (one queue, once), in the hands of a flush, published, or lost for a
      recorded reason. */
  lemma CommandsConserved(w: World, id: CommandId)
    requires Reachable(w) && id in w.track
    ensures BeingIssued(w, id) <==> w.track[id].Drafted?
    ensures InSomeQueue(w, id) <==> w.track[id].Waiting?
    ensures InAFlush(w, id) <==> w.track[id].Taken?
    ensures IsPublished(w, id) <==> w.track[id].Publishing? || w.track[id].Delivered? || w.track[id].Unsaved?
    ensures IsLost(w, id) <==> !BeingIssued(w, id) && !InSomeQueue(w, id) && !InAFlush(w, id) && !IsPublished(w, id)
    ensures forall d, e :: id in QueueOf(w.store, d) && id in QueueOf(w.store, e) ==> d == e
    ensures forall d :: Distinct(QueueOf(w.store, d))
  {
    ReachableGood(w);
    assert InCustody(w, id);
    assert w.track[id].Waiting? ==> id in QueueOf(w.store, w.track[id].device) by {
      if w.track[id].Waiting? {
        assert TrackIs(w, id, Waiting(w.track[id].device));
      }
    }
    assert BeingIssued(w, id) ==> w.track[id].Drafted? by {
      if BeingIssued(w, id) {
        var a :| (PcOf(w, a).IssuePublish? || PcOf(w, a).IssuePush?) && PcOf(w, a).id == id;
        assert ActorOk(w, a);
      }
    }
    assert InAFlush(w, id) ==> w.track[id].Taken? by {
      if InAFlush(w, id) {
        var a :| (PcOf(w, a).FlushLoad? || PcOf(w, a).FlushPublish?) && PcOf(w, a).id == id;
        assert ActorOk(w, a);
      }
    }
    forall d | id in QueueOf(w.store, d) ensures TrackIs(w, id, Waiting(d)) {
    }
    assert IsPublished(w, id) <==> WasPublished(w, id);
  }

  /** The flush's skip of entries whose record is not QUEUED is never taken. */
  lemma FlushFindsQueued(w: World, a: Actor, d: DeviceId, id: CommandId)
    requires Reachable(w) && PcOf(w, a) == FlushLoad(d, id) && id in w.store.records
    ensures w.store.records[id].status == Queued
  {
    ReachableGood(w);
    assert ActorOk(w, a) && RecordOk(w, id);
  }

  // ---------------------------------------------------------------- a verdict is not always final

  function VerdictOf(event: Event): Status
    requires event == Ack || event == Timeout
  {
    if event == Ack then Confirmed else Unacknowledged
  }

  function Rival(event: Event): Event {
    if event == Ack then Timeout else Ack
  }

  predicate HasStatus(w: World, id: CommandId, status: Status) {
    id in w.store.records && w.store.records[id].status == status
  }

  /** Some actor has loaded the record as SENT and not yet saved its verdict for `event`. */
  ghost predicate SaveInFlight(w: World, id: CommandId, event: Event) {
    exists a :: Saves(PcOf(w, a), id, event)
  }

  predicate Saves(pc: Pc, id: CommandId, event: Event) {
    pc.SettleSave? && pc.id == id && pc.event == event
  }

  /** While no save of the other verdict is in flight, a step other than expiry keeps the verdict and starts no such
      save. */
  lemma VerdictStep(w: World, step: Step, id: CommandId, event: Event)
    requires Inv(w) && Enabled(w, step) && step != RecordExpires(id) && (event == Ack || event == Timeout)
    requires HasStatus(w, id, VerdictOf(event)) && !SaveInFlight(w, id, Rival(event))
    ensures HasStatus(Apply(w, step), id, VerdictOf(event)) && !SaveInFlight(Apply(w, step), id, Rival(event))
  {
    if step.Advance? && !PcOf(w, step.actor).IssueTrim? {
      hide ContinueOnlineIssue, ContinueOfflineIssue, ContinueFlush, ContinueSettle, ActorOk, QueuesOk, PublishedOk;
      var v, a := Apply(w, step), step.actor;
      assert v == Continue(w, a, step.ok);
      InvLocal(w, a);
      AdvanceMoves(w, a, step.ok);
      assert RecordOk(w, id);
      if id == Focus(w, a) {
        VerdictAdvance(w, a, step.ok, event);
      }
      NoNewRival(w, a, step.ok, id, event);
      assert forall b :: b != a ==> PcOf(v, b) == PcOf(w, b);
    } else {
      VerdictElsewhere(w, step, id, event);
    }
  }

  lemma VerdictElsewhere(w: World, step: Step, id: CommandId, event: Event)
    requires Inv(w) && Enabled(w, step) && step != RecordExpires(id) && (event == Ack || event == Timeout)
    requires step.Advance? ==> PcOf(w, step.actor).IssueTrim?
    requires HasStatus(w, id, VerdictOf(event)) && !SaveInFlight(w, id, Rival(event))
    ensures HasStatus(Apply(w, step), id, VerdictOf(event)) && !SaveInFlight(Apply(w, step), id, Rival(event))
  {
    hide ContinueOnlineIssue, ContinueFlush, ContinueSettle, ActorOk, QueuesOk, PublishedOk;
    assert step.BeginIssue? ==> id != step.id by { assert RecordOk(w, id); }
    var v := Apply(w, step);
    assert forall b :: PcOf(v, b).SettleSave? ==> PcOf(v, b) == PcOf(w, b);
  }

  lemma VerdictAdvance(w: World, a: Actor, ok: bool, event: Event)
    requires LocalOk(w, a) && RecordOk(w, Focus(w, a)) && (event == Ack || event == Timeout)
    requires HasStatus(w, Focus(w, a), VerdictOf(event)) && !SaveInFlight(w, Focus(w, a), Rival(event))
    ensures HasStatus(Continue(w, a, ok), Focus(w, a), VerdictOf(event))
  {
    assert !Saves(PcOf(w, a), Focus(w, a), Rival(event));
  }

  lemma NoNewRival(w: World, a: Actor, ok: bool, id: CommandId, event: Event)
    requires LocalOk(w, a) && (event == Ack || event == Timeout) && HasStatus(w, id, VerdictOf(event))
    ensures !Saves(PcOf(Continue(w, a, ok), a), id, Rival(event))
  {
  }

  lemma RivalOverwrites(w: World, a: Actor, id: CommandId, event: Event)
    requires Inv(w) && (event == Ack || event == Timeout) && Saves(PcOf(w, a), id, Rival(event))
    ensures !HasStatus(Continue(w, a, true), id, VerdictOf(event))
  {
    hide ContinueOnlineIssue, ContinueOfflineIssue, ContinueFlush;
    assert ActorOk(w, a);
  }

  lemma {:induction false} VerdictStays(w: World, run: seq<Step>, id: CommandId, event: Event)
    requires Good(w) && ValidRun(w, run) && RecordExpires(id) !in run && (event == Ack || event == Timeout)
    requires HasStatus(w, id, VerdictOf(event)) && !SaveInFlight(w, id, Rival(event))
    ensures HasStatus(RunFrom(w, run), id, VerdictOf(event))
    decreases |run|
  {
    if run != [] {
      VerdictStep(w, run[0], id, event);
      GoodStep(w, run[0]);
      VerdictStays(Apply(w, run[0]), run[1..], id, event);
    }
  }

  /** A verdict can still be overwritten, in some continuation in which the record does not expire, if and only if the
      other verdict is between its load and its save of that command. */
  lemma VerdictOverwrittenIff(w: World, id: CommandId, event: Event)
    requires Reachable(w) && (event == Ack || event == Timeout) && HasStatus(w, id, VerdictOf(event))
    ensures (exists run :: && ValidRun(w, run) && RecordExpires(id) !in run
                           && !HasStatus(RunFrom(w, run), id, VerdictOf(event)))
            <==> SaveInFlight(w, id, Rival(event))
  {
    hide Continue, Inv, Faithful, InCustody;
    ReachableGood(w);
    if SaveInFlight(w, id, Rival(event)) {
      var a :| Saves(PcOf(w, a), id, Rival(event));
      RivalOverwrites(w, a, id, event);
      var run := [Advance(a, true)];
      assert Enabled(w, run[0]) && run[1..] == [];
      assert ValidRun(Apply(w, run[0]), run[1..]);
      assert RunFrom(w, run) == RunFrom(Apply(w, run[0]), run[1..]) == Continue(w, a, true);
      assert ValidRun(w, run) && RecordExpires(id) !in run && !HasStatus(RunFrom(w, run), id, VerdictOf(event));
    } else {
      forall run | ValidRun(w, run) && RecordExpires(id) !in run
          ensures HasStatus(RunFrom(w, run), id, VerdictOf(event)) {
        VerdictStays(w, run, id, event);
      }
    }
  }

  /** A CONFIRMED command can still be downgraded if and only if an ACK timer is between its load and its save. */
  lemma ConfirmedDowngradedIff(w: World, id: CommandId)
    requires Reachable(w) && HasStatus(w, id, Confirmed)
    ensures (exists run :: ValidRun(w, run) && RecordExpires(id) !in run && !HasStatus(RunFrom(w, run), id, Confirmed))
            <==> SaveInFlight(w, id, Timeout)
  {
    VerdictOverwrittenIff(w, id, Ack);
  }

  /** An UNACKNOWLEDGED command can still be revived if and only if an acknowledgement is between its load and its
      save. */
  lemma UnacknowledgedRevivedIff(w: World, id: CommandId)
    requires Reachable(w) && HasStatus(w, id, Unacknowledged)
    ensures (exists run :: && ValidRun(w, run) && RecordExpires(id) !in run
                           && !HasStatus(RunFrom(w, run), id, Unacknowledged))
            <==> SaveInFlight(w, id, Ack)
  {
    VerdictOverwrittenIff(w, id, Timeout);
  }

  // ---------------------------------------------------------------- queued commands never time out

  /** The command went through the offline queue, or was lost on its way there. */
  predicate OfflineBorn(w: World, id: CommandId) {
    && id in w.track
    && !w.track[id].Drafted?
    && w.track[id] != Delivered(true)
    && (w.track[id].Publishing? ==> id !in w.pending)
  }

  lemma OfflineBornStep(w: World, step: Step, id: CommandId)
    requires Inv(w) && Enabled(w, step) && OfflineBorn(w, id)
    ensures OfflineBorn(Apply(w, step), id)
  {
    if step.Advance? && !PcOf(w, step.actor).IssueTrim? {
      InvLocal(w, step.actor);
      AdvanceMoves(w, step.actor, step.ok);
      if id == Focus(w, step.actor) {
        OfflineBornAdvance(w, step.actor, step.ok);
      }
    }
  }

  lemma OfflineBornAdvance(w: World, a: Actor, ok: bool)
    requires LocalOk(w, a) && OfflineBorn(w, Focus(w, a))
    ensures OfflineBorn(Continue(w, a, ok), Focus(w, a))
  {
  }

  /** The reconnect flush arms no ACK timer, so a command that was ever QUEUED is never UNACKNOWLEDGED: if the device
      does not answer it stays SENT. */
  lemma QueuedNeverUnacknowledged(w: World, run: seq<Step>, id: CommandId)
    requires Reachable(w) && ValidRun(w, run)
    requires id in w.store.records && w.store.records[id].status == Queued
    ensures
      var v := RunFrom(w, run);
      id in v.store.records ==> v.store.records[id].status != Unacknowledged
  {
    ReachableGood(w);
    assert RecordOk(w, id);
    OfflineBornAlong(w, run, id);
    var v := RunFrom(w, run);
    GoodRun(w, run);
    assert RecordOk(v, id);
  }

  lemma {:induction false} OfflineBornAlong(w: World, run: seq<Step>, id: CommandId)
    requires Good(w) && ValidRun(w, run) && OfflineBorn(w, id)
    ensures OfflineBorn(RunFrom(w, run), id)
    decreases |run|
  {
    if run != [] {
      OfflineBornStep(w, run[0], id);
      GoodStep(w, run[0]);
      OfflineBornAlong(Apply(w, run[0]), run[1..], id);
    }
  }

  // ---------------------------------------------------------------- extending runs, and commands lost for good

  lemma {:induction false} RunThenStep(w: World, run: seq<Step>, step: Step)
    requires ValidRun(w, run) && Enabled(RunFrom(w, run), step)
    ensures ValidRun(w, run + [step]) && RunFrom(w, run + [step]) == Apply(RunFrom(w, run), step)
    decreases |run|
  {
    if run == [] {
      var v := Apply(w, step);
      assert ([] + [step])[1..] == [];
      assert ValidRun(v, []) && RunFrom(v, []) == v;
    } else {
      assert (run + [step])[1..] == run[1..] + [step];
      RunThenStep(Apply(w, run[0]), run[1..], step);
    }
  }

  lemma StepThenRun(w: World, step: Step, run: seq<Step>)
    requires Enabled(w, step) && ValidRun(Apply(w, step), run)
    ensures ValidRun(w, [step] + run) && RunFrom(w, [step] + run) == RunFrom(Apply(w, step), run)
  {
    hide Apply, Enabled;
    assert ([step] + run)[1..] == run;
  }

  lemma ReachableStep(w: World, step: Step)
    requires Reachable(w) && Enabled(w, step)
    ensures Reachable(Apply(w, step))
  {
    var run :| ValidRun(START, run) && RunFrom(START, run) == w;
    RunThenStep(START, run, step);
  }

  lemma ReachableStart()
    ensures Reachable(START)
  {
    assert ValidRun(START, []) && RunFrom(START, []) == START;
  }

  /** A lost command stays lost: no continuation publishes it or puts it back in a queue. */
  lemma {:induction false} LostForever(w: World, run: seq<Step>, id: CommandId)
    requires Good(w) && ValidRun(w, run) && IsLost(w, id)
    ensures
      var v := RunFrom(w, run);
      IsLost(v, id) && !IsPublished(v, id) && !InSomeQueue(v, id)
    decreases |run|
  {
    if run == [] {
      assert !WasPublished(w, id);
      forall d ensures id !in QueueOf(w.store, d) {
        assert !TrackIs(w, id, Waiting(d));
      }
    } else {
      var step := run[0];
      if step.Advance? && !PcOf(w, step.actor).IssueTrim? {
        InvLocal(w, step.actor);
        AdvanceMoves(w, step.actor, step.ok);
      }
      assert IsLost(Apply(w, step), id);
      GoodStep(w, step);
      LostForever(Apply(w, step), run[1..], id);
    }
  }
}
