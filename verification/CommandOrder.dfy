/** Delivery order: what one flush at a time guarantees, and what two flushes of the same device can do. */
module CommandOrder {
  import opened Prelude
  import opened Commands
  import opened CommandRuns
  import opened CommandSafety
  import opened CommandRefinement
  import opened CommandRaces
  import opened CommandDelivery

  predicate Flushes(pc: Pc, d: DeviceId) {
    InFlush(pc) && pc.device == d
  }

  /** At most one flush of the device is running. */
  ghost predicate OneFlush(w: World, d: DeviceId) {
    forall a, b :: Flushes(PcOf(w, a), d) && Flushes(PcOf(w, b), d) ==> a == b
  }

  ghost predicate OneFlushAlong(w: World, run: seq<Step>, d: DeviceId)
    requires ValidRun(w, run)
    decreases |run|
  {
    OneFlush(w, d) && (run != [] ==> OneFlushAlong(Apply(w, run[0]), run[1..], d))
  }

  ghost predicate Precedes(xs: seq<CommandId>, x: CommandId, y: CommandId) {
    exists i, j :: 0 <= i < j < |xs| && xs[i] == x && xs[j] == y
  }

  /** The actor has popped the command from the device's queue and not yet published it. */
  predicate InHand(pc: Pc, d: DeviceId, id: CommandId) {
    (pc.FlushLoad? || pc.FlushPublish?) && pc.device == d && pc.id == id
  }

  /** `x` is ahead of `y`: in the queue, in the hands of the flush while `y` still waits, or on the wire. */
  ghost predicate InOrder(w: World, d: DeviceId, x: CommandId, y: CommandId) {
    || Precedes(QueueOf(w.store, d), x, y)
    || (y in QueueOf(w.store, d) && exists a :: InHand(PcOf(w, a), d, x))
    || (IsPublished(w, x) && (IsPublished(w, y) ==> Precedes(IdsOf(w.store.published), x, y)))
    || IsLost(w, x) || IsLost(w, y)
  }

  // ---------------------------------------------------------------- lists

  lemma PrecedesFront(xs: seq<CommandId>, ys: seq<CommandId>, x: CommandId, y: CommandId)
    requires Precedes(xs, x, y)
    ensures Precedes(xs + ys, x, y)
  {
    var i, j :| 0 <= i < j < |xs| && xs[i] == x && xs[j] == y;
    assert (xs + ys)[i] == x && (xs + ys)[j] == y;
  }

  lemma PrecedesLast(xs: seq<CommandId>, x: CommandId, y: CommandId)
    requires x in xs
    ensures Precedes(xs + [y], x, y)
  {
    var i :| 0 <= i < |xs| && xs[i] == x;
    assert (xs + [y])[i] == x && (xs + [y])[|xs|] == y;
  }

  lemma PrecedesRest(xs: seq<CommandId>, n: nat, x: CommandId, y: CommandId)
    requires Distinct(xs) && Precedes(xs, x, y) && n <= |xs| && x !in xs[..n]
    ensures Precedes(xs[n..], x, y)
  {
    var i, j :| 0 <= i < j < |xs| && xs[i] == x && xs[j] == y;
    assert forall k :: 0 <= k < n ==> xs[..n][k] == xs[k];
    assert xs[n..][i - n] == x && xs[n..][j - n] == y;
  }

  lemma PrecedesMembers(xs: seq<CommandId>, x: CommandId, y: CommandId)
    requires Precedes(xs, x, y)
    ensures x in xs && y in xs
  {
  }

  // ---------------------------------------------------------------- one step

  /** What a step does to one device's queue: nothing, a push behind, a pop in front by one of its flushes, or a loss of
      the oldest entries. */
  ghost predicate QueueMoves(w: World, v: World, d: DeviceId) {
    var q, r := QueueOf(w.store, d), QueueOf(v.store, d);
    || r == q
    || (exists id :: r == q + [id])
    || (q != [] && r == q[1..] && exists a :: PcOf(w, a) == FlushPop(d) && PcOf(v, a) == FlushLoad(d, q[0]))
    || (exists n: nat :: n <= |q| && r == q[n..] && forall id :: id in q[..n] ==> IsLost(v, id))
  }

  lemma DropMoves(w: World, d: DeviceId, n: nat, e: DeviceId)
    requires QueuesOk(w) && n <= |QueueOf(w.store, d)|
    ensures QueueMoves(w, DropOldest(w, d, n), e)
  {
    var q, v := QueueOf(w.store, d), DropOldest(w, d, n);
    if e == d {
      assert QueueOf(v.store, d) == q[n..];
      forall id | id in q[..n] ensures IsLost(v, id) {
        DropLosesExactly(w, d, n, id);
      }
    }
  }

  lemma QueueMovesIgnoresPc(w: World, u: World, v: World, d: DeviceId)
    requires QueueMoves(w, u, d) && v.store == u.store && v.track == u.track
          && (forall a :: PcOf(w, a) == FlushPop(d) ==> PcOf(v, a) == PcOf(u, a))
    ensures QueueMoves(w, v, d)
  {
  }

  lemma TrimMovesQueue(w: World, a: Actor, ok: bool, d: DeviceId)
    requires QueuesOk(w) && PcOf(w, a).IssueTrim?
    ensures QueueMoves(w, Continue(w, a, ok), d)
  {
    hide ContinueOnlineIssue, ContinueFlush, ContinueSettle;
    var v, e := Continue(w, a, ok), PcOf(w, a).body.device;
    if ok {
      var n := |QueueOf(w.store, e)|;
      var u := DropOldest(w, e, n - Min(n, QUEUE_CAP));
      DropMoves(w, e, n - Min(n, QUEUE_CAP), d);
      assert v.store == u.store && v.track == u.track;
      hide QueueMoves, DropOldest;
      assert forall b :: b != a ==> PcOf(v, b) == PcOf(u, b);
      QueueMovesIgnoresPc(w, u, v, d);
    }
  }

  lemma FlushMovesQueue(w: World, a: Actor, ok: bool, d: DeviceId)
    requires InFlush(PcOf(w, a))
    ensures QueueMoves(w, Continue(w, a, ok), d)
  {
    hide ContinueOnlineIssue, ContinueOfflineIssue, ContinueSettle;
    var v, pc := Continue(w, a, ok), PcOf(w, a);
    if ok && pc.FlushPop? && QueueOf(w.store, pc.device) != [] {
      hide NextStatus;
      if pc.device == d {
        assert PcOf(v, a) == FlushLoad(d, QueueOf(w.store, d)[0]);
      }
    } else {
      assert v.store.queues == w.store.queues;
      hide Continue, QueueMoves;
      SameQueue(w, v, d);
    }
  }

  lemma PushMovesQueue(w: World, a: Actor, ok: bool, d: DeviceId)
    requires PcOf(w, a).IssuePush?
    ensures QueueMoves(w, Continue(w, a, ok), d)
  {
    hide ContinueOnlineIssue, ContinueFlush, ContinueSettle;
    if ok && PcOf(w, a).body.device == d {
      assert QueueOf(Continue(w, a, ok).store, d) == QueueOf(w.store, d) + [PcOf(w, a).id];
    }
  }

  lemma OtherCallKeepsQueues(w: World, a: Actor, ok: bool)
    requires !InFlush(PcOf(w, a)) && !PcOf(w, a).IssuePush? && !PcOf(w, a).IssueTrim?
    ensures Continue(w, a, ok).store.queues == w.store.queues
  {
    hide ContinueFlush;
  }

  lemma CallMovesQueue(w: World, a: Actor, ok: bool, d: DeviceId)
    requires !PcOf(w, a).IssueTrim?
    ensures QueueMoves(w, Continue(w, a, ok), d)
  {
    hide Continue, QueueMoves;
    if InFlush(PcOf(w, a)) {
      FlushMovesQueue(w, a, ok, d);
    } else if PcOf(w, a).IssuePush? {
      PushMovesQueue(w, a, ok, d);
    } else {
      OtherCallKeepsQueues(w, a, ok);
      SameQueue(w, Continue(w, a, ok), d);
    }
  }

  lemma StepMovesQueue(w: World, step: Step, d: DeviceId)
    requires Inv(w) && Enabled(w, step)
    ensures QueueMoves(w, Apply(w, step), d)
  {
    hide Continue, DropOldest, ActorOk, PublishedOk, QueueMoves;
    match step {
      case QueueExpires(e) => DropMoves(w, e, |QueueOf(w.store, e)|, d);
      case Advance(a, ok) =>
        if PcOf(w, a).IssueTrim? {
          TrimMovesQueue(w, a, ok, d);
        } else {
          CallMovesQueue(w, a, ok, d);
        }
      case _ => SameQueue(w, Apply(w, step), d);
    }
  }

  lemma SameQueue(w: World, v: World, d: DeviceId)
    requires v.store.queues == w.store.queues
    ensures QueueMoves(w, v, d)
  {
  }

  /** A step appends at most one message. */
  lemma StepMovesLog(w: World, step: Step)
    requires Enabled(w, step)
    ensures
      var (xs, ys) := (IdsOf(w.store.published), IdsOf(Apply(w, step).store.published));
      ys == xs || exists id :: ys == xs + [id]
  {
    if step.Advance? {
      CallMovesLog(w, step.actor, step.ok);
    } else {
      hide Continue;
    }
  }

  lemma LogMoves(w: World, v: World)
    requires v.store.published == w.store.published
          || exists m :: v.store.published == w.store.published + [m]
    ensures
      var (xs, ys) := (IdsOf(w.store.published), IdsOf(v.store.published));
      ys == xs || exists id :: ys == xs + [id]
  {
    if m :| v.store.published == w.store.published + [m] {
      assert IdsOf(v.store.published) == IdsOf(w.store.published) + [m.id];
    }
  }

  lemma FlushMovesLog(w: World, a: Actor, ok: bool)
    requires InFlush(PcOf(w, a))
    ensures
      var v := Continue(w, a, ok);
      v.store.published == w.store.published || exists m :: v.store.published == w.store.published + [m]
  {
    hide ContinueOnlineIssue, ContinueOfflineIssue, ContinueSettle, MessageOf;
  }

  lemma OtherMovesLog(w: World, a: Actor, ok: bool)
    requires !InFlush(PcOf(w, a))
    ensures
      var v := Continue(w, a, ok);
      v.store.published == w.store.published || exists m :: v.store.published == w.store.published + [m]
  {
    hide ContinueFlush, MessageOf, DropOldest;
    if PcOf(w, a).IssueTrim? {
      TrimKeepsLog(w, a, ok);
    }
  }

  lemma TrimKeepsLog(w: World, a: Actor, ok: bool)
    requires PcOf(w, a).IssueTrim?
    ensures Continue(w, a, ok).store.published == w.store.published
  {
    hide ContinueFlush, ContinueOnlineIssue, ContinueSettle;
  }

  lemma CallMovesLog(w: World, a: Actor, ok: bool)
    ensures
      var (xs, ys) := (IdsOf(w.store.published), IdsOf(Continue(w, a, ok).store.published));
      ys == xs || exists id :: ys == xs + [id]
  {
    hide Continue, IdsOf;
    if InFlush(PcOf(w, a)) {
      FlushMovesLog(w, a, ok);
    } else {
      OtherMovesLog(w, a, ok);
    }
    LogMoves(w, Continue(w, a, ok));
  }

  /** A flush that holds a command keeps holding it until it publishes or loses it. */
  lemma HandMoves(w: World, step: Step, a: Actor, d: DeviceId, id: CommandId)
    requires Inv(w) && Enabled(w, step) && InHand(PcOf(w, a), d, id)
    ensures
      var v := Apply(w, step);
      InHand(PcOf(v, a), d, id) || IsPublished(v, id) || IsLost(v, id)
  {
    hide ContinueOnlineIssue, ContinueOfflineIssue, ContinueSettle, QueuesOk, PublishedOk, DropOldest;
    assert ActorOk(w, a);
    if step == Advance(a, true) || step == Advance(a, false) {
      var v := Apply(w, step);
      if PcOf(w, a).FlushPublish? && step.ok {
        assert IdsOf(v.store.published)[|w.store.published|] == id;
      }
    } else {
      OtherPcStays(w, step, a);
    }
  }

  lemma OtherPcStays(w: World, step: Step, a: Actor)
    requires Enabled(w, step) && PcOf(w, a) != Idle && !(step.Advance? && step.actor == a)
    ensures PcOf(Apply(w, step), a) == PcOf(w, a)
  {
    hide Continue;
    if step.Advance? {
      OtherCallKeepsPc(w, step.actor, step.ok, a);
    }
  }

  lemma OtherCallKeepsPc(w: World, b: Actor, ok: bool, a: Actor)
    requires a != b
    ensures PcOf(Continue(w, b, ok), a) == PcOf(w, a)
  {
    hide ContinueOnlineIssue, ContinueOfflineIssue, ContinueFlush, ContinueSettle;
    var pc := PcOf(w, b);
    if InOnlineIssue(pc) {
      OnlineIssueKeepsPc(w, b, pc, ok, a);
    } else if InOfflineIssue(pc) {
      OfflineIssueKeepsPc(w, b, pc, ok, a);
    } else if InFlush(pc) {
      FlushKeepsPc(w, b, pc, ok, a);
    } else {
      SettleKeepsPc(w, b, pc, ok, a);
    }
  }

  lemma OnlineIssueKeepsPc(w: World, b: Actor, pc: Pc, ok: bool, a: Actor)
    requires InOnlineIssue(pc) && a != b
    ensures PcOf(ContinueOnlineIssue(w, b, pc, ok), a) == PcOf(w, a)
  {
  }

  lemma OfflineIssueKeepsPc(w: World, b: Actor, pc: Pc, ok: bool, a: Actor)
    requires InOfflineIssue(pc) && a != b
    ensures PcOf(ContinueOfflineIssue(w, b, pc, ok), a) == PcOf(w, a)
  {
  }

  lemma FlushKeepsPc(w: World, b: Actor, pc: Pc, ok: bool, a: Actor)
    requires InFlush(pc) && a != b
    ensures PcOf(ContinueFlush(w, b, pc, ok), a) == PcOf(w, a)
  {
  }

  lemma SettleKeepsPc(w: World, b: Actor, pc: Pc, ok: bool, a: Actor)
    requires !(InOnlineIssue(pc) || InOfflineIssue(pc) || InFlush(pc)) && a != b
    ensures PcOf(ContinueSettle(w, b, pc, ok), a) == PcOf(w, a)
  {
  }

  lemma LostStays(w: World, step: Step, id: CommandId)
    requires Inv(w) && Enabled(w, step) && IsLost(w, id)
    ensures IsLost(Apply(w, step), id)
  {
    if step.Advance? && !PcOf(w, step.actor).IssueTrim? {
      InvLocal(w, step.actor);
      AdvanceMoves(w, step.actor, step.ok);
      hide Continue;
    }
  }

  lemma NotYetPublished(w: World, d: DeviceId, id: CommandId)
    requires Inv(w) && id in QueueOf(w.store, d)
    ensures !IsPublished(w, id)
  {
    hide ActorOk;
    assert TrackIs(w, id, Waiting(d));
    assert !WasPublished(w, id);
  }

  // ---------------------------------------------------------------- order is kept

  lemma QueuedOrderStep(w: World, step: Step, d: DeviceId, x: CommandId, y: CommandId)
    requires Inv(w) && Enabled(w, step) && Precedes(QueueOf(w.store, d), x, y)
    ensures InOrder(Apply(w, step), d, x, y)
  {
    var v := Apply(w, step);
    StepMovesQueue(w, step, d);
    var q, r := QueueOf(w.store, d), QueueOf(v.store, d);
    assert Distinct(q);
    hide Apply, Enabled, Inv, Precedes;
    if r == q {
    } else if id :| r == q + [id] {
      PrecedesFront(q, [id], x, y);
    } else if n: nat :| n <= |q| && r == q[n..] && forall id :: id in q[..n] ==> IsLost(v, id) {
      if x !in q[..n] {
        PrecedesRest(q, n, x, y);
      }
    } else {
      var a :| PcOf(w, a) == FlushPop(d) && PcOf(v, a) == FlushLoad(d, q[0]);
      if q[0] == x {
        PopLeavesLater(q, x, y);
        assert InHand(PcOf(v, a), d, x);
      } else {
        assert q[..1] == [q[0]];
        PrecedesRest(q, 1, x, y);
      }
    }
  }

  lemma PopLeavesLater(q: seq<CommandId>, x: CommandId, y: CommandId)
    requires Distinct(q) && Precedes(q, x, y)
    ensures y in q[1..]
  {
    var i, j :| 0 <= i < j < |q| && q[i] == x && q[j] == y;
    assert q[1..][j - 1] == y;
  }

  /** While no flush stands before its next pop, what waits in the queue keeps waiting or is lost. */
  lemma WaitingStays(w: World, step: Step, d: DeviceId, y: CommandId)
    requires Inv(w) && Enabled(w, step) && y in QueueOf(w.store, d) && forall b :: PcOf(w, b) != FlushPop(d)
    ensures y in QueueOf(Apply(w, step).store, d) || IsLost(Apply(w, step), y)
  {
    StepMovesQueue(w, step, d);
    hide Apply, Enabled, Inv;
    var v := Apply(w, step);
    var q, r := QueueOf(w.store, d), QueueOf(v.store, d);
    hide IsLost, QueueOf;
    if n: nat :| n <= |q| && r == q[n..] && forall id :: id in q[..n] ==> IsLost(v, id) {
      MemberSplits(q, n, y);
    }
  }

  lemma MemberSplits(q: seq<CommandId>, n: nat, y: CommandId)
    requires n <= |q| && y in q
    ensures y in q[..n] || y in q[n..]
  {
    assert q == q[..n] + q[n..];
  }

  /** A command not on the wire before the step comes behind every command that was. */
  lemma ArrivesBehind(w: World, step: Step, x: CommandId, y: CommandId)
    requires Enabled(w, step) && !IsPublished(w, y) && x != y
    ensures
      var v := Apply(w, step);
      IsPublished(v, x) && IsPublished(v, y) ==> Precedes(IdsOf(v.store.published), x, y)
  {
    StepMovesLog(w, step);
    hide Apply, Enabled, IdsOf;
    var v := Apply(w, step);
    var xs, ys := IdsOf(w.store.published), IdsOf(v.store.published);
    if IsPublished(v, x) && IsPublished(v, y) {
      var id :| ys == xs + [id];
      PrecedesLast(xs, x, y);
    }
  }

  lemma HeldOrderStep(w: World, step: Step, d: DeviceId, x: CommandId, y: CommandId, a: Actor)
    requires Inv(w) && Enabled(w, step) && OneFlush(w, d) && y in QueueOf(w.store, d) && InHand(PcOf(w, a), d, x)
    requires x != y
    ensures InOrder(Apply(w, step), d, x, y)
  {
    forall b ensures PcOf(w, b) != FlushPop(d) {
      assert Flushes(PcOf(w, a), d);
      assert PcOf(w, b) == FlushPop(d) ==> Flushes(PcOf(w, b), d);
    }
    hide Apply, Enabled, Inv, OneFlush, IsPublished, IsLost, Precedes;
    WaitingStays(w, step, d, y);
    HandMoves(w, step, a, d, x);
    NotYetPublished(w, d, y);
    ArrivesBehind(w, step, x, y);
  }

  lemma PublishedOrderStep(w: World, step: Step, d: DeviceId, x: CommandId, y: CommandId)
    requires Enabled(w, step) && IsPublished(w, x)
    requires IsPublished(w, y) ==> Precedes(IdsOf(w.store.published), x, y)
    ensures InOrder(Apply(w, step), d, x, y)
  {
    StepMovesLog(w, step);
    var v := Apply(w, step);
    var xs, ys := IdsOf(w.store.published), IdsOf(v.store.published);
    hide Apply, Enabled, IdsOf, Precedes;
    if ys != xs {
      var id :| ys == xs + [id];
      if y in xs {
        PrecedesFront(xs, [id], x, y);
      } else if id == y {
        PrecedesLast(xs, x, y);
      }
    }
  }

  lemma OrderStep(w: World, step: Step, d: DeviceId, x: CommandId, y: CommandId)
    requires Inv(w) && Enabled(w, step) && OneFlush(w, d) && InOrder(w, d, x, y) && x != y
    ensures InOrder(Apply(w, step), d, x, y)
  {
    hide Apply, Enabled, Inv, OneFlush, Precedes, IsPublished;
    if Precedes(QueueOf(w.store, d), x, y) {
      QueuedOrderStep(w, step, d, x, y);
    } else if IsLost(w, x) {
      LostStays(w, step, x);
    } else if IsLost(w, y) {
      LostStays(w, step, y);
    } else if IsPublished(w, x) && (IsPublished(w, y) ==> Precedes(IdsOf(w.store.published), x, y)) {
      PublishedOrderStep(w, step, d, x, y);
    } else {
      var a :| InHand(PcOf(w, a), d, x);
      HeldOrderStep(w, step, d, x, y, a);
    }
  }

  lemma {:induction false} OrderAlong(w: World, run: seq<Step>, d: DeviceId, x: CommandId, y: CommandId)
    requires Inv(w) && ValidRun(w, run) && OneFlushAlong(w, run, d) && InOrder(w, d, x, y) && x != y
    ensures Inv(RunFrom(w, run)) && InOrder(RunFrom(w, run), d, x, y)
    decreases |run|
  {
    hide Inv, InOrder, OneFlush;
    if run != [] {
      OrderStep(w, run[0], d, x, y);
      InvStep(w, run[0]);
      OrderAlong(Apply(w, run[0]), run[1..], d, x, y);
    }
  }

  /** First in, first out: while no two flushes of the device run at once, a command is published only after every
      command that was ahead of it in the queue has been published or lost, whatever else interleaves and whichever
      calls raise. */
  lemma FlushKeepsOrder(w: World, run: seq<Step>, d: DeviceId, x: CommandId, y: CommandId)
    requires Reachable(w) && ValidRun(w, run) && OneFlushAlong(w, run, d) && Precedes(QueueOf(w.store, d), x, y)
    ensures
      var v := RunFrom(w, run);
      IsPublished(v, y) ==> IsLost(v, x) || Precedes(IdsOf(v.store.published), x, y)
  {
    ReachableGood(w);
    assert x != y by {
      var i, j :| 0 <= i < j < |QueueOf(w.store, d)| && QueueOf(w.store, d)[i] == x && QueueOf(w.store, d)[j] == y;
      assert Distinct(QueueOf(w.store, d));
    }
    OrderAlong(w, run, d, x, y);
    var v := RunFrom(w, run);
    hide ValidRun, RunFrom, OneFlushAlong;
    if Precedes(QueueOf(v.store, d), x, y) {
      PrecedesMembers(QueueOf(v.store, d), x, y);
    }
    if y in QueueOf(v.store, d) {
      NotYetPublished(v, d, y);
    }
    if IsLost(v, y) {
      assert !WasPublished(v, y);
    }
  }

  // ---------------------------------------------------------------- two flushes

  /** Two flushes of one device can overtake each other: the first pops the head and stops there, the second delivers
      the next command. Such a run exists from every state in which the second in the queue reads QUEUED. */
  lemma TwoFlushesOvertake(w: World, d: DeviceId)
    requires Reachable(w) && |QueueOf(w.store, d)| >= 2 && HasStatus(w, QueueOf(w.store, d)[1], Queued)
    ensures
      var (x, y) := (QueueOf(w.store, d)[0], QueueOf(w.store, d)[1]);
      exists run :: ValidRun(w, run) && InAFlush(RunFrom(w, run), x)
                 && !IsPublished(RunFrom(w, run), x) && IsPublished(RunFrom(w, run), y)
  {
    hide Continue, ValidRun, RunFrom, IsPublished, InAFlush;
    var a := Unused(w.actors);
    var w1 := Apply(w, BeginFlush(a, d));
    var w2 := HeadTaken(w, a, d);
    var run := Overtakes(w2, a, d, QueueOf(w.store, d)[0]);
    StepThenRun(w1, Advance(a, true), run);
    StepThenRun(w, BeginFlush(a, d), [Advance(a, true)] + run);
  }

  /** A flush begins and pops the head of the queue. */
  lemma HeadTaken(w: World, a: Actor, d: DeviceId) returns (v: World)
    requires Reachable(w) && a !in w.actors && QueueOf(w.store, d) != []
    ensures
      var begun := Apply(w, BeginFlush(a, d));
      && Enabled(begun, Advance(a, true)) && v == Apply(begun, Advance(a, true)) && Reachable(v)
      && PcOf(v, a) == FlushLoad(d, QueueOf(w.store, d)[0]) && QueueOf(v.store, d) == QueueOf(w.store, d)[1..]
      && v.store.records == w.store.records
  {
    hide Continue;
    var begun := Apply(w, BeginFlush(a, d));
    ReachableStep(w, BeginFlush(a, d));
    PopTakes(begun, a, d);
    v := Continue(begun, a, true);
    ReachableStep(begun, Advance(a, true));
  }

  /** A second flush delivers the head of the queue while the first holds on to the command it popped. */
  lemma Overtakes(w: World, a: Actor, d: DeviceId, x: CommandId) returns (run: seq<Step>)
    requires Reachable(w) && PcOf(w, a) == FlushLoad(d, x)
    requires QueueOf(w.store, d) != [] && HasStatus(w, QueueOf(w.store, d)[0], Queued)
    ensures ValidRun(w, run) && InAFlush(RunFrom(w, run), x)
    ensures !IsPublished(RunFrom(w, run), x) && IsPublished(RunFrom(w, run), QueueOf(w.store, d)[0])
  {
    hide Continue, ValidRun, RunFrom;
    var b := Unused(w.actors);
    var begun := Apply(w, BeginFlush(b, d));
    ReachableStep(w, BeginFlush(b, d));
    var calls := [true, true, true];
    DeliversNext(begun, b, d);
    AloneIsRun(begun, b, calls);
    HandStays(begun, b, a, calls);
    ReachableAlone(begun, b, calls);
    NotPublishedInHand(AdvanceAll(begun, b, calls), a, d, x);
    StepThenRun(w, BeginFlush(b, d), AloneRun(begun, b, calls));
    run := [BeginFlush(b, d)] + AloneRun(begun, b, calls);
  }

  /** Two QUEUED commands do come to stand in one queue, so the order can break. */
  lemma OrderCanBreak()
    ensures exists w, x, y ::
              Reachable(w) && Precedes(QueueOf(w.store, 0), x, y)
              && exists run :: ValidRun(w, run) && IsPublished(RunFrom(w, run), y)
                            && InAFlush(RunFrom(w, run), x) && !IsPublished(RunFrom(w, run), x)
  {
    hide ValidRun, RunFrom;
    ReachableStart();
    var one := IssuedOffline(START, 0);
    var y := Unused(one.track);
    var w := IssuedOffline(one, y);
    assert QueueOf(w.store, 0) == [0, y];
    assert QueueOf(w.store, 0)[0] == 0 && QueueOf(w.store, 0)[1] == y && Precedes(QueueOf(w.store, 0), 0, y);
    TwoFlushesOvertake(w, 0);
  }

  lemma PopTakes(w: World, a: Actor, d: DeviceId)
    requires PcOf(w, a) == FlushPop(d) && QueueOf(w.store, d) != []
    ensures
      var v := Continue(w, a, true);
      && PcOf(v, a) == FlushLoad(d, QueueOf(w.store, d)[0]) && QueueOf(v.store, d) == QueueOf(w.store, d)[1..]
      && v.store.records == w.store.records
  {
    hide ContinueOnlineIssue, ContinueOfflineIssue, ContinueSettle;
  }

  /** Pop, load and publish: the head of the queue goes out. */
  lemma DeliversNext(w: World, a: Actor, d: DeviceId)
    requires PcOf(w, a) == FlushPop(d) && QueueOf(w.store, d) != [] && HasStatus(w, QueueOf(w.store, d)[0], Queued)
    ensures IsPublished(AdvanceAll(w, a, [true, true, true]), QueueOf(w.store, d)[0])
  {
    hide ContinueOnlineIssue, ContinueOfflineIssue, ContinueSettle;
    Three(w, a, true, true, true);
    PopAndLoad(w, a, d);
    var u := Continue(Continue(w, a, true), a, true);
    var v := Continue(u, a, true);
    assert IdsOf(v.store.published)[|u.store.published|] == QueueOf(w.store, d)[0];
  }

  lemma HandStays(w: World, b: Actor, a: Actor, oks: seq<bool>)
    requires Reachable(w) && a != b
    ensures PcOf(AdvanceAll(w, b, oks), a) == PcOf(w, a)
  {
    hide Continue;
    ReachableAlone(w, b, oks);
  }

  lemma NotPublishedInHand(w: World, a: Actor, d: DeviceId, id: CommandId)
    requires Reachable(w) && PcOf(w, a) == FlushLoad(d, id)
    ensures InAFlush(w, id) && !IsPublished(w, id)
  {
    ReachableGood(w);
    assert ActorOk(w, a);
    assert !WasPublished(w, id);
  }
}
