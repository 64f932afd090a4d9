/** Command delivery with every Redis or publish call as one step.

    Any number of actors (API requests issuing commands, listeners flushing and confirming, ACK timers) each hold a
    program counter between calls, and any call may raise. `track`, `pending` and `drafts` are history
    variables: they record what has become of every command id and are never consulted by a step, except that a
    fresh id is one that `track` has not seen. */
module CommandRuns {
  import opened Prelude
  import opened Commands

  type Actor = nat

  datatype Pc =
    | Idle
    // issue_command, online branch
    | IssuePublish(id: CommandId, body: Body, arm: bool)
    | IssueSaveSent(id: CommandId, body: Body, arm: bool)
    | IssueArm(id: CommandId)
    // issue_command, offline branch
    | IssuePush(id: CommandId, body: Body)
    | IssueTrim(id: CommandId, body: Body)
    | IssueExpire(id: CommandId, body: Body)
    | IssueSaveQueued(id: CommandId, body: Body)
    // flush_queued_commands
    | FlushPop(device: DeviceId)
    | FlushLoad(device: DeviceId, id: CommandId)
    | FlushPublish(device: DeviceId, id: CommandId, record: Record)
    | FlushSave(device: DeviceId, id: CommandId, record: Record)
    // confirm_command and expire_command
    | SettleLoad(id: CommandId, event: Event)
    | SettleSave(id: CommandId, event: Event, record: Record)

  datatype Loss = Refused | Evicted | NoRecord | NotQueued | LoadRaised | PublishFailed

  /** What has become of a command id since it was drawn. */
  datatype Track =
    | Drafted(actor: Actor)          // nothing published or queued yet
    | Waiting(device: DeviceId)   // its entry stands in that device's queue
    | Taken(actor: Actor)            // popped by a flush, not yet published
    | Publishing(actor: Actor)       // published, SENT not yet saved
    | Delivered(direct: bool)     // published and saved as SENT; direct when issued online
    | Unsaved                     // published, but saving SENT raised
    | Lost(why: Loss)             // will never be published

  datatype World = World(
    store: Store,
    actors: map<Actor, Pc>,
    track: map<CommandId, Track>,
    pending: map<CommandId, Actor>,   // ids whose issuer has not finished, with that issuer
    drafts: map<CommandId, Body>)     // every command as its issuer drew it up

  datatype Step =
    | BeginIssue(actor: Actor, id: CommandId, req: Request)
    | BeginFlush(actor: Actor, device: DeviceId)
    | BeginConfirm(actor: Actor, id: CommandId)
    | FireTimer(actor: Actor, id: CommandId)
    | Advance(actor: Actor, ok: bool)
    | SetPresence(device: DeviceId, isOnline: bool)
    | RecordExpires(id: CommandId)
    | QueueExpires(device: DeviceId)

  function PcOf(w: World, a: Actor): Pc {
    if a in w.actors then w.actors[a] else Idle
  }

  function Goto(w: World, a: Actor, pc: Pc): World {
    w.(actors := w.actors[a := pc])
  }

  function Mark(w: World, id: CommandId, t: Track): World {
    w.(track := w.track[id := t])
  }

  function Release(w: World, id: CommandId): World {
    w.(pending := w.pending - {id})
  }

  function Save(w: World, id: CommandId, r: Record): World {
    w.(store := w.store.(records := w.store.records[id := r]))
  }

  function Publish(w: World, id: CommandId, body: Body): World {
    w.(store := w.store.(published := w.store.published + [MessageOf(id, body)]))
  }

  /** Drop the first `n` entries of a queue: what LTRIM and key expiry remove. */
  function DropOldest(w: World, d: DeviceId, n: nat): World
    requires n <= |QueueOf(w.store, d)|
  {
    var q := QueueOf(w.store, d);
    w.(store := WithQueue(w.store, d, q[n..]),
       track := map id | id in w.track :: if id in q[..n] then Lost(Evicted) else w.track[id])
  }

  predicate Enabled(w: World, step: Step) {
    match step
    case BeginIssue(a, id, req) => PcOf(w, a) == Idle && id !in w.track && WellFormed(req)
    case BeginFlush(a, d) => PcOf(w, a) == Idle
    case BeginConfirm(a, id) => PcOf(w, a) == Idle
    case FireTimer(a, id) => PcOf(w, a) == Idle && id in w.store.timers
    case Advance(a, ok) => PcOf(w, a) != Idle
    case SetPresence(d, isOnline) => true
    case RecordExpires(id) => true
    case QueueExpires(d) => true
  }

  function Apply(w: World, step: Step): World
    requires Enabled(w, step)
  {
    match step
    case BeginIssue(a, id, req) =>
      var body := BodyOf(req);
      var drawn := Mark(w, id, Drafted(a)).(pending := w.pending[id := a], drafts := w.drafts[id := body]);
      var next := if req.device in w.store.online then IssuePublish(id, body, req.ackTimeout > 0)
                  else IssuePush(id, body);
      Goto(drawn, a, next)
    case BeginFlush(a, d) => Goto(w, a, FlushPop(d))
    case BeginConfirm(a, id) => Goto(w, a, SettleLoad(id, Ack))
    case FireTimer(a, id) =>
      Goto(w.(store := w.store.(timers := w.store.timers - {id})), a, SettleLoad(id, Timeout))
    case Advance(a, ok) => Continue(w, a, ok)
    case SetPresence(d, isOnline) =>
      w.(store := w.store.(online := if isOnline then w.store.online + {d} else w.store.online - {d}))
    case RecordExpires(id) => w.(store := w.store.(records := w.store.records - {id}))
    case QueueExpires(d) => DropOldest(w, d, |QueueOf(w.store, d)|)
  }

  /** Actor `a` makes its next call; `ok` is false when that call raises. */
  function Continue(w: World, a: Actor, ok: bool): World {
    var pc := PcOf(w, a);
    if InOnlineIssue(pc) then ContinueOnlineIssue(w, a, pc, ok)
    else if InOfflineIssue(pc) then ContinueOfflineIssue(w, a, pc, ok)
    else if InFlush(pc) then ContinueFlush(w, a, pc, ok)
    else ContinueSettle(w, a, pc, ok)
  }

  predicate InOnlineIssue(pc: Pc) {
    pc.IssuePublish? || pc.IssueSaveSent? || pc.IssueArm?
  }

  predicate InOfflineIssue(pc: Pc) {
    pc.IssuePush? || pc.IssueTrim? || pc.IssueExpire? || pc.IssueSaveQueued?
  }

  predicate InFlush(pc: Pc) {
    pc.FlushPop? || pc.FlushLoad? || pc.FlushPublish? || pc.FlushSave?
  }

  function ContinueOnlineIssue(w: World, a: Actor, pc: Pc, ok: bool): World
    requires InOnlineIssue(pc)
  {
    match pc
    case IssuePublish(id, body, arm) =>
      if !ok then Goto(Release(Mark(w, id, Lost(Refused)), id), a, Idle)
      else Goto(Mark(Publish(w, id, body), id, Publishing(a)), a, IssueSaveSent(id, body, arm))
    case IssueSaveSent(id, body, arm) =>
      if !ok then Goto(Release(Mark(w, id, Unsaved), id), a, Idle)
      else
        var saved := Mark(Save(w, id, Record(body, Sent)), id, Delivered(true));
        Goto(Release(saved, id), a, if arm then IssueArm(id) else Idle)
    case IssueArm(id) => Goto(w.(store := w.store.(timers := w.store.timers + {id})), a, Idle)
  }

  function ContinueOfflineIssue(w: World, a: Actor, pc: Pc, ok: bool): World
    requires InOfflineIssue(pc)
  {
    match pc
    case IssuePush(id, body) =>
      if !ok then Goto(Release(Mark(w, id, Lost(Refused)), id), a, Idle)
      else
        var pushed := w.(store := WithQueue(w.store, body.device, QueueOf(w.store, body.device) + [id]));
        Goto(Mark(pushed, id, Waiting(body.device)), a, IssueTrim(id, body))
    case IssueTrim(id, body) =>
      if !ok then Goto(Release(w, id), a, Idle)
      else
        var n := |QueueOf(w.store, body.device)|;
        Goto(DropOldest(w, body.device, n - Min(n, QUEUE_CAP)), a, IssueExpire(id, body))
    case IssueExpire(id, body) =>
      if !ok then Goto(Release(w, id), a, Idle) else Goto(w, a, IssueSaveQueued(id, body))
    case IssueSaveQueued(id, body) =>
      if !ok then Goto(Release(w, id), a, Idle)
      else Goto(Release(Save(w, id, Record(body, Queued)), id), a, Idle)
  }

  function ContinueFlush(w: World, a: Actor, pc: Pc, ok: bool): World
    requires InFlush(pc)
  {
    match pc
    case FlushPop(d) =>
      var q := QueueOf(w.store, d);
      if !ok || q == [] then Goto(w, a, Idle)
      else Goto(Mark(w.(store := WithQueue(w.store, d, q[1..])), q[0], Taken(a)), a, FlushLoad(d, q[0]))
    case FlushLoad(d, id) =>
      if !ok then Goto(Mark(w, id, Lost(LoadRaised)), a, Idle)
      else if id !in w.store.records then Goto(Mark(w, id, Lost(NoRecord)), a, FlushPop(d))
      else
        var r := w.store.records[id];
        (match NextStatus(Some(r.status), ReconnectFlush)
         case None => Goto(Mark(w, id, Lost(NotQueued)), a, FlushPop(d))
         case Some(status) => Goto(w, a, FlushPublish(d, id, r.(status := status))))
    case FlushPublish(d, id, r) =>
      if !ok then Goto(Mark(w, id, Lost(PublishFailed)), a, Idle)
      else Goto(Mark(Publish(w, id, r.body), id, Publishing(a)), a, FlushSave(d, id, r))
    case FlushSave(d, id, r) =>
      if !ok then Goto(Mark(w, id, Unsaved), a, Idle)
      else Goto(Mark(Save(w, id, r), id, Delivered(false)), a, FlushPop(d))
  }

  function ContinueSettle(w: World, a: Actor, pc: Pc, ok: bool): World {
    match pc
    case SettleLoad(id, event) =>
      if !ok || id !in w.store.records then Goto(w, a, Idle)
      else
        var r := w.store.records[id];
        (match NextStatus(Some(r.status), event)
         case None => Goto(w, a, Idle)
         case Some(status) => Goto(w, a, SettleSave(id, event, r.(status := status))))
    case SettleSave(id, event, r) => if !ok then Goto(w, a, Idle) else Goto(Save(w, id, r), a, Idle)
    case _ => w
  }

  // ---------------------------------------------------------------- the invariant

  predicate TrackIs(w: World, id: CommandId, t: Track) {
    id in w.track && w.track[id] == t
  }

  predicate IsDelivered(w: World, id: CommandId) {
    id in w.track && w.track[id].Delivered?
  }

  predicate IsPending(w: World, id: CommandId, a: Actor) {
    id in w.pending && w.pending[id] == a
  }

  predicate WentOffline(w: World, id: CommandId) {
    id in w.track && (w.track[id].Waiting? || w.track[id].Taken? || w.track[id].Lost?)
  }

  predicate ActorOk(w: World, a: Actor) {
    match PcOf(w, a)
    case Idle => true
    case IssuePublish(id, _, _) => TrackIs(w, id, Drafted(a)) && IsPending(w, id, a)
    case IssueSaveSent(id, _, _) => TrackIs(w, id, Publishing(a)) && IsPending(w, id, a)
    case IssueArm(id) => TrackIs(w, id, Delivered(true))
    case IssuePush(id, _) => TrackIs(w, id, Drafted(a)) && IsPending(w, id, a)
    case IssueTrim(id, _) => WentOffline(w, id) && IsPending(w, id, a)
    case IssueExpire(id, _) => WentOffline(w, id) && IsPending(w, id, a)
    case IssueSaveQueued(id, _) => WentOffline(w, id) && IsPending(w, id, a)
    case FlushPop(_) => true
    case FlushLoad(_, id) => TrackIs(w, id, Taken(a))
    case FlushPublish(_, id, r) => TrackIs(w, id, Taken(a)) && id !in w.pending && r.status == Sent
    case FlushSave(_, id, r) => TrackIs(w, id, Publishing(a)) && id !in w.pending && r.status == Sent
    case SettleLoad(id, event) => event == Ack || (event == Timeout && TrackIs(w, id, Delivered(true)))
    case SettleSave(id, event, r) =>
      || (event == Ack && IsDelivered(w, id) && r.status == Confirmed)
      || (event == Timeout && TrackIs(w, id, Delivered(true)) && r.status == Unacknowledged)
  }

  predicate RecordOk(w: World, id: CommandId) {
    id in w.store.records ==>
      && id in w.track && id !in w.pending
      && match w.store.records[id].status
         case Queued => !w.track[id].Drafted? && !w.track[id].Delivered?
         case Sent => w.track[id].Delivered?
         case Confirmed => w.track[id].Delivered?
         case Unacknowledged => w.track[id] == Delivered(true)
  }

  function IdsOf(msgs: seq<Message>): seq<CommandId> {
    seq(|msgs|, i requires 0 <= i < |msgs| => msgs[i].id)
  }

  predicate WasPublished(w: World, id: CommandId) {
    id in w.track && (w.track[id].Publishing? || w.track[id].Delivered? || w.track[id] == Unsaved)
  }

  ghost predicate QueuesOk(w: World) {
    && (forall d :: Distinct(QueueOf(w.store, d)))
    && (forall d, id :: id in QueueOf(w.store, d) <==> TrackIs(w, id, Waiting(d)))
  }

  ghost predicate PublishedOk(w: World) {
    && Distinct(IdsOf(w.store.published))
    && (forall id :: id in IdsOf(w.store.published) <==> WasPublished(w, id))
  }

  ghost predicate TimersOk(w: World) {
    forall id :: id in w.store.timers ==> TrackIs(w, id, Delivered(true))
  }

  /** An id whose issuer has not finished writing is not yet delivered. */
  ghost predicate PendingOk(w: World) {
    forall id :: id in w.pending ==> id in w.track && !IsDelivered(w, id)
  }

  ghost predicate Inv(w: World) {
    && (forall a :: ActorOk(w, a))
    && (forall id :: RecordOk(w, id))
    && QueuesOk(w)
    && PublishedOk(w)
    && TimersOk(w)
    && PendingOk(w)
  }

  const START: World := World(Store(map[], map[], {}, {}, []), map[], map[], map[], map[])

  lemma InvInit()
    ensures Inv(START)
  {
  }

  /** A step that draws no command and touches neither queues nor messages keeps the invariant. */
  lemma InvQuiet(w: World, v: World)
    requires Inv(w) && v.track == w.track && v.pending == w.pending
    requires v.store.queues == w.store.queues && v.store.published == w.store.published
    requires v.store.timers <= w.store.timers
    requires forall id :: id in v.store.records ==> id in w.store.records && v.store.records[id] == w.store.records[id]
    requires forall b :: PcOf(v, b) == PcOf(w, b) || ActorOk(v, b)
    ensures Inv(v)
  {
    forall b ensures ActorOk(v, b) {
      assert ActorOk(w, b);
    }
    forall id ensures RecordOk(v, id) {
      assert RecordOk(w, id);
    }
    assert forall d :: QueueOf(v.store, d) == QueueOf(w.store, d);
    forall d, id ensures id in QueueOf(v.store, d) <==> TrackIs(v, id, Waiting(d)) {
      assert id in QueueOf(w.store, d) <==> TrackIs(w, id, Waiting(d));
    }
    forall id ensures id in IdsOf(v.store.published) <==> WasPublished(v, id) {
      assert id in IdsOf(w.store.published) <==> WasPublished(w, id);
    }
    forall id | id in v.store.timers ensures TrackIs(v, id, Delivered(true)) {
      assert TrackIs(w, id, Delivered(true));
    }
  }

  lemma InvBeginIssue(w: World, a: Actor, id: CommandId, req: Request)
    requires Inv(w) && Enabled(w, BeginIssue(a, id, req))
    ensures Inv(Apply(w, BeginIssue(a, id, req)))
  {
    hide Continue, DropOldest, BodyOf;
    var v := Apply(w, BeginIssue(a, id, req));
    forall b ensures ActorOk(v, b) {
      assert ActorOk(w, b);
    }
    forall x ensures RecordOk(v, x) {
      assert RecordOk(w, x);
    }
    assert forall d :: QueueOf(v.store, d) == QueueOf(w.store, d);
    forall d, x ensures x in QueueOf(v.store, d) <==> TrackIs(v, x, Waiting(d)) {
      assert x in QueueOf(w.store, d) <==> TrackIs(w, x, Waiting(d));
    }
    forall x ensures x in IdsOf(v.store.published) <==> WasPublished(v, x) {
      assert x in IdsOf(w.store.published) <==> WasPublished(w, x);
    }
    forall x | x in v.store.timers ensures TrackIs(v, x, Delivered(true)) {
      assert TrackIs(w, x, Delivered(true));
    }
  }

  lemma InvBegin(w: World, step: Step)
    requires Inv(w) && Enabled(w, step) && !step.Advance? && !step.QueueExpires?
    ensures Inv(Apply(w, step))
  {
    hide Continue, DropOldest, BodyOf, Inv;
    if step.BeginIssue? {
      InvBeginIssue(w, step.actor, step.id, step.req);
    } else {
      if step.FireTimer? {
        TimerIsDelivered(w, step.id);
      }
      InvQuiet(w, Apply(w, step));
    }
  }

  lemma TimerIsDelivered(w: World, id: CommandId)
    requires Inv(w) && id in w.store.timers
    ensures TrackIs(w, id, Delivered(true))
  {
  }

  /** Trimming or expiring a queue loses exactly the entries dropped and keeps the invariant. */
  lemma InvDrop(w: World, d: DeviceId, n: nat)
    requires Inv(w) && n <= |QueueOf(w.store, d)|
    ensures Inv(DropOldest(w, d, n))
  {
    var v := DropOldest(w, d, n);
    var q := QueueOf(w.store, d);
    assert q == q[..n] + q[n..];
    forall id | id in q[..n] ensures TrackIs(w, id, Waiting(d)) {
      assert id in QueueOf(w.store, d);
    }
    forall b ensures ActorOk(v, b) {
      assert ActorOk(w, b);
      assert PcOf(v, b) == PcOf(w, b);
    }
    forall id ensures RecordOk(v, id) {
      assert RecordOk(w, id);
    }
    forall e ensures Distinct(QueueOf(v.store, e)) {
      assert Distinct(QueueOf(w.store, e));
    }
    forall e, id ensures id in QueueOf(v.store, e) <==> TrackIs(v, id, Waiting(e)) {
      assert id in QueueOf(w.store, e) <==> TrackIs(w, id, Waiting(e));
      assert id in QueueOf(w.store, d) <==> TrackIs(w, id, Waiting(d));
      if id in q[n..] {
        assert id !in q[..n];
      }
    }
    forall id ensures id in IdsOf(v.store.published) <==> WasPublished(v, id) {
      assert id in IdsOf(w.store.published) <==> WasPublished(w, id);
    }
  }

  /** What stays of the queue is its newer part; the commands that were waiting in the dropped part, and no others, are
      lost as evicted; no other command changes its place. */
  lemma DropLosesExactly(w: World, d: DeviceId, n: nat, id: CommandId)
    requires QueuesOk(w) && n <= |QueueOf(w.store, d)|
    ensures
      var (q, v) := (QueueOf(w.store, d), DropOldest(w, d, n));
      && QueueOf(v.store, d) == q[n..]
      && (id in q[..n] <==> TrackIs(w, id, Waiting(d)) && TrackIs(v, id, Lost(Evicted)))
      && (id !in q[..n] ==> (id in v.track <==> id in w.track) && (id in w.track ==> v.track[id] == w.track[id]))
  {
    var q := QueueOf(w.store, d);
    assert q == q[..n] + q[n..];
    assert id in q <==> TrackIs(w, id, Waiting(d));
  }

  /** What the invariant says about the one call actor `a` makes next. */
  predicate LocalOk(w: World, a: Actor) {
    var pc := PcOf(w, a);
    && !pc.IssueTrim? && pc != Idle
    && ActorOk(w, a)
    && (pc.FlushLoad? || pc.SettleLoad? || pc.SettleSave? || pc.FlushSave? ==> RecordOk(w, pc.id))
    && (pc.FlushPop? && QueueOf(w.store, pc.device) != [] ==>
          TrackIs(w, QueueOf(w.store, pc.device)[0], Waiting(pc.device)))
  }

  lemma InvLocal(w: World, a: Actor)
    requires Inv(w) && !PcOf(w, a).IssueTrim? && PcOf(w, a) != Idle
    ensures LocalOk(w, a)
  {
    var pc := PcOf(w, a);
    assert ActorOk(w, a);
    if pc.FlushLoad? || pc.SettleLoad? || pc.SettleSave? || pc.FlushSave? {
      assert RecordOk(w, pc.id);
    }
    if pc.FlushPop? && QueueOf(w.store, pc.device) != [] {
      assert QueueOf(w.store, pc.device)[0] in QueueOf(w.store, pc.device);
    }
  }

  /** The command the next call of actor `a` is about. */
  function Focus(w: World, a: Actor): CommandId {
    match PcOf(w, a)
    case Idle => 0
    case FlushPop(d) => if QueueOf(w.store, d) == [] then 0 else QueueOf(w.store, d)[0]
    case IssuePublish(id, _, _) => id
    case IssueSaveSent(id, _, _) => id
    case IssueArm(id) => id
    case IssuePush(id, _) => id
    case IssueTrim(id, _) => id
    case IssueExpire(id, _) => id
    case IssueSaveQueued(id, _) => id
    case FlushLoad(_, id) => id
    case FlushPublish(_, id, _) => id
    case FlushSave(_, id, _) => id
    case SettleLoad(id, _) => id
    case SettleSave(id, _, _) => id
  }

  predicate LegalMove(before: Track, after: Track, a: Actor) {
    || after == before
    || (before == Drafted(a) && (after == Publishing(a) || after.Waiting? || after.Lost?))
    || (before == Publishing(a) && (after.Delivered? || after == Unsaved))
    || (before.Waiting? && after == Taken(a))
    || (before == Taken(a) && (after == Publishing(a) || after.Lost?))
  }

  /** The shape of every call of actor `a`: one program counter, one command. */
  ghost predicate Moves(w: World, v: World, a: Actor, id: CommandId) {
    && v.drafts == w.drafts && v.store.online == w.store.online
    && v.actors == w.actors[a := PcOf(v, a)]
    && v.track.Keys == w.track.Keys
    && (forall x :: x in w.track && x != id ==> v.track[x] == w.track[x])
    && (id in w.track ==> LegalMove(w.track[id], v.track[id], a))
    && (v.pending == w.pending || (IsPending(w, id, a) && v.pending == w.pending - {id}))
    && (TrackIs(w, id, Taken(a)) && TrackIs(v, id, Publishing(a)) ==> id !in w.pending)
    && (forall x :: x != id ==> (x in v.store.records <==> x in w.store.records))
    && (forall x :: x != id && x in w.store.records ==> v.store.records[x] == w.store.records[x])
  }

  lemma OnlineIssueMoves(w: World, a: Actor, ok: bool)
    requires LocalOk(w, a) && InOnlineIssue(PcOf(w, a))
    ensures Moves(w, Continue(w, a, ok), a, Focus(w, a))
  {
    hide ContinueOfflineIssue, ContinueFlush, ContinueSettle;
  }

  lemma OfflineIssueMoves(w: World, a: Actor, ok: bool)
    requires LocalOk(w, a) && InOfflineIssue(PcOf(w, a))
    ensures Moves(w, Continue(w, a, ok), a, Focus(w, a))
  {
    hide ContinueOnlineIssue, ContinueFlush, ContinueSettle;
  }

  lemma PopMoves(w: World, a: Actor, ok: bool)
    requires LocalOk(w, a) && (PcOf(w, a).FlushPop? || PcOf(w, a).FlushLoad?)
    ensures Moves(w, Continue(w, a, ok), a, Focus(w, a))
  {
    hide ContinueOnlineIssue, ContinueOfflineIssue, ContinueSettle;
  }

  lemma SendMoves(w: World, a: Actor, ok: bool)
    requires LocalOk(w, a) && (PcOf(w, a).FlushPublish? || PcOf(w, a).FlushSave?)
    ensures Moves(w, Continue(w, a, ok), a, Focus(w, a))
  {
    hide ContinueOnlineIssue, ContinueOfflineIssue, ContinueSettle;
  }

  lemma FlushMoves(w: World, a: Actor, ok: bool)
    requires LocalOk(w, a) && InFlush(PcOf(w, a))
    ensures Moves(w, Continue(w, a, ok), a, Focus(w, a))
  {
    hide Continue, LocalOk, Moves;
    if PcOf(w, a).FlushPop? || PcOf(w, a).FlushLoad? {
      PopMoves(w, a, ok);
    } else {
      SendMoves(w, a, ok);
    }
  }

  lemma AdvanceMoves(w: World, a: Actor, ok: bool)
    requires LocalOk(w, a)
    ensures Moves(w, Continue(w, a, ok), a, Focus(w, a))
  {
    if InOnlineIssue(PcOf(w, a)) {
      OnlineIssueMoves(w, a, ok);
    } else if InOfflineIssue(PcOf(w, a)) {
      OfflineIssueMoves(w, a, ok);
    } else if InFlush(PcOf(w, a)) {
      FlushMoves(w, a, ok);
    }
  }

  lemma FlushSelf(w: World, a: Actor, ok: bool)
    requires LocalOk(w, a) && InFlush(PcOf(w, a))
    ensures ActorOk(Continue(w, a, ok), a)
  {
    hide ContinueOnlineIssue, ContinueOfflineIssue, ContinueSettle;
  }

  lemma AdvanceSelf(w: World, a: Actor, ok: bool)
    requires LocalOk(w, a)
    ensures ActorOk(Continue(w, a, ok), a)
  {
    if InFlush(PcOf(w, a)) {
      FlushSelf(w, a, ok);
    }
  }

  lemma FlushRecord(w: World, a: Actor, ok: bool)
    requires LocalOk(w, a) && RecordOk(w, Focus(w, a)) && InFlush(PcOf(w, a))
    ensures RecordOk(Continue(w, a, ok), Focus(w, a))
  {
    hide ContinueOnlineIssue, ContinueOfflineIssue, ContinueSettle;
  }

  lemma AdvanceRecord(w: World, a: Actor, ok: bool)
    requires LocalOk(w, a) && PendingOk(w) && RecordOk(w, Focus(w, a))
    ensures RecordOk(Continue(w, a, ok), Focus(w, a))
  {
    if InFlush(PcOf(w, a)) {
      FlushRecord(w, a, ok);
    }
  }

  lemma MoveKeepsOther(w: World, v: World, a: Actor, id: CommandId, b: Actor)
    requires Moves(w, v, a, id) && b != a && ActorOk(w, b) && PendingOk(w)
    ensures ActorOk(v, b)
  {
    assert PcOf(v, b) == PcOf(w, b);
  }

  lemma AdvanceTimers(w: World, a: Actor, ok: bool)
    requires LocalOk(w, a) && TimersOk(w) && PendingOk(w)
    ensures TimersOk(Continue(w, a, ok)) && PendingOk(Continue(w, a, ok))
  {
    var v := Continue(w, a, ok);
    var id := Focus(w, a);
    AdvanceMoves(w, a, ok);
    assert v.store.timers <= w.store.timers + {id};
    assert id in v.store.timers && id !in w.store.timers ==> TrackIs(w, id, Delivered(true));
    assert IsDelivered(v, id) && id in v.pending ==> IsDelivered(w, id);
    forall x | x in v.store.timers ensures TrackIs(v, x, Delivered(true)) {
      assert x in w.store.timers ==> TrackIs(w, x, Delivered(true));
    }
  }

  lemma AdvanceQueues(w: World, a: Actor, ok: bool)
    requires LocalOk(w, a) && QueuesOk(w)
    ensures QueuesOk(Continue(w, a, ok))
  {
    hide QueuesOk, RecordOk;
    AdvanceMoves(w, a, ok);
    if InFlush(PcOf(w, a)) {
      FlushQueues(w, a, ok);
    } else if InOfflineIssue(PcOf(w, a)) {
      OfflineIssueQueues(w, a, ok);
    } else {
      hide ContinueOfflineIssue, ContinueFlush, Moves;
      QueuesStay(w, Continue(w, a, ok), a, Focus(w, a));
    }
  }

  lemma FlushQueues(w: World, a: Actor, ok: bool)
    requires LocalOk(w, a) && QueuesOk(w) && InFlush(PcOf(w, a)) && Moves(w, Continue(w, a, ok), a, Focus(w, a))
    ensures QueuesOk(Continue(w, a, ok))
  {
    hide ContinueOnlineIssue, ContinueOfflineIssue, ContinueSettle, QueuesOk, Moves, RecordOk;
    var v, pc := Continue(w, a, ok), PcOf(w, a);
    if ok && pc.FlushPop? && QueueOf(w.store, pc.device) != [] {
      QueueLosesHead(w, v, Focus(w, a), pc.device, Taken(a));
    } else {
      QueuesStay(w, v, a, Focus(w, a));
    }
  }

  lemma OfflineIssueQueues(w: World, a: Actor, ok: bool)
    requires LocalOk(w, a) && QueuesOk(w) && InOfflineIssue(PcOf(w, a)) && Moves(w, Continue(w, a, ok), a, Focus(w, a))
    ensures QueuesOk(Continue(w, a, ok))
  {
    hide ContinueOnlineIssue, ContinueFlush, ContinueSettle, QueuesOk, Moves, RecordOk;
    var v, pc := Continue(w, a, ok), PcOf(w, a);
    if ok && pc.IssuePush? {
      QueueGains(w, v, Focus(w, a), pc.body.device);
    } else {
      QueuesStay(w, v, a, Focus(w, a));
    }
  }

  lemma QueuesStay(w: World, v: World, a: Actor, id: CommandId)
    requires QueuesOk(w) && Moves(w, v, a, id) && v.store.queues == w.store.queues
    requires id in w.track ==> (v.track[id].Waiting? <==> w.track[id].Waiting?)
    ensures QueuesOk(v)
  {
    forall d, x ensures x in QueueOf(v.store, d) <==> TrackIs(v, x, Waiting(d)) {
      assert x in QueueOf(w.store, d) <==> TrackIs(w, x, Waiting(d));
    }
    forall d ensures Distinct(QueueOf(v.store, d)) {
      assert Distinct(QueueOf(w.store, d));
    }
  }

  lemma QueueGains(w: World, v: World, id: CommandId, d: DeviceId)
    requires QueuesOk(w) && id in w.track && !w.track[id].Waiting?
    requires v.store.queues == w.store.queues[d := QueueOf(w.store, d) + [id]]
    requires v.track == w.track[id := Waiting(d)]
    ensures QueuesOk(v)
  {
    assert id !in QueueOf(w.store, d) by { assert !TrackIs(w, id, Waiting(d)); }
    forall e, x ensures x in QueueOf(v.store, e) <==> TrackIs(v, x, Waiting(e)) {
      assert x in QueueOf(w.store, e) <==> TrackIs(w, x, Waiting(e));
    }
    forall e ensures Distinct(QueueOf(v.store, e)) {
      assert Distinct(QueueOf(w.store, e));
    }
  }

  lemma QueueLosesHead(w: World, v: World, id: CommandId, d: DeviceId, t: Track)
    requires QueuesOk(w) && QueueOf(w.store, d) != [] && id == QueueOf(w.store, d)[0]
    requires v.store.queues == w.store.queues[d := QueueOf(w.store, d)[1..]]
    requires !t.Waiting? && v.track == w.track[id := t]
    ensures QueuesOk(v)
  {
    assert id in QueueOf(w.store, d);
    forall e, x ensures x in QueueOf(v.store, e) <==> TrackIs(v, x, Waiting(e)) {
      assert x in QueueOf(w.store, e) <==> TrackIs(w, x, Waiting(e));
      assert id in QueueOf(w.store, e) <==> TrackIs(w, id, Waiting(e));
      assert Distinct(QueueOf(w.store, d));
    }
    forall e ensures Distinct(QueueOf(v.store, e)) {
      assert Distinct(QueueOf(w.store, e));
    }
  }

  lemma AdvancePublished(w: World, a: Actor, ok: bool)
    requires LocalOk(w, a) && PublishedOk(w)
    ensures PublishedOk(Continue(w, a, ok))
  {
    hide PublishedOk, RecordOk;
    AdvanceMoves(w, a, ok);
    if InFlush(PcOf(w, a)) {
      FlushPublished(w, a, ok);
    } else if InOnlineIssue(PcOf(w, a)) {
      OnlineIssuePublished(w, a, ok);
    } else {
      hide ContinueOnlineIssue, ContinueFlush, Moves;
      LogStays(w, Continue(w, a, ok), a, Focus(w, a));
    }
  }

  lemma FlushPublished(w: World, a: Actor, ok: bool)
    requires LocalOk(w, a) && PublishedOk(w) && InFlush(PcOf(w, a)) && Moves(w, Continue(w, a, ok), a, Focus(w, a))
    ensures PublishedOk(Continue(w, a, ok))
  {
    hide ContinueOnlineIssue, ContinueOfflineIssue, ContinueSettle, PublishedOk, Moves, RecordOk;
    var v := Continue(w, a, ok);
    if ok && PcOf(w, a).FlushPublish? {
      assert v.store.published[..|w.store.published|] == w.store.published;
      LogGains(w, v, a, Focus(w, a));
    } else {
      LogStays(w, v, a, Focus(w, a));
    }
  }

  lemma OnlineIssuePublished(w: World, a: Actor, ok: bool)
    requires LocalOk(w, a) && PublishedOk(w) && InOnlineIssue(PcOf(w, a))
          && Moves(w, Continue(w, a, ok), a, Focus(w, a))
    ensures PublishedOk(Continue(w, a, ok))
  {
    hide ContinueFlush, ContinueOfflineIssue, ContinueSettle, PublishedOk, Moves, RecordOk;
    var v := Continue(w, a, ok);
    if ok && PcOf(w, a).IssuePublish? {
      assert v.store.published[..|w.store.published|] == w.store.published;
      LogGains(w, v, a, Focus(w, a));
    } else {
      LogStays(w, v, a, Focus(w, a));
    }
  }

  lemma LogGains(w: World, v: World, a: Actor, id: CommandId)
    requires PublishedOk(w) && Moves(w, v, a, id) && !WasPublished(w, id) && WasPublished(v, id)
    requires |v.store.published| == |w.store.published| + 1
    requires v.store.published[..|w.store.published|] == w.store.published
          && v.store.published[|w.store.published|].id == id
    ensures PublishedOk(v)
  {
    assert IdsOf(v.store.published) == IdsOf(w.store.published) + [id];
    assert id !in IdsOf(w.store.published);
    forall x ensures x in IdsOf(v.store.published) <==> WasPublished(v, x) {
      assert x in IdsOf(w.store.published) <==> WasPublished(w, x);
    }
  }

  lemma LogStays(w: World, v: World, a: Actor, id: CommandId)
    requires PublishedOk(w) && Moves(w, v, a, id) && v.store.published == w.store.published
    requires WasPublished(v, id) <==> WasPublished(w, id)
    ensures PublishedOk(v)
  {
    forall x ensures x in IdsOf(v.store.published) <==> WasPublished(v, x) {
      assert x in IdsOf(w.store.published) <==> WasPublished(w, x);
    }
  }

  lemma InvAdvance(w: World, a: Actor, ok: bool)
    requires Inv(w) && !PcOf(w, a).IssueTrim? && PcOf(w, a) != Idle
    ensures Inv(Continue(w, a, ok))
  {
    var v := Continue(w, a, ok);
    InvLocal(w, a);
    AdvanceMoves(w, a, ok);
    forall b ensures ActorOk(v, b) {
      if b == a {
        AdvanceSelf(w, a, ok);
      } else {
        assert ActorOk(w, b);
        MoveKeepsOther(w, v, a, Focus(w, a), b);
      }
    }
    forall id ensures RecordOk(v, id) {
      assert RecordOk(w, id);
      if id == Focus(w, a) {
        AdvanceRecord(w, a, ok);
      }
    }
    AdvanceQueues(w, a, ok);
    AdvancePublished(w, a, ok);
    AdvanceTimers(w, a, ok);
  }

  /** Every step of every interleaving keeps the invariant. */
  lemma InvStep(w: World, step: Step)
    requires Inv(w) && Enabled(w, step)
    ensures Inv(Apply(w, step))
  {
    match step {
      case QueueExpires(d) => InvDrop(w, d, |QueueOf(w.store, d)|);
      case Advance(a, ok) => if PcOf(w, a).IssueTrim? { InvTrim(w, a, ok); } else { InvAdvance(w, a, ok); }
      case _ => InvBegin(w, step);
    }
  }

  lemma InvTrim(w: World, a: Actor, ok: bool)
    requires Inv(w) && PcOf(w, a).IssueTrim?
    ensures Inv(Continue(w, a, ok))
  {
    hide ContinueOnlineIssue, ContinueFlush, ContinueSettle;
    var pc := PcOf(w, a);
    var n := |QueueOf(w.store, pc.body.device)|;
    var u := if ok then DropOldest(w, pc.body.device, n - Min(n, QUEUE_CAP)) else w;
    assert ActorOk(w, a);
    if ok {
      InvDrop(w, pc.body.device, n - Min(n, QUEUE_CAP));
    }
    var v := Continue(w, a, ok);
    assert v.store == u.store && v.track == u.track;
    hide DropOldest, Continue;
    assert ActorOk(u, a);
    forall b ensures ActorOk(v, b) {
      assert ActorOk(u, b);
    }
    forall id ensures RecordOk(v, id) {
      assert RecordOk(u, id);
    }
    forall d, id ensures id in QueueOf(v.store, d) <==> TrackIs(v, id, Waiting(d)) {
      assert id in QueueOf(u.store, d) <==> TrackIs(u, id, Waiting(d));
    }
    forall id ensures id in IdsOf(v.store.published) <==> WasPublished(v, id) {
      assert id in IdsOf(u.store.published) <==> WasPublished(u, id);
    }
  }

  // ---------------------------------------------------------------- content and custody

  /** The command an actor carries between two calls is the one its issuer drew up. */
  predicate CarriesDraft(w: World, pc: Pc) {
    match pc
    case Idle => true
    case IssuePublish(id, body, _) => id in w.drafts && w.drafts[id] == body
    case IssueSaveSent(id, body, _) => id in w.drafts && w.drafts[id] == body
    case IssueArm(_) => true
    case IssuePush(id, body) => id in w.drafts && w.drafts[id] == body
    case IssueTrim(id, body) => id in w.drafts && w.drafts[id] == body
    case IssueExpire(id, body) => id in w.drafts && w.drafts[id] == body
    case IssueSaveQueued(id, body) => id in w.drafts && w.drafts[id] == body
    case FlushPop(_) => true
    case FlushLoad(d, id) => id in w.drafts && w.drafts[id].device == d
    case FlushPublish(d, id, r) => id in w.drafts && w.drafts[id] == r.body && r.body.device == d
    case FlushSave(d, id, r) => id in w.drafts && w.drafts[id] == r.body && r.body.device == d
    case SettleLoad(_, _) => true
    case SettleSave(id, _, r) => id in w.drafts && w.drafts[id] == r.body
  }

  /** Records, messages and queues all carry the commands as they were drawn up, each for its own device. */
  ghost predicate Faithful(w: World) {
    && w.drafts.Keys == w.track.Keys
    && (forall a :: CarriesDraft(w, PcOf(w, a)))
    && (forall id :: id in w.store.records ==> id in w.drafts && w.store.records[id].body == w.drafts[id])
    && (forall m :: m in w.store.published ==> m.id in w.drafts && Tells(m, m.id, w.drafts[m.id]))
    && (forall id ::
          id in w.track && w.track[id].Waiting? ==> id in w.drafts && w.drafts[id].device == w.track[id].device)
  }

  /** The part of `Faithful` that the next call of actor `a` depends on. */
  predicate LocalFaithful(w: World, a: Actor) {
    var id := Focus(w, a);
    && CarriesDraft(w, PcOf(w, a))
    && (id in w.store.records ==> id in w.drafts && w.store.records[id].body == w.drafts[id])
    && (id in w.track && w.track[id].Waiting? ==> id in w.drafts && w.drafts[id].device == w.track[id].device)
  }

  /** What the next call of actor `a` leaves behind carries the command as drawn up. */
  ghost predicate WritesDraft(w: World, v: World, a: Actor, id: CommandId) {
    && CarriesDraft(v, PcOf(v, a))
    && (id in v.store.records ==> id in v.drafts && v.store.records[id].body == v.drafts[id])
    && (id in v.track && v.track[id].Waiting? ==> id in v.drafts && v.drafts[id].device == v.track[id].device)
    && (v.store.published == w.store.published
        || (id in v.drafts && v.store.published == w.store.published + [MessageOf(id, v.drafts[id])]))
  }

  lemma FlushWritesDraft(w: World, a: Actor, ok: bool)
    requires LocalOk(w, a) && LocalFaithful(w, a) && InFlush(PcOf(w, a))
    ensures WritesDraft(w, Continue(w, a, ok), a, Focus(w, a))
  {
    hide ContinueOnlineIssue, ContinueOfflineIssue, ContinueSettle;
  }

  lemma AdvanceWritesDraft(w: World, a: Actor, ok: bool)
    requires LocalOk(w, a) && LocalFaithful(w, a)
    ensures WritesDraft(w, Continue(w, a, ok), a, Focus(w, a))
  {
    if InFlush(PcOf(w, a)) {
      FlushWritesDraft(w, a, ok);
    } else if InOnlineIssue(PcOf(w, a)) {
      hide ContinueOfflineIssue, ContinueFlush, ContinueSettle;
    } else {
      hide ContinueOnlineIssue, ContinueFlush;
    }
  }

  lemma FaithfulMove(w: World, v: World, a: Actor, id: CommandId)
    requires Faithful(w) && Moves(w, v, a, id) && WritesDraft(w, v, a, id)
    ensures Faithful(v)
  {
    forall b ensures CarriesDraft(v, PcOf(v, b)) {
      assert CarriesDraft(w, PcOf(w, b));
    }
    forall x | x in v.store.records ensures x in v.drafts && v.store.records[x].body == v.drafts[x] {
      assert x != id ==> x in w.store.records;
    }
    forall m | m in v.store.published ensures m.id in v.drafts && Tells(m, m.id, v.drafts[m.id]) {
      if m !in w.store.published {
        assert m == MessageOf(id, v.drafts[id]);
        MessageTells(id, v.drafts[id]);
      }
    }
    forall x | x in v.track && v.track[x].Waiting? ensures x in v.drafts && v.drafts[x].device == v.track[x].device {
      assert x in w.track;
    }
  }

  lemma FaithfulTrim(w: World, a: Actor, ok: bool)
    requires Faithful(w) && PcOf(w, a).IssueTrim?
    ensures Faithful(Continue(w, a, ok))
  {
    var v := Continue(w, a, ok);
    assert CarriesDraft(w, PcOf(w, a));
    forall b ensures CarriesDraft(v, PcOf(v, b)) {
      assert CarriesDraft(w, PcOf(w, b));
    }
  }

  lemma FaithfulBeginIssue(w: World, a: Actor, id: CommandId, req: Request)
    requires Faithful(w) && Enabled(w, BeginIssue(a, id, req))
    ensures Faithful(Apply(w, BeginIssue(a, id, req)))
  {
    hide Continue, DropOldest, BodyOf, MessageOf;
    var v := Apply(w, BeginIssue(a, id, req));
    forall b ensures CarriesDraft(v, PcOf(v, b)) {
      assert CarriesDraft(w, PcOf(w, b));
    }
  }

  lemma FaithfulBegin(w: World, step: Step)
    requires Faithful(w) && Enabled(w, step) && !step.Advance?
    ensures Faithful(Apply(w, step))
  {
    hide Continue, BodyOf, MessageOf;
    if step.BeginIssue? {
      hide Faithful;
      FaithfulBeginIssue(w, step.actor, step.id, step.req);
    } else {
      var v := Apply(w, step);
      forall b ensures CarriesDraft(v, PcOf(v, b)) {
        assert CarriesDraft(w, PcOf(w, b));
      }
    }
  }

  lemma FaithfulStep(w: World, step: Step)
    requires Inv(w) && Faithful(w) && Enabled(w, step)
    ensures Faithful(Apply(w, step))
  {
    if !step.Advance? {
      FaithfulBegin(w, step);
    } else if PcOf(w, step.actor).IssueTrim? {
      FaithfulTrim(w, step.actor, step.ok);
    } else {
      InvLocal(w, step.actor);
      assert LocalFaithful(w, step.actor) by { assert CarriesDraft(w, PcOf(w, step.actor)); }
      AdvanceWritesDraft(w, step.actor, step.ok);
      AdvanceMoves(w, step.actor, step.ok);
      FaithfulMove(w, Continue(w, step.actor, step.ok), step.actor, Focus(w, step.actor));
    }
  }

  /** The actor named by a fate is the one whose program counter carries the command. */
  predicate InCustody(w: World, id: CommandId) {
    id in w.track ==>
      match w.track[id]
      case Drafted(a) => var pc := PcOf(w, a); (pc.IssuePublish? || pc.IssuePush?) && pc.id == id
      case Taken(a) => var pc := PcOf(w, a); (pc.FlushLoad? || pc.FlushPublish?) && pc.id == id
      case Publishing(a) => var pc := PcOf(w, a); (pc.IssueSaveSent? || pc.FlushSave?) && pc.id == id
      case _ => true
  }

  lemma FlushCustody(w: World, a: Actor, ok: bool)
    requires LocalOk(w, a) && InCustody(w, Focus(w, a)) && InFlush(PcOf(w, a))
    ensures InCustody(Continue(w, a, ok), Focus(w, a))
  {
    hide ContinueOnlineIssue, ContinueOfflineIssue, ContinueSettle;
  }

  lemma IssueCustody(w: World, a: Actor, ok: bool)
    requires LocalOk(w, a) && InCustody(w, Focus(w, a)) && (InOnlineIssue(PcOf(w, a)) || InOfflineIssue(PcOf(w, a)))
    ensures InCustody(Continue(w, a, ok), Focus(w, a))
  {
    hide ContinueFlush, ContinueSettle;
  }

  lemma CustodySelf(w: World, a: Actor, ok: bool)
    requires LocalOk(w, a) && InCustody(w, Focus(w, a))
    ensures InCustody(Continue(w, a, ok), Focus(w, a))
  {
    if InFlush(PcOf(w, a)) {
      FlushCustody(w, a, ok);
    } else if InOnlineIssue(PcOf(w, a)) || InOfflineIssue(PcOf(w, a)) {
      IssueCustody(w, a, ok);
    } else {
      hide ContinueOnlineIssue, ContinueOfflineIssue, ContinueFlush;
    }
  }

  lemma CustodyAdvance(w: World, a: Actor, ok: bool, id: CommandId)
    requires LocalOk(w, a) && InCustody(w, id)
    ensures InCustody(Continue(w, a, ok), id)
  {
    if id == Focus(w, a) {
      CustodySelf(w, a, ok);
    } else {
      AdvanceMoves(w, a, ok);
      CustodyElsewhere(w, Continue(w, a, ok), a, Focus(w, a), id);
    }
  }

  lemma CustodyTrim(w: World, a: Actor, ok: bool, id: CommandId)
    requires PcOf(w, a).IssueTrim? && InCustody(w, id)
    ensures InCustody(Continue(w, a, ok), id)
  {
  }

  lemma CustodyBegin(w: World, step: Step, id: CommandId)
    requires Enabled(w, step) && !step.Advance? && InCustody(w, id)
    ensures InCustody(Apply(w, step), id)
  {
  }

  lemma CustodyStep(w: World, step: Step, id: CommandId)
    requires Inv(w) && Enabled(w, step) && InCustody(w, id)
    ensures InCustody(Apply(w, step), id)
  {
    if !step.Advance? {
      CustodyBegin(w, step, id);
    } else if PcOf(w, step.actor).IssueTrim? {
      CustodyTrim(w, step.actor, step.ok, id);
    } else {
      InvLocal(w, step.actor);
      CustodyAdvance(w, step.actor, step.ok, id);
    }
  }

  lemma CustodyElsewhere(w: World, v: World, a: Actor, focus: CommandId, id: CommandId)
    requires LocalOk(w, a) && focus == Focus(w, a) && Moves(w, v, a, focus) && id != focus && InCustody(w, id)
    ensures InCustody(v, id)
  {
    assert forall b :: b != a ==> PcOf(v, b) == PcOf(w, b);
  }

  // ---------------------------------------------------------------- runs

  ghost predicate ValidRun(w: World, run: seq<Step>)
    decreases |run|
  {
    run != [] ==> Enabled(w, run[0]) && ValidRun(Apply(w, run[0]), run[1..])
  }

  function RunFrom(w: World, run: seq<Step>): World
    requires ValidRun(w, run)
    decreases |run|
  {
    if run == [] then w else RunFrom(Apply(w, run[0]), run[1..])
  }

  ghost predicate Reachable(w: World) {
    exists run :: ValidRun(START, run) && RunFrom(START, run) == w
  }

  ghost predicate Good(w: World) {
    Inv(w) && Faithful(w) && forall id :: InCustody(w, id)
  }

  lemma GoodStep(w: World, step: Step)
    requires Good(w) && Enabled(w, step)
    ensures Good(Apply(w, step))
  {
    InvStep(w, step);
    FaithfulStep(w, step);
    forall id ensures InCustody(Apply(w, step), id) {
      CustodyStep(w, step, id);
    }
  }

  lemma {:induction false} GoodRun(w: World, run: seq<Step>)
    requires Good(w) && ValidRun(w, run)
    ensures Good(RunFrom(w, run))
    decreases |run|
  {
    if run != [] {
      GoodStep(w, run[0]);
      GoodRun(Apply(w, run[0]), run[1..]);
    }
  }

  lemma ReachableGood(w: World)
    requires Reachable(w)
    ensures Good(w)
  {
    var run :| ValidRun(START, run) && RunFrom(START, run) == w;
    InvInit();
    GoodRun(START, run);
  }
}
