/** Command delivery with every handler run as one step: issue, offline queue, flush, acknowledgement, timeout.

    The Redis record `cmd:{id}`, the list `cmdq:{device}`, the presence set, the armed timers and the log of
    published MQTT messages are one `Store`. Each handler is a function on stores; the class at the end performs
    the handlers step by step on fields and is proved to compute those functions. */
module Commands {
  import opened Prelude

  type CommandId = nat
  type DeviceId = nat

  const QUEUE_CAP: nat := 100

  datatype Status = Queued | Sent | Confirmed | Unacknowledged

  datatype Event = IssueOnline | IssueOffline | Ack | Timeout | ReconnectFlush

  /** The table of legal transitions; `None` as the current status means the command does not exist yet. */
  function NextStatus(current: Option<Status>, event: Event): Option<Status> {
    match (current, event)
    case (None, IssueOnline) => Some(Sent)
    case (None, IssueOffline) => Some(Queued)
    case (Some(Queued), ReconnectFlush) => Some(Sent)
    case (Some(Sent), Ack) => Some(Confirmed)
    case (Some(Sent), Timeout) => Some(Unacknowledged)
    case _ => None
  }

  /** The five legal transitions, and no other. */
  lemma NextStatusExact(current: Option<Status>, event: Event, next: Status)
    ensures NextStatus(current, event) == Some(next)
            <==> (current, event, next) in {
                   (None, IssueOnline, Sent), (None, IssueOffline, Queued), (Some(Queued), ReconnectFlush, Sent),
                   (Some(Sent), Ack, Confirmed), (Some(Sent), Timeout, Unacknowledged)}
  {
  }

  predicate Terminal(status: Status) {
    status == Confirmed || status == Unacknowledged
  }

  datatype Body = Body(device: DeviceId, kind: string, value: Option<real>, target: Option<string>)

  datatype Record = Record(body: Body, status: Status)

  /** The MQTT command payload together with the device it is addressed to; an empty target is not sent. */
  datatype Message = Message(id: CommandId, device: DeviceId, kind: string, target: Option<string>, value: Option<real>)

  function MessageOf(id: CommandId, body: Body): Message {
    Message(id, body.device, body.kind, if body.target == Some("") then None else body.target, body.value)
  }

  /** The message tells the device this command, field by field. */
  predicate Tells(m: Message, id: CommandId, body: Body) {
    && m.id == id && m.device == body.device && m.kind == body.kind && m.value == body.value
    && m.target == (if body.target == Some("") then None else body.target)
  }

  lemma MessageTells(id: CommandId, body: Body)
    ensures Tells(MessageOf(id, body), id, body)
  {
  }

  datatype Store = Store(
    records: map<CommandId, Record>,
    queues: map<DeviceId, seq<CommandId>>,
    online: set<DeviceId>,
    timers: set<CommandId>,
    published: seq<Message>)

  function QueueOf(s: Store, d: DeviceId): seq<CommandId> {
    if d in s.queues then s.queues[d] else []
  }

  function WithQueue(s: Store, d: DeviceId, q: seq<CommandId>): Store {
    s.(queues := s.queues[d := q])
  }

  // ---------------------------------------------------------------- issue

  datatype Request = Request(
    device: DeviceId, kind: string, value: Option<real>, target: Option<string>, ackTimeout: int)

  datatype IssueOutcome = Issued(record: Record) | InvalidType | MissingValue | PublishRaised | QueueRejected

  predicate WellFormed(req: Request) {
    && (req.kind == "on" || req.kind == "off" || req.kind == "value")
    && !(req.kind == "value" && req.value == None)
  }

  function BodyOf(req: Request): Body {
    Body(req.device, req.kind, if req.kind == "value" then req.value else None, req.target)
  }

  /** Issue `req` under the fresh id `id`; `ok` says whether the one publish or queue call made succeeds. */
  function Issue(s: Store, id: CommandId, req: Request, ok: bool): (Store, IssueOutcome) {
    if !(req.kind == "on" || req.kind == "off" || req.kind == "value") then (s, InvalidType)
    else if req.kind == "value" && req.value == None then (s, MissingValue)
    else if req.device in s.online then
      if !ok then (s, PublishRaised) else
      var record := Record(BodyOf(req), Sent);
      (s.(published := s.published + [MessageOf(id, record.body)],
          records := s.records[id := record],
          timers := if req.ackTimeout > 0 then s.timers + {id} else s.timers),
       Issued(record))
    else
      if !ok then (s, QueueRejected) else
      var record := Record(BodyOf(req), Queued);
      var queued := WithQueue(s, req.device, LastN(QueueOf(s, req.device) + [id], QUEUE_CAP));
      (queued.(records := s.records[id := record]), Issued(record))
  }

  /** The message says what was requested: a value only with a value command, a target only when there is one. */
  predicate Says(m: Message, id: CommandId, req: Request) {
    && m.id == id && m.device == req.device && m.kind == req.kind
    && m.value == (if req.kind == "value" then req.value else None)
    && m.target == (if req.target == Some("") then None else req.target)
  }

  /** The record holds what was requested. */
  predicate Notes(r: Record, req: Request, status: Status) {
    && r.status == status && r.body.device == req.device && r.body.kind == req.kind && r.body.target == req.target
    && r.body.value == (if req.kind == "value" then req.value else None)
  }

  lemma RequestNoted(id: CommandId, req: Request, status: Status)
    ensures Notes(Record(BodyOf(req), status), req, status)
    ensures forall m :: Tells(m, id, BodyOf(req)) <==> Says(m, id, req)
  {
  }

  /** One more message, and it says what was requested. */
  predicate SaysOneMore(before: seq<Message>, after: seq<Message>, id: CommandId, req: Request) {
    |after| == |before| + 1 && before <= after && Says(after[|before|], id, req)
  }

  /** Every request, field by field: which refusal it meets, and what an accepted one publishes, records, queues and
      arms; a refused one leaves the store alone. */
  lemma IssueExact(s: Store, id: CommandId, req: Request, ok: bool)
    ensures
      var (t, outcome) := Issue(s, id, req, ok);
      var known := req.kind in {"on", "off", "value"};
      var complete := known && (req.kind == "value" ==> req.value.Some?);
      var online := req.device in s.online;
      && (outcome == InvalidType <==> !known)
      && (outcome == MissingValue <==> known && !complete)
      && (outcome == PublishRaised <==> complete && online && !ok)
      && (outcome == QueueRejected <==> complete && !online && !ok)
      && (outcome.Issued? <==> complete && ok)
      && (!outcome.Issued? ==> t == s)
      && (outcome.Issued? ==>
            && Notes(outcome.record, req, if online then Sent else Queued)
            && t.records == s.records[id := outcome.record] && t.online == s.online
            && t.timers == s.timers + (if online && req.ackTimeout > 0 then {id} else {})
            && (if online then SaysOneMore(s.published, t.published, id, req) else t.published == s.published)
            && forall d :: QueueOf(t, d)
                 == if online || d != req.device then QueueOf(s, d) else LastN(QueueOf(s, d) + [id], 100))
  {
    RequestNoted(id, req, Sent);
    RequestNoted(id, req, Queued);
  }

  // ---------------------------------------------------------------- acknowledgement and timeout

  /** Load the record, apply `event` if it is legal, save: confirm_command for `Ack`, expire_command for `Timeout`. */
  function Settle(s: Store, id: CommandId, event: Event): (Store, Option<Record>) {
    if id !in s.records then (s, None) else
    match NextStatus(Some(s.records[id].status), event)
    case None => (s, None)
    case Some(status) =>
      var updated := s.records[id].(status := status);
      (s.(records := s.records[id := updated]), Some(updated))
  }

  /** An acknowledgement confirms a SENT command, a timeout makes it UNACKNOWLEDGED; both return the new record, and in
      every other state they do nothing. */
  lemma SettleExact(s: Store, id: CommandId, event: Event)
    requires event == Ack || event == Timeout
    ensures
      var (t, updated) := Settle(s, id, event);
      if id in s.records && s.records[id].status == Sent then
        && updated == Some(s.records[id].(status := if event == Ack then Confirmed else Unacknowledged))
        && t == s.(records := s.records[id := updated.value])
      else t == s && updated == None
  {
  }

  // ---------------------------------------------------------------- reconnect flush

  datatype FlushOutcome = FlushOutcome(store: Store, flushed: seq<Record>, raised: bool)

  /** One left in the publisher's budget of successful calls; `None` never raises. */
  function OneFewer(raiseAt: Option<nat>): Option<nat>
    requires raiseAt != Some(0)
  {
    match raiseAt case None => None case Some(n) => Some(n - 1)
  }

  /** Pop, load, publish, save until the queue is empty; the publish call number `raiseAt` raises and ends the flush. */
  function Flush(s: Store, d: DeviceId, raiseAt: Option<nat>): FlushOutcome
    decreases |QueueOf(s, d)|
  {
    var q := QueueOf(s, d);
    if q == [] then FlushOutcome(s, [], false) else
    var id := q[0];
    var popped := WithQueue(s, d, q[1..]);
    if id !in s.records || NextStatus(Some(s.records[id].status), ReconnectFlush) == None then Flush(popped, d, raiseAt)
    else if raiseAt == Some(0) then FlushOutcome(popped, [], true)
    else
      var updated := s.records[id].(status := Sent);
      var sent := popped.(published := s.published + [MessageOf(id, updated.body)],
                          records := s.records[id := updated]);
      var rest := Flush(sent, d, OneFewer(raiseAt));
      rest.(flushed := [updated] + rest.flushed)
  }

  /** The queued entries that a flush delivers: those whose record is still live and QUEUED. */
  function Live(records: map<CommandId, Record>, q: seq<CommandId>): seq<CommandId> {
    if q == [] then []
    else (if q[0] in records && records[q[0]].status == Queued then [q[0]] else []) + Live(records, q[1..])
  }

  function Messages(records: map<CommandId, Record>, ids: seq<CommandId>): seq<Message>
    requires forall id :: id in ids ==> id in records
  {
    seq(|ids|, i requires 0 <= i < |ids| => MessageOf(ids[i], records[ids[i]].body))
  }

  /** The records a flush returns for the delivered ids, in delivery order. */
  function SentRecords(records: map<CommandId, Record>, ids: seq<CommandId>): seq<Record>
    requires forall id :: id in ids ==> id in records
  {
    seq(|ids|, i requires 0 <= i < |ids| => records[ids[i]].(status := Sent))
  }

  function MarkSent(records: map<CommandId, Record>, ids: seq<CommandId>): map<CommandId, Record> {
    map id | id in records :: if id in ids then records[id].(status := Sent) else records[id]
  }

  lemma {:induction false} LiveMembers(records: map<CommandId, Record>, q: seq<CommandId>)
    ensures forall id :: id in Live(records, q) <==> id in q && id in records && records[id].status == Queued
  {
    if q != [] {
      LiveMembers(records, q[1..]);
      assert q == [q[0]] + q[1..];
    }
  }

  lemma {:induction false} LiveIgnores(records: map<CommandId, Record>, q: seq<CommandId>, id: CommandId, r: Record)
    requires id !in q
    ensures Live(records[id := r], q) == Live(records, q)
  {
    if q != [] {
      assert q[0] != id && id !in q[1..];
      LiveIgnores(records, q[1..], id, r);
    }
  }

  /** How many commands a flush delivers before the publisher raises. */
  function Delivered(live: seq<CommandId>, raiseAt: Option<nat>): nat {
    if raiseAt.Some? && raiseAt.value < |live| then raiseAt.value else |live|
  }

  /** The complete effect `o` of flushing device `d` in store `s`: the first `Delivered` live entries are published
      in queue order, become SENT and are returned in that order, every other record, queue, timer and presence entry is
      untouched, and the queue ends empty unless the publisher raised, when it keeps exactly what stood behind the one
      popped entry. */
  ghost predicate DeliversExactly(s: Store, d: DeviceId, raiseAt: Option<nat>, o: FlushOutcome) {
    var q := QueueOf(s, d);
    var live := Live(s.records, q);
    var n := Delivered(live, raiseAt);
    && (forall id :: id in live ==> id in s.records)
    && o.raised == (n < |live|)
    && o.store.published == s.published + Messages(s.records, live[..n])
    && o.flushed == SentRecords(s.records, live[..n])
    && o.store.records == MarkSent(s.records, live[..n])
    && (if o.raised then LeavesBehind(q, live[n], QueueOf(o.store, d)) else QueueOf(o.store, d) == [])
    && (forall e :: e != d ==> QueueOf(o.store, e) == QueueOf(s, e))
    && o.store.online == s.online && o.store.timers == s.timers
  }

  /** `left` is what stands in `q` behind the entry `id`. */
  ghost predicate LeavesBehind(q: seq<CommandId>, id: CommandId, left: seq<CommandId>) {
    exists k :: 0 <= k < |q| && q[k] == id && left == q[k + 1..]
  }

  lemma LeavesBehindTail(q: seq<CommandId>, id: CommandId, left: seq<CommandId>)
    requires q != [] && LeavesBehind(q[1..], id, left)
    ensures LeavesBehind(q, id, left)
  {
    var tail := q[1..];
    var k :| 0 <= k < |tail| && tail[k] == id && left == tail[k + 1..];
    assert q[k + 1] == id && left == q[k + 2..];
  }

  /** Flushing any store whose queue holds no id twice, publisher failure included. */
  lemma {:induction false} FlushExact(s: Store, d: DeviceId, raiseAt: Option<nat>)
    requires Distinct(QueueOf(s, d))
    ensures DeliversExactly(s, d, raiseAt, Flush(s, d, raiseAt))
    decreases |QueueOf(s, d)|
  {
    var q := QueueOf(s, d);
    LiveMembers(s.records, q);
    if q == [] {
      assert MarkSent(s.records, []) == s.records;
    } else {
      var id := q[0];
      var popped := WithQueue(s, d, q[1..]);
      assert QueueOf(popped, d) == q[1..];
      if id !in s.records || s.records[id].status != Queued {
        FlushExact(popped, d, raiseAt);
        FlushSkipsHead(s, d, raiseAt);
      } else if raiseAt == Some(0) {
        assert MarkSent(s.records, []) == s.records;
        assert q[0] == Live(s.records, q)[0];
      } else {
        FlushExact(AfterDelivery(s, d), d, OneFewer(raiseAt));
        FlushUnfoldsHead(s, d, raiseAt);
        DeliversHead(s, d, raiseAt, Flush(AfterDelivery(s, d), d, OneFewer(raiseAt)));
      }
    }
  }

  /** The store after the head of the queue was popped, published and saved as SENT. */
  ghost function AfterDelivery(s: Store, d: DeviceId): Store
    requires QueueOf(s, d) != [] && QueueOf(s, d)[0] in s.records
  {
    var id := QueueOf(s, d)[0];
    WithQueue(s, d, QueueOf(s, d)[1..])
    .(published := s.published + [MessageOf(id, s.records[id].body)],
      records := s.records[id := s.records[id].(status := Sent)])
  }

  lemma FlushSkipsHead(s: Store, d: DeviceId, raiseAt: Option<nat>)
    requires
      var q := QueueOf(s, d);
      && q != [] && (q[0] !in s.records || s.records[q[0]].status != Queued)
      && DeliversExactly(WithQueue(s, d, q[1..]), d, raiseAt, Flush(WithQueue(s, d, q[1..]), d, raiseAt))
    ensures DeliversExactly(s, d, raiseAt, Flush(s, d, raiseAt))
  {
    var q := QueueOf(s, d);
    var popped := WithQueue(s, d, q[1..]);
    var o := Flush(popped, d, raiseAt);
    assert Flush(s, d, raiseAt) == o;
    assert QueueOf(popped, d) == q[1..];
    var live := Live(s.records, q);
    assert live == Live(popped.records, q[1..]);
    if o.raised {
      LeavesBehindTail(q, live[Delivered(live, raiseAt)], QueueOf(o.store, d));
    }
    forall e | e != d ensures QueueOf(o.store, e) == QueueOf(s, e) {
      assert QueueOf(popped, e) == QueueOf(s, e);
    }
  }

  lemma FlushUnfoldsHead(s: Store, d: DeviceId, raiseAt: Option<nat>)
    requires raiseAt != Some(0)
    requires
      var q := QueueOf(s, d);
      q != [] && q[0] in s.records && s.records[q[0]].status == Queued
    ensures
      var id := QueueOf(s, d)[0];
      var o := Flush(AfterDelivery(s, d), d, OneFewer(raiseAt));
      Flush(s, d, raiseAt) == o.(flushed := [s.records[id].(status := Sent)] + o.flushed)
  {
  }

  /** If `o` is the exact effect of flushing once the head went out, it is, with the head's record in front, the exact
      effect of the whole flush. */
  lemma DeliversHead(s: Store, d: DeviceId, raiseAt: Option<nat>, o: FlushOutcome)
    requires Distinct(QueueOf(s, d)) && raiseAt != Some(0)
    requires
      var q := QueueOf(s, d);
      && q != [] && q[0] in s.records && s.records[q[0]].status == Queued
      && DeliversExactly(AfterDelivery(s, d), d, OneFewer(raiseAt), o)
    ensures DeliversExactly(s, d, raiseAt, o.(flushed := [s.records[QueueOf(s, d)[0]].(status := Sent)] + o.flushed))
  {
    hide MarkSent, Messages, SentRecords, LeavesBehind, Live, MessageOf;
    var q := QueueOf(s, d);
    var id := q[0];
    var sent := AfterDelivery(s, d);
    var updated := s.records[id].(status := Sent);
    LiveHead(s, d);
    var live := Live(s.records, q);
    var rest := Live(sent.records, QueueOf(sent, d));
    var m := Delivered(rest, OneFewer(raiseAt));
    assert m + 1 == Delivered(live, raiseAt) && live[..m + 1] == [id] + rest[..m];
    assert o.store.published == s.published + Messages(s.records, live[..m + 1]) by {
      MessagesCons(s.records, id, rest[..m], updated);
    }
    assert [updated] + o.flushed == SentRecords(s.records, live[..m + 1]) by {
      SentRecordsCons(s.records, id, rest[..m], updated);
    }
    assert o.store.records == MarkSent(s.records, live[..m + 1]) by {
      MarkSentCons(s.records, id, rest[..m]);
    }
    if o.raised {
      LeavesBehindTail(q, rest[m], QueueOf(o.store, d));
    }
    forall e | e != d ensures QueueOf(o.store, e) == QueueOf(s, e) {
      assert QueueOf(sent, e) == QueueOf(s, e);
    }
  }

  lemma LiveHead(s: Store, d: DeviceId)
    requires Distinct(QueueOf(s, d))
    requires
      var q := QueueOf(s, d);
      q != [] && q[0] in s.records && s.records[q[0]].status == Queued
    ensures
      var q := QueueOf(s, d);
      var sent := AfterDelivery(s, d);
      var rest := Live(sent.records, QueueOf(sent, d));
      && QueueOf(sent, d) == q[1..]
      && Live(s.records, q) == [q[0]] + rest
      && (forall id :: id in rest ==> id in s.records && id in sent.records)
      && (forall id :: id in Live(s.records, q) ==> id in s.records)
  {
    var q := QueueOf(s, d);
    var id := q[0];
    assert id !in q[1..];
    LiveIgnores(s.records, q[1..], id, s.records[id].(status := Sent));
    LiveMembers(s.records, q[1..]);
  }

  lemma MarkSentCons(records: map<CommandId, Record>, id: CommandId, ids: seq<CommandId>)
    requires id in records
    ensures MarkSent(records, [id] + ids) == MarkSent(records[id := records[id].(status := Sent)], ids)
  {
  }

  lemma SentRecordsCons(records: map<CommandId, Record>, id: CommandId, ids: seq<CommandId>, updated: Record)
    requires id in records && updated == records[id].(status := Sent)
    requires forall i :: i in ids ==> i in records
    ensures SentRecords(records, [id] + ids) == [updated] + SentRecords(records[id := updated], ids)
  {
  }

  lemma MessagesCons(records: map<CommandId, Record>, id: CommandId, ids: seq<CommandId>, updated: Record)
    requires id in records && updated.body == records[id].body
    requires forall i :: i in ids ==> i in records
    ensures Messages(records, [id] + ids) == [MessageOf(id, updated.body)] + Messages(records[id := updated], ids)
  {
  }

  // ---------------------------------------------------------------- issuing to an offline device, then one flush

  function IssueAll(s: Store, ids: seq<CommandId>, reqs: seq<Request>): Store
    requires |ids| == |reqs|
    decreases |ids|
  {
    if ids == [] then s else IssueAll(Issue(s, ids[0], reqs[0], true).0, ids[1..], reqs[1..])
  }

  ghost predicate OfflineBatch(s: Store, d: DeviceId, ids: seq<CommandId>, reqs: seq<Request>) {
    && |ids| == |reqs|
    && d !in s.online
    && (forall i :: 0 <= i < |reqs| ==> reqs[i].device == d && WellFormed(reqs[i]))
    && Distinct(ids)
    && (forall id :: id in ids ==> id !in s.records)
  }

  /** Commands issued to an offline device pile up behind the queue, cut to the newest 100; nothing is published. */
  lemma {:induction false} OfflineIssuesQueue(s: Store, d: DeviceId, ids: seq<CommandId>, reqs: seq<Request>)
    requires OfflineBatch(s, d, ids, reqs)
    requires |QueueOf(s, d)| <= QUEUE_CAP
    ensures
      var t := IssueAll(s, ids, reqs);
      && QueueOf(t, d) == LastN(QueueOf(s, d) + ids, QUEUE_CAP)
      && t.published == s.published && t.online == s.online && t.timers == s.timers
      && (forall i :: 0 <= i < |ids| ==> ids[i] in t.records && t.records[ids[i]] == Record(BodyOf(reqs[i]), Queued))
      && (forall id :: id in s.records ==> id in t.records && t.records[id] == s.records[id])
    decreases |ids|
  {
    var q := QueueOf(s, d);
    if ids == [] {
      assert q + ids == q;
    } else {
      var u := Issue(s, ids[0], reqs[0], true).0;
      OneOfflineIssue(s, d, ids, reqs);
      OfflineIssuesQueue(u, d, ids[1..], reqs[1..]);
      assert IssueAll(s, ids, reqs) == IssueAll(u, ids[1..], reqs[1..]);
      hide Issue, IssueAll, BodyOf, QueueOf, OfflineBatch, LastN;
      PushesAbsorb(q, ids);
      forall i | 0 <= i < |ids|
        ensures
          var t := IssueAll(s, ids, reqs);
          ids[i] in t.records && t.records[ids[i]] == Record(BodyOf(reqs[i]), Queued)
      {
        if i > 0 {
          assert ids[i] == ids[1..][i - 1] && reqs[i] == reqs[1..][i - 1];
        }
      }
    }
  }

  lemma PushesAbsorb(q: seq<CommandId>, ids: seq<CommandId>)
    requires ids != []
    ensures LastN(LastN(q + [ids[0]], QUEUE_CAP) + ids[1..], QUEUE_CAP) == LastN(q + ids, QUEUE_CAP)
  {
    LastNAbsorbs(q + [ids[0]], ids[1..], QUEUE_CAP);
    assert q + [ids[0]] + ids[1..] == q + ids;
  }

  lemma OneOfflineIssue(s: Store, d: DeviceId, ids: seq<CommandId>, reqs: seq<Request>)
    requires OfflineBatch(s, d, ids, reqs) && ids != []
    ensures
      var u := Issue(s, ids[0], reqs[0], true).0;
      && OfflineBatch(u, d, ids[1..], reqs[1..])
      && QueueOf(u, d) == LastN(QueueOf(s, d) + [ids[0]], QUEUE_CAP)
      && u.published == s.published && u.online == s.online && u.timers == s.timers
      && u.records == s.records[ids[0] := Record(BodyOf(reqs[0]), Queued)]
  {
    DistinctSlice(ids, 1, |ids|);
    forall id | id in ids[1..] ensures id !in s.records && id != ids[0] {
    }
  }

  /** The messages of a batch, in issue order. */
  function Outbox(ids: seq<CommandId>, reqs: seq<Request>): (messages: seq<Message>)
    requires |ids| == |reqs|
    ensures |messages| == |ids|
  {
    seq(|ids|, i requires 0 <= i < |ids| => MessageOf(ids[i], BodyOf(reqs[i])))
  }

  /** n commands issued to an offline device with an empty queue, then one undisturbed flush: the messages published
      are the newest min(n, 100) in issue order (the first `Delivered` of them when the publisher raises), each
      delivered command is SENT, every evicted one stays QUEUED, and after a raise only the one popped command is
      neither still queued nor SENT. */
  lemma OfflineRoundTrip(s: Store, d: DeviceId, ids: seq<CommandId>, reqs: seq<Request>, raiseAt: Option<nat>)
    requires OfflineBatch(s, d, ids, reqs) && QueueOf(s, d) == []
    ensures RoundTripOutcome(s, d, ids, reqs, raiseAt, Flush(IssueAll(s, ids, reqs), d, raiseAt))
  {
    KeptAreLive(s, d, ids, reqs);
    hide IssueAll, Flush, RoundTripOutcome, MarkSent, Messages, SentRecords, Delivered, OfflineBatch, Evicted;
    var t, lo := IssueAll(s, ids, reqs), Evicted(ids);
    DistinctSlice(ids, lo, |ids|);
    FlushAllLive(t, d, ids[lo..], raiseAt);
    RoundTripFromParts(s, t, d, ids, reqs, raiseAt, Flush(t, d, raiseAt));
  }

  /** After the batch the queue holds what the cap has kept of it, all of it live. */
  lemma KeptAreLive(s: Store, d: DeviceId, ids: seq<CommandId>, reqs: seq<Request>)
    requires OfflineBatch(s, d, ids, reqs) && QueueOf(s, d) == []
    ensures Distinct(ids) && |ids| == |reqs|
    ensures
      var t := IssueAll(s, ids, reqs);
      && QueueOf(t, d) == ids[Evicted(ids)..] && t.published == s.published
      && (forall i :: 0 <= i < |ids| ==> ids[i] in t.records && t.records[ids[i]] == Record(BodyOf(reqs[i]), Queued))
      && (forall id :: id in ids[Evicted(ids)..] ==> id in t.records && t.records[id].status == Queued)
  {
    OfflineIssuesQueue(s, d, ids, reqs);
    assert [] + ids == ids;
    hide IssueAll, BodyOf;
    var t := IssueAll(s, ids, reqs);
    forall id | id in ids[Evicted(ids)..] ensures id in t.records && t.records[id].status == Queued {
      var k :| 0 <= k < |ids| && ids[k] == id;
    }
  }

  ghost predicate RoundTripOutcome(s: Store, d: DeviceId, ids: seq<CommandId>, reqs: seq<Request>, raiseAt: Option<nat>,
                                   o: FlushOutcome)
    requires |ids| == |reqs|
  {
    var lo := Evicted(ids);
    var hi := lo + Delivered(ids[lo..], raiseAt);
    && o.store.published == s.published + Outbox(ids, reqs)[lo..hi]
    && o.flushed == seq(hi - lo, i requires 0 <= i < hi - lo => Record(BodyOf(reqs[lo + i]), Sent))
    && o.raised == (hi < |ids|)
    && QueueOf(o.store, d) == (if o.raised then ids[hi + 1..] else [])
    && forall i :: 0 <= i < |ids| ==>
         && ids[i] in o.store.records
         && o.store.records[ids[i]] == Record(BodyOf(reqs[i]), if lo <= i < hi then Sent else Queued)
  }

  lemma RoundTripFromParts(s: Store, t: Store, d: DeviceId, ids: seq<CommandId>, reqs: seq<Request>,
                           raiseAt: Option<nat>, o: FlushOutcome)
    requires |ids| == |reqs| && Distinct(ids) && t.published == s.published
    requires forall i :: 0 <= i < |ids| ==> ids[i] in t.records && t.records[ids[i]] == Record(BodyOf(reqs[i]), Queued)
    requires
      var kept := ids[Evicted(ids)..];
      var n := Delivered(kept, raiseAt);
      && o.store.published == t.published + Messages(t.records, kept[..n])
      && o.flushed == SentRecords(t.records, kept[..n])
      && o.store.records == MarkSent(t.records, kept[..n])
      && o.raised == (n < |kept|)
      && QueueOf(o.store, d) == (if o.raised then kept[n + 1..] else [])
    ensures RoundTripOutcome(s, d, ids, reqs, raiseAt, o)
  {
    hide MarkSent, Messages, SentRecords, Outbox, BodyOf;
    var lo := Evicted(ids);
    var kept := ids[lo..];
    var n := Delivered(kept, raiseAt);
    assert kept[..n] == ids[lo..lo + n];
    SliceDelivered(t.records, ids, reqs, lo, lo + n);
    if n < |kept| {
      assert kept[n + 1..] == ids[lo + n + 1..];
    }
  }

  /** How many of a batch the cap pushes out of an empty queue. */
  function Evicted(ids: seq<CommandId>): (n: nat)
    ensures n <= |ids|
  {
    |ids| - Min(|ids|, QUEUE_CAP)
  }

  lemma SliceDelivered(records: map<CommandId, Record>, ids: seq<CommandId>, reqs: seq<Request>, lo: nat, hi: nat)
    requires |ids| == |reqs| && Distinct(ids) && lo <= hi <= |ids|
    requires forall i :: 0 <= i < |ids| ==> ids[i] in records && records[ids[i]] == Record(BodyOf(reqs[i]), Queued)
    ensures
      var after := MarkSent(records, ids[lo..hi]);
      forall i :: 0 <= i < |ids| ==>
        ids[i] in after && after[ids[i]] == Record(BodyOf(reqs[i]), if lo <= i < hi then Sent else Queued)
    ensures Messages(records, ids[lo..hi]) == Outbox(ids, reqs)[lo..hi]
    ensures SentRecords(records, ids[lo..hi])
         == seq(hi - lo, i requires 0 <= i < hi - lo => Record(BodyOf(reqs[lo + i]), Sent))
  {
    forall i | 0 <= i < |ids| ensures ids[i] in ids[lo..hi] <==> lo <= i < hi {
      if lo <= i < hi {
        assert ids[i] == ids[lo..hi][i - lo];
      }
    }
  }

  /** Flushing a queue whose every entry is live. */
  lemma FlushAllLive(t: Store, d: DeviceId, kept: seq<CommandId>, raiseAt: Option<nat>)
    requires QueueOf(t, d) == kept && Distinct(kept)
    requires forall id :: id in kept ==> id in t.records && t.records[id].status == Queued
    ensures
      var o := Flush(t, d, raiseAt);
      var n := Delivered(kept, raiseAt);
      && o.store.published == t.published + Messages(t.records, kept[..n])
      && o.flushed == SentRecords(t.records, kept[..n])
      && o.store.records == MarkSent(t.records, kept[..n])
      && o.raised == (n < |kept|)
      && QueueOf(o.store, d) == (if o.raised then kept[n + 1..] else [])
  {
    AllLive(t.records, kept);
    FlushExact(t, d, raiseAt);
    var o := Flush(t, d, raiseAt);
    if o.raised {
      BehindDistinct(kept, Delivered(kept, raiseAt), QueueOf(o.store, d));
    }
  }

  lemma {:induction false} AllLive(records: map<CommandId, Record>, q: seq<CommandId>)
    requires forall id :: id in q ==> id in records && records[id].status == Queued
    ensures Live(records, q) == q
  {
    if q != [] {
      AllLive(records, q[1..]);
    }
  }

  lemma BehindDistinct(q: seq<CommandId>, n: nat, left: seq<CommandId>)
    requires Distinct(q) && n < |q| && LeavesBehind(q, q[n], left)
    ensures left == q[n + 1..]
  {
    var k :| 0 <= k < |q| && q[k] == q[n] && left == q[k + 1..];
    assert k == n;
  }

  /** What a flush publishes tells the device the commands on record. */
  lemma FlushTells(s: Store, d: DeviceId, raiseAt: Option<nat>)
    requires Distinct(QueueOf(s, d))
    ensures
      var live := Live(s.records, QueueOf(s, d));
      var (n, messages) := (Delivered(live, raiseAt), Flush(s, d, raiseAt).store.published);
      && |messages| == |s.published| + n && s.published <= messages
      && forall i :: 0 <= i < n ==>
           live[i] in s.records && Tells(messages[|s.published| + i], live[i], s.records[live[i]].body)
  {
    hide Flush, MessageOf, Live;
    FlushExact(s, d, raiseAt);
    var live := Live(s.records, QueueOf(s, d));
    var n := Delivered(live, raiseAt);
    forall i | 0 <= i < n
      ensures live[i] in s.records
      ensures Tells(Messages(s.records, live[..n])[i], live[i], s.records[live[i]].body)
    {
      assert live[..n][i] == live[i];
      MessageTells(live[i], s.records[live[i]].body);
    }
  }

  /** What a flush publishes of commands issued offline says what was requested, field by field, and so do the records;
      the newest 100 requests are the ones delivered, up to the call that raises. */
  lemma OfflineSaysRequested(s: Store, d: DeviceId, ids: seq<CommandId>, reqs: seq<Request>, raiseAt: Option<nat>)
    requires OfflineBatch(s, d, ids, reqs) && QueueOf(s, d) == []
    ensures
      var t := Flush(IssueAll(s, ids, reqs), d, raiseAt).store;
      var lo := Max(0, |ids| - 100);
      var hi := if raiseAt.Some? && lo + raiseAt.value < |ids| then lo + raiseAt.value else |ids|;
      && |t.published| == |s.published| + hi - lo && s.published <= t.published
      && (forall i :: lo <= i < hi ==> Says(t.published[|s.published| + i - lo], ids[i], reqs[i]))
      && (forall i :: 0 <= i < |ids| ==>
            && ids[i] in t.records
            && Notes(t.records[ids[i]], reqs[i], if lo <= i < hi then Sent else Queued))
  {
    OfflineRoundTrip(s, d, ids, reqs, raiseAt);
    hide IssueAll, Flush, OfflineBatch, RoundTripOutcome;
    RoundTripSays(s, d, ids, reqs, raiseAt, Flush(IssueAll(s, ids, reqs), d, raiseAt));
  }

  lemma RoundTripSays(s: Store, d: DeviceId, ids: seq<CommandId>, reqs: seq<Request>, raiseAt: Option<nat>,
                      o: FlushOutcome)
    requires |ids| == |reqs| && RoundTripOutcome(s, d, ids, reqs, raiseAt, o)
    ensures
      var t := o.store;
      var lo := Max(0, |ids| - 100);
      var hi := if raiseAt.Some? && lo + raiseAt.value < |ids| then lo + raiseAt.value else |ids|;
      && |t.published| == |s.published| + hi - lo && s.published <= t.published
      && (forall i :: lo <= i < hi ==> Says(t.published[|s.published| + i - lo], ids[i], reqs[i]))
      && (forall i :: 0 <= i < |ids| ==>
            && ids[i] in t.records
            && Notes(t.records[ids[i]], reqs[i], if lo <= i < hi then Sent else Queued))
  {
    hide MessageOf, BodyOf, Says, Notes, Outbox;
    var t := o.store;
    var lo := Evicted(ids);
    var hi := lo + Delivered(ids[lo..], raiseAt);
    SliceSays(s.published, ids, reqs, lo, hi);
    forall i | 0 <= i < |ids|
      ensures ids[i] in t.records && Notes(t.records[ids[i]], reqs[i], if lo <= i < hi then Sent else Queued)
    {
      RequestNoted(ids[i], reqs[i], if lo <= i < hi then Sent else Queued);
    }
  }

  lemma SliceSays(before: seq<Message>, ids: seq<CommandId>, reqs: seq<Request>, lo: nat, hi: nat)
    requires |ids| == |reqs| && lo <= hi <= |ids|
    ensures
      var after := before + Outbox(ids, reqs)[lo..hi];
      && |after| == |before| + hi - lo && before <= after
      && forall i :: lo <= i < hi ==> Says(after[|before| + i - lo], ids[i], reqs[i])
  {
    hide Outbox, Says;
    var sent := Outbox(ids, reqs)[lo..hi];
    forall i | lo <= i < hi ensures Says((before + sent)[|before| + i - lo], ids[i], reqs[i]) {
      OutboxSays(ids, reqs, i);
      assert (before + sent)[|before| + (i - lo)] == sent[i - lo] == Outbox(ids, reqs)[i];
    }
  }

  lemma OutboxSays(ids: seq<CommandId>, reqs: seq<Request>, i: nat)
    requires i < |ids| == |reqs|
    ensures Says(Outbox(ids, reqs)[i], ids[i], reqs[i])
  {
    MessageTells(ids[i], BodyOf(reqs[i]));
    RequestNoted(ids[i], reqs[i], Sent);
  }

  // ---------------------------------------------------------------- runs of whole handlers

  datatype Handler =
    | HandleIssue(id: CommandId, req: Request, ok: bool)
    | HandleOnline(device: DeviceId, publisher: bool, raiseAt: Option<nat>)
    | HandleOffline(device: DeviceId)
    | HandleAck(id: CommandId)
    | HandleTimer(id: CommandId)

  function Handle(s: Store, h: Handler): Store {
    match h
    case HandleIssue(id, req, ok) => Issue(s, id, req, ok).0
    case HandleOnline(d, publisher, raiseAt) =>
      var present := s.(online := s.online + {d});
      if publisher then Flush(present, d, raiseAt).store else present
    case HandleOffline(d) => s.(online := s.online - {d})
    case HandleAck(id) => Settle(s, id, Ack).0
    case HandleTimer(id) => if id in s.timers then Settle(s.(timers := s.timers - {id}), id, Timeout).0 else s
  }

  /** A presence message is recorded whatever else happens; only coming online with a publisher flushes, and a flush
      that raises leaves the presence as recorded. */
  lemma PresenceExact(s: Store, d: DeviceId, publisher: bool, raiseAt: Option<nat>)
    requires Distinct(QueueOf(s, d))
    ensures Handle(s, HandleOffline(d)) == s.(online := s.online - {d})
    ensures
      var t := Handle(s, HandleOnline(d, publisher, raiseAt));
      var present := s.(online := s.online + {d});
      if publisher then exists o :: DeliversExactly(present, d, raiseAt, o) && t == o.store else t == present
  {
    if publisher {
      FlushExact(s.(online := s.online + {d}), d, raiseAt);
    }
  }

  function HandleAll(s: Store, run: seq<Handler>): Store
    decreases |run|
  {
    if run == [] then s else HandleAll(Handle(s, run[0]), run[1..])
  }

  /** Command ids are fresh when issued (they are random UUIDs). */
  ghost predicate FreshIds(s: Store, run: seq<Handler>)
    decreases |run|
  {
    run != [] ==> (run[0].HandleIssue? ==> run[0].id !in s.records) && FreshIds(Handle(s, run[0]), run[1..])
  }

  /** absent < QUEUED < SENT < {CONFIRMED, UNACKNOWLEDGED} */
  function Rank(records: map<CommandId, Record>, id: CommandId): nat {
    if id !in records then 0 else
    match records[id].status case Queued => 1 case Sent => 2 case _ => 3
  }

  lemma {:induction false} FlushOnlyRaises(s: Store, d: DeviceId, raiseAt: Option<nat>, id: CommandId)
    ensures
      var t := Flush(s, d, raiseAt).store;
      Rank(t.records, id) >= Rank(s.records, id)
      && (id in s.records && s.records[id].status != Queued ==> id in t.records && t.records[id] == s.records[id])
    decreases |QueueOf(s, d)|
  {
    var q := QueueOf(s, d);
    if q != [] {
      var popped := WithQueue(s, d, q[1..]);
      if q[0] !in s.records || s.records[q[0]].status != Queued {
        FlushOnlyRaises(popped, d, raiseAt, id);
      } else if raiseAt != Some(0) {
        FlushUnfoldsHead(s, d, raiseAt);
        FlushOnlyRaises(AfterDelivery(s, d), d, OneFewer(raiseAt), id);
      }
    }
  }

  /** With load and save in one step the rank of every command only climbs over any run, and both terminal statuses
      are absorbing: a CONFIRMED command is never downgraded, nor an UNACKNOWLEDGED one revived. */
  lemma {:induction false} TerminalAbsorbing(s: Store, run: seq<Handler>, id: CommandId)
    requires FreshIds(s, run)
    ensures
      var t := HandleAll(s, run);
      Rank(t.records, id) >= Rank(s.records, id)
      && (id in s.records && Terminal(s.records[id].status) ==> id in t.records && t.records[id] == s.records[id])
    decreases |run|
  {
    if run != [] {
      if run[0].HandleOnline? {
        var h := run[0];
        FlushOnlyRaises(s.(online := s.online + {h.device}), h.device, h.raiseAt, id);
      }
      TerminalAbsorbing(Handle(s, run[0]), run[1..], id);
    }
  }

  /** What becomes of a SENT command: the first acknowledgement, or the armed timer, decides. */
  function Verdict(run: seq<Handler>, id: CommandId, armed: bool): Status {
    if run == [] then Sent
    else if run[0] == HandleAck(id) then Confirmed
    else if run[0] == HandleTimer(id) && armed then Unacknowledged
    else Verdict(run[1..], id, armed)
  }

  lemma NotYetDecided(s: Store, h: Handler, id: CommandId)
    requires id in s.records && s.records[id].status == Sent && (h.HandleIssue? ==> h.id !in s.records)
    requires h != HandleAck(id) && !(h == HandleTimer(id) && id in s.timers)
    ensures
      var t := Handle(s, h);
      id in t.records && t.records[id] == s.records[id] && (id in t.timers <==> id in s.timers)
  {
    if h.HandleOnline? {
      var u := s.(online := s.online + {h.device});
      FlushOnlyRaises(u, h.device, h.raiseAt, id);
      FlushKeepsTimers(u, h.device, h.raiseAt);
    }
  }

  lemma {:induction false} FlushKeepsTimers(s: Store, d: DeviceId, raiseAt: Option<nat>)
    ensures Flush(s, d, raiseAt).store.timers == s.timers
    decreases |QueueOf(s, d)|
  {
    var q := QueueOf(s, d);
    if q != [] {
      if q[0] !in s.records || s.records[q[0]].status != Queued {
        FlushKeepsTimers(WithQueue(s, d, q[1..]), d, raiseAt);
      } else if raiseAt != Some(0) {
        FlushUnfoldsHead(s, d, raiseAt);
        FlushKeepsTimers(AfterDelivery(s, d), d, OneFewer(raiseAt));
      }
    }
  }

  /** Over any run of whole handlers a SENT command ends as the first of its acknowledgement and its armed timer says,
      whatever else happens before, between or after; its content never changes. */
  lemma {:induction false} FirstVerdictWins(s: Store, run: seq<Handler>, id: CommandId)
    requires FreshIds(s, run) && id in s.records && s.records[id].status == Sent
    ensures
      var t := HandleAll(s, run);
      id in t.records && t.records[id] == s.records[id].(status := Verdict(run, id, id in s.timers))
    decreases |run|
  {
    if run != [] {
      var u := Handle(s, run[0]);
      if run[0] == HandleAck(id) || (run[0] == HandleTimer(id) && id in s.timers) {
        TerminalAbsorbing(u, run[1..], id);
      } else {
        NotYetDecided(s, run[0], id);
        FirstVerdictWins(u, run[1..], id);
      }
    }
  }

  // ---------------------------------------------------------------- the handlers, step by step

  /** The command service and the listener's command handlers over the shared Redis state. */
  class CommandService {
    var records: map<CommandId, Record>
    var queues: map<DeviceId, seq<CommandId>>
    var online: set<DeviceId>
    var timers: set<CommandId>
    var published: seq<Message>

    ghost function View(): Store
      reads this
    {
      Store(records, queues, online, timers, published)
    }

    constructor ()
      ensures View() == Store(map[], map[], {}, {}, [])
    {
      records, queues, online, timers, published := map[], map[], {}, {}, [];
    }

    method IssueCommand(id: CommandId, req: Request, ok: bool) returns (outcome: IssueOutcome)
      modifies this
      ensures (View(), outcome) == Issue(old(View()), id, req, ok)
    {
      if req.kind != "on" && req.kind != "off" && req.kind != "value" {
        return InvalidType;
      }
      if req.kind == "value" && req.value == None {
        return MissingValue;
      }
      var body := BodyOf(req);
      if req.device in online {
        if !ok {
          return PublishRaised;
        }
        published := published + [MessageOf(id, body)];
        records := records[id := Record(body, Sent)];
        if req.ackTimeout > 0 {
          timers := timers + {id};
        }
        return Issued(Record(body, Sent));
      }
      if !ok {
        return QueueRejected;
      }
      var q := (if req.device in queues then queues[req.device] else []) + [id];
      queues := queues[req.device := LastN(q, QUEUE_CAP)];
      records := records[id := Record(body, Queued)];
      return Issued(Record(body, Queued));
    }

    method ConfirmCommand(id: CommandId) returns (updated: Option<Record>)
      modifies this
      ensures (View(), updated) == Settle(old(View()), id, Ack)
    {
      updated := ApplyEvent(id, Ack);
    }

    method ExpireCommand(id: CommandId) returns (updated: Option<Record>)
      modifies this
      ensures (View(), updated) == Settle(old(View()), id, Timeout)
    {
      updated := ApplyEvent(id, Timeout);
    }

    method ApplyEvent(id: CommandId, event: Event) returns (updated: Option<Record>)
      modifies this
      ensures (View(), updated) == Settle(old(View()), id, event)
    {
      if id !in records {
        return None;
      }
      var next := NextStatus(Some(records[id].status), event);
      if next == None {
        return None;
      }
      var record := records[id].(status := next.value);
      records := records[id := record];
      return Some(record);
    }

    method FlushQueued(d: DeviceId, raiseAt: Option<nat>) returns (flushed: seq<Record>, raised: bool)
      modifies this
      ensures FlushOutcome(View(), flushed, raised) == Flush(old(View()), d, raiseAt)
    {
      flushed, raised := [], false;
      var budget := raiseAt;
      while d in queues && queues[d] != []
        invariant !raised
        invariant
          var rest := Flush(View(), d, budget);
          Flush(old(View()), d, raiseAt) == rest.(flushed := flushed + rest.flushed)
        decreases |QueueOf(View(), d)|
      {
        ghost var before := View();
        var id := queues[d][0];
        queues := queues[d := queues[d][1..]];
        if id !in records {
          continue;
        }
        var next := NextStatus(Some(records[id].status), ReconnectFlush);
        if next == None {
          continue;
        }
        if budget == Some(0) {
          assert Flush(before, d, budget) == FlushOutcome(View(), [], true);
          raised := true;
          return;
        }
        FlushUnfoldsHead(before, d, budget);
        var updated := records[id].(status := next.value);
        published := published + [MessageOf(id, updated.body)];
        records := records[id := updated];
        budget := OneFewer(budget);
        flushed := flushed + [updated];
        assert View() == AfterDelivery(before, d);
      }
    }

    /** Presence first; a flush follows only with a publisher, and its raising is swallowed. */
    method HandleStatus(d: DeviceId, isOnline: bool, publisher: bool, raiseAt: Option<nat>)
      modifies this
      ensures View() == Handle(old(View()), if isOnline then HandleOnline(d, publisher, raiseAt) else HandleOffline(d))
    {
      if isOnline {
        online := online + {d};
        if publisher {
          var _, _ := FlushQueued(d, raiseAt);
        }
      } else {
        online := online - {d};
      }
    }
  }
}
