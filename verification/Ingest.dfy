/** Telemetry ingestion with listener and batch writer run one after the other: validation, the capped Redis list,
    the idempotent bulk insert and the writer's retry loop. */
module Ingest {
  import opened Prelude

  const MAX_QUEUE_SIZE: nat := 10000
  const BATCH_SIZE: nat := 1000

  // ---------------------------------------------------------------- payloads and envelopes

  type Readings = map<string, real>

  datatype Telemetry = Telemetry(ts: string, data: Readings)

  function Numbers(fields: map<string, Json>): Readings {
    map k | k in fields && fields[k].Num? :: fields[k].n
  }

  /** Accept the strict `{"ts", "data"}` form, or else the bare `{key: number}` form stamped with `now`. */
  function ValidateTelemetry(payload: Option<map<string, Json>>, now: string): Option<Telemetry> {
    match payload
    case None => None
    case Some(obj) =>
      if && "ts" in obj && obj["ts"].Text? && !Blank(obj["ts"].s)
         && "data" in obj && obj["data"].Obj? && obj["data"].fields != map[]
      then
        var data := obj["data"].fields;
        if forall k :: k in data ==> k != "" && data[k].Num?
        then Some(Telemetry(obj["ts"].s, Numbers(data)))
        else None
      else
        var readings := Numbers(obj - {"ts", "data"});
        if readings != map[] then Some(Telemetry(now, readings)) else None
  }

  /** A non-blank text under "ts" and a non-empty object under "data". */
  predicate StrictForm(obj: map<string, Json>) {
    && "ts" in obj && obj["ts"].Text? && !Blank(obj["ts"].s)
    && "data" in obj && obj["data"].Obj? && obj["data"].fields != map[]
  }

  /** The payload reports `t`: in the strict form its own time and exactly its data, all of it numbers under non-empty
      keys; in the bare form, at `now`, exactly its numeric fields outside the two envelope keys, and at least one. */
  ghost predicate Reports(payload: Option<map<string, Json>>, now: string, t: Telemetry) {
    && payload.Some?
    && var obj := payload.value;
       if StrictForm(obj) then
         var data := obj["data"].fields;
         && t.ts == obj["ts"].s && (forall k :: k in t.data <==> k in data)
         && (forall k :: k in data ==> k != "" && data[k].Num? && t.data[k] == data[k].n)
       else
         && t.ts == now && t.data != map[]
         && (forall k :: k in t.data <==> k in obj && k != "ts" && k != "data" && obj[k].Num?)
         && (forall k :: k in t.data ==> t.data[k] == obj[k].n)
  }

  /** A payload is accepted exactly as what it reports. */
  lemma ValidateExact(payload: Option<map<string, Json>>, now: string, t: Telemetry)
    ensures ValidateTelemetry(payload, now) == Some(t) <==> Reports(payload, now, t)
  {
    if payload.Some? {
      var obj := payload.value;
      if StrictForm(obj) {
        var data := obj["data"].fields;
        if Reports(payload, now, t) {
          assert Numbers(data) == t.data;
        }
      } else if Reports(payload, now, t) {
        assert Numbers(obj - {"ts", "data"}) == t.data;
      }
    }
  }

  /** Which payloads are accepted: strict ones whose data are all numbers under non-empty keys, and others that have at
      least one number outside the envelope keys. */
  lemma AcceptedIff(payload: Option<map<string, Json>>, now: string)
    ensures ValidateTelemetry(payload, now).Some?
            <==> && payload.Some?
                 && var obj := payload.value;
                    if StrictForm(obj) then
                      forall k :: k in obj["data"].fields ==> k != "" && obj["data"].fields[k].Num?
                    else exists k :: k in obj && k != "ts" && k != "data" && obj[k].Num?
  {
    if payload.Some? && !StrictForm(payload.value) {
      var obj := payload.value;
      if k :| k in obj && k != "ts" && k != "data" && obj[k].Num? {
        assert k in Numbers(obj - {"ts", "data"});
      } else {
        assert Numbers(obj - {"ts", "data"}) == map[];
      }
    }
  }

  /** One queued item: not a JSON object, or an object whose fields are `None` when absent or of the wrong type. */
  datatype Raw =
    | Garbled
    | Object(org: Option<string>, device: Option<string>, ts: Option<string>, data: Option<Readings>)

  datatype Envelope = Envelope(org: Option<string>, device: string, ts: string, data: Readings)

  function ParseEnvelope(raw: Raw): Option<Envelope> {
    match raw
    case Garbled => None
    case Object(org, device, ts, data) =>
      if device == None || device == Some("") then None
      else if ts == None || Blank(ts.value) then None
      else if data == None then None
      else Some(Envelope(org, device.value, ts.value, data.value))
  }

  /** The writer reads an envelope out of exactly the objects that carry its four fields, with a non-empty device and a
      time that is not blank. */
  lemma ParseEnvelopeExact(raw: Raw, e: Envelope)
    ensures ParseEnvelope(raw) == Some(e)
            <==> raw == Object(e.org, Some(e.device), Some(e.ts), Some(e.data)) && e.device != "" && !Blank(e.ts)
  {
  }

  function EnvelopeOf(org: string, device: string, t: Telemetry): Raw {
    Object(Some(org), Some(device), Some(t.ts), Some(t.data))
  }

  /** Nothing the listener accepts is ever rejected by the writer, and the writer reads back what was accepted. */
  lemma AcceptedIsParsed(payload: Option<map<string, Json>>, now: string, org: string, device: string)
    requires device != "" && !Blank(now)
    ensures
      var t := ValidateTelemetry(payload, now);
      t.Some? ==>
        var parsed := ParseEnvelope(EnvelopeOf(org, device, t.value));
        parsed == Some(Envelope(Some(org), device, t.value.ts, t.value.data)) && t.value.data != map[]
  {
    if ValidateTelemetry(payload, now).Some? && "data" in payload.value && payload.value["data"].Obj? {
      var data := payload.value["data"].fields;
      if data != map[] {
        var k :| k in data;
        assert data[k].Num? ==> k in Numbers(data);
      }
    }
  }

  // ---------------------------------------------------------------- first write wins

  type Key = (string, string)

  datatype Row = Row(org: string, data: Readings)

  function KeyOf(e: Envelope): Key {
    (e.device, e.ts)
  }

  /** Building the rows reads org_id without a default. */
  predicate HasOrgs(batch: seq<Envelope>) {
    forall i :: 0 <= i < |batch| ==> batch[i].org.Some?
  }

  function RowOf(e: Envelope): Row
    requires e.org.Some?
  {
    Row(e.org.value, e.data)
  }

  /** INSERT ... ON CONFLICT (device_id, ts) DO NOTHING, row by row in batch order. */
  function Insert(table: map<Key, Row>, batch: seq<Envelope>): map<Key, Row>
    requires HasOrgs(batch)
    decreases |batch|
  {
    if batch == [] then table
    else Insert(if KeyOf(batch[0]) in table then table else table[KeyOf(batch[0]) := RowOf(batch[0])], batch[1..])
  }

  ghost predicate FirstWith(batch: seq<Envelope>, k: Key, i: int) {
    && 0 <= i < |batch| && batch[i].device == k.0 && batch[i].ts == k.1
    && forall j :: 0 <= j < i ==> !(batch[j].device == k.0 && batch[j].ts == k.1)
  }

  /** The table after an insert, key by key: existing rows are untouched, a new key holds the first row of the batch
      that carries it, and no other key appears. */
  lemma {:induction false} InsertFirstWins(table: map<Key, Row>, batch: seq<Envelope>, k: Key)
    requires HasOrgs(batch)
    ensures k in table ==> k in Insert(table, batch) && Insert(table, batch)[k] == table[k]
    ensures k !in table ==>
              (k in Insert(table, batch) <==> exists i :: 0 <= i < |batch| && (batch[i].device, batch[i].ts) == k)
    ensures k !in table ==>
              forall i :: FirstWith(batch, k, i) ==>
                k in Insert(table, batch) && Insert(table, batch)[k] == Row(batch[i].org.value, batch[i].data)
    decreases |batch|
  {
    if batch != [] {
      var head := batch[0];
      var rest := batch[1..];
      var t := if KeyOf(head) in table then table else table[KeyOf(head) := RowOf(head)];
      InsertFirstWins(t, rest, k);
      if k !in table && KeyOf(head) != k {
        forall i | FirstWith(batch, k, i)
          ensures k in Insert(table, batch) && Insert(table, batch)[k] == RowOf(batch[i])
        {
          assert i > 0;
          assert FirstWith(rest, k, i - 1) by {
            forall j | 0 <= j < i - 1 ensures KeyOf(rest[j]) != k { assert rest[j] == batch[j + 1]; }
          }
        }
        assert forall i :: 0 < i < |batch| ==> batch[i] == rest[i - 1];
        assert forall i :: 0 <= i < |rest| ==> rest[i] == batch[i + 1];
      }
    }
  }

  /** A batch whose keys are all present changes nothing: retries and redeliveries are no-ops. */
  lemma {:induction false} InsertAbsorbed(table: map<Key, Row>, batch: seq<Envelope>)
    requires HasOrgs(batch) && forall i :: 0 <= i < |batch| ==> KeyOf(batch[i]) in table
    ensures Insert(table, batch) == table
    decreases |batch|
  {
    if batch != [] {
      assert forall i :: 0 <= i < |batch[1..]| ==> batch[1..][i] == batch[i + 1];
      InsertAbsorbed(table, batch[1..]);
    }
  }

  /** Re-inserting a stored batch, or any redelivered part of it, is a no-op even after other batches went in. */
  lemma ReinsertIsNoOp(table: map<Key, Row>, batch: seq<Envelope>, later: seq<Envelope>, again: seq<Envelope>)
    requires HasOrgs(batch) && HasOrgs(later) && HasOrgs(again)
    requires forall i :: 0 <= i < |again| ==> again[i] in batch
    ensures Insert(Insert(Insert(table, batch), later), again) == Insert(Insert(table, batch), later)
  {
    var t := Insert(table, batch);
    var u := Insert(t, later);
    forall i | 0 <= i < |again| ensures KeyOf(again[i]) in u {
      var k := KeyOf(again[i]);
      var j :| 0 <= j < |batch| && batch[j] == again[i];
      InsertFirstWins(table, batch, k);
      InsertFirstWins(t, later, k);
    }
    InsertAbsorbed(u, again);
  }

  // ---------------------------------------------------------------- one batch

  /** How the calls of one poll end. `Uncertain`: the rows are committed, but the connection is lost before the reply.
      `ReadRaises` and `TrimRaises` are failures of Redis. */
  datatype Answer = Up | Unavailable | Uncertain | Broken | ReadRaises | TrimRaises

  datatype BatchResult = Processed(n: nat) | Retry | Failed

  function ParseAll(raws: seq<Raw>): seq<Envelope> {
    if raws == [] then []
    else
      var rest := ParseAll(raws[..|raws| - 1]);
      match ParseEnvelope(raws[|raws| - 1]) case None => rest case Some(e) => rest + [e]
  }

  /** One undisturbed cycle over the whole backlog. */
  function Cycle(queue: seq<Raw>, table: map<Key, Row>, answer: Answer): (seq<Raw>, map<Key, Row>, BatchResult) {
    var batch := ParseAll(queue);
    if answer == ReadRaises then (queue, table, Failed)
    else if queue == [] then (queue, table, Processed(0))
    else if batch == [] then
      if answer == TrimRaises then (queue, table, Failed) else ([], table, Processed(|queue|))
    else if !HasOrgs(batch) then (queue, table, Failed)
    else match answer
      case Up => ([], Insert(table, batch), Processed(|queue|))
      case Unavailable => (queue, table, Retry)
      case Uncertain => (queue, Insert(table, batch), Retry)
      case TrimRaises => (queue, Insert(table, batch), Failed)
      case _ => (queue, table, Failed)
  }

  /** The queued item carries a well-formed envelope with this key. */
  predicate Carries(raw: Raw, k: Key) {
    raw.Object? && raw.device == Some(k.0) && raw.ts == Some(k.1) && raw.data.Some? && k.0 != "" && !Blank(k.1)
  }

  /** Item `i` is the newest of the list that carries the key. */
  ghost predicate NewestWith(queue: seq<Raw>, k: Key, i: int) {
    0 <= i < |queue| && Carries(queue[i], k) && forall j :: 0 <= j < i ==> !Carries(queue[j], k)
  }

  /** The first envelope of the batch with a key comes from the newest item that carries the key. */
  lemma {:induction false} FirstIsNewest(queue: seq<Raw>, k: Key, m: nat) returns (i: nat)
    requires FirstWith(ParseAll(queue), k, m)
    ensures NewestWith(queue, k, i)
    ensures ParseAll(queue)[m] == Envelope(queue[i].org, k.0, k.1, queue[i].data.value)
  {
    var n := |queue| - 1;
    var front, batch := ParseAll(queue[..n]), ParseAll(queue);
    assert batch[..|front|] == front;
    if m < |front| {
      PrefixFirst(front, batch, k, m);
      i := FirstIsNewest(queue[..n], k, m);
    } else {
      i := n;
      assert forall l :: 0 <= l < |front| ==> front[l] == batch[l];
      forall j | 0 <= j < n ensures !Carries(queue[j], k) {
        if Carries(queue[j], k) {
          CarriedIsParsed(queue[..n], k, j);
        }
      }
    }
  }

  lemma PrefixFirst(front: seq<Envelope>, batch: seq<Envelope>, k: Key, m: nat)
    requires front <= batch && m < |front|
    ensures FirstWith(front, k, m) <==> FirstWith(batch, k, m)
  {
    assert forall j :: 0 <= j < |front| ==> front[j] == batch[j];
  }

  /** An item with the key leaves an envelope with the key. */
  lemma {:induction false} CarriedIsParsed(queue: seq<Raw>, k: Key, j: nat)
    requires j < |queue| && Carries(queue[j], k)
    ensures exists m :: 0 <= m < |ParseAll(queue)| && (ParseAll(queue)[m].device, ParseAll(queue)[m].ts) == k
  {
    var n := |queue| - 1;
    var front, batch := ParseAll(queue[..n]), ParseAll(queue);
    if j < n {
      CarriedIsParsed(queue[..n], k, j);
      var m :| 0 <= m < |front| && (front[m].device, front[m].ts) == k;
      assert batch[m] == front[m];
    } else {
      assert batch[|front|] == Envelope(queue[n].org, k.0, k.1, queue[n].data.value);
    }
  }

  lemma {:induction false} FirstExists(batch: seq<Envelope>, k: Key)
    requires exists i :: 0 <= i < |batch| && (batch[i].device, batch[i].ts) == k
    ensures exists i :: FirstWith(batch, k, i)
    decreases |batch|
  {
    var i :| 0 <= i < |batch| && (batch[i].device, batch[i].ts) == k;
    if !FirstWith(batch, k, i) {
      var j :| 0 <= j < i && (batch[j].device, batch[j].ts) == k;
      var shorter := batch[..i];
      assert (shorter[j].device, shorter[j].ts) == k;
      FirstExists(shorter, k);
      var m :| FirstWith(shorter, k, m);
      assert forall l :: 0 <= l <= m ==> batch[l] == shorter[l];
      assert FirstWith(batch, k, m);
    }
  }

  // ---------------------------------------------------------------- the retry loop

  const BACKOFF_INITIAL: real := 0.5
  const BACKOFF_MAX: real := 30.0
  const IDLE_SLEEP: real := 60.0

  function Double(backoff: real): real {
    if backoff * 2.0 <= BACKOFF_MAX then backoff * 2.0 else BACKOFF_MAX
  }

  /** The state of the writer between polls; `sleeps` lists the pauses it has taken. */
  datatype Writer = Writer(queue: seq<Raw>, table: map<Key, Row>, backoff: real, sleeps: seq<real>, failed: bool)

  function Poll(w: Writer, answer: Answer): Writer {
    if w.failed then w else
    var (queue, table, result) := Cycle(w.queue, w.table, answer);
    match result
    case Retry => Writer(queue, table, Double(w.backoff), w.sleeps + [w.backoff], false)
    case Failed => Writer(queue, table, w.backoff, w.sleeps, true)
    case Processed(n) =>
      Writer(queue, table, BACKOFF_INITIAL, if n == 0 then w.sleeps + [IDLE_SLEEP] else w.sleeps, false)
  }

  /** The answers at the successive polls decide the run. */
  function Polls(w: Writer, answers: seq<Answer>): Writer
    decreases |answers|
  {
    if answers == [] then w else Polls(Poll(w, answers[0]), answers[1..])
  }

  /** The pause before the retry that follows `n` failures in a row. */
  function BackoffAfter(n: nat): real {
    if n == 0 then BACKOFF_INITIAL else Double(BackoffAfter(n - 1))
  }

  function Power(n: nat): nat {
    if n == 0 then 1 else 2 * Power(n - 1)
  }

  /** The pauses are half a second, doubled for every failure before, and at most half a minute. */
  lemma {:induction false} BackoffExact(n: nat)
    ensures BackoffAfter(n) == if Power(n) <= 60 then Power(n) as real * 0.5 else 30.0
  {
    if n > 0 {
      BackoffExact(n - 1);
    }
  }

  /** A poll that goes through empties the queue and forgets the backoff, pausing a minute only when there was nothing
      to do; rows that were there stay, and a new key gets the content of the newest queued item that carries it. */
  lemma SuccessfulPoll(w: Writer, k: Key)
    requires !w.failed && HasOrgs(ParseAll(w.queue))
    ensures
      var v := Poll(w, Up);
      && v.queue == [] && !v.failed && v.backoff == 0.5
      && v.sleeps == w.sleeps + (if w.queue == [] then [60.0] else [])
      && (k in w.table ==> k in v.table && v.table[k] == w.table[k])
      && (k !in w.table ==> (k in v.table <==> exists i :: NewestWith(w.queue, k, i)))
      && (forall i :: k !in w.table && NewestWith(w.queue, k, i) ==>
            w.queue[i].org.Some? && v.table[k] == Row(w.queue[i].org.value, w.queue[i].data.value))
  {
    NewestIsStored(w.queue, w.table, k);
    hide Insert, NewestWith;
    assert ParseAll([]) == [] by { ParseAllEmpty(); }
    hide ParseAll;
  }

  lemma NewestIsStored(queue: seq<Raw>, table: map<Key, Row>, k: Key)
    requires HasOrgs(ParseAll(queue))
    ensures
      var after := Insert(table, ParseAll(queue));
      && (k in table ==> k in after && after[k] == table[k])
      && (k !in table ==> (k in after <==> exists i :: NewestWith(queue, k, i)))
      && (forall i :: k !in table && NewestWith(queue, k, i) ==>
            queue[i].org.Some? && after[k] == Row(queue[i].org.value, queue[i].data.value))
  {
    var batch := ParseAll(queue);
    InsertFirstWins(table, batch, k);
    hide Insert, ParseAll;
    forall i | NewestWith(queue, k, i)
      ensures exists m :: FirstWith(batch, k, m) && batch[m] == Envelope(queue[i].org, k.0, k.1, queue[i].data.value)
    {
      CarriedIsParsed(queue, k, i);
      FirstExists(batch, k);
      var m: nat :| FirstWith(batch, k, m);
      var _ := FirstIsNewest(queue, k, m);
    }
    if k !in table && exists m :: 0 <= m < |batch| && (batch[m].device, batch[m].ts) == k {
      FirstExists(batch, k);
      var m: nat :| FirstWith(batch, k, m);
      var _ := FirstIsNewest(queue, k, m);
    }
  }

  /** A failure that is no outage stops the worker: a refused write, a row without organisation, or Redis failing. The
      queue stays, and the rows are in the table only if it was the trim that failed, after their commit. */
  lemma FailureStops(w: Writer, answer: Answer)
    requires !w.failed && ParseAll(w.queue) != []
    requires answer == Broken || answer == ReadRaises || answer == TrimRaises || !HasOrgs(ParseAll(w.queue))
    ensures
      var v := Poll(w, answer);
      && v.failed && v.queue == w.queue && v.backoff == w.backoff && v.sleeps == w.sleeps
      && v.table == (if answer == TrimRaises && HasOrgs(ParseAll(w.queue)) then Insert(w.table, ParseAll(w.queue))
                     else w.table)
  {
  }

  /** Polls that end in TimescaleUnavailable, before the commit or after it. */
  predicate Outage(answers: seq<Answer>) {
    forall i :: 0 <= i < |answers| ==> answers[i] == Unavailable || answers[i] == Uncertain
  }

  function Pauses(k: nat, n: nat): seq<real> {
    seq(n, i requires 0 <= i < n => BackoffAfter(k + i))
  }

  lemma PausesCons(k: nat, n: nat)
    requires n > 0
    ensures Pauses(k, n) == [BackoffAfter(k)] + Pauses(k + 1, n - 1)
  {
  }

  /** An outage leaves the queue and sleeps the doubling backoff; the table changes only if some commit went through,
      and then it holds the batch once. */
  lemma {:induction false} OutageKeepsBatch(w: Writer, answers: seq<Answer>, k: nat)
    requires Outage(answers) && w.backoff == BackoffAfter(k) && !w.failed
    requires var batch := ParseAll(w.queue); batch != [] && HasOrgs(batch)
    ensures Polls(w, answers)
         == w.(table := if Uncertain in answers then Insert(w.table, ParseAll(w.queue)) else w.table,
               backoff := BackoffAfter(k + |answers|), sleeps := w.sleeps + Pauses(k, |answers|))
    decreases |answers|
  {
    hide BackoffAfter;
    if answers == [] {
      assert w.sleeps + Pauses(k, 0) == w.sleeps;
    } else {
      var batch := ParseAll(w.queue);
      var v := Poll(w, answers[0]);
      assert v.backoff == BackoffAfter(k + 1) by { NextBackoff(k); }
      OutageKeepsBatch(v, answers[1..], k + 1);
      PausesCons(k, |answers|);
      assert w.sleeps + [BackoffAfter(k)] + Pauses(k + 1, |answers| - 1) == w.sleeps + Pauses(k, |answers|);
      InsertTwice(w.table, batch);
      assert answers == [answers[0]] + answers[1..];
    }
  }

  lemma NextBackoff(k: nat)
    ensures Double(BackoffAfter(k)) == BackoffAfter(k + 1)
  {
  }

  lemma InsertTwice(table: map<Key, Row>, batch: seq<Envelope>)
    requires HasOrgs(batch)
    ensures Insert(Insert(table, batch), batch) == Insert(table, batch)
  {
    assert HasOrgs([]) && Insert(Insert(table, batch), []) == Insert(table, batch);
    ReinsertIsNoOp(table, batch, [], batch);
  }

  lemma {:induction false} PollsConcat(w: Writer, xs: seq<Answer>, ys: seq<Answer>)
    ensures Polls(w, xs + ys) == Polls(Polls(w, xs), ys)
    decreases |xs|
  {
    if xs == [] {
      assert [] + ys == ys;
    } else {
      assert (xs + ys)[1..] == xs[1..] + ys;
      PollsConcat(Poll(w, xs[0]), xs[1..], ys);
    }
  }

  lemma ParseAllEmpty()
    ensures ParseAll([]) == []
  {
  }

  predicate RedisUp(answers: seq<Answer>) {
    forall i :: 0 <= i < |answers| ==> answers[i] != ReadRaises && answers[i] != TrimRaises
  }

  /** Nothing but poison (or nothing at all) is cleared without the database, whatever its state. */
  lemma {:induction false} PoisonIgnoresDatabase(w: Writer, answers: seq<Answer>)
    requires ParseAll(w.queue) == [] && !w.failed && answers != [] && RedisUp(answers)
    ensures var v := Polls(w, answers); v.queue == [] && v.table == w.table && !v.failed
    decreases |answers|
  {
    var v := Poll(w, answers[0]);
    if |answers| == 1 {
      assert answers[1..] == [];
    } else {
      ParseAllEmpty();
      PoisonIgnoresDatabase(v, answers[1..]);
    }
  }

  lemma {:induction false} FailedStays(w: Writer, answers: seq<Answer>)
    requires w.failed
    ensures Polls(w, answers) == w
    decreases |answers|
  {
    if answers != [] {
      FailedStays(w, answers[1..]);
    }
  }

  lemma OnePoll(w: Writer, answer: Answer)
    ensures Polls(w, [answer]) == Poll(w, answer)
  {
    assert [answer][1..] == [];
    assert Polls(Poll(w, answer), []) == Poll(w, answer);
  }

  /** Any number of outages, reported before the commit or after it, followed by a success leaves the same queue, table
      and verdict as one success. */
  lemma OutageThenSuccess(w: Writer, outage: seq<Answer>)
    requires Outage(outage) && !w.failed && w.backoff == BACKOFF_INITIAL
    ensures
      var late := Polls(w, outage + [Up]);
      var prompt := Polls(w, [Up]);
      late.queue == prompt.queue && late.table == prompt.table && late.failed == prompt.failed
  {
    hide Insert, BackoffAfter;
    var batch := ParseAll(w.queue);
    OnePoll(w, Up);
    if batch == [] {
      PoisonIgnoresDatabase(w, outage + [Up]);
      PoisonIgnoresDatabase(w, [Up]);
    } else if !HasOrgs(batch) {
      var answers := outage + [Up];
      assert Poll(w, answers[0]) == w.(failed := true) == Poll(w, Up);
      FailedStays(w.(failed := true), answers[1..]);
    } else {
      PollsConcat(w, outage, [Up]);
      assert BackoffAfter(0) == BACKOFF_INITIAL by { FirstBackoff(); }
      OutageKeepsBatch(w, outage, 0);
      OnePoll(Polls(w, outage), Up);
      InsertTwice(w.table, batch);
    }
  }

  lemma FirstBackoff()
    ensures BackoffAfter(0) == BACKOFF_INITIAL
  {
  }

  // ---------------------------------------------------------------- faults and restarts

  /** A worker that has stopped is started again. */
  function Restart(w: Writer): Writer {
    if w.failed then w.(failed := false, backoff := BACKOFF_INITIAL) else w
  }

  /** The polls of a supervised worker. */
  function Supervised(w: Writer, answers: seq<Answer>): Writer
    decreases |answers|
  {
    if answers == [] then w else Supervised(Poll(Restart(w), answers[0]), answers[1..])
  }

  predicate SameData(a: Writer, b: Writer) {
    a.queue == b.queue && a.table == b.table
  }

  /** Whatever one poll comes to, a success after it ends as a success at once would have. */
  lemma OneFaultIsHarmless(w: Writer, answer: Answer)
    ensures SameData(Poll(Restart(Poll(Restart(w), answer)), Up), Poll(Restart(w), Up))
  {
    hide Insert, ParseAll;
    if HasOrgs(ParseAll(w.queue)) {
      InsertTwice(w.table, ParseAll(w.queue));
    }
    assert ParseAll([]) == [] by { ParseAllEmpty(); }
  }

  /** Any run of faults of any kind, with restarts wherever the worker stops, followed by a success, stores and trims
      exactly what one success would have: commits that were not followed by their trim are harmless. */
  lemma {:induction false} FaultsThenSuccess(w: Writer, faults: seq<Answer>)
    ensures SameData(Supervised(w, faults + [Up]), Poll(Restart(w), Up))
    decreases |faults|
  {
    hide Poll, Restart;
    if faults == [] {
      assert ([] + [Up])[1..] == [] && [] + [Up] == [Up];
      assert Supervised(Poll(Restart(w), Up), []) == Poll(Restart(w), Up);
    } else {
      var v := Poll(Restart(w), faults[0]);
      assert (faults + [Up])[1..] == faults[1..] + [Up];
      FaultsThenSuccess(v, faults[1..]);
      OneFaultIsHarmless(w, faults[0]);
    }
  }

  // ---------------------------------------------------------------- the workers, step by step

  datatype Handled = Rejected | Accepted | Raised

  /** Redis list and hypertable as the listener and the writer change them. */
  class IngestPipeline {
    var queue: seq<Raw>
    var table: map<Key, Row>
    var backoff: real
    var sleeps: seq<real>
    var failed: bool

    ghost function View(): Writer
      reads this
    {
      Writer(queue, table, backoff, sleeps, failed)
    }

    constructor ()
      ensures View() == Writer([], map[], BACKOFF_INITIAL, [], false)
    {
      queue, table, backoff, sleeps, failed := [], map[], BACKOFF_INITIAL, [], false;
    }

    /** LPUSH the envelope, then cap the list at its newest entries; either call may raise. */
    method HandleTelemetry(org: string, device: string, payload: Option<map<string, Json>>, now: string,
                           pushOk: bool, capOk: bool) returns (handled: Handled)
      modifies this`queue
      ensures handled == Rejected <==> forall t :: !Reports(payload, now, t)
      ensures handled != Rejected ==> handled == if pushOk && capOk then Accepted else Raised
      ensures handled == Rejected || !pushOk ==> queue == old(queue)
      ensures handled != Rejected && pushOk ==>
                exists t :: && Reports(payload, now, t)
                            && var entry := Object(Some(org), Some(device), Some(t.ts), Some(t.data));
                               var pushed := [entry] + old(queue);
                               queue == if capOk then pushed[..Min(|pushed|, 10000)] else pushed
    {
      forall t { ValidateExact(payload, now, t); }
      var validated := ValidateTelemetry(payload, now);
      if validated == None {
        return Rejected;
      }
      if !pushOk {
        return Raised;
      }
      queue := [EnvelopeOf(org, device, validated.value)] + queue;
      if !capOk {
        return Raised;
      }
      queue := queue[..Min(|queue|, MAX_QUEUE_SIZE)];
      return Accepted;
    }

    method ProcessBatch(batchSize: nat, answer: Answer) returns (result: BatchResult)
      requires batchSize > 0
      modifies this`queue, this`table
      ensures (queue, table, result) == Cycle(old(queue), old(table), answer)
    {
      if answer == ReadRaises {
        return Failed;
      }
      var raws := queue[..Min(|queue|, batchSize)];
      var backlog := |queue|;
      if backlog > batchSize {
        raws := queue[..backlog];
      }
      assert raws == queue;
      if raws == [] {
        return Processed(0);
      }
      var envelopes: seq<Envelope> := [];
      for i := 0 to |raws|
        invariant envelopes == ParseAll(raws[..i])
      {
        assert raws[..i + 1][..i] == raws[..i];
        var parsed := ParseEnvelope(raws[i]);
        if parsed.Some? {
          envelopes := envelopes + [parsed.value];
        }
      }
      assert raws[..|raws|] == raws;
      if envelopes != [] {
        if !HasOrgs(envelopes) || answer == Broken {
          return Failed;
        }
        if answer == Unavailable {
          return Retry;
        }
        table := Insert(table, envelopes);
        if answer == Uncertain {
          return Retry;
        }
      }
      if answer == TrimRaises {
        return Failed;
      }
      queue := queue[|raws|..];
      assert queue == [];
      return Processed(|raws|);
    }

    /** The run loop, one iteration per poll; it stops by itself only on a failure that is not an outage. */
    method Run(answers: seq<Answer>, batchSize: nat)
      requires batchSize > 0
      modifies this
      ensures View() == Polls(old(View()), answers)
    {
      hide Cycle;
      var i := 0;
      while i < |answers| && !failed
        invariant i <= |answers|
        invariant Polls(View(), answers[i..]) == Polls(old(View()), answers)
      {
        ghost var before := View();
        var result := ProcessBatch(batchSize, answers[i]);
        match result {
          case Retry =>
            sleeps := sleeps + [backoff];
            backoff := Double(backoff);
          case Failed =>
            failed := true;
          case Processed(n) =>
            backoff := BACKOFF_INITIAL;
            if n == 0 {
              sleeps := sleeps + [IDLE_SLEEP];
            }
        }
        assert View() == Poll(before, answers[i]);
        assert answers[i..][1..] == answers[i + 1..];
        i := i + 1;
      }
      if failed {
        FailedStays(View(), answers[i..]);
      }
    }
  }
}
