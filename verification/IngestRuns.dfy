/** Telemetry ingestion with every Redis or database call of the listener and of the one batch writer as a step.

    The listener pushes at the head of the list and caps it at its newest entries; the writer reads from the head,
    commits, and only then trims from the head as many entries as it read. Pushes may land between those calls.
    Any of the calls may raise: a push that raises is no step, a cap that raises leaves the list long, and a writer
    whose call raises starts over. Entries carry the serial number of their push; `accepted`, `capped`, `lost`,
    `snapshot`, `mark` and `arrivals` are history variables that no step consults. */
module IngestRuns {
  import opened Prelude
  import opened Ingest

  datatype Entry = Entry(serial: nat, env: Envelope)

  /** Where the writer stands between two calls of process_batch. */
  datatype Pc =
    | Idle
    | Ranged(first: seq<Entry>)     // after LRANGE 0 999
    | Sized(backlog: nat)           // after LLEN, when the backlog calls for a larger read
    | Read(batch: seq<Entry>)       // about to insert
    | Committed(batch: seq<Entry>)  // about to LTRIM

  datatype System = System(
    queue: seq<Entry>,
    table: map<Key, Row>,
    writer: Pc,
    capDue: bool,          // the listener has pushed and not yet capped
    next: nat,             // serial of the next push
    accepted: set<Entry>,
    capped: set<Entry>,    // dropped by the listener's cap
    lost: set<Entry>,      // removed by an LTRIM of the writer without ever having been read
    snapshot: seq<Entry>,  // the list at the LRANGE the writer is using
    mark: nat,             // the next serial at that LRANGE
    arrivals: nat)         // pushes since that LRANGE

  /** `Cap(false)` and `WriterRaises` are the calls that raise without effect; `Write` makes the writer's next call, the
      insert ending as the answer says. A call that takes effect and then raises is the same as the call going through,
      but for the insert, whose `Uncertain` end is an answer of its own. */
  datatype Step = Push(env: Envelope) | Cap(ok: bool) | Write(answer: Answer) | WriterRaises

  function Envs(batch: seq<Entry>): seq<Envelope> {
    seq(|batch|, i requires 0 <= i < |batch| => batch[i].env)
  }

  function Elements(xs: seq<Entry>): set<Entry> {
    set e | e in xs
  }

  predicate Enabled(s: System, step: Step) {
    match step
    case Push(env) => !s.capDue && env.org.Some?
    case Cap(_) => s.capDue
    case Write(_) => true
    case WriterRaises => true
  }

  function Apply(s: System, step: Step): System {
    match step
    case Push(env) =>
      var e := Entry(s.next, env);
      s.(queue := [e] + s.queue, capDue := true, next := s.next + 1,
         accepted := s.accepted + {e}, arrivals := s.arrivals + 1)
    case Cap(ok) =>
      if !ok then s.(capDue := false) else
      var keep := Min(|s.queue|, MAX_QUEUE_SIZE);
      s.(queue := s.queue[..keep], capDue := false, capped := s.capped + Elements(s.queue[keep..]))
    case Write(answer) => WriterCall(s, answer)
    case WriterRaises => s.(writer := Idle)
  }

  function Range(s: System, n: nat): seq<Entry> {
    s.queue[..Min(|s.queue|, n)]
  }

  function Observe(s: System): System {
    s.(snapshot := s.queue, mark := s.next, arrivals := 0)
  }

  function WriterCall(s: System, answer: Answer): System {
    match s.writer
    case Idle => Observe(s).(writer := Ranged(Range(s, BATCH_SIZE)))
    case Ranged(first) =>
      if |s.queue| > BATCH_SIZE then s.(writer := Sized(|s.queue|))
      else s.(writer := if first == [] then Idle else Read(first))
    case Sized(backlog) =>
      var batch := Range(s, backlog);
      Observe(s).(writer := if batch == [] then Idle else Read(batch))
    case Read(batch) =>
      if answer == Up && HasOrgs(Envs(batch)) then s.(table := Insert(s.table, Envs(batch)), writer := Committed(batch))
      else if answer == Uncertain && HasOrgs(Envs(batch)) then s.(table := Insert(s.table, Envs(batch)), writer := Idle)
      else s.(writer := Idle)
    case Committed(batch) =>
      var n := Min(|s.queue|, |batch|);
      s.(queue := s.queue[n..], lost := s.lost + (Elements(s.queue[..n]) - Elements(batch)), writer := Idle)
  }

  // ---------------------------------------------------------------- the invariant

  predicate Saved(s: System, e: Entry) {
    KeyOf(e.env) in s.table
  }

  /** Newest first: serials strictly fall along the list. */
  ghost predicate Descending(xs: seq<Entry>) {
    forall i, j :: 0 <= i < j < |xs| ==> xs[i].serial > xs[j].serial
  }

  /** The list is what arrived since the LRANGE in use, followed by what is left of the list as it was then. */
  ghost predicate Window(s: System) {
    var j := Min(s.arrivals, |s.queue|);
    && |s.queue| - j <= |s.snapshot|
    && s.queue[j..] == s.snapshot[..|s.queue| - j]
    && (forall i :: 0 <= i < j ==> s.queue[i].serial >= s.mark)
    && (forall i :: 0 <= i < |s.snapshot| ==> s.snapshot[i].serial < s.mark)
    && Min(s.arrivals, MAX_QUEUE_SIZE) <= |s.queue|
  }

  function BatchOf(pc: Pc): seq<Entry> {
    match pc
    case Ranged(first) => first
    case Read(batch) => batch
    case Committed(batch) => batch
    case _ => []
  }

  ghost predicate Accounted(s: System, e: Entry) {
    e in s.queue || Saved(s, e) || e in s.capped || e in s.lost
  }

  ghost predicate Inv(s: System) {
    && Descending(s.queue)
    && (forall e :: e in s.queue ==> e.serial < s.next && e in s.accepted)
    && (forall e :: e in s.accepted ==> e.env.org.Some? && Accounted(s, e))
    && s.mark <= s.next
    && (!s.writer.Idle? ==> Window(s))
    && BatchOf(s.writer) <= s.snapshot
    && (forall e :: e in s.snapshot ==> e in s.accepted)
    && (s.writer.Committed? ==> forall e :: e in s.writer.batch ==> Saved(s, e))
  }

  const START: System := System([], map[], Idle, false, 0, {}, {}, {}, [], 0, 0)

  lemma WindowPush(s: System, env: Envelope)
    requires Window(s) && s.mark <= s.next
    ensures Window(Apply(s, Push(env)))
  {
    var t := Apply(s, Push(env));
    var j := Min(s.arrivals, |s.queue|);
    assert t.queue == [t.queue[0]] + s.queue;
    assert t.queue[j + 1..] == s.queue[j..];
    assert Min(t.arrivals, |t.queue|) == j + 1;
  }

  lemma InvPush(s: System, env: Envelope)
    requires Inv(s) && Enabled(s, Push(env))
    ensures Inv(Apply(s, Push(env)))
  {
    var t := Apply(s, Push(env));
    if !s.writer.Idle? {
      WindowPush(s, env);
    }
    hide Window;
    forall e | e in t.accepted ensures Accounted(t, e) && e.env.org.Some? {
      if e in s.accepted {
        assert Accounted(s, e);
      } else {
        assert e == t.queue[0];
      }
    }
  }

  lemma CutBehind(q: seq<Entry>, snapshot: seq<Entry>, j: nat, m: nat)
    requires j <= m <= |q| && |q| - j <= |snapshot| && q[j..] == snapshot[..|q| - j]
    ensures q[..m][j..] == snapshot[..m - j]
  {
    assert q[..m][j..] == q[j..][..m - j];
    assert snapshot[..|q| - j][..m - j] == snapshot[..m - j];
  }

  lemma WindowCap(s: System)
    requires Window(s) && s.capDue
    ensures Window(Apply(s, Cap(true)))
  {
    var t := Apply(s, Cap(true));
    var j, m := Min(s.arrivals, |s.queue|), |t.queue|;
    assert t.queue == s.queue[..m];
    if j <= m {
      CutBehind(s.queue, s.snapshot, j, m);
      assert Min(t.arrivals, m) == j;
    } else {
      assert Min(t.arrivals, m) == m && t.queue[m..] == [] && s.snapshot[..0] == [];
    }
  }

  /** A prefix of a list and what follows it hold the elements of the list between them. */
  lemma SplitMembers(xs: seq<Entry>, n: nat)
    requires n <= |xs|
    ensures forall e :: e in xs <==> e in xs[..n] || e in xs[n..]
    ensures Descending(xs) ==> Descending(xs[..n]) && Descending(xs[n..])
  {
    assert xs == xs[..n] + xs[n..];
  }

  lemma CapAccounts(s: System, e: Entry)
    requires s.capDue && Accounted(s, e)
    ensures Accounted(Apply(s, Cap(true)), e)
  {
    SplitMembers(s.queue, Min(|s.queue|, MAX_QUEUE_SIZE));
  }

  lemma CapKeepsPart(s: System)
    requires Descending(s.queue) && s.capDue
    ensures
      var t := Apply(s, Cap(true));
      Descending(t.queue) && forall e :: e in t.queue ==> e in s.queue
  {
    SplitMembers(s.queue, Min(|s.queue|, MAX_QUEUE_SIZE));
  }

  /** What a cap or its raising does not touch. */
  lemma InvListener(s: System, t: System)
    requires Inv(s) && t == s.(queue := t.queue, capDue := t.capDue, capped := t.capped)
    requires Descending(t.queue) && (forall e :: e in t.queue ==> e in s.queue)
    requires forall e :: e in s.accepted ==> Accounted(t, e)
    requires !t.writer.Idle? ==> Window(t)
    ensures Inv(t)
  {
    hide Window, Descending, Accounted;
  }

  lemma InvCap(s: System)
    requires Inv(s) && s.capDue
    ensures Inv(Apply(s, Cap(true)))
  {
    var t := Apply(s, Cap(true));
    hide Window, Descending, Accounted;
    if !s.writer.Idle? {
      WindowCap(s);
    }
    forall e | e in s.accepted ensures Accounted(t, e) {
      CapAccounts(s, e);
    }
    CapKeepsPart(s);
    InvListener(s, t);
  }

  lemma InvCapRaises(s: System)
    requires Inv(s) && s.capDue
    ensures Inv(Apply(s, Cap(false)))
  {
    var t := Apply(s, Cap(false));
    forall e | e in s.accepted ensures Accounted(t, e) {
      assert Accounted(s, e);
    }
    assert !s.writer.Idle? ==> Window(t) by { assert !s.writer.Idle? ==> Window(s); }
    hide Window, Descending, Accounted;
    InvListener(s, t);
  }

  lemma WindowOpens(s: System, pc: Pc)
    requires Inv(s)
    ensures Window(Observe(s).(writer := pc))
  {
    var t := Observe(s).(writer := pc);
    assert t.queue[0..] == t.snapshot[..|t.queue|];
  }

  lemma InvObserve(s: System, pc: Pc)
    requires Inv(s) && !pc.Committed? && BatchOf(pc) <= s.queue
    ensures Inv(Observe(s).(writer := pc))
  {
    var t := Observe(s).(writer := pc);
    WindowOpens(s, pc);
    forall e | e in t.accepted ensures Accounted(t, e) {
      assert Accounted(s, e);
    }
    hide Window, Accounted, Descending;
  }

  lemma InvWriterOnly(s: System, pc: Pc)
    requires Inv(s) && !s.writer.Idle? && !pc.Committed? && BatchOf(pc) <= s.snapshot
    ensures Inv(s.(writer := pc))
  {
    hide Window;
    forall e | e in s.accepted ensures Accounted(s.(writer := pc), e) {
      assert Accounted(s, e);
    }
    assert Window(s.(writer := pc)) by { WindowIgnoresWriter(s, pc); }
  }

  lemma InvRaises(s: System)
    requires Inv(s)
    ensures Inv(Apply(s, WriterRaises))
  {
    if s.writer.Idle? {
      assert Apply(s, WriterRaises) == s;
    } else {
      InvWriterOnly(s, Idle);
    }
  }

  lemma WindowIgnoresWriter(s: System, pc: Pc)
    requires Window(s)
    ensures Window(s.(writer := pc))
  {
  }

  /** LRANGE and LLEN change nothing but the writer's view. */
  lemma InvRead(s: System, answer: Answer)
    requires Inv(s) && (s.writer.Idle? || s.writer.Ranged? || s.writer.Sized?)
    ensures Inv(Apply(s, Write(answer)))
  {
    hide Window, Accounted, Observe, Descending;
    match s.writer {
      case Idle => InvObserve(s, Ranged(Range(s, BATCH_SIZE)));
      case Sized(backlog) => InvObserve(s, Apply(s, Write(answer)).writer);
      case Ranged(first) => InvWriterOnly(s, Apply(s, Write(answer)).writer);
    }
  }

  lemma InsertSaves(s: System, answer: Answer, e: Entry)
    requires s.writer.Read?
    ensures
      var t := Apply(s, Write(answer));
      (Saved(s, e) ==> Saved(t, e)) && (t.writer.Committed? && e in s.writer.batch ==> Saved(t, e))
  {
    hide Insert;
    var t, batch := Apply(s, Write(answer)), s.writer.batch;
    if t.table != s.table || t.writer.Committed? {
      InsertFirstWins(s.table, Envs(batch), KeyOf(e.env));
      if e in batch {
        var i :| 0 <= i < |batch| && batch[i] == e;
        assert KeyOf(Envs(batch)[i]) == KeyOf(e.env);
      }
    }
  }

  lemma WindowIgnoresTable(s: System, table: map<Key, Row>, pc: Pc)
    requires Window(s)
    ensures Window(s.(table := table, writer := pc))
  {
  }

  lemma InvInsert(s: System, answer: Answer)
    requires Inv(s) && s.writer.Read?
    ensures Inv(Apply(s, Write(answer)))
  {
    var t := Apply(s, Write(answer));
    WindowIgnoresTable(s, t.table, t.writer);
    hide Insert, Descending, Window;
    assert t == s.(table := t.table, writer := t.writer);
    assert t.writer == Idle || t.writer == Committed(s.writer.batch);
    forall e ensures Saved(s, e) ==> Saved(t, e) {
      InsertSaves(s, answer, e);
    }
    forall e | t.writer.Committed? && e in s.writer.batch ensures Saved(t, e) {
      InsertSaves(s, answer, e);
    }
    hide Apply, WriterCall, Saved;
    forall e | e in t.accepted ensures Accounted(t, e) {
      assert Accounted(s, e);
    }
  }

  lemma InvTrim(s: System, answer: Answer)
    requires Inv(s) && s.writer.Committed?
    ensures Inv(Apply(s, Write(answer)))
  {
    var t := Apply(s, Write(answer));
    var batch := s.writer.batch;
    var n := Min(|s.queue|, |batch|);
    SplitMembers(s.queue, n);
    forall e | e in t.accepted ensures Accounted(t, e) {
      assert Accounted(s, e);
      if e in s.queue[..n] {
        assert e in Elements(s.queue[..n]);
        if e in batch {
          assert Saved(s, e);
        } else {
          assert e in t.lost;
        }
      }
    }
  }

  lemma InvStep(s: System, step: Step)
    requires Inv(s) && Enabled(s, step)
    ensures Inv(Apply(s, step))
  {
    match step {
      case Push(env) => InvPush(s, env);
      case Cap(ok) => if ok { InvCap(s); } else { InvCapRaises(s); }
      case WriterRaises => InvRaises(s);
      case Write(answer) =>
        match s.writer {
          case Read(_) => InvInsert(s, answer);
          case Committed(_) => InvTrim(s, answer);
          case _ => InvRead(s, answer);
        }
    }
  }

  // ---------------------------------------------------------------- runs

  ghost predicate ValidRun(s: System, run: seq<Step>)
    decreases |run|
  {
    run != [] ==> Enabled(s, run[0]) && ValidRun(Apply(s, run[0]), run[1..])
  }

  function RunFrom(s: System, run: seq<Step>): System
    decreases |run|
  {
    if run == [] then s else RunFrom(Apply(s, run[0]), run[1..])
  }

  /** No push lands between the LRANGE a cycle uses and its LTRIM. */
  ghost predicate QuietTrims(s: System, run: seq<Step>)
    decreases |run|
  {
    run != [] ==> (run[0].Write? && s.writer.Committed? ==> s.arrivals == 0) && QuietTrims(Apply(s, run[0]), run[1..])
  }

  lemma {:induction false} InvRun(s: System, run: seq<Step>)
    requires Inv(s) && ValidRun(s, run)
    ensures Inv(RunFrom(s, run))
    decreases |run|
  {
    if run != [] {
      InvStep(s, run[0]);
      InvRun(Apply(s, run[0]), run[1..]);
    }
  }

  /** The entries the next LTRIM removes although the cycle did not read them. */
  function Unread(s: System): set<Entry>
    requires s.writer.Committed?
  {
    Elements(s.queue[..Min(|s.queue|, |s.writer.batch|)]) - Elements(s.writer.batch)
  }

  /** How many unread entries the next LTRIM removes. */
  function Overrun(s: System): nat
    requires s.writer.Committed?
  {
    Min(Min(s.arrivals, |s.writer.batch|), |s.queue|)
  }

  /** What the LTRIM removes beyond what was read: exactly the newest min(arrivals, batch) entries of the list, all of
      them pushed after the read; with no arrival in the window it removes nothing unread. */
  lemma TrimLossExact(s: System, answer: Answer)
    requires Inv(s) && s.writer.Committed?
    ensures Apply(s, Write(answer)).lost == s.lost + Unread(s)
    ensures Unread(s) == Elements(s.queue[..Overrun(s)])
    ensures |Unread(s)| == Overrun(s)
    ensures |s.writer.batch| <= MAX_QUEUE_SIZE ==> Overrun(s) == Min(s.arrivals, |s.writer.batch|)
    ensures forall e :: e in Unread(s) ==> e.serial >= s.mark
  {
    assert Apply(s, Write(answer)).lost == s.lost + Unread(s);
    OverrunBound(s);
    hide Apply, Descending, Window;
    UnreadIsPrefix(s);
    DescendingPrefix(s.queue, Overrun(s));
    ElementsCount(s.queue[..Overrun(s)]);
    UnreadIsNew(s);
  }

  lemma OverrunBound(s: System)
    requires Window(s) && s.writer.Committed?
    ensures |s.writer.batch| <= MAX_QUEUE_SIZE ==> Overrun(s) == Min(s.arrivals, |s.writer.batch|)
  {
  }

  lemma DescendingPrefix(xs: seq<Entry>, n: nat)
    requires Descending(xs) && n <= |xs|
    ensures Descending(xs[..n])
  {
  }

  lemma UnreadIsNew(s: System)
    requires Window(s) && s.writer.Committed? && s.writer.batch <= s.snapshot
    ensures forall e :: e in Elements(s.queue[..Overrun(s)]) ==> e.serial >= s.mark
  {
    forall e | e in s.queue[..Overrun(s)] ensures e.serial >= s.mark {
      var i :| 0 <= i < Overrun(s) && s.queue[..Overrun(s)][i] == e;
      ReadOrArrived(s, i);
    }
  }

  lemma UnreadIsPrefix(s: System)
    requires Window(s) && s.writer.Committed? && s.writer.batch <= s.snapshot
    ensures Unread(s) == Elements(s.queue[..Overrun(s)])
  {
    var n := Min(|s.queue|, |s.writer.batch|);
    var k := Overrun(s);
    var trimmed := s.queue[..n];
    assert s.queue[..k] == trimmed[..k];
    forall i | 0 <= i < n ensures trimmed[i] in s.writer.batch <==> i >= k {
      ReadOrArrived(s, i);
    }
    forall e ensures e in Unread(s) <==> e in trimmed[..k] {
      if e in Unread(s) {
        var i :| 0 <= i < n && trimmed[i] == e;
        assert e == trimmed[..k][i];
      }
    }
  }

  /** Of the entries about to be trimmed, exactly those in front of the arrivals' end were not read. */
  lemma ReadOrArrived(s: System, i: nat)
    requires Window(s) && s.writer.Committed? && s.writer.batch <= s.snapshot
    requires i < Min(|s.queue|, |s.writer.batch|)
    ensures s.queue[i] in s.writer.batch <==> i >= s.arrivals
    ensures i < s.arrivals ==> s.queue[i].serial >= s.mark
  {
    var j := Min(s.arrivals, |s.queue|);
    var e := s.queue[i];
    if i < j {
      assert e.serial >= s.mark;
    } else {
      assert e == s.queue[j..][i - j] == s.snapshot[i - j];
      assert s.writer.batch[i - j] == e;
    }
  }

  lemma {:induction false} ElementsCount(xs: seq<Entry>)
    requires Descending(xs)
    ensures |Elements(xs)| == |xs|
  {
    if xs != [] {
      var rest := xs[1..];
      ElementsCount(rest);
      assert xs[0] !in rest;
      assert Elements(xs) == {xs[0]} + Elements(rest);
    }
  }

  lemma {:induction false} QuietLosesNothing(s: System, run: seq<Step>)
    requires Inv(s) && ValidRun(s, run) && QuietTrims(s, run)
    ensures RunFrom(s, run).lost == s.lost
    decreases |run|
  {
    if run != [] {
      if run[0].Write? && s.writer.Committed? {
        TrimLossExact(s, run[0].answer);
      }
      InvStep(s, run[0]);
      QuietLosesNothing(Apply(s, run[0]), run[1..]);
    }
  }

  /** Conservation over every run: each accepted envelope is still queued, stored under its key, dropped by the cap,
      or was removed unread by an LTRIM; and when no push lands between the read and the trim of any cycle, nothing
      is ever removed unread. */
  lemma TelemetryConserved(run: seq<Step>, e: Entry)
    requires ValidRun(START, run) && e in RunFrom(START, run).accepted
    ensures
      var s := RunFrom(START, run);
      Accounted(s, e) && (QuietTrims(START, run) ==> e in s.queue || Saved(s, e) || e in s.capped)
  {
    InvRun(START, run);
    if QuietTrims(START, run) {
      QuietLosesNothing(START, run);
    }
  }

  /** A cap that goes through leaves the newest 10000 entries: what it drops are exactly the entries beyond them, each
      older than every entry it keeps. */
  lemma CapDropsOldest(s: System)
    requires Inv(s) && s.capDue
    ensures
      var t := Apply(s, Cap(true));
      var dropped := Elements(s.queue) - Elements(t.queue);
      && t.capped == s.capped + dropped
      && |dropped| == Max(0, |s.queue| - MAX_QUEUE_SIZE) && |t.queue| == Min(|s.queue|, MAX_QUEUE_SIZE)
      && (forall d, k :: d in dropped && k in t.queue ==> d.serial < k.serial)
  {
    hide Window, Accounted, Descending;
    var keep := Min(|s.queue|, MAX_QUEUE_SIZE);
    PrefixDrops(s.queue, keep);
    hide Elements;
    assert Apply(s, Cap(true)).queue == s.queue[..keep];
  }

  /** Cutting a falling list leaves out exactly its later elements, each older than every element kept. */
  lemma PrefixDrops(xs: seq<Entry>, n: nat)
    requires Descending(xs) && n <= |xs|
    ensures
      var dropped := Elements(xs) - Elements(xs[..n]);
      && dropped == Elements(xs[n..]) && |dropped| == |xs| - n
      && (forall d, k :: d in dropped && k in xs[..n] ==> d.serial < k.serial)
  {
    SplitMembers(xs, n);
    forall d, k | d in xs[n..] && k in xs[..n] ensures d.serial < k.serial {
      var i :| n <= i < |xs| && xs[i] == d;
      var j :| 0 <= j < n && xs[j] == k;
    }
    ElementsCount(xs[n..]);
    hide Descending;
    assert Elements(xs) - Elements(xs[..n]) == Elements(xs[n..]);
  }

  /** The window is real: one push between read and trim, and the writer removes that unread entry while the entry it
      has just stored stays queued. */
  lemma ArrivalCanBeLost(a: Envelope, b: Envelope)
    requires a.org.Some? && b.org.Some?
    ensures
      exists run ::
        && ValidRun(START, run)
        && Entry(1, b) in RunFrom(START, run).lost
        && RunFrom(START, run).queue == [Entry(0, a)]
  {
    var first := [Push(a), Cap(true), Write(Up), Write(Up), Write(Up)];
    var s5 := OneEntryCommitted(a);
    var e := Entry(1, b);
    assert s5.queue == [Entry(0, a)];
    var run := first + [Push(b), Write(Up)];
    FiveThenTwo(first, Push(b), Write(Up));
    var s6 := Apply(s5, Push(b));
    assert s6.queue == [e, Entry(0, a)];
    var s7 := Apply(s6, Write(Up));
    assert s6.queue[..1] == [e] && e in Elements(s6.queue[..1]);
    assert RunFrom(START, run) == s7;
  }

  lemma OneEntryCommitted(a: Envelope) returns (s: System)
    requires a.org.Some?
    ensures
      var run := [Push(a), Cap(true), Write(Up), Write(Up), Write(Up)];
      ValidRun(START, run) && s == RunFrom(START, run)
    ensures s.queue == [Entry(0, a)] && s.writer == Committed([Entry(0, a)]) && s.next == 1 && !s.capDue
  {
    var w := Write(Up);
    var s2 := OneEntryQueued(a);
    s := OneEntryStored(s2, a);
    var two, three := [Push(a), Cap(true)], [w, w, w];
    RunConcat(START, two, three);
    assert two + three == [Push(a), Cap(true), w, w, w];
  }

  lemma OneEntryQueued(a: Envelope) returns (s: System)
    requires a.org.Some?
    ensures ValidRun(START, [Push(a), Cap(true)]) && s == RunFrom(START, [Push(a), Cap(true)])
    ensures s.queue == [Entry(0, a)] && s.writer == Idle && s.next == 1 && !s.capDue
  {
    var s1 := Apply(START, Push(a));
    s := Apply(s1, Cap(true));
    TwoSteps(START, Push(a), Cap(true));
    assert s.queue == [Entry(0, a)];
  }

  lemma OneEntryStored(s2: System, a: Envelope) returns (s: System)
    requires a.org.Some? && s2.queue == [Entry(0, a)] && s2.writer == Idle
    ensures ValidRun(s2, [Write(Up), Write(Up), Write(Up)]) && s == RunFrom(s2, [Write(Up), Write(Up), Write(Up)])
    ensures s.queue == s2.queue && s.writer == Committed([Entry(0, a)]) && s.next == s2.next && s.capDue == s2.capDue
  {
    var w := Write(Up);
    var s3 := Apply(s2, w);
    assert s3.writer == Ranged([Entry(0, a)]);
    var s4 := Apply(s3, w);
    assert Envs([Entry(0, a)]) == [a];
    s := Apply(s4, w);
    TwoSteps(s3, w, w);
    assert [w, w, w][1..] == [w, w];
  }

  lemma TwoSteps(s: System, p: Step, q: Step)
    requires Enabled(s, p) && Enabled(Apply(s, p), q)
    ensures ValidRun(s, [p, q]) && RunFrom(s, [p, q]) == Apply(Apply(s, p), q)
  {
    hide Apply, Enabled;
    assert [p, q][1..] == [q] && [q][1..] == [];
    var t := Apply(Apply(s, p), q);
    assert ValidRun(t, []) && RunFrom(t, []) == t;
    assert ValidRun(Apply(s, p), [q]) && RunFrom(Apply(s, p), [q]) == t;
  }

  lemma FiveThenTwo(first: seq<Step>, p: Step, q: Step)
    requires ValidRun(START, first)
    requires Enabled(RunFrom(START, first), p) && Enabled(Apply(RunFrom(START, first), p), q)
    ensures ValidRun(START, first + [p, q])
    ensures RunFrom(START, first + [p, q]) == Apply(Apply(RunFrom(START, first), p), q)
  {
    RunConcat(START, first, [p, q]);
    TwoSteps(RunFrom(START, first), p, q);
  }

  lemma {:induction false} RunConcat(s: System, xs: seq<Step>, ys: seq<Step>)
    requires ValidRun(s, xs)
    ensures RunFrom(s, xs + ys) == RunFrom(RunFrom(s, xs), ys)
    ensures ValidRun(s, xs + ys) <==> ValidRun(RunFrom(s, xs), ys)
    decreases |xs|
  {
    if xs == [] {
      assert [] + ys == ys;
    } else {
      assert (xs + ys)[1..] == xs[1..] + ys;
      RunConcat(Apply(s, xs[0]), xs[1..], ys);
    }
  }

  // ---------------------------------------------------------------- nothing is invented

  ghost predicate Stored(s: System, k: Key)
    requires k in s.table
  {
    exists e :: && e in s.accepted && e.env.org.Some? && (e.env.device, e.env.ts) == k
                && s.table[k] == Row(e.env.org.value, e.env.data)
  }

  lemma InsertStores(s: System, batch: seq<Entry>, k: Key, answer: Answer)
    requires s.writer == Read(batch) && HasOrgs(Envs(batch)) && (forall e :: e in batch ==> e in s.accepted)
    requires k in s.table ==> Stored(s, k)
    requires k in Insert(s.table, Envs(batch)) && (answer == Up || answer == Uncertain)
    ensures k in Apply(s, Write(answer)).table && Stored(Apply(s, Write(answer)), k)
  {
    var t := Apply(s, Write(answer));
    InsertFirstWins(s.table, Envs(batch), k);
    if k in s.table {
      var e :| && e in s.accepted && e.env.org.Some? && (e.env.device, e.env.ts) == k
               && s.table[k] == Row(e.env.org.value, e.env.data);
      assert t.table[k] == RowOf(e.env);
    } else {
      FirstExists(Envs(batch), k);
      var i :| FirstWith(Envs(batch), k, i);
      var e := batch[i];
      assert e in t.accepted && e.env == Envs(batch)[i];
    }
  }

  ghost predicate AllStored(s: System) {
    forall k :: k in s.table ==> Stored(s, k)
  }

  lemma StoredStep(s: System, step: Step)
    requires Inv(s) && Enabled(s, step) && AllStored(s)
    ensures AllStored(Apply(s, step))
  {
    hide Insert, Window, Descending, Accounted;
    var t := Apply(s, step);
    if step.Write? && t.table != s.table {
      var batch := s.writer.batch;
      forall e | e in batch ensures e in s.accepted {
        var i :| 0 <= i < |batch| && batch[i] == e;
        assert s.snapshot[i] == e;
      }
      forall k | k in t.table ensures Stored(t, k) {
        InsertStores(s, batch, k, step.answer);
      }
    } else {
      forall k | k in t.table ensures Stored(t, k) {
        var e :| && e in s.accepted && e.env.org.Some? && (e.env.device, e.env.ts) == k
               && s.table[k] == Row(e.env.org.value, e.env.data);
        assert e in t.accepted;
      }
    }
  }

  /** Every row of the table, in every run, is the content of an accepted envelope carrying that key. */
  lemma {:induction false} RowsComeFromEnvelopes(s: System, run: seq<Step>)
    requires Inv(s) && AllStored(s) && ValidRun(s, run)
    ensures AllStored(RunFrom(s, run))
    decreases |run|
  {
    if run != [] {
      StoredStep(s, run[0]);
      InvStep(s, run[0]);
      RowsComeFromEnvelopes(Apply(s, run[0]), run[1..]);
    }
  }

  // ---------------------------------------------------------------- the undisturbed cycle

  /** Run alone, one cycle stores the whole backlog and empties the list: the batch function of `Ingest`. */
  lemma UndisturbedCycle(s: System)
    requires Inv(s) && s.writer.Idle? && s.queue != []
    ensures
      var calls := if |s.queue| > BATCH_SIZE then [Write(Up), Write(Up), Write(Up), Write(Up), Write(Up)]
                   else [Write(Up), Write(Up), Write(Up), Write(Up)];
      var t := RunFrom(s, calls);
      && t.queue == [] && t.writer == Idle && t.lost == s.lost
      && HasOrgs(Envs(s.queue)) && t.table == Insert(s.table, Envs(s.queue))
      && (forall e :: e in s.queue ==> Saved(t, e))
  {
    var w := Write(Up);
    assert s.queue[..|s.queue|] == s.queue;
    forall i | 0 <= i < |Envs(s.queue)| ensures Envs(s.queue)[i].org.Some? {
      assert s.queue[i] in s.accepted;
    }
    var s1 := Apply(s, w);
    var s2 := Apply(s1, w);
    assert [w, w, w, w][1..] == [w, w, w] && [w, w, w][1..] == [w, w];
    if |s.queue| > BATCH_SIZE {
      var s3 := Apply(s2, w);
      assert s3.writer == Read(s.queue) && s3.queue == s.queue && s3.table == s.table && s3.lost == s.lost;
      CycleEnd(s3);
      assert [w, w, w, w, w][1..] == [w, w, w, w];
      RunThree(s, w);
    } else {
      assert s2.writer == Read(s.queue) && s2.queue == s.queue && s2.table == s.table && s2.lost == s.lost;
      CycleEnd(s2);
    }
  }

  lemma RunThree(s: System, w: Step)
    ensures RunFrom(s, [w, w, w, w, w]) == RunFrom(Apply(Apply(Apply(s, w), w), w), [w, w])
  {
    assert [w, w, w, w, w][1..] == [w, w, w, w] && [w, w, w, w][1..] == [w, w, w] && [w, w, w][1..] == [w, w];
    assert RunFrom(Apply(s, w), [w, w, w, w]) == RunFrom(Apply(Apply(s, w), w), [w, w, w]);
  }

  lemma CycleEnd(s: System)
    requires s.writer == Read(s.queue) && HasOrgs(Envs(s.queue))
    ensures
      var t := RunFrom(s, [Write(Up), Write(Up)]);
      && t.queue == [] && t.writer == Idle && t.lost == s.lost && t.table == Insert(s.table, Envs(s.queue))
      && (forall e :: e in s.queue ==> Saved(t, e))
  {
    var w := Write(Up);
    var s1 := Apply(s, w);
    var s2 := Apply(s1, w);
    assert [w, w][1..] == [w] && [w][1..] == [];
    assert RunFrom(s2, []) == s2;
    assert RunFrom(s, [w, w]) == s2;
    assert Elements(s.queue[..|s.queue|]) - Elements(s.queue) == {};
    forall e | e in s.queue ensures KeyOf(e.env) in s1.table {
      InsertFirstWins(s.table, Envs(s.queue), KeyOf(e.env));
      var i :| 0 <= i < |s.queue| && s.queue[i] == e;
      assert KeyOf(Envs(s.queue)[i]) == KeyOf(e.env);
    }
  }
}
