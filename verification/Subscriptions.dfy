/** Webhook-driven subscription billing: captures, failures, replays and refunds. */
module Subscriptions {
  import opened Prelude
  import opened Calendar

  datatype PaymentStatus = Created | Captured | Failed | Refunded

  datatype Payment = Payment(
    subscription: Option<nat>,
    status: PaymentStatus,
    orderId: Option<string>,
    gatewayId: Option<string>,
    paidAt: Option<Date>)

  datatype SubStatus = Pending | Active

  datatype Subscription = Subscription(cycle: Cycle, status: SubStatus, start: Option<Date>, end: Option<Date>)

  /** The payments table in row order, and the subscriptions by id. */
  datatype Book = Book(payments: seq<Payment>, subs: map<nat, Subscription>)

  datatype Kind = PaymentCaptured | PaymentFailed | OtherEvent

  /** One delivered webhook event, with the clock reading at which it is processed. */
  datatype Event = Event(kind: Kind, orderId: Option<string>, gatewayId: Option<string>, now: Date)

  datatype Outcome = CapturedOk | FailedOk | Ignored | Unmatched | Raised

  /** A non-empty string: what the code treats as a usable id. */
  predicate Usable(id: Option<string>) {
    id.Some? && id.value != ""
  }

  /** Index of the first row satisfying the given column test, or the number of rows. */
  function FirstByOrder(ps: seq<Payment>, id: string): nat
    decreases |ps|
  {
    if ps == [] then 0 else if ps[0].orderId == Some(id) then 0 else 1 + FirstByOrder(ps[1..], id)
  }

  function FirstByGateway(ps: seq<Payment>, id: string): nat
    decreases |ps|
  {
    if ps == [] then 0 else if ps[0].gatewayId == Some(id) then 0 else 1 + FirstByGateway(ps[1..], id)
  }

  /** The row an event is about: by order id, else by gateway payment id. */
  function FindPayment(ps: seq<Payment>, e: Event): Option<nat> {
    if Usable(e.orderId) && FirstByOrder(ps, e.orderId.value) < |ps| then Some(FirstByOrder(ps, e.orderId.value))
    else if Usable(e.gatewayId) && FirstByGateway(ps, e.gatewayId.value) < |ps| then
      Some(FirstByGateway(ps, e.gatewayId.value))
    else None
  }

  ghost predicate HasOrder(ps: seq<Payment>, id: Option<string>) {
    id.Some? && id.value != "" && exists j :: 0 <= j < |ps| && ps[j].orderId == id
  }

  ghost predicate HasGateway(ps: seq<Payment>, id: Option<string>) {
    id.Some? && id.value != "" && exists j :: 0 <= j < |ps| && ps[j].gatewayId == id
  }

  /** Row `i` is the one the event is about: the first with its non-empty order id or, only when no row has that, the
      first with its non-empty gateway payment id. */
  ghost predicate IsAbout(ps: seq<Payment>, e: Event, i: int) {
    && 0 <= i < |ps|
    && if HasOrder(ps, e.orderId) then
         ps[i].orderId == e.orderId && forall j :: 0 <= j < i ==> ps[j].orderId != e.orderId
       else
         && HasGateway(ps, e.gatewayId) && ps[i].gatewayId == e.gatewayId
         && forall j :: 0 <= j < i ==> ps[j].gatewayId != e.gatewayId
  }

  lemma {:induction false} FirstByOrderExact(ps: seq<Payment>, id: string)
    ensures FirstByOrder(ps, id) <= |ps|
    ensures forall j :: 0 <= j < FirstByOrder(ps, id) ==> ps[j].orderId != Some(id)
    ensures FirstByOrder(ps, id) < |ps| ==> ps[FirstByOrder(ps, id)].orderId == Some(id)
    decreases |ps|
  {
    if ps != [] && ps[0].orderId != Some(id) {
      FirstByOrderExact(ps[1..], id);
      assert forall j :: 0 < j < |ps| ==> ps[j] == ps[1..][j - 1];
    }
  }

  lemma {:induction false} FirstByGatewayExact(ps: seq<Payment>, id: string)
    ensures FirstByGateway(ps, id) <= |ps|
    ensures forall j :: 0 <= j < FirstByGateway(ps, id) ==> ps[j].gatewayId != Some(id)
    ensures FirstByGateway(ps, id) < |ps| ==> ps[FirstByGateway(ps, id)].gatewayId == Some(id)
    decreases |ps|
  {
    if ps != [] && ps[0].gatewayId != Some(id) {
      FirstByGatewayExact(ps[1..], id);
      assert forall j :: 0 < j < |ps| ==> ps[j] == ps[1..][j - 1];
    }
  }

  /** The row found is the one the event is about, and none is found exactly when no row carries either id. */
  lemma FindPaymentExact(ps: seq<Payment>, e: Event)
    ensures forall i :: FindPayment(ps, e) == Some(i) <==> IsAbout(ps, e, i)
    ensures FindPayment(ps, e) == None <==> !HasOrder(ps, e.orderId) && !HasGateway(ps, e.gatewayId)
  {
    if Usable(e.orderId) {
      FirstByOrderExact(ps, e.orderId.value);
    }
    if Usable(e.gatewayId) {
      FirstByGatewayExact(ps, e.gatewayId.value);
    }
    hide FirstByOrder, FirstByGateway;
  }

  /** Where an extension starts: the later of now and the current end. */
  function Base(end: Option<Date>, now: Date): Date {
    match end case None => now case Some(e) => if Before(now, e) then e else now
  }

  function SubOf(b: Book, i: nat): Option<nat>
    requires i < |b.payments|
  {
    var s := b.payments[i].subscription;
    if s.Some? && s.value in b.subs then s else None
  }

  /** payment.captured for row `i`; `None` when advancing the period raises, and nothing is committed. */
  function Capture(b: Book, i: nat, gatewayId: Option<string>, now: Date): Option<Book>
    requires i < |b.payments|
  {
    var p := b.payments[i];
    if p.status == Captured then Some(b) else
    var paid := p.(status := Captured, paidAt := Some(now),
                   gatewayId := if Usable(gatewayId) then gatewayId else p.gatewayId);
    var rows := b.payments[i := paid];
    match SubOf(b, i)
    case None => Some(b.(payments := rows))
    case Some(x) =>
      var s := b.subs[x];
      match AddPeriod(Base(s.end, now), s.cycle)
      case None => None
      case Some(end) =>
        var extended := s.(status := Active, start := if s.start.None? then Some(now) else s.start, end := Some(end));
        Some(Book(rows, b.subs[x := extended]))
  }

  function Fail(b: Book, i: nat): Book
    requires i < |b.payments|
  {
    if b.payments[i].status == Captured then b
    else b.(payments := b.payments[i := b.payments[i].(status := Failed)])
  }

  function Process(b: Book, e: Event): (Book, Outcome) {
    if e.kind == OtherEvent then (b, Ignored) else
    match FindPayment(b.payments, e)
    case None => (b, Unmatched)
    case Some(i) =>
      FindPaymentInRange(b.payments, e);
      if e.kind == PaymentCaptured then
        match Capture(b, i, e.gatewayId, e.now) case None => (b, Raised) case Some(c) => (c, CapturedOk)
      else (Fail(b, i), FailedOk)
  }

  lemma FindPaymentInRange(ps: seq<Payment>, e: Event)
    ensures FindPayment(ps, e).Some? ==> FindPayment(ps, e).value < |ps|
  {
  }

  /** `base` is the later of the current end and now. */
  predicate IsLater(base: Date, end: Option<Date>, now: Date) {
    && (base == now || end == Some(base))
    && NotAfter(now, base) && (end.Some? ==> NotAfter(end.value, base))
  }

  /** The subscription is active and one period longer, counted from the later of its end and now; its first capture
      also starts it. */
  ghost predicate OnePeriodMore(s: Subscription, t: Subscription, now: Date) {
    && t.cycle == s.cycle && t.status == Active && t.start == (if s.start.None? then Some(now) else s.start)
    && t.end.Some? && exists base :: IsLater(base, s.end, now) && t.end == AddPeriod(base, s.cycle)
  }

  /** The payment is captured now, under the event's gateway id if that is not empty. */
  predicate PaidNow(p: Payment, q: Payment, gatewayId: Option<string>, now: Date) {
    && q.status == Captured && q.paidAt == Some(now) && q.subscription == p.subscription && q.orderId == p.orderId
    && q.gatewayId == (if gatewayId.Some? && gatewayId.value != "" then gatewayId else p.gatewayId)
  }

  lemma BaseIsLater(end: Option<Date>, now: Date)
    ensures forall base :: IsLater(base, end, now) <==> base == Base(end, now)
  {
    if end.Some? {
      BeforeTotal(end.value, now);
    }
  }

  lemma BeforeTotal(a: Date, b: Date)
    ensures Before(a, b) || a == b || Before(b, a)
    ensures !(Before(a, b) && Before(b, a)) && !Before(a, a)
  {
  }

  /** An event leaves every row but the one it is about, and every subscription but that row's, as they were. */
  lemma OthersUntouched(b: Book, e: Event, i: nat)
    requires IsAbout(b.payments, e, i)
    ensures
      var c := Process(b, e).0;
      && |c.payments| == |b.payments|
      && (forall j :: 0 <= j < |b.payments| && j != i ==> c.payments[j] == b.payments[j])
      && c.subs.Keys == b.subs.Keys
      && (forall x :: x in b.subs && b.payments[i].subscription != Some(x) ==> c.subs[x] == b.subs[x])
  {
    FindPaymentExact(b.payments, e);
    assert FindPayment(b.payments, e) == Some(i);
    hide FindPayment, IsAbout, AddPeriod, Base;
  }

  /** What every event does. An event of another kind is ignored and one without a row is unmatched; a failure marks the
      row it is about unless that is captured; a capture of a captured row changes nothing; any other capture pays the
      row and extends its subscription, if it has one, or raises and changes nothing when the period leaves the
      calendar. */
  lemma ProcessExact(b: Book, e: Event, i: nat)
    ensures e.kind == OtherEvent ==> Process(b, e) == (b, Ignored)
    ensures e.kind != OtherEvent && !HasOrder(b.payments, e.orderId) && !HasGateway(b.payments, e.gatewayId) ==>
              Process(b, e) == (b, Unmatched)
    ensures e.kind == PaymentFailed && IsAbout(b.payments, e, i) ==>
              && Process(b, e).1 == FailedOk && Process(b, e).0.subs == b.subs
              && Process(b, e).0.payments[i]
                 == if b.payments[i].status == Captured then b.payments[i] else b.payments[i].(status := Failed)
    ensures e.kind == PaymentCaptured && IsAbout(b.payments, e, i) && b.payments[i].status == Captured ==>
              Process(b, e) == (b, CapturedOk)
    ensures e.kind == PaymentCaptured && IsAbout(b.payments, e, i) && b.payments[i].status != Captured ==>
              var (c, outcome) := Process(b, e);
              var x := b.payments[i].subscription;
              if x.None? || x.value !in b.subs then
                outcome == CapturedOk && PaidNow(b.payments[i], c.payments[i], e.gatewayId, e.now) && c.subs == b.subs
              else
                var s := b.subs[x.value];
                if exists base :: IsLater(base, s.end, e.now) && AddPeriod(base, s.cycle).Some? then
                  && outcome == CapturedOk && PaidNow(b.payments[i], c.payments[i], e.gatewayId, e.now)
                  && x.value in c.subs && OnePeriodMore(s, c.subs[x.value], e.now)
                else outcome == Raised && c == b
  {
    FindPaymentExact(b.payments, e);
    FindPaymentInRange(b.payments, e);
    hide FindPayment, AddPeriod, IsAbout, HasOrder, HasGateway;
    if i < |b.payments| && SubOf(b, i).Some? {
      BaseIsLater(b.subs[SubOf(b, i).value].end, e.now);
    }
    hide Base, IsLater;
  }

  datatype RefundError = AlreadyRefunded | NotRefundable | WindowElapsed

  /** Refund row `i` at `now`: only a captured payment, only inside the window, only with a gateway id. */
  function Refund(b: Book, i: nat, now: Date): (Book, Option<RefundError>)
    requires i < |b.payments|
  {
    var p := b.payments[i];
    if p.status == Refunded then (b, Some(AlreadyRefunded))
    else if p.status != Captured || p.paidAt == None then (b, Some(NotRefundable))
    else if !WithinRefundWindow(p.paidAt.value, now) then (b, Some(WindowElapsed))
    else if !Usable(p.gatewayId) then (b, Some(NotRefundable))
    else (b.(payments := b.payments[i := p.(status := Refunded)]), None)
  }

  /** A refund goes through exactly for a captured payment with a payment time and a gateway id, up to and including the
      instant fourteen calendar days after that time; then it changes that status and nothing else, and otherwise
      nothing at all. */
  lemma RefundExact(b: Book, i: nat, now: Date)
    requires i < |b.payments| && Valid(now)
    requires b.payments[i].paidAt.Some? ==> Valid(b.payments[i].paidAt.value)
    ensures
      var p := b.payments[i];
      var (c, error) := Refund(b, i, now);
      var paid := p.status == Captured && p.paidAt.Some?;
      var inTime := paid && NotAfter(now, AddDays(p.paidAt.value, 14));
      && (error == None <==> inTime && p.gatewayId.Some? && p.gatewayId.value != "")
      && (error == Some(AlreadyRefunded) <==> p.status == Refunded)
      && (error == Some(WindowElapsed) <==> paid && !inTime)
      && (error == None ==> c == b.(payments := b.payments[i := p.(status := Refunded)]))
      && (error != None ==> c == b)
  {
    var p := b.payments[i];
    if p.paidAt.Some? {
      RefundWindowExact(p.paidAt.value, now);
    }
    hide WithinRefundWindow, AddDays, Before;
  }

  // ---------------------------------------------------------------- runs

  datatype Op = Webhook(e: Event) | RequestRefund(row: nat, now: Date)

  function Step(b: Book, op: Op): Book {
    match op
    case Webhook(e) => Process(b, e).0
    case RequestRefund(i, now) => if i < |b.payments| then Refund(b, i, now).0 else b
  }

  function Run(b: Book, ops: seq<Op>): Book
    decreases |ops|
  {
    if ops == [] then b else Run(Step(b, ops[0]), ops[1..])
  }

  /** The operation is a capture event that is not a replay and goes through: it moves row `i` to CAPTURED. */
  predicate FirstCapture(b: Book, op: Op, i: nat) {
    && op.Webhook? && op.e.kind == PaymentCaptured
    && FindPayment(b.payments, op.e) == Some(i) && i < |b.payments|
    && b.payments[i].status != Captured
    && Capture(b, i, op.e.gatewayId, op.e.now).Some?
  }

  /** How often row `i` is captured anew during a run. */
  function Captures(b: Book, ops: seq<Op>, i: nat): nat
    decreases |ops|
  {
    if ops == [] then 0
    else (if FirstCapture(b, ops[0], i) then 1 else 0) + Captures(Step(b, ops[0]), ops[1..], i)
  }

  /** How often row `i` is refunded during a run. */
  function Refunds(b: Book, ops: seq<Op>, i: nat): nat
    decreases |ops|
  {
    if ops == [] then 0
    else
      (if ops[0].RequestRefund? && ops[0].row == i && i < |b.payments| && Refund(b, i, ops[0].now).1 == None then 1
       else 0)
      + Refunds(Step(b, ops[0]), ops[1..], i)
  }

  function IsCaptured(b: Book, i: nat): nat
    requires i < |b.payments|
  {
    if b.payments[i].status == Captured then 1 else 0
  }

  lemma StepBalance(b: Book, op: Op, i: nat)
    requires i < |b.payments|
    ensures i < |Step(b, op).payments|
    ensures IsCaptured(Step(b, op), i) + Refunds(b, [op], i) == IsCaptured(b, i) + Captures(b, [op], i)
  {
    assert [op][1..] == [];
    if op.Webhook? {
      FindPaymentInRange(b.payments, op.e);
    }
  }

  /** Captures and refunds of a payment alternate: over any run the captures exceed the refunds by exactly the change
      of its CAPTURED state. */
  lemma {:induction false} CaptureBalance(b: Book, ops: seq<Op>, i: nat)
    requires i < |b.payments|
    ensures i < |Run(b, ops).payments|
    ensures IsCaptured(Run(b, ops), i) + Refunds(b, ops, i) == IsCaptured(b, i) + Captures(b, ops, i)
    decreases |ops|
  {
    if ops != [] {
      StepBalance(b, ops[0], i);
      assert [ops[0]][1..] == [];
      CaptureBalance(Step(b, ops[0]), ops[1..], i);
    }
  }

  ghost predicate NoRefunds(ops: seq<Op>) {
    forall k :: 0 <= k < |ops| ==> ops[k].Webhook?
  }

  lemma {:induction false} NoRefundsNone(b: Book, ops: seq<Op>, i: nat)
    requires NoRefunds(ops)
    ensures Refunds(b, ops, i) == 0
    decreases |ops|
  {
    if ops != [] {
      NoRefundsNone(Step(b, ops[0]), ops[1..], i);
    }
  }

  /** Over every sequence of webhook events without a refund each payment extends its subscription at most once, and
      not at all once it is CAPTURED. */
  lemma CapturedAtMostOnce(b: Book, ops: seq<Op>, i: nat)
    requires i < |b.payments| && NoRefunds(ops)
    ensures IsCaptured(b, i) + Captures(b, ops, i) <= 1
  {
    CaptureBalance(b, ops, i);
    NoRefundsNone(b, ops, i);
  }

  /** A capture event for a payment changes anything if and only if the payment is not CAPTURED (and the event does not
      raise): replays are no-ops, except after a refund. */
  lemma CaptureChangesIff(b: Book, e: Event, i: nat)
    requires e.kind == PaymentCaptured && FindPayment(b.payments, e) == Some(i)
    ensures i < |b.payments|
    ensures Process(b, e).0 != b <==> FirstCapture(b, Webhook(e), i)
  {
    FindPaymentInRange(b.payments, e);
    if FirstCapture(b, Webhook(e), i) {
      assert Process(b, e).0.payments[i].status == Captured;
    }
  }

  // ---------------------------------------------------------------- the period of one subscription

  /** The moments at which some payment of subscription `x` is captured anew. */
  function CaptureTimes(b: Book, ops: seq<Op>, x: nat): seq<Date>
    decreases |ops|
  {
    if ops == [] then []
    else
      (if Extends(b, ops[0], x) then [ops[0].e.now] else []) + CaptureTimes(Step(b, ops[0]), ops[1..], x)
  }

  /** The operation captures a payment of subscription `x` anew. */
  predicate Extends(b: Book, op: Op, x: nat) {
    && op.Webhook? && FindPayment(b.payments, op.e).Some?
    && FirstCapture(b, op, FindPayment(b.payments, op.e).value)
    && SubOf(b, FindPayment(b.payments, op.e).value) == Some(x)
  }

  /** Extending `end` once for each time, from the later of that time and the end reached so far. */
  function Extended(end: Option<Date>, cycle: Cycle, times: seq<Date>): Option<Date>
    decreases |times|
  {
    if times == [] then end
    else Extended(AddPeriod(Base(end, times[0]), cycle), cycle, times[1..])
  }

  lemma StepSubscription(b: Book, op: Op, x: nat)
    requires x in b.subs
    ensures x in Step(b, op).subs
    ensures
      var s := b.subs[x];
      var t := Step(b, op).subs[x];
      && t.cycle == s.cycle
      && (if Extends(b, op, x)
          then AddPeriod(Base(s.end, op.e.now), s.cycle).Some? && t.end == AddPeriod(Base(s.end, op.e.now), s.cycle)
               && t.status == Active
          else t == s)
  {
    if op.Webhook? {
      FindPaymentInRange(b.payments, op.e);
    }
  }

  /** Over every run, refunds included, the end of a subscription is the fold of the period rule over its first
      captures and nothing else: failures, replays, refunds and other payments leave it alone. */
  lemma {:induction false} EndIsFold(b: Book, ops: seq<Op>, x: nat)
    requires x in b.subs
    ensures x in Run(b, ops).subs
    ensures Run(b, ops).subs[x].end == Extended(b.subs[x].end, b.subs[x].cycle, CaptureTimes(b, ops, x))
    ensures Run(b, ops).subs[x].cycle == b.subs[x].cycle
    decreases |ops|
  {
    if ops != [] {
      StepSubscription(b, ops[0], x);
      EndIsFold(Step(b, ops[0]), ops[1..], x);
      var later := CaptureTimes(Step(b, ops[0]), ops[1..], x);
      if Extends(b, ops[0], x) {
        assert CaptureTimes(b, ops, x)[1..] == later;
      } else {
        assert CaptureTimes(b, ops, x) == later;
      }
    }
  }

  predicate EndNotAfter(a: Option<Date>, b: Option<Date>) {
    a.None? || (b.Some? && NotAfter(a.value, b.value))
  }

  ghost predicate ValidEnds(b: Book) {
    forall x :: x in b.subs && b.subs[x].end.Some? ==> Valid(b.subs[x].end.value)
  }

  ghost predicate ValidClock(ops: seq<Op>) {
    forall k :: 0 <= k < |ops| && ops[k].Webhook? ==> Valid(ops[k].e.now)
  }

  lemma BaseLater(end: Option<Date>, now: Date, cycle: Cycle)
    requires Valid(now) && (end.Some? ==> Valid(end.value)) && AddPeriod(Base(end, now), cycle).Some?
    ensures
      var r := AddPeriod(Base(end, now), cycle).value;
      Valid(r) && Before(now, r) && (end.Some? ==> Before(end.value, r))
  {
    PeriodIsLater(Base(end, now), cycle);
  }

  lemma {:induction false} StepEnds(b: Book, op: Op, x: nat)
    requires ValidEnds(b) && x in b.subs && (op.Webhook? ==> Valid(op.e.now))
    ensures ValidEnds(Step(b, op))
    ensures x in Step(b, op).subs && EndNotAfter(b.subs[x].end, Step(b, op).subs[x].end)
    ensures Extends(b, op, x) ==> Before(op.e.now, Step(b, op).subs[x].end.value)
  {
    var c := Step(b, op);
    forall y | y in c.subs
      ensures c.subs[y].end.Some? ==> Valid(c.subs[y].end.value)
      ensures y in b.subs && EndNotAfter(b.subs[y].end, c.subs[y].end)
      ensures Extends(b, op, y) ==> Before(op.e.now, c.subs[y].end.value)
    {
      SubsStay(b, op);
      StepSubscription(b, op, y);
      if Extends(b, op, y) {
        BaseLater(b.subs[y].end, op.e.now, b.subs[y].cycle);
      }
    }
    StepSubscription(b, op, x);
  }

  lemma SubsStay(b: Book, op: Op)
    ensures Step(b, op).subs.Keys == b.subs.Keys
  {
    if op.Webhook? {
      FindPaymentInRange(b.payments, op.e);
    }
  }

  lemma NotAfterTransitive(a: Option<Date>, b: Option<Date>, c: Option<Date>)
    requires EndNotAfter(a, b) && EndNotAfter(b, c)
    ensures EndNotAfter(a, c)
  {
  }

  /** The end of a subscription never moves back, whatever the clock readings of the events are. */
  lemma {:induction false} EndNeverDecreases(b: Book, ops: seq<Op>, x: nat)
    requires ValidEnds(b) && ValidClock(ops) && x in b.subs
    ensures x in Run(b, ops).subs && EndNotAfter(b.subs[x].end, Run(b, ops).subs[x].end)
    decreases |ops|
  {
    if ops != [] {
      StepEnds(b, ops[0], x);
      var c := Step(b, ops[0]);
      EndNeverDecreases(c, ops[1..], x);
      NotAfterTransitive(b.subs[x].end, c.subs[x].end, Run(b, ops).subs[x].end);
    }
  }

  /** The no-refund condition is needed: capture, refund, and the replayed capture pays a second period out of one
      payment. */
  lemma RefundedReplayExtendsAgain(now: Date)
    requires Valid(now) && now.year < 9998
    ensures
      var unpaid := Payment(Some(0), Created, Some("order"), None, None);
      var b := Book([unpaid], map[0 := Subscription(Monthly, Pending, None, None)]);
      var capture := Webhook(Event(PaymentCaptured, Some("order"), Some("pay"), now));
      var ops := [capture, RequestRefund(0, now), capture];
      Captures(b, ops, 0) == 2 && 0 in Run(b, ops).subs && Run(b, ops).subs[0].end == Renew(now, 2)
  {
    var unpaid := Payment(Some(0), Created, Some("order"), None, None);
    var b := Book([unpaid], map[0 := Subscription(Monthly, Pending, None, None)]);
    var capture := Webhook(Event(PaymentCaptured, Some("order"), Some("pay"), now));
    PeriodIsLater(now, Monthly);
    var end := AddPeriod(now, Monthly).value;
    PeriodIsLater(end, Monthly);
    hide AddPeriod, Valid, Process;
    var paid := Payment(Some(0), Captured, Some("order"), Some("pay"), Some(now));
    var active := Subscription(Monthly, Active, Some(now), Some(end));
    OnlyRowCaptured(unpaid, Subscription(Monthly, Pending, None, None), now, now);
    var b1 := Book([paid], map[0 := active]);
    var refunded := paid.(status := Refunded);
    var b2 := Step(b1, RequestRefund(0, now));
    RefundedAtOnce(paid, active, now);
    OnlyRowCaptured(refunded, active, now, end);
    assert Renew(now, 2) == AddPeriod(end, Monthly) by { assert Renew(now, 1) == Some(end); }
    ThreeOps(b, capture, RequestRefund(0, now), capture);
  }

  /** A capture event about the only payment, which is not captured: the subscription is extended from `base`. */
  lemma OnlyRowCaptured(p: Payment, s: Subscription, now: Date, base: Date)
    requires p.subscription == Some(0) && p.orderId == Some("order") && p.status != Captured
    requires base == Base(s.end, now) && AddPeriod(base, s.cycle).Some?
    ensures
      var b, capture := Book([p], map[0 := s]), Webhook(Event(PaymentCaptured, Some("order"), Some("pay"), now));
      && FirstCapture(b, capture, 0)
      && Step(b, capture) == Book([p.(status := Captured, paidAt := Some(now), gatewayId := Some("pay"))],
            map[0 := s.(status := Active, start := if s.start.None? then Some(now) else s.start,
                  end := AddPeriod(base, s.cycle))])
  {
    hide AddPeriod;
  }

  lemma RefundedAtOnce(p: Payment, s: Subscription, now: Date)
    requires p.status == Captured && p.paidAt == Some(now) && Usable(p.gatewayId)
    ensures Step(Book([p], map[0 := s]), RequestRefund(0, now)) == Book([p.(status := Refunded)], map[0 := s])
  {
  }

  lemma ThreeOps(b: Book, p: Op, q: Op, r: Op)
    ensures Run(b, [p, q, r]) == Step(Step(Step(b, p), q), r)
    ensures Captures(b, [p, q, r], 0)
         == (if FirstCapture(b, p, 0) then 1 else 0) + (if FirstCapture(Step(b, p), q, 0) then 1 else 0)
            + (if FirstCapture(Step(Step(b, p), q), r, 0) then 1 else 0)
  {
    hide Step, FirstCapture;
    assert [p, q, r][1..] == [q, r] && [q, r][1..] == [r] && [r][1..] == [];
    assert Run(Step(Step(b, p), q), [r]) == Run(Step(Step(Step(b, p), q), r), []);
    assert Captures(Step(Step(b, p), q), [r], 0)
        == (if FirstCapture(Step(Step(b, p), q), r, 0) then 1 else 0) + Captures(Step(Step(Step(b, p), q), r), [], 0);
  }

  // ---------------------------------------------------------------- the handlers, step by step

  class BillingBook {
    var payments: seq<Payment>
    var subs: map<nat, Subscription>

    ghost function View(): Book
      reads this
    {
      Book(payments, subs)
    }

    constructor (book: Book)
      ensures View() == book
    {
      payments, subs := book.payments, book.subs;
    }

    /** `raised` stands for the ValueError of the period arithmetic, after which nothing is committed. */
    method HandleCapture(i: nat, gatewayId: Option<string>, now: Date) returns (raised: bool)
      requires i < |payments|
      modifies this
      ensures raised <==> Capture(old(View()), i, gatewayId, now).None?
      ensures View() == if raised then old(View()) else Capture(old(View()), i, gatewayId, now).value
    {
      if payments[i].status == Captured {
        return false;
      }
      var paid := payments[i].(status := Captured, paidAt := Some(now));
      if Usable(gatewayId) {
        paid := paid.(gatewayId := gatewayId);
      }
      var x := payments[i].subscription;
      if x.None? || x.value !in subs {
        payments := payments[i := paid];
        return false;
      }
      var s := subs[x.value];
      var base := now;
      if s.end.Some? && Before(now, s.end.value) {
        base := s.end.value;
      }
      var start := if s.start.None? then Some(now) else s.start;
      var end := AddPeriod(base, s.cycle);
      if end.None? {
        return true;
      }
      payments := payments[i := paid];
      subs := subs[x.value := Subscription(s.cycle, Active, start, end)];
      return false;
    }

    method HandleFailure(i: nat)
      requires i < |payments|
      modifies this`payments
      ensures View() == Fail(old(View()), i)
    {
      if payments[i].status != Captured {
        payments := payments[i := payments[i].(status := Failed)];
      }
    }

    method ProcessWebhookEvent(e: Event) returns (outcome: Outcome)
      modifies this
      ensures (View(), outcome) == Process(old(View()), e)
    {
      if e.kind == OtherEvent {
        return Ignored;
      }
      FindPaymentInRange(payments, e);
      var row := FindPayment(payments, e);
      if row == None {
        return Unmatched;
      }
      if e.kind == PaymentCaptured {
        var raised := HandleCapture(row.value, e.gatewayId, e.now);
        return if raised then Raised else CapturedOk;
      }
      HandleFailure(row.value);
      return FailedOk;
    }

    method RefundPayment(i: nat, now: Date) returns (error: Option<RefundError>)
      requires i < |payments|
      modifies this`payments
      ensures (View(), error) == Refund(old(View()), i, now)
    {
      var p := payments[i];
      if p.status == Refunded {
        return Some(AlreadyRefunded);
      }
      if p.status != Captured || p.paidAt == None {
        return Some(NotRefundable);
      }
      if !WithinRefundWindow(p.paidAt.value, now) {
        return Some(WindowElapsed);
      }
      if !Usable(p.gatewayId) {
        return Some(NotRefundable);
      }
      payments := payments[i := p.(status := Refunded)];
      return None;
    }
  }
}
