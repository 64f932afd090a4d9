/** Partner wallets: commission credits, payout requests and payout approvals, run serially. Amounts are rupees as
    reals; transfers are made in whole paise. */
module Wallet {
  import opened Prelude

  type Org = nat

  const DEFAULT_RATE: real := 50.0
  const PAISE_PER_RUPEE: int := 100

  datatype PayoutStatus = Pending | Paid

  datatype Payout = Payout(org: Org, amount: real, status: PayoutStatus)

  datatype Commission = Commission(org: Org, amount: real)

  datatype Transfer = Transfer(payout: nat, paise: int)

  /** `rates` holds every organisation with its commission override, `None` when unset. */
  datatype Ledger = Ledger(
    rates: map<Org, Option<real>>,
    wallets: map<Org, real>,
    commissions: seq<Commission>,
    payouts: seq<Payout>,
    transfers: seq<Transfer>)

  datatype Outcome =
    | Done | InvalidAmount | OrgNotFound | WalletNotFound | Insufficient | PayoutNotFound | NotPending | TransferRaised

  /** A configured override wins, a configured zero included. */
  function CommissionRate(override: Option<real>): real {
    match override case None => DEFAULT_RATE case Some(rate) => rate
  }

  function Credit(l: Ledger, org: Org): (Ledger, Outcome) {
    if org !in l.rates then (l, OrgNotFound) else
    var rate := CommissionRate(l.rates[org]);
    var amount := if rate > 0.0 then rate else 0.0;
    var balance := if org in l.wallets then l.wallets[org] else 0.0;
    (l.(wallets := l.wallets[org := balance + amount], commissions := l.commissions + [Commission(org, amount)]), Done)
  }

  function Request(l: Ledger, org: Org, amount: real): (Ledger, Outcome) {
    if amount <= 0.0 then (l, InvalidAmount)
    else if org !in l.wallets then (l, WalletNotFound)
    else if amount > l.wallets[org] then (l, Insufficient)
    else (l.(payouts := l.payouts + [Payout(org, amount, Pending)]), Done)
  }

  /** The paise sent for an amount: `int(amount) * 100`, which truncates to whole rupees first. */
  function Paise(amount: real): int {
    amount.Floor * PAISE_PER_RUPEE
  }

  /** Re-check, debit, transfer, mark paid; the transfer refuses anything but a positive number of paise, and then
      nothing is committed. */
  function Approve(l: Ledger, i: nat): (Ledger, Outcome) {
    if i >= |l.payouts| then (l, PayoutNotFound) else
    var p := l.payouts[i];
    if p.status != Pending then (l, NotPending)
    else if p.org !in l.wallets then (l, WalletNotFound)
    else if p.amount > l.wallets[p.org] then (l, Insufficient)
    else if Paise(p.amount) <= 0 then (l, TransferRaised)
    else
      (l.(wallets := l.wallets[p.org := l.wallets[p.org] - p.amount],
          payouts := l.payouts[i := p.(status := Paid)],
          transfers := l.transfers + [Transfer(i, Paise(p.amount))]),
       Done)
  }

  /** A known organisation is credited its own rate when one is set, zero included, and 50 otherwise, but never less
      than nothing: one commission row of that amount, and the balance, from zero if there was no wallet, up by the
      same. */
  lemma CreditExact(l: Ledger, org: Org)
    ensures org !in l.rates ==> Credit(l, org) == (l, OrgNotFound)
    ensures org in l.rates ==>
      var (m, outcome) := Credit(l, org);
      exists amount ::
        && (l.rates[org] == None ==> amount == 50.0)
        && (l.rates[org].Some? && l.rates[org].value >= 0.0 ==> amount == l.rates[org].value)
        && (l.rates[org].Some? && l.rates[org].value < 0.0 ==> amount == 0.0)
        && outcome == Done && m.commissions == l.commissions + [Commission(org, amount)]
        && org in m.wallets && m.wallets[org] == (if org in l.wallets then l.wallets[org] else 0.0) + amount
        && m.rates == l.rates && m.payouts == l.payouts && m.transfers == l.transfers
        && forall other :: other != org ==> BalanceOf(m, other) == BalanceOf(l, other)
  {
    if org in l.rates {
      var m := Credit(l, org).0;
      var amount := m.commissions[|l.commissions|].amount;
      assert m.commissions == l.commissions + [Commission(org, amount)];
    }
  }

  function BalanceOf(l: Ledger, org: Org): Option<real> {
    if org in l.wallets then Some(l.wallets[org]) else None
  }

  predicate Covers(l: Ledger, org: Org, amount: real) {
    BalanceOf(l, org).Some? && amount <= BalanceOf(l, org).value
  }

  /** A request is recorded, as one pending payout of that organisation and amount, exactly when the amount is positive
      and a wallet holds it; otherwise nothing changes and the answer names the first condition that fails. */
  lemma RequestExact(l: Ledger, org: Org, amount: real)
    ensures
      var (m, outcome) := Request(l, org, amount);
      && (outcome == Done <==> amount > 0.0 && Covers(l, org, amount))
      && (outcome == InvalidAmount <==> amount <= 0.0)
      && (outcome == WalletNotFound <==> amount > 0.0 && BalanceOf(l, org) == None)
      && (outcome == Insufficient <==> amount > 0.0 && BalanceOf(l, org).Some? && !Covers(l, org, amount))
      && (outcome == Done ==>
            && |m.payouts| == |l.payouts| + 1 && l.payouts <= m.payouts
            && m.payouts[|l.payouts|] == Payout(org, amount, Pending)
            && m.(payouts := l.payouts) == l)
      && (outcome != Done ==> m == l)
  {
  }

  /** What an approval comes to: the refusals in order, or the payout is marked paid, its amount taken from its own
      wallet and its whole rupees transferred. */
  lemma ApproveExact(l: Ledger, i: nat)
    ensures i >= |l.payouts| ==> Approve(l, i) == (l, PayoutNotFound)
    ensures i < |l.payouts| ==>
      var p := l.payouts[i];
      var (m, outcome) := Approve(l, i);
      && (outcome == NotPending <==> p.status == Paid)
      && (outcome == WalletNotFound <==> p.status == Pending && BalanceOf(l, p.org) == None)
      && (outcome == Insufficient <==> p.status == Pending && BalanceOf(l, p.org).Some? && !Covers(l, p.org, p.amount))
      && (outcome == TransferRaised <==> p.status == Pending && Covers(l, p.org, p.amount) && p.amount < 1.0)
      && (outcome != Done ==> m == l)
      && (outcome == Done ==>
            && p.org in l.wallets && m.wallets == l.wallets[p.org := l.wallets[p.org] - p.amount]
            && m.payouts == l.payouts[i := Payout(p.org, p.amount, Paid)]
            && m.commissions == l.commissions && m.rates == l.rates
            && exists rupees: nat ::
                 && rupees as real <= p.amount < rupees as real + 1.0
                 && m.transfers == l.transfers + [Transfer(i, 100 * rupees)])
  {
    if i < |l.payouts| {
      var p := l.payouts[i];
      if Approve(l, i).1 == Done {
        var rupees: nat := p.amount.Floor;
        assert Approve(l, i).0.transfers == l.transfers + [Transfer(i, 100 * rupees)];
      }
    }
  }

  datatype Op = CreditOp(org: Org) | RequestOp(org: Org, amount: real) | ApproveOp(payout: nat)

  function Step(l: Ledger, op: Op): Ledger {
    match op
    case CreditOp(org) => Credit(l, org).0
    case RequestOp(org, amount) => Request(l, org, amount).0
    case ApproveOp(i) => Approve(l, i).0
  }

  function Run(l: Ledger, ops: seq<Op>): Ledger
    decreases |ops|
  {
    if ops == [] then l else Run(Step(l, ops[0]), ops[1..])
  }

  // ---------------------------------------------------------------- totals

  function Earned(cs: seq<Commission>, org: Org): real
    decreases |cs|
  {
    if cs == [] then 0.0
    else Earned(cs[..|cs| - 1], org) + (if cs[|cs| - 1].org == org then cs[|cs| - 1].amount else 0.0)
  }

  function PaidOut(ps: seq<Payout>, org: Org): real
    decreases |ps|
  {
    if ps == [] then 0.0
    else
      var last := ps[|ps| - 1];
      PaidOut(ps[..|ps| - 1], org) + (if last.org == org && last.status == Paid then last.amount else 0.0)
  }

  /** Rupees debited over all organisations. */
  function Debited(ps: seq<Payout>): real
    decreases |ps|
  {
    if ps == [] then 0.0
    else Debited(ps[..|ps| - 1]) + (if ps[|ps| - 1].status == Paid then ps[|ps| - 1].amount else 0.0)
  }

  function PaidCount(ps: seq<Payout>): nat
    decreases |ps|
  {
    if ps == [] then 0 else PaidCount(ps[..|ps| - 1]) + (if ps[|ps| - 1].status == Paid then 1 else 0)
  }

  function Transferred(ts: seq<Transfer>): int
    decreases |ts|
  {
    if ts == [] then 0 else Transferred(ts[..|ts| - 1]) + ts[|ts| - 1].paise
  }

  function TransfersOf(ts: seq<Transfer>, i: nat): nat
    decreases |ts|
  {
    if ts == [] then 0 else TransfersOf(ts[..|ts| - 1], i) + (if ts[|ts| - 1].payout == i then 1 else 0)
  }

  lemma {:induction false} PayNow(ps: seq<Payout>, i: nat, org: Org)
    requires i < |ps| && ps[i].status == Pending
    ensures
      var qs := ps[i := ps[i].(status := Paid)];
      && PaidOut(qs, org) == PaidOut(ps, org) + (if ps[i].org == org then ps[i].amount else 0.0)
      && Debited(qs) == Debited(ps) + ps[i].amount
      && PaidCount(qs) == PaidCount(ps) + 1
    decreases |ps|
  {
    var qs := ps[i := ps[i].(status := Paid)];
    if i < |ps| - 1 {
      PayNow(ps[..|ps| - 1], i, org);
      assert qs[..|ps| - 1] == ps[..|ps| - 1][i := ps[i].(status := Paid)];
    } else {
      assert qs[..|ps| - 1] == ps[..|ps| - 1];
    }
  }

  // ---------------------------------------------------------------- the invariant

  ghost predicate Balanced(l: Ledger, org: Org) {
    (if org in l.wallets then l.wallets[org] else 0.0) == Earned(l.commissions, org) - PaidOut(l.payouts, org)
  }

  ghost predicate Inv(l: Ledger) {
    && (forall org :: Balanced(l, org))
    && (forall org :: org in l.wallets ==> l.wallets[org] >= 0.0)
    && (forall i :: 0 <= i < |l.payouts| ==> l.payouts[i].amount > 0.0)
    && (forall i: nat ::
          TransfersOf(l.transfers, i) == (if i < |l.payouts| && l.payouts[i].status == Paid then 1 else 0))
    && 0.0 <= Debited(l.payouts) - Transferred(l.transfers) as real / 100.0 <= PaidCount(l.payouts) as real
  }

  ghost predicate Fresh(l: Ledger) {
    l.wallets == map[] && l.commissions == [] && l.payouts == [] && l.transfers == []
  }

  lemma CreditInv(l: Ledger, org: Org)
    requires Inv(l)
    ensures Inv(Credit(l, org).0)
  {
    var m := Credit(l, org).0;
    if org in l.rates {
      assert m.commissions[..|m.commissions| - 1] == l.commissions;
      forall o ensures Balanced(m, o) {
        assert Balanced(l, o);
      }
    }
  }

  lemma RequestInv(l: Ledger, org: Org, amount: real)
    requires Inv(l)
    ensures Inv(Request(l, org, amount).0)
  {
    var m := Request(l, org, amount).0;
    if m != l {
      assert m.payouts[..|m.payouts| - 1] == l.payouts;
      forall o ensures Balanced(m, o) {
        assert Balanced(l, o);
      }
    }
  }

  /** Truncation keeps back less than one rupee. */
  lemma TruncationBound(amount: real)
    ensures 0.0 <= amount - Paise(amount) as real / 100.0 < 1.0
  {
    assert Paise(amount) as real == amount.Floor as real * 100.0;
  }

  lemma ApproveInv(l: Ledger, i: nat)
    requires Inv(l)
    ensures Inv(Approve(l, i).0)
  {
    var m := Approve(l, i).0;
    if Approve(l, i).1 == Done {
      var p := l.payouts[i];
      assert m.transfers[..|m.transfers| - 1] == l.transfers;
      forall o ensures Balanced(m, o) {
        assert Balanced(l, o);
        PayNow(l.payouts, i, o);
      }
      PayNow(l.payouts, i, p.org);
      TruncationBound(p.amount);
      SplitPaise(Transferred(l.transfers), Paise(p.amount));
      assert Transferred(m.transfers) == Transferred(l.transfers) + Paise(p.amount);
      forall j: nat
        ensures TransfersOf(m.transfers, j) == (if j < |m.payouts| && m.payouts[j].status == Paid then 1 else 0)
      {
        assert TransfersOf(m.transfers, j) == TransfersOf(l.transfers, j) + (if j == i then 1 else 0);
      }
    }
  }

  lemma SplitPaise(a: int, b: int)
    ensures (a + b) as real / 100.0 == a as real / 100.0 + b as real / 100.0
  {
  }

  lemma {:induction false} InvRun(l: Ledger, ops: seq<Op>)
    requires Inv(l)
    ensures Inv(Run(l, ops))
    decreases |ops|
  {
    if ops != [] {
      match ops[0] {
        case CreditOp(org) => CreditInv(l, org);
        case RequestOp(org, amount) => RequestInv(l, org, amount);
        case ApproveOp(i) => ApproveInv(l, i);
      }
      InvRun(Step(l, ops[0]), ops[1..]);
    }
  }

  /** Over every serial run of credits, requests and approvals: each balance is what was earned less what was paid out
      and never negative, however far the pending requests exceed it together; each payout is transferred exactly once
      if it is PAID and never otherwise; and what was debited exceeds what was transferred by at most one rupee per
      paid payout. */
  lemma MoneyConserved(l: Ledger, ops: seq<Op>, org: Org, i: nat)
    requires Fresh(l)
    ensures
      var m := Run(l, ops);
      var balance := if org in m.wallets then m.wallets[org] else 0.0;
      && balance == Earned(m.commissions, org) - PaidOut(m.payouts, org)
      && balance >= 0.0
      && TransfersOf(m.transfers, i) == (if i < |m.payouts| && m.payouts[i].status == Paid then 1 else 0)
      && 0.0 <= Debited(m.payouts) - Transferred(m.transfers) as real / 100.0 <= PaidCount(m.payouts) as real
  {
    assert forall o :: Balanced(l, o);
    InvRun(l, ops);
    assert Balanced(Run(l, ops), org);
  }

  /** A pending request the balance covers is paid on approval if and only if it is for at least one rupee: a smaller
      one is accepted as a request but its transfer always raises. */
  lemma ApprovalSucceedsIff(l: Ledger, i: nat)
    requires Inv(l) && i < |l.payouts| && l.payouts[i].status == Pending
    ensures Approve(l, i).1 == Done
            <==> && l.payouts[i].org in l.wallets && l.payouts[i].amount <= l.wallets[l.payouts[i].org]
                 && l.payouts[i].amount >= 1.0
  {
  }

  /** A request below one rupee is accepted, and every approval of it raises and leaves it pending. */
  lemma SmallPayoutIsStuck(l: Ledger, org: Org)
    requires org in l.wallets && l.wallets[org] >= 0.5
    ensures
      var (requested, outcome) := Request(l, org, 0.5);
      outcome == Done && Approve(requested, |l.payouts|) == (requested, TransferRaised)
  {
    assert Paise(0.5) == 0;
  }

  /** No operation of one organisation touches the wallet of another. */
  lemma OtherWalletsUntouched(l: Ledger, op: Op, org: Org)
    requires match op
             case CreditOp(o) => o != org
             case RequestOp(_, _) => true
             case ApproveOp(i) => i < |l.payouts| ==> l.payouts[i].org != org
    ensures org in Step(l, op).wallets <==> org in l.wallets
    ensures org in l.wallets ==> Step(l, op).wallets[org] == l.wallets[org]
  {
  }

  // ---------------------------------------------------------------- the services, step by step

  class PartnerLedger {
    var rates: map<Org, Option<real>>
    var wallets: map<Org, real>
    var commissions: seq<Commission>
    var payouts: seq<Payout>
    var transfers: seq<Transfer>

    ghost function View(): Ledger
      reads this
    {
      Ledger(rates, wallets, commissions, payouts, transfers)
    }

    constructor (rates: map<Org, Option<real>>)
      ensures View() == Ledger(rates, map[], [], [], [])
    {
      this.rates := rates;
      wallets, commissions, payouts, transfers := map[], [], [], [];
    }

    method CreditCommission(org: Org) returns (outcome: Outcome)
      modifies this
      ensures (View(), outcome) == Credit(old(View()), org)
    {
      if org !in rates {
        return OrgNotFound;
      }
      var rate := CommissionRate(rates[org]);
      var amount := if rate > 0.0 then rate else 0.0;
      if org !in wallets {
        wallets := wallets[org := 0.0];
      }
      commissions := commissions + [Commission(org, amount)];
      wallets := wallets[org := wallets[org] + amount];
      assert wallets == Credit(old(View()), org).0.wallets;
      return Done;
    }

    method RequestPayout(org: Org, amount: real) returns (outcome: Outcome)
      modifies this
      ensures (View(), outcome) == Request(old(View()), org, amount)
    {
      if amount <= 0.0 {
        return InvalidAmount;
      }
      if org !in wallets {
        return WalletNotFound;
      }
      if amount > wallets[org] {
        return Insufficient;
      }
      payouts := payouts + [Payout(org, amount, Pending)];
      return Done;
    }

    method ApprovePayout(i: nat) returns (outcome: Outcome)
      modifies this
      ensures (View(), outcome) == Approve(old(View()), i)
    {
      if i >= |payouts| {
        return PayoutNotFound;
      }
      var payout := payouts[i];
      if payout.status != Pending {
        return NotPending;
      }
      if payout.org !in wallets {
        return WalletNotFound;
      }
      var balance := wallets[payout.org];
      if payout.amount > balance {
        return Insufficient;
      }
      var paise := payout.amount.Floor * PAISE_PER_RUPEE;
      if paise <= 0 {
        return TransferRaised;
      }
      wallets := wallets[payout.org := balance - payout.amount];
      transfers := transfers + [Transfer(i, paise)];
      payouts := payouts[i := payout.(status := Paid)];
      return Done;
    }
  }
}
