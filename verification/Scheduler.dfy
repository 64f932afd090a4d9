/** The device simulator's due-time scheduler. */
module Scheduler {
  import opened Prelude

  datatype Device = Device(id: string, interval: int)

  /** Next due time per device. */
  type Schedule = map<string, real>

  predicate IsPublishing(d: Device) {
    d.interval > 0
  }

  predicate IsDue(due: Schedule, id: string, now: real) {
    id !in due || now >= due[id]
  }

  /** What a tick does for one device; `ok` says whether its publish call, if made, succeeds. */
  function Visit(due: Schedule, d: Device, now: real, ok: bool): Schedule {
    if !IsPublishing(d) then due - {d.id}
    else if IsDue(due, d.id, now) && ok then due[d.id := now + d.interval as real]
    else due
  }

  predicate Publishes(due: Schedule, d: Device, now: real, ok: bool) {
    IsPublishing(d) && IsDue(due, d.id, now) && ok
  }

  /** One device, spelled out: one that does not publish is forgotten; a due one, unscheduled or with its time reached,
      publishes if the call succeeds and is then due one interval later, and stays due if the call fails; one that is
      not due is left alone. No other device's entry changes. */
  lemma VisitExact(due: Schedule, d: Device, now: real, ok: bool)
    ensures d.interval <= 0 ==> d.id !in Visit(due, d, now, ok) && !Publishes(due, d, now, ok)
    ensures d.interval > 0 && (d.id in due ==> due[d.id] <= now) && ok ==>
              && Publishes(due, d, now, ok) && d.id in Visit(due, d, now, ok)
              && Visit(due, d, now, ok)[d.id] == now + d.interval as real
    ensures d.interval > 0 && (d.id in due ==> due[d.id] <= now) && !ok ==>
              !Publishes(due, d, now, ok) && Visit(due, d, now, ok) == due
    ensures d.interval > 0 && d.id in due && due[d.id] > now ==>
              !Publishes(due, d, now, ok) && Visit(due, d, now, ok) == due
    ensures forall id :: id != d.id ==>
              && (id in Visit(due, d, now, ok) <==> id in due)
              && (id in due ==> Visit(due, d, now, ok)[id] == due[id])
  {
  }

  datatype Round = Round(now: real, devices: seq<Device>, oks: seq<bool>) {
    ghost predicate Valid() {
      |oks| == |devices|
    }
  }

  function VisitAll(due: Schedule, now: real, devices: seq<Device>, oks: seq<bool>): (Schedule, seq<string>)
    requires |oks| == |devices|
    decreases |devices|
  {
    if devices == [] then (due, [])
    else
      var rest := VisitAll(Visit(due, devices[0], now, oks[0]), now, devices[1..], oks[1..]);
      (rest.0, (if Publishes(due, devices[0], now, oks[0]) then [devices[0].id] else []) + rest.1)
  }

  function Ids(devices: seq<Device>): set<string> {
    set d | d in devices :: d.id
  }

  function Keep(due: Schedule, ids: set<string>): Schedule {
    map id | id in due && id in ids :: due[id]
  }

  /** One tick: the new schedule and the ids published, in order. */
  function Tick(due: Schedule, r: Round): (Schedule, seq<string>)
    requires r.Valid()
  {
    var (visited, published) := VisitAll(due, r.now, r.devices, r.oks);
    (Keep(visited, Ids(r.devices)), published)
  }

  lemma VisitAllStep(due: Schedule, now: real, devices: seq<Device>, oks: seq<bool>, i: nat)
    requires |oks| == |devices| && i < |devices|
    ensures
      var rest := VisitAll(Visit(due, devices[i], now, oks[i]), now, devices[i + 1..], oks[i + 1..]);
      VisitAll(due, now, devices[i..], oks[i..])
      == (rest.0, (if Publishes(due, devices[i], now, oks[i]) then [devices[i].id] else []) + rest.1)
    ensures Ids(devices[..i + 1]) == Ids(devices[..i]) + {devices[i].id}
  {
    assert devices[i..][1..] == devices[i + 1..] && oks[i..][1..] == oks[i + 1..];
    assert devices[..i + 1] == devices[..i] + [devices[i]];
  }

  lemma VisitNone(now: real)
    ensures forall due :: VisitAll(due, now, [], []) == (due, [])
    ensures Ids([]) == {}
  {
  }

  class SimulatorScheduler {
    var nextDue: Schedule

    constructor ()
      ensures nextDue == map[]
    {
      nextDue := map[];
    }

    /** One pass of the loop body. */
    method VisitDevice(device: Device, now: real, ok: bool) returns (sent: bool)
      modifies this
      ensures nextDue == Visit(old(nextDue), device, now, ok)
      ensures sent == Publishes(old(nextDue), device, now, ok)
    {
      if !IsPublishing(device) {
        nextDue := nextDue - {device.id};
        return false;
      }
      if device.id !in nextDue || now >= nextDue[device.id] {
        if !ok {
          return false;
        }
        nextDue := nextDue[device.id := now + device.interval as real];
        return true;
      }
      return false;
    }

    method VisitDevices(now: real, devices: seq<Device>, oks: seq<bool>)
      returns (published: seq<string>, seen: set<string>)
      requires |oks| == |devices|
      modifies this
      ensures (nextDue, published) == VisitAll(old(nextDue), now, devices, oks)
      ensures seen == Ids(devices)
    {
      hide Visit, Publishes, Ids, VisitAll;
      published, seen := [], {};
      VisitNone(now);
      ghost var start := nextDue;
      assert devices[0..] == devices && oks[0..] == oks;
      for i := 0 to |devices|
        invariant seen == Ids(devices[..i])
        invariant VisitAll(start, now, devices, oks).0 == VisitAll(nextDue, now, devices[i..], oks[i..]).0
        invariant VisitAll(start, now, devices, oks).1 == published + VisitAll(nextDue, now, devices[i..], oks[i..]).1
      {
        ghost var before := nextDue;
        seen := seen + {devices[i].id};
        var sent := VisitDevice(devices[i], now, oks[i]);
        VisitAllStep(before, now, devices, oks, i);
        if sent {
          published := published + [devices[i].id];
        }
      }
      assert devices[..|devices|] == devices && devices[|devices|..] == [] && oks[|devices|..] == [];
      assert VisitAll(nextDue, now, [], []) == (nextDue, []);
      assert published + [] == published;
      assert VisitAll(start, now, devices, oks) == (nextDue, published);
    }

    method RunTick(r: Round) returns (published: seq<string>)
      requires r.Valid()
      modifies this
      ensures (nextDue, published) == Tick(old(nextDue), r)
    {
      var seen;
      published, seen := VisitDevices(r.now, r.devices, r.oks);
      ForgetStale(seen);
    }

    /** Drop every entry whose device was not seen. */
    method ForgetStale(seen: set<string>)
      modifies this
      ensures nextDue == Keep(old(nextDue), seen)
    {
      var stale := nextDue.Keys - seen;
      while stale != {}
        invariant stale == nextDue.Keys - seen
        invariant Keep(nextDue, seen) == Keep(old(nextDue), seen)
        decreases stale
      {
        var id :| id in stale;
        KeepForgets(nextDue, seen, id);
        nextDue := nextDue - {id};
        stale := stale - {id};
      }
      KeepAll(nextDue, seen);
    }
  }

  lemma KeepForgets(due: Schedule, seen: set<string>, id: string)
    requires id !in seen
    ensures Keep(due - {id}, seen) == Keep(due, seen) && (due - {id}).Keys == due.Keys - {id}
  {
  }

  lemma KeepAll(due: Schedule, seen: set<string>)
    requires due.Keys - seen == {}
    ensures Keep(due, seen) == due
  {
    forall id | id in due ensures id in seen {
      assert id !in due.Keys - seen;
    }
  }

  // ---------------------------------------------------------------- one device at a time

  ghost predicate DistinctIds(devices: seq<Device>) {
    Distinct(IdList(devices))
  }

  function IdList(devices: seq<Device>): seq<string> {
    seq(|devices|, i requires 0 <= i < |devices| => devices[i].id)
  }

  lemma HeadIsDistinct(devices: seq<Device>)
    requires devices != [] && DistinctIds(devices)
    ensures DistinctIds(devices[1..]) && forall d :: d in devices[1..] ==> d.id != devices[0].id
  {
    assert IdList(devices[1..]) == IdList(devices)[1..];
    forall d | d in devices[1..] ensures d.id != devices[0].id {
      var k :| 0 <= k < |devices[1..]| && devices[1..][k] == d;
      assert IdList(devices)[k + 1] == d.id && IdList(devices)[0] == devices[0].id;
    }
  }

  predicate SameEntry(a: Schedule, b: Schedule, id: string) {
    (id in a <==> id in b) && (id in a ==> a[id] == b[id])
  }

  lemma {:induction false} VisitElsewhere(due: Schedule, now: real, devices: seq<Device>, oks: seq<bool>, id: string)
    requires |oks| == |devices| && id !in Ids(devices)
    ensures
      var (v, published) := VisitAll(due, now, devices, oks);
      SameEntry(v, due, id) && id !in published
    decreases |devices|
  {
    if devices != [] {
      assert devices[0].id in Ids(devices);
      assert Ids(devices[1..]) <= Ids(devices);
      VisitElsewhere(Visit(due, devices[0], now, oks[0]), now, devices[1..], oks[1..], id);
    }
  }

  lemma {:induction false} VisitOne(due: Schedule, now: real, devices: seq<Device>, oks: seq<bool>, i: nat)
    requires |oks| == |devices| && DistinctIds(devices) && i < |devices|
    ensures
      var (v, published) := VisitAll(due, now, devices, oks);
      var d := devices[i];
      && SameEntry(v, Visit(due, d, now, oks[i]), d.id)
      && (d.id in published <==> Publishes(due, d, now, oks[i]))
    decreases |devices|
  {
    var d := devices[i];
    var u := Visit(due, devices[0], now, oks[0]);
    HeadIsDistinct(devices);
    hide DistinctIds;
    if i == 0 {
      VisitElsewhere(u, now, devices[1..], oks[1..], d.id);
    } else {
      VisitOne(u, now, devices[1..], oks[1..], i - 1);
      assert devices[1..][i - 1] == d && oks[1..][i - 1] == oks[i];
      assert devices[0].id != d.id;
      assert SameEntry(u, due, d.id);
    }
  }

  /** With distinct ids a tick treats every listed device by its own entry alone, whatever the others are, and forgets
      every device that is not listed. */
  lemma TickIsPerDevice(due: Schedule, r: Round)
    requires r.Valid() && DistinctIds(r.devices)
    ensures
      var (next, published) := Tick(due, r);
      && (forall i :: 0 <= i < |r.devices| ==>
            && SameEntry(next, Visit(due, r.devices[i], r.now, r.oks[i]), r.devices[i].id)
            && (r.devices[i].id in published <==> Publishes(due, r.devices[i], r.now, r.oks[i])))
      && (forall id :: id !in Ids(r.devices) ==> id !in next && id !in published)
  {
    forall i | 0 <= i < |r.devices|
      ensures SameEntry(Tick(due, r).0, Visit(due, r.devices[i], r.now, r.oks[i]), r.devices[i].id)
      ensures r.devices[i].id in Tick(due, r).1 <==> Publishes(due, r.devices[i], r.now, r.oks[i])
    {
      VisitOne(due, r.now, r.devices, r.oks, i);
      assert r.devices[i].id in Ids(r.devices);
    }
    forall id | id !in Ids(r.devices) ensures id !in Tick(due, r).1 {
      VisitElsewhere(due, r.now, r.devices, r.oks, id);
    }
  }

  // ---------------------------------------------------------------- timing over runs

  /** The clock readings at which `id` is published during a run of ticks. */
  function Times(due: Schedule, rounds: seq<Round>, id: string): seq<real>
    requires forall k :: 0 <= k < |rounds| ==> rounds[k].Valid()
    decreases |rounds|
  {
    if rounds == [] then []
    else
      var (next, published) := Tick(due, rounds[0]);
      (if id in published then [rounds[0].now] else []) + Times(next, rounds[1..], id)
  }

  /** The device is listed once with interval `s`, and its publish call, if made, succeeds. */
  ghost predicate SteadyRound(r: Round, id: string, s: int) {
    && r.Valid() && DistinctIds(r.devices)
    && exists i :: 0 <= i < |r.devices| && r.devices[i] == Device(id, s) && r.oks[i]
  }

  ghost predicate Steady(rounds: seq<Round>, id: string, s: int) {
    forall k :: 0 <= k < |rounds| ==> rounds[k].Valid() && SteadyRound(rounds[k], id, s)
  }

  function Clock(rounds: seq<Round>): seq<real> {
    seq(|rounds|, k requires 0 <= k < |rounds| => rounds[k].now)
  }

  lemma ClockTail(rounds: seq<Round>)
    requires rounds != [] && ClockForward(Clock(rounds))
    ensures ClockForward(Clock(rounds[1..])) && (rounds[1..] != [] ==> rounds[0].now <= rounds[1].now)
  {
    assert Clock(rounds[1..]) == Clock(rounds)[1..];
    assert Clock(rounds)[0] == rounds[0].now;
    assert rounds[1..] != [] ==> Clock(rounds)[1] == rounds[1].now;
  }

  /** Ticks follow each other, and the moment `from` before the first, by at most `gap`. */
  ghost predicate TicksWithin(from: real, rounds: seq<Round>, gap: real)
    decreases |rounds|
  {
    rounds != [] ==> rounds[0].now <= from + gap && TicksWithin(rounds[0].now, rounds[1..], gap)
  }

  ghost predicate Spaced(times: seq<real>, s: real) {
    forall k :: 0 <= k < |times| - 1 ==> times[k + 1] - times[k] >= s
  }

  ghost predicate Prompt(times: seq<real>, s: real, gap: real) {
    forall k :: 0 <= k < |times| - 1 ==> times[k + 1] - times[k] < s + gap
  }

  /** One tick of a steady device: published exactly when due, and then due again one interval later. */
  lemma SteadyTick(due: Schedule, r: Round, id: string, s: int)
    requires s > 0 && r.Valid() && SteadyRound(r, id, s)
    ensures
      var (next, published) := Tick(due, r);
      && (id in published <==> IsDue(due, id, r.now))
      && id in next && next[id] == (if IsDue(due, id, r.now) then r.now + s as real else due[id])
  {
    var i :| 0 <= i < |r.devices| && r.devices[i] == Device(id, s) && r.oks[i];
    TickIsPerDevice(due, r);
    assert SameEntry(Tick(due, r).0, Visit(due, r.devices[i], r.now, r.oks[i]), r.devices[i].id);
  }

  /** What has to hold of the schedule between two ticks: last published at `last`, no tick since has been due. */
  ghost predicate Between(due: Schedule, id: string, s: int, last: real, seen: real, rounds: seq<Round>) {
    && id in due && due[id] == last + s as real
    && last <= seen < due[id]
    && (rounds != [] ==> seen <= rounds[0].now)
  }

  lemma {:induction false} TimesAfterPublish(
    due: Schedule, rounds: seq<Round>, id: string, s: int, last: real, seen: real, gap: real)
    requires s > 0 && gap > 0.0 && Steady(rounds, id, s) && ClockForward(Clock(rounds))
    requires Between(due, id, s, last, seen, rounds)
    ensures Spaced([last] + Times(due, rounds, id), s as real)
    ensures TicksWithin(seen, rounds, gap) ==> Prompt([last] + Times(due, rounds, id), s as real, gap)
    decreases |rounds|
  {
    hide Tick, SteadyRound;
    if rounds != [] {
      var r := rounds[0];
      var later := rounds[1..];
      assert forall k :: 0 <= k < |later| ==> later[k] == rounds[k + 1];
      assert SteadyRound(rounds[0], id, s);
      SteadyTick(due, r, id, s);
      ClockTail(rounds);
      var next := Tick(due, r).0;
      if r.now >= due[id] {
        TimesAfterPublish(next, later, id, s, r.now, r.now, gap);
        assert Times(due, rounds, id) == [r.now] + Times(next, later, id);
        ConsTimes(last, r.now, Times(next, later, id), s as real, gap);
      } else {
        TimesAfterPublish(next, later, id, s, last, r.now, gap);
        assert Times(due, rounds, id) == Times(next, later, id);
      }
    }
  }

  lemma ConsTimes(a: real, b: real, rest: seq<real>, s: real, gap: real)
    ensures Spaced([b] + rest, s) && b - a >= s ==> Spaced([a] + ([b] + rest), s)
    ensures Prompt([b] + rest, s, gap) && b - a < s + gap ==> Prompt([a] + ([b] + rest), s, gap)
  {
    var all := [a] + ([b] + rest);
    assert all[0] == a && all[1] == b;
    assert forall k :: 0 < k < |all| ==> all[k] == ([b] + rest)[k - 1];
  }

  /** A device present throughout with interval s > 0 and a working publisher: the first tick publishes it when it was
      not scheduled, consecutive publishes are at least s apart, and less than s + gap apart when ticks are at most
      `gap` apart. */
  lemma SteadyTimes(rounds: seq<Round>, id: string, s: int, gap: real)
    requires s > 0 && gap > 0.0 && rounds != [] && Steady(rounds, id, s) && ClockForward(Clock(rounds))
    ensures
      var times := Times(map[], rounds, id);
      && times != [] && times[0] == rounds[0].now
      && Spaced(times, s as real)
      && (TicksWithin(rounds[0].now, rounds[1..], gap) ==> Prompt(times, s as real, gap))
  {
    var later := rounds[1..];
    assert forall k :: 0 <= k < |later| ==> later[k] == rounds[k + 1];
    assert SteadyRound(rounds[0], id, s);
    SteadyTick(map[], rounds[0], id, s);
    ClockTail(rounds);
    TimesAfterPublish(Tick(map[], rounds[0]).0, later, id, s, rounds[0].now, rounds[0].now, gap);
    assert Times(map[], rounds, id) == [rounds[0].now] + Times(Tick(map[], rounds[0]).0, later, id);
  }

  /** `n` intervals of length `x`. */
  function Span(n: nat, x: real): real {
    n as real * x
  }

  lemma OneMore(n: nat, x: real)
    ensures Span(0, x) == 0.0 && Span(n + 1, x) == Span(n, x) + x
  {
    assert (n + 1) as real == n as real + 1.0;
  }

  lemma {:induction false} SpreadAtLeast(times: seq<real>, s: real, i: nat, j: nat)
    requires i <= j < |times| && Spaced(times, s)
    ensures times[j] - times[i] >= Span(j - i, s)
    decreases j - i
  {
    hide Span;
    OneMore(0, s);
    if i < j {
      SpreadAtLeast(times, s, i, j - 1);
      OneMore(j - 1 - i, s);
      assert times[j - 1 + 1] - times[j - 1] >= s;
    }
  }

  lemma {:induction false} SpreadAtMost(times: seq<real>, s: real, gap: real, i: nat, j: nat)
    requires i <= j < |times| && Prompt(times, s, gap)
    ensures times[j] - times[i] <= Span(j - i, s + gap)
    decreases j - i
  {
    hide Span;
    OneMore(0, s + gap);
    if i < j {
      SpreadAtMost(times, s, gap, i, j - 1);
      OneMore(j - 1 - i, s + gap);
      assert times[j - 1 + 1] - times[j - 1] < s + gap;
    }
  }

  /** At most T/s + 1 publishes fall into any window of length T, and n of them take at most (n-1)(s+gap). */
  lemma WindowCount(rounds: seq<Round>, id: string, s: int, gap: real, i: nat, j: nat, window: real)
    requires s > 0 && gap > 0.0 && rounds != [] && Steady(rounds, id, s) && ClockForward(Clock(rounds))
    requires
      var times := Times(map[], rounds, id);
      i <= j < |times| && times[j] - times[i] <= window
    ensures (j - i + 1) as real <= window / s as real + 1.0
    ensures
      var times := Times(map[], rounds, id);
      TicksWithin(rounds[0].now, rounds[1..], gap) ==> times[j] - times[i] <= Span(j - i, s as real + gap)
  {
    hide Times, Spaced, Prompt, TicksWithin, ClockForward, SteadyRound, Span;
    SteadyTimes(rounds, id, s, gap);
    var times := Times(map[], rounds, id);
    SpreadAtLeast(times, s as real, i, j);
    if TicksWithin(rounds[0].now, rounds[1..], gap) {
      SpreadAtMost(times, s as real, gap, i, j);
    }
    Divide(j - i, s as real, window);
  }

  lemma Divide(n: nat, s: real, window: real)
    requires s > 0.0 && Span(n, s) <= window
    ensures (n + 1) as real <= window / s + 1.0
  {
    var q := window / s;
    assert q * s == window;
    if q < n as real {
      MulStrict(q, n as real, s);
    }
    assert (n + 1) as real == n as real + 1.0;
  }
}
