/** Assigning devices to MQTT nodes: greedy least-loaded selection with a capacity-guarded claim. */
module NodeAssignment {
  import opened Prelude

  datatype Node = Node(load: nat, capacity: nat, active: bool)

  type Fleet = seq<Node>

  predicate Eligible(n: Node) {
    n.active && n.load < n.capacity
  }

  function Claim(f: Fleet, i: nat): Fleet
    requires i < |f|
  {
    f[i := f[i].(load := f[i].load + 1)]
  }

  /** A possible answer of the candidate query: each eligible node once, fewest connections first, ties in any order. */
  ghost predicate CandidateList(f: Fleet, cands: seq<nat>) {
    && Distinct(cands)
    && (forall i: nat :: i in cands <==> i < |f| && Eligible(f[i]))
    && (forall j :: 0 <= j < |cands| ==> cands[j] < |f|)
    && (forall j, k :: 0 <= j < k < |cands| ==> f[cands[j]].load <= f[cands[k]].load)
  }

  /** Node `i` is one the query may put first. */
  ghost predicate LeastLoaded(f: Fleet, i: nat) {
    && i < |f| && Eligible(f[i])
    && forall j :: 0 <= j < |f| && Eligible(f[j]) ==> f[i].load <= f[j].load
  }

  predicate Full(f: Fleet) {
    forall i :: 0 <= i < |f| ==> !Eligible(f[i])
  }

  /** Same nodes, and no connection has been given back. */
  ghost predicate OnlyGrown(f: Fleet, g: Fleet) {
    && |f| == |g|
    && forall i :: 0 <= i < |f| ==>
         f[i].active == g[i].active && f[i].capacity == g[i].capacity && f[i].load <= g[i].load
  }

  class NodeTable {
    var nodes: Fleet

    constructor (fleet: Fleet)
      ensures nodes == fleet
    {
      nodes := fleet;
    }

    /** The guarded UPDATE ... WHERE id = i AND active_connections < capacity; returns its row count. */
    method TryClaim(i: nat) returns (rowcount: nat)
      requires i < |nodes|
      modifies this
      ensures nodes == if old(nodes)[i].load < old(nodes)[i].capacity then Claim(old(nodes), i) else old(nodes)
      ensures rowcount == if old(nodes)[i].load < old(nodes)[i].capacity then 1 else 0
    {
      rowcount := 0;
      if nodes[i].load < nodes[i].capacity {
        nodes := Claim(nodes, i);
        rowcount := 1;
      }
    }

    /** The candidate list was read from `snapshot`; since then other calls may have claimed connections. The claimed
        node still had room, was the least loaded in the snapshot among the nodes that still have room, and the call
        raises exactly when every active node is full by now. */
    method AssignNode(snapshot: Fleet, cands: seq<nat>) returns (chosen: Option<nat>)
      requires CandidateList(snapshot, cands) && OnlyGrown(snapshot, nodes)
      modifies this
      ensures chosen.None? <==> Full(old(nodes))
      ensures chosen.None? ==> nodes == old(nodes)
      ensures chosen.Some? ==>
                && chosen.value < |old(nodes)| && Eligible(old(nodes)[chosen.value])
                && nodes == Claim(old(nodes), chosen.value)
                && forall j :: 0 <= j < |snapshot| && Eligible(old(nodes)[j]) ==>
                     snapshot[chosen.value].load <= snapshot[j].load
      ensures chosen.Some? && snapshot == old(nodes) ==> LeastLoaded(old(nodes), chosen.value)
    {
      var k := 0;
      while k < |cands|
        invariant k <= |cands| && nodes == old(nodes)
        invariant forall j :: 0 <= j < k ==> !Eligible(nodes[cands[j]])
      {
        assert cands[k] in cands;
        var rowcount := TryClaim(cands[k]);
        if rowcount == 1 {
          forall j | 0 <= j < |snapshot| && Eligible(old(nodes)[j])
              ensures snapshot[cands[k]].load <= snapshot[j].load {
            assert j in cands;
          }
          return Some(cands[k]);
        }
        k := k + 1;
      }
      forall i | 0 <= i < |nodes| ensures !Eligible(nodes[i]) {
        assert Eligible(nodes[i]) ==> i in cands;
      }
      return None;
    }
  }

  // ---------------------------------------------------------------- sequential runs

  /** The fleet after devices went to the nodes `choices`, one by one, each least loaded when it was chosen. */
  ghost predicate GreedyRun(f: Fleet, choices: seq<nat>)
    decreases |choices|
  {
    choices != [] ==> LeastLoaded(f, choices[0]) && GreedyRun(Claim(f, choices[0]), choices[1..])
  }

  function FleetAfter(f: Fleet, choices: seq<nat>): Fleet
    requires forall k :: 0 <= k < |choices| ==> choices[k] < |f|
    decreases |choices|
  {
    if choices == [] then f else FleetAfter(Claim(f, choices[0]), choices[1..])
  }

  /** No active node is more than one device ahead of a node that still has room. */
  ghost predicate Balanced(f: Fleet) {
    forall a, b :: 0 <= a < |f| && 0 <= b < |f| && f[a].active && Eligible(f[b]) ==> f[a].load <= f[b].load + 1
  }

  ghost predicate Idle(f: Fleet) {
    forall i :: 0 <= i < |f| && f[i].active ==> f[i].load == 0
  }

  ghost predicate SameNodes(f: Fleet, g: Fleet) {
    |f| == |g| && forall i :: 0 <= i < |f| ==> f[i].active == g[i].active && f[i].capacity == g[i].capacity
  }

  ghost predicate WithinCapacity(f: Fleet) {
    forall i :: 0 <= i < |f| && f[i].active ==> f[i].load <= f[i].capacity
  }

  lemma {:induction false} GreedyStaysBalanced(f: Fleet, choices: seq<nat>)
    requires Balanced(f) && WithinCapacity(f) && GreedyRun(f, choices)
    ensures forall k :: 0 <= k < |choices| ==> choices[k] < |f|
    ensures
      var g := FleetAfter(f, choices);
      Balanced(g) && WithinCapacity(g) && SameNodes(f, g) && Total(g, Loads(g)) == Total(f, Loads(f)) + |choices|
    decreases |choices|
  {
    if choices != [] {
      var g := Claim(f, choices[0]);
      TotalClaim(f, choices[0]);
      GreedyStaysBalanced(g, choices[1..]);
      assert choices == [choices[0]] + choices[1..];
    }
  }

  // ---------------------------------------------------------------- water filling

  function Loads(f: Fleet): seq<nat> {
    seq(|f|, i requires 0 <= i < |f| => f[i].load)
  }

  /** Devices on active nodes under the distribution `m`. */
  function Total(f: Fleet, m: seq<nat>): nat
    requires |m| == |f|
    decreases |f|
  {
    if f == [] then 0 else (if f[0].active then m[0] else 0) + Total(f[1..], m[1..])
  }

  /** Devices above level `h`, summed over the active nodes. */
  function Overflow(f: Fleet, m: seq<nat>, h: nat): nat
    requires |m| == |f|
    decreases |f|
  {
    if f == [] then 0 else (if f[0].active && m[0] > h then m[0] - h else 0) + Overflow(f[1..], m[1..], h)
  }

  function Submerged(f: Fleet, m: seq<nat>, h: nat): nat
    requires |m| == |f|
    decreases |f|
  {
    if f == [] then 0 else (if f[0].active then Min(m[0], h) else 0) + Submerged(f[1..], m[1..], h)
  }

  lemma {:induction false} TotalClaim(f: Fleet, i: nat)
    requires i < |f| && f[i].active
    ensures Total(Claim(f, i), Loads(Claim(f, i))) == Total(f, Loads(f)) + 1
    decreases |f|
  {
    assert Loads(f)[1..] == Loads(f[1..]);
    assert Loads(Claim(f, i))[1..] == Loads(Claim(f, i)[1..]);
    if i > 0 {
      TotalClaim(f[1..], i - 1);
      assert Claim(f, i)[1..] == Claim(f[1..], i - 1);
    } else {
      assert Claim(f, i)[1..] == f[1..];
    }
  }

  lemma {:induction false} TotalSplits(f: Fleet, m: seq<nat>, h: nat)
    requires |m| == |f|
    ensures Total(f, m) == Submerged(f, m, h) + Overflow(f, m, h)
    decreases |f|
  {
    if f != [] {
      TotalSplits(f[1..], m[1..], h);
    }
  }

  lemma {:induction false} NoOverflow(f: Fleet, m: seq<nat>, h: nat)
    requires |m| == |f|
    ensures Overflow(f, m, h) == 0 <==> forall i :: 0 <= i < |f| && f[i].active ==> m[i] <= h
    decreases |f|
  {
    if f != [] {
      NoOverflow(f[1..], m[1..], h);
      assert forall i :: 0 < i < |f| ==> f[i] == f[1..][i - 1] && m[i] == m[1..][i - 1];
      assert forall i :: 0 <= i < |f[1..]| ==> f[1..][i] == f[i + 1] && m[1..][i] == m[i + 1];
    }
  }

  lemma {:induction false} SubmergedMono(f: Fleet, m: seq<nat>, n: seq<nat>, h: nat)
    requires |m| == |n| == |f|
    requires forall i :: 0 <= i < |f| && f[i].active ==> Min(m[i], h) <= Min(n[i], h)
    ensures Submerged(f, m, h) <= Submerged(f, n, h)
    decreases |f|
  {
    if f != [] {
      assert forall i :: 0 <= i < |f[1..]| ==> f[1..][i] == f[i + 1] && m[1..][i] == m[i + 1] && n[1..][i] == n[i + 1];
      SubmergedMono(f[1..], m[1..], n[1..], h);
    }
  }

  /** A balanced fleet spills least at every level: no way of placing the same number of devices within the node
      capacities leaves fewer devices above any level `h`. */
  lemma BalancedSpillsLeast(f: Fleet, m: seq<nat>, h: nat)
    requires Balanced(f) && WithinCapacity(f)
    requires |m| == |f| && Total(f, m) == Total(f, Loads(f))
    requires forall i :: 0 <= i < |f| && f[i].active ==> m[i] <= f[i].capacity
    ensures Overflow(f, Loads(f), h) <= Overflow(f, m, h)
  {
    NoOverflow(f, Loads(f), h);
    if Overflow(f, Loads(f), h) > 0 {
      var a :| 0 <= a < |f| && f[a].active && f[a].load > h;
      forall i | 0 <= i < |f| && f[i].active ensures Min(m[i], h) <= Min(f[i].load, h) {
        if Eligible(f[i]) {
          assert f[a].load <= f[i].load + 1;
        } else {
          assert f[i].load == f[i].capacity;
        }
      }
      SubmergedMono(f, m, Loads(f), h);
      TotalSplits(f, m, h);
      TotalSplits(f, Loads(f), h);
    }
  }

  /** From an empty fleet, greedy assignment spills least at every level and so minimises the maximum load among all
      capacity-respecting placements of the same number of devices. */
  lemma GreedyIsOptimal(f: Fleet, choices: seq<nat>, m: seq<nat>, h: nat)
    requires Idle(f) && GreedyRun(f, choices)
    requires |m| == |f| && Total(f, m) == |choices|
    requires forall i :: 0 <= i < |f| && f[i].active ==> m[i] <= f[i].capacity
    ensures forall k :: 0 <= k < |choices| ==> choices[k] < |f|
    ensures
      var g := FleetAfter(f, choices);
      && |g| == |f|
      && Overflow(g, Loads(g), h) <= Overflow(g, m, h)
      && ((forall i :: 0 <= i < |f| && f[i].active ==> m[i] <= h)
          ==> forall i :: 0 <= i < |f| && f[i].active ==> g[i].load <= h)
  {
    GreedyStaysBalanced(f, choices);
    var g := FleetAfter(f, choices);
    IdleTotal(f);
    TotalSame(f, g, m);
    BalancedSpillsLeast(g, m, h);
    NoOverflow(g, m, h);
    NoOverflow(g, Loads(g), h);
  }

  lemma {:induction false} IdleTotal(f: Fleet)
    requires Idle(f)
    ensures Total(f, Loads(f)) == 0
    decreases |f|
  {
    if f != [] {
      assert Loads(f)[1..] == Loads(f[1..]);
      assert forall i :: 0 <= i < |f[1..]| ==> f[1..][i] == f[i + 1];
      IdleTotal(f[1..]);
    }
  }

  lemma {:induction false} TotalSame(f: Fleet, g: Fleet, m: seq<nat>)
    requires SameNodes(f, g) && |m| == |f|
    ensures Total(f, m) == Total(g, m)
    decreases |f|
  {
    if f != [] {
      TotalSame(f[1..], g[1..], m[1..]);
    }
  }

  // ---------------------------------------------------------------- concurrent claims

  /** One assign_node call between its query and its last claim. */
  datatype Pc = Ready | Trying(rest: seq<nat>) | Assigned(node: nat) | NoCapacity

  datatype World = World(nodes: Fleet, calls: map<nat, Pc>)

  function PcOf(w: World, a: nat): Pc {
    if a in w.calls then w.calls[a] else Ready
  }

  /** Call `a` runs its candidate query, or tries its next candidate, or raises when it has none left. */
  ghost predicate Next(w: World, v: World, a: nat) {
    match PcOf(w, a)
    case Ready =>
      v.nodes == w.nodes && exists cands :: CandidateList(w.nodes, cands) && v.calls == w.calls[a := Trying(cands)]
    case Trying(rest) =>
      if rest == [] then v == w.(calls := w.calls[a := NoCapacity])
      else
        && rest[0] < |w.nodes|
        && (if w.nodes[rest[0]].load < w.nodes[rest[0]].capacity
            then v == World(Claim(w.nodes, rest[0]), w.calls[a := Assigned(rest[0])])
            else v == w.(calls := w.calls[a := Trying(rest[1..])]))
    case _ => false
  }

  ghost predicate Suffices(f: Fleet, rest: seq<nat>) {
    && (forall i :: i in rest ==> i < |f| && f[i].active)
    && (forall i :: 0 <= i < |f| && Eligible(f[i]) ==> i in rest)
  }

  lemma CandidatesSuffice(f: Fleet, cands: seq<nat>)
    requires CandidateList(f, cands)
    ensures Suffices(f, cands)
  {
  }

  lemma TailSuffices(f: Fleet, rest: seq<nat>)
    requires Suffices(f, rest) && rest != [] && rest[0] < |f| && !Eligible(f[rest[0]])
    ensures Suffices(f, rest[1..])
  {
    assert rest == [rest[0]] + rest[1..];
    assert forall i :: i in rest <==> i == rest[0] || i in rest[1..];
  }

  /** Every active node a call has no candidate left for is full. */
  ghost predicate RestIsEnough(w: World, a: nat) {
    match PcOf(w, a)
    case Trying(rest) => Suffices(w.nodes, rest)
    case NoCapacity => Full(w.nodes)
    case _ => true
  }

  function Claims(calls: map<nat, Pc>): set<nat> {
    set a | a in calls && calls[a].Assigned?
  }

  ghost predicate Inv(w: World, start: Fleet) {
    && SameNodes(start, w.nodes) && WithinCapacity(w.nodes)
    && (forall a :: RestIsEnough(w, a))
    && Total(w.nodes, Loads(w.nodes)) == Total(start, Loads(start)) + |Claims(w.calls)|
  }

  lemma ClaimKeepsRest(w: World, v: World, i: nat, a: nat)
    requires i < |w.nodes| && v.nodes == Claim(w.nodes, i) && PcOf(v, a) == PcOf(w, a) && RestIsEnough(w, a)
    ensures RestIsEnough(v, a)
  {
  }

  lemma InvClaim(w: World, v: World, a: nat, i: nat, start: Fleet)
    requires Inv(w, start) && PcOf(w, a).Trying? && i < |w.nodes| && Eligible(w.nodes[i])
    requires v == World(Claim(w.nodes, i), w.calls[a := Assigned(i)])
    ensures Inv(v, start)
  {
    TotalClaim(w.nodes, i);
    assert Claims(v.calls) == Claims(w.calls) + {a};
    hide Total, Loads;
    forall b ensures RestIsEnough(v, b) {
      if b != a {
        assert RestIsEnough(w, b);
        ClaimKeepsRest(w, v, i, b);
      }
    }
  }

  lemma OwnRest(w: World, v: World, a: nat)
    requires Next(w, v, a) && RestIsEnough(w, a) && WithinCapacity(w.nodes)
    requires PcOf(w, a).Trying? && PcOf(w, a).rest != [] ==> !Eligible(w.nodes[PcOf(w, a).rest[0]])
    ensures RestIsEnough(v, a)
  {
    var pc := PcOf(w, a);
    if pc.Ready? {
      var cands :| CandidateList(w.nodes, cands) && v.calls == w.calls[a := Trying(cands)];
      assert PcOf(v, a) == Trying(cands);
      CandidatesSuffice(w.nodes, cands);
      hide Suffices, CandidateList;
    } else if pc.rest == [] {
      assert PcOf(v, a) == NoCapacity;
    } else {
      TailSuffices(w.nodes, pc.rest);
      assert PcOf(v, a) == Trying(pc.rest[1..]);
      hide Suffices;
    }
  }

  /** Whatever the interleaving of queries and guarded claims: no node passes its capacity, each successful call adds
      exactly one connection, and a call that raises does so only when every active node is full at that moment. */
  lemma InvNext(w: World, v: World, a: nat, start: Fleet)
    requires Inv(w, start) && Next(w, v, a)
    ensures Inv(v, start)
  {
    assert RestIsEnough(w, a);
    hide Total, Loads;
    var pc := PcOf(w, a);
    if pc.Trying? && pc.rest != [] && Eligible(w.nodes[pc.rest[0]]) {
      InvClaim(w, v, a, pc.rest[0], start);
    } else {
      assert Claims(v.calls) == Claims(w.calls);
      OwnRest(w, v, a);
      forall b ensures RestIsEnough(v, b) {
        assert RestIsEnough(w, b);
        assert b != a ==> PcOf(v, b) == PcOf(w, b);
      }
    }
  }

  /** The states of a run together with the call that made each step. */
  ghost predicate Run(ws: seq<World>, callers: seq<nat>) {
    && |ws| == |callers| + 1
    && forall k :: 0 <= k < |callers| ==> Next(ws[k], ws[k + 1], callers[k])
  }

  lemma {:induction false} ConcurrentClaimsSafe(ws: seq<World>, callers: seq<nat>, start: Fleet)
    requires Run(ws, callers) && ws[0] == World(start, map[]) && WithinCapacity(start)
    ensures Inv(ws[|callers|], start)
    decreases |callers|
  {
    var n := |callers|;
    if n == 0 {
      assert Claims(map[]) == {};
    } else {
      ConcurrentClaimsSafe(ws[..n], callers[..n - 1], start);
      assert ws[..n][n - 1] == ws[n - 1];
      assert Next(ws[n - 1], ws[n - 1 + 1], callers[n - 1]);
      InvNext(ws[n - 1], ws[n], callers[n - 1], start);
    }
  }
}
