/** Persisting a rule's graph: client ids become database ids on the way in, and rows come back in any order. */
module RuleStore {
  import opened Prelude
  import opened RuleChain
  import opened RulePlan

  datatype ClientNode = ClientNode(id: Option<string>, kind: Option<string>, config: Option<Config>)

  /** A row of the node or edge table with its `rule_id` column. */
  datatype Stored<T> = Stored(rule: string, row: T)

  datatype Record = Record(name: string, enabled: bool)

  datatype Outcome = Saved | NotFound | InvalidName | PlanLimit | InvalidGraph

  const ACTIVE_LIMIT: nat := 2

  // ---------------------------------------------------------------- from client rows to stored rows

  /** The `client_to_db` dictionary: the last node of a client id wins, a node without an id is in it nowhere. */
  function ClientToDb(nodes: seq<ClientNode>, ids: seq<string>): map<string, string>
    requires |ids| == |nodes|
  {
    if nodes == [] then map[]
    else
      var n := |nodes| - 1;
      var m := ClientToDb(nodes[..n], ids[..n]);
      if nodes[n].id.Some? then m[nodes[n].id.value := ids[n]] else m
  }

  ghost predicate LastNodeOf(nodes: seq<ClientNode>, id: string, i: nat) {
    i < |nodes| && nodes[i].id == Some(id) && forall j :: i < j < |nodes| ==> nodes[j].id != Some(id)
  }

  /** A client id stands for the database id of the last node that carries it. */
  lemma {:induction false} ClientToDbExact(nodes: seq<ClientNode>, ids: seq<string>, id: string)
    requires |ids| == |nodes|
    ensures id in ClientToDb(nodes, ids) <==> exists i: nat :: LastNodeOf(nodes, id, i)
    ensures forall i: nat :: LastNodeOf(nodes, id, i) ==> ClientToDb(nodes, ids)[id] == ids[i]
  {
    if nodes != [] {
      var n := |nodes| - 1;
      var front := nodes[..n];
      ClientToDbExact(front, ids[..n], id);
      assert forall j :: 0 <= j < n ==> front[j] == nodes[j];
      if nodes[n].id == Some(id) {
        assert LastNodeOf(nodes, id, n);
      } else {
        forall i: nat ensures LastNodeOf(nodes, id, i) <==> LastNodeOf(front, id, i) {
        }
      }
    }
  }

  predicate Typed(nodes: seq<ClientNode>) {
    forall i :: 0 <= i < |nodes| ==> nodes[i].kind.Some?
  }

  predicate Known(m: map<string, string>, end: Option<string>) {
    end.Some? && end.value != "" && end.value in m
  }

  predicate Linked(m: map<string, string>, edges: seq<EdgeRow>) {
    forall i :: 0 <= i < |edges| ==> Known(m, edges[i].source) && Known(m, edges[i].target)
  }

  /** Every node has a kind, every edge joins two nodes of the request. */
  predicate Savable(nodes: seq<ClientNode>, edges: seq<EdgeRow>, ids: seq<string>)
    requires |ids| == |nodes|
  {
    Typed(nodes) && Linked(ClientToDb(nodes, ids), edges)
  }

  /** A graph is accepted exactly when every node has a kind and every edge names, at both ends, the non-empty id of
      some node. */
  lemma SavableExact(nodes: seq<ClientNode>, edges: seq<EdgeRow>, ids: seq<string>)
    requires |ids| == |nodes|
    ensures Savable(nodes, edges, ids)
            <==> && (forall node :: node in nodes ==> node.kind.Some?)
                 && (forall edge :: edge in edges ==> NamesNode(nodes, edge.source) && NamesNode(nodes, edge.target))
  {
    hide ClientToDb;
    var m := ClientToDb(nodes, ids);
    forall end ensures Known(m, end) <==> NamesNode(nodes, end) {
      if end.Some? {
        KnownExact(nodes, ids, end.value);
      }
    }
    hide Known, NamesNode;
    assert Typed(nodes) <==> forall node :: node in nodes ==> node.kind.Some?;
  }

  ghost predicate NamesNode(nodes: seq<ClientNode>, end: Option<string>) {
    end.Some? && end.value != "" && exists i :: 0 <= i < |nodes| && nodes[i].id == end
  }

  lemma {:induction false} KnownExact(nodes: seq<ClientNode>, ids: seq<string>, id: string)
    requires |ids| == |nodes|
    ensures id in ClientToDb(nodes, ids) <==> exists i :: 0 <= i < |nodes| && nodes[i].id == Some(id)
  {
    if nodes != [] {
      var n := |nodes| - 1;
      KnownExact(nodes[..n], ids[..n], id);
      assert forall j :: 0 <= j < n ==> nodes[..n][j] == nodes[j];
    }
  }

  function DbNode(node: ClientNode, id: string): NodeRow
    requires node.kind.Some?
  {
    NodeRow(Some(id), node.kind.value, node.config)
  }

  function NodeRows(nodes: seq<ClientNode>, ids: seq<string>): seq<NodeRow>
    requires |ids| == |nodes| && Typed(nodes)
  {
    seq(|nodes|, i requires 0 <= i < |nodes| => DbNode(nodes[i], ids[i]))
  }

  function DbEdge(m: map<string, string>, edge: EdgeRow): EdgeRow
    requires Known(m, edge.source) && Known(m, edge.target)
  {
    EdgeRow(Some(m[edge.source.value]), Some(m[edge.target.value]))
  }

  function EdgeRows(m: map<string, string>, edges: seq<EdgeRow>): seq<EdgeRow>
    requires Linked(m, edges)
  {
    seq(|edges|, i requires 0 <= i < |edges| => DbEdge(m, edges[i]))
  }

  /** The client's own reading of its graph. */
  function ClientRows(nodes: seq<ClientNode>): seq<NodeRow>
    requires Typed(nodes)
  {
    seq(|nodes|, i requires 0 <= i < |nodes| => NodeRow(nodes[i].id, nodes[i].kind.value, nodes[i].config))
  }

  // ---------------------------------------------------------------- tables

  function RowsOf<T>(table: seq<Stored<T>>, rule: string): seq<T> {
    if table == [] then []
    else
      var rows, last := RowsOf(table[..|table| - 1], rule), table[|table| - 1];
      if last.rule == rule then rows + [last.row] else rows
  }

  function RowsWithout<T>(table: seq<Stored<T>>, rule: string): seq<Stored<T>> {
    if table == [] then []
    else
      var rows, last := RowsWithout(table[..|table| - 1], rule), table[|table| - 1];
      if last.rule == rule then rows else rows + [last]
  }

  lemma RowsOfAppend<T>(table: seq<Stored<T>>, added: Stored<T>, rule: string)
    ensures RowsOf(table + [added], rule)
         == if added.rule == rule then RowsOf(table, rule) + [added.row] else RowsOf(table, rule)
  {
    assert (table + [added])[..|table|] == table;
  }

  /** Deleting a rule's rows leaves it none and every other rule its own. */
  lemma {:induction false} RowsWithoutRule<T>(table: seq<Stored<T>>, rule: string, other: string)
    ensures RowsOf(RowsWithout(table, rule), other) == if other == rule then [] else RowsOf(table, other)
  {
    if table != [] {
      var last := table[|table| - 1];
      RowsWithoutRule(table[..|table| - 1], rule, other);
      if last.rule != rule {
        RowsOfAppend(RowsWithout(table[..|table| - 1], rule), last, other);
      }
    }
  }

  // ---------------------------------------------------------------- the service

  function ActiveRules(rules: map<string, Record>): set<string> {
    set id | id in rules && rules[id].enabled
  }

  predicate Unlimited(plan: Option<string>) {
    plan.Some? && Normal(plan.value) == "pro"
  }

  predicate MayActivate(plan: Option<string>, rules: map<string, Record>) {
    Unlimited(plan) || |ActiveRules(rules)| < ACTIVE_LIMIT
  }

  /** Another rule may be activated on the pro plan, however it is written, or while no two rules are active. */
  lemma MayActivateExact(plan: Option<string>, rules: map<string, Record>)
    ensures MayActivate(plan, rules)
            <==> || (plan.Some? && Spells(plan.value, "pro"))
                 || !exists a, b :: a in rules && b in rules && a != b && rules[a].enabled && rules[b].enabled
  {
    if plan.Some? {
      NormalSpells(plan.value, "pro");
    }
    hide Spells, Normal;
    var active := ActiveRules(rules);
    if |active| >= 2 {
      var a, b := TwoOf(active);
      assert a in rules && b in rules && a != b && rules[a].enabled && rules[b].enabled;
    }
    if a, b :| a in rules && b in rules && a != b && rules[a].enabled && rules[b].enabled {
      SubsetSize({a, b}, active);
    }
  }

  lemma TwoOf<T>(s: set<T>) returns (a: T, b: T)
    requires |s| >= 2
    ensures a in s && b in s && a != b
  {
    a :| a in s;
    assert |s - {a}| == |s| - 1;
    b :| b in s - {a};
  }

  function OrEmpty<T>(xs: Option<seq<T>>): seq<T> {
    if xs.Some? then xs.value else []
  }

  /** One organisation's rules. Each request is a transaction: it commits as a whole or leaves the tables alone. */
  class RuleService {
    var plan: Option<string>
    var rules: map<string, Record>
    var nodes: seq<Stored<NodeRow>>
    var edges: seq<Stored<EdgeRow>>

    constructor (plan: Option<string>)
      ensures this.plan == plan && rules == map[] && nodes == [] && edges == []
    {
      this.plan, rules, nodes, edges := plan, map[], [], [];
    }

    /** The rows a reader of the rule gets; the database may hand them over in any order. */
    ghost function Graph(rule: string): (seq<NodeRow>, seq<EdgeRow>)
      reads this
    {
      (RowsOf(nodes, rule), RowsOf(edges, rule))
    }

    /** Adds node rows with the ids generated for them, then edge rows between them; stops at the first bad one. */
    method FlushGraph(rule: string, newNodes: seq<ClientNode>, newEdges: seq<EdgeRow>, ids: seq<string>)
      returns (ok: bool)
      requires |ids| == |newNodes|
      modifies this`nodes, this`edges
      ensures ok <==> Savable(newNodes, newEdges, ids)
      ensures ok ==> RowsOf(nodes, rule) == RowsOf(old(nodes), rule) + NodeRows(newNodes, ids)
      ensures ok ==> RowsOf(edges, rule) == RowsOf(old(edges), rule) + EdgeRows(ClientToDb(newNodes, ids), newEdges)
      ensures forall other :: other != rule ==> Graph(other) == old(Graph(other))
    {
      hide DbNode, DbEdge;
      var clientToDb: map<string, string> := map[];
      for i := 0 to |newNodes|
        invariant Typed(newNodes[..i]) && clientToDb == ClientToDb(newNodes[..i], ids[..i]) && edges == old(edges)
        invariant RowsOf(nodes, rule) == RowsOf(old(nodes), rule) + NodeRows(newNodes[..i], ids[..i])
        invariant forall other :: other != rule ==> RowsOf(nodes, other) == RowsOf(old(nodes), other)
      {
        if newNodes[i].kind.None? {
          assert !Typed(newNodes);
          return false;
        }
        assert newNodes[..i + 1][..i] == newNodes[..i] && ids[..i + 1][..i] == ids[..i];
        var added := Stored(rule, DbNode(newNodes[i], ids[i]));
        forall other { RowsOfAppend(nodes, added, other); }
        NodeRowsGrow(newNodes, ids, i);
        nodes := nodes + [added];
        if newNodes[i].id.Some? {
          clientToDb := clientToDb[newNodes[i].id.value := ids[i]];
        }
      }
      assert newNodes[..|newNodes|] == newNodes && ids[..|newNodes|] == ids;
      ok := FlushEdges(rule, newEdges, clientToDb);
    }

    method FlushEdges(rule: string, newEdges: seq<EdgeRow>, clientToDb: map<string, string>) returns (ok: bool)
      modifies this`edges
      ensures ok <==> Linked(clientToDb, newEdges)
      ensures ok ==> RowsOf(edges, rule) == RowsOf(old(edges), rule) + EdgeRows(clientToDb, newEdges)
      ensures forall other :: other != rule ==> RowsOf(edges, other) == RowsOf(old(edges), other)
    {
      hide DbEdge;
      for i := 0 to |newEdges|
        invariant Linked(clientToDb, newEdges[..i])
        invariant RowsOf(edges, rule) == RowsOf(old(edges), rule) + EdgeRows(clientToDb, newEdges[..i])
        invariant forall other :: other != rule ==> RowsOf(edges, other) == RowsOf(old(edges), other)
      {
        var edge := newEdges[i];
        if !Known(clientToDb, edge.source) || !Known(clientToDb, edge.target) {
          return false;
        }
        var added := Stored(rule, DbEdge(clientToDb, edge));
        forall other { RowsOfAppend(edges, added, other); }
        assert EdgeRows(clientToDb, newEdges[..i + 1]) == EdgeRows(clientToDb, newEdges[..i]) + [added.row];
        edges := edges + [added];
      }
      assert newEdges[..|newEdges|] == newEdges;
      ok := true;
    }

    method DeleteGraph(rule: string)
      modifies this`nodes, this`edges
      ensures Graph(rule) == ([], [])
      ensures forall other :: other != rule ==> Graph(other) == old(Graph(other))
    {
      forall other
        ensures RowsOf(RowsWithout(nodes, rule), other) == if other == rule then [] else RowsOf(nodes, other)
        ensures RowsOf(RowsWithout(edges, rule), other) == if other == rule then [] else RowsOf(edges, other)
      {
        RowsWithoutRule(nodes, rule, other);
        RowsWithoutRule(edges, rule, other);
      }
      edges := RowsWithout(edges, rule);
      nodes := RowsWithout(nodes, rule);
    }

    /** `id` and `ids` are the fresh identifiers the database generates. */
    method CreateRule(id: string, name: Option<string>, newNodes: Option<seq<ClientNode>>,
                      newEdges: Option<seq<EdgeRow>>, enabled: bool, ids: seq<string>) returns (outcome: Outcome)
      requires id !in rules && Graph(id) == ([], []) && |ids| == |OrEmpty(newNodes)|
      modifies this
      ensures outcome == if name.None? || Strip(name.value) == "" then InvalidName
                         else if enabled && !MayActivate(plan, old(rules)) then PlanLimit
                         else if !Savable(OrEmpty(newNodes), OrEmpty(newEdges), ids) then InvalidGraph
                         else Saved
      ensures plan == old(plan)
      ensures outcome == Saved ==>
        && rules == old(rules)[id := Record(Strip(name.value), enabled)]
        && Graph(id) == (NodeRows(OrEmpty(newNodes), ids),
                         EdgeRows(ClientToDb(OrEmpty(newNodes), ids), OrEmpty(newEdges)))
        && forall other :: other != id ==> Graph(other) == old(Graph(other))
      ensures outcome != Saved ==> rules == old(rules) && nodes == old(nodes) && edges == old(edges)
    {
      hide Strip, RowsOf, MayActivate, ActiveRules, Savable, NodeRows, EdgeRows, ClientToDb;
      if name.None? || Strip(name.value) == "" {
        return InvalidName;
      }
      if enabled && !MayActivate(plan, rules) {
        return PlanLimit;
      }
      var before, nodesBefore, edgesBefore := rules, nodes, edges;
      rules := rules[id := Record(Strip(name.value), enabled)];
      var ok := FlushGraph(id, OrEmpty(newNodes), OrEmpty(newEdges), ids);
      if !ok {
        rules, nodes, edges := before, nodesBefore, edgesBefore;
        return InvalidGraph;
      }
      assert forall rows: seq<NodeRow> :: [] + rows == rows;
      assert forall rows: seq<EdgeRow> :: [] + rows == rows;
      outcome := Saved;
    }

    /** A partial update. `nodes` or `edges` being set replaces the whole graph: what is not given counts as empty. */
    method UpdateRule(id: string, name: Option<string>, nameSet: bool, enabled: Option<bool>,
                      newNodes: Option<seq<ClientNode>>, nodesSet: bool, newEdges: Option<seq<EdgeRow>>, edgesSet: bool,
                      ids: seq<string>) returns (outcome: Outcome)
      requires |ids| == |OrEmpty(newNodes)|
      modifies this
      ensures outcome == if id !in old(rules) then NotFound
                         else if nameSet && (name.None? || Strip(name.value) == "") then InvalidName
                         else if enabled == Some(true) && !old(rules)[id].enabled && !MayActivate(plan, old(rules))
                             then PlanLimit
                         else if (nodesSet || edgesSet) && !Savable(OrEmpty(newNodes), OrEmpty(newEdges), ids)
                             then InvalidGraph
                         else Saved
      ensures plan == old(plan)
      ensures outcome == Saved ==>
        && rules == old(rules)[id := Record(if nameSet then Strip(name.value) else old(rules)[id].name,
                                            if enabled.Some? then enabled.value else old(rules)[id].enabled)]
        && Graph(id) == (if nodesSet || edgesSet then
                           (NodeRows(OrEmpty(newNodes), ids),
                            EdgeRows(ClientToDb(OrEmpty(newNodes), ids), OrEmpty(newEdges)))
                         else old(Graph(id)))
        && forall other :: other != id ==> Graph(other) == old(Graph(other))
      ensures outcome != Saved ==> rules == old(rules) && nodes == old(nodes) && edges == old(edges)
    {
      hide Strip, RowsOf, MayActivate, ActiveRules, Savable, NodeRows, EdgeRows, ClientToDb;
      if id !in rules {
        return NotFound;
      }
      var before, nodesBefore, edgesBefore := rules, nodes, edges;
      if nameSet {
        if name.None? || Strip(name.value) == "" {
          return InvalidName;
        }
        rules := rules[id := rules[id].(name := Strip(name.value))];
        RenamingKeepsActive(plan, before, id, Strip(name.value));
      }
      if enabled == Some(true) && !rules[id].enabled && !MayActivate(plan, rules) {
        rules := before;
        return PlanLimit;
      }
      if enabled.Some? {
        rules := rules[id := rules[id].(enabled := enabled.value)];
      }
      if nodesSet || edgesSet {
        DeleteGraph(id);
        var ok := FlushGraph(id, OrEmpty(newNodes), OrEmpty(newEdges), ids);
        if !ok {
          rules, nodes, edges := before, nodesBefore, edgesBefore;
          return InvalidGraph;
        }
        assert forall rows: seq<NodeRow> :: [] + rows == rows;
        assert forall rows: seq<EdgeRow> :: [] + rows == rows;
      }
      outcome := Saved;
    }

    method DeleteRule(id: string) returns (outcome: Outcome)
      modifies this
      ensures outcome == if id in old(rules) then Saved else NotFound
      ensures plan == old(plan) && rules == old(rules) - {id}
      ensures outcome == Saved ==>
        Graph(id) == ([], []) && forall other :: other != id ==> Graph(other) == old(Graph(other))
      ensures outcome != Saved ==> nodes == old(nodes) && edges == old(edges)
    {
      if id !in rules {
        return NotFound;
      }
      DeleteGraph(id);
      rules := rules - {id};
      outcome := Saved;
    }
  }

  lemma NodeRowsGrow(nodes: seq<ClientNode>, ids: seq<string>, i: nat)
    requires i < |nodes| == |ids| && Typed(nodes[..i]) && nodes[i].kind.Some?
    ensures Typed(nodes[..i + 1])
    ensures NodeRows(nodes[..i + 1], ids[..i + 1]) == NodeRows(nodes[..i], ids[..i]) + [DbNode(nodes[i], ids[i])]
  {
  }

  lemma RenamingKeepsActive(plan: Option<string>, rules: map<string, Record>, id: string, name: string)
    requires id in rules
    ensures MayActivate(plan, rules[id := rules[id].(name := name)]) == MayActivate(plan, rules)
  {
    assert ActiveRules(rules[id := rules[id].(name := name)]) == ActiveRules(rules);
  }

  /** Creating, enabling and changing rules under the limit check never takes a limited organisation past the limit. */
  lemma ActiveLimitKept(plan: Option<string>, rules: map<string, Record>, id: string, record: Record)
    requires !Unlimited(plan) && |ActiveRules(rules)| <= ACTIVE_LIMIT
    requires record.enabled && !(id in rules && rules[id].enabled) ==> MayActivate(plan, rules)
    ensures |ActiveRules(rules[id := record])| <= ACTIVE_LIMIT
  {
    hide Unlimited;
    var before, after := ActiveRules(rules), ActiveRules(rules[id := record]);
    var limit := if id in before then before else before + {id};
    assert after <= (if record.enabled then limit else before);
    if record.enabled {
      SubsetSize(after, limit);
    } else {
      SubsetSize(after, before);
    }
  }

  lemma SubsetSize<T>(a: set<T>, b: set<T>)
    requires a <= b
    ensures |a| <= |b|
  {
    assert b == a + (b - a) && a !! (b - a);
  }

  // ---------------------------------------------------------------- the round trip

  /** A graph as the editor produces it: every node with its own id, one successor a node, one trigger. */
  ghost predicate EditorGraph(nodes: seq<ClientNode>, edges: seq<EdgeRow>) {
    && Typed(nodes)
    && (forall i :: 0 <= i < |nodes| ==> nodes[i].id.Some?)
    && (forall i, j :: 0 <= i < j < |nodes| ==> nodes[i].id != nodes[j].id)
    && OneEdgePerSource(edges)
    && AtMostOneTrigger(ClientRows(nodes))
  }

  lemma {:induction false} MappingExact(nodes: seq<ClientNode>, ids: seq<string>)
    requires |ids| == |nodes| && Distinct(ids)
    requires forall i :: 0 <= i < |nodes| ==> nodes[i].id.Some?
    requires forall i, j :: 0 <= i < j < |nodes| ==> nodes[i].id != nodes[j].id
    ensures var m := ClientToDb(nodes, ids);
            && (forall i :: 0 <= i < |nodes| ==> nodes[i].id.value in m && m[nodes[i].id.value] == ids[i])
            && (forall id :: id in m ==> exists i :: 0 <= i < |nodes| && nodes[i].id == Some(id))
  {
    if nodes != [] {
      var n := |nodes| - 1;
      MappingExact(nodes[..n], ids[..n]);
      assert forall i :: 0 <= i < n ==> nodes[..n][i] == nodes[i] && ids[..n][i] == ids[i];
      assert nodes[n].id == Some(nodes[n].id.value);
    }
  }

  lemma {:induction false} MappedFrom(nodes: seq<ClientNode>, ids: seq<string>, id: string) returns (i: nat)
    requires |ids| == |nodes| && id in ClientToDb(nodes, ids)
    ensures i < |nodes| && nodes[i].id == Some(id) && ids[i] == ClientToDb(nodes, ids)[id]
    decreases |nodes|
  {
    var n := |nodes| - 1;
    if nodes[n].id == Some(id) {
      i := n;
    } else {
      i := MappedFrom(nodes[..n], ids[..n], id);
    }
  }

  predicate Injective(m: map<string, string>) {
    forall a, b :: a in m && b in m && m[a] == m[b] ==> a == b
  }

  function NewId(m: map<string, string>, id: string): string {
    if id in m then m[id] else id
  }

  function RenamedNode(m: map<string, string>, node: Node): Node {
    node.(id := NewId(m, node.id))
  }

  function Renamed(m: map<string, string>, chain: seq<Node>): seq<Node> {
    if chain == [] then [] else [RenamedNode(m, chain[0])] + Renamed(m, chain[1..])
  }

  function RenamedEnd(m: map<string, string>, end: Option<string>): Option<string> {
    if end.Some? then Some(NewId(m, end.value)) else None
  }

  /** Around the node `id` the graph `g'` is `g` renamed. */
  ghost predicate RenamedAt(g: Graph, g': Graph, m: map<string, string>, id: string) {
    && (id in g.specs <==> NewId(m, id) in g'.specs)
    && (id in g.specs ==> g.specs[id].id == id && g'.specs[NewId(m, id)] == RenamedNode(m, g.specs[id]))
    && Next(g', NewId(m, id)) == RenamedEnd(m, Next(g, id))
    && (Next(g, id).Some? ==> Next(g, id).value in m)
  }

  /** Walking the renamed graph is renaming the walk. */
  lemma {:induction false} RenamedWalk(
    g: Graph, g': Graph, m: map<string, string>, current: Option<string>, visited: set<string>, visited': set<string>)
    requires Injective(m) && forall id :: id in m ==> RenamedAt(g, g', m, id)
    requires current.Some? ==> current.value in m
    requires forall id :: id in m ==> (id in visited <==> m[id] in visited')
    ensures Walk(g', RenamedEnd(m, current), visited') == Renamed(m, Walk(g, current, visited))
    decreases g.specs.Keys - visited
  {
    if current.Some? {
      assert RenamedAt(g, g', m, current.value);
      if current.value in g.specs && current.value !in visited {
        var id := current.value;
        RenamedWalk(g, g', m, Next(g, id), visited + {id}, visited' + {m[id]});
        var rest := Walk(g, Next(g, id), visited + {id});
        assert ([g.specs[id]] + rest)[1..] == rest;
      }
    }
  }

  lemma MappingInjective(nodes: seq<ClientNode>, edges: seq<EdgeRow>, ids: seq<string>)
    requires |ids| == |nodes| && Distinct(ids) && EditorGraph(nodes, edges)
    ensures Injective(ClientToDb(nodes, ids))
  {
    hide ClientToDb;
    var m := ClientToDb(nodes, ids);
    forall a, b | a in m && b in m && m[a] == m[b] ensures a == b {
      var i := MappedFrom(nodes, ids, a);
      var j := MappedFrom(nodes, ids, b);
      assert i == j;
    }
  }

  /** Rows with different ids satisfy the uniqueness the engine needs. */
  lemma OwnIdsSuffice(rows: seq<NodeRow>)
    requires forall i, j :: 0 <= i < j < |rows| ==> rows[i].id != rows[j].id
    ensures OneNodePerId(rows)
  {
    hide CoerceKind;
    forall i, j | 0 <= i < |rows| && 0 <= j < |rows| && SameId(rows[i], rows[j])
      ensures NodeOf(rows[i]) == NodeOf(rows[j])
    {
      assert rows[i].id == rows[j].id;
    }
  }

  lemma SpecsRenamed(nodes: seq<ClientNode>, edges: seq<EdgeRow>, ids: seq<string>, i: nat)
    requires |ids| == |nodes| && Distinct(ids) && EditorGraph(nodes, edges) && i < |nodes|
    ensures var (specs, specs', id) := (Specs(ClientRows(nodes)), Specs(NodeRows(nodes, ids)), nodes[i].id.value);
            && (id in specs <==> ids[i] in specs')
            && (id in specs ==> specs'[ids[i]] == specs[id].(id := ids[i]))
  {
    hide Specs, CoerceKind;
    var rows, rows' := ClientRows(nodes), NodeRows(nodes, ids);
    OwnIdsSuffice(rows);
    OwnIdsSuffice(rows');
    assert rows[i] in rows && rows'[i] in rows';
    KeysExact(rows, nodes[i].id.value);
    KeysExact(rows', ids[i]);
    match NodeOf(rows[i])
    case Some(node) =>
      SpecsAreRows(rows, node);
      SpecsAreRows(rows', node.(id := ids[i]));
      assert NodeOf(rows'[i]) == Some(node.(id := ids[i]));
    case None =>
  }

  lemma EdgesRenamed(edges: seq<EdgeRow>, m: map<string, string>)
    requires Injective(m) && Linked(m, edges) && OneEdgePerSource(edges)
    ensures OneEdgePerSource(EdgeRows(m, edges))
    ensures forall id :: id in Adjacency(edges) ==>
      id in m && Adjacency(edges)[id] in m && m[id] in Adjacency(EdgeRows(m, edges))
      && Adjacency(EdgeRows(m, edges))[m[id]] == m[Adjacency(edges)[id]]
    ensures forall id :: id in m && m[id] in Adjacency(EdgeRows(m, edges)) ==> id in Adjacency(edges)
  {
    var rows' := EdgeRows(m, edges);
    forall i, j | 0 <= i < |rows'| && 0 <= j < |rows'| && SameSource(rows'[i], rows'[j]) ensures rows'[i] == rows'[j] {
      assert SameSource(edges[i], edges[j]);
    }
    hide Adjacency;
    forall id | id in Adjacency(edges)
      ensures id in m && Adjacency(edges)[id] in m && m[id] in Adjacency(rows')
            && Adjacency(rows')[m[id]] == m[Adjacency(edges)[id]]
    {
      var target := Adjacency(edges)[id];
      AdjacencyIsRows(edges, id, target);
      var k :| 0 <= k < |edges| && edges[k] == EdgeRow(Some(id), Some(target));
      assert rows'[k] == DbEdge(m, edges[k]);
      AdjacencyIsRows(rows', m[id], m[target]);
    }
    forall id | id in m && m[id] in Adjacency(rows') ensures id in Adjacency(edges) {
      var target' := Adjacency(rows')[m[id]];
      AdjacencyIsRows(rows', m[id], target');
      var k :| 0 <= k < |rows'| && rows'[k] == EdgeRow(Some(m[id]), Some(target'));
      assert rows'[k] == DbEdge(m, edges[k]);
      assert edges[k] == EdgeRow(Some(id), Some(edges[k].target.value));
      AdjacencyIsRows(edges, id, edges[k].target.value);
    }
  }

  lemma TriggersRenamed(nodes: seq<ClientNode>, edges: seq<EdgeRow>, ids: seq<string>)
    requires |ids| == |nodes| && Distinct(ids) && EditorGraph(nodes, edges)
    ensures AtMostOneTrigger(NodeRows(nodes, ids))
    ensures forall id ::
              IsTrigger(ClientRows(nodes), id) ==> IsTrigger(NodeRows(nodes, ids), NewId(ClientToDb(nodes, ids), id))
    ensures forall id' :: IsTrigger(NodeRows(nodes, ids), id') ==> exists id :: IsTrigger(ClientRows(nodes), id)
  {
    hide Specs, NodeOf, ClientToDb;
    var rows, rows', m := ClientRows(nodes), NodeRows(nodes, ids), ClientToDb(nodes, ids);
    MappingExact(nodes, ids);
    forall id | IsTrigger(rows, id) ensures IsTrigger(rows', NewId(m, id)) {
      KeysExact(rows, id);
      var i :| 0 <= i < |rows| && NodeOf(rows[i]).Some? && NodeOf(rows[i]).value.id == id;
      NodeKeepsId(rows[i]);
      SpecsRenamed(nodes, edges, ids, i);
    }
    forall id' | IsTrigger(rows', id')
      ensures exists i :: 0 <= i < |nodes| && ids[i] == id' && nodes[i].id.Some? && IsTrigger(rows, nodes[i].id.value)
    {
      KeysExact(rows', id');
      var i :| 0 <= i < |rows'| && NodeOf(rows'[i]).Some? && NodeOf(rows'[i]).value.id == id';
      NodeKeepsId(rows'[i]);
      SpecsRenamed(nodes, edges, ids, i);
      assert ids[i] == id' && IsTrigger(rows, nodes[i].id.value);
    }
    forall a, b | IsTrigger(rows', a) && IsTrigger(rows', b) ensures a == b {
      var i :| 0 <= i < |nodes| && ids[i] == a && nodes[i].id.Some? && IsTrigger(rows, nodes[i].id.value);
      var j :| 0 <= j < |nodes| && ids[j] == b && nodes[j].id.Some? && IsTrigger(rows, nodes[j].id.value);
      assert nodes[i].id.value == nodes[j].id.value;
    }
  }

  lemma NodeKeepsId(row: NodeRow)
    requires NodeOf(row).Some?
    ensures row.id == Some(NodeOf(row).value.id)
  {
    hide CoerceKind;
  }

  lemma StartIsMapped(nodes: seq<ClientNode>, edges: seq<EdgeRow>, ids: seq<string>, id: string)
    requires |ids| == |nodes| && Distinct(ids) && EditorGraph(nodes, edges) && id in Specs(ClientRows(nodes))
    ensures id in ClientToDb(nodes, ids)
  {
    hide Specs, NodeOf, ClientToDb;
    MappingExact(nodes, ids);
    KeysExact(ClientRows(nodes), id);
    var i :| 0 <= i < |nodes| && NodeOf(ClientRows(nodes)[i]).Some? && NodeOf(ClientRows(nodes)[i]).value.id == id;
    NodeKeepsId(ClientRows(nodes)[i]);
  }

  lemma GraphRenamed(nodes: seq<ClientNode>, edges: seq<EdgeRow>, ids: seq<string>)
    requires |ids| == |nodes| && Distinct(ids) && EditorGraph(nodes, edges) && Savable(nodes, edges, ids)
    ensures var m := ClientToDb(nodes, ids);
            && Injective(m)
            && forall id :: id in m ==>
              RenamedAt(GraphOf(ClientRows(nodes), edges), GraphOf(NodeRows(nodes, ids), EdgeRows(m, edges)), m, id)
  {
    hide Specs, Adjacency, ClientToDb, NodeRows, EdgeRows, ClientRows;
    var m := ClientToDb(nodes, ids);
    MappingInjective(nodes, edges, ids);
    MappingExact(nodes, ids);
    EdgesRenamed(edges, m);
    forall id | id in m
      ensures RenamedAt(GraphOf(ClientRows(nodes), edges), GraphOf(NodeRows(nodes, ids), EdgeRows(m, edges)), m, id)
    {
      var i :| 0 <= i < |nodes| && nodes[i].id == Some(id);
      assert m[id] == ids[i];
      SpecsRenamed(nodes, edges, ids, i);
    }
  }

  lemma TriggerFound(rows: seq<NodeRow>, id: string)
    requires AtMostOneTrigger(rows) && IsTrigger(rows, id)
    ensures FirstTrigger(KeyOrder(rows), Specs(rows)) == Some(id)
  {
    hide Specs, KeyOrder;
    var first := FirstTrigger(KeyOrder(rows), Specs(rows));
    assert id in KeyOrder(rows);
    assert IsTrigger(rows, first.value);
  }

  /** Both readings start from the same trigger. */
  lemma StartRenamed(nodes: seq<ClientNode>, edges: seq<EdgeRow>, ids: seq<string>)
    requires |ids| == |nodes| && Distinct(ids) && EditorGraph(nodes, edges)
    ensures FirstTrigger(KeyOrder(NodeRows(nodes, ids)), Specs(NodeRows(nodes, ids)))
         == RenamedEnd(ClientToDb(nodes, ids), FirstTrigger(KeyOrder(ClientRows(nodes)), Specs(ClientRows(nodes))))
  {
    hide Specs, KeyOrder, ClientToDb, NodeRows, ClientRows, NewId;
    var rows, rows' := ClientRows(nodes), NodeRows(nodes, ids);
    TriggersRenamed(nodes, edges, ids);
    if id :| IsTrigger(rows, id) {
      TriggerFound(rows, id);
      TriggerFound(rows', NewId(ClientToDb(nodes, ids), id));
    } else {
      NoTrigger(rows);
      NoTrigger(rows');
    }
  }

  lemma NoTrigger(rows: seq<NodeRow>)
    requires forall id :: !IsTrigger(rows, id)
    ensures FirstTrigger(KeyOrder(rows), Specs(rows)).None?
  {
    hide Specs, KeyOrder;
    var first := FirstTrigger(KeyOrder(rows), Specs(rows));
    assert first.Some? ==> IsTrigger(rows, first.value);
  }

  /** The rows as they were written have the client's chain, renamed. */
  lemma StoredChain(nodes: seq<ClientNode>, edges: seq<EdgeRow>, ids: seq<string>)
    requires |ids| == |nodes| && Distinct(ids) && EditorGraph(nodes, edges) && Savable(nodes, edges, ids)
    ensures Chain(NodeRows(nodes, ids), EdgeRows(ClientToDb(nodes, ids), edges))
         == Renamed(ClientToDb(nodes, ids), Chain(ClientRows(nodes), edges))
  {
    StartRenamed(nodes, edges, ids);
    hide Specs, Adjacency, KeyOrder, ClientToDb, Walk, NodeRows, EdgeRows, ClientRows;
    hide FirstTrigger, RenamedAt, EditorGraph;
    var m := ClientToDb(nodes, ids);
    var rows, rows' := ClientRows(nodes), NodeRows(nodes, ids);
    var g, g' := GraphOf(rows, edges), GraphOf(rows', EdgeRows(m, edges));
    var first := FirstTrigger(KeyOrder(rows), Specs(rows));
    if first.Some? {
      GraphRenamed(nodes, edges, ids);
      StartIsMapped(nodes, edges, ids, first.value);
      RenamedWalk(g, g', m, first, {}, {});
    }
  }

  /** Saving a graph and loading its rows back in any order gives the client's chain under an injective renaming. */
  lemma SavedGraphReloads(
    nodes: seq<ClientNode>, edges: seq<EdgeRow>, ids: seq<string>, nodeRows: seq<NodeRow>, edgeRows: seq<EdgeRow>)
    requires |ids| == |nodes| && Distinct(ids) && EditorGraph(nodes, edges) && Savable(nodes, edges, ids)
    requires forall row :: row in nodeRows <==> row in NodeRows(nodes, ids)
    requires forall row :: row in edgeRows <==> row in EdgeRows(ClientToDb(nodes, ids), edges)
    ensures Injective(ClientToDb(nodes, ids))
    ensures Chain(nodeRows, edgeRows) == Renamed(ClientToDb(nodes, ids), Chain(ClientRows(nodes), edges))
  {
    hide Chain, ClientToDb, Renamed;
    StoredChain(nodes, edges, ids);
    MappingInjective(nodes, edges, ids);
    EdgesRenamed(edges, ClientToDb(nodes, ids));
    TriggersRenamed(nodes, edges, ids);
    OwnIdsSuffice(NodeRows(nodes, ids));
    OrderDoesNotMatter(NodeRows(nodes, ids), EdgeRows(ClientToDb(nodes, ids), edges), nodeRows, edgeRows);
  }

  lemma {:induction false} RenamedTrace(m: map<string, string>, chain: seq<Node>, sample: Sample,
                                         at: real, rule: string)
    ensures Trace(Compile(Renamed(m, chain), sample), at, rule) == Trace(Compile(chain, sample), at, rule)
  {
    hide Holds, ParseAction, DelaySeconds, NewId, Trace, Compile;
    if chain != [] {
      var image := Renamed(m, chain);
      assert image[0] == RenamedNode(m, chain[0]) && image[1..] == Renamed(m, chain[1..]);
      if chain[0].kind == Condition && !Holds(chain[0].config, sample) {
        ClosedTrace(chain, sample, at, rule);
        ClosedTrace(image, sample, at, rule);
      } else {
        TraceOfHead(chain, sample, at, rule);
        TraceOfHead(image, sample, at, rule);
        RenamedTrace(m, chain[1..], sample, at + OwnDelay(chain[0]), rule);
      }
    }
  }

  /** A saved rule does what its author drew: whatever order its rows are loaded in, it hands the sink the same actions
      at the same times as the client's own graph. */
  lemma SavedRuleBehavesAsDrawn(
    nodes: seq<ClientNode>, edges: seq<EdgeRow>, ids: seq<string>, loaded: RuleRows, sample: Sample, at: real)
    requires |ids| == |nodes| && Distinct(ids) && EditorGraph(nodes, edges) && Savable(nodes, edges, ids)
    requires forall row :: row in loaded.nodes <==> row in NodeRows(nodes, ids)
    requires forall row :: row in loaded.edges <==> row in EdgeRows(ClientToDb(nodes, ids), edges)
    ensures Trace(StepsOf(loaded, sample), at, loaded.id)
         == Trace(PlanOf(Chain(ClientRows(nodes), edges), sample, false).steps, at, loaded.id)
  {
    hide Chain, ClientToDb, Holds, Trace, Compile, EditorGraph;
    var chain, m := Chain(ClientRows(nodes), edges), ClientToDb(nodes, ids);
    SavedGraphReloads(nodes, edges, ids, loaded.nodes, loaded.edges);
    if chain != [] {
      assert Renamed(m, chain)[0] == RenamedNode(m, chain[0]) && Renamed(m, chain)[1..] == Renamed(m, chain[1..]);
      RenamedTrace(m, chain[1..], sample, at, loaded.id);
    }
  }

  // ---------------------------------------------------------------- partial updates

  /** An update that sends nodes without edges stores a rule that never does anything: its chain is a bare trigger. */
  lemma NodesOnlyUpdateDisarms(nodes: seq<NodeRow>, sample: Sample, maintenance: bool)
    ensures PlanOf(Chain(nodes, []), sample, maintenance).steps == []
  {
    hide Holds;
    var first := FirstTrigger(KeyOrder(nodes), Specs(nodes));
    if first.Some? {
      var g := GraphOf(nodes, []);
      assert Next(g, first.value) == None;
      assert Walk(g, None, {} + {first.value}) == [];
      assert Chain(nodes, []) == [g.specs[first.value]];
      assert Chain(nodes, [])[1..] == [];
    }
  }

  /** An update that sends edges without nodes is accepted exactly when it sends no edge at all. */
  lemma EdgesOnlyUpdateRejected(edges: seq<EdgeRow>)
    ensures Savable([], edges, []) <==> edges == []
  {
    if edges != [] {
      assert !Known(ClientToDb([], []), edges[0].source);
    }
  }
}
