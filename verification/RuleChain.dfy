/** A rule's graph as the row loaders hand it over, and the linear chain the engine makes of it. */
module RuleChain {
  import opened Prelude

  type Config = map<string, Json>

  datatype Kind = Trigger | Condition | Delay | Action

  datatype NodeRow = NodeRow(id: Option<string>, kind: string, config: Option<Config>)

  datatype EdgeRow = EdgeRow(source: Option<string>, target: Option<string>)

  datatype Node = Node(id: string, kind: Kind, config: Config)

  /** What the two dictionaries of the builder hold. */
  datatype Graph = Graph(specs: map<string, Node>, adjacency: map<string, string>)

  function LowerChar(c: char): char {
    if 'A' <= c <= 'Z' then (c as int + 32) as char else c
  }

  function Lower(s: string): string {
    seq(|s|, i requires 0 <= i < |s| => LowerChar(s[i]))
  }

  function Strip(s: string): string {
    if s == "" then ""
    else if IsSpace(s[0]) then Strip(s[1..])
    else if IsSpace(s[|s| - 1]) then Strip(s[..|s| - 1])
    else s
  }

  /** `s.strip().lower()` */
  function Normal(s: string): string {
    Lower(Strip(s))
  }

  /** Letter by letter the word, in upper or lower case. */
  predicate SameLetters(text: string, word: string) {
    && |text| == |word|
    && forall i :: 0 <= i < |word| ==>
         text[i] == word[i] || ('a' <= word[i] <= 'z' && text[i] as int + 32 == word[i] as int)
  }

  /** The text is the word in any case, between any blanks. */
  ghost predicate Spells(text: string, word: string) {
    exists i, j :: 0 <= i <= j <= |text| && Blank(text[..i]) && SameLetters(text[i..j], word) && Blank(text[j..])
  }

  /** A word without capitals that neither starts nor ends with a blank. */
  predicate PlainWord(word: string) {
    && word != "" && !IsSpace(word[0]) && !IsSpace(word[|word| - 1])
    && forall i :: 0 <= i < |word| ==> !('A' <= word[i] <= 'Z')
  }

  /** `part` is what stands in `s` from `i` to `j`; around it are blanks, and at its ends, if it has any, none. */
  ghost predicate Trims(s: string, part: string, i: nat, j: nat) {
    && i <= j <= |s| && part == s[i..j]
    && (forall k :: 0 <= k < i || j <= k < |s| ==> IsSpace(s[k]))
    && (i < j ==> !IsSpace(s[i]) && !IsSpace(s[j - 1]))
  }

  lemma TrimsInFront(s: string, part: string, i: nat, j: nat)
    requires s != "" && IsSpace(s[0]) && Trims(s[1..], part, i, j)
    ensures Trims(s, part, i + 1, j + 1)
  {
    hide IsSpace;
    assert forall k :: 0 < k < |s| ==> s[k] == s[1..][k - 1];
    assert s[i + 1..j + 1] == s[1..][i..j];
  }

  lemma TrimsBehind(s: string, part: string, i: nat, j: nat)
    requires s != "" && IsSpace(s[|s| - 1]) && Trims(s[..|s| - 1], part, i, j)
    ensures Trims(s, part, i, j)
  {
    hide IsSpace;
    assert s[i..j] == s[..|s| - 1][i..j];
  }

  /** Stripping leaves out the blanks at both ends and nothing else. */
  lemma {:induction false} StripExact(s: string) returns (i: nat, j: nat)
    ensures Trims(s, Strip(s), i, j)
    decreases |s|
  {
    hide IsSpace;
    if s == "" {
      i, j := 0, 0;
    } else if IsSpace(s[0]) {
      i, j := StripExact(s[1..]);
      TrimsInFront(s, Strip(s), i, j);
      i, j := i + 1, j + 1;
    } else if IsSpace(s[|s| - 1]) {
      i, j := StripExact(s[..|s| - 1]);
      TrimsBehind(s, Strip(s), i, j);
    } else {
      i, j := 0, |s|;
      assert s[..] == s;
    }
  }

  /** The part between the blanks is unique. */
  lemma SameMiddle(s: string, i: nat, j: nat, k: nat, l: nat)
    requires i <= j <= |s| && (i < j ==> !IsSpace(s[i]) && !IsSpace(s[j - 1]))
    requires forall m :: 0 <= m < i || j <= m < |s| ==> IsSpace(s[m])
    requires k < l <= |s| && !IsSpace(s[k]) && !IsSpace(s[l - 1])
    requires forall m :: 0 <= m < k || l <= m < |s| ==> IsSpace(s[m])
    ensures i == k && j == l
  {
    hide IsSpace;
  }

  lemma LowerLetters(text: string, word: string)
    requires forall i :: 0 <= i < |word| ==> !('A' <= word[i] <= 'Z')
    ensures Lower(text) == word <==> SameLetters(text, word)
  {
    if Lower(text) == word {
      forall i | 0 <= i < |word|
        ensures text[i] == word[i] || ('a' <= word[i] <= 'z' && text[i] as int + 32 == word[i] as int)
      {
        assert word[i] == LowerChar(text[i]);
      }
    }
  }

  lemma SpelledPart(text: string, word: string, k: nat, l: nat)
    requires PlainWord(word) && k <= l <= |text|
    requires Blank(text[..k]) && SameLetters(text[k..l], word) && Blank(text[l..])
    ensures k < l && !IsSpace(text[k]) && !IsSpace(text[l - 1])
    ensures forall m :: 0 <= m < k || l <= m < |text| ==> IsSpace(text[m])
  {
    var middle := text[k..l];
    assert middle[0] == text[k] && middle[|middle| - 1] == text[l - 1];
    assert forall m :: 0 <= m < k ==> text[m] == text[..k][m];
    assert forall m :: l <= m < |text| ==> text[m] == text[l..][m - l];
  }

  /** Normalising a text gives a plain word exactly when the text spells it. */
  lemma NormalSpells(text: string, word: string)
    requires PlainWord(word)
    ensures Normal(text) == word <==> Spells(text, word)
  {
    var i, j := StripExact(text);
    LowerLetters(text[i..j], word);
    assert Blank(text[..i]) && Blank(text[j..]);
    hide Lower, Strip, Blank;
    if Spells(text, word) {
      var k, l :| 0 <= k <= l <= |text| && Blank(text[..k]) && SameLetters(text[k..l], word) && Blank(text[l..]);
      SpelledPart(text, word, k, l);
      SameMiddle(text, i, j, k, l);
    }
  }

  function KindName(kind: Kind): string {
    match kind case Trigger => "trigger" case Condition => "condition" case Delay => "delay" case Action => "action"
  }

  /** A kind is read from exactly the spellings of its name. */
  lemma KindSpelled(text: string, kind: Kind)
    ensures CoerceKind(text) == Some(kind) <==> Spells(text, KindName(kind))
  {
    var names := ["trigger", "condition", "delay", "action"];
    hide Normal, Spells;
    forall name | name in names ensures Normal(text) == name <==> Spells(text, name) {
      NormalSpells(text, name);
    }
    assert "trigger"[0] != "condition"[0] && "delay"[0] != "action"[0] && "trigger"[0] != "delay"[0];
    assert "trigger"[0] != "action"[0] && "condition"[0] != "delay"[0] && "condition"[0] != "action"[0];
    assert KindName(kind) in names;
  }

  function CoerceKind(text: string): Option<Kind> {
    var name := Normal(text);
    if name == "trigger" then Some(Trigger)
    else if name == "condition" then Some(Condition)
    else if name == "delay" then Some(Delay)
    else if name == "action" then Some(Action)
    else None
  }

  // ---------------------------------------------------------------- rows to dictionaries

  /** The node a row stands for; a row without an id or of an unknown kind stands for none. */
  function NodeOf(row: NodeRow): Option<Node> {
    match (row.id, CoerceKind(row.kind))
    case (Some(id), Some(kind)) => Some(Node(id, kind, if row.config.Some? then row.config.value else map[]))
    case _ => None
  }

  /** A row stands for a node exactly when the node has the row's id, the kind its text spells and its configuration. */
  lemma NodeOfExact(row: NodeRow, node: Node)
    ensures NodeOf(row) == Some(node)
            <==> && row.id == Some(node.id) && Spells(row.kind, KindName(node.kind))
                 && node.config == (if row.config.Some? then row.config.value else map[])
  {
    hide CoerceKind, Spells;
    KindSpelled(row.kind, node.kind);
  }

  /** The `specs` dictionary after all rows: the last row of an id wins. */
  function Specs(nodes: seq<NodeRow>): (m: map<string, Node>)
    ensures forall id :: id in m ==> m[id].id == id
  {
    if nodes == [] then map[]
    else
      var m := Specs(nodes[..|nodes| - 1]);
      match NodeOf(nodes[|nodes| - 1]) case None => m case Some(node) => m[node.id := node]
  }

  /** The keys of that dictionary in insertion order: a key keeps the place of its first row. */
  function KeyOrder(nodes: seq<NodeRow>): (ids: seq<string>)
    ensures forall id :: id in ids <==> id in Specs(nodes)
  {
    if nodes == [] then []
    else
      var ids := KeyOrder(nodes[..|nodes| - 1]);
      match NodeOf(nodes[|nodes| - 1])
      case None => ids
      case Some(node) => if node.id in ids then ids else ids + [node.id]
  }

  predicate Whole(edge: EdgeRow) {
    edge.source.Some? && edge.target.Some?
  }

  /** The `adjacency` dictionary: the first edge out of a node wins. */
  function Adjacency(edges: seq<EdgeRow>): map<string, string> {
    if edges == [] then map[]
    else
      var m := Adjacency(edges[..|edges| - 1]);
      var edge := edges[|edges| - 1];
      if Whole(edge) && edge.source.value !in m then m[edge.source.value := edge.target.value] else m
  }

  function GraphOf(nodes: seq<NodeRow>, edges: seq<EdgeRow>): Graph {
    Graph(Specs(nodes), Adjacency(edges))
  }

  ghost predicate LastRowOf(nodes: seq<NodeRow>, node: Node, i: nat) {
    && i < |nodes| && NodeOf(nodes[i]) == Some(node)
    && forall j :: i < j < |nodes| ==> NodeOf(nodes[j]).None? || NodeOf(nodes[j]).value.id != node.id
  }

  /** A node is in `specs` exactly when it is the last one with its id. */
  lemma {:induction false} SpecsExact(nodes: seq<NodeRow>, node: Node)
    ensures (node.id in Specs(nodes) && Specs(nodes)[node.id] == node) <==> exists i :: LastRowOf(nodes, node, i)
  {
    hide NodeOf;
    if nodes != [] {
      var n := |nodes| - 1;
      var front := nodes[..n];
      SpecsExact(front, node);
      var last := NodeOf(nodes[n]);
      if last == Some(node) {
        assert LastRowOf(nodes, node, n);
      } else if last.Some? && last.value.id == node.id {
        forall i: nat ensures !LastRowOf(nodes, node, i) {}
      } else {
        forall i: nat ensures LastRowOf(nodes, node, i) <==> LastRowOf(front, node, i) {
          assert i < n ==> nodes[i] == front[i];
          assert forall j :: 0 <= j < n ==> nodes[j] == front[j];
        }
      }
    } else {
      forall i: nat ensures !LastRowOf(nodes, node, i) {}
    }
  }

  ghost predicate FirstEdgeOf(edges: seq<EdgeRow>, source: string, target: string, i: nat) {
    && i < |edges| && edges[i] == EdgeRow(Some(source), Some(target))
    && forall j :: 0 <= j < i ==> !(Whole(edges[j]) && edges[j].source.value == source)
  }

  /** The successor of a node is the target of the first edge out of it. */
  lemma {:induction false} AdjacencyExact(edges: seq<EdgeRow>, source: string, target: string)
    ensures (source in Adjacency(edges) && Adjacency(edges)[source] == target)
       <==> exists i :: FirstEdgeOf(edges, source, target, i)
    ensures source in Adjacency(edges)
          <==> exists i :: 0 <= i < |edges| && Whole(edges[i]) && edges[i].source.value == source
  {
    if edges != [] {
      var n := |edges| - 1;
      var front := edges[..n];
      AdjacencyExact(front, source, target);
      assert forall i :: 0 <= i < n ==> front[i] == edges[i];
      forall i: nat | i < n ensures FirstEdgeOf(edges, source, target, i) <==> FirstEdgeOf(front, source, target, i) {
      }
      var last := edges[n];
      if Whole(last) && last.source.value == source {
        if source in Adjacency(front) {
          assert !FirstEdgeOf(edges, source, target, n);
        } else if last.target.value == target {
          assert FirstEdgeOf(edges, source, target, n);
        }
      }
    } else {
      forall i: nat ensures !FirstEdgeOf(edges, source, target, i) {}
    }
  }

  // ---------------------------------------------------------------- the chain

  function FirstTrigger(ids: seq<string>, specs: map<string, Node>): (found: Option<string>)
    requires forall id :: id in ids ==> id in specs
    ensures found.Some? ==> found.value in ids && specs[found.value].kind == Trigger
    ensures found.None? ==> forall id :: id in ids ==> specs[id].kind != Trigger
  {
    if ids == [] then None
    else if specs[ids[0]].kind == Trigger then Some(ids[0])
    else FirstTrigger(ids[1..], specs)
  }

  function Next(g: Graph, id: string): Option<string> {
    if id in g.adjacency then Some(g.adjacency[id]) else None
  }

  function Walk(g: Graph, current: Option<string>, visited: set<string>): seq<Node>
    decreases g.specs.Keys - visited
  {
    if current.Some? && current.value in g.specs && current.value !in visited then
      [g.specs[current.value]] + Walk(g, Next(g, current.value), visited + {current.value})
    else []
  }

  function Chain(nodes: seq<NodeRow>, edges: seq<EdgeRow>): seq<Node> {
    match FirstTrigger(KeyOrder(nodes), Specs(nodes))
    case None => []
    case Some(start) => Walk(GraphOf(nodes, edges), Some(start), {})
  }

  method BuildChain(nodes: seq<NodeRow>, edges: seq<EdgeRow>) returns (ordered: seq<Node>)
    ensures ordered == Chain(nodes, edges)
  {
    hide NodeOf, Walk;
    var specs: map<string, Node>, ids: seq<string> := map[], [];
    for i := 0 to |nodes|
      invariant specs == Specs(nodes[..i]) && ids == KeyOrder(nodes[..i])
    {
      assert nodes[..i + 1][..i] == nodes[..i];
      var node := NodeOf(nodes[i]);
      if node.Some? {
        if node.value.id !in ids {
          ids := ids + [node.value.id];
        }
        specs := specs[node.value.id := node.value];
      }
    }
    assert nodes[..|nodes|] == nodes;
    var adjacency: map<string, string> := map[];
    for i := 0 to |edges|
      invariant adjacency == Adjacency(edges[..i])
    {
      assert edges[..i + 1][..i] == edges[..i];
      if Whole(edges[i]) && edges[i].source.value !in adjacency {
        adjacency := adjacency[edges[i].source.value := edges[i].target.value];
      }
    }
    assert edges[..|edges|] == edges;
    var k := 0;
    while k < |ids| && specs[ids[k]].kind != Trigger
      invariant k <= |ids| && FirstTrigger(ids, specs) == FirstTrigger(ids[k..], specs)
    {
      k := k + 1;
    }
    ordered := [];
    if k < |ids| {
      ordered := Follow(Graph(specs, adjacency), ids[k]);
    }
  }

  method Follow(g: Graph, start: string) returns (ordered: seq<Node>)
    ensures ordered == Walk(g, Some(start), {})
  {
    ordered := [];
    var visited: set<string>, current := {}, Some(start);
    while current.Some? && current.value in g.specs && current.value !in visited
      invariant ordered + Walk(g, current, visited) == Walk(g, Some(start), {})
      decreases g.specs.Keys - visited
    {
      visited := visited + {current.value};
      ordered := ordered + [g.specs[current.value]];
      current := if current.value in g.adjacency then Some(g.adjacency[current.value]) else None;
    }
  }

  /** A path that starts at `start`, follows first out-edges, repeats no node, and cannot be prolonged. */
  ghost predicate MaximalPath(g: Graph, start: string, path: seq<Node>) {
    && path != [] && path[0].id == start
    && (forall i :: 0 <= i < |path| ==> path[i].id in g.specs && g.specs[path[i].id] == path[i])
    && (forall i, j :: 0 <= i < j < |path| ==> path[i].id != path[j].id)
    && (forall i :: 0 <= i < |path| - 1 ==> Next(g, path[i].id) == Some(path[i + 1].id))
    && Stuck(g, path)
  }

  ghost predicate Stuck(g: Graph, path: seq<Node>)
    requires path != []
  {
    var next := Next(g, path[|path| - 1].id);
    next.Some? && next.value in g.specs ==> exists i :: 0 <= i < |path| && path[i].id == next.value
  }

  /** How the walk goes on from a path already walked. */
  lemma {:induction false} WalkProlongs(
    g: Graph, start: string, before: seq<Node>, current: Option<string>, visited: set<string>)
    requires forall id :: id in g.specs ==> g.specs[id].id == id
    requires forall id :: id in visited <==> exists i :: 0 <= i < |before| && before[i].id == id
    requires forall i :: 0 <= i < |before| ==> before[i].id in g.specs && g.specs[before[i].id] == before[i]
    requires forall i, j :: 0 <= i < j < |before| ==> before[i].id != before[j].id
    requires forall i :: 0 <= i < |before| - 1 ==> Next(g, before[i].id) == Some(before[i + 1].id)
    requires before == [] ==> current == Some(start) && start in g.specs
    requires before != [] ==> before[0].id == start && current == Next(g, before[|before| - 1].id)
    ensures MaximalPath(g, start, before + Walk(g, current, visited))
    decreases g.specs.Keys - visited
  {
    if current.Some? && current.value in g.specs && current.value !in visited {
      var node := g.specs[current.value];
      var more := before + [node];
      assert forall i :: 0 <= i < |before| ==> more[i] == before[i];
      assert more[|before|].id == current.value;
      WalkProlongs(g, start, more, Next(g, current.value), visited + {current.value});
      var rest := Walk(g, Next(g, current.value), visited + {current.value});
      assert more + rest == before + ([node] + rest);
    } else {
      assert before + [] == before;
    }
  }

  /** Two maximal paths agree as far as both go, and so are equal. */
  lemma {:induction false} PathsAgree(g: Graph, start: string, a: seq<Node>, b: seq<Node>, k: nat)
    requires MaximalPath(g, start, a) && MaximalPath(g, start, b)
    requires k <= |a| && k <= |b|
    ensures a[..k] == b[..k]
  {
    if k == 1 {
      assert a[0] == b[0];
    } else if k > 1 {
      PathsAgree(g, start, a, b, k - 1);
      assert a[k - 2] == a[..k - 1][k - 2] == b[..k - 1][k - 2] == b[k - 2];
      assert a[k - 1] == b[k - 1];
      assert a[..k] == a[..k - 1] + [a[k - 1]] && b[..k] == b[..k - 1] + [b[k - 1]];
    }
  }

  lemma PrefixGoesOn(g: Graph, start: string, path: seq<Node>, n: nat)
    requires MaximalPath(g, start, path) && 0 < n < |path|
    ensures !Stuck(g, path[..n])
  {
    var front := path[..n];
    assert front[n - 1] == path[n - 1];
    assert Next(g, front[n - 1].id) == Some(path[n].id) && path[n].id in g.specs;
    assert forall i :: 0 <= i < n ==> front[i] == path[i];
  }

  lemma MaximalPathNotShorter(g: Graph, start: string, a: seq<Node>, b: seq<Node>)
    requires MaximalPath(g, start, a) && MaximalPath(g, start, b)
    ensures |a| >= |b|
  {
    if |a| < |b| {
      PathsAgree(g, start, a, b, |a|);
      assert a[..|a|] == a;
      PrefixGoesOn(g, start, b, |a|);
    }
  }

  /** The walk is the one maximal path from its start, on every graph, cyclic or not. */
  lemma WalkExact(g: Graph, start: string, path: seq<Node>)
    requires start in g.specs && forall id :: id in g.specs ==> g.specs[id].id == id
    ensures path == Walk(g, Some(start), {}) <==> MaximalPath(g, start, path)
  {
    hide Walk, MaximalPath;
    var walk := Walk(g, Some(start), {});
    WalkProlongs(g, start, [], Some(start), {});
    assert [] + walk == walk;
    if MaximalPath(g, start, path) {
      MaximalPathNotShorter(g, start, path, walk);
      MaximalPathNotShorter(g, start, walk, path);
      PathsAgree(g, start, path, walk, |path|);
      assert path[..|path|] == path && walk[..|walk|] == walk;
    }
  }

  ghost predicate IsTrigger(nodes: seq<NodeRow>, id: string) {
    id in Specs(nodes) && Specs(nodes)[id].kind == Trigger
  }

  /** There is a chain exactly when there is a trigger, and it is the maximal path from one. */
  lemma ChainExact(nodes: seq<NodeRow>, edges: seq<EdgeRow>)
    ensures Chain(nodes, edges) == [] <==> forall id :: !IsTrigger(nodes, id)
    ensures Chain(nodes, edges) != [] ==>
      IsTrigger(nodes, Chain(nodes, edges)[0].id)
      && MaximalPath(GraphOf(nodes, edges), Chain(nodes, edges)[0].id, Chain(nodes, edges))
  {
    match FirstTrigger(KeyOrder(nodes), Specs(nodes))
    case None =>
    case Some(start) =>
      assert IsTrigger(nodes, start);
      WalkExact(GraphOf(nodes, edges), start, Chain(nodes, edges));
  }

  ghost predicate FirstRowOf(nodes: seq<NodeRow>, id: string, i: nat) {
    && i < |nodes| && NodeOf(nodes[i]).Some? && NodeOf(nodes[i]).value.id == id
    && forall j :: 0 <= j < i ==> NodeOf(nodes[j]).None? || NodeOf(nodes[j]).value.id != id
  }

  /** A row puts its id behind the ids so far, unless it is among them or the row stands for no node. */
  lemma KeyOrderGrows(nodes: seq<NodeRow>)
    requires nodes != []
    ensures
      var (front, last) := (KeyOrder(nodes[..|nodes| - 1]), NodeOf(nodes[|nodes| - 1]));
      KeyOrder(nodes) == if last.Some? && last.value.id !in front then front + [last.value.id] else front
  {
    hide NodeOf;
  }

  /** Ids stand in the order of their first rows, each once. */
  lemma {:induction false} KeyOrderExact(nodes: seq<NodeRow>, a: string, b: string, i: nat, j: nat)
    returns (x: nat, y: nat)
    requires FirstRowOf(nodes, a, i) && FirstRowOf(nodes, b, j) && i < j
    ensures x < y < |KeyOrder(nodes)| && KeyOrder(nodes)[x] == a && KeyOrder(nodes)[y] == b
    decreases |nodes|
  {
    hide NodeOf;
    var n := |nodes| - 1;
    var front := nodes[..n];
    assert forall k :: 0 <= k < n ==> front[k] == nodes[k];
    assert FirstRowOf(front, a, i);
    KeyOrderGrows(nodes);
    if j < n {
      assert FirstRowOf(front, b, j);
      hide KeyOrder, Specs;
      x, y := KeyOrderExact(front, a, b, i, j);
    } else {
      KeysExact(front, a);
      KeysExact(front, b);
      assert b !in KeyOrder(front);
      hide KeyOrder, Specs;
      assert a in KeyOrder(front) && b !in KeyOrder(front);
      x :| 0 <= x < |KeyOrder(front)| && KeyOrder(front)[x] == a;
      y := |KeyOrder(front)|;
    }
  }

  lemma {:induction false} KeyOrderDistinct(nodes: seq<NodeRow>)
    ensures Distinct(KeyOrder(nodes))
  {
    hide NodeOf;
    if nodes != [] {
      KeyOrderDistinct(nodes[..|nodes| - 1]);
    }
  }

  lemma {:induction false} FirstTriggerIsFirst(ids: seq<string>, specs: map<string, Node>, x: nat, y: nat)
    requires Distinct(ids) && (forall id :: id in ids ==> id in specs) && x < y < |ids| && specs[ids[x]].kind == Trigger
    ensures FirstTrigger(ids, specs) != Some(ids[y])
  {
    if specs[ids[0]].kind != Trigger {
      DistinctSlice(ids, 1, |ids|);
      assert forall k :: 0 <= k < |ids[1..]| ==> ids[1..][k] == ids[k + 1];
      hide Distinct;
      FirstTriggerIsFirst(ids[1..], specs, x - 1, y - 1);
    }
  }

  /** Among several triggers the chain starts at the one whose id came first among the rows. */
  lemma ChainStartsAtFirstTrigger(nodes: seq<NodeRow>, edges: seq<EdgeRow>, id: string, i: nat, j: nat)
    requires Chain(nodes, edges) != [] && IsTrigger(nodes, id)
    requires FirstRowOf(nodes, Chain(nodes, edges)[0].id, i) && FirstRowOf(nodes, id, j)
    ensures i <= j
  {
    hide NodeOf, KeyOrder;
    var start := FirstTrigger(KeyOrder(nodes), Specs(nodes)).value;
    assert Chain(nodes, edges)[0].id == start;
    if j < i {
      var x, y := KeyOrderExact(nodes, id, start, j, i);
      KeyOrderDistinct(nodes);
      FirstTriggerIsFirst(KeyOrder(nodes), Specs(nodes), x, y);
    }
  }

  // ---------------------------------------------------------------- order of rows

  predicate SameId(a: NodeRow, b: NodeRow) {
    NodeOf(a).Some? && NodeOf(b).Some? && NodeOf(a).value.id == NodeOf(b).value.id
  }

  ghost predicate OneNodePerId(nodes: seq<NodeRow>) {
    forall i, j :: 0 <= i < |nodes| && 0 <= j < |nodes| && SameId(nodes[i], nodes[j])
        ==> NodeOf(nodes[i]) == NodeOf(nodes[j])
  }

  predicate SameSource(a: EdgeRow, b: EdgeRow) {
    Whole(a) && Whole(b) && a.source == b.source
  }

  ghost predicate OneEdgePerSource(edges: seq<EdgeRow>) {
    forall i, j :: 0 <= i < |edges| && 0 <= j < |edges| && SameSource(edges[i], edges[j]) ==> edges[i] == edges[j]
  }

  ghost predicate AtMostOneTrigger(nodes: seq<NodeRow>) {
    forall a, b :: IsTrigger(nodes, a) && IsTrigger(nodes, b) ==> a == b
  }

  lemma {:induction false} KeysExact(nodes: seq<NodeRow>, id: string)
    ensures id in Specs(nodes)
          <==> exists i :: 0 <= i < |nodes| && NodeOf(nodes[i]).Some? && NodeOf(nodes[i]).value.id == id
  {
    hide NodeOf;
    if nodes != [] {
      var front := nodes[..|nodes| - 1];
      KeysExact(front, id);
      assert forall i :: 0 <= i < |front| ==> front[i] == nodes[i];
    }
  }

  /** With one node per id, `specs` holds exactly the nodes of the rows. */
  lemma SpecsAreRows(nodes: seq<NodeRow>, node: Node)
    requires OneNodePerId(nodes)
    ensures (node.id in Specs(nodes) && Specs(nodes)[node.id] == node)
       <==> exists row :: row in nodes && NodeOf(row) == Some(node)
  {
    hide Specs, NodeOf;
    SpecsExact(nodes, node);
    KeysExact(nodes, node.id);
    if row :| row in nodes && NodeOf(row) == Some(node) {
      var i :| 0 <= i < |nodes| && nodes[i] == row;
      assert node.id in Specs(nodes);
      var found := Specs(nodes)[node.id];
      SpecsExact(nodes, found);
      var j: nat :| LastRowOf(nodes, found, j);
      assert SameId(nodes[i], nodes[j]);
    }
  }

  /** With one target per source, `adjacency` holds exactly the edges of the rows. */
  lemma {:induction false} AdjacencyIsRows(edges: seq<EdgeRow>, source: string, target: string)
    requires OneEdgePerSource(edges)
    ensures (source in Adjacency(edges) && Adjacency(edges)[source] == target)
          <==> EdgeRow(Some(source), Some(target)) in edges
  {
    AdjacencyExact(edges, source, target);
    var edge := EdgeRow(Some(source), Some(target));
    if edge in edges {
      var i :| 0 <= i < |edges| && edges[i] == edge;
      assert Whole(edges[i]);
      assert source in Adjacency(edges);
      var found := Adjacency(edges)[source];
      AdjacencyExact(edges, source, found);
      var j: nat :| FirstEdgeOf(edges, source, found, j);
      assert SameSource(edges[j], edges[i]);
    }
  }

  /** The chain does not depend on the order of the rows (nor on repeated rows), provided ids name one node, nodes have
      one successor and one node is the trigger. */
  lemma OrderDoesNotMatter(nodes: seq<NodeRow>, edges: seq<EdgeRow>, nodes': seq<NodeRow>, edges': seq<EdgeRow>)
    requires OneNodePerId(nodes) && OneEdgePerSource(edges) && AtMostOneTrigger(nodes)
    requires forall row :: row in nodes <==> row in nodes'
    requires forall edge :: edge in edges <==> edge in edges'
    ensures Chain(nodes, edges) == Chain(nodes', edges')
  {
    SameRowsSameSpecs(nodes, nodes');
    SameRowsSameAdjacency(edges, edges');
    var first, first' := FirstTrigger(KeyOrder(nodes), Specs(nodes)), FirstTrigger(KeyOrder(nodes'), Specs(nodes'));
    if first.Some? {
      assert IsTrigger(nodes, first.value);
      assert first.value in KeyOrder(nodes');
      assert IsTrigger(nodes, first'.value);
    }
  }

  lemma SameRowsSameSpecs(nodes: seq<NodeRow>, nodes': seq<NodeRow>)
    requires OneNodePerId(nodes) && forall row :: row in nodes <==> row in nodes'
    ensures Specs(nodes) == Specs(nodes')
  {
    forall i, j | 0 <= i < |nodes'| && 0 <= j < |nodes'| && SameId(nodes'[i], nodes'[j])
      ensures NodeOf(nodes'[i]) == NodeOf(nodes'[j])
    {
      assert nodes'[i] in nodes && nodes'[j] in nodes;
    }
    forall id | id in Specs(nodes) ensures id in Specs(nodes') && Specs(nodes')[id] == Specs(nodes)[id] {
      SpecsAreRows(nodes, Specs(nodes)[id]);
      SpecsAreRows(nodes', Specs(nodes)[id]);
    }
    forall id | id in Specs(nodes') ensures id in Specs(nodes) {
      SpecsAreRows(nodes, Specs(nodes')[id]);
      SpecsAreRows(nodes', Specs(nodes')[id]);
    }
  }

  lemma SameRowsSameAdjacency(edges: seq<EdgeRow>, edges': seq<EdgeRow>)
    requires OneEdgePerSource(edges) && forall edge :: edge in edges <==> edge in edges'
    ensures Adjacency(edges) == Adjacency(edges')
  {
    forall i, j | 0 <= i < |edges'| && 0 <= j < |edges'| && SameSource(edges'[i], edges'[j])
      ensures edges'[i] == edges'[j]
    {
      assert edges'[i] in edges && edges'[j] in edges;
    }
    forall id | id in Adjacency(edges)
        ensures id in Adjacency(edges') && Adjacency(edges')[id] == Adjacency(edges)[id] {
      AdjacencyIsRows(edges, id, Adjacency(edges)[id]);
      AdjacencyIsRows(edges', id, Adjacency(edges)[id]);
    }
    forall id | id in Adjacency(edges') ensures id in Adjacency(edges) {
      AdjacencyIsRows(edges, id, Adjacency(edges')[id]);
      AdjacencyIsRows(edges', id, Adjacency(edges')[id]);
    }
  }
}
