/** From a chain and one telemetry sample to a plan, and from plans to dispatched actions. */
module RulePlan {
  import opened Prelude
  import opened RuleChain

  // ---------------------------------------------------------------- predicates and delays

  /** A sample: flat readings, or the wire envelope whose `data` member is itself an object. */
  type Sample = map<string, Json>

  function Get(config: Config, key: string): Json {
    if key in config then config[key] else Null
  }

  /** `str(value)` */
  function Str(value: Json): string {
    match value
    case Null => "None"
    case Boolean(b) => if b then "True" else "False"
    case Num(_, digits) => digits
    case Text(s) => s
    case Obj(_, shown) => shown
    case Arr(_, shown) => shown
  }

  predicate Truthy(value: Json) {
    match value
    case Null => false
    case Boolean(b) => b
    case Num(n, _) => n != 0.0
    case Text(s) => s != ""
    case Obj(fields, _) => fields != map[]
    case Arr(items, _) => items != []
  }

  function Reading(sample: Sample, key: string): Option<real> {
    var data := Get(sample, "data");
    var readings := if data.Obj? then data.fields else sample;
    match Get(readings, key) case Num(n, _) => Some(n) case _ => None
  }

  function Compare(op: string, a: real, b: real): Option<bool> {
    if op == "gt" || op == ">" then Some(a > b)
    else if op == "gte" || op == ">=" then Some(a >= b)
    else if op == "lt" || op == "<" then Some(a < b)
    else if op == "lte" || op == "<=" then Some(a <= b)
    else if op == "eq" || op == "==" then Some(a == b)
    else if op == "ne" || op == "!=" then Some(a != b)
    else None
  }

  /** A trigger or condition: true without a key, false without a numeric reading, true without an operator. */
  predicate Holds(config: Config, sample: Sample) {
    var key := Get(config, "key");
    if key.Null? then true
    else
      match Reading(sample, Str(key))
      case None => false
      case Some(value) =>
        var op := Get(config, "op");
        if op.Null? then true
        else
          match Get(config, "value")
          case Num(threshold, _) => Compare(Normal(Str(op)), value, threshold) == Some(true)
          case _ => false
  }

  predicate Absent(config: Config, key: string) {
    key !in config || config[key].Null?
  }

  /** The sample reports the number `x` under the key: among its `data` when that is an object, else on its own. */
  predicate Reads(sample: Sample, key: string, x: real) {
    if "data" in sample && sample["data"].Obj? then
      key in sample["data"].fields && sample["data"].fields[key].Num? && sample["data"].fields[key].n == x
    else key in sample && sample[key].Num? && sample[key].n == x
  }

  /** The text names a comparison, in any case and between any blanks, and the comparison is true. */
  ghost predicate Relates(op: string, a: real, b: real) {
    || ((Spells(op, "gt") || Spells(op, ">")) && a > b)
    || ((Spells(op, "gte") || Spells(op, ">=")) && a >= b)
    || ((Spells(op, "lt") || Spells(op, "<")) && a < b)
    || ((Spells(op, "lte") || Spells(op, "<=")) && a <= b)
    || ((Spells(op, "eq") || Spells(op, "==")) && a == b)
    || ((Spells(op, "ne") || Spells(op, "!=")) && a != b)
  }

  /** What the design lets pass: everything when there is no key, any number under the key when there is no operator,
      and else a number that compares true with the threshold. */
  ghost predicate Passes(config: Config, sample: Sample) {
    || Absent(config, "key")
    || exists x :: && Reads(sample, Str(config["key"]), x)
                   && (Absent(config, "op")
                       || (&& "value" in config && config["value"].Num?
                           && Relates(Str(config["op"]), x, config["value"].n)))
  }

  /** The operators told apart by their letters. */
  lemma OperatorLetters(n: string)
    ensures n == "gt" <==> |n| == 2 && n[0] == 'g' && n[1] == 't'
    ensures n == ">" <==> |n| == 1 && n[0] == '>'
    ensures n == "gte" <==> |n| == 3 && n[0] == 'g' && n[1] == 't' && n[2] == 'e'
    ensures n == ">=" <==> |n| == 2 && n[0] == '>' && n[1] == '='
    ensures n == "lt" <==> |n| == 2 && n[0] == 'l' && n[1] == 't'
    ensures n == "<" <==> |n| == 1 && n[0] == '<'
    ensures n == "lte" <==> |n| == 3 && n[0] == 'l' && n[1] == 't' && n[2] == 'e'
    ensures n == "<=" <==> |n| == 2 && n[0] == '<' && n[1] == '='
    ensures n == "eq" <==> |n| == 2 && n[0] == 'e' && n[1] == 'q'
    ensures n == "==" <==> |n| == 2 && n[0] == '=' && n[1] == '='
    ensures n == "ne" <==> |n| == 2 && n[0] == 'n' && n[1] == 'e'
    ensures n == "!=" <==> |n| == 2 && n[0] == '!' && n[1] == '='
  {
  }

  lemma OperatorsSpelled(op: string)
    ensures var n := Normal(op);
            && (Spells(op, "gt") <==> n == "gt") && (Spells(op, ">") <==> n == ">")
            && (Spells(op, "gte") <==> n == "gte") && (Spells(op, ">=") <==> n == ">=")
            && (Spells(op, "lt") <==> n == "lt") && (Spells(op, "<") <==> n == "<")
            && (Spells(op, "lte") <==> n == "lte") && (Spells(op, "<=") <==> n == "<=")
            && (Spells(op, "eq") <==> n == "eq") && (Spells(op, "==") <==> n == "==")
            && (Spells(op, "ne") <==> n == "ne") && (Spells(op, "!=") <==> n == "!=")
  {
    hide Normal, Spells;
    NormalSpells(op, "gt");
    NormalSpells(op, ">");
    NormalSpells(op, "gte");
    NormalSpells(op, ">=");
    NormalSpells(op, "lt");
    NormalSpells(op, "<");
    NormalSpells(op, "lte");
    NormalSpells(op, "<=");
    NormalSpells(op, "eq");
    NormalSpells(op, "==");
    NormalSpells(op, "ne");
    NormalSpells(op, "!=");
  }

  lemma CompareRelates(op: string, a: real, b: real)
    ensures Compare(Normal(op), a, b) == Some(true) <==> Relates(op, a, b)
  {
    OperatorsSpelled(op);
    OperatorLetters(Normal(op));
    hide Normal, Spells;
  }

  lemma ReadsReading(sample: Sample, key: string, x: real)
    ensures Reading(sample, key) == Some(x) <==> Reads(sample, key, x)
  {
  }

  /** A trigger or condition holds for exactly the samples the design lets pass. */
  lemma HoldsExact(config: Config, sample: Sample)
    ensures Holds(config, sample) <==> Passes(config, sample)
  {
    hide Compare, Normal, Relates, Reading, Reads;
    if !Absent(config, "key") {
      var key := Str(config["key"]);
      forall x ensures Reading(sample, key) == Some(x) <==> Reads(sample, key, x) {
        ReadsReading(sample, key, x);
      }
      if Reading(sample, key).Some? {
        assert Reads(sample, key, Reading(sample, key).value);
        if !Absent(config, "op") && "value" in config && config["value"].Num? {
          CompareRelates(Str(config["op"]), Reading(sample, key).value, config["value"].n);
        }
      }
    }
  }

  /** A threshold, spelled out: whichever spelling the operator has, the predicate holds exactly when the arithmetic
      relation between the reading and the threshold does; with an unknown operator or without a reading it fails. */
  lemma ThresholdExact(config: Config, sample: Sample, key: string, op: string, t: Json, x: real)
    requires "key" in config && config["key"] == Text(key) && "op" in config && config["op"] == Text(op)
    requires "value" in config && config["value"] == t && t.Num? && Reads(sample, key, x)
    ensures Spells(op, "gt") || Spells(op, ">") ==> (Holds(config, sample) <==> x > t.n)
    ensures Spells(op, "gte") || Spells(op, ">=") ==> (Holds(config, sample) <==> x >= t.n)
    ensures Spells(op, "lt") || Spells(op, "<") ==> (Holds(config, sample) <==> x < t.n)
    ensures Spells(op, "lte") || Spells(op, "<=") ==> (Holds(config, sample) <==> x <= t.n)
    ensures Spells(op, "eq") || Spells(op, "==") ==> (Holds(config, sample) <==> x == t.n)
    ensures Spells(op, "ne") || Spells(op, "!=") ==> (Holds(config, sample) <==> x != t.n)
  {
    ReadsReading(sample, key, x);
    OperatorsSpelled(op);
    OperatorLetters(Normal(op));
    hide Normal, Spells, Reading, Reads;
  }

  const OPERATORS: seq<string> := ["gt", ">", "gte", ">=", "lt", "<", "lte", "<=", "eq", "==", "ne", "!="]

  /** A predicate with a key fails without a number under it, whatever else it says; and with an operator it fails when
      the operator is unknown or the threshold is no number. */
  lemma PredicateFails(config: Config, sample: Sample)
    requires !Absent(config, "key")
    requires || (forall x :: !Reads(sample, Str(config["key"]), x))
             || (!Absent(config, "op")
                 && (|| !("value" in config && config["value"].Num?)
                     || forall word :: word in OPERATORS ==> !Spells(Str(config["op"]), word)))
    ensures !Holds(config, sample)
  {
    HoldsExact(config, sample);
    hide Reads, Holds, Spells;
    var words := OPERATORS;
    assert words[0] in words && words[1] in words && words[2] in words && words[3] in words;
    assert words[4] in words && words[5] in words && words[6] in words && words[7] in words;
    assert words[8] in words && words[9] in words && words[10] in words && words[11] in words;
  }

  function AtLeastZero(seconds: real): (r: real)
    ensures r >= 0.0
  {
    if seconds > 0.0 then seconds else 0.0
  }

  /** The first of the given keys that holds a number. */
  function FirstNumber(config: Config, keys: seq<string>): Option<real> {
    if keys == [] then None
    else match Get(config, keys[0]) case Num(n, _) => Some(n) case _ => FirstNumber(config, keys[1..])
  }

  function DelaySeconds(config: Config): (seconds: real)
    ensures seconds >= 0.0
  {
    match FirstNumber(config, ["seconds", "duration", "delay_seconds"])
    case Some(n) => AtLeastZero(n)
    case None => match Get(config, "ms") case Num(n, _) => AtLeastZero(n / 1000.0) case _ => 0.0
  }

  /** The larger of two reals. */
  function RealMax(a: real, b: real): (r: real)
    ensures r >= a && r >= b && (r == a || r == b)
  {
    if a >= b then a else b
  }

  predicate IsNumber(config: Config, key: string) {
    key in config && config[key].Num?
  }

  /** The first number among the three keys is a duration in seconds; failing those `ms` is one in milliseconds; there
      is no negative delay, and none without a number. */
  lemma DelayExact(config: Config)
    ensures
      var seconds := DelaySeconds(config);
      if IsNumber(config, "seconds") then seconds == RealMax(0.0, config["seconds"].n)
      else if IsNumber(config, "duration") then seconds == RealMax(0.0, config["duration"].n)
      else if IsNumber(config, "delay_seconds") then seconds == RealMax(0.0, config["delay_seconds"].n)
      else if IsNumber(config, "ms") then seconds * 1000.0 == RealMax(0.0, config["ms"].n)
      else seconds == 0.0
  {
    var keys := ["seconds", "duration", "delay_seconds"];
    assert keys[1..] == ["duration", "delay_seconds"] && keys[1..][1..] == ["delay_seconds"];
    assert keys[1..][1..][1..] == [];
    assert FirstNumber(config, []) == None;
    assert FirstNumber(config, ["delay_seconds"])
        == match Get(config, "delay_seconds") case Num(n, _) => Some(n) case _ => None;
    assert FirstNumber(config, ["duration", "delay_seconds"])
        == match Get(config, "duration") case Num(n, _) => Some(n) case _ => FirstNumber(config, ["delay_seconds"]);
  }

  datatype ActionKind = Command | Notify | Webhook

  datatype Request = Request(kind: ActionKind, config: Config)

  function ParseAction(config: Config): Option<Request> {
    var a, b, c := Get(config, "action"), Get(config, "kind"), Get(config, "action_type");
    var raw := if Truthy(a) then a else if Truthy(b) then b else c;
    if raw.Null? then None
    else
      var name := Normal(Str(raw));
      if name == "command" then Some(Request(Command, config))
      else if name == "notify" then Some(Request(Notify, config))
      else if name == "webhook" then Some(Request(Webhook, config))
      else None
  }

  /** The key is missing or holds an empty value: null, false, zero, an empty text, object or list. */
  predicate Unset(config: Config, key: string) {
    || key !in config || config[key].Null? || config[key] == Boolean(false) || config[key] == Text("")
    || (config[key].Num? && config[key].n == 0.0)
    || (config[key].Obj? && config[key].fields == map[]) || (config[key].Arr? && config[key].items == [])
  }

  /** The text under the first key that is set names the action, in any case and between any blanks; a text that names
      none of the three, or no text at all, is no action. */
  lemma ActionExact(config: Config, key: string, text: string, kind: ActionKind)
    requires key in config && config[key] == Text(text) && text != ""
    requires || key == "action" || (key == "kind" && Unset(config, "action"))
             || (key == "action_type" && Unset(config, "action") && Unset(config, "kind"))
    ensures ParseAction(config) == Some(Request(kind, config))
            <==> Spells(text, match kind case Command => "command" case Notify => "notify" case Webhook => "webhook")
    ensures ParseAction(config).Some? ==> ParseAction(config).value.config == config
  {
    hide Normal, Spells;
    NormalSpells(text, "command");
    NormalSpells(text, "notify");
    NormalSpells(text, "webhook");
    assert "command"[0] != "notify"[0] && "command"[0] != "webhook"[0] && "notify"[0] != "webhook"[0];
  }

  lemma NoAction(config: Config)
    requires Unset(config, "action") && Unset(config, "kind") && Absent(config, "action_type")
    ensures ParseAction(config) == None
  {
  }

  // ---------------------------------------------------------------- plans

  datatype Step = DelayStep(seconds: real) | ActionStep(node: Node)

  datatype Plan = Plan(steps: seq<Step>, suppressed: bool)

  /** The steps of the nodes behind the trigger, up to the first false condition. A further trigger is ignored. */
  function Compile(nodes: seq<Node>, sample: Sample): seq<Step> {
    if nodes == [] then []
    else
      var node, rest := nodes[0], nodes[1..];
      match node.kind
      case Condition => if Holds(node.config, sample) then Compile(rest, sample) else []
      case Delay => [DelayStep(DelaySeconds(node.config))] + Compile(rest, sample)
      case Action => [ActionStep(node)] + Compile(rest, sample)
      case Trigger => Compile(rest, sample)
  }

  function PlanOf(chain: seq<Node>, sample: Sample, maintenance: bool): Plan {
    if maintenance then Plan([], true)
    else if chain == [] || chain[0].kind != Trigger || !Holds(chain[0].config, sample) then Plan([], false)
    else Plan(Compile(chain[1..], sample), false)
  }

  /** A plan is marked suppressed exactly in maintenance, and then, or without a trigger that holds in front, it has no
      step. */
  lemma SuppressedIff(chain: seq<Node>, sample: Sample, maintenance: bool)
    ensures PlanOf(chain, sample, maintenance).suppressed <==> maintenance
    ensures maintenance || chain == [] || chain[0].kind != Trigger || !Passes(chain[0].config, sample) ==>
              PlanOf(chain, sample, maintenance).steps == []
  {
    if chain != [] {
      HoldsExact(chain[0].config, sample);
    }
    hide Holds, Passes;
  }

  /** The steps a node contributes itself. */
  function OwnSteps(node: Node): seq<Step> {
    match node.kind
    case Delay => [DelayStep(DelaySeconds(node.config))]
    case Action => [ActionStep(node)]
    case _ => []
  }

  predicate Stops(node: Node, sample: Sample) {
    node.kind == Condition && !Holds(node.config, sample)
  }

  lemma CompileFrom(chain: seq<Node>, i: nat, sample: Sample)
    requires i < |chain|
    ensures Compile(chain[i..], sample)
         == if Stops(chain[i], sample) then [] else OwnSteps(chain[i]) + Compile(chain[i + 1..], sample)
  {
    hide Holds, DelaySeconds;
    assert chain[i..][1..] == chain[i + 1..];
    assert [] + Compile(chain[i + 1..], sample) == Compile(chain[i + 1..], sample);
  }

  lemma Appended(before: seq<Step>, own: seq<Step>, rest: seq<Step>)
    ensures (before + own) + rest == before + (own + rest)
  {
  }

  method PlanChain(chain: seq<Node>, sample: Sample, maintenance: bool) returns (plan: Plan)
    ensures plan == PlanOf(chain, sample, maintenance)
  {
    hide Holds, DelaySeconds;
    if maintenance {
      return Plan([], true);
    }
    if chain == [] || chain[0].kind != Trigger || !Holds(chain[0].config, sample) {
      return Plan([], false);
    }
    var steps: seq<Step> := [];
    assert Compile([], sample) == [];
    hide Compile;
    for i := 1 to |chain|
      invariant steps + Compile(chain[i..], sample) == Compile(chain[1..], sample)
    {
      var node := chain[i];
      CompileFrom(chain, i, sample);
      Appended(steps, OwnSteps(node), Compile(chain[i + 1..], sample));
      match node.kind
      case Condition =>
        if !Holds(node.config, sample) {
          return Plan(steps, false);
        }
      case Delay => steps := steps + [DelayStep(DelaySeconds(node.config))];
      case Action => steps := steps + [ActionStep(node)];
      case Trigger =>
    }
    assert chain[|chain|..] == [];
    plan := Plan(steps, false);
  }

  // ---------------------------------------------------------------- execution

  /** One action handed to the sink: when, for which rule, and what. */
  datatype Dispatch = Dispatch(at: real, rule: string, request: Request)

  /** How long a plan sleeps: only delays above zero are slept. */
  function SleepTime(steps: seq<Step>): (total: real)
    ensures total >= 0.0
  {
    if steps == [] then 0.0
    else (if steps[0].DelayStep? then AtLeastZero(steps[0].seconds) else 0.0) + SleepTime(steps[1..])
  }

  /** What a plan hands to the sink when it is started at `at`; an unparseable action is skipped. */
  function Trace(steps: seq<Step>, at: real, rule: string): seq<Dispatch> {
    if steps == [] then []
    else
      match steps[0]
      case DelayStep(seconds) => Trace(steps[1..], at + AtLeastZero(seconds), rule)
      case ActionStep(node) =>
        match ParseAction(node.config)
        case None => Trace(steps[1..], at, rule)
        case Some(request) => [Dispatch(at, rule, request)] + Trace(steps[1..], at, rule)
  }

  datatype RuleRows = RuleRows(id: string, nodes: seq<NodeRow>, edges: seq<EdgeRow>)

  function StepsOf(rule: RuleRows, sample: Sample): seq<Step> {
    PlanOf(Chain(rule.nodes, rule.edges), sample, false).steps
  }

  /** What evaluating an event hands to the sink: one rule after another, on one clock. */
  function EventTrace(rules: seq<RuleRows>, sample: Sample, at: real): seq<Dispatch> {
    if rules == [] then []
    else
      var steps := StepsOf(rules[0], sample);
      Trace(steps, at, rules[0].id) + EventTrace(rules[1..], sample, at + SleepTime(steps))
  }

  /** How long evaluating the rules takes. */
  function Busy(rules: seq<RuleRows>, sample: Sample): (total: real)
    ensures total >= 0.0
  {
    if rules == [] then 0.0 else SleepTime(StepsOf(rules[0], sample)) + Busy(rules[1..], sample)
  }

  /** The executor: `now` moves only while sleeping, `log` is what reached the sink. */
  class Executor {
    var now: real
    var log: seq<Dispatch>

    constructor (start: real)
      ensures now == start && log == []
    {
      now, log := start, [];
    }

    method ExecutePlan(plan: Plan, rule: string) returns (dispatched: nat)
      modifies this
      ensures log == old(log) + Trace(plan.steps, old(now), rule)
      ensures now == old(now) + SleepTime(plan.steps)
      ensures dispatched == |Trace(plan.steps, old(now), rule)|
    {
      hide ParseAction;
      dispatched := 0;
      for i := 0 to |plan.steps|
        invariant log + Trace(plan.steps[i..], now, rule) == old(log) + Trace(plan.steps, old(now), rule)
        invariant now + SleepTime(plan.steps[i..]) == old(now) + SleepTime(plan.steps)
        invariant dispatched == |log| - |old(log)|
      {
        assert plan.steps[i..][1..] == plan.steps[i + 1..];
        match plan.steps[i]
        case DelayStep(seconds) =>
          if seconds > 0.0 {
            now := now + seconds;
          }
        case ActionStep(node) =>
          var request := ParseAction(node.config);
          if request.Some? {
            log := log + [Dispatch(now, rule, request.value)];
            dispatched := dispatched + 1;
          }
      }
    }

    method EvaluateEvent(rules: seq<RuleRows>, sample: Sample, maintenance: bool) returns (dispatched: nat)
      modifies this
      ensures log == old(log) + (if maintenance then [] else EventTrace(rules, sample, old(now)))
      ensures now == old(now) + (if maintenance then 0.0 else Busy(rules, sample))
      ensures dispatched == |log| - |old(log)|
    {
      hide Chain, PlanOf, Trace, SleepTime, EventTrace, Busy;
      dispatched := 0;
      if maintenance {
        return;
      }
      EmptyPlan();
      NoRules(sample);
      for i := 0 to |rules|
        invariant log + EventTrace(rules[i..], sample, now) == old(log) + EventTrace(rules, sample, old(now))
        invariant now + Busy(rules[i..], sample) == old(now) + Busy(rules, sample)
        invariant dispatched == |log| - |old(log)|
      {
        EventStep(rules, i, sample, now);
        var chain := BuildChain(rules[i].nodes, rules[i].edges);
        var plan := PlanChain(chain, sample, false);
        assert plan.steps == StepsOf(rules[i], sample);
        if plan.steps == [] {
          assert now + 0.0 == now;
          continue;
        }
        var n := ExecutePlan(plan, rules[i].id);
        dispatched := dispatched + n;
      }
      assert rules[|rules|..] == [];
    }
  }

  lemma NoRules(sample: Sample)
    ensures Busy([], sample) == 0.0 && forall at :: EventTrace([], sample, at) == []
  {
  }

  lemma EventStep(rules: seq<RuleRows>, i: nat, sample: Sample, at: real)
    requires i < |rules|
    ensures var steps := StepsOf(rules[i], sample);
            && Busy(rules[i..], sample) == SleepTime(steps) + Busy(rules[i + 1..], sample)
            && EventTrace(rules[i..], sample, at)
            == Trace(steps, at, rules[i].id) + EventTrace(rules[i + 1..], sample, at + SleepTime(steps))
  {
    hide StepsOf, Trace, SleepTime;
    assert rules[i..][1..] == rules[i + 1..];
  }

  lemma EmptyPlan()
    ensures SleepTime([]) == 0.0
    ensures forall at, rule :: Trace([], at, rule) == []
    ensures forall sample :: Compile([], sample) == []
  {
  }

  // ---------------------------------------------------------------- the design's interpreter

  /** Follow the graph node by node: a false condition stops, a delay schedules the continuation that much later, an
      action is executed. The visited set ends a cycle, which the pseudocode does not consider. */
  ghost function Interpret(
    g: Graph, current: Option<string>, visited: set<string>, sample: Sample, now: real, rule: string): seq<Dispatch>
    decreases g.specs.Keys - visited
  {
    if current.None? || current.value !in g.specs || current.value in visited then []
    else
      var node := g.specs[current.value];
      var next, seen := Next(g, current.value), visited + {current.value};
      match node.kind
      case Condition => if Passes(node.config, sample) then Interpret(g, next, seen, sample, now, rule) else []
      case Delay => Interpret(g, next, seen, sample, now + DelaySeconds(node.config), rule)
      case Action =>
        (match ParseAction(node.config) case None => [] case Some(request) => [Dispatch(now, rule, request)])
        + Interpret(g, next, seen, sample, now, rule)
      case Trigger => Interpret(g, next, seen, sample, now, rule)
  }

  ghost function Evaluate(
    nodes: seq<NodeRow>, edges: seq<EdgeRow>, sample: Sample, maintenance: bool, now: real, rule: string)
    : seq<Dispatch>
  {
    if maintenance then []
    else
      match FirstTrigger(KeyOrder(nodes), Specs(nodes))
      case None => []
      case Some(start) =>
        var g := GraphOf(nodes, edges);
        if Passes(g.specs[start].config, sample) then Interpret(g, Next(g, start), {start}, sample, now, rule) else []
  }

  lemma {:induction false} CompiledWalk(
    g: Graph, current: Option<string>, visited: set<string>, sample: Sample, now: real, rule: string)
    ensures Trace(Compile(Walk(g, current, visited), sample), now, rule)
          == Interpret(g, current, visited, sample, now, rule)
    decreases g.specs.Keys - visited
  {
    hide Holds, Passes, ParseAction, DelaySeconds;
    if current.Some? && current.value in g.specs && current.value !in visited {
      HoldsExact(g.specs[current.value].config, sample);
      var node, next, seen := g.specs[current.value], Next(g, current.value), visited + {current.value};
      var rest := Walk(g, next, seen);
      var walk := Walk(g, current, visited);
      assert walk[0] == node && walk[1..] == rest;
      var later := if node.kind == Delay then now + DelaySeconds(node.config) else now;
      CompiledWalk(g, next, seen, sample, later, rule);
      var steps := Compile(rest, sample);
      if node.kind == Delay {
        assert ([DelayStep(DelaySeconds(node.config))] + steps)[1..] == steps;
      } else if node.kind == Action {
        assert ([ActionStep(node)] + steps)[1..] == steps;
      }
    }
  }

  /** Compiling the chain to a plan and executing the plan does exactly what the design's interpreter does on the graph:
      the same actions at the same times. */
  lemma CompilationPreservesMeaning(
    nodes: seq<NodeRow>, edges: seq<EdgeRow>, sample: Sample, maintenance: bool, now: real, rule: string)
    ensures Trace(PlanOf(Chain(nodes, edges), sample, maintenance).steps, now, rule)
         == Evaluate(nodes, edges, sample, maintenance, now, rule)
  {
    hide Holds, Passes;
    var first := FirstTrigger(KeyOrder(nodes), Specs(nodes));
    if !maintenance && first.Some? {
      var g := GraphOf(nodes, edges);
      HoldsExact(g.specs[first.value].config, sample);
      var rest := Walk(g, Next(g, first.value), {first.value});
      assert {} + {first.value} == {first.value};
      assert Chain(nodes, edges) == [g.specs[first.value]] + rest;
      assert Chain(nodes, edges)[1..] == rest;
      CompiledWalk(g, Next(g, first.value), {first.value}, sample, now, rule);
    }
  }

  // ---------------------------------------------------------------- when an action runs

  /** The trigger and every condition before place `k` hold. */
  predicate Open(chain: seq<Node>, sample: Sample, k: nat)
    requires k <= |chain|
  {
    && chain != [] && chain[0].kind == Trigger && Holds(chain[0].config, sample)
    && forall j :: 0 < j < k && chain[j].kind == Condition ==> Holds(chain[j].config, sample)
  }

  predicate Runs(chain: seq<Node>, sample: Sample, k: nat)
    requires k < |chain|
  {
    Open(chain, sample, k) && chain[k].kind == Action && ParseAction(chain[k].config).Some?
  }

  function DelaysBefore(chain: seq<Node>, k: nat): real
    requires k <= |chain|
  {
    if k == 0 then 0.0
    else DelaysBefore(chain, k - 1) + OwnDelay(chain[k - 1])
  }

  /** The dispatches of the places before `k`, each place judged on its own. */
  function Declared(chain: seq<Node>, sample: Sample, at: real, rule: string, k: nat): seq<Dispatch>
    requires k <= |chain|
  {
    if k == 0 then []
    else
      Declared(chain, sample, at, rule, k - 1)
      + (if Runs(chain, sample, k - 1) then
           [Dispatch(at + DelaysBefore(chain, k - 1), rule, ParseAction(chain[k - 1].config).value)]
         else [])
  }

  lemma {:induction false} ClosedStaysClosed(chain: seq<Node>, sample: Sample, at: real, rule: string, k: nat, m: nat)
    requires k <= m <= |chain| && !Open(chain, sample, k)
    ensures Declared(chain, sample, at, rule, m) == Declared(chain, sample, at, rule, k)
    decreases m
  {
    hide Holds, ParseAction, DelaysBefore;
    if k < m {
      ClosedStaysClosed(chain, sample, at, rule, k, m - 1);
    }
  }

  function Own(node: Node, at: real, rule: string): seq<Dispatch> {
    if node.kind == Action && ParseAction(node.config).Some? then
      [Dispatch(at, rule, ParseAction(node.config).value)]
    else []
  }

  function OwnDelay(node: Node): real {
    if node.kind == Delay then DelaySeconds(node.config) else 0.0
  }

  /** What one node adds to the trace of those behind it. */
  lemma TraceOfHead(nodes: seq<Node>, sample: Sample, at: real, rule: string)
    requires nodes != [] && (nodes[0].kind == Condition ==> Holds(nodes[0].config, sample))
    ensures Trace(Compile(nodes, sample), at, rule)
         == Own(nodes[0], at, rule) + Trace(Compile(nodes[1..], sample), at + OwnDelay(nodes[0]), rule)
  {
    hide Holds, ParseAction, DelaySeconds;
    var node, steps := nodes[0], Compile(nodes[1..], sample);
    if node.kind == Delay {
      assert ([DelayStep(DelaySeconds(node.config))] + steps)[1..] == steps;
    } else if node.kind == Action {
      assert ([ActionStep(node)] + steps)[1..] == steps;
      assert at + 0.0 == at;
    } else {
      assert at + 0.0 == at;
    }
  }

  lemma {:induction false} DeclaredFrom(chain: seq<Node>, sample: Sample, at: real, rule: string, k: nat)
    requires 0 < k <= |chain| && Open(chain, sample, k)
    ensures Declared(chain, sample, at, rule, |chain|)
         == Declared(chain, sample, at, rule, k) + Trace(Compile(chain[k..], sample), at + DelaysBefore(chain, k), rule)
    decreases |chain| - k
  {
    hide Holds, ParseAction, DelaySeconds, Trace, Compile, OwnDelay;
    if k < |chain| {
      var node, start := chain[k], at + DelaysBefore(chain, k);
      assert chain[k..][0] == node && chain[k..][1..] == chain[k + 1..];
      if node.kind == Condition && !Holds(node.config, sample) {
        ClosedStaysClosed(chain, sample, at, rule, k + 1, |chain|);
        ClosedTrace(chain[k..], sample, start, rule);
      } else {
        assert Open(chain, sample, k + 1);
        DeclaredFrom(chain, sample, at, rule, k + 1);
        TraceOfHead(chain[k..], sample, start, rule);
        assert at + DelaysBefore(chain, k + 1) == start + OwnDelay(node);
        assert Declared(chain, sample, at, rule, k + 1)
            == Declared(chain, sample, at, rule, k) + Own(node, start, rule);
      }
    } else {
      EmptyPlan();
      assert chain[k..] == [];
    }
  }

  lemma ClosedTrace(nodes: seq<Node>, sample: Sample, at: real, rule: string)
    requires nodes != [] && nodes[0].kind == Condition && !Holds(nodes[0].config, sample)
    ensures Trace(Compile(nodes, sample), at, rule) == []
  {
    hide Holds;
  }

  /** An action of a chain runs exactly when the trigger and every earlier condition hold, once, in chain order, as much
      later as the delays before it add up to. */
  lemma ActionsRunExactly(chain: seq<Node>, sample: Sample, at: real, rule: string)
    ensures Trace(PlanOf(chain, sample, false).steps, at, rule) == Declared(chain, sample, at, rule, |chain|)
  {
    hide Holds, ParseAction, DelaySeconds, Trace;
    EmptyPlan();
    if chain != [] {
      if Open(chain, sample, 1) {
        DeclaredFrom(chain, sample, at, rule, 1);
        assert DelaysBefore(chain, 1) == 0.0 + OwnDelay(chain[0]) == 0.0;
        assert Declared(chain, sample, at, rule, 1) == Declared(chain, sample, at, rule, 0);
      } else {
        assert !Open(chain, sample, 0);
        ClosedStaysClosed(chain, sample, at, rule, 0, |chain|);
      }
    }
  }

  /** A plan sleeps for as long as the delays add up to before the place where the chain closes. */
  lemma SleepsExactly(chain: seq<Node>, sample: Sample, k: nat)
    requires 0 < k <= |chain| && Open(chain, sample, k) && (k < |chain| ==> !Open(chain, sample, k + 1))
    ensures SleepTime(PlanOf(chain, sample, false).steps) == DelaysBefore(chain, k)
  {
    hide Holds, DelaySeconds;
    assert DelaysBefore(chain, 1) == 0.0 + OwnDelay(chain[0]) == 0.0;
    SleepsFrom(chain, sample, 1, k);
  }

  lemma {:induction false} SleepsFrom(chain: seq<Node>, sample: Sample, i: nat, k: nat)
    requires 0 < i <= k <= |chain| && Open(chain, sample, k) && (k < |chain| ==> !Open(chain, sample, k + 1))
    ensures DelaysBefore(chain, i) + SleepTime(Compile(chain[i..], sample)) == DelaysBefore(chain, k)
    decreases k - i
  {
    hide Holds, DelaySeconds, Compile;
    EmptyPlan();
    if i < k {
      CompileFrom(chain, i, sample);
      SleepsFrom(chain, sample, i + 1, k);
      SleepOfOwn(chain[i], Compile(chain[i + 1..], sample));
    } else if k < |chain| {
      CompileFrom(chain, k, sample);
    } else {
      assert chain[k..] == [];
    }
  }

  lemma SleepOfOwn(node: Node, rest: seq<Step>)
    ensures SleepTime(OwnSteps(node) + rest) == OwnDelay(node) + SleepTime(rest)
  {
    hide DelaySeconds;
    if node.kind == Delay {
      assert ([DelayStep(DelaySeconds(node.config))] + rest)[1..] == rest;
    } else if node.kind == Action {
      assert ([ActionStep(node)] + rest)[1..] == rest;
    } else {
      assert [] + rest == rest;
    }
  }

  // ---------------------------------------------------------------- rules among each other

  lemma {:induction false} TraceShifts(steps: seq<Step>, a: real, b: real, rule: string)
    ensures |Trace(steps, a, rule)| == |Trace(steps, b, rule)|
    ensures forall i :: 0 <= i < |Trace(steps, a, rule)| ==>
      Trace(steps, b, rule)[i] == Trace(steps, a, rule)[i].(at := Trace(steps, a, rule)[i].at - a + b)
  {
    hide ParseAction;
    if steps != [] {
      var s := if steps[0].DelayStep? then AtLeastZero(steps[0].seconds) else 0.0;
      TraceShifts(steps[1..], a + s, b + s, rule);
    }
  }

  lemma {:induction false} EventTraceSplits(first: seq<RuleRows>, later: seq<RuleRows>, sample: Sample, at: real)
    ensures EventTrace(first + later, sample, at)
         == EventTrace(first, sample, at) + EventTrace(later, sample, at + Busy(first, sample))
  {
    hide StepsOf, Trace, SleepTime;
    if first == [] {
      assert first + later == later && at + 0.0 == at;
    } else {
      var pause := SleepTime(StepsOf(first[0], sample));
      assert (first + later)[1..] == first[1..] + later;
      EventTraceSplits(first[1..], later, sample, at + pause);
      assert at + Busy(first, sample) == at + pause + Busy(first[1..], sample);
    }
  }

  /** The dispatches of rule `r`, as the engine makes them: it starts when all earlier rules have slept. */
  lemma RuleStartsAfterEarlierRules(rules: seq<RuleRows>, r: nat, sample: Sample, at: real)
    requires r < |rules|
    ensures EventTrace(rules, sample, at)
         == EventTrace(rules[..r], sample, at)
            + (Trace(StepsOf(rules[r], sample), at + Busy(rules[..r], sample), rules[r].id)
               + EventTrace(rules[r + 1..], sample,
                   at + Busy(rules[..r], sample) + SleepTime(StepsOf(rules[r], sample))))
  {
    hide StepsOf, Trace, SleepTime, Busy;
    assert rules == rules[..r] + rules[r..];
    EventTraceSplits(rules[..r], rules[r..], sample, at);
    assert rules[r..][1..] == rules[r + 1..];
  }

  /** A rule's actions are on time, as if it were alone, exactly when it has none or no earlier rule sleeps. The engine
      therefore does not keep the promise that one rule's delay never blocks another. */
  lemma OnTimeIff(rules: seq<RuleRows>, r: nat, sample: Sample, at: real)
    requires r < |rules|
    ensures Trace(StepsOf(rules[r], sample), at + Busy(rules[..r], sample), rules[r].id)
         == Trace(StepsOf(rules[r], sample), at, rules[r].id)
       <==> Trace(StepsOf(rules[r], sample), at, rules[r].id) == [] || Busy(rules[..r], sample) == 0.0
  {
    hide Trace, StepsOf, Busy;
    var late := at + Busy(rules[..r], sample);
    var steps := StepsOf(rules[r], sample);
    TraceShifts(steps, at, late, rules[r].id);
    if Trace(steps, at, rules[r].id) != [] && Trace(steps, late, rules[r].id) == Trace(steps, at, rules[r].id) {
      assert Trace(steps, late, rules[r].id)[0].at == Trace(steps, at, rules[r].id)[0].at;
    }
  }

  /** One row of each kind, with the ids the editor would give. */
  function TwoNodeRule(id: string, kind: string, config: Config): RuleRows {
    RuleRows(id, [NodeRow(Some("t"), "trigger", None), NodeRow(Some("x"), kind, Some(config))],
        [EdgeRow(Some("t"), Some("x"))])
  }

  lemma TwoNodeGraph(id: string, kindName: string, kind: Kind, config: Config)
    requires CoerceKind("trigger") == Some(Trigger) && CoerceKind(kindName) == Some(kind)
    ensures var rule, t, x := TwoNodeRule(id, kindName, config), Node("t", Trigger, map[]), Node("x", kind, config);
            && Specs(rule.nodes) == map["t" := t, "x" := x] && KeyOrder(rule.nodes) == ["t", "x"]
            && Adjacency(rule.edges) == map["t" := "x"]
  {
    hide CoerceKind;
    var rule := TwoNodeRule(id, kindName, config);
    var t, x := Node("t", Trigger, map[]), Node("x", kind, config);
    assert rule.nodes[..1] == [rule.nodes[0]] && rule.nodes[..1][..0] == [];
    assert Specs(rule.nodes[..1]) == map["t" := t] && KeyOrder(rule.nodes[..1]) == ["t"];
    assert "x"[0] != "t"[0];
    assert rule.edges[..0] == [];
  }

  lemma TwoNodeSteps(id: string, kindName: string, kind: Kind, config: Config, sample: Sample)
    requires CoerceKind("trigger") == Some(Trigger) && CoerceKind(kindName) == Some(kind)
    ensures StepsOf(TwoNodeRule(id, kindName, config), sample) == Compile([Node("x", kind, config)], sample)
  {
    hide CoerceKind, Compile, Specs, KeyOrder, Adjacency, Walk;
    var rule := TwoNodeRule(id, kindName, config);
    var t, x := Node("t", Trigger, map[]), Node("x", kind, config);
    TwoNodeGraph(id, kindName, kind, config);
    var path := [t, x];
    assert "x"[0] != "t"[0];
    WalkExact(GraphOf(rule.nodes, rule.edges), "t", path);
    assert Chain(rule.nodes, rule.edges) == path && path[1..] == [x];
  }

  const WAIT: Config := map["seconds" := Num(5.0, "5")]
  const NOTIFY: Config := map["action" := Text("notify")]

  lemma WaitStep(sample: Sample)
    ensures Compile([Node("x", Delay, WAIT)], sample) == [DelayStep(5.0)]
  {
    assert FirstNumber(WAIT, ["seconds", "duration", "delay_seconds"]) == Some(5.0);
    assert [Node("x", Delay, WAIT)][1..] == [];
  }

  lemma NotifyStep(sample: Sample)
    ensures Compile([Node("x", Action, NOTIFY)], sample) == [ActionStep(Node("x", Action, NOTIFY))]
    ensures ParseAction(NOTIFY) == Some(Request(Notify, NOTIFY))
  {
    KindNames();
    hide Normal;
    assert Get(NOTIFY, "action") == Text("notify");
    assert "notify"[0] != "command"[0];
    assert [Node("x", Action, NOTIFY)][1..] == [];
  }

  lemma AlertAlone(sample: Sample, at: real)
    ensures EventTrace([TwoNodeRule("alert", "action", NOTIFY)], sample, at)
          == [Dispatch(at, "alert", Request(Notify, NOTIFY))]
  {
    KindNames();
    hide StepsOf, Compile, ParseAction, CoerceKind, Normal;
    var alert := TwoNodeRule("alert", "action", NOTIFY);
    TwoNodeSteps("alert", "action", Action, NOTIFY, sample);
    NotifyStep(sample);
    var act := ActionStep(Node("x", Action, NOTIFY));
    assert [act][1..] == [];
    assert Trace([act], at, "alert") == [Dispatch(at, "alert", Request(Notify, NOTIFY))] + Trace([], at, "alert");
    assert [alert][1..] == [];
  }

  /** A rule whose plan only waits five seconds keeps the next rule's notification back for five seconds. */
  lemma DelayBlocksNextRule(sample: Sample)
    ensures var slow, alert := TwoNodeRule("slow", "delay", WAIT), TwoNodeRule("alert", "action", NOTIFY);
            && EventTrace([slow, alert], sample, 0.0) == [Dispatch(5.0, "alert", Request(Notify, NOTIFY))]
            && EventTrace([alert], sample, 0.0) == [Dispatch(0.0, "alert", Request(Notify, NOTIFY))]
  {
    KindNames();
    hide StepsOf, Compile, ParseAction, CoerceKind, Normal;
    var slow, alert := TwoNodeRule("slow", "delay", WAIT), TwoNodeRule("alert", "action", NOTIFY);
    TwoNodeSteps("slow", "delay", Delay, WAIT, sample);
    WaitStep(sample);
    assert [DelayStep(5.0)][1..] == [];
    assert SleepTime([DelayStep(5.0)]) == 5.0 && Trace([DelayStep(5.0)], 0.0, "slow") == [];
    assert [slow, alert][1..] == [alert];
    AlertAlone(sample, 0.0);
    AlertAlone(sample, 5.0);
  }

  lemma KindNames()
    ensures CoerceKind("trigger") == Some(Trigger) && CoerceKind("delay") == Some(Delay)
          && CoerceKind("action") == Some(Action)
    ensures Normal("notify") == "notify"
  {
    assert Lower("trigger") == "trigger" && Lower("delay") == "delay" && Lower("action") == "action";
    assert "delay"[0] != "trigger"[0] && "action"[0] != "trigger"[0];
    assert "delay"[0] != "condition"[0] && "action"[0] != "condition"[0] && "action"[0] != "delay"[0];
    assert Lower("notify") == "notify";
  }
}
