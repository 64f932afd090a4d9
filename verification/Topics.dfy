/** MQTT topics: building and parsing them, matching them against filters, and what an organisation's ACL admits. */
module Topics {
  import opened Prelude

  const ROOT: string := "iotaps"

  datatype MessageType = Telemetry | Command | Ack | Status

  function TypeName(t: MessageType): string {
    match t
    case Telemetry => "telemetry"
    case Command => "command"
    case Ack => "ack"
    case Status => "status"
  }

  function TypeOf(s: string): Option<MessageType> {
    if s == "telemetry" then Some(Telemetry)
    else if s == "command" then Some(Command)
    else if s == "ack" then Some(Ack)
    else if s == "status" then Some(Status)
    else None
  }

  /** The four names, both ways. */
  lemma NamesExact(s: string)
    ensures TypeOf(s) == Some(Telemetry) <==> s == "telemetry"
    ensures TypeOf(s) == Some(Command) <==> s == "command"
    ensures TypeOf(s) == Some(Ack) <==> s == "ack"
    ensures TypeOf(s) == Some(Status) <==> s == "status"
    ensures TypeOf(s).Some? ==> TypeName(TypeOf(s).value) == s
  {
    assert "command"[0] != "telemetry"[0] && "status"[0] != "command"[0];
  }

  // ---------------------------------------------------------------- levels

  predicate OneLevel(s: string) {
    '/' !in s
  }

  /** `s.split("/")` */
  function Split(s: string): (parts: seq<string>)
    ensures |parts| >= 1
    ensures forall i :: 0 <= i < |parts| ==> OneLevel(parts[i])
  {
    if s == "" then [""]
    else
      var rest := Split(s[1..]);
      if s[0] == '/' then [""] + rest else [[s[0]] + rest[0]] + rest[1..]
  }

  function Join(parts: seq<string>): string
    requires |parts| >= 1
  {
    if |parts| == 1 then parts[0] else parts[0] + "/" + Join(parts[1..])
  }

  lemma {:induction false} JoinSplit(s: string)
    ensures Join(Split(s)) == s
  {
    if s != "" {
      JoinSplit(s[1..]);
      var rest := Split(s[1..]);
      if s[0] == '/' {
        assert ([""] + rest)[1..] == rest;
        assert Join([""] + rest) == "" + "/" + Join(rest);
      } else {
        assert ([[s[0]] + rest[0]] + rest[1..])[1..] == rest[1..];
      }
    }
  }

  lemma {:induction false} SplitLevel(s: string)
    requires OneLevel(s)
    ensures Split(s) == [s]
  {
    if s != "" {
      assert forall i :: 0 <= i < |s[1..]| ==> s[1..][i] == s[i + 1];
      SplitLevel(s[1..]);
      assert [s[0]] + s[1..] == s;
    }
  }

  lemma {:induction false} SplitConcat(level: string, tail: string)
    requires OneLevel(level)
    ensures Split(level + "/" + tail) == [level] + Split(tail)
    decreases |level|
  {
    var s := level + "/" + tail;
    if level == "" {
      assert s[1..] == tail;
    } else {
      assert s[1..] == level[1..] + "/" + tail;
      SplitConcat(level[1..], tail);
      assert [level[0]] + level[1..] == level;
    }
  }

  /** Levels survive being joined and split again. */
  lemma {:induction false} SplitJoin(parts: seq<string>)
    requires |parts| >= 1 && forall i :: 0 <= i < |parts| ==> OneLevel(parts[i])
    ensures Split(Join(parts)) == parts
    decreases |parts|
  {
    if |parts| == 1 {
      SplitLevel(parts[0]);
    } else {
      SplitJoin(parts[1..]);
      SplitConcat(parts[0], Join(parts[1..]));
    }
  }

  // ---------------------------------------------------------------- building and parsing

  /** `iotaps/{org}/{device}/{type}` */
  function Topic(org: string, device: string, t: MessageType): string {
    ROOT + "/" + org + "/" + device + "/" + TypeName(t)
  }

  /** `iotaps/{token}/{type}` */
  function TokenTopic(token: string, t: MessageType): string {
    ROOT + "/" + token + "/" + TypeName(t)
  }

  datatype ParsedTopic = ParsedTopic(org: string, device: string, messageType: MessageType)

  function ParseTopic(topic: string): Option<ParsedTopic> {
    if topic == "" then None else
    var parts := Split(topic);
    if |parts| == 3 then
      if parts[0] != ROOT || parts[1] == "" then None
      else (match TypeOf(parts[2]) case None => None case Some(t) => Some(ParsedTopic(parts[1], parts[1], t)))
    else if |parts| == 4 then
      if parts[0] != ROOT || parts[1] == "" || parts[2] == "" then None
      else (match TypeOf(parts[3]) case None => None case Some(t) => Some(ParsedTopic(parts[1], parts[2], t)))
    else None
  }

  lemma TopicLevels(org: string, device: string, t: MessageType)
    ensures Topic(org, device, t) == Join([ROOT, org, device, TypeName(t)])
    ensures TokenTopic(org, t) == Join([ROOT, org, TypeName(t)])
  {
    assert Join([device, TypeName(t)]) == device + "/" + TypeName(t);
    assert Join([org, device, TypeName(t)]) == org + "/" + Join([device, TypeName(t)]);
    assert Join([ROOT, org, device, TypeName(t)]) == ROOT + "/" + Join([org, device, TypeName(t)]);
    assert Join([org, TypeName(t)]) == org + "/" + TypeName(t);
    assert Join([ROOT, org, TypeName(t)]) == ROOT + "/" + Join([org, TypeName(t)]);
  }

  ghost predicate Id(s: string) {
    s != "" && OneLevel(s)
  }

  lemma TypeNames(t: MessageType)
    ensures TypeOf(TypeName(t)) == Some(t) && OneLevel(TypeName(t))
  {
  }

  lemma TypesNamed(s: string)
    requires TypeOf(s).Some?
    ensures TypeName(TypeOf(s).value) == s
  {
  }

  /** The parser accepts exactly the topics the builders produce from non-empty separator-free ids, and reads back
      the ids and the type they were built from. */
  lemma ParseTopicExact(topic: string, p: ParsedTopic)
    ensures ParseTopic(topic) == Some(p)
            <==> || (Id(p.org) && Id(p.device) && topic == Topic(p.org, p.device, p.messageType))
                 || (Id(p.org) && p.device == p.org && topic == TokenTopic(p.org, p.messageType))
  {
    var name := TypeName(p.messageType);
    TypeNames(p.messageType);
    TopicLevels(p.org, p.device, p.messageType);
    assert OneLevel(ROOT);
    if Id(p.org) && Id(p.device) && topic == Topic(p.org, p.device, p.messageType) {
      SplitJoin([ROOT, p.org, p.device, name]);
    } else if Id(p.org) && p.device == p.org && topic == TokenTopic(p.org, p.messageType) {
      SplitJoin([ROOT, p.org, name]);
    }
    if ParseTopic(topic) == Some(p) {
      JoinSplit(topic);
      var parts := Split(topic);
      if |parts| == 3 {
        TypesNamed(parts[2]);
        assert parts == [ROOT, p.org, name];
      } else {
        TypesNamed(parts[3]);
        assert parts == [ROOT, p.org, p.device, name];
      }
    }
  }

  // ---------------------------------------------------------------- filters

  /** Level-by-level wildcard matching as section 4.7.1 of MQTT Version 3.1.1 defines it: `+` stands for one level, a
      final `#` for any number of levels, none included. */
  predicate Matches(filter: seq<string>, topic: seq<string>)
    decreases |filter|
  {
    if filter == [] then topic == []
    else if filter[0] == "#" then |filter| == 1
    else topic != [] && (filter[0] == "+" || filter[0] == topic[0]) && Matches(filter[1..], topic[1..])
  }

  /** The filter up to and including its first `#`. */
  function UpToHash(filter: seq<string>): seq<string>
    decreases |filter|
  {
    if filter == [] then [] else if filter[0] == "#" then ["#"] else [filter[0]] + UpToHash(filter[1..])
  }

  ghost predicate WellFormed(filter: seq<string>) {
    forall i :: 0 <= i < |filter| - 1 ==> filter[i] != "#"
  }

  predicate TopicMatches(filter: string, topic: string) {
    Matches(UpToHash(Split(filter)), Split(topic))
  }

  lemma {:induction false} UpToHashWellFormed(filter: seq<string>)
    ensures WellFormed(filter) <==> UpToHash(filter) == filter
    decreases |filter|
  {
    if filter != [] {
      var rest := filter[1..];
      UpToHashWellFormed(rest);
      if filter[0] != "#" {
        assert filter == [filter[0]] + rest;
        assert UpToHash(filter)[1..] == UpToHash(rest);
        assert forall i :: 0 < i < |filter| ==> filter[i] == rest[i - 1];
        assert forall i :: 0 <= i < |rest| ==> rest[i] == filter[i + 1];
      } else if |filter| > 1 {
        assert |UpToHash(filter)| == 1;
      }
    }
  }

  /** On a filter whose `#` stands last, or that has none, the matcher is the standard relation. */
  lemma WellFormedMatches(filter: string, topic: string)
    requires WellFormed(Split(filter))
    ensures TopicMatches(filter, topic) <==> Matches(Split(filter), Split(topic))
  {
    UpToHashWellFormed(Split(filter));
  }

  ghost predicate LevelsAgree(filter: seq<string>, topic: seq<string>, n: nat)
    requires n <= |filter|
  {
    n <= |topic| && forall i :: 0 <= i < n ==> filter[i] == "+" || filter[i] == topic[i]
  }

  /** The relation without recursion: without `#` the levels agree one by one and are equally many; with a final `#`
      the levels before it agree. */
  lemma {:induction false} MatchesByLevel(filter: seq<string>, topic: seq<string>)
    requires WellFormed(filter) && filter != []
    ensures Matches(filter, topic)
            <==> if filter[|filter| - 1] == "#" then LevelsAgree(filter, topic, |filter| - 1)
                 else |filter| == |topic| && LevelsAgree(filter, topic, |filter|)
    decreases |filter|
  {
    var rest := filter[1..];
    assert forall i :: 0 <= i < |rest| ==> rest[i] == filter[i + 1];
    if filter[0] != "#" && topic != [] {
      var below := topic[1..];
      assert forall i :: 0 <= i < |below| ==> below[i] == topic[i + 1];
      assert forall i :: 0 < i < |topic| ==> topic[i] == below[i - 1];
      assert forall i :: 0 < i < |filter| ==> filter[i] == rest[i - 1];
      if rest != [] {
        MatchesByLevel(rest, below);
      }
    }
  }

  lemma {:induction false} AgreeSoFar(filter: seq<string>, topic: seq<string>, i: nat)
    requires i <= |filter| && i <= |topic|
    requires forall k :: 0 <= k < i ==> filter[k] != "#" && (filter[k] == "+" || filter[k] == topic[k])
    ensures Matches(UpToHash(filter), topic) <==> Matches(UpToHash(filter[i..]), topic[i..])
    decreases i
  {
    if i > 0 {
      AgreeSoFar(filter[1..], topic[1..], i - 1);
      assert UpToHash(filter)[1..] == UpToHash(filter[1..]);
      assert filter[1..][i - 1..] == filter[i..] && topic[1..][i - 1..] == topic[i..];
    }
  }

  /** The matching loop with its early returns; a `#` anywhere ends it with success. */
  method TopicMatchesFilter(filter: string, topic: string) returns (result: bool)
    ensures result <==> TopicMatches(filter, topic)
  {
    var filterParts, topicParts := Split(filter), Split(topic);
    for i := 0 to |filterParts|
      invariant i <= |topicParts|
      invariant forall k :: 0 <= k < i ==>
                  filterParts[k] != "#" && (filterParts[k] == "+" || filterParts[k] == topicParts[k])
    {
      AgreeSoFar(filterParts, topicParts, i);
      if filterParts[i] == "#" {
        return true;
      }
      if i >= |topicParts| {
        return false;
      }
      if filterParts[i] == "+" {
        continue;
      }
      if filterParts[i] != topicParts[i] {
        return false;
      }
    }
    AgreeSoFar(filterParts, topicParts, |filterParts|);
    return |filterParts| == |topicParts|;
  }

  // ---------------------------------------------------------------- organisations

  function OrgAclPattern(org: string): string {
    ROOT + "/" + org + "/#"
  }

  predicate OrgCanAccess(org: string, topic: string) {
    TopicMatches(OrgAclPattern(org), topic)
  }

  predicate Wildcard(org: string) {
    org == "+" || org == "#"
  }

  lemma AclLevels(org: string)
    requires OneLevel(org)
    ensures Split(OrgAclPattern(org)) == [ROOT, org, "#"]
  {
    assert OrgAclPattern(org) == ROOT + "/" + (org + "/" + "#");
    SplitConcat(ROOT, org + "/" + "#");
    SplitConcat(org, "#");
    SplitLevel("#");
  }

  lemma AccessByLevel(org: string, topic: string)
    requires OneLevel(org)
    ensures
      var parts := Split(topic);
      OrgCanAccess(org, topic) <==>
        parts[0] == ROOT && (org == "#" || (|parts| >= 2 && (org == "+" || parts[1] == org)))
  {
    AclLevels(org);
    var parts := Split(topic);
    assert ROOT != "+" && ROOT != "#";
    if org == "#" {
      assert [ROOT, org, "#"][1..] == [org, "#"];
      assert UpToHash([org, "#"]) == ["#"];
      assert UpToHash([ROOT, org, "#"]) == [ROOT, "#"];
      UnderRoot(["#"], parts);
    } else {
      UpToHashWellFormed([ROOT, org, "#"]);
      UnderRoot([org, "#"], parts);
      if |parts| >= 2 {
        assert [org, "#"][1..] == ["#"] && Matches(["#"], parts[1..][1..]);
      }
    }
  }

  lemma UnderRoot(below: seq<string>, parts: seq<string>)
    requires parts != []
    ensures Matches([ROOT] + below, parts) <==> parts[0] == ROOT && Matches(below, parts[1..])
  {
    assert ([ROOT] + below)[1..] == below;
  }

  /** An ordinary org reaches exactly its own node and everything below it. */
  lemma AccessExact(org: string, topic: string)
    requires OneLevel(org) && !Wildcard(org)
    ensures OrgCanAccess(org, topic) <==> topic == ROOT + "/" + org || ROOT + "/" + org + "/" <= topic
  {
    AccessByLevel(org, topic);
    var own := ROOT + "/" + org;
    var parts := Split(topic);
    if OrgCanAccess(org, topic) {
      JoinSplit(topic);
      assert topic == ROOT + "/" + Join(parts[1..]);
      if |parts| > 2 {
        assert Join(parts[1..]) == org + "/" + Join(parts[2..]) by { assert parts[1..][1..] == parts[2..]; }
        assert topic == own + "/" + Join(parts[2..]);
      }
    } else if topic == own {
      SplitConcat(ROOT, org);
      SplitLevel(org);
    } else if own + "/" <= topic {
      var tail := topic[|own + "/"|..];
      assert topic == ROOT + "/" + (org + "/" + tail);
      SplitConcat(ROOT, org + "/" + tail);
      SplitConcat(org, tail);
    }
  }

  /** Two different separator-free orgs share an accessible topic if and only if one of them is a bare wildcard. */
  lemma OrgsIsolatedIff(a: string, b: string)
    requires OneLevel(a) && OneLevel(b) && a != b
    ensures (exists topic :: OrgCanAccess(a, topic) && OrgCanAccess(b, topic)) <==> Wildcard(a) || Wildcard(b)
  {
    if Wildcard(a) || Wildcard(b) {
      var level := if Wildcard(a) then b else a;
      var topic := ROOT + "/" + level;
      SplitConcat(ROOT, level);
      SplitLevel(level);
      AccessByLevel(a, topic);
      AccessByLevel(b, topic);
      assert OrgCanAccess(a, topic) && OrgCanAccess(b, topic);
    } else {
      forall topic ensures !(OrgCanAccess(a, topic) && OrgCanAccess(b, topic)) {
        AccessByLevel(a, topic);
        AccessByLevel(b, topic);
      }
    }
  }

  /** An ordinary org reaches a device topic exactly when the device is its own. */
  lemma OwnDevicesOnly(org: string, owner: string, device: string, t: MessageType)
    requires OneLevel(org) && !Wildcard(org) && OneLevel(owner) && OneLevel(device)
    ensures OrgCanAccess(org, Topic(owner, device, t)) <==> org == owner
  {
    TopicLevels(owner, device, t);
    TypeNames(t);
    SplitJoin([ROOT, owner, device, TypeName(t)]);
    AccessByLevel(org, Topic(owner, device, t));
  }
}
