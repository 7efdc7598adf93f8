/**
 MQTT topics: how the server names them (plugins/mosquitto/com_mosquitto.cpp), what clients
 subscribe to and read out of them (client/src/mqtt.c), and the broker's matching
 (section 4.7.1 of MQTT 3.1.1).
 */
module Topics {
  import opened Options
  import opened Sequences
  import opened CStrings

  function Split(s: string): (levels: seq<string>)
    ensures levels != []
    decreases |s|
  {
    var n := StrCSpn(s, "/");
    if n == |s| then [s] else [s[..n]] + Split(s[n + 1..])
  }

  /** `#` stands for the rest of a topic, the parent level included; `+` for one level. */
  predicate LevelsMatch(filter: seq<string>, topic: seq<string>) {
    if filter == [] then topic == []
    else if filter == ["#"] then true
    else
      && topic != []
      && (filter[0] == "+" || filter[0] == topic[0])
      && LevelsMatch(filter[1..], topic[1..])
  }

  predicate Matches(filter: string, topic: string) {
    LevelsMatch(Split(filter), Split(topic))
  }

  const SERVER_FILTER := "envelope/master/#"
  const EXTERN_TOPIC := "envelope/lausim"

  function FaultTopic(target: string, component: Option<string>): string {
    "envelope/" + target + if component.Some? then "/" + component.value else ""
  }

  function BackTopic(client: string): string {
    "envelope/master/" + client
  }

  /** The buffer for a client's filter holds this many characters, the `snprintf` call says. */
  const FILTER_ROOM := 510

  /** The longest name whose filter fits. */
  const LONGEST_NAME := 499

  function NodeFilter(client: string): string {
    var filter := "envelope/" + client + "/#";
    if |filter| <= FILTER_ROOM then filter else filter[..FILTER_ROOM]
  }

  /** The component a client reads out of a topic: its third token. */
  function TopicComponent(topic: string): Option<string> {
    var envelope := StrTok(topic, "/");
    var name := StrTok(envelope.1, "/");
    StrTok(name.1, "/").0
  }

  predicate NoWildcards(s: string) {
    '+' !in s && '#' !in s
  }

  /** The longest string that MQTT can transmit (section 1.5.3). */
  const LONGEST_STRING := 65535

  /** The topics the library publishes under: wildcards are for filters only. */
  predicate Publishable(topic: string) {
    NoWildcards(topic) && |topic| <= LONGEST_STRING
  }

  /** In a filter a wildcard is a level of its own, and `#` the last one. */
  predicate ValidLevel(level: string, last: bool) {
    ('+' in level ==> level == "+") && ('#' in level ==> level == "#" && last)
  }

  predicate ValidLevels(levels: seq<string>) {
    forall i | 0 <= i < |levels| :: ValidLevel(levels[i], i == |levels| - 1)
  }

  /** The library takes the client's filter; otherwise `init` fails and the client ends. */
  predicate Subscribes(client: string) {
    ValidLevels(Split(NodeFilter(client)))
  }

  /** A name that makes its own topic level. */
  predicate PlainName(name: string) {
    '/' !in name && NoWildcards(name)
  }

  lemma SplitCons(level: string, rest: string)
    requires '/' !in level
    ensures Split(level) == [level]
    ensures Split(level + "/" + rest) == [level] + Split(rest)
  {
    var s := level + ['/'] + rest;
    StrCSpnAt(level, '/', rest, "/");
    assert s[..|level|] == level && s[|level| + 1..] == rest;
    assert level + "/" + rest == s;
    var n := StrCSpn(level, "/");
  }

  /** The first level of a name stays the first level when more levels follow. */
  lemma SplitHead(name: string, rest: string)
    ensures Split(name + "/" + rest)[0] == Split(name)[0]
  {
    var n := StrCSpn(name, "/");
    if n == |name| {
      SplitCons(name, rest);
    } else {
      var head, tail := name[..n], name[n + 1..];
      assert name[n] == '/';
      assert '/' !in head;
      hide Split, StrCSpn;
      assert name == head + "/" + tail;
      ConcatAssociates(head + "/", tail, "/" + rest);
      ConcatAssociates(tail, "/", rest);
      ConcatAssociates(name, "/", rest);
      SplitCons(head, tail);
      SplitCons(head, tail + "/" + rest);
    }
  }

  lemma FilterLevels(client: string)
    requires '/' !in client && |client| <= LONGEST_NAME
    ensures Split(NodeFilter(client)) == ["envelope", client, "#"]
  {
    hide Split;
    SplitCons("#", "");
    SplitCons(client, "#");
    SplitCons("envelope", client + "/" + "#");
    assert NodeFilter(client) == "envelope" + "/" + (client + "/" + "#");
  }

  function Join(levels: seq<string>): string
    requires levels != []
  {
    if |levels| == 1 then levels[0] else levels[0] + "/" + Join(levels[1..])
  }

  /** The levels of a topic are what its slashes separate. */
  lemma {:induction false} SplitExactly(s: string)
    ensures Join(Split(s)) == s && forall level | level in Split(s) :: '/' !in level
    decreases |s|
  {
    hide StrCSpn;
    var n := StrCSpn(s, "/");
    if n < |s| {
      SplitExactly(s[n + 1..]);
      var rest := Split(s[n + 1..]);
      assert Split(s) == [s[..n]] + rest && Split(s)[1..] == rest;
      assert s == s[..n] + "/" + s[n + 1..];
    }
  }

  /** Level by level; `+` takes any level, a `#` at the end any number of further ones. */
  lemma {:induction false} MatchExactly(filter: seq<string>, topic: seq<string>)
    requires "#" !in filter
    ensures LevelsMatch(filter, topic)
       <==> |filter| == |topic| && forall i | 0 <= i < |filter| :: filter[i] == "+" || filter[i] == topic[i]
    ensures LevelsMatch(filter + ["#"], topic)
       <==> |filter| <= |topic| && forall i | 0 <= i < |filter| :: filter[i] == "+" || filter[i] == topic[i]
  {
    if filter == [] {
      assert filter + ["#"] == ["#"];
    } else {
      assert filter[0] in filter;
      assert filter != ["#"] && (filter + ["#"])[1..] == filter[1..] + ["#"] && (filter + ["#"])[0] == filter[0];
      assert filter + ["#"] != ["#"] by {
        assert |filter + ["#"]| > 1;
      }
      if topic != [] {
        MatchExactly(filter[1..], topic[1..]);
        assert forall i | 1 <= i < |filter| && i < |topic| ::
            filter[i] == filter[1..][i - 1] && topic[i] == topic[1..][i - 1];
        assert forall i | 0 <= i < |filter| - 1 && i < |topic| - 1 ::
            filter[1..][i] == filter[i + 1] && topic[1..][i] == topic[i + 1];
      }
    }
  }

  lemma PlainMeans(name: string)
    requires PlainName(name)
    ensures '/' !in name && name != "+" && name != "#"
  {
    assert "+"[0] == '+' && "#"[0] == '#';
  }

  lemma LevelsOfNode(client: string, rest: seq<string>)
    requires client != "+" && client != "#" && rest != []
    ensures LevelsMatch(["envelope", client, "#"], ["envelope"] + rest) <==> rest[0] == client
  {
    var filter, topic := ["envelope", client, "#"], ["envelope"] + rest;
    assert topic[1..] == rest;
    assert filter[1..] == [client, "#"] && filter[1..][1..] == ["#"];
    assert LevelsMatch(["#"], rest[1..]);
    assert [client, "#"] != ["#"];
    assert filter != ["#"] by {
      assert |filter| == 3;
    }
  }

  /** A filter for one name matches the topics below `envelope` whose next level is that name. */
  lemma MatchesFirstLevel(client: string, rest: string)
    requires PlainName(client) && |client| <= LONGEST_NAME
    ensures Matches(NodeFilter(client), "envelope/" + rest) <==> Split(rest)[0] == client
  {
    hide Split, LevelsMatch, NodeFilter, PlainName;
    PlainMeans(client);
    FilterLevels(client);
    SplitCons("envelope", rest);
    assert "envelope/" + rest == "envelope" + "/" + rest;
    LevelsOfNode(client, Split(rest));
  }

  // ---------- Filters that do not fit ----------

  /** What can be published: a target and a component without wildcards, together not too long. */
  lemma PublishableExactly(target: string, component: Option<string>)
    ensures Publishable(FaultTopic(target, component))
       <==> && NoWildcards(target) && (component.Some? ==> NoWildcards(component.value))
            && |target| + (if component.Some? then 1 + |component.value| else 0) <= LONGEST_STRING - 9
  {
    var topic := FaultTopic(target, component);
    assert forall i | 0 <= i < |target| :: topic[9 + i] == target[i];
    if component.Some? {
      assert forall i | 0 <= i < |component.value| :: topic[9 + |target| + 1 + i] == component.value[i];
    }
    assert forall c | c in "envelope/" :: c != '+' && c != '#';
  }

  lemma BackPublishable(client: string)
    ensures Publishable(BackTopic(client)) <==> NoWildcards(client) && |client| <= LONGEST_STRING - 16
  {
    var topic := BackTopic(client);
    assert forall i | 0 <= i < |client| :: topic[16 + i] == client[i];
    assert forall c | c in "envelope/master/" :: c != '+' && c != '#';
  }

  lemma ExternPublishable()
    ensures Publishable(EXTERN_TOPIC)
  {
  }

  /** What is left of a longer name's filter, behind `envelope`: it matches nothing but itself. */
  function CutLevels(client: string): seq<string>
    requires |client| > LONGEST_NAME
  {
    if |client| == LONGEST_NAME + 1 then [client, ""] else [client[..LONGEST_NAME + 2]]
  }

  lemma CutFilterLevels(client: string)
    requires '/' !in client && |client| > LONGEST_NAME
    ensures Split(NodeFilter(client)) == ["envelope"] + CutLevels(client)
  {
    hide Split;
    if |client| == LONGEST_NAME + 1 {
      assert NodeFilter(client) == "envelope" + "/" + (client + "/" + "");
      SplitCons("", "");
      SplitCons(client, "");
      SplitCons("envelope", client + "/" + "");
    } else {
      var part := client[..LONGEST_NAME + 2];
      assert NodeFilter(client) == "envelope" + "/" + part;
      SplitCons(part, "");
      SplitCons("envelope", part);
    }
  }

  /** A filter without wildcards matches exactly the topic that is spelled like it. */
  lemma {:induction false} WithoutWildcards(filter: seq<string>, topic: seq<string>)
    requires "#" !in filter && "+" !in filter
    ensures LevelsMatch(filter, topic) <==> filter == topic
  {
    if filter != [] {
      assert filter[0] in filter;
      assert filter != ["#"];
      if topic != [] {
        WithoutWildcards(filter[1..], topic[1..]);
        assert filter == [filter[0]] + filter[1..] && topic == [topic[0]] + topic[1..];
      }
    }
  }

  lemma MatchesCutLevels(client: string, rest: string)
    requires PlainName(client) && |client| > LONGEST_NAME
    ensures Matches(NodeFilter(client), "envelope/" + rest) <==> Split(rest) == CutLevels(client)
  {
    hide Split, NodeFilter, PlainName;
    PlainMeans(client);
    CutFilterLevels(client);
    SplitCons("envelope", rest);
    assert "envelope/" + rest == "envelope" + "/" + rest;
    WithoutWildcards(["envelope"] + CutLevels(client), ["envelope"] + Split(rest));
    assert (["envelope"] + Split(rest))[1..] == Split(rest);
    assert (["envelope"] + CutLevels(client))[1..] == CutLevels(client);
  }

  lemma SplitEmpty(s: string)
    ensures Split(s) == [""] <==> s == ""
  {
  }

  /** The part of a client's name that is left in its filter. */
  function FilterName(client: string): string {
    if |client| <= LONGEST_NAME + 2 then client else client[..LONGEST_NAME + 2]
  }

  /**
   Which names of one level get a client through its subscription: `+`, which subscribes to
   everything, and those whose filter, cut or not, has no wildcard in the name.
   */
  lemma SubscribesExactly(client: string)
    requires '/' !in client
    ensures Subscribes(client) <==> client == "+" || NoWildcards(FilterName(client))
  {
    hide Split, NodeFilter, ValidLevel, NoWildcards;
    if |client| <= LONGEST_NAME {
      FilterLevels(client);
      ThreeLevels(client, "#");
    } else {
      CutFilterLevels(client);
      if |client| == LONGEST_NAME + 1 {
        assert ["envelope"] + CutLevels(client) == ["envelope", client, ""];
        ThreeLevels(client, "");
      } else {
        assert client[..|client|] == client && |"+"| < |client|;
        LastLevel(client[..LONGEST_NAME + 2]);
      }
    }
  }

  lemma ThreeLevels(name: string, last: string)
    requires last == "" || last == "#"
    ensures ValidLevels(["envelope", name, last]) <==> name == "+" || NoWildcards(name)
  {
    var levels := ["envelope", name, last];
    assert ValidLevel("envelope", false) && ValidLevel(last, true);
    assert "+"[0] == '+' && "+" == ['+'];
    assert levels[1] == name;
  }

  lemma LastLevel(name: string)
    requires |name| > 1
    ensures ValidLevels(["envelope"] + [name]) <==> NoWildcards(name)
  {
    var levels := ["envelope"] + [name];
    assert ValidLevel("envelope", false);
    assert levels[1] == name && |levels| == 2;
  }

  lemma PlainSubscribes(client: string)
    requires PlainName(client)
    ensures Subscribes(client)
  {
    hide Subscribes;
    SubscribesExactly(client);
  }

  /** Which faults reach a client whose filter fits: those of its node. */
  lemma FaultRoutingFits(client: string, target: string, component: Option<string>)
    requires PlainName(client) && |client| <= LONGEST_NAME
    ensures Matches(NodeFilter(client), FaultTopic(target, component)) <==> Split(target)[0] == client
  {
    hide Matches, PlainName, NodeFilter, Split;
    match component
    case None =>
      MatchesFirstLevel(client, target);
      assert FaultTopic(target, component) == "envelope/" + target;
    case Some(c) =>
      MatchesFirstLevel(client, target + "/" + c);
      SplitHead(target, c);
      assert FaultTopic(target, component) == "envelope/" + (target + "/" + c);
  }

  /** One character too long, and only an empty component gets through; longer, and only no component. */
  lemma FaultRoutingCut(client: string, target: string, component: Option<string>)
    requires PlainName(client) && |client| > LONGEST_NAME && '/' !in target
    ensures Matches(NodeFilter(client), FaultTopic(target, component))
       <==> if |client| == LONGEST_NAME + 1 then target == client && component == Some("")
            else target == client[..LONGEST_NAME + 2] && component == None
  {
    hide Matches, PlainName, NodeFilter, Split;
    SplitCons(target, "");
    match component
    case None =>
      MatchesCutLevels(client, target);
      assert FaultTopic(target, component) == "envelope/" + target;
    case Some(c) =>
      MatchesCutLevels(client, target + "/" + c);
      assert FaultTopic(target, component) == "envelope/" + (target + "/" + c);
      SplitCons(target, c);
      SplitEmpty(c);
      assert ([target] + Split(c))[1..] == Split(c) && ([target] + Split(c))[0] == target;
      if |client| == LONGEST_NAME + 1 {
        assert [client, ""][1..] == [""] && [client, ""] == [client] + [""];
      }
  }

  /**
   A fault reaches the client of its node, and no other one, if the client's filter fits. A
   longer filter has lost its `#`: the client misses faults of its own node and may take over
   those of a shorter name.
   */
  lemma FaultRouting(client: string, target: string, component: Option<string>)
    requires PlainName(client)
    ensures Subscribes(client)
    ensures |client| <= LONGEST_NAME ==>
              (Matches(NodeFilter(client), FaultTopic(target, component)) <==> Split(target)[0] == client)
    ensures '/' !in target ==>
              (Matches(NodeFilter(client), FaultTopic(target, component))
               <==> if |client| <= LONGEST_NAME then target == client
                    else if |client| == LONGEST_NAME + 1 then target == client && component == Some("")
                    else target == client[..LONGEST_NAME + 2] && component == None)
  {
    PlainSubscribes(client);
    hide Matches, PlainName, NodeFilter, FaultTopic, Subscribes;
    if |client| <= LONGEST_NAME {
      FaultRoutingFits(client, target, component);
      if '/' !in target {
        SplitCons(target, "");
      }
    } else if '/' !in target {
      FaultRoutingCut(client, target, component);
    }
  }

  /** The levels of the topics that are published under. */
  lemma TopicLevels(name: string, component: string)
    requires '/' !in name
    ensures Split(FaultTopic(name, None)) == ["envelope", name]
    ensures Split(FaultTopic(name, Some(component))) == ["envelope", name] + Split(component)
    ensures Split(BackTopic(name)) == ["envelope", "master", name]
  {
    hide Split;
    SplitCons(name, component);
    SplitCons("envelope", name);
    SplitCons("envelope", name + "/" + component);
    SplitCons("master", name);
    SplitCons("envelope", "master" + "/" + name);
    assert FaultTopic(name, None) == "envelope" + "/" + name;
    assert FaultTopic(name, Some(component)) == "envelope" + "/" + (name + "/" + component);
    assert BackTopic(name) == "envelope" + "/" + ("master" + "/" + name);
  }

  lemma BackLevels(reporter: string)
    ensures BackTopic(reporter) == "envelope/" + ("master" + "/" + reporter)
    ensures Split("master" + "/" + reporter)[0] == "master"
  {
    hide Split;
    SplitCons("master", reporter);
  }

  lemma ExternLevels()
    ensures EXTERN_TOPIC == "envelope/" + "lausim" && Split("lausim") == ["lausim"]
  {
    SplitCons("lausim", "");
  }

  /** The server hears everything below `envelope/master`: all reports, and faults of a node so named. */
  lemma ServerRouting(reporter: string, target: string, component: Option<string>)
    ensures Matches(SERVER_FILTER, BackTopic(reporter))
    ensures Matches(SERVER_FILTER, FaultTopic(target, component)) <==> Split(target)[0] == "master"
    ensures !Matches(SERVER_FILTER, EXTERN_TOPIC)
  {
    hide Matches, Split, FaultTopic, BackTopic;
    assert NodeFilter("master") == SERVER_FILTER;
    BackLevels(reporter);
    MatchesFirstLevel("master", "master" + "/" + reporter);
    FaultRouting("master", target, component);
    ExternLevels();
    MatchesFirstLevel("master", "lausim");
  }

  lemma OtherRouting(client: string, reporter: string)
    requires PlainName(client)
    ensures Matches(NodeFilter(client), EXTERN_TOPIC) <==> client == "lausim"
    ensures Matches(NodeFilter(client), BackTopic(reporter)) <==> client == "master"
  {
    hide Matches, PlainName, Split, BackTopic, NodeFilter;
    ExternLevels();
    BackLevels(reporter);
    if |client| <= LONGEST_NAME {
      MatchesFirstLevel(client, "lausim");
      MatchesFirstLevel(client, "master" + "/" + reporter);
    } else {
      MatchesCutLevels(client, "lausim");
      MatchesCutLevels(client, "master" + "/" + reporter);
      assert |CutLevels(client)[0]| > |"lausim"| == |"master"|;
    }
  }

  /** Everything that is published: faults, news for external programs, reports of clients. */
  datatype Publication =
    | FaultOf(target: string, component: Option<string>)
    | News
    | ReportOf(reporter: string)

  function TopicOf(p: Publication): string {
    match p
    case FaultOf(target, component) => FaultTopic(target, component)
    case News => EXTERN_TOPIC
    case ReportOf(reporter) => BackTopic(reporter)
  }

  /** Of everything that can be published, the client hears the faults addressed to it and nothing else. */
  ghost predicate HearsItsOwn(client: string) {
    forall p: Publication | Publishable(TopicOf(p)) && (p.FaultOf? ==> '/' !in p.target) ::
      Matches(NodeFilter(client), TopicOf(p)) <==> p.FaultOf? && p.target == client
  }

  // ---------- Names of several levels ----------

  /** The fault whose topic ends like this. */
  function FaultNamed(rest: string): Publication {
    var n := StrCSpn(rest, "/");
    if n == |rest| then FaultOf(rest, None) else FaultOf(rest[..n], Some(rest[n + 1..]))
  }

  lemma TopicOfFaultNamed(rest: string)
    ensures var p := FaultNamed(rest);
            p.FaultOf? && '/' !in p.target && TopicOf(p) == "envelope/" + rest
  {
    hide StrCSpn;
    var n := StrCSpn(rest, "/");
    if n < |rest| {
      assert rest == rest[..n] + "/" + rest[n + 1..];
    }
  }

  lemma {:induction false} SplitSnoc(s: string)
    ensures Split(s + "/#") == Split(s) + ["#"]
    decreases |s|
  {
    var n := StrCSpn(s, "/");
    hide StrCSpn;
    if n == |s| {
      assert s + "/#" == s + "/" + "#";
      SplitCons(s, "#");
      SplitCons("#", "");
    } else {
      var head, tail := s[..n], s[n + 1..];
      assert s == head + "/" + tail && s + "/#" == head + "/" + (tail + "/#");
      assert '/' !in head;
      SplitSnoc(tail);
      hide Split;
      SplitCons(head, tail);
      SplitCons(head, tail + "/#");
      ConcatAssociates([head], Split(tail), ["#"]);
    }
  }

  /** A filter selects the topic spelled like it, and with `#` behind it its parent level. */
  lemma {:induction false} MatchesItself(levels: seq<string>)
    ensures LevelsMatch(levels, levels) && LevelsMatch(levels + ["#"], levels)
  {
    if levels == [] {
      assert levels + ["#"] == ["#"];
    } else {
      MatchesItself(levels[1..]);
      HeadOfAppend(levels, ["#"]);
      assert levels + ["#"] != ["#"] by {
        assert |levels + ["#"]| > 1;
      }
    }
  }

  /** The topic that ends like the client's filter, as far as the name goes. */
  function OwnTopic(client: string): (rest: string) {
    if |client| <= LONGEST_NAME then client else (client + "/")[..LONGEST_NAME + 2]
  }

  lemma OwnTopicMatches(client: string)
    ensures Matches(NodeFilter(client), "envelope/" + OwnTopic(client))
  {
    hide Split, LevelsMatch;
    var topic := "envelope/" + OwnTopic(client);
    if |client| <= LONGEST_NAME {
      assert NodeFilter(client) == topic + "/#";
      SplitSnoc(topic);
    } else {
      assert NodeFilter(client) == topic;
    }
    MatchesItself(Split(topic));
  }

  lemma OwnTopicPublishable(client: string)
    requires NoWildcards(client)
    ensures Publishable("envelope/" + OwnTopic(client))
  {
    var rest := OwnTopic(client);
    assert forall i | 0 <= i < |rest| :: rest[i] in client || rest[i] == '/';
    assert NoWildcards(rest);
    assert NoWildcards("envelope/");
  }

  /** A name of several levels makes its client hear a fault of another name. */
  lemma SeveralLevels(client: string)
    requires '/' in client && NoWildcards(client)
    ensures !HearsItsOwn(client)
  {
    hide Matches, NodeFilter, OwnTopic, FaultNamed, Publishable, NoWildcards;
    OwnTopicMatches(client);
    OwnTopicPublishable(client);
    TopicOfFaultNamed(OwnTopic(client));
    var p := FaultNamed(OwnTopic(client));
    assert Matches(NodeFilter(client), TopicOf(p)) && p.target != client;
  }

  /**
   A client gets through its subscription and its report, and hears the faults addressed to it
   and nothing else -- if and only if its name is one topic level without wildcards, not
   `lausim`, where news for external programs goes, not `master`, the back channel, and has no
   more than 499 characters.
   */
  lemma Isolation(client: string)
    ensures Subscribes(client) && Publishable(BackTopic(client)) && HearsItsOwn(client)
       <==> PlainName(client) && client != "lausim" && client != "master" && |client| <= LONGEST_NAME
  {
    if !NoWildcards(client) {
      BackPublishable(client);
    } else if '/' in client {
      SeveralLevels(client);
    } else if |client| > LONGEST_NAME {
      LongName(client);
    } else if client == "lausim" || client == "master" {
      TakenName(client);
    } else {
      GoodName(client);
    }
  }

  lemma LongName(client: string)
    requires PlainName(client) && |client| > LONGEST_NAME
    ensures !HearsItsOwn(client)
  {
    PlainMeans(client);
    var p :=
      if |client| == LONGEST_NAME + 1 then FaultOf(client, None)
      else if |client| == LONGEST_NAME + 2 then FaultOf(client, Some("net"))
      else FaultOf(client[..LONGEST_NAME + 2], None);
    PublishableExactly(p.target, p.component);
    assert NoWildcards(p.target) && '/' !in p.target && client[..|client|] == client;
    assert p.component.Some? ==> NoWildcards(p.component.value);
    hide Matches, NodeFilter, PlainName, NoWildcards, Publishable, FaultTopic;
    FaultRouting(client, p.target, p.component);
    assert Publishable(TopicOf(p));
  }

  lemma TakenName(client: string)
    requires client == "lausim" || client == "master"
    ensures !HearsItsOwn(client)
  {
    BackPublishable("");
    ExternPublishable();
    assert PlainName(client);
    hide Matches, NodeFilter, Publishable, BackTopic, PlainName;
    OtherRouting(client, "");
    var p := if client == "lausim" then News else ReportOf("");
    assert Matches(NodeFilter(client), TopicOf(p)) && !p.FaultOf?;
  }

  lemma GoodName(client: string)
    requires PlainName(client) && client != "lausim" && client != "master" && |client| <= LONGEST_NAME
    ensures Subscribes(client) && Publishable(BackTopic(client)) && HearsItsOwn(client)
  {
    PlainSubscribes(client);
    BackPublishable(client);
    hide Matches, PlainName, FaultTopic, BackTopic, NodeFilter, Publishable, Subscribes;
    forall p: Publication | Publishable(TopicOf(p)) && (p.FaultOf? ==> '/' !in p.target)
      ensures Matches(NodeFilter(client), TopicOf(p)) <==> p.FaultOf? && p.target == client
    {
      match p
      case FaultOf(target, component) => FaultRouting(client, target, component);
      case News => OtherRouting(client, "");
      case ReportOf(reporter) => OtherRouting(client, reporter);
    }
  }

  /** What a client reads out of a topic is the first token of the published component. */
  lemma ComponentRead(target: string, component: Option<string>)
    requires target != "" && '/' !in target
    ensures TopicComponent(FaultTopic(target, component))
         == if component.Some? then StrTok(component.value, "/").0 else None
  {
    hide StrTok;
    match component
    case None =>
      StrTokAt("envelope", '/', target, "/");
      assert FaultTopic(target, component) == "envelope" + ['/'] + target;
      StrTokLast(target);
      StrTokNone();
    case Some(c) =>
      StrTokAt("envelope", '/', target + ['/'] + c, "/");
      assert FaultTopic(target, component) == "envelope" + ['/'] + (target + ['/'] + c);
      StrTokAt(target, '/', c, "/");
  }

  lemma StrTokLast(token: string)
    requires token != "" && '/' !in token
    ensures StrTok(token, "/") == (Some(token), "")
  {
    assert token[0] in token;
    assert StrSpn(token, "/") == 0;
    assert token[0..] == token;
    var n := StrCSpn(token, "/");
    assert n == |token|;
    assert token[..|token|] == token;
  }

  lemma StrTokNone()
    ensures StrTok("", "/") == (None, "")
  {
  }

  /** The component survives exactly when it is absent or a plain, non-empty topic level. */
  lemma ComponentExactly(target: string, component: Option<string>)
    requires target != "" && '/' !in target
    ensures TopicComponent(FaultTopic(target, component)) == component
       <==> (component.Some? ==> component.value != "" && '/' !in component.value)
  {
    hide StrTok;
    ComponentRead(target, component);
    if component.Some? {
      if component.value != "" && '/' !in component.value {
        StrTokLast(component.value);
      }
    }
  }
}
