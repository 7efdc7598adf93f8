/** What every reachable state of the synchronised start satisfies. */
module SyncSafety {
  import opened Sequences
  import opened Delivery
  import opened Topics
  import opened Server
  import opened SyncStart

  /** Node names that are topic levels of their own, not used by the system itself, and not too long. */
  predicate UsableName(name: string) {
    name != "" && PlainName(name) && name != "lausim" && name != "master" && |name| <= LONGEST_NAME
  }

  /** A usable name with no other name of the table below its topic level. */
  predicate OwnName(names: seq<string>, client: string) {
    UsableName(client) && forall n | n in names :: Split(n)[0] == client ==> n == client
  }

  /** The messages a client's filter selects. */
  function Heard(client: string, messages: seq<Message>): seq<Message> {
    if messages == [] then []
    else (if Matches(NodeFilter(client), messages[0].topic) then [messages[0]] else []) + Heard(client, messages[1..])
  }

  lemma HeardOne(client: string, m: Message)
    ensures Heard(client, [m]) == if Matches(NodeFilter(client), m.topic) then [m] else []
  {
  }

  lemma {:induction false} HeardAppend(client: string, a: seq<Message>, b: seq<Message>)
    ensures Heard(client, a + b) == Heard(client, a) + Heard(client, b)
  {
    hide Matches;
    if a == [] {
      assert a + b == b;
    } else {
      HeadOfAppend(a, b);
      HeardAppend(client, a[1..], b);
      var first := if Matches(NodeFilter(client), a[0].topic) then [a[0]] else [];
      ConcatAssociates(first, Heard(client, a[1..]), Heard(client, b));
    }
  }

  lemma {:induction false} AcceptedAppend(a: seq<Message>, b: seq<Message>)
    ensures Accepted(a + b) == Accepted(a) + Accepted(b)
  {
    hide Publishable;
    if a == [] {
      assert a + b == b;
    } else {
      HeadOfAppend(a, b);
      AcceptedAppend(a[1..], b);
      ConcatAssociates(if Publishable(a[0].topic) then [a[0]] else [], Accepted(a[1..]), Accepted(b));
    }
  }

  /** A fault whose topic lies below the client's and can be published. */
  predicate IsFor(client: string, f: Record) {
    Split(f.node)[0] == client && Publishable(FaultTopic(f.node, f.component))
  }

  function Addressed(client: string, faults: seq<Record>): seq<Record> {
    if faults == [] then []
    else (if IsFor(client, faults[0]) then [faults[0]] else []) + Addressed(client, faults[1..])
  }

  lemma {:induction false} AddressedAppend(client: string, a: seq<Record>, b: seq<Record>)
    ensures Addressed(client, a + b) == Addressed(client, a) + Addressed(client, b)
  {
    hide IsFor;
    if a == [] {
      assert a + b == b;
    } else {
      HeadOfAppend(a, b);
      AddressedAppend(client, a[1..], b);
      var first := if IsFor(client, a[0]) then [a[0]] else [];
      ConcatAssociates(first, Addressed(client, a[1..]), Addressed(client, b));
    }
  }

  /** Of the messages for faults a client hears those for the faults addressed to it. */
  lemma {:induction false} HeardFaults(client: string, faults: seq<Record>)
    requires UsableName(client)
    ensures Heard(client, Accepted(Map(FaultMessage, faults))) == Map(FaultMessage, Addressed(client, faults))
  {
    hide FaultMessage, UsableName, IsFor, Heard, Accepted;
    if faults == [] {
      NothingHeard(client);
      assert Map(FaultMessage, faults) == [] && Map(FaultMessage, Addressed(client, faults)) == [];
    } else {
      HeardFaults(client, faults[1..]);
      HeardFault(client, faults[0]);
      MapCons(FaultMessage, faults);
      var behind := Map(FaultMessage, faults[1..]);
      AcceptedAppend([FaultMessage(faults[0])], behind);
      HeardAppend(client, Accepted([FaultMessage(faults[0])]), Accepted(behind));
      MapAppend(FaultMessage, if IsFor(client, faults[0]) then [faults[0]] else [], Addressed(client, faults[1..]));
    }
  }

  lemma NothingHeard(client: string)
    ensures Heard(client, []) == [] && Accepted([]) == []
  {
  }

  lemma HeardFault(client: string, f: Record)
    requires UsableName(client)
    ensures Heard(client, Accepted([FaultMessage(f)]))
         == Map(FaultMessage, if IsFor(client, f) then [f] else [])
  {
    hide Matches, Split, FaultTopic, UsableName, PlainName, Publishable;
    UsableIsPlain(client);
    FaultRouting(client, f.node, f.component);
    var m := FaultMessage(f);
    assert Accepted([m]) == if Publishable(m.topic) then [m] else [];
    NothingHeard(client);
    HeardOne(client, m);
    assert Map(FaultMessage, [f]) == [m];
  }

  lemma UsableIsPlain(name: string)
    requires UsableName(name)
    ensures PlainName(name) && name != "" && name != "lausim" && name != "master" && |name| <= LONGEST_NAME
    ensures NoWildcards(name) && Split(name)[0] == name
  {
    hide Split;
    PlainMeans(name);
    SplitCons(name, "");
  }

  lemma HeardInTic(client: string, faults: seq<Record>)
    requires UsableName(client)
    ensures Heard(client, Accepted(TicMessages(faults))) == Map(FaultMessage, Addressed(client, faults))
  {
    hide Matches, UsableName, NodeFilter, Publishable, FaultMessage, Heard, Accepted, Addressed;
    UsableIsPlain(client);
    HeardFaults(client, faults);
    if faults == [] {
      assert TicMessages(faults) == Map(FaultMessage, faults);
    } else {
      var news := [Message(EXTERN_TOPIC, Announcement)];
      AcceptedAppend(Map(FaultMessage, faults), news);
      HeardAppend(client, Accepted(Map(FaultMessage, faults)), Accepted(news));
      NewsPassesBy(client);
    }
  }

  lemma NewsPassesBy(client: string)
    requires UsableName(client)
    ensures Heard(client, Accepted([Message(EXTERN_TOPIC, Announcement)])) == []
  {
    hide Matches, UsableName, NodeFilter;
    UsableIsPlain(client);
    OtherRouting(client, "");
    HeardOne(client, Message(EXTERN_TOPIC, Announcement));
    NothingHeard(client);
  }

  // ---------- The invariant ----------

  /** A client's packets are taken in order: its filter first, then its report. */
  predicate ConnectionOk(client: string, n: Node) {
    (n.phase != Off ==> Subscribes(client)) &&
    match n.phase
    case Off => n.up == [] && !n.subscribed
    case Connected => if n.subscribed then n.up == [] else n.up == [Subscribe]
    case Reported =>
      if n.subscribed then n.up == [] || n.up == ReportPackets(client) else n.up == [Subscribe] + ReportPackets(client)
  }

  /** The library lets a client of this name subscribe and report. */
  predicate CanReport(client: string) {
    Subscribes(client) && Publishable(BackTopic(client))
  }

  predicate IsReady(s: System, client: string) {
    && client in s.nodes && s.nodes[client].phase == Reported && s.nodes[client].subscribed
    && CanReport(client)
  }

  predicate NoReports(messages: seq<Message>) {
    forall m | m in messages :: !m.body.Report?
  }

  /** Reports under way to the server come from clients that are subscribed. */
  predicate ReportsOk(s: System) {
    && NoReports(s.outbox) && NoReports(s.toBroker)
    && forall m | m in s.toServer :: m.body.Report? ==> IsReady(s, m.body.client)
  }

  predicate StatesOk(names: seq<string>, s: System)
    requires |s.states| == |names|
  {
    forall i | 0 <= i < |names| :: s.states[i] == READY ==> IndexOf(names, names[i]) == i && IsReady(s, names[i])
  }

  /** Started with every node ready ... */
  predicate Started(names: seq<string>, s: System) {
    NoRepeats(names) && forall n | n in names :: IsReady(s, n)
  }

  /** ... or because termination was requested, and then no tic ever runs. */
  predicate Stopped(s: System) {
    s.termreq && s.tics == 0 && s.faults == []
  }

  predicate PhaseOk(names: seq<string>, s: System) {
    if s.phase == Running then
      s.notices == Map(SyncNotice, names) + s.faults && (Started(names, s) || Stopped(s))
    else
      && s.sent == [] && s.outbox == [] && s.toBroker == []
      && s.notices == [] && s.faults == [] && s.tics == 0
  }

  /** What has been heard or will be, of the messages already published. */
  function Pipe(client: string, n: Node, toBroker: seq<Message>): seq<Message> {
    n.received + n.down + Heard(client, toBroker)
  }

  predicate OnlySyncs(client: string, messages: seq<Message>, bound: nat) {
    |messages| <= bound && forall m | m in messages :: m == FaultMessage(SyncNotice(client))
  }

  predicate DeliveryOk(names: seq<string>, s: System, client: string)
    requires client in s.nodes
  {
    var n := s.nodes[client];
    var pipe := Pipe(client, n, s.toBroker);
    && Heard(client, s.sent + Accepted(s.outbox)) == Map(FaultMessage, Addressed(client, s.notices))
    && if s.phase != Running then pipe == []
       else
         || (n.subscribed && pipe == Heard(client, s.sent))
         || (Stopped(s) && OnlySyncs(client, pipe, |Heard(client, s.sent)|))
  }

  predicate Inv(names: seq<string>, s: System)
    requires |s.states| == |names|
  {
    && (forall c | c in s.nodes :: ConnectionOk(c, s.nodes[c]))
    && ReportsOk(s) && StatesOk(names, s) && PhaseOk(names, s)
    && forall c | c in s.nodes && c in names && OwnName(names, c) :: DeliveryOk(names, s, c)
  }

  // ---------- Every step keeps it ----------

  /** Clients do not disappear and do not stop being ready. */
  predicate Grows(s: System, t: System) {
    s.nodes.Keys == t.nodes.Keys && forall c | c in s.nodes :: IsReady(s, c) ==> IsReady(t, c)
  }

  lemma ReadyNodesGrow(names: seq<string>, s: System, t: System)
    requires Grows(s, t)
    ensures Started(names, s) ==> Started(names, t)
    ensures |s.states| == |names| && t.states == s.states && StatesOk(names, s) ==> StatesOk(names, t)
  {
    hide NoRepeats;
  }

  lemma KeepPhaseSteps(names: seq<string>, s: System, a: Action)
    requires |s.states| == |names| && Inv(names, s) && a in {SetCallback, LoadNodes, Terminate}
    ensures Inv(names, Next(names, s, a))
  {
    hide ConnectionOk, Heard, Pipe, Addressed, OnlySyncs, NoRepeats;
  }

  lemma AllReadyIsStarted(names: seq<string>, s: System)
    requires |s.states| == |names| && StatesOk(names, s) && AllReady(s.states)
    ensures Started(names, s)
  {
    forall i, j | 0 <= i < j < |names| ensures names[i] != names[j] {
      assert IndexOf(names, names[j]) == j;
    }
  }

  lemma StartOne(names: seq<string>, s: System, client: string)
    requires OwnName(names, client) && |s.states| == |names| && Inv(names, s)
    requires s.phase == Waiting && (s.termreq || AllReady(s.states)) && client in s.nodes && client in names
    ensures DeliveryOk(names, Next(names, s, CheckReady), client)
  {
    hide ConnectionOk, StatesOk, ReportsOk, Addressed, NoRepeats, UsableName, FaultMessage;
    var t := Next(names, s, CheckReady);
    if AllReady(s.states) {
      AllReadyIsStarted(names, s);
    }
    assert t.sent + Accepted(t.outbox) == Accepted(t.outbox);
    HeardFaults(client, t.notices);
    assert DeliveryOk(names, s, client);
    assert Heard(client, []) == [];
  }

  lemma KeepCheckReady(names: seq<string>, s: System)
    requires |s.states| == |names| && Inv(names, s)
    ensures Inv(names, Next(names, s, CheckReady))
  {
    hide ConnectionOk, DeliveryOk, NoRepeats, UsableName, IndexOf;
    if s.phase == Waiting && (s.termreq || AllReady(s.states)) {
      var t := Next(names, s, CheckReady);
      if AllReady(s.states) {
        AllReadyIsStarted(names, s);
      }
      assert t.notices == t.notices + [];
      forall c | c in t.nodes && c in names && OwnName(names, c) ensures DeliveryOk(names, t, c) {
        StartOne(names, s, c);
      }
    }
  }

  lemma KeepDoTic(names: seq<string>, s: System, faults: seq<Record>)
    requires |s.states| == |names| && Inv(names, s)
    ensures Inv(names, Next(names, s, DoTic(faults)))
  {
    hide ConnectionOk, Heard, Addressed, NoRepeats, UsableName, IndexOf, TicMessages, Pipe;
    if s.phase == Running && s.outbox == [] && !s.termreq {
      var t := Next(names, s, DoTic(faults));
      assert t.notices == Map(SyncNotice, names) + t.faults;
      TicHasNoReports(faults);
      forall c | c in t.nodes && c in names && OwnName(names, c) ensures DeliveryOk(names, t, c) {
        assert DeliveryOk(names, s, c);
        NothingHeard(c);
        assert s.sent + Accepted(s.outbox) == s.sent;
        HeardAppend(c, s.sent, Accepted(TicMessages(faults)));
        HeardInTic(c, faults);
        AddressedAppend(c, s.notices, faults);
        MapAppend(FaultMessage, Addressed(c, s.notices), Addressed(c, faults));
      }
    }
  }

  lemma TicHasNoReports(faults: seq<Record>)
    ensures NoReports(TicMessages(faults))
  {
  }

  /** Of the starting signals only its own is for a client, and that one can be published. */
  lemma SyncIsFor(client: string, name: string)
    requires UsableName(client) && (Split(name)[0] == client ==> name == client)
    ensures IsFor(client, SyncNotice(name)) <==> name == client
  {
    hide Split, FaultTopic, Publishable, PlainName;
    UsableIsPlain(client);
    PublishableExactly(client, SyncNotice(client).component);
  }

  /** Before any tic the only messages a client can hear are starting signals. */
  lemma {:induction false} AddressedSyncs(client: string, names: seq<string>, f: Record)
    requires OwnName(names, client) && f in Addressed(client, Map(SyncNotice, names))
    ensures f == SyncNotice(client)
  {
    hide IsFor, UsableName, Split;
    var notices := Map(SyncNotice, names);
    assert notices[1..] == Map(SyncNotice, names[1..]);
    SyncIsFor(client, names[0]);
    if f in Addressed(client, notices[1..]) {
      AddressedSyncs(client, names[1..], f);
    }
  }

  lemma HeardSyncs(client: string, names: seq<string>, messages: seq<Message>, m: Message)
    requires OwnName(names, client) && m in messages
    requires messages == Map(FaultMessage, Addressed(client, Map(SyncNotice, names)))
    ensures m == FaultMessage(SyncNotice(client))
  {
    hide Addressed, OwnName, FaultMessage;
    var faults := Addressed(client, Map(SyncNotice, names));
    var i :| 0 <= i < |messages| && messages[i] == m;
    AddressedSyncs(client, names, faults[i]);
  }

  lemma NextSyncs(client: string, names: seq<string>, before: seq<Message>, next: seq<Message>, behind: seq<Message>)
    requires OwnName(names, client)
    requires before + next + behind == Map(FaultMessage, Addressed(client, Map(SyncNotice, names)))
    ensures forall x | x in next :: x == FaultMessage(SyncNotice(client))
  {
    hide Addressed, OwnName, FaultMessage;
    forall x | x in next ensures x == FaultMessage(SyncNotice(client)) {
      HeardSyncs(client, names, before + next + behind, x);
    }
  }

  lemma PublishedInTurn(s: System, t: System)
    requires s.outbox != [] && t.outbox == s.outbox[1..] && t.sent == s.sent + Accepted(s.outbox[..1])
    ensures t.sent + Accepted(t.outbox) == s.sent + Accepted(s.outbox)
  {
    hide Accepted;
    AcceptedAppend(s.outbox[..1], s.outbox[1..]);
    assert s.outbox[..1] + s.outbox[1..] == s.outbox;
  }

  lemma PublishOne(names: seq<string>, s: System, t: System, client: string)
    requires OwnName(names, client) && |s.states| == |names| && PhaseOk(names, s)
    requires client in s.nodes && DeliveryOk(names, s, client)
    requires s.outbox != [] && t == Next(names, s, PublishNext) && client in t.nodes
    ensures DeliveryOk(names, t, client)
  {
    hide Heard, Addressed, NoRepeats, OwnName, FaultMessage, Accepted;
    var n, m := s.nodes[client], Accepted(s.outbox[..1]);
    PublishedInTurn(s, t);
    HeardAppend(client, s.toBroker, m);
    HeardAppend(client, s.sent, m);
    ConcatAssociates(n.received + n.down, Heard(client, s.toBroker), Heard(client, m));
    if Stopped(s) {
      hide Pipe, Next;
      assert s.notices == Map(SyncNotice, names) + [];
      assert s.notices == Map(SyncNotice, names);
      HeardAppend(client, t.sent, Accepted(t.outbox));
      NextSyncs(client, names, Heard(client, s.sent), Heard(client, m), Heard(client, Accepted(t.outbox)));
    }
  }

  lemma OneAccepted(messages: seq<Message>)
    requires messages != []
    ensures Accepted(messages[..1]) == if Publishable(messages[0].topic) then [messages[0]] else []
    ensures messages[0] in messages
  {
    hide Publishable;
    assert messages[..1][1..] == [];
  }

  lemma KeepPublishNext(names: seq<string>, s: System)
    requires |s.states| == |names| && Inv(names, s)
    ensures Inv(names, Next(names, s, PublishNext))
  {
    hide ConnectionOk, DeliveryOk, NoRepeats, UsableName, IndexOf, Accepted;
    if s.outbox != [] {
      var t := Next(names, s, PublishNext);
      OneAccepted(s.outbox);
      forall c | c in t.nodes && c in names && OwnName(names, c) ensures DeliveryOk(names, t, c) {
        PublishOne(names, s, t, c);
      }
    }
  }

  lemma MovedAcross<T>(received: seq<T>, down: seq<T>, heard: seq<T>, behind: seq<T>)
    ensures received + (down + heard) + behind == received + down + (heard + behind)
  {
  }

  lemma RouteOne(names: seq<string>, s: System, t: System, client: string)
    requires |s.states| == |names| && client in s.nodes && DeliveryOk(names, s, client) && PhaseOk(names, s)
    requires s.toBroker != [] && t == Next(names, s, BrokerTakesFromServer) && client in t.nodes
    ensures DeliveryOk(names, t, client)
  {
    hide ConnectionOk, Addressed, NoRepeats, IndexOf, FaultMessage, Matches, NodeFilter;
    var n, m := s.nodes[client], s.toBroker[0];
    var heard := if Matches(NodeFilter(client), m.topic) then [m] else [];
    assert Heard(client, s.toBroker) == heard + Heard(client, t.toBroker);
    assert t.nodes[client] == RouteTo(client, n, m);
    var pipe, pipe' := Pipe(client, n, s.toBroker), Pipe(client, t.nodes[client], t.toBroker);
    if n.subscribed {
      MovedAcross(n.received, n.down, heard, Heard(client, t.toBroker));
      assert pipe' == pipe;
    } else {
      assert forall x | x in pipe' :: x in pipe;
    }
  }

  lemma KeepBrokerTakesFromServer(names: seq<string>, s: System)
    requires |s.states| == |names| && Inv(names, s)
    ensures Inv(names, Next(names, s, BrokerTakesFromServer))
  {
    hide DeliveryOk, NoRepeats, IndexOf, Matches, NodeFilter;
    if s.toBroker != [] {
      var t := Next(names, s, BrokerTakesFromServer);
      var m := s.toBroker[0];
      assert m in s.toBroker;
      ReadyNodesGrow(names, s, t);
      assert forall x | x in t.toServer :: x in s.toServer || x == m;
      forall c | c in t.nodes && c in names && OwnName(names, c) ensures DeliveryOk(names, t, c) {
        RouteOne(names, s, t, c);
      }
    }
  }

  /** A client's report passes every usable node name by. */
  lemma ReportHeardByNone(client: string, reporter: string)
    requires UsableName(client)
    ensures !Matches(NodeFilter(client), ReportMessage(reporter).topic)
  {
    hide Matches, NodeFilter, UsableName;
    UsableIsPlain(client);
    OtherRouting(client, reporter);
  }

  lemma TakenOne(names: seq<string>, s: System, t: System, client: string, c: string)
    requires OwnName(names, c) && |s.states| == |names|
    requires client in s.nodes && s.nodes[client].up != [] && ConnectionOk(client, s.nodes[client])
    requires c in s.nodes && DeliveryOk(names, s, c)
    requires t == Next(names, s, BrokerTakesFrom(client)) && c in t.nodes
    ensures DeliveryOk(names, t, c)
  {
    hide Matches, NodeFilter, UsableName, Heard, Addressed, FaultMessage, ReportMessage;
    ReportHeardByNone(c, client);
  }

  /** A packet leaves the connection of its client in order, and nobody else's changes. */
  lemma TakenConnections(names: seq<string>, s: System, client: string, c: string)
    requires |s.states| == |names| && client in s.nodes && s.nodes[client].up != [] && c in s.nodes
    requires ConnectionOk(client, s.nodes[client]) && ConnectionOk(c, s.nodes[c])
    ensures var t := Next(names, s, BrokerTakesFrom(client));
            ConnectionOk(c, t.nodes[c]) && (IsReady(s, c) ==> IsReady(t, c))
  {
    hide Matches, NodeFilter, ReportMessage;
  }

  lemma TakenReport(names: seq<string>, s: System, client: string)
    requires |s.states| == |names| && client in s.nodes && s.nodes[client].up != []
    requires ConnectionOk(client, s.nodes[client]) && ReportsOk(s)
    requires forall c | c in s.nodes :: IsReady(s, c) ==> IsReady(Next(names, s, BrokerTakesFrom(client)), c)
    ensures ReportsOk(Next(names, s, BrokerTakesFrom(client)))
  {
    hide Matches, NodeFilter;
    var t := Next(names, s, BrokerTakesFrom(client));
    var node := s.nodes[client];
    if node.up[0] != Subscribe {
      var m := ReportMessage(client);
      assert node.up[0] == Publish(m) && m.body == Report(client);
      assert forall x | x in t.toServer :: x in s.toServer || x == m;
    }
  }

  lemma KeepBrokerTakesFrom(names: seq<string>, s: System, client: string)
    requires |s.states| == |names| && Inv(names, s)
    ensures Inv(names, Next(names, s, BrokerTakesFrom(client)))
  {
    hide ConnectionOk, ReportsOk, DeliveryOk, NoRepeats, IndexOf, Matches, NodeFilter, OwnName, CanReport;
    hide StatesOk, Started;
    if client in s.nodes && s.nodes[client].up != [] {
      var t := Next(names, s, BrokerTakesFrom(client));
      forall c | c in s.nodes ensures ConnectionOk(c, t.nodes[c]) && (IsReady(s, c) ==> IsReady(t, c)) {
        TakenConnections(names, s, client, c);
      }
      hide IsReady;
      TakenReport(names, s, client);
      ReadyNodesGrow(names, s, t);
      forall c | c in t.nodes && c in names && OwnName(names, c) ensures DeliveryOk(names, t, c) {
        TakenOne(names, s, t, client, c);
      }
    }
  }

  lemma KeepServerReceives(names: seq<string>, s: System)
    requires |s.states| == |names| && Inv(names, s)
    ensures Inv(names, Next(names, s, ServerReceives))
  {
    hide ConnectionOk, DeliveryOk, NoRepeats;
    if s.toServer != [] {
      var t := Next(names, s, ServerReceives);
      assert s.toServer[0] in s.toServer;
      forall c | c in t.nodes && c in names && OwnName(names, c) ensures DeliveryOk(names, t, c) {
        assert DeliveryOk(names, s, c);
        SameDelivery(names, s, t, c);
      }
    }
  }

  lemma SameDelivery(names: seq<string>, s: System, t: System, client: string)
    requires client in s.nodes && DeliveryOk(names, s, client)
    requires t == s.(states := t.states, toServer := t.toServer)
    ensures DeliveryOk(names, t, client)
  {
    hide Heard, Addressed;
  }

  /** What a client's own step leaves as it is, seen from any client. */
  lemma ClientStepKeeps(names: seq<string>, s: System, a: Action, c: string)
    requires |s.states| == |names| && c in s.nodes
    requires a.ClientConnects? || a.ClientReports? || a.ClientReceives?
    ensures var t := Next(names, s, a);
            && t == s.(nodes := t.nodes) && c in t.nodes && t.nodes[c].subscribed == s.nodes[c].subscribed
            && t.nodes[c].received + t.nodes[c].down == s.nodes[c].received + s.nodes[c].down
  {
    hide ReportPackets, Subscribes;
    var n, n' := s.nodes[c], Next(names, s, a).nodes[c];
    if a.ClientReceives? && n.down != [] && n' != n {
      assert n.received + n.down[..1] + n.down[1..] == n.received + n.down;
    }
  }

  lemma ClientStepOne(names: seq<string>, s: System, t: System, a: Action, c: string)
    requires |s.states| == |names| && c in s.nodes && DeliveryOk(names, s, c)
    requires a.ClientConnects? || a.ClientReports? || a.ClientReceives?
    requires t == Next(names, s, a) && c in t.nodes
    ensures DeliveryOk(names, t, c)
  {
    hide Heard, Addressed, FaultMessage, Next, Accepted;
    ClientStepKeeps(names, s, a, c);
  }

  lemma ClientStepConnections(names: seq<string>, s: System, a: Action, c: string)
    requires |s.states| == |names| && c in s.nodes && ConnectionOk(c, s.nodes[c])
    requires a.ClientConnects? || a.ClientReports? || a.ClientReceives?
    ensures ConnectionOk(c, Next(names, s, a).nodes[c]) && (IsReady(s, c) ==> IsReady(Next(names, s, a), c))
  {
    hide ReportPackets, Subscribes, CanReport;
  }

  lemma KeepClientSteps(names: seq<string>, s: System, a: Action)
    requires |s.states| == |names| && Inv(names, s)
    requires a.ClientConnects? || a.ClientReports? || a.ClientReceives?
    ensures Inv(names, Next(names, s, a))
  {
    hide ConnectionOk, IsReady, DeliveryOk, NoRepeats, OwnName, StatesOk, ReportPackets, Subscribes, Started;
    var t := Next(names, s, a);
    forall c | c in s.nodes ensures ConnectionOk(c, t.nodes[c]) && (IsReady(s, c) ==> IsReady(t, c)) {
      ClientStepConnections(names, s, a, c);
    }
    ReadyNodesGrow(names, s, t);
    ReadyIsNode(s, t);
    forall c | c in t.nodes && c in names && OwnName(names, c) ensures DeliveryOk(names, t, c) {
      ClientStepOne(names, s, t, a, c);
    }
  }

  lemma ReadyIsNode(s: System, t: System)
    requires Grows(s, t)
    ensures s.outbox == t.outbox && s.toBroker == t.toBroker && s.toServer == t.toServer && ReportsOk(s) ==>
              ReportsOk(t)
  {
  }

  lemma KeepInv(names: seq<string>, s: System, a: Action)
    requires |s.states| == |names| && Inv(names, s)
    ensures Inv(names, Next(names, s, a))
  {
    hide Inv, Next;
    match a
    case SetCallback => KeepPhaseSteps(names, s, a);
    case LoadNodes => KeepPhaseSteps(names, s, a);
    case Terminate => KeepPhaseSteps(names, s, a);
    case CheckReady => KeepCheckReady(names, s);
    case DoTic(faults) => KeepDoTic(names, s, faults);
    case PublishNext => KeepPublishNext(names, s);
    case BrokerTakesFromServer => KeepBrokerTakesFromServer(names, s);
    case BrokerTakesFrom(c) => KeepBrokerTakesFrom(names, s, c);
    case ServerReceives => KeepServerReceives(names, s);
    case ClientConnects(c) => KeepClientSteps(names, s, a);
    case ClientReports(c) => KeepClientSteps(names, s, a);
    case ClientReceives(c) => KeepClientSteps(names, s, a);
  }

  lemma {:induction false} InvHolds(clients: set<string>, names: seq<string>, trace: seq<Action>)
    ensures Inv(names, Execution(names, Fresh(clients, names), trace))
    decreases |trace|
  {
    hide Next, OwnName;
    if trace == [] {
      assert Map(FaultMessage, []) == [];
    } else {
      hide Inv;
      InvHolds(clients, names, trace[..|trace| - 1]);
      KeepInv(names, Execution(names, Fresh(clients, names), trace[..|trace| - 1]), trace[|trace| - 1]);
    }
  }
}
