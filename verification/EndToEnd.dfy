/** From the server's decisions to the backend's calls, over every interleaving. */
module EndToEnd {
  import opened Sequences
  import opened Delivery
  import opened Topics
  import opened Pipeline
  import opened Server
  import opened SyncStart
  import opened SyncSafety

  function Reached(clients: set<string>, names: seq<string>, trace: seq<Action>): (s: System)
    ensures |s.states| == |names|
  {
    Execution(names, Fresh(clients, names), trace)
  }

  /**
   Whatever the names and however the parts interleave, no tic runs before every node has
   reported ready and is subscribed; and with a name used twice none runs at all.
   */
  lemma NoTicBeforeReady(clients: set<string>, names: seq<string>, trace: seq<Action>)
    ensures var s := Reached(clients, names, trace);
            s.tics > 0 ==> NoRepeats(names) && forall n | n in names :: IsReady(s, n)
  {
    hide ConnectionOk, ReportsOk, StatesOk, DeliveryOk, NoRepeats, Execution, IsReady;
    InvHolds(clients, names, trace);
  }

  /** A table with a name that holds a wildcard never gets to a tic: that node cannot report. */
  lemma WildcardNeverStarts(clients: set<string>, names: seq<string>, trace: seq<Action>, n: string)
    requires n in names && !NoWildcards(n)
    ensures Reached(clients, names, trace).tics == 0
  {
    hide Reached, NoRepeats, Subscribes, Publishable, NoWildcards;
    NoTicBeforeReady(clients, names, trace);
    BackPublishable(n);
  }

  lemma OneMoreStep(clients: set<string>, names: seq<string>, trace: seq<Action>, a: Action)
    ensures Reached(clients, names, trace + [a]) == Next(names, Reached(clients, names, trace), a)
  {
    hide Next;
    assert (trace + [a])[..|trace|] == trace;
  }

  lemma {:induction false} ExecutionAppend(names: seq<string>, s: System, a: seq<Action>, b: seq<Action>)
    requires |s.states| == |names|
    ensures Execution(names, s, a + b) == Execution(names, Execution(names, s, a), b)
    decreases |b|
  {
    hide Next;
    if b == [] {
      assert a + b == a;
    } else {
      var n := |b| - 1;
      ExecutionAppend(names, s, a, b[..n]);
      assert (a + b)[..|a + b| - 1] == a + b[..n] && (a + b)[|a + b| - 1] == b[n];
    }
  }

  lemma NoStep(names: seq<string>, s: System)
    requires |s.states| == |names|
    ensures Execution(names, s, []) == s
  {
  }

  lemma OneStep(names: seq<string>, s: System, a: Action, trace: seq<Action>)
    requires |s.states| == |names|
    ensures Execution(names, s, [a] + trace) == Execution(names, Next(names, s, a), trace)
  {
    hide Next;
    ExecutionAppend(names, s, [a], trace);
    assert [a][..0] == [];
  }

  /** The starting signal of a node is addressed to it once. */
  lemma {:induction false} AddressedOnce(client: string, names: seq<string>)
    requires OwnName(names, client) && NoRepeats(names)
    ensures Addressed(client, Map(SyncNotice, names)) == if client in names then [SyncNotice(client)] else []
  {
    hide IsFor, UsableName, Split;
    if names != [] {
      var notices := Map(SyncNotice, names);
      assert notices[1..] == Map(SyncNotice, names[1..]);
      assert NoRepeats(names[1..]) && OwnName(names[1..], client);
      SyncIsFor(client, names[0]);
      AddressedOnce(client, names[1..]);
      assert names == [names[0]] + names[1..];
    }
  }

  /** The messages meant for a node: its starting signal, then its faults, if they can be published, in order. */
  function MeantFor(client: string, faults: seq<Record>): seq<Message> {
    [FaultMessage(SyncNotice(client))] + Map(FaultMessage, Addressed(client, faults))
  }

  lemma HeardIsMeant(names: seq<string>, s: System, client: string)
    requires OwnName(names, client) && NoRepeats(names) && |s.states| == |names| && Inv(names, s)
    requires s.phase == Running && client in names && client in s.nodes
    ensures Heard(client, s.sent + Accepted(s.outbox)) == MeantFor(client, s.faults)
  {
    hide ConnectionOk, ReportsOk, StatesOk, NoRepeats, UsableName, FaultMessage, Addressed, Heard;
    assert DeliveryOk(names, s, client);
    AddressedAppend(client, Map(SyncNotice, names), s.faults);
    AddressedOnce(client, names);
    MapAppend(FaultMessage, [SyncNotice(client)], Addressed(client, s.faults));
    assert Map(FaultMessage, [SyncNotice(client)]) == [FaultMessage(SyncNotice(client))];
  }

  lemma PrefixOfAppend<T>(a: seq<T>, b: seq<T>, c: seq<T>, whole: seq<T>)
    requires a + b == c && c <= whole
    ensures a <= whole
  {
    assert a == c[..|a|];
  }

  lemma OneSync(client: string, n: Node, toBroker: seq<Message>, bound: nat)
    requires OnlySyncs(client, Pipe(client, n, toBroker), bound) && bound <= 1
    ensures n.received <= MeantFor(client, [])
  {
    hide Heard, FaultMessage;
    NoFaultsMeant(client);
    if n.received != [] {
      assert n.received[0] in Pipe(client, n, toBroker);
    }
  }

  lemma ReceivedInOrder(names: seq<string>, s: System, client: string)
    requires OwnName(names, client) && NoRepeats(names) && |s.states| == |names| && Inv(names, s)
    requires client in names && client in s.nodes
    ensures s.nodes[client].received <= MeantFor(client, s.faults)
  {
    hide ConnectionOk, ReportsOk, StatesOk, NoRepeats, OwnName, Heard, MeantFor, OnlySyncs, FaultMessage, Addressed;
    assert DeliveryOk(names, s, client);
    var n := s.nodes[client];
    if s.phase == Running {
      HeardIsMeant(names, s, client);
      HeardAppend(client, s.sent, Accepted(s.outbox));
      var heard, behind := Heard(client, s.sent), n.down + Heard(client, s.toBroker);
      assert n.received + behind == Pipe(client, n, s.toBroker);
      if n.subscribed && Pipe(client, n, s.toBroker) == heard {
        PrefixOfAppend(n.received, behind, heard, MeantFor(client, s.faults));
      } else {
        NoFaultsMeant(client);
        OneSync(client, n, s.toBroker, |heard|);
      }
    }
  }

  /**
   Whatever has arrived at a node is a prefix of its starting signal followed by its faults in
   the order they were decided.
   */
  lemma ArrivesInOrder(clients: set<string>, names: seq<string>, trace: seq<Action>, client: string)
    requires OwnName(names, client) && client in clients && client in names
    ensures var s := Reached(clients, names, trace);
            client in s.nodes && (s.tics > 0 || NoRepeats(names) ==>
                                    s.nodes[client].received <= MeantFor(client, s.faults))
  {
    var s := Reached(clients, names, trace);
    hide Inv;
    InvHolds(clients, names, trace);
    assert Inv(names, s);
    NodesStay(clients, names, trace);
    NoTicBeforeReady(clients, names, trace);
    hide Reached, NoRepeats, OwnName, MeantFor;
    if s.tics > 0 || NoRepeats(names) {
      ReceivedInOrder(names, s, client);
    }
  }

  lemma NoFaultsMeant(client: string)
    ensures MeantFor(client, []) == [FaultMessage(SyncNotice(client))]
  {
  }

  lemma NextKeepsNodes(names: seq<string>, s: System, a: Action)
    requires |s.states| == |names|
    ensures Next(names, s, a).nodes.Keys == s.nodes.Keys
  {
    hide RouteTo, FaultMessage, StatesAfter, Accepted, ReportPackets, Subscribes, ServerShare, TicMessages;
    hide AfterMessage;
  }

  lemma {:induction false} NodesStay(clients: set<string>, names: seq<string>, trace: seq<Action>)
    ensures Reached(clients, names, trace).nodes.Keys == clients
    decreases |trace|
  {
    hide Next;
    if trace != [] {
      NodesStay(clients, names, trace[..|trace| - 1]);
      NextKeepsNodes(names, Reached(clients, names, trace[..|trace| - 1]), trace[|trace| - 1]);
    }
  }

  /**
   Nothing is dropped: from the starting signals on, what has arrived at a node, what is under
   way to it, what waits at the broker and what is about to be published make up all that was
   meant for it -- unless termination was requested before any tic.
   */
  lemma NothingDropped(clients: set<string>, names: seq<string>, trace: seq<Action>, client: string)
    requires OwnName(names, client) && client in names
    requires var s := Reached(clients, names, trace); s.phase == Running && (s.tics > 0 || !s.termreq)
    ensures var s := Reached(clients, names, trace);
            && client in s.nodes
            && s.nodes[client].received + s.nodes[client].down + Heard(client, s.toBroker)
               + Heard(client, Accepted(s.outbox))
               == MeantFor(client, s.faults)
  {
    var s := Reached(clients, names, trace);
    InvHolds(clients, names, trace);
    hide ConnectionOk, ReportsOk, StatesOk, NoRepeats, OwnName, Execution, Heard, Addressed, FaultMessage, MeantFor;
    assert Started(names, s);
    assert IsReady(s, client) && DeliveryOk(names, s, client);
    HeardIsMeant(names, s, client);
    HeardAppend(client, s.sent, Accepted(s.outbox));
  }

  // ---------- Down to the backend ----------

  /** What a client makes of a message that has arrived. */
  function Understood(m: Message): ClientFault {
    Decode(m.topic, if m.body.Severity? then m.body.text else "")
  }

  lemma UnderstoodFaults(client: string, faults: seq<Record>)
    requires UsableName(client)
    requires forall f | f in faults :: f.node == client && Supported(f)
    ensures Map(Understood, Map(FaultMessage, faults)) == Map(Received, faults)
  {
    hide Decode, FaultTopic, Payload, UsableName;
    UsableIsPlain(client);
    PlainMeans(client);
    forall i | 0 <= i < |faults| ensures Understood(FaultMessage(faults[i])) == Received(faults[i]) {
      var f := faults[i];
      assert f in faults;
      ReceivedAsSent(f.node, f.component, f.severity);
    }
  }

  /** The first `k` of a node's faults are for the node itself, and the backend knows them. */
  predicate FirstSupported(client: string, faults: seq<Record>, k: int) {
    forall i | 0 <= i < k && i < |faults| :: faults[i].node == client && Supported(faults[i])
  }

  lemma FirstAreSupported(client: string, faults: seq<Record>, k: nat)
    requires k <= |faults| && FirstSupported(client, faults, k)
    ensures forall f | f in faults[..k] :: f.node == client && Supported(f)
  {
    hide Supported;
  }

  lemma MapPrefix<A, B>(f: A -> B, s: seq<A>, k: nat)
    requires k <= |s|
    ensures Map(f, s[..k]) == Map(f, s)[..k]
  {
  }

  /**
   The backend's calls for whatever part of the arrived messages has been handled are a prefix
   of what the server meant for the node: right subsystem, right severity, right order. Only
   the faults behind the handled messages have to be ones the backend knows.
   */
  lemma CallsAreIntended(clients: set<string>, names: seq<string>, trace: seq<Action>, client: string,
                         handled: seq<Message>, uninitialised: nat)
    requires OwnName(names, client) && client in clients && client in names
    requires var s := Reached(clients, names, trace);
             && (s.tics > 0 || NoRepeats(names))
             && client in s.nodes && handled <= s.nodes[client].received
             && FirstSupported(client, Addressed(client, s.faults), |handled| - 1)
    ensures CallsFor(Map(Understood, handled), uninitialised)
         <= Map(Intended, Addressed(client, Reached(clients, names, trace).faults))
  {
    hide Reached, Addressed, FaultMessage, Understood, Intended, Supported, UsableName, NoRepeats, CallsFor;
    hide FirstSupported;
    var faults := Addressed(client, Reached(clients, names, trace).faults);
    ArrivesInOrder(clients, names, trace, client);
    assert handled <= MeantFor(client, Reached(clients, names, trace).faults);
    if handled == [] {
      NoCalls(uninitialised);
      assert Map(Understood, handled) == [];
    } else {
      var k := |handled| - 1;
      var signal := handled[0];
      assert handled == [signal] + Map(FaultMessage, faults)[..k];
      MapPrefix(FaultMessage, faults, k);
      FirstAreSupported(client, faults, k);
      UnderstoodFaults(client, faults[..k]);
      MapAppend(Understood, [signal], Map(FaultMessage, faults[..k]));
      assert Map(Understood, [signal]) == [Understood(signal)];
      CommandsInOrder(Understood(signal), faults[..k], uninitialised);
      MapPrefix(Intended, faults, k);
    }
  }

  lemma NoCalls(uninitialised: nat)
    ensures CallsFor([], uninitialised) == []
  {
  }
}
