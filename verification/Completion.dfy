/** From every started state everything meant for the nodes can still arrive, without loss. */
module Completion {
  import opened Sequences
  import opened Topics
  import opened SyncStart
  import opened SyncSafety
  import opened EndToEnd

  /** What the steps below leave as it is: the main thread up to what it has to publish, the clients' phases. */
  predicate SameServer(s: System, t: System) {
    && t.phase == s.phase && t.tics == s.tics && t.termreq == s.termreq && t.faults == s.faults
    && t.nodes.Keys == s.nodes.Keys && forall c | c in s.nodes :: t.nodes[c].phase == s.nodes[c].phase
  }

  lemma PublishStep(names: seq<string>, s: System)
    requires |s.states| == |names| && s.outbox != []
    ensures var t := Next(names, s, PublishNext); t.outbox == s.outbox[1..] && SameServer(s, t)
  {
  }

  lemma {:induction false} PublishAll(names: seq<string>, s: System) returns (trace: seq<Action>)
    requires |s.states| == |names|
    ensures var t := Execution(names, s, trace); t.outbox == [] && SameServer(s, t)
    decreases |s.outbox|
  {
    hide Next;
    if s.outbox == [] {
      trace := [];
    } else {
      PublishStep(names, s);
      var rest := PublishAll(names, Next(names, s, PublishNext));
      OneStep(names, s, PublishNext, rest);
      trace := [PublishNext] + rest;
    }
  }

  lemma RouteKeeps(nodes: map<string, Node>, m: Message)
    ensures Route(nodes, m).Keys == nodes.Keys
    ensures forall c | c in nodes :: Route(nodes, m)[c].phase == nodes[c].phase
  {
    hide Matches, NodeFilter;
  }

  lemma RouteStep(names: seq<string>, s: System)
    requires |s.states| == |names| && s.toBroker != []
    ensures var t := Next(names, s, BrokerTakesFromServer);
            t.toBroker == s.toBroker[1..] && t.outbox == s.outbox && SameServer(s, t)
  {
    hide Route, ServerShare;
    RouteKeeps(s.nodes, s.toBroker[0]);
  }

  lemma {:induction false} RouteAll(names: seq<string>, s: System) returns (trace: seq<Action>)
    requires |s.states| == |names| && s.outbox == []
    ensures var t := Execution(names, s, trace); t.outbox == [] && t.toBroker == [] && SameServer(s, t)
    decreases |s.toBroker|
  {
    hide Next;
    if s.toBroker == [] {
      trace := [];
    } else {
      RouteStep(names, s);
      var rest := RouteAll(names, Next(names, s, BrokerTakesFromServer));
      OneStep(names, s, BrokerTakesFromServer, rest);
      trace := [BrokerTakesFromServer] + rest;
    }
  }

  /** Only this client has taken something. */
  predicate OnlyTook(s: System, t: System, client: string) {
    && SameServer(s, t) && t.outbox == s.outbox && t.toBroker == s.toBroker
    && forall c | c in s.nodes && c != client :: t.nodes[c] == s.nodes[c]
  }

  lemma TakeStep(names: seq<string>, s: System, client: string)
    requires |s.states| == |names| && client in s.nodes
    requires s.nodes[client].phase == Reported && s.nodes[client].down != []
    ensures var t := Next(names, s, ClientReceives(client));
            OnlyTook(s, t, client) && t.nodes[client].down == s.nodes[client].down[1..]
  {
  }

  lemma {:induction false} TakeWaiting(names: seq<string>, s: System, client: string) returns (trace: seq<Action>)
    requires |s.states| == |names| && client in s.nodes && s.nodes[client].phase == Reported
    ensures var t := Execution(names, s, trace); OnlyTook(s, t, client) && t.nodes[client].down == []
    decreases |s.nodes[client].down|
  {
    hide Next;
    if s.nodes[client].down == [] {
      trace := [];
    } else {
      TakeStep(names, s, client);
      var rest := TakeWaiting(names, Next(names, s, ClientReceives(client)), client);
      OneStep(names, s, ClientReceives(client), rest);
      trace := [ClientReceives(client)] + rest;
    }
  }

  predicate HasReported(s: System, client: string) {
    client in s.nodes && s.nodes[client].phase == Reported
  }

  /** One client after the other takes what has come for it. */
  lemma {:induction false} AllTakeWaiting(names: seq<string>, s: System, clients: seq<string>)
    returns (trace: seq<Action>)
    requires |s.states| == |names| && s.outbox == [] && s.toBroker == []
    requires forall c | c in clients :: HasReported(s, c)
    ensures var t := Execution(names, s, trace);
            && t.outbox == [] && t.toBroker == [] && SameServer(s, t)
            && (forall c | c in s.nodes && s.nodes[c].down == [] :: t.nodes[c].down == [])
            && forall c | c in clients :: c in t.nodes && t.nodes[c].down == []
    decreases clients
  {
    hide Next, Execution;
    if clients == [] {
      trace := [];
      NoStep(names, s);
    } else {
      var c := clients[0];
      assert HasReported(s, c);
      var first := TakeWaiting(names, s, c);
      var t := Execution(names, s, first);
      forall d | d in clients[1..] ensures HasReported(t, d) {
        assert HasReported(s, d);
      }
      var rest := AllTakeWaiting(names, t, clients[1..]);
      ExecutionAppend(names, s, first, rest);
      trace := first + rest;
    }
  }

  lemma NodesReported(clients: set<string>, names: seq<string>, trace: seq<Action>)
    requires var s := Reached(clients, names, trace); s.phase == Running && (s.tics > 0 || !s.termreq)
    ensures forall n | n in names :: HasReported(Reached(clients, names, trace), n)
  {
    var s := Reached(clients, names, trace);
    InvHolds(clients, names, trace);
    hide ConnectionOk, ReportsOk, StatesOk, DeliveryOk, NoRepeats, Execution;
    assert Started(names, s);
    assert forall n | n in names :: IsReady(s, n);
  }

  /** Nothing is left to publish, to route or to take. */
  predicate Quiet(names: seq<string>, s: System) {
    s.outbox == [] && s.toBroker == [] && forall c | c in names :: c in s.nodes && s.nodes[c].down == []
  }

  lemma Quieten(names: seq<string>, s: System) returns (more: seq<Action>)
    requires |s.states| == |names| && forall n | n in names :: HasReported(s, n)
    ensures var t := Execution(names, s, more); SameServer(s, t) && Quiet(names, t)
  {
    hide Execution;
    var publish := PublishAll(names, s);
    var published := Execution(names, s, publish);
    var route := RouteAll(names, published);
    var routed := Execution(names, published, route);
    forall n | n in names ensures HasReported(routed, n) {
      assert HasReported(s, n);
    }
    var take := AllTakeWaiting(names, routed, names);
    ExecutionAppend(names, published, route, take);
    ExecutionAppend(names, s, publish, route + take);
    more := publish + (route + take);
  }

  lemma QuietIsComplete(clients: set<string>, names: seq<string>, trace: seq<Action>, client: string)
    requires OwnName(names, client) && client in names && Quiet(names, Reached(clients, names, trace))
    requires var s := Reached(clients, names, trace); s.phase == Running && (s.tics > 0 || !s.termreq)
    ensures var s := Reached(clients, names, trace);
            client in s.nodes && s.nodes[client].received == MeantFor(client, s.faults)
  {
    hide Reached, OwnName, MeantFor;
    NothingDropped(clients, names, trace, client);
    NothingHeard(client);
    var s := Reached(clients, names, trace);
    assert s.nodes[client].received + [] + [] + [] == s.nodes[client].received;
  }

  /**
   From the starting signals on, unless termination was requested before any tic: with no further
   tic the run can go on until nothing is under way, and then every node has received exactly its
   starting signal and its faults.
   */
  lemma AllCanArrive(clients: set<string>, names: seq<string>, trace: seq<Action>) returns (more: seq<Action>)
    requires var s := Reached(clients, names, trace); s.phase == Running && (s.tics > 0 || !s.termreq)
    ensures var s, t := Reached(clients, names, trace), Reached(clients, names, trace + more);
            && SameServer(s, t) && Quiet(names, t)
            && forall c | c in names && OwnName(names, c) ::
                 c in t.nodes && t.nodes[c].received == MeantFor(c, s.faults)
  {
    hide OwnName, MeantFor, Quiet, Execution;
    NodesReported(clients, names, trace);
    more := Quieten(names, Reached(clients, names, trace));
    ExecutionAppend(names, Fresh(clients, names), trace, more);
    forall c | c in names && OwnName(names, c)
      ensures var t := Reached(clients, names, trace + more);
              c in t.nodes && t.nodes[c].received == MeantFor(c, Reached(clients, names, trace).faults)
    {
      QuietIsComplete(clients, names, trace + more, c);
    }
  }
}
