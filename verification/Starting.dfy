/** When a run can start, when it ends, and what the server does before it knows its nodes. */
module Starting {
  import opened Options
  import opened Sequences
  import opened Numerals
  import opened Delivery
  import opened Topics
  import opened Pipeline
  import opened Server
  import opened SyncStart
  import opened SyncSafety
  import opened EndToEnd
  import opened Completion

  // ---------- Termination ----------

  lemma {:induction false} TerminationExactly(clients: set<string>, names: seq<string>, trace: seq<Action>)
    ensures Reached(clients, names, trace).termreq <==> Terminate in trace
    decreases |trace|
  {
    hide Next;
    if trace != [] {
      var before, last := trace[..|trace| - 1], trace[|trace| - 1];
      TerminationExactly(clients, names, before);
      TermreqSet(names, Reached(clients, names, before), last);
      assert trace == before + [last];
    }
  }

  lemma TermreqSet(names: seq<string>, s: System, a: Action)
    requires |s.states| == |names|
    ensures var t := Next(names, s, a);
            && (t.termreq <==> s.termreq || a == Terminate)
            && (s.termreq ==> t.tics == s.tics && t.faults == s.faults)
  {
    hide Accepted, Route, TicMessages;
  }

  /** Once termination has been requested no tic runs any more. */
  lemma {:induction false} NoTicAfterTermination(clients: set<string>, names: seq<string>,
                                                 trace: seq<Action>, more: seq<Action>)
    requires Terminate in trace
    ensures var s, t := Reached(clients, names, trace), Reached(clients, names, trace + more);
            t.tics == s.tics && t.faults == s.faults
    decreases |more|
  {
    hide Next, Execution;
    if more == [] {
      assert trace + more == trace;
    } else {
      var n := |more| - 1;
      NoTicAfterTermination(clients, names, trace, more[..n]);
      TerminationExactly(clients, names, trace + more[..n]);
      assert trace + more == trace + more[..n] + [more[n]];
      OneMoreStep(clients, names, trace + more[..n], more[n]);
      TermreqSet(names, Reached(clients, names, trace + more[..n]), more[n]);
    }
  }

  /** A run that is terminated while it waits sends its starting signals all the same. */
  lemma TerminationStarts(clients: set<string>, names: seq<string>)
    ensures var s := Reached(clients, names, [SetCallback, LoadNodes, Terminate, CheckReady]);
            && s.phase == Running && s.tics == 0
            && |s.outbox| == |names|
            && forall i | 0 <= i < |names| :: s.outbox[i] == Message("envelope/" + names[i], Severity("0x0"))
  {
    hide FaultMessage, SyncNotice, Reached, Next;
    var boot := [SetCallback, LoadNodes];
    BootedIsWaiting(clients, names);
    OneMoreStep(clients, names, boot, Terminate);
    OneMoreStep(clients, names, boot + [Terminate], CheckReady);
    TerminatedStarts(names, Reached(clients, names, boot));
    assert boot + [Terminate] + [CheckReady] == [SetCallback, LoadNodes, Terminate, CheckReady];
    forall i | 0 <= i < |names|
      ensures FaultMessage(SyncNotice(names[i])) == Message("envelope/" + names[i], Severity("0x0"))
    {
      StartingSignal(names[i]);
    }
  }

  lemma BootedIsWaiting(clients: set<string>, names: seq<string>)
    ensures var s := Reached(clients, names, [SetCallback, LoadNodes]); s.phase == Waiting && s.tics == 0
  {
    assert [SetCallback, LoadNodes][..1] == [SetCallback] && [SetCallback][..0] == [];
  }

  lemma TerminatedStarts(names: seq<string>, s: System)
    requires |s.states| == |names| && s.phase == Waiting && s.tics == 0
    ensures var t := Next(names, Next(names, s, Terminate), CheckReady);
            t.phase == Running && t.tics == 0 && t.outbox == Map(FaultMessage, Map(SyncNotice, names))
  {
    hide FaultMessage, SyncNotice;
  }

  /** The starting signal as it is published. */
  lemma StartingSignal(name: string)
    ensures FaultMessage(SyncNotice(name)) == Message("envelope/" + name, Severity("0x0"))
  {
    assert FaultTopic(name, None) == "envelope/" + name + "" == "envelope/" + name;
    assert Payload(0) == "0x" + [DIGITS[0]] == "0x0";
  }

  /** A tic publishes its faults in order, and then, if there are any, one message of news. */
  lemma TicPublishes(faults: seq<Record>)
    ensures |TicMessages(faults)| == if faults == [] then 0 else |faults| + 1
    ensures forall i | 0 <= i < |faults| :: TicMessages(faults)[i] == FaultMessage(faults[i])
    ensures faults != [] ==> TicMessages(faults)[|faults|] == Message("envelope/lausim", Announcement)
  {
    hide FaultMessage;
  }

  /** Reports that come before the nodes are known are lost. */
  lemma {:induction false} EarlyReportsLost(clients: set<string>, names: seq<string>, trace: seq<Action>)
    ensures var s := Reached(clients, names, trace); s.phase in {Booting, Listening} ==> s.states == AllUnknown(|names|)
    decreases |trace|
  {
    hide Next;
    if trace != [] {
      EarlyReportsLost(clients, names, trace[..|trace| - 1]);
      EarlyStep(names, Reached(clients, names, trace[..|trace| - 1]), trace[|trace| - 1]);
    }
  }

  lemma EarlyStep(names: seq<string>, s: System, a: Action)
    requires |s.states| == |names|
    ensures var t := Next(names, s, a);
            t.phase in {Booting, Listening} ==> s.phase in {Booting, Listening} && t.states == s.states
  {
    hide Accepted, Route, TicMessages;
  }

  // ---------- When a tic is possible ----------

  /** What a step of a client, or of the broker on its behalf, leaves as it is. */
  predicate OnlyClient(s: System, t: System, client: string) {
    && t == s.(nodes := t.nodes, toServer := t.toServer) && t.nodes.Keys == s.nodes.Keys
    && forall c | c in s.nodes && c != client :: SameSide(s.nodes[c], t.nodes[c])
  }

  predicate SameSide(m: Node, n: Node) {
    n.phase == m.phase && n.up == m.up && n.subscribed == m.subscribed
  }

  predicate Side(s: System, client: string, phase: ClientPhase, up: seq<Packet>, subscribed: bool) {
    && client in s.nodes && s.nodes[client].phase == phase && s.nodes[client].up == up
    && s.nodes[client].subscribed == subscribed
  }

  lemma Connects(names: seq<string>, s: System, c: string)
    requires |s.states| == |names| && Side(s, c, Off, [], false) && CanReport(c)
    ensures var t := Next(names, s, ClientConnects(c));
            OnlyClient(s, t, c) && Side(t, c, Connected, [Subscribe], false) && t.toServer == s.toServer
  {
    hide Subscribes, Publishable;
  }

  lemma Reports(names: seq<string>, s: System, c: string)
    requires |s.states| == |names| && Side(s, c, Connected, [Subscribe], false) && CanReport(c)
    ensures var t := Next(names, s, ClientReports(c));
            && OnlyClient(s, t, c) && t.toServer == s.toServer
            && Side(t, c, Reported, [Subscribe, Publish(ReportMessage(c))], false)
  {
    hide Subscribes, Publishable, ReportMessage, BackTopic;
  }

  lemma BrokerSubscribes(names: seq<string>, s: System, c: string, rest: seq<Packet>)
    requires |s.states| == |names| && Side(s, c, Reported, [Subscribe] + rest, false)
    ensures var t := Next(names, s, BrokerTakesFrom(c));
            OnlyClient(s, t, c) && t.toServer == s.toServer && Side(t, c, Reported, rest, true)
  {
    assert ([Subscribe] + rest)[1..] == rest;
  }

  lemma BrokerReports(names: seq<string>, s: System, c: string)
    requires |s.states| == |names| && Side(s, c, Reported, [Publish(ReportMessage(c))], true)
    ensures var t := Next(names, s, BrokerTakesFrom(c));
            && OnlyClient(s, t, c) && t.toServer == s.toServer + [ReportMessage(c)]
            && Side(t, c, Reported, [], true)
  {
    ServerHearsReport(c);
    hide Matches, NodeFilter, BackTopic;
    assert [Publish(ReportMessage(c))][1..] == [];
  }

  lemma ServerHearsReport(c: string)
    ensures ServerShare(ReportMessage(c)) == [ReportMessage(c)]
  {
    hide Matches, BackTopic;
    ServerRouting(c, c, None);
  }

  lemma ServerCounts(names: seq<string>, s: System, i: nat)
    requires |s.states| == |names| && NoRepeats(names) && i < |names|
    requires s.phase == Waiting && s.toServer == [ReportMessage(names[i])]
    ensures Next(names, s, ServerReceives) == s.(toServer := [], states := s.states[i := READY])
  {
    hide BackTopic;
    assert IndexOf(names, names[i]) == i;
  }

  /** The first `i` nodes count as ready, the others have not been started. */
  predicate ReadyUpTo(names: seq<string>, s: System, i: nat)
    requires |s.states| == |names|
  {
    && s.phase == Waiting && !s.termreq && s.tics == 0 && s.outbox == [] && s.toServer == []
    && (forall j | 0 <= j < i && j < |names| :: s.states[j] == READY)
    && forall j | i <= j < |names| :: Side(s, names[j], Off, [], false)
  }

  lemma OneMoreReady(names: seq<string>, s: System, i: nat) returns (more: seq<Action>)
    requires |s.states| == |names| && NoRepeats(names) && i < |names| && ReadyUpTo(names, s, i) && CanReport(names[i])
    ensures ReadyUpTo(names, Execution(names, s, more), i + 1)
  {
    hide Next, Execution, CanReport, ReportMessage;
    var c := names[i];
    assert Side(s, c, Off, [], false);
    Connects(names, s, c);
    var s1 := Next(names, s, ClientConnects(c));
    Reports(names, s1, c);
    var s2 := Next(names, s1, ClientReports(c));
    assert [Subscribe] + [Publish(ReportMessage(c))] == [Subscribe, Publish(ReportMessage(c))];
    BrokerSubscribes(names, s2, c, [Publish(ReportMessage(c))]);
    var s3 := Next(names, s2, BrokerTakesFrom(c));
    BrokerReports(names, s3, c);
    var s4 := Next(names, s3, BrokerTakesFrom(c));
    assert [] + [ReportMessage(c)] == [ReportMessage(c)];
    ServerCounts(names, s4, i);
    var s5 := Next(names, s4, ServerReceives);
    NoStep(names, s5);
    OneStep(names, s4, ServerReceives, []);
    OneStep(names, s3, BrokerTakesFrom(c), [ServerReceives]);
    OneStep(names, s2, BrokerTakesFrom(c), [BrokerTakesFrom(c), ServerReceives]);
    OneStep(names, s1, ClientReports(c), [BrokerTakesFrom(c), BrokerTakesFrom(c), ServerReceives]);
    more := [ClientConnects(c)] + [ClientReports(c), BrokerTakesFrom(c), BrokerTakesFrom(c), ServerReceives];
    OneStep(names, s, ClientConnects(c), [ClientReports(c), BrokerTakesFrom(c), BrokerTakesFrom(c), ServerReceives]);
    assert [ServerReceives] + [] == [ServerReceives];
    assert [BrokerTakesFrom(c)] + [ServerReceives] == [BrokerTakesFrom(c), ServerReceives];
    assert [BrokerTakesFrom(c)] + [BrokerTakesFrom(c), ServerReceives]
        == [BrokerTakesFrom(c), BrokerTakesFrom(c), ServerReceives];
    assert [ClientReports(c)] + [BrokerTakesFrom(c), BrokerTakesFrom(c), ServerReceives]
        == [ClientReports(c), BrokerTakesFrom(c), BrokerTakesFrom(c), ServerReceives];
  }

  lemma {:induction false} AllBecomeReady(names: seq<string>, s: System, i: nat) returns (more: seq<Action>)
    requires |s.states| == |names| && NoRepeats(names) && i <= |names| && ReadyUpTo(names, s, i)
    requires forall n | n in names :: CanReport(n)
    ensures ReadyUpTo(names, Execution(names, s, more), |names|)
    decreases |names| - i
  {
    hide Execution, CanReport, ReadyUpTo;
    if i == |names| {
      more := [];
      NoStep(names, s);
    } else {
      var first := OneMoreReady(names, s, i);
      var rest := AllBecomeReady(names, Execution(names, s, first), i + 1);
      ExecutionAppend(names, s, first, rest);
      more := first + rest;
    }
  }

  lemma BootedState(clients: set<string>, names: seq<string>)
    requires forall n | n in names :: n in clients
    ensures ReadyUpTo(names, Reached(clients, names, [SetCallback, LoadNodes]), 0)
  {
    assert [SetCallback, LoadNodes][..1] == [SetCallback] && [SetCallback][..0] == [];
  }

  /** With all nodes ready the server starts, publishes its starting signals and runs a tic. */
  lemma ReadyRunsTic(names: seq<string>, s: System) returns (more: seq<Action>)
    requires |s.states| == |names| && ReadyUpTo(names, s, |names|)
    ensures Execution(names, s, more).tics == 1
  {
    hide Execution, FaultMessage;
    var t := Next(names, s, CheckReady);
    assert AllReady(s.states);
    assert t.phase == Running && t.tics == 0 && !t.termreq;
    var publish := PublishAll(names, t);
    var u := Execution(names, t, publish);
    ExecutionAppend(names, t, publish, [DoTic([])]);
    NoStep(names, Next(names, u, DoTic([])));
    OneStep(names, u, DoTic([]), []);
    assert [DoTic([])] + [] == [DoTic([])];
    OneStep(names, s, CheckReady, publish + [DoTic([])]);
    more := [CheckReady] + (publish + [DoTic([])]);
  }

  lemma TicIsPossible(clients: set<string>, names: seq<string>) returns (trace: seq<Action>)
    requires NoRepeats(names) && forall n | n in names :: n in clients && CanReport(n)
    ensures Reached(clients, names, trace).tics == 1
  {
    hide Execution, ReadyUpTo, CanReport, NoRepeats;
    BootedState(clients, names);
    var boot := [SetCallback, LoadNodes];
    var booted := Reached(clients, names, boot);
    var ready := AllBecomeReady(names, booted, 0);
    var tic := ReadyRunsTic(names, Execution(names, booted, ready));
    ExecutionAppend(names, booted, ready, tic);
    ExecutionAppend(names, Fresh(clients, names), boot, ready + tic);
    trace := boot + (ready + tic);
  }

  /**
   A run can get to a tic if and only if the names of its nodes are distinct, each has a client,
   and each client can subscribe and report under its name.
   */
  lemma TicPossibleExactly(clients: set<string>, names: seq<string>)
    ensures (exists trace :: Reached(clients, names, trace).tics > 0)
       <==> NoRepeats(names) && forall n | n in names :: n in clients && CanReport(n)
  {
    hide Reached, NoRepeats, CanReport;
    if trace :| Reached(clients, names, trace).tics > 0 {
      NoTicBeforeReady(clients, names, trace);
      NodesStay(clients, names, trace);
    }
    if NoRepeats(names) && forall n | n in names :: n in clients && CanReport(n) {
      var trace := TicIsPossible(clients, names);
      assert Reached(clients, names, trace).tics > 0;
    }
  }
}
