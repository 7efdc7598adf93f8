/**
 The synchronised start and everything after it, as steps of a distributed system: the server
 (srv/main.cpp, srv/server.cpp), the MQTT broker, and one client per name (client/src/client.c),
 joined by first-in-first-out connections.
 */
module SyncStart {
  import opened Options
  import opened Sequences
  import opened Delivery
  import opened Topics
  import opened Pipeline
  import opened Server

  datatype Body = Severity(text: string) | Report(client: string) | Announcement
  datatype Message = Message(topic: string, body: Body)
  datatype Packet = Subscribe | Publish(message: Message)

  /** The client program: not started, subscribed as far as it knows, reported as ready. */
  datatype ClientPhase = Off | Connected | Reported

  /** A client, its two connections with the broker, and whether the broker holds its filter. */
  datatype Node = Node(phase: ClientPhase, up: seq<Packet>, subscribed: bool,
                       down: seq<Message>, received: seq<Message>)

  /** The main thread: before the callback is set, before the nodes are known, waiting, started. */
  datatype Phase = Booting | Listening | Waiting | Running

  datatype System = System(
    phase: Phase,
    termreq: bool,
    tics: nat,
    states: seq<nat>,
    /** Messages the main thread still has to hand to the library before it goes on. */
    outbox: seq<Message>,
    /** From the server to the broker and back. */
    toBroker: seq<Message>,
    toServer: seq<Message>,
    nodes: map<string, Node>,
    /** What has happened: messages published, `notify_fail` calls decided, faults among these. */
    sent: seq<Message>,
    notices: seq<Record>,
    faults: seq<Record>
  )

  function Fresh(clients: set<string>, names: seq<string>): System {
    System(Booting, false, 0, AllUnknown(|names|), [], [], [],
           map c | c in clients :: Node(Off, [], false, [], []), [], [], [])
  }

  function FaultMessage(f: Record): Message {
    Message(FaultTopic(f.node, f.component), Severity(Payload(f.severity)))
  }

  function ReportMessage(client: string): Message {
    Message(BackTopic(client), Report(client))
  }

  /** What the library takes of these messages; a refused one is lost, and the sender goes on. */
  function Accepted(messages: seq<Message>): seq<Message> {
    if messages == [] then []
    else (if Publishable(messages[0].topic) then [messages[0]] else []) + Accepted(messages[1..])
  }

  /** What the main thread wants to publish in one tic. */
  function TicMessages(faults: seq<Record>): seq<Message> {
    Map(FaultMessage, faults) + if faults == [] then [] else [Message(EXTERN_TOPIC, Announcement)]
  }

  /** What a client sends to report: nothing if publishing under its name is refused. */
  function ReportPackets(client: string): seq<Packet> {
    if Publishable(BackTopic(client)) then [Publish(ReportMessage(client))] else []
  }

  datatype Action =
    | SetCallback
    | LoadNodes
    | CheckReady
    | Terminate
    | DoTic(newFaults: seq<Record>)
    | PublishNext
    | BrokerTakesFromServer
    | BrokerTakesFrom(client: string)
    | ServerReceives
    | ClientConnects(client: string)
    | ClientReports(client: string)
    | ClientReceives(client: string)

  /** The broker hands a message to every subscriber whose filter matches. */
  function RouteTo(name: string, node: Node, m: Message): Node {
    if node.subscribed && Matches(NodeFilter(name), m.topic) then node.(down := node.down + [m]) else node
  }

  function Route(nodes: map<string, Node>, m: Message): map<string, Node> {
    map c | c in nodes :: RouteTo(c, nodes[c], m)
  }

  function ServerShare(m: Message): seq<Message> {
    if Matches(SERVER_FILTER, m.topic) then [m] else []
  }

  /** The callback: nothing before it is set, no node before they are known. */
  function AfterMessage(names: seq<string>, s: System, m: Message): seq<nat>
    requires |s.states| == |names|
  {
    if s.phase in {Booting, Listening} || !m.body.Report? then s.states
    else StatesAfter(names, s.states, StatusChange(m.body.client, Some(StReady)))
  }

  /** One step; an action that is not possible leaves the system as it is. */
  function Next(names: seq<string>, s: System, a: Action): (r: System)
    requires |s.states| == |names|
    ensures |r.states| == |names|
  {
    match a
    case SetCallback => if s.phase == Booting then s.(phase := Listening) else s
    case LoadNodes => if s.phase == Listening then s.(phase := Waiting, states := AllUnknown(|names|)) else s
    case CheckReady =>
      if s.phase == Waiting && (s.termreq || AllReady(s.states)) then
        s.(phase := Running,
           outbox := Map(FaultMessage, Map(SyncNotice, names)), notices := Map(SyncNotice, names))
      else s
    case Terminate => s.(termreq := true)
    case DoTic(faults) =>
      if s.phase == Running && s.outbox == [] && !s.termreq then
        s.(tics := s.tics + 1, outbox := TicMessages(faults),
           notices := s.notices + faults, faults := s.faults + faults)
      else s
    case PublishNext =>
      if s.outbox == [] then s
      else
        var taken := Accepted(s.outbox[..1]);
        s.(outbox := s.outbox[1..], toBroker := s.toBroker + taken, sent := s.sent + taken)
    case BrokerTakesFromServer =>
      if s.toBroker == [] then s
      else
        var m := s.toBroker[0];
        s.(toBroker := s.toBroker[1..], nodes := Route(s.nodes, m), toServer := s.toServer + ServerShare(m))
    case BrokerTakesFrom(c) =>
      if c !in s.nodes || s.nodes[c].up == [] then s
      else
        var node := s.nodes[c];
        var taken := s.nodes[c := node.(up := node.up[1..])];
        (match node.up[0]
         case Subscribe => s.(nodes := taken[c := taken[c].(subscribed := true)])
         case Publish(m) => s.(nodes := Route(taken, m), toServer := s.toServer + ServerShare(m)))
    case ServerReceives =>
      if s.toServer == [] then s
      else s.(toServer := s.toServer[1..], states := AfterMessage(names, s, s.toServer[0]))
    case ClientConnects(c) =>
      if c !in s.nodes || s.nodes[c].phase != Off || !Subscribes(c) then s
      else s.(nodes := s.nodes[c := s.nodes[c].(phase := Connected, up := s.nodes[c].up + [Subscribe])])
    case ClientReports(c) =>
      if c !in s.nodes || s.nodes[c].phase != Connected then s
      else
        s.(nodes := s.nodes[c := s.nodes[c].(phase := Reported,
                                             up := s.nodes[c].up + ReportPackets(c))])
    case ClientReceives(c) =>
      if c !in s.nodes || s.nodes[c].phase != Reported || s.nodes[c].down == [] then s
      else
        var node := s.nodes[c];
        s.(nodes := s.nodes[c := node.(down := node.down[1..], received := node.received + node.down[..1])])
  }

  /** The system after any finite sequence of steps of any of its parts. */
  function Execution(names: seq<string>, s: System, trace: seq<Action>): (r: System)
    requires |s.states| == |names|
    ensures |r.states| == |names|
    decreases |trace|
  {
    if trace == [] then s
    else Next(names, Execution(names, s, trace[..|trace| - 1]), trace[|trace| - 1])
  }
}
