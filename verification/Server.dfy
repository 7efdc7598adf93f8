/** The server's part in a tic, and its view of the nodes (srv/server.cpp). */
module Server {
  import opened Options
  import opened Sequences
  import opened Numerals
  import opened Delivery
  import opened Transcript
  import opened Clock

  const UNKNOWN: nat := 0
  const READY: nat := 1
  const ERROR: nat := 2
  const FINISHED: nat := 3

  datatype Status = StReady | StError | StFinished

  /** A message on the back channel. */
  datatype Backchannel =
    | Log
    | ErrorLog
    | StatusChange(nodeName: string, newStatus: Option<Status>)
    | Other

  /** One message to external programs about whole nodes. */
  datatype External = External(failing: seq<string>, spare: seq<string>)

  /** The nodes whose power failed (`zero` false) or came back (`zero` true). */
  function NodesWith(records: seq<Record>, zero: bool): seq<string> {
    if records == [] then []
    else
      var last := records[|records| - 1];
      NodesWith(records[..|records| - 1], zero)
      + if last.component == None && (last.severity == 0) == zero then [last.node] else []
  }

  /** What one tic's faults make the server tell external programs. */
  function Announced(records: seq<Record>): seq<External> {
    if records == [] then [] else [External(NodesWith(records, false), NodesWith(records, true))]
  }

  /** A node is announced as failing, or as spare, exactly when a fault of the whole node says so. */
  lemma {:induction false} AnnouncedNodes(records: seq<Record>, name: string, zero: bool)
    ensures name in NodesWith(records, zero)
       <==> exists f :: f in records && f.component == None && f.node == name && (f.severity == 0) == zero
    decreases |records|
  {
    if records != [] {
      var init, last := records[..|records| - 1], records[|records| - 1];
      AnnouncedNodes(init, name, zero);
      assert records == init + [last];
    }
  }

  lemma {:induction false} NodesWithAppend(a: seq<Record>, b: seq<Record>, zero: bool)
    ensures NodesWith(a + b, zero) == NodesWith(a, zero) + NodesWith(b, zero)
    decreases |b|
  {
    if b == [] {
      assert a + b == a;
    } else {
      var n := |b| - 1;
      assert (a + b)[..|a + b| - 1] == a + b[..n];
      NodesWithAppend(a, b[..n], zero);
    }
  }

  /** The faults without component. */
  function WholeNode(records: seq<Record>): seq<Record> {
    if records == [] then []
    else (if records[0].component == None then [records[0]] else []) + WholeNode(records[1..])
  }

  lemma {:induction false} NodesWithCount(records: seq<Record>)
    ensures |NodesWith(records, false)| + |NodesWith(records, true)| == |WholeNode(records)|
  {
    if records != [] {
      assert records == [records[0]] + records[1..];
      NodesWithAppend([records[0]], records[1..], false);
      NodesWithAppend([records[0]], records[1..], true);
      NodesWithCount(records[1..]);
    }
  }

  /**
   The message to external programs: exactly one if there are faults; its failing nodes are those
   a fault of the whole node with a severity names, its spare ones those with severity 0; each
   such fault is listed once, and the lists follow the order of the faults.
   */
  lemma AnnouncedExactly(records: seq<Record>, name: string)
    ensures |Announced(records)| == if records == [] then 0 else 1
    ensures forall e | e in Announced(records) ::
              && (name in e.failing
                  <==> exists f :: f in records && f.component == None && f.node == name && f.severity != 0)
              && (name in e.spare
                  <==> exists f :: f in records && f.component == None && f.node == name && f.severity == 0)
              && |e.failing| + |e.spare| == |WholeNode(records)|
  {
    AnnouncedNodes(records, name, false);
    AnnouncedNodes(records, name, true);
    NodesWithCount(records);
  }

  lemma AnnouncedInOrder(a: seq<Record>, b: seq<Record>)
    requires a != [] && b != []
    ensures var (x, y) := (Announced(a)[0], Announced(b)[0]);
            Announced(a + b) == [External(x.failing + y.failing, x.spare + y.spare)]
  {
    NodesWithAppend(a, b, false);
    NodesWithAppend(a, b, true);
  }

  /** The calls of `notify_fail` and of `notify_extern` that one tic makes. */
  datatype TicCalls = TicCalls(notices: seq<Record>, news: seq<External>)

  /** The calls that are due in a tic with the given faults. */
  function CallsOfTic(records: seq<Record>): TicCalls {
    TicCalls(records, Announced(records))
  }

  function AnnouncedAll(lists: seq<seq<Record>>): seq<External> {
    if lists == [] then [] else Announced(lists[0]) + AnnouncedAll(lists[1..])
  }

  function IndexOf(names: seq<string>, name: string): (i: nat)
    ensures i <= |names| && (forall j | 0 <= j < i :: names[j] != name)
    ensures i < |names| ==> names[i] == name
  {
    if names == [] || names[0] == name then 0 else 1 + IndexOf(names[1..], name)
  }

  /** `set_node_state`: only the first node of that name changes. */
  function SetState(names: seq<string>, states: seq<nat>, name: string, state: nat): seq<nat>
    requires |names| == |states|
  {
    var i := IndexOf(names, name);
    if i < |names| then states[i := state] else states
  }

  /** `on_message`: only a status message that carries a status changes anything. */
  function StatesAfter(names: seq<string>, states: seq<nat>, msg: Backchannel): seq<nat>
    requires |names| == |states|
  {
    match msg
    case StatusChange(node, Some(StReady)) => SetState(names, states, node, READY)
    case StatusChange(node, Some(StError)) => SetState(names, states, node, ERROR)
    case StatusChange(node, Some(StFinished)) => SetState(names, states, node, FINISHED)
    case _ => states
  }

  predicate AllReady(states: seq<nat>) {
    forall i | 0 <= i < |states| :: states[i] == READY
  }

  function SyncNotice(name: string): Record {
    Record(name, None, 0)
  }

  class Server {
    const ticLength: nat
    const names: seq<string>
    const states: array<nat>
    var tic: nat
    var timestamp: int
    /** The calls of the communication plugin's `notify_fail` and `notify_extern`. */
    var notified: seq<Record>
    var external: seq<External>
    /** The calls each tic made, tic by tic. */
    var ticLog: seq<TicCalls>

    ghost predicate Valid()
      reads this
    {
      states.Length == |names|
    }

    constructor (names: seq<string>, ticLength: nat)
      ensures Valid() && fresh(states)
      ensures this.names == names && this.ticLength == ticLength
      ensures forall i | 0 <= i < states.Length :: states[i] == UNKNOWN
      ensures tic == 0 && notified == [] && external == [] && ticLog == []
    {
      this.names, this.ticLength := names, ticLength;
      states := new nat[|names|](_ => UNKNOWN);
      tic, timestamp := 0, 0;
      notified, external, ticLog := [], [], [];
    }

    method AllNodesReady() returns (ready: bool)
      requires Valid()
      ensures ready <==> AllReady(states[..])
    {
      for i := 0 to |names|
        invariant forall j | 0 <= j < i :: states[j] == READY
      {
        if states[i] != READY {
          assert states[..][i] != READY;
          return false;
        }
      }
      ready := true;
    }

    method SetNodeState(name: string, state: nat) returns (r: int)
      requires Valid()
      modifies states
      ensures states[..] == SetState(names, old(states[..]), name, state)
      ensures r == if name in names then 0 else 1
    {
      for i := 0 to |names|
        invariant forall j | 0 <= j < i :: names[j] != name
        invariant states[..] == old(states[..])
      {
        if name == names[i] {
          states[i] := state;
          FoundAt(names, name, i);
          return 0;
        }
      }
      FoundAt(names, name, |names|);
      return 1;
    }

    method OnMessage(back: Backchannel)
      requires Valid()
      modifies states
      ensures states[..] == StatesAfter(names, old(states[..]), back)
    {
      match back
      case StatusChange(nodeName, newStatus) =>
        if newStatus.Some? {
          var state := match newStatus.value
            case StReady => READY
            case StError => ERROR
            case StFinished => FINISHED;
          var _ := SetNodeState(nodeName, state);
        }
      case _ =>
    }

    method SendSyncedSignal()
      modifies this`notified
      ensures notified == old(notified) + Map(SyncNotice, names)
      ensures forall i | 0 <= i < |names| :: notified[|old(notified)| + i] == Record(names[i], None, 0)
    {
      for i := 0 to |names|
        invariant notified == old(notified) + Map(SyncNotice, names[..i])
      {
        notified := notified + [Record(names[i], None, 0)];
        assert Map(SyncNotice, names[..i + 1]) == Map(SyncNotice, names[..i]) + [SyncNotice(names[i])];
      }
      assert names[..|names|] == names;
    }

    /** Passes the faults of a tic on, one by one, and the whole-node ones as one external message. */
    method ManageFails(failed: seq<Fault>)
      modifies this`notified, this`external
      ensures notified == old(notified) + Records(failed)
      ensures external == old(external) + Announced(Records(failed))
    {
      if |failed| > 0 {
        var failing, spare := [], [];
        for i := 0 to |failed|
          invariant notified == old(notified) + Records(failed[..i]) && external == old(external)
          invariant failing == NodesWith(Records(failed[..i]), false)
          invariant spare == NodesWith(Records(failed[..i]), true)
        {
          var fault := failed[i].record;
          notified := notified + [fault];
          if fault.component == None {
            if fault.severity == 0 {
              spare := spare + [fault.node];
            } else {
              failing := failing + [fault.node];
            }
          }
          assert Records(failed[..i + 1])[..i] == Records(failed[..i]);
          assert Records(failed[..i + 1]) == Records(failed[..i]) + [fault];
        }
        assert failed[..|failed|] == failed;
        external := external + [External(failing, spare)];
      } else {
        assert Records(failed) == [];
      }
    }

    method SkipToEndOfTic(readings: seq<int>)
      requires ticLength > 0 ==> CatchesUp(timestamp + ticLength, ticLength, readings)
      modifies this`tic, this`timestamp
      ensures Clock(tic, timestamp) == Advance(old(Clock(tic, timestamp)), ticLength, readings)
    {
      hide CatchesUp, CaughtUp, Skips;
      var skip: word32 := 0;
      tic := tic + 1;
      if ticLength == 0 {
        return;
      }
      timestamp := timestamp + ticLength;
      ghost var skips := Skips(timestamp, ticLength, readings);
      ghost var end := CaughtUp(timestamp, ticLength, readings);
      var k := 0;
      assert readings[0..] == readings;
      MeetDeadline(timestamp, ticLength, readings);
      while timestamp < readings[k]
        invariant k < |readings| && skip == k % TWO_TO_32 && tic == old(tic) + 1
        invariant CatchesUp(timestamp, ticLength, readings[k..])
        invariant CaughtUp(timestamp, ticLength, readings[k..]) == end
        invariant skips == k + Skips(timestamp, ticLength, readings[k..])
        decreases |readings| - k
      {
        PassDeadline(timestamp, ticLength, readings[k..]);
        CountSkip(k);
        assert readings[k..][1..] == readings[k + 1..];
        skip := (skip + 1) % TWO_TO_32;
        timestamp := timestamp + ticLength;
        k := k + 1;
        MeetDeadline(timestamp, ticLength, readings[k..]);
      }
      MeetDeadline(timestamp, ticLength, readings[k..]);
      tic := tic + skip;
    }

    /** One tic, given what the fault manager returned for it and what the clock shows. */
    method DoTic(failed: seq<Fault>, now: int, readings: seq<int>)
      requires var start := if tic == 0 then now else timestamp;
               ticLength > 0 ==> CatchesUp(start + ticLength, ticLength, readings)
      modifies this
      ensures notified == old(notified) + Records(failed)
      ensures external == old(external) + Announced(Records(failed))
      ensures ticLog == old(ticLog) + [TicCalls(Records(failed), Announced(Records(failed)))]
      ensures var start := if old(tic) == 0 then now else old(timestamp);
              Clock(tic, timestamp) == Advance(Clock(old(tic), start), ticLength, readings)
    {
      var notices, news := |notified|, |external|;
      if tic == 0 {
        timestamp := now;
      }
      ManageFails(failed);
      SkipToEndOfTic(readings);
      ticLog := ticLog + [TicCalls(notified[notices..], external[news..])];
    }
  }

  lemma FoundAt(names: seq<string>, name: string, i: nat)
    requires i <= |names| && (forall j | 0 <= j < i :: names[j] != name)
    requires i < |names| ==> names[i] == name
    ensures IndexOf(names, name) == i
  {
  }

  // ---------- What readiness means ----------

  function StatesAfterAll(names: seq<string>, states: seq<nat>, msgs: seq<Backchannel>): (r: seq<nat>)
    requires |names| == |states|
    ensures |r| == |names|
    decreases msgs
  {
    if msgs == [] then states else StatesAfterAll(names, StatesAfter(names, states, msgs[0]), msgs[1..])
  }

  /** The state a node was last reported in. */
  function LastReported(msgs: seq<Backchannel>, name: string): nat {
    if msgs == [] then UNKNOWN
    else
      match msgs[|msgs| - 1]
      case StatusChange(node, Some(status)) =>
        if node == name then
          match status
          case StReady => READY
          case StError => ERROR
          case StFinished => FINISHED
        else LastReported(msgs[..|msgs| - 1], name)
      case _ => LastReported(msgs[..|msgs| - 1], name)
  }

  function AllUnknown(n: nat): seq<nat> {
    seq(n, _ => UNKNOWN)
  }

  lemma {:induction false} StatesAfterSnoc(names: seq<string>, states: seq<nat>, msgs: seq<Backchannel>)
    requires |names| == |states| && msgs != []
    ensures StatesAfterAll(names, states, msgs)
         == StatesAfter(names, StatesAfterAll(names, states, msgs[..|msgs| - 1]), msgs[|msgs| - 1])
    decreases msgs
  {
    if |msgs| > 1 {
      StatesAfterSnoc(names, StatesAfter(names, states, msgs[0]), msgs[1..]);
      assert msgs[1..][..|msgs| - 2] == msgs[..|msgs| - 1][1..];
    }
  }

  /** A node has the state it last reported -- if it is the first of its name, else never any. */
  lemma {:induction false} StateIsLastReported(names: seq<string>, msgs: seq<Backchannel>, i: nat)
    requires i < |names|
    ensures StatesAfterAll(names, AllUnknown(|names|), msgs)[i]
         == if IndexOf(names, names[i]) == i then LastReported(msgs, names[i]) else UNKNOWN
    decreases msgs
  {
    if msgs != [] {
      StatesAfterSnoc(names, AllUnknown(|names|), msgs);
      StateIsLastReported(names, msgs[..|msgs| - 1], i);
    }
  }

  /**
   All nodes count as ready exactly when no two share a name and each one's last report was
   `ready`: with a name used twice the wait for readiness never ends.
   */
  lemma ReadyExactly(names: seq<string>, msgs: seq<Backchannel>)
    ensures AllReady(StatesAfterAll(names, AllUnknown(|names|), msgs))
       <==> NoRepeats(names) && forall i | 0 <= i < |names| :: LastReported(msgs, names[i]) == READY
  {
    var states := StatesAfterAll(names, AllUnknown(|names|), msgs);
    forall i | 0 <= i < |names|
      ensures states[i] == if IndexOf(names, names[i]) == i then LastReported(msgs, names[i]) else UNKNOWN
    {
      StateIsLastReported(names, msgs, i);
    }
    hide StatesAfterAll;
    if AllReady(states) {
      forall i, j | 0 <= i < j < |names| ensures names[i] != names[j] {
        assert states[j] == READY;
        assert IndexOf(names, names[j]) == j;
      }
    } else {
      var i :| 0 <= i < |states| && states[i] != READY;
      assert IndexOf(names, names[i]) == i ==> LastReported(msgs, names[i]) != READY;
    }
  }
}
