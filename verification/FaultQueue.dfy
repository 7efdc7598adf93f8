/** The client's receive queue (client/src/mqtt.c) and the loop that empties it (client/src/client.c). */
module FaultQueue {
  import opened Sequences
  import opened CStrings
  import opened Pipeline

  /** A message as the network library passes it to `on_message`. */
  datatype Arrival = Arrival(topic: string, payload: string)

  /** One round of the network loop: what arrived during it, and whether it ended with an error. */
  datatype Round = Round(arrivals: seq<Arrival>, failed: bool)

  function DecodeArrival(a: Arrival): ClientFault {
    Decode(a.topic, a.payload)
  }

  /** The rounds one call of `get_faults` goes through: until nothing arrives, or an error. */
  predicate Complete(rounds: seq<Round>) {
    && rounds != []
    && (forall k | 0 <= k < |rounds| - 1 :: !rounds[k].failed && rounds[k].arrivals != [])
    && var last := rounds[|rounds| - 1]; last.failed || last.arrivals == []
  }

  function Arrivals(rounds: seq<Round>): seq<Arrival> {
    if rounds == [] then [] else rounds[0].arrivals + Arrivals(rounds[1..])
  }

  class Queue {
    /** The faults not handed out yet, those handed out last, and the flag `on_message` sets. */
    var faults: seq<ClientFault>
    var faultsSave: seq<ClientFault>
    var rcv: bool

    constructor ()
      ensures faults == [] && faultsSave == []
    {
      faults, faultsSave, rcv := [], [], false;
    }

    method OnMessage(msg: Arrival)
      modifies this`faults, this`rcv
      ensures faults == old(faults) + [DecodeArrival(msg)] && rcv
      ensures faults[|old(faults)|] == Decode(msg.topic, msg.payload)
    {
      rcv := true;
      faults := faults + [Decode(msg.topic, msg.payload)];
    }

    /** Runs the network loop until it is quiet. On an error nothing is handed out and nothing lost. */
    method GetFaults(rounds: seq<Round>) returns (batch: seq<ClientFault>)
      requires Complete(rounds)
      modifies this
      ensures batch + faults == old(faults) + Map(DecodeArrival, Arrivals(rounds))
      ensures if rounds[|rounds| - 1].failed then batch == [] && faultsSave == old(faultsSave)
              else faults == [] && batch == faultsSave
    {
      hide DecodeArrival, Arrivals, Complete, Decode;
      var k := 0;
      assert rounds[0..] == rounds;
      SomeRound(rounds);
      while true
        invariant k < |rounds| && faultsSave == old(faultsSave)
        invariant faults + Map(DecodeArrival, Arrivals(rounds[k..]))
               == old(faults) + Map(DecodeArrival, Arrivals(rounds))
        decreases |rounds| - k
      {
        rcv := false;
        var arrivals := rounds[k].arrivals;
        ghost var before := faults;
        NoneArrived(before);
        for i := 0 to |arrivals|
          invariant faults == before + Map(DecodeArrival, arrivals[..i]) && faultsSave == old(faultsSave)
          invariant rcv <==> i > 0
        {
          OneArrival(before, arrivals, i);
          OnMessage(arrivals[i]);
        }
        assert arrivals[..|arrivals|] == arrivals;
        RoundOver(rounds, k, before);
        if rounds[k].failed {
          return [];
        }
        if !rcv {
          break;
        }
        k := k + 1;
      }
      faultsSave := faults;
      faults := [];
      batch := faultsSave;
    }
  }

  lemma SomeRound(rounds: seq<Round>)
    requires Complete(rounds)
    ensures rounds != []
  {
  }

  lemma NoneArrived(before: seq<ClientFault>)
    ensures before + Map(DecodeArrival, []) == before
  {
  }

  lemma OneArrival(before: seq<ClientFault>, arrivals: seq<Arrival>, i: nat)
    requires i < |arrivals|
    ensures before + Map(DecodeArrival, arrivals[..i + 1])
         == before + Map(DecodeArrival, arrivals[..i]) + [DecodeArrival(arrivals[i])]
  {
    hide DecodeArrival;
    assert arrivals[..i + 1] == arrivals[..i] + [arrivals[i]];
    MapAppend(DecodeArrival, arrivals[..i], [arrivals[i]]);
    assert Map(DecodeArrival, [arrivals[i]]) == [DecodeArrival(arrivals[i])];
  }

  /** The arrivals of a round move from what is to come into the queue; after the last one none are to come. */
  lemma RoundOver(rounds: seq<Round>, k: nat, before: seq<ClientFault>)
    requires Complete(rounds) && k < |rounds|
    ensures before + Map(DecodeArrival, Arrivals(rounds[k..]))
         == before + Map(DecodeArrival, rounds[k].arrivals) + Map(DecodeArrival, Arrivals(rounds[k + 1..]))
    ensures rounds[k].failed || rounds[k].arrivals == [] <==> k == |rounds| - 1
    ensures k == |rounds| - 1 ==> Map(DecodeArrival, Arrivals(rounds[k + 1..])) == []
  {
    hide DecodeArrival;
    assert rounds[k..][1..] == rounds[k + 1..];
    MapAppend(DecodeArrival, rounds[k].arrivals, Arrivals(rounds[k + 1..]));
  }

  function AllArrivals(calls: seq<seq<Round>>): seq<Arrival> {
    if calls == [] then [] else Arrivals(calls[0]) + AllArrivals(calls[1..])
  }

  /**
   The client's main loop, from its start until it is told to stop after `|calls|` calls of
   `get_faults`. Everything that arrived has been forwarded exactly once and in order, or is
   still in the queue because the last call failed; and what the backend reads makes it call
   what was forwarded asks for.
   */
  method ClientMain(calls: seq<seq<Round>>) returns (fifo: string, queue: Queue)
    requires forall k | 0 <= k < |calls| :: Complete(calls[k])
    ensures exists forwarded ::
              && forwarded + queue.faults == Map(DecodeArrival, AllArrivals(calls))
              && fifo == WholeFifo(forwarded)
              && fifo != ""
              && forall u: nat {:trigger CallsFor(forwarded, u)} ::
                   Execute(Lines(fifo[1..]), u) == CallsFor(forwarded, u)
  {
    hide DecodeArrival, Complete, AllArrivals, Arrivals, Client.Written;
    NoArrivals();
    queue := new Queue();
    var client := new Client();
    ghost var forwarded := [];
    assert calls[0..] == calls;
    for k := 0 to |calls|
      invariant forwarded + queue.faults + Map(DecodeArrival, AllArrivals(calls[k..]))
             == Map(DecodeArrival, AllArrivals(calls))
      invariant client.fifo == Client.Written(false, forwarded)
      invariant client.synced == (forwarded != [])
    {
      assert calls[k..][1..] == calls[k + 1..];
      NextArrivals(calls[k..]);
      MapAppend(DecodeArrival, Arrivals(calls[k]), AllArrivals(calls[k + 1..]));
      ghost var rest := Map(DecodeArrival, AllArrivals(calls[k + 1..]));
      ghost var pending, new' := queue.faults, Map(DecodeArrival, Arrivals(calls[k]));
      var flt := queue.GetFaults(calls[k]);
      BatchMoved(forwarded, flt, queue.faults, pending, new', rest);
      client.Forward(flt);
      WrittenAppend(false, forwarded, flt);
      forwarded := forwarded + flt;
    }
    assert calls[|calls|..] == [];
    fifo := client.fifo + "exit\n";
    forall u: nat ensures fifo != "" && Execute(Lines(fifo[1..]), u) == CallsFor(forwarded, u) {
      BackendReadsFifo(forwarded, u);
    }
  }

  lemma NextArrivals(calls: seq<seq<Round>>)
    requires calls != []
    ensures AllArrivals(calls) == Arrivals(calls[0]) + AllArrivals(calls[1..])
  {
  }

  lemma NoArrivals()
    ensures Map(DecodeArrival, AllArrivals([])) == [] && Client.Written(false, []) == ""
  {
  }

  lemma BatchMoved<T>(done: seq<T>, batch: seq<T>, left: seq<T>, pending: seq<T>, arrived: seq<T>, rest: seq<T>)
    requires batch + left == pending + arrived
    ensures done + batch + left + rest == done + pending + (arrived + rest)
  {
    assert done + batch + left + rest == done + (batch + left) + rest;
    assert done + pending + (arrived + rest) == done + (pending + arrived) + rest;
  }
}
