/** Reproducibility down to the backends: a recorded run and its replay, over any two interleavings. */
module Reproduction {
  import opened Sequences
  import opened Delivery
  import opened Transcript
  import opened Pipeline
  import opened SyncStart
  import opened SyncSafety
  import opened EndToEnd
  import opened Runs

  /** The k-th tic that runs passes on the k-th of these lists, and nothing behind the last one. */
  predicate Follows(clients: set<string>, names: seq<string>, trace: seq<Action>, lists: seq<seq<Record>>) {
    forall k | 0 <= k < |trace| && trace[k].DoTic? ::
      var s := Reached(clients, names, trace[..k]);
      Next(names, s, trace[k]).tics > s.tics ==> trace[k].newFaults == ListAt(lists, s.tics)
  }

  lemma TicCounts(names: seq<string>, s: System, a: Action)
    requires |s.states| == |names|
    ensures var t := Next(names, s, a);
            if t.tics > s.tics then a.DoTic? && t.tics == s.tics + 1 && t.faults == s.faults + a.newFaults
            else t.tics == s.tics && t.faults == s.faults
  {
    hide Accepted, Route, TicMessages;
  }

  lemma {:induction false} ConcatAppend(a: seq<seq<Record>>, b: seq<seq<Record>>)
    ensures Concat(a + b) == Concat(a) + Concat(b)
  {
    if a == [] {
      assert a + b == b;
    } else {
      HeadOfAppend(a, b);
      ConcatAppend(a[1..], b);
      ConcatAssociates(a[0], Concat(a[1..]), Concat(b));
    }
  }

  lemma ExtendedAppend(lists: seq<seq<Record>>, m: nat, n: nat)
    requires m <= n
    ensures Extended(lists, m) == Extended(lists, n)[..m]
    ensures Concat(Extended(lists, m)) <= Concat(Extended(lists, n))
  {
    ConcatAppend(Extended(lists, n)[..m], Extended(lists, n)[m..]);
    assert Extended(lists, n)[..m] + Extended(lists, n)[m..] == Extended(lists, n);
  }

  lemma OneMoreList(lists: seq<seq<Record>>, n: nat)
    ensures Concat(Extended(lists, n + 1)) == Concat(Extended(lists, n)) + ListAt(lists, n)
  {
    assert Extended(lists, n + 1) == Extended(lists, n) + [ListAt(lists, n)];
    ConcatAppend(Extended(lists, n), [ListAt(lists, n)]);
    assert Concat([ListAt(lists, n)]) == ListAt(lists, n) + [];
  }

  /** The faults decided are those of the lists of the tics that have run. */
  lemma {:induction false} FaultsFollow(clients: set<string>, names: seq<string>, trace: seq<Action>,
                                        lists: seq<seq<Record>>)
    requires Follows(clients, names, trace, lists)
    ensures var s := Reached(clients, names, trace); s.faults == Concat(Extended(lists, s.tics))
    decreases |trace|
  {
    hide Next, Concat;
    if trace == [] {
      FreshFaults(clients, names, lists);
    } else {
      var n := |trace| - 1;
      var before := trace[..n];
      assert forall k | 0 <= k < n :: before[..k] == trace[..k] && before[k] == trace[k];
      FaultsFollow(clients, names, before, lists);
      var s := Reached(clients, names, before);
      TicCounts(names, s, trace[n]);
      OneMoreList(lists, s.tics);
    }
  }

  lemma FreshFaults(clients: set<string>, names: seq<string>, lists: seq<seq<Record>>)
    ensures var s := Reached(clients, names, []); s.faults == Concat(Extended(lists, s.tics))
  {
    assert Extended(lists, 0) == [];
  }

  /** One run of the system, and the messages one of its clients has handled so far. */
  datatype Session = Session(clients: set<string>, trace: seq<Action>, handled: seq<Message>)

  function EndOf(names: seq<string>, r: Session): (s: System)
    ensures |s.states| == |names|
  {
    Reached(r.clients, names, r.trace)
  }

  predicate Handles(names: seq<string>, r: Session, client: string) {
    var s := EndOf(names, r);
    client in r.clients && client in s.nodes && r.handled <= s.nodes[client].received
  }

  lemma MeantForPrefix(client: string, faults: seq<Record>, more: seq<Record>)
    requires faults <= more
    ensures MeantFor(client, faults) <= MeantFor(client, more)
  {
    hide FaultMessage, Addressed;
    var rest := more[|faults|..];
    assert more == faults + rest;
    AddressedAppend(client, faults, rest);
    MapAppend(FaultMessage, Addressed(client, faults), Addressed(client, rest));
  }

  lemma PrefixesCompare<T>(a: seq<T>, b: seq<T>, whole: seq<T>)
    requires a <= whole && b <= whole && |a| <= |b|
    ensures a <= b
  {
    assert a == whole[..|a|] && b == whole[..|b|];
  }

  lemma HandledCompare(client: string, faults: seq<Record>, faults': seq<Record>,
                       a: seq<Message>, b: seq<Message>, whole: seq<Record>)
    requires faults <= whole && faults' <= whole && |a| <= |b|
    requires a <= MeantFor(client, faults) && b <= MeantFor(client, faults')
    ensures a <= b
  {
    hide MeantFor;
    MeantForPrefix(client, faults, whole);
    MeantForPrefix(client, faults', whole);
    PrefixesCompare(a, b, MeantFor(client, whole));
  }

  lemma CallsCompare(a: seq<Message>, b: seq<Message>, uninitialised: nat)
    requires a <= b
    ensures CallsFor(Map(Understood, a), uninitialised) <= CallsFor(Map(Understood, b), uninitialised)
  {
    hide CallsFor, Understood;
    var rest := b[|a|..];
    assert b == a + rest;
    MapAppend(Understood, a, rest);
    CallsForPrefix(Map(Understood, a), Map(Understood, rest), uninitialised);
  }

  /** What a session handled, in a run over lists that begin like these. */
  lemma HandledInOrder(names: seq<string>, r: Session, client: string, lists: seq<seq<Record>>)
    requires OwnName(names, client) && client in names && NoRepeats(names) && Handles(names, r, client)
    requires Follows(r.clients, names, r.trace, lists)
    ensures r.handled <= MeantFor(client, Concat(Extended(lists, EndOf(names, r).tics)))
  {
    hide Reached, OwnName, NoRepeats, MeantFor, Concat, Extended, Follows;
    ArrivesInOrder(r.clients, names, r.trace, client);
    FaultsFollow(r.clients, names, r.trace, lists);
  }

  /** Two sessions over the same lists: the calls in one begin like those in the other. */
  lemma SessionsCompare(names: seq<string>, first: Session, second: Session, client: string,
                        lists: seq<seq<Record>>, uninitialised: nat)
    requires OwnName(names, client) && client in names && NoRepeats(names)
    requires Handles(names, first, client) && Follows(first.clients, names, first.trace, lists)
    requires Handles(names, second, client) && Follows(second.clients, names, second.trace, lists)
    requires |first.handled| <= |second.handled|
    ensures CallsFor(Map(Understood, first.handled), uninitialised)
         <= CallsFor(Map(Understood, second.handled), uninitialised)
  {
    hide EndOf, OwnName, NoRepeats, MeantFor, Concat, Extended, Follows, Handles, CallsFor, Understood;
    HandledInOrder(names, first, client, lists);
    HandledInOrder(names, second, client, lists);
    var m, n := EndOf(names, first).tics, EndOf(names, second).tics;
    var last := if m <= n then n else m;
    ExtendedAppend(lists, m, last);
    ExtendedAppend(lists, n, last);
    HandledCompare(client, Concat(Extended(lists, m)), Concat(Extended(lists, n)), first.handled, second.handled,
                   Concat(Extended(lists, last)));
    CallsCompare(first.handled, second.handled, uninitialised);
  }

  /** Following the replayed lists is following the recorded ones. */
  lemma FollowsExtended(clients: set<string>, names: seq<string>, trace: seq<Action>, lists: seq<seq<Record>>)
    requires Follows(clients, names, trace, Extended(lists, Reached(clients, names, trace).tics))
    ensures Follows(clients, names, trace, lists)
  {
    hide Reached, Next;
    forall k | 0 <= k < |trace| && trace[k].DoTic?
      ensures var s := Reached(clients, names, trace[..k]);
              Next(names, s, trace[k]).tics > s.tics ==> trace[k].newFaults == ListAt(lists, s.tics)
    {
      TicsGrow(clients, names, trace, k + 1);
      NextReached(clients, names, trace, k);
      TicCounts(names, Reached(clients, names, trace[..k]), trace[k]);
    }
  }

  lemma NextReached(clients: set<string>, names: seq<string>, trace: seq<Action>, k: nat)
    requires k < |trace|
    ensures Reached(clients, names, trace[..k + 1]) == Next(names, Reached(clients, names, trace[..k]), trace[k])
  {
    OneMoreStep(clients, names, trace[..k], trace[k]);
    assert trace[..k + 1] == trace[..k] + [trace[k]];
  }

  lemma {:induction false} TicsGrow(clients: set<string>, names: seq<string>, trace: seq<Action>, k: nat)
    requires k <= |trace|
    ensures Reached(clients, names, trace[..k]).tics <= Reached(clients, names, trace).tics
    decreases |trace| - k
  {
    hide Reached, Next;
    if k < |trace| {
      TicsGrow(clients, names, trace, k + 1);
      NextReached(clients, names, trace, k);
      TicCounts(names, Reached(clients, names, trace[..k]), trace[k]);
    } else {
      assert trace[..k] == trace;
    }
  }

  /** The names of the nodes that the opened file lists. */
  function NamesIn(file: string): seq<string>
    requires Open(file).Ok?
  {
    Map(NameOf, Open(file).value.0)
  }

  /**
   A system driven by any clean run, and another one by the replay of its recording, whatever
   the interleavings and the numbers of tics: a node's backend that has handled no more messages
   in one of them has made the calls that the other one's began with -- the same calls, then,
   for equally many messages, supported faults or not.
   */
  lemma BackendsReproduce(table: NodeTable, run: Run, recorded: Session, replayed: Session,
                          client: string, uninitialised: nat)
    requires CleanTable(table) && CleanRun(run)
    requires var names := Map(NameOf, table);
             && OwnName(names, client) && client in names && NoRepeats(names)
             && Handles(names, recorded, client) && Follows(recorded.clients, names, recorded.trace, run)
    requires Open(Recording(table, run)).Ok? ==>
               var names := NamesIn(Recording(table, run));
               && Handles(names, replayed, client)
               && Follows(replayed.clients, names, replayed.trace,
                          Replayed(Open(Recording(table, run)).value.1, EndOf(names, replayed).tics))
    ensures var first := CallsFor(Map(Understood, recorded.handled), uninitialised);
            var second := CallsFor(Map(Understood, replayed.handled), uninitialised);
            && (|recorded.handled| <= |replayed.handled| ==> first <= second)
            && (|replayed.handled| <= |recorded.handled| ==> second <= first)
  {
    hide Open, Recording, CleanTable, CleanRun, OwnName, NoRepeats, Follows, Handles, CallsFor, Understood;
    var names := Map(NameOf, table);
    ComesBackWhole(table, run, EndOf(names, replayed).tics);
    FollowsExtended(replayed.clients, names, replayed.trace, run);
    if |recorded.handled| <= |replayed.handled| {
      SessionsCompare(names, recorded, replayed, client, run, uninitialised);
    }
    if |replayed.handled| <= |recorded.handled| {
      SessionsCompare(names, replayed, recorded, client, run, uninitialised);
    }
  }
}
