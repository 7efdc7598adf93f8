/** Whole server runs over a fault manager (the tic loop of srv/main.cpp). */
module Runs {
  import opened Options
  import opened Sequences
  import opened CStrings
  import opened Numerals
  import opened Delivery
  import opened Transcript
  import opened RecordReplay
  import opened Clock
  import Server
  import opened Transcribe
  import opened Replay
  import opened RandomManager

  /** How often the loop runs: at most `maxTics` times unless that is 0, and until termination. */
  function Tics(maxTics: nat, termAt: nat): nat {
    if maxTics == 0 || termAt < maxTics then termAt else maxTics
  }

  /** The tics that run are those before termination and, unless it is 0, before the limit. */
  lemma TicsExactly(maxTics: nat, termAt: nat, k: nat)
    ensures k < Tics(maxTics, termAt) <==> k < termAt && (maxTics == 0 || k < maxTics)
  {
  }

  function NameOf(n: NodeInfo): string {
    n.name
  }

  function RunOf(lists: seq<seq<Fault>>): seq<seq<Record>> {
    Map(Records, lists)
  }

  lemma RunLinesCons(run: seq<seq<Record>>, tic: nat)
    requires run != []
    ensures Flatten(RunLines(run, tic))
         == MarkerLine(tic) + Flatten(Map(FaultLine, run[0])) + Flatten(RunLines(run[1..], tic + 1))
  {
    hide MarkerLine, FaultLine;
    var head := [MarkerLine(tic)] + Map(FaultLine, run[0]);
    FlattenCons(MarkerLine(tic), Map(FaultLine, run[0]));
    FlattenAppend(head, RunLines(run[1..], tic + 1));
  }

  /** The calls of each tic of a run. */
  function LogOf(run: seq<seq<Record>>): seq<Server.TicCalls> {
    Map(Server.CallsOfTic, run)
  }

  /** The calls a server has made: of each kind, and tic by tic. */
  datatype Calls = Calls(notified: seq<Record>, external: seq<Server.External>, ticLog: seq<Server.TicCalls>)

  /** The calls after a further run. */
  function Extend(made: Calls, run: seq<seq<Record>>): Calls {
    Calls(made.notified + Concat(run), made.external + Server.AnnouncedAll(run), made.ticLog + LogOf(run))
  }

  lemma ListsCons(run: seq<seq<Record>>)
    requires run != []
    ensures Concat(run) == run[0] + Concat(run[1..])
    ensures Server.AnnouncedAll(run) == Server.Announced(run[0]) + Server.AnnouncedAll(run[1..])
    ensures LogOf(run) == [Server.CallsOfTic(run[0])] + LogOf(run[1..])
  {
  }

  lemma NothingMore()
    ensures Flatten([]) == "" && forall tic :: RunLines([], tic) == []
    ensures Concat([]) == [] && Server.AnnouncedAll([]) == [] && LogOf([]) == []
  {
  }

  lemma ExtendStep(made: Calls, run: seq<seq<Record>>)
    requires run != []
    ensures var next := Calls(made.notified + run[0], made.external + Server.Announced(run[0]),
                              made.ticLog + [Server.CallsOfTic(run[0])]);
            Extend(next, run[1..]) == Extend(made, run)
  {
    ListsCons(run);
    hide Concat, Server.AnnouncedAll, LogOf;
    ConcatAssociates(made.notified, run[0], Concat(run[1..]));
    ConcatAssociates(made.external, Server.Announced(run[0]), Server.AnnouncedAll(run[1..]));
    ConcatAssociates(made.ticLog, [Server.CallsOfTic(run[0])], LogOf(run[1..]));
  }

  lemma ExtendMeans(made: Calls, run: seq<seq<Record>>)
    ensures Extend(made, run).notified == made.notified + Concat(run)
    ensures Extend(made, run).external == made.external + Server.AnnouncedAll(run)
    ensures Extend(made, run).ticLog == made.ticLog + LogOf(run)
  {
  }

  lemma ExtendNothing(made: Calls)
    ensures Extend(made, []) == made
  {
    NothingMore();
  }

  /** The file after one tic's marker and fault lines, and the lines still to come. */
  lemma FileStep(file: string, run: seq<seq<Record>>, tic: nat, whole: string)
    requires run != [] && file + Flatten(RunLines(run, tic)) == whole
    ensures file + MarkerLine(tic) + Flatten(Map(FaultLine, run[0])) + Flatten(RunLines(run[1..], tic + 1)) == whole
  {
    RunLinesCons(run, tic);
    hide RunLines, Flatten, MarkerLine, FaultLine;
    var marker, lines, rest := MarkerLine(tic), Flatten(Map(FaultLine, run[0])), Flatten(RunLines(run[1..], tic + 1));
    ConcatAssociates(file, marker, lines);
    ConcatAssociates(file, marker + lines, rest);
  }

  /** A run that is recorded: the transcriber hands on what the nested manager returns. */
  method RunRecording(server: Server.Server, t: Transcriber, nested: seq<seq<Fault>>,
                      maxTics: nat, termAt: nat, start: int, readings: seq<seq<int>>)
    requires server.tic == 0 && |nested| == |readings| == Tics(maxTics, termAt)
    requires AllCatchUp(Clock(0, start), server.ticLength, readings)
    modifies server, t
    ensures t.file == old(t.file) + Flatten(RunLines(RunOf(nested), old(t.ticNum)))
    ensures server.notified == old(server.notified) + Concat(RunOf(nested))
    ensures server.external == old(server.external) + Server.AnnouncedAll(RunOf(nested))
    ensures server.ticLog == old(server.ticLog) + LogOf(RunOf(nested))
    ensures readings != [] ==>
              Clock(server.tic, server.timestamp) == AdvanceAll(Clock(0, start), server.ticLength, readings)
  {
    hide MarkerLine, FaultLine, Advance, RunLines, Flatten, Concat, Server.AnnouncedAll, Server.Announced, LogOf;
    hide Records, ClockAt, Extend;
    StartAt(start, server.ticLength, readings, server.timestamp);
    ghost var run := RunOf(nested);
    ghost var calls := Extend(Calls(server.notified, server.external, server.ticLog), run);
    ExtendMeans(Calls(server.notified, server.external, server.ticLog), run);
    ghost var whole := t.file + Flatten(RunLines(run, t.ticNum));
    assert run[0..] == run;
    var ticNum := 0;
    while ticNum < termAt && (maxTics == 0 || maxTics > ticNum)
      invariant ticNum <= |run|
      invariant t.file + Flatten(RunLines(run[ticNum..], t.ticNum)) == whole
      invariant Extend(Calls(server.notified, server.external, server.ticLog), run[ticNum..]) == calls
      invariant ClockAt(server.tic, server.timestamp, ticNum, start, server.ticLength, readings)
      decreases |run| - ticNum
    {
      assert run[ticNum..][1..] == run[ticNum + 1..] && run[ticNum..][0] == Records(nested[ticNum]);
      FileStep(t.file, run[ticNum..], t.ticNum, whole);
      t.Tic();
      var failed := t.GetFail(nested[ticNum]);
      ClockStep(server.tic, server.timestamp, ticNum, start, server.ticLength, readings);
      ExtendStep(Calls(server.notified, server.external, server.ticLog), run[ticNum..]);
      server.DoTic(failed, start, readings[ticNum]);
      ticNum := ticNum + 1;
    }
    assert run[ticNum..] == [];
    ExtendNothing(Calls(server.notified, server.external, server.ticLog));
    NothingMore();
    if readings != [] {
      EndAt(server.tic, server.timestamp, start, server.ticLength, readings);
    }
  }

  lemma NextReplayed(c: Cursor, n: nat)
    requires n > 0
    ensures Replayed(c, n) != [] && Replayed(c, n)[0] == Step(c).1
    ensures Replayed(c, n)[1..] == Replayed(Step(c).0, n - 1) && After(c, n) == After(Step(c).0, n - 1)
  {
    hide Step;
  }

  /** A run over the replaying manager. */
  method RunReplaying(server: Server.Server, r: Replayer,
                      maxTics: nat, termAt: nat, start: int, readings: seq<seq<int>>)
    requires server.tic == 0 && |readings| == Tics(maxTics, termAt)
    requires AllCatchUp(Clock(0, start), server.ticLength, readings)
    requires Numbered(Lines(r.unread))
    modifies server, r
    ensures server.notified == old(server.notified) + Concat(Replayed(old(r.Position()), |readings|))
    ensures server.external
         == old(server.external) + Server.AnnouncedAll(Replayed(old(r.Position()), |readings|))
    ensures server.ticLog == old(server.ticLog) + LogOf(Replayed(old(r.Position()), |readings|))
    ensures r.Position() == After(old(r.Position()), |readings|)
    ensures readings != [] ==>
              Clock(server.tic, server.timestamp) == AdvanceAll(Clock(0, start), server.ticLength, readings)
  {
    hide Server.Announced, Server.AnnouncedAll, Advance, Step, Numbered, Concat, LogOf, Extend, ClockAt;
    hide Replayed, After;
    StartAt(start, server.ticLength, readings, server.timestamp);
    ghost var run := Replayed(r.Position(), |readings|);
    ghost var calls := Extend(Calls(server.notified, server.external, server.ticLog), run);
    ExtendMeans(Calls(server.notified, server.external, server.ticLog), run);
    ghost var end := After(r.Position(), |readings|);
    var ticNum := 0;
    while ticNum < termAt && (maxTics == 0 || maxTics > ticNum)
      invariant ticNum <= |readings|
      invariant Numbered(Lines(r.unread))
      invariant end == After(r.Position(), |readings| - ticNum)
      invariant Extend(Calls(server.notified, server.external, server.ticLog),
                       Replayed(r.Position(), |readings| - ticNum)) == calls
      invariant ClockAt(server.tic, server.timestamp, ticNum, start, server.ticLength, readings)
      decreases |readings| - ticNum
    {
      ghost var rest := Replayed(r.Position(), |readings| - ticNum);
      NextReplayed(r.Position(), |readings| - ticNum);
      r.Tic();
      var failed := r.GetFail();
      ClockStep(server.tic, server.timestamp, ticNum, start, server.ticLength, readings);
      ExtendStep(Calls(server.notified, server.external, server.ticLog), rest);
      server.DoTic(failed, start, readings[ticNum]);
      ticNum := ticNum + 1;
    }
    NothingReplayed(r.Position());
    ExtendNothing(Calls(server.notified, server.external, server.ticLog));
    if readings != [] {
      EndAt(server.tic, server.timestamp, start, server.ticLength, readings);
    }
  }

  lemma NothingReplayed(c: Cursor)
    ensures Replayed(c, 0) == [] && After(c, 0) == c
  {
  }

  /** The clock after `k` tics of a run, and that the rest of the run ends. */
  ghost predicate ClockAt(tic: nat, timestamp: int, k: nat, start: int, length: nat, readings: seq<seq<int>>) {
    && k <= |readings|
    && (k == 0 <==> tic == 0)
    && var c := Clock(tic, if tic == 0 then start else timestamp);
       && AllCatchUp(c, length, readings[k..])
       && AdvanceAll(c, length, readings[k..]) == AdvanceAll(Clock(0, start), length, readings)
  }

  lemma StartAt(start: int, length: nat, readings: seq<seq<int>>, timestamp: int)
    requires AllCatchUp(Clock(0, start), length, readings)
    ensures ClockAt(0, timestamp, 0, start, length, readings)
  {
    assert readings[0..] == readings;
  }

  lemma EndAt(tic: nat, timestamp: int, start: int, length: nat, readings: seq<seq<int>>)
    requires ClockAt(tic, timestamp, |readings|, start, length, readings) && readings != []
    ensures Clock(tic, timestamp) == AdvanceAll(Clock(0, start), length, readings)
  {
    assert readings[|readings|..] == [];
  }

  lemma ClockStep(tic: nat, timestamp: int, k: nat, start: int, length: nat, readings: seq<seq<int>>)
    requires ClockAt(tic, timestamp, k, start, length, readings) && k < |readings|
    ensures var begin := if tic == 0 then start else timestamp;
            && (length > 0 ==> CatchesUp(begin + length, length, readings[k]))
            && var c := Advance(Clock(tic, begin), length, readings[k]);
               ClockAt(c.tic, c.deadline, k + 1, start, length, readings)
  {
    assert readings[k..][1..] == readings[k + 1..];
  }

  /** A server run over a transcriber, from the first question for the nodes on. */
  method Record(table: NodeTable, nested: seq<seq<Fault>>, length: nat, start: int, readings: seq<seq<int>>)
    returns (server: Server.Server, file: string)
    requires |nested| == |readings| <= 0x8000_0000_0000_0000 && AllCatchUp(Clock(0, start), length, readings)
    ensures file == Recording(table, RunOf(nested)) && server.names == Map(NameOf, table)
    ensures server.notified == Concat(RunOf(nested)) && server.external == Server.AnnouncedAll(RunOf(nested))
    ensures server.ticLog == LogOf(RunOf(nested))
  {
    hide Recording, TableLines, RunLines, Concat, Server.AnnouncedAll, LogOf, AllCatchUp;
    var t := new Transcriber();
    var nodes := t.GetNodes(Ok(table));
    server := new Server.Server(Map(NameOf, nodes.value), length);
    RunRecording(server, t, nested, 0, |nested|, start, readings);
    WholeFile(table, RunOf(nested));
    file := t.file;
  }

  /** A server run over the replayed file. */
  method ReplayFile(file: string, length: nat, start: int, readings: seq<seq<int>>) returns (server: Server.Server)
    requires Open(file).Ok? && Defined(file) && AllCatchUp(Clock(0, start), length, readings)
    ensures server.names == Map(NameOf, Open(file).value.0)
    ensures server.notified == Concat(Replayed(Open(file).value.1, |readings|))
    ensures server.external == Server.AnnouncedAll(Replayed(Open(file).value.1, |readings|))
    ensures server.ticLog == LogOf(Replayed(Open(file).value.1, |readings|))
  {
    hide Concat, Server.AnnouncedAll, LogOf, AllCatchUp, Open, ParseTable, Numbered, FirstMarkerNumbered, FirstMarker;
    OpensDefined(file);
    var r := new Replayer(file);
    var nodes := r.GetNodes();
    server := new Server.Server(Map(NameOf, nodes.value), length);
    RunReplaying(server, r, 0, |readings|, start, readings);
  }

  /** The k-th list of a run, and nothing once the run is over. */
  function ListAt(run: seq<seq<Record>>, k: nat): seq<Record> {
    if k < |run| then run[k] else []
  }

  /** The first `n` lists of a run, with empty ones behind its end. */
  function Extended(run: seq<seq<Record>>, n: nat): seq<seq<Record>> {
    seq(n, k requires 0 <= k < n => ListAt(run, k))
  }

  /**
   Reproducibility: a server run that records, and a run over the replayed recording, make the
   same calls to the actors and to external programs in each n-th tic, in the same order --
   whatever the two tic lengths, clocks, run lengths and random fault identities are. A longer
   replaying run makes no calls in the tics behind the recorded ones.
   */
  method RecordThenReplay(table: NodeTable, nested: seq<seq<Fault>>, length1: nat, length2: nat,
                          start1: int, start2: int, readings1: seq<seq<int>>, readings2: seq<seq<int>>)
    returns (first: Server.Server, second: Server.Server)
    requires CleanTable(table) && CleanRun(RunOf(nested)) && |nested| == |readings1| <= 0x8000_0000_0000_0000
    requires AllCatchUp(Clock(0, start1), length1, readings1) && AllCatchUp(Clock(0, start2), length2, readings2)
    ensures first.names == second.names == Map(NameOf, table)
    ensures |first.ticLog| == |nested| && |second.ticLog| == |readings2|
    ensures forall k | 0 <= k < |nested| ::
              first.ticLog[k] == Server.TicCalls(RunOf(nested)[k], Server.Announced(RunOf(nested)[k]))
    ensures forall k | 0 <= k < |readings2| ::
              var list := ListAt(RunOf(nested), k); second.ticLog[k] == Server.TicCalls(list, Server.Announced(list))
    ensures first.notified == Concat(RunOf(nested)) && first.external == Server.AnnouncedAll(RunOf(nested))
    ensures |readings2| >= |nested| ==> second.notified == first.notified && second.external == first.external
  {
    hide Recording, Open, CleanTable, CleanRun, Defined, Concat, Server.AnnouncedAll, Server.Announced, AllCatchUp;
    var file;
    first, file := Record(table, nested, length1, start1, readings1);
    RecordingOpens(table, RunOf(nested));
    second := ReplayFile(file, length2, start2, readings2);
    ComesBackWhole(table, RunOf(nested), |readings2|);
    if |readings2| >= |nested| {
      ExtendedAddsNothing(RunOf(nested), |readings2|);
    }
  }

  lemma ComesBackWhole(table: NodeTable, run: Run, n: nat)
    requires CleanTable(table) && CleanRun(run)
    ensures Open(Recording(table, run)).Ok? && Open(Recording(table, run)).value.0 == table
    ensures Replayed(Open(Recording(table, run)).value.1, n) == Extended(run, n)
  {
    hide Open, Defined, Recording, CleanTable, CleanRun;
    RoundTripExactly(table, run);
  }

  lemma NothingAnnounced()
    ensures Server.Announced([]) == []
  {
  }

  lemma NothingExtended(run: seq<seq<Record>>)
    ensures Extended(run, 0) == []
  {
  }

  lemma FirstOfExtended(run: seq<seq<Record>>, n: nat)
    requires n > 0
    ensures Extended(run, n) != [] && Extended(run, n)[0] == ListAt(run, 0)
    ensures Extended(run, n)[1..] == Extended(if run == [] then [] else run[1..], n - 1)
  {
  }

  lemma {:induction false} ExtendedAddsNothing(run: seq<seq<Record>>, n: nat)
    requires n >= |run|
    ensures Concat(Extended(run, n)) == Concat(run)
    ensures Server.AnnouncedAll(Extended(run, n)) == Server.AnnouncedAll(run)
    decreases n
  {
    hide Concat, Server.Announced, Server.AnnouncedAll, LogOf, Extended;
    NothingMore();
    NothingAnnounced();
    if n == 0 {
      NothingExtended(run);
    } else {
      FirstOfExtended(run, n);
      ListsCons(Extended(run, n));
      ExtendedAddsNothing(if run == [] then [] else run[1..], n - 1);
      if run != [] {
        ListsCons(run);
      }
    }
  }

  lemma WholeFile(table: NodeTable, run: Run)
    ensures Recording(table, run) == Flatten(TableLines(table)) + Flatten(RunLines(run, 0))
  {
    FlattenAppend(TableLines(table), RunLines(run, 0));
  }

  lemma OpensDefined(text: string)
    requires Defined(text) && Open(text).Ok?
    ensures var rest := ParseTable(Lines(text)).value.1;
            && FirstMarkerNumbered(rest)
            && Open(text).value.1 == FirstMarker(rest)
            && Numbered(AfterFirst(rest))
  {
  }

  // ---------- Random runs ----------

  /** What is still to come of a random run, as the server will see it. */
  function StillToCome(healthy: seq<bool>, random: nat -> int, prob: int, drawn: nat, n: nat): seq<seq<Record>> {
    Map(FailuresOf, Failures(healthy, random, prob, drawn, n))
  }

  lemma NextList(healthy: seq<bool>, random: nat -> int, prob: int, drawn: nat, n: nat,
                      lists: seq<seq<Fault>>, failed: seq<Fault>)
    requires n > 0
    requires Records(failed) == Map(Failure, DrawFrom(healthy, random, prob, drawn, 0).failed)
    ensures var d := DrawFrom(healthy, random, prob, drawn, 0);
            RunOf(lists) + StillToCome(healthy, random, prob, drawn, n)
            == RunOf(lists + [failed]) + StillToCome(d.healthy, random, prob, d.drawn, n - 1)
  {
    hide DrawFrom, Records;
    var d := DrawFrom(healthy, random, prob, drawn, 0);
    var rest := Failures(d.healthy, random, prob, d.drawn, n - 1);
    MapCons(FailuresOf, [d.failed] + rest);
    assert ([d.failed] + rest)[1..] == rest;
    MapAppend(Records, lists, [failed]);
    assert Map(Records, [failed]) == [Records(failed)];
  }

  lemma NothingToCome(healthy: seq<bool>, random: nat -> int, prob: int, drawn: nat)
    ensures StillToCome(healthy, random, prob, drawn, 0) == [] && RunOf([]) == []
  {
  }

  /** The fault lists of `n` tics of a new random manager. */
  method DrawRandom(num: nat, random: nat -> int, prob: int, n: nat) returns (lists: seq<seq<Fault>>)
    ensures RunOf(lists) == RandomRun(num, random, prob, n)
  {
    ghost var allHealthy := seq(num, _ => true);
    NothingToCome(allHealthy, random, prob, 0);
    assert RandomRun(num, random, prob, n) == StillToCome(allHealthy, random, prob, 0, n);
    hide DrawFrom, Records, StillToCome, RunOf, RandomRun;
    var manager := new Random(num);
    assert manager.healthy[..] == allHealthy;
    lists := [];
    for k := 0 to n
      invariant manager.healthy.Length == manager.num && fresh(manager) && fresh(manager.healthy)
      invariant RunOf(lists) + StillToCome(manager.healthy[..], random, prob, manager.drawn, n - k)
             == StillToCome(allHealthy, random, prob, 0, n)
    {
      ghost var healthy, drawn := manager.healthy[..], manager.drawn;
      manager.Tic(random, prob);
      var failed := manager.GetFail();
      NextList(healthy, random, prob, drawn, n - k, lists, failed);
      lists := lists + [failed];
    }
    NothingToCome(manager.healthy[..], random, prob, manager.drawn);
  }

  /** A random run that is recorded and replayed: both servers make the same calls in each tic, always. */
  method RecordThenReplayRandom(num: nat, random: nat -> int, prob: int, length1: nat, length2: nat,
                                start1: int, start2: int, readings1: seq<seq<int>>, readings2: seq<seq<int>>)
    returns (first: Server.Server, second: Server.Server)
    requires num < TWO_TO_32 && |readings1| <= 0x8000_0000_0000_0000
    requires AllCatchUp(Clock(0, start1), length1, readings1) && AllCatchUp(Clock(0, start2), length2, readings2)
    ensures first.names == second.names == Map(NameOf, NodesOf(num))
    ensures |first.ticLog| == |readings1| && |second.ticLog| == |readings2|
    ensures var run := RandomRun(num, random, prob, |readings1|);
            && (forall k | 0 <= k < |readings1| ::
                 first.ticLog[k] == Server.TicCalls(run[k], Server.Announced(run[k])))
            && (forall k | 0 <= k < |readings2| ::
                 var list := ListAt(run, k); second.ticLog[k] == Server.TicCalls(list, Server.Announced(list)))
            && first.notified == Concat(run)
    ensures |readings2| >= |readings1| ==> second.notified == first.notified && second.external == first.external
  {
    hide AllCatchUp, Concat, CleanTable, CleanRun, Reproduced, RandomRun, Server.Announced, ListAt;
    var lists := DrawRandom(num, random, prob, |readings1|);
    RandomRunComesBack(num, random, prob, |readings1|);
    RoundTripExactly(NodesOf(num), RunOf(lists));
    assert |lists| == |RunOf(lists)|;
    first, second := RecordThenReplay(NodesOf(num), lists, length1, length2, start1, start2, readings1, readings2);
  }
}
