/** The random fault manager (plugins/random/random.c), driven by an arbitrary random stream. */
module RandomManager {
  import opened Options
  import opened Sequences
  import opened CStrings
  import opened Numerals
  import opened Delivery
  import opened Transcript
  import opened RoundTrip
  import opened RecordReplay

  function NodeName(i: nat): string {
    "node" + Decimal(i)
  }

  /** What the failure of node `i` is reported as. */
  function Failure(i: nat): Record {
    Record(NodeName(i), None, 100)
  }

  /** The nodes still healthy after a tic, those that failed in it, the random numbers used so far. */
  datatype Draw = Draw(healthy: seq<bool>, failed: seq<nat>, drawn: nat)

  /** The tic's loop from node `i` on. Only a healthy node takes a random number. */
  function DrawFrom(healthy: seq<bool>, random: nat -> int, prob: int, drawn: nat, i: nat): (d: Draw)
    requires i <= |healthy|
    ensures |d.healthy| == |healthy|
    decreases |healthy| - i
  {
    if i == |healthy| then Draw(healthy, [], drawn)
    else if !healthy[i] then DrawFrom(healthy, random, prob, drawn, i + 1)
    else if random(drawn) < prob then
      var d := DrawFrom(healthy[i := false], random, prob, drawn + 1, i + 1);
      d.(failed := [i] + d.failed)
    else DrawFrom(healthy, random, prob, drawn + 1, i + 1)
  }

  /** The failing nodes of `n` tics. */
  function Failures(healthy: seq<bool>, random: nat -> int, prob: int, drawn: nat, n: nat): (r: seq<seq<nat>>)
    ensures |r| == n
    decreases n
  {
    if n == 0 then []
    else
      var d := DrawFrom(healthy, random, prob, drawn, 0);
      [d.failed] + Failures(d.healthy, random, prob, d.drawn, n - 1)
  }

  function HealthAfter(healthy: seq<bool>, random: nat -> int, prob: int, drawn: nat, n: nat): (h: seq<bool>)
    ensures |h| == |healthy|
    decreases n
  {
    if n == 0 then healthy
    else
      var d := DrawFrom(healthy, random, prob, drawn, 0);
      HealthAfter(d.healthy, random, prob, d.drawn, n - 1)
  }

  class Random {
    const num: nat
    const healthy: array<bool>
    var faults: seq<Fault>
    /** How many numbers have been taken from the random stream. */
    var drawn: nat

    constructor (num: nat)
      ensures fresh(healthy) && this.num == num && healthy.Length == num
      ensures forall i | 0 <= i < num :: healthy[i]
      ensures faults == [] && drawn == 0
    {
      this.num := num;
      healthy := new bool[num](_ => true);
      faults, drawn := [], 0;
    }

    /** A manager without nodes refuses. */
    method GetNodes() returns (r: Result<NodeTable, int>)
      requires num < TWO_TO_32
      ensures r == if num == 0 then Err(-1) else Ok(NodesOf(num))
      ensures r.Ok? ==> |r.value| == num && forall i | 0 <= i < num :: r.value[i] == NodeInfo("node" + Decimal(i), [])
    {
      if num <= 0 {
        return Err(-1);
      }
      var table := [];
      for i := 0 to num
        invariant table == NodesOf(i)
      {
        table := table + [NodeInfo(NodeName(i), [])];
      }
      r := Ok(table);
    }

    method Tic(random: nat -> int, prob: int)
      requires healthy.Length == num
      modifies this`faults, this`drawn, healthy
      ensures var d := DrawFrom(old(healthy[..]), random, prob, old(drawn), 0);
              healthy[..] == d.healthy && Records(faults) == Map(Failure, d.failed) && drawn == d.drawn
    {
      hide Records, Failure, DrawFrom;
      faults := [];
      NothingFailed();
      ghost var whole := DrawFrom(healthy[..], random, prob, drawn, 0);
      ghost var failed: seq<nat> := [];
      NoneFailedBefore(whole);
      for i := 0 to num
        invariant Records(faults) == Map(Failure, failed)
        invariant var d := DrawFrom(healthy[..], random, prob, drawn, i);
                  whole == d.(failed := failed + d.failed)
      {
        DrawStep(healthy[..], random, prob, drawn, i);
        if healthy[i] {
          drawn := drawn + 1;
          if random(drawn - 1) < prob {
            ghost var before := healthy[..];
            healthy[i] := false;
            assert healthy[..] == before[i := false];
            AppendFailure(faults, failed, i);
            FailureIs(i);
            faults := faults + [Fault(0, Some("node-failed"), Record(NodeName(i), None, 100))];
            ConcatAssociates(failed, [i], DrawFrom(healthy[..], random, prob, drawn, i + 1).failed);
            failed := failed + [i];
          }
        }
      }
      DrawEnd(healthy[..], random, prob, drawn);
      assert failed + [] == failed;
    }

    method GetFail() returns (failed: seq<Fault>)
      ensures failed == faults
    {
      failed := faults;
    }
  }

  /** One node of the tic's loop. */
  lemma DrawStep(healthy: seq<bool>, random: nat -> int, prob: int, drawn: nat, i: nat)
    requires i < |healthy|
    ensures DrawFrom(healthy, random, prob, drawn, i)
         == if !healthy[i] then DrawFrom(healthy, random, prob, drawn, i + 1)
            else if random(drawn) < prob then
              var d := DrawFrom(healthy[i := false], random, prob, drawn + 1, i + 1);
              d.(failed := [i] + d.failed)
            else DrawFrom(healthy, random, prob, drawn + 1, i + 1)
  {
  }

  lemma DrawEnd(healthy: seq<bool>, random: nat -> int, prob: int, drawn: nat)
    ensures DrawFrom(healthy, random, prob, drawn, |healthy|) == Draw(healthy, [], drawn)
  {
  }

  lemma NoneFailedBefore(d: Draw)
    ensures d == d.(failed := [] + d.failed)
  {
  }

  lemma FailureIs(i: nat)
    ensures Failure(i) == Record(NodeName(i), None, 100)
  {
  }

  lemma NothingFailed()
    ensures Records([]) == Map(Failure, [])
  {
  }

  lemma AppendFailure(faults: seq<Fault>, failed: seq<nat>, i: nat)
    requires Records(faults) == Map(Failure, failed)
    ensures Records(faults + [Fault(0, Some("node-failed"), Failure(i))]) == Map(Failure, failed + [i])
  {
    hide Failure;
    MapAppend(RecordOf, faults, [Fault(0, Some("node-failed"), Failure(i))]);
    MapAppend(Failure, failed, [i]);
  }

  function NodeOf(i: nat): NodeInfo {
    NodeInfo(NodeName(i), [])
  }

  function NodesOf(n: nat): seq<NodeInfo> {
    seq(n, i requires 0 <= i < n => NodeOf(i))
  }

  // ---------- At most one failure per node ----------

  /** How many of the nodes from `i` up to, but not including, `j` are healthy. */
  function HealthyBetween(healthy: seq<bool>, i: nat, j: nat): nat
    requires i <= j <= |healthy|
    decreases j - i
  {
    if i == j then 0 else (if healthy[i] then 1 else 0) + HealthyBetween(healthy, i + 1, j)
  }

  lemma {:induction false} HealthyBetweenSame(a: seq<bool>, b: seq<bool>, i: nat, j: nat)
    requires |a| == |b| && i <= j <= |a| && forall k | i <= k < j :: a[k] == b[k]
    ensures HealthyBetween(a, i, j) == HealthyBetween(b, i, j)
    decreases j - i
  {
    if i < j {
      HealthyBetweenSame(a, b, i + 1, j);
    }
  }

  function CountHealthy(healthy: seq<bool>): nat {
    HealthyBetween(healthy, 0, |healthy|)
  }

  predicate Increasing(s: seq<nat>) {
    forall i, j | 0 <= i < j < |s| :: s[i] < s[j]
  }

  lemma {:induction false} CountUpdate(healthy: seq<bool>, from: nat, i: nat)
    requires from <= i < |healthy| && healthy[i]
    ensures HealthyBetween(healthy[i := false], from, |healthy|) == HealthyBetween(healthy, from, |healthy|) - 1
    decreases i - from
  {
    if from < i {
      CountUpdate(healthy, from + 1, i);
    } else {
      HealthyBetweenSame(healthy, healthy[i := false], i + 1, |healthy|);
    }
  }

  /** What a tic's loop from node `i` on does to the health of the nodes. */
  predicate DrawsFrom(healthy: seq<bool>, d: Draw, i: nat) {
    && |d.healthy| == |healthy| && Increasing(d.failed)
    && (forall j | j in d.failed :: i <= j < |healthy| && healthy[j])
    && (forall j | 0 <= j < |healthy| :: d.healthy[j] == (healthy[j] && j !in d.failed))
    && CountHealthy(d.healthy) + |d.failed| == CountHealthy(healthy)
  }

  lemma FailsFirst(healthy: seq<bool>, rest: Draw, i: nat)
    requires i < |healthy| && healthy[i] && DrawsFrom(healthy[i := false], rest, i + 1)
    ensures DrawsFrom(healthy, rest.(failed := [i] + rest.failed), i)
  {
    var failed := [i] + rest.failed;
    CountUpdate(healthy, 0, i);
    hide HealthyBetween;
    forall j, k | 0 <= j < k < |failed| ensures failed[j] < failed[k] {
      if j == 0 {
        assert rest.failed[k - 1] in rest.failed;
      }
    }
  }

  /** One tic fails healthy nodes, in increasing order, and those are exactly the ones that change. */
  lemma {:induction false} DrawMeans(healthy: seq<bool>, random: nat -> int, prob: int, drawn: nat, i: nat)
    requires i <= |healthy|
    ensures DrawsFrom(healthy, DrawFrom(healthy, random, prob, drawn, i), i)
    decreases |healthy| - i
  {
    if i < |healthy| {
      if !healthy[i] {
        DrawMeans(healthy, random, prob, drawn, i + 1);
      } else if random(drawn) < prob {
        DrawMeans(healthy[i := false], random, prob, drawn + 1, i + 1);
        FailsFirst(healthy, DrawFrom(healthy[i := false], random, prob, drawn + 1, i + 1), i);
      } else {
        DrawMeans(healthy, random, prob, drawn + 1, i + 1);
      }
    }
  }

  lemma DrawsOwnNumber(healthy: seq<bool>, random: nat -> int, prob: int, drawn: nat, i: nat)
    requires i < |healthy| && healthy[i]
    ensures i in DrawFrom(healthy, random, prob, drawn, i).failed <==> random(drawn) < prob
  {
    DrawMeans(healthy, random, prob, drawn + 1, i + 1);
    hide CountHealthy, Increasing;
  }

  /**
   Exactly which nodes a tic fails: the n-th healthy node takes the n-th number of the stream
   and fails if that number is below the threshold.
   */
  lemma {:induction false} DrawExactly(healthy: seq<bool>, random: nat -> int, prob: int, drawn: nat, i: nat, j: nat)
    requires i <= j < |healthy| && healthy[j]
    ensures j in DrawFrom(healthy, random, prob, drawn, i).failed
       <==> random(drawn + HealthyBetween(healthy, i, j)) < prob
    decreases j - i
  {
    DrawStep(healthy, random, prob, drawn, i);
    hide DrawFrom;
    if i == j {
      DrawsOwnNumber(healthy, random, prob, drawn, i);
    } else if healthy[i] && random(drawn) < prob {
      DrawExactly(healthy[i := false], random, prob, drawn + 1, i + 1, j);
      HealthyBetweenSame(healthy, healthy[i := false], i + 1, j);
    } else {
      DrawExactly(healthy, random, prob, if healthy[i] then drawn + 1 else drawn, i + 1, j);
    }
  }

  /** A tic takes one number for each healthy node. */
  lemma {:induction false} DrawnCount(healthy: seq<bool>, random: nat -> int, prob: int, drawn: nat, i: nat)
    requires i <= |healthy|
    ensures DrawFrom(healthy, random, prob, drawn, i).drawn == drawn + HealthyBetween(healthy, i, |healthy|)
    decreases |healthy| - i
  {
    if i < |healthy| {
      if healthy[i] && random(drawn) < prob {
        DrawnCount(healthy[i := false], random, prob, drawn + 1, i + 1);
        HealthyBetweenSame(healthy, healthy[i := false], i + 1, |healthy|);
      } else {
        DrawnCount(healthy, random, prob, if healthy[i] then drawn + 1 else drawn, i + 1);
      }
    }
  }

  /** The numbers taken before tic `k`: in each tic before it, one for each node healthy then. */
  function NumbersBefore(healthy: seq<bool>, random: nat -> int, prob: int, drawn: nat, k: nat): nat
    decreases k
  {
    if k == 0 then drawn
    else
      NumbersBefore(healthy, random, prob, drawn, k - 1)
      + CountHealthy(HealthAfter(healthy, random, prob, drawn, k - 1))
  }

  lemma {:induction false} NumbersFromNext(healthy: seq<bool>, random: nat -> int, prob: int, drawn: nat, k: nat)
    ensures var d := DrawFrom(healthy, random, prob, drawn, 0);
            NumbersBefore(healthy, random, prob, drawn, k + 1) == NumbersBefore(d.healthy, random, prob, d.drawn, k)
    decreases k
  {
    hide DrawFrom, HealthyBetween;
    DrawnCount(healthy, random, prob, drawn, 0);
    if k > 0 {
      NumbersFromNext(healthy, random, prob, drawn, k - 1);
    } else {
      assert HealthAfter(healthy, random, prob, drawn, 0) == healthy;
    }
  }

  /**
   Over a whole run: a node fails in tic `k` exactly when it is still healthy and its own number
   is below the threshold -- the one behind all those taken in earlier tics, one for each node
   healthy at the time, and behind those of the healthy nodes before it.
   */
  lemma {:induction false} FailsExactly(healthy: seq<bool>, random: nat -> int, prob: int, drawn: nat,
                                        n: nat, k: nat, j: nat)
    requires k < n && j < |healthy|
    ensures var h := HealthAfter(healthy, random, prob, drawn, k);
            j in Failures(healthy, random, prob, drawn, n)[k]
            <==> h[j] && random(NumbersBefore(healthy, random, prob, drawn, k) + HealthyBetween(h, 0, j)) < prob
    decreases k
  {
    hide DrawFrom, HealthyBetween;
    var d := DrawFrom(healthy, random, prob, drawn, 0);
    if k == 0 {
      DrawMeans(healthy, random, prob, drawn, 0);
      if healthy[j] {
        DrawExactly(healthy, random, prob, drawn, 0, j);
      }
    } else {
      FailsExactly(d.healthy, random, prob, d.drawn, n - 1, k - 1, j);
      NumbersFromNext(healthy, random, prob, drawn, k - 1);
    }
  }

  function Joined(lists: seq<seq<nat>>): seq<nat> {
    if lists == [] then [] else lists[0] + Joined(lists[1..])
  }

  /**
   Over any run: no node fails twice, only nodes that were healthy fail, a node that failed
   stays failed, and the faults reported are as many as the nodes that stopped being healthy.
   */
  lemma {:induction false} AtMostOneFailure(healthy: seq<bool>, random: nat -> int, prob: int, drawn: nat, n: nat)
    ensures var all := Joined(Failures(healthy, random, prob, drawn, n));
            var end := HealthAfter(healthy, random, prob, drawn, n);
            && |end| == |healthy| && NoRepeats(all)
            && (forall j | j in all :: j < |healthy| && healthy[j])
            && (forall j | 0 <= j < |healthy| :: end[j] == (healthy[j] && j !in all))
            && CountHealthy(end) + |all| == CountHealthy(healthy)
    decreases n
  {
    if n > 0 {
      hide DrawFrom, CountHealthy;
      var d := DrawFrom(healthy, random, prob, drawn, 0);
      DrawMeans(healthy, random, prob, drawn, 0);
      AtMostOneFailure(d.healthy, random, prob, d.drawn, n - 1);
      var rest := Failures(d.healthy, random, prob, d.drawn, n - 1);
      var lists := Failures(healthy, random, prob, drawn, n);
      assert lists[1..] == rest && Joined(lists) == d.failed + Joined(rest);
      hide Failures, HealthAfter, Joined;
      FailedThenRest(healthy, d, Joined(rest), HealthAfter(d.healthy, random, prob, d.drawn, n - 1));
    }
  }

  lemma FailedThenRest(healthy: seq<bool>, d: Draw, later: seq<nat>, end: seq<bool>)
    requires DrawsFrom(healthy, d, 0) && |end| == |healthy| && NoRepeats(later)
    requires forall j | j in later :: j < |healthy| && d.healthy[j]
    requires forall j | 0 <= j < |healthy| :: end[j] == (d.healthy[j] && j !in later)
    requires CountHealthy(end) + |later| == CountHealthy(d.healthy)
    ensures var all := d.failed + later;
            && NoRepeats(all) && (forall j | j in all :: j < |healthy| && healthy[j])
            && (forall j | 0 <= j < |healthy| :: end[j] == (healthy[j] && j !in all))
            && CountHealthy(end) + |all| == CountHealthy(healthy)
  {
    hide CountHealthy;
    var all := d.failed + later;
    forall i, j | 0 <= i < j < |all| ensures all[i] != all[j] {
      if i < |d.failed| <= j {
        assert d.failed[i] in d.failed;
        assert later[j - |d.failed|] in later;
      }
    }
  }

  /** Each tic's list is in strictly increasing order of the nodes. */
  lemma {:induction false} ListsIncrease(healthy: seq<bool>, random: nat -> int, prob: int, drawn: nat, n: nat, k: nat)
    requires k < n
    ensures Increasing(Failures(healthy, random, prob, drawn, n)[k])
    decreases n
  {
    var d := DrawFrom(healthy, random, prob, drawn, 0);
    DrawMeans(healthy, random, prob, drawn, 0);
    if k > 0 {
      ListsIncrease(d.healthy, random, prob, d.drawn, n - 1, k - 1);
    }
  }

  // ---------- Recording a random run ----------

  /** No two nodes share a name. */
  lemma NodeNamesDistinct(i: nat, j: nat)
    requires NodeName(i) == NodeName(j)
    ensures i == j
  {
    assert NodeName(i)[4..] == Decimal(i);
    assert NodeName(j)[4..] == Decimal(j);
    DecimalInjective(i, j);
  }

  /** Node `i` is called `node` followed by the number `i`. */
  lemma NodeNameExactly(i: nat)
    requires i < TWO_TO_64
    ensures NodeName(i)[..4] == "node" && StrToUll(NodeName(i)[4..]) == Some(i)
  {
    hide StrToUll;
    assert NodeName(i)[4..] == Decimal(i) == Decimal(i) + [];
    DecimalReadBack(i, []);
  }

  lemma NodeNameIsClean(i: nat)
    ensures CleanName(NodeName(i)) && CleanField(NodeName(i))
  {
    forall c | c in NodeName(i) ensures c != ',' && c != '\n' && c != 't' {
      if c in Decimal(i) {
        DecimalChars(i, c);
      } else {
        assert c in "node";
      }
    }
    LacksFirst(NodeName(i), "tic#");
  }

  lemma FailureIsClean(i: nat)
    ensures CleanRecord(Failure(i))
  {
    NodeNameIsClean(i);
  }

  function FailuresOf(failed: seq<nat>): seq<Record> {
    Map(Failure, failed)
  }

  /** The recorded form of `n` tics of a random manager with `num` nodes. */
  function RandomRun(num: nat, random: nat -> int, prob: int, n: nat): (r: seq<seq<Record>>)
    ensures |r| == n
  {
    Map(FailuresOf, Failures(seq(num, _ => true), random, prob, 0, n))
  }

  /**
   What is reported in tic `k` of a run: whole nodes, with severity 100, and node `j` exactly when
   it is still healthy and its own number of the stream is below the threshold.
   */
  lemma RandomRunExactly(num: nat, random: nat -> int, prob: int, n: nat, k: nat, j: nat)
    requires k < n && j < num
    ensures var all := seq(num, _ => true);
            var h := HealthAfter(all, random, prob, 0, k);
            Record("node" + Decimal(j), None, 100) in RandomRun(num, random, prob, n)[k]
            <==> h[j] && random(NumbersBefore(all, random, prob, 0, k) + HealthyBetween(h, 0, j)) < prob
    ensures forall f | f in RandomRun(num, random, prob, n)[k] ::
              exists i: nat :: i < num && f == Record("node" + Decimal(i), None, 100)
  {
    hide Decimal, HealthAfter, HealthyBetween, NumbersBefore;
    var all := seq(num, _ => true);
    var failed := Failures(all, random, prob, 0, n)[k];
    var list := RandomRun(num, random, prob, n)[k];
    assert list == Map(Failure, failed);
    FailsExactly(all, random, prob, 0, n, k, j);
    FailedBelow(all, random, prob, 0, n, k);
    hide Failures;
    if Record(NodeName(j), None, 100) in list {
      var i :| 0 <= i < |list| && list[i] == Failure(j);
      assert list[i] == Failure(failed[i]);
      NodeNamesDistinct(j, failed[i]);
    }
    if j in failed {
      var i :| 0 <= i < |failed| && failed[i] == j;
      assert list[i] == Failure(j);
    }
    forall f | f in list ensures exists i: nat :: i < num && f == Record("node" + Decimal(i), None, 100) {
      var i :| 0 <= i < |list| && list[i] == f;
      assert failed[i] in failed;
      assert f == Record("node" + Decimal(failed[i]), None, 100);
    }
  }

  lemma {:induction false} FailedBelow(healthy: seq<bool>, random: nat -> int, prob: int, drawn: nat, n: nat, k: nat)
    requires k < n
    ensures forall j | j in Failures(healthy, random, prob, drawn, n)[k] :: j < |healthy|
    decreases n
  {
    hide DrawFrom;
    var d := DrawFrom(healthy, random, prob, drawn, 0);
    DrawMeans(healthy, random, prob, drawn, 0);
    if k > 0 {
      FailedBelow(d.healthy, random, prob, d.drawn, n - 1, k - 1);
    }
  }

  /**
   Recording a random run and replaying it always reproduces it: for every number of nodes,
   every random stream, every failure probability and every number of tics.
   */
  lemma RandomRunComesBack(num: nat, random: nat -> int, prob: int, n: nat)
    requires num < TWO_TO_32 && n <= 0x8000_0000_0000_0000
    ensures Reproduced(NodesOf(num), RandomRun(num, random, prob, n))
  {
    hide Reproduced, CleanName, CleanField, Failures;
    forall node | node in NodesOf(num) ensures CleanNode(node) {
      var i :| 0 <= i < num && node == NodeOf(i);
      NodeNameIsClean(i);
    }
    var lists := Failures(seq(num, _ => true), random, prob, 0, n);
    var run := RandomRun(num, random, prob, n);
    forall t, f | 0 <= t < n && f in run[t] ensures CleanRecord(f) {
      var i :| 0 <= i < |lists[t]| && f == Failure(lists[t][i]);
      FailureIsClean(lists[t][i]);
    }
    RoundTripExactly(NodesOf(num), run);
  }

  lemma {:induction false} ConcatIsJoined(lists: seq<seq<nat>>)
    ensures Concat(Map(FailuresOf, lists)) == Map(Failure, Joined(lists))
  {
    if lists == [] {
      assert Map(FailuresOf, lists) == [] && Map(Failure, Joined(lists)) == [];
    } else {
      ConcatIsJoined(lists[1..]);
      MapCons(FailuresOf, lists);
      MapAppend(Failure, lists[0], Joined(lists[1..]));
    }
  }

  /** Whatever the server passes on over a random run, no node name occurs in it twice. */
  lemma EachNodeReportedOnce(num: nat, random: nat -> int, prob: int, n: nat, i: nat, j: nat)
    requires i < j < |Concat(RandomRun(num, random, prob, n))|
    ensures var notices := Concat(RandomRun(num, random, prob, n)); notices[i].node != notices[j].node
  {
    hide NodeName;
    var lists := Failures(seq(num, _ => true), random, prob, 0, n);
    ConcatIsJoined(lists);
    AtMostOneFailure(seq(num, _ => true), random, prob, 0, n);
    var all := Joined(lists);
    if NodeName(all[i]) == NodeName(all[j]) {
      NodeNamesDistinct(all[i], all[j]);
    }
  }
}
