/** The server's tic counter against the wall clock (`skip_to_end_of_tic` of srv/server.cpp). */
module Clock {
  import opened Numerals

  /** `tic` counts tics, skipped ones included; `deadline` is when the current tic ends. */
  datatype Clock = Clock(tic: nat, deadline: int)

  /** The successive readings of the clock catch up with the deadlines: the source's loop ends. */
  predicate CatchesUp(deadline: int, length: nat, readings: seq<int>)
    decreases readings
  {
    readings != [] && (deadline < readings[0] ==> CatchesUp(deadline + length, length, readings[1..]))
  }

  /** How many deadlines have already passed when the clock is read. */
  function Skips(deadline: int, length: nat, readings: seq<int>): nat
    decreases readings
  {
    if readings != [] && deadline < readings[0] then 1 + Skips(deadline + length, length, readings[1..]) else 0
  }

  /** The deadline the loop ends with. */
  function CaughtUp(deadline: int, length: nat, readings: seq<int>): int
    decreases readings
  {
    if readings != [] && deadline < readings[0] then CaughtUp(deadline + length, length, readings[1..]) else deadline
  }

  /** One end of tic. The number of skipped tics is kept in an `unsigned`. */
  function Advance(c: Clock, length: nat, readings: seq<int>): Clock {
    if length == 0 then c.(tic := c.tic + 1)
    else
      var skips := Skips(c.deadline + length, length, readings);
      Clock(c.tic + 1 + skips % TWO_TO_32, CaughtUp(c.deadline + length, length, readings))
  }

  function AdvanceAll(c: Clock, length: nat, run: seq<seq<int>>): Clock
    decreases run
  {
    if run == [] then c else AdvanceAll(Advance(c, length, run[0]), length, run[1..])
  }

  /** Every end of tic of the run terminates. */
  predicate AllCatchUp(c: Clock, length: nat, run: seq<seq<int>>)
    decreases run
  {
    run == [] || ((length > 0 ==> CatchesUp(c.deadline + length, length, run[0]))
                  && AllCatchUp(Advance(c, length, run[0]), length, run[1..]))
  }

  /** One deadline that has passed: the loop goes on with the next one and the next reading. */
  lemma PassDeadline(deadline: int, length: nat, readings: seq<int>)
    requires CatchesUp(deadline, length, readings) && deadline < readings[0]
    ensures CatchesUp(deadline + length, length, readings[1..])
    ensures CaughtUp(deadline, length, readings) == CaughtUp(deadline + length, length, readings[1..])
    ensures Skips(deadline, length, readings) == 1 + Skips(deadline + length, length, readings[1..])
  {
  }

  /** A deadline that has not passed ends the loop. */
  lemma MeetDeadline(deadline: int, length: nat, readings: seq<int>)
    requires CatchesUp(deadline, length, readings)
    ensures readings != []
    ensures readings[0] <= deadline ==>
              CaughtUp(deadline, length, readings) == deadline && Skips(deadline, length, readings) == 0
  {
  }

  lemma CountSkip(k: nat)
    ensures (k % TWO_TO_32 + 1) % TWO_TO_32 == (k + 1) % TWO_TO_32
  {
    if k % TWO_TO_32 + 1 < TWO_TO_32 {
      assert k + 1 == k / TWO_TO_32 * TWO_TO_32 + (k % TWO_TO_32 + 1);
    } else {
      assert k + 1 == (k / TWO_TO_32 + 1) * TWO_TO_32;
    }
  }

  lemma MulStep(k: int, length: int)
    ensures (k + 1) * length == k * length + length
  {
  }

  lemma {:induction false} CaughtUpCounts(deadline: int, length: nat, readings: seq<int>)
    ensures CaughtUp(deadline, length, readings) == deadline + Skips(deadline, length, readings) * length
    decreases readings
  {
    if readings != [] && deadline < readings[0] {
      CaughtUpCounts(deadline + length, length, readings[1..]);
      MulStep(Skips(deadline + length, length, readings[1..]), length);
    }
  }

  /** The loop ends with the first deadline that is not before the clock. */
  lemma {:induction false} SkipsIsLeast(deadline: int, length: nat, readings: seq<int>, j: nat)
    requires CatchesUp(deadline, length, readings)
    ensures var k := Skips(deadline, length, readings);
            && k < |readings| && readings[k] <= CaughtUp(deadline, length, readings) == deadline + k * length
            && (j < k ==> deadline + j * length < readings[j])
    decreases readings
  {
    CaughtUpCounts(deadline, length, readings);
    if deadline < readings[0] {
      var k := Skips(deadline + length, length, readings[1..]);
      SkipsIsLeast(deadline + length, length, readings[1..], if j == 0 then 0 else j - 1);
      MulStep(k, length);
      if j > 0 {
        MulStep(j - 1, length);
      }
    }
  }

  lemma {:induction false} SkipsExactly(deadline: int, length: nat, readings: seq<int>, k: nat)
    requires k < |readings| && readings[k] <= deadline + k * length
    requires forall j | 0 <= j < k :: deadline + j * length < readings[j]
    ensures Skips(deadline, length, readings) == k && CaughtUp(deadline, length, readings) == deadline + k * length
    decreases k
  {
    if k > 0 {
      assert deadline + 0 * length < readings[0];
      MulStep(k - 1, length);
      forall j | 0 <= j < k - 1 ensures deadline + length + j * length < readings[1..][j] {
        assert deadline + (j + 1) * length < readings[j + 1];
        MulStep(j, length);
      }
      SkipsExactly(deadline + length, length, readings[1..], k - 1);
    }
  }

  /**
   What one end of tic does to the clock: it goes on to the first deadline that the clock has not
   passed when read; every deadline skipped counts as a tic, as far as an `unsigned` counts.
   */
  lemma AdvanceExactly(c: Clock, length: nat, readings: seq<int>, k: nat)
    requires length > 0 && k < |readings| && readings[k] <= c.deadline + (k + 1) * length
    requires forall j | 0 <= j < k :: c.deadline + (j + 1) * length < readings[j]
    ensures Advance(c, length, readings) == Clock(c.tic + 1 + k % TWO_TO_32, c.deadline + (k + 1) * length)
  {
    MulStep(k, length);
    forall j | 0 <= j < k ensures c.deadline + length + j * length < readings[j] {
      assert c.deadline + (j + 1) * length < readings[j];
      MulStep(j, length);
    }
    SkipsExactly(c.deadline + length, length, readings, k);
  }

  /** With a frozen clock the count is the lag divided by the tic length, rounded up. */
  lemma SkipsOfFrozenClock(deadline: int, length: nat, readings: seq<int>, now: int)
    requires length > 0 && CatchesUp(deadline, length, readings)
    requires forall i | 0 <= i < |readings| :: readings[i] == now
    ensures Skips(deadline, length, readings)
         == if now <= deadline then 0 else (now - deadline + length - 1) / length
  {
    var k := Skips(deadline, length, readings);
    assert readings[0] == now;
    if deadline < now {
      SkipsIsLeast(deadline, length, readings, k - 1);
      assert readings[k] == now == readings[k - 1];
      MulStep(k - 1, length);
      var a := now - deadline + length - 1;
      DivUnique(a, length, k, a - k * length);
    }
  }

  lemma MulAtLeast(x: int, d: nat)
    requires x >= 1
    ensures x * d >= d
  {
  }

  lemma DivUnique(a: nat, d: nat, q: nat, r: nat)
    requires d > 0 && r < d && a == q * d + r
    ensures a / d == q
  {
    var p := a / d;
    assert a == p * d + a % d;
    MulAdd(q - p, p, d);
    if p < q {
      MulAtLeast(q - p, d);
    } else if q < p {
      MulAdd(p - q, q, d);
      MulAtLeast(p - q, d);
    }
  }

  /** How many times 2^32 the skip counter wrapped around over the run. */
  function Wraps(c: Clock, length: nat, run: seq<seq<int>>): nat
    decreases run
  {
    if run == [] then 0
    else
      Skips(c.deadline + length, length, run[0]) / TWO_TO_32 + Wraps(Advance(c, length, run[0]), length, run[1..])
  }

  /** No end of tic skips 2^32 tics or more. */
  predicate SkipsFit(c: Clock, length: nat, run: seq<seq<int>>)
    decreases run
  {
    run == [] || (Skips(c.deadline + length, length, run[0]) < TWO_TO_32
                  && SkipsFit(Advance(c, length, run[0]), length, run[1..]))
  }

  lemma {:induction false} WrapsZero(c: Clock, length: nat, run: seq<seq<int>>)
    ensures Wraps(c, length, run) == 0 <==> SkipsFit(c, length, run)
    decreases run
  {
    if run != [] {
      WrapsZero(Advance(c, length, run[0]), length, run[1..]);
    }
  }

  lemma {:induction false} DeadlineDrift(c: Clock, length: nat, run: seq<seq<int>>)
    requires length > 0
    ensures var end := AdvanceAll(c, length, run);
            end.tic >= c.tic &&
            end.deadline == c.deadline + (end.tic - c.tic + TWO_TO_32 * Wraps(c, length, run)) * length
    decreases run
  {
    if run != [] {
      CaughtUpCounts(c.deadline + length, length, run[0]);
      MulStep(Skips(c.deadline + length, length, run[0]), length);
      var next := Advance(c, length, run[0]);
      var end := AdvanceAll(c, length, run);
      var skips := Skips(c.deadline + length, length, run[0]);
      DeadlineDrift(next, length, run[1..]);
      var rest := end.tic - next.tic + TWO_TO_32 * Wraps(next, length, run[1..]);
      assert end.deadline == c.deadline + (1 + skips) * length + rest * length;
      MulAdd(1 + skips, rest, length);
      assert skips == skips % TWO_TO_32 + TWO_TO_32 * (skips / TWO_TO_32);
    }
  }

  lemma MulAdd(a: int, b: int, length: int)
    ensures a * length + b * length == (a + b) * length
  {
  }

  /**
   Tic counter and deadline stay in lock-step over a whole run, whatever the clock reads:
   the deadline is the start plus the counted tics times the tic length -- if and only if
   no single end of tic skips 2^32 tics or more.
   */
  lemma LockStep(c: Clock, length: nat, run: seq<seq<int>>)
    requires length > 0
    ensures var end := AdvanceAll(c, length, run);
            end.deadline == c.deadline + (end.tic - c.tic) * length <==> SkipsFit(c, length, run)
  {
    var end := AdvanceAll(c, length, run);
    var wraps := Wraps(c, length, run);
    DeadlineDrift(c, length, run);
    WrapsZero(c, length, run);
    MulAdd(end.tic - c.tic, TWO_TO_32 * wraps, length);
    if wraps > 0 {
      assert TWO_TO_32 * wraps * length > 0 by {
        MulPositive(TWO_TO_32 * wraps, length);
      }
    }
  }

  /** A clock that stands still, `lag` behind the deadline's end. */
  function Frozen(now: int, count: nat): seq<int> {
    seq(count, _ => now)
  }

  lemma {:induction false} FrozenCatchesUp(deadline: int, lag: nat)
    ensures CatchesUp(deadline, 1, Frozen(deadline + lag, lag + 1))
    decreases lag
  {
    var readings := Frozen(deadline + lag, lag + 1);
    if lag > 0 {
      assert readings[1..] == Frozen(deadline + 1 + (lag - 1), lag);
      FrozenCatchesUp(deadline + 1, lag - 1);
    }
  }

  /** One wait that skips 2^32 tics of length 1: the deadline goes on, the counter does not. */
  lemma LostTics(c: Clock)
    ensures var run := [Frozen(c.deadline + 1 + TWO_TO_32, TWO_TO_32 + 1)];
            var end := AdvanceAll(c, 1, run);
            && AllCatchUp(c, 1, run) && !SkipsFit(c, 1, run)
            && end.tic == c.tic + 1 && end.deadline == c.deadline + 1 + TWO_TO_32
  {
    var readings := Frozen(c.deadline + 1 + TWO_TO_32, TWO_TO_32 + 1);
    FrozenCatchesUp(c.deadline + 1, TWO_TO_32);
    SkipsOfFrozenClock(c.deadline + 1, 1, readings, c.deadline + 1 + TWO_TO_32);
    CaughtUpCounts(c.deadline + 1, 1, readings);
    hide CatchesUp, Skips, CaughtUp, Frozen;
    assert [readings][1..] == [];
  }

  lemma MulPositive(a: int, b: int)
    requires a > 0 && b > 0
    ensures a * b > 0
  {
  }

  /** Without a tic length the clock is never read, and tics are just counted. */
  lemma {:induction false} CountsTics(c: Clock, run: seq<seq<int>>)
    ensures AdvanceAll(c, 0, run) == c.(tic := c.tic + |run|)
    decreases run
  {
    if run != [] {
      CountsTics(Advance(c, 0, run[0]), run[1..]);
    }
  }
}
