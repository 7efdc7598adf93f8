/**
 Replaying as a machine over classified lines (the tic loop of plugins/replay/replay.c),
 and what it delivers, said without the machine.
 */
module Delivery {
  import opened Options
  import opened Sequences
  import opened Numerals

  /** What a transcript keeps of a fault. */
  datatype Record = Record(node: string, component: Option<string>, severity: word32)

  datatype LineKind = Mark(tic: nat) | Entry(record: Record) | Noise

  /** Where replaying stands: the lines left, its own tic counter, the marker read ahead. */
  datatype Cursor = Cursor(unread: seq<LineKind>, tic: nat, next: nat, done: bool)

  datatype Reading = Reading(records: seq<Record>, unread: seq<LineKind>, next: nat, done: bool)

  /** The replay loop, for a tic counter that has already been advanced. */
  function ReadTic(unread: seq<LineKind>, tic: nat, next: nat): Reading {
    if next >= tic then Reading([], unread, next, false)
    else if unread == [] then Reading([], [], next, true)
    else
      match unread[0]
      case Mark(n) => ReadTic(unread[1..], tic, n)
      case Entry(f) => var r := ReadTic(unread[1..], tic, next); r.(records := [f] + r.records)
      case Noise => ReadTic(unread[1..], tic, next)
  }

  /** One call of the replaying manager's `tic`, with the faults it leaves for `get_fail`. */
  function Step(c: Cursor): (Cursor, seq<Record>) {
    if c.done then (c, [])
    else if c.tic < c.next then (c.(tic := c.tic + 1), [])
    else
      var r := ReadTic(c.unread, c.tic + 1, c.next);
      (Cursor(r.unread, c.tic + 1, r.next, r.done), r.records)
  }

  /** The fault lists of `n` calls. */
  function Replayed(c: Cursor, n: nat): (r: seq<seq<Record>>)
    ensures |r| == n
    decreases n
  {
    if n == 0 then [] else [Step(c).1] + Replayed(Step(c).0, n - 1)
  }

  function After(c: Cursor, n: nat): Cursor
    decreases n
  {
    if n == 0 then c else After(Step(c).0, n - 1)
  }

  // ---------- What reading delivers, said without a cursor ----------

  /**
   The fault lines with the greatest marker up to each of them: markers may be sparse,
   repeated or decreasing, and a decreasing one does not take the clock back.
   */
  function Stamps(kinds: seq<LineKind>, greatest: nat): seq<(nat, Record)> {
    if kinds == [] then []
    else
      match kinds[0]
      case Mark(n) => Stamps(kinds[1..], if n > greatest then n else greatest)
      case Entry(f) => [(greatest, f)] + Stamps(kinds[1..], greatest)
      case Noise => Stamps(kinds[1..], greatest)
  }

  /** The greatest marker of the lines, or the one before them. */
  function Greatest(kinds: seq<LineKind>, before: nat): (g: nat)
    ensures g >= before && forall l | l in kinds && l.Mark? :: l.tic <= g
    ensures g == before || Mark(g) in kinds
  {
    if kinds == [] then before
    else
      var last := kinds[|kinds| - 1];
      var g := Greatest(kinds[..|kinds| - 1], before);
      assert kinds == kinds[..|kinds| - 1] + [last];
      if last.Mark? && last.tic > g then last.tic else g
  }

  lemma GreatestUnique(kinds: seq<LineKind>, before: nat, g: nat)
    requires g >= before && (forall l | l in kinds && l.Mark? :: l.tic <= g) && (g == before || Mark(g) in kinds)
    ensures g == Greatest(kinds, before)
  {
  }

  /** Each fault is stamped with the greatest marker of the lines before it. */
  lemma {:induction false} StampsAt(before: seq<LineKind>, f: Record, behind: seq<LineKind>, start: nat)
    ensures var g := Greatest(before, start);
            Stamps(before + [Entry(f)] + behind, start) == Stamps(before, start) + [(g, f)] + Stamps(behind, g)
    decreases |before|
  {
    hide Greatest;
    var all := before + [Entry(f)] + behind;
    if before == [] {
      GreatestUnique([], start, start);
      assert all[0] == Entry(f) && all[1..] == behind;
    } else {
      var next := if before[0].Mark? && before[0].tic > start then before[0].tic else start;
      assert all[0] == before[0] && all[1..] == before[1..] + [Entry(f)] + behind;
      StampsAt(before[1..], f, behind, next);
      GreatestOfRest(before, start, next);
      StampsStep(all, start);
      StampsStep(before, start);
      hide Stamps;
      var g := Greatest(before, start);
      if before[0].Entry? {
        ConcatAssociates([(start, before[0].record)], Stamps(before[1..], next) + [(g, f)], Stamps(behind, g));
        ConcatAssociates([(start, before[0].record)], Stamps(before[1..], next), [(g, f)]);
      }
    }
  }

  lemma StampsStep(kinds: seq<LineKind>, start: nat)
    requires kinds != []
    ensures var next := if kinds[0].Mark? && kinds[0].tic > start then kinds[0].tic else start;
            Stamps(kinds, start)
            == (if kinds[0].Entry? then [(start, kinds[0].record)] else []) + Stamps(kinds[1..], next)
  {
  }

  lemma GreatestOfRest(kinds: seq<LineKind>, start: nat, next: nat)
    requires kinds != [] && next == if kinds[0].Mark? && kinds[0].tic > start then kinds[0].tic else start
    ensures Greatest(kinds, start) == Greatest(kinds[1..], next)
  {
    var g := Greatest(kinds[1..], next);
    assert kinds == [kinds[0]] + kinds[1..];
    GreatestUnique(kinds, start, g);
  }

  function AtTic(stamps: seq<(nat, Record)>, tic: nat): seq<Record> {
    if stamps == [] then []
    else (if stamps[0].0 == tic then [stamps[0].1] else []) + AtTic(stamps[1..], tic)
  }

  /** All faults of a text, in file order. */
  function Entries(kinds: seq<LineKind>): seq<Record> {
    if kinds == [] then []
    else (if kinds[0].Entry? then [kinds[0].record] else []) + Entries(kinds[1..])
  }

  function Concat(lists: seq<seq<Record>>): seq<Record> {
    if lists == [] then [] else lists[0] + Concat(lists[1..])
  }

  // ---------- The two agree ----------

  lemma {:induction false} StampsAtLeast(kinds: seq<LineKind>, greatest: nat, tic: nat)
    requires tic < greatest
    ensures AtTic(Stamps(kinds, greatest), tic) == []
  {
    if kinds != [] {
      match kinds[0]
      case Mark(n) => StampsAtLeast(kinds[1..], if n > greatest then n else greatest, tic);
      case Entry(f) =>
        StampsAtLeast(kinds[1..], greatest, tic);
        assert Stamps(kinds, greatest)[1..] == Stamps(kinds[1..], greatest);
      case Noise => StampsAtLeast(kinds[1..], greatest, tic);
    }
  }

  /** The loop of one tic hands out exactly the faults stamped with it and leaves the others. */
  lemma {:induction false} ReadTicMeetsStamps(unread: seq<LineKind>, tic: nat, next: nat, later: nat)
    requires next <= tic < later
    ensures var r := ReadTic(unread, tic + 1, next);
            && r.records == AtTic(Stamps(unread, tic), tic)
            && (if r.done then r.unread == [] && AtTic(Stamps(unread, tic), later) == []
                else r.next > tic && AtTic(Stamps(unread, tic), later) == AtTic(Stamps(r.unread, r.next), later))
  {
    if unread != [] {
      match unread[0]
      case Mark(n) =>
        if n <= tic {
          ReadTicMeetsStamps(unread[1..], tic, n, later);
        } else {
          StampsAtLeast(unread[1..], n, tic);
        }
      case Entry(f) =>
        ReadTicMeetsStamps(unread[1..], tic, next, later);
        assert Stamps(unread, tic)[1..] == Stamps(unread[1..], tic);
      case Noise => ReadTicMeetsStamps(unread[1..], tic, next, later);
    }
  }

  /** The relation between calls: the marker read ahead is never behind the tic counter. */
  predicate Ahead(c: Cursor) {
    if c.done then c.unread == [] else c.next >= c.tic
  }

  lemma StepKeepsAhead(c: Cursor)
    requires Ahead(c)
    ensures Ahead(Step(c).0)
  {
    if !c.done && c.next == c.tic {
      ReadTicMeetsStamps(c.unread, c.tic, c.next, c.tic + 1);
    }
  }

  /**
   Every fault is delivered in the call numbered with the greatest marker up to its line:
   the k-th call from `c` on hands out the lines stamped `c.tic + k`, in file order.
   */
  lemma {:induction false} RunningMaximum(c: Cursor, n: nat, k: nat)
    requires Ahead(c) && k < n
    ensures Replayed(c, n)[k] == if c.done then [] else AtTic(Stamps(c.unread, c.next), c.tic + k)
    decreases n
  {
    hide ReadTic, Stamps, AtTic;
    StepKeepsAhead(c);
    if !c.done && c.next == c.tic {
      ReadTicMeetsStamps(c.unread, c.tic, c.next, if k == 0 then c.tic + 1 else c.tic + k);
    } else if !c.done && k == 0 {
      StampsAtLeast(c.unread, c.next, c.tic);
    }
    if k > 0 {
      RunningMaximum(Step(c).0, n - 1, k - 1);
    }
  }

  /** What is left of a file is its end. */
  predicate IsEnd(rest: seq<LineKind>, whole: seq<LineKind>) {
    |rest| <= |whole| && rest == whole[|whole| - |rest|..]
  }

  lemma {:induction false} ReadTicConserves(unread: seq<LineKind>, tic: nat, next: nat)
    ensures var r := ReadTic(unread, tic, next);
            r.records + Entries(r.unread) == Entries(unread) && IsEnd(r.unread, unread)
  {
    hide IsEnd;
    if next < tic && unread != [] {
      var next' := if unread[0].Mark? then unread[0].tic else next;
      var r := ReadTic(unread[1..], tic, next');
      ReadTicConserves(unread[1..], tic, next');
      IsEndOfMore(r.unread, unread);
      if unread[0].Entry? {
        ConcatAssociates([unread[0].record], r.records, Entries(r.unread));
      }
    } else {
      IsEndOfItself(unread);
    }
  }

  lemma IsEndOfMore(rest: seq<LineKind>, whole: seq<LineKind>)
    requires whole != [] && IsEnd(rest, whole[1..])
    ensures IsEnd(rest, whole)
  {
  }

  lemma IsEndOfItself(whole: seq<LineKind>)
    ensures IsEnd(whole, whole) && IsEnd([], whole)
  {
  }

  lemma StepConserves(c: Cursor)
    ensures Step(c).1 + Entries(Step(c).0.unread) == Entries(c.unread)
    ensures IsEnd(Step(c).0.unread, c.unread)
  {
    hide Entries, ReadTic;
    ReadTicConserves(c.unread, c.tic + 1, c.next);
  }

  /** Over any number of calls no fault line is lost, repeated or reordered. */
  lemma {:induction false} Conservation(c: Cursor, n: nat)
    ensures Concat(Replayed(c, n)) + Entries(After(c, n).unread) == Entries(c.unread)
    ensures IsEnd(After(c, n).unread, c.unread)
    decreases n
  {
    hide Step, Entries;
    if n > 0 {
      var later := Step(c).0;
      StepConserves(c);
      Conservation(later, n - 1);
      assert Replayed(c, n)[1..] == Replayed(later, n - 1);
      assert Step(c).1 + (Concat(Replayed(later, n - 1)) + Entries(After(c, n).unread)) == Entries(c.unread);
    }
  }

  predicate MarkersBelow(kinds: seq<LineKind>, bound: nat) {
    forall l | l in kinds :: l.Mark? ==> l.tic < bound
  }

  lemma {:induction false} ReadTicMarkersBelow(unread: seq<LineKind>, tic: nat, next: nat, bound: nat)
    requires MarkersBelow(unread, bound) && next < bound
    ensures var r := ReadTic(unread, tic, next); MarkersBelow(r.unread, bound) && r.next < bound
  {
    if next < tic && unread != [] {
      match unread[0]
      case Mark(n) => ReadTicMarkersBelow(unread[1..], tic, n, bound);
      case Entry(f) => ReadTicMarkersBelow(unread[1..], tic, next, bound);
      case Noise => ReadTicMarkersBelow(unread[1..], tic, next, bound);
    }
  }

  /** Once the calls are more than any marker, the file has been read to its end ... */
  lemma {:induction false} ReadToEnd(c: Cursor, n: nat, bound: nat)
    requires Ahead(c) && MarkersBelow(c.unread, bound) && c.next < bound
    requires !c.done ==> c.tic + n >= bound
    ensures After(c, n).done && After(c, n).unread == []
    decreases n
  {
    if n > 0 {
      StepKeepsAhead(c);
      ReadTicMarkersBelow(c.unread, c.tic + 1, c.next, bound);
      ReadToEnd(Step(c).0, n - 1, bound);
    }
  }

  /** ... and all its faults have been handed out. */
  lemma AllDelivered(c: Cursor, n: nat, bound: nat)
    requires Ahead(c) && MarkersBelow(c.unread, bound) && c.next < bound
    requires !c.done ==> c.tic + n >= bound
    ensures Concat(Replayed(c, n)) == Entries(c.unread)
  {
    ReadToEnd(c, n, bound);
    Conservation(c, n);
    assert Entries([]) == [];
    assert Concat(Replayed(c, n)) + [] == Concat(Replayed(c, n));
  }

  lemma {:induction false} StampsSkipNoise(before: seq<LineKind>, behind: seq<LineKind>, greatest: nat)
    ensures Stamps(before + [Noise] + behind, greatest) == Stamps(before + behind, greatest)
  {
    var long, short := before + [Noise] + behind, before + behind;
    if before == [] {
      assert long[0] == Noise && long[1..] == behind == short;
    } else {
      assert long[1..] == before[1..] + [Noise] + behind && short[1..] == before[1..] + behind;
      match before[0]
      case Mark(n) => StampsSkipNoise(before[1..], behind, if n > greatest then n else greatest);
      case Entry(f) => StampsSkipNoise(before[1..], behind, greatest);
      case Noise => StampsSkipNoise(before[1..], behind, greatest);
    }
  }

  /** A line that is neither a marker nor a fault changes no delivered list, wherever it stands. */
  lemma NoiseInvisible(before: seq<LineKind>, behind: seq<LineKind>, next: nat, n: nat)
    ensures Replayed(Cursor(before + [Noise] + behind, 0, next, false), n)
         == Replayed(Cursor(before + behind, 0, next, false), n)
  {
    var long, short := Cursor(before + [Noise] + behind, 0, next, false), Cursor(before + behind, 0, next, false);
    StampsSkipNoise(before, behind, next);
    forall k | 0 <= k < n ensures Replayed(long, n)[k] == Replayed(short, n)[k] {
      RunningMaximum(long, n, k);
      RunningMaximum(short, n, k);
    }
  }
}
