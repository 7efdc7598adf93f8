/** The replaying fault manager (plugins/replay/replay.c). */
module Replay {
  import opened Options
  import opened Sequences
  import opened CStrings
  import opened Numerals
  import opened Delivery
  import opened Transcript

  lemma NothingLeft()
    ensures Lines("") == [] && Kinds([]) == []
  {
  }

  function Prepend(records: seq<Record>, r: Reading): Reading {
    r.(records := records + r.records)
  }

  lemma PrependTwice(records: seq<Record>, f: Record, r: Reading)
    ensures Prepend(records, Prepend([f], r)) == Prepend(records + [f], r)
  {
    assert records + ([f] + r.records) == records + [f] + r.records;
  }

  lemma PrependNone(records: seq<Record>, next: nat)
    ensures Prepend(records, Reading([], [], next, true)) == Reading(records, [], next, true)
  {
  }

  lemma PrependRest(records: seq<Record>, rest: seq<LineKind>, next: nat)
    ensures Prepend(records, Reading([], rest, next, false)) == Reading(records, rest, next, false)
  {
  }

  /** One line of the replay loop. */
  lemma ReadTicStep(kinds: seq<LineKind>, tic: nat, next: nat)
    ensures ReadTic(kinds, tic, next)
         == if next >= tic then Reading([], kinds, next, false)
            else if kinds == [] then Reading([], [], next, true)
            else if kinds[0].Mark? then ReadTic(kinds[1..], tic, kinds[0].tic)
            else if kinds[0].Entry? then Prepend([kinds[0].record], ReadTic(kinds[1..], tic, next))
            else ReadTic(kinds[1..], tic, next)
  {
  }

  /** The next line: classified like the others, and with its number if it is a marker. */
  lemma NextLine(lines: seq<string>)
    requires lines != [] && Numbered(lines)
    ensures Numbered(lines[1..]) && (Contains(lines[0], "tic#") ==> TicNumber(lines[0]).Some?)
    ensures Kinds(lines) != [] && Kinds(lines)[0] == Classify(lines[0]) && Kinds(lines)[1..] == Kinds(lines[1..])
    ensures Kinds(lines) == [Classify(lines[0])] + Kinds(lines[1..])
  {
    hide Contains, TicNumber, Classify;
    assert lines[0] in lines;
    MapCons(Classify, lines);
  }

  /** The next line of the node table. */
  lemma NextNode(lines: seq<string>, i: nat, n: nat, nodes: seq<NodeInfo>)
    requires i <= |lines|
    ensures TakeNodes(Map(ParseNode, lines[i..]), n, nodes)
         == if n == 0 then Ok(nodes)
            else if i == |lines| then Err(NoLine)
            else
              var node := ParseNode(lines[i]);
              if node.Err? then Err(node.error)
              else TakeNodes(Map(ParseNode, lines[i + 1..]), n - 1, nodes + [node.value])
  {
    hide ParseNode;
    if i < |lines| {
      MapCons(ParseNode, lines[i..]);
      assert lines[i..][1..] == lines[i + 1..];
    }
  }

  class Replayer {
    /** The part of the file not yet read by `getline`. */
    var unread: string
    var ticNum: nat
    var nxtTic: nat
    var id: nat
    var done: bool
    var nodes: seq<NodeInfo>
    var faults: seq<Fault>

    constructor (file: string)
      ensures unread == file && ticNum == 0 && nxtTic == 0 && id == 0 && !done
      ensures nodes == [] && faults == []
    {
      unread := file;
      ticNum, nxtTic, id, done := 0, 0, 0, false;
      nodes, faults := [], [];
    }

    /** The state `tic` works on, with the unread text already classified. */
    ghost function Position(): Cursor
      reads this
    {
      Cursor(Kinds(Lines(unread)), ticNum, nxtTic, done)
    }

    method GetLine() returns (line: Option<string>)
      modifies this`unread
      ensures var lines := Lines(old(unread));
              if lines == [] then line == None && unread == []
              else line == Some(lines[0]) && Lines(unread) == lines[1..]
      ensures |unread| <= |old(unread)| && (line.Some? ==> |unread| < |old(unread)|)
    {
      if unread == [] {
        return None;
      }
      var n := StrCSpn(unread, "\n");
      var length := if n == |unread| then n else n + 1;
      line := Some(unread[..length]);
      unread := unread[length..];
      assert old(unread)[..|old(unread)|] == old(unread);
    }

    static method GetTicNum(buf: string) returns (num: nat)
      requires TicNumber(buf).Some?
      ensures num == TicNumber(buf).value
    {
      hide StrTok, StrToUll;
      num := *;
      var token := StrTok(buf, TIC_DELIMS);
      token := StrTok(token.1, TIC_DELIMS);
      while token.0.Some?
        invariant TicNumber(buf)
               == if token.0.None? then None
                  else if StrToUll(token.0.value).Some? then StrToUll(token.0.value) else FirstNumber(token.1)
        decreases |token.1| + if token.0.Some? then 1 else 0
      {
        var value := StrToUll(token.0.value);
        if value.Some? {
          num := value.value;
          break;
        }
        token := StrTok(token.1, TIC_DELIMS);
      }
    }

    /** Reads the node table and the line after it. */
    method GetNodes() returns (r: Result<NodeTable, OpenError>)
      requires nodes == [] && ticNum == 0 && nxtTic == 0 && !done
      requires var t := ParseTable(Lines(unread)); t.Ok? ==> FirstMarkerNumbered(t.value.1)
      modifies this`unread, this`nodes, this`nxtTic
      ensures match Open(old(unread))
              case Err(e) => r == Err(e)
              case Ok(p) => r == Ok(p.0) && nodes == p.0 && Position() == p.1
      ensures r.Ok? ==> Lines(unread) == AfterFirst(ParseTable(Lines(old(unread))).value.1)
    {
      NothingLeft();
      hide ParseNode, StrToUll, Contains, TicNumber, Lines, Kinds, TakeNodes;
      var line := GetLine();
      if line.None? {
        return Err(NoLine);
      }
      var count := StrToUll(line.value);
      if count.None? {
        return Err(NoCount);
      }
      ghost var lines := Lines(unread);
      for i := 0 to count.value
        invariant |nodes| == i && nxtTic == 0
        invariant i <= |lines| && Lines(unread) == lines[i..]
        invariant TakeNodes(Map(ParseNode, lines), count.value, [])
               == TakeNodes(Map(ParseNode, lines[i..]), count.value - i, nodes)
      {
        NextNode(lines, i, count.value - i, nodes);
        line := GetLine();
        if line.None? {
          return Err(NoLine);
        }
        var node := ReadNode(line.value);
        if node.Err? {
          return Err(node.error);
        }
        nodes := nodes + [node.value];
      }
      NextNode(lines, count.value, 0, nodes);
      assert lines[count.value..] == Lines(old(unread))[1 + count.value..];
      line := GetLine();
      if line.Some? && Contains(line.value, "tic") {
        nxtTic := GetTicNum(line.value);
      }
      r := Ok(nodes);
    }

    /** One line of the node table, token by token. */
    static method ReadNode(buf: string) returns (r: Result<NodeInfo, OpenError>)
      ensures r == ParseNode(buf)
    {
      hide StrTok, StrToUll;
      var name := StrTok(buf, FIELD_DELIMS);
      if name.0.None? {
        return Err(NoName);
      }
      var count := StrTok(name.1, FIELD_DELIMS);
      if count.0.None? {
        return Err(NoField);
      }
      var n := StrToUll(count.0.value).GetOr(0) % TWO_TO_32;
      var rest, components := count.1, [];
      for j := 0 to n
        invariant |components| == j
        invariant ParseComponents(count.1, n, []) == ParseComponents(rest, n - j, components)
      {
        var token := StrTok(rest, FIELD_DELIMS);
        if token.0.None? {
          return Err(NoField);
        }
        rest, components := token.1, components + [token.0.value];
      }
      r := Ok(NodeInfo(name.0.value, components));
    }

    /** One tic: reads fault lines until a marker for a later tic has been read. */
    method Tic()
      requires Numbered(Lines(unread))
      modifies this`unread, this`ticNum, this`nxtTic, this`id, this`done, this`faults
      ensures Position() == Step(old(Position())).0
      ensures Records(faults) == Step(old(Position())).1
      ensures id == old(id) + |faults|
      ensures forall i | 0 <= i < |faults| ::
                faults[i].id == AsInt32((old(id) + 1 + i) % TWO_TO_32) && faults[i].name == None
      ensures Numbered(Lines(unread))
    {
      NothingLeft();
      NoFaults(id);
      hide Contains, TicNumber, Classify, Lines, FaultId, ReadTic, CountedFrom, Records, Prepend, Kinds, Numbered;
      faults := [];
      if done {
        return;
      }
      ticNum := ticNum + 1;
      if ticNum - 1 < nxtTic {
        return;
      }
      ghost var whole := ReadTic(Kinds(Lines(unread)), ticNum, nxtTic);
      while nxtTic < ticNum && !done
        invariant Numbered(Lines(unread))
        invariant ticNum == old(ticNum) + 1 && id == old(id) + |faults|
        invariant CountedFrom(faults, old(id))
        invariant done ==> whole == Reading(Records(faults), [], nxtTic, true) && unread == []
        invariant !done ==> whole == Prepend(Records(faults), ReadTic(Kinds(Lines(unread)), ticNum, nxtTic))
        decreases |unread|, !done
      {
        ghost var lines := Lines(unread);
        ReadTicStep(Kinds(lines), ticNum, nxtTic);
        var line := GetLine();
        if line.None? {
          done := true;
          PrependNone(Records(faults), nxtTic);
          break;
        }
        NextLine(lines);
        var kind := ReadLine(line.value);
        match kind
        case Noise =>
        case Mark(n) => nxtTic := n;
        case Entry(f) =>
          id := id + 1;
          PrependTwice(Records(faults), f, ReadTic(Kinds(Lines(unread)), ticNum, nxtTic));
          CountOne(faults, old(id), f);
          faults := faults + [Fault(FaultId(id), None, f)];
      }
      CountedMeans(faults, old(id));
      ReadTicStep(Kinds(Lines(unread)), ticNum, nxtTic);
      PrependRest(Records(faults), Kinds(Lines(unread)), nxtTic);
    }

    /** What the loop of `Tic` makes of a line. */
    static method ReadLine(buf: string) returns (kind: LineKind)
      requires Contains(buf, "tic#") ==> TicNumber(buf).Some?
      ensures kind == Classify(buf)
    {
      hide StrToUll, Contains, TicNumber;
      if Contains(buf, "tic#") {
        var num := GetTicNum(buf);
        return Mark(num);
      }
      var comma := StrCSpn(buf, ",");
      if comma == |buf| {
        return Noise;
      }
      var tail := buf[comma + 1..];
      var second := StrCSpn(tail, ",");
      if second == |tail| {
        return Noise;
      }
      var name, comp, sevStr := buf[..comma], tail[..second], tail[second + 1..];
      var severity := StrToUll(sevStr);
      if severity.None? {
        return Noise;
      }
      kind := Entry(Record(name, if comp != [] then Some(comp) else None, severity.value % TWO_TO_32));
    }

    method GetFail() returns (failed: seq<Fault>)
      ensures failed == faults
    {
      failed := faults;
    }
  }

  /** The faults have no names and count on from `last`. */
  predicate CountedFrom(faults: seq<Fault>, last: nat) {
    forall i | 0 <= i < |faults| :: faults[i].id == FaultId(last + 1 + i) && faults[i].name == None
  }

  lemma CountedMeans(faults: seq<Fault>, last: nat)
    requires CountedFrom(faults, last)
    ensures forall i | 0 <= i < |faults| ::
              faults[i].id == AsInt32((last + 1 + i) % TWO_TO_32) && faults[i].name == None
  {
  }

  lemma NoFaults(last: nat)
    ensures Records([]) == [] && CountedFrom([], last)
    ensures forall r: Reading {:trigger Prepend([], r)} :: Prepend([], r) == r
  {
  }

  lemma CountOne(faults: seq<Fault>, last: nat, f: Record)
    requires CountedFrom(faults, last)
    ensures var more := faults + [Fault(FaultId(last + |faults| + 1), None, f)];
            CountedFrom(more, last) && Records(more) == Records(faults) + [f]
  {
    hide FaultId;
  }

  /** The running count of faults stored in an `int`. */
  function FaultId(id: nat): int {
    AsInt32(id % TWO_TO_32)
  }
}
