/** Each part of a recorded file, read back: marker and fault lines, a run, the node table. */
module RoundTrip {
  import opened Options
  import opened Sequences
  import opened CStrings
  import opened Numerals
  import opened Delivery
  import opened Transcript

  // ---------- One line ----------

  /** The characters of printed numbers are none of those that structure the file. */
  lemma DecimalChars(n: nat, c: char)
    requires c in Decimal(n)
    ensures c in "0123456789"
  {
    assert DIGITS[..10] == "0123456789";
  }

  lemma SignedDecimalChars(i: int, c: char)
    requires c in SignedDecimal(i)
    ensures c in "-0123456789"
  {
    DecimalChars(if i < 0 then -i else i, if i < 0 && c == '-' then Decimal(-i)[0] else c);
  }

  lemma MarkerToken(tic: nat)
    requires tic < TWO_TO_64
    ensures FirstNumber(Decimal(tic) + "]\n") == Some(tic)
  {
    hide StrTok, StrToUll, Decimal;
    var token := Decimal(tic) + "]";
    forall x | x in token ensures x !in TIC_DELIMS {
      if x != ']' {
        DecimalChars(tic, x);
      }
    }
    StrTokAt(token, '\n', [], TIC_DELIMS);
    assert token + ['\n'] + [] == Decimal(tic) + "]\n";
    DecimalReadBack(tic, "]");
  }

  lemma MarkerTicNumber(tic: nat)
    requires tic < TWO_TO_64
    ensures TicNumber(MarkerLine(tic)) == Some(tic)
  {
    StrTokAt("[tic", '#', Decimal(tic) + "]\n", TIC_DELIMS);
    assert "[tic" + ['#'] + (Decimal(tic) + "]\n") == MarkerLine(tic);
    MarkerToken(tic);
  }

  lemma MarkerContains(tic: nat)
    ensures Contains(MarkerLine(tic), "tic#") && Contains(MarkerLine(tic), "tic")
  {
    assert MarkerLine(tic)[1..5] == "tic#";
    assert OccursAt(MarkerLine(tic), "tic#", 1);
    assert MarkerLine(tic)[1..4] == "tic";
    assert OccursAt(MarkerLine(tic), "tic", 1);
  }

  lemma ClassifyMarker(tic: nat)
    requires tic < TWO_TO_64
    ensures Classify(MarkerLine(tic)) == Mark(tic)
  {
    MarkerContains(tic);
    MarkerTicNumber(tic);
  }

  function SeverityText(severity: word32): string {
    SignedDecimal(AsInt32(severity)) + "\n"
  }

  lemma FaultLineShape(f: Record)
    ensures FaultLine(f) == f.node + [','] + (f.component.GetOr("") + [','] + SeverityText(f.severity))
  {
  }

  /** How a fault is written: a severity from 2^31 on comes out negative. */
  lemma FaultLineExactly(f: Record)
    ensures FaultLine(f)
         == f.node + "," + (match f.component case None => "" case Some(c) => c) + ","
            + (if f.severity < 0x8000_0000 then Decimal(f.severity) else "-" + Decimal(TWO_TO_32 - f.severity)) + "\n"
  {
    hide Decimal;
  }

  lemma SeverityPlain(severity: word32)
    ensures 't' !in SeverityText(severity)
  {
    if 't' in SignedDecimal(AsInt32(severity)) {
      SignedDecimalChars(AsInt32(severity), 't');
    }
  }

  /** A fault line is taken for a marker exactly when one of its names contains `tic#`. */
  lemma FaultLineMarker(f: Record)
    ensures Contains(FaultLine(f), "tic#")
        <==> Contains(f.node, "tic#") || Contains(f.component.GetOr(""), "tic#")
  {
    var tail := f.component.GetOr("") + [','] + SeverityText(f.severity);
    FaultLineShape(f);
    ContainsAcross(f.node, ',', tail, "tic#");
    ContainsAcross(f.component.GetOr(""), ',', SeverityText(f.severity), "tic#");
    SeverityPlain(f.severity);
    LacksFirst(SeverityText(f.severity), "tic#");
  }

  lemma ClassifyFields(node: string, component: string, severity: string)
    requires ',' !in node && ',' !in component && StrToUll(severity).Some?
    ensures var line := node + [','] + (component + [','] + severity);
            !Contains(line, "tic#") ==>
              Classify(line) == Entry(Record(node, if component == [] then None else Some(component),
                                             StrToUll(severity).value % TWO_TO_32))
  {
    hide StrToUll, TicNumber, Contains;
    var tail := component + [','] + severity;
    var line := node + [','] + tail;
    StrCSpnAt(node, ',', tail, ",");
    assert line[|node| + 1..] == tail && line[..|node|] == node;
    StrCSpnAt(component, ',', severity, ",");
    assert tail[|component| + 1..] == severity && tail[..|component|] == component;
  }

  lemma ClassifyFault(f: Record)
    requires CleanRecord(f)
    ensures Classify(FaultLine(f)) == Entry(f)
  {
    hide Classify, Contains, StrToUll, SignedDecimal, AsInt32;
    FaultLineShape(f);
    LacksFirst("", "tic#");
    FaultLineMarker(f);
    SeverityReadBack(f.severity, "\n");
    ClassifyFields(f.node, f.component.GetOr(""), SeverityText(f.severity));
  }

  lemma CleanSubstring(line: string, lo: nat, hi: nat)
    requires IsLine(line) && !Contains(line, "tic#")
    requires lo <= hi < |line| && ',' !in line[lo..hi]
    ensures CleanField(line[lo..hi])
  {
    if Contains(line[lo..hi], "tic#") {
      ContainsMonotone(line, lo, hi, "tic#");
    }
    forall x | x in line[lo..hi] ensures x != '\n' {
      assert x in line[..|line| - 1];
    }
  }

  /** Whatever line replay takes for a fault, the fault's names are clean. */
  lemma ClassifyIsClean(line: string)
    requires IsLine(line) && Classify(line).Entry?
    ensures CleanRecord(Classify(line).record)
  {
    hide StrToUll, TicNumber, CleanField, Contains;
    var i := StrCSpn(line, ",");
    var tail := line[i + 1..];
    var j := StrCSpn(tail, ",");
    assert line[0..i] == line[..i];
    CleanSubstring(line, 0, i);
    assert tail[..j] == line[i + 1..i + 1 + j];
    CleanSubstring(line, i + 1, i + 1 + j);
  }

  // ---------- The tic part ----------

  function AsEntry(f: Record): LineKind {
    Entry(f)
  }

  /** The classified lines of a recorded run. */
  function RunKinds(run: seq<seq<Record>>, first: nat): seq<LineKind> {
    if run == [] then [] else [Mark(first)] + Map(AsEntry, run[0]) + RunKinds(run[1..], first + 1)
  }

  lemma KindsOfFaultLines(faults: seq<Record>)
    requires forall f | f in faults :: CleanRecord(f)
    ensures Kinds(Map(FaultLine, faults)) == Map(AsEntry, faults)
  {
    forall i | 0 <= i < |faults| ensures Classify(FaultLine(faults[i])) == Entry(faults[i]) {
      ClassifyFault(faults[i]);
    }
  }

  lemma {:induction false} KindsOfRunLines(run: seq<seq<Record>>, first: nat)
    requires CleanRun(run) && first + |run| <= TWO_TO_64
    ensures Kinds(RunLines(run, first)) == RunKinds(run, first)
  {
    hide Classify, MarkerLine, CleanRecord;
    if run != [] {
      assert CleanRun(run[1..]);
      KindsOfRunLines(run[1..], first + 1);
      KindsOfFaultLines(run[0]);
      var head := [MarkerLine(first)] + Map(FaultLine, run[0]);
      MapAppend(Classify, head, RunLines(run[1..], first + 1));
      MapAppend(Classify, [MarkerLine(first)], Map(FaultLine, run[0]));
      ClassifyMarker(first);
    }
  }

  lemma {:induction false} AtTicOfEntries(faults: seq<Record>, behind: seq<LineKind>, stamp: nat, tic: nat)
    ensures AtTic(Stamps(Map(AsEntry, faults) + behind, stamp), tic)
         == (if stamp == tic then faults else []) + AtTic(Stamps(behind, stamp), tic)
  {
    var all := Map(AsEntry, faults) + behind;
    if faults == [] {
      assert all == behind;
    } else {
      assert all[0] == Entry(faults[0]) && all[1..] == Map(AsEntry, faults[1..]) + behind;
      AtTicOfEntries(faults[1..], behind, stamp, tic);
      assert Stamps(all, stamp)[1..] == Stamps(all[1..], stamp);
      assert [faults[0]] + faults[1..] == faults;
    }
  }

  lemma StampsAfterMark(run: seq<seq<Record>>, first: nat, greatest: nat)
    requires run != [] && greatest <= first
    ensures Stamps(RunKinds(run, first), greatest)
         == Stamps(Map(AsEntry, run[0]) + RunKinds(run[1..], first + 1), first)
  {
    var kinds := RunKinds(run, first);
    assert kinds[0] == Mark(first) && kinds[1..] == Map(AsEntry, run[0]) + RunKinds(run[1..], first + 1);
  }

  /** A recorded run stamps every fault with the tic it was recorded in. */
  lemma {:induction false} StampsOfRun(run: seq<seq<Record>>, first: nat, greatest: nat, tic: nat)
    requires greatest <= first
    ensures AtTic(Stamps(RunKinds(run, first), greatest), tic)
         == if first <= tic < first + |run| then run[tic - first] else []
  {
    hide Map;
    if run != [] {
      var behind := RunKinds(run[1..], first + 1);
      StampsAfterMark(run, first, greatest);
      hide RunKinds, Stamps;
      AtTicOfEntries(run[0], behind, first, tic);
      StampsOfRun(run[1..], first + 1, first, tic);
    }
  }

  /** The cursor that stands behind the first marker of a recorded run. */
  lemma OpenedRun(run: Run)
    requires CleanRun(run)
    ensures Stamps(FirstMarker(RunLines(run, 0)).unread, 0) == Stamps(RunKinds(run, 0), 0)
    ensures var c := FirstMarker(RunLines(run, 0)); c.tic == 0 && c.next == 0 && !c.done
    ensures FirstMarkerNumbered(RunLines(run, 0))
  {
    KindsOfRunLines(run, 0);
    if run != [] {
      MarkerTicNumber(0);
      var lines := RunLines(run, 0);
      assert lines[0] == MarkerLine(0);
      MapCons(Classify, lines);
      ClassifyMarker(0);
    }
  }

  /** The k-th replayed list of a recorded run, for every k: the recorded one, then nothing. */
  lemma RunComesBack(run: Run, n: nat, k: nat)
    requires CleanRun(run) && k < n
    ensures Replayed(FirstMarker(RunLines(run, 0)), n)[k] == if k < |run| then run[k] else []
  {
    hide FirstMarker, RunLines, RunKinds, Stamps, AtTic, Replayed, CleanRun;
    OpenedRun(run);
    RunningMaximum(FirstMarker(RunLines(run, 0)), n, k);
    StampsOfRun(run, 0, 0, k);
  }

  // ---------- The node table ----------

  lemma OneComponent(name: string, delim: char, rest: string, n: nat, taken: seq<string>)
    requires CleanName(name) && delim in FIELD_DELIMS
    ensures ParseComponents(name + [delim] + rest, n + 1, taken) == ParseComponents(rest, n, taken + [name])
  {
    StrTokAt(name, delim, rest, FIELD_DELIMS);
  }

  /** The text of the component fields without its first separator. */
  function Remaining(names: seq<string>): string {
    (Fields(names) + "\n")[1..]
  }

  function Separator(names: seq<string>): char {
    if names == [] then '\n' else ','
  }

  lemma FieldsShape(names: seq<string>)
    ensures Fields(names) + "\n" == [Separator(names)] + Remaining(names)
  {
  }

  lemma RemainingStep(names: seq<string>)
    requires names != []
    ensures Remaining(names) == names[0] + [Separator(names[1..])] + Remaining(names[1..])
  {
    var rest := names[1..];
    FieldsShape(rest);
    hide Separator, Fields;
    ConcatAssociates(names[0], [Separator(rest)], Remaining(rest));
    assert Fields(names) == "," + names[0] + Fields(rest) by {
      FieldsCons(names);
    }
    ConcatAssociates(names[0], Fields(rest), "\n");
    ConcatAssociates(",", names[0] + Fields(rest), "\n");
    ConcatAssociates(",", names[0], Fields(rest));
    assert ("," + (names[0] + Fields(rest) + "\n"))[1..] == names[0] + Fields(rest) + "\n";
  }

  lemma FieldsCons(names: seq<string>)
    requires names != []
    ensures Fields(names) == "," + names[0] + Fields(names[1..])
  {
  }

  lemma {:induction false} ComponentsComeBack(names: seq<string>, taken: seq<string>)
    requires forall c | c in names :: CleanName(c)
    ensures ParseComponents(Remaining(names), |names|, taken) == Ok(taken + names)
  {
    if names == [] {
      assert taken + names == taken;
    } else {
      assert CleanName(names[0]);
      ComponentsComeBack(names[1..], taken + [names[0]]);
      RemainingStep(names);
      OneComponent(names[0], Separator(names[1..]), Remaining(names[1..]), |names| - 1, taken);
      assert taken + [names[0]] + names[1..] == taken + names;
    }
  }

  lemma CountToken(n: nat, delim: char, rest: string)
    requires n < TWO_TO_32 && delim in FIELD_DELIMS
    ensures StrTok(Decimal(n) + [delim] + rest, FIELD_DELIMS) == (Some(Decimal(n)), rest)
    ensures StrToUll(Decimal(n)) == Some(n)
  {
    forall x | x in Decimal(n) ensures x !in FIELD_DELIMS {
      DecimalChars(n, x);
    }
    StrTokAt(Decimal(n), delim, rest, FIELD_DELIMS);
    DecimalReadBack(n, []);
    assert Decimal(n) + [] == Decimal(n);
  }

  lemma NodeLineShape(n: NodeInfo)
    ensures NodeLine(n)
         == n.name + [','] + (Decimal(|n.components|) + [Separator(n.components)] + Remaining(n.components))
  {
    FieldsShape(n.components);
    hide Decimal, Fields, Remaining, Separator;
    var d, f := Decimal(|n.components|), Fields(n.components);
    var delim, rest := Separator(n.components), Remaining(n.components);
    assert NodeLine(n) == n.name + [','] + (d + (f + "\n"));
    assert d + ([delim] + rest) == d + [delim] + rest;
  }

  lemma NodeComesBack(n: NodeInfo)
    requires CleanNode(n)
    ensures ParseNode(NodeLine(n)) == Ok(n)
  {
    hide NodeLine, StrTok, StrToUll, ParseComponents, Decimal, Fields, Remaining;
    var delim, rest := Separator(n.components), Remaining(n.components);
    NodeLineShape(n);
    StrTokAt(n.name, ',', Decimal(|n.components|) + [delim] + rest, FIELD_DELIMS);
    CountToken(|n.components|, delim, rest);
    ComponentsComeBack(n.components, []);
    assert [] + n.components == n.components;
  }

  function AsParsed(n: NodeInfo): Result<NodeInfo, OpenError> {
    Ok(n)
  }

  lemma {:induction false} TakeAll(table: seq<NodeInfo>, behind: seq<Result<NodeInfo, OpenError>>, taken: seq<NodeInfo>)
    ensures TakeNodes(Map(AsParsed, table) + behind, |table|, taken) == Ok(taken + table)
  {
    if table == [] {
      assert taken + table == taken;
    } else {
      TakeAll(table[1..], behind, taken + [table[0]]);
      var parsed := Map(AsParsed, table) + behind;
      assert parsed[1..] == Map(AsParsed, table[1..]) + behind;
      assert taken + [table[0]] + table[1..] == taken + table;
    }
  }

  lemma NodeLinesParse(table: seq<NodeInfo>)
    requires CleanTable(table)
    ensures Map(ParseNode, Map(NodeLine, table)) == Map(AsParsed, table)
  {
    forall i | 0 <= i < |table| ensures ParseNode(NodeLine(table[i])) == Ok(table[i]) {
      NodeComesBack(table[i]);
    }
  }

  lemma TableComesBack(table: NodeTable, behind: seq<string>)
    requires CleanTable(table)
    ensures ParseTable(TableLines(table) + behind) == Ok((table, behind))
  {
    var lines := TableLines(table) + behind;
    DecimalReadBack(|table|, "\n");
    assert lines[0] == Decimal(|table|) + "\n";
    assert lines[1..] == Map(NodeLine, table) + behind;
    MapAppend(ParseNode, Map(NodeLine, table), behind);
    NodeLinesParse(table);
    TakeAll(table, Map(ParseNode, behind), []);
    assert [] + table == table;
    assert lines[1 + |table|..] == behind;
  }
}
