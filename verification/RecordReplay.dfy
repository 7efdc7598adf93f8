/** Recording a run and replaying the file: when, and only when, the run comes back. */
module RecordReplay {
  import opened Options
  import opened Sequences
  import opened CStrings
  import opened Numerals
  import opened Delivery
  import opened Transcript
  import opened RoundTrip
  import opened AnyText

  // ---------- The whole file ----------

  lemma FaultLineFull(f: Record)
    requires CleanRecord(f)
    ensures IsFullLine(FaultLine(f))
  {
    if '\n' in SignedDecimal(AsInt32(f.severity)) {
      SignedDecimalChars(AsInt32(f.severity), '\n');
    }
    var body := f.node + "," + f.component.GetOr("") + "," + SignedDecimal(AsInt32(f.severity));
    assert FaultLine(f)[..|FaultLine(f)| - 1] == body;
  }

  lemma MarkerLineFull(tic: nat)
    ensures IsFullLine(MarkerLine(tic))
  {
    if '\n' in Decimal(tic) {
      DecimalChars(tic, '\n');
    }
    assert MarkerLine(tic)[..|MarkerLine(tic)| - 1] == "[tic#" + Decimal(tic) + "]";
  }

  lemma {:induction false} FieldsPlain(names: seq<string>)
    requires forall c | c in names :: CleanName(c)
    ensures '\n' !in Fields(names)
  {
    if names != [] {
      assert CleanName(names[0]);
      FieldsPlain(names[1..]);
    }
  }

  lemma NodeLineFull(n: NodeInfo)
    requires CleanNode(n)
    ensures IsFullLine(NodeLine(n))
  {
    FieldsPlain(n.components);
    if '\n' in Decimal(|n.components|) {
      DecimalChars(|n.components|, '\n');
    }
    var body := n.name + "," + Decimal(|n.components|) + Fields(n.components);
    assert NodeLine(n)[..|NodeLine(n)| - 1] == body;
  }

  predicate FullLines(lines: seq<string>) {
    forall l | l in lines :: IsFullLine(l)
  }

  lemma {:induction false} RunLinesFull(run: seq<seq<Record>>, first: nat)
    requires CleanRun(run)
    ensures FullLines(RunLines(run, first))
  {
    hide CleanRecord, IsFullLine, MarkerLine, FaultLine;
    if run != [] {
      assert CleanRun(run[1..]);
      RunLinesFull(run[1..], first + 1);
      MarkerLineFull(first);
      forall f | f in run[0] ensures IsFullLine(FaultLine(f)) {
        FaultLineFull(f);
      }
    }
  }

  lemma TableLinesFull(table: NodeTable)
    requires CleanTable(table)
    ensures FullLines(TableLines(table))
  {
    hide CleanNode, NodeLine;
    if '\n' in Decimal(|table|) {
      DecimalChars(|table|, '\n');
    }
    var count := Decimal(|table|) + "\n";
    assert count[..|count| - 1] == Decimal(|table|);
    forall n | n in table ensures IsFullLine(NodeLine(n)) {
      NodeLineFull(n);
    }
  }

  lemma FaultLineNumbered(f: Record)
    requires CleanRecord(f)
    ensures !Contains(FaultLine(f), "tic#")
  {
    hide Contains, FaultLine;
    FaultLineMarker(f);
    LacksFirst("", "tic#");
  }

  lemma {:induction false} RecordedMarkersNumbered(run: seq<seq<Record>>, first: nat)
    requires CleanRun(run) && first + |run| <= TWO_TO_64
    ensures forall l | l in RunLines(run, first) :: Contains(l, "tic#") ==> TicNumber(l).Some?
  {
    hide CleanRecord, Contains, TicNumber, MarkerLine, FaultLine;
    if run != [] {
      assert CleanRun(run[1..]);
      RecordedMarkersNumbered(run[1..], first + 1);
      MarkerTicNumber(first);
      forall f | f in run[0] ensures !Contains(FaultLine(f), "tic#") {
        FaultLineNumbered(f);
      }
    }
  }

  lemma RecordingOpens(table: NodeTable, run: Run)
    requires CleanTable(table) && CleanRun(run)
    ensures Lines(Recording(table, run)) == TableLines(table) + RunLines(run, 0)
    ensures Open(Recording(table, run)) == Ok((table, FirstMarker(RunLines(run, 0))))
    ensures Defined(Recording(table, run))
  {
    hide IsFullLine, TableLines, CleanNode, CleanRecord, ParseTable, FirstMarker, FirstMarkerNumbered;
    hide Contains, TicNumber;
    TableLinesFull(table);
    RunLinesFull(run, 0);
    LinesOfFlatten(TableLines(table) + RunLines(run, 0));
    TableComesBack(table, RunLines(run, 0));
    OpenedRun(run);
    RecordedMarkersNumbered(run, 0);
  }

  /** Replay reproduces a recorded run: the node table, each tic's faults in order, then none. */
  ghost predicate Reproduced(table: NodeTable, run: Run) {
    var r := Open(Recording(table, run));
    && Defined(Recording(table, run))
    && r.Ok? && r.value.0 == table
    && forall n: nat, k: nat | k < n ::
         Replayed(r.value.1, n)[k] == if k < |run| then run[k] else []
  }

  // ---------- What comes back is clean ----------

  lemma {:induction false} StampedIsEntry(kinds: seq<LineKind>, greatest: nat, tic: nat, f: Record)
    requires f in AtTic(Stamps(kinds, greatest), tic)
    ensures Entry(f) in kinds
  {
    match kinds[0]
    case Mark(n) => StampedIsEntry(kinds[1..], if n > greatest then n else greatest, tic, f);
    case Entry(g) =>
      assert Stamps(kinds, greatest)[1..] == Stamps(kinds[1..], greatest);
      if f in AtTic(Stamps(kinds[1..], greatest), tic) {
        StampedIsEntry(kinds[1..], greatest, tic, f);
      }
    case Noise => StampedIsEntry(kinds[1..], greatest, tic, f);
  }

  lemma EntryIsClean(lines: seq<string>, f: Record)
    requires (forall l | l in lines :: IsLine(l)) && Entry(f) in Kinds(lines)
    ensures CleanRecord(f)
  {
    hide Classify, CleanRecord, IsLine;
    var i :| 0 <= i < |lines| && Kinds(lines)[i] == Entry(f);
    ClassifyIsClean(lines[i]);
  }

  lemma {:induction false} ComponentsAreClean(rest: string, n: nat, taken: seq<string>)
    requires forall c | c in taken :: CleanName(c)
    ensures var r := ParseComponents(rest, n, taken);
            r.Ok? ==> forall c | c in r.value :: CleanName(c)
    decreases n
  {
    hide StrTok;
    if n > 0 {
      var (token, rest') := StrTok(rest, FIELD_DELIMS);
      if token.Some? {
        assert CleanName(token.value);
        ComponentsAreClean(rest', n - 1, taken + [token.value]);
      }
    }
  }

  lemma ParseNodeIsClean(line: string)
    ensures ParseNode(line).Ok? ==> CleanNode(ParseNode(line).value)
  {
    hide StrToUll, ParseComponents;
    var (name, rest) := StrTok(line, FIELD_DELIMS);
    if name.Some? {
      var (count, rest') := StrTok(rest, FIELD_DELIMS);
      if count.Some? {
        ComponentsAreClean(rest', StrToUll(count.value).GetOr(0) % TWO_TO_32, []);
      }
    }
  }

  lemma {:induction false} TakenNodesAreClean(parsed: seq<Result<NodeInfo, OpenError>>, n: nat, taken: seq<NodeInfo>)
    requires CleanTable(taken) && forall p | p in parsed :: p.Ok? ==> CleanNode(p.value)
    ensures var r := TakeNodes(parsed, n, taken); r.Ok? ==> CleanTable(r.value)
    decreases n
  {
    hide CleanNode;
    if n > 0 && parsed != [] && parsed[0].Ok? {
      TakenNodesAreClean(parsed[1..], n - 1, taken + [parsed[0].value]);
    }
  }

  lemma ParsedTableIsClean(lines: seq<string>)
    ensures ParseTable(lines).Ok? ==>
              CleanTable(ParseTable(lines).value.0) && forall l | l in ParseTable(lines).value.1 :: l in lines
  {
    hide ParseNode, CleanNode, StrToUll;
    if lines != [] && StrToUll(lines[0]).Some? {
      var parsed := Map(ParseNode, lines[1..]);
      forall p | p in parsed ensures p.Ok? ==> CleanNode(p.value) {
        var i :| 0 <= i < |parsed| && parsed[i] == p;
        ParseNodeIsClean(lines[1..][i]);
      }
      TakenNodesAreClean(parsed, StrToUll(lines[0]).value, []);
    }
  }

  /** Whatever text is replayed, the node table and all delivered faults have clean names. */
  lemma ReplayedIsClean(text: string, n: nat)
    requires Open(text).Ok?
    ensures CleanTable(Open(text).value.0) && CleanRun(Replayed(Open(text).value.1, n))
  {
    hide ParseTable, CleanTable, CleanRecord, Kinds, IsLine, Contains, TicNumber;
    var lines := Lines(text);
    ParsedTableIsClean(lines);
    LinesPartition(text);
    var rest := ParseTable(lines).value.1;
    var c := Open(text).value.1;
    assert c == FirstMarker(rest);
    forall k, f | 0 <= k < n && f in Replayed(c, n)[k] ensures CleanRecord(f) {
      RunningMaximum(c, n, k);
      StampedIsEntry(c.unread, c.next, k, f);
      EntryIsClean(if rest == [] then [] else rest[1..], f);
    }
  }

  // ---------- The round trip, and exactly when it holds ----------

  /**
   Replay reproduces what was recorded if and only if the names are clean: node-table names
   are non-empty and free of commas and newlines; names in faults are free of commas,
   newlines and `tic#`; and no fault has an empty, but present, component name.
   */
  lemma RoundTripExactly(table: NodeTable, run: Run)
    ensures Reproduced(table, run) <==> CleanTable(table) && CleanRun(run)
  {
    hide CleanTable, CleanRun, Open, Defined, Recording, FirstMarker;
    if CleanTable(table) && CleanRun(run) {
      RecordingOpens(table, run);
      forall n: nat, k: nat | k < n
        ensures Replayed(Open(Recording(table, run)).value.1, n)[k] == if k < |run| then run[k] else []
      {
        RunComesBack(run, n, k);
      }
    }
    if Reproduced(table, run) {
      ReplayedIsClean(Recording(table, run), |run|);
      assert Replayed(Open(Recording(table, run)).value.1, |run|) == run;
    }
  }

  /**
   A further line without `tic#`, and without two commas and a number behind the second, changes
   nothing that is delivered.
   */
  lemma NoiseLineInvisible(before: seq<string>, noise: string, behind: seq<string>, next: nat, n: nat)
    requires !Contains(noise, "tic#")
    requires Commas(noise) < 2 || StrToUll(BehindComma(BehindComma(noise))).None?
    ensures Replayed(Cursor(Kinds(before + [noise] + behind), 0, next, false), n)
         == Replayed(Cursor(Kinds(before + behind), 0, next, false), n)
  {
    hide Classify, Contains, StrToUll, Commas, BehindComma;
    ClassifyExactly(noise);
    MapAppend(Classify, before + [noise], behind);
    MapAppend(Classify, before, [noise]);
    MapAppend(Classify, before, behind);
    NoiseInvisible(Kinds(before), Kinds(behind), next, n);
    assert Kinds([noise]) == [Noise];
  }

  // ---------- Recording a replay ----------

  /** The file written when `n` tics of replaying `text` are recorded again. */
  function ReRecording(text: string, n: nat): string
    requires Open(text).Ok? && n <= 0x8000_0000_0000_0000
  {
    Recording(Open(text).value.0, Replayed(Open(text).value.1, n))
  }

  /** Recording the replay of any text gives a text that replays to the same nodes and lists ... */
  lemma ReRecordingReplaysAlike(text: string, n: nat)
    requires Open(text).Ok? && n <= 0x8000_0000_0000_0000
    ensures var again := Open(ReRecording(text, n));
            && Defined(ReRecording(text, n))
            && again.Ok? && again.value.0 == Open(text).value.0
            && Replayed(again.value.1, n) == Replayed(Open(text).value.1, n)
  {
    hide Open, Defined, Recording, CleanTable, CleanRun;
    var table, run := Open(text).value.0, Replayed(Open(text).value.1, n);
    ReplayedIsClean(text, n);
    RoundTripExactly(table, run);
    forall k | 0 <= k < n ensures Replayed(Open(Recording(table, run)).value.1, n)[k] == run[k] {
    }
  }

  /** ... so that recording it once more writes the same file, byte for byte. */
  lemma ReRecordingIsFixpoint(text: string, n: nat)
    requires Open(text).Ok? && n <= 0x8000_0000_0000_0000
    ensures Open(ReRecording(text, n)).Ok?
    ensures ReRecording(ReRecording(text, n), n) == ReRecording(text, n)
  {
    hide Open, Defined, Recording;
    ReRecordingReplaysAlike(text, n);
  }

  /** A recorded file is such a fixpoint itself. */
  lemma RecordingIsFixpoint(table: NodeTable, run: Run)
    requires CleanTable(table) && CleanRun(run)
    ensures Open(Recording(table, run)).Ok?
    ensures ReRecording(Recording(table, run), |run|) == Recording(table, run)
  {
    hide Open, Defined, Recording, CleanTable, CleanRun;
    RoundTripExactly(table, run);
    assert Replayed(Open(Recording(table, run)).value.1, |run|) == run;
  }
}
