/**
 The text format shared by the recording and the replaying fault manager:
 how a run is written (plugins/transcribe/transcribe.c), how any text is read back
 (plugins/replay/replay.c), and an independent description of what reading delivers.
 */
module Transcript {
  import opened Options
  import opened Sequences
  import opened CStrings
  import opened Numerals
  import opened Delivery

  /** A fault as a manager hands it out; its number and its name are not written down. */
  datatype Fault = Fault(id: int, name: Option<string>, record: Record)

  function RecordOf(f: Fault): Record {
    f.record
  }

  function Records(faults: seq<Fault>): seq<Record> {
    Map(RecordOf, faults)
  }

  /** `num_components` is an `unsigned`, the number of nodes a `size_t`. */
  type ComponentList = s: seq<string> | |s| < TWO_TO_32
  type NodeTable = t: seq<NodeInfo> | |t| < TWO_TO_64
  datatype NodeInfo = NodeInfo(name: string, components: ComponentList)

  /** The faults of each tic, for fewer tics than `%ld` can count. */
  type Run = r: seq<seq<Record>> | |r| <= 0x8000_0000_0000_0000

  // ---------- Writing ----------

  function Fields(names: seq<string>): string {
    if names == [] then [] else "," + names[0] + Fields(names[1..])
  }

  function NodeLine(n: NodeInfo): string {
    n.name + "," + Decimal(|n.components|) + Fields(n.components) + "\n"
  }

  function TableLines(table: NodeTable): seq<string> {
    [Decimal(|table|) + "\n"] + Map(NodeLine, table)
  }

  function MarkerLine(tic: nat): string {
    "[tic#" + Decimal(tic) + "]\n"
  }

  function FaultLine(f: Record): string {
    f.node + "," + f.component.GetOr("") + "," + SignedDecimal(AsInt32(f.severity)) + "\n"
  }

  function RunLines(run: seq<seq<Record>>, first: nat): seq<string> {
    if run == [] then []
    else [MarkerLine(first)] + Map(FaultLine, run[0]) + RunLines(run[1..], first + 1)
  }

  /** The file that recording leaves behind. */
  function Recording(table: NodeTable, run: Run): string {
    Flatten(TableLines(table) + RunLines(run, 0))
  }

  // ---------- Reading ----------

  const TIC_DELIMS := " #\t\n"
  const FIELD_DELIMS := ",\n"

  /** The first token that starts with a number. */
  function FirstNumber(s: string): Option<nat>
    decreases |s|
  {
    var (token, rest) := StrTok(s, TIC_DELIMS);
    if token.None? then None
    else
      var n := StrToUll(token.value);
      if n.Some? then n else FirstNumber(rest)
  }

  /** The number of a marker line; without one the C code goes on with an uninitialised value. */
  function TicNumber(line: string): Option<nat> {
    FirstNumber(StrTok(line, TIC_DELIMS).1)
  }

  /** How the replay loop takes a line. */
  function Classify(line: string): LineKind {
    if Contains(line, "tic#") then Mark(TicNumber(line).GetOr(0))
    else
      var i := StrCSpn(line, ",");
      if i == |line| then Noise
      else
        var tail := line[i + 1..];
        var j := StrCSpn(tail, ",");
        if j == |tail| then Noise
        else
          match StrToUll(tail[j + 1..])
          case None => Noise
          case Some(v) =>
            Entry(Record(line[..i], if j == 0 then None else Some(tail[..j]), v % TWO_TO_32))
  }

  /** No marker in `lines` lacks its number. */
  predicate Numbered(lines: seq<string>) {
    forall l | l in lines :: Contains(l, "tic#") ==> TicNumber(l).Some?
  }

  datatype OpenError = NoLine | NoCount | NoName | NoField

  /** Takes `n` more tokens as component names. */
  function ParseComponents(rest: string, n: nat, names: seq<string>): Result<seq<string>, OpenError>
    decreases n
  {
    if n == 0 then Ok(names)
    else
      var (token, rest') := StrTok(rest, FIELD_DELIMS);
      if token.None? then Err(NoField) else ParseComponents(rest', n - 1, names + [token.value])
  }

  lemma {:induction false} ParseComponentsLength(rest: string, n: nat, names: seq<string>)
    ensures var r := ParseComponents(rest, n, names); r.Ok? ==> |r.value| == |names| + n
    decreases n
  {
    hide StrTok;
    if n > 0 {
      var (token, rest') := StrTok(rest, FIELD_DELIMS);
      if token.Some? {
        ParseComponentsLength(rest', n - 1, names + [token.value]);
      }
    }
  }

  /** `NoName` is the line without any token, on which the C code dereferences NULL. */
  function ParseNode(line: string): Result<NodeInfo, OpenError> {
    var (name, rest) := StrTok(line, FIELD_DELIMS);
    if name.None? then Err(NoName)
    else
      var (count, rest') := StrTok(rest, FIELD_DELIMS);
      if count.None? then Err(NoField)
      else
        var n := StrToUll(count.value).GetOr(0) % TWO_TO_32;
        ParseComponentsLength(rest', n, []);
        match ParseComponents(rest', n, [])
        case Err(e) => Err(e)
        case Ok(names) => Ok(NodeInfo(name.value, names))
  }

  /** Takes `n` more lines as nodes. */
  function TakeNodes(parsed: seq<Result<NodeInfo, OpenError>>, n: nat, nodes: seq<NodeInfo>)
    : (r: Result<seq<NodeInfo>, OpenError>)
    ensures r.Ok? ==> n <= |parsed| && |r.value| == |nodes| + n
    decreases n
  {
    if n == 0 then Ok(nodes)
    else if parsed == [] then Err(NoLine)
    else
      match parsed[0]
      case Err(e) => Err(e)
      case Ok(node) => TakeNodes(parsed[1..], n - 1, nodes + [node])
  }

  /** The node table at the head of a file, and the lines after it. */
  function ParseTable(lines: seq<string>): Result<(NodeTable, seq<string>), OpenError> {
    if lines == [] then Err(NoLine)
    else
      match StrToUll(lines[0])
      case None => Err(NoCount)
      case Some(n) =>
        match TakeNodes(Map(ParseNode, lines[1..]), n, [])
        case Err(e) => Err(e)
        case Ok(table) => Ok((table, lines[1 + n..]))
  }

  /** The line after the table is read ahead; here "tic" alone makes it a marker. */
  function FirstMarker(lines: seq<string>): Cursor {
    if lines == [] then Cursor([], 0, 0, false)
    else Cursor(Kinds(lines[1..]), 0, if Contains(lines[0], "tic") then TicNumber(lines[0]).GetOr(0) else 0, false)
  }

  function AfterFirst(lines: seq<string>): seq<string> {
    if lines == [] then [] else lines[1..]
  }

  predicate FirstMarkerNumbered(lines: seq<string>) {
    lines != [] && Contains(lines[0], "tic") ==> TicNumber(lines[0]).Some?
  }

  function Kinds(lines: seq<string>): seq<LineKind> {
    Map(Classify, lines)
  }

  /** `get_nodes` on a whole file: the nodes, and where the calls of `tic` go on. */
  function Open(text: string): Result<(NodeTable, Cursor), OpenError> {
    match ParseTable(Lines(text))
    case Err(e) => Err(e)
    case Ok(p) => Ok((p.0, FirstMarker(p.1)))
  }

  /** No marker of the file lacks its number. */
  predicate Defined(text: string) {
    match ParseTable(Lines(text))
    case Err(e) => true
    case Ok(p) => FirstMarkerNumbered(p.1) && Numbered(AfterFirst(p.1))
  }

  // ---------- Names that survive the format ----------

  predicate CleanField(s: string) {
    ',' !in s && '\n' !in s && !Contains(s, "tic#")
  }

  /** An empty component name is written like no component at all. */
  predicate CleanRecord(f: Record) {
    CleanField(f.node) && (f.component.Some? ==> f.component.value != [] && CleanField(f.component.value))
  }

  predicate CleanRun(run: seq<seq<Record>>) {
    forall t | 0 <= t < |run| :: forall f | f in run[t] :: CleanRecord(f)
  }

  predicate CleanName(s: string) {
    s != [] && ',' !in s && '\n' !in s
  }

  predicate CleanNode(n: NodeInfo) {
    CleanName(n.name) && forall c | c in n.components :: CleanName(c)
  }

  predicate CleanTable(table: seq<NodeInfo>) {
    forall n | n in table :: CleanNode(n)
  }
}
