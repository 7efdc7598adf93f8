/**
 The way of a fault from the server to the injecting backend, as text: published payload
 (plugins/mosquitto/com_mosquitto.cpp), message (client/src/mqtt.c), fifo line
 (client/src/client.c) and command (client/src/backend.c).
 */
module Pipeline {
  import opened Options
  import opened Sequences
  import opened CStrings
  import opened Numerals
  import opened Delivery
  import opened RoundTrip
  import opened Topics

  const SUBSYS_NET: nat := 1
  const SUBSYS_MEM: nat := 2
  const SUBSYS_PWR: nat := 4

  /** A fault as a client knows it. */
  datatype ClientFault = ClientFault(component: Option<string>, severity: word32)

  function Payload(severity: word32): string {
    "0x" + Print(severity, 16)
  }

  /** `on_message`. */
  function Decode(topic: string, payload: string): ClientFault {
    ClientFault(TopicComponent(topic), StrToUll(payload).GetOr(0) % TWO_TO_32)
  }

  function FifoLine(f: ClientFault): string {
    f.component.GetOr("power") + " " + SignedDecimal(AsInt32(f.severity)) + "\n"
  }

  datatype Command = Ignore | Exit | Apply(name: string, severity: nat)

  const COMMAND_DELIMS := " \n"

  function ParseCommand(line: string): Command {
    var name := StrTok(line, COMMAND_DELIMS);
    if name.0.None? then Ignore
    else if name.0.value == "exit" then Exit
    else
      var opt := StrTok(name.1, COMMAND_DELIMS);
      if opt.0.None? then Ignore else Apply(name.0.value, StrToUll(opt.0.value).GetOr(0))
  }

  /** An unknown name leaves the subsystem of the command before. */
  function Subsystem(name: string, previous: nat): nat {
    if name == "net" then SUBSYS_NET
    else if name == "power" then SUBSYS_PWR
    else if name == "memory" then SUBSYS_MEM
    else previous
  }

  /** A call of `lauSim_set_state`. */
  datatype Call = Call(subsystem: nat, severity: nat)

  /** The calls made for a list of fifo lines: `exit` ends the loop, cutting power the process. */
  function Execute(lines: seq<string>, previous: nat): seq<Call> {
    if lines == [] then []
    else
      match ParseCommand(lines[0])
      case Ignore => Execute(lines[1..], previous)
      case Exit => []
      case Apply(name, severity) =>
        var subsystem := Subsystem(name, previous);
        [Call(subsystem, severity)]
        + if subsystem == SUBSYS_PWR then [] else Execute(lines[1..], subsystem)
  }

  // ---------- The imperative ends ----------

  /** The message loop of the client: the first fault ever is the starting signal. */
  class Client {
    var synced: bool
    var fifo: string

    constructor ()
      ensures !synced && fifo == ""
    {
      synced, fifo := false, "";
    }

    /** What the client writes for faults that arrive after `before` others. */
    static function Written(synced: bool, faults: seq<ClientFault>): string
      decreases faults
    {
      if faults == [] then ""
      else if !synced then "\n" + Written(true, faults[1..])
      else FifoLine(faults[0]) + Written(true, faults[1..])
    }

    method Forward(flt: seq<ClientFault>)
      modifies this
      ensures fifo == old(fifo) + Written(old(synced), flt)
      ensures synced == (old(synced) || flt != [])
    {
      NothingWritten();
      hide FifoLine, Written, SignedDecimal, AsInt32;
      assert flt[0..] == flt;
      for i := 0 to |flt|
        invariant fifo + Written(synced, flt[i..]) == old(fifo) + Written(old(synced), flt)
        invariant synced == (old(synced) || i > 0)
      {
        assert flt[i..][1..] == flt[i + 1..];
        WrittenStep(synced, flt[i..]);
        FifoLineShape(flt[i]);
        ConcatAssociates(fifo, if synced then FifoLine(flt[i]) else "\n", Written(true, flt[i + 1..]));
        if !synced {
          synced := true;
          fifo := fifo + "\n";
          continue;
        }
        var line: string;
        if flt[i].component == None {
          line := "power " + SignedDecimal(AsInt32(flt[i].severity)) + "\n";
        } else {
          line := flt[i].component.value + " " + SignedDecimal(AsInt32(flt[i].severity)) + "\n";
        }
        fifo := fifo + line;
      }
    }
  }

  lemma NothingWritten()
    ensures forall synced {:trigger Client.Written(synced, [])} :: Client.Written(synced, []) == ""
  {
  }

  lemma WrittenStep(synced: bool, faults: seq<ClientFault>)
    requires faults != []
    ensures Client.Written(synced, faults)
         == (if synced then FifoLine(faults[0]) else "\n") + Client.Written(true, faults[1..])
  {
    hide FifoLine;
  }

  lemma FifoLineShape(f: ClientFault)
    ensures f.component == None ==> FifoLine(f) == "power " + SignedDecimal(AsInt32(f.severity)) + "\n"
    ensures f.component.Some? ==> FifoLine(f) == f.component.value + " " + SignedDecimal(AsInt32(f.severity)) + "\n"
  {
  }

  lemma FifoLineNotEmpty(f: ClientFault)
    ensures |FifoLine(f)| > 0
  {
    hide SignedDecimal, AsInt32;
    FifoLineShape(f);
    assert FifoLine(f)[|FifoLine(f)| - 1] == '\n';
  }

  /** The fifo loop of the backend; `uninitialised` is what `cmd` happens to hold at first. */
  method LauSimMain(fifo: string, uninitialised: nat) returns (calls: seq<Call>)
    ensures calls == Execute(Lines(fifo), uninitialised)
  {
    hide StrTok, StrToUll, Lines, Execute, Subsystem, ParseCommand;
    calls := [];
    var lines, cmd := Lines(fifo), uninitialised;
    var k := 0;
    assert lines[0..] == lines;
    while k < |lines|
      invariant k <= |lines|
      invariant Execute(lines, uninitialised) == calls + Execute(lines[k..], cmd)
    {
      assert lines[k..][1..] == lines[k + 1..];
      ExecuteStep(lines[k..], cmd);
      var line := lines[k];
      k := k + 1;
      ParseSteps(line);
      var name := StrTok(line, COMMAND_DELIMS);
      if name.0.None? {
        continue;
      }
      var cmdStr := name.0.value;
      if cmdStr == "exit" {
        return;
      }
      var optStr := StrTok(name.1, COMMAND_DELIMS);
      if optStr.0.None? {
        continue;
      }
      var opt := StrToUll(optStr.0.value).GetOr(0);
      SubsystemSteps(cmdStr, cmd);
      if cmdStr == "net" {
        cmd := SUBSYS_NET;
      }
      if cmdStr == "power" {
        cmd := SUBSYS_PWR;
      }
      if cmdStr == "memory" {
        cmd := SUBSYS_MEM;
      }
      calls := calls + [Call(cmd, opt)];
      if cmd == SUBSYS_PWR {
        return;
      }
    }
    assert lines[k..] == [];
    ExecuteNothing(cmd);
  }

  lemma SubsystemSteps(name: string, previous: nat)
    ensures Subsystem(name, previous)
         == if name == "memory" then SUBSYS_MEM
            else if name == "power" then SUBSYS_PWR
            else if name == "net" then SUBSYS_NET
            else previous
  {
  }

  lemma ParseSteps(line: string)
    ensures var name := StrTok(line, COMMAND_DELIMS);
            var opt := StrTok(name.1, COMMAND_DELIMS);
            ParseCommand(line) == (if name.0.None? then Ignore
                                   else if name.0.value == "exit" then Exit
                                   else if opt.0.None? then Ignore
                                   else Apply(name.0.value, StrToUll(opt.0.value).GetOr(0)))
  {
    hide StrTok, StrToUll;
  }

  lemma ExecuteStep(lines: seq<string>, previous: nat)
    requires lines != []
    ensures var c := ParseCommand(lines[0]);
            && (c.Ignore? ==> Execute(lines, previous) == Execute(lines[1..], previous))
            && (c.Exit? ==> Execute(lines, previous) == [])
            && (c.Apply? ==>
                  var subsystem := Subsystem(c.name, previous);
                  Execute(lines, previous)
                  == [Call(subsystem, c.severity)]
                     + if subsystem == SUBSYS_PWR then [] else Execute(lines[1..], subsystem))
  {
    hide ParseCommand, Subsystem;
  }

  lemma ExecuteNothing(previous: nat)
    ensures Execute([], previous) == []
  {
  }

  // ---------- Fidelity ----------

  /** The published severity is a hexadecimal number. */
  lemma PayloadExactly(severity: word32)
    ensures Payload(severity)[..2] == "0x" && Payload(severity)[2..] != ""
    ensures forall c | c in Payload(severity)[2..] :: c in DIGITS
    ensures ReadDigits(Payload(severity)[2..], 16, 0) == severity
  {
    hide ReadDigits;
    var digits := Print(severity, 16);
    assert Payload(severity)[..2] == "0x" && Payload(severity)[2..] == digits;
    ReadPrinted(severity, 16, []);
    assert digits + [] == digits && DIGITS[..16] == DIGITS;
    NoMoreDigits(severity);
  }

  lemma NoMoreDigits(acc: nat)
    ensures ReadDigits([], 16, acc) == acc
  {
  }

  /** What a client makes of a message: the third level of the topic, and the number of the payload cut to 32 bits. */
  lemma DecodeExactly(topic: string, payload: string)
    ensures var levels, f := Tokens(topic, "/"), Decode(topic, payload);
            && f.component == (if |levels| > 2 then Some(levels[2]) else None)
            && f.severity == (match StrToUll(payload) case None => 0 case Some(n) => n % TWO_TO_32)
  {
    hide StrTok, StrToUll, Tokens;
    var levels := Tokens(topic, "/");
    var name := StrTok(topic, "/").1;
    var component := StrTok(name, "/").1;
    StrTokTakesToken(topic, "/");
    StrTokTakesToken(name, "/");
    StrTokTakesToken(component, "/");
    NoTokens("/");
    if |levels| > 2 {
      assert levels[1..][1..][0] == levels[2];
    }
  }

  /**
   A line is a command for its first word with the number the second starts with, 0 if it does
   not; `exit` ends; a lone word or an empty line is ignored.
   */
  lemma CommandExactly(line: string)
    ensures var words := Tokens(line, COMMAND_DELIMS);
            ParseCommand(line) == if words == [] then Ignore
                                  else if words[0] == "exit" then Exit
                                  else if |words| == 1 then Ignore
                                  else Apply(words[0], StrToUll(words[1]).GetOr(0))
  {
    hide StrTok, StrToUll, Tokens;
    StrTokTakesToken(line, COMMAND_DELIMS);
    StrTokTakesToken(StrTok(line, COMMAND_DELIMS).1, COMMAND_DELIMS);
    var words := Tokens(line, COMMAND_DELIMS);
    if |words| > 1 {
      assert words[1..][0] == words[1];
    }
  }

  /** The severity a client reads is the published one, over the whole 32-bit range. */
  lemma PayloadReadBack(severity: word32)
    ensures StrToUll(Payload(severity)) == Some(severity)
  {
    MagnitudeOfHex(severity);
    assert Payload(severity)[0] == '0';
    StrToUllUnsigned(Payload(severity));
  }

  /** A component name that is one topic level and one word of a fifo line, and not `exit`. */
  predicate Word(name: string) {
    name != "" && '/' !in name && ' ' !in name && '\n' !in name && name != "exit"
  }

  lemma ReceivedAsSent(target: string, component: Option<string>, severity: word32)
    requires target != "" && '/' !in target
    requires component.Some? ==> component.value != "" && '/' !in component.value
    ensures Decode(FaultTopic(target, component), Payload(severity)) == ClientFault(component, severity)
  {
    hide TopicComponent, StrToUll, FaultTopic, Payload;
    ComponentExactly(target, component);
    PayloadReadBack(severity);
  }

  /** The number the backend reads for a severity: from 2^31 on, one far above 32 bits. */
  function ReadSeverity(severity: word32): nat {
    if severity < 0x8000_0000 then severity else TWO_TO_64 - TWO_TO_32 + severity
  }

  lemma CommandOfFifoLine(name: string, severity: word32)
    requires Word(name)
    ensures ParseCommand(FifoLine(ClientFault(Some(name), severity))) == Apply(name, ReadSeverity(severity))
    ensures name == "power" ==>
              ParseCommand(FifoLine(ClientFault(None, severity))) == Apply(name, ReadSeverity(severity))
  {
    hide StrTok, StrToUll, SignedDecimal;
    var number := SignedDecimal(AsInt32(severity));
    assert FifoLine(ClientFault(Some(name), severity)) == name + [' '] + (number + "\n");
    StrTokAt(name, ' ', number + "\n", COMMAND_DELIMS);
    NumberToken(AsInt32(severity));
  }

  lemma NumberToken(i: int)
    requires -0x8000_0000 <= i < 0x8000_0000
    ensures StrTok(SignedDecimal(i) + "\n", COMMAND_DELIMS) == (Some(SignedDecimal(i)), "")
    ensures StrToUll(SignedDecimal(i)) == Some(if i < 0 then TWO_TO_64 + i else i)
  {
    hide StrTok, StrToUll;
    var number := SignedDecimal(i);
    forall x | x in number ensures x !in COMMAND_DELIMS {
      SignedDecimalChars(i, x);
    }
    assert number + ['\n'] + "" == number + "\n";
    StrTokAt(number, '\n', "", COMMAND_DELIMS);
    SignedDecimalReadBack(i, "");
    assert number + "" == number;
  }

  /** The line for a fault whose component is a word is one line, and the command for it. */
  lemma LineOfWord(component: Option<string>, severity: word32)
    requires component.Some? ==> Word(component.value)
    ensures IsFullLine(FifoLine(ClientFault(component, severity)))
    ensures ParseCommand(FifoLine(ClientFault(component, severity)))
         == Apply(component.GetOr("power"), ReadSeverity(severity))
  {
    hide ParseCommand, AsInt32, SignedDecimal;
    var name, number := component.GetOr("power"), SignedDecimal(AsInt32(severity));
    CommandOfFifoLine(name, severity);
    if '\n' in number {
      SignedDecimalChars(AsInt32(severity), '\n');
    }
    var line := FifoLine(ClientFault(component, severity));
    assert line[..|line| - 1] == name + " " + number;
  }

  /** What the parsed name of a command can be: a word of its line, but not `exit`. */
  lemma ParsedName(line: string)
    ensures var c := ParseCommand(line);
            c.Apply? ==>
              && c.name != "" && c.name != "exit" && ' ' !in c.name && '\n' !in c.name
              && ('/' in c.name ==> '/' in line)
  {
    hide StrToUll, StrSpn, StrCSpn;
  }

  /** A received component is a part of a topic, so no line is written with a slash in it. */
  lemma NoSlashWritten(target: string, component: Option<string>, severity: word32)
    requires target != "" && '/' !in target
    ensures '/' !in FifoLine(Decode(FaultTopic(target, component), Payload(severity)))
  {
    hide StrToUll, FaultTopic, Payload, TopicComponent, AsInt32, SignedDecimal, StrSpn, StrCSpn;
    ComponentRead(target, component);
    var f := Decode(FaultTopic(target, component), Payload(severity));
    if '/' in SignedDecimal(AsInt32(f.severity)) {
      SignedDecimalChars(AsInt32(f.severity), '/');
    }
  }

  /** The commands the backend reads for a fault: none if publishing it is refused. */
  function CommandsFor(target: string, component: Option<string>, severity: word32): seq<Command> {
    if !Publishable(FaultTopic(target, component)) then []
    else Map(ParseCommand, Lines(FifoLine(Decode(FaultTopic(target, component), Payload(severity)))))
  }

  lemma SomeCommand(target: string, component: Option<string>, severity: word32)
    requires Publishable(FaultTopic(target, component))
    ensures CommandsFor(target, component, severity) != []
  {
    hide FifoLine, ParseCommand, Decode, Lines, FaultTopic, Payload, Publishable;
    var f := Decode(FaultTopic(target, component), Payload(severity));
    FifoLineNotEmpty(f);
    FirstLine(FifoLine(f));
  }

  lemma CommandOfWord(target: string, component: Option<string>, severity: word32)
    requires target != "" && '/' !in target && (component.Some? ==> Word(component.value))
    requires Publishable(FaultTopic(target, component))
    ensures CommandsFor(target, component, severity) == [Apply(component.GetOr("power"), ReadSeverity(severity))]
  {
    hide FifoLine, ParseCommand, Decode, FaultTopic, Payload, Lines, ReadSeverity, Publishable;
    ReceivedAsSent(target, component, severity);
    LineOfWord(component, severity);
    OneLine(FifoLine(ClientFault(component, severity)));
  }

  lemma CommandOfOther(target: string, component: string, severity: word32)
    requires target != "" && '/' !in target && !Word(component)
    requires Publishable(FaultTopic(target, Some(component)))
    ensures var commands := CommandsFor(target, Some(component), severity);
            commands != [] && (commands[0].Apply? ==> commands[0].name != component)
  {
    hide FifoLine, ParseCommand, Decode, FaultTopic, Payload, Lines, Publishable;
    SomeCommand(target, Some(component), severity);
    var f := Decode(FaultTopic(target, Some(component)), Payload(severity));
    var line := FifoLine(f);
    FifoLineNotEmpty(f);
    NoSlashWritten(target, Some(component), severity);
    FirstLine(line);
    ParsedName(Lines(line)[0]);
  }

  /**
   From the server's call to the backend's: component and severity of a fault, published,
   received, written to the fifo, read line by line and parsed again. The component survives if
   and only if its topic can be published -- without wildcards, and not too long -- and it is
   absent or a word; then component and severity together make up the only command if and only
   if the severity is below 2^31.
   */
  lemma FaultToCommand(target: string, component: Option<string>, severity: word32)
    requires target != "" && '/' !in target
    ensures var commands := CommandsFor(target, component, severity);
            && (commands != [] && commands[0].Apply? && commands[0].name == component.GetOr("power")
                <==> Publishable(FaultTopic(target, component)) && (component.Some? ==> Word(component.value)))
            && (commands == [Apply(component.GetOr("power"), severity)]
                <==> Publishable(FaultTopic(target, component)) && (component.Some? ==> Word(component.value))
                     && severity < 0x8000_0000)
  {
    if !Publishable(FaultTopic(target, component)) {
      assert CommandsFor(target, component, severity) == [];
    } else {
      hide CommandsFor, Word, Publishable, FaultTopic;
      if component.Some? && !Word(component.value) {
        CommandOfOther(target, component.value, severity);
      } else {
        CommandOfWord(target, component, severity);
      }
    }
  }

  lemma LineOfExit(severity: word32)
    ensures var line := FifoLine(ClientFault(Some("exit"), severity)); IsFullLine(line) && ParseCommand(line) == Exit
  {
    hide SignedDecimal, AsInt32, StrToUll, StrTok;
    var number := SignedDecimal(AsInt32(severity));
    var line := FifoLine(ClientFault(Some("exit"), severity));
    assert line == "exit" + [' '] + (number + "\n");
    StrTokAt("exit", ' ', number + "\n", COMMAND_DELIMS);
    if '\n' in number {
      SignedDecimalChars(AsInt32(severity), '\n');
    }
    assert line[..|line| - 1] == "exit " + number;
  }

  /** A component called `exit` ends the backend's loop, whatever is written behind it. */
  lemma ExitComponent(target: string, severity: word32, behind: string, previous: nat)
    requires target != "" && '/' !in target
    ensures var f := Decode(FaultTopic(target, Some("exit")), Payload(severity));
            Execute(Lines(FifoLine(f) + behind), previous) == []
  {
    hide Decode, FaultTopic, Payload, Lines, FifoLine, ParseCommand, IsFullLine, Execute;
    LineOfExit(severity);
    ReceivedAsSent(target, Some("exit"), severity);
    var line := FifoLine(ClientFault(Some("exit"), severity));
    LinesCons(line, behind);
    ExecuteStep(Lines(line + behind), previous);
  }

  /** A component the backend does not know repeats the subsystem of the command before. */
  lemma UnknownComponent(name: string, severity: word32, behind: seq<string>, previous: nat)
    requires Word(name) && name !in ["net", "power", "memory"]
    ensures var calls := Execute([FifoLine(ClientFault(Some(name), severity))] + behind, previous);
            calls != [] && calls[0] == Call(previous, ReadSeverity(severity))
  {
    CommandOfFifoLine(name, severity);
    hide FifoLine, ParseCommand, Word;
    ExecuteStep([FifoLine(ClientFault(Some(name), severity))] + behind, previous);
  }

  // ---------- A whole sequence of faults ----------

  /** The faults the injecting library knows what to do with, faithfully transmitted. */
  predicate Supported(f: Record) {
    && (f.component.Some? ==> f.component.value in ["net", "power", "memory"])
    && f.severity < 0x8000_0000
  }

  /** The call a fault is meant to cause: a node without component loses power. */
  function Intended(f: Record): Call {
    match f.component
    case None => Call(SUBSYS_PWR, f.severity)
    case Some(c) =>
      Call(if c == "memory" then SUBSYS_MEM else if c == "power" then SUBSYS_PWR else SUBSYS_NET, f.severity)
  }

  /** A list up to the first call that ends the process. */
  function UpToPower(calls: seq<Call>): seq<Call> {
    if calls == [] then []
    else [calls[0]] + if calls[0].subsystem == SUBSYS_PWR then [] else UpToPower(calls[1..])
  }

  function Received(f: Record): ClientFault {
    ClientFault(f.component, f.severity)
  }

  lemma NameIsWord(f: Record)
    requires Supported(f)
    ensures f.component.Some? ==> Word(f.component.value)
  {
  }

  lemma FifoLineFull(f: Record)
    requires Supported(f)
    ensures IsFullLine(FifoLine(Received(f)))
    ensures ParseCommand(FifoLine(Received(f))) == Apply(f.component.GetOr("power"), f.severity)
  {
    hide ParseCommand, IsFullLine, FifoLine;
    NameIsWord(f);
    LineOfWord(f.component, f.severity);
  }

  lemma {:induction false} WrittenLines(faults: seq<Record>)
    requires forall f | f in faults :: Supported(f)
    ensures Lines(Client.Written(true, Map(Received, faults))) == Map(FifoLine, Map(Received, faults))
  {
    hide FifoLine, IsFullLine, Lines, Supported;
    if faults == [] {
      assert Map(FifoLine, Map(Received, faults)) == [];
      NoLines();
    } else {
      assert Map(Received, faults)[1..] == Map(Received, faults[1..]);
      FifoLineFull(faults[0]);
      WrittenLines(faults[1..]);
      LinesCons(FifoLine(Received(faults[0])), Client.Written(true, Map(Received, faults[1..])));
      MapCons(FifoLine, Map(Received, faults));
    }
  }

  lemma {:induction false} ExecuteIntended(faults: seq<Record>, previous: nat)
    requires forall f | f in faults :: Supported(f)
    ensures Execute(Map(FifoLine, Map(Received, faults)), previous) == UpToPower(Map(Intended, faults))
  {
    hide FifoLine, ParseCommand;
    var lines := Map(FifoLine, Map(Received, faults));
    if faults == [] {
      assert Map(Intended, faults) == [];
    } else {
      FifoLineFull(faults[0]);
      assert lines[1..] == Map(FifoLine, Map(Received, faults[1..]));
      assert Map(Intended, faults)[1..] == Map(Intended, faults[1..]);
      ExecuteIntended(faults[1..], Subsystem(faults[0].component.GetOr("power"), previous));
    }
  }

  lemma {:induction false} UpToPowerIsPrefix(calls: seq<Call>)
    ensures UpToPower(calls) <= calls
  {
    if calls != [] {
      UpToPowerIsPrefix(calls[1..]);
    }
  }

  /** The sequence of calls made for a client's faults, the starting signal being the first of them. */
  function CallsFor(faults: seq<ClientFault>, uninitialised: nat): seq<Call> {
    var fifo := Client.Written(false, faults);
    if fifo == "" then [] else Execute(Lines(fifo[1..]), uninitialised)
  }

  /** The backend does what the server meant, in order, up to the first loss of power. */
  lemma CommandsInOrder(signal: ClientFault, faults: seq<Record>, uninitialised: nat)
    requires forall f | f in faults :: Supported(f)
    ensures CallsFor([signal] + Map(Received, faults), uninitialised) == UpToPower(Map(Intended, faults))
    ensures UpToPower(Map(Intended, faults)) <= Map(Intended, faults)
  {
    hide Execute, Lines, FifoLine, Intended, Supported;
    var all := [signal] + Map(Received, faults);
    assert all[1..] == Map(Received, faults);
    var fifo := Client.Written(false, all);
    assert fifo[1..] == Client.Written(true, Map(Received, faults));
    WrittenLines(faults);
    ExecuteIntended(faults, uninitialised);
    UpToPowerIsPrefix(Map(Intended, faults));
  }

  // ---------- The whole fifo ----------

  lemma {:induction false} WrittenAppend(synced: bool, a: seq<ClientFault>, b: seq<ClientFault>)
    ensures Client.Written(synced, a + b)
         == Client.Written(synced, a) + Client.Written(synced || a != [], b)
    decreases a
  {
    hide FifoLine;
    if a == [] {
      assert a + b == b;
    } else {
      HeadOfAppend(a, b);
      WrittenAppend(true, a[1..], b);
      ConcatAssociates(if synced then FifoLine(a[0]) else "\n", Client.Written(true, a[1..]), Client.Written(true, b));
    }
  }

  lemma {:induction false} ExecutePrefix(lines: seq<string>, behind: seq<string>, previous: nat)
    ensures Execute(lines, previous) <= Execute(lines + behind, previous)
    decreases lines
  {
    hide ParseCommand, Subsystem;
    if lines != [] {
      HeadOfAppend(lines, behind);
      var c := ParseCommand(lines[0]);
      ExecutePrefix(lines[1..], behind, if c.Apply? then Subsystem(c.name, previous) else previous);
    }
  }

  /** Faults that come later only add calls, whatever they are. */
  lemma CallsForPrefix(faults: seq<ClientFault>, later: seq<ClientFault>, uninitialised: nat)
    ensures CallsFor(faults, uninitialised) <= CallsFor(faults + later, uninitialised)
  {
    hide Execute, Lines, Client.Written, EndsLine;
    if faults == [] {
      NothingWritten();
    } else {
      var written, behind := Client.Written(true, faults[1..]), Client.Written(true, later);
      HeadOfAppend(faults, later);
      WrittenStep(false, faults);
      WrittenStep(false, faults + later);
      WrittenAppend(true, faults[1..], later);
      assert ("\n" + written)[1..] == written && ("\n" + (written + behind))[1..] == written + behind;
      WrittenEnds(true, faults[1..]);
      LinesAppend(written, behind);
      ExecutePrefix(Lines(written), Lines(behind), uninitialised);
    }
  }

  lemma {:induction false} WrittenEnds(synced: bool, faults: seq<ClientFault>)
    ensures EndsLine(Client.Written(synced, faults))
    decreases faults
  {
    hide FifoLine;
    if faults != [] {
      WrittenEnds(true, faults[1..]);
      FifoLineEnds(faults[0]);
    }
  }

  lemma FifoLineEnds(f: ClientFault)
    ensures |FifoLine(f)| > 0 && EndsLine(FifoLine(f))
  {
    hide SignedDecimal, AsInt32;
    FifoLineNotEmpty(f);
    FifoLineShape(f);
  }

  /** What a client has put into the fifo when it stops. */
  function WholeFifo(forwarded: seq<ClientFault>): string {
    Client.Written(false, forwarded) + "exit\n"
  }

  lemma LastLinesAreFull()
    ensures IsFullLine("\n") && IsFullLine("exit\n") && IsFullLine("xit\n")
  {
  }

  lemma EmptyLineIgnored()
    ensures ParseCommand("\n") == Ignore
  {
    hide StrToUll;
  }

  lemma LoneWord(word: string)
    requires word != "" && ' ' !in word && '\n' !in word
    ensures ParseCommand(word + "\n") == if word == "exit" then Exit else Ignore
  {
    hide StrTok, StrToUll;
    assert word + "\n" == word + ['\n'] + "";
    StrTokAt(word, '\n', "", COMMAND_DELIMS);
    StrTokEmpty();
  }

  lemma StrTokEmpty()
    ensures StrTok("", COMMAND_DELIMS) == (None, "")
  {
  }

  lemma LastCommands()
    ensures ParseCommand("xit\n") == Ignore && ParseCommand("exit\n") == Exit
  {
    hide ParseCommand;
    LoneWord("xit");
    LoneWord("exit");
    assert "xit" + "\n" == "xit\n" && "exit" + "\n" == "exit\n";
  }

  lemma {:induction false} ExitChangesNothing(lines: seq<string>, exit: string, previous: nat)
    requires ParseCommand(exit) == Exit
    ensures Execute(lines + [exit], previous) == Execute(lines, previous)
    decreases lines
  {
    hide ParseCommand, Subsystem;
    if lines == [] {
      assert (lines + [exit])[0] == exit;
    } else {
      HeadOfAppend(lines, [exit]);
      var c := ParseCommand(lines[0]);
      ExitChangesNothing(lines[1..], exit, if c.Apply? then Subsystem(c.name, previous) else previous);
    }
  }

  /** Without any message only the last line is in the fifo. */
  lemma FifoOfNothing()
    ensures WholeFifo([]) == "exit\n" && WholeFifo([])[1..] == "xit\n"
    ensures Lines("exit\n") == ["exit\n"] && Lines("xit\n") == ["xit\n"]
  {
    hide Lines, IsFullLine;
    LastLinesAreFull();
    OneLine("exit\n");
    OneLine("xit\n");
  }

  lemma FifoOfFaults(forwarded: seq<ClientFault>)
    requires forwarded != []
    ensures WholeFifo(forwarded) == "\n" + WholeFifo(forwarded)[1..]
    ensures WholeFifo(forwarded)[1..] == Client.Written(true, forwarded[1..]) + "exit\n"
    ensures Client.Written(false, forwarded) == "\n" + Client.Written(true, forwarded[1..])
  {
    hide Client.Written, FifoLine;
    WrittenStep(false, forwarded);
    ConcatAssociates("\n", Client.Written(true, forwarded[1..]), "exit\n");
  }

  /** The lines of the fifo with and without its first character. */
  lemma LinesOfFifo(forwarded: seq<ClientFault>)
    requires forwarded != []
    ensures WholeFifo(forwarded) != ""
    ensures Lines(WholeFifo(forwarded)[1..]) == Lines(Client.Written(true, forwarded[1..])) + ["exit\n"]
    ensures Lines(WholeFifo(forwarded)) == ["\n"] + Lines(WholeFifo(forwarded)[1..])
  {
    hide Lines, IsFullLine, Client.Written, WholeFifo, EndsLine;
    LastLinesAreFull();
    FifoOfFaults(forwarded);
    OneLine("exit\n");
    WrittenEnds(true, forwarded[1..]);
    LinesAppend(Client.Written(true, forwarded[1..]), "exit\n");
    LinesCons("\n", WholeFifo(forwarded)[1..]);
  }

  /**
   A backend that has created the fifo drops its first character. It is the starting signal's,
   unless no message arrived at all: then `xit` is left of the client's last line, and the
   backend goes on waiting. The calls are the same whether the backend drops a character or not.
   */
  lemma BackendReadsFifo(forwarded: seq<ClientFault>, uninitialised: nat)
    ensures WholeFifo(forwarded) != ""
    ensures "exit\n" in Lines(WholeFifo(forwarded)[1..]) <==> forwarded != []
    ensures Execute(Lines(WholeFifo(forwarded)[1..]), uninitialised) == CallsFor(forwarded, uninitialised)
    ensures Execute(Lines(WholeFifo(forwarded)), uninitialised) == CallsFor(forwarded, uninitialised)
  {
    hide Lines, ParseCommand, WholeFifo, Client.Written, Execute;
    LastCommands();
    if forwarded == [] {
      FifoOfNothing();
      NothingWritten();
      ExecuteStep(["xit\n"], uninitialised);
      assert ["xit\n"][1..] == [];
      ExecuteNothing(uninitialised);
      ExecuteStep(["exit\n"], uninitialised);
    } else {
      LinesOfFifo(forwarded);
      FifoOfFaults(forwarded);
      var lines := Lines(Client.Written(true, forwarded[1..]));
      assert Client.Written(false, forwarded)[1..] == Client.Written(true, forwarded[1..]);
      ExitChangesNothing(lines, "exit\n", uninitialised);
      assert "exit\n" == (lines + ["exit\n"])[|lines|];
      EmptyLineIgnored();
      ExecuteStep(["\n"] + (lines + ["exit\n"]), uninitialised);
    }
  }
}
