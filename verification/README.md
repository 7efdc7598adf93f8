# lauSim: a verified model

lauSim injects simulated hardware faults into distributed programs. A server asks a *fault
manager* once per *tic* which nodes or components fail, passes the faults to the nodes over
MQTT, and a client on each node hands them to an injecting backend. Runs have to be
repeatable: a *transcribe* plugin records what a fault manager decides, and a *replay* plugin
plays the recording back. This project models these parts and proves what they promise.

## Overview

| file | models |
|---|---|
| CStrings.dfy, Numerals.dfy | `strtok`, `strstr`, `strcspn`, `getline`; `printf` decimals, hexadecimals and base-0 `strtoull`, after sections 7.19.6.1, 7.20.1.4 and 7.21.5 of C99 |
| Delivery.dfy | the replay loop as a machine over classified lines, and the lists it delivers described without the machine |
| Transcript.dfy, AnyText.dfy, RoundTrip.dfy, RecordReplay.dfy | the transcript format, written and read; what is read out of any text; when a recorded run comes back |
| Transcribe.dfy, Replay.dfy | the two plugins as objects, method by method |
| Server.dfy, Clock.dfy | the server's part in a tic, node states, and catching up with the clock |
| RandomManager.dfy | the random fault manager, driven by an arbitrary random stream |
| Runs.dfy | whole server runs: record, replay, compare |
| Topics.dfy, Pipeline.dfy, FaultQueue.dfy | topics and their matching (section 4.7.1 of MQTT 3.1.1), the text each hop writes and parses, the client's receive queue |
| SyncStart.dfy, SyncSafety.dfy, EndToEnd.dfy, Completion.dfy, Starting.dfy | server, broker and clients as steps over first-in-first-out connections; what every reachable state satisfies, what it can still lead to, when runs start and end |
| Reproduction.dfy | the recorded and the replayed run, down to the backends |
| Sockets.dfy | the sockets tracked by the preloaded library |
| Plugins.dfy, ConfigText.dfy | configuration file, plugin registry, roles; which files are accepted |

Methods follow the source's objects and loops. Each is proved against a function on values,
and the properties are lemmas about these functions. Calls through a function pointer to a
plugin enter as parameters: the transcriber is given what the nested manager returned, the
server what its manager returned for the tic. Clock readings, random numbers, results of
system calls, what a library registers and the interleaving of processes are parameters too,
and the theorems hold for all of them.

## Main results

- `RecordReplay.RoundTripExactly`: replay reproduces a recorded run -- node table, each tic's
  faults in order, nothing afterwards -- if and only if all names are clean. The documentation
  (srv/README.md:39) promises it without this condition; names with commas, newlines or
  `tic#`, empty node names and empty component names are the exceptions, all of them.
- `AnyText.DeliveredExactly`: for any text that opens, recorded or not, a fault is delivered in the
  call numbered with the greatest marker up to its line; `AnyText.ParseTableExactly` and
  `AnyText.ClassifyExactly` say which texts open and which lines are markers, faults and noise.
- `RecordReplay.ReRecordingIsFixpoint`: recording the replay of any text gives a text on which
  this can be repeated without changing a byte.
- `Runs.RecordThenReplay`, `Runs.RecordThenReplayRandom`: in its n-th tic the replaying server
  run makes the calls the recording run made in its n-th tic, and none in later tics, whatever
  the two clocks, tic lengths and run lengths; for random runs without any condition on names.
- `RandomManager.FailsExactly`: over a whole random run, which number of the stream decides about
  which node in which tic.
- `Clock.LockStep`: tic counter and deadline stay in step if and only if no single wait skips
  2^32 tics, the range of the counter for skipped tics; `Clock.LostTics` is such a wait.
- `Clock.AdvanceExactly`: the wait ends at the first deadline that has not passed when the clock is
  read, and every deadline before it counts as a tic, modulo 2^32.
- `Starting.TicPossibleExactly`: some run gets to a tic if and only if the nodes' names are distinct,
  each has a client, and each client can subscribe and report; after a request for termination
  none follows (`Starting.NoTicAfterTermination`).
- `EndToEnd.NoTicBeforeReady`, `EndToEnd.ArrivesInOrder`, `EndToEnd.NothingDropped`,
  `EndToEnd.CallsAreIntended`: safety of the synchronised start and of everything after it,
  over all interleavings, down to the calls the backend makes; the first for all names.
- `Completion.AllCanArrive`: from every such state the run can go on, without a further tic,
  until each node has received exactly what was meant for it.
- `Reproduction.BackendsReproduce`: a system driven by a run and another one driven by its replay,
  over any two interleavings, make a node's backend do the same calls in the same order.
- `Topics.Isolation`: a client gets through its subscription and its report, and hears its own
  faults and nothing else, if and only if its name is one topic level without wildcards, not
  `lausim` or `master`, and has at most 499 characters. A client called `lausim` takes the news
  for external programs, whose topic `envelope/lausim` is also that of a whole-node fault, for
  faults of its own. From 500 characters on the filter is cut (its buffer takes 510), and
  `Topics.FaultRouting` says which faults still reach such a client. With a wildcard in a node's
  name no tic ever runs (`EndToEnd.WildcardNeverStarts`).
- `Pipeline.FaultToCommand`: a component reaches the backend if and only if the topic can be
  published and the component is absent or a word, and with it a severity if and only if it is
  below 2^31. Topics with wildcards or more than 65535 characters are refused by the library, and
  the server goes on with the next fault. Empty components, `exit`, and components with blanks,
  newlines or slashes become something else: `Pipeline.ExitComponent` ends the backend's loop, and
  in `Pipeline.UnknownComponent` a word the backend does not know is taken for the subsystem of
  the command before.
- `Pipeline.BackendReadsFifo`: the backend that created the fifo finds the client's final `exit`
  in it if and only if a message had arrived before; otherwise it finds `xit`, and goes on waiting.
- `Sockets.TrackedExactly`: which sockets are tracked and which are shut down, told by the history of
  calls and commands alone.
- `ConfigText.AcceptedExactly`: assignments are accepted if and only if each value suits its key;
  with `Plugins.LastAssignmentWins` that is all such a file does.
- `Server.ReadyExactly`: with a node name used twice the wait for readiness never ends.

Where code and documentation differ, the model follows the code: srv/README.md:19 says a node
waits for a fault of severity 0, the client takes the first message, whatever it is, as the
starting signal (client/src/client.c:86-91). That this message is the starting signal in a
synchronised run is part of `EndToEnd.ArrivesInOrder`.

## Model

| member | source | states |
|---|---|---|
| `Numerals.SeverityReadBack` | plugins/transcribe/transcribe.c:59-62 | a severity printed with `%d` and read by base-0 `strtoull` into an `unsigned` is itself, for all 32-bit values |
| `Numerals.MagnitudeOfDecimal` | plugins/replay/replay.c:217-232 | printed decimals are never read as octal or hexadecimal |
| `Numerals.DecimalInjective` | plugins/random/random.c:140 | no two numbers are printed alike |
| `Numerals.BaseZero` | plugins/replay/replay.c:38-50 | base 0 reads decimal digits, octal ones behind `0` and hexadecimal ones behind `0x` as the number they stand for |
| `Numerals.StrToUllExactly` | plugins/replay/replay.c:217 | white space and one sign are skipped; minus wraps around, too large numbers saturate, no digits is no number |
| `CStrings.LinesOfFlatten` | plugins/replay/replay.c:174 | `getline` gives back exactly the lines a file was written from |
| `CStrings.LinesPartition` | plugins/replay/replay.c:174 | the lines of any file make up the file, with newlines only at their ends |
| `CStrings.StrTokTakesToken` | plugins/replay/replay.c:98-122 | successive `strtok` calls take the longest stretches without delimiters, in order |
| `Delivery.ReadTicMeetsStamps` | plugins/replay/replay.c:173-233 | one tic's loop hands out the faults stamped with it and leaves all later ones |
| `Delivery.StepKeepsAhead` | plugins/replay/replay.c:167-190 | between calls the marker read ahead is not behind the tic counter, or the file is read |
| `Delivery.StampsAt` | plugins/replay/replay.c:185-190 | a fault line is stamped with the greatest marker before it |
| `Delivery.RunningMaximum` | plugins/replay/replay.c:157-235 | from any position the k-th call delivers the fault lines whose greatest marker so far is k, in file order, for sparse, repeated or decreasing markers |
| `Delivery.Conservation` | plugins/replay/replay.c:173-233 | delivered lists plus faults still unread are always all faults of the file in order; what is unread is the file's end |
| `Delivery.AllDelivered` | plugins/replay/replay.c:173-177 | after more calls than any marker the file is read and every fault has been delivered |
| `Delivery.NoiseInvisible` | plugins/replay/replay.c:191-221 | a line that is neither marker nor fault changes no delivered list |
| `AnyText.TicNumberExactly` | plugins/replay/replay.c:38-50 | a marker's number is that of the first token with one, behind the first token |
| `AnyText.ClassifyExactly` | plugins/replay/replay.c:185-221 | a line with `tic#` is a marker; another is a fault if and only if it has two commas and a number behind the second |
| `AnyText.ParseNodeExactly` | plugins/replay/replay.c:98-127 | a node line is its first token, a count and that many tokens; fewer are an error |
| `AnyText.ParseTableExactly` | plugins/replay/replay.c:62-127 | a file opens if and only if it starts with a number and so many node lines; the first missing or bad line decides the error |
| `AnyText.DeliveredExactly` | plugins/replay/replay.c:129-235 | over any text that opens the k-th call delivers the faults whose greatest marker so far is k, the line behind the table being a marker for `tic` alone and never a fault |
| `RecordReplay.NoiseLineInvisible` | plugins/replay/replay.c:191-221 | a further line without `tic#`, and without two commas and a number behind them, changes no delivered list |
| `RoundTrip.MarkerTicNumber` | plugins/replay/replay.c:38-50 | the number of a written marker is read back |
| `RoundTrip.FaultLineExactly` | plugins/transcribe/transcribe.c:59-62 | how a fault is written, severities from 2^31 on as negative numbers |
| `RoundTrip.FaultLineMarker` | plugins/replay/replay.c:185 | a fault line is taken for a marker exactly when one of its names contains `tic#` |
| `RoundTrip.ClassifyFault` | plugins/replay/replay.c:191-232 | a written fault with clean names is read back: node, component or none, severity |
| `RoundTrip.ClassifyIsClean` | plugins/replay/replay.c:185-232 | whatever line is read as a fault, its names are clean |
| `RoundTrip.RunComesBack` | plugins/replay/replay.c:129-142 | the tic part of a recorded file replays to the recorded lists, then to empty ones |
| `RoundTrip.NodeComesBack` | plugins/replay/replay.c:98-127 | a written node line is read back with all its components |
| `RoundTrip.TableComesBack` | plugins/transcribe/transcribe.c:35-44 | a written node table is read back, and reading stops where the tics begin |
| `RecordReplay.RecordingOpens` | plugins/replay/replay.c:52-145 | a clean recording is accepted, and every marker in it carries its number |
| `RecordReplay.ReplayedIsClean` | plugins/replay/replay.c:157-235 | whatever text is replayed, only clean names come out |
| `RecordReplay.RoundTripExactly` | srv/README.md:39 | replay reproduces the recorded run if and only if its names are clean |
| `RecordReplay.ReRecordingReplaysAlike` | plugins/transcribe/transcribe.c:32-66 | the recording of the replay of any accepted text replays to the same nodes and lists |
| `RecordReplay.ReRecordingIsFixpoint` | plugins/transcribe/transcribe.c:32-66 | re-recording a second time writes the same bytes |
| `RecordReplay.RecordingIsFixpoint` | plugins/transcribe/transcribe.c:32-66 | re-recording a recorded clean run writes the same bytes |
| `Transcribe.Transcriber.GetNodes` | plugins/transcribe/transcribe.c:32-47 | hands on the nested answer; writes the table exactly when there is one |
| `Transcribe.Transcriber.Tic` | plugins/transcribe/transcribe.c:49-52 | writes the next marker |
| `Transcribe.Transcriber.GetFail` | plugins/transcribe/transcribe.c:54-66 | hands on the nested faults unchanged after writing one line each |
| `Replay.Replayer.GetTicNum` | plugins/replay/replay.c:38-50 | the loop over tokens finds the first that starts with a number |
| `Replay.Replayer.GetNodes` | plugins/replay/replay.c:52-145 | reads table and first marker, with each of the source's error returns |
| `Replay.Replayer.ReadNode` | plugins/replay/replay.c:98-127 | one table line, token by token |
| `Replay.Replayer.Tic` | plugins/replay/replay.c:157-235 | one call is one step of the machine; the faults are numbered on from the last one |
| `Replay.Replayer.ReadLine` | plugins/replay/replay.c:185-232 | how the loop takes a line |
| `Replay.Replayer.GetFail` | plugins/replay/replay.c:237-240 | the faults of the last tic |
| `Clock.SkipsIsLeast` | srv/server.cpp:183-184 | the wait ends with the first deadline that is not before the clock |
| `Clock.AdvanceExactly` | srv/server.cpp:176-191 | one end of tic goes to the first deadline not passed when the clock is read, each skipped one counting as a tic modulo 2^32 |
| `Clock.SkipsOfFrozenClock` | srv/server.cpp:183-184 | with a frozen clock the skip count is the lag over the tic length, rounded up |
| `Clock.LockStep` | srv/server.cpp:176-191 | over a run the deadline is the start plus counted tics times tic length if and only if no wait skips 2^32 tics |
| `Clock.LostTics` | srv/server.cpp:176-191 | one wait of 2^32 tics that the counter misses altogether |
| `Clock.CountsTics` | srv/server.cpp:178-181 | without a tic length tics are counted and the clock is not used |
| `Server.Server.SkipToEndOfTic` | srv/server.cpp:176-191 | the loop, with its wrapping counter, is one advance of the clock |
| `Server.Server.DoTic` | srv/server.cpp:209-216 | one tic: all faults passed on, whole-node ones announced, the calls logged as this tic's, clock advanced |
| `Server.Server.ManageFails` | srv/server.cpp:223-255 | one call per fault in order; one external message exactly when there are faults |
| `Server.AnnouncedNodes` | srv/server.cpp:239-248 | a node is announced as failing or as spare exactly when a fault without component says so |
| `Server.AnnouncedExactly` | srv/server.cpp:235-255 | one message if there are faults; failing are the nodes a component-less fault with a severity names, spare those with severity 0, each such fault listed once |
| `Server.AnnouncedInOrder` | srv/server.cpp:235-248 | both lists of the message follow the order of the faults |
| `Server.Server.AllNodesReady` | srv/server.cpp:98-105 | true exactly when every state is ready |
| `Server.Server.SetNodeState` | srv/server.cpp:107-118 | changes the first node of that name and no other; 1 when there is none |
| `Server.Server.OnMessage` | srv/server.cpp:120-174 | only a status message carrying a status changes a state |
| `Server.Server.SendSyncedSignal` | srv/server.cpp:203-207 | one starting signal per node, in table order |
| `Server.StateIsLastReported` | srv/server.cpp:107-118 | over any messages a node has the state it last reported, if it is the first of its name |
| `Server.ReadyExactly` | srv/server.cpp:98-118 | all nodes ready if and only if names are distinct and each last report was ready |
| `RandomManager.Random.Tic` | plugins/random/random.c:50-78 | the loop, in place on the health flags, draws a number for healthy nodes only |
| `RandomManager.Random.GetNodes` | plugins/random/random.c:34-40 | refuses without nodes, else `node0` to `node<n-1>` without components |
| `RandomManager.DrawMeans` | plugins/random/random.c:58-77 | a tic fails healthy nodes in increasing order, those and no others lose their health |
| `RandomManager.DrawExactly` | plugins/random/random.c:59-60 | within a tic the n-th healthy node takes the n-th random number and fails exactly when it is below the threshold |
| `RandomManager.DrawnCount` | plugins/random/random.c:59-60 | a tic takes one number for each node that is healthy when it begins |
| `RandomManager.FailsExactly` | plugins/random/random.c:50-78 | over a run a node fails in a tic exactly when it is healthy and the number behind those of all earlier tics and of the healthy nodes before it is below the threshold |
| `RandomManager.AtMostOneFailure` | plugins/random/random.c:50-83 | over any run no node fails twice, health never returns, faults equal lost nodes in number |
| `RandomManager.ListsIncrease` | plugins/random/random.c:58-77 | each tic's list is strictly increasing |
| `RandomManager.EachNodeReportedOnce` | plugins/random/random.c:71-75 | no node name occurs twice among all faults of a run |
| `RandomManager.NodeNamesDistinct` | plugins/random/random.c:140 | generated names are pairwise distinct |
| `RandomManager.NodeNameExactly` | plugins/random/random.c:140 | node i is called `node` followed by the number i |
| `RandomManager.RandomRunExactly` | plugins/random/random.c:50-78 | the faults of a tic are whole nodes with severity 100; `node<j>` is among them exactly when it is healthy and its own number is below the threshold |
| `RandomManager.RandomRunComesBack` | plugins/random/random.c:50-83 | a recorded random run is reproduced, for every size, stream and probability |
| `Runs.RunRecording` | srv/main.cpp:113-114 | the tic loop over a transcriber writes the run and passes on, in each tic, that tic's list |
| `Runs.TicsExactly` | srv/main.cpp:113-114 | tics run before termination and, unless it is 0, below the limit |
| `Runs.RunReplaying` | srv/main.cpp:113-114 | the tic loop over a replayer passes on, in each tic, what the machine delivers in that call |
| `Runs.RecordThenReplay` | srv/server.cpp:209-255 | tic by tic the replaying run makes the recording run's calls, and none in tics behind its end, for any two run lengths, clocks and tic lengths |
| `Runs.DrawRandom` | plugins/random/random.c:50-83 | the tics of a new random manager give the lists of `RandomRun` |
| `Runs.RecordThenReplayRandom` | srv/server.cpp:209-255 | the same, tic by tic, for every random run, without conditions on names |
| `Topics.FaultRouting` | client/src/mqtt.c:74-76 | a client whose name is one level without wildcards subscribes, and a fault's topic matches its filter exactly when it is for that node, up to names of 499 characters; for longer names, exactly which faults still match the cut filter |
| `Topics.SubscribesExactly` | client/src/mqtt.c:74-76 | which names of one level make a filter the library accepts, the cut included |
| `Topics.SplitExactly` | client/src/mqtt.c:94-96 | the levels of a topic are what its slashes separate |
| `Topics.MatchExactly` | client/src/mqtt.c:74-76 | filters match level by level, `+` any level, a `#` at the end any further ones |
| `Topics.TopicLevels` | plugins/mosquitto/com_mosquitto.cpp:102-104 | the levels of the topics of faults and reports |
| `Topics.ServerRouting` | plugins/mosquitto/com_mosquitto.cpp:31 | the server hears all reports, and faults only of a node called `master` |
| `Topics.PublishableExactly` | plugins/mosquitto/com_mosquitto.cpp:102-108 | a fault can be published if and only if target and component have no wildcard and are not too long |
| `Topics.Isolation` | plugins/mosquitto/com_mosquitto.cpp:102-118 | for every name: its client subscribes, reports, and hears of all publications its faults and nothing else, if and only if the name is one level without wildcards, not `lausim` or `master`, and has at most 499 characters |
| `Topics.ComponentExactly` | client/src/mqtt.c:94-106 | the component is recovered if and only if it is absent or one non-empty topic level |
| `Pipeline.PayloadReadBack` | plugins/mosquitto/com_mosquitto.cpp:105-106 | the hexadecimal payload is read as the severity, for all 32-bit values |
| `Pipeline.PayloadExactly` | plugins/mosquitto/com_mosquitto.cpp:105-106 | the payload is the severity in hexadecimal behind `0x` |
| `Pipeline.DecodeExactly` | client/src/mqtt.c:86-110 | a message becomes a fault with the third level of its topic and the number of its payload cut to 32 bits, 0 if there is none |
| `Pipeline.CommandExactly` | client/src/backend.c:109-120 | a line is a command for its first word with the number its second starts with; `exit`, a lone word and an empty line apart |
| `Pipeline.FaultToCommand` | client/src/backend.c:106-128 | for every component: the backend reads it unchanged if and only if its topic can be published and it is absent or a word, and the whole fault as its one command if and only if the severity also is below 2^31 |
| `Pipeline.ExitComponent` | client/src/backend.c:113-114 | a component `exit` ends the backend's loop whatever follows |
| `Pipeline.UnknownComponent` | client/src/backend.c:121-128 | an unknown component repeats the previous subsystem |
| `Pipeline.CommandsInOrder` | client/src/client.c:86-98 | the calls for a signal and supported faults are the intended ones in order, up to the first loss of power |
| `Pipeline.CallsForPrefix` | client/src/backend.c:93-129 | faults forwarded later only add calls, whatever the faults are |
| `Pipeline.BackendReadsFifo` | client/src/backend.c:67-71 | with or without its first character the finished fifo causes the calls for what was forwarded; without it the exit line is in the fifo if and only if anything was forwarded |
| `Pipeline.Client.Forward` | client/src/client.c:84-99 | the first fault ever becomes an empty line, every other one a command line |
| `Pipeline.LauSimMain` | client/src/backend.c:93-129 | the loop over fifo lines makes exactly the calls of `Execute` |
| `FaultQueue.Queue.OnMessage` | client/src/mqtt.c:86-110 | appends the decoded fault and raises the flag |
| `FaultQueue.Queue.GetFaults` | client/src/mqtt.c:112-138 | what is handed out plus what stays pending is what was pending plus what arrived, also after an error |
| `FaultQueue.ClientMain` | client/src/client.c:84-101 | over all calls every arrival is forwarded exactly once in order or still pending, and the fifo, exit line included, makes the backend call what the forwarded faults ask for |
| `SyncSafety.KeepInv` | srv/main.cpp:102-114 | every step of server, broker and clients keeps the invariant |
| `SyncSafety.InvHolds` | srv/main.cpp:102-114 | the invariant holds in every reachable state |
| `EndToEnd.NoTicBeforeReady` | srv/main.cpp:102-114 | for all names: no tic before every node is subscribed and has reported ready; none with a name used twice |
| `EndToEnd.WildcardNeverStarts` | client/src/mqtt.c:74-82 | with a wildcard in the name of a node no tic ever runs |
| `EndToEnd.ArrivesInOrder` | client/src/client.c:73-91 | what arrived at a node is a prefix of its starting signal and then its faults, those left out whose publication is refused |
| `EndToEnd.NothingDropped` | client/src/mqtt.c:73-77 | from the starting signals on, arrived and under-way messages are together all that was meant for the node and can be published, unless termination was requested before any tic |
| `EndToEnd.CallsAreIntended` | client/src/backend.c:93-129 | the backend's calls are a prefix of what the server meant for the node with the faults it could publish, whatever the faults not handled yet are |
| `Starting.TicPossibleExactly` | srv/main.cpp:102-114 | a tic can be reached if and only if the names are distinct and each has a client that can subscribe and report |
| `Starting.NoTicAfterTermination` | srv/main.cpp:113 | no tic runs after termination was requested |
| `Starting.TerminationStarts` | srv/main.cpp:102-111 | terminated while waiting, the server still sends every starting signal |
| `Starting.EarlyReportsLost` | srv/server.cpp:107-118 | no node has a state before the nodes are known |
| `Starting.TicPublishes` | srv/server.cpp:223-255 | a tic publishes its faults in order, then one message of news if there are any |
| `Completion.AllCanArrive` | client/src/mqtt.c:112-138 | from every state of a started run some continuation without a tic leaves nothing under way, and every node with exactly what was meant for it |
| `Reproduction.FaultsFollow` | srv/server.cpp:209-216 | the faults decided so far are the lists of the tics that have run |
| `Reproduction.BackendsReproduce` | srv/README.md:39 | a node's backend makes the same calls in a run and in its replay: for equally many handled messages equal ones, for fewer their beginning, over any two interleavings and whatever the faults |
| `Sockets.Preload.AddSockToList` | client/src/preload.c:112-120 | appends a valid descriptor and refuses an invalid one |
| `Sockets.Preload.IsInList` | client/src/preload.c:122-131 | finds a descriptor exactly when it is tracked |
| `Sockets.Preload.RemoveSockFromList` | client/src/preload.c:133-146 | the move in place removes the first occurrence and keeps the order |
| `Sockets.Preload.AcceptCall` | client/src/preload.c:148-155 | tracks an accepted socket exactly when its listener is tracked |
| `Sockets.Preload.SocketCall` | client/src/preload.c:157-164 | tracks a new internet socket |
| `Sockets.Preload.CloseCall` | client/src/preload.c:166-170 | forgets a closed socket |
| `Sockets.Preload.SwitchNetwork` | client/src/preload.c:40-64 | a failing network shuts down and forgets all tracked sockets |
| `Sockets.AlwaysPartitioned` | client/src/preload.c:40-170 | over all call sequences every open internet socket is exactly one of tracked, once, or shut down |
| `Sockets.DownExactly` | client/src/preload.c:40-62 | the network is off exactly when the last command was a failure |
| `Sockets.TrackedExactly` | client/src/preload.c:40-170 | over all call sequences the tracked sockets are the open internet ones that no failure has hit since they were opened, the others are shut down |
| `Sockets.OutageShutsAll` | client/src/preload.c:42-53 | a failure shuts down every open socket, unless the last command was a failure already; then it changes nothing |
| `Sockets.OutageMissesNew` | client/src/preload.c:42-53 | a socket opened during a failure survives the next failure command |
| `Sockets.ClosedIsForgotten` | client/src/preload.c:133-146 | a closed descriptor is not tracked |
| `Plugins.GetTokenIdentifyer` | srv/config.cpp:67-73 | the first entry of the table that matches, ignoring case |
| `ConfigText.TokenNames` | srv/config.cpp:39-65 | what the words used in configuration files stand for |
| `ConfigText.TokenIgnoresCase` | srv/config.cpp:67-73 | a word in upper case stands for the same |
| `Plugins.Config.SetConfig` | srv/config.cpp:75-147 | one assignment, with every error return and what it has changed by then |
| `ConfigText.StoulOfDecimal` | srv/config.cpp:144 | a printed number is read in base 10; from 2^64 on it is an error; a minus wraps around |
| `ConfigText.AssignExactly` | srv/config.cpp:75-147 | an assignment succeeds if and only if it has the form `= value` and the value suits the key |
| `ConfigText.FailedAssignment` | srv/config.cpp:97-111 | a failed assignment changes nothing, except that `com` has set the actor by then |
| `Plugins.Config.LoadConfig` | srv/config.cpp:182-233 | the file is read line by line up to the first error; a second load and a file that cannot be opened change nothing |
| `ConfigText.AcceptedExactly` | srv/config.cpp:198-230 | written assignments are all accepted if and only if each value suits its key |
| `ConfigText.TicLengthRead` | srv/config.cpp:141-144 | a tic length printed on the last line of any accepted file is the one used |
| `ConfigText.CommentIgnored` | srv/config.cpp:204-210 | lines that begin with `#` and lines without words do nothing |
| `ConfigText.LibsSection` | srv/config.cpp:212-217 | behind `[libs]` the lines name libraries |
| `ConfigText.LibraryLine` | srv/config.cpp:219-224 | behind `[libs]` a line loads the library its first word names, with its other words |
| `ConfigText.RegisteredExactly` | srv/plugin_internal.cpp:156-164 | after a library is loaded the first of its plugins of each new name is registered with its own capabilities and no role |
| `Plugins.SlotsAlwaysSound` | srv/config.cpp:97-147 | after any file, also after an error, each slot is empty or a registered plugin able to fill it |
| `Plugins.LastAssignmentWins` | srv/config.cpp:97-147 | without errors the last assignment wins, `com` counting for both com slots, and the last tic length |
| `Plugins.PluginManager.RegisterPlugin` | srv/plugin_internal.cpp:156-164 | a new name is registered without a role, a known one refused |
| `Plugins.PluginManager.AddRoleTo` | srv/plugin_internal.cpp:99-105 | fails exactly for no plugin or a role beyond its capabilities |
| `Plugins.PluginManager.SetRoleOf` | srv/plugin_internal.cpp:91-97 | the same, replacing the role |
| `Plugins.RolesStayFit` | srv/plugin_internal.cpp:91-164 | over any sequence of registrations and role changes no role exceeds its plugin's capabilities, and no plugin is lost or changes them |
| `Plugins.StartUpRoles` | srv/main.cpp:46-60 | whatever the file and the libraries, no configured slot is refused its role; each plugin's role is exactly the slots it fills |
| `Plugins.StartUpRolesFit` | srv/main.cpp:46-60 | after configuration, `main` and the post-init hooks no role exceeds its plugin's capabilities, whatever the file, the libraries and the order |
| `Plugins.HooksExactly` | plugins/transcribe/transcribe.c:110-121 | each plugin's role after the hooks, in any order: transcribe has the other role, the nested plugin is manager if it can be, the rest is unchanged |
| `Plugins.NestedIsManager` | plugins/transcribe/transcribe.c:110-121 | with transcribe configured, after the hooks in any order the nested plugin alone is fault manager if and only if it is another plugin and able to be one |

## Left out

- Markers without a number: the C code then uses an uninitialised value. `Replay.Replayer` requires that no marker lacks its number; `RoundTripExactly` says when a recording has none.
- NUL characters inside files: strings stand for the text before the terminating NUL.
- Heap allocation and its failure, including the element counts passed to `realloc` and the pointer kept after `free` in client/src/preload.c:49; lists have their intended contents.
- Overflow of the 64-bit tic counters, time stamps and identity counters, and of the `int` that counts the faults of one tic.
- RandomManager.Random.Tic: does not model the early return when memory for a fault runs out.
- Runs.RunRecording: the nested manager's lists are parameters; recursion of transcribe into itself is not modelled.
- EndToEnd.CallsAreIntended: prefix safety; that messages can arrive is `Completion.AllCanArrive`, that they eventually do, broker retries, reconnecting clients and retained reports of earlier runs are not modelled.
- SyncStart: runs without the synchronised start, clients reporting anything but readiness, and retained reports reaching a client called `master` are not modelled. Names of nodes are arbitrary; the delivery theorems are about each node whose name is usable (`SyncSafety.UsableName`) and above no other name of the table (`SyncSafety.OwnName`).
- Topics.Publishable: of what the MQTT library refuses, wildcards and length are modelled; ill-formed UTF-8, connections that are down and oversized payloads are not.
- Topics.NodeFilter: characters count as one byte each, in the 510 of the filter and the 65535 of a topic.
- The MQTT rule for topics that begin with `$`; all topics here begin with `envelope`.
- The last-will message, logging text, protobuf encoding, dynamic loading, signals, options, threads as such, the launcher and the iptables helper.
- `get_by_type` and `inject_fail`: a search by role that nothing here uses, and a call that replay and random refuse.
- Plugin masks are sets of their flags, and a plugin is identified by its name, which registration keeps unique; the order in which a registry is searched does not matter then.
- Sockets.AlwaysPartitioned: intercepted calls and network commands are atomic steps, the kernel returns only unused descriptors and accepts nothing on a listener that is shut down; duplicated and inherited descriptors are not modelled.
- Cutting the power of a node ends the process; memory faults are accepted and ignored by the source, so nothing is proved about their effect.
