# KirbLaSnoop, verified

A Dafny model of KirbLaSnoop (`kls`), a tool that captures network traffic byte for byte, with machine-checked proofs
of what it promises: a capture that lost bytes says so, an unattended run stays inside its disk budget, what the tool
answers is what it was configured to answer, and what it prints can be read back.

`dafny verify dfyconfig.toml` checks the whole project.

## How the model is laid out

| file | models |
|---|---|
| `Stream.dfy` | head-plus-tail capture files: the spec over a stream's whole history (`Landing`), the circular buffer (`ByteDeque`), the stream object (`CaptureStream`) |
| `Capture.dfy`, `CaptureSafety.dfy` | the logger's budget, connection ids and streams as atomic steps of any number of tasks, and what every interleaving keeps |
| `CaptureRefusals.dfy` | when a charge is refused, and which losses reach the event log |
| `Logger.dfy` | the logger as one task sees it: the stream table and the logger object |
| `Udp.dfy`, `UdpSafety.dfy`, `UdpHistory.dfy`, `UdpRequests.dfy` | the UDP listener's event loop, its table and log invariants, what each datagram draws, and the bounds on what it sends back |
| `Relay.dfy` | the TCP relay's two pumps as a step relation, and the profile-serving loop |
| `Profile.dfy` | matchers, rules, responses and their bounds |
| `DnsWire.dfy`, `Dns.dfy`, `DnsSafety.dfy` | the message format of RFC 1035, the responder, and what its replies mean |
| `Classify.dfy`, `ClassifySafety.dfy`, `ClassifyLayouts.dfy` | the DNS and TLS classifiers, compared with the responder, with an encoder for ClientHello, and with the layout of any bytes they report |
| `Calendar.dfy`, `Timestamps.dfy`, `Text.dfy` | day numbers, timestamps and printed numbers |
| `HexText.dfy`, `Hexdump.dfy`, `TextMeanings.dfy`, `PrintersInvert.dfy` | the profile parsers, the console printers, the grammar of their texts, and how far one undoes the other |

Loops and objects that change in place are methods and classes, each proved against a specification; the promises
are lemmas about those specifications. Concurrency is a step relation: every shared read, write and print of
`Logger::charge` and of the writes it guards is one step, and a theorem about a run holds for every order of steps of
every number of tasks.

## What the proofs found

The code is modelled as it is. Where its documentation promises more, the exact condition is proved.

- A charge is refused "once the cap is hit" (src/log.rs:176-178), but it can be refused while it still fits, because
  another task's refused bytes have not been given back yet (`SpuriousRefusal`). It is refused exactly when it finds the
  run already stopped, or when its add finds that the bytes granted, the bytes awaiting refund and the request together
  pass the cap (`RefusalHasCause`); and a run stops only after such an add (`StopHasCause`).
- The refund exists so that the summary does not claim more than was captured (src/log.rs:188-189). The summary still
  counts what the rings dropped, and under `--max-run-bytes 0` nothing is counted at all. It is exact if and only if, under
  a cap, no stream dropped anything or, without one, nothing is on disk; it claims too much exactly when a stream dropped
  bytes under a cap, and too little exactly when there are bytes on disk and no cap (`BudgetAtRest`). Runs that show
  both are in `SomeLossesAreUntold` and `UncappedRunCountsNothing`.
- The TRUNC line is said to be printed "the moment bytes start being dropped" (src/log.rs:261). It is printed when the head
  cap is exceeded (`NoSilentLoss`), and then nothing has been dropped exactly while the ring still has room
  (`AnnouncedBeforeLossIff`, `AnnouncedWithoutLoss`).
- The README promises that truncation is always announced, on the console and in `events.jsonl` (README.md:222). The
  console always tells (`NoSilentLoss`). The event is a line like any other and has to be charged: a stream's loss is in
  the event log exactly when its connection was closed, there is an event log, and that charge was not refused, as it is
  when the run had stopped at its load or its own line does not fit at its add (`LossReachesTheEventLog`). One run of
  `SomeLossesAreUntold` loses the event of a closed stream to the budget; the other ends with the stream still open,
  and `flush` writes no event (`Logger.Flush`).
- `max_response_bytes` documents None as "tracks the request size rather than exceeding it" (src/profile.rs:134-137).
  A message draws more than it has exactly when the one action that answers it outgrows it or the banner and the rule do
  together (`ResponseOutgrowsRequestIff`). Alone, an echo never does, a DNS action does when fewer bytes follow the
  question than the answer record takes, and any other does when its payload is longer. Next to an echo, anything said
  is too much. Three profiles for which the number is None exceed a request: `GreetingEchoesOutgrow`,
  `OtherRulesOutgrow`, `ShortestQueryOutgrows`. What every profile keeps to is `RunIsBoundedByRequests`.
- The README says the TLS version comes from `supported_versions` rather than the legacy field. The code takes the
  maximum of both, so it does exactly when the extension offers a version at least as high (`VersionComesFromExtensions`,
  `LegacyFieldCanWin`, `LegacyFieldWins`).
- A ClientHello is reported with what it was built from (`HelloRoundTrip`), except that bytes after a hello without
  extensions are read as its extensions: the report is then right exactly when those say nothing new, as when they are
  fewer than six or start with a length below four (`ShortTrailersSayNothing`). `TrailersCanSpeak` has nine bytes that
  turn TLS 1.2 into 1.3 and six that leave no report.
- `ascii_line` does not escape backslashes, so its line unescapes to the data exactly when the data has none
  (`EscapesInvertIffNoBackslash`).
- "Every field that is present must hold" (src/profile.rs:33-34), but an empty `contains` or `contains_hex` never does
  (`MatchesMeansAllHold`).
- Timestamps sort as text up to the last millisecond of the year 9999 and not one further (`OrderStopsAtYear10000`).

## Assumptions

- Files are append-only byte sequences, and creating and writing them succeeds; the code discards write errors.
- Atomics are sequentially consistent. A task uses only connection ids that it obtained and has not closed; an id that the
  accept loop moves into a connection's own task counts as obtained by that task. That no two tasks then share a stream is
  proved (`OneTaskPerConnection`).
- `flush` starts when no task is in the middle of a call. Counters do not reach 2^64, and `usize` has 64 bits.

## Model

| member | source | states |
|---|---|---|
| Landing.NothingMiscounted | src/stream.rs:73-142 | head, dropped and tail bytes add up to the stream; the head is its front and the tail its back |
| Landing.CompleteIffNothingDropped | src/stream.rs:73-142 | the two files hold the whole stream exactly when nothing was dropped, which is when it fits the two limits or there is none |
| Landing.AnnouncedExactlyOnce | src/stream.rs:70-72 | however the bytes are cut into writes, one write announces the truncation if the head cap is exceeded, none otherwise |
| Landing.AnnouncedBeforeLossIff | src/stream.rs:70-118 | a stream that exceeded its head cap has lost nothing exactly while head and ring together hold it |
| Landing.AnnouncedWithoutLoss | src/log.rs:258-261 | a concrete write that announces and loses nothing |
| Landing.LastSlides | src/stream.rs:106-116 | evicting from the ring before each write keeps the last bytes of everything that ever went in |
| Landing.WriteLands | src/stream.rs:85-117 | one capped write takes the state due after the old history to the state due after the new one |
| ByteDeque.Deque.Drain | src/stream.rs:113 | removing from the front of the circular buffer drops exactly the oldest bytes |
| ByteDeque.Deque.Extend | src/stream.rs:110-115 | appending to the circular buffer, growing and wrapping as needed, keeps the old contents in order |
| ByteDeque.Deque.AsSlices | src/stream.rs:129-131 | the two slices written out are the ring's contents in order |
| CaptureStream.Stream.constructor | src/stream.rs:53-68 | a new stream is the one due for an empty history |
| CaptureStream.Stream.Write | src/stream.rs:73-118 | head file, ring, counts and flag stay those due for the whole history; true exactly on the write that takes its length past the head cap |
| CaptureStream.Stream.FillHead | src/stream.rs:85-93 | the head takes what it has room for and the rest is handed on |
| CaptureStream.Stream.Retain | src/stream.rs:101-117 | the ring slides, everything evicted is counted, and the drain never asks for more than is there |
| CaptureStream.Stream.Finish | src/stream.rs:120-142 | the head file is the stream's front, the tail file its back, there is one exactly when it holds something, the counts are the files' and add up to the whole, and the two files are the stream exactly when nothing is reported dropped |
| CaptureStream.SummaryMeans | src/stream.rs:120-142 | the same of the summary due for any history |
| CaptureSafety.DiskBudget | src/log.rs:179-202 | in every interleaving the counter is the grants plus the adds awaiting refund, and neither grants nor bytes on disk pass the cap |
| CaptureSafety.BudgetAtRest | src/log.rs:603-609 | at rest the counter is the bytes on disk plus the bytes dropped under a cap and nothing without one; exactly when it is right, too high and too low |
| Refusals.RefusalHasCause | src/log.rs:183-200 | whatever the others do, a whole charge is refused exactly when its load finds the run stopped or its add finds grants, adds awaiting refund and the request over the cap |
| Refusals.StopHasCause | src/log.rs:186-190 | a run that has stopped had an add that passed the cap together with the grants and the adds awaiting refund |
| Refusals.OverflowStops | src/log.rs:186-190 | a step makes the run stop, at once or after its refund, exactly when it is such an add |
| Refusals.SpuriousRefusal | src/log.rs:186-200 | a concrete run refuses a request that fits the grants |
| Refusals.UninterruptedCharge | src/log.rs:179-202 | the atomic steps of a charge nothing interrupts do what a sequential charge should |
| LossReports.LossReachesTheEventLog | src/log.rs:295-331 | over every run at rest, a stream's truncation event is in the event log exactly when it lost bytes, its connection was closed, there is an event log and the event's one charge was not refused; it is there once, and a refusal means the run has stopped |
| LossReports.EventsCounted | src/log.rs:216-232 | over every run the truncation events written and charged balance the charges granted and refused and the closing notes printed |
| LossReports.SomeLossesAreUntold | src/log.rs:568-591 | two concrete runs at rest whose event log lacks a loss, one closed and one still open, and whose counter is not the bytes on disk |
| LossReports.UncappedRunCountsNothing | src/log.rs:180-182 | a concrete run without a cap, no stream lossy, whose counter is 0 with bytes on disk |
| CaptureSafety.OneTaskPerConnection | src/log.rs:212-214 | in every interleaving the next id is new, no id is held by two tasks, and none is held once its connection is closed |
| CaptureSafety.NoHole | src/log.rs:183-200 | in every interleaving what reaches a stream is a prefix of what was received for it, short at rest only in a stopped run |
| CaptureSafety.NoSilentLoss | src/log.rs:179-276 | at rest the two files hold every byte received, or the stream's TRUNC line or the run's one LIMIT line was printed; a stream has one TRUNC line exactly if it exceeded its head cap, and one closing note exactly if it is closed and lossy |
| CaptureSafety.StreamKept | src/log.rs:234-260 | every step keeps each stream without holes, unless the run has stopped |
| CaptureSafety.BudgetKept | src/log.rs:179-202 | every step keeps the counter equal to grants plus adds awaiting refund, within the cap |
| CaptureSafety.LimitKept | src/log.rs:190-198 | every step keeps the stop flag and the LIMIT line together, one line at most |
| CaptureSafety.TruncKept | src/log.rs:258-275 | every step keeps one TRUNC line for each stream that exceeded its head cap and none for others |
| CaptureSafety.NoteKept | src/log.rs:278-311 | every step keeps one closing note for each closed stream that lost bytes and none for others |
| StreamTable.Sinks.Open | src/log.rs:240-257 | opening a stream adds an empty one and disturbs no other |
| StreamTable.Sinks.Write | src/log.rs:258-260 | a write extends one stream's history, disturbs no other, and says when the head cap is first exceeded |
| StreamTable.Sinks.Finish | src/log.rs:285-289 | finishing forgets one stream and reports its length, what each file holds and what was dropped |
| LoggerObject.Logger.NextConnId | src/log.rs:212-214 | ids count up, each handed out once |
| LoggerObject.Logger.constructor | src/log.rs:162-174 | a new logger has nothing open, nothing used and no line on the console |
| LoggerObject.Logger.Charge | src/log.rs:179-202 | a charge is granted exactly when there is no cap, or the run has not stopped and it fits; a refusal costs nothing and stops the run, and prints LIMIT exactly the first time, so that after any calls the console has one such line if the run has stopped, else none |
| LoggerObject.Logger.Emit | src/log.rs:216-232 | the event log grows by the line exactly when there is one and its bytes are granted, with the stream it reports; the refusal that stops the run prints LIMIT |
| LoggerObject.Logger.RawWrite | src/log.rs:234-276 | a message reaches its stream exactly when granted, and the stream's first excess is announced |
| LoggerObject.Logger.Deliver | src/log.rs:238-275 | the stream is opened on its first message and only its history grows |
| LoggerObject.Logger.CloseRaw | src/log.rs:278-332 | both directions are finished, and each that lost bytes is noted on the console and, if its own line is granted, in the event log by name, rx first |
| LoggerObject.Logger.Announce | src/log.rs:293-331 | a finished stream is noted exactly when it dropped bytes, and its event written exactly when granted |
| LoggerObject.LossIsLoggedIff | src/log.rs:293-331 | a loss always reaches the console, and the event log exactly when there is one and the event's own line is within the budget; what that costs, whether it stops the run and whether LIMIT is printed |
| LoggerObject.Logger.Flush | src/log.rs:568-591 | at shutdown every open stream is finished, each lossy one noted exactly once with the truth about it and nothing else said, in any order; the event log is untouched |
| LoggerObject.NotesAreHonest | src/log.rs:291-295 | a closing note is due exactly for a stream whose two files do not hold all of it |
| Calendar.CivilIsInverse | src/ts.rs:13-24 | every day number maps to a real date whose independently counted day number it is |
| Calendar.CivilOfDayNumber | src/ts.rs:13-24 | every date is reached, from its own day number |
| Calendar.CivilFollowsTheCalendar | src/ts.rs:13-24 | consecutive day numbers are consecutive calendar days |
| Calendar.CivilOrders | src/ts.rs:13-24 | day numbers and dates order alike |
| Calendar.DayNumberOrders | src/ts.rs:13-24 | the independent day count orders dates and tells them apart |
| Calendar.NextDayCounts | src/ts.rs:13-24 | the calendar's next day counts one more |
| Calendar.YearOfEraBounds | src/ts.rs:17-19 | the year picked within an era is the one whose days contain the day |
| Calendar.CivilInParts | src/ts.rs:13-24 | the arithmetic finds the March-based year and day of year of every day number |
| Timestamps.PartsAddUp | src/ts.rs:26-33 | the date and the clock of a millisecond account for exactly that millisecond |
| Timestamps.TimestampReadsBack | src/ts.rs:35-39 | before the year 10000 a timestamp reads back, by RFC 3339 section 5.6, to the millisecond it came from |
| Timestamps.TimestampsOrder | src/ts.rs:35-39 | before the year 10000 timestamps sort as text the way they order in time |
| Timestamps.TimestampLength | src/ts.rs:35-39 | a timestamp has 24 characters exactly until the year 10000 |
| Timestamps.OrderStopsAtYear10000 | src/ts.rs:35-39 | the first millisecond of the year 10000 sorts before its predecessor |
| Timestamps.ClockReads | src/ts.rs:41-45 | the printed clock reads back as the millisecond of the day |
| Timestamps.ClockOrders | src/ts.rs:41-45 | printed clocks sort as text the way they order within a day |
| Dns.Parse | src/dns.rs:41-83 | the cursor loop computes the parse that the lemmas below characterise, on every input |
| Dns.Reply | src/dns.rs:90-124 | the buffer built step by step is the reply that the lemmas below characterise |
| Dns.ReplyTcp | src/dns.rs:127-135 | the framed reply, with the length cast as the code makes it |
| DnsSafety.WalkFindsName | src/dns.rs:55-71 | a walk that ends has passed exactly the encoding of a name of at most 128 labels |
| DnsSafety.NameIsWalked | src/dns.rs:55-71 | every name of at most 128 labels is walked to its end |
| DnsSafety.ParsesExactlyQueries | src/dns.rs:39-83 | a message parses to a query exactly when it is laid out as a single-question standard query that asks it |
| DnsSafety.ParseIsBoundedAndLocal | src/dns.rs:52-81 | a question ends by offset 8209 and the parse depends on nothing after its end |
| DnsSafety.ReplyDecodes | src/dns.rs:85-124 | an RFC 1035 decoder takes all of the reply and finds the query's id, its question, NOERROR, and the configured record under the question's name; there is a reply exactly to what parses |
| DnsSafety.RecordDecodes | src/dns.rs:114-122 | the answer's pointer resolves to the question's name, and its type, class, time to live and address read back |
| DnsSafety.ReplyLength | src/dns.rs:102-123 | a reply is the question's end plus 0, 16 or 28 bytes, so at most 28 more than the query and 8237 in all |
| DnsSafety.RepliesAreNotAnswered | src/dns.rs:39-50 | a reply is never answered; with QR cleared it is the same question again |
| DnsSafety.TcpRepliesInFrames | src/dns.rs:126-135 | the reply to a framed message, whatever follows it, is the framed reply, and its length fits the frame |
| DnsSafety.TcpAnswersWhatArrived | src/dns.rs:126-135 | of any bytes over TCP, what has arrived of the frame is answered, behind the reply's length; fewer than two are not |
| Classify.HintDns | src/classify.rs:208-243 | the cursor loop computes the hint that the lemmas below characterise |
| Classify.HintTls | src/classify.rs:39-108 | the cursor loop computes the hint that the lemmas below characterise, and ends on every input |
| Classify.ParseSni | src/classify.rs:110-123 | the loop finds the name that NamesParse characterises |
| Classify.ParseAlpn | src/classify.rs:125-138 | the loop finds the list that ProtocolsParse characterises |
| Classify.ParseVersions | src/classify.rs:79-92 | the loop finds the version that VersionsParse characterises |
| WalkersAgree.HintMeansQuery | src/classify.rs:208-243 | a query is reported exactly when it has no answers, 1 to 64 labels that all print, and a type |
| WalkersAgree.HintsParse | src/classify.rs:208-243 | what the classifier reports the responder parses exactly when four bytes follow the name, and then as the same name and type |
| WalkersAgree.ParsedAreHinted | src/classify.rs:208-243 | what the responder parses the classifier reports exactly when it has no answers and 1 to 64 printable labels |
| ClientHellos.NamesParse | src/classify.rs:110-123 | from an encoded server_name list the first host_name is taken |
| ClientHellos.ProtocolsParse | src/classify.rs:125-138 | from an encoded ALPN list every protocol is taken, in order |
| ClientHellos.VersionsParse | src/classify.rs:79-92 | from encoded versions the highest whose bytes do not both end in the digit 0xa is taken, if above what was known |
| ClientHellos.ExtensionsParse | src/classify.rs:69-97 | any list of well-formed extensions is walked to its end, each adding what it says |
| ClientHellos.HelloRoundTrip | src/classify.rs:39-108 | every well-formed ClientHello, whatever follows it, is reported with the host, protocols, version and cipher count it was built from, exactly unless it has no extensions and the bytes after it, read as a block of extensions, say something |
| ClientHellos.ShortTrailersSayNothing | src/classify.rs:69-74 | bytes too few for an extension, or that start with a length below four, say nothing |
| ClientHellos.TrailersCanSpeak | src/classify.rs:69-74 | a concrete hello without extensions is misreported for nine bytes after it and not reported for six |
| ClientHellos.LastDecides | src/classify.rs:76-78 | the last extension of a type decides what is reported for it |
| ClientHellos.NoneLeavesAlone | src/classify.rs:63-66 | without an extension of a type nothing is reported for it |
| ClientHellos.VersionIsMaximum | src/classify.rs:79-92 | the version reported is the maximum of the legacy one and the offered ones, without those whose two bytes end in the digit 0xa |
| ClientHellos.GreaseMeans | src/classify.rs:85-86 | the words skipped are exactly those whose two bytes end in the digit 0xa |
| ClientHellos.ReservedAreSkipped | src/classify.rs:85-86 | all sixteen values of section 2 of RFC 8701 are skipped, and no version of SSL or TLS is |
| HelloLayouts.HelloIsReportedIff | src/classify.rs:39-108 | of any bytes at all, a ClientHello is reported exactly when they are laid out as one as far as its compression methods and its extensions are whole, and then with what those tell |
| HelloLayouts.HandshakeIsReportedIff | src/classify.rs:40-48 | any other handshake record of TLS is reported by its record version, and nothing else is reported so |
| HelloLayouts.SniMeans | src/classify.rs:110-123 | from any bytes a host is taken exactly when it is the first whole name of type 0 |
| HelloLayouts.AlpnMeans | src/classify.rs:125-138 | from any bytes exactly the whole protocols they start with are taken |
| HelloLayouts.VersionsMean | src/classify.rs:79-92 | from any bytes the versions are the whole words the first byte counts, as far as they are there |
| ClientHellos.VersionComesFromExtensions | src/classify.rs:66-99 | the version reported is an offered one exactly when one at least as high as the legacy one is offered |
| ClientHellos.LegacyFieldCanWin | src/classify.rs:66-99 | every well-formed hello offering only TLS 1.1 under a TLS 1.2 legacy field is reported as TLS 1.2 |
| ClientHellos.LegacyFieldWins | src/classify.rs:66-99 | a concrete such hello |
| Udp.Listener.constructor | src/listener/udp.rs:72-74 | the loop starts with an empty table and no overflow |
| Udp.Listener.Receive | src/listener/udp.rs:81-143 | one datagram takes the loop's state to the one the step function gives, and its source, if tracked, is heard from now |
| Udp.Listener.Reply | src/listener/udp.rs:175-214 | what the action says to what was received is logged as sent or failed, exactly when it is not empty |
| Udp.Listener.Sweep | src/listener/udp.rs:144-169 | whatever order the table yields its entries in, a sweep is a step of the step function in that order |
| UdpSafety.StepKeeps | src/listener/udp.rs:79-171 | every event keeps the table within its cap, the open streams exactly the table's and the overflow's, and the log disciplined |
| UdpSafety.TableIsSound | src/listener/udp.rs:99-117 | after any run the table is within its cap, streams are distinct, and an open overflow means a full table and a true count |
| UdpHistory.LastSeenIsLastHeard | src/listener/udp.rs:119-125 | after any run the table holds, for each source in it, when its last datagram arrived |
| UdpHistory.SweepGoesByLastDatagram | src/listener/udp.rs:144-152 | after any run a sweep keeps a source exactly when its last datagram arrived less than the saturating idle time ago |
| UdpHistory.DatagramDraws | src/listener/udp.rs:92-143 | everything a datagram does: the stream it is recorded under, opened if need be, then the banner if its source is new, then the first matching rule's words, sent or failed, and nothing past the cap |
| UdpHistory.DatagramIsHeard | src/listener/udp.rs:119-125 | a datagram makes its source, if tracked, heard from now, and changes no other |
| UdpHistory.OpenStreamsAreTheTables | src/listener/udp.rs:72-169 | after any run the streams the log shows open are exactly the table's and the overflow stream |
| UdpSafety.StaysMeans | src/listener/udp.rs:146-150 | what the saturating cutoff means in milliseconds |
| UdpSafety.DisciplineMeans | src/listener/udp.rs:79-171 | in a disciplined log a stream opens once, everything else falls between its open and its close, only its source is sent anything, and what it receives is from its source unless it is the overflow stream |
| UdpSafety.LogIsDisciplined | src/listener/udp.rs:79-171 | so it is in every run |
| UdpSafety.EveryDatagramRecorded | src/listener/udp.rs:92-132 | in every run the datagrams recorded are exactly those received: each once, in order, with its source and bytes |
| UdpReflection.OverflowIsSilent | src/listener/udp.rs:95-117 | a datagram past the cap is recorded under the overflow stream and draws nothing |
| UdpReflection.DatagramIsBounded | src/profile.rs:134-155 | no datagram draws more than max_response_bytes, when that is a number |
| UdpReflection.RunIsBounded | src/profile.rs:134-155 | a run sends at most the banner per session opened plus the longest rule payload per tracked datagram |
| UdpReflection.SilentRunSendsNothing | src/profile.rs:128-132 | without a profile that responds a run sends nothing |
| ProfileBounds.EvalPicksFirstMatch | src/profile.rs:157-163 | the rule that answers is the matching one with the least index |
| ProfileBounds.FindIsFirst | src/profile.rs:240-245 | a needle is found exactly when it is not empty and occurs, at its first occurrence |
| ProfileBounds.MatchesMeansAllHold | src/profile.rs:167-237 | a matcher matches exactly when every field that is present holds by its own meaning, and no needle to be contained is empty |
| ProfileBounds.PayloadIsSaid | src/listener/udp.rs:186-209 | an action says what it heard, the DNS reply or nothing, or its payload, by its kind |
| ProfileBounds.SilentMeansNeverSpeaks | src/profile.rs:105-108 | an action is silent exactly when it says nothing to anything |
| ProfileBounds.ReflectingMeansVarying | src/profile.rs:138-146 | an action counts as an echo exactly when what it says depends on what it hears |
| ProfileBounds.RespondsMeans | src/profile.rs:129-132 | a profile responds exactly when its banner or a rule can say something |
| ProfileBounds.MaxResponseMeans | src/profile.rs:138-155 | there is a number exactly when nothing said depends on what is heard, and it is the banner's length and the longest rule payload's |
| ProfileBounds.ResponseIsBounded | src/profile.rs:128-155 | max_response_bytes bounds banner plus rule reply, and a profile that does not respond says nothing |
| ProfileBounds.ResponseOutgrowsRequestIff | src/profile.rs:130-137 | for every profile and message, exactly when banner and rule reply together are longer than the message, by the kinds of the actions that answer |
| ProfileBounds.PayloadLength | src/listener/udp.rs:186-209 | what an action sends is not empty exactly when it has something to say, and longer than what it answers exactly when its kind and the message say so |
| ProfileBounds.DnsRepliesMirrorOnlyPaddedQueries | src/dns.rs:90-124 | exactly when a DNS reply is longer than its query |
| ProfileBounds.GreetingEchoesOutgrow | src/profile.rs:134-155 | a banner and an echo: None, and one byte draws three |
| ProfileBounds.OtherRulesOutgrow | src/profile.rs:134-155 | an echo and a payload: None, and one byte draws the whole payload |
| ProfileBounds.ShortestQueryOutgrows | src/profile.rs:134-155 | a DNS action: None, and a 17-byte query draws 33 bytes |
| ProfileBounds.ResponseIsWithinBounds | src/profile.rs:134-155 | what any profile answers is bounded by its payloads and the length of the message |
| ProfileBounds.BoundsFollowRequest | src/profile.rs:134-155 | that bound is the longest payload, or the message's length and 28 bytes with DNS actions, or its length with echoes alone |
| UdpRequests.DatagramIsAllowed | src/profile.rs:134-155 | under any profile a datagram draws no more than it adds to what the run is allowed |
| UdpRequests.RunIsBoundedByRequests | src/profile.rs:134-155 | under any profile a run sends at most what the rules may answer to the length of each tracked datagram plus what the banner may answer to the first of each session |
| Relay.RelayFidelity | src/listener/tcp.rs:234-262 | in every interleaving the far side has a prefix of the log and the log a prefix of what was read, each within one buffer; the far side is shut down only once it has everything |
| Relay.DirectionsAreIndependent | src/listener/tcp.rs:224-231 | an order of both directions' steps is a run exactly when each could take its own alone, and each ends as it would alone |
| Relay.OtherDirectionStillDelivers | src/listener/tcp.rs:224-231 | from any reachable state a direction that has not ended can deliver everything it still reads and shut its far side down, in any order with whatever the other does |
| Relay.RestIsDelivered | src/listener/tcp.rs:234-262 | from wherever it stands a pump has steps that deliver every byte read, those to come included, and then shut the far side down |
| Serving.Serve | src/listener/tcp.rs:106-144 | the banner's words, then each read as it came followed by the words of the first rule that matches it, up to and including the first that hangs up; what is received is exactly the reads served, and what is sent is within the session's bound |
| Serving.TcpPayloadIsSaid | src/listener/tcp.rs:162-183 | over TCP an action says what it heard, the framed reply to the framed query or nothing, or its payload, by its kind |
| Serving.SessionIsWithinBound | src/profile.rs:134-155 | a connection is sent at most what the banner says to nothing and, for each read, what the rules may answer to its length |
| Serving.SessionBoundFollowsProfile | src/profile.rs:128-155 | that is the banner and the longest payload per read when max_response_bytes gives a number, and nothing when the profile does not respond |
| Serving.TcpPayloadWithinBound | src/dns.rs:126-135 | over TCP an action says its payload, as much as it heard, or a framed reply of at most 28 bytes more than its frame |
| Serving.ServeOne | src/listener/tcp.rs:130-142 | one read is logged, then the words of the first rule that matches it |
| Serving.Send | src/listener/tcp.rs:148-187 | what the action says to what it heard is logged if there is anything, and whether it hangs up is told |
| Serving.ServedReadsAreLogged | src/listener/tcp.rs:125-131 | what is logged as received is exactly the reads served, byte for byte |
| HexText.Unescape | src/profile.rs:266-294 | the loop computes the unescaping that UnescapeMeans fixes |
| ProfileTexts.UnescapeMeans | src/profile.rs:265-294 | a text unescapes to these bytes exactly when it is made of characters, the six short escapes and two digits behind an x that mean them; any other backslash is an error |
| ProfileTexts.Utf8Means | src/profile.rs:271-273 | the bytes of any character hold its code point, in the shortest form of RFC 3629 |
| ProfileTexts.ParseHexMeans | src/profile.rs:247-263 | hex text parses to these bytes exactly when, the eight separators aside, it is two characters for each byte, with or without 0x in front |
| ProfileTexts.EscapedIsWritten | src/hexdump.rs:44-54 | each byte is written as itself if it prints, as one of three short escapes, or as two lower-case digits |
| Numbers.DigitsMean | src/hexdump.rs:33-36 | a number prints as the one string of lower-case digits that reads back as it and has no leading zero |
| Numbers.PadMeans | src/hexdump.rs:10-16 | padding puts zeros in front up to the width and no further |
| Hexdump.AsciiLine | src/hexdump.rs:41-59 | without a limit, or within it, the line is all bytes' escapes; past it, those of the first ones and how many were cut |
| Hexdump.Render | src/hexdump.rs:6-38 | the nested loops print the rows and trailer that the lemma below reads back |
| Hexdump.RenderCells | src/hexdump.rs:12-22 | the cells of a row, blanks included |
| Hexdump.RenderGutter | src/hexdump.rs:24-30 | the text column of a row |
| EscapesInvert.EscapesInvertIffNoBackslash | src/hexdump.rs:44-54 | an escaped line unescapes to the data exactly when the data has no backslash |
| EscapesInvert.BackslashesShrink | src/profile.rs:266-294 | unescaping a printed line never yields more backslashes than were printed raw |
| EscapesInvert.NoPlainPrefix | src/profile.rs:266-294 | a printed line never unescapes to its data with something plain in front |
| DumpsInvert.CellsParse | src/profile.rs:247-263 | the hex column of a row parses to the row's bytes |
| DumpsInvert.DumpReadsBack | src/hexdump.rs:6-38 | the dump of any data, of which less than 4 GiB is shown, splits into rows of indent, offset, sixteen cells and text, each character in its place, and a trailer, exactly when it was cut, counting the bytes cut |

## Left out

- Sockets, accept and receive errors, delays and scheduling by the runtime: events of the step relations.
- `src/origdst.rs`, `src/sockopt.rs`: foreign calls and a fixed-offset decode.
- `src/main.rs`, `src/config.rs`, profile loading, path resolution, JSON and base64: plumbing; an event is a line with a length.
- The `http`, `header` and `other` guesses of `src/classify.rs`, the order in which guesses are tried, and the wording of hints: a hint is a record of what it prints, with names as bytes before lossy decoding.
- ClientHello messages split over several records: the classifier reads one message, and so does the encoder.
- `human`, `parse_size`, `stamp` and the shipped profiles: easy members that add little.
- The logger's statistics counters and `warn`: they guard nothing.
- UDP wall-clock time is an input of each event, and may go backwards.
- `tokio::join!` ending a relay, and a write half closed by being dropped after a failed write: only the explicit shutdown is a step.
- HexText.ParseHex: takes ASCII text only, because the code slices its text by byte offsets.
- Serving.Serve: a read or write that fails ends the connection with an error in the code; here they succeed.
- Text of error messages: a parser that fails gives nothing.
- Dns.ReplyTcp: a frame that declares more than arrived is answered from what arrived, as in the code; the round trip is stated for whole frames.
