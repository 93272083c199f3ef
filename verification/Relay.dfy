/** Splicing a client to an upstream: two pumps, each reading one side, logging, and writing the other. */
module Relay {
  import opened Bytes
  import opened StreamKeys

  const BUF: nat := 65536

  /** Where a pump stands: it reads, logs what it read, writes it out, and ends with the far side shut down or failed. */
  datatype Pc =
    | Reading
    | Logging(buf: seq<byte>)
    | Writing(buf: seq<byte>, sent: nat)
    | Ending
    | Done(shutdown: bool)

  /** A pump, with everything it has read and everything the far side has taken. */
  datatype Pump = Pump(pc: Pc, read: seq<byte>, delivered: seq<byte>)

  datatype Message = Message(dir: Dir, data: seq<byte>)

  /** The two pumps of a connection and what they have logged, in order. */
  datatype State = State(rx: Pump, tx: Pump, log: seq<Message>) {
    function At(dir: Dir): Pump {
      if dir == Rx then rx else tx
    }

    function With(dir: Dir, p: Pump): State {
      if dir == Rx then this.(rx := p) else this.(tx := p)
    }
  }

  datatype Step =
    | Read(data: seq<byte>)
    | ReadEnds
    | Log
    | Deliver(n: nat)
    | WriteFails
    | ShutDown

  function Init(): State {
    State(Pump(Reading, [], []), Pump(Reading, [], []), [])
  }

  predicate Enabled(p: Pump, step: Step) {
    match step
    case Read(data) => p.pc.Reading? && 1 <= |data| <= BUF
    case ReadEnds => p.pc.Reading?
    case Log => p.pc.Logging?
    case Deliver(n) => p.pc.Writing? && n >= 1 && p.pc.sent + n <= |p.pc.buf|
    case WriteFails => p.pc.Writing?
    case ShutDown => p.pc.Ending?
  }

  function Advance(p: Pump, step: Step): Pump
    requires Enabled(p, step)
  {
    match step
    case Read(data) => Pump(Logging(data), p.read + data, p.delivered)
    case ReadEnds => p.(pc := Ending)
    case Log => p.(pc := Writing(p.pc.buf, 0))
    case Deliver(n) =>
      var buf, sent := p.pc.buf, p.pc.sent;
      Pump(if sent + n == |buf| then Reading else Writing(buf, sent + n), p.read, p.delivered + buf[sent..sent + n])
    case WriteFails => p.(pc := Done(false))
    case ShutDown => p.(pc := Done(true))
  }

  function Next(s: State, dir: Dir, step: Step): State
    requires Enabled(s.At(dir), step)
  {
    var s1 := s.With(dir, Advance(s.At(dir), step));
    if step.Log? then s1.(log := s.log + [Message(dir, s.At(dir).pc.buf)]) else s1
  }

  ghost predicate Runs(s: State, schedule: seq<(Dir, Step)>, end: State)
    decreases |schedule|
  {
    if schedule == [] then end == s
    else
      var (dir, step) := schedule[0];
      Enabled(s.At(dir), step) && Runs(Next(s, dir, step), schedule[1..], end)
  }

  // ---------------------------------------------------------------- what every interleaving keeps

  /** The bytes logged in one direction. */
  ghost function Logged(log: seq<Message>, dir: Dir): seq<byte> {
    if log == [] then []
    else
      var m := log[|log| - 1];
      Logged(log[..|log| - 1], dir) + if m.dir == dir then m.data else []
  }

  /** What is between the reader and the log, and between the log and the far side. */
  ghost predicate Accounts(p: Pump, logged: seq<byte>) {
    match p.pc
    case Reading => p.read == logged == p.delivered
    case Logging(buf) => p.read == logged + buf && logged == p.delivered && 1 <= |buf| <= BUF
    case Writing(buf, sent) => p.read == logged == p.delivered + buf[Min(sent, |buf|)..] && sent < |buf| <= BUF
    case Ending => p.read == logged == p.delivered
    case Done(shutdown) =>
      && p.read == logged && p.delivered <= logged && |logged| - |p.delivered| <= BUF
      && (shutdown ==> p.delivered == p.read)
  }

  ghost predicate Inv(s: State) {
    forall dir :: Accounts(s.At(dir), Logged(s.log, dir))
  }

  lemma LogAppends(log: seq<Message>, m: Message, dir: Dir)
    ensures Logged(log + [m], dir) == Logged(log, dir) + if m.dir == dir then m.data else []
  {
    assert (log + [m])[..|log|] == log;
  }

  lemma AdvanceKeeps(p: Pump, step: Step, logged: seq<byte>)
    requires Enabled(p, step) && Accounts(p, logged)
    ensures Accounts(Advance(p, step), if step.Log? then logged + p.pc.buf else logged)
  {
    if step.Deliver? {
      var buf, sent := p.pc.buf, p.pc.sent;
      assert buf[sent..] == buf[sent..sent + step.n] + buf[sent + step.n..];
      assert sent + step.n == |buf| ==> buf[sent + step.n..] == [];
    }
  }

  lemma StepKeeps(s: State, dir: Dir, step: Step)
    requires Inv(s) && Enabled(s.At(dir), step)
    ensures Inv(Next(s, dir, step))
  {
    hide Accounts, Advance;
    var s1 := Next(s, dir, step);
    AdvanceKeeps(s.At(dir), step, Logged(s.log, dir));
    forall d: Dir
      ensures Accounts(s1.At(d), Logged(s1.log, d))
    {
      if step.Log? {
        LogAppends(s.log, Message(dir, s.At(dir).pc.buf), d);
        assert Logged(s.log, d) + [] == Logged(s.log, d);
      }
    }
  }

  lemma {:induction false} RunKeeps(s: State, schedule: seq<(Dir, Step)>, end: State)
    requires Inv(s) && Runs(s, schedule, end)
    ensures Inv(end)
    decreases |schedule|
  {
    hide Inv, Next;
    if schedule != [] {
      var (dir, step) := schedule[0];
      StepKeeps(s, dir, step);
      RunKeeps(Next(s, dir, step), schedule[1..], end);
    }
  }

  /** In every interleaving, in each direction: what is logged is what was read, but for one buffer being logged;
      what the far side has is a prefix of the log, at most one buffer behind; the far side is shut down only once it
      has every byte read; and a pump that has ended has logged everything it read. */
  lemma RelayFidelity(schedule: seq<(Dir, Step)>, s: State, dir: Dir)
    requires Runs(Init(), schedule, s)
    ensures var p, logged := s.At(dir), Logged(s.log, dir);
      && p.delivered <= logged <= p.read
      && |p.read| - |logged| <= BUF && |logged| - |p.delivered| <= BUF
      && (p.pc == Done(true) ==> p.delivered == p.read)
      && (p.pc.Done? ==> logged == p.read)
  {
    assert Inv(Init());
    RunKeeps(Init(), schedule, s);
    assert Accounts(s.At(dir), Logged(s.log, dir));
  }

  // ---------------------------------------------------------------- two independent directions

  /** A pump on its own. */
  ghost predicate PumpRuns(p: Pump, steps: seq<Step>, q: Pump)
    decreases |steps|
  {
    if steps == [] then q == p
    else Enabled(p, steps[0]) && PumpRuns(Advance(p, steps[0]), steps[1..], q)
  }

  ghost function StepsOf(schedule: seq<(Dir, Step)>, dir: Dir): seq<Step> {
    if schedule == [] then []
    else (if schedule[0].0 == dir then [schedule[0].1] else []) + StepsOf(schedule[1..], dir)
  }

  lemma StepsOfNext(schedule: seq<(Dir, Step)>, dir: Dir)
    requires schedule != []
    ensures var own := StepsOf(schedule, dir);
      if schedule[0].0 == dir then own != [] && own[0] == schedule[0].1 && own[1..] == StepsOf(schedule[1..], dir)
      else own == StepsOf(schedule[1..], dir)
  {
  }

  lemma {:induction false} RunsProject(s: State, schedule: seq<(Dir, Step)>, end: State, dir: Dir)
    requires Runs(s, schedule, end)
    ensures PumpRuns(s.At(dir), StepsOf(schedule, dir), end.At(dir))
    decreases |schedule|
  {
    hide Advance, Enabled;
    if schedule != [] {
      var (d, step) := schedule[0];
      StepsOfNext(schedule, dir);
      RunsProject(Next(s, d, step), schedule[1..], end, dir);
    }
  }

  lemma {:induction false} PumpsInterleave(s: State, schedule: seq<(Dir, Step)>, p: Pump, q: Pump) returns (end: State)
    requires PumpRuns(s.rx, StepsOf(schedule, Rx), p) && PumpRuns(s.tx, StepsOf(schedule, Tx), q)
    ensures Runs(s, schedule, end) && end.rx == p && end.tx == q
    decreases |schedule|
  {
    hide Advance, Enabled;
    if schedule == [] {
      end := s;
    } else {
      var (d, step) := schedule[0];
      StepsOfNext(schedule, Rx);
      StepsOfNext(schedule, Tx);
      end := PumpsInterleave(Next(s, d, step), schedule[1..], p, q);
    }
  }

  /** The directions are independent: an order of steps of both is a run exactly when each pump could take its own steps
      alone, and each ends where it would have ended alone. */
  lemma DirectionsAreIndependent(s: State, schedule: seq<(Dir, Step)>, p: Pump, q: Pump)
    ensures (exists end :: Runs(s, schedule, end) && end.rx == p && end.tx == q)
       <==> PumpRuns(s.rx, StepsOf(schedule, Rx), p) && PumpRuns(s.tx, StepsOf(schedule, Tx), q)
  {
    if PumpRuns(s.rx, StepsOf(schedule, Rx), p) && PumpRuns(s.tx, StepsOf(schedule, Tx), q) {
      var end := PumpsInterleave(s, schedule, p, q);
    }
    forall end | Runs(s, schedule, end) && end.rx == p && end.tx == q
      ensures PumpRuns(s.rx, StepsOf(schedule, Rx), p) && PumpRuns(s.tx, StepsOf(schedule, Tx), q)
    {
      RunsProject(s, schedule, end, Rx);
      RunsProject(s, schedule, end, Tx);
    }
  }

  lemma {:induction false} PumpRunsOn(p: Pump, steps: seq<Step>, mid: Pump, more: seq<Step>, q: Pump)
    requires PumpRuns(p, steps, mid) && PumpRuns(mid, more, q)
    ensures PumpRuns(p, steps + more, q)
    decreases |steps|
  {
    hide Advance, Enabled;
    if steps == [] {
      assert steps + more == more;
    } else {
      assert (steps + more)[1..] == steps[1..] + more;
      PumpRunsOn(Advance(p, steps[0]), steps[1..], mid, more, q);
    }
  }

  /** A pump with a buffer in hand logs it, writes it out and reads again. */
  lemma BufferIsDelivered(p: Pump, logged: seq<byte>) returns (steps: seq<Step>, q: Pump)
    requires Accounts(p, logged) && (p.pc.Reading? || p.pc.Logging? || p.pc.Writing?)
    ensures PumpRuns(p, steps, q) && q == Pump(Reading, p.read, p.read)
  {
    q := Pump(Reading, p.read, p.read);
    if p.pc.Reading? {
      steps := [];
    } else {
      var writing := if p.pc.Logging? then Advance(p, Log) else p;
      var buf, sent := writing.pc.buf, writing.pc.sent;
      var last := Deliver(|buf| - sent);
      assert buf[sent..sent + (|buf| - sent)] == buf[sent..];
      assert Advance(writing, last) == q;
      assert PumpRuns(q, [], q) && [last][1..] == [];
      assert PumpRuns(writing, [last], q);
      steps := if p.pc.Logging? then [Log] + [last] else [last];
      assert ([Log] + [last])[1..] == [last];
    }
  }

  ghost predicate Readable(chunks: seq<seq<byte>>) {
    forall i :: 0 <= i < |chunks| ==> 1 <= |chunks[i]| <= BUF
  }

  lemma {:induction false} ReadsAreDelivered(p: Pump, chunks: seq<seq<byte>>) returns (steps: seq<Step>, q: Pump)
    requires p.pc.Reading? && p.delivered == p.read && Readable(chunks)
    ensures PumpRuns(p, steps, q) && q == Pump(Reading, p.read + Flatten(chunks), p.read + Flatten(chunks))
    decreases |chunks|
  {
    if chunks == [] {
      assert p.read + [] == p.read;
      steps, q := [], p;
    } else {
      var before, data := chunks[..|chunks| - 1], chunks[|chunks| - 1];
      var first, mid := ReadsAreDelivered(p, before);
      var reading := Advance(mid, Read(data));
      assert Accounts(reading, mid.read);
      var rest;
      rest, q := BufferIsDelivered(reading, mid.read);
      assert ([Read(data)] + rest)[1..] == rest;
      PumpRunsOn(p, first, mid, [Read(data)] + rest, q);
      steps := first + ([Read(data)] + rest);
      assert q.read == p.read + Flatten(chunks);
    }
  }

  /** A direction that has not ended delivers the rest of the response, however long: whatever its reads still return,
      it has steps that deliver every byte and then shut the far side down. */
  lemma RestIsDelivered(p: Pump, logged: seq<byte>, chunks: seq<seq<byte>>) returns (steps: seq<Step>, q: Pump)
    requires Accounts(p, logged) && (p.pc.Reading? || p.pc.Logging? || p.pc.Writing?) && Readable(chunks)
    ensures PumpRuns(p, steps, q)
    ensures q == Pump(Done(true), p.read + Flatten(chunks), p.read + Flatten(chunks))
  {
    var a, idle := BufferIsDelivered(p, logged);
    var b, last := ReadsAreDelivered(idle, chunks);
    q := Pump(Done(true), last.read, last.delivered);
    assert PumpRuns(q, [], q) && [ReadEnds, ShutDown][1..] == [ShutDown] && [ShutDown][1..] == [];
    assert PumpRuns(last, [ReadEnds, ShutDown], q);
    PumpRunsOn(idle, b, last, [ReadEnds, ShutDown], q);
    PumpRunsOn(p, a, idle, b + [ReadEnds, ShutDown], q);
    steps := a + (b + [ReadEnds, ShutDown]);
  }

  /** One direction's end never stops the other. From any state a relay can reach, a direction that has not ended, whatever
      the other has done, can deliver whatever it still reads and shut its far side down; and it does so in every order
      of those steps with any steps the other can take. */
  lemma OtherDirectionStillDelivers(past: seq<(Dir, Step)>, s: State, dir: Dir, other: Dir, chunks: seq<seq<byte>>)
    requires Runs(Init(), past, s) && other != dir && Readable(chunks)
    requires !s.At(dir).pc.Ending? && !s.At(dir).pc.Done?
    ensures exists steps ::
      && PumpRuns(s.At(dir), steps, Delivered(s.At(dir), chunks))
      && InAnyOrder(s, dir, other, steps, Delivered(s.At(dir), chunks))
  {
    assert Inv(Init());
    RunKeeps(Init(), past, s);
    assert Accounts(s.At(dir), Logged(s.log, dir));
    var steps, q := RestIsDelivered(s.At(dir), Logged(s.log, dir), chunks);
    forall schedule, p | StepsOf(schedule, dir) == steps && PumpRuns(s.At(other), StepsOf(schedule, other), p)
      ensures exists end :: Runs(s, schedule, end) && end.At(other) == p && end.At(dir) == q
    {
      assert (dir == Rx && other == Tx) || (dir == Tx && other == Rx);
      var end := PumpsInterleave(s, schedule, if dir == Rx then q else p, if dir == Rx then p else q);
    }
    assert q == Delivered(s.At(dir), chunks);
    assert InAnyOrder(s, dir, other, steps, q);
    assert PumpRuns(s.At(dir), steps, q);
  }

  /** In every order of these steps of one direction with any the other can take, the one ends as q and the other as it
      would have ended alone. */
  ghost predicate InAnyOrder(s: State, dir: Dir, other: Dir, steps: seq<Step>, q: Pump) {
    forall schedule, p :: StepsOf(schedule, dir) == steps && PumpRuns(s.At(other), StepsOf(schedule, other), p) ==>
      exists end :: Runs(s, schedule, end) && end.At(other) == p && end.At(dir) == q
  }

  /** A pump that has delivered all it read, these reads included, and has shut the far side down. */
  ghost function Delivered(p: Pump, chunks: seq<seq<byte>>): Pump {
    Pump(Done(true), p.read + Flatten(chunks), p.read + Flatten(chunks))
  }
}

/** Answering a TCP connection from a profile: one read at a time, until an action hangs up. */
module Serving {
  import opened Bytes
  import opened Wrappers
  import opened Fields
  import opened Dns
  import opened DnsSafety
  import opened Profile
  import opened ProfileBounds
  import opened StreamKeys
  import opened Relay

  datatype Outcome = PeerEof | ProfileClose

  /** What an action sends over TCP, where DNS messages are framed. */
  function TcpPayload(a: Action, received: seq<byte>): seq<byte> {
    if a.IsSilent() then []
    else if a.echo then received
    else if a.dns.Some? then
      match RepliedTcp(received, a.dns.value)
      case Some(r) => r
      case None => []
    else a.payload
  }

  /** The message an action logs, if it sends anything. */
  function Answer(a: Action, received: seq<byte>): seq<Message> {
    if TcpPayload(a, received) == [] then [] else [Message(Tx, TcpPayload(a, received))]
  }

  method Send(a: Action, received: seq<byte>, log: seq<Message>) returns (out: seq<Message>, close: bool)
    ensures out == log + Answer(a, received) && close == a.close
    ensures exists said :: Says(true, a, received, said) && out == log + Line(said)
  {
    hide Says, TcpPayload;
    TcpPayloadIsSaid(a, received);
    assert log + Line(TcpPayload(a, received)) == log + Answer(a, received);
    if a.IsSilent() {
      SilentSaysNothing(a, received);
      return log, a.close;
    }
    var payload := TcpPayload(a, received);
    out := log;
    if payload != [] {
      out := out + [Message(Tx, payload)];
    }
    close := a.close;
  }

  /** The action for read number k of a connection. */
  function ActionFor(rules: seq<Rule>, inbox: seq<seq<byte>>, k: nat): Option<Action>
    requires k < |inbox|
  {
    match Eval(rules, inbox[k], k == 0)
    case None => None
    case Some(rule) => Some(rule.action)
  }

  /** The rule that answers read k hangs up after its answer. */
  ghost predicate HangsUp(rules: seq<Rule>, inbox: seq<seq<byte>>, k: nat) {
    k < |inbox| && exists i :: Answers(rules, inbox[k], k == 0, i) && rules[i].action.close
  }

  lemma HangsUpMeans(rules: seq<Rule>, inbox: seq<seq<byte>>, k: nat)
    requires k < |inbox|
    ensures HangsUp(rules, inbox, k) <==> ActionFor(rules, inbox, k).Some? && ActionFor(rules, inbox, k).value.close
  {
    hide Eval;
    EvalPicksFirstMatch(rules, inbox[k], k == 0);
  }

  /** One read, logged before whatever answers it. */
  ghost function Exchange(rules: seq<Rule>, inbox: seq<seq<byte>>, k: nat): seq<Message>
    requires k < |inbox|
  {
    var a := ActionFor(rules, inbox, k);
    [Message(Rx, inbox[k])] + if a.Some? then Answer(a.value, inbox[k]) else []
  }

  ghost function Dialogue(rules: seq<Rule>, inbox: seq<seq<byte>>, n: nat): seq<Message>
    requires n <= |inbox|
  {
    if n == 0 then [] else Dialogue(rules, inbox, n - 1) + Exchange(rules, inbox, n - 1)
  }

  function RulesOf(c: Option<Compiled>): seq<Rule> {
    if c.Some? then c.value.rules else []
  }

  function OpeningOf(c: Option<Compiled>): Option<Action> {
    if c.Some? then c.value.onConnect else None
  }

  ghost function BannerOf(c: Option<Compiled>): seq<Message> {
    if OpeningOf(c).Some? then Answer(OpeningOf(c).value, []) else []
  }

  /** A conversation of n reads ends there: the banner hangs up before any, the last read is the first whose action
      hangs up, or the peer has nothing more to say. */
  ghost predicate EndsAfter(c: Option<Compiled>, inbox: seq<seq<byte>>, n: nat, why: Outcome) {
    && n <= |inbox|
    && (why.ProfileClose? && n == 0 ==> OpeningOf(c).Some? && OpeningOf(c).value.close)
    && (why.ProfileClose? && n > 0 ==> HangsUp(RulesOf(c), inbox, n - 1))
    && (why.PeerEof? ==> n == |inbox|)
    && (n > 0 || why.PeerEof? ==> OpeningOf(c).Some? ==> !OpeningOf(c).value.close)
    && (forall k :: 0 <= k < n && (why.PeerEof? || k < n - 1) ==> !HangsUp(RulesOf(c), inbox, k))
  }

  /** Serves a connection whose peer sends these messages and then ends: the banner, then each message logged and
      answered in turn, up to and including the first whose action hangs up. Tells how many it served. */
  method Serve(c: Option<Compiled>, inbox: seq<seq<byte>>) returns (log: seq<Message>, why: Outcome, served: nat)
    ensures EndsAfter(c, inbox, served, why)
    ensures log == BannerOf(c) + Dialogue(RulesOf(c), inbox, served)
    ensures Conversed(c, inbox, served, log)
    ensures Logged(log, Rx) == Flatten(inbox[..served])
    ensures |Logged(log, Tx)| <= SessionBound(c, inbox, served)
  {
    hide RulesSay, Says, Line, SessionBound, Conversed, BannerOf, TcpPayload, Flatten, Logged, Dialogue, Exchange, HangsUp, Answer;
    log, served := [], 0;
    NoDialogue(c, inbox);
    NoBanner(c);
    if OpeningOf(c).Some? {
      var close;
      log, close := Send(OpeningOf(c).value, [], log);
      BannerIsAnswer(c);
      if close {
        ServedAndNothingElse(c, inbox, 0);
        return log, ProfileClose, 0;
      }
    }
    var first := true;
    var k := 0;
    while k < |inbox|
      invariant 0 <= k <= |inbox| && first == (k == 0)
      invariant log == BannerOf(c) + Dialogue(RulesOf(c), inbox, k)
      invariant OpeningOf(c).Some? ==> !OpeningOf(c).value.close
      invariant forall j :: 0 <= j < k ==> !HangsUp(RulesOf(c), inbox, j)
    {
      var close;
      log, close := ServeOne(RulesOf(c), inbox, k, first, log);
      DialogueGrows(c, inbox, k);
      if close {
        ServedAndNothingElse(c, inbox, k + 1);
        return log, ProfileClose, k + 1;
      }
      first := false;
      k := k + 1;
    }
    ServedAndNothingElse(c, inbox, k);
    return log, PeerEof, k;
  }

  /** One pass of the serving loop. */
  method ServeOne(rules: seq<Rule>, inbox: seq<seq<byte>>, k: nat, first: bool, log: seq<Message>)
    returns (out: seq<Message>, close: bool)
    requires k < |inbox| && first == (k == 0)
    ensures out == log + Exchange(rules, inbox, k) && close == HangsUp(rules, inbox, k)
    ensures exists said :: RulesSay(true, rules, inbox[k], first, said) && out == log + [Message(Rx, inbox[k])] + Line(said)
  {
    hide TcpPayload, HangsUp, RulesSay;
    HangsUpMeans(rules, inbox, k);
    ghost var said := AnswerIsSaid(rules, inbox, k);
    assert log + [Message(Rx, inbox[k])] + Line(said) == log + Exchange(rules, inbox, k);
    var data := inbox[k];
    out := log + [Message(Rx, data)];
    var rule := Eval(rules, data, first);
    if rule == None {
      close := false;
    } else {
      ghost var mid := out;
      out, close := Send(rule.value.action, data, out);
      assert mid + Answer(rule.value.action, data) == log + ([Message(Rx, data)] + Answer(rule.value.action, data));
    }
  }

  // ---------------------------------------------------------------- what a connection is sent, exactly

  /** How the log shows what is said: nothing if it is empty. */
  ghost function Line(said: seq<byte>): seq<Message> {
    if said == [] then [] else [Message(Tx, said)]
  }

  /** A connection's log when this is said: the greeting, then each read as it came with the answer to it. */
  ghost function Transcript(inbox: seq<seq<byte>>, greeting: seq<byte>, answers: seq<seq<byte>>, n: nat): seq<Message>
    requires n <= |inbox| && n <= |answers|
  {
    if n == 0 then Line(greeting)
    else Transcript(inbox, greeting, answers, n - 1) + ([Message(Rx, inbox[n - 1])] + Line(answers[n - 1]))
  }

  /** The banner greets, and answers nothing. */
  ghost predicate Greets(c: Option<Compiled>, said: seq<byte>) {
    if c.Some? && c.value.onConnect.Some? then Says(true, c.value.onConnect.value, [], said) else said == []
  }

  /** Every read is answered by the first rule that matches it, where only read 0 counts as first. */
  ghost predicate RulesAnswer(c: Option<Compiled>, inbox: seq<seq<byte>>, answers: seq<seq<byte>>, n: nat) {
    && n <= |inbox| && n <= |answers|
    && forall k :: 0 <= k < n ==> RulesSay(true, RulesOf(c), inbox[k], k == 0, answers[k])
  }

  /** The log of a conversation of n reads: the banner's words, then each read followed by the rules' words. */
  ghost predicate Conversed(c: Option<Compiled>, inbox: seq<seq<byte>>, n: nat, log: seq<Message>) {
    exists greeting, answers ::
      Greets(c, greeting) && RulesAnswer(c, inbox, answers, n) && log == Transcript(inbox, greeting, answers, n)
  }

  lemma SilentSaysNothing(a: Action, received: seq<byte>)
    requires a.IsSilent()
    ensures TcpPayload(a, received) == []
  {
  }

  /** Over TCP an action says its own words, the bytes it heard, or the framed reply to the framed query. */
  lemma TcpPayloadIsSaid(a: Action, heard: seq<byte>)
    ensures Says(true, a, heard, TcpPayload(a, heard))
  {
    hide Replied, RepliedTcp;
    if a.dns.Some? {
      TcpAnswersWhatArrived(heard, a.dns.value);
    }
  }

  lemma AnswerIsSaid(rules: seq<Rule>, inbox: seq<seq<byte>>, k: nat) returns (said: seq<byte>)
    requires k < |inbox|
    ensures Exchange(rules, inbox, k) == [Message(Rx, inbox[k])] + Line(said)
    ensures RulesSay(true, rules, inbox[k], k == 0, said)
  {
    hide Eval, TcpPayload, Says;
    var a, first := ActionFor(rules, inbox, k), k == 0;
    EvalPicksFirstMatch(rules, inbox[k], first);
    if a.Some? {
      said := TcpPayload(a.value, inbox[k]);
      TcpPayloadIsSaid(a.value, inbox[k]);
    } else {
      said := [];
      assert forall i :: !Answers(rules, inbox[k], first, i);
    }
  }

  lemma {:induction false} RulesConverse(c: Option<Compiled>, inbox: seq<seq<byte>>, n: nat) returns (answers: seq<seq<byte>>)
    requires n <= |inbox|
    ensures |answers| == n && RulesAnswer(c, inbox, answers, n)
    ensures forall greeting :: Transcript(inbox, greeting, answers, n) == Line(greeting) + Dialogue(RulesOf(c), inbox, n)
  {
    hide Exchange, Line, RulesSay, Transcript;
    if n == 0 {
      NothingTranscribed(inbox);
      answers := [];
      assert forall greeting :: Line(greeting) + [] == Line(greeting);
    } else {
      var before := RulesConverse(c, inbox, n - 1);
      var said := AnswerIsSaid(RulesOf(c), inbox, n - 1);
      answers := before + [said];
      forall greeting
        ensures Transcript(inbox, greeting, answers, n) == Line(greeting) + Dialogue(RulesOf(c), inbox, n)
      {
        TranscriptIsLocal(inbox, greeting, before, answers, n - 1);
        TranscriptGrows(inbox, greeting, answers, n, Dialogue(RulesOf(c), inbox, n - 1), Exchange(RulesOf(c), inbox, n - 1));
      }
    }
  }

  lemma NothingTranscribed(inbox: seq<seq<byte>>)
    ensures forall greeting :: Transcript(inbox, greeting, [], 0) == Line(greeting)
  {
  }

  lemma TranscriptGrows(inbox: seq<seq<byte>>, greeting: seq<byte>, answers: seq<seq<byte>>, n: nat,
                        before: seq<Message>, last: seq<Message>)
    requires 0 < n <= |inbox| && n <= |answers|
    requires Transcript(inbox, greeting, answers, n - 1) == Line(greeting) + before
    requires last == [Message(Rx, inbox[n - 1])] + Line(answers[n - 1])
    ensures Transcript(inbox, greeting, answers, n) == Line(greeting) + (before + last)
  {
    hide Line;
  }

  lemma {:induction false} TranscriptIsLocal(inbox: seq<seq<byte>>, greeting: seq<byte>, a: seq<seq<byte>>, b: seq<seq<byte>>,
                                             n: nat)
    requires n <= |inbox| && n <= |a| && a <= b
    ensures Transcript(inbox, greeting, a, n) == Transcript(inbox, greeting, b, n)
  {
    if n > 0 {
      TranscriptIsLocal(inbox, greeting, a, b, n - 1);
    }
  }

  lemma DialogueConverses(c: Option<Compiled>, inbox: seq<seq<byte>>, n: nat)
    requires n <= |inbox|
    ensures Conversed(c, inbox, n, BannerOf(c) + Dialogue(RulesOf(c), inbox, n))
  {
    hide Dialogue, RulesAnswer, Transcript, Says, TcpPayload;
    var greeting := [];
    if OpeningOf(c).Some? {
      greeting := TcpPayload(OpeningOf(c).value, []);
      TcpPayloadIsSaid(OpeningOf(c).value, []);
    }
    assert Greets(c, greeting) && Line(greeting) == BannerOf(c);
    var answers := RulesConverse(c, inbox, n);
  }

  // ---------------------------------------------------------------- how much a connection is sent

  /** The most an action says over TCP to n bytes. A framed DNS reply has 28 bytes more than the frame it answers. */
  ghost function TcpActionBound(a: Action, n: nat): nat {
    if a.echo then n
    else if a.dns.Some? then if n < 2 then 0 else Min(n, 8211) + 28
    else |a.payload|
  }

  lemma TcpPayloadWithinBound(a: Action, received: seq<byte>)
    ensures |TcpPayload(a, received)| <= TcpActionBound(a, |received|)
    ensures Says(true, a, received, TcpPayload(a, received))
  {
    hide Replied, Says;
    TcpPayloadIsSaid(a, received);
    if !a.echo && a.dns.Some? && |received| >= 2 {
      var inner := received[2..2 + Min(Be16(received, 0).value, |received| - 2)];
      if Replied(inner, a.dns.value).Some? {
        ReplyLength(inner, a.dns.value);
      }
    }
  }

  ghost function TcpRulesBound(rules: seq<Rule>, n: nat): nat {
    if rules == [] then 0 else Max(TcpActionBound(rules[0].action, n), TcpRulesBound(rules[1..], n))
  }

  lemma {:induction false} RuleWithinTcpBound(rules: seq<Rule>, i: nat, n: nat)
    requires i < |rules|
    ensures TcpActionBound(rules[i].action, n) <= TcpRulesBound(rules, n)
  {
    if i > 0 {
      RuleWithinTcpBound(rules[1..], i - 1, n);
    }
  }

  ghost function RepliesBound(rules: seq<Rule>, inbox: seq<seq<byte>>, n: nat): nat
    requires n <= |inbox|
  {
    if n == 0 then 0 else RepliesBound(rules, inbox, n - 1) + TcpRulesBound(rules, |inbox[n - 1]|)
  }

  /** What a connection of n reads may be sent: the banner, which answers nothing, and for each read what the rules may
      answer to its length. */
  ghost function SessionBound(c: Option<Compiled>, inbox: seq<seq<byte>>, n: nat): nat
    requires n <= |inbox|
  {
    (if OpeningOf(c).Some? then TcpActionBound(OpeningOf(c).value, 0) else 0) + RepliesBound(RulesOf(c), inbox, n)
  }

  lemma AnswerLogs(a: Action, received: seq<byte>)
    ensures Logged(Answer(a, received), Tx) == TcpPayload(a, received)
  {
    hide TcpPayload, Logged;
    NothingLogged(Tx);
    if TcpPayload(a, received) != [] {
      LogAppends([], Answer(a, received)[0], Tx);
      assert [] + Answer(a, received) == Answer(a, received);
    }
  }

  lemma ExchangeSends(rules: seq<Rule>, inbox: seq<seq<byte>>, k: nat)
    requires k < |inbox|
    ensures |Logged(Exchange(rules, inbox, k), Tx)| <= TcpRulesBound(rules, |inbox[k]|)
  {
    hide Eval, TcpPayload, Logged, TcpActionBound, Answer;
    var received := Message(Rx, inbox[k]);
    NothingLogged(Tx);
    LogAppends([], received, Tx);
    assert [] + [received] == [received];
    var a := ActionFor(rules, inbox, k);
    if a.Some? {
      LoggedTogether([received], Answer(a.value, inbox[k]), Tx);
      AnswerLogs(a.value, inbox[k]);
      TcpPayloadWithinBound(a.value, inbox[k]);
      var i := EvalIsRule(rules, inbox[k], k == 0);
      RuleWithinTcpBound(rules, i, |inbox[k]|);
    } else {
      assert Exchange(rules, inbox, k) == [received];
    }
  }

  lemma {:induction false} DialogueSends(rules: seq<Rule>, inbox: seq<seq<byte>>, n: nat)
    requires n <= |inbox|
    ensures |Logged(Dialogue(rules, inbox, n), Tx)| <= RepliesBound(rules, inbox, n)
  {
    hide Exchange, Logged;
    if n == 0 {
      NothingLogged(Tx);
    } else {
      DialogueSends(rules, inbox, n - 1);
      ExchangeSends(rules, inbox, n - 1);
      LoggedTogether(Dialogue(rules, inbox, n - 1), Exchange(rules, inbox, n - 1), Tx);
    }
  }

  /** What a connection is sent is within its bound. */
  lemma SessionIsWithinBound(c: Option<Compiled>, inbox: seq<seq<byte>>, n: nat)
    requires n <= |inbox|
    ensures |Logged(BannerOf(c) + Dialogue(RulesOf(c), inbox, n), Tx)| <= SessionBound(c, inbox, n)
  {
    hide TcpPayload, Logged, Answer, Dialogue, TcpActionBound;
    LoggedTogether(BannerOf(c), Dialogue(RulesOf(c), inbox, n), Tx);
    DialogueSends(RulesOf(c), inbox, n);
    if OpeningOf(c).Some? {
      AnswerLogs(OpeningOf(c).value, []);
      TcpPayloadWithinBound(OpeningOf(c).value, []);
    } else {
      NothingLogged(Tx);
    }
  }

  /** When max_response_bytes gives a number, the bound is the banner once and the longest payload for every read; for a
      profile that does not respond it is nothing. */
  lemma {:induction false} SessionBoundFollowsProfile(c: Compiled, inbox: seq<seq<byte>>, n: nat)
    requires n <= |inbox|
    ensures MaxResponseBytes(c).Some? ==> SessionBound(Some(c), inbox, n) <= BannerLength(c) + LongestPayload(c.rules) * n
    ensures !Responds(c) ==> SessionBound(Some(c), inbox, n) == 0
  {
    hide Responds, MaxResponseBytes;
    PlainActions(c);
    if n > 0 {
      SessionBoundFollowsProfile(c, inbox, n - 1);
      PlainRules(c.rules, |inbox[n - 1]|);
      assert LongestPayload(c.rules) * n == LongestPayload(c.rules) * (n - 1) + LongestPayload(c.rules);
    }
  }

  lemma PlainActions(c: Compiled)
    ensures MaxResponseBytes(c).Some? ==>
      && (c.onConnect.Some? ==> !Reflects(c.onConnect.value))
      && forall i :: 0 <= i < |c.rules| ==> !Reflects(c.rules[i].action)
    ensures !Responds(c) ==>
      && (c.onConnect.Some? ==> c.onConnect.value.IsSilent())
      && forall i :: 0 <= i < |c.rules| ==> c.rules[i].action.IsSilent()
  {
  }

  lemma {:induction false} PlainRules(rules: seq<Rule>, n: nat)
    ensures (forall i :: 0 <= i < |rules| ==> !Reflects(rules[i].action)) ==> TcpRulesBound(rules, n) == LongestPayload(rules)
    ensures (forall i :: 0 <= i < |rules| ==> rules[i].action.IsSilent()) ==> TcpRulesBound(rules, n) == 0
  {
    if rules != [] {
      PlainRules(rules[1..], n);
      assert forall i :: 0 <= i < |rules[1..]| ==> rules[1..][i] == rules[i + 1];
    }
  }

  // ---------------------------------------------------------------- what a connection logs

  lemma ExchangeLogs(rules: seq<Rule>, inbox: seq<seq<byte>>, k: nat)
    requires k < |inbox|
    ensures Logged(Exchange(rules, inbox, k), Rx) == inbox[k]
  {
    hide Eval, TcpPayload, Logged;
    var received := Message(Rx, inbox[k]);
    NothingLogged(Rx);
    LogAppends([], received, Rx);
    assert [] + [received] == [received] && [] + inbox[k] == inbox[k];
    var a := ActionFor(rules, inbox, k);
    if a.Some? && Answer(a.value, inbox[k]) != [] {
      LogAppends([received], Answer(a.value, inbox[k])[0], Rx);
      assert inbox[k] + [] == inbox[k];
    } else {
      assert Exchange(rules, inbox, k) == [received];
    }
  }

  /** What a connection logs as received is exactly the messages that were served, byte for byte. */
  lemma {:induction false} ServedReadsAreLogged(rules: seq<Rule>, inbox: seq<seq<byte>>, n: nat)
    requires n <= |inbox|
    ensures Logged(Dialogue(rules, inbox, n), Rx) == Flatten(inbox[..n])
  {
    hide Exchange, Logged;
    if n == 0 {
      NothingLogged(Rx);
    } else {
      ServedReadsAreLogged(rules, inbox, n - 1);
      ExchangeLogs(rules, inbox, n - 1);
      LoggedTogether(Dialogue(rules, inbox, n - 1), Exchange(rules, inbox, n - 1), Rx);
      assert inbox[..n] == inbox[..n - 1] + [inbox[n - 1]];
      FlattenAppend(inbox[..n - 1], inbox[n - 1]);
    }
  }

  lemma NoBanner(c: Option<Compiled>)
    ensures OpeningOf(c) == None ==> BannerOf(c) == []
  {
  }

  lemma BannerIsAnswer(c: Option<Compiled>)
    requires OpeningOf(c).Some?
    ensures [] + Answer(OpeningOf(c).value, []) == BannerOf(c)
  {
  }

  lemma NoDialogue(c: Option<Compiled>, inbox: seq<seq<byte>>)
    ensures BannerOf(c) + Dialogue(RulesOf(c), inbox, 0) == BannerOf(c)
  {
  }

  lemma DialogueGrows(c: Option<Compiled>, inbox: seq<seq<byte>>, k: nat)
    requires k < |inbox|
    ensures BannerOf(c) + Dialogue(RulesOf(c), inbox, k) + Exchange(RulesOf(c), inbox, k)
         == BannerOf(c) + Dialogue(RulesOf(c), inbox, k + 1)
  {
    hide BannerOf, Exchange;
  }

  /** The banner does not count as received, and all that is sent is within the session's bound. */
  lemma ServedAndNothingElse(c: Option<Compiled>, inbox: seq<seq<byte>>, n: nat)
    requires n <= |inbox|
    ensures Logged(BannerOf(c) + Dialogue(RulesOf(c), inbox, n), Rx) == Flatten(inbox[..n])
    ensures |Logged(BannerOf(c) + Dialogue(RulesOf(c), inbox, n), Tx)| <= SessionBound(c, inbox, n)
    ensures Conversed(c, inbox, n, BannerOf(c) + Dialogue(RulesOf(c), inbox, n))
  {
    hide TcpPayload, SessionBound;
    DialogueConverses(c, inbox, n);
    SessionIsWithinBound(c, inbox, n);
    ServedReadsAreLogged(RulesOf(c), inbox, n);
    LoggedTogether(BannerOf(c), Dialogue(RulesOf(c), inbox, n), Rx);
    if BannerOf(c) != [] {
      LogAppends([], BannerOf(c)[0], Rx);
    }
  }

  lemma NothingLogged(dir: Dir)
    ensures Logged([], dir) == []
  {
  }

  lemma {:induction false} LoggedTogether(a: seq<Message>, b: seq<Message>, dir: Dir)
    ensures Logged(a + b, dir) == Logged(a, dir) + Logged(b, dir)
  {
    hide Logged;
    if b == [] {
      NothingLogged(dir);
      assert a + b == a && Logged(a, dir) + [] == Logged(a, dir);
    } else {
      var before, m := b[..|b| - 1], b[|b| - 1];
      LoggedTogether(a, before, dir);
      LogAppends(a + before, m, dir);
      LogAppends(before, m, dir);
      assert before + [m] == b && a + b == a + before + [m];
    }
  }
}
