/** What the UDP listener does, told by the datagrams it was sent. */
module UdpHistory {
  import opened Bytes
  import opened Wrappers
  import opened Profile
  import opened ProfileBounds
  import opened Udp
  import opened UdpSafety

  // ---------------------------------------------------------------- when a source was last heard from

  /** When the last datagram from a source arrived. */
  ghost function LastHeard(inputs: seq<Input>, a: Addr): Option<nat> {
    if inputs == [] then None
    else
      var last := inputs[|inputs| - 1];
      if last.Datagram? && last.from == a then Some(last.now) else LastHeard(inputs[..|inputs| - 1], a)
  }

  ghost predicate HeardInv(s: State, past: seq<Input>) {
    forall a :: a in s.peers ==> LastHeard(past, a) == Some(s.peers[a].lastSeen)
  }

  lemma HeardAppends(past: seq<Input>, i: Input, a: Addr)
    ensures LastHeard(past + [i], a) == if i.Datagram? && i.from == a then Some(i.now) else LastHeard(past, a)
  {
    assert (past + [i])[..|past|] == past;
  }

  lemma RepliesKeepPeers(c: Compiled, s: State, conn: nat, d: Input, first: bool)
    requires d.Datagram?
    ensures Answering(c, s, conn, d, first).peers == s.peers
  {
    hide Payload, Eval;
  }

  /** A datagram makes its source, if it is tracked, the one heard from now, and no other. */
  lemma DatagramIsHeard(cfg: Config, s: State, d: Input)
    requires d.Datagram?
    ensures var s1 := OnDatagram(cfg, s, d);
      if d.from in s.peers || |s.peers| < cfg.maxPeers
      then s1.peers == s.peers[d.from := Peer(if d.from in s.peers then s.peers[d.from].conn else s.nextConn, d.now)]
      else s1.peers == s.peers
  {
    hide Answering;
    if cfg.profile.Some? && (d.from in s.peers || |s.peers| < cfg.maxPeers) {
      var s1 := Tracking(s, d.from, d.data, d.now);
      RepliesKeepPeers(cfg.profile.value, s1, s1.peers[d.from].conn, d, d.from !in s.peers);
    }
  }

  lemma StepIsHeard(cfg: Config, s: State, i: Input, past: seq<Input>)
    requires HeardInv(s, past) && Inv(cfg, s) && Legal(s, i)
    ensures HeardInv(Step(cfg, s, i), past + [i])
  {
    hide LastHeard, OnDatagram, Inv, Retain;
    forall a | a in Step(cfg, s, i).peers
      ensures LastHeard(past + [i], a) == Some(Step(cfg, s, i).peers[a].lastSeen)
    {
      HeardAppends(past, i, a);
      match i
      case Datagram(_, _, _, _, _) => DatagramIsHeard(cfg, s, i);
      case Tick(now, order) => SweepKeeps(cfg, s, now, order);
      case OthersOpen(_) =>
    }
  }

  lemma {:induction false} RunIsHeard(cfg: Config, past: seq<Input>, s: State, inputs: seq<Input>, end: State)
    requires HeardInv(s, past) && Inv(cfg, s) && Runs(cfg, s, inputs, end)
    ensures HeardInv(end, past + inputs)
    decreases |inputs|
  {
    hide HeardInv, Inv, Step;
    if inputs == [] {
      assert past + [] == past;
    } else {
      StepIsHeard(cfg, s, inputs[0], past);
      StepKeeps(cfg, s, inputs[0]);
      RunIsHeard(cfg, past + [inputs[0]], Step(cfg, s, inputs[0]), inputs[1..], end);
      assert past + [inputs[0]] + inputs[1..] == past + inputs;
    }
  }

  /** After any run the table holds, for each source in it, when the last datagram from it arrived. */
  lemma LastSeenIsLastHeard(cfg: Config, nextConn: nat, inputs: seq<Input>, end: State, a: Addr)
    requires Runs(cfg, Init(nextConn), inputs, end) && a in end.peers
    ensures LastHeard(inputs, a) == Some(end.peers[a].lastSeen)
  {
    InitHolds(cfg, nextConn);
    RunIsHeard(cfg, [], Init(nextConn), inputs, end);
    assert [] + inputs == inputs;
  }

  /** After any run a sweep keeps a source exactly when its last datagram arrived less than the idle time ago, where the
      idle time in milliseconds saturates at the clock's range and a datagram from the future counts as just arrived. */
  lemma SweepGoesByLastDatagram(cfg: Config, nextConn: nat, inputs: seq<Input>, s: State, now: nat, order: seq<Addr>, a: Addr)
    requires Runs(cfg, Init(nextConn), inputs, s) && Legal(s, Tick(now, order)) && a in s.peers
    ensures LastHeard(inputs, a).Some?
    ensures var heard := LastHeard(inputs, a).value;
      a in Step(cfg, s, Tick(now, order)).peers
      <==> (if now > heard then now - heard else 0)
             < (if cfg.idleSecs * 1000 > 0xffff_ffff_ffff_ffff then 0xffff_ffff_ffff_ffff else cfg.idleSecs * 1000)
  {
    LastSeenIsLastHeard(cfg, nextConn, inputs, s, a);
    InitHolds(cfg, nextConn);
    RunKeeps(cfg, Init(nextConn), inputs, s);
    SweepKeeps(cfg, s, now, order);
  }

  // ---------------------------------------------------------------- what a datagram draws

  /** What the log shows of an answer: nothing if it is empty, else that it was sent or that sending failed. */
  ghost function Shown(conn: nat, to: Addr, said: seq<byte>, sent: bool): seq<Event> {
    if said == [] then [] else [if sent then Sent(conn, to, said) else SendFailed(conn)]
  }

  lemma ReplyIsShown(s: State, conn: nat, to: Addr, a: Action, received: seq<byte>, sent: bool)
    ensures Replying(s, conn, to, a, received, sent).log == s.log + Shown(conn, to, Payload(a, received), sent)
  {
    hide Payload;
  }

  /** The banner greets a new source, and no other. */
  ghost predicate BannerSays(p: Option<Compiled>, first: bool, data: seq<byte>, said: seq<byte>) {
    if p.Some? && first && p.value.onConnect.Some? then Says(false, p.value.onConnect.value, data, said) else said == []
  }

  ghost predicate ProfileSays(p: Option<Compiled>, first: bool, data: seq<byte>, said: seq<byte>) {
    if p.Some? then RulesSay(false, p.value.rules, data, first, said) else said == []
  }

  lemma AnswersAreShown(c: Compiled, s: State, conn: nat, d: Input, first: bool) returns (banner: seq<byte>, answer: seq<byte>)
    requires d.Datagram?
    ensures BannerSays(Some(c), first, d.data, banner) && ProfileSays(Some(c), first, d.data, answer)
    ensures Answering(c, s, conn, d, first).log
         == s.log + Shown(conn, d.from, banner, d.bannerSent) + Shown(conn, d.from, answer, d.ruleSent)
  {
    hide Payload, Says, Eval, Replying, Shown, RulesSay;
    banner, answer := [], [];
    var s1 := s;
    NothingShown(conn, d.from, d.bannerSent);
    NothingShown(conn, d.from, d.ruleSent);
    if first && c.onConnect.Some? {
      banner := Payload(c.onConnect.value, d.data);
      PayloadIsSaid(c.onConnect.value, d.data);
      ReplyIsShown(s, conn, d.from, c.onConnect.value, d.data, d.bannerSent);
      s1 := Replying(s, conn, d.from, c.onConnect.value, d.data, d.bannerSent);
    }
    RuleReplyIsSaid(c.rules, d.data, first);
    if Eval(c.rules, d.data, first).Some? {
      var a := Eval(c.rules, d.data, first).value.action;
      answer := Payload(a, d.data);
      ReplyIsShown(s1, conn, d.from, a, d.data, d.ruleSent);
    }
  }

  lemma NothingShown(conn: nat, to: Addr, sent: bool)
    ensures Shown(conn, to, [], sent) == []
  {
  }

  /** Everything a datagram does. Past the cap a new source's datagram is recorded under the overflow stream, which is
      opened for the first, and draws nothing. Otherwise a new source gets the next connection, the datagram is recorded
      under its source's, and it draws the banner, if the source is new, and then the answer of the first rule that
      matches. */
  lemma DatagramDraws(cfg: Config, s: State, d: Input) returns (banner: seq<byte>, answer: seq<byte>)
    requires d.Datagram?
    ensures var first, s1 := d.from !in s.peers, OnDatagram(cfg, s, d);
      if first && |s.peers| >= cfg.maxPeers then
        var c := if s.overflow.Some? then s.overflow.value else s.nextConn;
        && s1.log == s.log + (if s.overflow == None then [Opened(c, None)] else []) + [Received(c, d.from, d.data)]
        && s1.overflow == Some(c) && s1.overflowCount == s.overflowCount + 1
        && s1.nextConn == s.nextConn + (if s.overflow == None then 1 else 0)
      else
        var c := if first then s.nextConn else s.peers[d.from].conn;
        && s1.log == s.log + (if first then [Opened(c, Some(d.from))] else []) + [Received(c, d.from, d.data)]
                     + Shown(c, d.from, banner, d.bannerSent) + Shown(c, d.from, answer, d.ruleSent)
        && BannerSays(cfg.profile, first, d.data, banner) && ProfileSays(cfg.profile, first, d.data, answer)
        && s1.overflow == s.overflow && s1.overflowCount == s.overflowCount
        && s1.nextConn == s.nextConn + (if first then 1 else 0)
  {
    hide Answering, Says, RulesSay, Shown;
    banner, answer := [], [];
    var first := d.from !in s.peers;
    if !first || |s.peers| < cfg.maxPeers {
      var s1 := Tracking(s, d.from, d.data, d.now);
      var conn := s1.peers[d.from].conn;
      NothingShown(conn, d.from, d.bannerSent);
      NothingShown(conn, d.from, d.ruleSent);
      if cfg.profile.Some? {
        banner, answer := AnswersAreShown(cfg.profile.value, s1, conn, d, first);
        RepliesKeepOverflow(cfg.profile.value, s1, conn, d, first);
      }
    }
  }

  lemma RepliesKeepOverflow(c: Compiled, s: State, conn: nat, d: Input, first: bool)
    requires d.Datagram?
    ensures var s1 := Answering(c, s, conn, d, first);
      s1.overflow == s.overflow && s1.overflowCount == s.overflowCount && s1.nextConn == s.nextConn
  {
    hide Payload, Eval;
  }

  // ---------------------------------------------------------------- which streams are open

  /** The log shows the stream opened and not closed. */
  ghost predicate OpenIn(log: seq<Event>, c: nat) {
    (exists j :: 0 <= j < |log| && log[j].Opened? && log[j].conn == c) && Closed(c) !in log
  }

  lemma {:induction false} LiveMeans(log: seq<Event>, c: nat)
    ensures c in Who(log) <==> exists j :: 0 <= j < |log| && log[j].Opened? && log[j].conn == c
    ensures c in Gone(log) <==> Closed(c) in log
  {
    if log != [] {
      var before, e := log[..|log| - 1], log[|log| - 1];
      LiveMeans(before, c);
      assert log == before + [e];
      if j :| 0 <= j < |before| && before[j].Opened? && before[j].conn == c {
        assert log[j] == before[j];
      }
      if j :| 0 <= j < |log| && log[j].Opened? && log[j].conn == c {
        assert j < |before| ==> before[j] == log[j];
      }
    }
  }

  /** After any run the streams the log shows open are exactly those of the table's sources and the overflow stream. */
  lemma OpenStreamsAreTheTables(cfg: Config, nextConn: nat, inputs: seq<Input>, end: State, c: nat)
    requires Runs(cfg, Init(nextConn), inputs, end)
    ensures OpenIn(end.log, c) <==> end.overflow == Some(c) || exists a :: a in end.peers && end.peers[a].conn == c
  {
    InitHolds(cfg, nextConn);
    RunKeeps(cfg, Init(nextConn), inputs, end);
    LiveMeans(end.log, c);
    assert Live(end.log, c) <==> OpenIn(end.log, c);
    assert Live(end.log, c) ==> Tracked(end, c);
  }
}
