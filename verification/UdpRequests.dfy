/** What any profile may send back in a run, echoes and DNS replies included: it is bounded by what the run received. */
module UdpRequests {
  import opened Bytes
  import opened Wrappers
  import opened Profile
  import opened ProfileBounds
  import opened Udp
  import opened UdpSafety
  import opened UdpReflection

  /** The datagram that a session was opened for. */
  ghost predicate Greets(before: seq<Event>, e: Event) {
    before != [] && e.Received? && before[|before| - 1] == Opened(e.conn, Some(e.from))
  }

  /** What one recorded event allows: a rule's answer to every tracked datagram, a banner to every session's first. */
  ghost function AllowedBy(c: Compiled, before: seq<Event>, e: Event): nat {
    if e.Received? && IsSession(before, e.conn)
    then RulesBound(c.rules, |e.data|) + if Greets(before, e) then BannerBound(c, |e.data|) else 0
    else 0
  }

  ghost function AllowedIn(c: Compiled, log: seq<Event>): nat {
    if log == [] then 0
    else AllowedIn(c, log[..|log| - 1]) + AllowedBy(c, log[..|log| - 1], log[|log| - 1])
  }

  lemma Allows(c: Compiled, log: seq<Event>, e: Event)
    ensures AllowedIn(c, log + [e]) == AllowedIn(c, log) + AllowedBy(c, log, e)
  {
    assert (log + [e])[..|log|] == log;
  }

  lemma ReplyAllows(c: Compiled, s: State, conn: nat, to: Addr, a: Action, received: seq<byte>, sent: bool)
    ensures AllowedIn(c, Replying(s, conn, to, a, received, sent).log) == AllowedIn(c, s.log)
  {
    hide Payload, AllowedIn;
    Allows(c, s.log, Sent(conn, to, Payload(a, received)));
    Allows(c, s.log, SendFailed(conn));
  }

  lemma TrackingAllows(c: Compiled, cfg: Config, s: State, from: Addr, data: seq<byte>, now: nat)
    requires Inv(cfg, s) && (from in s.peers || |s.peers| < cfg.maxPeers)
    ensures AllowedIn(c, Tracking(s, from, data, now).log)
         >= AllowedIn(c, s.log) + RulesBound(c.rules, |data|) + if from in s.peers then 0 else BannerBound(c, |data|)
  {
    hide Who, Gone, CountReceived, Disciplined, AllowedIn, RulesBound, BannerBound;
    var mid := s.log;
    if from !in s.peers {
      mid := s.log + [Opened(s.nextConn, Some(from))];
      Allows(c, s.log, Opened(s.nextConn, Some(from)));
      Appends(s.log, Opened(s.nextConn, Some(from)));
    }
    Allows(c, mid, Received(Tracking(s, from, data, now).peers[from].conn, from, data));
  }

  lemma AnsweringAllows(c: Compiled, s: State, conn: nat, d: Input, first: bool)
    requires d.Datagram?
    ensures AllowedIn(c, Answering(c, s, conn, d, first).log) == AllowedIn(c, s.log)
  {
    hide Replying, Eval, AllowedIn;
    var t := s;
    if first && c.onConnect.Some? {
      ReplyAllows(c, s, conn, d.from, c.onConnect.value, d.data, d.bannerSent);
      t := Replying(s, conn, d.from, c.onConnect.value, d.data, d.bannerSent);
    }
    if Eval(c.rules, d.data, first).Some? {
      ReplyAllows(c, t, conn, d.from, Eval(c.rules, d.data, first).value.action, d.data, d.ruleSent);
    }
  }

  lemma OverflowAllows(c: Compiled, s: State, from: Addr, data: seq<byte>)
    ensures AllowedIn(c, Overflowing(s, from, data).log) >= AllowedIn(c, s.log)
  {
    hide AllowedIn, AllowedBy;
    var mid := s.log;
    if s.overflow == None {
      mid := s.log + [Opened(s.nextConn, None)];
      Allows(c, s.log, Opened(s.nextConn, None));
    }
    Allows(c, mid, Received(if s.overflow.Some? then s.overflow.value else s.nextConn, from, data));
  }

  lemma {:induction false} RetainAllows(c: Compiled, cfg: Config, s: State, now: nat, order: seq<Addr>)
    ensures AllowedIn(c, Retain(cfg, s, now, order).log) >= AllowedIn(c, s.log)
  {
    hide AllowedIn, AllowedBy;
    if order != [] {
      var s1 := Retain(cfg, s, now, order[..|order| - 1]);
      RetainAllows(c, cfg, s, now, order[..|order| - 1]);
      var a := order[|order| - 1];
      if a in s1.peers {
        Allows(c, s1.log, Closed(s1.peers[a].conn));
      }
    }
  }

  lemma TickAllows(c: Compiled, cfg: Config, s: State, now: nat, order: seq<Addr>)
    ensures AllowedIn(c, Step(cfg, s, Tick(now, order)).log) >= AllowedIn(c, s.log)
  {
    hide AllowedIn, AllowedBy;
    RetainAllows(c, cfg, s, now, order);
    var s1 := Retain(cfg, s, now, order);
    if s1.overflow.Some? {
      Allows(c, s1.log, Closed(s1.overflow.value));
    }
  }

  /** Whatever the profile, a datagram draws at most what it adds to what the run is allowed. */
  lemma DatagramIsAllowed(cfg: Config, s: State, d: Input, c: Compiled)
    requires Inv(cfg, s) && d.Datagram? && cfg.profile == Some(c)
    ensures var s1 := OnDatagram(cfg, s, d);
      SentIn(s1.log) + AllowedIn(c, s.log) <= SentIn(s.log) + AllowedIn(c, s1.log)
  {
    hide SentIn, Inv, Banner, RuleReply, AllowedIn, Answering, Tracking, Overflowing, RulesBound, BannerBound;
    var first := d.from !in s.peers;
    if first && |s.peers| >= cfg.maxPeers {
      OverflowIsSilent(cfg, s, d);
      OverflowAllows(c, s, d.from, d.data);
    } else {
      ResponseIsWithinBounds(c, d.data, first);
      TrackedDatagramCounts(cfg, s, d, c);
      var t := Tracking(s, d.from, d.data, d.now);
      TrackingAllows(c, cfg, s, d.from, d.data, d.now);
      TrackingKeeps(cfg, s, d.from, d.data, d.now);
      AnsweringAllows(c, t, t.peers[d.from].conn, d, first);
    }
  }

  lemma {:induction false} RunStaysAllowed(cfg: Config, s: State, inputs: seq<Input>, end: State, c: Compiled)
    requires Inv(cfg, s) && Runs(cfg, s, inputs, end) && cfg.profile == Some(c)
    ensures SentIn(end.log) + AllowedIn(c, s.log) <= SentIn(s.log) + AllowedIn(c, end.log)
    decreases |inputs|
  {
    hide SentIn, AllowedIn, Inv, OnDatagram;
    if inputs != [] {
      var s1 := Step(cfg, s, inputs[0]);
      StepKeeps(cfg, s, inputs[0]);
      match inputs[0] {
        case Datagram(_, _, _, _, _) => DatagramIsAllowed(cfg, s, inputs[0], c);
        case Tick(now, order) =>
          TickCounts(cfg, s, now, order);
          TickAllows(c, cfg, s, now, order);
        case OthersOpen(_) =>
      }
      RunStaysAllowed(cfg, s1, inputs[1..], end, c);
    }
  }

  /** Under any profile a whole run sends at most, for every tracked datagram, what a rule may answer to its length,
      and for every session what the banner may answer to its first datagram. */
  lemma RunIsBoundedByRequests(cfg: Config, nextConn: nat, inputs: seq<Input>, end: State, c: Compiled)
    requires Runs(cfg, Init(nextConn), inputs, end) && cfg.profile == Some(c)
    ensures SentIn(end.log) <= AllowedIn(c, end.log)
  {
    InitHolds(cfg, nextConn);
    RunStaysAllowed(cfg, Init(nextConn), inputs, end, c);
  }
}
