/** What every run of the UDP listener keeps. */
module UdpSafety {
  import opened Bytes
  import opened Wrappers
  import opened Profile
  import opened Udp

  // ---------------------------------------------------------------- the discipline of the event log

  /** The streams opened so far, and for whom. */
  ghost function Who(log: seq<Event>): map<nat, Option<Addr>> {
    if log == [] then map[]
    else
      var before := Who(log[..|log| - 1]);
      match log[|log| - 1]
      case Opened(c, peer) => before[c := peer]
      case _ => before
  }

  ghost function Gone(log: seq<Event>): set<nat> {
    if log == [] then {}
    else
      var before := Gone(log[..|log| - 1]);
      match log[|log| - 1]
      case Closed(c) => before + {c}
      case _ => before
  }

  ghost predicate Live(log: seq<Event>, c: nat) {
    c in Who(log) && c !in Gone(log)
  }

  /** What may happen next: a stream is opened once; data flows and a close happens only while it is open;
      only the source a stream was opened for is sent anything. */
  ghost predicate Admits(log: seq<Event>, e: Event) {
    match e
    case Opened(c, _) => c !in Who(log)
    case Received(c, from, _) => Live(log, c) && (Who(log)[c] == None || Who(log)[c] == Some(from))
    case Sent(c, to, _) => Live(log, c) && Who(log)[c] == Some(to)
    case SendFailed(c) => Live(log, c)
    case Closed(c) => Live(log, c)
  }

  ghost predicate Disciplined(log: seq<Event>) {
    log == [] || (Disciplined(log[..|log| - 1]) && Admits(log[..|log| - 1], log[|log| - 1]))
  }

  /** Datagrams recorded under a stream. */
  ghost function CountReceived(log: seq<Event>, c: nat): nat {
    if log == [] then 0
    else
      var e := log[|log| - 1];
      CountReceived(log[..|log| - 1], c) + if e.Received? && e.conn == c then 1 else 0
  }

  lemma Appends(log: seq<Event>, e: Event)
    ensures Who(log + [e]) == if e.Opened? then Who(log)[e.conn := e.peer] else Who(log)
    ensures Gone(log + [e]) == if e.Closed? then Gone(log) + {e.conn} else Gone(log)
    ensures Disciplined(log + [e]) <==> Disciplined(log) && Admits(log, e)
    ensures forall c :: CountReceived(log + [e], c) == CountReceived(log, c) + if e.Received? && e.conn == c then 1 else 0
  {
    assert (log + [e])[..|log|] == log;
  }

  lemma {:induction false} NothingBeforeOpen(log: seq<Event>, c: nat)
    requires Disciplined(log) && c !in Who(log)
    ensures CountReceived(log, c) == 0 && c !in Gone(log)
  {
    if log != [] {
      NothingBeforeOpen(log[..|log| - 1], c);
    }
  }

  // ---------------------------------------------------------------- the table and the log

  ghost predicate Tracked(s: State, c: nat) {
    s.overflow == Some(c) || exists a :: a in s.peers && s.peers[a].conn == c
  }

  /** The table is within its cap; the open streams are exactly the table's and the overflow's, each opened for its
      source; the overflow count is the number of datagrams recorded under it. */
  ghost predicate CoreInv(cfg: Config, s: State) {
    && |s.peers| <= cfg.maxPeers
    && Disciplined(s.log)
    && (forall c :: c in Who(s.log) ==> c < s.nextConn)
    && (forall a :: a in s.peers ==> Live(s.log, s.peers[a].conn) && Who(s.log)[s.peers[a].conn] == Some(a))
    && (s.overflow.Some? ==> Live(s.log, s.overflow.value) && Who(s.log)[s.overflow.value] == None)
    && (forall c :: Live(s.log, c) ==> Tracked(s, c))
    && s.overflowCount == if s.overflow.Some? then CountReceived(s.log, s.overflow.value) else 0
  }

  /** Between events an open overflow stream also means a full table and at least one datagram. */
  ghost predicate Inv(cfg: Config, s: State) {
    && CoreInv(cfg, s)
    && (s.overflow.Some? ==> |s.peers| == cfg.maxPeers && s.overflowCount > 0)
  }

  lemma OverflowingKeeps(cfg: Config, s: State, from: Addr, data: seq<byte>)
    requires Inv(cfg, s) && from !in s.peers && |s.peers| >= cfg.maxPeers
    ensures Inv(cfg, Overflowing(s, from, data))
  {
    hide Who, Gone, CountReceived, Disciplined;
    var s1 := s;
    if s.overflow == None {
      s1 := Logged(s.(overflow := Some(s.nextConn), nextConn := s.nextConn + 1), Opened(s.nextConn, None));
      NothingBeforeOpen(s.log, s.nextConn);
      Appends(s.log, Opened(s.nextConn, None));
      assert forall c :: Tracked(s, c) ==> Tracked(s1, c);
    }
    Appends(s1.log, Received(s1.overflow.value, from, data));
    var s2 := Overflowing(s, from, data);
    assert forall c :: Tracked(s1, c) ==> Tracked(s2, c);
  }

  lemma NewPeerKeeps(cfg: Config, s: State, from: Addr, now: nat)
    requires Inv(cfg, s) && from !in s.peers && |s.peers| < cfg.maxPeers
    ensures Inv(cfg, Logged(s.(peers := s.peers[from := Peer(s.nextConn, now)], nextConn := s.nextConn + 1),
                            Opened(s.nextConn, Some(from))))
  {
    hide Who, Gone, CountReceived, Disciplined;
    var s1 := Logged(s.(peers := s.peers[from := Peer(s.nextConn, now)], nextConn := s.nextConn + 1),
                     Opened(s.nextConn, Some(from)));
    NothingBeforeOpen(s.log, s.nextConn);
    Appends(s.log, Opened(s.nextConn, Some(from)));
    assert s1.peers[from].conn == s.nextConn;
    forall c: nat | Live(s1.log, c)
      ensures Tracked(s1, c)
    {
      if c != s.nextConn {
        assert Tracked(s, c);
        if s.overflow != Some(c) {
          var a :| a in s.peers && s.peers[a].conn == c;
          assert s1.peers[a].conn == c;
        }
      }
    }
  }

  lemma SeenKeeps(cfg: Config, s: State, from: Addr, now: nat)
    requires Inv(cfg, s) && from in s.peers
    ensures Inv(cfg, s.(peers := s.peers[from := s.peers[from].(lastSeen := now)]))
  {
    hide Who, Gone, CountReceived, Disciplined;
    var s1 := s.(peers := s.peers[from := s.peers[from].(lastSeen := now)]);
    assert s1.peers.Keys == s.peers.Keys;
    forall c: nat | Live(s1.log, c)
      ensures Tracked(s1, c)
    {
      assert Tracked(s, c);
      if s.overflow != Some(c) {
        var a :| a in s.peers && s.peers[a].conn == c;
        assert s1.peers[a].conn == c;
      }
    }
  }

  /** Data of a tracked source, either way, and a failed send. */
  lemma PeerEventKeeps(cfg: Config, s: State, from: Addr, e: Event)
    requires Inv(cfg, s) && from in s.peers
    requires var c := s.peers[from].conn;
      (e.Received? && e.conn == c && e.from == from) || (e.Sent? && e.conn == c && e.to == from) || e == SendFailed(c)
    ensures Inv(cfg, Logged(s, e))
  {
    hide Who, Gone, CountReceived, Disciplined;
    Appends(s.log, e);
    assert forall c :: Tracked(s, c) ==> Tracked(Logged(s, e), c);
  }

  lemma ReplyingKeeps(cfg: Config, s: State, from: Addr, a: Action, received: seq<byte>, sent: bool)
    requires Inv(cfg, s) && from in s.peers
    ensures var s1 := Replying(s, s.peers[from].conn, from, a, received, sent);
      Inv(cfg, s1) && s1.peers == s.peers
  {
    hide Inv, Payload;
    var payload := Payload(a, received);
    if payload != [] {
      PeerEventKeeps(cfg, s, from, if sent then Sent(s.peers[from].conn, from, payload) else SendFailed(s.peers[from].conn));
    }
  }

  lemma TrackingKeeps(cfg: Config, s: State, from: Addr, data: seq<byte>, now: nat)
    requires Inv(cfg, s) && (from in s.peers || |s.peers| < cfg.maxPeers)
    ensures var s1 := Tracking(s, from, data, now); Inv(cfg, s1) && from in s1.peers
  {
    hide Inv;
    if from in s.peers {
      SeenKeeps(cfg, s, from, now);
      PeerEventKeeps(cfg, s.(peers := s.peers[from := s.peers[from].(lastSeen := now)]), from,
                     Received(s.peers[from].conn, from, data));
    } else {
      NewPeerKeeps(cfg, s, from, now);
      PeerEventKeeps(cfg, Logged(s.(peers := s.peers[from := Peer(s.nextConn, now)], nextConn := s.nextConn + 1),
                                 Opened(s.nextConn, Some(from))), from, Received(s.nextConn, from, data));
    }
  }

  lemma DatagramKeeps(cfg: Config, s: State, d: Input)
    requires Inv(cfg, s) && d.Datagram?
    ensures Inv(cfg, OnDatagram(cfg, s, d))
  {
    hide Inv, Tracking, Overflowing, Replying, Eval;
    var known := d.from in s.peers;
    if !known && |s.peers| >= cfg.maxPeers {
      OverflowingKeeps(cfg, s, d.from, d.data);
    } else {
      TrackingKeeps(cfg, s, d.from, d.data, d.now);
      if cfg.profile.Some? {
        var c, s1 := cfg.profile.value, Tracking(s, d.from, d.data, d.now);
        var conn := s1.peers[d.from].conn;
        if !known && c.onConnect.Some? {
          ReplyingKeeps(cfg, s1, d.from, c.onConnect.value, d.data, d.bannerSent);
          s1 := Replying(s1, conn, d.from, c.onConnect.value, d.data, d.bannerSent);
        }
        if Eval(c.rules, d.data, !known).Some? {
          ReplyingKeeps(cfg, s1, d.from, Eval(c.rules, d.data, !known).value.action, d.data, d.ruleSent);
        }
      }
    }
  }

  lemma RetireKeeps(cfg: Config, s: State, a: Addr)
    requires CoreInv(cfg, s) && a in s.peers
    ensures CoreInv(cfg, Logged(s.(peers := s.peers - {a}), Closed(s.peers[a].conn)))
  {
    hide Who, Gone, CountReceived, Disciplined;
    var c := s.peers[a].conn;
    var s1 := Logged(s.(peers := s.peers - {a}), Closed(c));
    Appends(s.log, Closed(c));
    assert |s1.peers| <= |s.peers| by {
      assert s1.peers.Keys == s.peers.Keys - {a};
    }
    assert Who(s.log)[c] == Some(a);
    forall d: nat | Live(s1.log, d)
      ensures Tracked(s1, d)
    {
      assert Tracked(s, d) && d != c;
      if s.overflow != Some(d) {
        var b :| b in s.peers && s.peers[b].conn == d;
        assert b in s1.peers && s1.peers[b].conn == d;
      }
    }
  }

  lemma {:induction false} RetainKeeps(cfg: Config, s: State, now: nat, order: seq<Addr>)
    requires CoreInv(cfg, s)
    ensures var s1 := Retain(cfg, s, now, order);
      && CoreInv(cfg, s1) && s1.overflow == s.overflow && s1.overflowCount == s.overflowCount
      && (forall a :: a in s1.peers ==> a in s.peers && s1.peers[a] == s.peers[a])
      && (forall a :: a in s1.peers && a in order ==> Stays(cfg, now, s.peers[a]))
      && (forall a :: a in s.peers && Stays(cfg, now, s.peers[a]) ==> a in s1.peers)
  {
    hide CoreInv;
    if order != [] {
      var before := order[..|order| - 1];
      RetainKeeps(cfg, s, now, before);
      var s1 := Retain(cfg, s, now, before);
      var a := order[|order| - 1];
      assert order == before + [a];
      if a in s1.peers && !Stays(cfg, now, s1.peers[a]) {
        RetireKeeps(cfg, s1, a);
      }
    }
  }

  lemma CloseOverflowKeeps(cfg: Config, s: State)
    requires CoreInv(cfg, s) && (s.overflow.Some? ==> s.overflowCount > 0)
    ensures Inv(cfg, CloseOverflow(cfg, s))
  {
    hide Who, Gone, CountReceived, Disciplined;
    if |s.peers| < cfg.maxPeers && s.overflow.Some? {
      var s1 := CloseOverflow(cfg, s);
      Appends(s.log, Closed(s.overflow.value));
      forall d: nat | Live(s1.log, d)
        ensures Tracked(s1, d)
      {
        assert Tracked(s, d) && s.overflow != Some(d);
      }
    }
  }

  /** A peer stays while it was heard from less than idle_secs ago; a zero idle time keeps no one, and one that
      overflows the clock keeps all but a peer silent for the clock's whole range. */
  lemma StaysMeans(cfg: Config, now: nat, p: Peer)
    requires now <= U64_MAX
    ensures cfg.idleSecs == 0 ==> !Stays(cfg, now, p)
    ensures 0 < cfg.idleSecs * 1000 <= U64_MAX ==> (Stays(cfg, now, p) <==> now < p.lastSeen + cfg.idleSecs * 1000)
    ensures cfg.idleSecs * 1000 > U64_MAX ==> (Stays(cfg, now, p) <==> now < U64_MAX || p.lastSeen > 0)
  {
  }

  /** After a sweep the survivors are exactly the peers heard from within the cutoff. */
  lemma SweepKeeps(cfg: Config, s: State, now: nat, order: seq<Addr>)
    requires Inv(cfg, s) && Legal(s, Tick(now, order))
    ensures var s1 := Step(cfg, s, Tick(now, order));
      && Inv(cfg, s1)
      && (forall a :: a in s1.peers <==> a in s.peers && Stays(cfg, now, s.peers[a]))
      && (forall a :: a in s1.peers ==> s1.peers[a] == s.peers[a])
  {
    hide CoreInv;
    RetainKeeps(cfg, s, now, order);
    CloseOverflowKeeps(cfg, Retain(cfg, s, now, order));
  }

  lemma StepKeeps(cfg: Config, s: State, i: Input)
    requires Inv(cfg, s) && Legal(s, i)
    ensures Inv(cfg, Step(cfg, s, i))
  {
    match i
    case Datagram(_, _, _, _, _) => DatagramKeeps(cfg, s, i);
    case Tick(now, order) => SweepKeeps(cfg, s, now, order);
    case OthersOpen(_) =>
      assert forall c :: Tracked(s, c) ==> Tracked(Step(cfg, s, i), c);
  }

  lemma InitHolds(cfg: Config, nextConn: nat)
    ensures Inv(cfg, Init(nextConn))
  {
  }

  /** Every run keeps the table within its cap, the streams distinct and the log disciplined. */
  lemma {:induction false} RunKeeps(cfg: Config, s: State, inputs: seq<Input>, end: State)
    requires Inv(cfg, s) && Runs(cfg, s, inputs, end)
    ensures Inv(cfg, end)
    decreases |inputs|
  {
    hide Inv, Step;
    if inputs != [] {
      StepKeeps(cfg, s, inputs[0]);
      RunKeeps(cfg, Step(cfg, s, inputs[0]), inputs[1..], end);
    }
  }

  // ---------------------------------------------------------------- what the discipline means, event by event

  /** An opened stream was never opened before; any other event's stream was opened before it and not closed since,
      what is sent goes to the source the stream was opened for, and what is received comes from it, unless the stream was
      opened for no one in particular. */
  lemma {:induction false} DisciplineMeans(log: seq<Event>, i: nat)
    requires Disciplined(log) && i < |log|
    ensures log[i].Opened? ==> forall j :: 0 <= j < i && log[j].Opened? ==> log[j].conn != log[i].conn
    ensures !log[i].Opened? ==>
      && (exists j :: 0 <= j < i && log[j].Opened? && log[j].conn == log[i].conn)
      && (forall j :: 0 <= j < i ==> log[j] != Closed(log[i].conn))
    ensures log[i].Sent? ==> exists j :: 0 <= j < i && log[j] == Opened(log[i].conn, Some(log[i].to))
    ensures log[i].Received? ==> exists j :: 0 <= j < i && OpenedFor(log[j], log[i])
    decreases |log|
  {
    var before := log[..|log| - 1];
    if i < |log| - 1 {
      DisciplineMeans(before, i);
      assert before[i] == log[i] && forall j :: 0 <= j < i ==> before[j] == log[j];
      if !log[i].Opened? {
        var j :| 0 <= j < i && before[j].Opened? && before[j].conn == log[i].conn;
        assert log[j].Opened?;
      }
      if log[i].Sent? {
        var j :| 0 <= j < i && before[j] == Opened(log[i].conn, Some(log[i].to));
        assert log[j] == before[j];
      }
      if log[i].Received? {
        var j :| 0 <= j < i && OpenedFor(before[j], before[i]);
        assert OpenedFor(log[j], log[i]);
      }
    } else {
      WhoMeans(before, log[i].conn);
      assert forall j :: 0 <= j < i ==> before[j] == log[j];
      if !log[i].Opened? {
        var j :| 0 <= j < i && before[j] == Opened(log[i].conn, Who(before)[log[i].conn]);
        assert log[j].Opened? && log[j] == before[j];
        assert log[i].Received? ==> OpenedFor(log[j], log[i]);
      }
    }
  }

  /** A datagram was received on a stream opened for its source, or for no one in particular: the overflow stream. */
  ghost predicate OpenedFor(open: Event, e: Event) {
    e.Received? && (open == Opened(e.conn, Some(e.from)) || open == Opened(e.conn, None))
  }

  lemma {:induction false} WhoMeans(log: seq<Event>, c: nat)
    ensures c in Who(log) ==> exists j :: 0 <= j < |log| && log[j] == Opened(c, Who(log)[c])
    ensures c !in Who(log) ==> forall j :: 0 <= j < |log| ==> !(log[j].Opened? && log[j].conn == c)
    ensures c !in Gone(log) ==> forall j :: 0 <= j < |log| ==> log[j] != Closed(c)
  {
    if log != [] {
      var before := log[..|log| - 1];
      WhoMeans(before, c);
      var last := |log| - 1;
      if c in Who(log) {
        if log[last].Opened? && log[last].conn == c {
          assert log[last] == Opened(c, Who(log)[c]);
        } else {
          var j :| 0 <= j < |before| && before[j] == Opened(c, Who(before)[c]);
          assert log[j] == before[j];
        }
      }
      assert forall j :: 0 <= j < last ==> log[j] == before[j];
    }
  }

  /** The whole-run form: streams open once and close at most once, and every other event falls between. */
  lemma LogIsDisciplined(cfg: Config, nextConn: nat, inputs: seq<Input>, end: State, i: nat)
    requires Runs(cfg, Init(nextConn), inputs, end) && i < |end.log|
    ensures end.log[i].Opened? ==> forall j :: 0 <= j < i && end.log[j].Opened? ==> end.log[j].conn != end.log[i].conn
    ensures !end.log[i].Opened? ==>
      && (exists j :: 0 <= j < i && end.log[j].Opened? && end.log[j].conn == end.log[i].conn)
      && (forall j :: 0 <= j < i ==> end.log[j] != Closed(end.log[i].conn))
    ensures end.log[i].Sent? ==> exists j :: 0 <= j < i && end.log[j] == Opened(end.log[i].conn, Some(end.log[i].to))
    ensures end.log[i].Received? ==> exists j :: 0 <= j < i && OpenedFor(end.log[j], end.log[i])
  {
    InitHolds(cfg, nextConn);
    RunKeeps(cfg, Init(nextConn), inputs, end);
    DisciplineMeans(end.log, i);
  }

  /** The table after any run: within its cap, its streams pairwise distinct, the overflow's among none of them;
      the overflow stream is open only while the table is full, and its count is the datagrams recorded under it. */
  lemma TableIsSound(cfg: Config, nextConn: nat, inputs: seq<Input>, end: State)
    requires Runs(cfg, Init(nextConn), inputs, end)
    ensures |end.peers| <= cfg.maxPeers
    ensures forall a, b :: a in end.peers && b in end.peers && a != b ==> end.peers[a].conn != end.peers[b].conn
    ensures end.overflow.Some? ==>
      && (forall a :: a in end.peers ==> end.peers[a].conn != end.overflow.value)
      && |end.peers| == cfg.maxPeers
      && end.overflowCount == CountReceived(end.log, end.overflow.value)
    ensures end.overflowCount == 0 <==> end.overflow == None
  {
    InitHolds(cfg, nextConn);
    RunKeeps(cfg, Init(nextConn), inputs, end);
    assert forall a :: a in end.peers ==> Who(end.log)[end.peers[a].conn] == Some(a);
  }

  // ---------------------------------------------------------------- every datagram is recorded, byte for byte

  ghost function ReceivedIn(log: seq<Event>): seq<(Addr, seq<byte>)> {
    if log == [] then []
    else
      var e := log[|log| - 1];
      ReceivedIn(log[..|log| - 1]) + if e.Received? then [(e.from, e.data)] else []
  }

  ghost function DatagramsIn(inputs: seq<Input>): seq<(Addr, seq<byte>)> {
    if inputs == [] then []
    else (if inputs[0].Datagram? then [(inputs[0].from, inputs[0].data)] else []) + DatagramsIn(inputs[1..])
  }

  lemma ReceivedAppends(log: seq<Event>, e: Event)
    ensures ReceivedIn(log + [e]) == ReceivedIn(log) + if e.Received? then [(e.from, e.data)] else []
  {
    assert (log + [e])[..|log|] == log;
  }

  lemma ReplyingReceivesNothing(s: State, conn: nat, to: Addr, a: Action, received: seq<byte>, sent: bool)
    ensures ReceivedIn(Replying(s, conn, to, a, received, sent).log) == ReceivedIn(s.log)
  {
    hide Payload, ReceivedIn;
    var payload := Payload(a, received);
    ReceivedAppends(s.log, Sent(conn, to, payload));
    ReceivedAppends(s.log, SendFailed(conn));
  }

  lemma DatagramRecorded(cfg: Config, s: State, d: Input)
    requires d.Datagram?
    ensures ReceivedIn(OnDatagram(cfg, s, d).log) == ReceivedIn(s.log) + [(d.from, d.data)]
  {
    hide ReceivedIn, Replying, Eval;
    var known := d.from in s.peers;
    if !known {
      ReceivedAppends(s.log, Opened(s.nextConn, None));
      ReceivedAppends(s.log, Opened(s.nextConn, Some(d.from)));
    }
    if !known && |s.peers| >= cfg.maxPeers {
      var s1 := if s.overflow.Some? then s.log else s.log + [Opened(s.nextConn, None)];
      ReceivedAppends(s1, Received(Overflowing(s, d.from, d.data).overflow.value, d.from, d.data));
    } else {
      var s1 := if known then s.log else s.log + [Opened(s.nextConn, Some(d.from))];
      var t := Tracking(s, d.from, d.data, d.now);
      var conn := t.peers[d.from].conn;
      ReceivedAppends(s1, Received(conn, d.from, d.data));
      if cfg.profile.Some? {
        var c := cfg.profile.value;
        if !known && c.onConnect.Some? {
          ReplyingReceivesNothing(t, conn, d.from, c.onConnect.value, d.data, d.bannerSent);
          t := Replying(t, conn, d.from, c.onConnect.value, d.data, d.bannerSent);
        }
        if Eval(c.rules, d.data, !known).Some? {
          ReplyingReceivesNothing(t, conn, d.from, Eval(c.rules, d.data, !known).value.action, d.data, d.ruleSent);
        }
      }
    }
  }

  lemma {:induction false} RetainReceivesNothing(cfg: Config, s: State, now: nat, order: seq<Addr>)
    ensures ReceivedIn(Retain(cfg, s, now, order).log) == ReceivedIn(s.log)
  {
    hide ReceivedIn;
    if order != [] {
      var s1 := Retain(cfg, s, now, order[..|order| - 1]);
      RetainReceivesNothing(cfg, s, now, order[..|order| - 1]);
      var a := order[|order| - 1];
      if a in s1.peers {
        ReceivedAppends(s1.log, Closed(s1.peers[a].conn));
      }
    }
  }

  lemma StepRecords(cfg: Config, s: State, i: Input)
    ensures ReceivedIn(Step(cfg, s, i).log) == ReceivedIn(s.log) + if i.Datagram? then [(i.from, i.data)] else []
  {
    hide ReceivedIn, OnDatagram;
    match i
    case Datagram(_, _, _, _, _) => DatagramRecorded(cfg, s, i);
    case Tick(now, order) =>
      RetainReceivesNothing(cfg, s, now, order);
      var s1 := Retain(cfg, s, now, order);
      if s1.overflow.Some? {
        ReceivedAppends(s1.log, Closed(s1.overflow.value));
      }
    case OthersOpen(_) =>
  }

  /** In every run the datagrams recorded are exactly the datagrams received: each once, in order, with its source and bytes. */
  lemma {:induction false} EveryDatagramRecorded(cfg: Config, s: State, inputs: seq<Input>, end: State)
    requires Runs(cfg, s, inputs, end)
    ensures ReceivedIn(end.log) == ReceivedIn(s.log) + DatagramsIn(inputs)
    decreases |inputs|
  {
    hide Step, ReceivedIn;
    if inputs == [] {
      assert ReceivedIn(s.log) + [] == ReceivedIn(s.log);
    } else {
      StepRecords(cfg, s, inputs[0]);
      EveryDatagramRecorded(cfg, Step(cfg, s, inputs[0]), inputs[1..], end);
      var d := if inputs[0].Datagram? then [(inputs[0].from, inputs[0].data)] else [];
      assert (ReceivedIn(s.log) + d) + DatagramsIn(inputs[1..]) == ReceivedIn(s.log) + (d + DatagramsIn(inputs[1..]));
    }
  }
}

/** How much a run of the UDP listener sends back. */
module UdpReflection {
  import opened Bytes
  import opened Wrappers
  import opened Profile
  import opened ProfileBounds
  import opened Udp
  import opened UdpSafety

  /** Bytes sent. */
  ghost function SentIn(log: seq<Event>): nat {
    if log == [] then 0
    else
      var e := log[|log| - 1];
      SentIn(log[..|log| - 1]) + if e.Sent? then |e.data| else 0
  }

  /** Sessions opened for a source. */
  ghost function Sessions(log: seq<Event>): nat {
    if log == [] then 0
    else
      var e := log[|log| - 1];
      Sessions(log[..|log| - 1]) + if e.Opened? && e.peer.Some? then 1 else 0
  }

  /** Datagrams recorded under a stream that was opened for a source. */
  ghost function TrackedDatagrams(log: seq<Event>): nat {
    if log == [] then 0
    else
      var before, e := log[..|log| - 1], log[|log| - 1];
      TrackedDatagrams(before) + if e.Received? && IsSession(before, e.conn) then 1 else 0
  }

  ghost predicate IsSession(log: seq<Event>, c: nat) {
    c in Who(log) && Who(log)[c].Some?
  }

  lemma Counts(log: seq<Event>, e: Event)
    ensures SentIn(log + [e]) == SentIn(log) + if e.Sent? then |e.data| else 0
    ensures Sessions(log + [e]) == Sessions(log) + if e.Opened? && e.peer.Some? then 1 else 0
    ensures TrackedDatagrams(log + [e]) == TrackedDatagrams(log) + if e.Received? && IsSession(log, e.conn) then 1 else 0
  {
    assert (log + [e])[..|log|] == log;
  }

  lemma ReplyCounts(s: State, conn: nat, to: Addr, a: Action, received: seq<byte>, sent: bool)
    ensures var s1 := Replying(s, conn, to, a, received, sent);
      && SentIn(s.log) <= SentIn(s1.log) <= SentIn(s.log) + |Payload(a, received)|
      && Sessions(s1.log) == Sessions(s.log) && TrackedDatagrams(s1.log) == TrackedDatagrams(s.log)
  {
    hide Payload, SentIn, Sessions, TrackedDatagrams;
    var payload := Payload(a, received);
    Counts(s.log, Sent(conn, to, payload));
    Counts(s.log, SendFailed(conn));
  }

  /** A datagram handled by overflow draws nothing: only the stream's opening, if it is new, and the datagram are logged. */
  lemma OverflowIsSilent(cfg: Config, s: State, d: Input)
    requires Inv(cfg, s) && d.Datagram? && d.from !in s.peers && |s.peers| >= cfg.maxPeers
    ensures var s1 := OnDatagram(cfg, s, d);
      && s1.peers == s.peers && s1.overflow.Some?
      && s1.log == s.log + (if s.overflow == None then [Opened(s.nextConn, None)] else [])
                         + [Received(s1.overflow.value, d.from, d.data)]
      && SentIn(s1.log) == SentIn(s.log) && Sessions(s1.log) == Sessions(s.log)
      && TrackedDatagrams(s1.log) == TrackedDatagrams(s.log)
  {
    hide SentIn, Sessions, TrackedDatagrams, Who, Gone, CountReceived, Disciplined;
    var mid := s.log;
    if s.overflow == None {
      mid := s.log + [Opened(s.nextConn, None)];
      Counts(s.log, Opened(s.nextConn, None));
      Appends(s.log, Opened(s.nextConn, None));
    } else {
      assert s.log + [] == s.log;
    }
    Counts(mid, Received(OnDatagram(cfg, s, d).overflow.value, d.from, d.data));
  }

  lemma TrackingCounts(cfg: Config, s: State, from: Addr, data: seq<byte>, now: nat)
    requires Inv(cfg, s) && (from in s.peers || |s.peers| < cfg.maxPeers)
    ensures var s1 := Tracking(s, from, data, now);
      && SentIn(s1.log) == SentIn(s.log)
      && Sessions(s1.log) == Sessions(s.log) + (if from in s.peers then 0 else 1)
      && TrackedDatagrams(s1.log) == TrackedDatagrams(s.log) + 1
  {
    hide SentIn, Sessions, TrackedDatagrams, Who, Gone, CountReceived, Disciplined;
    var mid := s.log;
    if from !in s.peers {
      mid := s.log + [Opened(s.nextConn, Some(from))];
      Counts(s.log, Opened(s.nextConn, Some(from)));
      Appends(s.log, Opened(s.nextConn, Some(from)));
    }
    Counts(mid, Received(Tracking(s, from, data, now).peers[from].conn, from, data));
  }

  /** A tracked datagram draws at most the banner, if its source is new, and one rule's reply. */
  lemma TrackedDatagramCounts(cfg: Config, s: State, d: Input, c: Compiled)
    requires Inv(cfg, s) && d.Datagram? && (d.from in s.peers || |s.peers| < cfg.maxPeers)
    requires cfg.profile == Some(c)
    ensures var s1 := OnDatagram(cfg, s, d); var first := d.from !in s.peers;
      && SentIn(s.log) <= SentIn(s1.log) <= SentIn(s.log) + |Banner(c, d.data, first)| + |RuleReply(c, d.data, first)|
      && Sessions(s1.log) == Sessions(s.log) + (if first then 1 else 0)
      && TrackedDatagrams(s1.log) == TrackedDatagrams(s.log) + 1
  {
    hide SentIn, Sessions, TrackedDatagrams, Inv, Tracking, Replying, Eval, Payload;
    TrackingCounts(cfg, s, d.from, d.data, d.now);
    TrackingKeeps(cfg, s, d.from, d.data, d.now);
    var first, t := d.from !in s.peers, Tracking(s, d.from, d.data, d.now);
    var conn := t.peers[d.from].conn;
    if first && c.onConnect.Some? {
      ReplyCounts(t, conn, d.from, c.onConnect.value, d.data, d.bannerSent);
      t := Replying(t, conn, d.from, c.onConnect.value, d.data, d.bannerSent);
    }
    if Eval(c.rules, d.data, first).Some? {
      ReplyCounts(t, conn, d.from, Eval(c.rules, d.data, first).value.action, d.data, d.ruleSent);
    }
  }

  lemma {:induction false} RetainCounts(cfg: Config, s: State, now: nat, order: seq<Addr>)
    ensures var s1 := Retain(cfg, s, now, order);
      && SentIn(s1.log) == SentIn(s.log) && Sessions(s1.log) == Sessions(s.log)
      && TrackedDatagrams(s1.log) == TrackedDatagrams(s.log)
  {
    hide SentIn, Sessions, TrackedDatagrams;
    if order != [] {
      var s1 := Retain(cfg, s, now, order[..|order| - 1]);
      RetainCounts(cfg, s, now, order[..|order| - 1]);
      var a := order[|order| - 1];
      if a in s1.peers {
        Counts(s1.log, Closed(s1.peers[a].conn));
      }
    }
  }

  lemma TickCounts(cfg: Config, s: State, now: nat, order: seq<Addr>)
    ensures var s1 := Step(cfg, s, Tick(now, order));
      && SentIn(s1.log) == SentIn(s.log) && Sessions(s1.log) == Sessions(s.log)
      && TrackedDatagrams(s1.log) == TrackedDatagrams(s.log)
  {
    hide SentIn, Sessions, TrackedDatagrams;
    RetainCounts(cfg, s, now, order);
    var s1 := Retain(cfg, s, now, order);
    if s1.overflow.Some? {
      Counts(s1.log, Closed(s1.overflow.value));
    }
  }

  /** What a run may send: the banner for every session opened, the longest rule payload for every tracked datagram. */
  ghost function Allowed(c: Compiled, log: seq<Event>): nat {
    BannerLength(c) * Sessions(log) + LongestPayload(c.rules) * TrackedDatagrams(log)
  }

  lemma OneMore(x: nat, n: nat)
    ensures x * (n + 1) == x * n + x
  {
  }

  /** When max_response_bytes gives a number, no single datagram draws more than that, nor more than it adds to what
      the run is allowed. */
  lemma DatagramIsBounded(cfg: Config, s: State, d: Input, c: Compiled)
    requires Inv(cfg, s) && d.Datagram? && cfg.profile == Some(c) && MaxResponseBytes(c).Some?
    ensures var s1 := OnDatagram(cfg, s, d);
      && SentIn(s1.log) <= SentIn(s.log) + MaxResponseBytes(c).value
      && SentIn(s1.log) + Allowed(c, s.log) <= SentIn(s.log) + Allowed(c, s1.log)
  {
    hide SentIn, Sessions, TrackedDatagrams, Inv, Banner, RuleReply, OnDatagram;
    var first := d.from !in s.peers;
    ResponseIsBounded(c, d.data, first);
    OneMore(BannerLength(c), Sessions(s.log));
    OneMore(LongestPayload(c.rules), TrackedDatagrams(s.log));
    if first && |s.peers| >= cfg.maxPeers {
      OverflowIsSilent(cfg, s, d);
    } else {
      TrackedDatagramCounts(cfg, s, d, c);
    }
  }

  lemma StepIsBounded(cfg: Config, s: State, i: Input, c: Compiled)
    requires Inv(cfg, s) && cfg.profile == Some(c) && MaxResponseBytes(c).Some?
    ensures SentIn(Step(cfg, s, i).log) + Allowed(c, s.log) <= SentIn(s.log) + Allowed(c, Step(cfg, s, i).log)
  {
    hide SentIn, Sessions, TrackedDatagrams, Inv, OnDatagram, MaxResponseBytes;
    match i
    case Datagram(_, _, _, _, _) => DatagramIsBounded(cfg, s, i, c);
    case Tick(now, order) => TickCounts(cfg, s, now, order);
    case OthersOpen(_) =>
  }

  lemma {:induction false} RunStaysBounded(cfg: Config, s: State, inputs: seq<Input>, end: State, c: Compiled)
    requires Inv(cfg, s) && Runs(cfg, s, inputs, end)
    requires cfg.profile == Some(c) && MaxResponseBytes(c).Some?
    ensures SentIn(end.log) + Allowed(c, s.log) <= SentIn(s.log) + Allowed(c, end.log)
    decreases |inputs|
  {
    hide SentIn, Allowed, Inv, Step, MaxResponseBytes;
    if inputs != [] {
      StepKeeps(cfg, s, inputs[0]);
      StepIsBounded(cfg, s, inputs[0], c);
      RunStaysBounded(cfg, Step(cfg, s, inputs[0]), inputs[1..], end, c);
    }
  }

  /** A whole run sends at most the banner for every session opened and the longest payload for every tracked datagram. */
  lemma RunIsBounded(cfg: Config, nextConn: nat, inputs: seq<Input>, end: State, c: Compiled)
    requires Runs(cfg, Init(nextConn), inputs, end)
    requires cfg.profile == Some(c) && MaxResponseBytes(c).Some?
    ensures SentIn(end.log) <= BannerLength(c) * Sessions(end.log) + LongestPayload(c.rules) * TrackedDatagrams(end.log)
  {
    InitHolds(cfg, nextConn);
    RunStaysBounded(cfg, Init(nextConn), inputs, end, c);
  }

  /** With no profile, or one that does not respond, a run sends nothing at all. */
  lemma {:induction false} SilentRunSendsNothing(cfg: Config, s: State, inputs: seq<Input>, end: State)
    requires Inv(cfg, s) && Runs(cfg, s, inputs, end)
    requires cfg.profile.Some? ==> !Responds(cfg.profile.value)
    ensures SentIn(end.log) == SentIn(s.log)
    decreases |inputs|
  {
    hide SentIn, Inv, OnDatagram, Responds;
    if inputs != [] {
      var s1 := Step(cfg, s, inputs[0]);
      StepKeeps(cfg, s, inputs[0]);
      match inputs[0] {
        case Datagram(_, _, _, _, _) => SilentDatagram(cfg, s, inputs[0]);
        case Tick(now, order) => TickCounts(cfg, s, now, order);
        case OthersOpen(_) =>
      }
      SilentRunSendsNothing(cfg, s1, inputs[1..], end);
    }
  }

  lemma SilentDatagram(cfg: Config, s: State, d: Input)
    requires Inv(cfg, s) && d.Datagram? && (cfg.profile.Some? ==> !Responds(cfg.profile.value))
    ensures SentIn(OnDatagram(cfg, s, d).log) == SentIn(s.log)
  {
    hide SentIn, Inv, Banner, RuleReply, Responds;
    var first := d.from !in s.peers;
    if first && |s.peers| >= cfg.maxPeers {
      OverflowIsSilent(cfg, s, d);
    } else if cfg.profile == None {
      TrackingCounts(cfg, s, d.from, d.data, d.now);
    } else {
      ResponseIsBounded(cfg.profile.value, d.data, first);
      TrackedDatagramCounts(cfg, s, d, cfg.profile.value);
    }
  }
}
