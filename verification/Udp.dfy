/** The UDP listener: one synthetic connection per source, a capped table, and an overflow stream past the cap. */
module Udp {
  import opened Bytes
  import opened Wrappers
  import opened Profile
  import opened ProfileBounds

  /** A socket address. */
  type Addr = nat

  datatype Peer = Peer(conn: nat, lastSeen: nat)

  datatype Config = Config(maxPeers: nat, idleSecs: nat, profile: Option<Compiled>)

  /** What the listener reports, in order. A stream opened for no one in particular is the overflow stream. */
  datatype Event =
    | Opened(conn: nat, peer: Option<Addr>)
    | Received(conn: nat, from: Addr, data: seq<byte>)
    | Sent(conn: nat, to: Addr, data: seq<byte>)
    | SendFailed(conn: nat)
    | Closed(conn: nat)

  datatype State = State(
    peers: map<Addr, Peer>,
    overflow: Option<nat>,
    overflowCount: nat,
    nextConn: nat,
    log: seq<Event>)

  /** A datagram, with whether each send it causes succeeds; a sweep, with the table's iteration order; connection
      ids taken by other listeners. */
  datatype Input =
    | Datagram(from: Addr, data: seq<byte>, now: nat, bannerSent: bool, ruleSent: bool)
    | Tick(now: nat, order: seq<Addr>)
    | OthersOpen(count: nat)

  const U64_MAX: nat := 0xffff_ffff_ffff_ffff

  function Init(nextConn: nat): State {
    State(map[], None, 0, nextConn, [])
  }

  function Logged(s: State, e: Event): State {
    s.(log := s.log + [e])
  }

  /** One reply: nothing for an empty payload, otherwise a send that succeeds or not. */
  function Replying(s: State, conn: nat, to: Addr, a: Action, received: seq<byte>, sent: bool): State {
    var payload := Payload(a, received);
    if payload == [] then s
    else Logged(s, if sent then Sent(conn, to, payload) else SendFailed(conn))
  }

  /** A datagram from a new source when the table is full. */
  function Overflowing(s: State, from: Addr, data: seq<byte>): State {
    var s1 := if s.overflow.Some? then s
              else Logged(s.(overflow := Some(s.nextConn), nextConn := s.nextConn + 1), Opened(s.nextConn, None));
    Logged(s1.(overflowCount := s1.overflowCount + 1), Received(s1.overflow.value, from, data))
  }

  /** A tracked source's datagram is recorded; a new source first gets a connection. */
  function Tracking(s: State, from: Addr, data: seq<byte>, now: nat): State {
    var s1 := if from in s.peers then s.(peers := s.peers[from := s.peers[from].(lastSeen := now)])
              else Logged(s.(peers := s.peers[from := Peer(s.nextConn, now)], nextConn := s.nextConn + 1),
                          Opened(s.nextConn, Some(from)));
    Logged(s1, Received(s1.peers[from].conn, from, data))
  }

  function Answering(c: Compiled, s: State, conn: nat, d: Input, first: bool): State
    requires d.Datagram?
  {
    var s1 := if first && c.onConnect.Some? then Replying(s, conn, d.from, c.onConnect.value, d.data, d.bannerSent) else s;
    match Eval(c.rules, d.data, first)
    case None => s1
    case Some(rule) => Replying(s1, conn, d.from, rule.action, d.data, d.ruleSent)
  }

  function OnDatagram(cfg: Config, s: State, d: Input): State
    requires d.Datagram?
  {
    var known := d.from in s.peers;
    if !known && |s.peers| >= cfg.maxPeers then Overflowing(s, d.from, d.data)
    else
      var s1 := Tracking(s, d.from, d.data, d.now);
      if cfg.profile == None then s1
      else Answering(cfg.profile.value, s1, s1.peers[d.from].conn, d, !known)
  }

  function SaturatingSub(a: nat, b: nat): nat {
    if a > b then a - b else 0
  }

  function Cutoff(cfg: Config): nat {
    Min(cfg.idleSecs * 1000, U64_MAX)
  }

  predicate Stays(cfg: Config, now: nat, p: Peer) {
    SaturatingSub(now, p.lastSeen) < Cutoff(cfg)
  }

  /** The table's entries in iteration order, each kept or closed. */
  function Retain(cfg: Config, s: State, now: nat, order: seq<Addr>): State {
    if order == [] then s
    else
      var s1 := Retain(cfg, s, now, order[..|order| - 1]);
      var a := order[|order| - 1];
      if a !in s1.peers || Stays(cfg, now, s1.peers[a]) then s1
      else Logged(s1.(peers := s1.peers - {a}), Closed(s1.peers[a].conn))
  }

  lemma RetainNone(cfg: Config, s: State, now: nat)
    ensures Retain(cfg, s, now, []) == s
  {
  }

  lemma RetainOneMore(cfg: Config, s: State, now: nat, order: seq<Addr>, a: Addr)
    ensures var s1 := Retain(cfg, s, now, order);
      Retain(cfg, s, now, order + [a])
      == if a !in s1.peers || Stays(cfg, now, s1.peers[a]) then s1
         else Logged(s1.(peers := s1.peers - {a}), Closed(s1.peers[a].conn))
  {
    assert (order + [a])[..|order|] == order;
  }

  /** Once the table has room the overflow stream is closed. */
  function CloseOverflow(cfg: Config, s: State): State {
    if |s.peers| < cfg.maxPeers && s.overflow.Some?
    then Logged(s.(overflow := None, overflowCount := 0), Closed(s.overflow.value))
    else s
  }

  /** A sweep visits every entry of the table once. */
  ghost predicate Legal(s: State, i: Input) {
    i.Tick? ==> (forall a :: a in s.peers <==> a in i.order) && forall j, k :: 0 <= j < k < |i.order| ==> i.order[j] != i.order[k]
  }

  function Step(cfg: Config, s: State, i: Input): State {
    match i
    case Datagram(_, _, _, _, _) => OnDatagram(cfg, s, i)
    case Tick(now, order) => CloseOverflow(cfg, Retain(cfg, s, now, order))
    case OthersOpen(count) => s.(nextConn := s.nextConn + count)
  }

  ghost predicate Runs(cfg: Config, s: State, inputs: seq<Input>, end: State)
    decreases |inputs|
  {
    if inputs == [] then end == s
    else Legal(s, inputs[0]) && Runs(cfg, Step(cfg, s, inputs[0]), inputs[1..], end)
  }

  /** The loop's own state, updated in place. */
  class Listener {
    const cfg: Config
    var peers: map<Addr, Peer>
    var overflowConn: Option<nat>
    var overflowCount: nat
    /** The logger's connection counter and what it has recorded. */
    var nextConn: nat
    var log: seq<Event>

    function Current(): State
      reads this
    {
      State(peers, overflowConn, overflowCount, nextConn, log)
    }

    constructor (cfg: Config, nextConn: nat)
      ensures this.cfg == cfg && Current() == Init(nextConn)
    {
      this.cfg, this.nextConn := cfg, nextConn;
      peers, overflowConn, overflowCount, log := map[], None, 0, [];
    }

    method NextConnId() returns (id: nat)
      modifies this`nextConn
      ensures id == old(nextConn) && nextConn == old(nextConn) + 1
    {
      id := nextConn;
      nextConn := nextConn + 1;
    }

    /** Sends what the action has to say; send tells whether the socket takes it. */
    method Reply(conn: nat, to: Addr, action: Action, received: seq<byte>, send: bool)
      modifies this`log
      ensures Current() == Replying(old(Current()), conn, to, action, received, send)
      ensures exists said ::
        && Says(false, action, received, said)
        && log == old(log) + (if said == [] then [] else [if send then Sent(conn, to, said) else SendFailed(conn)])
    {
      hide Says;
      PayloadIsSaid(action, received);
      if action.IsSilent() {
        return;
      }
      var payload := Payload(action, received);
      if payload == [] {
        return;
      }
      log := log + [if send then Sent(conn, to, payload) else SendFailed(conn)];
    }

    method Receive(d: Input)
      requires d.Datagram?
      modifies this
      ensures Current() == OnDatagram(cfg, old(Current()), d)
      ensures d.from in old(peers) || |old(peers)| < cfg.maxPeers ==>
        && d.from in peers && peers[d.from].lastSeen == d.now
        && forall a :: a != d.from ==> (a in peers <==> a in old(peers)) && (a in peers ==> peers[a] == old(peers)[a])
      ensures d.from !in old(peers) && |old(peers)| >= cfg.maxPeers ==> peers == old(peers)
    {
      var known := d.from in peers;
      if !known && |peers| >= cfg.maxPeers {
        if overflowConn == None {
          var id := NextConnId();
          overflowConn := Some(id);
          log := log + [Opened(id, None)];
        }
        overflowCount := overflowCount + 1;
        log := log + [Received(overflowConn.value, d.from, d.data)];
        return;
      }
      var first := false;
      if d.from !in peers {
        first := true;
        var id := NextConnId();
        peers := peers[d.from := Peer(id, d.now)];
      }
      peers := peers[d.from := peers[d.from].(lastSeen := d.now)];
      var conn := peers[d.from].conn;
      if first {
        log := log + [Opened(conn, Some(d.from))];
      }
      log := log + [Received(conn, d.from, d.data)];
      assert Current() == Tracking(old(Current()), d.from, d.data, d.now);
      if cfg.profile.Some? {
        var p := cfg.profile.value;
        if first && p.onConnect.Some? {
          Reply(conn, d.from, p.onConnect.value, d.data, d.bannerSent);
        }
        var rule := Eval(p.rules, d.data, first);
        if rule.Some? {
          Reply(conn, d.from, rule.value.action, d.data, d.ruleSent);
        }
      }
    }

    /** Retires idle peers in whatever order the table yields them, then the overflow stream if there is room. */
    method Sweep(now: nat) returns (ghost order: seq<Addr>)
      modifies this
      ensures Legal(old(Current()), Tick(now, order))
      ensures Current() == Step(cfg, old(Current()), Tick(now, order))
    {
      hide Retain;
      order := [];
      RetainNone(cfg, old(Current()), now);
      var left := peers.Keys;
      while left != {}
        invariant forall a :: a in left ==> a !in order && a in peers
        invariant forall a :: a in left || a in order <==> a in old(peers)
        invariant forall j, k :: 0 <= j < k < |order| ==> order[j] != order[k]
        invariant Current() == Retain(cfg, old(Current()), now, order)
        decreases left
      {
        var a :| a in left;
        left := left - {a};
        RetainOneMore(cfg, old(Current()), now, order, a);
        order := order + [a];
        if SaturatingSub(now, peers[a].lastSeen) >= Cutoff(cfg) {
          log := log + [Closed(peers[a].conn)];
          peers := peers - {a};
        }
      }
      if |peers| < cfg.maxPeers && overflowConn.Some? {
        log := log + [Closed(overflowConn.value)];
        overflowConn := None;
        overflowCount := 0;
      }
    }
  }
}
