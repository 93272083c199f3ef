/** Sums over finite maps and sequences, one entry at a time. */
module Sums {

  ghost function Total<K>(m: map<K, nat>): nat
    decreases |m|
  {
    if m == map[] then 0
    else
      var k :| k in m;
      m[k] + Total(m - {k})
  }

  lemma {:induction false} TotalRemove<K>(m: map<K, nat>, k: K)
    requires k in m
    ensures Total(m) == m[k] + Total(m - {k})
    decreases |m|
  {
    var j :| j in m && Total(m) == m[j] + Total(m - {j});
    if j != k {
      TotalRemove(m - {j}, k);
      TotalRemove(m - {k}, j);
      assert m - {j} - {k} == m - {k} - {j};
    }
  }

  lemma TotalUpdate<K>(m: map<K, nat>, k: K, v: nat)
    ensures Total(m[k := v]) + (if k in m then m[k] else 0) == Total(m) + v
  {
    TotalRemove(m[k := v], k);
    assert m[k := v] - {k} == m - {k};
    if k in m {
      TotalRemove(m, k);
    } else {
      assert m - {k} == m;
    }
  }

  lemma {:induction false} TotalAtMost<K>(m: map<K, nat>, n: map<K, nat>)
    requires m.Keys == n.Keys && forall k :: k in m ==> m[k] <= n[k]
    ensures Total(m) <= Total(n)
    decreases |m|
  {
    if m != map[] {
      var k :| k in m;
      TotalRemove(m, k);
      TotalRemove(n, k);
      TotalAtMost(m - {k}, n - {k});
    } else {
      assert n == map[];
    }
  }

  lemma {:induction false} TotalAdds<K>(m: map<K, nat>, n: map<K, nat>, sum: map<K, nat>)
    requires m.Keys == n.Keys == sum.Keys && forall k :: k in m ==> sum[k] == m[k] + n[k]
    ensures Total(sum) == Total(m) + Total(n)
    decreases |m|
  {
    if m != map[] {
      var k :| k in m;
      TotalRemove(m, k);
      TotalRemove(n, k);
      TotalRemove(sum, k);
      TotalAdds(m - {k}, n - {k}, sum - {k});
    } else {
      assert n == map[] && sum == map[];
    }
  }

  lemma {:induction false} TotalIsZero<K>(m: map<K, nat>)
    ensures Total(m) == 0 <==> forall k :: k in m ==> m[k] == 0
    decreases |m|
  {
    if m != map[] {
      var k :| k in m;
      TotalRemove(m, k);
      TotalIsZero(m - {k});
      assert forall j :: j in m ==> j == k || j in m - {k};
    }
  }

  ghost function Sum<T>(s: seq<T>, w: T -> nat): nat {
    if s == [] then 0 else w(s[0]) + Sum(s[1..], w)
  }

  lemma {:induction false} SumUpdate<T>(s: seq<T>, i: nat, x: T, w: T -> nat)
    requires i < |s|
    ensures Sum(s[i := x], w) + w(s[i]) == Sum(s, w) + w(x)
  {
    if i == 0 {
      assert s[0 := x][1..] == s[1..];
    } else {
      assert s[i := x][1..] == s[1..][i - 1 := x];
      SumUpdate(s[1..], i - 1, x, w);
    }
  }

  lemma {:induction false} SumZero<T>(s: seq<T>, w: T -> nat)
    requires forall i :: 0 <= i < |s| ==> w(s[i]) == 0
    ensures Sum(s, w) == 0
  {
    if s != [] {
      SumZero(s[1..], w);
    }
  }
}

/** A stream is one direction of one connection. */
module StreamKeys {
  datatype Dir = Rx | Tx

  datatype Key = Key(conn: nat, dir: Dir)
}

/** What one charge against the run's disk budget should do when nothing interrupts it. */
module Budget {

  datatype Charged = Charged(granted: bool, used: nat, stopped: bool)

  /** Bytes are granted when there is no cap, or when the run has not stopped and they fit under it. A refusal costs
      nothing and stops the run. */
  function Charging(cap: nat, used: nat, stopped: bool, n: nat): Charged {
    var granted := cap == 0 || (!stopped && used + n <= cap);
    Charged(granted, if granted && cap > 0 then used + n else used, stopped || !granted)
  }
}

/** The logger's disk sinks, shared by any number of tasks: the run's disk budget, the streams and the event log. */
module Capture {
  import opened Bytes
  import opened Landing
  import opened StreamKeys

  /** cap is the run's byte budget, 0 for none. */
  datatype Config = Config(cap: nat, limits: Limits, eventLog: bool)

  /** A stream of a closed connection, and the length of the event that would report its loss, newline included. */
  datatype Finished = Finished(key: Key, line: nat)

  /** One write to disk: a message for a stream, a line of the event log with its newline, or the line that reports
      what a stream lost, with the streams still to report after it. */
  datatype Job =
    | RawJob(key: Key, data: seq<byte>)
    | LineJob(length: nat)
    | LossJob(about: Finished, rest: seq<Finished>)
  {
    function Cost(): nat {
      match this
      case RawJob(_, data) => |data|
      case LineJob(n) => n
      case LossJob(f, _) => f.line
    }

    /** What its task does next, once it is over. */
    function After(): Pc {
      if LossJob? then Notes(rest) else Idle
    }
  }

  /** Where a task stands: the atomic steps of charging, writing and announcing. */
  datatype Pc =
    | Idle
    | Load(job: Job)
    | Add(job: Job)
    | Refund(job: Job)
    | Swap(job: Job)
    | AnnounceLimit(job: Job)
    | Granted(job: Job)
    | AnnounceTrunc(key: Key)
    | Notes(finished: seq<Finished>)

  /** The connection ids each task holds are its own variables; who obtained an id, and what was received, are the
      run's history. */
  datatype State = State(
    used: int,
    stopped: bool,
    nextConn: nat,
    tasks: seq<Pc>,
    held: seq<set<nat>>,
    owner: map<nat, nat>,
    received: map<Key, seq<seq<byte>>>,
    written: map<Key, seq<seq<byte>>>,
    closed: set<nat>,
    jsonl: nat,
    limitLines: nat,
    truncLines: seq<Key>,
    closeNotes: seq<Key>,
    noted: seq<Key>)

  datatype Step =
    | NewConn
    | BeginRaw(key: Key, data: seq<byte>)
    | BeginLine(length: nat)
    | Close(conn: nat, rxLine: nat, txLine: nat)
    | Proceed

  function Init(tasks: nat): State {
    State(0, false, 1, seq(tasks, _ => Idle), seq(tasks, _ => {}), map[], map[], map[], {}, 0, 0, [], [], [])
  }

  function Get<V>(m: map<Key, seq<V>>, k: Key): seq<V> {
    if k in m then m[k] else []
  }

  /** A task uses the connection ids it obtained, and gives one up by closing its connection. */
  predicate Enabled(s: State, t: nat, step: Step) {
    t < |s.tasks| && t < |s.held| &&
    match step
    case NewConn => s.tasks[t].Idle?
    case BeginRaw(k, data) => s.tasks[t].Idle? && data != [] && k.conn in s.held[t]
    case BeginLine(n) => s.tasks[t].Idle? && n > 0
    case Close(conn, _, _) => s.tasks[t].Idle? && conn in s.held[t]
    case Proceed => !s.tasks[t].Idle?
  }

  /** Events go nowhere when there is no event log. Charging starts with the stop flag, unless there is no cap at all. */
  function Charge(cfg: Config, job: Job): Pc {
    if !job.RawJob? && !cfg.eventLog then job.After()
    else if cfg.cap == 0 then Granted(job)
    else Load(job)
  }

  ghost function Next(cfg: Config, s: State, t: nat, step: Step): State
    requires Enabled(s, t, step)
  {
    match step
    case NewConn =>
      // fetch_add
      s.(nextConn := s.nextConn + 1,
         held := s.held[t := s.held[t] + {s.nextConn}],
         owner := s.owner[s.nextConn := t])
    case BeginRaw(k, data) =>
      s.(tasks := s.tasks[t := Charge(cfg, RawJob(k, data))],
         received := s.received[k := Get(s.received, k) + [data]])
    case BeginLine(n) =>
      s.(tasks := s.tasks[t := Charge(cfg, LineJob(n))])
    case Close(conn, rxLine, txLine) =>
      s.(tasks := s.tasks[t := Notes([Finished(Key(conn, Rx), rxLine), Finished(Key(conn, Tx), txLine)])],
         held := s.held[t := s.held[t] - {conn}],
         closed := s.closed + {conn})
    case Proceed => Advance(cfg, s, t)
  }

  /** The next atomic step of a task that is charging, writing or announcing. */
  ghost function Advance(cfg: Config, s: State, t: nat): State
    requires t < |s.tasks| && !s.tasks[t].Idle?
  {
    var (shared, pc) := Effect(cfg, s, s.tasks[t]);
    shared.(tasks := s.tasks[t := pc])
  }

  /** What a step does to the shared state, and where it leaves the task. */
  ghost function Effect(cfg: Config, s: State, pc: Pc): (e: (State, Pc))
    requires !pc.Idle?
    ensures e.0.owner == s.owner && e.0.held == s.held && e.0.nextConn == s.nextConn
    ensures e.0.received == s.received && e.0.closed == s.closed
    ensures s.stopped ==> e.0.stopped
  {
    match pc
    case Load(job) => (s, if s.stopped then job.After() else Add(job))
    case Add(job) =>
      // fetch_add, and the comparison of its result with the cap
      var used := s.used + job.Cost();
      (s.(used := used), if used > cfg.cap then Refund(job) else Granted(job))
    case Refund(job) => (s.(used := s.used - job.Cost()), Swap(job))
    case Swap(job) => (s.(stopped := true), if s.stopped then job.After() else AnnounceLimit(job))
    case AnnounceLimit(job) => (s.(limitLines := s.limitLines + 1), job.After())
    case Granted(LineJob(n)) => (s.(jsonl := s.jsonl + n), Idle)
    case Granted(LossJob(f, rest)) => (s.(jsonl := s.jsonl + f.line, noted := s.noted + [f.key]), Notes(rest))
    case Granted(RawJob(k, data)) =>
      // the write itself, under the sinks' lock
      var announce := Announces(cfg.limits, Flatten(Get(s.written, k)), data);
      (s.(written := s.written[k := Get(s.written, k) + [data]]), if announce then AnnounceTrunc(k) else Idle)
    case AnnounceTrunc(k) => (s.(truncLines := s.truncLines + [k]), Idle)
    case Notes(fs) =>
      // a stream that lost bytes is noted on the console, and then an event is due
      if fs == [] then (s, Idle)
      else if !Lossy(cfg, s, fs[0].key) then (s, Notes(fs[1..]))
      else (s.(closeNotes := s.closeNotes + [fs[0].key]), Charge(cfg, LossJob(fs[0], fs[1..])))
  }

  /** The stream's files lack bytes that were written to it. */
  ghost predicate Lossy(cfg: Config, s: State, k: Key) {
    DroppedOf(cfg.limits, Flatten(Get(s.written, k))) > 0
  }

  /** A run: which task takes which step, in any order at all. */
  ghost predicate Runs(cfg: Config, s: State, schedule: seq<(nat, Step)>, end: State)
    decreases |schedule|
  {
    if schedule == [] then end == s
    else
      var (t, step) := schedule[0];
      Enabled(s, t, step) && Runs(cfg, Next(cfg, s, t, step), schedule[1..], end)
  }

  lemma RunsNowhere(cfg: Config, s: State)
    ensures Runs(cfg, s, [], s)
  {
  }

  lemma {:induction false} RunsTogether(cfg: Config, s: State, a: seq<(nat, Step)>, mid: State, b: seq<(nat, Step)>,
                                        end: State)
    requires Runs(cfg, s, a, mid) && Runs(cfg, mid, b, end)
    ensures Runs(cfg, s, a + b, end)
    decreases |a|
  {
    hide Next;
    if a == [] {
      assert a + b == b;
    } else {
      var (t, step) := a[0];
      RunsTogether(cfg, Next(cfg, s, t, step), a[1..], mid, b, end);
      assert (a + b)[1..] == a[1..] + b;
    }
  }

  lemma RunsOn(cfg: Config, s: State, schedule: seq<(nat, Step)>, mid: State, t: nat, step: Step)
    requires Runs(cfg, s, schedule, mid) && Enabled(mid, t, step)
    ensures Runs(cfg, s, schedule + [(t, step)], Next(cfg, mid, t, step))
  {
    hide Next;
    var end := Next(cfg, mid, t, step);
    assert Runs(cfg, end, [], end);
    assert [(t, step)][1..] == [];
    RunsTogether(cfg, s, schedule, mid, [(t, step)], end);
  }

  ghost predicate Quiescent(s: State) {
    forall t :: 0 <= t < |s.tasks| ==> s.tasks[t].Idle?
  }
}
