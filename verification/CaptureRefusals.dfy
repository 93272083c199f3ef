/** When a charge is refused, whatever the interleaving. */
module Refusals {
  import opened Bytes
  import opened Landing
  import opened Sums
  import opened StreamKeys
  import opened Capture
  import opened CaptureSafety
  import opened Budget

  /** A step that adds a request to the grants and the adds awaiting refund, and finds them over the cap together. */
  ghost predicate Overflows(cfg: Config, s: State, t: nat, step: Step) {
    && Enabled(s, t, step) && step.Proceed? && s.tasks[t].Add?
    && GrantedBytes(s) + Sum(s.tasks, AwaitingRefund) + s.tasks[t].job.Cost() > cfg.cap
  }

  /** The run has stopped, or a task is about to stop it. */
  ghost predicate Stopping(s: State) {
    s.stopped || exists t :: 0 <= t < |s.tasks| && (s.tasks[t].Refund? || s.tasks[t].Swap?)
  }

  /** Only an overflowing add makes a run stop. */
  lemma OverflowStops(cfg: Config, s: State, t: nat, step: Step)
    requires cfg.cap > 0 && Inv(cfg, s) && Enabled(s, t, step)
    ensures Stopping(Next(cfg, s, t, step)) <==> Stopping(s) || Overflows(cfg, s, t, step)
  {
    hide Flatten, Announces, Lossy, Ownership, NotesInv, LimitInv, GrantedBytes, StreamInv, TruncInv, NoteInv, Sum;
    var s' := Next(cfg, s, t, step);
    assert s'.tasks[t].Refund? ==> Overflows(cfg, s, t, step);
    if Stopping(s) && !s.stopped {
      var u :| 0 <= u < |s.tasks| && (s.tasks[u].Refund? || s.tasks[u].Swap?);
      assert s'.stopped || s'.tasks[u].Refund? || s'.tasks[u].Swap?;
    }
    if Overflows(cfg, s, t, step) {
      assert s'.tasks[t].Refund?;
    }
  }

  /** Some earlier step of the run overflowed. */
  ghost predicate Overflowed(cfg: Config, n: nat, schedule: seq<(nat, Step)>) {
    exists i: nat, mid :: OverflowedAt(cfg, n, schedule, i, mid)
  }

  ghost predicate OverflowedAt(cfg: Config, n: nat, schedule: seq<(nat, Step)>, i: nat, mid: State) {
    i < |schedule| && Runs(cfg, Init(n), schedule[..i], mid) && Overflows(cfg, mid, schedule[i].0, schedule[i].1)
  }

  lemma {:induction false} StopTraced(cfg: Config, n: nat, past: seq<(nat, Step)>, s: State, rest: seq<(nat, Step)>,
                                      end: State)
    requires cfg.cap > 0 && Inv(cfg, s) && Runs(cfg, Init(n), past, s) && Runs(cfg, s, rest, end)
    requires !Stopping(s) && Stopping(end)
    ensures Overflowed(cfg, n, past + rest)
    decreases |rest|
  {
    hide Next, Inv, Overflows, Stopping;
    var (t, step) := rest[0];
    OverflowStops(cfg, s, t, step);
    if Overflows(cfg, s, t, step) {
      assert (past + rest)[..|past|] == past;
      assert OverflowedAt(cfg, n, past + rest, |past|, s);
    } else {
      RunsOn(cfg, Init(n), past, s, t, step);
      InvKept(cfg, s, t, step);
      StopTraced(cfg, n, past + [(t, step)], Next(cfg, s, t, step), rest[1..], end);
      assert past + [(t, step)] + rest[1..] == past + rest;
    }
  }

  /** A run that has stopped had an add whose grants, adds awaiting refund and request together passed the cap. */
  lemma StopHasCause(cfg: Config, n: nat, schedule: seq<(nat, Step)>, s: State)
    requires cfg.cap > 0 && Runs(cfg, Init(n), schedule, s) && s.stopped
    ensures Overflowed(cfg, n, schedule)
  {
    hide Runs, Inv, Overflowed;
    InvInit(cfg, n);
    RunsNowhere(cfg, Init(n));
    StopTraced(cfg, n, [], Init(n), schedule, s);
    assert [] + schedule == schedule;
  }

  ghost predicate Without(schedule: seq<(nat, Step)>, t: nat) {
    forall i :: 0 <= i < |schedule| ==> schedule[i].0 != t
  }

  lemma {:induction false} OthersLeaveAlone(cfg: Config, s: State, schedule: seq<(nat, Step)>, end: State, t: nat)
    requires Runs(cfg, s, schedule, end) && Without(schedule, t) && t < |s.tasks|
    ensures |end.tasks| == |s.tasks| && end.tasks[t] == s.tasks[t]
    decreases |schedule|
  {
    hide Effect, Charge;
    if schedule != [] {
      var (u, step) := schedule[0];
      OthersLeaveAlone(cfg, Next(cfg, s, u, step), schedule[1..], end, t);
    }
  }

  /** A whole charge of task t among any steps of the others: it loads the stop flag in s1, and unless that is set adds
      in s2. Either way its outcome is decided in s2. */
  ghost predicate DecidedIn(cfg: Config, s: State, t: nat, a: seq<(nat, Step)>, s1: State, b: seq<(nat, Step)>, s2: State) {
    && t < |s.tasks| && s.tasks[t].Load?
    && Runs(cfg, s, a, s1) && Without(a, t)
    && if s1.stopped then b == [] && s2 == s1
       else Enabled(s1, t, Proceed) && Runs(cfg, Next(cfg, s1, t, Proceed), b, s2) && Without(b, t)
  }

  /** A charge is refused exactly when it finds the run stopped, or when its add finds that the grants, the adds
      awaiting refund and this request together pass the cap. */
  lemma RefusalHasCause(cfg: Config, n: nat, past: seq<(nat, Step)>, s: State, t: nat,
                        a: seq<(nat, Step)>, s1: State, b: seq<(nat, Step)>, s2: State)
    requires cfg.cap > 0 && Runs(cfg, Init(n), past, s) && DecidedIn(cfg, s, t, a, s1, b, s2)
    ensures Enabled(s2, t, Proceed)
    ensures Next(cfg, s2, t, Proceed).tasks[t] != Granted(s.tasks[t].job)
       <==> s1.stopped || Overflows(cfg, s2, t, Proceed)
    ensures s1.stopped ==> Overflowed(cfg, n, past + a)
  {
    hide Runs, Inv, Overflowed, Overflows, Next;
    OthersLeaveAlone(cfg, s, a, s1, t);
    InvInit(cfg, n);
    InvHolds(cfg, Init(n), past, s);
    InvHolds(cfg, s, a, s1);
    if s1.stopped {
      RunsTogether(cfg, Init(n), past, s, a, s1);
      StopHasCause(cfg, n, past + a, s1);
      AtTheFlag(cfg, s1, t);
    } else {
      AtTheFlag(cfg, s1, t);
      var mid := Next(cfg, s1, t, Proceed);
      InvKept(cfg, s1, t, Proceed);
      OthersLeaveAlone(cfg, mid, b, s2, t);
      InvHolds(cfg, mid, b, s2);
      AtTheAdd(cfg, s2, t);
    }
  }

  lemma AtTheFlag(cfg: Config, s: State, t: nat)
    requires Inv(cfg, s) && t < |s.tasks| && s.tasks[t].Load?
    ensures Enabled(s, t, Proceed) && !Overflows(cfg, s, t, Proceed)
    ensures var job := s.tasks[t].job;
      && |Next(cfg, s, t, Proceed).tasks| == |s.tasks|
      && Next(cfg, s, t, Proceed).tasks[t] == (if s.stopped then job.After() else Add(job))
      && job.After() != Granted(job)
  {
    PlainFacts(cfg, s);
  }

  lemma AtTheAdd(cfg: Config, s: State, t: nat)
    requires cfg.cap > 0 && Inv(cfg, s) && t < |s.tasks| && s.tasks[t].Add?
    ensures Enabled(s, t, Proceed)
    ensures var job := s.tasks[t].job;
      Next(cfg, s, t, Proceed).tasks[t] == if Overflows(cfg, s, t, Proceed) then Refund(job) else Granted(job)
  {
    PlainFacts(cfg, s);
  }

  /** A charge can be refused although it would fit the grants: here a message of 5 bytes under a cap of 10, with nothing
      granted, meets an oversized add that has not been given back yet. */
  lemma SpuriousRefusal(cfg: Config)
    requires cfg.cap == 10 && !cfg.eventLog
    ensures exists schedule, s ::
      && Runs(cfg, Init(2), schedule, s)
      && |s.tasks| == 2 && s.tasks[1].Add? && s.tasks[1].job.Cost() == 5
      && GrantedBytes(s) + 5 <= cfg.cap
      && Advance(cfg, s, 1).tasks[1] == Refund(s.tasks[1].job)
  {
    hide Runs, Flatten;
    var schedule, s := OversizedAdd(cfg);
    SumZero(s.tasks, Pending);
    assert Sizes(map[]) == map[];
    assert Runs(cfg, Init(2), schedule, s);
  }

  ghost function Message(conn: nat, length: nat): Job {
    RawJob(Key(conn, Rx), seq(length, _ => 7))
  }

  /** Two tasks with a connection each, about to log what they read. */
  ghost function TwoMessages(big: Job, small: Job): State
    requires big.RawJob? && small.RawJob?
  {
    State(0, false, 3, [Load(big), Load(small)], [{1}, {2}], map[1 := 0, 2 := 1],
          map[big.key := [big.data], small.key := [small.data]], map[], {}, 0, 0, [], [], [])
  }

  lemma MessagesBegin(cfg: Config) returns (schedule: seq<(nat, Step)>, s: State)
    requires cfg.cap == 10 && !cfg.eventLog
    ensures Runs(cfg, Init(2), schedule, s) && s == TwoMessages(Message(1, 11), Message(2, 5))
  {
    hide Flatten, Announces, Lossy, Runs;
    var big, small := Message(1, 11), Message(2, 5);
    var s0 := Init(2);
    assert s0.tasks == [Idle, Idle] && s0.held == [{}, {}];
    var s1 := s0.(nextConn := 2, held := [{1}, {}], owner := map[1 := 0]);
    assert s0.held[0] + {1} == {1} && s0.held[0 := {1}] == s1.held && s0.owner[1 := 0] == s1.owner;
    assert Next(cfg, s0, 0, NewConn) == s1;
    var s2 := s1.(nextConn := 3, held := [{1}, {2}], owner := map[1 := 0, 2 := 1]);
    assert s1.held[1] + {2} == {2} && s1.held[1 := {2}] == s2.held && s1.owner[2 := 1] == s2.owner;
    assert Next(cfg, s1, 1, NewConn) == s2;
    var s3 := s2.(tasks := [Load(big), Idle], received := map[big.key := [big.data]]);
    assert [] + [big.data] == [big.data] && s2.received[big.key := [big.data]] == s3.received;
    assert Next(cfg, s2, 0, BeginRaw(big.key, big.data)) == s3;
    s := TwoMessages(big, small);
    assert [] + [small.data] == [small.data] && s3.received[small.key := [small.data]] == s.received;
    assert Next(cfg, s3, 1, BeginRaw(small.key, small.data)) == s;
    RunsNowhere(cfg, s0);
    hide Next;
    RunsOn(cfg, s0, [], s0, 0, NewConn);
    schedule := [] + [(0, NewConn)];
    RunsOn(cfg, s0, schedule, s1, 1, NewConn);
    schedule := schedule + [(1, NewConn)];
    RunsOn(cfg, s0, schedule, s2, 0, BeginRaw(big.key, big.data));
    schedule := schedule + [(0, BeginRaw(big.key, big.data))];
    RunsOn(cfg, s0, schedule, s3, 1, BeginRaw(small.key, small.data));
    schedule := schedule + [(1, BeginRaw(small.key, small.data))];
  }

  lemma OversizedAdd(cfg: Config) returns (schedule: seq<(nat, Step)>, s: State)
    requires cfg.cap == 10 && !cfg.eventLog
    ensures Runs(cfg, Init(2), schedule, s)
    ensures var big, small := Message(1, 11), Message(2, 5);
      s == TwoMessages(big, small).(tasks := [Refund(big), Add(small)], used := 11)
  {
    hide Flatten, Announces, Lossy, Runs;
    var big, small, p := Message(1, 11), Message(2, 5), [(0, Proceed)];
    var s0;
    schedule, s0 := MessagesBegin(cfg);
    var s1 := s0.(tasks := [Add(big), Load(small)]);
    assert Next(cfg, s0, 0, Proceed) == s1;
    var s2 := s1.(tasks := [Add(big), Add(small)]);
    assert Next(cfg, s1, 1, Proceed) == s2;
    s := s2.(tasks := [Refund(big), Add(small)], used := 11);
    assert Next(cfg, s2, 0, Proceed) == s;
    hide Next, Init;
    RunsOn(cfg, Init(2), schedule, s0, 0, Proceed);
    RunsOn(cfg, Init(2), schedule + p, s1, 1, Proceed);
    RunsOn(cfg, Init(2), schedule + p + [(1, Proceed)], s2, 0, Proceed);
    schedule := schedule + p + [(1, Proceed)] + p;
  }

  /** Only task t moves. */
  ghost predicate Alone(schedule: seq<(nat, Step)>, t: nat) {
    forall i :: 0 <= i < |schedule| ==> schedule[i] == (t, Proceed)
  }

  /** A charge that nothing interrupts is granted exactly when the run has not stopped and the bytes fit; otherwise it
      leaves the counter as it found it, the run stopped and the LIMIT line printed if it was the first. */
  lemma UninterruptedCharge(cfg: Config, s: State, t: nat)
    requires cfg.cap > 0 && Enabled(s, t, Proceed) && s.tasks[t].Load? && s.used >= 0
    ensures exists schedule, end :: Alone(schedule, t) && Runs(cfg, s, schedule, end) && ChargeDone(cfg, s, t, end)
  {
    hide Flatten, Announces, Lossy, Runs;
    var p := [(t, Proceed)];
    assert Runs(cfg, s, [], s) by {
      RunsNowhere(cfg, s);
    }
    RunsOn(cfg, s, [], s, t, Proceed);
    var s1 := Advance(cfg, s, t);
    if s.stopped {
      assert ChargeDone(cfg, s, t, s1);
    } else {
      RunsOn(cfg, s, [] + p, s1, t, Proceed);
      var s2 := Advance(cfg, s1, t);
      if s2.tasks[t].Granted? {
        assert ChargeDone(cfg, s, t, s2);
      } else {
        RunsOn(cfg, s, [] + p + p, s2, t, Proceed);
        var s3 := Advance(cfg, s2, t);
        RunsOn(cfg, s, [] + p + p + p, s3, t, Proceed);
        var s4 := Advance(cfg, s3, t);
        RunsOn(cfg, s, [] + p + p + p + p, s4, t, Proceed);
        var s5 := Advance(cfg, s4, t);
        assert ChargeDone(cfg, s, t, s5);
      }
    }
  }

  ghost predicate ChargeDone(cfg: Config, s: State, t: nat, end: State)
    requires t < |s.tasks| && s.tasks[t].Load? && s.used >= 0
  {
    var job := s.tasks[t].job;
    var c := Charging(cfg.cap, s.used, s.stopped, job.Cost());
    && end.tasks == s.tasks[t := if c.granted then Granted(job) else job.After()]
    && end.used == c.used && end.stopped == c.stopped
    && end.limitLines == s.limitLines + if c.stopped && !s.stopped then 1 else 0
  }
}

/** Which losses reach the event log: a stream's truncation event is charged like any other line. */
module LossReports {
  import opened Bytes
  import opened Landing
  import opened Sums
  import opened StreamKeys
  import opened Capture
  import opened CaptureSafety
  import opened Refusals

  /** The step grants the charge of the event that reports stream k. */
  ghost predicate Grants(cfg: Config, s: State, t: nat, step: Step, k: Key)
    requires Enabled(s, t, step)
  {
    step.Proceed? &&
    match s.tasks[t]
    case Add(LossJob(f, _)) => f.key == k && s.used + f.line <= cfg.cap
    case Notes(fs) => cfg.cap == 0 && cfg.eventLog && fs != [] && fs[0].key == k && Lossy(cfg, s, k)
    case _ => false
  }

  /** The step refuses it: the run had stopped, or the line does not fit. */
  ghost predicate Refuses(cfg: Config, s: State, t: nat, step: Step, k: Key)
    requires Enabled(s, t, step)
  {
    step.Proceed? &&
    match s.tasks[t]
    case Load(LossJob(f, _)) => f.key == k && s.stopped
    case Add(LossJob(f, _)) => f.key == k && s.used + f.line > cfg.cap
    case _ => false
  }

  /** How often a run grants the charge of k's event. */
  ghost function GrantCount(cfg: Config, s: State, schedule: seq<(nat, Step)>, end: State, k: Key): nat
    requires Runs(cfg, s, schedule, end)
    decreases |schedule|
  {
    if schedule == [] then 0
    else
      var (t, step) := schedule[0];
      (if Grants(cfg, s, t, step, k) then 1 else 0) + GrantCount(cfg, Next(cfg, s, t, step), schedule[1..], end, k)
  }

  ghost function RefusalCount(cfg: Config, s: State, schedule: seq<(nat, Step)>, end: State, k: Key): nat
    requires Runs(cfg, s, schedule, end)
    decreases |schedule|
  {
    if schedule == [] then 0
    else
      var (t, step) := schedule[0];
      (if Refuses(cfg, s, t, step, k) then 1 else 0) + RefusalCount(cfg, Next(cfg, s, t, step), schedule[1..], end, k)
  }

  ghost predicate Reports(pc: Pc, k: Key) {
    HasJob(pc) && pc.job.LossJob? && pc.job.about.key == k
  }

  /** The charge of k's event has begun and is not decided. */
  ghost function Deciding(k: Key): Pc -> nat {
    (pc: Pc) => if (pc.Load? || pc.Add?) && Reports(pc, k) then 1 else 0
  }

  /** The charge of k's event was granted and its line is not written yet. */
  ghost function Recording(k: Key): Pc -> nat {
    (pc: Pc) => if pc.Granted? && Reports(pc, k) then 1 else 0
  }

  /** Without an event log no task is about to write to it. */
  ghost predicate EventsOff(cfg: Config, s: State) {
    !cfg.eventLog ==> forall t :: 0 <= t < |s.tasks| && HasJob(s.tasks[t]) ==> s.tasks[t].job.RawJob?
  }

  /** Without a cap no charge is ever undecided. */
  ghost predicate CapOff(cfg: Config, s: State) {
    cfg.cap == 0 ==> forall t :: 0 <= t < |s.tasks| ==> Uncharged(s.tasks[t])
  }

  ghost function One(b: bool): nat {
    if b then 1 else 0
  }

  lemma OffKept(cfg: Config, s: State, t: nat, step: Step)
    requires Enabled(s, t, step) && EventsOff(cfg, s) && CapOff(cfg, s)
    ensures EventsOff(cfg, Next(cfg, s, t, step)) && CapOff(cfg, Next(cfg, s, t, step))
  {
    hide Flatten, Announces, Lossy;
  }

  /** The counts after one step of a task: from pc to next, the event log and the console gaining what they gain. */
  ghost predicate Balanced(cfg: Config, s: State, pc: Pc, s': State, next: Pc, k: Key, grants: nat, refuses: nat) {
    && multiset(s'.noted)[k] + Recording(k)(next) == multiset(s.noted)[k] + Recording(k)(pc) + grants
    && (cfg.eventLog ==>
          multiset(s'.closeNotes)[k] + Deciding(k)(pc) == multiset(s.closeNotes)[k] + Deciding(k)(next) + grants + refuses)
    && (!cfg.eventLog ==> grants == refuses == 0)
    && (cfg.cap == 0 ==> refuses == 0)
  }

  lemma ChargingBalances(cfg: Config, s: State, t: nat, k: Key)
    requires Enabled(s, t, Proceed) && EventsOff(cfg, s) && CapOff(cfg, s) && HasJob(s.tasks[t]) && !s.tasks[t].Granted?
    ensures var grants, refuses := One(Grants(cfg, s, t, Proceed, k)), One(Refuses(cfg, s, t, Proceed, k));
      var s' := Next(cfg, s, t, Proceed);
      s'.tasks == s.tasks[t := s'.tasks[t]] && Balanced(cfg, s, s.tasks[t], s', s'.tasks[t], k, grants, refuses)
  {
    var s', job := Next(cfg, s, t, Proceed), s.tasks[t].job;
    assert s'.noted == s.noted && s'.closeNotes == s.closeNotes;
    assert cfg.cap > 0 && (!cfg.eventLog ==> job.RawJob?);
    assert s'.tasks[t] == job.After() || s'.tasks[t].job == job;
  }

  lemma WritingBalances(cfg: Config, s: State, t: nat, k: Key)
    requires Enabled(s, t, Proceed) && (s.tasks[t].Granted? || s.tasks[t].AnnounceTrunc?)
    ensures var s' := Next(cfg, s, t, Proceed);
      s'.tasks == s.tasks[t := s'.tasks[t]] && Balanced(cfg, s, s.tasks[t], s', s'.tasks[t], k, 0, 0)
    ensures !Grants(cfg, s, t, Proceed, k) && !Refuses(cfg, s, t, Proceed, k)
  {
    hide Flatten, Announces, Lossy;
    var s', pc := Next(cfg, s, t, Proceed), s.tasks[t];
    assert s'.closeNotes == s.closeNotes && !HasJob(s'.tasks[t]);
    if pc.Granted? && pc.job.LossJob? {
      assert s'.noted == s.noted + [pc.job.about.key];
    } else {
      assert s'.noted == s.noted;
    }
  }

  lemma NotingBalances(cfg: Config, s: State, t: nat, k: Key)
    requires Enabled(s, t, Proceed) && s.tasks[t].Notes?
    ensures var grants, refuses := One(Grants(cfg, s, t, Proceed, k)), One(Refuses(cfg, s, t, Proceed, k));
      var s' := Next(cfg, s, t, Proceed);
      s'.tasks == s.tasks[t := s'.tasks[t]] && Balanced(cfg, s, s.tasks[t], s', s'.tasks[t], k, grants, refuses)
  {
    hide Flatten, DroppedOf, Announces;
    var s', fs := Next(cfg, s, t, Proceed), s.tasks[t].finished;
    assert s'.noted == s.noted;
    if fs != [] && Lossy(cfg, s, fs[0].key) {
      assert s'.closeNotes == s.closeNotes + [fs[0].key] && s'.tasks[t] == Charge(cfg, LossJob(fs[0], fs[1..]));
    } else {
      assert s'.closeNotes == s.closeNotes && !HasJob(s'.tasks[t]);
    }
  }

  lemma BeginningBalances(cfg: Config, s: State, t: nat, step: Step, k: Key)
    requires Enabled(s, t, step) && !step.Proceed?
    ensures var s' := Next(cfg, s, t, step);
      s'.tasks == s.tasks[t := s'.tasks[t]] && Balanced(cfg, s, s.tasks[t], s', s'.tasks[t], k, 0, 0)
  {
  }

  /** The counts of a whole run, from s to its end. */
  ghost predicate Counted(cfg: Config, s: State, end: State, k: Key, grants: nat, refusals: nat) {
    && multiset(end.noted)[k] + Sum(end.tasks, Recording(k)) == multiset(s.noted)[k] + Sum(s.tasks, Recording(k)) + grants
    && (cfg.eventLog ==>
          multiset(end.closeNotes)[k] + Sum(s.tasks, Deciding(k))
          == multiset(s.closeNotes)[k] + Sum(end.tasks, Deciding(k)) + grants + refusals)
    && (!cfg.eventLog ==> grants == refusals == 0)
    && (cfg.cap == 0 ==> refusals == 0)
  }

  lemma EventCounts(cfg: Config, s: State, t: nat, step: Step, k: Key)
    requires Enabled(s, t, step) && EventsOff(cfg, s) && CapOff(cfg, s)
    ensures Counted(cfg, s, Next(cfg, s, t, step), k,
                    One(Grants(cfg, s, t, step, k)), One(Refuses(cfg, s, t, step, k)))
  {
    hide Sum, Next, Recording, Deciding, EventsOff, CapOff;
    if !step.Proceed? {
      BeginningBalances(cfg, s, t, step, k);
    } else if s.tasks[t].Notes? {
      NotingBalances(cfg, s, t, k);
    } else if HasJob(s.tasks[t]) && !s.tasks[t].Granted? {
      ChargingBalances(cfg, s, t, k);
    } else {
      WritingBalances(cfg, s, t, k);
    }
    var pc := Next(cfg, s, t, step).tasks[t];
    SumUpdate(s.tasks, t, pc, Recording(k));
    SumUpdate(s.tasks, t, pc, Deciding(k));
  }

  lemma {:induction false} EventsCounted(cfg: Config, s: State, schedule: seq<(nat, Step)>, end: State, k: Key)
    requires Runs(cfg, s, schedule, end) && EventsOff(cfg, s) && CapOff(cfg, s)
    ensures Counted(cfg, s, end, k, GrantCount(cfg, s, schedule, end, k), RefusalCount(cfg, s, schedule, end, k))
    decreases |schedule|
  {
    hide Sum, Next, Grants, Refuses, Recording, Deciding, EventsOff, CapOff;
    if schedule != [] {
      var (t, step) := schedule[0];
      EventCounts(cfg, s, t, step, k);
      OffKept(cfg, s, t, step);
      EventsCounted(cfg, Next(cfg, s, t, step), schedule[1..], end, k);
    }
  }

  /** A refusal leaves the run stopped once every task is idle. */
  lemma {:induction false} RefusalsStop(cfg: Config, s: State, schedule: seq<(nat, Step)>, end: State, k: Key)
    requires cfg.cap > 0 && Inv(cfg, s) && Runs(cfg, s, schedule, end)
    requires RefusalCount(cfg, s, schedule, end, k) > 0 || Stopping(s)
    ensures Stopping(end)
    decreases |schedule|
  {
    hide Next, Inv, Overflows, Refuses, Stopping;
    if schedule != [] {
      var (t, step) := schedule[0];
      OverflowStops(cfg, s, t, step);
      InvKept(cfg, s, t, step);
      if Refuses(cfg, s, t, step, k) {
        RefusedWhileStopping(cfg, s, t, step, k);
      }
      RefusalsStop(cfg, Next(cfg, s, t, step), schedule[1..], end, k);
    }
  }

  lemma RefusedWhileStopping(cfg: Config, s: State, t: nat, step: Step, k: Key)
    requires cfg.cap > 0 && Inv(cfg, s) && Enabled(s, t, step) && Refuses(cfg, s, t, step, k)
    ensures Stopping(s) || Overflows(cfg, s, t, step)
  {
  }

  lemma OffAtStart(cfg: Config, n: nat, k: Key)
    ensures EventsOff(cfg, Init(n)) && CapOff(cfg, Init(n))
    ensures Sum(Init(n).tasks, Recording(k)) == Sum(Init(n).tasks, Deciding(k)) == 0
  {
    SumZero(Init(n).tasks, Recording(k));
    SumZero(Init(n).tasks, Deciding(k));
  }

  lemma NoneAtRest(s: State, k: Key)
    requires Quiescent(s)
    ensures Sum(s.tasks, Recording(k)) == Sum(s.tasks, Deciding(k)) == 0
  {
    SumZero(s.tasks, Recording(k));
    SumZero(s.tasks, Deciding(k));
  }

  /** Over every run, at rest, a lossy stream's truncation event is in the event log exactly when its connection was
      closed, there is an event log and the charge of that event was not refused. The event is charged once, when it is
      due at all, and written once, when that is granted; a refusal means that the run has stopped. */
  lemma LossReachesTheEventLog(cfg: Config, n: nat, schedule: seq<(nat, Step)>, s: State, k: Key)
    requires Runs(cfg, Init(n), schedule, s) && Quiescent(s)
    ensures var grants, refusals := GrantCount(cfg, Init(n), schedule, s, k), RefusalCount(cfg, Init(n), schedule, s, k);
      && multiset(s.noted)[k] == grants
      && grants + refusals == One(k.conn in s.closed && cfg.eventLog && Lossy(cfg, s, k))
      && (k in s.noted <==> k.conn in s.closed && cfg.eventLog && Lossy(cfg, s, k) && refusals == 0)
      && (refusals > 0 ==> s.stopped)
  {
    hide Sum, Runs, Lossy, Recording, Deciding, EventsOff, CapOff, GrantCount, RefusalCount, Inv;
    OffAtStart(cfg, n, k);
    EventsCounted(cfg, Init(n), schedule, s, k);
    NoneAtRest(s, k);
    NoSilentLoss(cfg, n, schedule, s, k);
    if RefusalCount(cfg, Init(n), schedule, s, k) > 0 {
      assert cfg.cap > 0;
      InvInit(cfg, n);
      RefusalsStop(cfg, Init(n), schedule, s, k);
    }
  }

  /** A run of one task, at rest, whose stream k lost bytes that its event log does not tell of, and whose counter is not
      the bytes on disk. */
  ghost predicate Untold(cfg: Config, schedule: seq<(nat, Step)>, s: State, k: Key) {
    && Runs(cfg, Init(1), schedule, s) && Quiescent(s)
    && Lossy(cfg, s, k) && k !in s.noted && s.used != OnDisk(cfg, s)
  }

  /** A lone task writes a line of the event log that fits. */
  lemma LineWritten(cfg: Config, past: seq<(nat, Step)>, s: State, n: nat) returns (schedule: seq<(nat, Step)>, z: State)
    requires cfg.cap > 0 && cfg.eventLog && n > 0 && Runs(cfg, Init(1), past, s)
    requires s.tasks == [Idle] && |s.held| == 1 && !s.stopped && s.used + n <= cfg.cap
    ensures Runs(cfg, Init(1), schedule, z) && z == s.(used := s.used + n, jsonl := s.jsonl + n)
  {
    hide Lossy, Announces, Flatten, Runs;
    var p := [(0, Proceed)];
    var s1 := s.(tasks := [Load(LineJob(n))]);
    assert Next(cfg, s, 0, BeginLine(n)) == s1;
    var s2 := s1.(tasks := [Add(LineJob(n))]);
    assert Next(cfg, s1, 0, Proceed) == s2;
    var s3 := s2.(tasks := [Granted(LineJob(n))], used := s.used + n);
    assert Next(cfg, s2, 0, Proceed) == s3;
    z := s.(used := s.used + n, jsonl := s.jsonl + n);
    assert Next(cfg, s3, 0, Proceed) == z;
    hide Next, Init;
    RunsOn(cfg, Init(1), past, s, 0, BeginLine(n));
    schedule := past + [(0, BeginLine(n))];
    RunsOn(cfg, Init(1), schedule, s1, 0, Proceed);
    RunsOn(cfg, Init(1), schedule + p, s2, 0, Proceed);
    RunsOn(cfg, Init(1), schedule + p + p, s3, 0, Proceed);
    schedule := schedule + p + p + p;
  }

  /** A budget of a thousand bytes, and streams that keep their first byte only. */
  const SMALL := Config(1000, Limits(1, 0), true)

  /** A connection is opened, in a line of 300 bytes. */
  lemma LossyOpening() returns (schedule: seq<(nat, Step)>, s: State)
    ensures Runs(SMALL, Init(1), schedule, s)
    ensures s == Init(1).(tasks := [Idle], nextConn := 2, held := [{1}], owner := map[1 := 0], used := 300, jsonl := 300)
  {
    hide Runs;
    var s0 := Init(1);
    assert s0.tasks == [Idle] && s0.held == [{}];
    var s1 := s0.(nextConn := 2, held := [{1}], owner := map[1 := 0]);
    assert s0.held[0] + {1} == {1} && s0.held[0 := {1}] == s1.held && s0.owner[1 := 0] == s1.owner;
    assert Next(SMALL, s0, 0, NewConn) == s1;
    RunsNowhere(SMALL, s0);
    RunsOn(SMALL, s0, [], s0, 0, NewConn);
    schedule, s := LineWritten(SMALL, [] + [(0, NewConn)], s1, 300);
  }

  /** Its first message has two bytes, and a line of 350. */
  lemma LossyWrite() returns (schedule: seq<(nat, Step)>, s: State)
    ensures Runs(SMALL, Init(1), schedule, s) && s == AfterLossyWrite()
  {
    hide Lossy, Announces, Flatten, Runs;
    var k, data, p := Key(1, Rx), [7, 7], [(0, Proceed)];
    var s1;
    schedule, s1 := LossyOpening();
    var s2 := s1.(tasks := [Load(RawJob(k, data))], received := map[k := [data]]);
    assert [] + [data] == [data] && s1.received[k := [data]] == s2.received;
    assert Next(SMALL, s1, 0, BeginRaw(k, data)) == s2;
    var s3 := s2.(tasks := [Add(RawJob(k, data))]);
    assert Next(SMALL, s2, 0, Proceed) == s3;
    var s4 := s3.(tasks := [Granted(RawJob(k, data))], used := 302);
    assert Next(SMALL, s3, 0, Proceed) == s4;
    var s5 := s4.(tasks := [AnnounceTrunc(k)], written := map[k := [data]]);
    LosesOne(SMALL, s4, k);
    assert Next(SMALL, s4, 0, Proceed) == s5;
    var s6 := s5.(tasks := [Idle], truncLines := [k]);
    assert Next(SMALL, s5, 0, Proceed) == s6;
    hide Next, Init;
    RunsOn(SMALL, Init(1), schedule, s1, 0, BeginRaw(k, data));
    schedule := schedule + [(0, BeginRaw(k, data))];
    RunsOn(SMALL, Init(1), schedule, s2, 0, Proceed);
    RunsOn(SMALL, Init(1), schedule + p, s3, 0, Proceed);
    RunsOn(SMALL, Init(1), schedule + p + p, s4, 0, Proceed);
    RunsOn(SMALL, Init(1), schedule + p + p + p, s5, 0, Proceed);
    schedule, s := LineWritten(SMALL, schedule + p + p + p + p, s6, 350);
  }

  ghost function AfterLossyWrite(): State {
    var k, chunks := Key(1, Rx), [[7, 7]];
    State(652, false, 2, [Idle], [{1}], map[1 := 0], map[k := chunks], map[k := chunks], {}, 650, 0, [k], [], [])
  }

  /** The connection is closed, and the event that tells of the loss takes 400 bytes. */
  lemma LossyClose() returns (schedule: seq<(nat, Step)>, s: State)
    ensures Runs(SMALL, Init(1), schedule, s)
    ensures s == AfterLossyWrite().(tasks := [Add(LossJob(Finished(Key(1, Rx), 400), [Finished(Key(1, Tx), 400)]))],
                                    held := [{}], closed := {1}, closeNotes := [Key(1, Rx)])
  {
    hide Lossy, Announces, Flatten, Runs;
    var rx, tx, p := Finished(Key(1, Rx), 400), Finished(Key(1, Tx), 400), [(0, Proceed)];
    var s0;
    schedule, s0 := LossyWrite();
    var s1 := s0.(tasks := [Notes([rx, tx])], held := [{}], closed := {1});
    assert s0.held[0] - {1} == {} && s0.held[0 := {}] == s1.held && {} + {1} == s1.closed;
    assert Next(SMALL, s0, 0, Close(1, 400, 400)) == s1;
    LosesOne(SMALL, Init(1).(tasks := [Granted(RawJob(rx.key, [7, 7]))]), rx.key);
    var s2 := s1.(tasks := [Load(LossJob(rx, [tx]))], closeNotes := [rx.key]);
    assert [rx, tx][1..] == [tx] && [] + [rx.key] == [rx.key];
    assert Next(SMALL, s1, 0, Proceed) == s2;
    s := s2.(tasks := [Add(LossJob(rx, [tx]))]);
    assert Next(SMALL, s2, 0, Proceed) == s;
    hide Next, Init;
    RunsOn(SMALL, Init(1), schedule, s0, 0, Close(1, 400, 400));
    schedule := schedule + [(0, Close(1, 400, 400))];
    RunsOn(SMALL, Init(1), schedule, s1, 0, Proceed);
    RunsOn(SMALL, Init(1), schedule + p, s2, 0, Proceed);
    schedule := schedule + p + p;
  }

  /** It is refused, and stops the run. */
  lemma LossyRefusal() returns (schedule: seq<(nat, Step)>, s: State)
    ensures Runs(SMALL, Init(1), schedule, s) && s == AfterLossyClose()
  {
    hide Lossy, Announces, Flatten, Runs;
    var tx, p := Finished(Key(1, Tx), 400), [(0, Proceed)];
    var job := LossJob(Finished(Key(1, Rx), 400), [tx]);
    var s3;
    schedule, s3 := LossyClose();
    var s4 := s3.(tasks := [Refund(job)], used := 1052);
    assert Next(SMALL, s3, 0, Proceed) == s4;
    var s5 := s4.(tasks := [Swap(job)], used := 652);
    assert Next(SMALL, s4, 0, Proceed) == s5;
    var s6 := s5.(tasks := [AnnounceLimit(job)], stopped := true);
    assert Next(SMALL, s5, 0, Proceed) == s6;
    var s7 := s6.(tasks := [Notes([tx])], limitLines := 1);
    assert Next(SMALL, s6, 0, Proceed) == s7;
    var s8 := s7.(tasks := [Notes([])]);
    LosesOne(SMALL, Init(1).(tasks := [Granted(RawJob(tx.key, [7, 7]))]), tx.key);
    assert Get(s7.written, tx.key) == [] && !Lossy(SMALL, s7, tx.key) && [tx][1..] == [];
    assert Next(SMALL, s7, 0, Proceed) == s8;
    s := AfterLossyClose();
    assert Next(SMALL, s8, 0, Proceed) == s;
    hide Next, Init;
    RunsOn(SMALL, Init(1), schedule, s3, 0, Proceed);
    RunsOn(SMALL, Init(1), schedule + p, s4, 0, Proceed);
    RunsOn(SMALL, Init(1), schedule + p + p, s5, 0, Proceed);
    schedule := schedule + p + p + p;
    RunsOn(SMALL, Init(1), schedule, s6, 0, Proceed);
    RunsOn(SMALL, Init(1), schedule + p, s7, 0, Proceed);
    RunsOn(SMALL, Init(1), schedule + p + p, s8, 0, Proceed);
    schedule := schedule + p + p + p;
  }

  ghost function AfterLossyClose(): State {
    AfterLossyWrite().(held := [{}], closed := {1}, stopped := true, limitLines := 1, closeNotes := [Key(1, Rx)])
  }

  /** So the event log does not tell every loss: not that of a stream still open at the end, and not that of a closed
      stream whose event did not fit. In neither run is the counter what is on disk. */
  lemma SomeLossesAreUntold()
    ensures exists schedule, s :: Untold(SMALL, schedule, s, Key(1, Rx)) && 1 !in s.closed && !s.stopped
    ensures exists schedule, s :: Untold(SMALL, schedule, s, Key(1, Rx)) && 1 in s.closed
  {
    var a, s := LossyWrite();
    var b, z := LossyRefusal();
    hide Runs, Untold, Next;
    IsUntold(a, s);
    IsUntold(b, z);
  }

  lemma IsUntold(schedule: seq<(nat, Step)>, s: State)
    requires Runs(SMALL, Init(1), schedule, s) && Quiescent(s)
    requires s.written == map[Key(1, Rx) := [[7, 7]]] && s.noted == []
    ensures Untold(SMALL, schedule, s, Key(1, Rx))
  {
    hide Lossy, Runs, OnDisk, Dropped;
    LosesOne(SMALL, Init(1).(tasks := [Granted(RawJob(Key(1, Rx), [7, 7]))]), Key(1, Rx));
    assert Lossy(SMALL, s, Key(1, Rx));
    assert SomeLossy(SMALL, s);
    BudgetAtRest(SMALL, 1, schedule, s);
  }

  /** Without a cap the counter stays at nothing, here with a line of 300 bytes on disk and no stream at all. */
  lemma UncappedRunCountsNothing(cfg: Config)
    requires cfg.cap == 0 && cfg.eventLog
    ensures exists schedule, s ::
      && Runs(cfg, Init(1), schedule, s) && Quiescent(s) && !SomeLossy(cfg, s)
      && s.used == 0 && OnDisk(cfg, s) == 300
  {
    hide Runs;
    var s0 := Init(1);
    assert s0.tasks == [Idle] && |s0.held| == 1;
    var s1 := s0.(tasks := [Granted(LineJob(300))]);
    assert Next(cfg, s0, 0, BeginLine(300)) == s1;
    var s2 := s0.(jsonl := 300);
    assert Next(cfg, s1, 0, Proceed) == s2;
    RunsNowhere(cfg, s0);
    RunsOn(cfg, s0, [], s0, 0, BeginLine(300));
    RunsOn(cfg, s0, [] + [(0, BeginLine(300))], s1, 0, Proceed);
    assert EndsKept(cfg, s2) == map[];
    assert OnDisk(cfg, s2) == 300;
    assert Runs(cfg, Init(1), [] + [(0, BeginLine(300))] + [(0, Proceed)], s2);
  }

  lemma LosesOne(cfg: Config, s: State, k: Key)
    requires cfg.limits == Limits(1, 0) && s.tasks == [Granted(RawJob(k, [7, 7]))] && s.written == map[]
    ensures Announces(cfg.limits, Flatten(Get(s.written, k)), [7, 7])
    ensures forall z: State :: Get(z.written, k) == [[7, 7]] ==> Lossy(cfg, z, k)
    ensures forall z: State :: Get(z.written, k) == [] ==> !Lossy(cfg, z, k)
  {
    hide DroppedOf, Exceeds;
    OneOfTwoIsLost();
    assert Flatten([]) == [] && [] + [7, 7] == [7, 7];
    assert Flatten([[7, 7]]) == Flatten([]) + [7, 7];
  }

  lemma OneOfTwoIsLost()
    ensures var lim := Limits(1, 0);
      Exceeds(lim, [7, 7]) && !Exceeds(lim, []) && DroppedOf(lim, [7, 7]) == 1 && DroppedOf(lim, []) == 0
  {
  }
}
