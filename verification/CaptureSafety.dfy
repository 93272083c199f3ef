/** What every interleaving of the logger's tasks keeps. */
module CaptureSafety {
  import opened Bytes
  import opened Landing
  import opened Sums
  import opened StreamKeys
  import opened Capture
  import opened Budget

  // ---------------------------------------------------------------- the disk budget

  /** Bytes granted by a charge and not yet written. */
  ghost function Pending(pc: Pc): nat {
    if pc.Granted? then pc.job.Cost() else 0
  }

  /** Bytes added by a refused charge and not yet given back. */
  ghost function AwaitingRefund(pc: Pc): nat {
    if pc.Refund? then pc.job.Cost() else 0
  }

  ghost function Sizes(written: map<Key, seq<seq<byte>>>): map<Key, nat> {
    map k | k in written :: |Flatten(written[k])|
  }

  /** Bytes written under a charge: lines of the event log and messages handed to streams. */
  ghost function Spent(s: State): nat {
    s.jsonl + Total(Sizes(s.written))
  }

  ghost function GrantedBytes(s: State): nat {
    Spent(s) + Sum(s.tasks, Pending)
  }

  ghost predicate BudgetInv(cfg: Config, s: State) {
    cfg.cap > 0 ==>
      && s.used == GrantedBytes(s) + Sum(s.tasks, AwaitingRefund)
      && GrantedBytes(s) <= cfg.cap
  }

  lemma SpentGrows(s: State, k: Key, data: seq<byte>)
    ensures Total(Sizes(s.written[k := Get(s.written, k) + [data]])) == Total(Sizes(s.written)) + |data|
  {
    var before := Get(s.written, k);
    FlattenAppend(before, data);
    TotalUpdate(Sizes(s.written), k, |Flatten(before + [data])|);
    assert Sizes(s.written[k := before + [data]]) == Sizes(s.written)[k := |Flatten(before + [data])|];
  }

  lemma WriteSpends(cfg: Config, s: State, t: nat)
    requires t < |s.tasks| && s.tasks[t].Granted?
    ensures var s' := Advance(cfg, s, t);
      && s'.tasks == s.tasks[t := s'.tasks[t]] && s'.used == s.used
      && Spent(s') == Spent(s) + s.tasks[t].job.Cost()
      && Pending(s'.tasks[t]) == AwaitingRefund(s'.tasks[t]) == 0
  {
    hide Total, Sizes, Flatten, Announces;
    if s.tasks[t].job.RawJob? {
      SpentGrows(s, s.tasks[t].job.key, s.tasks[t].job.data);
    }
  }

  lemma ChargeMoves(cfg: Config, s: State, t: nat)
    requires cfg.cap > 0 && t < |s.tasks| && !s.tasks[t].Idle? && !s.tasks[t].Granted?
    ensures var pc, s' := s.tasks[t], Advance(cfg, s, t);
      && s'.tasks == s.tasks[t := s'.tasks[t]] && Spent(s') == Spent(s)
      && (pc.Add? ==> s'.used == s.used + pc.job.Cost())
      && (pc.Add? ==> s'.tasks[t] == if s'.used > cfg.cap then Refund(pc.job) else Granted(pc.job))
      && (pc.Refund? ==> s'.used == s.used - pc.job.Cost())
      && (!pc.Add? ==> Pending(s'.tasks[t]) == AwaitingRefund(s'.tasks[t]) == 0)
      && (!pc.Add? && !pc.Refund? ==> s'.used == s.used)
  {
    hide Total, Sizes, Flatten, Announces, Lossy;
  }

  /** Only a run without a cap grants bytes before it charges them. */
  lemma BeginsSpendNothing(cfg: Config, s: State, t: nat, step: Step)
    requires cfg.cap > 0 && Enabled(s, t, step) && !step.Proceed?
    ensures var s' := Next(cfg, s, t, step);
      && Spent(s') == Spent(s) && s'.used == s.used && s'.tasks == s.tasks[t := s'.tasks[t]]
      && Pending(s.tasks[t]) == AwaitingRefund(s.tasks[t]) == Pending(s'.tasks[t]) == AwaitingRefund(s'.tasks[t]) == 0
  {
  }

  lemma BudgetKept(cfg: Config, s: State, t: nat, step: Step)
    requires Enabled(s, t, step) && BudgetInv(cfg, s)
    ensures BudgetInv(cfg, Next(cfg, s, t, step))
  {
    hide Sum, Spent, Advance;
    if cfg.cap == 0 {
      return;
    }
    if !step.Proceed? {
      BeginsSpendNothing(cfg, s, t, step);
    } else if s.tasks[t].Granted? {
      WriteSpends(cfg, s, t);
    } else {
      ChargeMoves(cfg, s, t);
    }
    var pc := Next(cfg, s, t, step).tasks[t];
    assert Next(cfg, s, t, step).tasks == s.tasks[t := pc];
    SumUpdate(s.tasks, t, pc, Pending);
    SumUpdate(s.tasks, t, pc, AwaitingRefund);
  }

  // ---------------------------------------------------------------- streams without holes

  /** The task is handling a message of stream k. */
  ghost predicate Handling(pc: Pc, k: Key) {
    match pc
    case Load(RawJob(j, _)) => j == k
    case Add(RawJob(j, _)) => j == k
    case Refund(RawJob(j, _)) => j == k
    case Swap(RawJob(j, _)) => j == k
    case AnnounceLimit(RawJob(j, _)) => j == k
    case Granted(RawJob(j, _)) => j == k
    case _ => false
  }

  /** The task is handling a message of stream k or announcing its truncation. */
  ghost predicate About(pc: Pc, k: Key) {
    Handling(pc, k) || pc == AnnounceTrunc(k)
  }

  /** An id is held by the one task that obtained it, until it closes the connection. */
  ghost predicate Holding(s: State) {
    && |s.held| == |s.tasks|
    && (forall c :: c in s.owner ==> s.owner[c] < |s.tasks| && c < s.nextConn)
    && (forall t, c :: 0 <= t < |s.held| && c in s.held[t] ==> c in s.owner && s.owner[c] == t && c !in s.closed)
    && (forall c :: c in s.closed ==> c in s.owner)
  }

  /** Only the task that obtained a connection's id handles its messages and announces its truncation. */
  ghost predicate Ownership(s: State) {
    && Holding(s)
    && (forall k :: k in s.received ==> k.conn in s.owner)
    && (forall k :: k in s.written ==> k in s.received)
    && (forall t, k :: 0 <= t < |s.tasks| && About(s.tasks[t], k)
          ==> k in s.received && s.owner[k.conn] == t)
  }

  /** Where a stream stands that received r and wrote w, while its owner is at pc: nothing is missing before
      the message being handled, unless the run was stopped. */
  ghost predicate StandsAt(pc: Pc, k: Key, r: seq<seq<byte>>, w: seq<seq<byte>>, stopped: bool) {
    if Handling(pc, k) then
      && r != [] && r[|r| - 1] == pc.job.data
      && var before := r[..|r| - 1];
         && w <= before
         && (w == before || (stopped && !pc.Add? && !pc.Granted?) || pc.Refund? || pc.Swap?)
         && (pc.AnnounceLimit? ==> stopped)
    else w <= r && (w == r || stopped)
  }

  ghost function OwnerPc(s: State, k: Key): Pc
    requires Ownership(s)
  {
    if k.conn in s.owner then s.tasks[s.owner[k.conn]] else Idle
  }

  ghost predicate StreamInv(s: State, k: Key)
    requires Ownership(s)
  {
    StandsAt(OwnerPc(s, k), k, Get(s.received, k), Get(s.written, k), s.stopped)
  }

  lemma HoldingKept(cfg: Config, s: State, t: nat, step: Step)
    requires Enabled(s, t, step) && Holding(s)
    ensures Holding(Next(cfg, s, t, step))
  {
    hide Effect, Charge;
    match step
    case NewConn =>
    case BeginRaw(k, data) =>
    case BeginLine(n) =>
    case Close(conn, rxLine, txLine) =>
    case Proceed =>
  }

  lemma OwnershipKept(cfg: Config, s: State, t: nat, step: Step)
    requires Enabled(s, t, step) && Ownership(s)
    ensures Ownership(Next(cfg, s, t, step))
  {
    hide Flatten, Announces, Lossy;
    var s' := Next(cfg, s, t, step);
    HoldingKept(cfg, s, t, step);
    if step.Proceed? {
      AdvanceStaysOnStream(cfg, s, t);
    }
    forall u, k | 0 <= u < |s'.tasks| && About(s'.tasks[u], k)
      ensures k in s'.received && s'.owner[k.conn] == u
    {
      assert u != t ==> About(s.tasks[u], k);
      assert u == t && step.Proceed? ==> About(s.tasks[t], k);
    }
  }

  lemma AdvanceStaysAbout(cfg: Config, s: State, t: nat)
    requires t < |s.tasks| && !s.tasks[t].Idle?
    ensures forall k :: About(Advance(cfg, s, t).tasks[t], k) ==> Handling(s.tasks[t], k)
  {
    hide Flatten, Announces, Lossy;
    match s.tasks[t]
    case Load(job) =>
    case Add(job) =>
    case Refund(job) =>
    case Swap(job) =>
    case AnnounceLimit(job) =>
    case Granted(job) =>
    case AnnounceTrunc(k) =>
    case Notes(fs) =>
  }

  lemma AdvanceWritesOwn(cfg: Config, s: State, t: nat)
    requires t < |s.tasks| && !s.tasks[t].Idle?
    ensures var pc, s' := s.tasks[t], Advance(cfg, s, t);
      s'.written == if pc.Granted? && pc.job.RawJob? then s.written[pc.job.key := Get(s.written, pc.job.key) + [pc.job.data]]
                    else s.written
  {
    hide Flatten, Announces, Lossy;
  }

  /** A step of a task changes only the stream whose message it is handling. */
  lemma AdvanceStaysOnStream(cfg: Config, s: State, t: nat)
    requires t < |s.tasks| && !s.tasks[t].Idle?
    ensures var s' := Advance(cfg, s, t);
      && (forall k :: About(s'.tasks[t], k) ==> Handling(s.tasks[t], k))
      && (forall k :: !Handling(s.tasks[t], k) ==> Get(s'.written, k) == Get(s.written, k))
      && (forall k :: k in s'.written ==> k in s.written || Handling(s.tasks[t], k))
      && (forall k :: k in s.written ==> k in s'.written)
  {
    hide Effect, About;
    AdvanceStaysAbout(cfg, s, t);
    AdvanceWritesOwn(cfg, s, t);
  }

  lemma StreamUntouched(cfg: Config, s: State, t: nat, step: Step, k: Key)
    requires Enabled(s, t, step) && Ownership(s) && StreamInv(s, k)
    requires Ownership(Next(cfg, s, t, step))
    requires !Handling(s.tasks[t], k) && !(step.BeginRaw? && step.key == k)
    ensures StreamInv(Next(cfg, s, t, step), k)
  {
    hide Flatten, Announces, Lossy, Effect;
    if step.Proceed? {
      AdvanceStaysOnStream(cfg, s, t);
    }
  }

  lemma LastMessage(r: seq<seq<byte>>, w: seq<seq<byte>>)
    requires r != [] && w <= r[..|r| - 1]
    ensures w <= r
    ensures w == r[..|r| - 1] ==> w + [r[|r| - 1]] == r
  {
  }

  lemma Advances(cfg: Config, s: State, t: nat, k: Key, r: seq<seq<byte>>)
    requires t < |s.tasks| && Handling(s.tasks[t], k)
    requires StandsAt(s.tasks[t], k, r, Get(s.written, k), s.stopped)
    ensures var s' := Advance(cfg, s, t);
      StandsAt(s'.tasks[t], k, r, Get(s'.written, k), s'.stopped)
  {
    hide Flatten, Announces, Lossy;
    LastMessage(r, Get(s.written, k));
    match s.tasks[t]
    case Load(job) =>
    case Add(job) =>
    case Refund(job) =>
    case Swap(job) =>
    case AnnounceLimit(job) =>
    case Granted(job) =>
      assert Get(Advance(cfg, s, t).written, k) == r;
  }

  lemma StreamAdvances(cfg: Config, s: State, t: nat, k: Key)
    requires t < |s.tasks| && Handling(s.tasks[t], k) && Ownership(s) && StreamInv(s, k)
    requires Ownership(Advance(cfg, s, t))
    ensures StreamInv(Advance(cfg, s, t), k)
  {
    hide Flatten, Announces, Lossy, Effect, StandsAt;
    assert s.owner[k.conn] == t by {
      assert About(s.tasks[t], k);
    }
    Advances(cfg, s, t, k, Get(s.received, k));
  }

  lemma Begins(cfg: Config, k: Key, r: seq<seq<byte>>, w: seq<seq<byte>>, data: seq<byte>, stopped: bool)
    requires w <= r && (w == r || stopped) && (cfg.cap == 0 ==> !stopped)
    ensures StandsAt(Charge(cfg, RawJob(k, data)), k, r + [data], w, stopped)
  {
    assert (r + [data])[..|r|] == r;
  }

  lemma StreamBegins(cfg: Config, s: State, t: nat, k: Key, data: seq<byte>)
    requires Enabled(s, t, BeginRaw(k, data)) && Ownership(s) && StreamInv(s, k)
    requires Ownership(Next(cfg, s, t, BeginRaw(k, data)))
    requires cfg.cap == 0 ==> !s.stopped
    ensures StreamInv(Next(cfg, s, t, BeginRaw(k, data)), k)
  {
    var r, w := Get(s.received, k), Get(s.written, k);
    assert w <= r && (w == r || s.stopped);
    hide StandsAt, Charge;
    Begins(cfg, k, r, w, data, s.stopped);
  }

  lemma StreamKept(cfg: Config, s: State, t: nat, step: Step, k: Key)
    requires Enabled(s, t, step) && Ownership(s) && StreamInv(s, k)
    requires cfg.cap == 0 ==> !s.stopped
    requires Ownership(Next(cfg, s, t, step))
    ensures StreamInv(Next(cfg, s, t, step), k)
  {
    hide Flatten, Announces, Lossy, Advance, StreamInv;
    if step.BeginRaw? && step.key == k {
      StreamBegins(cfg, s, t, k, step.data);
    } else if Handling(s.tasks[t], k) {
      StreamAdvances(cfg, s, t, k);
    } else {
      StreamUntouched(cfg, s, t, step, k);
    }
  }

  // ---------------------------------------------------------------- announcements

  ghost function AtLimitLine(pc: Pc): nat {
    if pc.AnnounceLimit? then 1 else 0
  }

  ghost predicate Uncharged(pc: Pc) {
    pc.Idle? || pc.Granted? || pc.AnnounceTrunc? || pc.Notes?
  }

  /** The stop flag comes with one LIMIT line, printed or about to be; without a cap nothing is ever charged or refused. */
  ghost predicate LimitInv(cfg: Config, s: State) {
    && s.limitLines + Sum(s.tasks, AtLimitLine) == (if s.stopped then 1 else 0)
    && (cfg.cap == 0 ==> !s.stopped && s.used == 0)
    && (cfg.cap == 0 ==> forall t :: 0 <= t < |s.tasks| ==> Uncharged(s.tasks[t]))
  }

  lemma LimitKept(cfg: Config, s: State, t: nat, step: Step)
    requires Enabled(s, t, step) && LimitInv(cfg, s)
    ensures LimitInv(cfg, Next(cfg, s, t, step))
  {
    hide Sum, Flatten, Announces, Lossy;
    var pc := Next(cfg, s, t, step).tasks[t];
    assert Next(cfg, s, t, step).tasks == s.tasks[t := pc];
    SumUpdate(s.tasks, t, pc, AtLimitLine);
  }

  /** A stream that exceeded its head cap has exactly one TRUNC line, printed or about to be; no other has any. */
  ghost predicate TruncInv(cfg: Config, s: State, k: Key)
    requires Ownership(s)
  {
    multiset(s.truncLines)[k] + (if OwnerPc(s, k) == AnnounceTrunc(k) then 1 else 0)
      == if Exceeds(cfg.limits, Flatten(Get(s.written, k))) then 1 else 0
  }

  lemma TruncUntouched(cfg: Config, s: State, t: nat, step: Step, k: Key)
    requires Enabled(s, t, step) && Ownership(s) && TruncInv(cfg, s, k)
    requires Ownership(Next(cfg, s, t, step))
    requires !About(s.tasks[t], k)
    ensures TruncInv(cfg, Next(cfg, s, t, step), k)
  {
    hide Flatten, Announces, Lossy, Exceeds, Effect;
    var s' := Next(cfg, s, t, step);
    if step.Proceed? {
      AdvanceStaysOnStream(cfg, s, t);
      AdvanceStaysOnTruncs(cfg, s, t, k);
    }
    assert OwnerPc(s', k) == AnnounceTrunc(k) <==> OwnerPc(s, k) == AnnounceTrunc(k);
  }

  lemma AdvanceStaysOnTruncs(cfg: Config, s: State, t: nat, k: Key)
    requires t < |s.tasks| && !s.tasks[t].Idle? && !About(s.tasks[t], k)
    ensures multiset(Advance(cfg, s, t).truncLines)[k] == multiset(s.truncLines)[k]
  {
    hide Flatten, Announces, Lossy;
  }

  lemma WriteAnnounces(cfg: Config, s: State, t: nat, k: Key, data: seq<byte>)
    requires t < |s.tasks| && s.tasks[t] == Granted(RawJob(k, data))
    ensures var s' := Advance(cfg, s, t);
      && s'.truncLines == s.truncLines
      && var before, after := Exceeds(cfg.limits, Flatten(Get(s.written, k))), Exceeds(cfg.limits, Flatten(Get(s'.written, k)));
         && (s'.tasks[t] == AnnounceTrunc(k) <==> !before && after)
         && (before ==> after)
  {
    FlattenAppend(Get(s.written, k), data);
  }

  lemma TruncAdvances(cfg: Config, s: State, t: nat, k: Key)
    requires t < |s.tasks| && Ownership(s) && TruncInv(cfg, s, k) && About(s.tasks[t], k)
    requires Ownership(Advance(cfg, s, t))
    ensures TruncInv(cfg, Advance(cfg, s, t), k)
  {
    hide Flatten, Announces, Lossy, Exceeds;
    if s.tasks[t].Granted? {
      WriteAnnounces(cfg, s, t, k, s.tasks[t].job.data);
    }
  }

  lemma TruncKept(cfg: Config, s: State, t: nat, step: Step, k: Key)
    requires Enabled(s, t, step) && Ownership(s) && TruncInv(cfg, s, k)
    requires Ownership(Next(cfg, s, t, step))
    ensures TruncInv(cfg, Next(cfg, s, t, step), k)
  {
    hide TruncInv, Advance;
    if About(s.tasks[t], k) {
      TruncAdvances(cfg, s, t, k);
    } else {
      TruncUntouched(cfg, s, t, step, k);
    }
  }

  /** A closed connection's streams are final, and each lossy one has exactly one closing note, printed or to come. */
  ghost predicate NoteInv(cfg: Config, s: State, k: Key)
    requires Ownership(s)
  {
    && (k.conn in s.closed ==>
          && !Handling(OwnerPc(s, k), k)
          && multiset(s.closeNotes)[k] == if ToNote(OwnerPc(s, k), k) || !Lossy(cfg, s, k) then 0 else 1)
    && (k.conn !in s.closed ==> multiset(s.closeNotes)[k] == 0)
  }

  ghost predicate HasJob(pc: Pc) {
    !pc.Idle? && !pc.AnnounceTrunc? && !pc.Notes?
  }

  /** The finished streams a task has still to look at. */
  ghost function Due(pc: Pc): seq<Finished> {
    if pc.Notes? then pc.finished
    else if HasJob(pc) && pc.job.LossJob? then pc.job.rest
    else []
  }

  ghost predicate ToNote(pc: Pc, k: Key) {
    exists i :: 0 <= i < |Due(pc)| && Due(pc)[i].key == k
  }

  ghost predicate Distinct(fs: seq<Finished>) {
    forall i, j :: 0 <= i < j < |fs| ==> fs[i].key != fs[j].key
  }

  /** Closing notes are due once each, for streams of closed connections, by the task that owns them. */
  ghost predicate NotesInv(s: State) {
    forall t :: 0 <= t < |s.tasks| ==>
      && Distinct(Due(s.tasks[t]))
      && forall i :: 0 <= i < |Due(s.tasks[t])| ==>
           var c := Due(s.tasks[t])[i].key.conn; c in s.closed && c in s.owner && s.owner[c] == t
  }

  lemma DueAdvances(cfg: Config, s: State, t: nat)
    requires t < |s.tasks| && !s.tasks[t].Idle?
    ensures var pc, pc' := s.tasks[t], Advance(cfg, s, t).tasks[t];
      Due(pc') == if pc.Notes? && Due(pc) != [] then Due(pc)[1..] else Due(pc)
  {
    hide Flatten, Announces, Lossy;
  }

  lemma DueBegins(cfg: Config, s: State, t: nat, step: Step)
    requires Enabled(s, t, step) && !step.Proceed?
    ensures var s' := Next(cfg, s, t, step);
      && s'.tasks == s.tasks[t := s'.tasks[t]] && s'.closeNotes == s.closeNotes
      && Due(s.tasks[t]) == []
      && if step.Close? then
           && |Due(s'.tasks[t])| == 2
           && Due(s'.tasks[t])[0].key == Key(step.conn, Rx) && Due(s'.tasks[t])[1].key == Key(step.conn, Tx)
         else Due(s'.tasks[t]) == []
  {
  }

  lemma NotesKept(cfg: Config, s: State, t: nat, step: Step)
    requires Enabled(s, t, step) && NotesInv(s) && Holding(s)
    ensures NotesInv(Next(cfg, s, t, step))
  {
    hide Effect, Charge, Due;
    var s' := Next(cfg, s, t, step);
    assert Distinct(Due(s.tasks[t]));
    if step.Proceed? {
      DueAdvances(cfg, s, t);
    } else {
      DueBegins(cfg, s, t, step);
    }
  }

  lemma AdvanceStaysOnNotes(cfg: Config, s: State, t: nat, k: Key)
    requires t < |s.tasks| && !s.tasks[t].Idle? && !ToNote(s.tasks[t], k)
    ensures var s' := Advance(cfg, s, t);
      multiset(s'.closeNotes)[k] == multiset(s.closeNotes)[k] && !ToNote(s'.tasks[t], k)
  {
    hide Flatten, Announces, Lossy;
    DueAdvances(cfg, s, t);
    if s.tasks[t].Notes? && Due(s.tasks[t]) != [] {
      assert Due(s.tasks[t])[0].key != k;
    }
  }

  lemma NoteUntouched(cfg: Config, s: State, t: nat, step: Step, k: Key)
    requires Enabled(s, t, step) && Ownership(s) && NoteInv(cfg, s, k)
    requires Ownership(Next(cfg, s, t, step))
    requires !ToNote(s.tasks[t], k) && !(step.Close? && step.conn == k.conn)
    ensures NoteInv(cfg, Next(cfg, s, t, step), k)
  {
    hide Flatten, Announces, DroppedOf, Effect, Due;
    var s' := Next(cfg, s, t, step);
    if step.Proceed? {
      AdvanceStaysOnStream(cfg, s, t);
      AdvanceStaysOnNotes(cfg, s, t, k);
      assert Handling(s.tasks[t], k) ==> About(s.tasks[t], k);
      assert Handling(s'.tasks[t], k) ==> About(s'.tasks[t], k);
    } else {
      DueBegins(cfg, s, t, step);
    }
  }

  lemma NotesBegin(cfg: Config, s: State, t: nat, step: Step, k: Key)
    requires Enabled(s, t, step) && step.Close? && step.conn == k.conn && Ownership(s) && NoteInv(cfg, s, k)
    requires Ownership(Next(cfg, s, t, step))
    ensures NoteInv(cfg, Next(cfg, s, t, step), k)
  {
    hide Flatten, Announces, Lossy, Due;
    DueBegins(cfg, s, t, step);
    assert k.dir == Rx || k.dir == Tx;
  }

  lemma NotesAdvance(cfg: Config, s: State, t: nat, k: Key)
    requires t < |s.tasks| && ToNote(s.tasks[t], k) && Ownership(s) && NotesInv(s) && NoteInv(cfg, s, k)
    requires Ownership(Advance(cfg, s, t))
    ensures NoteInv(cfg, Advance(cfg, s, t), k)
  {
    hide Advance, DroppedOf, Flatten;
    var s', fs := Advance(cfg, s, t), Due(s.tasks[t]);
    assert Distinct(fs);
    DueAdvances(cfg, s, t);
    NotingAdvances(cfg, s, t);
    if s.tasks[t].Notes? && fs[0].key != k {
      var i :| 0 <= i < |fs| && fs[i].key == k;
      assert fs[1..][i - 1].key == k;
    }
  }

  lemma NotingAdvances(cfg: Config, s: State, t: nat)
    requires t < |s.tasks| && !s.tasks[t].Idle? && Due(s.tasks[t]) != []
    ensures var s', f := Advance(cfg, s, t), Due(s.tasks[t])[0];
      && s'.closeNotes == s.closeNotes + (if s.tasks[t].Notes? && Lossy(cfg, s, f.key) then [f.key] else [])
      && s'.tasks == s.tasks[t := s'.tasks[t]] && s'.owner == s.owner && s'.closed == s.closed
      && s'.written == s.written
      && forall k :: !Handling(s.tasks[t], k) && !Handling(s'.tasks[t], k)
  {
    hide Flatten, Announces, DroppedOf;
  }

  lemma NoteKept(cfg: Config, s: State, t: nat, step: Step, k: Key)
    requires Enabled(s, t, step) && Ownership(s) && NotesInv(s) && NoteInv(cfg, s, k)
    requires Ownership(Next(cfg, s, t, step))
    ensures NoteInv(cfg, Next(cfg, s, t, step), k)
  {
    hide NoteInv, Advance;
    if step.Close? && step.conn == k.conn {
      NotesBegin(cfg, s, t, step, k);
    } else if ToNote(s.tasks[t], k) {
      NotesAdvance(cfg, s, t, k);
    } else {
      NoteUntouched(cfg, s, t, step, k);
    }
  }

  // ---------------------------------------------------------------- every reachable state

  ghost predicate Inv(cfg: Config, s: State) {
    && Ownership(s)
    && NotesInv(s)
    && LimitInv(cfg, s)
    && BudgetInv(cfg, s)
    && (forall k :: StreamInv(s, k) && TruncInv(cfg, s, k) && NoteInv(cfg, s, k))
  }

  lemma PlainFacts(cfg: Config, s: State)
    requires LimitInv(cfg, s) && Ownership(s)
    ensures cfg.cap == 0 ==> !s.stopped && s.used == 0
    ensures Holding(s)
  {
  }

  lemma InvKept(cfg: Config, s: State, t: nat, step: Step)
    requires Inv(cfg, s) && Enabled(s, t, step)
    ensures Inv(cfg, Next(cfg, s, t, step))
  {
    hide Next, StreamInv, TruncInv, NoteInv, NotesInv, LimitInv, BudgetInv, Ownership, Holding;
    PlainFacts(cfg, s);
    OwnershipKept(cfg, s, t, step);
    NotesKept(cfg, s, t, step);
    LimitKept(cfg, s, t, step);
    BudgetKept(cfg, s, t, step);
    forall k
      ensures StreamInv(Next(cfg, s, t, step), k)
      ensures TruncInv(cfg, Next(cfg, s, t, step), k) && NoteInv(cfg, Next(cfg, s, t, step), k)
    {
      StreamKept(cfg, s, t, step, k);
      TruncKept(cfg, s, t, step, k);
      NoteKept(cfg, s, t, step, k);
    }
  }

  lemma NothingAtStart(cfg: Config, n: nat)
    ensures var s := Init(n);
      Sum(s.tasks, Pending) == Sum(s.tasks, AwaitingRefund) == Sum(s.tasks, AtLimitLine) == Spent(s) == 0
  {
    SumZero(Init(n).tasks, Pending);
    SumZero(Init(n).tasks, AwaitingRefund);
    SumZero(Init(n).tasks, AtLimitLine);
    assert Sizes(map[]) == map[];
  }

  lemma InvInit(cfg: Config, n: nat)
    ensures Inv(cfg, Init(n))
  {
    hide Sum, Spent;
    NothingAtStart(cfg, n);
  }

  lemma {:induction false} InvHolds(cfg: Config, s: State, schedule: seq<(nat, Step)>, end: State)
    requires Inv(cfg, s) && Runs(cfg, s, schedule, end)
    ensures Inv(cfg, end)
    decreases |schedule|
  {
    hide Inv, Next;
    if schedule != [] {
      var (t, step) := schedule[0];
      InvKept(cfg, s, t, step);
      InvHolds(cfg, Next(cfg, s, t, step), schedule[1..], end);
    }
  }

  // ---------------------------------------------------------------- what a run guarantees

  /** Bytes in the event log and in the head and tail of every stream. */
  ghost function OnDisk(cfg: Config, s: State): nat {
    s.jsonl + Total(EndsKept(cfg, s))
  }

  ghost function EndsKept(cfg: Config, s: State): map<Key, nat> {
    map k | k in s.written :: |HeadOf(cfg.limits, Flatten(s.written[k]))| + |TailOf(cfg.limits, Flatten(s.written[k]))|
  }

  ghost function Dropped(cfg: Config, s: State): map<Key, nat> {
    map k | k in s.written :: DroppedOf(cfg.limits, Flatten(s.written[k]))
  }

  lemma SpentIsKeptOrDropped(cfg: Config, s: State)
    ensures Spent(s) == OnDisk(cfg, s) + Total(Dropped(cfg, s))
  {
    forall k | k in s.written
      ensures Sizes(s.written)[k] == EndsKept(cfg, s)[k] + Dropped(cfg, s)[k]
    {
      NothingMiscounted(cfg.limits, Flatten(s.written[k]));
    }
    TotalAdds(EndsKept(cfg, s), Dropped(cfg, s), Sizes(s.written));
  }

  /** Whatever the interleaving, the counter is what was granted plus what is about to be given back,
      and neither the grants nor the bytes on disk ever pass the cap. */
  lemma DiskBudget(cfg: Config, n: nat, schedule: seq<(nat, Step)>, s: State)
    requires cfg.cap > 0 && Runs(cfg, Init(n), schedule, s)
    ensures s.used == GrantedBytes(s) + Sum(s.tasks, AwaitingRefund)
    ensures OnDisk(cfg, s) <= GrantedBytes(s) <= cfg.cap
  {
    InvInit(cfg, n);
    InvHolds(cfg, Init(n), schedule, s);
    SpentIsKeptOrDropped(cfg, s);
  }

  ghost predicate SomeLossy(cfg: Config, s: State) {
    exists k :: k in s.written && Lossy(cfg, s, k)
  }

  lemma DroppedIffLossy(cfg: Config, s: State)
    ensures Total(Dropped(cfg, s)) > 0 <==> SomeLossy(cfg, s)
  {
    TotalIsZero(Dropped(cfg, s));
    assert forall k :: k in s.written ==> (Dropped(cfg, s)[k] == 0 <==> !Lossy(cfg, s, k));
  }

  /** When every task is idle the counter is the bytes on disk plus the bytes the streams dropped, under a cap; without
      one nothing was counted. So the summary, which prints it as the bytes written, is exact if and only if no stream
      dropped anything, or, without a cap, nothing is on disk. It claims too much exactly when a stream dropped bytes
      under a cap, and too little exactly when there are bytes on disk and no cap. */
  lemma BudgetAtRest(cfg: Config, n: nat, schedule: seq<(nat, Step)>, s: State)
    requires Runs(cfg, Init(n), schedule, s) && Quiescent(s)
    ensures s.used == if cfg.cap > 0 then OnDisk(cfg, s) + Total(Dropped(cfg, s)) else 0
    ensures s.used == OnDisk(cfg, s) <==> if cfg.cap > 0 then !SomeLossy(cfg, s) else OnDisk(cfg, s) == 0
    ensures s.used > OnDisk(cfg, s) <==> cfg.cap > 0 && SomeLossy(cfg, s)
    ensures s.used < OnDisk(cfg, s) <==> cfg.cap == 0 && OnDisk(cfg, s) > 0
  {
    hide Runs, OnDisk, Dropped, Total, Sum, SomeLossy;
    DroppedIffLossy(cfg, s);
    if cfg.cap == 0 {
      NothingCounted(cfg, n, schedule, s);
    } else {
      DiskBudget(cfg, n, schedule, s);
      SpentIsKeptOrDropped(cfg, s);
      SumZero(s.tasks, Pending);
      SumZero(s.tasks, AwaitingRefund);
    }
  }

  lemma NothingCounted(cfg: Config, n: nat, schedule: seq<(nat, Step)>, s: State)
    requires cfg.cap == 0 && Runs(cfg, Init(n), schedule, s)
    ensures s.used == 0
  {
    hide Runs;
    InvInit(cfg, n);
    InvHolds(cfg, Init(n), schedule, s);
  }

  /** In every interleaving the next id is new, no two tasks hold the same id, and a closed one is held by none: each
      stream is written by one task, and by none once its connection is closed. */
  lemma OneTaskPerConnection(cfg: Config, n: nat, schedule: seq<(nat, Step)>, s: State)
    requires Runs(cfg, Init(n), schedule, s)
    ensures forall t :: 0 <= t < |s.held| ==> s.nextConn !in s.held[t]
    ensures forall t, u, c :: 0 <= t < |s.held| && 0 <= u < |s.held| && c in s.held[t] && c in s.held[u] ==> t == u
    ensures forall t, c :: 0 <= t < |s.held| && c in s.held[t] ==> c !in s.closed
  {
    hide Runs, NotesInv, LimitInv, BudgetInv, StreamInv, TruncInv, NoteInv, Holding;
    InvInit(cfg, n);
    InvHolds(cfg, Init(n), schedule, s);
    PlainFacts(cfg, s);
    HeldApart(s);
  }

  lemma HeldApart(s: State)
    requires Holding(s)
    ensures forall t :: 0 <= t < |s.held| ==> s.nextConn !in s.held[t]
    ensures forall t, u, c :: 0 <= t < |s.held| && 0 <= u < |s.held| && c in s.held[t] && c in s.held[u] ==> t == u
    ensures forall t, c :: 0 <= t < |s.held| && c in s.held[t] ==> c !in s.closed
  {
    forall t | 0 <= t < |s.held|
      ensures s.nextConn !in s.held[t]
    {
      assert s.nextConn in s.held[t] ==> s.nextConn in s.owner;
    }
    forall t, u, c | 0 <= t < |s.held| && 0 <= u < |s.held| && c in s.held[t] && c in s.held[u]
      ensures t == u
    {
      assert s.owner[c] == t && s.owner[c] == u;
    }
  }

  /** What reaches a stream is a prefix of what was received for it; it falls short at rest only once the run has stopped. */
  lemma NoHole(cfg: Config, n: nat, schedule: seq<(nat, Step)>, s: State, k: Key)
    requires Runs(cfg, Init(n), schedule, s)
    ensures Get(s.written, k) <= Get(s.received, k)
    ensures Quiescent(s) && !s.stopped ==> Get(s.written, k) == Get(s.received, k)
  {
    InvInit(cfg, n);
    InvHolds(cfg, Init(n), schedule, s);
    assert StreamInv(s, k);
  }

  lemma TruncAtRest(cfg: Config, s: State, k: Key)
    requires Quiescent(s) && Ownership(s) && TruncInv(cfg, s, k)
    ensures multiset(s.truncLines)[k] == if Exceeds(cfg.limits, Flatten(Get(s.written, k))) then 1 else 0
  {
  }

  lemma LossAtRest(cfg: Config, s: State, k: Key)
    requires Quiescent(s) && Ownership(s) && TruncInv(cfg, s, k)
    requires Get(s.written, k) == Get(s.received, k) || s.stopped
    ensures var kept := Flatten(Get(s.written, k));
      || HeadOf(cfg.limits, kept) + TailOf(cfg.limits, kept) == Flatten(Get(s.received, k))
      || multiset(s.truncLines)[k] == 1
      || s.stopped
  {
    hide Flatten, HeadOf, TailOf;
    var kept := Flatten(Get(s.written, k));
    CompleteIffNothingDropped(cfg.limits, kept);
    assert !Exceeds(cfg.limits, kept) ==> DroppedOf(cfg.limits, kept) == 0;
  }

  /** At rest every loss has been announced: the two files hold every byte received, or the stream's TRUNC line
      has been printed, or the run's single LIMIT line has. A stream has one TRUNC line if it exceeded its head cap, else
      none, and one closing note if it is closed and lost bytes, else none. */
  lemma NoSilentLoss(cfg: Config, n: nat, schedule: seq<(nat, Step)>, s: State, k: Key)
    requires Runs(cfg, Init(n), schedule, s) && Quiescent(s)
    ensures s.limitLines == if s.stopped then 1 else 0
    ensures var kept := Flatten(Get(s.written, k));
      || HeadOf(cfg.limits, kept) + TailOf(cfg.limits, kept) == Flatten(Get(s.received, k))
      || multiset(s.truncLines)[k] == 1
      || s.limitLines == 1
    ensures multiset(s.truncLines)[k] == if Exceeds(cfg.limits, Flatten(Get(s.written, k))) then 1 else 0
    ensures multiset(s.closeNotes)[k] == if k.conn in s.closed && Lossy(cfg, s, k) then 1 else 0
  {
    hide Flatten, HeadOf, TailOf, DroppedOf, Sum, TruncInv, StreamInv, BudgetInv, Runs;
    InvInit(cfg, n);
    InvHolds(cfg, Init(n), schedule, s);
    SumZero(s.tasks, AtLimitLine);
    NoHole(cfg, n, schedule, s, k);
    assert TruncInv(cfg, s, k) && NoteInv(cfg, s, k);
    LossAtRest(cfg, s, k);
    TruncAtRest(cfg, s, k);
  }
}
