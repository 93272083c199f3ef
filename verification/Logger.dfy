/** The streams that are open, one for each connection and direction. */
module StreamTable {
  import opened Wrappers
  import opened Bytes
  import opened Landing
  import opened CaptureStream
  import opened StreamKeys

  class Sinks {
    const limits: Limits
    var raw: map<Key, Stream>
    ghost var Repr: set<object>

    ghost predicate Valid()
      reads this, Repr
      ensures Valid() ==> this in Repr
    {
      && this in Repr
      && (forall k :: k in raw ==> raw[k] in Repr && raw[k].Repr <= Repr && this !in raw[k].Repr)
      && (forall k :: k in raw ==> raw[k].Valid() && raw[k].limits == limits)
      && (forall j, k :: j in raw && k in raw && j != k ==> raw[j].Repr !! raw[k].Repr)
    }

    /** Every byte written to each open stream. */
    ghost function Histories(): map<Key, seq<byte>>
      requires Valid()
      reads this, Repr
    {
      map k | k in raw :: raw[k].history
    }

    constructor (limits: Limits)
      ensures Valid() && fresh(Repr)
      ensures this.limits == limits && Histories() == map[]
    {
      this.limits := limits;
      raw := map[];
      Repr := {this};
    }

    method Open(key: Key)
      requires Valid() && key !in raw
      modifies this
      ensures Valid() && fresh(Repr - old(Repr))
      ensures Histories() == old(Histories())[key := []] && key in raw
    {
      hide Stream.Valid;
      var st := new Stream(limits);
      raw := raw[key := st];
      Repr := Repr + st.Repr;
    }

    method Write(key: Key, data: seq<byte>) returns (first: bool)
      requires Valid() && key in raw
      modifies Repr
      ensures Valid() && fresh(Repr - old(Repr))
      ensures Histories() == old(Histories())[key := old(Histories()[key]) + data]
      ensures first == Announces(limits, old(Histories()[key]), data)
    {
      hide Announces, Stream.Valid;
      first := raw[key].Write(data);
      Repr := Repr + raw[key].Repr;
    }

    /** Finishes a stream, if it is open, and forgets it. */
    method Finish(key: Key) returns (sum: Option<Summary>)
      requires Valid()
      modifies this
      ensures Valid() && Repr == old(Repr) && raw == old(raw) - {key}
      ensures Histories() == old(Histories()) - {key}
      ensures sum == if key in old(Histories()) then Some(SummaryOf(limits, old(Histories()[key]))) else None
      ensures key in old(Histories()) ==>
        var h := old(Histories()[key]);
        && sum.value.total == |h| && sum.value.head + sum.value.tail + sum.value.dropped == |h|
        && sum.value.head == (if limits.head == 0 then |h| else Min(limits.head, |h|))
        && sum.value.tail == Min(limits.tail, |h| - sum.value.head)
        && TailBytes(sum.value) == h[|h| - sum.value.tail..]
        && (sum.value.tailFile != NoTailFile <==> sum.value.tail > 0)
    {
      hide Stream.Valid, SummaryOf, TailBytes;
      if key !in raw {
        sum := None;
      } else {
        var s := raw[key].Finish();
        sum := Some(s);
        SummaryMeans(limits, raw[key].history);
      }
      raw := raw - {key};
    }
  }
}

/** The logger as one task sees it: the budget and the streams, one call at a time. */
module LoggerObject {
  import opened Bytes
  import opened Wrappers
  import opened Landing
  import opened CaptureStream
  import opened StreamKeys
  import opened Budget
  import opened StreamTable

  /** A line on the console. */
  datatype Notice = LimitReached | StreamTruncated(key: Key) | StreamLost(key: Key, summary: Summary)

  /** The budget, the bytes of the event log, the streams whose loss it reports, and the console. */
  datatype Books = Books(used: nat, stopped: bool, jsonl: nat, noted: seq<Key>, console: seq<Notice>)

  /** The books after charging n bytes; the refusal that stops the run is the one announced. */
  ghost function AfterCharge(cap: nat, b: Books, n: nat): Books {
    var c := Charging(cap, b.used, b.stopped, n);
    b.(used := c.used, stopped := c.stopped,
       console := if c.stopped && !b.stopped then b.console + [LimitReached] else b.console)
  }

  /** An event of n bytes is written when there is an event log and the charge is granted. */
  ghost predicate EventWritten(cap: nat, eventLog: bool, b: Books, n: nat) {
    eventLog && Charging(cap, b.used, b.stopped, n).granted
  }

  /** The books after logging an event whose line takes n bytes, which may report what a stream lost. */
  ghost function AfterEvent(cap: nat, eventLog: bool, b: Books, about: Option<Key>, n: nat): Books {
    if !eventLog then b
    else if !EventWritten(cap, eventLog, b, n) then AfterCharge(cap, b, n)
    else AfterCharge(cap, b, n).(jsonl := b.jsonl + n, noted := b.noted + if about.Some? then [about.value] else [])
  }

  /** The books after a stream was finished: a stream that lost bytes is noted on the console, and then an event of n
      bytes is due. */
  ghost function AfterFinish(cap: nat, eventLog: bool, b: Books, key: Key, sum: Option<Summary>, n: nat): Books {
    if sum == None || sum.value.dropped == 0 then b
    else AfterEvent(cap, eventLog, b.(console := b.console + [StreamLost(key, sum.value)]), Some(key), n)
  }

  class Logger {
    const cap: nat
    const rawFiles: bool
    const eventLog: bool
    const sinks: Sinks
    /** Bytes in the event log. */
    var jsonl: nat
    /** The streams its truncation events are about. */
    var noted: seq<Key>
    var diskUsed: nat
    var diskStopped: bool
    var nextConn: nat
    var console: seq<Notice>

    ghost predicate Valid()
      reads this, sinks, sinks.Repr
    {
      sinks.Valid() && this !in sinks.Repr && LimitTold()
    }

    /** The console has one LIMIT line if the run has stopped, and none otherwise; without a cap no run stops. Every
        method keeps this, so it holds after any calls in any order. */
    ghost predicate LimitTold()
      reads this
    {
      && multiset(console)[LimitReached] == (if diskStopped then 1 else 0)
      && (cap == 0 ==> !diskStopped)
    }

    ghost function Current(): Books
      reads this
    {
      Books(diskUsed, diskStopped, jsonl, noted, console)
    }

    /** The bytes written to a stream so far. */
    ghost function History(k: Key): seq<byte>
      requires Valid()
      reads this, sinks, sinks.Repr
    {
      if k in sinks.raw then sinks.Histories()[k] else []
    }

    /** What finishing a stream now would report. */
    ghost function Report(k: Key): Option<Summary>
      requires Valid()
      reads this, sinks, sinks.Repr
    {
      if k in sinks.raw then Some(SummaryOf(sinks.limits, sinks.Histories()[k])) else None
    }

    constructor (cap: nat, limits: Limits, rawFiles: bool, eventLog: bool)
      ensures Valid() && fresh(sinks.Repr) && sinks.limits == limits
      ensures this.cap == cap && this.rawFiles == rawFiles && this.eventLog == eventLog
      ensures Current() == Books(0, false, 0, [], []) && nextConn == 1 && sinks.Histories() == map[]
    {
      this.cap, this.rawFiles, this.eventLog := cap, rawFiles, eventLog;
      jsonl, noted, diskUsed, diskStopped, nextConn, console := 0, [], 0, false, 1, [];
      sinks := new Sinks(limits);
    }

    method NextConnId() returns (id: nat)
      modifies this`nextConn
      ensures id == old(nextConn) && nextConn == id + 1
    {
      id := nextConn;
      nextConn := nextConn + 1;
    }

    /** Charges n bytes against the run's cap. */
    method Charge(n: nat) returns (granted: bool)
      requires LimitTold()
      modifies this`diskUsed, this`diskStopped, this`console
      ensures LimitTold()
      ensures granted == Charging(cap, old(diskUsed), old(diskStopped), n).granted
      ensures Current() == AfterCharge(cap, old(Current()), n)
      ensures granted <==> cap == 0 || (!old(diskStopped) && old(diskUsed) + n <= cap)
      ensures diskUsed == old(diskUsed) + (if granted && cap > 0 then n else 0)
      ensures diskStopped <==> old(diskStopped) || !granted
      ensures console == old(console) +
        if cap > 0 && !old(diskStopped) && old(diskUsed) + n > cap then [LimitReached] else []
    {
      if cap == 0 {
        return true;
      }
      if diskStopped {
        return false;
      }
      diskUsed := diskUsed + n;
      var used := diskUsed;
      if used > cap {
        diskUsed := diskUsed - n;
        var was := diskStopped;
        diskStopped := true;
        if !was {
          console := console + [LimitReached];
        }
        return false;
      }
      return true;
    }

    /** Appends a line of n bytes, newline included, to the event log if the budget allows. A truncation event is about
        the stream it reports. */
    method Emit(about: Option<Key>, n: nat)
      requires LimitTold()
      modifies this`diskUsed, this`diskStopped, this`console, this`jsonl, this`noted
      ensures LimitTold()
      ensures Current() == AfterEvent(cap, eventLog, old(Current()), about, n)
      ensures jsonl == old(jsonl) +
        if eventLog && (cap == 0 || (!old(diskStopped) && old(diskUsed) + n <= cap)) then n else 0
      ensures console == old(console) +
        if eventLog && cap > 0 && !old(diskStopped) && old(diskUsed) + n > cap then [LimitReached] else []
    {
      if !eventLog {
        return;
      }
      var granted := Charge(n);
      if granted {
        jsonl := jsonl + n;
        noted := noted + if about.Some? then [about.value] else [];
      }
    }

    /** Hands a message to its stream if the budget allows, opening the stream on its first message. */
    method RawWrite(key: Key, data: seq<byte>)
      requires Valid()
      modifies this`diskUsed, this`diskStopped, this`console, sinks.Repr
      ensures Valid() && fresh(sinks.Repr - old(sinks.Repr))
      ensures !rawFiles || data == [] ==> Current() == old(Current()) && sinks.Histories() == old(sinks.Histories())
      ensures rawFiles && data != [] ==>
        var b, before := AfterCharge(cap, old(Current()), |data|), old(History(key));
        if Charging(cap, old(diskUsed), old(diskStopped), |data|).granted then
          && sinks.Histories() == old(sinks.Histories())[key := before + data]
          && Current() == if Announces(sinks.limits, before, data) then b.(console := b.console + [StreamTruncated(key)]) else b
        else sinks.Histories() == old(sinks.Histories()) && Current() == b
    {
      hide Announces, Sinks.Valid;
      if !rawFiles || data == [] {
        return;
      }
      var granted := Charge(|data|);
      if !granted {
        return;
      }
      Deliver(key, data);
    }

    /** The write itself, under the sinks' lock, and the stream's announcement. */
    method Deliver(key: Key, data: seq<byte>)
      requires Valid()
      modifies this`console, sinks.Repr
      ensures Valid() && fresh(sinks.Repr - old(sinks.Repr))
      ensures sinks.Histories() == old(sinks.Histories())[key := old(History(key)) + data]
      ensures console == old(console) +
        if Announces(sinks.limits, old(History(key)), data) then [StreamTruncated(key)] else []
    {
      hide Announces, Sinks.Valid;
      if key !in sinks.raw {
        sinks.Open(key);
      }
      var first := sinks.Write(key, data);
      if first {
        ghost var before := console;
        console := console + [StreamTruncated(key)];
        assert multiset(console)[LimitReached] == multiset(before)[LimitReached];
      }
    }

    /** Finishes both directions of a connection and reports what each lost, in an event of that many bytes. */
    method CloseRaw(conn: nat, rxLine: nat, txLine: nat)
      requires Valid()
      modifies this`diskUsed, this`diskStopped, this`console, this`jsonl, this`noted, sinks
      ensures Valid() && sinks.Repr == old(sinks.Repr)
      ensures !rawFiles ==> Current() == old(Current()) && sinks.Histories() == old(sinks.Histories())
      ensures rawFiles ==>
        var rx, tx := Key(conn, Rx), Key(conn, Tx);
        && sinks.Histories() == old(sinks.Histories()) - {rx, tx}
        && Current() == AfterFinish(cap, eventLog,
                          AfterFinish(cap, eventLog, old(Current()), rx, old(Report(rx)), rxLine),
                          tx, old(Report(tx)), txLine)
    {
      hide Sinks.Valid, SummaryOf, AfterEvent;
      if !rawFiles {
        return;
      }
      var rx := sinks.Finish(Key(conn, Rx));
      var tx := sinks.Finish(Key(conn, Tx));
      Announce(Key(conn, Rx), rx, rxLine);
      Announce(Key(conn, Tx), tx, txLine);
    }

    /** A finished stream that dropped bytes says so. */
    method Announce(key: Key, sum: Option<Summary>, line: nat)
      requires LimitTold()
      modifies this`diskUsed, this`diskStopped, this`console, this`jsonl, this`noted
      ensures LimitTold()
      ensures Current() == AfterFinish(cap, eventLog, old(Current()), key, sum, line)
    {
      if sum == None || sum.value.dropped == 0 {
        return;
      }
      console := console + [StreamLost(key, sum.value)];
      Emit(Some(key), line);
    }

    /** Finishes one stream at shutdown: on the console only. */
    method FlushOne(key: Key)
      requires Valid() && key in sinks.raw
      modifies this`console, sinks
      ensures Valid() && sinks.Repr == old(sinks.Repr) && sinks.raw == old(sinks.raw) - {key}
      ensures sinks.Histories() == old(sinks.Histories()) - {key}
      ensures var sum := SummaryOf(sinks.limits, old(sinks.Histories()[key]));
        console == old(console) + if sum.dropped > 0 then [StreamLost(key, sum)] else []
    {
      hide Sinks.Valid, SummaryOf;
      var sum := sinks.Finish(key);
      if sum.value.dropped > 0 {
        console := console + [StreamLost(key, sum.value)];
      }
    }

    /** Finishes every stream still open at shutdown, in any order. Each one that lost bytes is noted exactly once on
        the console, with the truth about it, and nothing else is said; the event log is left as it was. */
    method Flush()
      requires Valid()
      modifies this`console, sinks
      ensures Valid() && sinks.Histories() == map[]
      ensures diskStopped == old(diskStopped) && jsonl == old(jsonl) && noted == old(noted)
      ensures forall n :: multiset(console)[n] == multiset(old(console))[n] +
                if n.StreamLost? && n.key in old(sinks.Histories()) && n.summary.dropped > 0
                && n.summary == SummaryOf(sinks.limits, old(sinks.Histories())[n.key]) then 1 else 0
    {
      hide Sinks.Valid, SummaryOf;
      ghost var open := sinks.Histories();
      while sinks.raw.Keys != {}
        invariant Valid() && sinks.Repr == old(sinks.Repr)
        invariant forall k :: k in sinks.Histories() ==> k in open && sinks.Histories()[k] == open[k]
        invariant forall n ::
          multiset(console)[n] == multiset(old(console))[n] + Due(sinks.limits, open, sinks.Histories(), n)
        decreases sinks.raw.Keys
      {
        ghost var left := sinks.Histories();
        var key :| key in sinks.raw;
        FlushOne(key);
        DueOnceFinished(sinks.limits, open, left, key);
      }
    }
  }

  /** How often a notice is due once, of the streams in open, only those in left are unfinished. */
  ghost function Due(lim: Limits, open: map<Key, seq<byte>>, left: map<Key, seq<byte>>, n: Notice): nat {
    if n.StreamLost? && n.key in open && n.key !in left && n.summary == SummaryOf(lim, open[n.key]) && n.summary.dropped > 0
    then 1 else 0
  }

  lemma DueOnceFinished(lim: Limits, open: map<Key, seq<byte>>, left: map<Key, seq<byte>>, key: Key)
    requires key in left && key in open
    ensures var sum := SummaryOf(lim, open[key]);
      forall n :: Due(lim, open, left - {key}, n)
                    == Due(lim, open, left, n) + if n == StreamLost(key, sum) && sum.dropped > 0 then 1 else 0
  {
    hide SummaryOf;
  }

  /** A closing note is due exactly for a stream whose two files do not hold all of it. */
  lemma NotesAreHonest(lim: Limits, h: seq<byte>)
    ensures SummaryOf(lim, h).dropped > 0 <==> HeadOf(lim, h) + TailOf(lim, h) != h
    ensures SummaryOf(lim, h).dropped == DroppedOf(lim, h)
  {
    NothingMiscounted(lim, h);
    CompleteIffNothingDropped(lim, h);
  }

  /** A finished stream that lost bytes is always told of on the console, and in the event log if and only if there is
      one and the event's own line is within the budget. */
  lemma LossIsLoggedIff(cap: nat, eventLog: bool, b: Books, key: Key, sum: Summary, n: nat)
    requires sum.dropped > 0
    ensures var z := AfterFinish(cap, eventLog, b, key, Some(sum), n);
      && z.console == b.console + [StreamLost(key, sum)] +
           (if eventLog && cap > 0 && !b.stopped && b.used + n > cap then [LimitReached] else [])
      && z.stopped == (b.stopped || (eventLog && cap > 0 && b.used + n > cap))
      && z.used == b.used + (if eventLog && cap > 0 && !b.stopped && b.used + n <= cap then n else 0)
      && (z.noted == b.noted + [key] <==> eventLog && (cap == 0 || (!b.stopped && b.used + n <= cap)))
      && (z.noted == b.noted + [key] || z.noted == b.noted)
      && z.jsonl == b.jsonl + if z.noted == b.noted then 0 else n
  {
    var c := b.console + [StreamLost(key, sum)];
    assert c <= c + [LimitReached];
  }
}
