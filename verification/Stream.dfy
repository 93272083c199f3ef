module Bytes {
  type byte = b: int | 0 <= b < 256 witness 0

  function Min(a: nat, b: nat): nat {
    if a < b then a else b
  }

  function Flatten(chunks: seq<seq<byte>>): seq<byte> {
    if chunks == [] then [] else Flatten(chunks[..|chunks| - 1]) + chunks[|chunks| - 1]
  }

  lemma FlattenAppend(chunks: seq<seq<byte>>, chunk: seq<byte>)
    ensures Flatten(chunks + [chunk]) == Flatten(chunks) + chunk
  {
    assert (chunks + [chunk])[..|chunks|] == chunks;
  }
}

/** What a capped stream keeps of everything written to it. */
module Landing {
  import opened Bytes

  /** Bytes kept at the front, 0 for all of them, and bytes kept at the end. */
  datatype Limits = Limits(head: nat, tail: nat) {
    predicate Unlimited() {
      head == 0
    }
  }

  ghost function HeadOf(lim: Limits, h: seq<byte>): seq<byte> {
    if lim.Unlimited() then h else h[..Min(lim.head, |h|)]
  }

  ghost function PastHead(lim: Limits, h: seq<byte>): seq<byte> {
    if lim.Unlimited() then [] else h[Min(lim.head, |h|)..]
  }

  ghost function TailOf(lim: Limits, h: seq<byte>): seq<byte> {
    Last(PastHead(lim, h), lim.tail)
  }

  ghost function Last(s: seq<byte>, n: nat): seq<byte> {
    s[|s| - Min(n, |s|)..]
  }

  ghost function DroppedOf(lim: Limits, h: seq<byte>): nat {
    |PastHead(lim, h)| - |TailOf(lim, h)|
  }

  ghost predicate Exceeds(lim: Limits, h: seq<byte>) {
    !lim.Unlimited() && |h| > lim.head
  }

  /** The state of a stream, and what it must be after the bytes h. */
  datatype Kept = Kept(head: seq<byte>, headWritten: nat, tail: seq<byte>, total: nat, dropped: nat, truncating: bool)

  ghost function Landed(lim: Limits, h: seq<byte>): (s: Kept)
    ensures !lim.Unlimited() ==> s.headWritten <= lim.head && |s.tail| <= lim.tail
    ensures s.truncating == Exceeds(lim, h)
  {
    Kept(HeadOf(lim, h), |HeadOf(lim, h)|, TailOf(lim, h), |h|, DroppedOf(lim, h), Exceeds(lim, h))
  }

  /** The write that takes the stream past its head cap is the one that announces it. */
  ghost predicate Announces(lim: Limits, before: seq<byte>, data: seq<byte>) {
    !Exceeds(lim, before) && Exceeds(lim, before + data)
  }

  ghost function Announcements(lim: Limits, chunks: seq<seq<byte>>): nat {
    if chunks == [] then 0
    else
      var before := chunks[..|chunks| - 1];
      Announcements(lim, before) + if Announces(lim, Flatten(before), chunks[|chunks| - 1]) then 1 else 0
  }

  /** Every byte is in the head, in the tail or counted as dropped, and the two ends are the stream's own ends. */
  lemma NothingMiscounted(lim: Limits, h: seq<byte>)
    ensures |HeadOf(lim, h)| + DroppedOf(lim, h) + |TailOf(lim, h)| == |h|
    ensures HeadOf(lim, h) + h[|HeadOf(lim, h)|..|h| - |TailOf(lim, h)|] + TailOf(lim, h) == h
  {
  }

  /** The head is the stream's front and the tail its back, each as long as its cap allows. */
  lemma EndsAre(lim: Limits, h: seq<byte>)
    ensures var n := if lim.head == 0 then |h| else Min(lim.head, |h|);
      var m := Min(lim.tail, |h| - n);
      HeadOf(lim, h) == h[..n] && TailOf(lim, h) == h[|h| - m..]
  {
  }

  /** The files hold the whole stream exactly when nothing was dropped, which is when both ends have room. */
  lemma CompleteIffNothingDropped(lim: Limits, h: seq<byte>)
    ensures HeadOf(lim, h) + TailOf(lim, h) == h <==> DroppedOf(lim, h) == 0
    ensures DroppedOf(lim, h) == 0 <==> lim.Unlimited() || |h| <= lim.head + lim.tail
  {
    NothingMiscounted(lim, h);
  }

  /** However the bytes are cut into writes, one write announces if the head cap is exceeded and none otherwise. */
  lemma {:induction false} AnnouncedExactlyOnce(lim: Limits, chunks: seq<seq<byte>>)
    ensures Announcements(lim, chunks) == if Exceeds(lim, Flatten(chunks)) then 1 else 0
  {
    if chunks != [] {
      AnnouncedExactlyOnce(lim, chunks[..|chunks| - 1]);
    }
  }

  /** An announced stream has lost nothing yet exactly while its ring still has room for everything past the head. */
  lemma AnnouncedBeforeLossIff(lim: Limits, h: seq<byte>)
    ensures Exceeds(lim, h) && DroppedOf(lim, h) == 0 <==> 0 < lim.head < |h| <= lim.head + lim.tail
  {
    CompleteIffNothingDropped(lim, h);
  }

  /** A write announces when it takes the stream's length past the head cap. */
  lemma AnnouncesMeans(lim: Limits, before: seq<byte>, data: seq<byte>)
    ensures Announces(lim, before, data) <==> lim.head > 0 && |before| <= lim.head < |before + data|
  {
  }

  /** The second of two bytes is announced under a head and a tail of one, and nothing is lost. */
  lemma AnnouncedWithoutLoss()
    ensures Announces(Limits(1, 1), [7], [7]) && DroppedOf(Limits(1, 1), [7] + [7]) == 0
  {
    AnnouncedBeforeLossIff(Limits(1, 1), [7] + [7]);
  }

  /** What a ring of cap bytes holds after more bytes arrive behind what it kept. */
  ghost function Slide(kept: seq<byte>, more: seq<byte>, cap: nat): (ring: seq<byte>)
    ensures |ring| <= |kept| + |more|
  {
    if |more| >= cap then more[|more| - cap..]
    else kept[(if |kept| + |more| > cap then |kept| + |more| - cap else 0)..] + more
  }

  lemma SlideNothing(kept: seq<byte>, cap: nat)
    requires |kept| <= cap
    ensures Slide(kept, [], cap) == kept
  {
  }

  /** Sliding keeps the last cap bytes of everything that ever went in. */
  lemma LastSlides(p: seq<byte>, more: seq<byte>, cap: nat)
    ensures Last(p + more, cap) == Slide(Last(p, cap), more, cap)
  {
  }

  lemma HeadGrows(lim: Limits, h: seq<byte>, data: seq<byte>)
    requires !lim.Unlimited()
    ensures var n := Min(lim.head - |HeadOf(lim, h)|, |data|);
      && HeadOf(lim, h + data) == HeadOf(lim, h) + data[..n]
      && PastHead(lim, h + data) == PastHead(lim, h) + data[n..]
      && (Exceeds(lim, h + data) <==> Exceeds(lim, h) || data[n..] != [])
  {
  }

  /** One write under a cap: the head takes what it has room for, the rest slides through the ring. */
  ghost function AfterWrite(lim: Limits, s: Kept, data: seq<byte>): Kept
    requires s.headWritten <= lim.head
  {
    var n := Min(lim.head - s.headWritten, |data|);
    var rest := data[n..];
    var ring := Slide(s.tail, rest, lim.tail);
    Kept(s.head + data[..n], s.headWritten + n, ring, s.total + |data|,
          s.dropped + |s.tail| + |rest| - |ring|, s.truncating || rest != [])
  }

  lemma WriteLands(lim: Limits, h: seq<byte>, data: seq<byte>)
    requires !lim.Unlimited()
    ensures Landed(lim, h + data) == AfterWrite(lim, Landed(lim, h), data)
  {
    hide HeadOf, PastHead, Last, Slide, Exceeds;
    HeadGrows(lim, h, data);
    var n := Min(lim.head - |HeadOf(lim, h)|, |data|);
    LastSlides(PastHead(lim, h), data[n..], lim.tail);
  }

  lemma WriteLandsUncapped(lim: Limits, h: seq<byte>, data: seq<byte>)
    requires lim.Unlimited()
    ensures var s := Landed(lim, h);
      Landed(lim, h + data) == Kept(s.head + data, s.headWritten + |data|, s.tail, s.total + |data|, s.dropped, s.truncating) && !s.truncating
  {
  }

  lemma NothingLands(lim: Limits)
    ensures Landed(lim, []) == Kept([], 0, [], 0, 0, false)
  {
  }
}

/** A growable double-ended byte queue over a circular buffer. */
module ByteDeque {
  import opened Bytes

  class Deque {
    var buf: array<byte>
    var start: nat
    var len: nat

    ghost predicate Valid()
      reads this
    {
      len <= buf.Length && (start < buf.Length || start == buf.Length == 0)
    }

    /** The queue in order: one stretch of the buffer, or two when it wraps around. */
    function Contents(): (s: seq<byte>)
      requires Valid()
      reads this, buf
      ensures |s| == len
    {
      if start + len <= buf.Length then buf[start..start + len]
      else buf[start..] + buf[..start + len - buf.Length]
    }

    constructor ()
      ensures Valid() && Contents() == [] && fresh(buf)
    {
      buf := new byte[0];
      start, len := 0, 0;
    }

    method Clear()
      requires Valid()
      modifies this`start, this`len
      ensures Valid() && Contents() == []
    {
      start, len := 0, 0;
    }

    /** Removes the first n bytes. */
    method Drain(n: nat)
      requires Valid() && n <= len
      modifies this`start, this`len
      ensures Valid() && Contents() == old(Contents())[n..]
    {
      len := len - n;
      start := if start + n < buf.Length then start + n else start + n - buf.Length;
      if start == buf.Length {
        start := 0;
      }
    }

    method Grow(need: nat)
      requires Valid()
      modifies this
      ensures Valid() && Contents() == old(Contents())
      ensures buf.Length >= need
      ensures buf == old(buf) || fresh(buf)
    {
      if buf.Length < need {
        var all := Contents();
        var bigger := new byte[if 2 * buf.Length < need then need else 2 * buf.Length];
        forall i | 0 <= i < |all| {
          bigger[i] := all[i];
        }
        buf, start := bigger, 0;
        assert buf[0..len] == all;
      }
    }

    method PushBack(x: byte)
      requires Valid() && len < buf.Length
      modifies this`len, buf
      ensures Valid() && Contents() == old(Contents()) + [x]
      ensures len == old(len) + 1
    {
      var i := if start + len < buf.Length then start + len else start + len - buf.Length;
      buf[i] := x;
      len := len + 1;
    }

    method Extend(s: seq<byte>)
      requires Valid()
      modifies this, buf
      ensures Valid() && Contents() == old(Contents()) + s
      ensures buf == old(buf) || fresh(buf)
    {
      Grow(len + |s|);
      ghost var grown, before := buf, Contents();
      for i := 0 to |s|
        invariant Valid() && buf == grown && len + |s| - i <= buf.Length
        invariant Contents() == before + s[..i]
      {
        assert before + s[..i + 1] == before + s[..i] + [s[i]];
        PushBack(s[i]);
      }
      assert s[..|s|] == s;
    }

    method AsSlices() returns (a: seq<byte>, b: seq<byte>)
      requires Valid()
      ensures a + b == Contents()
    {
      if start + len <= buf.Length {
        a, b := buf[start..start + len], [];
      } else {
        a, b := buf[start..], buf[..start + len - buf.Length];
      }
    }
  }
}

/** Head-plus-tail capture files. */
module CaptureStream {
  import opened Bytes
  import opened Landing
  import opened ByteDeque

  datatype TailFile = NoTailFile | TailFile(bytes: seq<byte>)

  datatype Summary = Summary(total: nat, head: nat, tail: nat, dropped: nat, tailFile: TailFile)

  /** The truth about a stream that h was written to. */
  ghost function SummaryOf(lim: Limits, h: seq<byte>): Summary {
    NothingMiscounted(lim, h);
    var head, tail := |HeadOf(lim, h)|, TailOf(lim, h);
    Summary(|h|, head, |tail|, |h| - head - |tail|, if tail == [] then NoTailFile else TailFile(tail))
  }

  /** The bytes of the tail file, none when there is no such file. */
  ghost function TailBytes(sum: Summary): seq<byte> {
    match sum.tailFile
    case NoTailFile => []
    case TailFile(b) => b
  }

  /** What a summary says: the counts are the files', the files are the stream's two ends, and they are all of it
      exactly when nothing is reported dropped. */
  lemma SummaryMeans(lim: Limits, h: seq<byte>)
    ensures var sum := SummaryOf(lim, h);
      && sum.total == |h| && sum.head + sum.tail + sum.dropped == sum.total
      && sum.head == (if lim.head == 0 then |h| else Min(lim.head, |h|))
      && sum.tail == Min(lim.tail, |h| - sum.head)
      && HeadOf(lim, h) == h[..sum.head]
      && TailBytes(sum) == h[|h| - sum.tail..]
      && (sum.tailFile != NoTailFile <==> sum.tail > 0)
      && (h[..sum.head] + TailBytes(sum) == h <==> sum.dropped == 0)
  {
    hide HeadOf, TailOf, DroppedOf, PastHead;
    EndsAre(lim, h);
    NothingMiscounted(lim, h);
    CompleteIffNothingDropped(lim, h);
  }

  /** A summary is read off the state the stream must be in. */
  lemma SummaryFromState(lim: Limits, h: seq<byte>)
    ensures var s := Landed(lim, h);
      SummaryOf(lim, h) == Summary(s.total, s.headWritten, |s.tail|, s.dropped,
                                   if s.tail == [] then NoTailFile else TailFile(s.tail))
    ensures Landed(lim, h).head == HeadOf(lim, h)
  {
    hide HeadOf, TailOf, DroppedOf;
    NothingMiscounted(lim, h);
  }

  class Stream {
    const limits: Limits
    var headFile: seq<byte>
    var headWritten: nat
    var tail: Deque
    var total: nat
    var dropped: nat
    var truncating: bool
    /** Every byte ever written to the stream. */
    ghost var history: seq<byte>
    ghost var Repr: set<object>

    ghost predicate Valid()
      reads this, Repr
      ensures Valid() ==> this in Repr
    {
      && this in Repr && tail in Repr && tail.buf in Repr
      && tail.Valid()
      && Kept(headFile, headWritten, tail.Contents(), total, dropped, truncating) == Landed(limits, history)
    }

    constructor (limits: Limits)
      ensures Valid() && fresh(Repr)
      ensures this.limits == limits && history == []
    {
      this.limits := limits;
      headFile, headWritten := [], 0;
      tail := new Deque();
      total, dropped, truncating := 0, 0, false;
      history := [];
      new;
      hide Landed, Deque.Contents;
      NothingLands(limits);
      Repr := {this, tail, tail.buf};
    }

    /** Appends data; true exactly on the write that first exceeds the head cap. */
    method Write(data: seq<byte>) returns (first: bool)
      requires Valid()
      modifies Repr
      ensures Valid() && fresh(Repr - old(Repr))
      ensures history == old(history) + data
      ensures first == Announces(limits, old(history), data)
      ensures first <==> limits.head > 0 && |old(history)| <= limits.head < |history|
    {
      hide Landed, Slide, Deque.Contents;
      AnnouncesMeans(limits, history, data);
      history := history + data;
      total := total + |data|;
      if limits.Unlimited() {
        WriteLandsUncapped(limits, old(history), data);
        headFile := headFile + data;
        headWritten := headWritten + |data|;
        return false;
      }
      WriteLands(limits, old(history), data);
      var rest := FillHead(data);
      if rest == [] {
        SlideNothing(tail.Contents(), limits.tail);
        return false;
      }
      first := !truncating;
      truncating := true;
      Retain(rest);
      Repr := Repr + {tail.buf};
    }

    /** The head takes what it still has room for; what is left over is returned. */
    method FillHead(data: seq<byte>) returns (rest: seq<byte>)
      requires headWritten <= limits.head
      modifies this`headFile, this`headWritten
      ensures var n := Min(limits.head - old(headWritten), |data|);
        headFile == old(headFile) + data[..n] && headWritten == old(headWritten) + n && rest == data[n..]
    {
      rest := data;
      var room := if limits.head > headWritten then limits.head - headWritten else 0;
      if room > 0 {
        var n := Min(room, |rest|);
        headFile := headFile + rest[..n];
        headWritten := headWritten + n;
        rest := rest[n..];
      }
    }

    /** The ring keeps the last limits.tail bytes of what it held and rest; the others are dropped. */
    method Retain(rest: seq<byte>)
      requires tail.Valid() && tail.len <= limits.tail && rest != []
      modifies this`dropped, tail, tail.buf
      ensures tail.Valid() && (tail.buf == old(tail.buf) || fresh(tail.buf))
      ensures tail.Contents() == Slide(old(tail.Contents()), rest, limits.tail)
      ensures dropped + tail.len == old(dropped + tail.len) + |rest|
    {
      var cap := limits.tail;
      if cap == 0 {
        dropped := dropped + |rest|;
        return;
      }
      if |rest| >= cap {
        dropped := dropped + tail.len + (|rest| - cap);
        tail.Clear();
        tail.Extend(rest[|rest| - cap..]);
      } else {
        var overflow := if tail.len + |rest| > cap then tail.len + |rest| - cap else 0;
        tail.Drain(overflow);
        dropped := dropped + overflow;
        tail.Extend(rest);
      }
    }

    /** Writes out the ring and reports what landed on disk. The head file is the stream's front and the tail file its
        back, there is a tail file exactly when it has something to hold, the counts are the files' and account for the
        whole stream, and the two files are the stream exactly when nothing is reported dropped. */
    method Finish() returns (sum: Summary)
      requires Valid()
      ensures sum == SummaryOf(limits, history)
      ensures sum.total == |history| && sum.head == |headFile| && sum.head + sum.tail + sum.dropped == sum.total
      ensures sum.head == if limits.head == 0 then |history| else Min(limits.head, |history|)
      ensures sum.tail == Min(limits.tail, |history| - sum.head)
      ensures headFile == history[..sum.head]
      ensures TailBytes(sum) == history[|history| - sum.tail..]
      ensures sum.tailFile != NoTailFile <==> sum.tail > 0
      ensures headFile + TailBytes(sum) == history <==> sum.dropped == 0
    {
      hide Landed, SummaryOf, HeadOf, Deque.Contents;
      var tailFile := NoTailFile;
      if tail.len != 0 {
        var a, b := tail.AsSlices();
        tailFile := TailFile(a + b);
      }
      sum := Summary(total, headWritten, tail.len, dropped, tailFile);
      SummaryFromState(limits, history);
      SummaryMeans(limits, history);
    }
  }
}
