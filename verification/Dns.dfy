/** The responder: enough DNS to answer a query. */
module Dns {
  import opened Bytes
  import opened Wrappers
  import opened Fields

  const TYPE_A: word := 1
  const TYPE_AAAA: word := 28
  const CLASS_IN: word := 1
  const HEADER_LEN: nat := 12

  type Ipv4 = a: seq<byte> | |a| == 4 witness [0, 0, 0, 0]
  type Ipv6 = a: seq<byte> | |a| == 16 witness seq(16, _ => 0)

  /** The records to hand out. */
  datatype Answer = Answer(a: Option<Ipv4>, aaaa: Option<Ipv6>, ttl: dword)

  /** What was asked; the question section is the message's bytes from HEADER_LEN to end. */
  datatype Query = Query(id: word, flags: word, qtype: word, qclass: word, end: nat)

  // The flags word, most significant bit first: QR, four bits of opcode, AA, TC, RD, RA, three of Z, four of rcode.

  predicate IsResponse(flags: word) {
    flags / 0x8000 != 0
  }

  function Opcode(flags: word): word {
    flags / 0x800 % 16
  }

  function RecursionDesired(flags: word): word {
    flags / 0x100 % 2
  }

  /** Where the name at p ends, after labels of it have been read. */
  function Walk(msg: seq<byte>, p: nat, labels: nat): (end: Option<nat>)
    ensures end.Some? ==> p < end.value <= |msg|
    decreases |msg| - p
  {
    if p >= |msg| then None
    else if msg[p] == 0 then Some(p + 1)
    else if msg[p] >= 64 || labels > 127 then None
    else if p + 1 + msg[p] > |msg| then None
    else Walk(msg, p + 1 + msg[p], labels + 1)
  }

  /** The query a message holds, if it is a single-question query. */
  function Parsed(msg: seq<byte>): Option<Query> {
    if |msg| < HEADER_LEN then None
    else
      var id :- Be16(msg, 0);
      var flags :- Be16(msg, 2);
      var qdcount :- Be16(msg, 4);
      if IsResponse(flags) || Opcode(flags) != 0 || qdcount != 1 then None
      else
        var p :- Walk(msg, HEADER_LEN, 0);
        var qtype :- Be16(msg, p);
        var qclass :- Be16(msg, p + 2);
        Some(Query(id, flags, qtype, qclass, p + 4))
  }

  method Parse(msg: seq<byte>) returns (r: Option<Query>)
    ensures r == Parsed(msg)
  {
    if |msg| < HEADER_LEN {
      return None;
    }
    var id, flags, qdcount := Be16(msg, 0).value, Be16(msg, 2).value, Be16(msg, 4).value;
    if IsResponse(flags) || Opcode(flags) != 0 || qdcount != 1 {
      return None;
    }
    var p := HEADER_LEN;
    var labels := 0;
    while true
      invariant Walk(msg, HEADER_LEN, 0) == Walk(msg, p, labels)
      decreases |msg| - p
    {
      if p >= |msg| {
        return None;
      }
      var len := msg[p];
      if len == 0 {
        p := p + 1;
        break;
      }
      if len >= 64 || labels > 127 {
        return None;
      }
      if p + 1 + len > |msg| {
        return None;
      }
      labels := labels + 1;
      p := p + 1 + len;
    }
    var qtype, qclass := Be16(msg, p), Be16(msg, p + 2);
    if qtype == None || qclass == None {
      return None;
    }
    p := p + 4;
    return Some(Query(id, flags, qtype.value, qclass.value, p));
  }

  /** The address that answers a query, if one is configured for its type. */
  function Rdata(q: Query, ans: Answer): Option<seq<byte>> {
    if q.qclass != CLASS_IN then None
    else if q.qtype == TYPE_A then ans.a
    else if q.qtype == TYPE_AAAA then ans.aaaa
    else None
  }

  /** QR and RA set, opcode and RD from the query, rcode 0. */
  function ReplyFlags(flags: word): word {
    0x8000 + Opcode(flags) * 0x800 + RecursionDesired(flags) * 0x100 + 0x80
  }

  function ReplyHeader(q: Query, answers: word): seq<byte> {
    Put16(q.id) + Put16(ReplyFlags(q.flags)) + Put16(1) + Put16(answers) + Put16(0) + Put16(0)
  }

  /** The one answer: the question's name by pointer, type, class, time to live and address. */
  function AnswerRecord(q: Query, ttl: dword, rd: seq<byte>): seq<byte>
    requires |rd| < 0x1_0000
  {
    [0xc0, HEADER_LEN] + Put16(q.qtype) + Put16(CLASS_IN) + Put32(ttl) + Put16(|rd|) + rd
  }

  function Replied(msg: seq<byte>, ans: Answer): Option<seq<byte>>
  {
    var q :- Parsed(msg);
    var rd := Rdata(q, ans);
    var body := ReplyHeader(q, if rd.Some? then 1 else 0) + msg[HEADER_LEN..q.end];
    Some(if rd.Some? then body + AnswerRecord(q, ans.ttl, rd.value) else body)
  }

  /** Builds the reply to a message, or nothing when it is not a query. */
  method Reply(msg: seq<byte>, ans: Answer) returns (r: Option<seq<byte>>)
    ensures r == Replied(msg, ans)
  {
    var parsed := Parse(msg);
    if parsed == None {
      return None;
    }
    var q := parsed.value;
    var rdata := Rdata(q, ans);
    var out := [];
    out := out + Put16(q.id);
    out := out + Put16(ReplyFlags(q.flags));
    out := out + Put16(1);
    out := out + Put16(if rdata.Some? then 1 else 0);
    out := out + Put16(0);
    out := out + Put16(0);
    assert out == ReplyHeader(q, if rdata.Some? then 1 else 0);
    out := out + msg[HEADER_LEN..q.end];
    if rdata.Some? {
      var rd := rdata.value;
      ghost var body := out;
      out := out + [0xc0, HEADER_LEN];
      out := out + Put16(q.qtype);
      out := out + Put16(CLASS_IN);
      out := out + Put32(ans.ttl);
      out := out + Put16(|rd|);
      out := out + rd;
      assert out == body + AnswerRecord(q, ans.ttl, rd);
    }
    return Some(out);
  }

  /** DNS over TCP: each message behind a two-byte length (section 4.2.2 of RFC 1035). */
  method ReplyTcp(msg: seq<byte>, ans: Answer) returns (r: Option<seq<byte>>)
    ensures r == RepliedTcp(msg, ans)
  {
    var declared := Be16(msg, 0);
    if declared == None {
      return None;
    }
    var body := msg[2..2 + Min(declared.value, |msg| - 2)];
    var inner := Reply(body, ans);
    if inner == None {
      return None;
    }
    var out := [];
    out := out + Put16(|inner.value| % 0x1_0000);
    out := out + inner.value;
    assert out == Put16(|inner.value| % 0x1_0000) + inner.value;
    return Some(out);
  }

  function RepliedTcp(msg: seq<byte>, ans: Answer): Option<seq<byte>>
  {
    var declared :- Be16(msg, 0);
    var inner :- Replied(msg[2..2 + Min(declared, |msg| - 2)], ans);
    Some(Put16(|inner| % 0x1_0000) + inner)
  }
}
