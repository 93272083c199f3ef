/** Big-endian fields of a message. */
module Fields {
  import opened Bytes
  import opened Wrappers

  type word = w: int | 0 <= w < 0x1_0000 witness 0

  type dword = w: int | 0 <= w < 0x1_0000_0000 witness 0

  /** The 16-bit field at an offset, if the message holds it. */
  function Be16(b: seq<byte>, at: nat): Option<word> {
    if at + 2 <= |b| then Some(b[at] as int * 256 + b[at + 1] as int) else None
  }

  function Put16(w: word): (b: seq<byte>)
    ensures |b| == 2
  {
    [w / 256, w % 256]
  }

  function Put32(n: dword): (b: seq<byte>)
    ensures |b| == 4
  {
    Put16(n / 0x1_0000) + Put16(n % 0x1_0000)
  }

  /** A field inside a prefix is the same in every message with that prefix. */
  lemma Be16Local(b: seq<byte>, c: seq<byte>, at: nat, end: nat)
    requires at + 2 <= end <= |b| && end <= |c| && b[..end] == c[..end]
    ensures Be16(b, at) == Be16(c, at)
  {
    assert b[at] == b[..end][at] && b[at + 1] == b[..end][at + 1];
    assert c[at] == c[..end][at] && c[at + 1] == c[..end][at + 1];
  }
}

/** DNS messages as sections 3.1 and 4.1 of RFC 1035 define them. */
module DnsWire {
  import opened Bytes
  import opened Wrappers
  import opened Fields

  type Label = seq<byte>

  ghost predicate IsLabel(l: Label) {
    1 <= |l| <= 63
  }

  ghost predicate IsName(name: seq<Label>) {
    forall i :: 0 <= i < |name| ==> IsLabel(name[i])
  }

  /** A domain name: labels with their lengths, ended by the root's empty label (section 3.1). */
  ghost function EncodeName(name: seq<Label>): seq<byte>
    requires IsName(name)
  {
    if name == [] then [0] else [|name[0]|] + name[0] + EncodeName(name[1..])
  }

  datatype Question = Question(name: seq<Label>, qtype: word, qclass: word)

  datatype Record = Record(name: seq<Label>, rtype: word, rclass: word, ttl: int, rdata: seq<byte>)

  datatype Message = Message(
    id: word,
    flags: word,
    questions: seq<Question>,
    answers: seq<Record>,
    authority: seq<Record>,
    additional: seq<Record>)

  /** A name and the offset after it. A pointer leads to a name that starts before the one it ends (section 4.1.4). */
  ghost function DecodeName(m: seq<byte>, p: nat, start: nat): Option<(seq<Label>, nat)>
    decreases start, |m| - p
  {
    if p >= |m| then None
    else if m[p] == 0 then Some(([], p + 1))
    else if m[p] >= 192 then
      var target :- Be16(m, p);
      if target - 0xc000 >= start then None
      else
        var (name, _) :- DecodeName(m, target - 0xc000, target - 0xc000);
        Some((name, p + 2))
    else if m[p] >= 64 || p + 1 + m[p] > |m| then None
    else
      var (name, end) :- DecodeName(m, p + 1 + m[p], start);
      Some(([m[p + 1..p + 1 + m[p]]] + name, end))
  }

  /** n questions and the offset after them (section 4.1.2). */
  ghost function DecodeQuestions(m: seq<byte>, p: nat, n: nat): Option<(seq<Question>, nat)>
    decreases n
  {
    if n == 0 then Some(([], p))
    else
      var (name, q) :- DecodeName(m, p, p);
      var qtype :- Be16(m, q);
      var qclass :- Be16(m, q + 2);
      var (more, end) :- DecodeQuestions(m, q + 4, n - 1);
      Some(([Question(name, qtype, qclass)] + more, end))
  }

  /** n resource records and the offset after them (section 4.1.3). */
  ghost function DecodeRecords(m: seq<byte>, p: nat, n: nat): Option<(seq<Record>, nat)>
    decreases n
  {
    if n == 0 then Some(([], p))
    else
      var (name, q) :- DecodeName(m, p, p);
      var rtype :- Be16(m, q);
      var rclass :- Be16(m, q + 2);
      var ttlHigh :- Be16(m, q + 4);
      var ttlLow :- Be16(m, q + 6);
      var length :- Be16(m, q + 8);
      if q + 10 + length > |m| then None
      else
        var (more, end) :- DecodeRecords(m, q + 10 + length, n - 1);
        Some(([Record(name, rtype, rclass, ttlHigh * 0x1_0000 + ttlLow, m[q + 10..q + 10 + length])] + more, end))
  }

  /** A whole message: the header (section 4.1.1), its four sections, and not a byte more. */
  ghost function DecodeMessage(m: seq<byte>): Option<Message> {
    var id :- Be16(m, 0);
    var flags :- Be16(m, 2);
    var qdcount :- Be16(m, 4);
    var ancount :- Be16(m, 6);
    var nscount :- Be16(m, 8);
    var arcount :- Be16(m, 10);
    var (questions, p) :- DecodeQuestions(m, 12, qdcount);
    var (answers, q) :- DecodeRecords(m, p, ancount);
    var (authority, r) :- DecodeRecords(m, q, nscount);
    var (additional, end) :- DecodeRecords(m, r, arcount);
    if end == |m| then Some(Message(id, flags, questions, answers, authority, additional)) else None
  }
}
