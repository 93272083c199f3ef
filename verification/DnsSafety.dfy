/** What the responder's queries and replies mean, against the wire format of RFC 1035. */
module DnsSafety {
  import opened Bytes
  import opened Wrappers
  import opened Fields
  import opened DnsWire
  import opened Dns

  // ---------------------------------------------------------------- names

  /** The labels the walk passes over. */
  ghost function LabelsAt(msg: seq<byte>, p: nat, labels: nat): seq<Label>
    requires Walk(msg, p, labels).Some?
    decreases |msg| - p
  {
    if msg[p] == 0 then []
    else [msg[p + 1..p + 1 + msg[p]]] + LabelsAt(msg, p + 1 + msg[p], labels + 1)
  }

  /** A walk that ends has passed over exactly the encoding of a name of at most 128 labels. */
  lemma {:induction false} WalkFindsName(msg: seq<byte>, p: nat, labels: nat)
    requires Walk(msg, p, labels).Some? && labels <= 128
    ensures var name := LabelsAt(msg, p, labels); var end := Walk(msg, p, labels).value;
      IsName(name) && labels + |name| <= 128 && msg[p..end] == EncodeName(name)
    decreases |msg| - p
  {
    if msg[p] != 0 {
      var next := p + 1 + msg[p];
      WalkFindsName(msg, next, labels + 1);
      var name, end := LabelsAt(msg, p, labels), Walk(msg, p, labels).value;
      assert name[1..] == LabelsAt(msg, next, labels + 1);
      assert msg[p..end] == [msg[p]] + msg[p + 1..next] + msg[next..end];
    }
  }

  /** Every name of at most 128 labels is walked over to its end. */
  lemma {:induction false} NameIsWalked(msg: seq<byte>, p: nat, labels: nat, name: seq<Label>, rest: seq<byte>)
    requires IsName(name) && labels + |name| <= 128
    requires p <= |msg| && msg[p..] == EncodeName(name) + rest
    ensures Walk(msg, p, labels) == Some(|msg| - |rest|)
    ensures LabelsAt(msg, p, labels) == name
    decreases |name|
  {
    assert msg[p] == msg[p..][0];
    if name != [] {
      var next := p + 1 + |name[0]|;
      assert msg[p..] == [|name[0]|] + name[0] + (EncodeName(name[1..]) + rest);
      assert msg[next..] == EncodeName(name[1..]) + rest;
      assert msg[p + 1..next] == name[0];
      NameIsWalked(msg, next, labels + 1, name[1..], rest);
    } else {
      assert |msg[p..]| == 1 + |rest|;
    }
  }

  lemma SameSlice(b: seq<byte>, c: seq<byte>, p: nat, end: nat, i: nat, j: nat)
    requires p <= i <= j <= end <= |b| && end <= |c| && b[p..end] == c[p..end]
    ensures b[i..j] == c[i..j]
  {
    forall k | i <= k < j
      ensures b[k] == c[k]
    {
      assert b[k] == b[p..end][k - p] && c[k] == c[p..end][k - p];
    }
  }

  /** The walk looks at nothing outside the name. */
  lemma {:induction false} WalkIsLocal(msg: seq<byte>, other: seq<byte>, p: nat, labels: nat)
    requires Walk(msg, p, labels).Some?
    requires var end := Walk(msg, p, labels).value; end <= |other| && msg[p..end] == other[p..end]
    ensures Walk(other, p, labels) == Walk(msg, p, labels)
    ensures LabelsAt(other, p, labels) == LabelsAt(msg, p, labels)
    decreases |msg| - p
  {
    var end := Walk(msg, p, labels).value;
    assert msg[p] == other[p] by {
      assert msg[p] == msg[p..end][0] && other[p] == other[p..end][0];
    }
    if msg[p] != 0 {
      var next := p + 1 + msg[p];
      SameSlice(msg, other, p, end, p + 1, next);
      SameSlice(msg, other, p, end, next, end);
      WalkIsLocal(msg, other, next, labels + 1);
    }
  }

  /** The RFC's decoder reads the same name as the walk, wherever pointers may lead. */
  lemma {:induction false} WalkDecodes(msg: seq<byte>, p: nat, labels: nat, start: nat)
    requires Walk(msg, p, labels).Some?
    ensures DecodeName(msg, p, start) == Some((LabelsAt(msg, p, labels), Walk(msg, p, labels).value))
    decreases |msg| - p
  {
    if msg[p] != 0 {
      WalkDecodes(msg, p + 1 + msg[p], labels + 1, start);
    }
  }

  lemma {:induction false} WalkBound(msg: seq<byte>, p: nat, labels: nat)
    requires Walk(msg, p, labels).Some? && labels <= 128
    ensures Walk(msg, p, labels).value <= p + 64 * (128 - labels) + 1
    decreases |msg| - p
  {
    if msg[p] != 0 {
      WalkBound(msg, p + 1 + msg[p], labels + 1);
    }
  }

  // ---------------------------------------------------------------- queries

  /** A message that asks one question, as section 4.1 of RFC 1035 lays it out, with whatever follows the question. */
  datatype Wire = Wire(ancount: word, nscount: word, arcount: word, name: seq<Label>, rest: seq<byte>)

  ghost function EncodeHeader(id: word, flags: word, ancount: word, nscount: word, arcount: word): seq<byte> {
    Put16(id) + Put16(flags) + Put16(1) + Put16(ancount) + Put16(nscount) + Put16(arcount)
  }

  ghost function EncodeQuestion(name: seq<Label>, qtype: word, qclass: word): seq<byte>
    requires IsName(name)
  {
    EncodeName(name) + (Put16(qtype) + Put16(qclass))
  }

  /** The message is a standard query that asks q, spelled out by w. Section 2.3.4 limits a name to 255 octets;
      the program does not, and takes any name of at most 128 labels. The five high bits of the flags, QR and the opcode,
      are clear. */
  ghost predicate Asks(msg: seq<byte>, q: Query, w: Wire) {
    && q.flags < 0x800
    && IsName(w.name) && |w.name| <= 128
    && q.end == HEADER_LEN + |EncodeQuestion(w.name, q.qtype, q.qclass)|
    && msg == EncodeHeader(q.id, q.flags, w.ancount, w.nscount, w.arcount)
              + (EncodeQuestion(w.name, q.qtype, q.qclass) + w.rest)
  }

  lemma HeaderReads(id: word, flags: word, an: word, ns: word, ar: word, msg: seq<byte>, rest: seq<byte>)
    requires msg == EncodeHeader(id, flags, an, ns, ar) + rest
    ensures |EncodeHeader(id, flags, an, ns, ar)| == 12 && |msg| == 12 + |rest|
    ensures Be16(msg, 0) == Some(id) && Be16(msg, 2) == Some(flags) && Be16(msg, 4) == Some(1)
    ensures Be16(msg, 6) == Some(an) && Be16(msg, 8) == Some(ns) && Be16(msg, 10) == Some(ar)
    ensures msg[12..] == rest
  {
  }

  lemma ParseAccepts(msg: seq<byte>, q: Query, w: Wire)
    requires Asks(msg, q, w)
    ensures Parsed(msg) == Some(q) && LabelsAt(msg, HEADER_LEN, 0) == w.name
  {
    hide IsResponse, Opcode, Walk, LabelsAt, EncodeHeader, EncodeName;
    FlagsClear(q.flags);
    var types := Put16(q.qtype) + Put16(q.qclass);
    HeaderReads(q.id, q.flags, w.ancount, w.nscount, w.arcount, msg,
                EncodeQuestion(w.name, q.qtype, q.qclass) + w.rest);
    assert msg[12..] == EncodeName(w.name) + (types + w.rest);
    NameIsWalked(msg, 12, 0, w.name, types + w.rest);
    var p := q.end - 4;
    assert msg[p..] == types + w.rest by {
      assert msg[p..] == msg[12..][p - 12..];
    }
    assert msg[p] == msg[p..][0] && msg[p + 1] == msg[p..][1] && msg[p + 2] == msg[p..][2] && msg[p + 3] == msg[p..][3];
  }

  lemma Put16Inverse(msg: seq<byte>, at: nat)
    requires at + 2 <= |msg|
    ensures Be16(msg, at).Some? && msg[at..at + 2] == Put16(Be16(msg, at).value)
  {
  }

  lemma HeaderEncodes(msg: seq<byte>)
    requires |msg| >= 12 && Be16(msg, 4) == Some(1)
    ensures Be16(msg, 0).Some? && Be16(msg, 2).Some? && Be16(msg, 6).Some? && Be16(msg, 8).Some? && Be16(msg, 10).Some?
    ensures msg[..12] == EncodeHeader(Be16(msg, 0).value, Be16(msg, 2).value, Be16(msg, 6).value, Be16(msg, 8).value,
                                      Be16(msg, 10).value)
  {
  }

  lemma ParseSound(msg: seq<byte>) returns (w: Wire)
    requires Parsed(msg).Some?
    ensures Asks(msg, Parsed(msg).value, w) && w.name == LabelsAt(msg, HEADER_LEN, 0)
  {
    var q := Parsed(msg).value;
    var p := q.end - 4;
    WalkFindsName(msg, HEADER_LEN, 0);
    HeaderEncodes(msg);
    w := Wire(Be16(msg, 6).value, Be16(msg, 8).value, Be16(msg, 10).value, LabelsAt(msg, HEADER_LEN, 0), msg[q.end..]);
    assert msg[p..q.end] == Put16(q.qtype) + Put16(q.qclass) by {
      Put16Inverse(msg, p);
      Put16Inverse(msg, p + 2);
      assert msg[p..q.end] == msg[p..p + 2] + msg[p + 2..p + 4];
    }
    assert msg[12..] == msg[12..p] + msg[p..q.end] + msg[q.end..];
    assert msg == msg[..12] + msg[12..];
  }

  /** A message parses to q exactly when it is laid out as a single-question standard query that asks q. */
  lemma ParsesExactlyQueries(msg: seq<byte>, q: Query)
    ensures Parsed(msg) == Some(q) <==> exists w :: Asks(msg, q, w)
  {
    if Parsed(msg) == Some(q) {
      var w := ParseSound(msg);
      assert Asks(msg, q, w);
    }
    if w :| Asks(msg, q, w) {
      ParseAccepts(msg, q, w);
    }
  }

  /** A question ends at or before offset 8209, and depends on nothing after its end. */
  lemma ParseIsBoundedAndLocal(msg: seq<byte>, other: seq<byte>)
    requires Parsed(msg).Some?
    ensures Parsed(msg).value.end <= 12 + 128 * 64 + 1 + 4 && Parsed(msg).value.end <= |msg|
    ensures var end := Parsed(msg).value.end;
      end <= |other| && other[..end] == msg[..end] ==> Parsed(other) == Parsed(msg)
  {
    WalkBound(msg, HEADER_LEN, 0);
    var end := Parsed(msg).value.end;
    if end <= |other| && other[..end] == msg[..end] {
      SameSlice(msg, other, 0, end, 12, end - 4);
      WalkIsLocal(msg, other, HEADER_LEN, 0);
      Be16Local(msg, other, 0, end);
      Be16Local(msg, other, 2, end);
      Be16Local(msg, other, 4, end);
      Be16Local(msg, other, end - 4, end);
      Be16Local(msg, other, end - 2, end);
    }
  }

  // ---------------------------------------------------------------- replies

  lemma FlagsClear(flags: word)
    ensures !IsResponse(flags) && Opcode(flags) == 0 <==> flags < 0x800
  {
  }

  lemma FlagsOfQuery(flags: word)
    requires !IsResponse(flags) && Opcode(flags) == 0
    ensures ReplyFlags(flags) == 0x8080 + RecursionDesired(flags) * 0x100
    ensures IsResponse(ReplyFlags(flags)) && ReplyFlags(flags) % 16 == 0
    ensures RecursionDesired(ReplyFlags(flags)) == RecursionDesired(flags)
    ensures Opcode(ReplyFlags(flags)) == 0
    ensures !IsResponse(ReplyFlags(flags) - 0x8000) && Opcode(ReplyFlags(flags) - 0x8000) == 0
  {
  }

  /** The records a configuration holds for a question: an address of type A (1, section 3.4.1 of RFC 1035) or
      AAAA (28, section 2.1 of RFC 3596), in class IN. */
  ghost function AnswersTo(q: Query, name: seq<Label>, ans: Answer): seq<Record> {
    if q.qclass == 1 && q.qtype == 1 && ans.a.Some? then [Record(name, 1, 1, ans.ttl, ans.a.value)]
    else if q.qclass == 1 && q.qtype == 28 && ans.aaaa.Some? then [Record(name, 28, 1, ans.ttl, ans.aaaa.value)]
    else []
  }

  lemma ParsedParts(msg: seq<byte>)
    requires Parsed(msg).Some?
    ensures var q := Parsed(msg).value;
      && 16 < q.end <= |msg| && Walk(msg, HEADER_LEN, 0) == Some(q.end - 4)
      && Be16(msg, q.end - 4) == Some(q.qtype) && Be16(msg, q.end - 2) == Some(q.qclass)
      && Be16(msg, 0) == Some(q.id) && Be16(msg, 2) == Some(q.flags)
      && !IsResponse(q.flags) && Opcode(q.flags) == 0
  {
  }

  /** The question section of a reply is the query's, and reads as the same name and types. */
  lemma ReplyQuestion(msg: seq<byte>, r: seq<byte>, q: Query)
    requires Parsed(msg) == Some(q)
    requires q.end <= |r| && r[12..q.end] == msg[12..q.end]
    ensures Walk(r, HEADER_LEN, 0) == Some(q.end - 4)
    ensures LabelsAt(r, HEADER_LEN, 0) == LabelsAt(msg, HEADER_LEN, 0)
    ensures Be16(r, q.end - 4) == Some(q.qtype) && Be16(r, q.end - 2) == Some(q.qclass)
    ensures DecodeQuestions(r, 12, 1) == Some(([Question(LabelsAt(msg, HEADER_LEN, 0), q.qtype, q.qclass)], q.end))
  {
    hide Be16, Walk, DecodeName, DecodeQuestions, LabelsAt, Put16;
    var p := q.end - 4;
    ParsedParts(msg);
    SameSlice(msg, r, 12, q.end, 12, p);
    WalkIsLocal(msg, r, HEADER_LEN, 0);
    WalkDecodes(r, HEADER_LEN, 0, 12);
    SameSlice(msg, r, 12, q.end, p, p + 2);
    SameSlice(msg, r, 12, q.end, p + 2, p + 4);
    Put16Inverse(msg, p);
    Put16Inverse(msg, p + 2);
    Put16Inverse(r, p);
    Put16Inverse(r, p + 2);
    Put16Injective(q.qtype, Be16(r, p).value);
    Put16Injective(q.qclass, Be16(r, p + 2).value);
    OneQuestion(r, 12, LabelsAt(r, HEADER_LEN, 0), p, q.qtype, q.qclass);
  }

  lemma OneQuestion(m: seq<byte>, p: nat, name: seq<Label>, q: nat, qtype: word, qclass: word)
    requires DecodeName(m, p, p) == Some((name, q))
    requires Be16(m, q) == Some(qtype) && Be16(m, q + 2) == Some(qclass)
    ensures DecodeQuestions(m, p, 1) == Some(([Question(name, qtype, qclass)], q + 4))
  {
    hide DecodeName, Be16;
    assert DecodeQuestions(m, q + 4, 0) == Some(([], q + 4));
    assert [Question(name, qtype, qclass)] + [] == [Question(name, qtype, qclass)];
  }

  lemma OneRecord(m: seq<byte>, p: nat, q: nat, record: Record, end: nat)
    requires DecodeName(m, p, p) == Some((record.name, q))
    requires Be16(m, q) == Some(record.rtype) && Be16(m, q + 2) == Some(record.rclass)
    requires Be16(m, q + 4).Some? && Be16(m, q + 6).Some?
    requires Be16(m, q + 4).value * 0x1_0000 + Be16(m, q + 6).value == record.ttl
    requires |record.rdata| < 0x1_0000 && Be16(m, q + 8) == Some(|record.rdata|)
    requires end == q + 10 + |record.rdata| <= |m| && m[q + 10..end] == record.rdata
    ensures DecodeRecords(m, p, 1) == Some(([record], end))
  {
    hide DecodeName, Be16;
    assert DecodeRecords(m, end, 0) == Some(([], end));
    assert [record] + [] == [record];
  }

  lemma Put16Injective(v: word, w: word)
    requires Put16(v) == Put16(w)
    ensures v == w
  {
    assert v / 256 == Put16(v)[0] && v % 256 == Put16(v)[1];
    assert w / 256 == Put16(w)[0] && w % 256 == Put16(w)[1];
  }

  lemma Put32Reads(n: dword, b: seq<byte>, at: nat)
    requires at + 4 <= |b| && b[at..at + 4] == Put32(n)
    ensures Be16(b, at).Some? && Be16(b, at + 2).Some?
    ensures Be16(b, at).value * 0x1_0000 + Be16(b, at + 2).value == n
  {
    assert b[at] == b[at..at + 4][0] && b[at + 1] == b[at..at + 4][1];
    assert b[at + 2] == b[at..at + 4][2] && b[at + 3] == b[at..at + 4][3];
  }

  lemma RecordFields(q: Query, ttl: dword, rd: seq<byte>)
    requires |rd| < 0x1_0000
    ensures var a := AnswerRecord(q, ttl, rd);
      && |a| == 12 + |rd| && Be16(a, 0) == Some(0xc00c)
      && Be16(a, 2) == Some(q.qtype) && Be16(a, 4) == Some(CLASS_IN)
      && a[6..10] == Put32(ttl)
      && Be16(a, 10) == Some(|rd|) && a[12..] == rd
  {
  }

  lemma FieldsShift(r: seq<byte>, body: seq<byte>, a: seq<byte>, at: nat)
    requires r == body + a && at + 2 <= |a|
    ensures Be16(r, |body| + at) == Be16(a, at)
  {
  }

  /** The same fields where the record stands in the reply. */
  lemma RecordInPlace(r: seq<byte>, body: seq<byte>, q: Query, ttl: dword, rd: seq<byte>)
    requires |rd| < 0x1_0000
    requires r == body + AnswerRecord(q, ttl, rd)
    ensures var e := |body|;
      && |r| == e + 12 + |rd| && r[e + 12..e + 12 + |rd|] == rd
      && Be16(r, e) == Some(0xc00c) && Be16(r, e + 2) == Some(q.qtype) && Be16(r, e + 4) == Some(CLASS_IN)
      && Be16(r, e + 6).Some? && Be16(r, e + 8).Some?
      && Be16(r, e + 6).value * 0x1_0000 + Be16(r, e + 8).value == ttl
      && Be16(r, e + 10) == Some(|rd|)
  {
    hide Be16, AnswerRecord, Put32;
    var a := AnswerRecord(q, ttl, rd);
    RecordFields(q, ttl, rd);
    Put32Reads(ttl, a, 6);
    FieldsShift(r, body, a, 0);
    FieldsShift(r, body, a, 2);
    FieldsShift(r, body, a, 4);
    FieldsShift(r, body, a, 6);
    FieldsShift(r, body, a, 8);
    FieldsShift(r, body, a, 10);
    assert r[|body| + 12..] == a[12..];
  }

  lemma PointerDecodes(r: seq<byte>, e: nat)
    requires 12 < e && Be16(r, e) == Some(0xc00c) && Walk(r, HEADER_LEN, 0).Some?
    ensures DecodeName(r, e, e) == Some((LabelsAt(r, HEADER_LEN, 0), e + 2))
  {
    WalkDecodes(r, HEADER_LEN, 0, 12);
    assert r[e] == 0xc0;
  }

  /** The answer record reads back as the question's name, by its pointer, with the configured address. */
  lemma RecordDecodes(r: seq<byte>, body: seq<byte>, q: Query, ttl: dword, rd: seq<byte>)
    requires |rd| < 0x1_0000
    requires r == body + AnswerRecord(q, ttl, rd) && |body| > 12
    requires Walk(r, HEADER_LEN, 0).Some?
    ensures DecodeRecords(r, |body|, 1)
         == Some(([Record(LabelsAt(r, HEADER_LEN, 0), q.qtype, CLASS_IN, ttl, rd)], |r|))
  {
    hide *;
    var e := |body|;
    RecordInPlace(r, body, q, ttl, rd);
    PointerDecodes(r, e);
    var record := Record(LabelsAt(r, HEADER_LEN, 0), q.qtype, CLASS_IN, ttl, rd);
    OneRecord(r, e, e + 2, record, |r|);
  }

  /** A reply starts with its header and the query's question. */
  lemma ReplyHead(msg: seq<byte>, ans: Answer, q: Query, r: seq<byte>)
    requires Parsed(msg) == Some(q) && Replied(msg, ans) == Some(r)
    ensures var rd := Rdata(q, ans); var body := r[..q.end];
      && q.end <= |r| && r[12..q.end] == msg[12..q.end]
      && Be16(r, 0) == Some(q.id) && Be16(r, 2) == Some(ReplyFlags(q.flags)) && Be16(r, 4) == Some(1)
      && Be16(r, 6) == Some(if rd.Some? then 1 else 0) && Be16(r, 8) == Some(0) && Be16(r, 10) == Some(0)
      && (rd.Some? ==> |rd.value| <= 16 && r == body + AnswerRecord(q, ans.ttl, rd.value))
      && (rd == None ==> |r| == q.end)
  {
    hide AnswerRecord;
    ParsedParts(msg);
    var rd := Rdata(q, ans);
    var count := if rd.Some? then 1 else 0;
    var tail := if rd.Some? then AnswerRecord(q, ans.ttl, rd.value) else [];
    var header := ReplyHeader(q, count);
    assert header == EncodeHeader(q.id, ReplyFlags(q.flags), count, 0, 0);
    assert r == header + (msg[12..q.end] + tail);
    HeaderReads(q.id, ReplyFlags(q.flags), count, 0, 0, r, msg[12..q.end] + tail);
    assert r[..q.end] == header + msg[12..q.end];
  }

  /** What the reply means: an RFC 1035 decoder takes all of it, finds the query's id, its one question, and the
      configured record for that question's name if there is one. The reply's flags are QR, RA and the query's RD, so the
      rcode is NOERROR. */
  lemma ReplyDecodes(msg: seq<byte>, ans: Answer)
    ensures Replied(msg, ans).Some? <==> Parsed(msg).Some?
    ensures Replied(msg, ans).Some? ==>
      var q := Parsed(msg).value;
      var name := LabelsAt(msg, HEADER_LEN, 0);
      DecodeMessage(Replied(msg, ans).value)
        == Some(Message(q.id, 0x8080 + q.flags / 0x100 % 2 * 0x100,
                        [Question(name, q.qtype, q.qclass)], AnswersTo(q, name, ans), [], []))
  {
    hide Be16, Walk, DecodeName, DecodeQuestions, DecodeRecords, AnswerRecord, LabelsAt, ReplyFlags;
    if Replied(msg, ans).Some? {
      var q, r := Parsed(msg).value, Replied(msg, ans).value;
      ParsedParts(msg);
      FlagsOfQuery(q.flags);
      ReplyHead(msg, ans, q, r);
      ReplyQuestion(msg, r, q);
      var rd := Rdata(q, ans);
      NoRecords(r, q.end);
      NoRecords(r, |r|);
      if rd.Some? {
        RecordDecodes(r, r[..q.end], q, ans.ttl, rd.value);
      }
    }
  }

  lemma NoRecords(m: seq<byte>, p: nat)
    ensures DecodeRecords(m, p, 0) == Some(([], p))
  {
  }

  /** A reply is the question's end plus 0, 16 or 28 bytes: never more than 28 bytes longer than what drew it,
      and always short enough for a two-byte length. */
  lemma ReplyLength(msg: seq<byte>, ans: Answer)
    requires Replied(msg, ans).Some?
    ensures var q := Parsed(msg).value; var n := |Replied(msg, ans).value|;
      && n == q.end + (if Rdata(q, ans).Some? then 12 + |Rdata(q, ans).value| else 0)
      && n <= |msg| + 28 && n <= 8237
  {
    hide AnswerRecord;
    var q, r := Parsed(msg).value, Replied(msg, ans).value;
    ParseIsBoundedAndLocal(msg, msg);
    ReplyHead(msg, ans, q, r);
    if Rdata(q, ans).Some? {
      RecordFields(q, ans.ttl, Rdata(q, ans).value);
    }
  }

  /** A reply is never itself answered; with QR cleared it is the same question again. */
  lemma RepliesAreNotAnswered(msg: seq<byte>, ans: Answer, ans': Answer)
    requires Replied(msg, ans).Some?
    ensures var q, r := Parsed(msg).value, Replied(msg, ans).value;
      && Replied(r, ans') == None
      && r[2] >= 128
      && Parsed(r[2 := r[2] - 128])
         == Some(q.(flags := 0x80 + q.flags / 0x100 % 2 * 0x100))
  {
    hide AnswerRecord, Walk, LabelsAt, ReplyFlags, IsResponse, Opcode, Put16;
    var q, r := Parsed(msg).value, Replied(msg, ans).value;
    ParsedParts(msg);
    FlagsOfQuery(q.flags);
    ReplyHead(msg, ans, q, r);
    ResponseIsRejected(r, ans');
    var asked := r[2 := r[2] - 128];
    QrCleared(r, ReplyFlags(q.flags));
    assert asked[12..q.end] == r[12..q.end];
    ReplyQuestion(msg, asked, q);
    AsksAgain(asked, q.(flags := ReplyFlags(q.flags) - 0x8000));
  }

  lemma ResponseIsRejected(r: seq<byte>, ans: Answer)
    requires Be16(r, 2).Some? && IsResponse(Be16(r, 2).value)
    ensures Replied(r, ans) == None
  {
    hide IsResponse;
  }

  lemma QrCleared(r: seq<byte>, flags: word)
    requires |r| >= 12 && Be16(r, 2) == Some(flags) && flags >= 0x8000
    ensures r[2] >= 128
    ensures var asked := r[2 := r[2] - 128];
      Be16(asked, 2) == Some(flags - 0x8000) && Be16(asked, 0) == Be16(r, 0) && Be16(asked, 4) == Be16(r, 4)
  {
  }

  lemma AsksAgain(m: seq<byte>, q: Query)
    requires 16 < q.end <= |m| && Be16(m, 0) == Some(q.id) && Be16(m, 2) == Some(q.flags) && Be16(m, 4) == Some(1)
    requires !IsResponse(q.flags) && Opcode(q.flags) == 0
    requires Walk(m, HEADER_LEN, 0) == Some(q.end - 4)
    requires Be16(m, q.end - 4) == Some(q.qtype) && Be16(m, q.end - 2) == Some(q.qclass)
    ensures Parsed(m) == Some(q)
  {
    hide IsResponse, Opcode, Walk, Be16;
  }

  ghost function Frame(msg: seq<byte>): seq<byte>
    requires |msg| < 0x1_0000
  {
    Put16(|msg|) + msg
  }

  /** Over TCP the reply to a framed message is the framed reply, whatever follows the frame. */
  lemma TcpRepliesInFrames(msg: seq<byte>, rest: seq<byte>, ans: Answer)
    requires |msg| < 0x1_0000
    ensures RepliedTcp(Frame(msg) + rest, ans).Some? <==> Replied(msg, ans).Some?
    ensures Replied(msg, ans).Some? ==>
      |Replied(msg, ans).value| < 0x1_0000
      && RepliedTcp(Frame(msg) + rest, ans) == Some(Frame(Replied(msg, ans).value))
  {
    hide Replied;
    var framed := Frame(msg) + rest;
    assert Be16(framed, 0) == Some(|msg|);
    assert framed[2..2 + |msg|] == msg;
    if Replied(msg, ans).Some? {
      ReplyLength(msg, ans);
    }
  }

  /** Over TCP whatever has arrived of the frame is answered, behind the length of the reply. */
  lemma TcpAnswersWhatArrived(heard: seq<byte>, ans: Answer)
    ensures |heard| < 2 ==> RepliedTcp(heard, ans) == None
    ensures |heard| >= 2 ==>
      var query := heard[2..2 + Min(256 * heard[0] as int + heard[1] as int, |heard| - 2)];
      match Replied(query, ans)
      case None => RepliedTcp(heard, ans) == None
      case Some(r) => |r| < 0x1_0000 && RepliedTcp(heard, ans) == Some([|r| / 256, |r| % 256] + r)
  {
    hide Replied;
    if |heard| >= 2 {
      var query := heard[2..2 + Min(256 * heard[0] as int + heard[1] as int, |heard| - 2)];
      assert Be16(heard, 0) == Some(256 * heard[0] as int + heard[1] as int);
      if Replied(query, ans).Some? {
        ReplyLength(query, ans);
      }
    }
  }
}
