/** The two DNS walkers, compared. */
module WalkersAgree {
  import opened Bytes
  import opened Wrappers
  import opened Fields
  import opened DnsWire
  import opened Dns
  import opened DnsSafety
  import opened Classify

  /** Every byte of the name is a graphic ASCII character, the space excluded. */
  ghost predicate AllGraphic(name: seq<Label>) {
    forall i, j :: 0 <= i < |name| && 0 <= j < |name[i]| ==> 0x21 <= name[i][j] <= 0x7e
  }

  /** The classifier's walk is the responder's, cut off at 64 labels and at the first label that does not print. */
  lemma {:induction false} HintNameIsWalk(d: seq<byte>, p: nat, before: seq<Label>)
    requires |before| <= 64
    ensures HintName(d, p, before).Some? <==>
      && Walk(d, p, |before|).Some?
      && |before| + |LabelsAt(d, p, |before|)| <= 64
      && AllGraphic(LabelsAt(d, p, |before|))
    ensures HintName(d, p, before).Some? ==>
      HintName(d, p, before).value == (Walk(d, p, |before|).value, before + LabelsAt(d, p, |before|))
    decreases |d| - p
  {
    if p < |d| && 0 < d[p] < 64 && p + 1 + d[p] <= |d| {
      var part, next := d[p + 1..p + 1 + d[p]], p + 1 + d[p];
      if Walk(d, p, |before|).Some? {
        var name, rest := LabelsAt(d, p, |before|), LabelsAt(d, next, |before| + 1);
        assert name == [part] + rest;
        GraphicCons(part, rest);
        assert before + name == (before + [part]) + rest;
      }
      if |before| < 64 {
        HintNameIsWalk(d, next, before + [part]);
      }
    } else {
      assert before + [] == before;
    }
  }

  lemma GraphicCons(part: Label, rest: seq<Label>)
    ensures AllGraphic([part] + rest) <==> Graphic(part) && AllGraphic(rest)
  {
    var name := [part] + rest;
    assert name[0] == part && forall i :: 0 <= i < |rest| ==> rest[i] == name[i + 1];
    if AllGraphic(name) {
      forall i, j | 0 <= i < |rest| && 0 <= j < |rest[i]|
        ensures 0x21 <= rest[i][j] <= 0x7e
      {
        assert rest[i][j] == name[i + 1][j];
      }
    }
  }

  /** The classifier reports a query exactly when the message is one with no answers, its name has 1 to 64 labels
      that all print, and a type follows; it reports that name and type. */
  lemma HintMeansQuery(d: seq<byte>, hint: DnsHint)
    ensures DnsHinted(d) == Some(hint) <==>
      && |d| >= 12 && Be16(d, 2).value < 0x800
      && Be16(d, 4) == Some(1) && Be16(d, 6) == Some(0)
      && Walk(d, 12, 0).Some? && hint.labels == LabelsAt(d, 12, 0)
      && 1 <= |hint.labels| <= 64 && AllGraphic(hint.labels)
      && Be16(d, Walk(d, 12, 0).value) == Some(hint.qtype)
  {
    hide IsResponse, Opcode, HintName, Walk, LabelsAt, AllGraphic;
    if |d| >= 12 {
      FlagsClear(Be16(d, 2).value);
      HintNameIsWalk(d, 12, []);
      if HintName(d, 12, []).Some? {
        assert [] + LabelsAt(d, 12, 0) == LabelsAt(d, 12, 0);
      }
    }
  }

  /** Whatever the classifier reports, the responder parses exactly when four bytes follow the name, and then as the same
      name and type. */
  lemma HintsParse(d: seq<byte>)
    requires DnsHinted(d).Some?
    ensures Walk(d, 12, 0).Some?
    ensures Parsed(d).Some? <==> Walk(d, 12, 0).value + 4 <= |d|
    ensures Parsed(d).Some? ==> Parsed(d).value.qtype == DnsHinted(d).value.qtype
    ensures DnsHinted(d).value.labels == LabelsAt(d, HEADER_LEN, 0)
  {
    HintMeansQuery(d, DnsHinted(d).value);
  }

  /** Of the queries the responder parses, the classifier reports those with no answers and 1 to 64 printable labels. */
  lemma ParsedAreHinted(d: seq<byte>)
    requires Parsed(d).Some?
    ensures var name := LabelsAt(d, HEADER_LEN, 0);
      DnsHinted(d).Some? <==> Be16(d, 6) == Some(0) && 1 <= |name| <= 64 && AllGraphic(name)
    ensures DnsHinted(d).Some? ==>
      DnsHinted(d).value == DnsHint(Parsed(d).value.qtype, LabelsAt(d, HEADER_LEN, 0))
  {
    var hint := DnsHint(Parsed(d).value.qtype, LabelsAt(d, HEADER_LEN, 0));
    HintMeansQuery(d, hint);
    if DnsHinted(d).Some? {
      HintMeansQuery(d, DnsHinted(d).value);
    }
  }
}

/** ClientHello messages as section 4.1.2 of RFC 8446 lays them out, and what the classifier makes of them. */
module ClientHellos {
  import opened Bytes
  import opened Wrappers
  import opened Fields
  import opened Classify

  /** A name of the server_name list: its type, 0 for host_name, and its bytes (section 3 of RFC 6066). */
  datatype ServerName = ServerName(ntype: byte, name: seq<byte>)

  datatype Extension =
    | Names(names: seq<ServerName>)
    | Protocols(protocols: seq<seq<byte>>)
    | Versions(versions: seq<word>)
    | Other(etype: word, body: seq<byte>)

  datatype Hello = Hello(
    recordMinor: byte,
    legacy: word,
    random: seq<byte>,
    sessionId: seq<byte>,
    ciphers: seq<word>,
    compression: seq<byte>,
    extensions: Option<seq<Extension>>)

  // ---------------------------------------------------------------- encoding

  ghost function EncodeNames(names: seq<ServerName>): seq<byte>
    requires forall i :: 0 <= i < |names| ==> |names[i].name| < 0x1_0000
  {
    if names == [] then []
    else [names[0].ntype] + Put16(|names[0].name|) + names[0].name + EncodeNames(names[1..])
  }

  ghost function EncodeProtocols(protocols: seq<seq<byte>>): seq<byte>
    requires forall i :: 0 <= i < |protocols| ==> |protocols[i]| < 256
  {
    if protocols == [] then []
    else [|protocols[0]|] + protocols[0] + EncodeProtocols(protocols[1..])
  }

  ghost function EncodeWords(words: seq<word>): (b: seq<byte>)
    ensures |b| == 2 * |words|
  {
    if words == [] then [] else Put16(words[0]) + EncodeWords(words[1..])
  }

  ghost predicate WellFormedExtension(e: Extension) {
    match e
    case Names(names) =>
      (forall i :: 0 <= i < |names| ==> |names[i].name| < 0x1_0000) && 2 + |EncodeNames(names)| < 0x1_0000
    case Protocols(protocols) =>
      (forall i :: 0 <= i < |protocols| ==> 1 <= |protocols[i]| < 256) && 2 + |EncodeProtocols(protocols)| < 0x1_0000
    case Versions(versions) => |versions| <= 127
    case Other(etype, body) =>
      etype != 0 && etype != 16 && etype != 43 && |body| < 0x1_0000
  }

  ghost function TypeOf(e: Extension): word {
    match e
    case Names(_) => 0
    case Protocols(_) => 16
    case Versions(_) => 43
    case Other(etype, _) => etype
  }

  ghost function BodyOf(e: Extension): (b: seq<byte>)
    requires WellFormedExtension(e)
    ensures |b| < 0x1_0000
  {
    match e
    case Names(names) => Put16(|EncodeNames(names)|) + EncodeNames(names)
    case Protocols(protocols) => Put16(|EncodeProtocols(protocols)|) + EncodeProtocols(protocols)
    case Versions(versions) => [2 * |versions|] + EncodeWords(versions)
    case Other(_, body) => body
  }

  ghost predicate WellFormedExtensions(es: seq<Extension>) {
    forall i :: 0 <= i < |es| ==> WellFormedExtension(es[i])
  }

  ghost function EncodeExtensions(es: seq<Extension>): seq<byte>
    requires WellFormedExtensions(es)
  {
    if es == [] then []
    else Put16(TypeOf(es[0])) + Put16(|BodyOf(es[0])|) + BodyOf(es[0]) + EncodeExtensions(es[1..])
  }

  // ---------------------------------------------------------------- what it should report

  /** The first host_name of a server_name list. */
  ghost function FirstHost(names: seq<ServerName>): Option<seq<byte>> {
    if names == [] then None
    else if names[0].ntype == 0 then Some(names[0].name)
    else FirstHost(names[1..])
  }

  /** The values section 2 of RFC 8701 reserves: two like bytes that end in the digit 0xa. The program skips more, any two
      bytes that do. */
  ghost predicate EndsInA(v: word) {
    exists a, b :: 0 <= a < 16 && 0 <= b < 16 && v == 0x1000 * a + 0xa00 + 0x10 * b + 0xa
  }

  /** The highest of the offered versions that are not skipped, if it is above this. */
  ghost function HighestOf(highest: word, versions: seq<word>): word
    decreases |versions|
  {
    if versions == [] then highest
    else HighestOf(if !EndsInA(versions[0]) && versions[0] > highest then versions[0] else highest, versions[1..])
  }

  /** The program's GREASE test is passed exactly by words both of whose bytes end in the digit 0xa. */
  lemma GreaseMeans(v: word)
    ensures IsGrease(v) <==> EndsInA(v)
  {
    hide IsGrease;
    FourDigits(v);
    assert IsGrease(v) <==> v % 16 == 10 && v / 256 % 16 == 10 by {
      GreaseDigits(v);
    }
    if EndsInA(v) {
      var a, b :| 0 <= a < 16 && 0 <= b < 16 && v == 0x1000 * a + 0xa00 + 0x10 * b + 0xa;
      ReservedDigits(v, a, b);
    }
  }

  lemma GreaseDigits(v: word)
    ensures IsGrease(v) <==> v % 16 == 10 && v / 256 % 16 == 10
  {
  }

  lemma FourDigits(v: word)
    ensures 0 <= v / 0x1000 < 16 && 0 <= v / 0x10 % 16 < 16
    ensures v == 0x1000 * (v / 0x1000) + 0x100 * (v / 256 % 16) + 0x10 * (v / 0x10 % 16) + v % 16
  {
  }

  lemma ReservedDigits(v: int, a: int, b: int)
    requires 0 <= a < 16 && 0 <= b < 16 && v == 0x1000 * a + 0xa00 + 0x10 * b + 0xa
    ensures v % 16 == 10 && v / 256 % 16 == 10
  {
    assert v / 256 == 16 * a + 10;
  }

  /** So every reserved value 0x0a0a, 0x1a1a, .. 0xfafa is skipped, and no version of SSL or TLS is. */
  lemma ReservedAreSkipped(n: nat)
    ensures n < 16 ==> IsGrease(0x1010 * n + 0xa0a)
    ensures 0x0300 <= n <= 0x0304 ==> !IsGrease(n)
  {
    if n < 16 {
      GreaseMeans(0x1010 * n + 0xa0a);
      assert 0x1010 * n + 0xa0a == 0x1000 * n + 0xa00 + 0x10 * n + 0xa;
    }
  }

  /** What one extension adds; a later one of the same type overrides. */
  ghost function Adds(said: Said, e: Extension): Said {
    match e
    case Names(names) => said.(sni := FirstHost(names))
    case Protocols(protocols) => said.(alpn := protocols)
    case Versions(versions) => said.(highest := HighestOf(said.highest, versions))
    case Other(_, _) => said
  }

  ghost function AllAdd(said: Said, es: seq<Extension>): Said
    decreases |es|
  {
    if es == [] then said else AllAdd(Adds(said, es[0]), es[1..])
  }

  // ---------------------------------------------------------------- extension bodies

  lemma {:induction false} NamesParse(b: seq<byte>, p: nat, names: seq<ServerName>)
    requires forall i :: 0 <= i < |names| ==> |names[i].name| < 0x1_0000
    requires p <= |b| && b[p..] == EncodeNames(names)
    ensures SniFrom(b, p) == FirstHost(names)
    decreases |names|
  {
    if names != [] {
      var n := names[0].name;
      var next := p + 3 + |n|;
      assert b[p..] == [names[0].ntype] + Put16(|n|) + n + EncodeNames(names[1..]);
      assert b[p] == b[p..][0] && b[p + 1] == b[p..][1] && b[p + 2] == b[p..][2];
      assert b[p + 3..next] == n;
      assert b[next..] == EncodeNames(names[1..]);
      NamesParse(b, next, names[1..]);
    }
  }

  lemma {:induction false} ProtocolsParse(b: seq<byte>, p: nat, protocols: seq<seq<byte>>)
    requires forall i :: 0 <= i < |protocols| ==> |protocols[i]| < 256
    requires p <= |b| && b[p..] == EncodeProtocols(protocols)
    ensures AlpnFrom(b, p) == protocols
    decreases |protocols|
  {
    if protocols != [] {
      var next := p + 1 + |protocols[0]|;
      assert b[p..] == [|protocols[0]|] + protocols[0] + EncodeProtocols(protocols[1..]);
      assert b[p] == b[p..][0];
      assert b[p + 1..next] == protocols[0];
      assert b[next..] == EncodeProtocols(protocols[1..]);
      ProtocolsParse(b, next, protocols[1..]);
    }
  }

  lemma {:induction false} VersionsParse(b: seq<byte>, i: nat, highest: word, versions: seq<word>)
    requires i <= |b| && b[i..] == EncodeWords(versions)
    ensures VersionsFrom(b, i, |b|, highest) == HighestOf(highest, versions)
    decreases |versions|
  {
    if versions != [] {
      assert b[i..] == Put16(versions[0]) + EncodeWords(versions[1..]);
      assert b[i] == b[i..][0] && b[i + 1] == b[i..][1];
      assert b[i + 2..] == EncodeWords(versions[1..]);
      GreaseMeans(versions[0]);
      VersionsParse(b, i + 2, Higher(highest, versions[0]), versions[1..]);
    }
  }

  lemma ExtensionHeard(said: Said, e: Extension)
    requires WellFormedExtension(e)
    ensures Heard(said, TypeOf(e), BodyOf(e)) == Adds(said, e)
  {
    var b := BodyOf(e);
    match e
    case Names(names) =>
      assert b[2..] == EncodeNames(names);
      NamesParse(b, 2, names);
    case Protocols(protocols) =>
      assert b[2..] == EncodeProtocols(protocols);
      ProtocolsParse(b, 2, protocols);
    case Versions(versions) =>
      assert b[1..] == EncodeWords(versions);
      VersionsParse(b, 1, said.highest, versions);
    case Other(_, _) =>
  }

  lemma ExtensionInPlace(d: seq<byte>, p: nat, end: nat, etype: word, body: seq<byte>, rest: seq<byte>)
    requires |body| < 0x1_0000
    requires p <= end <= |d| && d[p..end] == Put16(etype) + Put16(|body|) + body + rest
    ensures p + 4 + |body| <= end
    ensures Be16(d, p) == Some(etype) && Be16(d, p + 2) == Some(|body|)
    ensures d[p + 4..p + 4 + |body|] == body && d[p + 4 + |body|..end] == rest
  {
    var e := d[p..end];
    assert forall i :: 0 <= i < |e| ==> e[i] == d[p + i];
    assert e[0] == etype / 256 && e[1] == etype % 256 && e[2] == |body| / 256 && e[3] == |body| % 256;
    assert d[p] == e[0] && d[p + 1] == e[1] && d[p + 2] == e[2] && d[p + 3] == e[3];
    assert e[4..4 + |body|] == body && e[4 + |body|..] == rest;
  }

  lemma {:induction false} ExtensionsParse(d: seq<byte>, p: nat, end: nat, said: Said, es: seq<Extension>)
    requires WellFormedExtensions(es)
    requires p <= end <= |d| && d[p..end] == EncodeExtensions(es)
    ensures ExtensionsFrom(d, p, end, said) == Some(AllAdd(said, es))
    decreases |es|
  {
    hide BodyOf, TypeOf, Heard, Adds, WellFormedExtension, Put16, Be16;
    if es != [] {
      var body := BodyOf(es[0]);
      var next := p + 4 + |body|;
      ExtensionInPlace(d, p, end, TypeOf(es[0]), body, EncodeExtensions(es[1..]));
      ExtensionHeard(said, es[0]);
      ExtensionsParse(d, next, end, Adds(said, es[0]), es[1..]);
    }
  }

  // ---------------------------------------------------------------- the whole message

  ghost predicate WellFormed(h: Hello) {
    && |h.random| == 32
    && |h.sessionId| <= 32
    && 1 <= |h.ciphers| < 0x8000
    && 1 <= |h.compression| < 256
    && (h.extensions.Some? ==> WellFormedExtensions(h.extensions.value) && |EncodeExtensions(h.extensions.value)| < 0x1_0000)
    && 38 + |EncodeBody(h, [])| < 0x1_0000
  }

  ghost function EncodeTail(h: Hello): seq<byte>
    requires h.extensions.Some? ==> WellFormedExtensions(h.extensions.value) && |EncodeExtensions(h.extensions.value)| < 0x1_0000
  {
    match h.extensions
    case None => []
    case Some(es) => Put16(|EncodeExtensions(es)|) + EncodeExtensions(es)
  }

  /** The handshake body after its version and random. */
  ghost function EncodeBody(h: Hello, rest: seq<byte>): seq<byte>
    requires |h.sessionId| <= 32 && |h.ciphers| < 0x8000 && |h.compression| < 256
    requires h.extensions.Some? ==> WellFormedExtensions(h.extensions.value) && |EncodeExtensions(h.extensions.value)| < 0x1_0000
  {
    [|h.sessionId|] + (h.sessionId + (Put16(2 * |h.ciphers|) + (EncodeWords(h.ciphers)
      + ([|h.compression|] + (h.compression + (EncodeTail(h) + rest))))))
  }

  /** One record holding one ClientHello, and whatever comes after it. */
  ghost function EncodeHello(h: Hello, rest: seq<byte>): seq<byte>
    requires WellFormed(h)
  {
    var n := 34 + |EncodeBody(h, [])|;
    [0x16, 0x03, h.recordMinor] + Put16(4 + n) + [0x01, n / 0x1_0000, n / 256 % 256, n % 256]
      + Put16(h.legacy) + h.random + EncodeBody(h, rest)
  }

  ghost function Expected(h: Hello): Said {
    AllAdd(Said(None, [], h.legacy), if h.extensions.Some? then h.extensions.value else [])
  }

  lemma Take(d: seq<byte>, p: nat, a: seq<byte>, b: seq<byte>)
    requires p <= |d| && d[p..] == a + b
    ensures p + |a| <= |d| && d[p + |a|..] == b && d[p..p + |a|] == a
    ensures |a| >= 1 ==> d[p] == a[0]
    ensures |a| >= 2 ==> d[p + 1] == a[1]
  {
    assert forall i :: 0 <= i < |d| - p ==> d[p..][i] == d[p + i];
  }

  lemma TakeWord(d: seq<byte>, p: nat, w: word, b: seq<byte>)
    requires p <= |d| && d[p..] == Put16(w) + b
    ensures Be16(d, p) == Some(w) && p + 2 <= |d| && d[p + 2..] == b
  {
    Take(d, p, Put16(w), b);
  }

  lemma HelloStarts(h: Hello, rest: seq<byte>)
    requires WellFormed(h)
    ensures var d := EncodeHello(h, rest);
      && |d| >= 43 && d[0] == 0x16 && d[1] == 0x03 && d[5] == 0x01
      && Be16(d, 9) == Some(h.legacy) && d[43..] == EncodeBody(h, rest)
  {
    hide EncodeBody;
  }

  /** A field with its length in front, and what follows it. */
  lemma TakeCounted(d: seq<byte>, p: nat, n: byte, a: seq<byte>, b: seq<byte>)
    requires p <= |d| && |a| == n && d[p..] == [n] + (a + b)
    ensures p < |d| && d[p] == n && p + 1 + n <= |d| && d[p + 1 + n..] == b
  {
    Take(d, p, [n], a + b);
    Take(d, p + 1, a, b);
  }

  lemma TakeWordCounted(d: seq<byte>, p: nat, n: word, a: seq<byte>, b: seq<byte>)
    requires p <= |d| && |a| == n && d[p..] == Put16(n) + (a + b)
    ensures Be16(d, p) == Some(n) && p + 2 + n <= |d| && d[p + 2 + n..] == b
  {
    TakeWord(d, p, n, a + b);
    Take(d, p + 2, a, b);
  }

  /** The offsets the program computes are the offsets of the fields. */
  lemma BodyFields(h: Hello, d: seq<byte>, rest: seq<byte>) returns (p1: nat, p2: nat, p3: nat)
    requires WellFormed(h) && |d| >= 43 && d[43..] == EncodeBody(h, rest)
    ensures 43 < |d| && p1 == 44 + d[43] as int && Be16(d, p1) == Some(2 * |h.ciphers|)
    ensures p2 == p1 + 2 + 2 * |h.ciphers| < |d| && p3 == p2 + 1 + d[p2] as int
    ensures p3 <= |d| && d[p3..] == EncodeTail(h) + rest
  {
    hide EncodeTail, EncodeWords, Put16, Be16, EncodeExtensions, WellFormedExtensions;
    var s3 := EncodeTail(h) + rest;
    var s2 := [|h.compression|] + (h.compression + s3);
    var s1 := Put16(2 * |h.ciphers|) + (EncodeWords(h.ciphers) + s2);
    TakeCounted(d, 43, |h.sessionId|, h.sessionId, s1);
    p1 := 44 + |h.sessionId|;
    TakeWordCounted(d, p1, 2 * |h.ciphers|, EncodeWords(h.ciphers), s2);
    p2 := p1 + 2 + 2 * |h.ciphers|;
    TakeCounted(d, p2, |h.compression|, h.compression, s3);
    p3 := p2 + 1 + |h.compression|;
  }

  lemma TailParses(h: Hello, d: seq<byte>, p: nat, rest: seq<byte>)
    requires WellFormed(h) && h.extensions.Some?
    requires p <= |d| && d[p..] == EncodeTail(h) + rest
    ensures Be16(d, p) == Some(|EncodeExtensions(h.extensions.value)|)
    ensures var total := |EncodeExtensions(h.extensions.value)|;
      ExtensionsFrom(d, p + 2, Min(p + 2 + total, |d|), Said(None, [], h.legacy)) == Some(Expected(h))
  {
    hide EncodeExtensions, WellFormedExtensions, ExtensionsFrom, EncodeBody;
    var e := EncodeExtensions(h.extensions.value);
    assert EncodeTail(h) + rest == Put16(|e|) + (e + rest);
    TakeWord(d, p, |e|, e + rest);
    Take(d, p + 2, e, rest);
    ExtensionsParse(d, p + 2, p + 2 + |e|, Said(None, [], h.legacy), h.extensions.value);
  }

  /** Bytes read as a block of extensions with its length in front; fewer than two bytes are none. */
  ghost function ReadAsBlock(rest: seq<byte>, said: Said): Option<Said> {
    match Be16(rest, 0)
    case None => Some(said)
    case Some(total) => ExtensionsFrom(rest, 2, Min(2 + total, |rest|), said)
  }

  /** The report of a hello whose extensions said this much. */
  ghost function Report(h: Hello, said: Option<Said>): Option<TlsHint> {
    match said
    case None => None
    case Some(s) => Some(ClientHello(s.highest, s.sni, s.alpn, |h.ciphers|))
  }

  /** Every well-formed ClientHello, with whatever extensions in whatever order, is reported with the host, protocols,
      version and cipher count it was built from. Bytes after it change nothing when it has extensions; when it has
      none they are read as if they were its extensions, and the report is right exactly when those say nothing new. */
  lemma HelloRoundTrip(h: Hello, rest: seq<byte>)
    requires WellFormed(h)
    ensures h.extensions.Some? ==> TlsHinted(EncodeHello(h, rest)) == Report(h, Some(Expected(h)))
    ensures h.extensions == None ==> TlsHinted(EncodeHello(h, rest)) == Report(h, ReadAsBlock(rest, Expected(h)))
    ensures TlsHinted(EncodeHello(h, rest)) == Report(h, Some(Expected(h)))
       <==> h.extensions.Some? || ReadAsBlock(rest, Expected(h)) == Some(Expected(h))
  {
    hide EncodeHello, EncodeBody, EncodeTail, ExtensionsFrom, AllAdd, Be16, WellFormedExtensions, EncodeExtensions, ReadAsBlock;
    var d := EncodeHello(h, rest);
    HelloStarts(h, rest);
    var p1, p2, p3 := BodyFields(h, d, rest);
    if h.extensions.Some? {
      TailParses(h, d, p3, rest);
    } else {
      NothingSaid(h);
      BytesAfterAreRead(h, d, p3, rest);
    }
  }

  lemma NothingSaid(h: Hello)
    requires h.extensions == None
    ensures Expected(h) == Said(None, [], h.legacy)
  {
  }

  lemma BytesAfterAreRead(h: Hello, d: seq<byte>, p: nat, rest: seq<byte>)
    requires WellFormed(h) && h.extensions == None && p <= |d| && d[p..] == EncodeTail(h) + rest
    ensures ReadAsBlock(rest, Expected(h)) ==
      match Be16(d, p)
      case None => Some(Expected(h))
      case Some(total) => ExtensionsFrom(d, p + 2, Min(p + 2 + total, |d|), Expected(h))
  {
    hide ExtensionsFrom, Expected, EncodeBody;
    assert EncodeTail(h) + rest == rest;
    assert Be16(d, p) == Be16(rest, 0) by {
      assert |rest| >= 2 ==> d[p] == d[p..][0] && d[p + 1] == d[p..][1];
    }
    if |rest| >= 2 {
      ExtensionsAreLocal(d, p, 2, Min(2 + Be16(rest, 0).value, |rest|), Expected(h));
    }
  }

  /** Extensions are read the same wherever they stand. */
  lemma {:induction false} ExtensionsAreLocal(d: seq<byte>, at: nat, p: nat, end: nat, said: Said)
    requires at + end <= |d|
    ensures ExtensionsFrom(d, at + p, at + end, said) == ExtensionsFrom(d[at..], p, end, said)
    decreases |d| - at - p
  {
    if p + 4 <= end {
      var b := d[at..];
      assert d[at + p] == b[p] && d[at + p + 1] == b[p + 1] && d[at + p + 2] == b[p + 2] && d[at + p + 3] == b[p + 3];
      var etype, elen := Be16(d, at + p).value, Be16(d, at + p + 2).value;
      if at + p + 4 + elen <= |d| {
        var body := d[at + p + 4..at + p + 4 + elen];
        assert body == b[p + 4..p + 4 + elen];
        ExtensionsAreLocal(d, at, p + 4 + elen, end, Heard(said, etype, body));
      }
    }
  }

  /** Bytes too few for one extension, or that start with a length too small for one, say nothing. */
  lemma ShortTrailersSayNothing(rest: seq<byte>, said: Said)
    requires |rest| < 6 || Be16(rest, 0).value < 4
    ensures ReadAsBlock(rest, said) == Some(said)
  {
  }

  /** A TLS 1.2 hello without extensions. */
  const PLAIN := Hello(1, 0x0303, seq(32, _ => 0), [], [0x002f], [0], None)

  /** Others do: these nine bytes after a hello without extensions make it TLS 1.3, and these six unreadable. */
  lemma TrailersCanSpeak()
    ensures WellFormed(PLAIN)
    ensures TlsHinted(EncodeHello(PLAIN, [])) == Some(ClientHello(0x0303, None, [], 1))
    ensures TlsHinted(EncodeHello(PLAIN, [0, 7, 0, 43, 0, 3, 2, 3, 4])) == Some(ClientHello(0x0304, None, [], 1))
    ensures TlsHinted(EncodeHello(PLAIN, [0, 4, 0, 0, 0, 1])) == None
  {
    var said := Said(None, [], 0x0303);
    NothingSaid(PLAIN);
    PlainIsWellFormed();
    VersionTrailer();
    hide TlsHinted, EncodeHello, WellFormed;
    HelloRoundTrip(PLAIN, []);
    HelloRoundTrip(PLAIN, [0, 7, 0, 43, 0, 3, 2, 3, 4]);
    HelloRoundTrip(PLAIN, [0, 4, 0, 0, 0, 1]);
    ShortTrailersSayNothing([], said);
    assert ReadAsBlock([0, 4, 0, 0, 0, 1], said) == None;
  }

  lemma PlainIsWellFormed()
    ensures WellFormed(PLAIN)
  {
    assert |EncodeTail(PLAIN) + []| == 0;
  }

  lemma VersionTrailer()
    ensures ReadAsBlock([0, 7, 0, 43, 0, 3, 2, 3, 4], Said(None, [], 0x0303)) == Some(Said(None, [], 0x0304))
  {
    var b, said := [0, 7, 0, 43, 0, 3, 2, 3, 4], Said(None, [], 0x0303);
    assert b[6..9] == [2, 3, 4];
    assert VersionsFrom([2, 3, 4], 1, 3, 0x0303) == VersionsFrom([2, 3, 4], 3, 3, 0x0304);
    assert VersionsIn(b[6..9], 0x0303) == 0x0304;
    assert ExtensionsFrom(b, 2, 9, said) == ExtensionsFrom(b, 9, 9, said.(highest := 0x0304));
  }

  // ---------------------------------------------------------------- what the report means

  ghost predicate NoneOf(es: seq<Extension>, t: word) {
    forall i :: 0 <= i < |es| ==> TypeOf(es[i]) != t
  }

  /** An extension that is the last of its type decides what is reported for that type. */
  lemma {:induction false} LastDecides(said: Said, es: seq<Extension>, i: nat)
    requires WellFormedExtensions(es) && i < |es| && NoneOf(es[i + 1..], TypeOf(es[i]))
    ensures es[i].Names? ==> AllAdd(said, es).sni == FirstHost(es[i].names)
    ensures es[i].Protocols? ==> AllAdd(said, es).alpn == es[i].protocols
    decreases |es|
  {
    if i == 0 {
      NoneLeavesAlone(Adds(said, es[0]), es[1..]);
    } else {
      assert es[1..][i - 1] == es[i] && es[1..][i - 1 + 1..] == es[i + 1..];
      LastDecides(Adds(said, es[0]), es[1..], i - 1);
    }
  }

  /** With no extension of a type, nothing is reported for it. */
  lemma {:induction false} NoneLeavesAlone(said: Said, es: seq<Extension>)
    requires WellFormedExtensions(es)
    ensures NoneOf(es, 0) ==> AllAdd(said, es).sni == said.sni
    ensures NoneOf(es, 16) ==> AllAdd(said, es).alpn == said.alpn
    ensures NoneOf(es, 43) ==> AllAdd(said, es).highest == said.highest
    decreases |es|
  {
    if es != [] {
      assert forall t :: NoneOf(es, t) ==> TypeOf(es[0]) != t && NoneOf(es[1..], t);
      NoneLeavesAlone(Adds(said, es[0]), es[1..]);
    }
  }

  ghost predicate Offers(es: seq<Extension>, v: word) {
    !EndsInA(v) && exists i :: 0 <= i < |es| && es[i].Versions? && v in es[i].versions
  }

  lemma {:induction false} HighestOfIsMaximum(highest: word, versions: seq<word>)
    ensures var r := HighestOf(highest, versions);
      && highest <= r && (forall v :: v in versions && !EndsInA(v) ==> v <= r)
      && (r == highest || (r in versions && !EndsInA(r)))
    decreases |versions|
  {
    hide EndsInA;
    if versions != [] {
      HighestOfIsMaximum(if !EndsInA(versions[0]) && versions[0] > highest then versions[0] else highest, versions[1..]);
      assert versions == [versions[0]] + versions[1..];
    }
  }

  /** The reported version is the maximum of the legacy version and the offered versions that are not skipped. */
  lemma {:induction false} VersionIsMaximum(said: Said, es: seq<Extension>)
    ensures var r := AllAdd(said, es).highest;
      && said.highest <= r
      && (forall v: word :: Offers(es, v) ==> v <= r)
      && (r == said.highest || Offers(es, r))
    decreases |es|
  {
    if es != [] {
      if es[0].Versions? {
        HighestOfIsMaximum(said.highest, es[0].versions);
      }
      VersionIsMaximum(Adds(said, es[0]), es[1..]);
      forall v: word
        ensures Offers(es, v) <==> !EndsInA(v) && ((es[0].Versions? && v in es[0].versions) || Offers(es[1..], v))
      {
        OffersCons(es, v);
      }
    }
  }

  lemma OffersCons(es: seq<Extension>, v: word)
    requires es != []
    ensures Offers(es, v) <==> !EndsInA(v) && ((es[0].Versions? && v in es[0].versions) || Offers(es[1..], v))
  {
    if Offers(es[1..], v) {
      var i :| 0 <= i < |es[1..]| && es[1..][i].Versions? && v in es[1..][i].versions;
      assert es[i + 1] == es[1..][i];
    }
    if Offers(es, v) {
      var i :| 0 <= i < |es| && es[i].Versions? && v in es[i].versions;
      assert i > 0 ==> es[1..][i - 1] == es[i];
    }
  }

  /** The version reported is one the extensions offer exactly when they offer one at least as high as the legacy field. */
  lemma VersionComesFromExtensions(h: Hello)
    requires h.extensions.Some?
    ensures Offers(h.extensions.value, Expected(h).highest)
       <==> exists v: word :: Offers(h.extensions.value, v) && v >= h.legacy
  {
    VersionIsMaximum(Said(None, [], h.legacy), h.extensions.value);
    if v: word :| Offers(h.extensions.value, v) && v >= h.legacy {
      assert v <= Expected(h).highest;
    }
  }

  /** So a hello that offers only TLS 1.1 under a TLS 1.2 legacy field is reported as TLS 1.2. */
  lemma LegacyFieldCanWin(h: Hello, rest: seq<byte>)
    requires WellFormed(h) && h.legacy == 0x0303 && h.extensions == Some([Versions([0x0302])])
    ensures TlsHinted(EncodeHello(h, rest)) == Some(ClientHello(0x0303, None, [], |h.ciphers|))
    ensures !Offers(h.extensions.value, 0x0303)
  {
    var es := h.extensions.value;
    assert HighestOf(0x0302, []) == 0x0302;
    assert HighestOf(0x0303, [0x0302]) == HighestOf(0x0303, []);
    assert AllAdd(Said(None, [], 0x0303), es) == AllAdd(Adds(Said(None, [], 0x0303), es[0]), []);
    assert Expected(h) == Said(None, [], 0x0303);
    hide TlsHinted, EncodeHello, WellFormed;
    HelloRoundTrip(h, rest);
  }

  /** There is such a hello. */
  lemma LegacyFieldWins()
    ensures var h := PLAIN.(extensions := Some([Versions([0x0302])]));
      WellFormed(h) && TlsHinted(EncodeHello(h, [])) == Some(ClientHello(0x0303, None, [], 1))
  {
    var h := PLAIN.(extensions := Some([Versions([0x0302])]));
    var es := h.extensions.value;
    assert EncodeWords([0x0302]) == Put16(0x0302) + EncodeWords([]);
    assert |BodyOf(es[0])| == 3;
    assert |EncodeExtensions(es)| == 7 + |EncodeExtensions(es[1..])|;
    assert |EncodeTail(h) + []| == 9;
    LegacyFieldCanWin(h, []);
  }
}
