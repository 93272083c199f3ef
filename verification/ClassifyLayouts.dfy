/** What the TLS classifier reports of any bytes at all, well-formed or not. */
module HelloLayouts {
  import opened Bytes
  import opened Wrappers
  import opened Fields
  import opened Classify
  import opened ClientHellos

  // ---------------------------------------------------------------- the bodies of extensions

  ghost predicate NoHosts(names: seq<ServerName>) {
    forall i :: 0 <= i < |names| ==> names[i].ntype != 0 && |names[i].name| < 0x1_0000
  }

  /** Names of other types, then a host_name, then anything. */
  ghost predicate HostAfter(b: seq<byte>, names: seq<ServerName>, host: seq<byte>, rest: seq<byte>) {
    NoHosts(names) && |host| < 0x1_0000 && b == EncodeNames(names) + ([0] + (Put16(|host|) + (host + rest)))
  }

  lemma Regroup(a: seq<byte>, b: seq<byte>, c: seq<byte>, d: seq<byte>, tail: seq<byte>)
    ensures a + b + c + d + tail == a + (b + (c + (d + tail)))
  {
  }

  lemma NamesCons(names: seq<ServerName>, tail: seq<byte>)
    requires names != [] && NoHosts(names)
    ensures EncodeNames(names) + tail
         == [names[0].ntype] + (Put16(|names[0].name|) + (names[0].name + (EncodeNames(names[1..]) + tail)))
  {
    hide Put16;
    Regroup([names[0].ntype], Put16(|names[0].name|), names[0].name, EncodeNames(names[1..]), tail);
  }

  lemma NameSplits(b: seq<byte>, p: nat)
    requires p + 3 <= |b| && p + 3 + Be16(b, p + 1).value <= |b|
    ensures var n := Be16(b, p + 1).value;
      b[p..] == [b[p]] + (Put16(n) + (b[p + 3..p + 3 + n] + b[p + 3 + n..]))
  {
    var n := Be16(b, p + 1).value;
    assert b[p + 1..p + 3] == Put16(n);
    assert b[p..] == [b[p]] + (b[p + 1..p + 3] + b[p + 3..]);
    assert b[p + 3..] == b[p + 3..p + 3 + n] + b[p + 3 + n..];
  }

  lemma {:induction false} HostFound(b: seq<byte>, p: nat) returns (names: seq<ServerName>, rest: seq<byte>)
    requires SniFrom(b, p).Some?
    ensures p <= |b| && HostAfter(b[p..], names, SniFrom(b, p).value, rest)
    decreases |b| - p
  {
    hide Put16, EncodeNames;
    var n := Be16(b, p + 1).value;
    var next := p + 3 + n;
    NameSplits(b, p);
    if b[p] == 0 {
      names, rest := [], b[next..];
      NoNames();
      assert [] + b[p..] == b[p..];
    } else {
      var more;
      more, rest := HostFound(b, next);
      names := [ServerName(b[p], b[p + 3..next])] + more;
      assert names[1..] == more;
      NamesCons(names, [0] + (Put16(|SniFrom(b, p).value|) + (SniFrom(b, p).value + rest)));
    }
  }

  lemma NoNames()
    ensures EncodeNames([]) == []
  {
  }

  lemma NameStep(b: seq<byte>, p: nat, ntype: byte, name: seq<byte>, after: seq<byte>)
    requires p <= |b| && |name| < 0x1_0000 && b[p..] == [ntype] + (Put16(|name|) + (name + after))
    ensures p + 3 + |name| <= |b| && b[p] == ntype && Be16(b, p + 1) == Some(|name|)
    ensures b[p + 3..p + 3 + |name|] == name && b[p + 3 + |name|..] == after
  {
    hide Put16, Be16;
    Take(b, p, [ntype], Put16(|name|) + (name + after));
    TakeWord(b, p + 1, |name|, name + after);
    Take(b, p + 3, name, after);
  }

  lemma {:induction false} HostIsFound(b: seq<byte>, p: nat, names: seq<ServerName>, host: seq<byte>, rest: seq<byte>)
    requires p <= |b| && HostAfter(b[p..], names, host, rest)
    ensures SniFrom(b, p) == Some(host)
    decreases |names|
  {
    hide Put16, Be16, EncodeNames;
    var tail := [0] + (Put16(|host|) + (host + rest));
    if names == [] {
      NoNames();
      assert EncodeNames(names) + tail == tail;
      NameStep(b, p, 0, host, rest);
    } else {
      var name := names[0].name;
      NamesCons(names, tail);
      NameStep(b, p, names[0].ntype, name, EncodeNames(names[1..]) + tail);
      HostIsFound(b, p + 3 + |name|, names[1..], host, rest);
    }
  }

  /** From any bytes of a server_name extension, past its length, a host is taken exactly when it is the first name of
      type 0 among whole names; nothing is when a name runs off first, or none is of that type. */
  lemma SniMeans(b: seq<byte>, host: seq<byte>)
    ensures SniFrom(b, 2) == Some(host) <==> |b| >= 2 && exists names, rest :: HostAfter(b[2..], names, host, rest)
  {
    if SniFrom(b, 2) == Some(host) {
      var names, rest := HostFound(b, 2);
      assert HostAfter(b[2..], names, host, rest);
    }
    if |b| >= 2 {
      if names, rest :| HostAfter(b[2..], names, host, rest) {
        HostIsFound(b, 2, names, host, rest);
      }
    }
  }

  /** Whole protocols, then bytes too few for the length they start with. */
  ghost predicate ProtocolsThen(b: seq<byte>, protocols: seq<seq<byte>>, rest: seq<byte>) {
    && (forall i :: 0 <= i < |protocols| ==> |protocols[i]| < 256)
    && b == EncodeProtocols(protocols) + rest
    && (rest == [] || 1 + rest[0] as int > |rest|)
  }

  lemma ProtocolsCons(protocols: seq<seq<byte>>, tail: seq<byte>)
    requires protocols != [] && forall i :: 0 <= i < |protocols| ==> |protocols[i]| < 256
    ensures EncodeProtocols(protocols) + tail == [|protocols[0]|] + (protocols[0] + (EncodeProtocols(protocols[1..]) + tail))
  {
    Regroup([|protocols[0]|], protocols[0], EncodeProtocols(protocols[1..]), [], tail);
    assert [|protocols[0]|] + protocols[0] + EncodeProtocols(protocols[1..]) + [] == EncodeProtocols(protocols);
    assert [] + tail == tail;
  }

  lemma NoProtocols()
    ensures EncodeProtocols([]) == []
  {
  }

  lemma {:induction false} ProtocolsFound(b: seq<byte>, p: nat) returns (rest: seq<byte>)
    requires p <= |b|
    ensures ProtocolsThen(b[p..], AlpnFrom(b, p), rest)
    decreases |b| - p
  {
    hide EncodeProtocols;
    NoProtocols();
    if p == |b| || p + 1 + b[p] as int > |b| {
      rest := b[p..];
      assert [] + rest == rest;
    } else {
      var next := p + 1 + b[p];
      rest := ProtocolsFound(b, next);
      var all := AlpnFrom(b, p);
      assert all[0] == b[p + 1..next] && all[1..] == AlpnFrom(b, next);
      ProtocolsCons(all, rest);
      ProtocolSplits(b, p);
    }
  }

  lemma ProtocolSplits(b: seq<byte>, p: nat)
    requires p < |b| && p + 1 + b[p] as int <= |b|
    ensures var next := p + 1 + b[p]; b[p..] == [b[p]] + (b[p + 1..next] + b[next..])
  {
  }

  lemma ProtocolStep(b: seq<byte>, p: nat, first: seq<byte>, after: seq<byte>)
    requires p <= |b| && |first| < 256 && b[p..] == [|first|] + (first + after)
    ensures p + 1 + |first| <= |b| && b[p] == |first|
    ensures b[p + 1..p + 1 + |first|] == first && b[p + 1 + |first|..] == after
  {
    TakeCounted(b, p, |first|, first, after);
    Take(b, p, [|first|], first + after);
    Take(b, p + 1, first, after);
  }

  lemma {:induction false} ProtocolsAreFound(b: seq<byte>, p: nat, protocols: seq<seq<byte>>, rest: seq<byte>)
    requires p <= |b| && ProtocolsThen(b[p..], protocols, rest)
    ensures AlpnFrom(b, p) == protocols
    decreases |protocols|
  {
    hide EncodeProtocols;
    NoProtocols();
    if protocols == [] {
      assert b[p..] == rest;
      assert p < |b| ==> b[p] == rest[0];
    } else {
      ProtocolsCons(protocols, rest);
      ProtocolStep(b, p, protocols[0], EncodeProtocols(protocols[1..]) + rest);
      ProtocolsAreFound(b, p + 1 + |protocols[0]|, protocols[1..], rest);
      assert protocols == [protocols[0]] + protocols[1..];
    }
  }

  /** From any bytes of an ALPN extension, past its length, exactly the whole protocols they start with are taken. */
  lemma AlpnMeans(b: seq<byte>, protocols: seq<seq<byte>>)
    ensures AlpnFrom(b, 2) == protocols <==> exists rest :: ProtocolsThen(b[Min(2, |b|)..], protocols, rest)
  {
    var p := Min(2, |b|);
    assert AlpnFrom(b, 2) == AlpnFrom(b, p) by {
      assert |b| < 2 ==> AlpnFrom(b, 2) == [] && AlpnFrom(b, |b|) == [];
    }
    var rest := ProtocolsFound(b, p);
    assert ProtocolsThen(b[p..], AlpnFrom(b, 2), rest);
    if rest :| ProtocolsThen(b[p..], protocols, rest) {
      ProtocolsAreFound(b, p, protocols, rest);
    }
  }

  lemma {:induction false} VersionsAreRead(b: seq<byte>, i: nat, stop: nat, highest: word, versions: seq<word>, rest: seq<byte>)
    requires i <= stop <= |b| && b[i..stop] == EncodeWords(versions) + rest && |rest| < 2
    ensures VersionsFrom(b, i, stop, highest) == HighestOf(highest, versions)
    decreases |versions|
  {
    hide EndsInA, IsGrease;
    if versions != [] {
      var v, after := versions[0], EncodeWords(versions[1..]) + rest;
      assert b[i..stop] == Put16(v) + after;
      assert b[i] == b[i..stop][0] && b[i + 1] == b[i..stop][1];
      assert Be16(b, i) == Some(v);
      assert b[i + 2..stop] == b[i..stop][2..] == after;
      GreaseMeans(v);
      VersionsAreRead(b, i + 2, stop, Higher(highest, v), versions[1..], rest);
    }
  }

  lemma {:induction false} WordsOf(b: seq<byte>) returns (words: seq<word>, rest: seq<byte>)
    ensures b == EncodeWords(words) + rest && |rest| < 2
    decreases |b|
  {
    if |b| < 2 {
      words, rest := [], b;
    } else {
      var more;
      more, rest := WordsOf(b[2..]);
      var w := b[0] as int * 256 + b[1] as int;
      words := [w] + more;
      assert words[1..] == more && Put16(w) == b[..2];
      assert b == b[..2] + b[2..];
    }
  }

  /** The versions offered are the whole words that the first byte of the extension counts, as far as they are there. */
  lemma VersionsMean(b: seq<byte>, highest: word, r: word)
    requires b != []
    ensures VersionsIn(b, highest) == r <==>
      exists versions, rest :: |rest| < 2 && b[1..Min(1 + b[0] as int, |b|)] == EncodeWords(versions) + rest
                               && r == HighestOf(highest, versions)
  {
    var stop := Min(1 + b[0] as int, |b|);
    var versions, rest := WordsOf(b[1..stop]);
    VersionsAreRead(b, 1, stop, highest, versions, rest);
    assert b[1..stop] == EncodeWords(versions) + rest;
    forall versions, rest | |rest| < 2 && b[1..stop] == EncodeWords(versions) + rest
      ensures VersionsIn(b, highest) == HighestOf(highest, versions)
    {
      VersionsAreRead(b, 1, stop, highest, versions, rest);
    }
  }

  // ---------------------------------------------------------------- any list of extensions

  type Body = b: seq<byte> | |b| < 0x1_0000 witness []

  datatype Raw = Raw(etype: word, body: Body)

  ghost function EncodeRaws(es: seq<Raw>): seq<byte> {
    if es == [] then []
    else Put16(es[0].etype) + (Put16(|es[0].body|) + (es[0].body + EncodeRaws(es[1..])))
  }

  /** Each of the extensions starts with at least its four bytes of room left, and nothing after them does. A body may
      run past the room. */
  ghost predicate Fits(es: seq<Raw>, room: int) {
    if es == [] then room < 4 else room >= 4 && Fits(es[1..], room - 4 - |es[0].body|)
  }

  /** What an extension tells by its type: server_name, ALPN or supported_versions; any other nothing. */
  ghost function Tells(said: Said, e: Raw): Said {
    if e.etype == 0 then said.(sni := SniFrom(e.body, 2))
    else if e.etype == 16 then said.(alpn := AlpnFrom(e.body, 2))
    else if e.etype == 43 then said.(highest := VersionsIn(e.body, said.highest))
    else said
  }

  ghost function AllTell(said: Said, es: seq<Raw>): Said
    decreases |es|
  {
    if es == [] then said else AllTell(Tells(said, es[0]), es[1..])
  }

  ghost predicate ExtensionsThen(b: seq<byte>, room: int, es: seq<Raw>, rest: seq<byte>) {
    b == EncodeRaws(es) + rest && Fits(es, room)
  }

  lemma {:induction false} ExtensionsFound(d: seq<byte>, p: nat, end: nat, said: Said) returns (es: seq<Raw>, rest: seq<byte>)
    requires p <= |d| && end <= |d| && ExtensionsFrom(d, p, end, said).Some?
    ensures ExtensionsThen(d[p..], end - p, es, rest) && ExtensionsFrom(d, p, end, said) == Some(AllTell(said, es))
    decreases |d| - p
  {
    hide SniFrom, AlpnFrom, VersionsIn;
    if p + 4 > end {
      es, rest := [], d[p..];
      assert [] + rest == rest;
    } else {
      var etype, n := Be16(d, p).value, Be16(d, p + 2).value;
      var next := p + 4 + n;
      var e := Raw(etype, d[p + 4..next]);
      assert Heard(said, etype, e.body) == Tells(said, e);
      var more;
      more, rest := ExtensionsFound(d, next, end, Tells(said, e));
      es := [e] + more;
      assert es[1..] == more;
      assert d[p..] == Put16(etype) + (Put16(n) + (e.body + d[next..]));
    }
  }

  lemma RawsCons(es: seq<Raw>, tail: seq<byte>)
    requires es != []
    ensures EncodeRaws(es) + tail
         == Put16(es[0].etype) + (Put16(|es[0].body|) + (es[0].body + (EncodeRaws(es[1..]) + tail)))
  {
    hide Put16;
    var rest := EncodeRaws(es[1..]);
    assert EncodeRaws(es) == Put16(es[0].etype) + (Put16(|es[0].body|) + (es[0].body + rest));
  }

  lemma RawStep(d: seq<byte>, p: nat, e: Raw, after: seq<byte>)
    requires p <= |d| && d[p..] == Put16(e.etype) + (Put16(|e.body|) + (e.body + after))
    ensures var next := p + 4 + |e.body|;
      && next <= |d| && Be16(d, p) == Some(e.etype) && Be16(d, p + 2) == Some(|e.body|)
      && d[p + 4..next] == e.body && d[next..] == after
  {
    hide Put16, Be16;
    TakeWord(d, p, e.etype, Put16(|e.body|) + (e.body + after));
    TakeWord(d, p + 2, |e.body|, e.body + after);
    Take(d, p + 4, e.body, after);
  }

  lemma {:induction false} ExtensionsAreFound(d: seq<byte>, p: nat, end: nat, said: Said, es: seq<Raw>, rest: seq<byte>)
    requires p <= |d| && end <= |d| && ExtensionsThen(d[p..], end - p, es, rest)
    ensures ExtensionsFrom(d, p, end, said) == Some(AllTell(said, es))
    decreases |es|
  {
    hide SniFrom, AlpnFrom, VersionsIn, EncodeRaws, Put16, Be16;
    if es != [] {
      var e := es[0];
      RawsCons(es, rest);
      RawStep(d, p, e, EncodeRaws(es[1..]) + rest);
      assert Heard(said, e.etype, e.body) == Tells(said, e);
      ExtensionsAreFound(d, p + 4 + |e.body|, end, Tells(said, e), es[1..], rest);
    }
  }

  // ---------------------------------------------------------------- any message

  /** A handshake record whose first message says it is a ClientHello, as far as its compression methods. */
  datatype Layout = Layout(
    header: seq<byte>,
    length: seq<byte>,
    legacy: word,
    random: seq<byte>,
    sessionId: seq<byte>,
    ciphers: seq<byte>,
    compression: byte,
    after: seq<byte>)

  ghost predicate LaidOut(d: seq<byte>, l: Layout) {
    && |l.header| == 3 && |l.length| == 3 && |l.random| == 32 && |l.sessionId| < 256 && |l.ciphers| < 0x1_0000
    && d == [0x16, 0x03] + (l.header + ([0x01] + (l.length + (Put16(l.legacy) + (l.random
            + ([|l.sessionId|] + (l.sessionId + (Put16(|l.ciphers|) + (l.ciphers + ([l.compression] + l.after))))))))))
  }

  /** There is an extension block: its length and what follows it, past the compression methods. */
  ghost predicate HasBlock(l: Layout) {
    l.compression as int + 2 <= |l.after|
  }

  ghost function Block(l: Layout): seq<byte>
    requires HasBlock(l)
  {
    l.after[l.compression as int + 2..]
  }

  /** How many bytes of the block may start an extension. */
  ghost function Room(l: Layout): nat
    requires HasBlock(l)
  {
    Min(l.after[l.compression] as int * 256 + l.after[l.compression as int + 1] as int, |Block(l)|)
  }

  /** The extensions of the block, or none when there is no block. */
  ghost predicate Carries(l: Layout, es: seq<Raw>) {
    if HasBlock(l) then exists rest :: ExtensionsThen(Block(l), Room(l), es, rest) else es == []
  }

  ghost function ReportOf(l: Layout, es: seq<Raw>): TlsHint {
    var said := AllTell(Said(None, [], l.legacy), es);
    ClientHello(said.highest, said.sni, said.alpn, |l.ciphers| / 2)
  }

  lemma HeaderFields(d: seq<byte>, l: Layout, rest: seq<byte>)
    requires |l.header| == 3 && |l.length| == 3 && |l.random| == 32
    requires d == [0x16, 0x03] + (l.header + ([0x01] + (l.length + (Put16(l.legacy) + (l.random + rest)))))
    ensures |d| >= 43 && d[0] == 0x16 && d[1] == 0x03 && d[5] == 0x01 && Be16(d, 9) == Some(l.legacy) && d[43..] == rest
  {
    hide Put16, Be16;
    var s := Put16(l.legacy) + (l.random + rest);
    Take(d, 0, [0x16, 0x03], l.header + ([0x01] + (l.length + s)));
    Take(d, 2, l.header, [0x01] + (l.length + s));
    Take(d, 5, [0x01], l.length + s);
    Take(d, 6, l.length, s);
    TakeWord(d, 9, l.legacy, l.random + rest);
    Take(d, 11, l.random, rest);
  }

  /** The session id, the cipher suites and the compression methods' length behind the random. */
  lemma MiddleFields(d: seq<byte>, sid: seq<byte>, ciphers: seq<byte>, compression: byte, after: seq<byte>)
    requires |d| >= 43 && |sid| < 256 && |ciphers| < 0x1_0000
    requires d[43..] == [|sid|] + (sid + (Put16(|ciphers|) + (ciphers + ([compression] + after))))
    ensures var p1 := 44 + |sid|; var p2 := p1 + 2 + |ciphers|;
      && 43 < |d| && d[43] == |sid| && Be16(d, p1) == Some(|ciphers|) && p2 < |d| && d[p2] == compression
      && d[p2 + 1..] == after
  {
    hide Put16, Be16;
    var t := [compression] + after;
    TakeCounted(d, 43, |sid|, sid, Put16(|ciphers|) + (ciphers + t));
    var p1 := 44 + |sid|;
    TakeWordCounted(d, p1, |ciphers|, ciphers, t);
    Take(d, p1 + 2 + |ciphers|, [compression], after);
  }

  lemma LayoutFields(d: seq<byte>, l: Layout) returns (p1: nat, p2: nat, p3: nat)
    requires LaidOut(d, l)
    ensures |d| > 43 && d[0] == 0x16 && d[1] == 0x03 && d[5] == 0x01 && Be16(d, 9) == Some(l.legacy)
    ensures p1 == 44 + d[43] as int && Be16(d, p1) == Some(|l.ciphers|)
    ensures p2 == p1 + 2 + |l.ciphers| < |d| && d[p2] == l.compression
    ensures d[p2 + 1..] == l.after && p3 == p2 + 1 + d[p2] as int
  {
    hide Put16, Be16;
    HeaderFields(d, l, [|l.sessionId|] + (l.sessionId + (Put16(|l.ciphers|) + (l.ciphers + ([l.compression] + l.after)))));
    MiddleFields(d, l.sessionId, l.ciphers, l.compression, l.after);
    p1 := 44 + |l.sessionId|;
    p2 := p1 + 2 + |l.ciphers|;
    p3 := p2 + 1 + l.compression;
  }

  lemma HeaderLaidOut(d: seq<byte>)
    requires |d| >= 43 && d[0] == 0x16 && d[1] == 0x03 && d[5] == 0x01
    ensures d == [0x16, 0x03] + (d[2..5] + ([0x01] + (d[6..9] + (Put16(Be16(d, 9).value) + (d[11..43] + d[43..])))))
  {
    assert Put16(Be16(d, 9).value) == d[9..11];
    assert d[9..] == d[9..11] + (d[11..43] + d[43..]);
    assert d[5..] == [0x01] + (d[6..9] + d[9..]);
    assert d == [0x16, 0x03] + (d[2..5] + d[5..]);
  }

  lemma MiddleLaidOut(d: seq<byte>, p1: nat, p2: nat)
    requires |d| > 43 && p1 == 44 + d[43] as int && Be16(d, p1).Some? && p2 == p1 + 2 + Be16(d, p1).value < |d|
    ensures d[43..] == [d[43]] + (d[44..p1] + (Put16(Be16(d, p1).value) + (d[p1 + 2..p2] + ([d[p2]] + d[p2 + 1..]))))
  {
    assert Put16(Be16(d, p1).value) == d[p1..p1 + 2];
    assert d[p2..] == [d[p2]] + d[p2 + 1..];
    assert d[p1..] == d[p1..p1 + 2] + (d[p1 + 2..p2] + d[p2..]);
    assert d[43..] == [d[43]] + (d[44..p1] + d[p1..]);
  }

  /** Any message long enough to be read that far is laid out so. */
  lemma FindLayout(d: seq<byte>, p1: nat, p2: nat) returns (l: Layout)
    requires |d| > 43 && d[0] == 0x16 && d[1] == 0x03 && d[5] == 0x01 && Be16(d, 9).Some?
    requires p1 == 44 + d[43] as int && Be16(d, p1).Some? && p2 == p1 + 2 + Be16(d, p1).value < |d|
    ensures LaidOut(d, l) && l.after == d[p2 + 1..] && l.compression == d[p2] && l.legacy == Be16(d, 9).value
    ensures |l.ciphers| == Be16(d, p1).value
  {
    hide Put16, Be16;
    HeaderLaidOut(d);
    MiddleLaidOut(d, p1, p2);
    l := Layout(d[2..5], d[6..9], Be16(d, 9).value, d[11..43], d[44..p1], d[p1 + 2..p2], d[p2], d[p2 + 1..]);
  }

  /** What is made of the bytes after the compression methods. */
  ghost function SaidAfter(d: seq<byte>, p3: nat, said: Said): Option<Said> {
    match Be16(d, p3)
    case None => Some(said)
    case Some(total) => ExtensionsFrom(d, p3 + 2, Min(p3 + 2 + total, |d|), said)
  }

  lemma BlockStands(d: seq<byte>, l: Layout, p2: nat, p3: nat)
    requires p2 < |d| && d[p2] == l.compression && d[p2 + 1..] == l.after && p3 == p2 + 1 + d[p2] as int
    ensures HasBlock(l) <==> Be16(d, p3).Some?
    ensures HasBlock(l) ==> d[p3 + 2..] == Block(l) && Min(p3 + 2 + Be16(d, p3).value, |d|) - (p3 + 2) == Room(l)
  {
    if HasBlock(l) {
      assert d[p3] == d[p2 + 1..][l.compression] && d[p3 + 1] == d[p2 + 1..][l.compression as int + 1];
      assert d[p3 + 2..] == d[p2 + 1..][l.compression as int + 2..];
    }
  }

  lemma AfterMeans(d: seq<byte>, l: Layout, p2: nat, p3: nat, said: Said)
    requires p2 < |d| && d[p2] == l.compression && d[p2 + 1..] == l.after && p3 == p2 + 1 + d[p2] as int
    ensures SaidAfter(d, p3, said).Some? ==> exists es :: Carries(l, es) && SaidAfter(d, p3, said) == Some(AllTell(said, es))
    ensures forall es :: Carries(l, es) ==> SaidAfter(d, p3, said) == Some(AllTell(said, es))
  {
    hide ExtensionsFrom, ExtensionsThen;
    BlockStands(d, l, p2, p3);
    if HasBlock(l) {
      hide Block, Room, HasBlock;
      var p, end := p3 + 2, Min(p3 + 2 + Be16(d, p3).value, |d|);
      if SaidAfter(d, p3, said).Some? {
        var es, rest := ExtensionsFound(d, p, end, said);
        assert Carries(l, es);
      }
      forall es | Carries(l, es)
        ensures SaidAfter(d, p3, said) == Some(AllTell(said, es))
      {
        var rest :| ExtensionsThen(Block(l), Room(l), es, rest);
        ExtensionsAreFound(d, p, end, said, es, rest);
      }
    } else {
      assert Carries(l, []) && AllTell(said, []) == said;
    }
  }

  /** Of any bytes at all, a ClientHello is reported exactly when they are laid out as one as far as its compression
      methods, and its extensions, if it has any, are whole; then with what those tell. Lengths the program does not look
      at may be anything. */
  lemma HelloIsReportedIff(d: seq<byte>, hint: TlsHint)
    requires hint.ClientHello?
    ensures TlsHinted(d) == Some(hint) <==> exists l, es :: LaidOut(d, l) && Carries(l, es) && hint == ReportOf(l, es)
  {
    hide ExtensionsFrom, LaidOut, Carries, AllTell, Be16;
    if TlsHinted(d) == Some(hint) {
      var l, es := ReportedIsLaidOut(d, hint);
    }
    if l, es :| LaidOut(d, l) && Carries(l, es) && hint == ReportOf(l, es) {
      var p1, p2, p3 := LayoutFields(d, l);
      AfterMeans(d, l, p2, p3, Said(None, [], l.legacy));
    }
  }

  lemma HintParts(d: seq<byte>)
    requires TlsHinted(d).Some? && TlsHinted(d).value.ClientHello?
    ensures |d| > 43 && d[0] == 0x16 && d[1] == 0x03 && d[5] == 0x01 && Be16(d, 9).Some?
    ensures var p1: nat := 44 + d[43] as int;
      Be16(d, p1).Some? && p1 + 2 + Be16(d, p1).value < |d|
    ensures var p1: nat := 44 + d[43] as int; var n := Be16(d, p1).value; var p2 := p1 + 2 + n;
      var said := SaidAfter(d, p2 + 1 + d[p2], Said(None, [], Be16(d, 9).value));
      said.Some? && TlsHinted(d) == Some(ClientHello(said.value.highest, said.value.sni, said.value.alpn, n / 2))
  {
    hide ExtensionsFrom;
  }

  lemma ReportedIsLaidOut(d: seq<byte>, hint: TlsHint) returns (l: Layout, es: seq<Raw>)
    requires hint.ClientHello? && TlsHinted(d) == Some(hint)
    ensures LaidOut(d, l) && Carries(l, es) && hint == ReportOf(l, es)
  {
    hide TlsHinted, SaidAfter, LaidOut, Carries, AllTell, Put16, Be16;
    HintParts(d);
    var p1: nat := 44 + d[43] as int;
    var p2 := p1 + 2 + Be16(d, p1).value;
    l := FindLayout(d, p1, p2);
    es := ReportedAfter(d, l, p2, p2 + 1 + d[p2], Said(None, [], l.legacy));
  }

  lemma ReportedAfter(d: seq<byte>, l: Layout, p2: nat, p3: nat, said: Said) returns (es: seq<Raw>)
    requires p2 < |d| && d[p2] == l.compression && d[p2 + 1..] == l.after && p3 == p2 + 1 + d[p2] as int
    requires SaidAfter(d, p3, said).Some?
    ensures Carries(l, es) && SaidAfter(d, p3, said) == Some(AllTell(said, es))
  {
    hide SaidAfter, Carries, AllTell;
    AfterMeans(d, l, p2, p3, said);
    es :| Carries(l, es) && SaidAfter(d, p3, said) == Some(AllTell(said, es));
  }

  /** Any other handshake record of TLS is reported by its record version, and nothing else is reported so. */
  lemma HandshakeIsReportedIff(d: seq<byte>, version: word)
    ensures TlsHinted(d) == Some(Handshake(version)) <==>
      |d| >= 6 && d[0] == 0x16 && d[1] == 0x03 && d[5] != 0x01 && version == 0x0300 + d[2] as int
  {
    hide ExtensionsFrom;
  }
}
