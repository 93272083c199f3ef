/** What a message is, guessed from its opening bytes. Hints are records of what the hint line prints. */
module Classify {
  import opened Bytes
  import opened Wrappers
  import opened Fields
  import opened Dns

  // ---------------------------------------------------------------- DNS queries

  datatype DnsHint = DnsHint(qtype: word, labels: seq<seq<byte>>)

  predicate Graphic(name: seq<byte>) {
    forall i :: 0 <= i < |name| ==> 0x21 <= name[i] <= 0x7e
  }

  /** The labels of a printable name and the offset after it. */
  function HintName(d: seq<byte>, p: nat, labels: seq<seq<byte>>): Option<(nat, seq<seq<byte>>)>
    decreases |d| - p
  {
    if p >= |d| then None
    else if d[p] == 0 then Some((p + 1, labels))
    else if d[p] >= 64 || |labels| > 63 then None
    else if p + 1 + d[p] > |d| then None
    else if !Graphic(d[p + 1..p + 1 + d[p]]) then None
    else HintName(d, p + 1 + d[p], labels + [d[p + 1..p + 1 + d[p]]])
  }

  function DnsHinted(d: seq<byte>): Option<DnsHint> {
    if |d| < 12 then None
    else
      var flags :- Be16(d, 2);
      var qdcount :- Be16(d, 4);
      var ancount :- Be16(d, 6);
      if IsResponse(flags) || Opcode(flags) != 0 || qdcount != 1 || ancount != 0 then None
      else
        var (p, labels) :- HintName(d, 12, []);
        if labels == [] then None
        else
          var qtype :- Be16(d, p);
          Some(DnsHint(qtype, labels))
  }

  method HintDns(d: seq<byte>) returns (r: Option<DnsHint>)
    ensures r == DnsHinted(d)
  {
    if |d| < 12 {
      return None;
    }
    var flags, qdcount, ancount := Be16(d, 2).value, Be16(d, 4).value, Be16(d, 6).value;
    if IsResponse(flags) || Opcode(flags) != 0 || qdcount != 1 || ancount != 0 {
      return None;
    }
    var p := 12;
    var labels := [];
    while true
      invariant HintName(d, 12, []) == HintName(d, p, labels)
      decreases |d| - p
    {
      if p >= |d| {
        return None;
      }
      var len := d[p];
      if len == 0 {
        p := p + 1;
        break;
      }
      if len >= 64 || |labels| > 63 || p + 1 + len > |d| {
        return None;
      }
      var part := d[p + 1..p + 1 + len];
      if !Graphic(part) {
        return None;
      }
      labels := labels + [part];
      p := p + 1 + len;
    }
    if labels == [] {
      return None;
    }
    var qtype := Be16(d, p);
    if qtype == None {
      return None;
    }
    return Some(DnsHint(qtype.value, labels));
  }

  // ---------------------------------------------------------------- TLS handshakes

  /** A handshake record, or a ClientHello with the host and protocols it asks for. */
  datatype TlsHint =
    | Handshake(version: word)
    | ClientHello(highest: word, sni: Option<seq<byte>>, alpn: seq<seq<byte>>, ciphers: nat)

  /** What the extensions have said so far. */
  datatype Said = Said(sni: Option<seq<byte>>, alpn: seq<seq<byte>>, highest: word)

  const SERVER_NAME: word := 0x0000
  const ALPN: word := 0x0010
  const SUPPORTED_VERSIONS: word := 0x002b

  /** The program's GREASE test: the low half of each byte is 0xa. */
  predicate IsGrease(v: word) {
    v % 16 == 10 && v / 256 % 16 == 10
  }

  function SniFrom(b: seq<byte>, p: nat): Option<seq<byte>>
    decreases |b| - p
  {
    if p + 3 > |b| then None
    else
      var nlen := Be16(b, p + 1).value;
      if p + 3 + nlen > |b| then None
      else if b[p] == 0 then Some(b[p + 3..p + 3 + nlen])
      else SniFrom(b, p + 3 + nlen)
  }

  method ParseSni(b: seq<byte>) returns (r: Option<seq<byte>>)
    ensures r == SniFrom(b, 2)
  {
    var p := 2;
    while p + 3 <= |b|
      invariant SniFrom(b, 2) == SniFrom(b, p)
      decreases |b| - p
    {
      var ntype := b[p];
      var nlen := Be16(b, p + 1).value;
      if p + 3 + nlen > |b| {
        return None;
      }
      if ntype == 0 {
        return Some(b[p + 3..p + 3 + nlen]);
      }
      p := p + 3 + nlen;
    }
    return None;
  }

  function AlpnFrom(b: seq<byte>, p: nat): seq<seq<byte>>
    decreases |b| - p
  {
    if p >= |b| || p + 1 + b[p] > |b| then []
    else [b[p + 1..p + 1 + b[p]]] + AlpnFrom(b, p + 1 + b[p])
  }

  method ParseAlpn(b: seq<byte>) returns (out: seq<seq<byte>>)
    ensures out == AlpnFrom(b, 2)
  {
    out := [];
    var p := 2;
    while p < |b|
      invariant AlpnFrom(b, 2) == out + AlpnFrom(b, p)
      decreases |b| - p
    {
      var len := b[p];
      if p + 1 + len > |b| {
        break;
      }
      out := out + [b[p + 1..p + 1 + len]];
      p := p + 1 + len;
    }
  }

  function Higher(highest: word, v: word): word {
    if !IsGrease(v) && v > highest then v else highest
  }

  function VersionsFrom(b: seq<byte>, i: nat, stop: nat, highest: word): word
    requires stop <= |b|
    decreases |b| - i
  {
    if i + 2 > stop then highest
    else VersionsFrom(b, i + 2, stop, Higher(highest, Be16(b, i).value))
  }

  function VersionsIn(b: seq<byte>, highest: word): word {
    if b == [] then highest else VersionsFrom(b, 1, Min(1 + b[0] as int, |b|), highest)
  }

  method ParseVersions(body: seq<byte>, legacy: word) returns (highest: word)
    ensures highest == VersionsIn(body, legacy)
  {
    highest := legacy;
    if body != [] {
      var n: nat := body[0];
      var i := 1;
      while i + 2 <= Min(1 + n, |body|)
        invariant VersionsIn(body, legacy) == VersionsFrom(body, i, Min(1 + n, |body|), highest)
        decreases |body| - i
      {
        var v := Be16(body, i).value;
        if !IsGrease(v) && v > highest {
          highest := v;
        }
        i := i + 2;
      }
    }
  }

  function Heard(said: Said, etype: word, body: seq<byte>): Said {
    if etype == SERVER_NAME then said.(sni := SniFrom(body, 2))
    else if etype == ALPN then said.(alpn := AlpnFrom(body, 2))
    else if etype == SUPPORTED_VERSIONS then said.(highest := VersionsIn(body, said.highest))
    else said
  }

  /** The extensions from p to end; None when one runs off the message. */
  function ExtensionsFrom(d: seq<byte>, p: nat, end: nat, said: Said): Option<Said>
    requires end <= |d|
    decreases |d| - p
  {
    if p + 4 > end then Some(said)
    else
      var etype, elen := Be16(d, p).value, Be16(d, p + 2).value;
      if p + 4 + elen > |d| then None
      else ExtensionsFrom(d, p + 4 + elen, end, Heard(said, etype, d[p + 4..p + 4 + elen]))
  }

  function TlsHinted(d: seq<byte>): Option<TlsHint> {
    if |d| < 2 || d[0] != 0x16 || d[1] != 0x03 || |d| < 6 then None
    else if d[5] != 0x01 then Some(Handshake(Be16(d, 1).value))
    else
      var legacy :- Be16(d, 9);
      if 43 >= |d| then None
      else
        var p1: nat := 44 + d[43] as int;
        var csLen :- Be16(d, p1);
        var p2 := p1 + 2 + csLen;
        if p2 >= |d| then None
        else
          var p3 := p2 + 1 + d[p2];
          var said :- match Be16(d, p3)
            case None => Some(Said(None, [], legacy))
            case Some(total) => ExtensionsFrom(d, p3 + 2, Min(p3 + 2 + total, |d|), Said(None, [], legacy));
          Some(ClientHello(said.highest, said.sni, said.alpn, csLen / 2))
  }

  method HintTls(d: seq<byte>) returns (r: Option<TlsHint>)
    ensures r == TlsHinted(d)
  {
    if |d| < 1 || d[0] != 0x16 || |d| < 2 || d[1] != 0x03 {
      return None;
    }
    if |d| < 6 {
      return None;
    }
    if d[5] != 0x01 {
      return Some(Handshake(Be16(d, 1).value));
    }
    var legacy := Be16(d, 9);
    if legacy == None || 43 >= |d| {
      return None;
    }
    var p := 11 + 32;
    p := p + 1 + d[p];
    var csLen := Be16(d, p);
    if csLen == None {
      return None;
    }
    var cipherCount := csLen.value / 2;
    p := p + 2 + csLen.value;
    if p >= |d| {
      return None;
    }
    p := p + 1 + d[p];
    var sni := None;
    var alpn := [];
    var highest := legacy.value;
    var extTotal := Be16(d, p);
    if extTotal.Some? {
      p := p + 2;
      var end := Min(p + extTotal.value, |d|);
      ghost var all := ExtensionsFrom(d, p, end, Said(None, [], highest));
      while p + 4 <= end
        invariant ExtensionsFrom(d, p, end, Said(sni, alpn, highest)) == all
        decreases |d| - p
      {
        var etype, elen := Be16(d, p).value, Be16(d, p + 2).value;
        if p + 4 + elen > |d| {
          return None;
        }
        var body := d[p + 4..p + 4 + elen];
        if etype == SERVER_NAME {
          sni := ParseSni(body);
        } else if etype == ALPN {
          alpn := ParseAlpn(body);
        } else if etype == SUPPORTED_VERSIONS {
          highest := ParseVersions(body, highest);
        }
        p := p + 4 + elen;
      }
    }
    return Some(ClientHello(highest, sni, alpn, cipherCount));
  }
}
