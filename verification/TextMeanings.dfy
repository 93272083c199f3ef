/** What printed numbers are, digit by digit. */
module Numbers {
  import opened Wrappers
  import opened Text

  const DIGITS := "0123456789abcdef"

  /** The characters that stand for a digit's value, letters in either case. */
  ghost predicate Stands(c: char, v: int) {
    (0 <= v <= 9 && c as int == 48 + v) || (10 <= v <= 15 && (c as int == 87 + v || c as int == 55 + v))
  }

  lemma DigitMeans(c: char, v: int)
    ensures (exists d :: DigitValue(c) == Some(d) && d == v) <==> Stands(c, v)
  {
    if Stands(c, v) {
      assert DigitValue(c) == Some(v);
    }
    if d :| DigitValue(c) == Some(d) && d == v {
      assert Stands(c, v);
    }
  }

  lemma DigitIsListed(d: int)
    requires 0 <= d < 16
    ensures DigitChar(d) == DIGITS[d]
  {
  }

  ghost predicate LowerDigits(s: string) {
    forall i :: 0 <= i < |s| ==> s[i] in DIGITS
  }

  /** A number prints as the one string of lower-case digits that reads back as it and has no leading zero. */
  lemma {:induction false} DigitsMean(n: nat, b: Base)
    ensures Read(Digits(n, b), b) == Some(n) && LowerDigits(Digits(n, b)) && Digits(n, b) != []
    ensures if n == 0 then Digits(n, b) == "0" else Digits(n, b)[0] != '0'
  {
    hide Read, DigitChar;
    if n < b as int {
      EmptyReads(b);
      DigitAppendReads([], 0, b, n);
      assert [] + [DigitChar(n)] == [DigitChar(n)];
      DigitIsListed(n);
    } else {
      DivRem(n, b);
      DigitsMean(n / b as int, b);
      QuotientPositive(n, b);
      DigitAppendReads(Digits(n / b as int, b), n / b as int, b, n % b as int);
      DigitIsListed(n % b as int);
    }
  }

  lemma QuotientPositive(n: nat, b: Base)
    requires n >= b as int
    ensures n / b as int > 0
  {
    if b == 10 {
    } else {
    }
  }

  lemma {:induction false} ZerosRead(k: nat, s: string, b: Base)
    ensures Read(Zeros(k) + s, b) == Read(s, b)
    decreases |s|, k
  {
    if s != [] {
      var t := Zeros(k) + s;
      assert t[..|t| - 1] == Zeros(k) + s[..|s| - 1];
      ZerosRead(k, s[..|s| - 1], b);
    } else if k > 0 {
      var t := Zeros(k);
      assert Zeros(k) + [] == t && t[..k - 1] == Zeros(k - 1) + [];
      ZerosRead(k - 1, [], b);
      assert DigitValue('0') == Some(0);
    } else {
      assert Zeros(0) + [] == [];
    }
  }

  /** Padding puts zeros in front, up to the width and no further. */
  lemma PadMeans(n: nat, b: Base, w: nat)
    ensures Read(Pad(n, b, w), b) == Some(n) && LowerDigits(Pad(n, b, w))
    ensures |Pad(n, b, w)| == if |Digits(n, b)| < w then w else |Digits(n, b)|
  {
    hide Read;
    DigitsMean(n, b);
    if |Digits(n, b)| < w {
      ZerosRead(w - |Digits(n, b)|, Digits(n, b), b);
    }
  }
}

/** The grammar of the profile's texts: escaped text and hex bytes. */
module ProfileTexts {
  import opened Bytes
  import opened Wrappers
  import opened Text
  import opened Numbers
  import opened HexText
  import opened Hexdump

  /** Two characters that spell a byte: a digit or a plus sign, and a digit. */
  ghost predicate SpellsByte(hi: char, lo: char, v: int) {
    exists d :: Stands(lo, d) && ((hi == '+' && v == d) || exists h :: Stands(hi, h) && v == 16 * h + d)
  }

  lemma ByteIsSpelt(hi: char, lo: char, v: byte)
    ensures FromRadix16(hi, lo) == Some(v) <==> SpellsByte(hi, lo, v)
  {
    hide DigitValue, Stands;
    if FromRadix16(hi, lo) == Some(v) {
      var d := DigitValue(lo).value;
      DigitMeans(lo, d);
      if hi != '+' {
        DigitMeans(hi, DigitValue(hi).value);
      }
    }
    if d :| Stands(lo, d) && ((hi == '+' && v == d) || exists h :: Stands(hi, h) && v == 16 * h + d) {
      DigitMeans(lo, d);
      if !(hi == '+' && v == d) {
        var h :| Stands(hi, h) && v == 16 * h + d;
        DigitMeans(hi, h);
        PlusIsNoDigit(h);
      }
    }
  }

  lemma PlusIsNoDigit(h: int)
    ensures !Stands('+', h)
  {
  }

  // ---------------------------------------------------------------- escaped text

  /** A character as it is, a one-letter escape and what it stands for, or two digits and what they spell. */
  datatype Piece = Plain(c: char) | Short(letter: char, value: byte) | Hex(hi: char, lo: char, value: byte)

  ghost predicate IsPiece(p: Piece) {
    match p
    case Plain(c) => c != '\\'
    case Short(l, v) => (l, v) in {('n', 10), ('r', 13), ('t', 9), ('0', 0), ('\\', 92), ('"', 34)}
    case Hex(hi, lo, v) => SpellsByte(hi, lo, v)
  }

  ghost function SpellingOf(p: Piece): string {
    match p
    case Plain(c) => [c]
    case Short(l, _) => ['\\', l]
    case Hex(hi, lo, _) => ['\\', 'x', hi, lo]
  }

  ghost function BytesOf(p: Piece): seq<byte> {
    match p
    case Plain(c) => Utf8(c)
    case Short(_, v) => [v]
    case Hex(_, _, v) => [v]
  }

  ghost function Spelling(ps: seq<Piece>): string {
    if ps == [] then "" else SpellingOf(ps[0]) + Spelling(ps[1..])
  }

  ghost function Meaning(ps: seq<Piece>): seq<byte> {
    if ps == [] then [] else BytesOf(ps[0]) + Meaning(ps[1..])
  }

  ghost predicate ArePieces(ps: seq<Piece>) {
    forall i :: 0 <= i < |ps| ==> IsPiece(ps[i])
  }

  lemma EscapeMeans(l: char, v: byte)
    ensures Escape(l) == Some(v) <==> IsPiece(Short(l, v))
  {
  }

  lemma PiecesCons(p: Piece, ps: seq<Piece>)
    ensures Spelling([p] + ps) == SpellingOf(p) + Spelling(ps) && Meaning([p] + ps) == BytesOf(p) + Meaning(ps)
    ensures ArePieces([p] + ps) <==> IsPiece(p) && ArePieces(ps)
  {
    hide SpellingOf, BytesOf, IsPiece;
    var all := [p] + ps;
    assert all[1..] == ps && all[0] == p;
    assert forall i :: 0 <= i < |ps| ==> ps[i] == all[i + 1];
  }

  /** One piece off the front of a text. */
  lemma PieceReads(p: Piece, rest: string)
    requires IsPiece(p)
    ensures Unescaped(SpellingOf(p) + rest) == Then(BytesOf(p), Unescaped(rest))
  {
    hide SpellsByte, Utf8;
    var s := SpellingOf(p) + rest;
    match p
    case Plain(c) =>
      assert s[1..] == rest;
    case Short(l, v) =>
      EscapeMeans(l, v);
      assert s[2..] == rest;
    case Hex(hi, lo, v) =>
      ByteIsSpelt(hi, lo, v);
      assert s[4..] == rest;
  }

  lemma FirstPiece(s: string) returns (p: Piece, rest: string)
    requires s != [] && Unescaped(s).Some?
    ensures IsPiece(p) && s == SpellingOf(p) + rest && |rest| < |s|
  {
    hide SpellsByte, Utf8;
    if s[0] != '\\' {
      p, rest := Plain(s[0]), s[1..];
    } else if s[1] == 'x' {
      p, rest := Hex(s[2], s[3], FromRadix16(s[2], s[3]).value), s[4..];
      ByteIsSpelt(s[2], s[3], p.value);
    } else {
      p, rest := Short(s[1], Escape(s[1]).value), s[2..];
      EscapeMeans(s[1], p.value);
    }
  }

  lemma {:induction false} PiecesRead(ps: seq<Piece>)
    requires ArePieces(ps)
    ensures Unescaped(Spelling(ps)) == Some(Meaning(ps))
  {
    hide SpellingOf, BytesOf, IsPiece;
    if ps != [] {
      assert IsPiece(ps[0]) && ArePieces(ps[1..]);
      PiecesRead(ps[1..]);
      PieceReads(ps[0], Spelling(ps[1..]));
    }
  }

  lemma {:induction false} PiecesFound(s: string) returns (ps: seq<Piece>)
    requires Unescaped(s).Some?
    ensures ArePieces(ps) && s == Spelling(ps)
    decreases |s|
  {
    hide Unescaped, SpellingOf, BytesOf, IsPiece;
    if s == [] {
      ps := [];
    } else {
      var p, rest := FirstPiece(s);
      PieceReads(p, rest);
      var more := PiecesFound(rest);
      PiecesCons(p, more);
      ps := [p] + more;
    }
  }

  /** A text unescapes to these bytes exactly when it is made of pieces that mean them: characters in UTF-8, the six short
      escapes, and two digits behind an x. Any other backslash is an error. */
  lemma UnescapeMeans(s: string, o: seq<byte>)
    ensures Unescaped(s) == Some(o) <==> exists ps :: ArePieces(ps) && s == Spelling(ps) && o == Meaning(ps)
  {
    if Unescaped(s) == Some(o) {
      var ps := PiecesFound(s);
      PiecesRead(ps);
    }
    if ps :| ArePieces(ps) && s == Spelling(ps) && o == Meaning(ps) {
      PiecesRead(ps);
    }
  }

  /** The value of the continuation bytes of a character, six bits each. */
  ghost function Continued(lead: int, b: seq<byte>): Option<int>
    decreases |b|
  {
    if b == [] then Some(lead)
    else if 0x80 <= b[0] < 0xc0 then Continued(lead * 0x40 + (b[0] as int - 0x80), b[1..])
    else None
  }

  /** The code point that UTF-8 bytes hold, in the shortest form (section 3 of RFC 3629). */
  ghost function CodePoint(b: seq<byte>): Option<int> {
    if b == [] then None
    else
      var lead: int, rest := b[0] as int, b[1..];
      if lead < 0x80 && |rest| == 0 then Some(lead)
      else
        var n :- if 0xc0 <= lead < 0xe0 && |rest| == 1 then Continued(lead - 0xc0, rest)
                 else if 0xe0 <= lead < 0xf0 && |rest| == 2 then Continued(lead - 0xe0, rest)
                 else if 0xf0 <= lead < 0xf8 && |rest| == 3 then Continued(lead - 0xf0, rest)
                 else None;
        var least := if |rest| == 1 then 0x80 else if |rest| == 2 then 0x800 else 0x1_0000;
        if n >= least then Some(n) else None
  }

  lemma Sextets(n: nat)
    requires n < 0x11_0000
    ensures n / 0x40 / 0x40 == n / 0x1000 && n / 0x1000 / 0x40 == n / 0x4_0000
    ensures n == n / 0x40 * 0x40 + n % 0x40
    ensures n / 0x40 == n / 0x1000 * 0x40 + n / 0x40 % 0x40
    ensures n / 0x1000 == n / 0x4_0000 * 0x40 + n / 0x1000 % 0x40
  {
  }

  lemma Continues(lead: int, b: byte, rest: seq<byte>)
    requires 0x80 <= b < 0xc0
    ensures Continued(lead, [b] + rest) == Continued(lead * 0x40 + (b as int - 0x80), rest)
  {
    assert ([b] + rest)[1..] == rest;
  }

  /** A character's bytes hold its code point, whatever it is. */
  lemma Utf8Means(c: char)
    ensures CodePoint(Utf8(c)) == Some(c as int)
  {
    hide Continued;
    var n := c as int;
    Sextets(n);
    var z, y, x := 0x80 + n % 0x40, 0x80 + n / 0x40 % 0x40, 0x80 + n / 0x1000 % 0x40;
    NothingContinues(n);
    if n >= 0x1_0000 {
      Continues(n / 0x4_0000, x, [y, z]);
      assert [x] + [y, z] == Utf8(c)[1..];
    }
    if n >= 0x800 {
      Continues(n / 0x1000, y, [z]);
      assert [y] + [z] == [y, z];
    }
    if n >= 0x80 {
      Continues(n / 0x40, z, []);
      assert [z] + [] == [z];
    }
  }

  lemma NothingContinues(n: int)
    ensures Continued(n, []) == Some(n)
  {
  }

  // ---------------------------------------------------------------- hex bytes

  ghost predicate Separates(c: char) {
    c as int in {0x20, 0x09, 0x0a, 0x0c, 0x0d, 0x3a, 0x2d, 0x2c}
  }

  /** s is t with separators put in anywhere, and t has none. */
  ghost predicate Woven(s: string, t: string) {
    if s == [] then t == []
    else if Separates(s[0]) then Woven(s[1..], t)
    else t != [] && t[0] == s[0] && Woven(s[1..], t[1..])
  }

  lemma {:induction false} CleanedIsWoven(s: string, t: string)
    ensures Woven(s, t) <==> Cleaned(s) == t
  {
    if s != [] {
      assert Separates(s[0]) <==> IsSeparator(s[0]);
      if Separates(s[0]) {
        CleanedIsWoven(s[1..], t);
      } else if t != [] {
        CleanedIsWoven(s[1..], t[1..]);
        assert t == [t[0]] + t[1..];
      }
    }
  }

  /** Two characters for each byte. */
  ghost predicate SpellsBytes(t: string, o: seq<byte>) {
    |t| == 2 * |o| && forall i :: 0 <= i < |o| ==> SpellsByte(t[2 * i], t[2 * i + 1], o[i])
  }

  lemma {:induction false} PairsAreSpelt(t: string, o: seq<byte>)
    requires |t| % 2 == 0
    ensures Pairs(t) == Some(o) <==> SpellsBytes(t, o)
    decreases |t|
  {
    hide FromRadix16, SpellsByte;
    if t != [] && o != [] {
      ByteIsSpelt(t[0], t[1], o[0]);
      PairsAreSpelt(t[2..], o[1..]);
      assert o == [o[0]] + o[1..];
      SpellsCons(t, o);
    }
  }

  lemma SpellsCons(t: string, o: seq<byte>)
    requires |t| >= 2 && o != []
    ensures SpellsBytes(t, o) <==> SpellsByte(t[0], t[1], o[0]) && SpellsBytes(t[2..], o[1..])
  {
    hide SpellsByte;
    if SpellsBytes(t, o) {
      forall i | 0 <= i < |o| - 1
        ensures SpellsByte(t[2..][2 * i], t[2..][2 * i + 1], o[1..][i])
      {
        assert SpellsByte(t[2 * (i + 1)], t[2 * (i + 1) + 1], o[i + 1]);
      }
      assert SpellsByte(t[2 * 0], t[2 * 0 + 1], o[0]);
    }
    if SpellsByte(t[0], t[1], o[0]) && SpellsBytes(t[2..], o[1..]) {
      forall i | 0 <= i < |o|
        ensures SpellsByte(t[2 * i], t[2 * i + 1], o[i])
      {
        if i > 0 {
          assert SpellsByte(t[2..][2 * (i - 1)], t[2..][2 * (i - 1) + 1], o[1..][i - 1]);
        }
      }
    }
  }

  lemma PrefixSpellsNothing(t: string, o: seq<byte>)
    requires |t| >= 2 && t[1] == 'x'
    ensures !SpellsBytes(t, o)
  {
    if o != [] && |t| == 2 * |o| {
      XIsNoDigit(t[2 * 0], o[0]);
    }
  }

  lemma XIsNoDigit(hi: char, v: int)
    ensures !SpellsByte(hi, 'x', v)
  {
  }

  /** Hex text parses to these bytes exactly when, its separators aside, it is two characters for each byte, with or
      without 0x in front. */
  lemma ParseHexMeans(s: AsciiText, o: seq<byte>)
    ensures ParseHex(s) == Some(o) <==> exists t :: SpellsBytes(t, o) && (Woven(s, t) || Woven(s, ['0', 'x'] + t))
  {
    hide Cleaned, Pairs, SpellsBytes, Woven;
    var cleaned := Cleaned(s);
    CleanedIsWoven(s, cleaned);
    var prefixed := |cleaned| >= 2 && cleaned[0] == '0' && cleaned[1] == 'x';
    var t := if prefixed then cleaned[2..] else cleaned;
    assert prefixed ==> ['0', 'x'] + t == cleaned;
    if |t| % 2 == 0 {
      PairsAreSpelt(t, o);
    }
    forall u | SpellsBytes(u, o) && (Woven(s, u) || Woven(s, ['0', 'x'] + u))
      ensures u == t && |t| % 2 == 0
    {
      EvenSpelling(u, o);
      CleanedIsWoven(s, u);
      CleanedIsWoven(s, ['0', 'x'] + u);
      if Woven(s, u) && prefixed {
        PrefixSpellsNothing(u, o);
      }
      assert (['0', 'x'] + u)[2..] == u;
    }
  }

  lemma EvenSpelling(t: string, o: seq<byte>)
    requires SpellsBytes(t, o)
    ensures |t| % 2 == 0
  {
  }

  // ---------------------------------------------------------------- what the escaping printer writes

  /** How a byte is written: as itself if it prints, as one of three short escapes, or as two lower-case digits. */
  ghost function Written(b: byte): Piece {
    if b == 13 then Short('r', b)
    else if b == 10 then Short('n', b)
    else if b == 9 then Short('t', b)
    else if 0x20 <= b <= 0x7e then Plain(b as char)
    else Hex(DIGITS[b / 16], DIGITS[b % 16], b)
  }

  /** A line is its bytes written one after the other. */
  lemma {:induction false} EscapedIsWritten(d: seq<byte>)
    ensures Escaped(d) == Spelling(seq(|d|, i requires 0 <= i < |d| => Written(d[i])))
  {
    var ps := seq(|d|, i requires 0 <= i < |d| => Written(d[i]));
    if d != [] {
      EscapedIsWritten(d[1..]);
      assert ps[1..] == seq(|d[1..]|, i requires 0 <= i < |d[1..]| => Written(d[1..][i]));
      ByteIsWritten(d[0]);
    }
  }

  lemma ByteIsWritten(b: byte)
    ensures EscapeByte(b) == SpellingOf(Written(b))
  {
    PadPeels(b, 16, 2);
    assert Pad(b / 16, 16, 1) == [DigitChar(b / 16)];
    DigitIsListed(b / 16);
    DigitIsListed(b % 16);
  }
}
