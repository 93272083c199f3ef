/** The escaped line, undone by the profile's unescaping exactly when there is no backslash in the data. */
module EscapesInvert {
  import opened Bytes
  import opened Wrappers
  import opened Text
  import opened HexText
  import opened Hexdump

  const BACKSLASH: byte := 92

  ghost function Backslashes(d: seq<byte>): nat {
    if d == [] then 0 else (if d[0] == BACKSLASH then 1 else 0) + Backslashes(d[1..])
  }

  lemma {:induction false} BackslashesAppend(d: seq<byte>, e: seq<byte>)
    ensures Backslashes(d + e) == Backslashes(d) + Backslashes(e)
  {
    if d == [] {
      assert d + e == e;
    } else {
      assert (d + e)[1..] == d[1..] + e;
      BackslashesAppend(d[1..], e);
    }
  }

  lemma {:induction false} NoBackslash(d: seq<byte>)
    ensures Backslashes(d) == 0 <==> BACKSLASH !in d
  {
    if d != [] {
      NoBackslash(d[1..]);
      assert d == [d[0]] + d[1..];
    }
  }

  ghost predicate Printable(b: byte) {
    0x20 <= b <= 0x7e
  }

  ghost predicate Plain(b: byte) {
    Printable(b) && b != BACKSLASH
  }

  lemma {:induction false} EscapedConcat(d: seq<byte>, e: seq<byte>)
    ensures Escaped(d + e) == Escaped(d) + Escaped(e)
  {
    if d == [] {
      assert d + e == e;
    } else {
      assert (d + e)[1..] == d[1..] + e;
      EscapedConcat(d[1..], e);
    }
  }

  /** A printable byte prints as itself; any other starts with a backslash. */
  lemma FirstChar(w: seq<byte>)
    requires w != []
    ensures Escaped(w) != [] && Escaped(w)[0] == if Printable(w[0]) then w[0] as char else '\\'
    ensures Printable(w[0]) ==> Escaped(w)[1..] == Escaped(w[1..])
  {
  }

  lemma HexByte(b: byte)
    ensures Pad(b, 16, 2) == [DigitChar(b / 16), DigitChar(b % 16)]
    ensures FromRadix16(DigitChar(b / 16), DigitChar(b % 16)) == Some(b)
  {
    PadPeels(b, 16, 2);
    assert Pad(b / 16, 16, 1) == [DigitChar(b / 16)];
    DigitReads(b / 16);
    DigitReads(b % 16);
  }

  /** What follows the backslash of an escaped byte: bytes that print as themselves. */
  ghost function AfterBackslash(b: byte): seq<byte> {
    if b == 13 then [114]
    else if b == 10 then [110]
    else if b == 9 then [116]
    else [120, DigitChar(b / 16) as int, DigitChar(b % 16) as int]
  }

  lemma AfterBackslashPrints(b: byte)
    requires !Printable(b)
    ensures |AfterBackslash(b)| >= 1
    ensures forall i :: 0 <= i < |AfterBackslash(b)| ==> Plain(AfterBackslash(b)[i])
    ensures EscapeByte(b) == ['\\'] + Escaped(AfterBackslash(b))
    ensures Backslashes(AfterBackslash(b)) == 0
  {
    HexByte(b);
    var t := AfterBackslash(b);
    NoBackslash(t);
    if |t| == 3 {
      assert t[1..] == [t[1], t[2]] && t[1..][1..] == [t[2]] && [t[2]][1..] == [];
      assert Escaped([t[2]]) == [t[2] as char];
      assert Escaped(t[1..]) == [t[1] as char, t[2] as char];
      assert Escaped(t) == ['x', t[1] as char, t[2] as char];
    }
  }

  /** So an escaped byte and the rest print as a backslash and a plain text. */
  lemma EscapedIsBackslashAndText(b: byte, rest: seq<byte>)
    requires !Printable(b)
    ensures var t := AfterBackslash(b);
      && t != [] && Plain(t[0])
      && Backslashes(t + rest) == Backslashes(rest)
      && Escaped([b] + rest) == ['\\'] + Escaped(t + rest)
  {
    hide EscapeByte, AfterBackslash;
    var t := AfterBackslash(b);
    AfterBackslashPrints(b);
    BackslashesAppend(t, rest);
    EscapedConcat(t, rest);
    assert ([b] + rest)[1..] == rest;
  }

  // ---------------------------------------------------------------- one token at a time

  /** Unescaping undoes the escaping of any byte but a backslash. */
  lemma ByteReads(b: byte, text: string)
    requires b != BACKSLASH
    ensures Unescaped(EscapeByte(b) + text) == Then([b], Unescaped(text))
  {
    var s := EscapeByte(b) + text;
    if Printable(b) {
      assert s[1..] == text;
    } else if |EscapeByte(b)| == 2 {
      assert s[0] == '\\' && s[2..] == text;
    } else {
      HexByte(b);
      assert s[0] == '\\' && s[1] == 'x' && s[2] == DigitChar(b / 16) && s[3] == DigitChar(b % 16);
      assert s[4..] == text;
    }
  }

  /** The escapes a raw backslash can start, and what is left after them. */
  datatype Token = Pair | EscapedNext | HexOfBackslash | OtherEscape

  /** Unescaping takes one token off a line that prints w, and what is left prints some next. */
  lemma TakeToken(w: seq<byte>, o: seq<byte>) returns (next: seq<byte>, token: Token)
    requires w != [] && Unescaped(Escaped(w)) == Some(o)
    ensures o != [] && Unescaped(Escaped(next)) == Some(o[1..]) && |Escaped(next)| < |Escaped(w)|
    ensures w[0] != BACKSLASH ==> o[0] == w[0] && next == w[1..]
    ensures w[0] == BACKSLASH ==>
      && (token == OtherEscape <==> o[0] != BACKSLASH)
      && Backslashes(next) + 1 <= Backslashes(w)
      && (token == Pair ==> Backslashes(next) + 2 <= Backslashes(w))
      && (token == EscapedNext ==> |w| >= 2 && !Printable(w[1]) && next != [] && Plain(next[0]))
      && (token == HexOfBackslash ==> |w| >= 4 && next == w[4..] && BACKSLASH !in w[1..4])
  {
    token := OtherEscape;
    if w[0] != BACKSLASH {
      next := w[1..];
      ByteReads(w[0], Escaped(next));
    } else {
      next, token := TakeEscape(w, o);
    }
  }

  lemma TakeEscape(w: seq<byte>, o: seq<byte>) returns (next: seq<byte>, token: Token)
    requires w != [] && w[0] == BACKSLASH && Unescaped(Escaped(w)) == Some(o)
    ensures o != [] && Unescaped(Escaped(next)) == Some(o[1..]) && |Escaped(next)| < |Escaped(w)|
    ensures token == OtherEscape <==> o[0] != BACKSLASH
    ensures Backslashes(next) + 1 <= Backslashes(w)
    ensures token == Pair ==> Backslashes(next) + 2 <= Backslashes(w)
    ensures token == EscapedNext ==> |w| >= 2 && !Printable(w[1]) && next != [] && Plain(next[0])
    ensures token == HexOfBackslash ==> |w| >= 4 && next == w[4..] && BACKSLASH !in w[1..4]
  {
    hide EscapeByte;
    var s, w1 := Escaped(w), w[1..];
    FirstChar(w);
    assert s[1..] == Escaped(w1);
    FirstChar(w1);
    var w2 := w1[1..];
    assert s[1] == s[1..][0] && s[2..] == s[1..][1..];
    if !Printable(w1[0]) {
      EscapedIsBackslashAndText(w1[0], w2);
      assert w1 == [w1[0]] + w2;
      next, token := AfterBackslash(w1[0]) + w2, EscapedNext;
      assert s[2..] == Escaped(next);
    } else if s[1] == 'x' {
      next := TakeHex(w, o);
      token := if o[0] == BACKSLASH then HexOfBackslash else OtherEscape;
    } else {
      next := w2;
      token := if w1[0] == BACKSLASH then Pair else OtherEscape;
    }
  }

  /** Two hex digits after a backslash and an x are bytes that print as themselves. */
  lemma TakeHex(w: seq<byte>, o: seq<byte>) returns (next: seq<byte>)
    requires |w| >= 2 && w[0] == BACKSLASH && w[1] == 120 && Unescaped(Escaped(w)) == Some(o)
    ensures |w| >= 4 && next == w[4..] && BACKSLASH !in w[1..4]
    ensures o != [] && Unescaped(Escaped(next)) == Some(o[1..]) && |Escaped(next)| < |Escaped(w)|
    ensures Backslashes(next) + 1 <= Backslashes(w)
  {
    var s := Escaped(w);
    FirstChar(w);
    FirstChar(w[1..]);
    assert s[2..] == s[1..][1..] == Escaped(w[2..]) by {
      assert w[1..][1..] == w[2..];
    }
    assert s[0] == '\\' && s[1] == s[1..][0] == 'x';
    var hi, lo := s[2], s[3];
    FirstChar(w[2..]);
    assert hi == s[2..][0] && w[2..][1..] == w[3..] && s[3..] == s[2..][1..];
    FirstChar(w[3..]);
    assert lo == s[3..][0] && w[3..][1..] == w[4..] && s[4..] == s[3..][1..];
    next := w[4..];
    assert w == w[..1] + (w[1..4] + next);
    BackslashesAppend(w[..1], w[1..4] + next);
    BackslashesAppend(w[1..4], next);
  }

  // ---------------------------------------------------------------- counting backslashes

  /** Unescaping never yields more backslashes than were printed raw, and fewer when the first one is spent otherwise. */
  lemma {:induction false} BackslashesShrink(w: seq<byte>, o: seq<byte>)
    requires Unescaped(Escaped(w)) == Some(o)
    ensures Backslashes(o) <= Backslashes(w)
    ensures w != [] && w[0] == BACKSLASH && o[0] != BACKSLASH ==> Backslashes(o) < Backslashes(w)
    decreases |Escaped(w)|
  {
    if w != [] {
      var next, token := TakeToken(w, o);
      BackslashesShrink(next, o[1..]);
    }
  }

  /** A line cannot unescape to what it prints with something plain put in front. */
  lemma {:induction false} NoPlainPrefix(w: seq<byte>, v: seq<byte>)
    requires v != [] && BACKSLASH !in v && Unescaped(Escaped(w)) == Some(v + w)
    ensures false
    decreases |w|
  {
    var o := v + w;
    NoBackslash(v);
    BackslashesAppend(v, w);
    BackslashesShrink(w, o);
    if w != [] {
      var next, token := TakeToken(w, o);
      if w[0] != BACKSLASH {
        assert o[1..] == (v[1..] + [w[0]]) + w[1..];
        NoPlainPrefix(w[1..], v[1..] + [w[0]]);
      }
    }
  }

  lemma {:induction false} PlainRoundTrip(d: seq<byte>)
    requires BACKSLASH !in d
    ensures Unescaped(Escaped(d)) == Some(d)
  {
    if d != [] {
      PlainRoundTrip(d[1..]);
      ByteReads(d[0], Escaped(d[1..]));
      assert [d[0]] + d[1..] == d;
    }
  }

  lemma {:induction false} RoundTripIsPlain(d: seq<byte>)
    requires Unescaped(Escaped(d)) == Some(d)
    ensures BACKSLASH !in d
    decreases |d|
  {
    if d != [] {
      var next, token := TakeToken(d, d);
      if d[0] != BACKSLASH {
        RoundTripIsPlain(d[1..]);
        assert d == [d[0]] + d[1..];
      } else {
        BackslashesShrink(next, d[1..]);
        if token == EscapedNext {
          var next', token' := TakeToken(next, d[1..]);
        } else if token == HexOfBackslash {
          assert d[1..] == d[1..4] + next;
          NoPlainPrefix(next, d[1..4]);
        }
        assert false;
      }
    }
  }

  /** The escaped line of a message unescapes to the message exactly when the message holds no backslash:
      the printer does not escape backslashes, and nothing makes up for it. */
  lemma EscapesInvertIffNoBackslash(d: seq<byte>)
    ensures Unescaped(Escaped(d)) == Some(d) <==> BACKSLASH !in d
  {
    if BACKSLASH !in d {
      PlainRoundTrip(d);
    } else if Unescaped(Escaped(d)) == Some(d) {
      RoundTripIsPlain(d);
    }
  }
}

/** The hex dump, read back line by line. */
module DumpsInvert {
  import opened Bytes
  import opened EscapesInvert
  import opened Wrappers
  import opened Text
  import opened Numbers
  import opened HexText
  import opened Hexdump

  /** A dump's reader: the offset and hex columns of a line behind an indent of n characters. */
  ghost function OffsetOf(line: string, n: nat): Option<nat>
    requires |line| >= n + 8
  {
    Read(line[n..n + 8], 16)
  }

  ghost function HexColumn(line: string, n: nat): string
    requires |line| >= n + 59
  {
    line[n + 10..n + 59]
  }

  ghost predicate IsAscii(s: string) {
    forall i :: 0 <= i < |s| ==> s[i] as int < 128
  }

  ghost predicate OneLine(s: string) {
    forall i :: 0 <= i < |s| ==> s[i] != '\n'
  }

  /** The lines of a text, newlines removed. */
  ghost function SplitLines(s: string): seq<string>
    decreases |s|
  {
    if s == [] then []
    else
      var k := LineLength(s);
      if k == |s| then [s] else [s[..k]] + SplitLines(s[k + 1..])
  }

  ghost function LineLength(s: string): (k: nat)
    ensures k <= |s|
  {
    if s == [] || s[0] == '\n' then 0 else 1 + LineLength(s[1..])
  }

  lemma {:induction false} LineEnds(s: string, rest: string)
    requires OneLine(s)
    ensures LineLength(s + "\n" + rest) == |s|
  {
    var t := s + "\n" + rest;
    if s != [] {
      assert t[1..] == s[1..] + "\n" + rest;
      LineEnds(s[1..], rest);
    }
  }

  lemma LineSplits(s: string, rest: string)
    requires OneLine(s)
    ensures SplitLines(s + "\n" + rest) == [s] + SplitLines(rest)
  {
    LineEnds(s, rest);
    var t := s + "\n" + rest;
    assert t[..|s|] == s && t[|s| + 1..] == rest;
  }

  // ---------------------------------------------------------------- the hex column

  ghost function HexOf(d: seq<byte>): string {
    if d == [] then [] else HexOf(d[..|d| - 1]) + Pad(d[|d| - 1], 16, 2)
  }

  lemma {:induction false} CleanedConcat(s: string, t: string)
    ensures Cleaned(s + t) == Cleaned(s) + Cleaned(t)
  {
    if s == [] {
      assert s + t == t;
    } else {
      assert (s + t)[1..] == s[1..] + t;
      CleanedConcat(s[1..], t);
    }
  }

  lemma {:induction false} PairsConcat(s: string, t: string)
    requires |s| % 2 == 0 && |t| % 2 == 0 && Pairs(s).Some? && Pairs(t).Some?
    ensures Pairs(s + t) == Some(Pairs(s).value + Pairs(t).value)
  {
    hide FromRadix16, DigitValue;
    if s == [] {
      assert s + t == t && [] + Pairs(t).value == Pairs(t).value;
    } else {
      assert (s + t)[2..] == s[2..] + t && (s + t)[0] == s[0] && (s + t)[1] == s[1];
      PairsConcat(s[2..], t);
      var b := FromRadix16(s[0], s[1]).value;
      assert [b] + (Pairs(s[2..]).value + Pairs(t).value) == ([b] + Pairs(s[2..]).value) + Pairs(t).value;
    }
  }

  lemma HexPadReads(b: byte)
    ensures |Pad(b, 16, 2)| == 2 && Pairs(Pad(b, 16, 2)) == Some([b])
    ensures Pad(b, 16, 2)[0] != 'x' && Pad(b, 16, 2)[1] != 'x'
  {
    HexByte(b);
    hide Pad;
    assert Pad(b, 16, 2)[2..] == [];
    assert [b] + [] == [b];
  }

  lemma {:induction false} HexReads(d: seq<byte>)
    ensures |HexOf(d)| == 2 * |d| && Pairs(HexOf(d)) == Some(d)
    ensures forall i :: 0 <= i < |HexOf(d)| ==> HexOf(d)[i] != 'x'
  {
    hide Pad;
    if d == [] {
      assert HexOf(d) == [];
    } else {
      var b := d[|d| - 1];
      HexReads(d[..|d| - 1]);
      HexPadReads(b);
      PairsConcat(HexOf(d[..|d| - 1]), Pad(b, 16, 2));
      assert d[..|d| - 1] + [b] == d;
    }
  }

  lemma HexPadCleans(b: byte)
    ensures var p := Pad(b, 16, 2); |p| == 2 && IsAscii(p) && OneLine(p) && Cleaned(p) == p
  {
    hide Pad;
    HexByte(b);
    var p := Pad(b, 16, 2);
    assert p[1..] == [p[1]] && p[1..][1..] == [];
    assert Cleaned([p[1]]) == [p[1]];
  }

  lemma BlanksClean()
    ensures Cleaned(" ") == [] && Cleaned("  ") == [] && Cleaned("   ") == []
  {
    assert "   "[1..] == "  " && "  "[1..] == " " && " "[1..] == "";
  }

  /** A cell is its byte's two digits and separators. */
  lemma CellCleans(chunk: seq<byte>, i: nat)
    ensures Cleaned(Cell(chunk, i)) == if i < |chunk| then Pad(chunk[i], 16, 2) else []
    ensures IsAscii(Cell(chunk, i)) && OneLine(Cell(chunk, i))
    ensures |Cell(chunk, i)| == if i == 7 then 4 else 3
  {
    hide Pad, Cleaned;
    BlanksClean();
    assert Cleaned("") == [] by {
      EmptyCleans();
    }
    var gap := if i == 7 then " " else "";
    if i < |chunk| {
      var p := Pad(chunk[i], 16, 2);
      HexPadCleans(chunk[i]);
      CleanedConcat(p, " ");
      CleanedConcat(p + " ", gap);
      assert Cell(chunk, i) == p + " " + gap;
      assert p + [] == p;
    } else {
      CleanedConcat("   ", gap);
    }
  }

  lemma EmptyCleans()
    ensures Cleaned("") == []
  {
  }

  lemma {:induction false} CellsClean(chunk: seq<byte>, n: nat)
    requires |chunk| <= 16
    ensures Cleaned(Cells(chunk, n)) == HexOf(chunk[..Min(n, |chunk|)])
    ensures IsAscii(Cells(chunk, n)) && OneLine(Cells(chunk, n))
    ensures |Cells(chunk, n)| == 3 * n + if n > 7 then 1 else 0
  {
    hide Cell, Pad;
    if n > 0 {
      CellsClean(chunk, n - 1);
      CellCleans(chunk, n - 1);
      CleanedConcat(Cells(chunk, n - 1), Cell(chunk, n - 1));
      if n <= |chunk| {
        assert chunk[..n][..n - 1] == chunk[..n - 1];
      } else {
        assert HexOf(chunk[..Min(n - 1, |chunk|)]) + [] == HexOf(chunk[..Min(n, |chunk|)]);
      }
    }
  }

  /** The hex column of a row parses to the row's bytes. */
  lemma CellsParse(chunk: seq<byte>)
    requires |chunk| <= 16
    ensures IsAscii(Cells(chunk, 16)) && |Cells(chunk, 16)| == 49
    ensures ParseHex(Cells(chunk, 16)) == Some(chunk)
  {
    hide Cells, Cleaned, HexOf, Pairs;
    CellsClean(chunk, 16);
    HexReads(chunk);
    assert chunk[..|chunk|] == chunk;
  }

  // ---------------------------------------------------------------- rows and the whole dump

  lemma OffsetFits(row: nat)
    requires row * 16 < 0x1_0000_0000
    ensures |Pad(row * 16, 16, 8)| == 8 && Read(Pad(row * 16, 16, 8), 16) == Some(row * 16)
  {
    assert Power(16, 2) == 0x100 && Power(16, 4) == 0x1_0000 && Power(16, 6) == 0x100_0000;
    assert Power(16, 8) == 0x1_0000_0000;
    PadReads(row * 16, 16, 8);
  }

  /** Where the cell of byte i stands behind an indent of n characters: three characters a cell, and a gap after the
      eighth. */
  ghost function CellAt(n: nat, i: nat): nat {
    n + 10 + 3 * i + if i > 7 then 1 else 0
  }

  /** A byte as two lower-case digits and a blank. */
  ghost function TwoDigits(b: byte): string {
    [DIGITS[b / 16], DIGITS[b % 16], ' ']
  }

  /** The line shows these bytes at this offset: the indent, the offset in eight digits, two blanks, sixteen cells with
      those past the last byte blank, and between bars the bytes as text, with a dot for each that is neither graphic nor
      a space. */
  ghost predicate Shows(line: string, indent: string, offset: nat, bytes: seq<byte>)
    requires |bytes| <= 16
  {
    var n := |indent|;
    && |line| == n + 62 + |bytes|
    && line[..n] == indent
    && OffsetOf(line, n) == Some(offset) && LowerDigits(line[n..n + 8])
    && line[n + 8..n + 10] == "  "
    && (forall i :: 0 <= i < 16 ==>
          line[CellAt(n, i)..CellAt(n, i) + 3] == if i < |bytes| then TwoDigits(bytes[i]) else "   ")
    && line[n + 34] == ' '
    && line[n + 59] == ' ' && line[n + 60] == '|' && line[|line| - 1] == '|'
    && (forall i :: 0 <= i < |bytes| ==>
          line[n + 61 + i] == if bytes[i] == 0x20 || 0x21 <= bytes[i] <= 0x7e then bytes[i] as char else '.')
    && IsAscii(HexColumn(line, n))
    && ParseHex(HexColumn(line, n)) == Some(bytes)
  }

  lemma CellsLength(chunk: seq<byte>, n: nat)
    requires |chunk| <= 16
    ensures |Cells(chunk, n)| == 3 * n + if n > 7 then 1 else 0
  {
    CellsClean(chunk, n);
  }

  lemma {:induction false} CellInPlace(chunk: seq<byte>, n: nat, i: nat)
    requires i < n <= 16 && |chunk| <= 16
    ensures var at := 3 * i + if i > 7 then 1 else 0;
      at + 3 <= |Cells(chunk, n)| && Cells(chunk, n)[at..at + 3] == if i < |chunk| then TwoDigits(chunk[i]) else "   "
    decreases n
  {
    hide Cell, TwoDigits;
    CellsLength(chunk, n);
    CellsLength(chunk, n - 1);
    CellShows(chunk, n - 1);
    var before, cell, at := Cells(chunk, n - 1), Cell(chunk, n - 1), 3 * i + if i > 7 then 1 else 0;
    assert Cells(chunk, n) == before + cell;
    hide Cells;
    if i < n - 1 {
      CellInPlace(chunk, n - 1, i);
      SliceOfFront(before, cell, at, at + 3);
    } else {
      SliceOfBack(before, cell, 3);
    }
  }

  lemma SliceOfFront(a: string, b: string, i: nat, j: nat)
    requires i <= j <= |a|
    ensures (a + b)[i..j] == a[i..j]
  {
  }

  lemma SliceOfBack(a: string, b: string, n: nat)
    requires n <= |b|
    ensures (a + b)[|a|..|a| + n] == b[..n]
  {
  }

  lemma {:induction false} GapInPlace(chunk: seq<byte>, n: nat)
    requires 8 <= n <= 16 && |chunk| <= 16
    ensures 24 < |Cells(chunk, n)| && Cells(chunk, n)[24] == ' '
  {
    hide Cell;
    CellsLength(chunk, n);
    CellsLength(chunk, n - 1);
    CellShows(chunk, n - 1);
    if n > 8 {
      GapInPlace(chunk, n - 1);
    }
  }

  lemma CellShows(chunk: seq<byte>, i: nat)
    ensures |Cell(chunk, i)| == (if i == 7 then 4 else 3)
    ensures Cell(chunk, i)[..3] == if i < |chunk| then TwoDigits(chunk[i]) else "   "
    ensures i == 7 ==> Cell(chunk, i)[3] == ' '
  {
    if i < |chunk| {
      HexByte(chunk[i]);
      hide Pad;
      DigitIsListed(chunk[i] / 16);
      DigitIsListed(chunk[i] % 16);
    }
  }

  /** Where the parts of a row stand. */
  lemma RowParts(indent: string, offset: string, cells: string, gutter: string)
    requires |offset| == 8 && |cells| == 49
    ensures var line, n := indent + offset + "  " + cells + " |" + gutter + "|", |indent|;
      && |line| == n + 62 + |gutter| && line[..n] == indent && line[n..n + 8] == offset && line[n + 8..n + 10] == "  "
      && line[n + 10..n + 59] == cells && line[n + 59] == ' ' && line[n + 60] == '|' && line[|line| - 1] == '|'
      && line[n + 61..|line| - 1] == gutter
      && (forall i :: 0 <= i < |gutter| ==> line[n + 61 + i] == gutter[i])
      && (forall i, j :: 0 <= i <= j <= 49 ==> line[n + 10 + i..n + 10 + j] == cells[i..j])
  {
    var line, n := indent + offset + "  " + cells + " |" + gutter + "|", |indent|;
    assert line[n + 10..n + 59] == cells;
    assert line[n + 61..|line| - 1] == gutter;
    forall i | 0 <= i < |gutter|
      ensures line[n + 61 + i] == gutter[i]
    {
      assert line[n + 61..|line| - 1][i] == line[n + 61 + i];
    }
    forall i, j | 0 <= i <= j <= 49
      ensures line[n + 10 + i..n + 10 + j] == cells[i..j]
    {
      assert line[n + 10..n + 59][i..j] == line[n + 10 + i..n + 10 + j];
    }
  }

  lemma RowShows(indent: string, row: nat, chunk: seq<byte>)
    requires row * 16 < 0x1_0000_0000 && |chunk| <= 16
    ensures Shows(RowText(indent, row, chunk), indent, 16 * row, chunk)
  {
    hide Pad, Cells, Read, Cleaned, ParseHex, GutterText, TwoDigits, LowerDigits;
    OffsetFits(row);
    PadMeans(row * 16, 16, 8);
    CellsParse(chunk);
    GutterShows(chunk);
    var line, n, cells := RowText(indent, row, chunk), |indent|, Cells(chunk, 16);
    RowParts(indent, Pad(row * 16, 16, 8), cells, GutterText(chunk));
    GapInPlace(chunk, 16);
    assert line[n + 34] == cells[24] by {
      assert line[n + 10 + 24..n + 10 + 25] == cells[24..25];
      assert line[n + 10 + 24..n + 10 + 25][0] == line[n + 34] && cells[24..25][0] == cells[24];
    }
    forall i | 0 <= i < 16
      ensures line[CellAt(n, i)..CellAt(n, i) + 3] == if i < |chunk| then TwoDigits(chunk[i]) else "   "
    {
      CellInPlace(chunk, 16, i);
      var at := CellAt(0, i) - 10;
      assert CellAt(n, i) == n + 10 + at && at + 3 <= 49;
    }
  }

  lemma GutterShows(chunk: seq<byte>)
    ensures |GutterText(chunk)| == |chunk|
    ensures forall i :: 0 <= i < |chunk| ==>
      GutterText(chunk)[i] == if chunk[i] == 0x20 || 0x21 <= chunk[i] <= 0x7e then chunk[i] as char else '.'
  {
  }

  lemma {:induction false} DigitsAreDigits(n: nat, b: Base)
    ensures forall i :: 0 <= i < |Digits(n, b)| ==> DigitValue(Digits(n, b)[i]).Some?
  {
    if n < b as int {
      DigitReads(n);
    } else {
      DivRem(n, b);
      DigitsAreDigits(n / b as int, b);
      DigitReads(n % b as int);
    }
  }

  lemma RowIsOneLine(indent: string, row: nat, chunk: seq<byte>)
    requires OneLine(indent) && |chunk| <= 16
    ensures OneLine(RowText(indent, row, chunk))
  {
    hide Cells;
    DigitsAreDigits(row * 16, 16);
    CellsClean(chunk, 16);
    assert OneLine(Pad(row * 16, 16, 8)) && OneLine(GutterText(chunk));
  }

  ghost function RowLines(data: seq<byte>, indent: string, n: nat): seq<string>
    requires n <= RowCount(|data|)
  {
    seq(n, k requires 0 <= k < n => RowText(indent, k, Chunk(data, k)))
  }

  lemma {:induction false} RowsSplit(data: seq<byte>, indent: string, n: nat, rest: string)
    requires n <= RowCount(|data|) && OneLine(indent)
    ensures SplitLines(Rows(data, indent, n) + rest) == RowLines(data, indent, n) + SplitLines(rest)
  {
    hide RowText, SplitLines, OneLine;
    if n == 0 {
      assert Rows(data, indent, 0) + rest == rest;
    } else {
      var line := RowText(indent, n - 1, Chunk(data, n - 1));
      var more := line + "\n" + rest;
      RowIsOneLine(indent, n - 1, Chunk(data, n - 1));
      assert Rows(data, indent, n) + rest == Rows(data, indent, n - 1) + more;
      RowsSplit(data, indent, n - 1, more);
      LineSplits(line, rest);
      assert RowLines(data, indent, n) == RowLines(data, indent, n - 1) + [line];
    }
  }

  /** The dump of any data, of which less than 4 GiB is shown, splits into its rows, in order, and a trailer exactly when
      it was cut; each row shows its bytes at its offset, and the trailer counts the bytes that were cut. */
  lemma DumpReadsBack(data: seq<byte>, max: nat, indent: string)
    requires (|data| < 0x1_0000_0000 || 0 < max < 0x1_0000_0000) && OneLine(indent)
    ensures var limit := if max == 0 || |data| <= max then |data| else max;
      var lines, rows := SplitLines(Rendered(data, max, indent)), (limit + 15) / 16;
      && |lines| == rows + (if limit < |data| then 1 else 0)
      && (limit < |data| ==> lines[rows] == indent + "... " + Digits(|data| - limit, 10) + " more bytes")
      && forall k :: 0 <= k < rows ==>
           Shows(lines[k], indent, 16 * k, data[16 * k..Min(16 * k + 16, limit)])
  {
    hide RowText, Shows, Rows, SplitLines, OneLine, Trailer, Chunk;
    TrailerText(indent);
    var limit := Limit(|data|, max);
    var shown := data[..limit];
    var rest := if limit < |data| then Trailer(indent, |data| - limit) + "\n" else "";
    RowsSplit(shown, indent, RowCount(limit), rest);
    NoLines();
    if limit < |data| {
      TrailerIsOneLine(indent, |data| - limit);
      LineSplits(Trailer(indent, |data| - limit), "");
      NothingAfter(Trailer(indent, |data| - limit) + "\n");
    }
    forall k | 0 <= k < RowCount(limit)
      ensures Shows(RowText(indent, k, Chunk(shown, k)), indent, 16 * k, data[16 * k..Min(16 * k + 16, limit)])
    {
      ChunkIsSlice(data, limit, k);
      RowShows(indent, k, Chunk(shown, k));
    }
  }

  lemma NothingAfter(s: string)
    ensures s + "" == s
  {
  }

  lemma ChunkIsSlice(data: seq<byte>, limit: nat, k: nat)
    requires limit <= |data| && k < RowCount(limit)
    ensures Chunk(data[..limit], k) == data[16 * k..Min(16 * k + 16, limit)]
  {
  }

  lemma TrailerText(indent: string)
    ensures forall n :: Trailer(indent, n) == indent + "... " + Digits(n, 10) + " more bytes"
  {
  }

  lemma NoLines()
    ensures SplitLines("") == []
  {
  }

  lemma TrailerIsOneLine(indent: string, more: nat)
    requires OneLine(indent)
    ensures OneLine(Trailer(indent, more))
  {
    DigitsAreDigits(more, 10);
  }
}
