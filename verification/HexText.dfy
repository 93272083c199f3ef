/** The profile parsers: hex strings and backslash escapes. */
module HexText {
  import opened Bytes
  import opened Wrappers
  import opened Text

  /** Text of ASCII characters, where a character is a byte. */
  type AsciiText = s: string | forall i :: 0 <= i < |s| ==> s[i] as int < 128 witness []

  /** A byte from two characters, as the standard integer parser reads them: a leading plus sign is allowed. */
  function FromRadix16(hi: char, lo: char): Option<byte> {
    var d :- DigitValue(lo);
    if hi == '+' then Some(d)
    else
      var h :- DigitValue(hi);
      Some(16 * h + d)
  }

  predicate IsSeparator(c: char) {
    c == ' ' || c == '\t' || c == '\n' || c as int == 0x0c || c == '\r' || c == ':' || c == '-' || c == ','
  }

  function Cleaned(s: string): (t: string)
    ensures |t| <= |s|
  {
    if s == [] then []
    else if IsSeparator(s[0]) then Cleaned(s[1..])
    else [s[0]] + Cleaned(s[1..])
  }

  function Pairs(s: string): Option<seq<byte>>
    requires |s| % 2 == 0
  {
    if s == [] then Some([])
    else
      var b :- FromRadix16(s[0], s[1]);
      var rest :- Pairs(s[2..]);
      Some([b] + rest)
  }

  /** Hex bytes with separators ignored and one 0x prefix allowed; None for an odd number of digits or a bad one. */
  function ParseHex(s: AsciiText): Option<seq<byte>> {
    var cleaned := Cleaned(s);
    var digits := if |cleaned| >= 2 && cleaned[0] == '0' && cleaned[1] == 'x' then cleaned[2..] else cleaned;
    if |digits| % 2 != 0 then None else Pairs(digits)
  }

  /** The UTF-8 encoding of a character (section 3 of RFC 3629). */
  function Utf8(c: char): (b: seq<byte>)
    ensures c as int < 128 ==> b == [c as int]
  {
    var n := c as int;
    if n < 0x80 then [n]
    else if n < 0x800 then [0xc0 + n / 0x40, 0x80 + n % 0x40]
    else if n < 0x1_0000 then [0xe0 + n / 0x1000, 0x80 + n / 0x40 % 0x40, 0x80 + n % 0x40]
    else [0xf0 + n / 0x4_0000, 0x80 + n / 0x1000 % 0x40, 0x80 + n / 0x40 % 0x40, 0x80 + n % 0x40]
  }

  /** The byte a one-character escape stands for. */
  function Escape(c: char): Option<byte> {
    match c
    case 'n' => Some(10)
    case 'r' => Some(13)
    case 't' => Some(9)
    case '0' => Some(0)
    case '\\' => Some(92)
    case '"' => Some(34)
    case _ => None
  }

  function Unescaped(s: string): Option<seq<byte>> {
    if s == [] then Some([])
    else if s[0] != '\\' then
      var rest :- Unescaped(s[1..]);
      Some(Utf8(s[0]) + rest)
    else if |s| < 2 then None
    else if s[1] == 'x' then
      if |s| < 4 then None
      else
        var v :- FromRadix16(s[2], s[3]);
        var rest :- Unescaped(s[4..]);
        Some([v] + rest)
    else
      var v :- Escape(s[1]);
      var rest :- Unescaped(s[2..]);
      Some([v] + rest)
  }

  /** What is left to do once out has been produced. */
  ghost function Then(out: seq<byte>, rest: Option<seq<byte>>): Option<seq<byte>> {
    match rest
    case None => None
    case Some(r) => Some(out + r)
  }

  method Unescape(s: string) returns (r: Option<seq<byte>>)
    ensures r == Unescaped(s)
  {
    var out := [];
    var i := 0;
    assert s[0..] == s && (Unescaped(s).Some? ==> [] + Unescaped(s).value == Unescaped(s).value);
    while i < |s|
      invariant 0 <= i <= |s|
      invariant Unescaped(s) == Then(out, Unescaped(s[i..]))
      decreases |s| - i
    {
      ghost var was, rest := out, s[i..];
      var c := s[i];
      i := i + 1;
      assert rest[1..] == s[i..];
      if c != '\\' {
        out := out + Utf8(c);
        ThenThen(was, Utf8(c), Unescaped(s[i..]));
        continue;
      }
      if i == |s| {
        return None;
      }
      var e := s[i];
      i := i + 1;
      assert rest[2..] == s[i..];
      if e == 'x' {
        if i + 2 > |s| {
          return None;
        }
        var v := FromRadix16(s[i], s[i + 1]);
        if v == None {
          return None;
        }
        i := i + 2;
        assert rest[4..] == s[i..];
        out := out + [v.value];
        ThenThen(was, [v.value], Unescaped(s[i..]));
      } else {
        var v := Escape(e);
        if v == None {
          return None;
        }
        out := out + [v.value];
        ThenThen(was, [v.value], Unescaped(s[i..]));
      }
    }
    assert out + [] == out;
    return Some(out);
  }

  lemma ThenThen(a: seq<byte>, b: seq<byte>, rest: Option<seq<byte>>)
    ensures Then(a, Then(b, rest)) == Then(a + b, rest)
  {
    if rest.Some? {
      assert a + (b + rest.value) == (a + b) + rest.value;
    }
  }
}
