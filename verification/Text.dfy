/** Optional results, with failure propagation. */
module Wrappers {

  datatype Option<+T> = None | Some(value: T) {
    predicate IsFailure() {
      None?
    }

    function PropagateFailure<U>(): Option<U>
      requires None?
    {
      None
    }

    function Extract(): T
      requires Some?
    {
      value
    }
  }
}

/** Numbers as text: what `{:04}`, `{:02x}` and the like print, and a reader for it. */
module Text {

  import opened Wrappers

  newtype Base = b: int | b == 10 || b == 16 witness 10

  function DigitChar(d: int): char
    requires 0 <= d < 16
  {
    if d < 10 then '0' + d as char else 'a' + (d - 10) as char
  }

  /** The value of a digit character, in either case. */
  function DigitValue(c: char): Option<nat> {
    if '0' <= c <= '9' then Some((c - '0') as int)
    else if 'a' <= c <= 'f' then Some((c - 'a') as int + 10)
    else if 'A' <= c <= 'F' then Some((c - 'A') as int + 10)
    else None
  }

  /** The shortest digits of n. */
  function Digits(n: nat, b: Base): string {
    if n < b as int then [DigitChar(n)] else Digits(n / b as int, b) + [DigitChar(n % b as int)]
  }

  function Zeros(n: nat): string {
    seq(n, _ => '0')
  }

  /** The digits of n with leading zeros to a width of at least w. */
  function Pad(n: nat, b: Base, w: nat): string {
    var ds := Digits(n, b);
    if |ds| < w then Zeros(w - |ds|) + ds else ds
  }

  function Power(b: Base, w: nat): nat {
    if w == 0 then 1 else b as int * Power(b, w - 1)
  }

  /** The value of digits in base b; None unless every character is a digit of that base. */
  function Read(s: string, b: Base): Option<nat> {
    if s == [] then Some(0)
    else
      var hi :- Read(s[..|s| - 1], b);
      var lo :- DigitValue(s[|s| - 1]);
      if lo < b as int then Some(hi * b as int + lo) else None
  }

  /** Reads exactly w digits off the front; gives their value and what follows. */
  function ReadField(s: string, b: Base, w: nat): Option<(nat, string)> {
    if |s| < w then None
    else
      var n :- Read(s[..w], b);
      Some((n, s[w..]))
  }

  function ReadChar(s: string, c: char): Option<string> {
    if s != [] && s[0] == c then Some(s[1..]) else None
  }

  /** The order of strings: by the first character that differs, a proper prefix first. */
  ghost predicate LexLess(s: string, t: string) {
    t != [] && (s == [] || s[0] < t[0] || (s[0] == t[0] && LexLess(s[1..], t[1..])))
  }

  // ---------------------------------------------------------------- printed numbers read back

  lemma DigitReads(d: int)
    requires 0 <= d < 16
    ensures DigitValue(DigitChar(d)) == Some(d)
  {
  }

  /** A padded number that fits its width peels one digit at a time. */
  lemma PadPeels(n: nat, b: Base, w: nat)
    requires w >= 2
    ensures n / b as int < n || n == 0
    ensures Pad(n, b, w) == Pad(n / b as int, b, w - 1) + [DigitChar(n % b as int)]
  {
    if n < b as int {
      assert n / b as int == 0;
      assert Digits(0, b) == ['0'];
      assert Zeros(w - 1) == Zeros(w - 2) + ['0'];
    }
  }

  lemma DivFits(n: nat, b: Base, w: nat)
    requires w >= 1 && n < Power(b, w)
    ensures n / b as int < Power(b, w - 1)
  {
    if b == 10 {
      assert Power(b, w) == 10 * Power(b, w - 1);
    } else {
      assert Power(b, w) == 16 * Power(b, w - 1);
    }
  }

  lemma OneDigit(n: nat, b: Base)
    requires n < Power(b, 1)
    ensures n < b as int && Pad(n, b, 1) == [DigitChar(n)]
  {
    assert Power(b, 0) == 1;
  }

  lemma DivRem(n: nat, b: Base)
    ensures n / b as int * b as int + n % b as int == n
    ensures 0 <= n % b as int < b as int
  {
    if b == 10 {
    } else {
    }
  }

  lemma EmptyReads(b: Base)
    ensures Read([], b) == Some(0)
  {
  }

  lemma DigitAppendReads(s: string, n: nat, b: Base, d: int)
    requires Read(s, b) == Some(n) && 0 <= d < b as int
    ensures Read(s + [DigitChar(d)], b) == Some(n * b as int + d)
  {
    DigitReads(d);
    var t := s + [DigitChar(d)];
    assert t[..|t| - 1] == s;
  }

  /** A number below base^w prints in exactly w characters and reads back as itself. */
  lemma {:induction false} PadReads(n: nat, b: Base, w: nat)
    requires w >= 1 && n < Power(b, w)
    ensures |Pad(n, b, w)| == w
    ensures Read(Pad(n, b, w), b) == Some(n)
  {
    hide Pad, Read, DigitChar;
    if w == 1 {
      OneDigit(n, b);
      EmptyReads(b);
      DigitAppendReads([], 0, b, n);
      assert [] + [DigitChar(n)] == [DigitChar(n)];
    } else {
      PadPeels(n, b, w);
      DivFits(n, b, w);
      DivRem(n, b);
      PadReads(n / b as int, b, w - 1);
      DigitAppendReads(Pad(n / b as int, b, w - 1), n / b as int, b, n % b as int);
    }
  }

  lemma FieldReads(n: nat, b: Base, w: nat, rest: string)
    requires w >= 1 && n < Power(b, w)
    ensures ReadField(Pad(n, b, w) + rest, b, w) == Some((n, rest))
  {
    PadReads(n, b, w);
    var s := Pad(n, b, w) + rest;
    assert s[..w] == Pad(n, b, w) && s[w..] == rest;
  }

  lemma CharReads(c: char, rest: string)
    ensures ReadChar([c] + rest, c) == Some(rest)
  {
    assert ([c] + rest)[1..] == rest;
  }

  // ---------------------------------------------------------------- order

  lemma {:induction false} LexPrefix(p: string, s: string, t: string)
    ensures LexLess(p + s, p + t) <==> LexLess(s, t)
  {
    if p == [] {
      assert p + s == s && p + t == t;
    } else {
      assert (p + s)[1..] == p[1..] + s && (p + t)[1..] == p[1..] + t;
      LexPrefix(p[1..], s, t);
    }
  }

  lemma {:induction false} LexExtend(p: string, q: string, s: string, t: string)
    requires |p| == |q| && LexLess(p, q)
    ensures LexLess(p + s, q + t)
  {
    assert (p + s)[1..] == p[1..] + s && (q + t)[1..] == q[1..] + t;
    if p[0] == q[0] {
      LexExtend(p[1..], q[1..], s, t);
    }
  }

  lemma DivOrder(m: nat, n: nat, b: Base)
    requires m < n
    ensures m / b as int < n / b as int || (m / b as int == n / b as int && m % b as int < n % b as int)
  {
    if b == 10 {
    } else {
    }
  }

  lemma LastDigitOrders(p: string, q: string, c: int, d: int)
    requires |p| == |q| && 0 <= c < 16 && 0 <= d < 16
    requires LexLess(p, q) || (p == q && c < d)
    ensures LexLess(p + [DigitChar(c)], q + [DigitChar(d)])
  {
    if LexLess(p, q) {
      LexExtend(p, q, [DigitChar(c)], [DigitChar(d)]);
    } else {
      LexPrefix(p, [DigitChar(c)], [DigitChar(d)]);
    }
  }

  /** Numbers padded to one width order as text the way they order as numbers. */
  lemma {:induction false} PadOrders(m: nat, n: nat, b: Base, w: nat)
    requires w >= 1 && m < n < Power(b, w)
    ensures LexLess(Pad(m, b, w), Pad(n, b, w))
  {
    hide Pad, LexLess, DigitChar;
    NothingPrecedesNothing();
    if w == 1 {
      OneDigit(m, b);
      OneDigit(n, b);
      LastDigitOrders([], [], m, n);
      assert [] + [DigitChar(m)] == [DigitChar(m)] && [] + [DigitChar(n)] == [DigitChar(n)];
    } else {
      PadOrdersStep(m, n, b, w);
      if m / b as int < n / b as int {
        DivFits(n, b, w);
        PadOrders(m / b as int, n / b as int, b, w - 1);
      }
    }
  }

  lemma NothingPrecedesNothing()
    ensures !LexLess([], [])
  {
  }

  lemma PadOrdersStep(m: nat, n: nat, b: Base, w: nat)
    requires w >= 2 && m < n < Power(b, w)
    ensures LexLess(Pad(m / b as int, b, w - 1), Pad(n / b as int, b, w - 1))
        ==> LexLess(Pad(m, b, w), Pad(n, b, w))
    ensures m / b as int >= n / b as int ==> LexLess(Pad(m, b, w), Pad(n, b, w))
  {
    var m', n' := m / b as int, n / b as int;
    DivOrder(m, n, b);
    DivFits(m, b, w);
    DivFits(n, b, w);
    PadReads(m', b, w - 1);
    PadReads(n', b, w - 1);
    PadPeels(m, b, w);
    PadPeels(n, b, w);
    if m' >= n' || LexLess(Pad(m', b, w - 1), Pad(n', b, w - 1)) {
      LastDigitOrders(Pad(m', b, w - 1), Pad(n', b, w - 1), m % b as int, n % b as int);
    }
  }

  /** A field decides the order; when two fields tie, what follows decides. */
  lemma FieldOrders(m: nat, n: nat, b: Base, w: nat, s: string, t: string)
    requires w >= 1 && m < Power(b, w) && n < Power(b, w)
    requires m < n || (m == n && LexLess(s, t))
    ensures LexLess(Pad(m, b, w) + s, Pad(n, b, w) + t)
  {
    PadReads(m, b, w);
    PadReads(n, b, w);
    if m < n {
      PadOrders(m, n, b, w);
      LexExtend(Pad(m, b, w), Pad(n, b, w), s, t);
    } else {
      LexPrefix(Pad(m, b, w), s, t);
    }
  }
}
