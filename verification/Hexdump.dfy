/** The console printers: offset, hex and text dumps, and escaped lines. */
module Hexdump {
  import opened Bytes
  import opened Text

  /** How much of n bytes is printed under a limit, where 0 is no limit. */
  function Limit(n: nat, max: nat): nat {
    if max == 0 then n else Min(n, max)
  }

  // ---------------------------------------------------------------- escaped lines

  function EscapeByte(b: byte): string {
    if b == 13 then "\\r"
    else if b == 10 then "\\n"
    else if b == 9 then "\\t"
    else if 0x20 <= b <= 0x7e then [b as char]
    else "\\x" + Pad(b, 16, 2)
  }

  function Escaped(d: seq<byte>): string {
    if d == [] then "" else EscapeByte(d[0]) + Escaped(d[1..])
  }

  lemma {:induction false} EscapedAppend(d: seq<byte>, b: byte)
    ensures Escaped(d + [b]) == Escaped(d) + EscapeByte(b)
  {
    if d == [] {
      assert [] + [b] == [b] && [b][1..] == [];
    } else {
      assert (d + [b])[1..] == d[1..] + [b];
      EscapedAppend(d[1..], b);
    }
  }

  lemma EmptyEscaped()
    ensures Escaped([]) == ""
  {
  }

  method AsciiLine(data: seq<byte>, max: nat) returns (out: string)
    ensures max == 0 || |data| <= max ==> out == Escaped(data)
    ensures 0 < max < |data| ==> out == Escaped(data[..max]) + " ...(+" + Digits(|data| - max, 10) + ")"
  {
    hide Escaped, Digits;
    EmptyEscaped();
    assert data[..|data|] == data;
    var limit := Limit(|data|, max);
    out := "";
    for i := 0 to limit
      invariant out == Escaped(data[..i])
    {
      EscapedAppend(data[..i], data[i]);
      assert data[..i] + [data[i]] == data[..i + 1];
      var b := data[i];
      if b == 13 {
        out := out + "\\r";
      } else if b == 10 {
        out := out + "\\n";
      } else if b == 9 {
        out := out + "\\t";
      } else if 0x20 <= b <= 0x7e {
        out := out + [b as char];
      } else {
        out := out + ("\\x" + Pad(b, 16, 2));
      }
    }
    if limit < |data| {
      out := out + (" ...(+" + Digits(|data| - limit, 10) + ")");
    } else {
      out := out + "";
    }
  }

  // ---------------------------------------------------------------- hex dumps

  /** Cell i of a row: a byte in hex or blanks, with the gap after the eighth. */
  function Cell(chunk: seq<byte>, i: nat): string {
    (if i < |chunk| then Pad(chunk[i], 16, 2) + " " else "   ") + if i == 7 then " " else ""
  }

  function Cells(chunk: seq<byte>, n: nat): string {
    if n == 0 then "" else Cells(chunk, n - 1) + Cell(chunk, n - 1)
  }

  function Gutter(b: byte): char {
    if 0x20 <= b <= 0x7e then b as char else '.'
  }

  function GutterText(chunk: seq<byte>): string {
    seq(|chunk|, i requires 0 <= i < |chunk| => Gutter(chunk[i]))
  }

  /** A row without its newline. */
  function RowText(indent: string, row: nat, chunk: seq<byte>): string {
    indent + Pad(row * 16, 16, 8) + "  " + Cells(chunk, 16) + " |" + GutterText(chunk) + "|"
  }

  /** Row number row of the dump of data. */
  function Chunk(data: seq<byte>, row: nat): seq<byte>
    requires row * 16 <= |data|
  {
    data[row * 16..Min(row * 16 + 16, |data|)]
  }

  function RowCount(n: nat): nat {
    (n + 15) / 16
  }

  function Rows(data: seq<byte>, indent: string, n: nat): string
    requires n <= RowCount(|data|)
  {
    if n == 0 then "" else Rows(data, indent, n - 1) + (RowText(indent, n - 1, Chunk(data, n - 1)) + "\n")
  }

  function Trailer(indent: string, more: nat): string {
    indent + "... " + Digits(more, 10) + " more bytes"
  }

  /** The dump of data, cut after max bytes: its rows and, when it is cut, a trailer. */
  ghost function Rendered(data: seq<byte>, max: nat, indent: string): string {
    var limit := Limit(|data|, max);
    Rows(data[..limit], indent, RowCount(limit))
      + if limit < |data| then Trailer(indent, |data| - limit) + "\n" else ""
  }

  /** The cells of one row. */
  method RenderCells(chunk: seq<byte>) returns (line: string)
    ensures line == Cells(chunk, 16)
  {
    line := "";
    for i := 0 to 16
      invariant line == Cells(chunk, i)
    {
      ghost var before := line;
      if i < |chunk| {
        line := line + (Pad(chunk[i], 16, 2) + " ");
      } else {
        line := line + "   ";
      }
      if i == 7 {
        line := line + " ";
      }
      assert line == before + Cell(chunk, i);
    }
  }

  method RenderGutter(chunk: seq<byte>) returns (line: string)
    ensures line == GutterText(chunk)
  {
    line := "";
    for i := 0 to |chunk|
      invariant line == GutterText(chunk)[..i]
    {
      line := line + [Gutter(chunk[i])];
    }
  }

  method Render(data: seq<byte>, max: nat, indent: string) returns (out: string)
    ensures out == Rendered(data, max, indent)
  {
    hide GutterText, Cells, Pad, Digits;
    var limit := Limit(|data|, max);
    var shown := data[..limit];
    out := "";
    for row := 0 to RowCount(limit)
      invariant out == Rows(shown, indent, row)
    {
      var chunk := Chunk(shown, row);
      var cells := RenderCells(chunk);
      var gutter := RenderGutter(chunk);
      out := out + (indent + Pad(row * 16, 16, 8) + "  " + cells + " |" + gutter + "|" + "\n");
    }
    if limit < |data| {
      out := out + (Trailer(indent, |data| - limit) + "\n");
    } else {
      out := out + "";
    }
  }
}
