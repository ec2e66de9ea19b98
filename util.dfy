// Byte-buffer helpers: the hexdump text block, octet string copies and the
// decoder of 24-bit ICAO addresses.

module Util {
  import opened Common

  // ---------------------------------------------------------------------------
  // hexdump: 16 bytes per row, a hex column and an ASCII column

  /** The ASCII column shows printable bytes (32..126) as themselves and the others as '.'. */
  function AsciiChar(b: byte): char {
    if b < 32 || b > 126 then '.' else (b as int) as char
  }

  /** The hex-column entry for byte index j, the k-th of its row: two lower-case
      digits (two spaces past the end), a space, and one more space after the
      eighth entry. */
  function HexCell(data: seq<byte>, j: nat, k: nat): string {
    HexEntry(data, j) + (if k == 7 then " " else "")
  }

  /** Two lower-case digits of byte j (two spaces past the end) and a space. */
  function HexEntry(data: seq<byte>, j: nat): (s: string)
    ensures |s| == 3
  {
    (if j < |data| then Hex2(data[j]) else "  ") + " "
  }

  /** The ASCII-column entry for byte index j, the k-th of its row. */
  function AsciiCell(data: seq<byte>, j: nat, k: nat): string {
    (if j < |data| then [AsciiChar(data[j])] else " ") + (if k == 7 then " " else "")
  }

  /** The first n hex entries of the row that starts at byte i. */
  function HexCells(data: seq<byte>, i: nat, n: nat): string {
    if n == 0 then "" else HexCells(data, i, n - 1) + HexCell(data, i + n - 1, n - 1)
  }

  /** The first n ASCII entries of the row that starts at byte i. */
  function AsciiCells(data: seq<byte>, i: nat, n: nat): string {
    if n == 0 then "" else AsciiCells(data, i, n - 1) + AsciiCell(data, i + n - 1, n - 1)
  }

  /** The row for bytes i .. i+15. */
  function Row(data: seq<byte>, i: nat): string {
    HexCells(data, i, 16) + " |" + AsciiCells(data, i, 16) + "|\n"
  }

  /** The first n rows. */
  function Rows(data: seq<byte>, n: nat): string {
    if n == 0 then "" else Rows(data, n - 1) + Row(data, 16 * (n - 1))
  }

  /** len / 16, plus one when len is not a multiple of 16. */
  function RowCount(len: nat): nat {
    len / 16 + (if len % 16 != 0 then 1 else 0)
  }

  /** The string hexdump returns; None is NULL data. */
  function HexdumpText(data: Option<seq<byte>>): string {
    match data
    case None => "<undef>"
    case Some(d) => if |d| == 0 then "<none>" else Rows(d, RowCount(|d|))
  }

  /** Offset of hex entry k within a row. */
  function HexPos(k: nat): nat {
    3 * k + (if k >= 8 then 1 else 0)
  }

  /** Offset of ASCII entry k within a row. */
  function AsciiPos(k: nat): nat {
    51 + k + (if k >= 8 then 1 else 0)
  }

  lemma {:induction false} HexCellsLength(data: seq<byte>, i: nat, n: nat)
    requires n <= 16
    ensures |HexCells(data, i, n)| == HexPos(n)
  {
    if n > 0 {
      HexCellsLength(data, i, n - 1);
    }
  }

  lemma {:induction false} AsciiCellsLength(data: seq<byte>, i: nat, n: nat)
    requires n <= 16
    ensures |AsciiCells(data, i, n)| == n + (if n >= 8 then 1 else 0)
  {
    if n > 0 {
      AsciiCellsLength(data, i, n - 1);
    }
  }

  /** The three characters of e at position pos of s. */
  predicate EntryAt(s: string, pos: nat, e: string)
    requires |e| == 3
  {
    pos + 3 <= |s| && s[pos] == e[0] && s[pos + 1] == e[1] && s[pos + 2] == e[2]
  }

  /** Appending text keeps an entry where it was. */
  lemma EntryAtAppend(p: string, c: string, pos: nat, e: string)
    requires |e| == 3 && EntryAt(p, pos, e)
    ensures EntryAt(p + c, pos, e)
  {
  }

  /** An entry at the head of the appended text sits at the old length. */
  lemma EntryAtJoin(p: string, c: string, e: string)
    requires |e| == 3 && EntryAt(c, 0, e)
    ensures EntryAt(p + c, |p|, e)
  {
  }

  lemma HexCellHead(data: seq<byte>, j: nat, k: nat)
    ensures EntryAt(HexCell(data, j, k), 0, HexEntry(data, j))
  {
    var e := HexEntry(data, j);
    assert HexCell(data, j, k) == e + (if k == 7 then " " else "");
  }

  /** Entry k of the hex column sits at HexPos(k), whatever the entries after it. */
  lemma {:induction false} HexCellsAt(data: seq<byte>, i: nat, n: nat, k: nat)
    requires k < n <= 16
    ensures EntryAt(HexCells(data, i, n), HexPos(k), HexEntry(data, i + k))
  {
    var p := HexCells(data, i, n - 1);
    var c := HexCell(data, i + n - 1, n - 1);
    assert HexCells(data, i, n) == p + c;
    if k < n - 1 {
      HexCellsAt(data, i, n - 1, k);
      EntryAtAppend(p, c, HexPos(k), HexEntry(data, i + k));
    } else {
      HexCellsLength(data, i, n - 1);
      var e := HexEntry(data, i + k);
      HexCellHead(data, i + k, k);
      EntryAtJoin(p, c, e);
    }
  }

  /** Entry k of the ASCII column sits at offset k (k + 1 after the extra space). */
  lemma {:induction false} AsciiCellsAt(data: seq<byte>, i: nat, n: nat, k: nat)
    requires k < n <= 16
    ensures k + (if k >= 8 then 1 else 0) < |AsciiCells(data, i, n)|
    ensures AsciiCells(data, i, n)[k + (if k >= 8 then 1 else 0)] == AsciiCell(data, i + k, k)[0]
  {
    AsciiCellsLength(data, i, n);
    AsciiCellsLength(data, i, n - 1);
    if k < n - 1 {
      AsciiCellsAt(data, i, n - 1, k);
    }
  }

  /** Every row is 70 characters and ends in "|\n"; the hex column is followed
      by " |" at offsets 49 and 50. */
  lemma RowShape(data: seq<byte>, i: nat)
    ensures |Row(data, i)| == 70
    ensures Row(data, i)[49..51] == " |" && Row(data, i)[68..] == "|\n"
  {
    HexCellsLength(data, i, 16);
    AsciiCellsLength(data, i, 16);
  }

  /** The hex entry of byte i+k: its two lower-case digits, high nibble first
      (two spaces past the end of the data), and a space. */
  lemma RowHexAt(data: seq<byte>, i: nat, k: nat)
    requires k < 16
    ensures EntryAt(Row(data, i), HexPos(k), HexEntry(data, i + k))
  {
    var hex := HexCells(data, i, 16);
    var tail := " |" + AsciiCells(data, i, 16) + "|\n";
    HexCellsAt(data, i, 16, k);
    EntryAtAppend(hex, tail, HexPos(k), HexEntry(data, i + k));
    assert Row(data, i) == hex + tail;
  }

  /** The ASCII entry of byte i+k (a space past the end of the data). */
  lemma RowAsciiAt(data: seq<byte>, i: nat, k: nat)
    requires k < 16
    ensures AsciiPos(k) < 70 == |Row(data, i)|
    ensures Row(data, i)[AsciiPos(k)] == if i + k < |data| then AsciiChar(data[i + k]) else ' '
  {
    RowShape(data, i);
    HexCellsLength(data, i, 16);
    AsciiCellsAt(data, i, 16, k);
  }

  lemma {:induction false} RowsLength(data: seq<byte>, n: nat)
    ensures |Rows(data, n)| == 70 * n
  {
    if n > 0 {
      RowsLength(data, n - 1);
      RowShape(data, 16 * (n - 1));
    }
  }

  /** RowCount is the ceiling of len / 16: enough rows for every byte, none empty. */
  lemma RowCountCeil(len: nat)
    ensures 16 * RowCount(len) >= len
    ensures len > 0 ==> 16 * (RowCount(len) - 1) < len
  {
  }

  /** Row r holds data exactly when it is one of the RowCount(len) rows. */
  lemma RowsNeeded(len: nat, r: nat)
    ensures 16 * r < len <==> r < RowCount(len)
  {
    RowCountCeil(len);
  }

  /** A non-empty dump has 70 characters per row, which fits the 74 bytes per
      row (plus the terminating NUL) that hexdump allocates. */
  lemma HexdumpFits(d: seq<byte>)
    requires |d| > 0
    ensures |HexdumpText(Some(d))| == 70 * RowCount(|d|)
    ensures |HexdumpText(Some(d))| + 1 <= RowCount(|d|) * 74 + 1
  {
    RowsLength(d, RowCount(|d|));
  }

  /** hexdump: writes the rows, entry by entry. */
  method Hexdump(data: Option<seq<byte>>) returns (s: string)
    ensures s == HexdumpText(data)
  {
    if data.None? {
      return "<undef>";
    }
    var d := data.value;
    if |d| == 0 {
      return "<none>";
    }
    var rows := |d| / 16;
    if |d| % 16 != 0 {
      rows := rows + 1;
    }
    s := DumpRows(d, rows);
  }

  /** The outer loop of hexdump, one row of 16 bytes per iteration. */
  method DumpRows(d: seq<byte>, rows: nat) returns (s: string)
    requires rows == RowCount(|d|)
    ensures s == Rows(d, rows)
  {
    s := "";
    var i := 0;
    ghost var r := 0;
    while i < |d|
      invariant i == 16 * r && r <= rows
      invariant s == Rows(d, r)
      decreases |d| - i
    {
      RowsNeeded(|d|, r);
      var row := DumpRow(d, i);
      assert Rows(d, r + 1) == s + row;
      s := s + row;
      i := i + 16;
      r := r + 1;
    }
    RowsNeeded(|d|, r);
  }

  /** One iteration of the outer loop: the row at byte i. */
  method DumpRow(d: seq<byte>, i: nat) returns (row: string)
    ensures row == Row(d, i)
  {
    var hex := HexColumn(d, i);
    var ascii := AsciiColumn(d, i);
    row := "";
    row := row + hex;
    row := row + " |";
    row := row + ascii;
    row := row + "|\n";
    assert row == hex + " |" + ascii + "|\n";
  }

  /** The first inner loop of hexdump: the hex column of the row at byte i. */
  method HexColumn(d: seq<byte>, i: nat) returns (col: string)
    ensures col == HexCells(d, i, 16)
  {
    col := "";
    var j := i;
    while j < i + 16
      invariant i <= j <= i + 16
      invariant col == HexCells(d, i, j - i)
    {
      var cell := if j < |d| then [LowerHexDigits[d[j] as int / 16], LowerHexDigits[d[j] as int % 16]]
                  else "  ";
      cell := cell + " ";
      assert cell == HexEntry(d, j);
      if j == i + 7 {
        cell := cell + " ";
      }
      assert cell == HexCell(d, j, j - i);
      assert HexCells(d, i, j + 1 - i) == col + cell;
      col := col + cell;
      j := j + 1;
    }
  }

  /** The second inner loop of hexdump: the ASCII column of the row at byte i. */
  method AsciiColumn(d: seq<byte>, i: nat) returns (col: string)
    ensures col == AsciiCells(d, i, 16)
  {
    col := "";
    var j := i;
    while j < i + 16
      invariant i <= j <= i + 16
      invariant col == AsciiCells(d, i, j - i)
    {
      var cell := if j < |d| then [AsciiChar(d[j])] else " ";
      if j == i + 7 {
        cell := cell + " ";
      }
      assert cell == AsciiCell(d, j, j - i);
      col := col + cell;
      j := j + 1;
    }
  }

  /** The lines of text, each prefixed with `indent` spaces and terminated by
      a newline, as la_isprintf_multiline_text (libacars, outside this model)
      is taken to print them. */
  function IndentLines(indent: nat, text: string): string
    decreases |text|
  {
    if |text| == 0 then ""
    else
      var p := FirstNewline(text);
      if p == |text| then Indent(indent) + text + "\n"
      else Indent(indent) + text[..p + 1] + IndentLines(indent, text[p + 1..])
  }

  /** Index of the first '\n' in s, or |s|. */
  function FirstNewline(s: string): (p: nat)
    ensures p <= |s| && (p < |s| ==> s[p] == '\n')
    ensures forall k :: 0 <= k < p ==> s[k] != '\n'
  {
    if |s| == 0 then 0 else if s[0] == '\n' then 0 else 1 + FirstNewline(s[1..])
  }

  /** append_hexdump_with_indent: the dump, line by line, at the given indentation. */
  function HexdumpWithIndent(data: seq<byte>, indent: nat): string {
    IndentLines(indent, HexdumpText(Some(data)))
  }

  // ---------------------------------------------------------------------------
  // struct octet_string

  class OctetString {
    var buf: array?<byte>
    var len: nat

    /** octet_string_new: wraps the caller's buffer, which is not copied. */
    constructor (buf: array?<byte>, len: nat)
      ensures this.buf == buf && this.len == len
    {
      this.buf := buf;
      this.len := len;
    }

    /** octet_string_copy: same length; the bytes go to a fresh buffer when
        there are any, and otherwise the copy's buffer stays NULL. */
    method Copy() returns (c: OctetString)
      requires buf != null ==> len <= buf.Length     // memcpy reads len bytes
      ensures fresh(c) && c.len == len
      ensures buf != null && len > 0 ==> c.buf != null && fresh(c.buf) && c.buf[..] == buf[..len]
      ensures buf == null || len == 0 ==> c.buf == null
      ensures buf != null ==> buf[..] == old(buf[..])
    {
      c := new OctetString(null, len);
      if buf != null && len > 0 {
        var b := new byte[len];
        forall k | 0 <= k < len {
          b[k] := buf[k];
        }
        c.buf := b;
      }
    }
  }

  // ---------------------------------------------------------------------------
  // parse_icao_hex

  /** The lowest n bits of b in reverse order. */
  function ReverseBits(b: nat, n: nat): (r: nat)
    ensures r < Pow2(n)
  {
    if n == 0 then 0 else (b % 2) * Pow2(n - 1) + ReverseBits(b / 2, n - 1)
  }

  /** REVERSE_BYTE (a macro not part of this model), taken as the byte with
      its eight bits in reverse order. */
  function ReverseByte(b: byte): byte {
    assert Pow2(8) == 256;
    ReverseBits(b as nat, 8) as byte
  }

  /** Weight of byte i in the address: it is shifted 8 * (2 - i) bits up. */
  function IcaoWeight(i: nat): (w: nat)
    requires i < 3
    ensures w == Pow2(8 * (2 - i))
  {
    assert Pow2(8) == 256 && Pow2(16) == 65536;
    if i == 0 then 65536 else if i == 1 then 256 else 1
  }

  /** The address after the first n of the three bytes have been or-ed in.
      Each byte lands on bits of its own, so the or is a sum. */
  function IcaoPartial(buf: seq<byte>, n: nat): nat
    requires n <= 3 && |buf| >= n
  {
    if n == 0 then 0 else IcaoPartial(buf, n - 1) + ReverseByte(buf[n - 1]) as nat * IcaoWeight(n - 1)
  }

  /** The 24-bit address: the reversed bytes, first byte most significant. */
  function IcaoAddress(buf: seq<byte>): nat
    requires |buf| >= 3
  {
    ReverseByte(buf[0]) as nat * 65536 + ReverseByte(buf[1]) as nat * 256 + ReverseByte(buf[2]) as nat
  }

  /** parse_icao_hex. */
  method ParseIcaoHex(buf: seq<byte>) returns (result: nat)
    requires |buf| >= 3
    ensures result == IcaoAddress(buf)
  {
    result := 0;
    for i := 0 to 3
      invariant result == IcaoPartial(buf, i)
    {
      result := result + ReverseByte(buf[i]) as nat * IcaoWeight(i);
    }
    assert IcaoPartial(buf, 3) == IcaoAddress(buf) by {
      assert IcaoPartial(buf, 1) == ReverseByte(buf[0]) as nat * 65536;
    }
  }

  /** The address fits in 24 bits, and byte i of the buffer, reversed, is bits
      8*(2-i) .. 8*(2-i)+7 of it: the buffer can be recovered from the address. */
  lemma IcaoAddressLayout(buf: seq<byte>)
    requires |buf| >= 3
    ensures IcaoAddress(buf) < 0x100_0000
    ensures IcaoAddress(buf) / 65536 == ReverseByte(buf[0]) as nat
    ensures IcaoAddress(buf) / 256 % 256 == ReverseByte(buf[1]) as nat
    ensures IcaoAddress(buf) % 256 == ReverseByte(buf[2]) as nat
  {
    Bytes3Layout(ReverseByte(buf[0]) as nat, ReverseByte(buf[1]) as nat, ReverseByte(buf[2]) as nat);
  }

  /** Three bytes a, b, c packed as a * 2^16 + b * 2^8 + c. */
  lemma Bytes3Layout(a: nat, b: nat, c: nat)
    requires a < 256 && b < 256 && c < 256
    ensures var x := a * 65536 + b * 256 + c;
      x < 0x100_0000 && x / 65536 == a && x / 256 % 256 == b && x % 256 == c
  {
    var x := a * 65536 + b * 256 + c;
    assert x == a * 65536 + (b * 256 + c);
    assert x == 256 * (a * 256 + b) + c;
  }
}
