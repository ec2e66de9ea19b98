// Shared value types and the text renderings that printf/strftime produce
// for the conversions the modelled code uses (%d, %u, %02d, %03d, %02x).

module Common {

  /** An octet, as uint8_t. */
  newtype byte = x: int | 0 <= x < 256

  datatype Option<T> = None | Some(value: T)

  const DecimalDigits: string := "0123456789"
  const LowerHexDigits: string := "0123456789abcdef"

  predicate IsDigit(c: char) {
    '0' <= c <= '9'
  }

  predicate AllDigits(s: string) {
    forall i :: 0 <= i < |s| ==> IsDigit(s[i])
  }

  function DigitChar(d: nat): (c: char)
    requires d < 10
    ensures IsDigit(c) && (c as int) - ('0' as int) == d
  {
    DecimalDigits[d]
  }

  function DigitValue(c: char): nat
    requires IsDigit(c)
  {
    (c as int) - ('0' as int)
  }

  /** Decimal rendering of a non-negative number, as "%d" / "%u" print it. */
  function Dec(n: nat): (s: string)
    ensures 1 <= |s| && AllDigits(s)
  {
    if n < 10 then [DigitChar(n)] else Dec(n / 10) + [DigitChar(n % 10)]
  }

  /** Value of a string of decimal digits (the inverse of Dec). */
  function ParseDec(s: string): nat
    requires AllDigits(s)
  {
    if |s| == 0 then 0 else ParseDec(s[..|s| - 1]) * 10 + DigitValue(s[|s| - 1])
  }

  lemma {:induction false} DecRoundTrip(n: nat)
    ensures ParseDec(Dec(n)) == n
  {
    if n >= 10 {
      var s := Dec(n);
      assert s[..|s| - 1] == Dec(n / 10);
      DecRoundTrip(n / 10);
    }
  }

  lemma DecInjective(a: nat, b: nat)
    requires Dec(a) == Dec(b)
    ensures a == b
  {
    DecRoundTrip(a);
    DecRoundTrip(b);
  }

  function Repeat(c: char, n: nat): (s: string)
    ensures |s| == n && forall i :: 0 <= i < n ==> s[i] == c
  {
    if n == 0 then [] else [c] + Repeat(c, n - 1)
  }

  /** "%0<w>d" for a non-negative value: Dec(n), zero-padded on the left to width w. */
  function ZeroPadDec(n: nat, w: nat): (s: string)
    ensures AllDigits(s)
    ensures |s| == if |Dec(n)| < w then w else |Dec(n)|
  {
    var d := Dec(n);
    if |d| < w then Repeat('0', w - |d|) + d else d
  }

  lemma {:induction false} ParseDecLeadingZeros(k: nat, s: string)
    requires AllDigits(s)
    ensures AllDigits(Repeat('0', k) + s)
    ensures ParseDec(Repeat('0', k) + s) == ParseDec(s)
  {
    if |s| > 0 {
      var t := Repeat('0', k) + s;
      assert t[..|t| - 1] == Repeat('0', k) + s[..|s| - 1];
      ParseDecLeadingZeros(k, s[..|s| - 1]);
    } else {
      assert Repeat('0', k) + s == Repeat('0', k);
      ParseDecZeros(k);
    }
  }

  lemma {:induction false} ParseDecZeros(k: nat)
    ensures AllDigits(Repeat('0', k)) && ParseDec(Repeat('0', k)) == 0
  {
    if k > 0 {
      var z := Repeat('0', k);
      assert z[..|z| - 1] == Repeat('0', k - 1);
      ParseDecZeros(k - 1);
    }
  }

  lemma ZeroPadDecRoundTrip(n: nat, w: nat)
    ensures ParseDec(ZeroPadDec(n, w)) == n
  {
    DecRoundTrip(n);
    if |Dec(n)| < w {
      ParseDecLeadingZeros(w - |Dec(n)|, Dec(n));
    }
  }

  predicate IsLowerHexDigit(c: char) {
    '0' <= c <= '9' || 'a' <= c <= 'f'
  }

  /** The value of a lower-case hexadecimal digit. */
  function HexDigitValue(c: char): nat
    requires IsLowerHexDigit(c)
  {
    if c <= '9' then (c as int) - ('0' as int) else (c as int) - ('a' as int) + 10
  }

  lemma HexDigitReadsBack(d: nat)
    requires d < 16
    ensures IsLowerHexDigit(LowerHexDigits[d]) && HexDigitValue(LowerHexDigits[d]) == d
  {
  }

  /** Two lower-case hexadecimal digits, high nibble first, as "%02x" prints a byte. */
  function Hex2(b: byte): (s: string)
    ensures |s| == 2
  {
    [LowerHexDigits[b as int / 16], LowerHexDigits[b as int % 16]]
  }

  /** The two digits of Hex2 are lower-case hexadecimal digits that read back as the byte. */
  lemma Hex2ReadsBack(b: byte)
    ensures var s := Hex2(b);
            IsLowerHexDigit(s[0]) && IsLowerHexDigit(s[1])
            && HexDigitValue(s[0]) * 16 + HexDigitValue(s[1]) == b as int
  {
    HexDigitReadsBack(b as int / 16);
    HexDigitReadsBack(b as int % 16);
  }

  function Pow2(n: nat): (p: nat)
    ensures p >= 1
  {
    if n == 0 then 1 else 2 * Pow2(n - 1)
  }

  /** n >> i for a non-negative n. */
  function Shr(n: nat, i: nat): nat {
    if i == 0 then n else Shr(n / 2, i - 1)
  }

  /** Bit i of n: (n >> i) & 1. */
  predicate Bit(n: nat, i: nat) {
    Shr(n, i) % 2 == 1
  }

  /** Distinct bytes print as distinct "%02x" texts. */
  lemma Hex2Injective(a: byte, b: byte)
    requires Hex2(a) == Hex2(b)
    ensures a == b
  {
    Hex2ReadsBack(a);
    Hex2ReadsBack(b);
  }

  /** An entry of a libacars la_dict table. */
  datatype DictEntry = DictEntry(id: int, val: string)

  /** la_dict_search: the value of the first entry with the given id. The
      table's terminating { 0, NULL } entry is not part of the sequence. */
  function DictSearch(dict: seq<DictEntry>, id: int): (r: Option<string>)
    ensures r.Some? <==> exists k :: 0 <= k < |dict| && dict[k].id == id
    ensures r.Some? ==> exists k :: 0 <= k < |dict| && dict[k].id == id && dict[k].val == r.value
  {
    if |dict| == 0 then None
    else if dict[0].id == id then Some(dict[0].val)
    else
      var r := DictSearch(dict[1..], id);
      assert forall k :: 1 <= k < |dict| ==> dict[k] == dict[1..][k - 1];
      r
  }

  /** Leading white space for a nesting level, one space per level. */
  function Indent(level: nat): string
  {
    Repeat(' ', level)
  }

  /** The elements of `parts` separated by `sep`. */
  function Join(parts: seq<string>, sep: string): string
  {
    if |parts| == 0 then ""
    else if |parts| == 1 then parts[0]
    else parts[0] + sep + Join(parts[1..], sep)
  }

  /** The concatenation of the elements of `parts`. */
  function Concat(parts: seq<string>): string
  {
    if |parts| == 0 then "" else parts[0] + Concat(parts[1..])
  }
}
