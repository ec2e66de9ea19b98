// The human-readable text formatter: the timestamp with its optional
// milliseconds, and the header line that precedes a decoded message.
//
// The calendar conversion (gmtime/localtime followed by strftime) is a
// parameter; libacars' la_proto_tree_format_text is represented by the text
// it returns.

module FmtrText {
  import opened Common
  import opened OutputCommon

  /** fmtr_text_supports_data_type. */
  function SupportsDataType(t: FmtrInputType): (b: bool)
    ensures b <==> HasFormatter(FmtrDefText, t)
  {
    t == FmtrIntypeDecodedFrame
  }

  /** fmtr_descriptor_t: which formatting routines are set. */
  datatype FmtrDescriptor = FmtrDescriptor(name: string, description: string,
    hasFormatDecodedMsg: bool, hasFormatRawMsg: bool, outputFormat: OutputFormat)

  const FmtrDefText: FmtrDescriptor :=
    FmtrDescriptor("text", "Human readable text", true, false, OfmtText)

  /** Whether the descriptor has a routine for that kind of input. */
  predicate HasFormatter(d: FmtrDescriptor, t: FmtrInputType) {
    (t == FmtrIntypeDecodedFrame && d.hasFormatDecodedMsg) || (t == FmtrIntypeRawFrame && d.hasFormatRawMsg)
  }

  /** The text formatter accepts exactly the input it has a routine for. */
  lemma SupportedIffFormatter(t: FmtrInputType)
    ensures SupportsDataType(t) <==> HasFormatter(FmtrDefText, t)
  {
  }

  // ---------------------------------------------------------------------------
  // format_timestamp

  /** struct timeval. */
  datatype Timeval = Timeval(sec: int, usec: int)

  /** round(usec / 1000.0): to the nearest millisecond, halves away from
      zero. */
  function RoundMillis(usec: int): (m: int)
    ensures usec >= 0 ==> m >= 0 && -500 <= usec - 1000 * m < 500
    ensures usec < 0 ==> m <= 0 && -500 < usec - 1000 * m <= 500
  {
    if usec >= 0 then (usec + 500) / 1000 else -((500 - usec) / 1000)
  }

  /** The seconds handed to the calendar conversion and the milliseconds to
      print: a rounded value above 999 is carried into the seconds. With
      milliseconds off, millis stays 0 and the seconds are unchanged. */
  datatype Stamp = Stamp(sec: int, millis: int)

  function CarryMillis(tv: Timeval, milliseconds: bool): Stamp {
    if !milliseconds then Stamp(tv.sec, 0)
    else
      var m := RoundMillis(tv.usec);
      if m > 999 then Stamp(tv.sec + 1, m - 1000) else Stamp(tv.sec, m)
  }

  /** For a normalised timeval the milliseconds are in 0..999, the printed
      instant is the timestamp rounded to the nearest millisecond, and the
      carry happens exactly from 999.5 ms on. */
  lemma CarryMillisCorrect(tv: Timeval)
    requires 0 <= tv.usec < 1000000
    ensures var s := CarryMillis(tv, true);
      0 <= s.millis <= 999 &&
      -500 <= (tv.sec * 1000000 + tv.usec) - (s.sec * 1000000 + s.millis * 1000) < 500
    ensures CarryMillis(tv, true).sec == tv.sec + 1 <==> tv.usec >= 999500
    ensures CarryMillis(tv, true).sec == tv.sec || CarryMillis(tv, true).sec == tv.sec + 1
  {
  }

  /** Without milliseconds the seconds are printed as they are. */
  lemma NoMillisNoCarry(tv: Timeval)
    ensures CarryMillis(tv, false) == Stamp(tv.sec, 0)
  {
  }

  /** "%03d": at least three digits, zero-padded; a negative value gets its
      sign in front of the zero padding. */
  function Dec03(n: int): string {
    if n >= 0 then ZeroPadDec(n, 3) else "-" + ZeroPadDec(-n, 2)
  }

  /** The result of strftime("%F %T") and strftime("%Z") on the broken-down
      time of the given seconds, in UTC or local time. */
  type Clock = (int, bool) -> (string, string)

  /** format_timestamp. */
  function FormatTimestamp(tv: Timeval, milliseconds: bool, utc: bool, clock: Clock): string {
    var s := CarryMillis(tv, milliseconds);
    var (dateTime, zone) := clock(s.sec, utc);
    dateTime + (if milliseconds then "." + Dec03(s.millis) else "") + " " + zone
  }

  /** format_timestamp as the code builds it: successive appends to a
      growing string. */
  method BuildTimestamp(tv: Timeval, milliseconds: bool, utc: bool, clock: Clock) returns (vstr: string)
    ensures vstr == FormatTimestamp(tv, milliseconds, utc, clock)
  {
    var sec := tv.sec;
    var millis := 0;
    if milliseconds {
      millis := RoundMillis(tv.usec);
      if millis > 999 {
        millis := millis - 1000;
        sec := sec + 1;
      }
    }
    assert Stamp(sec, millis) == CarryMillis(tv, milliseconds);
    var (tbuf, tzbuf) := clock(sec, utc);
    vstr := "";
    vstr := vstr + tbuf;
    if milliseconds {
      vstr := vstr + "." + Dec03(millis);
    }
    vstr := vstr + " " + tzbuf;
  }

  lemma DecBelow1000(n: nat)
    requires n < 1000
    ensures |Dec(n)| <= 3
  {
    if n >= 10 {
      var q := n / 10;
      assert q < 100;
      assert |Dec(n)| == |Dec(q)| + 1;
      if q >= 10 {
        assert q / 10 < 10;
        assert |Dec(q)| == |Dec(q / 10)| + 1;
      }
    }
  }

  /** With milliseconds on, a normalised timestamp prints as the date and
      time, a dot, exactly three digits that read back as the milliseconds,
      then the zone; with them off, as the date and time and the zone. */
  lemma TimestampLayout(tv: Timeval, utc: bool, clock: Clock)
    requires 0 <= tv.usec < 1000000
    ensures var s := CarryMillis(tv, true);
      var digits := ZeroPadDec(s.millis, 3);
      |digits| == 3 && AllDigits(digits) && ParseDec(digits) == s.millis &&
      FormatTimestamp(tv, true, utc, clock) == clock(s.sec, utc).0 + "." + digits + " " + clock(s.sec, utc).1
    ensures FormatTimestamp(tv, false, utc, clock) == clock(tv.sec, utc).0 + " " + clock(tv.sec, utc).1
  {
    var s := CarryMillis(tv, true);
    MillisInRange(tv);
    DecBelow1000(s.millis);
    ZeroPadDecRoundTrip(s.millis, 3);
    assert Dec03(s.millis) == ZeroPadDec(s.millis, 3);
  }

  lemma MillisInRange(tv: Timeval)
    requires 0 <= tv.usec < 1000000
    ensures 0 <= CarryMillis(tv, true).millis <= 999
  {
    CarryMillisCorrect(tv);
  }

  // ---------------------------------------------------------------------------
  // fmtr_text_format_decoded_msg

  /** metadata->freq is a uint32_t. */
  const FREQ_MODULUS: nat := 0x1_0000_0000

  /** The header line: the frequency in whole kHz, then EOL, here "\n". */
  function Header(freq: nat): string
    requires freq < FREQ_MODULUS
  {
    "[" + Dec(freq / 1000) + " kHz]" + "\n"
  }

  /** The decoded message: the header, then the protocol tree's text. */
  function FormatDecodedMsg(freq: nat, treeText: string): string
    requires freq < FREQ_MODULUS
  {
    Header(freq) + treeText
  }

  /** fmtr_text_format_decoded_msg as the code builds it. */
  method BuildDecodedMsg(freq: nat, treeText: string) returns (ret: string)
    requires freq < FREQ_MODULUS
    ensures ret == FormatDecodedMsg(freq, treeText)
  {
    var vstr := "";
    vstr := vstr + "[" + Dec(freq / 1000) + " kHz]";
    vstr := vstr + "\n";
    vstr := vstr + treeText;
    ret := vstr;
  }

  /** The message starts with a bracketed decimal number that reads back as
      the frequency in kHz, rounded down and small enough for "%d", and the
      tree's text follows the header line unchanged. */
  lemma DecodedMsgLayout(freq: nat, treeText: string)
    requires freq < FREQ_MODULUS
    ensures var msg := FormatDecodedMsg(freq, treeText);
      var k := |Dec(freq / 1000)|;
      |msg| == k + 7 + |treeText| &&
      msg[0] == '[' && AllDigits(msg[1..k + 1]) && ParseDec(msg[1..k + 1]) == freq / 1000 &&
      msg[k + 1..k + 7] == " kHz]\n" && msg[k + 7..] == treeText
    ensures freq / 1000 < 0x8000_0000
    ensures freq / 1000 * 1000 <= freq < freq / 1000 * 1000 + 1000
  {
    var msg := FormatDecodedMsg(freq, treeText);
    var d := Dec(freq / 1000);
    assert msg == "[" + d + " kHz]\n" + treeText;
    assert msg[1..|d| + 1] == d;
    DecRoundTrip(freq / 1000);
  }
}
