// LPDU (link protocol data unit): classification by the type byte, and the
// type line of the text rendering.

module Lpdu {
  import opened Common
  import Util

  const UNNUMBERED_DATA: byte := 0x0D
  const UNNUMBERED_ACK_DATA: byte := 0x1D
  const LOGON_DENIED: byte := 0x2F
  const LOGOFF_REQUEST: byte := 0x3F
  const LOGON_RESUME_CONFIRM: byte := 0x5F
  const LOGON_RESUME: byte := 0x4F
  const LOGON_REQUEST_NORMAL: byte := 0x8F
  const LOGON_CONFIRM: byte := 0x9F
  const LOGON_REQUEST_DLS: byte := 0xBF

  const TypeDescriptions: seq<DictEntry> := [
    DictEntry(UNNUMBERED_DATA as int, "Unnumbered data"),
    DictEntry(UNNUMBERED_ACK_DATA as int, "Unnumbered acknowledged data"),
    DictEntry(LOGON_DENIED as int, "Logon denied"),
    DictEntry(LOGOFF_REQUEST as int, "Logoff request"),
    DictEntry(LOGON_RESUME_CONFIRM as int, "Logon resume confirm"),
    DictEntry(LOGON_RESUME as int, "Logon resume"),
    DictEntry(LOGON_REQUEST_NORMAL as int, "Logon request (normal)"),
    DictEntry(LOGON_CONFIRM as int, "Logon confirm"),
    DictEntry(LOGON_REQUEST_DLS as int, "Logon request (DLS)")]

  /** The case labels of the switch in lpdu_parse. */
  predicate KnownType(t: byte) {
    t in {UNNUMBERED_DATA, UNNUMBERED_ACK_DATA, LOGON_DENIED, LOGOFF_REQUEST,
          LOGON_RESUME_CONFIRM, LOGON_RESUME, LOGON_REQUEST_NORMAL, LOGON_CONFIRM, LOGON_REQUEST_DLS}
  }

  /** struct hfdl_lpdu and its node. The MPDU header (struct hfdl_pdu_hdr_data)
      is carried as an opaque value H. unknown_proto_pdu_new is not part of
      this model; hasUnknownChild records that it was chained over the whole
      buffer. */
  datatype Lpdu<H> = Lpdu(pdu: seq<byte>, mpduHeader: H, lpduType: byte, hasUnknownChild: bool)

  /** lpdu_parse: an unknown-protocol child is chained exactly for the type
      bytes the description table has no name for. */
  function Parse<H>(buf: seq<byte>, mpduHeader: H): (r: Lpdu<H>)
    requires |buf| > 0
    ensures r.pdu == buf && r.mpduHeader == mpduHeader && r.lpduType == buf[0]
    ensures r.hasUnknownChild <==> DictSearch(TypeDescriptions, buf[0] as int).None?
  {
    DescribedIffKnown(buf[0]);
    Lpdu(buf, mpduHeader, buf[0], !KnownType(buf[0]))
  }

  /** lpdu_format_text. Config.output_raw_frames is a parameter; the hexdump
      has no length guard here because a parsed LPDU is never empty. */
  function FormatText<H>(l: Lpdu<H>, indent: nat, outputRawFrames: bool): string {
    (if outputRawFrames then Util.HexdumpWithIndent(l.pdu, indent + 1) else "")
    + TypeLine(l.lpduType, indent)
  }

  function TypeLine(t: byte, indent: nat): string {
    match DictSearch(TypeDescriptions, t as int)
    case Some(d) => Indent(indent) + d + ":\n"
    case None => Indent(indent) + "Unknown LPDU type (0x" + Hex2(t) + "):\n"
  }

  /** The switch and the description table name the same nine types. */
  lemma DescribedIffKnown(t: byte)
    ensures DictSearch(TypeDescriptions, t as int).Some? <==> KnownType(t)
  {
    if KnownType(t) {
      var k := if t == UNNUMBERED_DATA then 0 else if t == UNNUMBERED_ACK_DATA then 1
        else if t == LOGON_DENIED then 2 else if t == LOGOFF_REQUEST then 3
        else if t == LOGON_RESUME_CONFIRM then 4 else if t == LOGON_RESUME then 5
        else if t == LOGON_REQUEST_NORMAL then 6 else if t == LOGON_CONFIRM then 7 else 8;
      assert TypeDescriptions[k].id == t as int;
    } else {
      assert forall k :: 0 <= k < |TypeDescriptions| ==> TypeDescriptions[k].id != t as int;
    }
  }

  /** No description in the table starts like the unknown-type line: the
      third character of every description is not 'k'. */
  lemma DescriptionsNotUnknown(id: int)
    ensures var r := DictSearch(TypeDescriptions, id);
      r.Some? ==> |r.value| > 2 && r.value[2] != 'k'
  {
    assert forall k :: 0 <= k < |TypeDescriptions| ==>
      |TypeDescriptions[k].val| > 2 && TypeDescriptions[k].val[2] != 'k';
  }

  /** The text of the type line after its indentation. */
  function TypeText(t: byte, indent: nat): string
  {
    TypeLine(t, indent)[|Indent(indent)|..]
  }

  /** The type line is its indentation followed by the text that names the type. */
  lemma TypeLineSplit(t: byte, indent: nat, x: string)
    requires TypeLine(t, indent) == Indent(indent) + x
    ensures TypeText(t, indent) == x
  {
  }

  /** A text whose third character is not 'k' does not begin "Unknown LPDU type". */
  lemma NotUnknownPrefix(y: string)
    requires |y| > 2 && y[2] != 'k'
    ensures !("Unknown LPDU type" <= y)
  {
    assert "Unknown LPDU type"[2] == 'k';
  }

  /** A named type prints its description followed by a colon. */
  lemma KnownTypeLine(t: byte, indent: nat, d: string)
    requires DictSearch(TypeDescriptions, t as int) == Some(d)
    ensures TypeLine(t, indent) == Indent(indent) + (d + ":\n")
  {
  }

  /** A named type's line does not begin "Unknown LPDU type". */
  lemma KnownTypeText(t: byte, indent: nat)
    requires DictSearch(TypeDescriptions, t as int).Some?
    ensures TypeLine(t, indent) == Indent(indent) + DictSearch(TypeDescriptions, t as int).value + ":\n"
    ensures !("Unknown LPDU type" <= TypeText(t, indent))
  {
    var d := DictSearch(TypeDescriptions, t as int).value;
    DescriptionsNotUnknown(t as int);
    KnownTypeLine(t, indent, d);
    TypeLineSplit(t, indent, d + ":\n");
    assert (d + ":\n")[2] == d[2];
    NotUnknownPrefix(d + ":\n");
  }

  /** An unnamed type's line begins "Unknown LPDU type". */
  lemma UnknownTypeText(t: byte, indent: nat)
    requires DictSearch(TypeDescriptions, t as int).None?
    ensures TypeLine(t, indent) == Indent(indent) + "Unknown LPDU type (0x" + Hex2(t) + "):\n"
    ensures "Unknown LPDU type" <= TypeText(t, indent)
  {
    var prefix := "Unknown LPDU type";
    var x := prefix + " (0x" + Hex2(t) + "):\n";
    assert TypeLine(t, indent) == Indent(indent) + x;
    TypeLineSplit(t, indent, x);
    assert x[..|prefix|] == prefix;
  }

  /** A parsed LPDU has an unknown-protocol child exactly when its type line
      begins "Unknown LPDU type"; that line names the type byte, and a known
      type prints its description followed by a colon. */
  lemma UnknownChildIffUnknownLine<H>(buf: seq<byte>, h: H, indent: nat)
    requires |buf| > 0
    ensures var l := Parse(buf, h);
      l.hasUnknownChild <==> "Unknown LPDU type" <= TypeText(l.lpduType, indent)
    ensures var l := Parse(buf, h);
      l.hasUnknownChild ==> TypeLine(l.lpduType, indent) == Indent(indent) + "Unknown LPDU type (0x" + Hex2(buf[0]) + "):\n"
    ensures var l := Parse(buf, h);
      !l.hasUnknownChild ==> TypeLine(l.lpduType, indent) == Indent(indent) + DictSearch(TypeDescriptions, buf[0] as int).value + ":\n"
  {
    if DictSearch(TypeDescriptions, buf[0] as int).Some? {
      KnownTypeText(buf[0], indent);
    } else {
      UnknownTypeText(buf[0], indent);
    }
  }
}
