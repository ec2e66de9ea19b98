// HFNPDU (HF network protocol data unit): classification of the bytes that
// follow an LPDU header, and the type line of the text rendering.

module Hfnpdu {
  import opened Common

  const SYSTEM_TABLE: byte := 0xD0
  const PERFORMANCE_DATA: byte := 0xD1
  const SYSTEM_TABLE_REQUEST: byte := 0xD2
  const FREQUENCY_DATA: byte := 0xD5
  const DELAYED_ECHO: byte := 0xDE
  const ENVELOPED_DATA: byte := 0xFF
  /** The ACARS start-of-header byte that marks an enveloped ACARS message. */
  const ACARS_SOH: byte := 1

  /** len is a uint32_t. */
  const LEN_MODULUS: nat := 0x1_0000_0000

  const TypeDescriptions: seq<DictEntry> := [
    DictEntry(SYSTEM_TABLE as int, "System table"),
    DictEntry(PERFORMANCE_DATA as int, "Performance data"),
    DictEntry(SYSTEM_TABLE_REQUEST as int, "System table request"),
    DictEntry(FREQUENCY_DATA as int, "Frequency data"),
    DictEntry(DELAYED_ECHO as int, "Delayed echo"),
    DictEntry(ENVELOPED_DATA as int, "Enveloped data")]

  /** enum hfdl_pdu_direction, as far as this code tells its values apart. */
  datatype PduDirection = UplinkPdu | DownlinkPdu

  /** la_msg_dir handed to the ACARS decoder. */
  datatype MsgDir = Gnd2Air | Air2Gnd

  /** An address and a length into the caller's buffer: buf + start, length bytes. */
  datatype Region = Region(start: nat, length: nat)

  /** What the node's next field holds. la_acars_parse and
      unknown_proto_pdu_new are not part of this model; the node records the
      region and direction handed to them. */
  datatype Next = NoNext | AcarsNext(region: Region, dir: MsgDir) | UnknownNext(region: Region)

  /** The result of hfnpdu_parse. */
  datatype Parsed =
    | NoNode
    | UnknownProto(region: Region)
    | HfnpduNode(hfType: byte, err: bool, next: Next)

  predicate Within(r: Region, len: nat) {
    r.start + r.length <= len
  }

  function AcarsDirection(d: PduDirection): MsgDir {
    if d == UplinkPdu then Gnd2Air else Air2Gnd
  }

  /** The enveloped-data branch as written: the payload is handed over as
      buf + 3 and len - 3 in uint32_t arithmetic, even when len is 2. */
  function EnvelopedAsWritten(buf: seq<byte>, direction: PduDirection): (n: Next)
    requires 2 <= |buf| < LEN_MODULUS
    ensures n.AcarsNext? <==> |buf| > 2 && buf[2] == ACARS_SOH
    ensures n.AcarsNext? ==> n.dir == AcarsDirection(direction)
    ensures n != NoNext && n.region.start == 3
    ensures n.region.length < LEN_MODULUS && n.region.length % LEN_MODULUS == (|buf| - 3) % LEN_MODULUS
  {
    if |buf| > 2 && buf[2] == ACARS_SOH then AcarsNext(Region(3, |buf| - 3), AcarsDirection(direction))
    else UnknownNext(Region(3, (|buf| - 3) % LEN_MODULUS))
  }

  /** The enveloped-data branch with the payload limited to the bytes after
      the three-byte envelope header, none when there are only two bytes. */
  function Enveloped(buf: seq<byte>, direction: PduDirection): (n: Next)
    requires 2 <= |buf| < LEN_MODULUS
    ensures n.AcarsNext? <==> |buf| > 2 && buf[2] == ACARS_SOH
    ensures n.AcarsNext? ==> n.dir == AcarsDirection(direction)
    ensures n != NoNext && Within(n.region, |buf|)
    ensures |buf| >= 3 ==> n.region == Region(3, |buf| - 3)
    ensures |buf| >= 3 ==> n == EnvelopedAsWritten(buf, direction)
  {
    if |buf| > 2 && buf[2] == ACARS_SOH then AcarsNext(Region(3, |buf| - 3), AcarsDirection(direction))
    else if |buf| >= 3 then UnknownNext(Region(3, |buf| - 3))
    else UnknownNext(Region(|buf|, 0))
  }

  /** At len = 2 the as-written branch points past the end of the buffer
      with a length that has wrapped round to 2^32 - 1. */
  lemma EnvelopedAsWrittenOverruns(buf: seq<byte>, direction: PduDirection)
    requires |buf| == 2
    ensures EnvelopedAsWritten(buf, direction) == UnknownNext(Region(3, LEN_MODULUS - 1))
    ensures !Within(EnvelopedAsWritten(buf, direction).region, |buf|)
  {
  }

  /** hfnpdu_parse. */
  function Parse(buf: seq<byte>, direction: PduDirection): (r: Parsed)
    requires |buf| < LEN_MODULUS
    ensures r == NoNode <==> |buf| == 0 || (buf[0] == ENVELOPED_DATA && |buf| < 2)
    ensures r.UnknownProto? <==> |buf| > 0 && buf[0] != ENVELOPED_DATA
    ensures r.UnknownProto? ==> r.region == Region(0, |buf|)
    ensures r.HfnpduNode? ==> |buf| >= 2 && buf[0] == ENVELOPED_DATA && r.hfType == buf[1]
    ensures r.HfnpduNode? ==> (r.next != NoNext <==> r.hfType == ENVELOPED_DATA)
  {
    if |buf| == 0 then NoNode
    else if buf[0] != ENVELOPED_DATA then UnknownProto(Region(0, |buf|))
    else if |buf| < 2 then NoNode
    else
      // consumed_len is never changed from 0, so err stays false.
      var consumedLen := 0;
      var next := if buf[1] == ENVELOPED_DATA then Enveloped(buf, direction) else NoNext;
      HfnpduNode(buf[1], consumedLen < 0, next)
  }

  /** Every region a parsed node records lies inside the buffer. */
  lemma ParseWithinBuffer(buf: seq<byte>, direction: PduDirection)
    requires |buf| < LEN_MODULUS
    ensures Parse(buf, direction).UnknownProto? ==> Within(Parse(buf, direction).region, |buf|)
    ensures Parse(buf, direction).HfnpduNode? && Parse(buf, direction).next != NoNext ==>
      Within(Parse(buf, direction).next.region, |buf|)
  {
  }

  /** Parse takes the enveloped-data branch as written for every length but
      two; for FF FF it records the empty region at the end of the buffer
      where the code hands over buf + 3 with length 2^32 - 1. */
  lemma ParseFollowsCodeExceptTwoBytes(buf: seq<byte>, direction: PduDirection)
    requires 2 <= |buf| < LEN_MODULUS && buf[0] == ENVELOPED_DATA && buf[1] == ENVELOPED_DATA
    ensures |buf| >= 3 ==> Parse(buf, direction).next == EnvelopedAsWritten(buf, direction)
    ensures |buf| == 2 ==> Parse(buf, direction).next == UnknownNext(Region(2, 0))
    ensures |buf| == 2 ==> EnvelopedAsWritten(buf, direction) == UnknownNext(Region(3, LEN_MODULUS - 1))
  {
  }

  /** The error flag is never raised: consumed_len never goes negative. */
  lemma ParseNeverErr(buf: seq<byte>, direction: PduDirection)
    requires |buf| < LEN_MODULUS
    ensures Parse(buf, direction).HfnpduNode? ==> !Parse(buf, direction).err
  {
  }

  /** An enveloped ACARS message is handed to the ACARS decoder with uplink
      read as ground-to-air and anything else as air-to-ground. */
  lemma ParseAcarsDirection(buf: seq<byte>, direction: PduDirection)
    requires 3 <= |buf| < LEN_MODULUS
    requires buf[0] == ENVELOPED_DATA && buf[1] == ENVELOPED_DATA && buf[2] == ACARS_SOH
    ensures Parse(buf, direction) == HfnpduNode(ENVELOPED_DATA, false, AcarsNext(Region(3, |buf| - 3), AcarsDirection(direction)))
    ensures Parse(buf, direction).next.dir == Gnd2Air <==> direction == UplinkPdu
  {
  }

  // ---------------------------------------------------------------------------
  // hfnpdu_format_text

  /** The text of an HFNPDU node: its type line. */
  function FormatText(hfType: byte, err: bool, indent: nat): (s: string)
  {
    if err then Indent(indent) + "-- Unparseable HFNPDU\n"
    else match DictSearch(TypeDescriptions, hfType as int)
      case Some(d) => Indent(indent) + d + ":\n"
      case None => Indent(indent) + "Unknown HFNPDU type (0x" + Hex2(hfType) + "):\n"
  }

  predicate KnownType(t: byte) {
    t in {SYSTEM_TABLE, PERFORMANCE_DATA, SYSTEM_TABLE_REQUEST, FREQUENCY_DATA, DELAYED_ECHO, ENVELOPED_DATA}
  }

  /** The six named types are exactly the ones the description table lists. */
  lemma KnownIffListed(t: byte)
    ensures KnownType(t) <==> DictSearch(TypeDescriptions, t as int).Some?
  {
    if !KnownType(t) {
      assert forall k :: 0 <= k < |TypeDescriptions| ==> TypeDescriptions[k].id != t as int;
    } else {
      var k := if t == SYSTEM_TABLE then 0 else if t == PERFORMANCE_DATA then 1
        else if t == SYSTEM_TABLE_REQUEST then 2 else if t == FREQUENCY_DATA then 3
        else if t == DELAYED_ECHO then 4 else 5;
      assert TypeDescriptions[k].id == t as int;
    }
  }

  /** The six named types print their description; every other type prints
      its code, which identifies it. */
  lemma FormatTextNames(t: byte, indent: nat)
    ensures KnownType(t) <==> DictSearch(TypeDescriptions, t as int).Some?
    ensures !KnownType(t) ==> FormatText(t, false, indent) == Indent(indent) + "Unknown HFNPDU type (0x" + Hex2(t) + "):\n"
    ensures t == ENVELOPED_DATA ==> FormatText(t, false, indent) == Indent(indent) + "Enveloped data:\n"
  {
    KnownIffListed(t);
  }

  /** Two unknown types never print the same line. */
  lemma UnknownTypeLineInjective(a: byte, b: byte, indent: nat)
    requires !KnownType(a) && !KnownType(b)
    requires FormatText(a, false, indent) == FormatText(b, false, indent)
    ensures a == b
  {
    FormatTextNames(a, indent);
    FormatTextNames(b, indent);
    var pre := Indent(indent) + "Unknown HFNPDU type (0x";
    var la := pre + Hex2(a) + "):\n";
    var lb := pre + Hex2(b) + "):\n";
    assert la[|pre|..|pre| + 2] == Hex2(a);
    assert lb[|pre|..|pre| + 2] == Hex2(b);
    Hex2Injective(a, b);
  }

  /** No description in the table is empty or starts with a dash. */
  lemma DescriptionsNotDash(id: int)
    ensures var r := DictSearch(TypeDescriptions, id);
      r.Some? ==> |r.value| > 0 && r.value[0] != '-'
  {
    assert forall k :: 0 <= k < |TypeDescriptions| ==>
      |TypeDescriptions[k].val| > 0 && TypeDescriptions[k].val[0] != '-';
  }

  /** "-- Unparseable HFNPDU" is never printed for a parsed node. */
  lemma UnparseableUnreachable(buf: seq<byte>, direction: PduDirection, indent: nat)
    requires |buf| < LEN_MODULUS && Parse(buf, direction).HfnpduNode?
    ensures var r := Parse(buf, direction);
      FormatText(r.hfType, r.err, indent) != Indent(indent) + "-- Unparseable HFNPDU\n"
  {
    var r := Parse(buf, direction);
    var s := FormatText(r.hfType, r.err, indent);
    var bad := Indent(indent) + "-- Unparseable HFNPDU\n";
    assert bad[|Indent(indent)|] == '-';
    match DictSearch(TypeDescriptions, r.hfType as int)
    case Some(d) =>
      assert s[|Indent(indent)|..] == d + ":\n";
      DescriptionsNotDash(r.hfType as int);
      assert s[|Indent(indent)|] != '-';
    case None =>
      assert s[|Indent(indent)|] == 'U';
  }
}
