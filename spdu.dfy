// The HFDL squitter (SPDU): bitfield extraction from the 66-byte uplink
// burst, and its text rendering.
//
// Masks and shifts of the C code are written as arithmetic on the byte
// values: b & (2^k - 1) is b % 2^k, b >> k is b / 2^k, and an or of fields
// shifted to disjoint bit positions is their sum.

module Spdu {
  import opened Common
  import Util

  const SPDU_LEN: nat := 66
  const GS_STATUS_CNT: nat := 3
  const GS_STATUS_FREQ_CNT: nat := 20
  /** Bytes covered by the frame check sequence. */
  const FCS_COVERED: nat := 64

  /** struct gs_status. */
  datatype GsStatus = GsStatus(freqsInUse: nat, id: nat, utcSync: bool)

  /** The decoded fields of struct hfdl_spdu; all zero until the FCS passes. */
  datatype Squitter = Squitter(
    srcId: nat,
    gsData: seq<GsStatus>,
    frameIndex: nat,
    frameOffset: nat,
    version: nat,
    changeNote: nat,
    minPriority: nat,
    systableVersion: nat,
    rlsInUse: bool,
    iso8208Supported: bool)

  /** The protocol node spdu_parse returns: the wrapped buffer, the CRC flag
      and the fields. */
  datatype Spdu = Spdu(pdu: seq<byte>, crcOk: bool, fields: Squitter)

  /** The state of a freshly allocated (zeroed) struct hfdl_spdu. */
  const ZeroSquitter: Squitter :=
    Squitter(0, [GsStatus(0, 0, false), GsStatus(0, 0, false), GsStatus(0, 0, false)],
             0, 0, 0, 0, 0, 0, false, false)

  /** The range of every field, as the bit widths of the burst give it. */
  predicate ValidSquitter(q: Squitter) {
    && q.srcId < 128
    && |q.gsData| == GS_STATUS_CNT
    && q.gsData[0].id == q.srcId
    && (forall i :: 0 <= i < |q.gsData| ==> q.gsData[i].id < 128 && q.gsData[i].freqsInUse < 0x10_0000)
    && q.frameIndex < 4096
    && q.frameOffset < 16
    && q.version < 4
    && q.changeNote < 4
    && q.minPriority < 16
    && q.systableVersion < 4096
  }

  // ---------------------------------------------------------------------------
  // spdu_parse

  /** The system table version as the code keeps it: the 12-bit value
      buf[53] | (buf[54] & 0xF) << 8 stored in a uint8_t field, which keeps its
      low 8 bits. */
  function SystableVersionAsWritten(buf: seq<byte>): (v: nat)
    requires |buf| >= SPDU_LEN
    ensures v < 256
  {
    (buf[53] as nat + (buf[54] as nat % 16) * 256) % 256
  }

  /** The 12-bit system table version, with the high nibble kept. */
  function SystableVersion(buf: seq<byte>): nat
    requires |buf| >= SPDU_LEN
  {
    buf[53] as nat + (buf[54] as nat % 16) * 256
  }

  /** The fields of a burst whose FCS passed. */
  function Decode(buf: seq<byte>): (q: Squitter)
    requires |buf| >= SPDU_LEN
    ensures ValidSquitter(q)
  {
    var srcId := buf[1] as nat % 128;
    Squitter(
      srcId := srcId,
      gsData := [
        GsStatus(buf[54] as nat / 16 + buf[55] as nat * 16 + buf[56] as nat * 4096,
                 srcId, buf[1] >= 128),
        GsStatus(buf[58] as nat + buf[59] as nat * 256 + (buf[60] as nat % 16) * 65536,
                 buf[57] as nat % 128, buf[57] >= 128),
        GsStatus(buf[61] as nat / 16 + buf[62] as nat * 16 + buf[63] as nat * 4096,
                 buf[60] as nat / 16 + (buf[61] as nat % 8) * 16, (buf[61] as nat / 8) % 2 == 1)],
      frameIndex := buf[2] as nat + (buf[3] as nat % 16) * 256,
      frameOffset := buf[3] as nat / 16,
      version := (buf[0] as nat / 4) % 4,
      changeNote := buf[0] as nat / 64,
      minPriority := buf[52] as nat % 16,
      systableVersion := SystableVersion(buf),
      rlsInUse := (buf[0] as nat / 2) % 2 == 1,
      iso8208Supported := (buf[0] as nat / 32) % 2 == 1)
  }

  /** spdu_parse. The FCS check over the first 64 bytes is an input. A short
      buffer gives no node; a failed FCS gives a node with nothing decoded. */
  function Parse(buf: seq<byte>, fcsOk: bool): (r: Option<Spdu>)
    requires |buf| > 0
    ensures r.None? <==> |buf| < SPDU_LEN
    ensures r.Some? ==> r.value.pdu == buf && r.value.crcOk == fcsOk
    ensures r.Some? && !fcsOk ==> r.value.fields == ZeroSquitter
    ensures r.Some? ==> ValidSquitter(r.value.fields)
  {
    if |buf| < SPDU_LEN then None
    else if !fcsOk then Some(Spdu(buf, false, ZeroSquitter))
    else Some(Spdu(buf, true, Decode(buf)))
  }

  // ---------------------------------------------------------------------------
  // The burst as the ground station builds it: the partner of Decode.

  function BoolBit(b: bool, weight: nat): nat {
    if b then weight else 0
  }

  /** The 66 bytes of a squitter with the given fields; the unused bits, the
      reserved bytes 4..51 and the FCS are zero. */
  function Encode(q: Squitter): (buf: seq<byte>)
    requires ValidSquitter(q)
    ensures |buf| == SPDU_LEN
  {
    var g0 := q.gsData[0];
    var g1 := q.gsData[1];
    var g2 := q.gsData[2];
    [ (BoolBit(q.rlsInUse, 2) + q.version * 4 + BoolBit(q.iso8208Supported, 32) + q.changeNote * 64) as byte,
      (q.srcId + BoolBit(g0.utcSync, 128)) as byte,
      (q.frameIndex % 256) as byte,
      (q.frameIndex / 256 + q.frameOffset * 16) as byte ]
    + seq(48, _ => 0 as byte)
    + [ q.minPriority as byte,
        (q.systableVersion % 256) as byte,
        (q.systableVersion / 256 + (g0.freqsInUse % 16) * 16) as byte,
        ((g0.freqsInUse / 16) % 256) as byte,
        (g0.freqsInUse / 4096) as byte,
        (g1.id + BoolBit(g1.utcSync, 128)) as byte,
        (g1.freqsInUse % 256) as byte,
        ((g1.freqsInUse / 256) % 256) as byte,
        (g1.freqsInUse / 65536 + (g2.id % 16) * 16) as byte,
        (g2.id / 16 + BoolBit(g2.utcSync, 8) + (g2.freqsInUse % 16) * 16) as byte,
        ((g2.freqsInUse / 16) % 256) as byte,
        (g2.freqsInUse / 4096) as byte,
        0 as byte, 0 as byte ]
  }

  /** Every field survives the trip through the burst. */
  lemma DecodeEncode(q: Squitter)
    requires ValidSquitter(q)
    ensures Decode(Encode(q)) == q
  {
    var buf := Encode(q);
    EncodeBytes(q);
    Byte0RoundTrip(q, buf);
    FrameRoundTrip(q, buf);
    GsZeroRoundTrip(q, buf);
    GsOneRoundTrip(q, buf);
    GsTwoRoundTrip(q, buf);
    var d := Decode(buf);
    assert d.gsData == q.gsData;
  }

  /** The bytes of a burst that carry the fields of q, as numbers. */
  predicate CarriesFields(q: Squitter, buf: seq<byte>)
    requires ValidSquitter(q) && |buf| >= SPDU_LEN
  {
    var g0, g1, g2 := q.gsData[0], q.gsData[1], q.gsData[2];
    && buf[0] as nat == BoolBit(q.rlsInUse, 2) + q.version * 4 + BoolBit(q.iso8208Supported, 32) + q.changeNote * 64
    && buf[1] as nat == q.srcId + BoolBit(g0.utcSync, 128)
    && buf[2] as nat == q.frameIndex % 256
    && buf[3] as nat == q.frameIndex / 256 + q.frameOffset * 16
    && buf[52] as nat == q.minPriority
    && buf[53] as nat == q.systableVersion % 256
    && buf[54] as nat == q.systableVersion / 256 + (g0.freqsInUse % 16) * 16
    && buf[55] as nat == (g0.freqsInUse / 16) % 256
    && buf[56] as nat == g0.freqsInUse / 4096
    && buf[57] as nat == g1.id + BoolBit(g1.utcSync, 128)
    && buf[58] as nat == g1.freqsInUse % 256
    && buf[59] as nat == (g1.freqsInUse / 256) % 256
    && buf[60] as nat == g1.freqsInUse / 65536 + (g2.id % 16) * 16
    && buf[61] as nat == g2.id / 16 + BoolBit(g2.utcSync, 8) + (g2.freqsInUse % 16) * 16
    && buf[62] as nat == (g2.freqsInUse / 16) % 256
    && buf[63] as nat == g2.freqsInUse / 4096
  }

  lemma EncodeBytes(q: Squitter)
    requires ValidSquitter(q)
    ensures CarriesFields(q, Encode(q))
  {
  }

  lemma Byte0RoundTrip(q: Squitter, buf: seq<byte>)
    requires ValidSquitter(q) && |buf| >= SPDU_LEN && CarriesFields(q, buf)
    ensures var d := Decode(buf);
      && d.rlsInUse == q.rlsInUse && d.version == q.version
      && d.iso8208Supported == q.iso8208Supported && d.changeNote == q.changeNote
      && d.srcId == q.srcId
  {
    Byte0Fields(q.rlsInUse, q.version, q.iso8208Supported, q.changeNote);
    Split128(q.srcId, BoolBit(q.gsData[0].utcSync, 1));
  }

  lemma FrameRoundTrip(q: Squitter, buf: seq<byte>)
    requires ValidSquitter(q) && |buf| >= SPDU_LEN && CarriesFields(q, buf)
    ensures var d := Decode(buf);
      && d.frameIndex == q.frameIndex && d.frameOffset == q.frameOffset
      && d.minPriority == q.minPriority && d.systableVersion == q.systableVersion
  {
    Split16(q.frameIndex / 256, q.frameOffset);
    Split16(q.systableVersion / 256, q.gsData[0].freqsInUse % 16);
  }

  lemma GsZeroRoundTrip(q: Squitter, buf: seq<byte>)
    requires ValidSquitter(q) && |buf| >= SPDU_LEN && CarriesFields(q, buf)
    ensures Decode(buf).gsData[0] == q.gsData[0]
  {
    var f := q.gsData[0].freqsInUse;
    Split16(q.systableVersion / 256, f % 16);
    Digits4_8_8(f);
  }

  lemma GsOneRoundTrip(q: Squitter, buf: seq<byte>)
    requires ValidSquitter(q) && |buf| >= SPDU_LEN && CarriesFields(q, buf)
    ensures Decode(buf).gsData[1] == q.gsData[1]
  {
    var g := q.gsData[1];
    Split128(g.id, BoolBit(g.utcSync, 1));
    Split16(g.freqsInUse / 65536, q.gsData[2].id % 16);
    Digits8_8_4(g.freqsInUse);
  }

  lemma GsTwoRoundTrip(q: Squitter, buf: seq<byte>)
    requires ValidSquitter(q) && |buf| >= SPDU_LEN && CarriesFields(q, buf)
    ensures Decode(buf).gsData[2] == q.gsData[2]
  {
    var g := q.gsData[2];
    assert BoolBit(g.utcSync, 8) == 8 * BoolBit(g.utcSync, 1);
    GsTwoBytes(q.gsData[1].freqsInUse / 65536, g.id, BoolBit(g.utcSync, 1), g.freqsInUse);
    Digits4_8_8(g.freqsInUse);
  }

  /** Bytes 60 and 61: the low nibble of the second station's frequencies,
      the third station's 7-bit id split 4 + 3, its sync bit, and the low
      nibble of its frequencies. */
  lemma GsTwoBytes(lo: nat, id: nat, sync: nat, f: nat)
    requires lo < 16 && id < 128 && sync < 2
    ensures var b60, b61 := lo + (id % 16) * 16, id / 16 + sync * 8 + (f % 16) * 16;
      && b60 / 16 + (b61 % 8) * 16 == id
      && (b61 / 8) % 2 == sync
      && b61 / 16 == f % 16
  {
    var b60, b61 := lo + (id % 16) * 16, id / 16 + sync * 8 + (f % 16) * 16;
    var hi := id / 16;
    assert id == id % 16 + hi * 16 && hi < 8;
    Split16(lo, id % 16);
    assert b61 == hi + (sync + 2 * (f % 16)) * 8;
    Split8(hi, sync + 2 * (f % 16));
    assert b61 == (hi + sync * 8) + (f % 16) * 16;
    Split16(hi + sync * 8, f % 16);
  }

  lemma Byte0Fields(rls: bool, version: nat, iso: bool, changeNote: nat)
    requires version < 4 && changeNote < 4
    ensures var b := BoolBit(rls, 2) + version * 4 + BoolBit(iso, 32) + changeNote * 64;
      && ((b / 2) % 2 == 1 <==> rls) && (b / 4) % 4 == version
      && ((b / 32) % 2 == 1 <==> iso) && b / 64 == changeNote
  {
    var r, i := BoolBit(rls, 1), BoolBit(iso, 1);
    var b := BoolBit(rls, 2) + version * 4 + BoolBit(iso, 32) + changeNote * 64;
    assert b == 2 * (r + 2 * version + 16 * i + 32 * changeNote);
    assert b / 2 == r + 2 * (version + 8 * i + 16 * changeNote);
    assert b == 4 * (version + 4 * (2 * i + 4 * changeNote)) + 2 * r;
    assert b / 4 == version + 4 * (2 * i + 4 * changeNote);
    assert b == 32 * (i + 2 * changeNote) + (2 * r + 4 * version);
    assert b / 32 == i + 2 * changeNote;
    assert b == 64 * changeNote + (2 * r + 4 * version + 32 * i);
  }

  // Splitting a value into a low field of k bits and the bits above it.

  lemma Split8(lo: nat, hi: nat)
    requires lo < 8
    ensures (lo + hi * 8) / 8 == hi && (lo + hi * 8) % 8 == lo
  {
  }

  lemma Split16(lo: nat, hi: nat)
    requires lo < 16
    ensures (lo + hi * 16) / 16 == hi && (lo + hi * 16) % 16 == lo
  {
  }

  lemma Split128(lo: nat, hi: nat)
    requires lo < 128
    ensures (lo + hi * 128) / 128 == hi && (lo + hi * 128) % 128 == lo
  {
  }

  /** A 20-bit value as 4 + 8 + 8 bits. */
  lemma Digits4_8_8(f: nat)
    ensures f % 16 + ((f / 16) % 256) * 16 + (f / 4096) * 4096 == f
  {
    var q := f / 16;
    assert f == 16 * q + f % 16;
    assert q == 256 * (q / 256) + q % 256;
    assert f == 4096 * (q / 256) + (16 * (q % 256) + f % 16);
    assert f / 4096 == q / 256;
  }

  /** A 20-bit value as 8 + 8 + 4 bits. */
  lemma Digits8_8_4(f: nat)
    ensures f % 256 + ((f / 256) % 256) * 256 + (f / 65536) * 65536 == f
  {
    var q := f / 256;
    assert f == 256 * q + f % 256;
    assert q == 256 * (q / 256) + q % 256;
    assert f == 65536 * (q / 256) + (256 * (q % 256) + f % 256);
    assert f / 65536 == q / 256;
  }

  /** A burst with a good FCS that the station built from the fields parses
      back to them. */
  lemma ParseEncode(q: Squitter)
    requires ValidSquitter(q)
    ensures Parse(Encode(q), true) == Some(Spdu(Encode(q), true, q))
  {
    DecodeEncode(q);
  }

  // ---------------------------------------------------------------------------
  // freq_list_format_text

  /** Indices below n of the set bits of freqs, in ascending order. */
  function SetBits(freqs: nat, n: nat): seq<nat> {
    if n == 0 then []
    else SetBits(freqs, n - 1) + (if Bit(freqs, n - 1) then [n - 1] else [])
  }

  /** The listed indices, separated by ", ". */
  function IndexList(xs: seq<nat>): string {
    if |xs| == 0 then ""
    else IndexList(xs[..|xs| - 1]) + (if |xs| > 1 then ", " else "") + Dec(xs[|xs| - 1])
  }

  /** The text of one frequency list: label, set bit indices 0..19, end of line. */
  function FreqListText(indent: nat, name: string, freqs: nat): string {
    Indent(indent) + name + ": " + IndexList(SetBits(freqs, GS_STATUS_FREQ_CNT)) + "\n"
  }

  lemma {:induction false} SetBitsMembers(freqs: nat, n: nat, i: nat)
    ensures i in SetBits(freqs, n) <==> i < n && Bit(freqs, i)
  {
    if n > 0 {
      SetBitsMembers(freqs, n - 1, i);
    }
  }

  /** Strictly ascending, so no index is listed twice. */
  lemma {:induction false} SetBitsAscending(freqs: nat, n: nat)
    ensures forall j, k :: 0 <= j < k < |SetBits(freqs, n)| ==> SetBits(freqs, n)[j] < SetBits(freqs, n)[k]
    ensures forall j :: 0 <= j < |SetBits(freqs, n)| ==> SetBits(freqs, n)[j] < n
  {
    if n > 0 {
      SetBitsAscending(freqs, n - 1);
    }
  }

  /** Sum of 2^i over the listed indices. */
  function Weight(xs: seq<nat>): nat {
    if |xs| == 0 then 0 else Weight(xs[..|xs| - 1]) + Pow2(xs[|xs| - 1])
  }

  lemma {:induction false} WeightAppend(xs: seq<nat>, ys: seq<nat>)
    ensures Weight(xs + ys) == Weight(xs) + Weight(ys)
  {
    if |ys| > 0 {
      assert (xs + ys)[..|xs + ys| - 1] == xs + ys[..|ys| - 1];
      WeightAppend(xs, ys[..|ys| - 1]);
    } else {
      assert xs + ys == xs;
    }
  }

  /** One more shift is one more halving. */
  lemma {:induction false} ShrStep(f: nat, n: nat)
    ensures Shr(f, n + 1) == Shr(f, n) / 2
  {
    if n > 0 {
      ShrStep(f / 2, n - 1);
    }
  }

  /** A value below 2^n has nothing left after shifting by n. */
  lemma {:induction false} ShrBelow(f: nat, n: nat)
    requires f < Pow2(n)
    ensures Shr(f, n) == 0
  {
    if n > 0 {
      ShrBelow(f / 2, n - 1);
    }
  }

  /** The listed bits below n, plus what remains above them, give freqs back. */
  lemma {:induction false} SetBitsWeight(freqs: nat, n: nat)
    ensures Weight(SetBits(freqs, n)) + Pow2(n) * Shr(freqs, n) == freqs
  {
    if n > 0 {
      var m := n - 1;
      var s := Shr(freqs, m);
      SetBitsWeight(freqs, m);
      WeightAppend(SetBits(freqs, m), if Bit(freqs, m) then [m] else []);
      assert Weight([m]) == Pow2(m) by {
        assert [m][..0] == [];
      }
      ShrStep(freqs, m);
      MulHalves(Pow2(m), s);
    }
  }

  lemma MulHalves(p: nat, s: nat)
    ensures p * s == (2 * p) * (s / 2) + p * (s % 2)
  {
    var t, b := s / 2, s % 2;
    assert s == 2 * t + b;
    calc {
      p * s;
      p * (2 * t + b);
      (2 * p) * t + p * b;
    }
  }

  /** Every freqs_in_use value is below 2^20, so the twenty listed positions
      are all its bits: the list gives the value back. */
  lemma FreqListComplete(freqs: nat)
    requires freqs < 0x10_0000
    ensures Weight(SetBits(freqs, GS_STATUS_FREQ_CNT)) == freqs
  {
    Pow2Value20();
    SetBitsWeight(freqs, GS_STATUS_FREQ_CNT);
    ShrBelow(freqs, GS_STATUS_FREQ_CNT);
  }

  lemma Pow2Value20()
    ensures Pow2(20) == 0x10_0000
  {
    assert Pow2(10) == 1024;
  }

  /** freq_list_format_text: the set bits 0..19 of freqs, ascending, the first
      without a separator and each later one after ", ". */
  method FormatFreqList(indent: nat, name: string, freqs: nat) returns (s: string)
    ensures s == FreqListText(indent, name, freqs)
  {
    var list := "";
    var first := true;
    for i := 0 to GS_STATUS_FREQ_CNT
      invariant list == IndexList(SetBits(freqs, i))
      invariant first <==> |SetBits(freqs, i)| == 0
    {
      if Shr(freqs, i) % 2 == 1 {
        ghost var xs := SetBits(freqs, i) + [i];
        assert xs[..|xs| - 1] == SetBits(freqs, i);
        assert SetBits(freqs, i + 1) == xs;
        list := list + (if first then "" else ", ") + Dec(i);
        first := false;
      } else {
        assert SetBits(freqs, i + 1) == SetBits(freqs, i);
      }
    }
    s := Indent(indent) + name + ": " + list + "\n";
  }

  // ---------------------------------------------------------------------------
  // spdu_format_text

  const ChangeNoteDescr: seq<string> :=
    ["None", "Channel down", "Upcoming frequency change", "Ground station down"]

  /** %d of a C bool. */
  function BoolDec(b: bool): string {
    if b then "1" else "0"
  }

  /** gs_status_format_text. */
  function GsStatusText(indent: nat, gs: GsStatus): string {
    Indent(indent) + "ID: " + Dec(gs.id) + "\n"
    + Indent(indent + 1) + "UTC sync: " + BoolDec(gs.utcSync) + "\n"
    + FreqListText(indent + 1, "Frequencies in use", gs.freqsInUse)
  }

  /** The raw hexdump that output_raw_frames puts before the node. */
  function RawPrefix(pdu: seq<byte>, indent: nat, outputRawFrames: bool): string {
    if outputRawFrames && |pdu| > 0 then Util.HexdumpWithIndent(pdu, indent + 1) else ""
  }

  /** The lines of a node whose FCS passed, up to the station list. */
  function SquitterHeadText(indent: nat, q: Squitter): string
    requires q.changeNote < |ChangeNoteDescr|
  {
    Indent(indent) + "Uplink SPDU:\n"
    + Indent(indent + 1) + "Src GS: " + Dec(q.srcId) + "\n"
    + Indent(indent + 1) + "Squitter: ver: " + Dec(q.version) + " rls: " + BoolDec(q.rlsInUse)
      + " iso: " + BoolDec(q.iso8208Supported) + "\n"
    + Indent(indent + 2) + "Change note: " + ChangeNoteDescr[q.changeNote] + "\n"
    + Indent(indent + 2) + "TDMA Frame: index: " + Dec(q.frameIndex) + " offset: " + Dec(q.frameOffset) + "\n"
    + Indent(indent + 2) + "Minimum priority: " + Dec(q.minPriority) + "\n"
    + Indent(indent + 2) + "System table version: " + Dec(q.systableVersion) + "\n"
    + Indent(indent + 2) + "Ground station status:\n"
  }

  /** The station entries 0..n-1. */
  function StationsText(indent: nat, gs: seq<GsStatus>, n: nat): string
    requires n <= |gs|
  {
    if n == 0 then "" else StationsText(indent, gs, n - 1) + GsStatusText(indent, gs[n - 1])
  }

  /** The text of a node. */
  function SpduText(s: Spdu, indent: nat, outputRawFrames: bool): string
    requires ValidSquitter(s.fields)
  {
    RawPrefix(s.pdu, indent, outputRawFrames) + SpduBody(s, indent)
  }

  /** The text of a node after the raw hexdump. */
  function SpduBody(s: Spdu, indent: nat): string
    requires ValidSquitter(s.fields)
  {
    if !s.crcOk then Indent(indent) + "-- CRC check failed\n"
    else SquitterHeadText(indent, s.fields) + StationsText(indent + 2, s.fields.gsData, |s.fields.gsData|)
  }

  /** A node whose FCS failed prints the same whatever its fields hold. */
  lemma CrcFailedIgnoresFields(s: Spdu, t: Spdu, indent: nat, raw: bool)
    requires ValidSquitter(s.fields) && ValidSquitter(t.fields)
    requires !s.crcOk && !t.crcOk && s.pdu == t.pdu
    ensures SpduText(s, indent, raw) == SpduText(t, indent, raw)
    ensures SpduText(s, indent, raw) == RawPrefix(s.pdu, indent, raw) + Indent(indent) + "-- CRC check failed\n"
  {
  }

  /** spdu_format_text. Config.output_raw_frames is a parameter. */
  method FormatText(s: Spdu, indent: nat, outputRawFrames: bool) returns (text: string)
    requires ValidSquitter(s.fields)
    ensures text == SpduText(s, indent, outputRawFrames)
  {
    text := "";
    if outputRawFrames && |s.pdu| > 0 {
      text := Util.HexdumpWithIndent(s.pdu, indent + 1);
    }
    assert text == RawPrefix(s.pdu, indent, outputRawFrames);
    var body;
    if !s.crcOk {
      body := Indent(indent) + "-- CRC check failed\n";
    } else {
      var head := SquitterHeadText(indent, s.fields);
      var stations := FormatStations(indent + 2, s.fields.gsData);
      body := head + stations;
    }
    assert body == SpduBody(s, indent);
    text := text + body;
  }

  /** The loop over the ground station entries of spdu_format_text. */
  method FormatStations(indent: nat, gsData: seq<GsStatus>) returns (stations: string)
    ensures stations == StationsText(indent, gsData, |gsData|)
  {
    stations := "";
    for i := 0 to |gsData|
      invariant stations == StationsText(indent, gsData, i)
    {
      var gs := FormatGsStatus(indent, gsData[i]);
      stations := stations + gs;
    }
  }

  /** gs_status_format_text, with its call of freq_list_format_text. */
  method FormatGsStatus(indent: nat, gs: GsStatus) returns (text: string)
    ensures text == GsStatusText(indent, gs)
  {
    var freqs := FormatFreqList(indent + 1, "Frequencies in use", gs.freqsInUse);
    text := Indent(indent) + "ID: " + Dec(gs.id) + "\n"
      + Indent(indent + 1) + "UTC sync: " + BoolDec(gs.utcSync) + "\n"
      + freqs;
  }

  // ---------------------------------------------------------------------------
  // The system table version field

  /** As written, the kept version is buf[53] alone: the four high bits are lost. */
  lemma SystableVersionAsWrittenDropsHighNibble(buf: seq<byte>)
    requires |buf| >= SPDU_LEN
    ensures SystableVersionAsWritten(buf) == buf[53] as nat
    ensures SystableVersionAsWritten(buf) == SystableVersion(buf) <==> buf[54] as nat % 16 == 0
  {
  }

  /** The record the code as written keeps: that of Decode with the version
      cut down to the uint8_t field. */
  function DecodeAsWritten(buf: seq<byte>): (q: Squitter)
    requires |buf| >= SPDU_LEN
  {
    Decode(buf).(systableVersion := SystableVersionAsWritten(buf))
  }

  /** As written, the round trip through the burst gives back every field but
      the version, which comes back modulo 256: it is intact exactly when it
      is below 256. */
  lemma DecodeEncodeAsWritten(q: Squitter)
    requires ValidSquitter(q)
    ensures DecodeAsWritten(Encode(q)) == q.(systableVersion := q.systableVersion % 256)
    ensures DecodeAsWritten(Encode(q)) == q <==> q.systableVersion < 256
  {
    DecodeEncode(q);
    EncodeBytes(q);
    SystableVersionAsWrittenDropsHighNibble(Encode(q));
  }

  /** Version 256 (buf[53] = 0, low nibble of buf[54] = 1) is kept as 0. */
  lemma SystableVersionAsWrittenCounterexample()
    ensures var buf := seq(SPDU_LEN, k => if k == 54 then 1 as byte else 0 as byte);
      SystableVersionAsWritten(buf) == 0 && SystableVersion(buf) == 256
  {
  }

  /** The full 12-bit field is kept: any version 0..4095 in the burst comes
      back intact. */
  lemma SystableVersionRoundTrip(buf: seq<byte>, v: nat)
    requires |buf| >= SPDU_LEN && v < 4096
    requires buf[53] as nat == v % 256 && buf[54] as nat % 16 == v / 256
    ensures Decode(buf).systableVersion == v
  {
  }
}
