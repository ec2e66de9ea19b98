// Sample formats of the SDR input: the format table, the conversion of raw
// sample buffers into complex samples and the hand-over of converted
// samples to the circular buffer.
//
// Sample values are exact reals: single-precision rounding is not modelled.

module InputHelpers {
  import opened Common

  /** The conversion routine of a format (a function address in the table). */
  datatype Converter = ConvertCu8 | ConvertCs16 | ConvertCf32


  /** struct sample_format_params. */
  datatype SampleFormatParams = SampleFormatParams(name: string, sampleSize: nat, fullScale: real, convertFun: Option<Converter>)

  /** sample_format: SFMT_UNDEF = 0, SFMT_CU8 = 1, SFMT_CS16 = 2, SFMT_CF32 = 3,
      SFMT_MAX = 4. The declaration at src/input-common.h:16-22 comments out
      SFMT_CU8 and has no SFMT_CF32; this is the numbering the sample-format
      table of input-helpers.c needs, since it indexes both. */
  const SFMT_UNDEF: nat := 0
  const SFMT_CU8: nat := 1
  const SFMT_CS16: nat := 2
  const SFMT_CF32: nat := 3
  const SFMT_MAX: nat := 4

  const SCHAR_MAX: real := 127.0
  const SHRT_MAX: real := 32767.0

  const SampleFormatTable: seq<SampleFormatParams> := [
    SampleFormatParams("", 0, 0.0, None),
    SampleFormatParams("CU8", 2, SCHAR_MAX, Some(ConvertCu8)),
    SampleFormatParams("CS16", 4, SHRT_MAX + 0.5, Some(ConvertCs16)),
    SampleFormatParams("CF32", 8, 1.0, Some(ConvertCf32))]

  /** get_sample_size: octets per complex sample, 0 for UNDEF and for anything
      not below SFMT_MAX. */
  function GetSampleSize(format: nat): (size: nat)
    ensures format == SFMT_CU8 ==> size == 2
    ensures format == SFMT_CS16 ==> size == 4
    ensures format == SFMT_CF32 ==> size == 8
    ensures format == SFMT_UNDEF || format >= SFMT_MAX ==> size == 0
  {
    if format < SFMT_MAX then SampleFormatTable[format].sampleSize else 0
  }

  /** get_sample_full_scale_value. */
  function GetSampleFullScale(format: nat): (fs: real)
    ensures fs >= 0.0
    ensures fs > 0.0 <==> SFMT_UNDEF < format < SFMT_MAX
  {
    if format < SFMT_MAX then SampleFormatTable[format].fullScale else 0.0
  }

  /** get_sample_converter: none for UNDEF and for out-of-range formats. */
  function GetSampleConverter(format: nat): (c: Option<Converter>)
    ensures c.None? <==> format == SFMT_UNDEF || format >= SFMT_MAX
    ensures c.Some? ==> SampleSize(c.value) == GetSampleSize(format)
  {
    if format < SFMT_MAX then SampleFormatTable[format].convertFun else None
  }

  /** Octets of one real or imaginary part. */
  function ElemSize(c: Converter): (n: nat)
    ensures n > 0
  {
    match c
    case ConvertCu8 => 1
    case ConvertCs16 => 2
    case ConvertCf32 => 4
  }

  /** Octets of one complex sample: a real and an imaginary part. */
  function SampleSize(c: Converter): nat {
    2 * ElemSize(c)
  }

  // ---------------------------------------------------------------------------
  // sample_format_from_string

  /** tolower in the C locale. */
  function ToLower(ch: char): char {
    if 'A' <= ch <= 'Z' then (ch as int + 32) as char else ch
  }

  /** strcasecmp(a, b) == 0. */
  predicate EqualIgnoreCase(a: string, b: string) {
    |a| == |b| && forall i :: 0 <= i < |a| ==> ToLower(a[i]) == ToLower(b[i])
  }

  /** The first table index at or after i whose name matches, or SFMT_UNDEF. */
  function FirstNameMatch(s: string, i: nat): (f: nat)
    requires i <= SFMT_MAX
    ensures f < SFMT_MAX
    ensures f != SFMT_UNDEF ==> i <= f && EqualIgnoreCase(SampleFormatTable[f].name, s)
    ensures f != SFMT_UNDEF ==> forall j :: i <= j < f ==> !EqualIgnoreCase(SampleFormatTable[j].name, s)
    ensures f == SFMT_UNDEF ==> forall j :: i <= j < SFMT_MAX && j != SFMT_UNDEF ==> !EqualIgnoreCase(SampleFormatTable[j].name, s)
    decreases SFMT_MAX - i
  {
    if i == SFMT_MAX then SFMT_UNDEF
    else if EqualIgnoreCase(SampleFormatTable[i].name, s) then i
    else FirstNameMatch(s, i + 1)
  }

  /** strcasecmp(a, b) == 0, character by character. */
  method StrCaseEq(a: string, b: string) returns (equal: bool)
    ensures equal <==> EqualIgnoreCase(a, b)
  {
    equal := |a| == |b|;
    var k := 0;
    while equal && k < |a|
      invariant 0 <= k <= |a|
      invariant equal ==> |a| == |b| && forall j :: 0 <= j < k ==> ToLower(a[j]) == ToLower(b[j])
      invariant !equal ==> !EqualIgnoreCase(a, b)
    {
      if ToLower(a[k]) != ToLower(b[k]) {
        equal := false;
      }
      k := k + 1;
    }
  }

  /** sample_format_from_string: NULL gives SFMT_UNDEF, otherwise the first
      format whose name matches without regard to case, SFMT_UNDEF if none. */
  method SampleFormatFromString(str: Option<string>) returns (format: nat)
    ensures str.None? ==> format == SFMT_UNDEF
    ensures str.Some? ==> format == FirstNameMatch(str.value, 0)
  {
    if str.None? {
      return SFMT_UNDEF;
    }
    var s := str.value;
    for i := 0 to SFMT_MAX
      invariant FirstNameMatch(s, 0) == FirstNameMatch(s, i)
    {
      var equal := StrCaseEq(SampleFormatTable[i].name, s);
      if equal {
        return i;
      }
    }
    return SFMT_UNDEF;
  }

  /** Every format's own name, in any case, selects it. */
  lemma FormatNamesSelectThemselves(f: nat, s: string)
    requires SFMT_UNDEF < f < SFMT_MAX && EqualIgnoreCase(SampleFormatTable[f].name, s)
    ensures FirstNameMatch(s, 0) == f
  {
    // The names differ in length except CS16 and CF32, which differ in
    // their second letter.
    if f == SFMT_CF32 {
      assert ToLower(s[1]) == ToLower(SampleFormatTable[f].name[1]) == 'f';
      assert !EqualIgnoreCase(SampleFormatTable[SFMT_CS16].name, s);
    }
  }

  /** The lookup ignores case: lower- and upper-case spellings select the
      same format. */
  lemma FormatFromStringIgnoresCase(s: string, t: string)
    requires EqualIgnoreCase(s, t)
    ensures FirstNameMatch(s, 0) == FirstNameMatch(t, 0)
  {
    forall j | 0 <= j < SFMT_MAX
      ensures EqualIgnoreCase(SampleFormatTable[j].name, s) <==> EqualIgnoreCase(SampleFormatTable[j].name, t)
    {
    }
    MatchAgrees(s, t, 0);
  }

  lemma {:induction false} MatchAgrees(s: string, t: string, i: nat)
    requires i <= SFMT_MAX
    requires forall j :: 0 <= j < SFMT_MAX ==>
      (EqualIgnoreCase(SampleFormatTable[j].name, s) <==> EqualIgnoreCase(SampleFormatTable[j].name, t))
    ensures FirstNameMatch(s, i) == FirstNameMatch(t, i)
    decreases SFMT_MAX - i
  {
    if i < SFMT_MAX {
      MatchAgrees(s, t, i + 1);
    }
  }

  // ---------------------------------------------------------------------------
  // convert_cu8, convert_cs16, convert_cf32

  datatype Complex = Complex(re: real, im: real)

  /** One real or imaginary part, scaled. convert_cu8 first subtracts
      full_scale / 2. */
  function Scale(c: Converter, x: real, fullScale: real): real
    requires fullScale > 0.0
  {
    match c
    case ConvertCu8 => (x - fullScale / 2.0) / fullScale
    case _ => x / fullScale
  }

  /** The number of whole samples in len octets: len rounded down to a
      multiple of the sample size, divided by it. */
  function SampleCount(c: Converter, len: nat): (n: nat)
    ensures n * SampleSize(c) <= len < n * SampleSize(c) + SampleSize(c)
  {
    match c
    case ConvertCu8 => len / 2
    case ConvertCs16 => len / 4
    case ConvertCf32 => len / 8
  }

  /** The two parts of every whole sample lie within the raw buffer. */
  lemma PartsFit(c: Converter, len: nat, rawLen: nat)
    requires len <= rawLen * ElemSize(c)
    ensures 2 * SampleCount(c, len) <= rawLen
  {
    match c
    case ConvertCu8 =>
    case ConvertCs16 => assert len <= 2 * rawLen;
    case ConvertCf32 => assert len <= 4 * rawLen;
  }

  /** A convert_* routine: len is rounded down to a whole number of samples
      and each pair of parts raw[2k], raw[2k+1] becomes output k. The input
      buffer holds len octets; raw gives its parts as numbers. */
  method Convert(c: Converter, raw: seq<real>, len: nat, fullScale: real) returns (out: seq<Complex>)
    requires fullScale > 0.0
    requires len <= |raw| * ElemSize(c)
    ensures |out| == SampleCount(c, len)
    ensures forall k :: 0 <= k < |out| ==>
      out[k] == Complex(Scale(c, raw[2 * k], fullScale), Scale(c, raw[2 * k + 1], fullScale))
  {
    var n: nat, partsLen: nat;
    PartsFit(c, len, |raw|);
    match c {
      case ConvertCu8 =>
        n := len - len % 2;
        partsLen := n;
        assert partsLen == 2 * SampleCount(c, len);
      case ConvertCs16 =>
        n := len - len % 4;
        partsLen := n / 2;
        assert partsLen == 2 * SampleCount(c, len);
      case ConvertCf32 =>
        n := len - len % 8;
        partsLen := n / 4;
        assert partsLen == 2 * SampleCount(c, len);
    }
    out := [];
    if n == 0 {
      return;
    }
    var i := 0;
    while i < partsLen
      invariant i == 2 * |out| && i <= partsLen
      invariant forall k :: 0 <= k < |out| ==>
        out[k] == Complex(Scale(c, raw[2 * k], fullScale), Scale(c, raw[2 * k + 1], fullScale))
    {
      var re := Scale(c, raw[i], fullScale);
      var im := Scale(c, raw[i + 1], fullScale);
      out := out + [Complex(re, im)];
      i := i + 2;
    }
  }

  // ---------------------------------------------------------------------------
  // complex_samples_produce

  /** A circular buffer of complex samples (cbuffercf). */
  class CircBuffer {
    var contents: seq<Complex>
    const capacity: nat

    predicate Valid()
      reads this
    {
      |contents| <= capacity
    }

    constructor (capacity: nat)
      ensures Valid() && contents == [] && this.capacity == capacity
    {
      contents := [];
      this.capacity := capacity;
    }

    function SpaceAvailable(): (n: nat)
      reads this
      requires Valid()
      ensures |contents| + n == capacity
    {
      capacity - |contents|
    }

    /** complex_samples_produce: writes as many of the samples as there is
        room for and drops the rest. */
    method Produce(samples: seq<Complex>) returns (lost: nat)
      requires Valid()
      modifies this
      ensures Valid()
      ensures lost == |samples| - WrittenCount(old(SpaceAvailable()), |samples|)
      ensures contents == old(contents) + samples[..WrittenCount(old(SpaceAvailable()), |samples|)]
    {
      var numSamples := |samples|;
      var available := SpaceAvailable();
      lost := 0;
      if available < numSamples {
        lost := numSamples - available;
        numSamples := available;
      }
      contents := contents + samples[..numSamples];
    }
  }

  /** The number of samples a produce call writes. */
  function WrittenCount(available: nat, numSamples: nat): (n: nat)
    ensures n <= available && n <= numSamples
    ensures n == available || n == numSamples
  {
    if available < numSamples then available else numSamples
  }

  /** Nothing is lost while there is room; otherwise the buffer ends full. */
  lemma ProduceFillsOrKeepsAll(available: nat, numSamples: nat)
    ensures numSamples <= available ==> WrittenCount(available, numSamples) == numSamples
    ensures numSamples > available ==> WrittenCount(available, numSamples) == available
  {
  }
}
