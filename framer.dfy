// The HFDL burst framer of a channel: the per-symbol state machine that
// looks for the A1/A2 preamble, identifies the frame type from the M1
// sequence, skips M2, and then interleaves 15-symbol training blocks with
// 30-symbol data blocks whose bits it collects in user_data.
//
// The signal processing in front of the framer (resampling, AGC, matched
// filter, Costas loop, equaliser, demodulators, bit correlation) is not
// part of this model: for every symbol the framer receives the results it
// would have computed, as an `Input`.

module Framer {

  const A_LEN: int := 127
  const M1_LEN: int := 127
  const M2_LEN: int := 15
  const M_SHIFT_CNT: int := 8
  const T_LEN: int := 15
  const DATA_FRAME_LEN: int := 30
  const MAX_SEARCH_RETRIES: int := 3
  const SYMBUFFER_SIZE: int := 30
  /** CORR_THRESHOLD (0.3f), taken as the exact decimal value. */
  const CORR_THRESHOLD: real := 0.3
  /** The training sequence T, 15 bits, most significant first. */
  const T: bv32 := 0x9AF

  datatype SamplerState = EmitBits | EmitSymbols | Skip

  datatype FrState = A1Search | A2Search | M1Search | M2Skip | EqTrain | Data1 | Data2

  /** mod_arity; the enumeration values are the numbers of bits per symbol. */
  datatype ModArity = MUnknown | Bpsk | Psk4 | Psk8
  {
    function Bits(): nat {
      match this
      case MUnknown => 0
      case Bpsk => 1
      case Psk4 => 2
      case Psk8 => 3
    }
  }

  datatype FrameParams = FrameParams(scheme: ModArity, dataSegmentCnt: nat, codeRate: nat)

  /** hfdl_frame_params, indexed by the M1 sequence found: 300, 600, 1200 and
      1800 bps, single slot (0-3) and dual slot (4-7). */
  const FrameParamsTable: seq<FrameParams> := [
    FrameParams(Bpsk, 72, 4), FrameParams(Bpsk, 72, 2), FrameParams(Psk4, 72, 2), FrameParams(Psk8, 72, 2),
    FrameParams(Bpsk, 168, 4), FrameParams(Bpsk, 168, 2), FrameParams(Psk4, 168, 2), FrameParams(Psk8, 168, 2)
  ]

  /** The number of bits given to user_data[i] at channel creation. */
  function Capacity(i: int): nat
    requires 0 <= i < M_SHIFT_CNT
  {
    FrameParamsTable[i].dataSegmentCnt * DATA_FRAME_LEN * FrameParamsTable[i].scheme.Bits()
  }

  /** The reference training symbols T_seq[bitmask & 1][k] (real parts; the imaginary parts are 0). */
  const TSeq: seq<seq<int>> := [
    [1, 1, 1, -1, 1, 1, -1, -1, 1, -1, 1, -1, -1, -1, -1],
    [-1, -1, -1, 1, -1, -1, 1, 1, -1, 1, -1, 1, 1, 1, 1]
  ]

  // ---------------------------------------------------------------------------
  // Reference sequences built by hfdl_init_globals

  const M1Bits: seq<nat> := [
    0,1,1,1,0,1,1,0,1,1,1,1,0,1,0,0,0,1,0,1,1,0,0,
    1,0,1,1,1,1,1,0,0,0,1,0,0,0,0,0,0,1,1,0,0,1,1,0,1,1,
    0,0,0,1,1,1,0,0,1,1,1,0,1,0,1,1,1,0,0,0,0,1,0,0,1,1,
    0,0,0,0,0,1,0,1,0,1,0,1,1,0,1,0,0,1,0,0,1,0,1,0,0,1,
    1,1,1,0,0,1,0,0,0,1,1,0,1,0,1,0,0,0,0,1,1,1,1,1,1,1
  ]

  const MShifts: seq<nat> := [72, 82, 113, 123, 61, 103, 93, 9]

  /** Bit `b` of x, as 0/1. */
  function Bit(x: bv32, b: nat): bv32
    requires b < 32
  {
    (x >> b) & 1
  }

  /** The training symbols agree with T: T_seq[0] is the BPSK image of T
      (bit 0 -> +1, bit 1 -> -1, most significant bit first) and T_seq[1] its negation. */
  lemma TrainingTableMatchesT()
    ensures |TSeq| == 2 && |TSeq[0]| == T_LEN && |TSeq[1]| == T_LEN
    ensures forall k :: 0 <= k < T_LEN ==> TSeq[0][k] == (if Bit(T, 14 - k) == 1 then -1 else 1)
    ensures forall k :: 0 <= k < T_LEN ==> TSeq[1][k] == -TSeq[0][k]
  {
    assert Bit(T, 14) == 0 && Bit(T, 13) == 0 && Bit(T, 12) == 0 && Bit(T, 11) == 1;
    assert Bit(T, 10) == 0 && Bit(T, 9) == 0 && Bit(T, 8) == 1 && Bit(T, 7) == 1;
    assert Bit(T, 6) == 0 && Bit(T, 5) == 1 && Bit(T, 4) == 0 && Bit(T, 3) == 1;
    assert Bit(T, 2) == 1 && Bit(T, 1) == 1 && Bit(T, 0) == 1;
  }

  /** hfdl_init_globals: M1[s] pushes M1_bits[(M_shifts[s] + j) % 127] for j < 127,
      and M2[s] the same for j < 15. */
  method InitGlobals() returns (m1: seq<seq<nat>>, m2: seq<seq<nat>>)
    ensures |m1| == M_SHIFT_CNT && |m2| == M_SHIFT_CNT
    ensures forall s :: 0 <= s < M_SHIFT_CNT ==> |m1[s]| == M1_LEN && |m2[s]| == M2_LEN
    ensures forall s, j :: 0 <= s < M_SHIFT_CNT && 0 <= j < M1_LEN ==>
              m1[s][j] == M1Bits[(MShifts[s] + j) % M1_LEN]
    ensures forall s :: 0 <= s < M_SHIFT_CNT ==> m2[s] == m1[s][..M2_LEN]
  {
    m1, m2 := [], [];
    for shift := 0 to M_SHIFT_CNT
      invariant |m1| == shift && |m2| == shift
      invariant forall s :: 0 <= s < shift ==> |m1[s]| == M1_LEN && |m2[s]| == M2_LEN
      invariant forall s, j :: 0 <= s < shift && 0 <= j < M1_LEN ==>
                  m1[s][j] == M1Bits[(MShifts[s] + j) % M1_LEN]
      invariant forall s :: 0 <= s < shift ==> m2[s] == m1[s][..M2_LEN]
    {
      var a: seq<nat> := [];
      var b: seq<nat> := [];
      for j := 0 to M1_LEN
        invariant |a| == j
        invariant forall k :: 0 <= k < j ==> a[k] == M1Bits[(MShifts[shift] + k) % M1_LEN]
      {
        a := a + [M1Bits[(MShifts[shift] + j) % M1_LEN]];
      }
      for j := 0 to M2_LEN
        invariant |b| == j
        invariant forall k :: 0 <= k < j ==> b[k] == M1Bits[(MShifts[shift] + k) % M1_LEN]
      {
        b := b + [M1Bits[(MShifts[shift] + j) % M1_LEN]];
      }
      assert b == a[..M2_LEN];
      m1, m2 := m1 + [a], m2 + [b];
    }
  }

  // ---------------------------------------------------------------------------
  // Correlation outcomes and match_sequence

  function Abs(x: real): real {
    if x < 0.0 then -x else x
  }

  /** 2 * bsequence_correlate / length - 1: +1 when all bits agree, -1 when all differ. */
  function SignedCorr(count: nat, len: nat): real
    requires len > 0
  {
    2.0 * (count as real) / (len as real) - 1.0
  }

  /** The per-template values match_sequence compares: |2 * correlate / seq_len - 1|. */
  function Corrs(counts: seq<nat>, len: nat): (c: seq<real>)
    requires len > 0
    ensures |c| == |counts|
  {
    seq(|counts|, k requires 0 <= k < |counts| => Abs(SignedCorr(counts[k], len)))
  }

  /** The A-sequence threshold test on the integer count of agreeing bits:
      |2c/127 - 1| > 0.3 exactly when at most 44 or at least 83 of the 127 bits agree.
      The nearest values on either side (|2c - 127|/127 of 37/127 and 39/127)
      are far from the threshold, so single-precision rounding does not change the outcome. */
  lemma ThresholdOnCounts(count: nat)
    ensures Abs(SignedCorr(count, A_LEN)) > CORR_THRESHOLD <==> count <= 44 || count >= 83
  {
    var c := SignedCorr(count, A_LEN);
    assert c * 127.0 == 2.0 * (count as real) - 127.0;
  }

  /** (max_idx, max_corr) of match_sequence: the first index whose value is
      strictly greater than every earlier one and than 0. */
  function Match(c: seq<real>): (r: (int, real))
    ensures -1 <= r.0 < |c|
    ensures r.0 == -1 <==> forall k :: 0 <= k < |c| ==> c[k] <= 0.0
    ensures r.0 == -1 ==> r.1 == 0.0
    ensures r.0 >= 0 ==> r.1 == c[r.0] && r.1 > 0.0
    ensures forall k :: 0 <= k < |c| ==> c[k] <= r.1
    ensures forall k :: 0 <= k < r.0 ==> c[k] < r.1
  {
    if |c| == 0 then (-1, 0.0)
    else
      var (i, m) := Match(c[..|c| - 1]);
      if c[|c| - 1] > m then (|c| - 1, c[|c| - 1]) else (i, m)
  }

  /** match_sequence: scans the templates keeping the running maximum. */
  method MatchSequence(counts: seq<nat>, seqLen: nat) returns (maxIdx: int, resultCorr: real)
    requires seqLen > 0
    ensures (maxIdx, resultCorr) == Match(Corrs(counts, seqLen))
  {
    ghost var c := Corrs(counts, seqLen);
    var maxCorr := 0.0;
    maxIdx := -1;
    for idx := 0 to |counts|
      invariant (maxIdx, maxCorr) == Match(c[..idx])
    {
      var corr := Abs(2.0 * (counts[idx] as real) / (seqLen as real) - 1.0);
      assert c[..idx + 1][..idx] == c[..idx];
      if corr > maxCorr {
        maxCorr := corr;
        maxIdx := idx;
      }
    }
    assert c[..|counts|] == c;
    resultCorr := maxCorr;
  }

  /** Whenever the best M1 value passes the threshold, the index is a valid
      row of hfdl_frame_params. */
  lemma M1MatchInRange(counts: seq<nat>)
    requires |counts| == M_SHIFT_CNT
    ensures var (idx, corr) := Match(Corrs(counts, M1_LEN));
            Abs(corr) > CORR_THRESHOLD ==> 0 <= idx < M_SHIFT_CNT
  {
  }

  // ---------------------------------------------------------------------------
  // Training blocks and data blocks

  /** What the demodulators produce for one symbol: the BPSK decision and the
      decision of the current data modem. The program's BPSK decision is 0 or
      1, and the data decision is below 2^arity; the model admits any value,
      and TrainWord ORs higher BPSK bits in, as the code's expression would. */
  datatype Symbol = Symbol(bpsk: bv32, data: bv32)

  /** The T_seq word compute_train_bit_error_cnt assembles: each BPSK bit,
      XORed with bit 0 of the bitmask, shifted in from the right. */
  function TrainWord(syms: seq<Symbol>, bitmask: bv32): bv32
  {
    if |syms| == 0 then 0
    else (TrainWord(syms[..|syms| - 1], bitmask) << 1) | (syms[|syms| - 1].bpsk ^ (bitmask & 1))
  }

  lemma TrainWordSnoc(syms: seq<Symbol>, i: nat, bitmask: bv32)
    requires i < |syms|
    ensures TrainWord(syms[..i + 1], bitmask)
         == (TrainWord(syms[..i], bitmask) << 1) | (syms[i].bpsk ^ (bitmask & 1))
  {
    assert syms[..i + 1][..i] == syms[..i];
  }

  /** count_bit_errors: the number of bit positions in which a and b differ. */
  function CountBitErrors(a: bv32, b: bv32): nat {
    var x := a ^ b;
    CountTrue(seq(32, i requires 0 <= i < 32 => Bit(x, i) == 1))
  }

  function CountTrue(s: seq<bool>): (r: nat)
    ensures r <= |s|
  {
    if |s| == 0 then 0 else (if s[0] then 1 else 0) + CountTrue(s[1..])
  }

  /** The bits one data symbol contributes, bit arity-1 first: bsequence_push keeps bit 0 of bits >> j. */
  function SymbolBits(x: bv32, arity: nat): (r: seq<bool>)
    requires arity <= 32
    ensures |r| == arity
  {
    if arity == 0 then [] else [Bit(x, arity - 1) == 1] + SymbolBits(x, arity - 1)
  }

  /** The bits demodulate_user_data pushes for a run of data symbols. */
  function DemodBits(syms: seq<Symbol>, arity: nat, bitmask: bv32): seq<bool>
    requires arity <= 32
  {
    if |syms| == 0 then []
    else DemodBits(syms[..|syms| - 1], arity, bitmask) + SymbolBits(syms[|syms| - 1].data ^ bitmask, arity)
  }

  /** Each symbol contributes exactly arity bits. */
  lemma {:induction false} DemodBitsLength(syms: seq<Symbol>, arity: nat, bitmask: bv32)
    requires arity <= 32
    ensures |DemodBits(syms, arity, bitmask)| == |syms| * arity
    decreases |syms|
  {
    if |syms| > 0 {
      var n := |syms| - 1;
      DemodBitsLength(syms[..n], arity, bitmask);
      assert n * arity + arity == (n + 1) * arity;
    }
  }

  lemma DemodBitsSnoc(syms: seq<Symbol>, i: nat, arity: nat, bitmask: bv32)
    requires i < |syms| && arity <= 32
    ensures DemodBits(syms[..i + 1], arity, bitmask)
         == DemodBits(syms[..i], arity, bitmask) + SymbolBits(syms[i].data ^ bitmask, arity)
  {
    assert syms[..i + 1][..i] == syms[..i];
  }

  /** Bit j of the arity bits pushed for symbol i is bit arity-1-j of that
      symbol's decision: symbols in order, most significant bit first. */
  lemma DemodBitsLayout(syms: seq<Symbol>, arity: nat, bitmask: bv32, i: nat, j: nat)
    requires arity <= 32 && i < |syms| && j < arity
    ensures i * arity + j < |DemodBits(syms, arity, bitmask)|
    ensures DemodBits(syms, arity, bitmask)[i * arity + j] == (Bit(syms[i].data ^ bitmask, arity - 1 - j) == 1)
  {
    var x := DemodBits(syms[..i], arity, bitmask);
    var y := SymbolBits(syms[i].data ^ bitmask, arity);
    var z := DemodBits(syms[i + 1..], arity, bitmask);
    DemodBitsSplit(syms, arity, bitmask, i);
    DemodBitsLength(syms[..i], arity, bitmask);
    DemodBitsLength(syms, arity, bitmask);
    MulLess(i, j, arity, |syms|);
    ConcatIndex(x, y, z, j);
    SymbolBitsAt(syms[i].data ^ bitmask, arity, j);
  }

  lemma DemodBitsSplit(syms: seq<Symbol>, arity: nat, bitmask: bv32, i: nat)
    requires arity <= 32 && i < |syms|
    ensures DemodBits(syms, arity, bitmask)
         == DemodBits(syms[..i], arity, bitmask) + SymbolBits(syms[i].data ^ bitmask, arity)
            + DemodBits(syms[i + 1..], arity, bitmask)
  {
    assert syms == syms[..i + 1] + syms[i + 1..];
    DemodBitsAppend(syms[..i + 1], syms[i + 1..], arity, bitmask);
    DemodBitsSnoc(syms, i, arity, bitmask);
  }

  lemma ConcatIndex<T>(x: seq<T>, y: seq<T>, z: seq<T>, j: nat)
    requires j < |y|
    ensures (x + y + z)[|x| + j] == y[j]
  {
  }

  /** One more symbol adds its arity bits at the end. */
  lemma DemodBitsPush(syms: seq<Symbol>, last: Symbol, arity: nat, bitmask: bv32)
    requires arity <= 32
    ensures DemodBits(syms + [last], arity, bitmask) == DemodBits(syms, arity, bitmask) + SymbolBits(last.data ^ bitmask, arity)
  {
    var t := syms + [last];
    assert t[..|t| - 1] == syms && t[|t| - 1] == last;
  }

  lemma {:induction false} DemodBitsAppend(a: seq<Symbol>, b: seq<Symbol>, arity: nat, bitmask: bv32)
    requires arity <= 32
    ensures DemodBits(a + b, arity, bitmask) == DemodBits(a, arity, bitmask) + DemodBits(b, arity, bitmask)
    decreases |b|
  {
    if |b| == 0 {
      assert a + b == a;
    } else {
      var b', last := b[..|b| - 1], b[|b| - 1];
      assert a + b == (a + b') + [last] && b == b' + [last];
      DemodBitsPush(a + b', last, arity, bitmask);
      DemodBitsPush(b', last, arity, bitmask);
      DemodBitsAppend(a, b', arity, bitmask);
      AppendAssoc(DemodBits(a, arity, bitmask), DemodBits(b', arity, bitmask), SymbolBits(last.data ^ bitmask, arity));
    }
  }

  lemma AppendAssoc<T>(x: seq<T>, y: seq<T>, z: seq<T>)
    ensures (x + y) + z == x + (y + z)
  {
  }

  lemma {:induction false} SymbolBitsAt(x: bv32, arity: nat, k: nat)
    requires k < arity <= 32
    ensures SymbolBits(x, arity)[k] == (Bit(x, arity - 1 - k) == 1)
    decreases arity
  {
    if k > 0 {
      SymbolBitsAt(x, arity - 1, k - 1);
    }
  }

  lemma MulLess(i: nat, j: nat, a: nat, n: nat)
    requires i < n && j < a
    ensures i * a + j < n * a
  {
    assert (i + 1) * a <= n * a;
  }

  /** The inner loop of demodulate_user_data: bsequence_push(bs, bits >> j) for
      j = arity-1 down to 0. */
  method PushSymbol(bs: seq<bool>, bits: bv32, arity: nat) returns (r: seq<bool>)
    requires arity <= 32
    ensures r == bs + SymbolBits(bits, arity)
  {
    r := bs;
    var j: int := arity as int - 1;
    while j >= 0
      invariant -1 <= j < arity
      invariant r == bs + SymbolBits(bits, arity)[..arity - 1 - j]
    {
      SymbolBitsAt(bits, arity, arity - 1 - j);
      assert SymbolBits(bits, arity)[..arity - j]
          == SymbolBits(bits, arity)[..arity - 1 - j] + [Bit(bits, j) == 1];
      r := r + [(bits >> j) & 1 == 1];
      j := j - 1;
    }
    assert SymbolBits(bits, arity)[..arity] == SymbolBits(bits, arity);
  }

  /** The loop of framer_reset that resets each of the eight user_data sequences. */
  method ResetUserData(ud: seq<seq<bool>>) returns (r: seq<seq<bool>>)
    requires |ud| == M_SHIFT_CNT
    ensures r == EmptyUserData()
  {
    r := ud;
    for i := 0 to M_SHIFT_CNT
      invariant |r| == M_SHIFT_CNT
      invariant forall k :: 0 <= k < i ==> r[k] == []
    {
      r := r[i := []];
    }
    assert forall k :: 0 <= k < M_SHIFT_CNT ==> r[k] == EmptyUserData()[k];
  }

  /** The loop of compute_train_bit_error_cnt: 15 symbols leave the buffer
      and their BPSK bits, corrected by the bitmask, form T_seq. */
  method TrainingWord(buffer: seq<Symbol>, bitmask: bv32) returns (tSeq: bv32, rest: seq<Symbol>)
    requires |buffer| >= T_LEN
    ensures tSeq == TrainWord(buffer[..T_LEN], bitmask)
    ensures rest == buffer[T_LEN..]
  {
    rest := buffer;
    tSeq := 0;
    for i := 0 to T_LEN
      invariant rest == buffer[i..]
      invariant tSeq == TrainWord(buffer[..i], bitmask)
    {
      var s := rest[0];
      rest := rest[1..];
      TrainWordSnoc(buffer, i, bitmask);
      var bit := s.bpsk ^ (bitmask & 1);
      tSeq := (tSeq << 1) | bit;
    }
  }

  /** The pop-and-push loop of demodulate_user_data: 30 symbols leave the
      buffer and their bits are produced in order. */
  method DemodulateSymbols(buffer: seq<Symbol>, arity: nat, bitmask: bv32)
    returns (bits: seq<bool>, rest: seq<Symbol>)
    requires |buffer| >= DATA_FRAME_LEN && arity <= 32
    ensures bits == DemodBits(buffer[..DATA_FRAME_LEN], arity, bitmask)
    ensures rest == buffer[DATA_FRAME_LEN..]
  {
    rest := buffer;
    bits := [];
    for i := 0 to DATA_FRAME_LEN
      invariant rest == buffer[i..]
      invariant bits == DemodBits(buffer[..i], arity, bitmask)
    {
      var s := rest[0];
      rest := rest[1..];
      bits := PushSymbol(bits, s.data ^ bitmask, arity);
      DemodBitsSnoc(buffer, i, arity, bitmask);
    }
  }

  // ---------------------------------------------------------------------------
  // The framer state: the fields of struct hfdl_channel the framer uses, plus
  // the decoder thread's M1_match.

  datatype State = State(
    frState: FrState, sState: SamplerState, symbolsWanted: int, searchRetries: int,
    eqTrainSeqCnt: int, dataSegmentCnt: int, dataModArity: ModArity, currentModArity: ModArity,
    trainBitsTotal: int, trainBitsBad: int, tIdx: int, bitmask: bv32,
    symbols: seq<Symbol>,            // the cbuffer of SYMBUFFER_SIZE symbols, oldest first
    userData: seq<seq<bool>>,        // per frame type: the bits pushed since the last reset
    m1Match: int)

  /** The eight user_data sequences right after bsequence_reset. */
  function EmptyUserData(): (u: seq<seq<bool>>)
    ensures |u| == M_SHIFT_CNT && forall i :: 0 <= i < M_SHIFT_CNT ==> u[i] == []
  {
    [[], [], [], [], [], [], [], []]
  }

  /** The contents of the bsequence user_data[i]: a shift register of Capacity(i)
      bits, zero after reset, into which every push shifts one bit from the right. */
  function Window(pushed: seq<bool>, capacity: nat): (w: seq<bool>)
    ensures |w| == capacity
  {
    var padded := seq(capacity, _ => false) + pushed;
    padded[|padded| - capacity..]
  }

  /** sampler_reset. */
  function SamplerResetSpec(f: State): State {
    f.(sState := EmitBits, bitmask := 0)
  }

  /** framer_reset: data_segment_cnt, eq_train_seq_cnt, data_mod_arity, the
      symbol buffer and M1_match keep their values. */
  function FramerResetSpec(f: State): State {
    SamplerResetSpec(f.(frState := A1Search, symbolsWanted := 1, searchRetries := 0,
                        currentModArity := Bpsk, trainBitsTotal := 0, trainBitsBad := 0,
                        tIdx := 0, userData := EmptyUserData()))
  }

  /** The state framer_reset leaves, whatever the other fields hold. */
  predicate IsReset(f: State) {
    && f.frState == A1Search && f.symbolsWanted == 1 && f.searchRetries == 0
    && f.currentModArity == Bpsk && f.trainBitsTotal == 0 && f.trainBitsBad == 0 && f.tIdx == 0
    && f.userData == EmptyUserData() && f.sState == EmitBits && f.bitmask == 0
  }

  /** compute_train_bit_error_cnt: pops 15 symbols and adds their errors against T. */
  function TrainSpec(f: State): State
    requires |f.symbols| >= T_LEN
  {
    var errors := CountBitErrors(T, TrainWord(f.symbols[..T_LEN], f.bitmask));
    f.(symbols := f.symbols[T_LEN..], trainBitsTotal := f.trainBitsTotal + T_LEN,
       trainBitsBad := f.trainBitsBad + errors)
  }

  /** demodulate_user_data(c, m): pops 30 symbols and pushes data_mod_arity bits per symbol. */
  function DemodSpec(f: State, m: int): State
    requires |f.symbols| >= DATA_FRAME_LEN && 0 <= m < |f.userData|
  {
    var bits := DemodBits(f.symbols[..DATA_FRAME_LEN], f.dataModArity.Bits(), f.bitmask);
    f.(symbols := f.symbols[DATA_FRAME_LEN..], userData := f.userData[m := f.userData[m] + bits])
  }

  /** What one symbol brings the framer, computed upstream: the A-sequence
      correlation count, the count for each of the eight M1 templates, and the
      demodulator decisions. */
  datatype Input = Input(aCorrelation: nat, m1Correlations: seq<nat>, symbol: Symbol)

  predicate InputOk(x: Input) {
    |x.m1Correlations| == M_SHIFT_CNT
  }

  /** The part of each symbol's work before the countdown test: the
      training-sequence index advances in EQ_TRAIN, and the sampler stores the
      symbol when it emits symbols. */
  function SampleSpec(f: State, sym: Symbol): State
    requires f.frState == EqTrain ==> 0 <= f.tIdx < T_LEN      // T_seq[..][T_idx] is read
    requires f.sState == EmitSymbols ==> |f.symbols| < SYMBUFFER_SIZE   // ASSERT(space != 0)
  {
    var f1 := if f.frState == EqTrain then f.(tIdx := f.tIdx + 1) else f;
    if f1.sState == EmitSymbols then f1.(symbols := f1.symbols + [sym]) else f1
  }

  /** The facts the switch needs to be well defined: the sizes its ASSERT and
      pops rely on, and a valid M1_match where user data is demodulated. */
  predicate SwitchReady(g: State) {
    && |g.userData| == M_SHIFT_CNT
    && (g.frState == EqTrain ==> |g.symbols| == T_LEN)
    && (g.frState == Data2 ==> |g.symbols| == DATA_FRAME_LEN && 0 <= g.m1Match < M_SHIFT_CNT
                               && g.dataModArity.Bits() <= 3)
  }

  /** The switch on fr_state, run when symbols_wanted has counted down to 1. */
  function SwitchSpec(g: State, x: Input): State
    requires SwitchReady(g) && InputOk(x)
  {
    match g.frState
    case A1Search => SwitchA1Spec(g, x)
    case A2Search => SwitchA2Spec(g, x)
    case M1Search => SwitchM1Spec(g, x)
    case M2Skip =>
      g.(symbols := [], symbolsWanted := T_LEN, eqTrainSeqCnt := 9, frState := EqTrain,
         sState := EmitSymbols)
    case EqTrain => SwitchEqTrainSpec(g)
    case Data1 =>
      g.(symbolsWanted := DATA_FRAME_LEN / 2, frState := Data2)
    case Data2 => SwitchData2Spec(g)
  }

  /** A1_SEARCH: a strong correlation fixes the polarity and waits for A2. */
  function SwitchA1Spec(g: State, x: Input): State {
    var corr := SignedCorr(x.aCorrelation, A_LEN);
    if Abs(corr) > CORR_THRESHOLD then
      g.(bitmask := if corr > 0.0 then 0 else 0xFFFF_FFFF, symbolsWanted := A_LEN,
         searchRetries := 0, frState := A2Search)
    else g
  }

  /** A2_SEARCH: a hit waits for M1; the third miss in a row resets the framer. */
  function SwitchA2Spec(g: State, x: Input): State {
    if Abs(SignedCorr(x.aCorrelation, A_LEN)) > CORR_THRESHOLD then
      g.(symbolsWanted := M1_LEN, searchRetries := 0, frState := M1Search)
    else if g.searchRetries + 1 >= MAX_SEARCH_RETRIES then
      FramerResetSpec(g.(searchRetries := g.searchRetries + 1))
    else g.(searchRetries := g.searchRetries + 1)
  }

  /** M1_SEARCH: the best template, if strong enough, selects the frame parameters. */
  function SwitchM1Spec(g: State, x: Input): State
    requires InputOk(x)
  {
    var (idx, corr) := Match(Corrs(x.m1Correlations, M1_LEN));
    var g1 := g.(m1Match := idx);
    if Abs(corr) > CORR_THRESHOLD then
      M1MatchInRange(x.m1Correlations);
      g1.(dataSegmentCnt := FrameParamsTable[idx].dataSegmentCnt,
          dataModArity := FrameParamsTable[idx].scheme, symbolsWanted := M2_LEN,
          searchRetries := 0, frState := M2Skip, sState := Skip)
    else FramerResetSpec(g1)
  }

  /** EQ_TRAIN: one training block is compared with T_seq; after the last one
      either the data blocks follow or, with no segment left, the frame ends. */
  function SwitchEqTrainSpec(g: State): State
    requires |g.symbols| >= T_LEN
  {
    var g1 := TrainSpec(g).(symbols := []);
    if g1.eqTrainSeqCnt > 1 then
      g1.(eqTrainSeqCnt := g1.eqTrainSeqCnt - 1, symbolsWanted := T_LEN, tIdx := 0)
    else if g1.dataSegmentCnt > 0 then
      g1.(symbolsWanted := DATA_FRAME_LEN / 2, frState := Data1, currentModArity := g1.dataModArity)
    else FramerResetSpec(g1)
  }

  /** DATA_2: the 30 data symbols are demodulated into user_data[M1_match],
      and one training block follows. */
  function SwitchData2Spec(g: State): State
    requires |g.symbols| >= DATA_FRAME_LEN && 0 <= g.m1Match < |g.userData|
  {
    DemodSpec(g, g.m1Match).(dataSegmentCnt := g.dataSegmentCnt - 1, currentModArity := Bpsk,
                              frState := EqTrain, eqTrainSeqCnt := 1, symbolsWanted := T_LEN,
                              tIdx := 0, symbols := [])
  }

  // ---------------------------------------------------------------------------
  // The invariant of every reachable state

  /** Facts that hold from M1 detection to the end of the frame: M1_match
      selects a table row, the arity and segment count come from that row, only
      that row's user data has bits, and it has 30 * arity bits for every data
      block already demodulated. */
  predicate InFrame(f: State) {
    && |f.userData| == M_SHIFT_CNT
    && 0 <= f.m1Match < M_SHIFT_CNT
    && f.dataModArity == FrameParamsTable[f.m1Match].scheme
    && 0 <= f.dataSegmentCnt <= FrameParamsTable[f.m1Match].dataSegmentCnt
    && |f.userData[f.m1Match]|
       == (FrameParamsTable[f.m1Match].dataSegmentCnt - f.dataSegmentCnt) * DATA_FRAME_LEN * f.dataModArity.Bits()
    && (forall i :: 0 <= i < M_SHIFT_CNT && i != f.m1Match ==> f.userData[i] == [])
  }

  predicate Searching(f: State) {
    && f.sState == EmitBits && f.symbols == [] && f.tIdx == 0 && f.currentModArity == Bpsk
    && f.userData == EmptyUserData()
  }

  predicate Valid(f: State) {
    && |f.userData| == M_SHIFT_CNT
    && f.symbolsWanted >= 1
    && (f.bitmask == 0 || f.bitmask == 0xFFFF_FFFF)
    && match f.frState
       case A1Search => Searching(f) && f.symbolsWanted == 1 && f.searchRetries == 0 && f.bitmask == 0
       case A2Search => Searching(f) && 0 <= f.searchRetries < MAX_SEARCH_RETRIES
                        && (f.searchRetries > 0 ==> f.symbolsWanted == 1)
       case M1Search => Searching(f)
       case M2Skip => f.sState == Skip && f.symbols == [] && f.tIdx == 0 && f.currentModArity == Bpsk
                      && f.symbolsWanted <= M2_LEN && InFrame(f)
                      && f.dataSegmentCnt == FrameParamsTable[f.m1Match].dataSegmentCnt
       case EqTrain => f.sState == EmitSymbols && f.currentModArity == Bpsk && InFrame(f)
                       && f.symbolsWanted <= T_LEN && |f.symbols| + f.symbolsWanted == T_LEN
                       && f.tIdx + f.symbolsWanted == T_LEN && f.eqTrainSeqCnt >= 1
       case Data1 => f.sState == EmitSymbols && f.currentModArity == f.dataModArity && InFrame(f)
                     && f.dataSegmentCnt >= 1 && f.symbolsWanted <= DATA_FRAME_LEN / 2
                     && |f.symbols| + f.symbolsWanted == DATA_FRAME_LEN / 2
       case Data2 => f.sState == EmitSymbols && f.currentModArity == f.dataModArity && InFrame(f)
                     && f.dataSegmentCnt >= 1 && f.symbolsWanted <= DATA_FRAME_LEN / 2
                     && |f.symbols| + f.symbolsWanted == DATA_FRAME_LEN
  }

  lemma ResetIsValid(f: State)
    requires f.symbols == []
    ensures IsReset(FramerResetSpec(f)) && Valid(FramerResetSpec(f))
  {
  }

  /** One symbol as the decoder thread handles it: sampling, the countdown,
      and the switch once symbols_wanted is 1. */
  function Next(f: State, x: Input): State
    requires Valid(f) && InputOk(x)
  {
    var g := SampleSpec(f, x.symbol);
    if g.symbolsWanted > 1 then g.(symbolsWanted := g.symbolsWanted - 1)
    else
      SampleReady(f, x.symbol);
      SwitchSpec(g, x)
  }

  lemma SampleReady(f: State, sym: Symbol)
    requires Valid(f) && f.symbolsWanted == 1
    ensures SwitchReady(SampleSpec(f, sym))
  {
  }

  lemma InFrameAfterDemod(g: State)
    requires SwitchReady(g) && g.frState == Data2 && InFrame(g) && g.dataSegmentCnt >= 1
    ensures InFrame(DemodSpec(g, g.m1Match).(dataSegmentCnt := g.dataSegmentCnt - 1))
  {
    var m := g.m1Match;
    var b := g.dataModArity.Bits();
    var n := FrameParamsTable[m].dataSegmentCnt;
    var d := g.dataSegmentCnt;
    DemodBitsLength(g.symbols[..DATA_FRAME_LEN], b, g.bitmask);
    assert (n - d) * DATA_FRAME_LEN * b + DATA_FRAME_LEN * b == (n - (d - 1)) * DATA_FRAME_LEN * b;
  }

  /** Every symbol keeps the invariant. */
  lemma NextKeepsValid(f: State, x: Input)
    requires Valid(f) && InputOk(x)
    ensures Valid(Next(f, x))
  {
    match f.frState
    case A1Search => KeepsValidSearch(f, x);
    case A2Search => KeepsValidSearch(f, x);
    case M1Search => KeepsValidM1(f, x);
    case M2Skip => KeepsValidM2(f, x);
    case EqTrain => KeepsValidEqTrain(f, x);
    case Data1 => KeepsValidData1(f, x);
    case Data2 => KeepsValidData2(f, x);
  }

  lemma KeepsValidSearch(f: State, x: Input)
    requires Valid(f) && InputOk(x) && (f.frState == A1Search || f.frState == A2Search)
    ensures Valid(Next(f, x))
  {
    if f.symbolsWanted == 1 {
      SampleReady(f, x.symbol);
    }
  }

  lemma KeepsValidM1(f: State, x: Input)
    requires Valid(f) && InputOk(x) && f.frState == M1Search
    ensures Valid(Next(f, x))
  {
    if f.symbolsWanted == 1 {
      SampleReady(f, x.symbol);
      M1MatchInRange(x.m1Correlations);
    }
  }

  lemma KeepsValidM2(f: State, x: Input)
    requires Valid(f) && InputOk(x) && f.frState == M2Skip
    ensures Valid(Next(f, x))
  {
    if f.symbolsWanted == 1 {
      SampleReady(f, x.symbol);
    }
  }

  lemma KeepsValidEqTrain(f: State, x: Input)
    requires Valid(f) && InputOk(x) && f.frState == EqTrain
    ensures Valid(Next(f, x))
  {
    if f.symbolsWanted == 1 {
      SampleReady(f, x.symbol);
    }
  }

  lemma KeepsValidData1(f: State, x: Input)
    requires Valid(f) && InputOk(x) && f.frState == Data1
    ensures Valid(Next(f, x))
  {
    if f.symbolsWanted == 1 {
      SampleReady(f, x.symbol);
    }
  }

  lemma KeepsValidData2(f: State, x: Input)
    requires Valid(f) && InputOk(x) && f.frState == Data2
    ensures Valid(Next(f, x))
  {
    var g := SampleSpec(f, x.symbol);
    if g.symbolsWanted == 1 {
      SampleReady(f, x.symbol);
      InFrameAfterDemod(g);
    }
  }

  /** Before symbols_wanted reaches 1 a symbol only counts down; besides that,
      as on every symbol, T_idx advances in EQ_TRAIN and the symbol is buffered
      when the sampler emits symbols. No other field changes. */
  lemma CountdownOnly(f: State, x: Input)
    requires Valid(f) && InputOk(x) && f.symbolsWanted > 1
    ensures Next(f, x) == f.(symbolsWanted := f.symbolsWanted - 1,
                             tIdx := if f.frState == EqTrain then f.tIdx + 1 else f.tIdx,
                             symbols := if f.sState == EmitSymbols then f.symbols + [x.symbol] else f.symbols)
  {
  }

  /** A1 detection: a strong A correlation fixes the polarity and waits 127 symbols for A2. */
  lemma A1Detection(f: State, x: Input)
    requires Valid(f) && InputOk(x) && f.frState == A1Search
    ensures var corr := SignedCorr(x.aCorrelation, A_LEN);
            var n := Next(f, x);
            && (Abs(corr) > CORR_THRESHOLD ==>
                  n.frState == A2Search && n.symbolsWanted == A_LEN && n.searchRetries == 0
                  && n.bitmask == (if corr > 0.0 then 0 else 0xFFFF_FFFF))
            && (Abs(corr) <= CORR_THRESHOLD ==> n == f)
  {
  }

  /** A2 search: a hit waits 127 symbols for M1; each miss checks again on the
      next symbol, and the third consecutive miss resets the framer. */
  lemma A2SearchStep(f: State, x: Input)
    requires Valid(f) && InputOk(x) && f.frState == A2Search && f.symbolsWanted == 1
    ensures var n := Next(f, x);
            && (Abs(SignedCorr(x.aCorrelation, A_LEN)) > CORR_THRESHOLD ==>
                  n.frState == M1Search && n.symbolsWanted == M1_LEN && n.searchRetries == 0)
            && (Abs(SignedCorr(x.aCorrelation, A_LEN)) <= CORR_THRESHOLD ==>
                  if f.searchRetries == MAX_SEARCH_RETRIES - 1 then IsReset(n)
                  else n.frState == A2Search && n.symbolsWanted == 1
                       && n.searchRetries == f.searchRetries + 1)
  {
  }

  /** M1 search: a strong match loads the row of hfdl_frame_params it selects
      (72 segments single slot, 168 dual slot) and skips M2; a weak one resets. */
  lemma M1SearchStep(f: State, x: Input)
    requires Valid(f) && InputOk(x) && f.frState == M1Search && f.symbolsWanted == 1
    ensures var (idx, corr) := Match(Corrs(x.m1Correlations, M1_LEN));
            var n := Next(f, x);
            && (Abs(corr) > CORR_THRESHOLD ==>
                  && 0 <= idx < M_SHIFT_CNT && n.m1Match == idx
                  && n.dataSegmentCnt == (if idx < 4 then 72 else 168)
                  && n.dataModArity == FrameParamsTable[idx].scheme
                  && n.frState == M2Skip && n.sState == Skip && n.symbolsWanted == M2_LEN)
            && (Abs(corr) <= CORR_THRESHOLD ==> IsReset(n))
  {
    M1MatchInRange(x.m1Correlations);
  }

  // ---------------------------------------------------------------------------
  // Frame length

  predicate InFrameState(f: State) {
    f.frState in {M2Skip, EqTrain, Data1, Data2}
  }

  /** Symbols left until the end-of-frame reset: the rest of the current block,
      the remaining training blocks, and 45 symbols (two data halves and one
      training block) for every data segment left. */
  function Remaining(f: State): int
    requires InFrameState(f)
  {
    match f.frState
    case M2Skip => f.symbolsWanted + 9 * T_LEN + f.dataSegmentCnt * 45
    case EqTrain => f.symbolsWanted + (f.eqTrainSeqCnt - 1) * T_LEN + f.dataSegmentCnt * 45
    case Data1 => f.symbolsWanted + 30 + (f.dataSegmentCnt - 1) * 45
    case Data2 => f.symbolsWanted + 15 + (f.dataSegmentCnt - 1) * 45
  }

  /** Inside a frame every symbol brings the end exactly one symbol closer,
      whatever the inputs, and the last one resets the framer. */
  lemma FrameCountdown(f: State, x: Input)
    requires Valid(f) && InputOk(x) && InFrameState(f)
    ensures Remaining(f) >= 1
    ensures Remaining(f) > 1 ==> InFrameState(Next(f, x)) && Remaining(Next(f, x)) == Remaining(f) - 1
    ensures Remaining(f) == 1 ==> IsReset(Next(f, x))
  {
    var g := SampleSpec(f, x.symbol);
    if g.symbolsWanted == 1 {
      SampleReady(f, x.symbol);
    }
  }

  /** Symbols handled one after another. */
  function Run(f: State, xs: seq<Input>): State
    requires Valid(f) && forall k :: 0 <= k < |xs| ==> InputOk(xs[k])
    decreases |xs|
  {
    if |xs| == 0 then f
    else
      NextKeepsValid(f, xs[0]);
      Run(Next(f, xs[0]), xs[1..])
  }

  /** From any point of a frame, exactly Remaining(f) further symbols end it. */
  lemma {:induction false} FrameEndsAfterRemaining(f: State, xs: seq<Input>)
    requires Valid(f) && InFrameState(f) && (forall k :: 0 <= k < |xs| ==> InputOk(xs[k]))
    requires |xs| == Remaining(f)
    ensures IsReset(Run(f, xs))
    decreases |xs|
  {
    FrameCountdown(f, xs[0]);
    NextKeepsValid(f, xs[0]);
    var n := Next(f, xs[0]);
    if |xs| == 1 {
      assert Run(n, xs[1..]) == n;
    } else {
      FrameEndsAfterRemaining(n, xs[1..]);
    }
  }

  /** After the M1 symbol a frame of n data segments lasts 15 (M2) + 9 * 15
      (training) + n * 45 symbols: 3390 for single-slot and 7710 for dual-slot frames. */
  lemma FrameLength(f: State, x: Input)
    requires Valid(f) && InputOk(x) && f.frState == M1Search && f.symbolsWanted == 1
    requires Abs(Match(Corrs(x.m1Correlations, M1_LEN)).1) > CORR_THRESHOLD
    ensures var n := Next(f, x);
            && InFrameState(n)
            && Remaining(n) == 150 + 45 * FrameParamsTable[n.m1Match].dataSegmentCnt
            && Remaining(n) == (if n.m1Match < 4 then 3390 else 7710)
  {
    M1SearchStep(f, x);
  }

  /** At the end-of-frame reset the selected user_data holds exactly its
      capacity: one push per bit of every data block, so the shift register
      holds the frame's bits and nothing else. */
  lemma FullFrameFillsUserData(f: State)
    requires Valid(f) && f.frState == EqTrain && f.dataSegmentCnt == 0
    ensures |f.userData[f.m1Match]| == Capacity(f.m1Match)
    ensures Window(f.userData[f.m1Match], Capacity(f.m1Match)) == f.userData[f.m1Match]
  {
  }

  // ---------------------------------------------------------------------------
  // The channel object

  class Channel {
    var frState: FrState
    var sState: SamplerState
    var symbolsWanted: int
    var searchRetries: int
    var eqTrainSeqCnt: int
    var dataSegmentCnt: int
    var dataModArity: ModArity
    var currentModArity: ModArity
    var trainBitsTotal: int
    var trainBitsBad: int
    var tIdx: int
    var bitmask: bv32
    var symbols: seq<Symbol>
    var userData: seq<seq<bool>>
    var m1Match: int

    ghost function Snapshot(): State
      reads this
    {
      State(frState, sState, symbolsWanted, searchRetries, eqTrainSeqCnt, dataSegmentCnt,
            dataModArity, currentModArity, trainBitsTotal, trainBitsBad, tIdx, bitmask,
            symbols, userData, m1Match)
    }

    /** hfdl_channel_create (zero-filled struct, empty buffers, framer_reset)
        and the decoder thread's M1_match = -1. */
    constructor ()
      ensures IsReset(Snapshot()) && Valid(Snapshot())
      ensures symbols == [] && dataSegmentCnt == 0 && eqTrainSeqCnt == 0 && dataModArity == MUnknown
    {
      frState, sState := A1Search, EmitBits;
      symbolsWanted, searchRetries, eqTrainSeqCnt, dataSegmentCnt := 0, 0, 0, 0;
      dataModArity, currentModArity := MUnknown, MUnknown;
      trainBitsTotal, trainBitsBad, tIdx, bitmask := 0, 0, 0, 0;
      symbols := [];
      userData := EmptyUserData();
      m1Match := -1;
      new;
      FramerReset();
    }

    method SamplerReset()
      modifies this
      ensures Snapshot() == SamplerResetSpec(old(Snapshot()))
    {
      sState := EmitBits;
      bitmask := 0;
    }

    method FramerReset()
      requires |userData| == M_SHIFT_CNT
      modifies this
      ensures Snapshot() == FramerResetSpec(old(Snapshot()))
    {
      frState := A1Search;
      symbolsWanted := 1;
      searchRetries := 0;
      currentModArity := Bpsk;
      trainBitsTotal, trainBitsBad := 0, 0;
      tIdx := 0;
      userData := ResetUserData(userData);
      assert Snapshot() == old(Snapshot()).(frState := A1Search, symbolsWanted := 1, searchRetries := 0,
                                            currentModArity := Bpsk, trainBitsTotal := 0, trainBitsBad := 0,
                                            tIdx := 0, userData := EmptyUserData());
      SamplerReset();
    }

    method ComputeTrainBitErrorCnt()
      requires |symbols| >= T_LEN
      modifies this
      ensures Snapshot() == TrainSpec(old(Snapshot()))
    {
      var tSeq, rest := TrainingWord(symbols, bitmask);
      var errorCnt := CountBitErrors(T, tSeq);
      symbols := rest;
      trainBitsTotal := trainBitsTotal + T_LEN;
      trainBitsBad := trainBitsBad + errorCnt;
    }

    method DemodulateUserData(m: int)
      requires 0 <= m < |userData| && |symbols| >= DATA_FRAME_LEN && dataModArity.Bits() <= 3
      modifies this
      ensures Snapshot() == DemodSpec(old(Snapshot()), m)
    {
      var bits, rest := DemodulateSymbols(symbols, dataModArity.Bits(), bitmask);
      symbols := rest;
      userData := userData[m := userData[m] + bits];
    }

    /** One symbol of the decoder thread's inner loop, from the T_seq lookup on. */
    method Step(x: Input)
      requires Valid(Snapshot()) && InputOk(x)
      modifies this
      ensures Snapshot() == Next(old(Snapshot()), x)
      ensures Valid(Snapshot())
    {
      ghost var f := Snapshot();
      NextKeepsValid(f, x);
      Sample(x.symbol);
      if symbolsWanted > 1 {
        symbolsWanted := symbolsWanted - 1;
        return;
      }
      SampleReady(f, x.symbol);
      Switch(x);
    }

    /** The T_idx advance of EQ_TRAIN and the sampler's share of one symbol. */
    method Sample(sym: Symbol)
      requires frState == EqTrain ==> 0 <= tIdx < T_LEN
      requires sState == EmitSymbols ==> |symbols| < SYMBUFFER_SIZE
      modifies this
      ensures Snapshot() == SampleSpec(old(Snapshot()), sym)
    {
      if frState == EqTrain {
        tIdx := tIdx + 1;
      }
      if sState == EmitBits {
        // pushes into the 127-bit search register, which the correlation inputs summarise
      } else if sState == EmitSymbols {
        symbols := symbols + [sym];
      }
    }

    /** The switch on fr_state. */
    method Switch(x: Input)
      requires SwitchReady(Snapshot()) && InputOk(x)
      modifies this
      ensures Snapshot() == SwitchSpec(old(Snapshot()), x)
    {
      match frState
      case A1Search =>
        SwitchA1(x);
      case A2Search =>
        SwitchA2(x);
      case M1Search =>
        SwitchM1(x);
      case M2Skip =>
        symbols := [];
        symbolsWanted := T_LEN;
        eqTrainSeqCnt := 9;
        frState := EqTrain;
        sState := EmitSymbols;
      case EqTrain =>
        SwitchEqTrain();
      case Data1 =>
        symbolsWanted := DATA_FRAME_LEN / 2;
        frState := Data2;
      case Data2 =>
        SwitchData2();
    }

    method SwitchA1(x: Input)
      requires SwitchReady(Snapshot()) && InputOk(x) && frState == A1Search
      modifies this
      ensures Snapshot() == SwitchA1Spec(old(Snapshot()), x)
    {
      var corrA1 := 2.0 * (x.aCorrelation as real) / (A_LEN as real) - 1.0;
      if Abs(corrA1) > CORR_THRESHOLD {
        bitmask := if corrA1 > 0.0 then 0 else 0xFFFF_FFFF;
        symbolsWanted := A_LEN;
        searchRetries := 0;
        frState := A2Search;
      }
    }

    method SwitchA2(x: Input)
      requires SwitchReady(Snapshot()) && InputOk(x) && frState == A2Search
      modifies this
      ensures Snapshot() == SwitchA2Spec(old(Snapshot()), x)
    {
      var corrA2 := 2.0 * (x.aCorrelation as real) / (A_LEN as real) - 1.0;
      if Abs(corrA2) > CORR_THRESHOLD {
        symbolsWanted := M1_LEN;
        searchRetries := 0;
        frState := M1Search;
      } else {
        searchRetries := searchRetries + 1;
        if searchRetries >= MAX_SEARCH_RETRIES {
          FramerReset();
        }
      }
    }

    method SwitchM1(x: Input)
      requires SwitchReady(Snapshot()) && InputOk(x) && frState == M1Search
      modifies this
      ensures Snapshot() == SwitchM1Spec(old(Snapshot()), x)
    {
      var idx, corrM1 := MatchSequence(x.m1Correlations, M1_LEN);
      M1MatchInRange(x.m1Correlations);
      m1Match := idx;
      if Abs(corrM1) > CORR_THRESHOLD {
        StartFrame(idx);
      } else {
        FramerReset();
      }
    }

    /** The M1 hit: the frame parameters of row m are loaded and M2 is skipped. */
    method StartFrame(m: int)
      requires 0 <= m < M_SHIFT_CNT
      modifies this
      ensures Snapshot() == old(Snapshot()).(dataSegmentCnt := FrameParamsTable[m].dataSegmentCnt,
                                             dataModArity := FrameParamsTable[m].scheme, symbolsWanted := M2_LEN,
                                             searchRetries := 0, frState := M2Skip, sState := Skip)
    {
      dataSegmentCnt := FrameParamsTable[m].dataSegmentCnt;
      dataModArity := FrameParamsTable[m].scheme;
      symbolsWanted := M2_LEN;
      searchRetries := 0;
      frState := M2Skip;
      sState := Skip;
    }

    method SwitchEqTrain()
      requires SwitchReady(Snapshot()) && frState == EqTrain
      modifies this
      ensures Snapshot() == SwitchEqTrainSpec(old(Snapshot()))
    {
      ComputeTrainBitErrorCnt();
      symbols := [];
      if eqTrainSeqCnt > 1 {
        eqTrainSeqCnt := eqTrainSeqCnt - 1;
        symbolsWanted := T_LEN;
        tIdx := 0;
      } else if dataSegmentCnt > 0 {
        symbolsWanted := DATA_FRAME_LEN / 2;
        frState := Data1;
        currentModArity := dataModArity;
      } else {
        FramerReset();
      }
    }

    method SwitchData2()
      requires SwitchReady(Snapshot()) && frState == Data2
      modifies this
      ensures Snapshot() == SwitchData2Spec(old(Snapshot()))
    {
      DemodulateUserData(m1Match);
      dataSegmentCnt := dataSegmentCnt - 1;
      currentModArity := Bpsk;
      frState := EqTrain;
      eqTrainSeqCnt := 1;
      symbolsWanted := T_LEN;
      tIdx := 0;
      symbols := [];
    }
  }
}
