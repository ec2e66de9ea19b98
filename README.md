# dumphfdl core, modelled in Dafny

dumphfdl receives and decodes HFDL (ARINC 635 HF Data Link) transmissions.
This project models the parts made of discrete logic and proves properties
about them:

- **Burst framer** (`framer.dfy`). This is the HFDL channel state machine
  from `hfdl.c`. It searches for the A1 and A2 preamble and finds the frame
  type from the M1 sequence with `match_sequence`. It then skips M2 and
  alternates 15-symbol training blocks with 30/2 + 30/2-symbol data blocks
  until `data_segment_cnt` runs out. The model includes the
  `hfdl_frame_params` table, the construction of the M1 and M2 reference
  sequences, the `symbols_wanted` countdown, the A2 retries, the
  training-sequence bit and error count, and the bits that
  `demodulate_user_data` pushes. The channel is a class whose fields the
  methods update in place. Each per-symbol step is proved against a function
  on the state, and a preserved invariant (`Framer.Valid`) and the frame
  length are proved about that function.
- **PDU decoders**. `spdu.dfy` covers squitter bitfield extraction, its
  inverse (the burst a ground station would build), and the text rendering
  with the frequency list. `lpdu.dfy` and `hfnpdu.dfy` cover classification
  by type byte, dispatch to the ACARS and unknown-protocol decoders, and the
  type line of the text.
- **System table** (`systable.dfy`). This is the validator for the
  configuration tree of the system table file: version range, the station
  list, station ids, names, frequencies, and duplicate ids. It also covers
  error-code bookkeeping, the `stations[]` array that is filled in place,
  and the lookups.
- **TTL cache** (`cache.dfy`). It covers insert, delete, lookup with its
  periodic sweep, and expiry by age over a map.
- **Utilities** (`util.dfy`). These are the 16-bytes-per-row `hexdump`,
  `octet_string_copy` and `parse_icao_hex`. `common.dfy` holds the
  decimal/hex printing, zero padding, and dictionary search they share.
- **Sample input** (`input_helpers.dfy`). It covers the sample-format
  table, `sample_format_from_string`, buffer-length truncation in the
  converters, and the overrun clamp of `complex_samples_produce`.
- **Usage text line** (`options.dfy`): the column layout of `describe_option`.
- **Text formatter** (`fmtr_text.dfy`). It covers millisecond rounding and
  carry in timestamps, the `[<kHz> kHz]` header, and the supported data type.
- **Outputs**. `output_tcp.dfy` and `output_rdkafka.dfy` cover key/value
  configuration, supported formats, the SASL settings, and which messages a
  produce call passes on. `output_common.dfy` holds the types they share.
- **Log aggregator** (`log_aggregator.dfy`). This is the helper script that
  appends the lines it receives to stdout or to a file rotated daily or
  hourly. The socket is a sequence of events, each a message with its local
  time or an interrupt with its signal number. The file system is a map from
  name to contents, standard output is a string, and whether `open` succeeds
  is a predicate on the file name.

The model follows the script's code where it departs from its own option
help text:

- `--output-file` is described as the full path of the file to write
  (extras/log_aggregator.py:67). With rotation off, the code opens the
  prefix left after the extension is split off, so `out.log` opens `out`
  (`LogAggregator.NoRotationRun`).
- `--rotate` is described as rotating the file "on top of the day or hour"
  (extras/log_aggregator.py:68). Daily rotation compares only `tm_mday`, so
  a message on the same day of the next month does not rotate
  (`LogAggregator.DailyMissesSameDayNextMonth`).
- The signal handler's `do_exit = True` binds a local name, so the
  module-level flag the loop tests never changes. The loop ends only
  through the `KeyboardInterrupt` the handler raises, after it has printed
  "Got signal N" to stdout. This is an `Interrupt` event
  (`LogAggregator.NothingAfterInterrupt`).
- The sample-format table is modelled with the four entries written in
  `input-helpers.c` (UNDEF, CU8, CS16, CF32).

External calls are inputs or parameters:

- the FCS check;
- libconfig's parsed tree;
- `time()`, `localtime`/`strftime`;
- the correlation counts and demodulator decisions of the DSP chain;
- `REVERSE_BYTE`;
- the protocol-tree text of libacars.

## Model

| member | source | states |
|---|---|---|
| Cache.ExpiredKeys | src/cache.c:109-115 | a key is swept exactly when its entry was created at or before now - ttl |
| Cache.ExpireTable | src/cache.c:89-94 | after the sweep, the table holds exactly the unexpired entries, each unchanged |
| Cache.ExpireCount | src/cache.c:89-94 | entries kept plus entries counted as removed equal the entries there were |
| Cache.ExpireIdempotent | src/cache.c:89-94 | a second sweep at the same time removes nothing and leaves nothing expired |
| Cache.LookupCases | src/cache.c:79-86 | a missing key gives NULL; an entry with created_time + ttl < now gives NULL; an entry with created_time + ttl > now gives the stored data |
| Cache.LookupBoundary | src/cache.c:70-86 | at created_time + ttl == now, the data is returned unless that call's sweep ran, in which case the entry is gone and NULL is returned |
| Cache.Cache.constructor | src/cache.c:32-44 | ttl and interval are kept as given, the table is empty, and the last expiration time is the creation clock |
| Cache.Cache.EntryCreate | src/cache.c:46-56 | the key maps to the caller's creation time and value (NULL allowed); nothing else changes |
| Cache.Cache.EntryDelete | src/cache.c:58-63 | the result is true exactly when the key was present; the key is removed and nothing else changes |
| Cache.Cache.Expire | src/cache.c:89-94 | removes exactly the expired entries and returns how many were removed |
| Cache.Cache.EntryLookup | src/cache.c:65-87 | runs the sweep only when last + interval <= now, then moves the last expiration time to now, and returns the lookup result from the swept table |
| Cache.CreateThenLookup | src/cache.c:46-87 | an entry created at t is found by every lookup before t + ttl |
| Cache.DeleteThenLookup | src/cache.c:58-87 | after a delete, the key is never found |
| Common.Hex2ReadsBack | src/util.c:128-129 | "%02x" of a byte: two lower-case hex digits, high nibble first, that read back as the byte |
| FmtrText.SupportedIffFormatter | src/fmtr-text.c:12-14 | only decoded frames are supported, which is exactly the input the text descriptor has a routine for |
| FmtrText.SupportsDataType | src/fmtr-text.c:12-14 | true exactly for the input kinds the text descriptor has a formatting routine for (decoded frames) |
| FmtrText.RoundMillis | src/fmtr-text.c:19 | round(usec/1000.0) is within half a millisecond of usec, with halves rounded away from zero |
| FmtrText.CarryMillisCorrect | src/fmtr-text.c:17-24 | millis lies in 0..999, the printed instant is within half a millisecond of the timestamp, and seconds carry exactly from 999500 us on |
| FmtrText.NoMillisNoCarry | src/fmtr-text.c:17-25 | with milliseconds off, the seconds are passed on unchanged |
| FmtrText.FormatTimestamp | src/fmtr-text.c:16-38 | the timestamp text as a function of the clock; no contract of its own, its layout is TimestampLayout |
| FmtrText.BuildTimestamp | src/fmtr-text.c:16-38 | the string built by successive appends is the formatted timestamp |
| FmtrText.TimestampLayout | src/fmtr-text.c:31-37 | with milliseconds on: date/time, ".", three digits that read back as the millis, " ", zone; with them off: date/time, " ", zone |
| FmtrText.Header | src/fmtr-text.c:47-48 | the "[%d kHz]" line; no contract of its own, its layout is DecodedMsgLayout |
| FmtrText.FormatDecodedMsg | src/fmtr-text.c:40-56 | the header followed by the tree text; no contract of its own, its layout is DecodedMsgLayout |
| FmtrText.BuildDecodedMsg | src/fmtr-text.c:40-56 | the message built by appends is the header followed by the tree text |
| FmtrText.DecodedMsgLayout | src/fmtr-text.c:47-52 | "[" and digits that read back as freq/1000 (which fits %d), then " kHz]\n", then the tree text unchanged |
| Framer.TrainingTableMatchesT | src/hfdl.c:166-177 | T_seq[0] is the BPSK image of T, most significant bit first, and T_seq[1] is its negation |
| Framer.InitGlobals | src/hfdl.c:244-262 | M1[s][j] is M1_bits[(M_shifts[s] + j) % 127], and M2[s] is the first 15 elements of M1[s] |
| Framer.ThresholdOnCounts | src/hfdl.c:614-615 | the A-sequence test passes exactly when at most 44 or at least 83 of the 127 bits agree |
| Framer.Match | src/hfdl.c:344-357 | returns the first index holding the maximum, -1 exactly when no value exceeds 0, and a result value that bounds all values |
| Framer.MatchSequence | src/hfdl.c:344-357 | the running-maximum loop returns the first strictly greatest index and value, or (-1, 0) |
| Framer.M1MatchInRange | src/hfdl.c:643-649 | whenever the M1 correlation passes the threshold, the index selects one of the 8 hfdl_frame_params rows |
| Framer.DemodBitsLength | src/hfdl.c:380-387 | demodulation pushes arity bits per symbol |
| Framer.DemodBitsLayout | src/hfdl.c:383-386 | pushed bit i*arity + j is bit arity-1-j of the XOR-masked symbol, so the most significant bit goes first |
| Framer.SymbolBitsAt | src/hfdl.c:384-386 | the inner push loop emits bits arity-1 down to 0 |
| Framer.PushSymbol | src/hfdl.c:384-386 | the loop appends exactly those arity bits to the sequence |
| Framer.ResetUserData | src/hfdl.c:285-287 | all eight user_data sequences become empty |
| Framer.TrainingWord | src/hfdl.c:359-367 | pops 15 symbols and assembles their XOR-masked BPSK bits into the T_seq word, first symbol most significant |
| Framer.DemodulateSymbols | src/hfdl.c:376-388 | pops 30 symbols and returns their demodulated bits |
| Framer.ResetIsValid | src/hfdl.c:276-289 | framer_reset gives A1_SEARCH, symbols_wanted 1, 0 retries, BPSK, T_idx 0, zero counters, empty user data, the sampler emitting bits, and bitmask 0; this state satisfies the invariant |
| Framer.SampleReady | src/hfdl.c:596-612 | when every symbol is handled in a state meeting the invariant, the switch's ASSERT and buffer pops are well defined |
| Framer.InFrameAfterDemod | src/hfdl.c:692-701 | each DATA_2 adds 30 x arity bits to the selected user_data, keeping the frame invariant |
| Framer.NextKeepsValid | src/hfdl.c:556-702 | every symbol, whatever the inputs, keeps the framer invariant |
| Framer.KeepsValidSearch | src/hfdl.c:613-641 | the A1 and A2 search states keep the invariant |
| Framer.KeepsValidM1 | src/hfdl.c:642-658 | M1_SEARCH keeps the invariant |
| Framer.KeepsValidM2 | src/hfdl.c:659-668 | M2_SKIP keeps the invariant |
| Framer.KeepsValidEqTrain | src/hfdl.c:669-687 | EQ_TRAIN keeps the invariant |
| Framer.KeepsValidData1 | src/hfdl.c:688-691 | DATA_1 keeps the invariant |
| Framer.KeepsValidData2 | src/hfdl.c:692-701 | DATA_2 keeps the invariant |
| Framer.CountdownOnly | src/hfdl.c:607-610 | while symbols_wanted > 1, the whole new state is the old one with symbols_wanted decremented, T_idx advanced when in EQ_TRAIN (src/hfdl.c:560, before the countdown), and the symbol buffered when the sampler emits symbols; no other field changes |
| Framer.A1Detection | src/hfdl.c:613-627 | a strong A1 correlation moves to A2_SEARCH with 127 wanted, 0 retries, and bitmask by sign; a weak one changes nothing |
| Framer.A2SearchStep | src/hfdl.c:628-641 | an A2 hit moves to M1_SEARCH with 127 wanted; a miss counts a retry, and the third miss in a row resets the framer |
| Framer.M1SearchStep | src/hfdl.c:642-658 | a strong M1 match loads data_segment_cnt (72 or 168) and the arity from its table row and skips M2; a weak one resets |
| Framer.FrameCountdown | src/hfdl.c:659-701 | within a frame, every symbol brings the end-of-frame reset exactly one symbol closer, and the last symbol resets |
| Framer.FrameEndsAfterRemaining | src/hfdl.c:659-701 | from any point of a frame, exactly the remaining count of further symbols ends in the reset state |
| Framer.FrameLength | src/hfdl.c:642-701 | after M1 a frame lasts 15 + 9*15 + 45*n symbols (3390 single slot, 7710 dual slot), i.e. 9 training blocks then n x (DATA_1, DATA_2, training) |
| Framer.FullFrameFillsUserData | src/hfdl.c:326-328 | at the end of a frame, the selected user_data holds exactly the capacity given to it at creation |
| Framer.SwitchSpec | src/hfdl.c:612-702 | the switch on fr_state as a function of the state and the inputs; no contract of its own, Channel.Switch is proved against it and KeepsValidSearch .. KeepsValidData2 state its invariant |
| Framer.Next | src/hfdl.c:556-702 | one symbol as a function of the state and the inputs; no contract of its own, Channel.Step is proved against it and NextKeepsValid, FrameLength and FrameEndsAfterRemaining are about it |
| Framer.Channel.constructor | src/hfdl.c:291-342 | a new channel is in the reset state and satisfies the invariant |
| Framer.Channel.SamplerReset | src/hfdl.c:270-274 | the sampler emits bits and the bitmask is 0; nothing else changes |
| Framer.Channel.FramerReset | src/hfdl.c:276-289 | the new state is the framer_reset state of the old one |
| Framer.Channel.ComputeTrainBitErrorCnt | src/hfdl.c:359-374 | pops 15 symbols and adds 15 and the bit errors against T to the counters |
| Framer.Channel.DemodulateUserData | src/hfdl.c:376-388 | pops 30 symbols and appends their bits to user_data[M1] only |
| Framer.Channel.Step | src/hfdl.c:556-702 | one symbol: T_idx, sampling, countdown, then the switch; the invariant is kept |
| Framer.Channel.Sample | src/hfdl.c:556-606 | T_idx advances in EQ_TRAIN, and the symbol is buffered when emitting symbols |
| Framer.Channel.Switch | src/hfdl.c:612-702 | the switch on fr_state as a whole |
| Framer.Channel.SwitchA1 | src/hfdl.c:613-627 | the A1_SEARCH branch |
| Framer.Channel.SwitchA2 | src/hfdl.c:628-641 | the A2_SEARCH branch, with the pre-increment retry test |
| Framer.Channel.SwitchM1 | src/hfdl.c:642-658 | the M1_SEARCH branch |
| Framer.Channel.StartFrame | src/hfdl.c:648-653 | loads the frame parameters of row m and moves to M2_SKIP with the sampler skipping |
| Framer.Channel.SwitchEqTrain | src/hfdl.c:669-687 | a training block is checked, then another block follows, or data, or the end of frame |
| Framer.Channel.SwitchData2 | src/hfdl.c:692-701 | the data block is demodulated, one segment is counted off, and one training block follows |
| Hfnpdu.Enveloped | src/hfnpdu.c:68-75 | the corrected branch: an SOH byte at buf[2] goes to ACARS with uplink mapped to ground-to-air, otherwise the payload goes to an unknown node; for len >= 3 the region is buf+3, len-3 and equal to the code's; at len 2 it is the empty region at the end of the buffer; the region always lies within the buffer |
| Hfnpdu.EnvelopedAsWritten | src/hfnpdu.c:68-75 | the branch as written: ACARS exactly for an SOH byte at buf[2], and otherwise an unknown node; the region always starts at buf+3, with len-3 taken modulo 2^32 |
| Hfnpdu.EnvelopedAsWrittenOverruns | src/hfnpdu.c:72-74 | as written, len 2 hands over buf+3 with length 2^32-1, outside the buffer |
| Hfnpdu.Parse | src/hfnpdu.c:35-83 | NULL exactly for len 0, or for 0xFF with len < 2; an unknown node over the whole buffer exactly when buf[0] != 0xFF; otherwise type = buf[1], with a next node exactly for enveloped data, built by the corrected envelope branch |
| Hfnpdu.ParseFollowsCodeExceptTwoBytes | src/hfnpdu.c:68-75 | for enveloped data of length >= 3 the parse hands on exactly what the code does; for FF FF it records the empty region where the code hands over buf+3 with length 2^32-1 |
| Hfnpdu.ParseWithinBuffer | src/hfnpdu.c:41-75 | the intended property, with the len-2 branch corrected: every region handed on lies within the buffer (the code breaks it for FF FF, see Findings) |
| Hfnpdu.ParseNeverErr | src/hfnpdu.c:55-81 | consumed_len stays 0, so err is never set |
| Hfnpdu.ParseAcarsDirection | src/hfnpdu.c:69-71 | FF FF 01 ... hands buf+3, len-3 to ACARS, ground-to-air exactly for uplink |
| Hfnpdu.KnownIffListed | src/hfnpdu.c:22-30 | the six type codes are exactly the ones the description table lists |
| Hfnpdu.FormatText | src/hfnpdu.c:91-108 | the "-- Unparseable HFNPDU" line, the type description, or "Unknown HFNPDU type (0x%02x):"; no contract of its own, FormatTextNames and UnparseableUnreachable state its lines |
| Hfnpdu.FormatTextNames | src/hfnpdu.c:103-108 | known types print their description; other types print "Unknown HFNPDU type (0x%02x):" |
| Hfnpdu.UnknownTypeLineInjective | src/hfnpdu.c:106-107 | two unknown types never print the same line |
| Hfnpdu.UnparseableUnreachable | src/hfnpdu.c:99-102 | "-- Unparseable HFNPDU" is printed for no parsed node |
| InputHelpers.GetSampleSize | src/input-helpers.c:128-133 | 2, 4 and 8 octets for CU8, CS16 and CF32; 0 for UNDEF and for every format >= SFMT_MAX |
| InputHelpers.GetSampleFullScale | src/input-helpers.c:135-140 | positive exactly for the three real formats, 0 otherwise |
| InputHelpers.GetSampleConverter | src/input-helpers.c:142-144 | NULL exactly for UNDEF and out-of-range formats; the routine's sample size agrees with the table |
| InputHelpers.FirstNameMatch | src/input-helpers.c:150-155 | the first table entry whose name matches case-insensitively, or UNDEF when none does |
| InputHelpers.SampleFormatFromString | src/input-helpers.c:146-156 | NULL gives UNDEF; otherwise the search loop returns the first case-insensitive name match |
| InputHelpers.FormatNamesSelectThemselves | src/input-helpers.c:101-126 | each of the names CU8, CS16 and CF32, in any letter case, selects its own format |
| InputHelpers.FormatFromStringIgnoresCase | src/input-helpers.c:151 | strings that differ only in letter case select the same format |
| InputHelpers.SampleCount | src/input-helpers.c:12-16 | len is rounded down to a whole number of samples |
| InputHelpers.Convert | src/input-helpers.c:10-78 | emits len / bytes_per_sample samples (none when that is 0), sample k scaled from parts 2k and 2k+1 |
| InputHelpers.CircBuffer.Produce | src/input-helpers.c:80-92 | appends the first min(num_samples, free space) samples and drops (counts as lost) the rest |
| InputHelpers.WrittenCount | src/input-helpers.c:84-88 | the clamped count is at most the free space and the request, and equals one of them |
| InputHelpers.ProduceFillsOrKeepsAll | src/input-helpers.c:83-89 | all samples are written when they fit; otherwise exactly the free space is filled |
| LogAggregator.SplitPath | extras/log_aggregator.py:47-53 | prefix + extension is the path; and when ^(.+)(\.[^.]+)$ matches, they are the regex's two groups (non-empty prefix; "." plus non-dots); otherwise the whole path and "" |
| LogAggregator.OpenKeepsValid | extras/log_aggregator.py:27-38 | open and rotate leave the handle pointing at an existing file |
| LogAggregator.InitKeepsValid | extras/log_aggregator.py:41-54 | init leaves the handle pointing at stdout or an existing file |
| LogAggregator.Aggregator.constructor | extras/log_aggregator.py:64-69 | only the parsed arguments are set |
| LogAggregator.Aggregator.Open | extras/log_aggregator.py:27-38 | reads the clock only when rotating and opens the computed name in append mode, creating it if absent |
| LogAggregator.Aggregator.Init | extras/log_aggregator.py:41-54 | "-" means stdout with rotation forced off; otherwise the path is split and the file opened |
| LogAggregator.Aggregator.Rotate | extras/log_aggregator.py:57-61 | reopens exactly when the compared calendar field differs; otherwise nothing changes |
| LogAggregator.Aggregator.Write | extras/log_aggregator.py:99 | the text is appended verbatim to the current destination |
| LogAggregator.Aggregator.SigHandler | extras/log_aggregator.py:17-20 | "Got signal N\n" is appended to stdout and nothing else changes |
| LogAggregator.OpenSpec | extras/log_aggregator.py:27-38 | the open succeeds exactly when the computed name can be opened, and then the handle is on that name, which exists; a failed open leaves the handle as it was |
| LogAggregator.RotateSpec | extras/log_aggregator.py:57-61 | the rotation check as a function of the state; no contract of its own, RotationReopens and RotationIdempotent state it |
| LogAggregator.Loop | extras/log_aggregator.py:88-99 | the receive loop from a state: a file handle stays on a file that exists; StdoutLoop, FileLoop and RotatingLoop state what it writes |
| LogAggregator.RunSpec | extras/log_aggregator.py:71-99 | the __main__ block as a function of its inputs; no contract of its own, StdoutRun, NoRotationRun and RotatingRun state what it writes |
| LogAggregator.Run | extras/log_aggregator.py:17-99 | the __main__ block with the signal handler: exit 1 on a failed open or bind, then the receive/rotate/write loop, with the handler's "Got signal N" line on stdout at an interrupt; it agrees with RunSpec |
| LogAggregator.StdoutLoop | extras/log_aggregator.py:17-99 | to stdout, the loop writes every message received before the interrupt, in order, followed by the handler's "Got signal N" line when there is an interrupt |
| LogAggregator.StdoutRun | extras/log_aggregator.py:41-45 | with output "-", whatever --rotate says, the file system is untouched and stdout receives the messages, then "Got signal N" on an interrupt |
| LogAggregator.FileLoop | extras/log_aggregator.py:88-99 | without rotation, the open file gets every message before the interrupt appended in order, and stdout gets only the handler's line |
| LogAggregator.NoRotationRun | extras/log_aggregator.py:28-29 | without rotation, a run appends all messages to the bare prefix (out.log gives out), after its earlier contents; stdout holds only the handler's line |
| LogAggregator.RotatingLoop | extras/log_aggregator.py:27-99 | with daily or hourly rotation and every open succeeding: each file ends with its earlier contents and then, in receive order, exactly the texts whose time of last rotation names it; the only new files are such names; stdout gets only the handler's line |
| LogAggregator.RotatingRun | extras/log_aggregator.py:41-99 | a whole rotating run: the file of the start time is created, each file holds its earlier contents then the texts routed to it from the start time on, and the status is 0 exactly on an interrupt |
| LogAggregator.HourlySplit | extras/log_aggregator.py:57-61 | hourly: a message in the opening hour goes to the open file and one in another hour to a different file |
| LogAggregator.NothingAfterInterrupt | extras/log_aggregator.py:88-92 | events after the first interrupt have no effect; the status is 0 when not rotating or when every open succeeds |
| LogAggregator.RotationIdempotent | extras/log_aggregator.py:57-61 | right after a successful rotation, a second rotation at the same time changes nothing |
| LogAggregator.RotationReopens | extras/log_aggregator.py:57-61 | no change when the field matches; otherwise current_tm := now and the dated name is opened, exactly when it can be |
| LogAggregator.DailyNameIffSameDate | extras/log_aggregator.py:30-37 | two times give the same daily name exactly when they have the same year, month and day |
| LogAggregator.HourlyNameIffSameHour | extras/log_aggregator.py:30-37 | two times give the same hourly name exactly when they have the same date and hour |
| LogAggregator.DailyMissesSameDayNextMonth | extras/log_aggregator.py:59 | daily rotation does not fire between 15 March and 15 April, because only tm_mday is compared |
| Lpdu.Parse | src/lpdu.c:41-77 | the type is buf[0] and the buffer is kept; an unknown-protocol child is chained exactly for the type bytes the description table has no name for |
| Lpdu.DescribedIffKnown | src/lpdu.c:25-36 | the switch and the description table name the same nine types |
| Lpdu.DescriptionsNotUnknown | src/lpdu.c:25-36 | no description in the type table begins like "Unknown LPDU type" |
| Lpdu.UnknownChildIffUnknownLine | src/lpdu.c:53-94 | an LPDU has an unknown child exactly when its type line begins "Unknown LPDU type"; that line is "Unknown LPDU type (0x%02x):" with the type byte, and a known type prints its description followed by ":" |
| Lpdu.TypeLine | src/lpdu.c:88-93 | the description of the type or "Unknown LPDU type (0x%02x):"; no contract of its own, UnknownChildIffUnknownLine states both of its lines |
| Options.DescribeOption | src/options.c:7-13 | the usage line; no contract of its own, DescriptionColumn, LineLayout and LongNameOneSpace state its layout |
| Options.Field | src/options.c:12 | "%*s" of "" gives |width| spaces |
| Options.ShiftWidth | src/options.c:8-11 | the padding is 48 - strlen(name) - 4*indent, clamped to at least 1 |
| Options.DescriptionColumn | src/options.c:8-12 | the description starts at column max(48, 4*indent + strlen(name) + 1) and runs to the newline |
| Options.LineLayout | src/options.c:12 | 4*indent spaces, the name, then spaces up to the description |
| Options.LongNameOneSpace | src/options.c:9-11 | a name that reaches the column is followed by exactly one space |
| OutputRdkafka.SaslField | src/output-rdkafka.c:47-56 | a SASL field is set, to its option's value, exactly when all four SASL options are present |
| OutputRdkafka.SupportsFormat | src/output-rdkafka.c:26-28 | TEXT, BASESTATION and JSON are supported and every other format is refused; ProduceSendsSupported shows these are exactly what produce sends |
| OutputRdkafka.Configure | src/output-rdkafka.c:30-77 | fails exactly when brokers or topic is missing; keeps both; acks defaults to "all"; verbose_log is on exactly for "true" |
| OutputRdkafka.InitSettings | src/output-rdkafka.c:98-110 | bootstrap.servers and acks first, and the four SASL settings exactly when all four fields are set; two settings otherwise |
| OutputRdkafka.SaslIffAllFourKeys | src/output-rdkafka.c:98-110 | init always sets bootstrap.servers and acks, and sets the four SASL settings with their values exactly when all four options were given |
| OutputRdkafka.ConfigureReadsOnlyItsKeys | src/output-rdkafka.c:30-77 | options the output does not know make no difference |
| OutputRdkafka.ProduceText | src/output-rdkafka.c:124-156 | the message handed to the producer; no contract of its own, ProduceSendsSupported states it |
| OutputRdkafka.Produce | src/output-rdkafka.c:158-165 | the result is always 0, and a message sent is the whole message in a supported format |
| OutputRdkafka.ProduceSendsSupported | src/output-rdkafka.c:124-165 | a message is sent whole exactly when its format is TEXT, JSON or BASESTATION and it has at least 2 bytes; the result is always 0 |
| OutputTcp.Configure | src/output-tcp.c:23-40 | fails exactly when address or port is missing; otherwise keeps both |
| OutputTcp.SupportsFormat | src/output-tcp.c:19-21 | TEXT and BASESTATION are supported, JSON and every other format are refused; ProduceWritesSupported shows these are exactly what produce writes |
| OutputTcp.ConfigureReadsOnlyItsKeys | src/output-tcp.c:23-40 | options other than address and port make no difference |
| OutputTcp.ProduceText | src/output-tcp.c:78-88 | the bytes handed to write(); no contract of its own, ProduceWritesSupported states them |
| OutputTcp.Produce | src/output-tcp.c:90-97 | the result is always 0, and the bytes written are the whole message in a supported format |
| OutputTcp.ProduceWritesSupported | src/output-tcp.c:78-97 | a message is written whole exactly when its format is TEXT or BASESTATION and it is not empty; the result is always 0 |
| Spdu.Decode | src/spdu.c:62-90 | the corrected decode: every field fits its bit width (ids < 128, freqs < 2^20, frame index < 4096, change note < 4, systable version < 4096), and gs_data[0].id is src_id |
| Spdu.Parse | src/spdu.c:38-96 | no node exactly when shorter than 66 bytes; a failed FCS gives a node with crc_ok false and nothing decoded; the buffer is wrapped; a good FCS gives the corrected decode |
| Spdu.DecodeEncode | src/spdu.c:62-90 | with the corrected 12-bit version, decoding the burst built from any valid field record gives that record back |
| Spdu.DecodeAsWritten | src/spdu.c:62-90 | the decode as written, with the version cut to the uint8_t field of src/spdu.c:28; no contract of its own, DecodeEncodeAsWritten and SystableVersionAsWrittenDropsHighNibble state what it keeps |
| Spdu.DecodeEncodeAsWritten | src/spdu.c:62-90 | as written, the round trip gives back every field but the version, which comes back modulo 256, so it is exact exactly for versions below 256 |
| Spdu.Byte0RoundTrip | src/spdu.c:63-68 | rls = bit 1, version = bits 2-3, iso8208 = bit 5, change_note = bits 6-7, and src_id = low 7 bits of buf[1] |
| Spdu.FrameRoundTrip | src/spdu.c:70-74 | frame index = buf[2] plus the low nibble of buf[3] shifted 8, offset = high nibble of buf[3], and min priority = low nibble of buf[52] |
| Spdu.GsZeroRoundTrip | src/spdu.c:76-78 | the first ground-station entry's id, UTC flag from buf[1] bit 7, and 20-bit frequency mask are recovered |
| Spdu.GsOneRoundTrip | src/spdu.c:82-84 | the second entry is recovered from buf[57..60] |
| Spdu.GsTwoRoundTrip | src/spdu.c:88-90 | the third entry is recovered from buf[60..63] |
| Spdu.ParseEncode | src/spdu.c:38-96 | with the corrected version field, parsing a well-formed burst with a good FCS gives back its fields |
| Spdu.SetBitsMembers | src/spdu.c:154-158 | an index is listed exactly when it is below 20 and its bit is set |
| Spdu.SetBitsAscending | src/spdu.c:154-158 | listed indices are strictly ascending and below the bound |
| Spdu.FreqListComplete | src/spdu.c:147-161 | for a mask below 2^20, the listed bits sum back to the mask, so nothing is lost |
| Spdu.FormatFreqList | src/spdu.c:147-161 | the loop writes the label, then the set bit indices joined by ", ", then EOL |
| Spdu.CrcFailedIgnoresFields | src/spdu.c:114-117 | a node with a failed FCS prints only the optional raw dump and "-- CRC check failed", whatever its fields hold |
| Spdu.FormatText | src/spdu.c:105-134 | raw dump when enabled and non-empty, then the CRC-failed line or the squitter header (with the corrected version) and three station entries |
| Spdu.SpduText | src/spdu.c:105-134 | the node's text as a function; no contract of its own, FormatText is proved against it and CrcFailedIgnoresFields is about it |
| Spdu.FormatStations | src/spdu.c:130-132 | the loop writes the three station entries in order |
| Spdu.FormatGsStatus | src/spdu.c:136-145 | the ID line, the UTC sync line, and the frequency list one level deeper |
| Spdu.SystableVersionAsWrittenDropsHighNibble | src/spdu.c:74 | as written, the kept version equals buf[53]; it equals the 12-bit value exactly when the nibble in buf[54] is 0 |
| Spdu.SystableVersionAsWritten | src/spdu.c:74 | the version as the uint8_t field keeps it is always below 256 |
| Spdu.SystableVersionAsWrittenCounterexample | src/spdu.c:74 | the burst with version 256 is kept as version 0 |
| Spdu.SystableVersionRoundTrip | src/spdu.c:74 | every version 0..4095 is decoded intact |
| Systable.Code | src/systable.c:9-23 | every error code is below 12 |
| Systable.CodeInjective | src/systable.c:9-23 | no two error codes share a value |
| Systable.FirstNonNumber | src/systable.c:260-266 | the frequency loop stops at the first element that is not a number |
| Systable.StationId | src/systable.c:246 | the id of a station that passed its checks is at most 127, within stations[128] |
| Systable.ParseBothChecked | src/systable.c:182-189 | version and stations are both checked, the result is their conjunction, and err holds the later failure |
| Systable.ParseSpec | src/systable.c:182-189 | the parse as a function of the tree and the table; it keeps the 128 station slots (STATION_ID_MAX + 1) |
| Systable.StationsKeepErrOnSuccess | src/systable.c:205-222 | a successful station list leaves err as it was |
| Systable.RegisterAllKeepsRegistered | src/systable.c:286-298 | stations registered earlier stay registered, also when a later one fails |
| Systable.RegisterAllRegistersEach | src/systable.c:205-222 | when the list succeeds, every station passed its checks, their ids are distinct and were free, and each is registered under its id |
| Systable.RegisterDuplicate | src/systable.c:286-298 | a taken id fails with STATION_ID_DUPLICATE and leaves the stations unchanged |
| Systable.StationIdMaxAcceptedButNotFound | src/systable.c:137 | the parser accepts id 127, but the lookup guard as written rejects it |
| Systable.LookupRangeMatchesParser | src/systable.c:246 | the corrected guard admits exactly the ids the parser accepts |
| Systable.SystemTable.constructor | src/systable.c:95-102 | an empty table, the save file path kept, no error |
| Systable.SystemTable.ReadFromFile | src/systable.c:104-114 | an unreadable file sets the libconfig error and changes nothing else; otherwise the tree is kept and parsed |
| Systable.SystemTable.Parse | src/systable.c:182-189 | the table and result are those of the parse specification |
| Systable.SystemTable.ParseVersion | src/systable.c:191-203 | succeeds exactly for an integer version in 0..4095; otherwise err is VERSION_MISSING or VERSION_OUT_OF_RANGE |
| Systable.SystemTable.ParseStations | src/systable.c:205-222 | STATIONS_MISSING unless the stations setting is a list; registers in order and stops at the first failure |
| Systable.SystemTable.ParseStation | src/systable.c:224-236 | a group whose id, name and frequencies are all checked; err is that of the last failing check |
| Systable.SystemTable.AddStation | src/systable.c:286-298 | fills stations[id], or fails on a duplicate |
| Systable.CheckFrequencies | src/systable.c:252-269 | FREQUENCIES_MISSING unless a list; FREQUENCY_WRONG_TYPE if any element is not a number |
| Systable.ErrorTextDefined | src/systable.c:116-125 | every error code of a table has a message, and the message for no error is "no error" |
| Systable.ErrorText | src/systable.c:116-125 | the libconfig text for a libconfig error, otherwise the dictionary message of the code; no contract of its own, ErrorTextDefined states it |
| Systable.GetVersion | src/systable.c:127-133 | -1 for a NULL table and for a table without an integer version setting; otherwise that setting |
| Systable.GetStationName | src/systable.c:135-141 | a name is found only for a registered id in 0..127; below 127 it agrees with the lookup as written |
| Systable.GetStationNameAsWritten | src/systable.c:135-141 | the lookup with the guard id < STATION_ID_MAX; no contract of its own, StationIdMaxAcceptedButNotFound and RegisteredStationFound compare it with the corrected one |
| Systable.RegisteredStationFound | src/systable.c:135-141 | a registered station's name is found by its id, 127 included, while the lookup as written misses 127 |
| Util.RowShape | src/util.c:125-158 | each row is 70 characters, with " \|" before the ASCII column and "\|\n" at the end |
| Util.RowHexAt | src/util.c:126-138 | hex entry k sits at 3k (+1 after the eighth): two lower-case digits, or two spaces past the end, then a space |
| Util.RowAsciiAt | src/util.c:141-154 | ASCII entry k is the byte when it is 32..126, '.' otherwise, and a space past the end |
| Util.RowCountCeil | src/util.c:114-117 | the row count is ceil(len/16) |
| Util.HexdumpFits | src/util.c:114-122 | the text is 70 characters per row, within the 74-byte-per-row allocation |
| Util.Hexdump | src/util.c:109-160 | "<undef>" for NULL, "<none>" for length 0, otherwise the rows |
| Util.HexdumpWithIndent | src/util.c:163-169 | the hexdump text with every line indented; no contract of its own, Hexdump states the text |
| Util.DumpRows | src/util.c:125-158 | the outer loop writes rows 0..ceil(len/16)-1 |
| Util.DumpRow | src/util.c:126-156 | the hex column, " \|", the ASCII column and "\|\n" |
| Util.HexColumn | src/util.c:126-138 | the 16 hex entries of the row |
| Util.AsciiColumn | src/util.c:141-154 | the 16 ASCII entries of the row |
| Util.OctetString.constructor | src/util.c:83-88 | wraps the caller's buffer without copying |
| Util.OctetString.Copy | src/util.c:90-99 | same length; a fresh buffer with the same bytes when there are any, otherwise a NULL buffer; the source is unchanged |
| Util.ParseIcaoHex | src/util.c:206-212 | the loop computes the or of REVERSE_BYTE(buf[i]) << 8(2-i) |
| Util.IcaoAddressLayout | src/util.c:206-212 | the address is below 2^24 and its three bytes are the reversed input bytes, first byte most significant |

## Left out

- The signal processing of `hfdl.c` is not modelled: resampling,
  channelizer, AGC, matched filter, Costas loop, equaliser, demodulators,
  correlation in floating point, and EVM. Each symbol's A-sequence
  agreement count, M1 counts and demodulator decisions are inputs to the
  framer step.
- The decoder thread's barriers and the global statistics `S` are left out.
- The `c->bits` shift register is left out: the correlation counts that it
  feeds are inputs.
- Framer.Window: user_data is modelled as the bits pushed since the reset.
  `Framer.Window` gives the register contents, which match the pushed bits
  once a frame is complete (`FullFrameFillsUserData`).
- Correlation values are exact reals, and CORR_THRESHOLD is exactly 0.3;
  single-precision rounding is not modelled (`ThresholdOnCounts` shows the
  A test is far from the threshold).
- `count_bit_errors` (not part of this model) is taken to be the number of
  differing bits among the 32 bits of its two arguments, the population count
  of their exclusive or (`Framer.CountBitErrors`).
- `REVERSE_BYTE` (not part of this model) is taken as the byte with its
  bits reversed.
- The FCS check `hfdl_pdu_fcs_check` is an input to `Spdu.Parse`.
- `la_acars_parse` and `unknown_proto_pdu_new` are represented by the
  region and direction they are given.
- `LA_ISPRINTF` indentation is taken as one space per level (`Indent`).
  `la_isprintf_multiline_text` is taken to indent every line
  (`Util.IndentLines`).
- The body of the type switch in `hfnpdu_format_text` after `indent++` only
  prints child nodes, so it is left out.
- Lpdu.FormatText has no contract of its own. Its type line is stated, for
  known and unknown types, by `Lpdu.UnknownChildIffUnknownLine`, and its
  optional raw dump by `Util.Hexdump`.
- Memory management is left out: `lpdu_destroy`, `systable_destroy` (which
  has an inverted NULL check), and string copies leaked on failure paths.
- `systable_get_station_frequency` returns a `double` and is left out
  (floating point). Its id guard is the same as the one in
  `systable_get_station_name`.
- Libconfig's 64-bit integer and array types are not distinguished from
  integers and lists.
- `config_error_text` is an input to `Systable.ErrorText`.
- `la_hash` is a map, and insert replaces an existing key.
- `time_t` arithmetic is unbounded, so overflow is not modelled.
- `time(NULL)`, `gmtime`/`localtime` and `strftime` are parameters, and so
  is `time.localtime` in the aggregator.
- `format_timestamp` is modelled, although the only caller shown has its
  call commented out.
- `EOL` is "\n".
- `output_format_t` (`output-common.h`) is reduced to the values the code
  tests, with every other value as `OfmtOther`.
- `sample_format` as declared at src/input-common.h:16-22 comments out
  `SFMT_CU8` and has no `SFMT_CF32`, so it reads UNDEF = 0, CS16 = 1, MAX = 2. The table in
  `input-helpers.c` indexes `[SFMT_CU8]` and `[SFMT_CF32]`, so the model
  assumes UNDEF = 0, CU8 = 1, CS16 = 2, CF32 = 3, MAX = 4, the order that
  table needs (`InputHelpers.GetSampleSize` and the other table readers).
- Sockets are left out: ZMQ bind and receive, TCP connect and write, and
  librdkafka producer creation, produce and poll.
- Also left out:
  - the `rdkafka_conf_set` failure exit;
  - the verbose log line;
  - the aggregator's signal-handler installation;
  - the input mutex and condition signal.
- Sample values are exact reals, so single-precision rounding in the
  converters is not modelled.
- The circular buffer `cbuffercf` is a sequence with a capacity.
- The libacars protocol-tree text is an input to the text formatter.
- Spdu.Decode: decodes the 12-bit system table version, the corrected half of
  the src/spdu.c:74 finding. `Spdu.Parse`, `Spdu.FormatText`,
  `Spdu.DecodeEncode` and `Spdu.ParseEncode` follow it. The code keeps only
  buf[53], so it stores and prints version % 256; `Spdu.DecodeAsWritten` and
  `Spdu.DecodeEncodeAsWritten` state what the code keeps.
- Hfnpdu.Parse: uses the corrected enveloped-data branch of the
  src/hfnpdu.c:72-74 finding. For FF FF (len 2) it records the empty region
  at the end of the buffer, where the code hands `unknown_proto_pdu_new`
  buf + 3 with length 2^32 - 1. `Hfnpdu.ParseWithinBuffer` is the intended
  property, true of the corrected parse only;
  `Hfnpdu.ParseFollowsCodeExceptTwoBytes` shows the parse and the code agree
  at every other length.
- LogAggregator.Loop: one clock reading, the event's `now`, serves both
  clock reads of a rotation: the comparison in `out_file_rotate`
  (extras/log_aggregator.py:58) and the naming in `out_file_open`
  (extras/log_aggregator.py:31). The two separate `localtime(time())` calls
  could straddle an hour or day boundary, and that is not modelled.
- LogAggregator.Loop: interrupts happen only while `recv_string` is blocked.
  A signal during a rotation or a write (extras/log_aggregator.py:93-99) is
  not caught there, so the script dies with a KeyboardInterrupt traceback,
  which the model cannot express.
- LogAggregator.Loop: an exception from `self.fh.write`
  (extras/log_aggregator.py:99) is not modelled; writes always succeed.
- The aggregator's messages to stderr ("Could not open output file",
  "Could not rotate output file", "Exiting") are not modelled; only their
  exit statuses are.

## Findings

| source | as written | input that shows it | evidently intended | confidence | as-written member | corrected member |
|---|---|---|---|---|---|---|
| src/spdu.c:74 | the 12-bit system table version `buf[53] \| (buf[54] & 0xF) << 8` is stored in the `uint8_t` field declared at src/spdu.c:28, so the high nibble is lost | buf[53] = 0 and buf[54] = 0x01 (version 256) is kept and printed as 0 | keep all 12 bits (versions 0..4095, the range the system table parser accepts) | high, not executed | Spdu.SystableVersionAsWrittenCounterexample | Spdu.SystableVersionRoundTrip |
| src/hfnpdu.c:72-74 | enveloped data that is not ACARS is handed to `unknown_proto_pdu_new(buf + 3, len - 3)` even at len == 2, where the unsigned `len - 3` wraps | FF FF (len 2) gives a node over buf+3 with length 2^32-1 | no payload (or none past the two bytes there are) when len < 3 | high, not executed | Hfnpdu.EnvelopedAsWrittenOverruns | Hfnpdu.Enveloped |
| src/systable.c:137 | the lookup guard is `id < STATION_ID_MAX`, but the parser accepts ids up to STATION_ID_MAX (src/systable.c:246) and the array has STATION_ID_MAX+1 slots | a station with id 127 is registered but its name is never found | `id <= STATION_ID_MAX`, the parser's range | medium, not executed | Systable.StationIdMaxAcceptedButNotFound | Systable.RegisteredStationFound |
