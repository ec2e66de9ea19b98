// The log aggregator: receives text lines and appends them to standard
// output or to a file that is optionally rotated daily or hourly.
//
// The subscribe socket becomes a sequence of events (a message stamped with
// the local time at which it is handled, or the interrupt raised by the
// signal handler, with its signal number), the file system a map from file
// name to contents, the process's standard output a string, and the success
// of each `open` a predicate on the file name.

module LogAggregator {
  import opened Common

  /** The --rotate choice; NoRotation is Python's None. */
  datatype Rotation = NoRotation | Daily | Hourly

  /** The fields of time.localtime() that the aggregator formats or compares. */
  datatype Tm = Tm(year: nat, mon: nat, mday: nat, hour: nat, min: nat, sec: nat)

  predicate ValidTm(t: Tm) {
    1 <= t.year && 1 <= t.mon <= 12 && 1 <= t.mday <= 31 && t.hour < 24 && t.min < 60 && t.sec <= 61
  }

  /** Where writes go: nothing yet, sys.stdout, or a file opened in append mode. */
  datatype Handle = NoHandle | Stdout | File(name: string)

  /** One event seen by the receive loop: a received string with the local
      time at which it is handled, or a signal whose handler raises
      KeyboardInterrupt while recv is blocked. */
  datatype Event = Message(text: string, now: Tm) | Interrupt(signum: nat)

  /** What sighandler prints to sys.stdout before raising KeyboardInterrupt. */
  function SignalLine(signum: nat): string {
    "Got signal " + Dec(signum) + "\n"
  }

  /** How a run ends: sys.exit(status), or still blocked in recv when the events run out. */
  datatype Outcome = Exited(status: nat) | Receiving

  /** The sink state held in the attributes of `self`, with the file system and stdout. */
  datatype Sink = Sink(rotate: Rotation, prefix: string, extension: string, currentTm: Tm,
                       fh: Handle, files: map<string, string>, stdout: string)

  /** Every handle the sink writes to exists in the file system. */
  predicate SinkValid(s: Sink) {
    s.fh.File? ==> s.fh.name in s.files
  }

  // ---------------------------------------------------------------------------
  // Path split by re.match("^(.+)(\.[^.]+)$", path)

  /** The regular expression matches with group 2 starting at index p:
      group 1 (".+", no newline) is path[..p], group 2 is "." and at least one non-dot. */
  ghost predicate RegexMatchAt(path: string, p: int) {
    && 1 <= p < |path| - 1
    && path[p] == '.'
    && (forall k :: p < k < |path| ==> path[k] != '.')
    && (forall k :: 0 <= k < p ==> path[k] != '\n')
  }

  /** Index of the last '.' in s, or -1. */
  function LastDot(s: string): (p: int)
    ensures -1 <= p < |s|
    ensures p >= 0 ==> s[p] == '.'
    ensures forall k :: p < k < |s| ==> s[k] != '.'
  {
    if |s| == 0 then -1
    else if s[|s| - 1] == '.' then |s| - 1
    else LastDot(s[..|s| - 1])
  }

  predicate NoNewline(s: string) {
    forall k :: 0 <= k < |s| ==> s[k] != '\n'
  }

  /** (filename_prefix, extension) as out_file_init computes them. */
  function SplitPath(path: string): (r: (string, string))
    ensures r.0 + r.1 == path
    ensures r.1 == "" ==> r.0 == path
    ensures r.1 != "" ==> |r.0| >= 1 && |r.1| >= 2 && r.1[0] == '.'
                          && forall k :: 1 <= k < |r.1| ==> r.1[k] != '.'
    ensures r.1 != "" <==> exists p :: RegexMatchAt(path, p)
    ensures forall p :: RegexMatchAt(path, p) ==> r == (path[..p], path[p..])
  {
    var p := LastDot(path);
    RegexMatchIffLastDot(path);
    if 1 <= p < |path| - 1 && NoNewline(path[..p]) then
      (path[..p], path[p..])
    else
      (path, "")
  }

  /** Group 2 can only start at the last dot. */
  lemma RegexMatchIsLastDot(path: string, p: int)
    requires RegexMatchAt(path, p)
    ensures p == LastDot(path)
  {
  }

  /** The regex matches exactly when the last dot can start group 2. */
  lemma RegexMatchIffLastDot(path: string)
    ensures (exists p :: RegexMatchAt(path, p))
            <==> 1 <= LastDot(path) < |path| - 1 && NoNewline(path[..LastDot(path)])
    ensures forall p :: RegexMatchAt(path, p) ==> p == LastDot(path)
  {
    var q := LastDot(path);
    forall p | RegexMatchAt(path, p)
      ensures p == q && NoNewline(path[..q])
    {
      RegexMatchIsLastDot(path, p);
      forall k | 0 <= k < q
        ensures path[..q][k] != '\n'
      {
        assert path[..q][k] == path[k];
      }
    }
    if 1 <= q < |path| - 1 && NoNewline(path[..q]) {
      forall k | 0 <= k < q
        ensures path[k] != '\n'
      {
        assert path[..q][k] == path[k];
      }
      assert RegexMatchAt(path, q);
    }
  }

  // ---------------------------------------------------------------------------
  // File names

  /** time.strftime("_%Y%m%d") or ("_%Y%m%d_%H") of the local time. */
  function TimeSuffix(r: Rotation, t: Tm): string
    requires r != NoRotation
  {
    var day := "_" + Dec(t.year) + ZeroPadDec(t.mon, 2) + ZeroPadDec(t.mday, 2);
    if r == Daily then day else day + "_" + ZeroPadDec(t.hour, 2)
  }

  /** The name out_file_open passes to open(): the bare prefix without rotation
      (the extension split off by the regex is not put back), otherwise
      prefix + time suffix + extension. */
  function FileName(prefix: string, extension: string, r: Rotation, t: Tm): string
  {
    if r == NoRotation then prefix else prefix + TimeSuffix(r, t) + extension
  }

  // ---------------------------------------------------------------------------
  // Operations on the sink state (the specification of the class below)

  /** out_file_open: reads the clock (only when rotating), opens the file in append mode. */
  function OpenSpec(s: Sink, now: Tm, canOpen: string -> bool): (r: (bool, Sink))
    ensures r.0 <==> canOpen(FileName(s.prefix, s.extension, s.rotate, r.1.currentTm))
    ensures r.0 ==> r.1.fh == File(FileName(s.prefix, s.extension, s.rotate, r.1.currentTm)) && r.1.fh.name in r.1.files
    ensures !r.0 ==> r.1.fh == s.fh
  {
    var tm := if s.rotate == NoRotation then s.currentTm else now;
    var name := FileName(s.prefix, s.extension, s.rotate, tm);
    if !canOpen(name) then (false, s.(currentTm := tm))
    else
      var files := if name in s.files then s.files else s.files[name := ""];
      (true, s.(currentTm := tm, fh := File(name), files := files))
  }

  /** out_file_init: stdout for "-" (rotation forced off), otherwise split the path and open. */
  function InitSpec(s: Sink, outputFile: string, now: Tm, canOpen: string -> bool): (bool, Sink)
  {
    if outputFile == "-" then (true, s.(fh := Stdout, rotate := NoRotation))
    else
      var (prefix, extension) := SplitPath(outputFile);
      OpenSpec(s.(prefix := prefix, extension := extension), now, canOpen)
  }

  /** The condition of out_file_rotate: only tm_mday (daily) or tm_hour (hourly) is compared. */
  predicate NeedsRotation(r: Rotation, current: Tm, now: Tm) {
    (r == Daily && now.mday != current.mday) || (r == Hourly && now.hour != current.hour)
  }

  /** out_file_rotate: close and reopen when the compared field differs, otherwise nothing. */
  function RotateSpec(s: Sink, now: Tm, canOpen: string -> bool): (bool, Sink)
  {
    if NeedsRotation(s.rotate, s.currentTm, now) then OpenSpec(s.(fh := NoHandle), now, canOpen)
    else (true, s)
  }

  /** self.fh.write(text): appended verbatim to the current destination. */
  function WriteSpec(s: Sink, text: string): Sink
    requires SinkValid(s)
  {
    match s.fh
    case Stdout => s.(stdout := s.stdout + text)
    case File(name) => s.(files := s.files[name := s.files[name] + text])
    case NoHandle => s
  }

  /** The receive loop from a given sink state: each message rotates (when
      rotating) and is written; the interrupt caught around recv ends the loop. */
  function Loop(s: Sink, events: seq<Event>, canOpen: string -> bool): (r: (Outcome, Sink))
    requires SinkValid(s)
    ensures SinkValid(r.1)
    decreases |events|
  {
    if |events| == 0 then (Receiving, s)
    else match events[0]
      case Interrupt(signum) => (Exited(0), s.(stdout := s.stdout + SignalLine(signum)))
      case Message(text, now) =>
        var (ok, s1) := if s.rotate != NoRotation then RotateSpec(s, now, canOpen) else (true, s);
        if !ok then (Exited(1), s1)
        else
          OpenKeepsValid(s, now, canOpen);
          Loop(WriteSpec(s1, text), events[1..], canOpen)
  }

  /** The sink before out_file_init: only the parsed arguments are set. */
  function StartSink(rotate: Rotation, files: map<string, string>): Sink {
    Sink(rotate, "", "", Tm(1970, 1, 1, 0, 0, 0), NoHandle, files, "")
  }

  /** The whole __main__ block: init (exit 1 on failure), bind (exit 1 on failure), loop. */
  function RunSpec(outputFile: string, rotate: Rotation, files: map<string, string>, bindOk: bool,
                   startTime: Tm, events: seq<Event>, canOpen: string -> bool): (Outcome, Sink)
  {
    var (ok, s) := InitSpec(StartSink(rotate, files), outputFile, startTime, canOpen);
    if !ok then (Exited(1), s)
    else if !bindOk then (Exited(1), s)
    else
      InitKeepsValid(StartSink(rotate, files), outputFile, startTime, canOpen);
      Loop(s, events, canOpen)
  }

  lemma OpenKeepsValid(s: Sink, now: Tm, canOpen: string -> bool)
    requires SinkValid(s)
    ensures SinkValid(OpenSpec(s, now, canOpen).1)
    ensures SinkValid(OpenSpec(s.(fh := NoHandle), now, canOpen).1)
    ensures SinkValid(RotateSpec(s, now, canOpen).1)
  {
  }

  lemma InitKeepsValid(s: Sink, outputFile: string, now: Tm, canOpen: string -> bool)
    requires SinkValid(s)
    ensures SinkValid(InitSpec(s, outputFile, now, canOpen).1)
  {
    if outputFile != "-" {
      var (prefix, extension) := SplitPath(outputFile);
      OpenKeepsValid(s.(prefix := prefix, extension := extension), now, canOpen);
    }
  }

  // ---------------------------------------------------------------------------
  // The imperative program: `self` with its attributes, and the __main__ loop

  class Aggregator {
    var rotate: Rotation
    var filenamePrefix: string
    var extension: string
    var currentTm: Tm
    var fh: Handle
    var files: map<string, string>
    var stdout: string

    ghost function Snapshot(): Sink
      reads this
    {
      Sink(rotate, filenamePrefix, extension, currentTm, fh, files, stdout)
    }

    /** argparse's result: --rotate given, nothing opened yet. */
    constructor (rotate: Rotation, files: map<string, string>)
      ensures Snapshot() == StartSink(rotate, files)
    {
      this.rotate := rotate;
      filenamePrefix, extension := "", "";
      currentTm := Tm(1970, 1, 1, 0, 0, 0);
      fh := NoHandle;
      this.files := files;
      stdout := "";
    }

    method Open(now: Tm, canOpen: string -> bool) returns (ok: bool)
      modifies this
      ensures (ok, Snapshot()) == OpenSpec(old(Snapshot()), now, canOpen)
    {
      var filename: string;
      if rotate == NoRotation {
        filename := filenamePrefix;
      } else {
        currentTm := now;
        filename := filenamePrefix + TimeSuffix(rotate, currentTm) + extension;
      }
      if !canOpen(filename) {
        return false;
      }
      if filename !in files {
        files := files[filename := ""];
      }
      fh := File(filename);
      ok := true;
    }

    method Init(outputFile: string, now: Tm, canOpen: string -> bool) returns (ok: bool)
      modifies this
      ensures (ok, Snapshot()) == InitSpec(old(Snapshot()), outputFile, now, canOpen)
    {
      if outputFile == "-" {
        fh := Stdout;
        rotate := NoRotation;
        return true;
      }
      var split := SplitPath(outputFile);
      filenamePrefix := split.0;
      extension := split.1;
      ok := Open(now, canOpen);
    }

    method Rotate(now: Tm, canOpen: string -> bool) returns (ok: bool)
      modifies this
      ensures (ok, Snapshot()) == RotateSpec(old(Snapshot()), now, canOpen)
    {
      if (rotate == Daily && now.mday != currentTm.mday) || (rotate == Hourly && now.hour != currentTm.hour) {
        fh := NoHandle;
        ok := Open(now, canOpen);
      } else {
        ok := true;
      }
    }

    /** sighandler's print to sys.stdout, the stream Write uses for "-". */
    method SigHandler(signum: nat)
      modifies this
      ensures Snapshot() == old(Snapshot()).(stdout := old(stdout) + SignalLine(signum))
    {
      stdout := stdout + SignalLine(signum);
    }

    method Write(text: string)
      requires SinkValid(Snapshot())
      modifies this
      ensures Snapshot() == WriteSpec(old(Snapshot()), text)
    {
      match fh
      case Stdout => stdout := stdout + text;
      case File(name) => files := files[name := files[name] + text];
      case NoHandle =>
    }
  }

  /** The __main__ block. It returns how the process ends, the file system and
      what went to stdout; it agrees with RunSpec. */
  method Run(outputFile: string, rotate: Rotation, files0: map<string, string>, bindOk: bool,
               startTime: Tm, events: seq<Event>, canOpen: string -> bool)
    returns (outcome: Outcome, files: map<string, string>, stdout: string)
    ensures var r := RunSpec(outputFile, rotate, files0, bindOk, startTime, events, canOpen);
            outcome == r.0 && files == r.1.files && stdout == r.1.stdout
  {
    var self := new Aggregator(rotate, files0);
    var ok := self.Init(outputFile, startTime, canOpen);
    if !ok {
      return Exited(1), self.files, self.stdout;
    }
    if !bindOk {
      return Exited(1), self.files, self.stdout;
    }
    InitKeepsValid(StartSink(rotate, files0), outputFile, startTime, canOpen);
    ghost var whole := Loop(self.Snapshot(), events, canOpen);
    var doExit := false;
    var i := 0;
    outcome := Receiving;
    while !doExit
      invariant 0 <= i <= |events|
      invariant SinkValid(self.Snapshot())
      invariant Loop(self.Snapshot(), events[i..], canOpen) == whole
      decreases |events| - i
    {
      if i == |events| {
        // recv would block for ever
        outcome := Receiving;
        break;
      }
      ghost var before := self.Snapshot();
      match events[i]
      case Interrupt(signum) =>
        self.SigHandler(signum);
        outcome := Exited(0);
        break;
      case Message(text, now) =>
        if self.rotate != NoRotation {
          ok := self.Rotate(now, canOpen);
          if !ok {
            outcome := Exited(1);
            break;
          }
        }
        OpenKeepsValid(before, now, canOpen);
        self.Write(text);
        i := i + 1;
    }
    files, stdout := self.files, self.stdout;
  }

  // ---------------------------------------------------------------------------
  // Properties

  /** The texts of the messages received before the first interrupt, in order. */
  function Received(events: seq<Event>): seq<string>
  {
    if |events| == 0 || events[0].Interrupt? then []
    else [events[0].text] + Received(events[1..])
  }

  predicate Interrupted(events: seq<Event>) {
    exists k :: 0 <= k < |events| && events[k].Interrupt?
  }

  /** What the signal handler prints for the first interrupt; nothing when there is none. */
  function Trailer(events: seq<Event>): string
  {
    if |events| == 0 then ""
    else if events[0].Interrupt? then SignalLine(events[0].signum)
    else Trailer(events[1..])
  }

  lemma ReceivedHead(events: seq<Event>)
    requires |events| > 0 && events[0].Message?
    ensures Concat(Received(events)) == events[0].text + Concat(Received(events[1..]))
  {
    assert Received(events) == [events[0].text] + Received(events[1..]);
    assert ([events[0].text] + Received(events[1..]))[1..] == Received(events[1..]);
  }

  lemma InterruptedTail(events: seq<Event>)
    requires |events| > 0 && events[0].Message?
    ensures Interrupted(events) <==> Interrupted(events[1..])
  {
    if Interrupted(events[1..]) {
      var k :| 0 <= k < |events[1..]| && events[1..][k].Interrupt?;
      assert events[k + 1].Interrupt?;
    }
    if Interrupted(events) {
      var k :| 0 <= k < |events| && events[k].Interrupt?;
      assert k > 0 && events[1..][k - 1].Interrupt?;
    }
  }

  /** Output "-": writes go to stdout whatever --rotate says, the file system is
      untouched, and the handler's line follows the messages on an interrupt. */
  lemma {:induction false} StdoutLoop(s: Sink, events: seq<Event>, canOpen: string -> bool)
    requires s.fh == Stdout && s.rotate == NoRotation
    ensures SinkValid(s)
    ensures Loop(s, events, canOpen).1
         == s.(stdout := s.stdout + Concat(Received(events)) + Trailer(events))
    ensures Loop(s, events, canOpen).0 == if Interrupted(events) then Exited(0) else Receiving
    decreases |events|
  {
    if |events| > 0 && events[0].Message? {
      var text := events[0].text;
      LoopMessage(s, events, canOpen);
      StdoutLoop(s.(stdout := s.stdout + text), events[1..], canOpen);
      ReceivedHead(events);
      var rest := Concat(Received(events[1..]));
      assert s.stdout + text + rest + Trailer(events[1..]) == s.stdout + (text + rest) + Trailer(events[1..]);
      InterruptedTail(events);
    } else if |events| == 0 {
      assert s.stdout + "" + "" == s.stdout;
    } else {
      assert s.stdout + "" + SignalLine(events[0].signum) == s.stdout + SignalLine(events[0].signum);
    }
  }

  lemma StdoutRun(rotate: Rotation, files: map<string, string>, startTime: Tm,
                  events: seq<Event>, canOpen: string -> bool)
    ensures var r := RunSpec("-", rotate, files, true, startTime, events, canOpen);
            && r.1.files == files && r.1.fh == Stdout && r.1.rotate == NoRotation
            && r.1.stdout == Concat(Received(events)) + Trailer(events)
            && r.0 == if Interrupted(events) then Exited(0) else Receiving
  {
    var (ok, s) := InitSpec(StartSink(rotate, files), "-", startTime, canOpen);
    StdoutLoop(s, events, canOpen);
  }

  /** Without rotation every message is appended, verbatim and in order, to the
      one open file; stdout only gets the handler's line on an interrupt. */
  lemma {:induction false} FileLoop(s: Sink, events: seq<Event>, canOpen: string -> bool)
    requires s.fh.File? && s.fh.name in s.files && s.rotate == NoRotation
    ensures Loop(s, events, canOpen).1
         == s.(files := s.files[s.fh.name := s.files[s.fh.name] + Concat(Received(events))],
               stdout := s.stdout + Trailer(events))
    ensures Loop(s, events, canOpen).0 == if Interrupted(events) then Exited(0) else Receiving
    decreases |events|
  {
    var name := s.fh.name;
    if |events| == 0 || events[0].Interrupt? {
      assert s.files[name] + "" == s.files[name];
      assert s.files[name := s.files[name] + ""] == s.files;
      assert |events| == 0 ==> s.stdout + Trailer(events) == s.stdout;
    } else {
      var text := events[0].text;
      LoopMessage(s, events, canOpen);
      FileLoop(s.(files := s.files[name := s.files[name] + text]), events[1..], canOpen);
      ReceivedHead(events);
      var rest := Concat(Received(events[1..]));
      assert s.files[name] + text + rest == s.files[name] + (text + rest);
      InterruptedTail(events);
    }
  }

  /** Rotation off: the file opened is filename_prefix (for "out.log" that is "out"), and its
      final contents are its earlier contents followed by every received text. */
  lemma NoRotationRun(outputFile: string, files: map<string, string>, startTime: Tm,
                      events: seq<Event>, canOpen: string -> bool)
    requires outputFile != "-"
    requires canOpen(SplitPath(outputFile).0)
    ensures var name := SplitPath(outputFile).0;
            var r := RunSpec(outputFile, NoRotation, files, true, startTime, events, canOpen);
            var before := if name in files then files[name] else "";
            && r.1.fh == File(name)
            && r.1.files == files[name := before + Concat(Received(events))]
            && r.1.stdout == Trailer(events)
            && r.0 == if Interrupted(events) then Exited(0) else Receiving
  {
    var name := SplitPath(outputFile).0;
    var (ok, s) := InitSpec(StartSink(NoRotation, files), outputFile, startTime, canOpen);
    FileLoop(s, events, canOpen);
    var before := if name in files then files[name] else "";
    assert s.files == files[name := before] || s.files == files;
  }

  /** A file's contents, "" when it does not exist. */
  function Contents(files: map<string, string>, name: string): string {
    if name in files then files[name] else ""
  }

  /** The current_tm in force for a message handled at `now` when the file
      was last opened at `cur`. */
  function StampAt(r: Rotation, cur: Tm, now: Tm): Tm {
    if NeedsRotation(r, cur, now) then now else cur
  }

  /** The texts received before the first interrupt whose destination is
      `name`: each goes to the file named after the time of the last rotation
      at or before it, starting from a file opened at `cur`. */
  function Routed(prefix: string, extension: string, r: Rotation, cur: Tm,
                  events: seq<Event>, name: string): string
    decreases |events|
  {
    if |events| == 0 || events[0].Interrupt? then ""
    else
      var tm := StampAt(r, cur, events[0].now);
      (if FileName(prefix, extension, r, tm) == name then events[0].text else "")
      + Routed(prefix, extension, r, tm, events[1..], name)
  }

  /** The files some received message is written to. */
  function Destinations(prefix: string, extension: string, r: Rotation, cur: Tm,
                        events: seq<Event>): set<string>
    decreases |events|
  {
    if |events| == 0 || events[0].Interrupt? then {}
    else
      var tm := StampAt(r, cur, events[0].now);
      {FileName(prefix, extension, r, tm)} + Destinations(prefix, extension, r, tm, events[1..])
  }

  /** The sink a rotating loop is in: the handle on the file named after
      current_tm, which exists. */
  predicate RotatingSink(s: Sink) {
    s.rotate != NoRotation
    && s.fh == File(FileName(s.prefix, s.extension, s.rotate, s.currentTm)) && s.fh.name in s.files
  }

  /** One message of a rotating loop whose opens all succeed: the text is
      appended to the file named after the new current_tm. */
  lemma RotatingStep(s: Sink, now: Tm, text: string, canOpen: string -> bool)
    requires RotatingSink(s)
    requires forall n :: canOpen(n)
    ensures var tm := StampAt(s.rotate, s.currentTm, now);
            var n := FileName(s.prefix, s.extension, s.rotate, tm);
            && RotateSpec(s, now, canOpen).0
            && WriteSpec(RotateSpec(s, now, canOpen).1, text)
               == s.(currentTm := tm, fh := File(n), files := s.files[n := Contents(s.files, n) + text])
  {
    var tm := StampAt(s.rotate, s.currentTm, now);
    var n := FileName(s.prefix, s.extension, s.rotate, tm);
    if NeedsRotation(s.rotate, s.currentTm, now) {
      var s1 := OpenSpec(s.(fh := NoHandle), now, canOpen).1;
      assert s1 == s.(currentTm := now, fh := File(n), files := if n in s.files then s.files else s.files[n := ""]);
      assert s1.files[n := s1.files[n] + text] == s.files[n := Contents(s.files, n) + text];
    }
  }

  /** The loop's first message, in a rotating sink whose opens all succeed. */
  lemma RotatingLoopStep(s: Sink, events: seq<Event>, canOpen: string -> bool)
    requires RotatingSink(s)
    requires forall n :: canOpen(n)
    requires |events| > 0 && events[0].Message?
    ensures var tm := StampAt(s.rotate, s.currentTm, events[0].now);
            var n := FileName(s.prefix, s.extension, s.rotate, tm);
            var s2 := s.(currentTm := tm, fh := File(n), files := s.files[n := Contents(s.files, n) + events[0].text]);
            && RotatingSink(s2)
            && Loop(s, events, canOpen) == Loop(s2, events[1..], canOpen)
  {
    RotatingStep(s, events[0].now, events[0].text, canOpen);
  }

  lemma ContentsAppend(files: map<string, string>, n: string, text: string, name: string)
    ensures Contents(files[n := Contents(files, n) + text], name)
         == Contents(files, name) + (if n == name then text else "")
  {
  }

  /** A rotating loop whose opens all succeed: every file ends with its earlier
      contents followed, in receive order, by exactly the texts routed to it,
      the only new files are destinations of messages, and stdout only gets
      the handler's line. */
  lemma RotatingLoop(s: Sink, events: seq<Event>, canOpen: string -> bool)
    requires RotatingSink(s)
    requires forall n :: canOpen(n)
    ensures SinkValid(s)
    ensures var r := Loop(s, events, canOpen);
            && r.0 == (if Interrupted(events) then Exited(0) else Receiving)
            && r.1.files.Keys == s.files.Keys + Destinations(s.prefix, s.extension, s.rotate, s.currentTm, events)
            && (forall name :: Contents(r.1.files, name)
                  == Contents(s.files, name) + Routed(s.prefix, s.extension, s.rotate, s.currentTm, events, name))
            && r.1.stdout == s.stdout + Trailer(events)
  {
    RotatingOutcome(s, events, canOpen);
    RotatingKeys(s, events, canOpen);
    forall name
      ensures Contents(Loop(s, events, canOpen).1.files, name)
           == Contents(s.files, name) + Routed(s.prefix, s.extension, s.rotate, s.currentTm, events, name)
    {
      RotatingContents(s, events, canOpen, name);
    }
  }

  lemma {:induction false} RotatingOutcome(s: Sink, events: seq<Event>, canOpen: string -> bool)
    requires RotatingSink(s)
    requires forall n :: canOpen(n)
    ensures SinkValid(s)
    ensures Loop(s, events, canOpen).0 == (if Interrupted(events) then Exited(0) else Receiving)
    ensures Loop(s, events, canOpen).1.stdout == s.stdout + Trailer(events)
    decreases |events|
  {
    if |events| == 0 {
      assert s.stdout + Trailer(events) == s.stdout;
    } else if events[0].Message? {
      RotatingLoopStep(s, events, canOpen);
      var tm := StampAt(s.rotate, s.currentTm, events[0].now);
      var n := FileName(s.prefix, s.extension, s.rotate, tm);
      var s2 := s.(currentTm := tm, fh := File(n), files := s.files[n := Contents(s.files, n) + events[0].text]);
      RotatingOutcome(s2, events[1..], canOpen);
      InterruptedTail(events);
    }
  }

  lemma {:induction false} RotatingKeys(s: Sink, events: seq<Event>, canOpen: string -> bool)
    requires RotatingSink(s)
    requires forall n :: canOpen(n)
    ensures SinkValid(s)
    ensures Loop(s, events, canOpen).1.files.Keys
         == s.files.Keys + Destinations(s.prefix, s.extension, s.rotate, s.currentTm, events)
    decreases |events|
  {
    if |events| > 0 && events[0].Message? {
      RotatingLoopStep(s, events, canOpen);
      var tm := StampAt(s.rotate, s.currentTm, events[0].now);
      var n := FileName(s.prefix, s.extension, s.rotate, tm);
      var s2 := s.(currentTm := tm, fh := File(n), files := s.files[n := Contents(s.files, n) + events[0].text]);
      RotatingKeys(s2, events[1..], canOpen);
      assert Destinations(s.prefix, s.extension, s.rotate, s.currentTm, events)
          == {n} + Destinations(s.prefix, s.extension, s.rotate, tm, events[1..]);
    }
  }

  lemma {:induction false} RotatingContents(s: Sink, events: seq<Event>, canOpen: string -> bool, name: string)
    requires RotatingSink(s)
    requires forall n :: canOpen(n)
    ensures SinkValid(s)
    ensures Contents(Loop(s, events, canOpen).1.files, name)
         == Contents(s.files, name) + Routed(s.prefix, s.extension, s.rotate, s.currentTm, events, name)
    decreases |events|
  {
    if |events| == 0 || events[0].Interrupt? {
      assert Contents(s.files, name) + "" == Contents(s.files, name);
    } else {
      RotatingLoopStep(s, events, canOpen);
      var text := events[0].text;
      var tm := StampAt(s.rotate, s.currentTm, events[0].now);
      var n := FileName(s.prefix, s.extension, s.rotate, tm);
      var s2 := s.(currentTm := tm, fh := File(n), files := s.files[n := Contents(s.files, n) + text]);
      RotatingContents(s2, events[1..], canOpen, name);
      RoutedHead(s.prefix, s.extension, s.rotate, s.currentTm, events, name);
      ContentsStep(Loop(s2, events[1..], canOpen).1.files, s.files, n, text, name,
                   Routed(s.prefix, s.extension, s.rotate, tm, events[1..], name),
                   Routed(s.prefix, s.extension, s.rotate, s.currentTm, events, name));
    }
  }

  lemma RoutedHead(prefix: string, extension: string, r: Rotation, cur: Tm, events: seq<Event>, name: string)
    requires |events| > 0 && events[0].Message?
    ensures var tm := StampAt(r, cur, events[0].now);
            Routed(prefix, extension, r, cur, events, name)
            == (if FileName(prefix, extension, r, tm) == name then events[0].text else "")
               + Routed(prefix, extension, r, tm, events[1..], name)
  {
  }

  lemma ContentsStep(out: map<string, string>, files: map<string, string>, n: string, text: string,
                     name: string, rest: string, routed: string)
    requires Contents(out, name) == Contents(files[n := Contents(files, n) + text], name) + rest
    requires routed == (if n == name then text else "") + rest
    ensures Contents(out, name) == Contents(files, name) + routed
  {
    ContentsAppend(files, n, text, name);
    assert Contents(files, name) + (if n == name then text else "") + rest
        == Contents(files, name) + ((if n == name then text else "") + rest);
  }

  /** A whole run with daily or hourly rotation whose opens all succeed: the
      file of the start time is created, and every file ends with its earlier
      contents followed by the texts routed to it from the start time on. */
  lemma RotatingRun(outputFile: string, rotate: Rotation, files: map<string, string>, startTime: Tm,
                    events: seq<Event>, canOpen: string -> bool)
    requires outputFile != "-" && rotate != NoRotation
    requires forall n :: canOpen(n)
    ensures var (prefix, extension) := SplitPath(outputFile);
            var r := RunSpec(outputFile, rotate, files, true, startTime, events, canOpen);
            && r.0 == (if Interrupted(events) then Exited(0) else Receiving)
            && r.1.files.Keys == files.Keys + {FileName(prefix, extension, rotate, startTime)}
                                 + Destinations(prefix, extension, rotate, startTime, events)
            && (forall name :: Contents(r.1.files, name)
                  == Contents(files, name) + Routed(prefix, extension, rotate, startTime, events, name))
            && r.1.stdout == Trailer(events)
  {
    var (prefix, extension) := SplitPath(outputFile);
    var (ok, s) := InitSpec(StartSink(rotate, files), outputFile, startTime, canOpen);
    var n0 := FileName(prefix, extension, rotate, startTime);
    assert ok && s.fh == File(n0) && s.currentTm == startTime;
    assert s.files == if n0 in files then files else files[n0 := ""];
    RotatingLoop(s, events, canOpen);
    assert forall name :: Contents(s.files, name) == Contents(files, name);
  }

  /** Hourly rotation splits at the hour: a message in the hour the file was
      opened goes to that file, and one in a later hour to a new file. */
  lemma HourlySplit(s: Sink, a: string, b: string, t1: Tm, t2: Tm, canOpen: string -> bool)
    requires s.rotate == Hourly && ValidTm(s.currentTm) && ValidTm(t2)
    requires s.fh == File(FileName(s.prefix, s.extension, Hourly, s.currentTm)) && s.fh.name in s.files
    requires forall n :: canOpen(n)
    requires t1.hour == s.currentTm.hour && t2.hour != t1.hour
    ensures var first := FileName(s.prefix, s.extension, Hourly, s.currentTm);
            var second := FileName(s.prefix, s.extension, Hourly, t2);
            var files := Loop(s, [Message(a, t1), Message(b, t2)], canOpen).1.files;
            && first != second
            && Contents(files, first) == Contents(s.files, first) + a
            && Contents(files, second) == Contents(s.files, second) + b
  {
    var es := [Message(a, t1), Message(b, t2)];
    var first := FileName(s.prefix, s.extension, Hourly, s.currentTm);
    var second := FileName(s.prefix, s.extension, Hourly, t2);
    HourlyNameIffSameHour(s.prefix, s.extension, s.currentTm, t2);
    RotatingLoop(s, es, canOpen);
    RoutedSplit(s.prefix, s.extension, s.currentTm, a, b, t1, t2, first, second);
  }

  lemma RoutedSplit(prefix: string, extension: string, cur: Tm, a: string, b: string, t1: Tm, t2: Tm,
                    first: string, second: string)
    requires t1.hour == cur.hour && t2.hour != t1.hour
    requires first == FileName(prefix, extension, Hourly, cur)
    requires second == FileName(prefix, extension, Hourly, t2)
    requires first != second
    ensures Routed(prefix, extension, Hourly, cur, [Message(a, t1), Message(b, t2)], first) == a
    ensures Routed(prefix, extension, Hourly, cur, [Message(a, t1), Message(b, t2)], second) == b
  {
    var es := [Message(a, t1), Message(b, t2)];
    var rest := [Message(b, t2)];
    assert StampAt(Hourly, cur, t1) == cur;
    assert StampAt(Hourly, cur, t2) == t2;
    assert es[1..] == rest && rest[1..] == [];
    assert Routed(prefix, extension, Hourly, cur, rest, first) == "" + "";
    assert Routed(prefix, extension, Hourly, cur, es, first) == a + "";
    assert Routed(prefix, extension, Hourly, cur, rest, second) == b + "";
    assert Routed(prefix, extension, Hourly, cur, es, second) == "" + b;
  }

  /** Nothing received after the interrupt is ever written, and the run
      ends with status 0 unless a rotation before it failed. */
  lemma NothingAfterInterrupt(s: Sink, pre: seq<Event>, signum: nat, post: seq<Event>,
                               canOpen: string -> bool)
    requires SinkValid(s)
    ensures Loop(s, pre + [Interrupt(signum)] + post, canOpen) == Loop(s, pre + [Interrupt(signum)], canOpen)
    ensures s.rotate == NoRotation || (forall n :: canOpen(n)) ==>
            Loop(s, pre + [Interrupt(signum)] + post, canOpen).0 == Exited(0)
  {
    TailIgnored(s, pre, signum, post, canOpen);
    if s.rotate == NoRotation || (forall n :: canOpen(n)) {
      InterruptExitsZero(s, pre, signum, canOpen);
    }
  }

  lemma {:induction false} TailIgnored(s: Sink, pre: seq<Event>, signum: nat, post: seq<Event>,
                                       canOpen: string -> bool)
    requires SinkValid(s)
    ensures Loop(s, pre + [Interrupt(signum)] + post, canOpen) == Loop(s, pre + [Interrupt(signum)], canOpen)
    decreases |pre|
  {
    var e := pre + [Interrupt(signum)] + post;
    var f := pre + [Interrupt(signum)];
    if |pre| == 0 || pre[0].Interrupt? {
      assert e[0] == f[0] && e[0].Interrupt?;
    } else {
      assert e[0] == pre[0] && f[0] == pre[0];
      assert e[1..] == pre[1..] + [Interrupt(signum)] + post;
      assert f[1..] == pre[1..] + [Interrupt(signum)];
      var r := MessageStep(s, pre[0].now, canOpen);
      LoopMessage(s, e, canOpen);
      LoopMessage(s, f, canOpen);
      if r.0 {
        TailIgnored(WriteSpec(r.1, pre[0].text), pre[1..], signum, post, canOpen);
      }
    }
  }

  /** The rotation (when rotating) that handles a message received at `now`. */
  function MessageStep(s: Sink, now: Tm, canOpen: string -> bool): (r: (bool, Sink))
    requires SinkValid(s)
    ensures SinkValid(r.1) && r.1.rotate == s.rotate
  {
    OpenKeepsValid(s, now, canOpen);
    if s.rotate != NoRotation then RotateSpec(s, now, canOpen) else (true, s)
  }

  /** Loop on a message: exit 1 when the rotation fails, otherwise a write and the rest. */
  lemma LoopMessage(s: Sink, events: seq<Event>, canOpen: string -> bool)
    requires SinkValid(s) && |events| > 0 && events[0].Message?
    ensures var r := MessageStep(s, events[0].now, canOpen);
            Loop(s, events, canOpen)
            == if r.0 then Loop(WriteSpec(r.1, events[0].text), events[1..], canOpen) else (Exited(1), r.1)
  {
  }

  lemma {:induction false} InterruptExitsZero(s: Sink, pre: seq<Event>, signum: nat, canOpen: string -> bool)
    requires SinkValid(s)
    requires s.rotate == NoRotation || (forall n :: canOpen(n))
    ensures Loop(s, pre + [Interrupt(signum)], canOpen).0 == Exited(0)
    decreases |pre|
  {
    var f := pre + [Interrupt(signum)];
    if |pre| == 0 || pre[0].Interrupt? {
      assert f[0] == if |pre| == 0 then Interrupt(signum) else pre[0];
    } else {
      assert f[0] == pre[0];
      assert f[1..] == pre[1..] + [Interrupt(signum)];
      var r := MessageStep(s, pre[0].now, canOpen);
      LoopMessage(s, f, canOpen);
      InterruptExitsZero(WriteSpec(r.1, pre[0].text), pre[1..], signum, canOpen);
    }
  }

  /** Rotating is idempotent: right after a successful rotation check at time `now`
      (rotated or not), a second check at the same time changes nothing. */
  lemma RotationIdempotent(s: Sink, now: Tm, canOpen: string -> bool)
    requires s.rotate != NoRotation
    requires RotateSpec(s, now, canOpen).0
    ensures var s1 := RotateSpec(s, now, canOpen).1; RotateSpec(s1, now, canOpen) == (true, s1)
  {
  }

  /** The rotation check reopens exactly when the compared calendar field differs,
      and then opens the file named after the new time. */
  lemma RotationReopens(s: Sink, now: Tm, canOpen: string -> bool)
    requires s.rotate != NoRotation
    ensures var (ok, s1) := RotateSpec(s, now, canOpen);
            && (!NeedsRotation(s.rotate, s.currentTm, now) ==> ok && s1 == s)
            && (NeedsRotation(s.rotate, s.currentTm, now) ==>
                  && s1.currentTm == now
                  && ok == canOpen(FileName(s.prefix, s.extension, s.rotate, now))
                  && (ok ==> s1.fh == File(FileName(s.prefix, s.extension, s.rotate, now))))
  {
  }

  lemma Dec2Length(n: nat)
    requires n < 100
    ensures |ZeroPadDec(n, 2)| == 2
  {
    if n >= 10 {
      assert Dec(n) == Dec(n / 10) + [DigitChar(n % 10)];
      assert Dec(n / 10) == [DigitChar(n / 10)];
    }
  }

  lemma NameMiddle(prefix: string, extension: string, a: string, b: string)
    requires prefix + a + extension == prefix + b + extension
    ensures a == b
  {
    var x := prefix + a + extension;
    var y := prefix + b + extension;
    assert |a| == |b|;
    assert forall i :: 0 <= i < |a| ==> a[i] == x[|prefix| + i] == y[|prefix| + i] == b[i];
  }

  /** Two days with the same daily file name are the same calendar date, and
      names of the same date are equal: one daily file per local date. */
  lemma DailyNameIffSameDate(prefix: string, extension: string, a: Tm, b: Tm)
    requires ValidTm(a) && ValidTm(b)
    ensures FileName(prefix, extension, Daily, a) == FileName(prefix, extension, Daily, b)
            <==> (a.year, a.mon, a.mday) == (b.year, b.mon, b.mday)
  {
    if FileName(prefix, extension, Daily, a) == FileName(prefix, extension, Daily, b) {
      NameMiddle(prefix, extension, TimeSuffix(Daily, a), TimeSuffix(Daily, b));
      DateSuffixDetermines(a, b, TimeSuffix(Daily, a), TimeSuffix(Daily, b));
    }
  }

  lemma DateSuffixDetermines(a: Tm, b: Tm, sa: string, sb: string)
    requires ValidTm(a) && ValidTm(b)
    requires sa == "_" + Dec(a.year) + ZeroPadDec(a.mon, 2) + ZeroPadDec(a.mday, 2)
    requires sb == "_" + Dec(b.year) + ZeroPadDec(b.mon, 2) + ZeroPadDec(b.mday, 2)
    requires sa == sb
    ensures (a.year, a.mon, a.mday) == (b.year, b.mon, b.mday)
  {
    Dec2Length(a.mon); Dec2Length(a.mday); Dec2Length(b.mon); Dec2Length(b.mday);
    var n := |sa|;
    assert sa[n - 2..] == ZeroPadDec(a.mday, 2);
    assert sb[n - 2..] == ZeroPadDec(b.mday, 2);
    assert sa[n - 4..n - 2] == ZeroPadDec(a.mon, 2);
    assert sb[n - 4..n - 2] == ZeroPadDec(b.mon, 2);
    assert sa[1..n - 4] == Dec(a.year);
    assert sb[1..n - 4] == Dec(b.year);
    ZeroPadDecRoundTrip(a.mday, 2); ZeroPadDecRoundTrip(b.mday, 2);
    ZeroPadDecRoundTrip(a.mon, 2); ZeroPadDecRoundTrip(b.mon, 2);
    DecInjective(a.year, b.year);
  }

  /** Hourly file names are equal exactly when date and hour are equal. */
  lemma HourlyNameIffSameHour(prefix: string, extension: string, a: Tm, b: Tm)
    requires ValidTm(a) && ValidTm(b)
    ensures FileName(prefix, extension, Hourly, a) == FileName(prefix, extension, Hourly, b)
            <==> (a.year, a.mon, a.mday, a.hour) == (b.year, b.mon, b.mday, b.hour)
  {
    if FileName(prefix, extension, Hourly, a) == FileName(prefix, extension, Hourly, b) {
      var sa := TimeSuffix(Hourly, a);
      var sb := TimeSuffix(Hourly, b);
      NameMiddle(prefix, extension, sa, sb);
      Dec2Length(a.hour); Dec2Length(b.hour);
      var n := |sa|;
      assert sa[n - 2..] == ZeroPadDec(a.hour, 2);
      assert sb[n - 2..] == ZeroPadDec(b.hour, 2);
      ZeroPadDecRoundTrip(a.hour, 2); ZeroPadDecRoundTrip(b.hour, 2);
      assert sa[..n - 3] == TimeSuffix(Daily, a);
      assert sb[..n - 3] == TimeSuffix(Daily, b);
      DateSuffixDetermines(a, b, sa[..n - 3], sb[..n - 3]);
    }
  }

  /** Daily rotation compares only tm_mday: a message exactly one month after the
      current file was opened (same day of the month) is written to the old file. */
  lemma DailyMissesSameDayNextMonth()
    ensures !NeedsRotation(Daily, Tm(2024, 3, 15, 10, 0, 0), Tm(2024, 4, 15, 10, 0, 0))
  {
  }
}
