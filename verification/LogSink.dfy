/** The reloadable log destination of pkg/logging/sink.go. */
module LogSink {
  import opened Wrappers

  /** An opened file, numbered in the order of opening. */
  type FileId = nat

  datatype Dest = HttpOut | ErrOut | Discard | File(id: FileId)

  const STDERR := "stderr"

  /** What a log_file setting asks for, given the file opened for it if it is a path. */
  function Resolve(httpMode: bool, logFile: string, id: FileId): Dest {
    if logFile == "" then (if httpMode then HttpOut else Discard)
    else if logFile == STDERR then ErrOut
    else File(id)
  }

  predicate IsPath(logFile: string) {
    logFile != "" && logFile != STDERR
  }

  // -------------------------------------------------------------------- the system

  /** The one reloader: idle, or between opening the new file and swapping the writer. */
  datatype Reloader = Idle | Opened(writer: Dest)

  datatype System = System(
    httpMode: bool,
    writer: Dest,
    file: Option<FileId>,
    lastLogFile: string,
    applied: bool,
    reloader: Reloader,
    next: FileId,
    open: set<FileId>,        // the files open in the process
    closes: seq<FileId>,      // history: the files closed, in order
    written: map<Dest, nat>,  // history: log writes each destination got
    closedLast: bool          // history: the writer was last set by Close
  )

  datatype Action =
    | Open(logFile: string, ok: bool)  // the first half of a reload
    | Swap                             // its second half, under the exclusive lock
    | Write                            // under the shared lock
    | Close

  predicate Skips(s: System, logFile: string) {
    s.applied && logFile == s.lastLogFile && !IsPath(logFile)
  }

  /** The current file is closed, if there is one. */
  function CloseFile(s: System): System {
    if s.file.Some? then s.(open := s.open - {s.file.value}, closes := s.closes + [s.file.value], file := None) else s
  }

  function Step(s: System, a: Action): System {
    match a
    case Open(logFile, ok) =>
      if !s.reloader.Idle? || Skips(s, logFile) || (IsPath(logFile) && !ok) then s
      else
        s.(lastLogFile := logFile, applied := true,
           reloader := Opened(Resolve(s.httpMode, logFile, s.next)),
           open := if IsPath(logFile) then s.open + {s.next} else s.open,
           next := if IsPath(logFile) then s.next + 1 else s.next)
    case Swap =>
      if s.reloader.Idle? then s
      else
        var w := s.reloader.writer;
        CloseFile(s).(writer := w, file := if w.File? then Some(w.id) else None, reloader := Idle, closedLast := false)
    case Write => s.(written := s.written[s.writer := 1 + if s.writer in s.written then s.written[s.writer] else 0])
    case Close => CloseFile(s).(writer := ErrOut, closedLast := true)
  }

  function Run(s: System, actions: seq<Action>): System
    decreases |actions|
  {
    if actions == [] then s else Run(Step(s, actions[0]), actions[1..])
  }

  /** A sink before New has set its destination; a writer that is not set discards. */
  function Start(httpMode: bool): System {
    System(httpMode, Discard, None, "", false, Idle, 0, {}, [], map[], false)
  }

  ghost predicate Inv(s: System) {
    FilesInv(s) && ClosesInv(s) && DestinationInv(s)
  }

  /** The open files are the current one and the one about to be swapped in. */
  ghost predicate FilesInv(s: System) {
    && s.open == Current(s) + Pending(s)
    && s.file == (if s.writer.File? then Some(s.writer.id) else None)
    && (forall f :: f in s.open ==> f < s.next)
    && Current(s) !! Pending(s)
  }

  /** A file is closed once and not used again. */
  ghost predicate ClosesInv(s: System) {
    && (forall i :: 0 <= i < |s.closes| ==> s.closes[i] < s.next && s.closes[i] !in s.open)
    && (forall i, j :: 0 <= i < j < |s.closes| ==> s.closes[i] != s.closes[j])
  }

  ghost predicate DestinationInv(s: System) {
    // in stdio mode nothing leads to the HTTP output
    && (!s.httpMode ==> s.writer != HttpOut && HttpOut !in s.written && s.reloader != Opened(HttpOut))
    // what was last asked for is where the writer is, or will be
    && (s.applied && !IsPath(s.lastLogFile) ==>
          match s.reloader
          case Opened(w) => w == Resolve(s.httpMode, s.lastLogFile, 0)
          case Idle => s.closedLast || s.writer == Resolve(s.httpMode, s.lastLogFile, 0))
    && (s.closedLast ==> s.writer == ErrOut)
  }

  function Current(s: System): set<FileId> {
    if s.file.Some? then {s.file.value} else {}
  }

  function Pending(s: System): set<FileId> {
    if s.reloader.Opened? && s.reloader.writer.File? then {s.reloader.writer.id} else {}
  }

  lemma StepKeepsFiles(s: System, a: Action)
    requires Inv(s)
    ensures FilesInv(Step(s, a))
  {
  }

  lemma StepKeepsCloses(s: System, a: Action)
    requires Inv(s)
    ensures ClosesInv(Step(s, a))
  {
    assert s.file.Some? ==> s.file.value in s.open;
  }

  lemma StepKeepsDestination(s: System, a: Action)
    requires Inv(s)
    ensures DestinationInv(Step(s, a))
  {
  }

  lemma {:induction false} RunKeepsInv(s: System, actions: seq<Action>)
    requires Inv(s)
    ensures Inv(Run(s, actions)) && Run(s, actions).httpMode == s.httpMode
    decreases |actions|
  {
    if actions != [] {
      StepKeepsFiles(s, actions[0]);
      StepKeepsCloses(s, actions[0]);
      StepKeepsDestination(s, actions[0]);
      RunKeepsInv(Step(s, actions[0]), actions[1..]);
    }
  }

  /** In every reachable state the open files are the current one and at most one
      that is opened and not swapped in yet, every write goes to an open
      destination, no file is closed twice, and in stdio mode nothing is written to
      the HTTP output. */
  lemma SinkIsSafe(httpMode: bool, actions: seq<Action>)
    ensures var s := Run(Start(httpMode), actions);
      && s.open == Current(s) + Pending(s)
      && (s.writer.File? ==> s.writer.id in s.open)
      && (forall i, j :: 0 <= i < j < |s.closes| ==> s.closes[i] != s.closes[j])
      && (!httpMode ==> HttpOut !in s.written)
  {
    RunKeepsInv(Start(httpMode), actions);
  }

  /** The skip of an unchanged setting is right exactly when a reload in its place
      would land where the writer is: always, unless Close set the writer last and the
      setting asks for something else than the error output. */
  lemma SkipIsRight(httpMode: bool, actions: seq<Action>, logFile: string)
    ensures var s := Run(Start(httpMode), actions);
      s.reloader.Idle? && Skips(s, logFile) ==>
        (s.writer == Resolve(httpMode, logFile, s.next) <==> !s.closedLast || logFile == STDERR)
  {
    RunKeepsInv(Start(httpMode), actions);
  }

  /** Where a reload leads, unless Close set the writer last: an empty setting to the
      HTTP output in HTTP mode and to nothing in stdio mode, "stderr" to the error
      output, and a path to a file opened for it. A path that cannot be opened changes
      nothing. */
  lemma ReloadLands(httpMode: bool, actions: seq<Action>, logFile: string)
    ensures var s := Run(Start(httpMode), actions);
      s.reloader.Idle? && !s.closedLast ==>
        var t := Step(Step(s, Open(logFile, true)), Swap);
        && (logFile == "" ==> t.writer == if httpMode then HttpOut else Discard)
        && (logFile == "stderr" ==> t.writer == ErrOut)
        && (logFile != "" && logFile != "stderr" ==>
              t.writer == File(s.next) && s.next !in s.open && t.open == {s.next}
              && Step(Step(s, Open(logFile, false)), Swap) == s)
  {
    RunKeepsInv(Start(httpMode), actions);
  }

  /** After Close the skip is wrong: a reload that asks for the HTTP output again
      leaves the log on the error output. */
  lemma SkipAfterCloseIsWrong()
    ensures var s := Run(Start(true), [Open("", true), Swap, Close, Open("", true), Swap]);
      s.writer == ErrOut != Resolve(true, "", 0)
  {
    var actions := [Open("", true), Swap, Close, Open("", true), Swap];
    var s1 := Step(Start(true), Open("", true));
    var s2 := Step(s1, Swap);
    var s3 := Step(s2, Close);
    assert s3.writer == ErrOut && Skips(s3, "");
    assert Run(s1, actions[1..]) == Run(s2, actions[1..][1..]);
    assert Run(s2, actions[2..]) == Run(s3, actions[2..][1..]);
    assert Run(s3, actions[3..]) == Run(s3, actions[3..][1..]);
    assert Run(s3, actions[4..]) == Run(s3, actions[4..][1..]) == s3;
  }

  /** Both halves of a reload taken without interference. */
  lemma ReloadAtOnce(s: System, logFile: string, ok: bool)
    requires s.reloader.Idle?
    ensures var t := Step(Step(s, Open(logFile, ok)), Swap); var opens := IsPath(logFile);
      if Skips(s, logFile) || (opens && !ok) then t == s
      else t == s.(
        writer := Resolve(s.httpMode, logFile, s.next), file := if opens then Some(s.next) else None,
        lastLogFile := logFile, applied := true, next := s.next + if opens then 1 else 0,
        open := s.open + (if opens then {s.next} else {}) - (if s.file.Some? then {s.file.value} else {}),
        closes := s.closes + (if s.file.Some? then [s.file.value] else []), closedLast := false)
  {
  }

  // ------------------------------------------------------------------ the objects

  /** The process around the sink: its files, and what was written where. */
  class Process {
    var next: FileId
    var open: set<FileId>
    var closes: seq<FileId>
    var written: map<Dest, nat>

    constructor ()
      ensures next == 0 && open == {} && closes == [] && written == map[]
    {
      next, open, closes, written := 0, {}, [], map[];
    }

    method OpenFile(ok: bool) returns (file: Option<FileId>)
      modifies this`next, this`open
      ensures file == if ok then Some(old(next)) else None
      ensures next == old(next) + if ok then 1 else 0
      ensures open == old(open) + if ok then {old(next)} else {}
    {
      if !ok {
        return None;
      }
      open := open + {next};
      next := next + 1;
      return Some(next - 1);
    }

    method CloseFile(file: FileId)
      modifies this`open, this`closes
      ensures open == old(open) - {file} && closes == old(closes) + [file]
    {
      open := open - {file};
      closes := closes + [file];
    }

    method Append(to: Dest)
      modifies this`written
      ensures written == old(written)[to := 1 + if to in old(written) then old(written)[to] else 0]
    {
      written := written[to := 1 + if to in written then written[to] else 0];
    }
  }

  class Sink {
    const httpMode: bool
    const process: Process
    var writer: Dest
    var file: Option<FileId>
    var lastLogFile: string
    var applied: bool
    ghost var closedLast: bool

    ghost function State(): System
      reads this, process
    {
      System(httpMode, writer, file, lastLogFile, applied, Idle,
             process.next, process.open, process.closes, process.written, closedLast)
    }

    /** The mode is pinned for the life of the sink; a first Reload applies the destination. */
    constructor (httpMode: bool, process: Process)
      requires process.next == 0 && process.open == {} && process.closes == [] && process.written == map[]
      ensures this.process == process && State() == Start(httpMode)
    {
      this.httpMode, this.process := httpMode, process;
      writer, file, lastLogFile, applied, closedLast := Discard, None, "", false, false;
    }

    /** `to` is where the bytes go. */
    method Write() returns (to: Dest)
      modifies process`written
      ensures to == writer && State() == Step(old(State()), Action.Write)
    {
      process.Append(writer);
      return writer;
    }

    /** What the setting asks for, opened if it is a path; None if that fails. */
    method OpenDestination(logFile: string, ok: bool) returns (newWriter: Option<Dest>, newFile: Option<FileId>)
      modifies process`next, process`open
      ensures newWriter == if IsPath(logFile) && !ok then None else Some(Resolve(httpMode, logFile, old(process.next)))
      ensures newFile == if IsPath(logFile) && ok then Some(old(process.next)) else None
      ensures process.next == old(process.next) + if newFile.Some? then 1 else 0
      ensures process.open == old(process.open) + if newFile.Some? then {newFile.value} else {}
    {
      if logFile == "" {
        return Some(if httpMode then HttpOut else Discard), None;
      } else if logFile == STDERR {
        return Some(ErrOut), None;
      }
      newFile := process.OpenFile(ok);
      newWriter := if newFile.Some? then Some(File(newFile.value)) else None;
    }

    /** Under the exclusive lock: the new destination, and the old file closed. */
    method Install(newWriter: Dest, newFile: Option<FileId>)
      modifies this`writer, this`file, process`open, process`closes
      ensures writer == newWriter && file == newFile
      ensures process.open == old(process.open) - if old(file).Some? then {old(file).value} else {}
      ensures process.closes == old(process.closes) + if old(file).Some? then [old(file).value] else []
    {
      var oldFile := file;
      writer, file := newWriter, newFile;
      if oldFile.Some? {
        process.CloseFile(oldFile.value);
      }
    }

    /** `ok`: the file can be opened, if the setting is a path. */
    method Reload(logFile: string, ok: bool) returns (err: bool)
      modifies this, process
      ensures err == (IsPath(logFile) && !ok)
      ensures State() == Step(Step(old(State()), Open(logFile, ok)), Swap)
      ensures err ==> State() == old(State())
    {
      ReloadAtOnce(State(), logFile, ok);
      if applied && logFile == lastLogFile && (logFile == "" || logFile == STDERR) {
        return false;
      }
      var newWriter, newFile := OpenDestination(logFile, ok);
      if newWriter.None? {
        return true;
      }
      lastLogFile, applied := logFile, true;
      Install(newWriter.value, newFile);
      closedLast := false;
      return false;
    }

    method Close()
      modifies this, process
      ensures State() == Step(old(State()), Action.Close)
    {
      Install(ErrOut, None);
      closedLast := true;
    }
  }
}
