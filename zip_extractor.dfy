/**
 * ZipExtractor's FormMain: the helper process that waits for the
 * application to exit, extracts the update archive over the installation
 * directory entry by entry, retrying files that are locked, deletes the
 * archive, and relaunches the application.
 *
 * The operating system, the archive library and the user are oracles of a
 * Host value: which processes run under the application's name, whether
 * the archive opens, its entries, the outcome of every extraction attempt,
 * the cancellation flag, the locking-process diagnosis and the answers to
 * the Retry/Cancel prompts.
 */
module ZipExtractor {
  import opened Basics
  import opened Paths

  const MaxRetries: nat := 2

  /** Win32 error codes in the low word of an IOException's HRESULT. */
  const ErrorSharingViolation: int := 0x20
  const ErrorLockViolation: int := 0x21

  /** The pause before a retry when no locking process could be named. */
  const BackoffMillis: nat := 5000

  /** What made the worker stop early. */
  datatype Fault = IOFault(hresult: int) | DivideByZero | OtherFault

  /**
   * The HRESULT's low word, as `& 0x0000FFFF` computes it on a 32-bit
   * two's-complement value; Euclidean remainder agrees with it for
   * negative HRESULTs too.
   */
  function LowWord(hresult: int): (w: int)
    ensures 0 <= w < 0x1_0000
    ensures (hresult - w) % 0x1_0000 == 0
  {
    hresult % 0x1_0000
  }

  /** A sharing or lock violation: the only faults that are retried. */
  predicate IsLockFault(f: Fault)
  {
    f.IOFault? && (LowWord(f.hresult) == ErrorSharingViolation || LowWord(f.hresult) == ErrorLockViolation)
  }

  /** The outcome of one pass through the try block: deleting the old file, then extracting. */
  datatype Attempt = Attempt(deleteFault: Option<Fault>, extractFault: Option<Fault>)

  /** FileUtil.WhoIsLocking: no answer (null or an exception), or the locking processes' names. */
  datatype Diagnosis = Unavailable | Lockers(names: seq<string>)

  datatype Answer = Retry | Cancel

  /** A process with the application's name: its main module's path if readable, and whether Kill succeeds. */
  datatype RunningProcess = RunningProcess(mainModule: Option<string>, killable: bool)

  datatype Host = Host(
    processes: seq<RunningProcess>,
    archiveOpens: bool,
    entryNames: seq<string>,
    filesCount: nat,
    cancellationPending: nat -> bool,
    attempt: (nat, nat) -> Attempt,
    osMajor: nat,
    whoIsLocking: nat -> Diagnosis,
    answer: (nat, nat) -> Answer)

  /** The user state of a progress report. */
  datatype Message = WaitingForExit | CurrentFile(name: string)

  /**
   * What the worker does that can be observed, in order; an attempt is
   * numbered by the retries that preceded it.
   */
  datatype Event =
    | Progress(percent: int, message: Message)
    | Terminated(process: nat)
    | Attempted(entry: nat, retry: nat)
    | Removed(path: string)
    | Slept(millis: nat)
    | Prompted(processName: string, path: string)
    | Disposed
    | ArchiveDeleted(path: string)

  /** The files on disk and the events so far. */
  datatype State = State(files: set<string>, log: seq<Event>)

  datatype Outcome = Completed | Cancelled | Faulted(fault: Fault)

  /** Ensures the extraction root ends with the directory separator. */
  function NormaliseRoot(path: string): (r: string)
    ensures |r| > 0 && r[|r| - 1] == DirectorySeparator
    ensures |path| > 0 && path[|path| - 1] == DirectorySeparator ==> r == path
    ensures |path| <= |r| <= |path| + 1 && r[..|path|] == path
  {
    if |path| > 0 && path[|path| - 1] == DirectorySeparator then path else path + [DirectorySeparator]
  }

  /** Normalising twice is normalising once. */
  lemma NormaliseRootIdempotent(path: string)
    ensures NormaliseRoot(NormaliseRoot(path)) == NormaliseRoot(path)
  {
  }

  /** Where entry `name` is extracted to. */
  function EntryPath(root: string, name: string): string
  {
    Combine(root, name)
  }

  /**
   * The kill loop over the first `n` processes: a report and a kill for
   * each whose main module is the application; exceptions are swallowed.
   */
  function Terminations(processes: seq<RunningProcess>, executablePath: string, n: nat): seq<Event>
    requires n <= |processes|
  {
    if n == 0 then []
    else
      var p := processes[n - 1];
      Terminations(processes, executablePath, n - 1)
      + (if p.mainModule == Some(executablePath)
         then [Progress(0, WaitingForExit)] + (if p.killable then [Terminated(n - 1)] else [])
         else [])
  }

  datatype Try = Try(state: State, caught: Option<Fault>)

  /** One pass of the try block for entry `j` at its `retries`-th attempt. */
  function TryOnce(host: Host, filePath: string, j: nat, retries: nat, st: State): Try
  {
    var a := host.attempt(j, retries);
    var st1 := st.(log := st.log + [Attempted(j, retries)]);
    if filePath in st.files && a.deleteFault.Some? then Try(st1, a.deleteFault)
    else
      var st2 := if filePath in st.files then State(st.files - {filePath}, st1.log + [Removed(filePath)]) else st1;
      if a.extractFault.Some? then Try(st2, a.extractFault)
      else Try(st2.(files := st2.files + {filePath}), None)
  }

  datatype PromptEnd = PromptEnd(log: seq<Event>, cancelled: bool)

  /** The Retry/Cancel prompts from the `k`-th locking process on; the first Cancel stops them. */
  function PromptsFrom(host: Host, j: nat, names: seq<string>, filePath: string, k: nat, log: seq<Event>): PromptEnd
    decreases |names| - k
  {
    if k >= |names| then PromptEnd(log, false)
    else
      var log1 := log + [Prompted(names[k], filePath)];
      if host.answer(j, k) == Cancel then PromptEnd(log1, true)
      else PromptsFrom(host, j, names, filePath, k + 1, log1)
  }

  datatype EntryEnd = EntryEnd(state: State, fault: Option<Fault>)

  /** What the lock diagnosis returns after the `retries`-th lock failure. */
  function Diagnose(host: Host, j: nat, retries: nat): Diagnosis
  {
    if host.osMajor >= 6 && retries >= 2 then host.whoIsLocking(j) else Unavailable
  }

  /**
   * What happens between a lock failure and the next attempt: a pause when
   * no locking process is named, the prompts otherwise.
   */
  function Backoff(host: Host, j: nat, retries: nat, filePath: string, log: seq<Event>): PromptEnd
  {
    match Diagnose(host, j, retries)
      case Unavailable => PromptEnd(log + [Slept(BackoffMillis)], false)
      case Lockers(names) => PromptsFrom(host, j, names, filePath, 0, log)
  }

  /**
   * The `while (notCopied)` loop for entry `j` from its `retries`-th
   * attempt: a lock fault is retried after the backoff unless it is the
   * third; any other fault, or a Cancel, ends the entry with it.
   */
  function EntryFrom(host: Host, root: string, j: nat, retries: nat, st: State): EntryEnd
    requires j < |host.entryNames| && retries <= MaxRetries
    decreases MaxRetries - retries
  {
    var filePath := EntryPath(root, host.entryNames[j]);
    var t := TryOnce(host, filePath, j, retries, st);
    if t.caught.None? then EntryEnd(t.state, None)
    else if !IsLockFault(t.caught.value) || retries + 1 > MaxRetries then EntryEnd(t.state, t.caught)
    else
      var b := Backoff(host, j, retries + 1, filePath, t.state.log);
      if b.cancelled then EntryEnd(t.state.(log := b.log), t.caught)
      else EntryFrom(host, root, j, retries + 1, t.state.(log := b.log))
  }

  /** Integer percentage after `done` of `total` entries, as C#'s int division computes it. */
  function Percent(done: nat, total: nat): int
    requires total > 0
  {
    done * 100 / total
  }

  datatype RunEnd = RunEnd(state: State, outcome: Outcome, reached: nat)

  /**
   * The entry loop from index `i` with `progress` the last reported
   * percentage: check cancellation, pre-announce the entry, extract it,
   * report the new percentage. `reached` is the index the loop stopped at.
   */
  function RunFrom(host: Host, root: string, i: nat, progress: int, st: State): RunEnd
    decreases |host.entryNames| - i
  {
    if i >= |host.entryNames| then RunEnd(st, Completed, i)
    else if host.cancellationPending(i) then RunEnd(st, Cancelled, i)
    else
      var message := CurrentFile(host.entryNames[i]);
      var e := EntryFrom(host, root, i, 0, st.(log := st.log + [Progress(progress, message)]));
      if e.fault.Some? then RunEnd(e.state, Faulted(e.fault.value), i)
      else if host.filesCount == 0 then RunEnd(e.state, Faulted(DivideByZero), i)
      else
        var p := Percent(i + 1, host.filesCount);
        RunFrom(host, root, i + 1, p, e.state.(log := e.state.log + [Progress(p, message)]))
  }

  datatype WorkEnd = WorkEnd(state: State, outcome: Outcome)

  /**
   * The DoWork handler: stop the running application, normalise the
   * root, open the archive (a failure there escapes before the try and so
   * skips the cleanup), run the entry loop, then dispose the extractor and
   * delete the archive whatever the loop's outcome.
   */
  function Work(host: Host, args: seq<string>, st: State): WorkEnd
    requires |args| >= 4
  {
    var afterKill := st.(log := st.log + Terminations(host.processes, args[3], |host.processes|));
    if !host.archiveOpens then WorkEnd(afterKill, Faulted(OtherFault))
    else
      var r := RunFrom(host, NormaliseRoot(args[2]), 0, 0, afterKill);
      WorkEnd(State(r.state.files - {args[1]}, r.state.log + [Disposed, ArchiveDeleted(args[1])]), r.outcome)
  }

  /** The ProcessStartInfo that relaunches the application. */
  datatype Relaunch = Relaunch(fileName: string, arguments: string)

  /** The error dialogs RunWorkerCompleted can show. */
  datatype ErrorReport = WorkFailed(fault: Fault) | RelaunchFailed(outcome: StartOutcome)

  datatype Finish = Finish(relaunch: Option<Relaunch>, error: Option<ErrorReport>)

  /**
   * RunWorkerCompleted: a faulted worker is reported, a cancelled one ends
   * quietly, a completed one relaunches the executable with args[4] when
   * there is one; a start failure is reported unless it is the declined
   * elevation prompt.
   */
  function Completion(args: seq<string>, outcome: Outcome, start: StartOutcome): Finish
    requires |args| >= 4
  {
    match outcome
      case Faulted(f) => Finish(None, Some(WorkFailed(f)))
      case Cancelled => Finish(None, None)
      case Completed =>
        var request := Relaunch(args[3], if |args| > 4 then args[4] else "");
        match start
          case Started => Finish(Some(request), None)
          case Win32Error(code) =>
            if code == ErrorCancelled then Finish(Some(request), None)
            else Finish(Some(request), Some(RelaunchFailed(start)))
          case StartError => Finish(Some(request), Some(RelaunchFailed(start)))
  }

  /**
   * The helper's form: its command line arguments (program name first),
   * the files on disk, the worker's events, whether the worker was
   * started, the relaunch requests, the error dialogs shown, and whether
   * the application exited.
   */
  class FormMain {
    const args: seq<string>
    var files: set<string>
    var log: seq<Event>
    var workerStarted: bool
    var relaunched: seq<Relaunch>
    var errorsShown: seq<ErrorReport>
    var exited: bool

    constructor(args: seq<string>, files: set<string>)
      ensures this.args == args && this.files == files && log == []
      ensures !workerStarted && relaunched == [] && errorsShown == [] && !exited
    {
      this.args := args;
      this.files := files;
      log := [];
      workerStarted := false;
      relaunched := [];
      errorsShown := [];
      exited := false;
    }

    /**
     * FormMain_Shown: with fewer than four arguments nothing happens;
     * otherwise the worker runs and its completion handler follows.
     */
    method Shown(host: Host, start: StartOutcome)
      modifies this
      ensures |args| < 4 ==>
        files == old(files) && log == old(log) && workerStarted == old(workerStarted)
        && relaunched == old(relaunched) && errorsShown == old(errorsShown) && exited == old(exited)
      ensures |args| >= 4 ==>
        var w := Work(host, args, old(State(files, log)));
        var c := Completion(args, w.outcome, start);
        State(files, log) == w.state && workerStarted
        && relaunched == old(relaunched) + (if c.relaunch.Some? then [c.relaunch.value] else [])
        && errorsShown == old(errorsShown) + (if c.error.Some? then [c.error.value] else [])
        && exited
    {
      if |args| >= 4 {
        workerStarted := true;
        var outcome := DoWork(host);
        RunWorkerCompleted(outcome, start);
      }
    }

    /** The DoWork handler. */
    method DoWork(host: Host) returns (outcome: Outcome)
      requires |args| >= 4
      modifies this`files, this`log
      ensures var w := Work(host, args, old(State(files, log)));
        State(files, log) == w.state && outcome == w.outcome
    {
      var executablePath := args[3];
      TerminateApplication(host, executablePath);
      var path := args[2];
      if !(|path| > 0 && path[|path| - 1] == DirectorySeparator) {
        path := path + [DirectorySeparator];
      }
      if !host.archiveOpens {
        return Faulted(OtherFault);
      }
      outcome := ExtractAll(host, path);
      files := files - {args[1]};
      log := log + [Disposed, ArchiveDeleted(args[1])];
    }

    /** The foreach over the processes with the application's name. */
    method TerminateApplication(host: Host, executablePath: string)
      modifies this`log
      ensures log == old(log) + Terminations(host.processes, executablePath, |host.processes|)
    {
      for k := 0 to |host.processes|
        invariant log == old(log) + Terminations(host.processes, executablePath, k)
      {
        var process := host.processes[k];
        if process.mainModule == Some(executablePath) {
          log := log + [Progress(0, WaitingForExit)];
          if process.killable {
            log := log + [Terminated(k)];
          }
        }
      }
    }

    /** The entry loop inside the try block. */
    method ExtractAll(host: Host, root: string) returns (outcome: Outcome)
      modifies this`files, this`log
      ensures var r := RunFrom(host, root, 0, 0, old(State(files, log)));
        State(files, log) == r.state && outcome == r.outcome
    {
      var progress := 0;
      var index := 0;
      outcome := Completed;
      while index < |host.entryNames|
        invariant RunFrom(host, root, 0, 0, old(State(files, log))) == RunFrom(host, root, index, progress, State(files, log))
        decreases |host.entryNames| - index
      {
        if host.cancellationPending(index) {
          outcome := Cancelled;
          break;
        }
        var currentFile := CurrentFile(host.entryNames[index]);
        log := log + [Progress(progress, currentFile)];
        var fault := ExtractEntry(host, root, index);
        if fault.Some? {
          outcome := Faulted(fault.value);
          break;
        }
        if host.filesCount == 0 {
          outcome := Faulted(DivideByZero);
          break;
        }
        progress := (index + 1) * 100 / host.filesCount;
        log := log + [Progress(progress, currentFile)];
        index := index + 1;
      }
    }

    /** The `while (notCopied)` loop for one entry. */
    method ExtractEntry(host: Host, root: string, index: nat) returns (fault: Option<Fault>)
      requires index < |host.entryNames|
      modifies this`files, this`log
      ensures var e := EntryFrom(host, root, index, 0, old(State(files, log)));
        State(files, log) == e.state && fault == e.fault
    {
      var retries := 0;
      var notCopied := true;
      fault := None;
      while notCopied
        invariant retries <= MaxRetries + 1
        invariant notCopied ==> retries <= MaxRetries && fault.None?
        invariant notCopied ==>
          EntryFrom(host, root, index, 0, old(State(files, log))) == EntryFrom(host, root, index, retries, State(files, log))
        invariant !notCopied ==> EntryFrom(host, root, index, 0, old(State(files, log))) == EntryEnd(State(files, log), fault)
        decreases notCopied, MaxRetries + 1 - retries
      {
        var filePath := EntryPath(root, host.entryNames[index]);
        ghost var before := State(files, log);
        var attempt := host.attempt(index, retries);
        log := log + [Attempted(index, retries)];
        var caught: Option<Fault> := None;
        if filePath in files {
          if attempt.deleteFault.Some? {
            caught := attempt.deleteFault;
          } else {
            files := files - {filePath};
            log := log + [Removed(filePath)];
          }
        }
        if caught.None? {
          if attempt.extractFault.Some? {
            caught := attempt.extractFault;
          } else {
            files := files + {filePath};
            notCopied := false;
          }
        }
        assert TryOnce(host, filePath, index, retries, before) == Try(State(files, log), caught);
        if caught.Some? {
          if IsLockFault(caught.value) {
            retries := retries + 1;
            if retries > MaxRetries {
              fault := caught;
              notCopied := false;
            } else {
              var lockers := Unavailable;
              if host.osMajor >= 6 && retries >= 2 {
                lockers := host.whoIsLocking(index);
              }
              if lockers.Unavailable? {
                log := log + [Slept(BackoffMillis)];
              } else {
                var cancelled := AskLockers(host, index, lockers.names, filePath);
                if cancelled {
                  fault := caught;
                  notCopied := false;
                }
              }
            }
          } else {
            fault := caught;
            notCopied := false;
          }
        }
      }
    }

    /** The foreach over the locking processes: one Retry/Cancel prompt each until a Cancel. */
    method AskLockers(host: Host, index: nat, names: seq<string>, filePath: string) returns (cancelled: bool)
      modifies this`log
      ensures var p := PromptsFrom(host, index, names, filePath, 0, old(log));
        log == p.log && cancelled == p.cancelled
    {
      cancelled := false;
      var k := 0;
      while k < |names|
        invariant k <= |names|
        invariant PromptsFrom(host, index, names, filePath, 0, old(log)) == PromptsFrom(host, index, names, filePath, k, log)
      {
        log := log + [Prompted(names[k], filePath)];
        if host.answer(index, k) == Cancel {
          cancelled := true;
          return;
        }
        k := k + 1;
      }
    }

    /** RunWorkerCompleted: relaunch or report, then exit. */
    method RunWorkerCompleted(outcome: Outcome, start: StartOutcome)
      requires |args| >= 4
      modifies this`relaunched, this`errorsShown, this`exited
      ensures var c := Completion(args, outcome, start);
        relaunched == old(relaunched) + (if c.relaunch.Some? then [c.relaunch.value] else [])
        && errorsShown == old(errorsShown) + (if c.error.Some? then [c.error.value] else [])
        && exited
    {
      if outcome.Faulted? {
        errorsShown := errorsShown + [WorkFailed(outcome.fault)];
      } else if !outcome.Cancelled? {
        var executablePath := args[3];
        var request := Relaunch(executablePath, "");
        if |args| > 4 {
          request := request.(arguments := args[4]);
        }
        relaunched := relaunched + [request];
        if start.StartError? || (start.Win32Error? && start.nativeErrorCode != ErrorCancelled) {
          errorsShown := errorsShown + [RelaunchFailed(start)];
        }
      }
      exited := true;
    }
  }
}
