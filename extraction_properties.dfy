/**
 * What the extractor's worker guarantees, stated over its specification
 * functions: the bounded retries, the order in which entries are touched,
 * the effect of cancellation, the progress percentages, the files present
 * after a completed run, the cleanup, and the relaunch decision.
 */
module ExtractionProperties {
  import opened Basics
  import opened ZipExtractor

  // ---------------------------------------------------------------------
  // Observations on a stretch of the worker's log

  predicate NoPrompts(d: seq<Event>)
  {
    forall k :: 0 <= k < |d| ==> !d[k].Prompted?
  }

  predicate NoProgress(d: seq<Event>)
  {
    forall k :: 0 <= k < |d| ==> !d[k].Progress?
  }

  predicate NoAttempts(d: seq<Event>)
  {
    forall k :: 0 <= k < |d| ==> !d[k].Attempted?
  }

  /** Every attempt recorded is of entry `j`, numbered lo..hi. */
  predicate RetriesOf(d: seq<Event>, j: nat, lo: int, hi: int)
  {
    forall k :: 0 <= k < |d| && d[k].Attempted? ==> d[k].entry == j && lo <= d[k].retry <= hi
  }

  /** Attempt numbers strictly increase, so none is repeated. */
  predicate RetriesIncreasing(d: seq<Event>)
  {
    forall a, b :: 0 <= a < b < |d| && d[a].Attempted? && d[b].Attempted? ==> d[a].retry < d[b].retry
  }

  /** Every attempt recorded is of an entry in lo..hi. */
  predicate AttemptsBetween(d: seq<Event>, lo: int, hi: int)
  {
    forall k :: 0 <= k < |d| && d[k].Attempted? ==> lo <= d[k].entry <= hi
  }

  /** Attempts are recorded in ascending entry order. */
  predicate AttemptsAscending(d: seq<Event>)
  {
    forall a, b :: 0 <= a < b < |d| && d[a].Attempted? && d[b].Attempted? ==> d[a].entry <= d[b].entry
  }

  /** Every progress report is of a percentage in lo..hi. */
  predicate ProgressBetween(d: seq<Event>, lo: int, hi: int)
  {
    forall k :: 0 <= k < |d| && d[k].Progress? ==> lo <= d[k].percent <= hi
  }

  /** Progress reports never go down. */
  predicate ProgressAscending(d: seq<Event>)
  {
    forall a, b :: 0 <= a < b < |d| && d[a].Progress? && d[b].Progress? ==> d[a].percent <= d[b].percent
  }

  /** `log` extends `before`; Delta is what was added. */
  predicate Extends(log: seq<Event>, before: seq<Event>)
  {
    |before| <= |log| && log[..|before|] == before
  }

  function Delta(log: seq<Event>, before: seq<Event>): seq<Event>
    requires Extends(log, before)
  {
    log[|before|..]
  }

  /** Appending events extends the log by exactly those events. */
  lemma Appended(log: seq<Event>, extra: seq<Event>)
    ensures Extends(log + extra, log) && Delta(log + extra, log) == extra
  {
    assert (log + extra)[..|log|] == log;
  }

  /** Extending a log in two steps extends it in one, and the added stretches concatenate. */
  lemma Chain(a: seq<Event>, b: seq<Event>, c: seq<Event>)
    requires Extends(b, a) && Extends(c, b)
    ensures Extends(c, a) && Delta(c, a) == Delta(b, a) + Delta(c, b)
  {
    assert c[..|a|] == c[..|b|][..|a|];
  }

  /** Extending a log in three steps. */
  lemma Chain3(a: seq<Event>, b: seq<Event>, c: seq<Event>, d: seq<Event>)
    requires Extends(b, a) && Extends(c, b) && Extends(d, c)
    ensures Extends(d, a) && Delta(d, a) == Delta(b, a) + Delta(c, b) + Delta(d, c)
  {
    Chain(a, b, c);
    Chain(a, c, d);
  }

  lemma NoPromptsConcat(a: seq<Event>, b: seq<Event>)
    requires NoPrompts(a) && NoPrompts(b)
    ensures NoPrompts(a + b)
  {
  }

  lemma NoProgressConcat(a: seq<Event>, b: seq<Event>)
    requires NoProgress(a) && NoProgress(b)
    ensures NoProgress(a + b)
  {
  }

  lemma NoAttemptsConcat(a: seq<Event>, b: seq<Event>)
    requires NoAttempts(a) && NoAttempts(b)
    ensures NoAttempts(a + b)
  {
  }

  lemma AttemptsBetweenConcat(a: seq<Event>, b: seq<Event>, lo: int, hi: int)
    requires AttemptsBetween(a, lo, hi) && AttemptsBetween(b, lo, hi)
    ensures AttemptsBetween(a + b, lo, hi)
  {
  }

  lemma ProgressBetweenConcat(a: seq<Event>, b: seq<Event>, lo: int, hi: int)
    requires ProgressBetween(a, lo, hi) && ProgressBetween(b, lo, hi)
    ensures ProgressBetween(a + b, lo, hi)
  {
  }

  /** Two ascending stretches, the first below `m` and the second from `m` on, make one. */
  lemma AttemptsAscendingConcat(a: seq<Event>, b: seq<Event>, m: int)
    requires AttemptsAscending(a) && AttemptsAscending(b)
    requires forall k :: 0 <= k < |a| && a[k].Attempted? ==> a[k].entry <= m
    requires forall k :: 0 <= k < |b| && b[k].Attempted? ==> m <= b[k].entry
    ensures AttemptsAscending(a + b)
  {
    var c := a + b;
    forall x, y | 0 <= x < y < |c| && c[x].Attempted? && c[y].Attempted? ensures c[x].entry <= c[y].entry {
      if y < |a| {
        assert c[x] == a[x] && c[y] == a[y];
      } else if x >= |a| {
        assert c[x] == b[x - |a|] && c[y] == b[y - |a|];
      } else {
        assert c[x] == a[x] && c[y] == b[y - |a|];
      }
    }
  }

  lemma AscendingThenNoAttempts(a: seq<Event>, b: seq<Event>)
    requires AttemptsAscending(a) && NoAttempts(b)
    ensures AttemptsAscending(a + b)
  {
    var c := a + b;
    forall x, y | 0 <= x < y < |c| && c[x].Attempted? && c[y].Attempted? ensures c[x].entry <= c[y].entry {
      if y < |a| {
        assert c[x] == a[x] && c[y] == a[y];
      }
    }
  }

  lemma ProgressAscendingConcat(a: seq<Event>, b: seq<Event>, m: int)
    requires ProgressAscending(a) && ProgressAscending(b)
    requires forall k :: 0 <= k < |a| && a[k].Progress? ==> a[k].percent <= m
    requires forall k :: 0 <= k < |b| && b[k].Progress? ==> m <= b[k].percent
    ensures ProgressAscending(a + b)
  {
    var c := a + b;
    forall x, y | 0 <= x < y < |c| && c[x].Progress? && c[y].Progress? ensures c[x].percent <= c[y].percent {
      if y < |a| {
        assert c[x] == a[x] && c[y] == a[y];
      } else if x >= |a| {
        assert c[x] == b[x - |a|] && c[y] == b[y - |a|];
      } else {
        assert c[x] == a[x] && c[y] == b[y - |a|];
      }
    }
  }

  // ---------------------------------------------------------------------
  // One entry

  /** One try records its own numbered attempt first, and no other attempt, report or prompt. */
  lemma TryOnceAppends(host: Host, filePath: string, j: nat, retries: nat, st: State)
    ensures var t := TryOnce(host, filePath, j, retries, st);
      Extends(t.state.log, st.log)
      && var d := Delta(t.state.log, st.log);
      |d| > 0 && d[0] == Attempted(j, retries) && NoAttempts(d[1..])
      && AttemptsBetween(d, j, j) && NoProgress(d) && NoPrompts(d)
  {
    var t := TryOnce(host, filePath, j, retries, st);
    if t.state.log == st.log + [Attempted(j, retries)] {
      Appended(st.log, [Attempted(j, retries)]);
    } else {
      assert t.state.log == st.log + [Attempted(j, retries), Removed(filePath)];
      Appended(st.log, [Attempted(j, retries), Removed(filePath)]);
    }
  }

  /** A try touches no file but the entry's own, and leaves it there when nothing was caught. */
  lemma TryOnceFiles(host: Host, filePath: string, j: nat, retries: nat, st: State)
    ensures var t := TryOnce(host, filePath, j, retries, st);
      t.state.files - {filePath} == st.files - {filePath}
      && (t.caught.None? ==> t.state.files == st.files + {filePath})
  {
  }

  lemma {:induction false} PromptsAppend(host: Host, j: nat, names: seq<string>, filePath: string, k: nat, log: seq<Event>)
    ensures var p := PromptsFrom(host, j, names, filePath, k, log);
      Extends(p.log, log) && NoAttempts(Delta(p.log, log)) && NoProgress(Delta(p.log, log))
    decreases |names| - k
  {
    if k < |names| {
      var log1 := log + [Prompted(names[k], filePath)];
      Appended(log, [Prompted(names[k], filePath)]);
      if host.answer(j, k) != Cancel {
        var p := PromptsFrom(host, j, names, filePath, k + 1, log1);
        PromptsAppend(host, j, names, filePath, k + 1, log1);
        Chain(log, log1, p.log);
        NoAttemptsConcat(Delta(log1, log), Delta(p.log, log1));
        NoProgressConcat(Delta(log1, log), Delta(p.log, log1));
      }
    } else {
      Appended(log, []);
    }
  }

  /**
   * `d` is the prompts shown from the `k`-th locking process on: one per
   * process, in order, every one but the last answered Retry, and they
   * stop at the first Cancel (which `cancelled` reports) or after the last
   * process.
   */
  predicate PromptsUntilCancel(d: seq<Event>, host: Host, j: nat, names: seq<string>, filePath: string, k: nat, cancelled: bool)
  {
    k + |d| <= |names|
    && (forall i :: 0 <= i < |d| ==> d[i] == Prompted(names[k + i], filePath))
    && (forall q :: k <= q < k + |d| - 1 ==> host.answer(j, q) == Retry)
    && (cancelled <==> |d| > 0 && host.answer(j, k + |d| - 1) == Cancel)
    && (!cancelled ==> k + |d| == |names|)
  }

  /** One prompt per locking process, in order, up to and including the first Cancel. */
  lemma {:induction false} PromptsShown(host: Host, j: nat, names: seq<string>, filePath: string, k: nat, log: seq<Event>)
    requires k <= |names|
    ensures var p := PromptsFrom(host, j, names, filePath, k, log);
      Extends(p.log, log) && PromptsUntilCancel(Delta(p.log, log), host, j, names, filePath, k, p.cancelled)
    decreases |names| - k
  {
    if k == |names| {
      Appended(log, []);
    } else {
      var shown := [Prompted(names[k], filePath)];
      var log1 := log + shown;
      Appended(log, shown);
      if host.answer(j, k) != Cancel {
        var p := PromptsFrom(host, j, names, filePath, k + 1, log1);
        PromptsShown(host, j, names, filePath, k + 1, log1);
        Chain(log, log1, p.log);
        PromptsCons(shown, Delta(p.log, log1), host, j, names, filePath, k, p.cancelled);
      }
    }
  }

  /** A prompt answered Retry in front of the prompts from the next process on. */
  lemma PromptsCons(shown: seq<Event>, rest: seq<Event>, host: Host, j: nat, names: seq<string>, filePath: string, k: nat, cancelled: bool)
    requires k < |names| && shown == [Prompted(names[k], filePath)] && host.answer(j, k) == Retry
    requires PromptsUntilCancel(rest, host, j, names, filePath, k + 1, cancelled)
    ensures PromptsUntilCancel(shown + rest, host, j, names, filePath, k, cancelled)
  {
    var d := shown + rest;
    forall i | 0 <= i < |d| ensures d[i] == Prompted(names[k + i], filePath) {
      if i > 0 { assert d[i] == rest[i - 1]; }
    }
  }

  /** The backoff records no attempt and no report. */
  lemma BackoffAppends(host: Host, j: nat, retries: nat, filePath: string, log: seq<Event>)
    ensures var b := Backoff(host, j, retries, filePath, log);
      Extends(b.log, log) && NoAttempts(Delta(b.log, log)) && NoProgress(Delta(b.log, log))
  {
    match Diagnose(host, j, retries) {
      case Unavailable =>
        Appended(log, [Slept(BackoffMillis)]);
      case Lockers(names) =>
        PromptsAppend(host, j, names, filePath, 0, log);
    }
  }

  /**
   * When no locking process can be named (before Windows Vista, after the
   * first lock failure, or when the diagnosis fails) the backoff is one
   * 5000 ms pause and never cancels; otherwise it is the prompts up to the
   * first Cancel, with no pause.
   */
  lemma BackoffShape(host: Host, j: nat, retries: nat, filePath: string, log: seq<Event>)
    ensures var b := Backoff(host, j, retries, filePath, log);
      Extends(b.log, log)
      && ((host.osMajor < 6 || retries < 2 || host.whoIsLocking(j).Unavailable?) ==>
            Delta(b.log, log) == [Slept(BackoffMillis)] && !b.cancelled)
      && (host.osMajor >= 6 && retries >= 2 && host.whoIsLocking(j).Lockers? ==>
            PromptsUntilCancel(Delta(b.log, log), host, j, host.whoIsLocking(j).names, filePath, 0, b.cancelled))
  {
    match Diagnose(host, j, retries) {
      case Unavailable =>
        Appended(log, [Slept(BackoffMillis)]);
      case Lockers(names) =>
        PromptsShown(host, j, names, filePath, 0, log);
    }
  }

  /** When the user answers Retry to every prompt, the backoff never cancels. */
  lemma BackoffWithoutCancel(host: Host, j: nat, retries: nat, filePath: string, log: seq<Event>)
    requires host.osMajor < 6 || forall q :: host.answer(j, q) == Retry
    ensures !Backoff(host, j, retries, filePath, log).cancelled
  {
    BackoffShape(host, j, retries, filePath, log);
  }

  /** An entry records only attempts of itself and reports no progress. */
  lemma {:induction false} EntryStaysOnEntry(host: Host, root: string, j: nat, retries: nat, st: State)
    requires j < |host.entryNames| && retries <= MaxRetries
    ensures var e := EntryFrom(host, root, j, retries, st);
      Extends(e.state.log, st.log)
      && AttemptsBetween(Delta(e.state.log, st.log), j, j)
      && NoProgress(Delta(e.state.log, st.log))
    decreases MaxRetries - retries
  {
    var filePath := EntryPath(root, host.entryNames[j]);
    var t := TryOnce(host, filePath, j, retries, st);
    TryOnceAppends(host, filePath, j, retries, st);
    if t.caught.Some? && IsLockFault(t.caught.value) && retries + 1 <= MaxRetries {
      var b := Backoff(host, j, retries + 1, filePath, t.state.log);
      BackoffAppends(host, j, retries + 1, filePath, t.state.log);
      var d1, d2 := Delta(t.state.log, st.log), Delta(b.log, t.state.log);
      if b.cancelled {
        Chain(st.log, t.state.log, b.log);
        StaysOnEntryParts(d1, d2, [], j);
        assert d1 + d2 + [] == d1 + d2;
      } else {
        var next := t.state.(log := b.log);
        var e := EntryFrom(host, root, j, retries + 1, next);
        assert EntryFrom(host, root, j, retries, st) == e;
        EntryStaysOnEntry(host, root, j, retries + 1, next);
        Chain3(st.log, t.state.log, b.log, e.state.log);
        StaysOnEntryParts(d1, d2, Delta(e.state.log, b.log), j);
      }
    }
  }

  lemma StaysOnEntryParts(d1: seq<Event>, d2: seq<Event>, d3: seq<Event>, j: nat)
    requires AttemptsBetween(d1, j, j) && NoProgress(d1)
    requires NoAttempts(d2) && NoProgress(d2)
    requires AttemptsBetween(d3, j, j) && NoProgress(d3)
    ensures AttemptsBetween(d1 + d2 + d3, j, j) && NoProgress(d1 + d2 + d3)
  {
    assert AttemptsBetween(d1 + d2, j, j);
  }

  /**
   * An entry's attempts are numbered from `retries` on, each number once and
   * in increasing order, none beyond MaxRetries: at most MaxRetries + 1
   * attempts in all, the first one made at once.
   */
  lemma {:induction false} EntryRetries(host: Host, root: string, j: nat, retries: nat, st: State)
    requires j < |host.entryNames| && retries <= MaxRetries
    ensures var e := EntryFrom(host, root, j, retries, st);
      Extends(e.state.log, st.log)
      && var d := Delta(e.state.log, st.log);
      |d| > 0 && d[0] == Attempted(j, retries)
      && RetriesOf(d, j, retries, MaxRetries) && RetriesIncreasing(d)
    decreases MaxRetries - retries
  {
    var filePath := EntryPath(root, host.entryNames[j]);
    var t := TryOnce(host, filePath, j, retries, st);
    TryOnceAppends(host, filePath, j, retries, st);
    var d1 := Delta(t.state.log, st.log);
    if t.caught.Some? && IsLockFault(t.caught.value) && retries + 1 <= MaxRetries {
      var b := Backoff(host, j, retries + 1, filePath, t.state.log);
      BackoffAppends(host, j, retries + 1, filePath, t.state.log);
      var d2 := Delta(b.log, t.state.log);
      if b.cancelled {
        Chain(st.log, t.state.log, b.log);
        RetriesParts(d1, d2, [], j, retries);
        assert d1 + d2 + [] == d1 + d2;
      } else {
        var next := t.state.(log := b.log);
        var e := EntryFrom(host, root, j, retries + 1, next);
        assert EntryFrom(host, root, j, retries, st) == e;
        EntryRetries(host, root, j, retries + 1, next);
        Chain3(st.log, t.state.log, b.log, e.state.log);
        RetriesParts(d1, d2, Delta(e.state.log, b.log), j, retries);
      }
    } else {
      RetriesParts(d1, [], [], j, retries);
      assert d1 + [] + [] == d1;
    }
  }

  /** A try's numbered attempt, a backoff, then attempts numbered above the try's. */
  lemma RetriesParts(d1: seq<Event>, d2: seq<Event>, d3: seq<Event>, j: nat, retries: nat)
    requires |d1| > 0 && d1[0] == Attempted(j, retries) && NoAttempts(d1[1..])
    requires NoAttempts(d2) && retries <= MaxRetries
    requires RetriesOf(d3, j, retries + 1, MaxRetries) && RetriesIncreasing(d3)
    ensures var d := d1 + d2 + d3;
      |d| > 0 && d[0] == Attempted(j, retries)
      && RetriesOf(d, j, retries, MaxRetries) && RetriesIncreasing(d)
  {
    var d := d1 + d2 + d3;
    var n := |d1| + |d2|;
    forall k | 0 < k < n
      ensures !d[k].Attempted?
    {
      if k < |d1| {
        assert d[k] == d1[1..][k - 1];
      } else {
        assert d[k] == d2[k - |d1|];
      }
    }
    forall k | n <= k < |d|
      ensures d[k] == d3[k - n]
    {
    }
  }

  /** Before Windows Vista no locking process is named, so no one is ever prompted. */
  lemma {:induction false} NoPromptsBeforeVista(host: Host, root: string, j: nat, retries: nat, st: State)
    requires j < |host.entryNames| && retries <= MaxRetries
    requires host.osMajor < 6
    ensures var e := EntryFrom(host, root, j, retries, st);
      Extends(e.state.log, st.log) && NoPrompts(Delta(e.state.log, st.log))
    decreases MaxRetries - retries
  {
    var filePath := EntryPath(root, host.entryNames[j]);
    var t := TryOnce(host, filePath, j, retries, st);
    TryOnceAppends(host, filePath, j, retries, st);
    if t.caught.Some? && IsLockFault(t.caught.value) && retries + 1 <= MaxRetries {
      var b := Backoff(host, j, retries + 1, filePath, t.state.log);
      BackoffAppends(host, j, retries + 1, filePath, t.state.log);
      BackoffShape(host, j, retries + 1, filePath, t.state.log);
      var next := t.state.(log := b.log);
      var e := EntryFrom(host, root, j, retries + 1, next);
      assert EntryFrom(host, root, j, retries, st) == e;
      NoPromptsBeforeVista(host, root, j, retries + 1, next);
      Chain3(st.log, t.state.log, b.log, e.state.log);
      NoPromptsParts(Delta(t.state.log, st.log), Delta(b.log, t.state.log), Delta(e.state.log, b.log));
    }
  }

  lemma NoPromptsParts(d1: seq<Event>, d2: seq<Event>, d3: seq<Event>)
    requires NoPrompts(d1) && NoPrompts(d2) && NoPrompts(d3)
    ensures NoPrompts(d1 + d2 + d3)
  {
    assert NoPrompts(d1 + d2);
  }

  /** An entry changes no file but its own, and on success its file is present. */
  lemma {:induction false} EntryFiles(host: Host, root: string, j: nat, retries: nat, st: State)
    requires j < |host.entryNames| && retries <= MaxRetries
    ensures var filePath := EntryPath(root, host.entryNames[j]);
      var e := EntryFrom(host, root, j, retries, st);
      e.state.files - {filePath} == st.files - {filePath}
      && (e.fault.None? ==> e.state.files == st.files + {filePath})
    decreases MaxRetries - retries
  {
    var filePath := EntryPath(root, host.entryNames[j]);
    var t := TryOnce(host, filePath, j, retries, st);
    TryOnceFiles(host, filePath, j, retries, st);
    if t.caught.Some? && IsLockFault(t.caught.value) && retries + 1 <= MaxRetries {
      var b := Backoff(host, j, retries + 1, filePath, t.state.log);
      EntryFiles(host, root, j, retries + 1, t.state.(log := b.log));
    }
  }

  /** A fault that is not a sharing or lock violation ends the entry with that try, unretried. */
  lemma NoRetryAfterOtherFault(host: Host, root: string, j: nat, retries: nat, st: State)
    requires j < |host.entryNames| && retries <= MaxRetries
    requires var t := TryOnce(host, EntryPath(root, host.entryNames[j]), j, retries, st);
      t.caught.Some? && !IsLockFault(t.caught.value)
    ensures var t := TryOnce(host, EntryPath(root, host.entryNames[j]), j, retries, st);
      EntryFrom(host, root, j, retries, st) == EntryEnd(t.state, t.caught)
  {
  }

  /**
   * A file that stays locked on every attempt, when the user never answers
   * Cancel (or, before Windows Vista, is never asked), is attempted under
   * every retry number up to MaxRetries and then ends the entry with the
   * lock fault.
   */
  lemma {:induction false} PersistentLockGivesUp(host: Host, root: string, j: nat, retries: nat, st: State)
    requires j < |host.entryNames| && retries <= MaxRetries
    requires host.osMajor < 6 || forall q :: host.answer(j, q) == Retry
    requires forall r :: retries <= r <= MaxRetries ==>
      host.attempt(j, r).deleteFault.None? && host.attempt(j, r).extractFault.Some?
      && IsLockFault(host.attempt(j, r).extractFault.value)
    ensures var e := EntryFrom(host, root, j, retries, st);
      e.fault.Some? && IsLockFault(e.fault.value)
      && Extends(e.state.log, st.log)
      && forall r :: retries <= r <= MaxRetries ==> Attempted(j, r) in Delta(e.state.log, st.log)
    decreases MaxRetries - retries
  {
    var filePath := EntryPath(root, host.entryNames[j]);
    var t := TryOnce(host, filePath, j, retries, st);
    TryOnceAppends(host, filePath, j, retries, st);
    var d1 := Delta(t.state.log, st.log);
    assert d1[0] == Attempted(j, retries);
    if retries < MaxRetries {
      var b := Backoff(host, j, retries + 1, filePath, t.state.log);
      BackoffAppends(host, j, retries + 1, filePath, t.state.log);
      BackoffWithoutCancel(host, j, retries + 1, filePath, t.state.log);
      var next := t.state.(log := b.log);
      var e := EntryFrom(host, root, j, retries + 1, next);
      assert EntryFrom(host, root, j, retries, st) == e;
      PersistentLockGivesUp(host, root, j, retries + 1, next);
      Chain3(st.log, t.state.log, b.log, e.state.log);
      LaterAttemptsKept(d1, Delta(b.log, t.state.log), Delta(e.state.log, b.log), j, retries);
    }
  }

  /**
   * A lock released in time: when the attempts before retry `released` meet
   * a lock fault and that one succeeds, and the user never answers Cancel
   * (or, before Windows Vista, is never asked), the entry is extracted.
   */
  lemma {:induction false} LockReleasedInTimeSucceeds(host: Host, root: string, j: nat, retries: nat, released: nat, st: State)
    requires j < |host.entryNames| && retries <= released <= MaxRetries
    requires host.osMajor < 6 || forall q :: host.answer(j, q) == Retry
    requires forall r :: retries <= r < released ==>
      host.attempt(j, r).deleteFault.None? && host.attempt(j, r).extractFault.Some?
      && IsLockFault(host.attempt(j, r).extractFault.value)
    requires host.attempt(j, released) == Attempt(None, None)
    ensures EntryFrom(host, root, j, retries, st).fault.None?
    decreases released - retries
  {
    if retries < released {
      var filePath := EntryPath(root, host.entryNames[j]);
      var t := TryOnce(host, filePath, j, retries, st);
      var b := Backoff(host, j, retries + 1, filePath, t.state.log);
      BackoffWithoutCancel(host, j, retries + 1, filePath, t.state.log);
      var next := t.state.(log := b.log);
      assert EntryFrom(host, root, j, retries, st) == EntryFrom(host, root, j, retries + 1, next);
      LockReleasedInTimeSucceeds(host, root, j, retries + 1, released, next);
    }
  }

  /**
   * A Cancel answer ends the entry: after a lock failure on Windows Vista
   * or later, from the second retry on, when one of the named locking
   * processes is answered Cancel, the lock fault is rethrown with no
   * further attempt and the files stay as the failed try left them; the
   * last thing recorded is the prompt that was cancelled.
   */
  lemma CancelEndsEntry(host: Host, root: string, j: nat, retries: nat, st: State, names: seq<string>, cancelAt: nat)
    requires j < |host.entryNames| && retries < MaxRetries
    requires var t := TryOnce(host, EntryPath(root, host.entryNames[j]), j, retries, st);
      t.caught.Some? && IsLockFault(t.caught.value)
    requires host.osMajor >= 6 && retries + 1 >= 2 && host.whoIsLocking(j) == Lockers(names)
    requires cancelAt < |names| && host.answer(j, cancelAt) == Cancel
    ensures var t := TryOnce(host, EntryPath(root, host.entryNames[j]), j, retries, st);
      var e := EntryFrom(host, root, j, retries, st);
      e.fault == t.caught && e.state.files == t.state.files
      && Extends(e.state.log, t.state.log) && NoAttempts(Delta(e.state.log, t.state.log))
      && var d := Delta(e.state.log, t.state.log);
      0 < |d| <= cancelAt + 1 && d[|d| - 1] == Prompted(names[|d| - 1], EntryPath(root, host.entryNames[j]))
  {
    var filePath := EntryPath(root, host.entryNames[j]);
    var t := TryOnce(host, filePath, j, retries, st);
    var b := Backoff(host, j, retries + 1, filePath, t.state.log);
    BackoffAppends(host, j, retries + 1, filePath, t.state.log);
    BackoffShape(host, j, retries + 1, filePath, t.state.log);
    CancelStopsPrompts(Delta(b.log, t.state.log), host, j, names, filePath, b.cancelled, cancelAt);
    assert EntryFrom(host, root, j, retries, st) == EntryEnd(t.state.(log := b.log), t.caught);
  }

  /** A Cancel answer to some locking process stops the prompts there at the latest. */
  lemma CancelStopsPrompts(d: seq<Event>, host: Host, j: nat, names: seq<string>, filePath: string, cancelled: bool, cancelAt: nat)
    requires PromptsUntilCancel(d, host, j, names, filePath, 0, cancelled)
    requires cancelAt < |names| && host.answer(j, cancelAt) == Cancel
    ensures cancelled && 0 < |d| <= cancelAt + 1
  {
  }

  /** The first try's attempt and every later one survive the concatenation. */
  lemma LaterAttemptsKept(d1: seq<Event>, d2: seq<Event>, d3: seq<Event>, j: nat, retries: nat)
    requires |d1| > 0 && d1[0] == Attempted(j, retries)
    requires forall r :: retries + 1 <= r <= MaxRetries ==> Attempted(j, r) in d3
    ensures forall r :: retries <= r <= MaxRetries ==> Attempted(j, r) in d1 + d2 + d3
  {
    forall r | retries <= r <= MaxRetries
      ensures Attempted(j, r) in d1 + d2 + d3
    {
      if r == retries {
        assert (d1 + d2 + d3)[0] == d1[0];
      } else {
        assert Attempted(j, r) in d3;
      }
    }
  }

  // ---------------------------------------------------------------------
  // The entry loop

  lemma SameEntryAscending(d: seq<Event>, m: int)
    requires AttemptsBetween(d, m, m)
    ensures AttemptsAscending(d)
  {
  }

  lemma SamePercentAscending(d: seq<Event>, m: int)
    requires ProgressBetween(d, m, m)
    ensures ProgressAscending(d)
  {
  }

  function EntryPaths(root: string, names: seq<string>, i: nat): set<string>
  {
    set k | i <= k < |names| :: EntryPath(root, names[k])
  }

  /**
   * The loop stops at an index no earlier than where it started; it
   * completes exactly when it ran past the last entry; no cancellation was
   * pending at any index it passed, and a cancelled loop saw the flag where
   * it stopped.
   */
  lemma {:induction false} RunReach(host: Host, root: string, i: nat, progress: int, st: State)
    ensures var r := RunFrom(host, root, i, progress, st);
      i <= r.reached
      && (r.outcome == Completed <==> r.reached >= |host.entryNames|)
      && (r.outcome != Completed ==> r.reached < |host.entryNames|)
      && (r.outcome == Cancelled ==> host.cancellationPending(r.reached))
      && (forall k :: i <= k < r.reached ==> !host.cancellationPending(k))
    decreases |host.entryNames| - i
  {
    if i < |host.entryNames| && !host.cancellationPending(i) {
      var message := CurrentFile(host.entryNames[i]);
      var e := EntryFrom(host, root, i, 0, st.(log := st.log + [Progress(progress, message)]));
      if e.fault.None? && host.filesCount != 0 {
        var p := Percent(i + 1, host.filesCount);
        RunReach(host, root, i + 1, p, e.state.(log := e.state.log + [Progress(p, message)]));
      }
    }
  }

  /** The log of a round that goes on, followed by the rest of the loop's. */
  lemma RunRestLog(before: seq<Event>, entryLog: seq<Event>, report: Event, rest: seq<Event>)
    requires Extends(entryLog, before)
    requires Extends(rest, entryLog + [report])
    ensures Extends(rest, before)
      && Delta(rest, before) == Delta(entryLog, before) + [report] + Delta(rest, entryLog + [report])
  {
    Appended(entryLog, [report]);
    Chain(before, entryLog, entryLog + [report]);
    Chain(before, entryLog + [report], rest);
  }

  /** The attempts of a round of entry `i`, followed by ascending attempts of later entries up to `hi`. */
  lemma AttemptStep(announce: Event, entry: seq<Event>, report: Event, rest: seq<Event>, i: int, hi: int)
    requires !announce.Attempted? && !report.Attempted? && AttemptsBetween(entry, i, i) && i <= hi
    requires AttemptsAscending(rest) && AttemptsBetween(rest, i + 1, hi)
    ensures AttemptsAscending([announce] + entry + [report] + rest)
    ensures AttemptsBetween([announce] + entry + [report] + rest, i, hi)
  {
    var d2 := [announce] + entry + [report];
    assert AttemptsBetween(d2, i, i);
    SameEntryAscending(d2, i);
    AttemptsAscendingConcat(d2, rest, i);
  }

  /** A round whose entry ended the loop: its attempts are of entry `i` alone. */
  lemma AttemptLast(announce: Event, entry: seq<Event>, i: int)
    requires !announce.Attempted? && AttemptsBetween(entry, i, i)
    ensures AttemptsAscending([announce] + entry) && AttemptsBetween([announce] + entry, i, i)
  {
    assert AttemptsBetween([announce] + entry, i, i);
    SameEntryAscending([announce] + entry, i);
  }

  /**
   * A round of the loop in log terms: the announcement, the entry's attempts
   * of entry `i`, the report, and the rest of the loop's ascending attempts.
   */
  lemma AttemptRound(before: seq<Event>, announce: Event, entryLog: seq<Event>, report: Event, after: seq<Event>, i: int, hi: int)
    requires !announce.Attempted? && !report.Attempted? && i <= hi
    requires Extends(entryLog, before + [announce]) && AttemptsBetween(Delta(entryLog, before + [announce]), i, i)
    requires Extends(after, entryLog + [report])
    requires AttemptsAscending(Delta(after, entryLog + [report])) && AttemptsBetween(Delta(after, entryLog + [report]), i + 1, hi)
    ensures Extends(after, before) && AttemptsAscending(Delta(after, before)) && AttemptsBetween(Delta(after, before), i, hi)
  {
    Appended(before, [announce]);
    Chain(before, before + [announce], entryLog);
    RunRestLog(before, entryLog, report, after);
    AttemptStep(announce, Delta(entryLog, before + [announce]), report, Delta(after, entryLog + [report]), i, hi);
  }

  /** The round that ends the loop: the announcement and the entry's attempts. */
  lemma AttemptRoundLast(before: seq<Event>, announce: Event, entryLog: seq<Event>, i: int)
    requires !announce.Attempted?
    requires Extends(entryLog, before + [announce]) && AttemptsBetween(Delta(entryLog, before + [announce]), i, i)
    ensures Extends(entryLog, before) && AttemptsAscending(Delta(entryLog, before)) && AttemptsBetween(Delta(entryLog, before), i, i)
  {
    Appended(before, [announce]);
    Chain(before, before + [announce], entryLog);
    AttemptLast(announce, Delta(entryLog, before + [announce]), i);
  }

  /**
   * Entries are attempted in ascending order, from `i` up to the index the
   * loop stopped at, that one included only when it faulted.
   */
  lemma {:induction false} RunAttemptOrder(host: Host, root: string, i: nat, progress: int, st: State)
    ensures var r := RunFrom(host, root, i, progress, st);
      i <= r.reached && Extends(r.state.log, st.log)
      && AttemptsAscending(Delta(r.state.log, st.log))
      && AttemptsBetween(Delta(r.state.log, st.log), i, if r.outcome.Faulted? then r.reached else r.reached - 1)
    decreases |host.entryNames| - i
  {
    var r := RunFrom(host, root, i, progress, st);
    if i >= |host.entryNames| || host.cancellationPending(i) {
      Appended(st.log, []);
      assert st.log + [] == st.log;
    } else {
      var message := CurrentFile(host.entryNames[i]);
      var log1 := st.log + [Progress(progress, message)];
      var e := EntryFrom(host, root, i, 0, st.(log := log1));
      EntryStaysOnEntry(host, root, i, 0, st.(log := log1));
      if e.fault.None? && host.filesCount != 0 {
        var p := Percent(i + 1, host.filesCount);
        var st2 := e.state.(log := e.state.log + [Progress(p, message)]);
        assert r == RunFrom(host, root, i + 1, p, st2);
        RunAttemptOrder(host, root, i + 1, p, st2);
        var hi := if r.outcome.Faulted? then r.reached else r.reached - 1;
        AttemptRound(st.log, Progress(progress, message), e.state.log, Progress(p, message), r.state.log, i, hi);
      } else {
        AttemptRoundLast(st.log, Progress(progress, message), e.state.log, i);
      }
    }
  }

  /** The entry paths from `i` on are entry i's and those from i + 1 on. */
  lemma EntryPathsSplit(root: string, names: seq<string>, i: nat)
    requires i < |names|
    ensures EntryPaths(root, names, i) == {EntryPath(root, names[i])} + EntryPaths(root, names, i + 1)
  {
    forall x | x in EntryPaths(root, names, i) ensures x in {EntryPath(root, names[i])} + EntryPaths(root, names, i + 1) {
      var k :| i <= k < |names| && x == EntryPath(root, names[k]);
      if k > i { assert x in EntryPaths(root, names, i + 1); }
    }
  }

  /** A completed loop from `i` leaves the earlier files plus every later entry's file. */
  lemma {:induction false} RunFiles(host: Host, root: string, i: nat, progress: int, st: State)
    requires i <= |host.entryNames|
    ensures var r := RunFrom(host, root, i, progress, st);
      r.outcome == Completed ==> r.state.files == st.files + EntryPaths(root, host.entryNames, i)
    decreases |host.entryNames| - i
  {
    var names := host.entryNames;
    if i == |names| {
      assert EntryPaths(root, names, i) == {};
    } else if !host.cancellationPending(i) {
      var message := CurrentFile(names[i]);
      var st1 := st.(log := st.log + [Progress(progress, message)]);
      var e := EntryFrom(host, root, i, 0, st1);
      EntryFiles(host, root, i, 0, st1);
      if e.fault.None? && host.filesCount != 0 {
        var p := Percent(i + 1, host.filesCount);
        var st2 := e.state.(log := e.state.log + [Progress(p, message)]);
        assert RunFrom(host, root, i, progress, st) == RunFrom(host, root, i + 1, p, st2);
        RunFiles(host, root, i + 1, p, st2);
        EntryPathsSplit(root, names, i);
      }
    }
  }

  lemma {:induction false} MulAtLeast(k: nat, d: nat)
    requires k >= 1
    ensures k * d >= d
    decreases k
  {
    if k > 1 {
      MulAtLeast(k - 1, d);
      assert k * d == (k - 1) * d + d;
    }
  }

  /** Integer division by a positive number is monotone. */
  lemma DivMonotone(x: nat, y: nat, d: nat)
    requires x <= y && 0 < d
    ensures x / d <= y / d
  {
    var qx, qy := x / d, y / d;
    var k := if qx > qy then qx - qy else 1;
    MulAtLeast(k, d);
    assert qx > qy ==> qx * d == qy * d + k * d;
  }

  /** The quotient is the only q with q * d <= x < q * d + d. */
  lemma QuotientUnique(x: nat, d: nat, q: nat)
    requires d > 0 && q * d <= x < q * d + d
    ensures x / d == q
  {
    var q2 := x / d;
    var lo, hi := if q2 < q then q2 else q, if q2 < q then q else q2;
    var k := if lo < hi then hi - lo else 1;
    MulAtLeast(k, d);
    assert lo < hi ==> hi * d == lo * d + k * d;
  }

  /** Nothing done is 0%. */
  lemma PercentOfNone(total: nat)
    requires total > 0
    ensures Percent(0, total) == 0
  {
    assert 0 * 100 == 0;
  }

  /** Progress never decreases, stays within 0..100, and is 100 after the last entry. */
  lemma PercentBounds(a: nat, b: nat, total: nat)
    requires a <= b <= total && total > 0
    ensures 0 <= Percent(a, total) <= Percent(b, total) <= 100
    ensures Percent(total, total) == 100
  {
    DivMonotone(a * 100, b * 100, total);
    DivMonotone(b * 100, total * 100, total);
    QuotientUnique(total * 100, total, 100);
  }

  /** The reports of a round that goes on, followed by ascending reports from `p` to 100. */
  lemma ProgressStep(message: Message, entry: seq<Event>, rest: seq<Event>, progress: int, p: int)
    requires NoProgress(entry) && progress <= p <= 100
    requires ProgressAscending(rest) && ProgressBetween(rest, p, 100)
    ensures var d := [Progress(progress, message)] + entry + [Progress(p, message)] + rest;
      ProgressAscending(d) && ProgressBetween(d, progress, 100)
  {
    var d1 := [Progress(progress, message)] + entry;
    assert ProgressBetween(d1, progress, progress);
    SamePercentAscending(d1, progress);
    ProgressAscendingConcat(d1, [Progress(p, message)], progress);
    ProgressAscendingConcat(d1 + [Progress(p, message)], rest, p);
  }

  /** A round whose entry ended the loop reports only the pre-announcement. */
  lemma ProgressLast(message: Message, entry: seq<Event>, progress: int)
    requires NoProgress(entry)
    ensures ProgressAscending([Progress(progress, message)] + entry)
    ensures ProgressBetween([Progress(progress, message)] + entry, progress, progress)
  {
    assert ProgressBetween([Progress(progress, message)] + entry, progress, progress);
    SamePercentAscending([Progress(progress, message)] + entry, progress);
  }

  /** A round of the loop in log terms: announcement, entry, report, and the rest of the loop. */
  lemma ProgressRound(before: seq<Event>, message: Message, progress: int, entryLog: seq<Event>, p: int, after: seq<Event>)
    requires progress <= p <= 100
    requires Extends(entryLog, before + [Progress(progress, message)])
    requires NoProgress(Delta(entryLog, before + [Progress(progress, message)]))
    requires Extends(after, entryLog + [Progress(p, message)])
    requires ProgressAscending(Delta(after, entryLog + [Progress(p, message)]))
    requires ProgressBetween(Delta(after, entryLog + [Progress(p, message)]), p, 100)
    ensures Extends(after, before) && ProgressAscending(Delta(after, before)) && ProgressBetween(Delta(after, before), progress, 100)
  {
    var log1 := before + [Progress(progress, message)];
    Appended(before, [Progress(progress, message)]);
    Chain(before, log1, entryLog);
    RunRestLog(before, entryLog, Progress(p, message), after);
    ProgressStep(message, Delta(entryLog, log1), Delta(after, entryLog + [Progress(p, message)]), progress, p);
  }

  /** The round that ends the loop: the announcement and the entry. */
  lemma ProgressRoundLast(before: seq<Event>, message: Message, progress: int, entryLog: seq<Event>)
    requires Extends(entryLog, before + [Progress(progress, message)])
    requires NoProgress(Delta(entryLog, before + [Progress(progress, message)]))
    ensures Extends(entryLog, before) && ProgressAscending(Delta(entryLog, before))
    ensures ProgressBetween(Delta(entryLog, before), progress, progress)
  {
    var log1 := before + [Progress(progress, message)];
    Appended(before, [Progress(progress, message)]);
    Chain(before, log1, entryLog);
    ProgressLast(message, Delta(entryLog, log1), progress);
  }

  /**
   * When the archive's count equals its number of entries, the loop's
   * progress reports from `i` on never decrease, stay between the last
   * reported value and 100.
   */
  lemma {:induction false} RunProgress(host: Host, root: string, i: nat, st: State)
    requires host.filesCount == |host.entryNames| && i <= |host.entryNames|
    requires host.filesCount > 0
    ensures var r := RunFrom(host, root, i, Percent(i, host.filesCount), st);
      Extends(r.state.log, st.log)
      && var d := Delta(r.state.log, st.log);
      ProgressAscending(d)
      && ProgressBetween(d, Percent(i, host.filesCount), 100)
    decreases |host.entryNames| - i
  {
    var n := host.filesCount;
    var progress := Percent(i, n);
    var r := RunFrom(host, root, i, progress, st);
    if i == |host.entryNames| || host.cancellationPending(i) {
      Appended(st.log, []);
      assert st.log + [] == st.log;
    } else {
      var message := CurrentFile(host.entryNames[i]);
      var log1 := st.log + [Progress(progress, message)];
      var e := EntryFrom(host, root, i, 0, st.(log := log1));
      EntryStaysOnEntry(host, root, i, 0, st.(log := log1));
      if e.fault.None? {
        var p := Percent(i + 1, n);
        PercentBounds(i, i + 1, n);
        var st2 := e.state.(log := e.state.log + [Progress(p, message)]);
        assert r == RunFrom(host, root, i + 1, p, st2);
        RunProgress(host, root, i + 1, st2);
        ProgressRound(st.log, message, progress, e.state.log, p, r.state.log);
      } else {
        PercentBounds(i, i, n);
        ProgressRoundLast(st.log, message, progress, e.state.log);
      }
    }
  }

  /**
   * When the archive's count equals its number of entries, a loop that
   * completes has reported 100%, for the last entry, as its last event.
   */
  lemma {:induction false} RunEndsAtHundred(host: Host, root: string, i: nat, progress: int, st: State)
    requires host.filesCount == |host.entryNames| && i < |host.entryNames|
    ensures var r := RunFrom(host, root, i, progress, st);
      r.outcome == Completed ==>
        |r.state.log| > 0
        && r.state.log[|r.state.log| - 1] == Progress(100, CurrentFile(host.entryNames[|host.entryNames| - 1]))
    decreases |host.entryNames| - i
  {
    var n := host.filesCount;
    if !host.cancellationPending(i) {
      var message := CurrentFile(host.entryNames[i]);
      var e := EntryFrom(host, root, i, 0, st.(log := st.log + [Progress(progress, message)]));
      if e.fault.None? {
        var p := Percent(i + 1, n);
        var st2 := e.state.(log := e.state.log + [Progress(p, message)]);
        assert RunFrom(host, root, i, progress, st) == RunFrom(host, root, i + 1, p, st2);
        if i + 1 < n {
          RunEndsAtHundred(host, root, i + 1, p, st2);
        } else {
          PercentBounds(n, n, n);
        }
      }
    }
  }

  // ---------------------------------------------------------------------
  // The whole worker

  /** The kill loop reports only 0% and attempts no entry. */
  lemma {:induction false} TerminationsReportWaiting(processes: seq<RunningProcess>, executablePath: string, n: nat)
    requires n <= |processes|
    ensures var d := Terminations(processes, executablePath, n);
      ProgressBetween(d, 0, 0) && ProgressAscending(d) && NoAttempts(d)
    decreases n
  {
    if n > 0 {
      TerminationsReportWaiting(processes, executablePath, n - 1);
      var d := Terminations(processes, executablePath, n);
      assert ProgressBetween(d, 0, 0);
      SamePercentAscending(d, 0);
    }
  }

  /**
   * Only processes whose main module is the application are killed, and
   * every such process that can be killed is.
   */
  lemma {:induction false} TerminationsKillTheApplication(processes: seq<RunningProcess>, executablePath: string, n: nat)
    requires n <= |processes|
    ensures var d := Terminations(processes, executablePath, n);
      KillsOnlyApplication(d, processes, executablePath, n) && KillsEveryApplication(d, processes, executablePath, n)
    decreases n
  {
    if n > 0 {
      TerminationsKillTheApplication(processes, executablePath, n - 1);
      KillsStep(processes, executablePath, n, Terminations(processes, executablePath, n - 1));
    }
  }

  /** Every process killed in `d` is one of the first `n`, runs the application and can be killed. */
  predicate KillsOnlyApplication(d: seq<Event>, processes: seq<RunningProcess>, executablePath: string, n: nat)
    requires n <= |processes|
  {
    forall k :: 0 <= k < |d| && d[k].Terminated? ==>
      d[k].process < n && processes[d[k].process].mainModule == Some(executablePath)
      && processes[d[k].process].killable
  }

  /** Every one of the first `n` processes that runs the application and can be killed is killed in `d`. */
  predicate KillsEveryApplication(d: seq<Event>, processes: seq<RunningProcess>, executablePath: string, n: nat)
    requires n <= |processes|
  {
    forall q :: 0 <= q < n && processes[q].mainModule == Some(executablePath) && processes[q].killable ==>
      Terminated(q) in d
  }

  /** Looking at process n - 1 keeps both properties. */
  lemma KillsStep(processes: seq<RunningProcess>, executablePath: string, n: nat, prev: seq<Event>)
    requires 0 < n <= |processes|
    requires KillsOnlyApplication(prev, processes, executablePath, n - 1)
    requires KillsEveryApplication(prev, processes, executablePath, n - 1)
    ensures var p := processes[n - 1];
      var d := prev + (if p.mainModule == Some(executablePath)
        then [Progress(0, WaitingForExit)] + (if p.killable then [Terminated(n - 1)] else [])
        else []);
      KillsOnlyApplication(d, processes, executablePath, n) && KillsEveryApplication(d, processes, executablePath, n)
  {
    var p := processes[n - 1];
    var tail := if p.mainModule == Some(executablePath)
      then [Progress(0, WaitingForExit)] + (if p.killable then [Terminated(n - 1)] else [])
      else [];
    var d := prev + tail;
    forall k | 0 <= k < |d| && d[k].Terminated?
      ensures d[k].process < n && processes[d[k].process].mainModule == Some(executablePath)
        && processes[d[k].process].killable
    {
      if k >= |prev| {
        assert d[k] == tail[k - |prev|];
      } else {
        assert d[k] == prev[k];
      }
    }
    forall q | 0 <= q < n && processes[q].mainModule == Some(executablePath) && processes[q].killable
      ensures Terminated(q) in d
    {
      if q < n - 1 {
        var k :| 0 <= k < |prev| && prev[k] == Terminated(q);
        assert d[k] == Terminated(q);
      } else {
        assert d[|d| - 1] == Terminated(q);
      }
    }
  }

  /**
   * When the archive opens it is disposed of and deleted whatever the
   * loop's outcome; when it does not open the worker faults and leaves
   * every file, the archive included, as it was.
   */
  lemma WorkCleansUp(host: Host, args: seq<string>, st: State)
    requires |args| >= 4
    ensures var w := Work(host, args, st);
      (host.archiveOpens ==>
         |w.state.log| >= 2 && w.state.log[|w.state.log| - 2..] == [Disposed, ArchiveDeleted(args[1])]
         && args[1] !in w.state.files)
      && (!host.archiveOpens ==> w.outcome == Faulted(OtherFault) && w.state.files == st.files)
  {
    if host.archiveOpens {
      var w := Work(host, args, st);
      var r := RunFrom(host, NormaliseRoot(args[2]), 0, 0,
        st.(log := st.log + Terminations(host.processes, args[3], |host.processes|)));
      assert w.state.log == r.state.log + [Disposed, ArchiveDeleted(args[1])];
    }
  }

  /**
   * A completed worker leaves the files that were there, plus one file per
   * entry under the normalised root, minus the archive.
   */
  lemma WorkCompletedExtractsAll(host: Host, args: seq<string>, st: State)
    requires |args| >= 4
    ensures var w := Work(host, args, st);
      w.outcome == Completed ==>
        w.state.files == (st.files + EntryPaths(NormaliseRoot(args[2]), host.entryNames, 0)) - {args[1]}
  {
    if host.archiveOpens {
      var afterKill := st.(log := st.log + Terminations(host.processes, args[3], |host.processes|));
      RunFiles(host, NormaliseRoot(args[2]), 0, 0, afterKill);
    }
  }

  /** The worker's run from the killing of the application to the deletion of the archive, on an archive that opens. */
  lemma WorkLog(host: Host, args: seq<string>, st: State)
    requires |args| >= 4 && host.archiveOpens
    ensures var kills := Terminations(host.processes, args[3], |host.processes|);
      var afterKill := st.(log := st.log + kills);
      var r := RunFrom(host, NormaliseRoot(args[2]), 0, 0, afterKill);
      var w := Work(host, args, st);
      Extends(r.state.log, afterKill.log) && Extends(w.state.log, st.log)
      && Delta(w.state.log, st.log) == kills + Delta(r.state.log, afterKill.log) + [Disposed, ArchiveDeleted(args[1])]
      && w.outcome == r.outcome
  {
    var kills := Terminations(host.processes, args[3], |host.processes|);
    var afterKill := st.(log := st.log + kills);
    var r := RunFrom(host, NormaliseRoot(args[2]), 0, 0, afterKill);
    var w := Work(host, args, st);
    Appended(st.log, kills);
    RunAttemptOrder(host, NormaliseRoot(args[2]), 0, 0, afterKill);
    Chain(st.log, afterKill.log, r.state.log);
    Appended(r.state.log, [Disposed, ArchiveDeleted(args[1])]);
    Chain(st.log, r.state.log, w.state.log);
  }

  /**
   * A cancelled worker saw the flag at some entry, had not seen it before,
   * and attempted no entry from there on.
   */
  lemma WorkCancelled(host: Host, args: seq<string>, st: State)
    requires |args| >= 4
    ensures var w := Work(host, args, st);
      w.outcome == Cancelled ==>
        Extends(w.state.log, st.log)
        && (exists k :: 0 <= k < |host.entryNames| && host.cancellationPending(k)
              && (forall q :: 0 <= q < k ==> !host.cancellationPending(q))
              && AttemptsBetween(Delta(w.state.log, st.log), 0, k - 1))
  {
    var w := Work(host, args, st);
    if w.outcome == Cancelled {
      var kills := Terminations(host.processes, args[3], |host.processes|);
      var afterKill := st.(log := st.log + kills);
      var root := NormaliseRoot(args[2]);
      var r := RunFrom(host, root, 0, 0, afterKill);
      WorkLog(host, args, st);
      RunReach(host, root, 0, 0, afterKill);
      RunAttemptOrder(host, root, 0, 0, afterKill);
      TerminationsReportWaiting(host.processes, args[3], |host.processes|);
      var k: int := r.reached;
      AttemptsBetweenParts(kills, Delta(r.state.log, afterKill.log), [Disposed, ArchiveDeleted(args[1])], 0, k - 1);
      assert 0 <= k < |host.entryNames| && host.cancellationPending(k)
        && (forall q :: 0 <= q < k ==> !host.cancellationPending(q))
        && AttemptsBetween(Delta(w.state.log, st.log), 0, k - 1);
    }
  }

  /** Attempts between `lo` and `hi`, with no attempt before or after. */
  lemma AttemptsBetweenParts(a: seq<Event>, b: seq<Event>, c: seq<Event>, lo: int, hi: int)
    requires NoAttempts(a) && AttemptsBetween(b, lo, hi) && NoAttempts(c)
    ensures AttemptsBetween(a + b + c, lo, hi)
  {
    AttemptsBetweenConcat(a, b, lo, hi);
    AttemptsBetweenConcat(a + b, c, lo, hi);
  }

  /** Over the whole worker, entries are attempted in ascending order. */
  lemma WorkAttemptOrder(host: Host, args: seq<string>, st: State)
    requires |args| >= 4
    ensures var w := Work(host, args, st);
      Extends(w.state.log, st.log) && AttemptsAscending(Delta(w.state.log, st.log))
  {
    var kills := Terminations(host.processes, args[3], |host.processes|);
    TerminationsReportWaiting(host.processes, args[3], |host.processes|);
    Appended(st.log, kills);
    if host.archiveOpens {
      var afterKill := st.(log := st.log + kills);
      var root := NormaliseRoot(args[2]);
      var r := RunFrom(host, root, 0, 0, afterKill);
      WorkLog(host, args, st);
      RunAttemptOrder(host, root, 0, 0, afterKill);
      var run := Delta(r.state.log, afterKill.log);
      AttemptsAscendingConcat(kills, run, 0);
      AscendingThenNoAttempts(kills + run, [Disposed, ArchiveDeleted(args[1])]);
    }
  }

  /** The waiting reports, the loop's reports and the cleanup, in order. */
  lemma WorkProgressParts(kills: seq<Event>, run: seq<Event>, cleanup: seq<Event>)
    requires ProgressBetween(kills, 0, 0) && ProgressAscending(kills) && NoProgress(cleanup)
    requires ProgressAscending(run) && ProgressBetween(run, 0, 100)
    ensures ProgressAscending(kills + run + cleanup) && ProgressBetween(kills + run + cleanup, 0, 100)
  {
    ProgressAscendingConcat(kills, run, 0);
    ProgressAscendingConcat(kills + run, cleanup, 100);
    assert ProgressBetween(kills + run, 0, 100);
  }

  /**
   * When the archive's count equals its number of entries, the worker's
   * progress reports, the waiting reports included, never decrease and
   * stay within 0..100; an empty archive reports only the waiting ones.
   */
  lemma WorkProgress(host: Host, args: seq<string>, st: State)
    requires |args| >= 4
    requires host.filesCount == |host.entryNames|
    ensures var w := Work(host, args, st);
      Extends(w.state.log, st.log)
      && ProgressAscending(Delta(w.state.log, st.log)) && ProgressBetween(Delta(w.state.log, st.log), 0, 100)
  {
    var kills := Terminations(host.processes, args[3], |host.processes|);
    TerminationsReportWaiting(host.processes, args[3], |host.processes|);
    Appended(st.log, kills);
    if host.archiveOpens {
      var afterKill := st.(log := st.log + kills);
      var root := NormaliseRoot(args[2]);
      var r := RunFrom(host, root, 0, 0, afterKill);
      WorkLog(host, args, st);
      if host.filesCount == 0 {
        Appended(afterKill.log, []);
      } else {
        PercentOfNone(host.filesCount);
        RunProgress(host, root, 0, afterKill);
      }
      WorkProgressParts(kills, Delta(r.state.log, afterKill.log), [Disposed, ArchiveDeleted(args[1])]);
    }
  }

  /**
   * A completed worker over a non-empty archive whose count equals its
   * number of entries reported 100% just before it disposed of the archive.
   */
  lemma WorkReportsHundred(host: Host, args: seq<string>, st: State)
    requires |args| >= 4
    requires host.filesCount == |host.entryNames| && host.filesCount > 0
    ensures var w := Work(host, args, st);
      w.outcome == Completed ==>
        |w.state.log| >= 3
        && w.state.log[|w.state.log| - 3..] ==
           [Progress(100, CurrentFile(host.entryNames[|host.entryNames| - 1])), Disposed, ArchiveDeleted(args[1])]
  {
    if host.archiveOpens {
      var afterKill := st.(log := st.log + Terminations(host.processes, args[3], |host.processes|));
      var r := RunFrom(host, NormaliseRoot(args[2]), 0, 0, afterKill);
      RunEndsAtHundred(host, NormaliseRoot(args[2]), 0, 0, afterKill);
      var w := Work(host, args, st);
      assert w.state.log == r.state.log + [Disposed, ArchiveDeleted(args[1])];
    }
  }

  // ---------------------------------------------------------------------
  // After the worker

  /**
   * The application is relaunched exactly when the worker completed, with
   * the executable from args[3] and the arguments from args[4] if given.
   */
  lemma RelaunchOnlyAfterCompletion(args: seq<string>, outcome: Outcome, start: StartOutcome)
    requires |args| >= 4
    ensures var c := Completion(args, outcome, start);
      (c.relaunch.Some? <==> outcome == Completed)
      && (c.relaunch.Some? ==>
            c.relaunch.value.fileName == args[3]
            && c.relaunch.value.arguments == (if |args| > 4 then args[4] else ""))
  {
  }

  /**
   * An error is shown exactly when the worker faulted, or when it
   * completed and the relaunch failed for another reason than the user
   * declining elevation; a fault is shown as it was caught.
   */
  lemma ErrorShownExactlyOnFailure(args: seq<string>, outcome: Outcome, start: StartOutcome)
    requires |args| >= 4
    ensures var c := Completion(args, outcome, start);
      (c.error.Some? <==>
         outcome.Faulted?
         || (outcome == Completed && start != Started && start != Win32Error(ErrorCancelled)))
      && (outcome.Faulted? ==> c.error == Some(WorkFailed(outcome.fault)))
  {
  }
}
