/** The debug logger (logger.js): a bounded list of log entries mirrored to
    browser storage, summary statistics, and named performance marks.

    Storage is not part of this model. What the page learns from it is an
    input instead: whether a write succeeded, and what `init` found stored.
    Clocks (`Date.now()` and `performance.now()`) are parameters. */
module Logger {
  import opened Base

  const MAX_LOGS: nat := 500
  /** What survives when the storage is full. */
  const KEEP_ON_FULL: nat := 100

  /** What `logError` records as the message: a string, or (when an error
      object has an empty message) the error object itself. */
  datatype Recorded = Text(text: string) | WholeError(e: Thrown)

  /** A thrown value: an `Error` object (message and, when the engine
      supplies one, a stack) or any other value, shown by its string. */
  datatype Thrown = ErrorObject(message: string, stack: Option<string>) | Other(text: string)

  /** An entry's `data` field. */
  datatype Data =
    | Null
    | Payload(json: string)
    | Perf(ms: real)
    | ErrorInfo(message: Recorded, stack: Option<string>)

  /** `{ t, type, msg, data }`. */
  datatype Entry = Entry(t: int, kind: string, msg: string, data: Data)

  /** How the write to storage after an append went. */
  datatype Storage =
    | Saved          // the first write succeeded
    | SavedAfterTrim // it failed; after trimming to the last 100, the second succeeded
    | Failed         // both failed; the second failure escapes `addLog`

  /** `logs.slice(-n)`: the last `n` elements, or all of them. */
  function Last<T>(s: seq<T>, n: nat): (r: seq<T>)
    ensures |r| == if |s| <= n then |s| else n
    ensures r == s[|s| - |r|..]
  {
    if |s| <= n then s else s[|s| - n..]
  }

  /** `addLog`: append, keep the newest 500, write to storage; on a full
      storage keep only the newest 100. Returns the new list and whether an
      exception escaped. */
  function AddLog(logs: seq<Entry>, e: Entry, storage: Storage): (r: (seq<Entry>, bool))
    ensures 0 < |r.0| <= |logs| + 1 && r.0[|r.0| - 1] == e
    ensures r.0 == (logs + [e])[|logs| + 1 - |r.0|..]
    ensures storage == Saved ==> r.0 == Last(logs + [e], MAX_LOGS)
    ensures storage != Saved ==> |r.0| == if |logs| < KEEP_ON_FULL then |logs| + 1 else KEEP_ON_FULL
    ensures r.1 <==> storage == Failed
  {
    var pushed := logs + [e];
    var trimmed := if |pushed| > MAX_LOGS then Last(pushed, MAX_LOGS) else pushed;
    match storage
    case Saved => (trimmed, false)
    case SavedAfterTrim => (Last(trimmed, KEEP_ON_FULL), false)
    case Failed => (Last(trimmed, KEEP_ON_FULL), true)
  }

  /** Entries appended one after another with storage working. */
  function AddAll(logs: seq<Entry>, es: seq<Entry>): seq<Entry>
    decreases |es|
  {
    if |es| == 0 then logs else AddAll(AddLog(logs, es[0], Saved).0, es[1..])
  }

  /** Trimming early and trimming late keep the same newest entries. */
  lemma LastOfLast<T>(y: seq<T>, z: seq<T>, n: nat)
    ensures Last(Last(y, n) + z, n) == Last(y + z, n)
  {
    var a := Last(Last(y, n) + z, n);
    var b := Last(y + z, n);
    assert |a| == |b|;
    forall k | 0 <= k < |a| ensures a[k] == b[k] {
      var yz := y + z;
      var lz := Last(y, n) + z;
      assert a[k] == lz[|lz| - |a| + k];
      assert b[k] == yz[|yz| - |b| + k];
      var i := |yz| - |b| + k;
      if i >= |y| {
        assert yz[i] == z[i - |y|];
        assert lz[|lz| - |a| + k] == z[i - |y|];
      } else {
        assert yz[i] == y[i];
        assert Last(y, n)[i - (|y| - |Last(y, n)|)] == y[i];
      }
    }
  }

  /** However many entries are added, the list holds the newest of them (and
      of what was there), never more than 500. */
  lemma {:induction false} AddAllKeepsNewest(logs: seq<Entry>, es: seq<Entry>)
    ensures AddAll(logs, es) == if |es| == 0 then logs else Last(logs + es, MAX_LOGS)
    decreases |es|
  {
    if |es| > 0 {
      var y := logs + [es[0]];
      var z := es[1..];
      var once := AddLog(logs, es[0], Saved).0;
      assert once == Last(y, MAX_LOGS);
      assert AddAll(logs, es) == AddAll(once, z);
      AddAllKeepsNewest(once, z);
      assert logs + es == y + z;
      if |z| > 0 {
        LastOfLast(y, z, MAX_LOGS);
      } else {
        assert logs + es == y;
      }
    }
  }

  /** `clearLogs`: empty the list and the storage, then log that it happened. */
  function ClearLogs(now: int, storage: Storage): (r: (seq<Entry>, bool))
    ensures r.0 == [Entry(now, "SYSTEM", "LOGS_CLEARED", Null)]
    ensures r.1 <==> storage == Failed
  {
    AddLog([], Entry(now, "SYSTEM", "LOGS_CLEARED", Null), storage)
  }

  /** What `logError` stores: `error.message || error` and
      `error.stack || null`, with JavaScript's truthiness (an empty string
      counts as missing). */
  function ErrorData(err: Thrown): (r: Data)
    ensures r.ErrorInfo?
    ensures err.ErrorObject? && err.message != "" ==> r.message == Text(err.message)
    ensures err.ErrorObject? && err.message == "" ==> r.message == WholeError(err)
    ensures err.Other? ==> r.message == Text(err.text) && r.stack == None
    ensures r.stack.Some? <==> err.ErrorObject? && err.stack.Some? && err.stack.value != ""
    ensures r.stack.Some? ==> r.stack == err.stack
  {
    match err
    case ErrorObject(m, st) =>
      ErrorInfo(if m != "" then Text(m) else WholeError(err), if st.Some? && st.value != "" then st else None)
    case Other(t) => ErrorInfo(Text(t), None)
  }

  /** `logError(source, error)`: one ERROR entry through `addLog`, so the
      buffer keeps a suffix of the old entries followed by the new one, and
      the exception of a failed write escapes. */
  function LogError(logs: seq<Entry>, now: int, source: string, err: Thrown, storage: Storage): (r: (seq<Entry>, bool))
    ensures 0 < |r.0| <= |logs| + 1 && r.0[|r.0| - 1] == Entry(now, "ERROR", source, ErrorData(err))
    ensures r.0 == (logs + [Entry(now, "ERROR", source, ErrorData(err))])[|logs| + 1 - |r.0|..]
    ensures storage == Saved ==> |r.0| == if |logs| < MAX_LOGS then |logs| + 1 else MAX_LOGS
    ensures r.1 <==> storage == Failed
  {
    AddLog(logs, Entry(now, "ERROR", source, ErrorData(err)), storage)
  }

  /** What `init` finds under the storage key. */
  datatype Stored = Absent | Unparsable | Parsed(entries: seq<Entry>)

  /** `init`: adopt the stored entries (an unreadable store counts as
      empty), then log the session start. */
  function Init(stored: Stored, now: int, session: string, storage: Storage): (r: (seq<Entry>, bool))
    ensures |r.0| > 0 && r.0[|r.0| - 1] == Entry(now, "SYSTEM", "SESSION_START", Payload(session))
    ensures stored.Parsed? && storage == Saved && |stored.entries| < MAX_LOGS ==>
      r.0 == stored.entries + [Entry(now, "SYSTEM", "SESSION_START", Payload(session))]
    ensures !stored.Parsed? ==> r.0 == [Entry(now, "SYSTEM", "SESSION_START", Payload(session))]
  {
    var logs := if stored.Parsed? then stored.entries else [];
    AddLog(logs, Entry(now, "SYSTEM", "SESSION_START", Payload(session)), storage)
  }

  // ---------------------------------------------------------------------
  // Statistics

  /** Entries of type `kind`. */
  function Count(logs: seq<Entry>, kind: string): (r: nat)
    ensures r <= |logs|
    decreases |logs|
  {
    if |logs| == 0 then 0
    else Count(logs[..|logs| - 1], kind) + (if logs[|logs| - 1].kind == kind then 1 else 0)
  }

  /** `byType`, as (type, count) pairs in the order types first appear. */
  type Counts = seq<(string, nat)>

  /** The count stored for `kind`, 0 when it has none. */
  function Lookup(counts: Counts, kind: string): nat
    decreases |counts|
  {
    if |counts| == 0 then 0
    else if counts[0].0 == kind then counts[0].1
    else Lookup(counts[1..], kind)
  }

  function SumCounts(counts: Counts): nat
    decreases |counts|
  {
    if |counts| == 0 then 0 else counts[0].1 + SumCounts(counts[1..])
  }

  /** No type appears twice. */
  ghost predicate DistinctKinds(counts: Counts) {
    forall i, j :: 0 <= i < j < |counts| ==> counts[i].0 != counts[j].0
  }

  /** `byType[kind] = (byType[kind] || 0) + 1`. */
  function Bump(counts: Counts, kind: string): (r: Counts)
    ensures forall k :: Lookup(r, k) == Lookup(counts, k) + (if k == kind then 1 else 0)
    ensures SumCounts(r) == SumCounts(counts) + 1
    decreases |counts|
  {
    if |counts| == 0 then [(kind, 1)]
    else if counts[0].0 == kind then [(kind, counts[0].1 + 1)] + counts[1..]
    else [counts[0]] + Bump(counts[1..], kind)
  }

  /** Bumping keeps every listed type in its place with a count that does
      not fall, and adds at most one entry, `(kind, 1)`, at the end, only
      when `kind` was not listed. */
  lemma {:induction false} BumpShape(counts: Counts, kind: string)
    ensures var r := Bump(counts, kind);
      && |counts| <= |r| <= |counts| + 1
      && (forall i :: 0 <= i < |counts| ==> r[i].0 == counts[i].0 && r[i].1 >= counts[i].1)
      && (|r| > |counts| ==> r[|counts|] == (kind, 1) && forall j :: 0 <= j < |counts| ==> counts[j].0 != kind)
    decreases |counts|
  {
    if |counts| > 0 && counts[0].0 != kind {
      var tail := counts[1..];
      BumpShape(tail, kind);
      var r := Bump(counts, kind);
      var rest := Bump(tail, kind);
      assert r == [counts[0]] + rest;
      forall i | 1 <= i < |counts| ensures r[i].0 == counts[i].0 && r[i].1 >= counts[i].1 {
        assert r[i] == rest[i - 1] && tail[i - 1] == counts[i];
      }
      if |r| > |counts| {
        assert r[|counts|] == rest[|tail|];
        forall j | 1 <= j < |counts| ensures counts[j].0 != kind {
          assert tail[j - 1] == counts[j];
        }
      }
    }
  }

  /** Hence bumping keeps the types distinct and the counts positive. */
  lemma BumpKeepsDistinct(counts: Counts, kind: string)
    requires DistinctKinds(counts)
    requires forall i :: 0 <= i < |counts| ==> counts[i].1 > 0
    ensures DistinctKinds(Bump(counts, kind))
    ensures forall i :: 0 <= i < |Bump(counts, kind)| ==> Bump(counts, kind)[i].1 > 0
  {
    BumpShape(counts, kind);
    var r := Bump(counts, kind);
    forall i, j | 0 <= i < j < |r| ensures r[i].0 != r[j].0 {
      if j < |counts| {
        assert r[i].0 == counts[i].0 && r[j].0 == counts[j].0;
      } else {
        assert r[j].0 == kind && r[i].0 == counts[i].0;
      }
    }
    forall i | 0 <= i < |r| ensures r[i].1 > 0 {
      if i < |counts| {
        assert r[i].1 >= counts[i].1;
      }
    }
  }

  /** The loop of `getStats` over the entries, oldest first. */
  function Tally(logs: seq<Entry>): (r: Counts)
    ensures SumCounts(r) == |logs|
    ensures forall k :: Lookup(r, k) == Count(logs, k)
    ensures DistinctKinds(r)
    ensures forall i :: 0 <= i < |r| ==> r[i].1 > 0
    decreases |logs|
  {
    if |logs| == 0 then []
    else
      var before := Tally(logs[..|logs| - 1]);
      BumpKeepsDistinct(before, logs[|logs| - 1].kind);
      Bump(before, logs[|logs| - 1].kind)
  }

  datatype Stats = Stats(total: nat, byType: Counts, errors: nat, sessionSeconds: int)

  /** `getStats`. */
  function GetStats(logs: seq<Entry>, now: int, sessionStart: int): (r: Stats)
    ensures r.total == |logs|
    ensures SumCounts(r.byType) == r.total
    ensures forall k :: Lookup(r.byType, k) == Count(logs, k)
    ensures r.errors == Count(logs, "ERROR") == Lookup(r.byType, "ERROR")
    ensures DistinctKinds(r.byType)
    ensures r.sessionSeconds == JsRound((now - sessionStart) as real / 1000.0)
  {
    Stats(|logs|, Tally(logs), ErrorCount(logs), JsRound((now - sessionStart) as real / 1000.0))
  }

  /** The `errors` counter, kept apart from `byType` in the page; it always
      agrees with the ERROR bucket of `byType`. */
  function ErrorCount(logs: seq<Entry>): (r: nat)
    ensures r == Count(logs, "ERROR")
    ensures r == Lookup(Tally(logs), "ERROR")
    decreases |logs|
  {
    if |logs| == 0 then 0
    else ErrorCount(logs[..|logs| - 1]) + (if logs[|logs| - 1].kind == "ERROR" then 1 else 0)
  }

  /** Every type in the log has a positive count, and a type with a
      positive count is in the log. */
  lemma {:induction false} CountPositive(logs: seq<Entry>, kind: string)
    ensures Count(logs, kind) > 0 <==> exists i :: 0 <= i < |logs| && logs[i].kind == kind
    decreases |logs|
  {
    if |logs| > 0 {
      var init := logs[..|logs| - 1];
      CountPositive(init, kind);
      if exists i :: 0 <= i < |init| && init[i].kind == kind {
        var i :| 0 <= i < |init| && init[i].kind == kind;
        assert logs[i] == init[i];
      }
      if exists i :: 0 <= i < |logs| && logs[i].kind == kind {
        var i :| 0 <= i < |logs| && logs[i].kind == kind;
        if i < |logs| - 1 {
          assert init[i] == logs[i];
        }
      }
    }
  }

  // ---------------------------------------------------------------------
  // Performance marks

  /** `perfMarks`: mark name to `performance.now()` at its start. */
  type Marks = map<string, real>

  /** `perfStart`: (re)start the mark. */
  function PerfStart(marks: Marks, name: string, perfNow: real): (r: Marks)
    ensures name in r && r[name] == perfNow
    ensures forall n :: n in marks && n != name ==> n in r && r[n] == marks[n]
    ensures r.Keys == marks.Keys + {name}
  {
    marks[name := perfNow]
  }

  /** `if (perfMarks[name])`: a mark exists and is truthy (not 0). */
  predicate Running(marks: Marks, name: string) {
    name in marks && marks[name] != 0.0
  }

  /** `perfEnd`: with a running mark, log a PERF entry with the elapsed
      time, drop the mark and return the time; otherwise return 0 and
      change nothing. When the log write throws, the exception leaves before
      the mark is deleted: the mark stays and nothing is returned (the third
      component is then only the time computed before the throw). */
  function PerfEnd(marks: Marks, logs: seq<Entry>, name: string, perfNow: real, now: int, storage: Storage)
    : (r: (Marks, seq<Entry>, real, bool))
    ensures !Running(marks, name) ==> r == (marks, logs, 0.0, false)
    ensures Running(marks, name) ==>
      && r.2 == perfNow - marks[name]
      && (r.1, r.3) == AddLog(logs, Entry(now, "PERF", name, Perf(r.2)), storage)
    ensures Running(marks, name) && !r.3 ==> r.0 == marks - {name} && !Running(r.0, name)
    ensures r.3 ==> r.0 == marks && Running(r.0, name) && storage == Failed
  {
    if Running(marks, name) then
      var duration := perfNow - marks[name];
      var added := AddLog(logs, Entry(now, "PERF", name, Perf(duration)), storage);
      if added.1 then (marks, added.0, duration, true)
      else (marks - {name}, added.0, duration, false)
    else (marks, logs, 0.0, false)
  }

  /** A start followed by an end logs exactly one PERF entry with the time in
      between and leaves the marks as they were for other names. */
  lemma StartThenEnd(marks: Marks, logs: seq<Entry>, name: string, t0: real, t1: real, now: int)
    requires t0 != 0.0 && name !in marks
    ensures PerfEnd(PerfStart(marks, name, t0), logs, name, t1, now, Saved)
         == (marks, AddLog(logs, Entry(now, "PERF", name, Perf(t1 - t0)), Saved).0, t1 - t0, false)
  {
    var started := PerfStart(marks, name, t0);
    assert Running(started, name);
    assert started - {name} == marks;
  }
}
