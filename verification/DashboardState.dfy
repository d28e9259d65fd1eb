/** The dashboard's state and what one classified log line does to it. Clock
    readings are inputs. */
module DashboardState {
  import opened Text

  type Time = int

  datatype Job = Job(element: string, hash: string, start: Time, log: string)

  /** A finished job as the list `completed` keeps it. */
  datatype Finished = Finished(element: string, hash: string, duration: Time, success: bool)

  /** An entry of the failure table; a placeholder from the Failure Summary has no hash. */
  datatype Failure = Failure(element: string, hash: string, duration: Time, log: string)

  /** The values of all fields of `State`; a zero `buildEnd` is "not set". */
  datatype Model = Model(
    active: map<string, Job>,
    completed: seq<Finished>,
    failures: seq<Failure>,
    summary: set<string>,
    pulled: nat,
    successCount: nat,
    failureCount: nat,
    cachedCount: nat,
    total: nat,
    recent: seq<string>,
    buildStart: Time,
    buildEnd: Time,
    catchingUp: bool,
    version: nat)

  const FRESH := Model(map[], [], [], {}, 0, 0, 0, 0, 0, [], 0, 0, true, 0)

  // ---- Classified log lines ----

  datatype Status = Start | Success | Failed | Skipped | OtherStatus

  datatype Action = Build | Pull | OtherAction

  /** A log line after the regular expressions have been applied. An unstructured
      line may match any of four patterns; `top` is whether the message ends in a
      log path, `mentionsPull` whether it contains "Pull". */
  datatype Line =
    | Blank
    | Header(started: Time, text: string)
    | PipelineSummary(text: string)
    | Unstructured(total: Option<nat>, buildFailed: Option<nat>, failedElement: Option<string>,
                   logPath: Option<string>, text: string, indented: bool)
    | Event(status: Status, action: Action, element: string, hash: string,
            top: bool, mentionsPull: bool, log: string, text: string)

  // ---- The effect of each update ----

  function Reset(m: Model): Model {
    FRESH.(total := m.total, version := m.version + 1)
  }

  function SetStart(m: Model, ts: Time, text: string): Model {
    FRESH.(total := m.total, buildStart := ts, recent := [text], version := m.version + 1)
  }

  function Keep(fs: seq<Failure>, elements: set<string>): (r: seq<Failure>)
    ensures |r| <= |fs|
  {
    if fs == [] then [] else
      Keep(fs[..|fs| - 1], elements)
      + if fs[|fs| - 1].element in elements then [fs[|fs| - 1]] else []
  }

  function PipelineDone(m: Model, now: Time, text: string): Model {
    var kept := if m.summary != {} then Keep(m.failures, m.summary) else m.failures;
    m.(active := map[], catchingUp := false, buildEnd := if m.buildEnd == 0 then now else m.buildEnd,
       failures := kept, failureCount := if m.summary != {} then |kept| else m.failureCount,
       summary := {}, recent := m.recent + [text], version := m.version + 1)
  }

  function SetTotal(m: Model, total: nat): Model { m.(total := total, version := m.version + 1) }

  function Backfill(m: Model, failed: nat): Model {
    m.(failureCount := if m.failureCount == 0 then failed else m.failureCount, version := m.version + 1)
  }

  predicate HasElement(fs: seq<Failure>, e: string) { exists i | 0 <= i < |fs| :: fs[i].element == e }

  predicate HasHash(fs: seq<Failure>, h: string) { exists i | 0 <= i < |fs| :: fs[i].hash == h }

  function Max(a: nat, b: nat): nat { if a < b then b else a }

  function AddFailedElement(m: Model, e: string): Model {
    var m := m.(summary := m.summary + {e}, version := m.version + 1);
    if HasElement(m.failures, e) then m
    else m.(failures := m.failures + [Failure(e, "", 0, "")],
            failureCount := Max(m.failureCount, |m.failures| + 1))
  }

  /** The last failure without a log gets the path. */
  function AttachLog(fs: seq<Failure>, path: string): (r: seq<Failure>)
    ensures |r| == |fs|
    ensures forall i | 0 <= i < |fs| :: r[i].element == fs[i].element && r[i].hash == fs[i].hash
  {
    if fs == [] then [] else
      var last := fs[|fs| - 1];
      if last.log == "" then fs[..|fs| - 1] + [last.(log := path)]
      else AttachLog(fs[..|fs| - 1], path) + [last]
  }

  function SetFailLog(m: Model, path: string): Model {
    m.(failures := AttachLog(m.failures, path), version := m.version + 1)
  }

  function AddRecent(m: Model, text: string): Model {
    m.(recent := m.recent + [text], version := m.version + 1)
  }

  function StartJob(m: Model, job: Job): Model {
    m.(active := m.active[job.hash := job], version := m.version + 1)
  }

  function FinishJob(m: Model, element: string, hash: string, now: Time): Model {
    var duration := if hash in m.active then now - m.active[hash].start else 0;
    m.(active := m.active - {hash}, completed := m.completed + [Finished(element, hash, duration, true)],
       successCount := m.successCount + 1, buildEnd := now, version := m.version + 1)
  }

  /** A live failure: known hashes are left alone, the first placeholder of the
      element is filled, and otherwise the table grows. */
  function Record(fs: seq<Failure>, item: Failure): seq<Failure> {
    if HasHash(fs, item.hash) then fs else Fill(fs, item)
  }

  function Fill(fs: seq<Failure>, item: Failure): seq<Failure> {
    if fs == [] then [item]
    else if fs[0].element == item.element && fs[0].hash == "" then [item] + fs[1..]
    else [fs[0]] + Fill(fs[1..], item)
  }

  function FailJob(m: Model, element: string, hash: string, now: Time): Model {
    if hash !in m.active then m.(version := m.version + 1) else
      var job := m.active[hash];
      var failures := Record(m.failures, Failure(element, hash, now - job.start, job.log));
      m.(active := m.active - {hash},
         completed := m.completed + [Finished(element, hash, now - job.start, false)],
         failures := failures, failureCount := |failures|, buildEnd := now, version := m.version + 1)
  }

  function SkipPull(m: Model): Model { m.(cachedCount := m.cachedCount + 1, version := m.version + 1) }

  function CountPull(m: Model): Model { m.(pulled := m.pulled + 1, version := m.version + 1) }

  // ---- One line ----

  function UseTotalOf(m: Model, l: Line): Model
    requires l.Unstructured?
  {
    if l.total.Some? then SetTotal(m, l.total.value) else m
  }

  function UseQueueOf(m: Model, l: Line): Model
    requires l.Unstructured?
  {
    if l.buildFailed.Some? then Backfill(m, l.buildFailed.value) else m
  }

  function UseElementOf(m: Model, l: Line): Model
    requires l.Unstructured?
  {
    if l.failedElement.Some? then AddFailedElement(m, l.failedElement.value) else m
  }

  function UseLogOf(m: Model, l: Line): Model
    requires l.Unstructured?
  {
    if l.logPath.Some? then SetFailLog(m, l.logPath.value) else m
  }

  function UseTextOf(m: Model, l: Line): Model
    requires l.Unstructured?
  {
    if l.indented then m else AddRecent(m, l.text)
  }

  function ParsePlain(m: Model, l: Line): Model
    requires l.Unstructured?
  {
    UseTextOf(UseLogOf(UseElementOf(UseQueueOf(UseTotalOf(m, l), l), l), l), l)
  }

  function ParseEvent(m: Model, l: Line, now: Time): Model
    requires l.Event?
  {
    var m := AddRecent(m, l.text);
    if IsStart(l) then StartJob(m, Job(l.element, l.hash, now, l.log))
    else if IsSuccess(l) then FinishJob(m, l.element, l.hash, now)
    else if IsFailure(l) then FailJob(m, l.element, l.hash, now)
    else if l.action == Pull && l.mentionsPull && l.status == Skipped then SkipPull(m)
    else if l.action == Pull && l.mentionsPull && l.status == Success then CountPull(m)
    else m
  }

  predicate IsStart(l: Line) { l.Event? && l.action == Build && l.top && l.status == Start }

  predicate IsSuccess(l: Line) { l.Event? && l.action == Build && l.top && l.status == Success }

  predicate IsFailure(l: Line) { l.Event? && l.action == Build && l.status == Failed }

  function Parse(m: Model, l: Line, now: Time): Model {
    match l
    case Blank => m
    case Header(started, text) => SetStart(m, started, text)
    case PipelineSummary(text) => PipelineDone(m, now, text)
    case Unstructured(_, _, _, _, _, _) => ParsePlain(m, l)
    case Event(_, _, _, _, _, _, _, _) => ParseEvent(m, l, now)
  }

  /** The tailer has read everything there is: the log's modification time may
      become the end of the build. */
  function CaughtUp(m: Model, mtime: Time): Model {
    m.(catchingUp := false, version := m.version + 1,
       buildEnd := if m.active == map[] && m.successCount > 0 && m.buildEnd == 0 then mtime else m.buildEnd)
  }

  // ---- The loops over the failure table ----

  method KeepNamed(fs: seq<Failure>, elements: set<string>) returns (kept: seq<Failure>)
    ensures kept == Keep(fs, elements)
  {
    kept := [];
    for i := 0 to |fs|
      invariant kept == Keep(fs[..i], elements)
    {
      assert fs[..i + 1][..i] == fs[..i];
      if fs[i].element in elements { kept := kept + [fs[i]]; }
    }
    assert fs[..|fs|] == fs;
  }

  method AttachToLast(fs: seq<Failure>, path: string) returns (r: seq<Failure>)
    ensures r == AttachLog(fs, path)
  {
    var i := |fs|;
    ghost var tail: seq<Failure> := [];
    assert fs[..i] == fs;
    while i > 0 && fs[i - 1].log != ""
      invariant i <= |fs| && fs == fs[..i] + tail
      invariant AttachLog(fs, path) == AttachLog(fs[..i], path) + tail
    {
      assert fs[..i][..i - 1] == fs[..i - 1] && fs[..i] == fs[..i - 1] + [fs[i - 1]];
      Associative(AttachLog(fs[..i - 1], path), [fs[i - 1]], tail);
      Associative(fs[..i - 1], [fs[i - 1]], tail);
      tail := [fs[i - 1]] + tail;
      i := i - 1;
    }
    if i == 0 { return fs; }
    assert fs[..i][..i - 1] == fs[..i - 1];
    r := fs[..i - 1] + [fs[i - 1].(log := path)] + fs[i..];
    assert tail == fs[i..];
  }

  method FillOrAppend(fs: seq<Failure>, item: Failure) returns (r: seq<Failure>)
    ensures r == Fill(fs, item)
  {
    ghost var head: seq<Failure> := [];
    var i := 0;
    assert fs[0..] == fs;
    while i < |fs| && !(fs[i].element == item.element && fs[i].hash == "")
      invariant i <= |fs| && head == fs[..i]
      invariant Fill(fs, item) == head + Fill(fs[i..], item)
    {
      assert fs[i..][1..] == fs[i + 1..];
      Associative(head, [fs[i]], Fill(fs[i + 1..], item));
      head := head + [fs[i]];
      i := i + 1;
    }
    if i == |fs| { return fs + [item]; }
    assert fs[i..][1..] == fs[i + 1..];
    Associative(head, [item], fs[i + 1..]);
    r := fs[..i] + [item] + fs[i + 1..];
  }

  // ---- The object ----

  class State {
    var active: map<string, Job>
    var completed: seq<Finished>
    var failures: seq<Failure>
    var summary: set<string>
    var pulled: nat
    var successCount: nat
    var failureCount: nat
    var cachedCount: nat
    var total: nat
    var recent: seq<string>
    var buildStart: Time
    var buildEnd: Time
    var catchingUp: bool
    var version: nat

    function View(): Model
      reads this
    {
      Model(active, completed, failures, summary, pulled, successCount, failureCount, cachedCount,
            total, recent, buildStart, buildEnd, catchingUp, version)
    }

    constructor ()
      ensures View() == FRESH
    {
      active, completed, failures, summary := map[], [], [], {};
      pulled, successCount, failureCount, cachedCount, total := 0, 0, 0, 0, 0;
      recent, buildStart, buildEnd, catchingUp, version := [], 0, 0, true, 0;
    }

    method ClearCounters()
      modifies this
      ensures View() == old(View()).(pulled := 0, successCount := 0, failureCount := 0, cachedCount := 0,
                                     buildEnd := 0, catchingUp := true)
    {
      pulled, successCount, failureCount, cachedCount := 0, 0, 0, 0;
      buildEnd, catchingUp := 0, true;
    }

    /** What a reset and a build header have in common. */
    method Clear()
      modifies this
      ensures View() == FRESH.(total := old(total), buildStart := old(buildStart), version := old(version))
    {
      ClearCounters();
      active, completed, failures, summary, recent := map[], [], [], {}, [];
    }

    method ResetState()
      modifies this
      ensures View() == Reset(old(View()))
    {
      Clear();
      buildStart := 0;
      version := version + 1;
    }

    method DoneCatchingUp(mtime: Time)
      modifies this
      ensures View() == CaughtUp(old(View()), mtime)
    {
      catchingUp := false;
      if active == map[] && successCount > 0 && buildEnd == 0 { buildEnd := mtime; }
      version := version + 1;
    }

    method StopJobs(now: Time)
      modifies this
      ensures View() == old(View()).(active := map[], catchingUp := false,
                                     buildEnd := if old(buildEnd) == 0 then now else old(buildEnd))
    {
      active, catchingUp := map[], false;
      if buildEnd == 0 { buildEnd := now; }
    }

    method EndPipeline(now: Time, text: string)
      modifies this
      ensures View() == PipelineDone(old(View()), now, text)
    {
      StopJobs(now);
      if summary != {} {
        failures := KeepNamed(failures, summary);
        failureCount := |failures|;
      }
      summary, recent, version := {}, recent + [text], version + 1;
    }

    method AddFailureElement(e: string)
      modifies this
      ensures View() == AddFailedElement(old(View()), e)
    {
      summary := summary + {e};
      if !HasElement(failures, e) {
        failures := failures + [Failure(e, "", 0, "")];
        failureCount := Max(failureCount, |failures|);
      }
      version := version + 1;
    }

    method SetFailureLog(path: string)
      modifies this
      ensures View() == SetFailLog(old(View()), path)
    {
      failures := AttachToLast(failures, path);
      version := version + 1;
    }

    method Fail(element: string, hash: string, now: Time)
      modifies this
      ensures View() == FailJob(old(View()), element, hash, now)
    {
      version := version + 1;
      if hash !in active { return; }
      var job := active[hash];
      active := active - {hash};
      completed := completed + [Finished(element, hash, now - job.start, false)];
      if !HasHash(failures, hash) {
        failures := FillOrAppend(failures, Failure(element, hash, now - job.start, job.log));
      }
      failureCount, buildEnd := |failures|, now;
    }

    method ParseLine(l: Line, now: Time)
      modifies this
      ensures View() == Parse(old(View()), l, now)
    {
      match l
      case Blank =>
      case Header(started, text) =>
        Clear();
        buildStart, recent, version := started, [text], version + 1;
      case PipelineSummary(text) => EndPipeline(now, text);
      case Unstructured(_, _, _, _, _, _) => ApplyPlain(l);
      case Event(_, _, _, _, _, _, _, _) => ApplyEvent(l, now);
    }

    method AppendRecent(text: string)
      modifies this
      ensures View() == AddRecent(old(View()), text)
    {
      recent, version := recent + [text], version + 1;
    }

    method UseTotal(t: nat)
      modifies this
      ensures View() == SetTotal(old(View()), t)
    {
      total, version := t, version + 1;
    }

    method BackfillFailures(failed: nat)
      modifies this
      ensures View() == Backfill(old(View()), failed)
    {
      if failureCount == 0 && failed > 0 { failureCount := failed; }
      version := version + 1;
    }

    method ApplyPlain(l: Line)
      requires l.Unstructured?
      modifies this
      ensures View() == ParsePlain(old(View()), l)
    {
      if l.total.Some? { UseTotal(l.total.value); }
      if l.buildFailed.Some? { BackfillFailures(l.buildFailed.value); }
      if l.failedElement.Some? { AddFailureElement(l.failedElement.value); }
      if l.logPath.Some? { SetFailureLog(l.logPath.value); }
      if !l.indented { AppendRecent(l.text); }
    }

    method Succeed(element: string, hash: string, now: Time)
      modifies this
      ensures View() == FinishJob(old(View()), element, hash, now)
    {
      var duration := if hash in active then now - active[hash].start else 0;
      active := active - {hash};
      completed := completed + [Finished(element, hash, duration, true)];
      successCount, buildEnd, version := successCount + 1, now, version + 1;
    }

    method ApplyEvent(l: Line, now: Time)
      requires l.Event?
      modifies this
      ensures View() == ParseEvent(old(View()), l, now)
    {
      AppendRecent(l.text);
      if l.action == Build && l.top && l.status == Start {
        active, version := active[l.hash := Job(l.element, l.hash, now, l.log)], version + 1;
      } else if l.action == Build && l.top && l.status == Success {
        Succeed(l.element, l.hash, now);
      } else if l.action == Build && l.status == Failed {
        Fail(l.element, l.hash, now);
      } else if l.action == Pull {
        if l.status == Skipped && l.mentionsPull {
          cachedCount, version := cachedCount + 1, version + 1;
        } else if l.status == Success && l.mentionsPull {
          pulled, version := pulled + 1, version + 1;
        }
      }
    }
  }
}
