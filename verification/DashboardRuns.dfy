/** Whole runs of the dashboard: what every reachable state satisfies, and what
    a state forgets. */
module DashboardRuns {
  import opened Text
  import opened DashboardState

  /** Everything that changes the state: a log line, a truncated log, and the
      tailer reaching the end of the log. */
  datatype Input = Parsed(line: Line, now: Time) | Truncated | AllRead(mtime: Time)

  function Step(m: Model, i: Input): Model {
    match i
    case Parsed(line, now) => Parse(m, line, now)
    case Truncated => Reset(m)
    case AllRead(mtime) => CaughtUp(m, mtime)
  }

  function Run(m: Model, inputs: seq<Input>): Model {
    if inputs == [] then m else Step(Run(m, inputs[..|inputs| - 1]), inputs[|inputs| - 1])
  }

  /** One more input. */
  lemma RunOne(m: Model, inputs: seq<Input>, i: Input)
    ensures Run(m, inputs + [i]) == Step(Run(m, inputs), i)
  {
    assert (inputs + [i])[..|inputs|] == inputs;
  }

  // ---- The failure table ----

  /** Two entries of a table: hashes differ, and a placeholder is alone with its element. */
  predicate Compatible(f: Failure, g: Failure) {
    && (f.hash != "" ==> f.hash != g.hash)
    && (f.hash == "" || g.hash == "" ==> f.element != g.element)
  }

  ghost predicate TableOk(fs: seq<Failure>) {
    forall i, j | 0 <= i < j < |fs| :: Compatible(fs[i], fs[j])
  }

  lemma {:induction false} KeepMember(fs: seq<Failure>, elements: set<string>, k: nat) returns (i: nat)
    requires k < |Keep(fs, elements)|
    ensures i < |fs| && Keep(fs, elements)[k] == fs[i] && fs[i].element in elements
  {
    if k < |Keep(fs[..|fs| - 1], elements)| {
      i := KeepMember(fs[..|fs| - 1], elements, k);
    } else {
      i := |fs| - 1;
    }
  }

  lemma {:induction false} KeepTable(fs: seq<Failure>, elements: set<string>)
    requires TableOk(fs)
    ensures TableOk(Keep(fs, elements))
  {
    if fs == [] {
    } else {
      var init := fs[..|fs| - 1];
      KeepTable(init, elements);
      forall k | 0 <= k < |Keep(init, elements)| ensures Compatible(Keep(init, elements)[k], fs[|fs| - 1]) {
        var i := KeepMember(init, elements, k);
      }
    }
  }

  lemma {:induction false} KeepElements(fs: seq<Failure>, elements: set<string>, e: string)
    ensures HasElement(Keep(fs, elements), e) <==> HasElement(fs, e) && e in elements
  {
    if fs == [] {
    } else {
      var init, last := fs[..|fs| - 1], fs[|fs| - 1];
      KeepElements(init, elements, e);
      HasElementSnoc(init, last, e);
      assert fs == init + [last];
      if last.element in elements {
        HasElementSnoc(Keep(init, elements), last, e);
      } else {
        assert Keep(init, elements) + [] == Keep(init, elements);
      }
    }
  }

  lemma HasElementSnoc(fs: seq<Failure>, f: Failure, e: string)
    ensures HasElement(fs + [f], e) <==> HasElement(fs, e) || f.element == e
  {
    if HasElement(fs, e) {
      var i :| 0 <= i < |fs| && fs[i].element == e;
      assert (fs + [f])[i].element == e;
    }
    if f.element == e { assert (fs + [f])[|fs|].element == e; }
  }

  /** A live failure either fills the one placeholder of its element or is appended. */
  lemma {:induction false} FillIs(fs: seq<Failure>, item: Failure) returns (i: nat)
    ensures i <= |fs|
    ensures forall j | 0 <= j < i :: !(fs[j].element == item.element && fs[j].hash == "")
    ensures if i < |fs| then fs[i].element == item.element && fs[i].hash == "" && Fill(fs, item) == fs[i := item]
            else Fill(fs, item) == fs + [item]
  {
    if fs == [] || (fs[0].element == item.element && fs[0].hash == "") {
      i := 0;
    } else {
      i := FillIs(fs[1..], item);
      i := i + 1;
    }
  }

  lemma RecordElements(fs: seq<Failure>, item: Failure)
    ensures |fs| <= |Record(fs, item)|
    ensures forall e | HasElement(fs, e) :: HasElement(Record(fs, item), e)
  {
    if !HasHash(fs, item.hash) {
      var i := FillIs(fs, item);
      var r := Fill(fs, item);
      forall e | HasElement(fs, e) ensures HasElement(r, e) {
        var j :| 0 <= j < |fs| && fs[j].element == e;
        assert r[j].element == e;
      }
    }
  }

  lemma RecordHashed(fs: seq<Failure>, item: Failure)
    requires TableOk(fs) && item.hash != ""
    ensures TableOk(Record(fs, item))
  {
    if !HasHash(fs, item.hash) {
      var i := FillIs(fs, item);
      assert forall j | 0 <= j < |fs| :: fs[j].hash != item.hash;
      if i < |fs| {
        forall j | 0 <= j < |fs| && j != i ensures Compatible(fs[j], item) && Compatible(item, fs[j]) {
          assert Compatible(if j < i then fs[j] else fs[i], if j < i then fs[i] else fs[j]);
        }
      }
    }
  }

  /** A failing job with a blank hash is taken for known when some entry has no
      hash. Otherwise it enters like a placeholder, next to any entry its element
      already has: the table stays in order exactly when there is none. */
  lemma RecordBlank(fs: seq<Failure>, item: Failure)
    requires TableOk(fs) && item.hash == ""
    ensures TableOk(Record(fs, item)) <==> HasHash(fs, "") || !HasElement(fs, item.element)
  {
    if !HasHash(fs, "") {
      var i := FillIs(fs, item);
      assert forall j | 0 <= j < |fs| :: fs[j].hash != "";
      assert Record(fs, item) == fs + [item];
      if HasElement(fs, item.element) {
        var j :| 0 <= j < |fs| && fs[j].element == item.element;
        assert !Compatible((fs + [item])[j], (fs + [item])[|fs|]);
      }
    }
  }

  // ---- The invariant ----

  function Successes(done: seq<Finished>): nat {
    if done == [] then 0 else Successes(done[..|done| - 1]) + if done[|done| - 1].success then 1 else 0
  }

  /** Jobs are kept under their own hash, the table covers the summary, the count
      covers the table, and the successes are those of the finished jobs. */
  ghost predicate Inv(m: Model) {
    && (forall h | h in m.active :: m.active[h].hash == h)
    && (forall e | e in m.summary :: HasElement(m.failures, e))
    && |m.failures| <= m.failureCount
    && Successes(m.completed) == m.successCount
  }

  lemma InvFailedElement(m: Model, e: string)
    requires Inv(m)
    ensures Inv(AddFailedElement(m, e))
  {
    var fs := m.failures;
    if !HasElement(fs, e) {
      var f := Failure(e, "", 0, "");
      forall x | x in m.summary + {e} ensures HasElement(fs + [f], x) { HasElementSnoc(fs, f, x); }
    }
  }

  lemma InvPlain(m: Model, l: Line)
    requires Inv(m) && l.Unstructured?
    ensures Inv(ParsePlain(m, l))
  {
    var b := UseQueueOf(UseTotalOf(m, l), l);
    if l.failedElement.Some? { InvFailedElement(b, l.failedElement.value); }
  }

  lemma InvFail(m: Model, element: string, hash: string, now: Time)
    requires Inv(m)
    ensures Inv(FailJob(m, element, hash, now))
  {
    if hash in m.active {
      var job := m.active[hash];
      RecordElements(m.failures, Failure(element, hash, now - job.start, job.log));
    }
  }

  lemma InvEvent(m: Model, l: Line, now: Time)
    requires Inv(m) && l.Event?
    ensures Inv(ParseEvent(m, l, now))
  {
    var n := AddRecent(m, l.text);
    assert Inv(n);
    if IsFailure(l) {
      InvFail(n, l.element, l.hash, now);
    }
  }

  lemma InvStep(m: Model, i: Input)
    requires Inv(m)
    ensures Inv(Step(m, i))
  {
    if i.Parsed? {
      match i.line
      case Unstructured(_, _, _, _, _, _) => InvPlain(m, i.line);
      case Event(_, _, _, _, _, _, _, _) => InvEvent(m, i.line, i.now);
      case _ =>
    }
  }

  /** The invariant of every run. */
  lemma {:induction false} Reachable(inputs: seq<Input>)
    ensures Inv(Run(FRESH, inputs))
  {
    if inputs == [] {
    } else {
      Reachable(inputs[..|inputs| - 1]);
      InvStep(Run(FRESH, inputs[..|inputs| - 1]), inputs[|inputs| - 1]);
    }
  }

  /** A Pipeline Summary after a Failure Summary leaves exactly the root causes
      named there, counts them, and ends all jobs. */
  lemma SummaryIsAuthoritative(inputs: seq<Input>, now: Time, text: string, e: string)
    requires Run(FRESH, inputs).summary != {}
    ensures var before := Run(FRESH, inputs);
            var after := Step(before, Parsed(PipelineSummary(text), now));
            && (HasElement(after.failures, e) <==> e in before.summary)
            && after.failureCount == |after.failures|
            && after.active == map[] && after.summary == {} && !after.catchingUp
  {
    Reachable(inputs);
    var before := Run(FRESH, inputs);
    KeepElements(before.failures, before.summary, e);
  }

  // ---- When the table stays in order ----

  /** The one input that disturbs the table: the failure of a tracked job whose
      hash is blank, while no entry is without a hash and its element has one. */
  predicate BlankClash(m: Model, i: Input) {
    && i.Parsed? && IsFailure(i.line) && i.line.hash == "" && "" in m.active
    && !HasHash(m.failures, "") && HasElement(m.failures, i.line.element)
  }

  lemma TablePlain(m: Model, l: Line)
    requires TableOk(m.failures) && l.Unstructured?
    ensures TableOk(ParsePlain(m, l).failures)
  {
    var c := UseElementOf(UseQueueOf(UseTotalOf(m, l), l), l);
    assert TableOk(c.failures);
  }

  lemma TableEvent(m: Model, l: Line, now: Time)
    requires TableOk(m.failures) && l.Event?
    ensures TableOk(ParseEvent(m, l, now).failures) <==> !BlankClash(m, Parsed(l, now))
  {
    if IsFailure(l) && l.hash in m.active {
      var item := Failure(l.element, l.hash, now - m.active[l.hash].start, m.active[l.hash].log);
      if l.hash == "" { RecordBlank(m.failures, item); } else { RecordHashed(m.failures, item); }
    }
  }

  lemma TableStep(m: Model, i: Input)
    requires TableOk(m.failures)
    ensures TableOk(Step(m, i).failures) <==> !BlankClash(m, i)
  {
    if i.Parsed? {
      match i.line
      case Unstructured(_, _, _, _, _, _) => TablePlain(m, i.line);
      case Event(_, _, _, _, _, _, _, _) => TableEvent(m, i.line, i.now);
      case PipelineSummary(_) => KeepTable(m.failures, m.summary);
      case _ =>
    }
  }

  ghost predicate TableAfter(inputs: seq<Input>, n: nat)
    requires n <= |inputs|
  {
    TableOk(Run(FRESH, inputs[..n]).failures)
  }

  predicate ClashAt(inputs: seq<Input>, n: nat)
    requires n < |inputs|
  {
    BlankClash(Run(FRESH, inputs[..n]), inputs[n])
  }

  lemma TableNext(inputs: seq<Input>, n: nat)
    requires n < |inputs| && TableAfter(inputs, n)
    ensures TableAfter(inputs, n + 1) <==> !ClashAt(inputs, n)
  {
    assert inputs[..n + 1][..n] == inputs[..n];
    TableStep(Run(FRESH, inputs[..n]), inputs[n]);
  }

  lemma {:induction false} TableAsLongAsNoClash(inputs: seq<Input>, n: nat)
    requires n <= |inputs| && forall k | 0 <= k < n :: !ClashAt(inputs, k)
    ensures TableAfter(inputs, n)
  {
    if n == 0 {
    } else {
      TableAsLongAsNoClash(inputs, n - 1);
      assert !ClashAt(inputs, n - 1);
      TableNext(inputs, n - 1);
    }
  }

  /** Table integrity: throughout a run hashes are distinct and placeholders alone
      with their elements - if and only if no input of the run is such a clash. */
  lemma TableIntegrity(inputs: seq<Input>)
    ensures (forall n | 0 <= n <= |inputs| :: TableAfter(inputs, n))
            <==> forall n | 0 <= n < |inputs| :: !ClashAt(inputs, n)
  {
    if forall n | 0 <= n < |inputs| :: !ClashAt(inputs, n) {
      forall n | 0 <= n <= |inputs| ensures TableAfter(inputs, n) { TableAsLongAsNoClash(inputs, n); }
    } else {
      var n :| 0 <= n < |inputs| && ClashAt(inputs, n);
      if TableAfter(inputs, n) { TableNext(inputs, n); }
    }
  }

  /** BuildStream gives every top-level job a hash. */
  predicate HashedStart(i: Input) { i.Parsed? && IsStart(i.line) ==> i.line.hash != "" }

  lemma NoBlankJob(inputs: seq<Input>)
    requires forall i | 0 <= i < |inputs| :: HashedStart(inputs[i])
    ensures "" !in Run(FRESH, inputs).active
  {
    if "" in Run(FRESH, inputs).active {
      var i := ActiveHasStart(inputs, "");
    }
  }

  /** ... and then nothing clashes. */
  lemma HashedRunsKeepTable(inputs: seq<Input>)
    requires forall i | 0 <= i < |inputs| :: HashedStart(inputs[i])
    ensures TableOk(Run(FRESH, inputs).failures)
  {
    forall n | 0 <= n < |inputs| ensures !ClashAt(inputs, n) { NoBlankJob(inputs[..n]); }
    TableAsLongAsNoClash(inputs, |inputs|);
    assert inputs[..|inputs|] == inputs;
  }

  function TopEvent(status: Status, element: string, hash: string): Input {
    Parsed(Event(status, Build, element, hash, true, false, "", ""), 0)
  }

  /** The failing input: an element fails under a hash and then under a blank one. */
  lemma BlankHashClashes()
    ensures var inputs := [TopEvent(Start, "a", "1"), TopEvent(Failed, "a", "1"),
                           TopEvent(Start, "a", ""), TopEvent(Failed, "a", "")];
            ClashAt(inputs, 3) && !TableAfter(inputs, 4)
  {
    var i0, i1 := TopEvent(Start, "a", "1"), TopEvent(Failed, "a", "1");
    var i2, i3 := TopEvent(Start, "a", ""), TopEvent(Failed, "a", "");
    var inputs := [i0, i1, i2, i3];
    RunThree(i0, i1, i2);
    assert inputs[..3] == [i0, i1, i2];
    var failed := Step(Step(FRESH, i0), i1);
    assert failed.failures == [Failure("a", "1", 0, "")] && failed.failures[0].element == "a";
    assert ClashAt(inputs, 3);
    TableNext(inputs, 3);
  }

  lemma RunThree(i0: Input, i1: Input, i2: Input)
    ensures Run(FRESH, [i0, i1, i2]) == Step(Step(Step(FRESH, i0), i1), i2)
  {
    assert [i0, i1, i2][..2] == [i0, i1] && [i0, i1][..1] == [i0] && [i0][..0] == [];
    assert Run(FRESH, [i0]) == Step(FRESH, i0);
    assert Run(FRESH, [i0, i1]) == Step(Run(FRESH, [i0]), i1);
  }

  // ---- The failure count ----

  predicate IsBackfill(i: Input, count: nat) {
    i.Parsed? && i.line.Unstructured? && i.line.buildFailed == Some(count) && count > 0
  }

  /** The count exceeds the table only because of a Build Queue line whose number
      has stood ever since. */
  lemma {:induction false} ExcessIsBackfilled(inputs: seq<Input>) returns (k: nat)
    requires var m := Run(FRESH, inputs); |m.failures| < m.failureCount
    ensures k < |inputs| && IsBackfill(inputs[k], Run(FRESH, inputs).failureCount)
    ensures Run(FRESH, inputs[..k]).failureCount == 0
    ensures forall n | k < n <= |inputs| :: Run(FRESH, inputs[..n]).failureCount == Run(FRESH, inputs).failureCount
  {
    var init, last := inputs[..|inputs| - 1], inputs[|inputs| - 1];
    var m := Run(FRESH, init);
    Reachable(init);
    assert inputs[..|inputs|] == inputs;
    CountStep(m, last);
    if |m.failures| < m.failureCount {
      k := ExcessIsBackfilled(init);
      assert init[..k] == inputs[..k];
      forall n | k < n <= |inputs| ensures Run(FRESH, inputs[..n]).failureCount == Run(FRESH, inputs).failureCount {
        if n < |inputs| { assert init[..n] == inputs[..n]; }
      }
    } else {
      k := |inputs| - 1;
      assert init == inputs[..k];
      forall n | k < n <= |inputs| ensures Run(FRESH, inputs[..n]).failureCount == Run(FRESH, inputs).failureCount {
        assert inputs[..n] == inputs;
      }
    }
  }

  /** One input can make the count exceed the table only by a backfill of a zero
      count, and an excess that stays does not change the count. */
  lemma CountStep(m: Model, i: Input)
    requires |m.failures| <= m.failureCount
    ensures var n := Step(m, i);
            |n.failures| < n.failureCount ==>
              if |m.failures| < m.failureCount then n.failureCount == m.failureCount
              else m.failureCount == 0 && IsBackfill(i, n.failureCount)
  {
    if i.Parsed? && i.line.Unstructured? { CountPlain(m, i.line); }
  }

  lemma CountPlain(m: Model, l: Line)
    requires |m.failures| <= m.failureCount && l.Unstructured?
    ensures var n := ParsePlain(m, l);
            |n.failures| < n.failureCount ==>
              if |m.failures| < m.failureCount then n.failureCount == m.failureCount
              else m.failureCount == 0 && l.buildFailed == Some(n.failureCount) && n.failureCount > 0
  {
    var b := UseQueueOf(UseTotalOf(m, l), l);
    assert b.failures == m.failures;
    if l.failedElement.Some? { CountElement(b, l.failedElement.value); }
    var c := UseElementOf(b, l);
    LogFrame(c, l);
  }

  lemma CountElement(m: Model, e: string)
    requires |m.failures| <= m.failureCount
    ensures var n := AddFailedElement(m, e);
            |n.failures| < n.failureCount ==> |m.failures| < m.failureCount == n.failureCount
  {}

  lemma LogFrame(m: Model, l: Line)
    requires l.Unstructured?
    ensures var n := UseTextOf(UseLogOf(m, l), l);
            && |n.failures| == |m.failures| && n.failureCount == m.failureCount
            && forall i | 0 <= i < |m.failures| :: n.failures[i].hash == m.failures[i].hash
  {}

  lemma ElementFrame(m: Model, l: Line)
    requires l.Unstructured?
    ensures var n := UseElementOf(m, l);
            && n.active == m.active && n.version == m.version + Count(l.failedElement.Some?)
            && n.cachedCount == m.cachedCount && n.pulled == m.pulled && n.successCount == m.successCount
            && n.total == m.total
  {}

  lemma UseLogFrame(m: Model, l: Line)
    requires l.Unstructured?
    ensures var n := UseLogOf(m, l);
            && n.active == m.active && n.version == m.version + Count(l.logPath.Some?)
            && n.cachedCount == m.cachedCount && n.pulled == m.pulled && n.successCount == m.successCount
            && n.total == m.total
  {}

  /** An unstructured line leaves the jobs and the event counters alone. */
  lemma PlainFrame(m: Model, l: Line)
    requires l.Unstructured?
    ensures var n := ParsePlain(m, l);
            && n.active == m.active && n.version == m.version + Updates(Parsed(l, 0))
            && n.cachedCount == m.cachedCount && n.pulled == m.pulled && n.successCount == m.successCount
            && n.total == if l.total.Some? then l.total.value else m.total
  {
    var b := UseQueueOf(UseTotalOf(m, l), l);
    ElementFrame(b, l);
    UseLogFrame(UseElementOf(b, l), l);
  }

  // ---- Conservation of jobs ----

  /** Where the started jobs went. */
  datatype Ledger = Ledger(starts: nat, overwritten: nat, succeeded: nat, failed: nat, dropped: nat)

  function Enter(g: Ledger, m: Model, i: Input): Ledger {
    if i.AllRead? then g
    else if i.Truncated? || i.line.Header? || i.line.PipelineSummary? then g.(dropped := g.dropped + |m.active|)
    else
      var known := if i.line.Event? && i.line.hash in m.active then 1 else 0;
      if IsStart(i.line) then g.(starts := g.starts + 1, overwritten := g.overwritten + known)
      else if IsSuccess(i.line) then g.(succeeded := g.succeeded + known)
      else if IsFailure(i.line) then g.(failed := g.failed + known)
      else g
  }

  function Book(inputs: seq<Input>): Ledger {
    if inputs == [] then Ledger(0, 0, 0, 0, 0) else
      var init := inputs[..|inputs| - 1];
      Enter(Book(init), Run(FRESH, init), inputs[|inputs| - 1])
  }

  lemma ActiveSize(active: map<string, Job>, h: string, job: Job)
    ensures |active[h := job]| == |active| + if h in active then 0 else 1
    ensures |active - {h}| == |active| - if h in active then 1 else 0
  {
    assert active[h := job].Keys == active.Keys + {h};
    assert (active - {h}).Keys == active.Keys - {h};
    if h in active { assert active[h := job].Keys == active.Keys; }
  }

  lemma ActiveEvent(m: Model, l: Line, now: Time)
    requires l.Event?
    ensures ParseEvent(m, l, now).active
            == if IsStart(l) then m.active[l.hash := Job(l.element, l.hash, now, l.log)]
               else if IsSuccess(l) || (IsFailure(l) && l.hash in m.active) then m.active - {l.hash}
               else m.active
  {}

  lemma ActiveStep(m: Model, i: Input)
    ensures var g, n := Enter(Ledger(0, 0, 0, 0, 0), m, i), Step(m, i);
            |m.active| + g.starts == g.overwritten + g.succeeded + g.failed + g.dropped + |n.active|
  {
    if i.Parsed? && i.line.Event? {
      ActiveEvent(m, i.line, i.now);
      ActiveSize(m.active, i.line.hash, Job(i.line.element, i.line.hash, i.now, i.line.log));
      if i.line.hash !in m.active { assert m.active - {i.line.hash} == m.active; }
    } else if i.Parsed? && i.line.Unstructured? {
      PlainFrame(m, i.line);
    }
  }

  /** No started job is lost: each was overwritten by a start with its hash, seen
      to succeed or fail, dropped by a header, summary or truncation, or is active. */
  lemma {:induction false} JobsConserved(inputs: seq<Input>)
    ensures var g := Book(inputs);
            g.starts == g.overwritten + g.succeeded + g.failed + g.dropped + |Run(FRESH, inputs).active|
  {
    if inputs == [] {
    } else {
      JobsConserved(inputs[..|inputs| - 1]);
      ActiveStep(Run(FRESH, inputs[..|inputs| - 1]), inputs[|inputs| - 1]);
    }
  }

  /** The job with hash `h` runs through the inputs from its start at `i` until
      the input at `j` fails it. */
  ghost predicate RanAndFailed(inputs: seq<Input>, h: string, i: nat, j: nat) {
    && i < j < |inputs|
    && inputs[i].Parsed? && IsStart(inputs[i].line) && inputs[i].line.hash == h
    && inputs[j].Parsed? && IsFailure(inputs[j].line) && inputs[j].line.hash == h
    && forall k | i < k <= j :: h in Run(FRESH, inputs[..k]).active
  }

  /** An active job has an unclosed start. */
  lemma {:induction false} ActiveHasStart(inputs: seq<Input>, h: string) returns (i: nat)
    requires h in Run(FRESH, inputs).active
    ensures i < |inputs| && inputs[i].Parsed? && IsStart(inputs[i].line) && inputs[i].line.hash == h
    ensures forall k | i < k <= |inputs| :: h in Run(FRESH, inputs[..k]).active
  {
    var init, last := inputs[..|inputs| - 1], inputs[|inputs| - 1];
    assert inputs[..|inputs|] == inputs;
    if last.Parsed? && IsStart(last.line) && last.line.hash == h {
      i := |inputs| - 1;
      forall k | i < k <= |inputs| ensures h in Run(FRESH, inputs[..k]).active { assert inputs[..k] == inputs; }
    } else {
      ActiveBefore(Run(FRESH, init), last, h);
      i := ActiveHasStart(init, h);
      forall k | i < k <= |inputs| ensures h in Run(FRESH, inputs[..k]).active {
        if k < |inputs| { assert init[..k] == inputs[..k]; }
      }
    }
  }

  lemma ActiveBefore(m: Model, i: Input, h: string)
    requires h in Step(m, i).active && !(i.Parsed? && IsStart(i.line) && i.line.hash == h)
    ensures h in m.active
  {
    if i.Parsed? && i.line.Unstructured? { PlainFrame(m, i.line); }
  }

  /** Every failure with a hash stems from a job that was started, was active
      until it failed, and failed. */
  lemma {:induction false} FailuresWereJobs(inputs: seq<Input>, h: string) returns (i: nat, j: nat)
    requires h != "" && HasHash(Run(FRESH, inputs).failures, h)
    ensures RanAndFailed(inputs, h, i, j)
  {
    var init, last := inputs[..|inputs| - 1], inputs[|inputs| - 1];
    var m := Run(FRESH, init);
    if HasHash(m.failures, h) {
      i, j := FailuresWereJobs(init, h);
      forall k | i < k <= j ensures h in Run(FRESH, inputs[..k]).active { assert init[..k] == inputs[..k]; }
    } else {
      HashStep(m, last, h);
      i := ActiveHasStart(init, h);
      j := |inputs| - 1;
      forall k | i < k <= j ensures h in Run(FRESH, inputs[..k]).active { assert init[..k] == inputs[..k]; }
    }
  }

  /** A hash enters the table only when an active job with it fails. */
  lemma HashStep(m: Model, i: Input, h: string)
    requires h != "" && HasHash(Step(m, i).failures, h) && !HasHash(m.failures, h)
    ensures i.Parsed? && IsFailure(i.line) && i.line.hash == h && h in m.active
  {
    if i.Parsed? {
      match i.line
      case Unstructured(_, _, _, _, _, _) => HashPlain(m, i.line, h);
      case Event(_, _, element, hash, _, _, _, _) =>
        if IsFailure(i.line) && hash in m.active && !HasHash(m.failures, hash) {
          if h != hash {
            FillHash(m.failures, Failure(element, hash, i.now - m.active[hash].start, m.active[hash].log), h);
          }
        }
      case PipelineSummary(_) =>
        if m.summary != {} {
          var fs := Keep(m.failures, m.summary);
          var n :| 0 <= n < |fs| && fs[n].hash == h;
          var k := KeepMember(m.failures, m.summary, n);
        }
      case _ =>
    }
  }

  lemma FillHash(fs: seq<Failure>, item: Failure, h: string)
    requires HasHash(Fill(fs, item), h) && h != item.hash
    ensures HasHash(fs, h)
  {
    var k := FillIs(fs, item);
    var r := Fill(fs, item);
    var n :| 0 <= n < |r| && r[n].hash == h;
    assert n != k && r[n] == fs[n];
  }

  lemma HashPlain(m: Model, l: Line, h: string)
    requires l.Unstructured? && h != ""
    ensures HasHash(ParsePlain(m, l).failures, h) ==> HasHash(m.failures, h)
  {
    var b := UseQueueOf(UseTotalOf(m, l), l);
    var c := UseElementOf(b, l);
    LogFrame(c, l);
    var r := ParsePlain(m, l).failures;
    if HasHash(r, h) {
      var n :| 0 <= n < |r| && r[n].hash == h;
      assert c.failures[n].hash == h;
      assert b.failures == m.failures && m.failures[n].hash == h;
    }
  }

  /** The last failure without a log gets the path, and nothing else changes. */
  lemma {:induction false} AttachLogIs(fs: seq<Failure>, path: string) returns (i: nat)
    ensures i <= |fs| && forall j | i <= j < |fs| :: fs[j].log != ""
    ensures if i == 0 then AttachLog(fs, path) == fs
            else fs[i - 1].log == "" && AttachLog(fs, path) == fs[i - 1 := fs[i - 1].(log := path)]
  {
    if fs == [] {
      i := 0;
    } else if fs[|fs| - 1].log == "" {
      i := |fs|;
    } else {
      var init := fs[..|fs| - 1];
      i := AttachLogIs(init, path);
      assert fs == init + [fs[|fs| - 1]];
    }
  }

  // ---- What the counters count ----

  predicate Clears(i: Input) { i.Truncated? || (i.Parsed? && i.line.Header?) }

  /** The inputs after the last one that clears the state. */
  function SinceClear(inputs: seq<Input>): seq<Input> {
    if inputs == [] then []
    else if Clears(inputs[|inputs| - 1]) then []
    else SinceClear(inputs[..|inputs| - 1]) + [inputs[|inputs| - 1]]
  }

  predicate IsPull(i: Input, status: Status) {
    i.Parsed? && i.line.Event? && i.line.action == Pull && i.line.mentionsPull && i.line.status == status
  }

  function Pulls(inputs: seq<Input>, status: Status): nat {
    if inputs == [] then 0 else
      Pulls(inputs[..|inputs| - 1], status) + Count(IsPull(inputs[|inputs| - 1], status))
  }

  function TopSuccesses(inputs: seq<Input>): nat {
    if inputs == [] then 0 else
      var last := inputs[|inputs| - 1];
      TopSuccesses(inputs[..|inputs| - 1]) + Count(last.Parsed? && IsSuccess(last.line))
  }

  lemma CounterStep(m: Model, i: Input)
    requires !Clears(i)
    ensures var n := Step(m, i);
            && n.cachedCount == m.cachedCount + Count(IsPull(i, Skipped))
            && n.pulled == m.pulled + Count(IsPull(i, Success))
            && n.successCount == m.successCount + Count(i.Parsed? && IsSuccess(i.line))
  {
    if i.Parsed? && i.line.Unstructured? { PlainFrame(m, i.line); }
  }

  lemma CountsSnoc(inputs: seq<Input>, i: Input)
    ensures Pulls(inputs + [i], Skipped) == Pulls(inputs, Skipped) + Count(IsPull(i, Skipped))
    ensures Pulls(inputs + [i], Success) == Pulls(inputs, Success) + Count(IsPull(i, Success))
    ensures TopSuccesses(inputs + [i]) == TopSuccesses(inputs) + Count(i.Parsed? && IsSuccess(i.line))
  {}

  /** The counters say what has been counted since the build began. */
  predicate Counted(m: Model, since: seq<Input>) {
    && m.cachedCount == Pulls(since, Skipped) && m.pulled == Pulls(since, Success)
    && m.successCount == TopSuccesses(since)
  }

  lemma CountedStep(m: Model, since: seq<Input>, i: Input)
    requires Counted(m, since)
    ensures Counted(Step(m, i), if Clears(i) then [] else since + [i])
  {
    if !Clears(i) {
      CounterStep(m, i);
      CountsSnoc(since, i);
    }
  }

  /** Cached elements, pulls and successes count the events since the build began:
      Pipeline Summaries, failures and queue lines do not touch them. */
  lemma {:induction false} CountersCount(inputs: seq<Input>)
    ensures Counted(Run(FRESH, inputs), SinceClear(inputs))
  {
    if inputs == [] {
    } else {
      var init, last := inputs[..|inputs| - 1], inputs[|inputs| - 1];
      CountersCount(init);
      CountedStep(Run(FRESH, init), SinceClear(init), last);
    }
  }

  /** The last element total a log gives stays through everything but another one. */
  function LastTotal(inputs: seq<Input>): nat {
    if inputs == [] then 0 else
      var last := inputs[|inputs| - 1];
      if last.Parsed? && last.line.Unstructured? && last.line.total.Some? then last.line.total.value
      else LastTotal(inputs[..|inputs| - 1])
  }

  lemma {:induction false} TotalIsLast(inputs: seq<Input>)
    ensures Run(FRESH, inputs).total == LastTotal(inputs)
  {
    if inputs == [] {
    } else {
      var init, last := inputs[..|inputs| - 1], inputs[|inputs| - 1];
      TotalIsLast(init);
      if last.Parsed? && last.line.Unstructured? { PlainFrame(Run(FRESH, init), last.line); }
    }
  }

  // ---- Counting updates ----

  function Count(b: bool): nat { if b then 1 else 0 }

  /** How many calls of `State.update` an input makes. */
  function Updates(i: Input): nat {
    if !i.Parsed? then 1 else
      match i.line
      case Blank => 0
      case Header(_, _) => 1
      case PipelineSummary(_) => 1
      case Unstructured(total, buildFailed, failedElement, logPath, _, indented) =>
        Count(total.Some?) + Count(buildFailed.Some?) + Count(failedElement.Some?) + Count(logPath.Some?)
        + Count(!indented)
      case Event(status, action, _, _, top, mentionsPull, _, _) =>
        1 + Count((action == Build && ((top && status in {Start, Success}) || status == Failed))
                  || (action == Pull && mentionsPull && status in {Skipped, Success}))
  }

  function AllUpdates(inputs: seq<Input>): nat {
    if inputs == [] then 0 else AllUpdates(inputs[..|inputs| - 1]) + Updates(inputs[|inputs| - 1])
  }

  lemma {:induction false} VersionCountsUpdates(m: Model, inputs: seq<Input>)
    ensures Run(m, inputs).version == m.version + AllUpdates(inputs)
  {
    if inputs == [] {
    } else {
      VersionCountsUpdates(m, inputs[..|inputs| - 1]);
      VersionStep(Run(m, inputs[..|inputs| - 1]), inputs[|inputs| - 1]);
    }
  }

  lemma VersionStep(m: Model, i: Input)
    ensures Step(m, i).version == m.version + Updates(i)
  {
    if i.Parsed? && i.line.Unstructured? { PlainFrame(m, i.line); }
  }

  // ---- The last header wins ----

  /** Equal but for the two fields that survive a header. */
  predicate SameBuild(m: Model, n: Model) { m.(total := 0, version := 0) == n.(total := 0, version := 0) }

  lemma SameBuildPlain(m: Model, n: Model, l: Line)
    requires SameBuild(m, n) && l.Unstructured?
    ensures SameBuild(ParsePlain(m, l), ParsePlain(n, l))
  {
    var a, a' := UseQueueOf(UseTotalOf(m, l), l), UseQueueOf(UseTotalOf(n, l), l);
    assert SameBuild(a, a');
    if l.failedElement.Some? { SameBuildFailedElement(a, a', l.failedElement.value); }
    var c, c' := UseElementOf(a, l), UseElementOf(a', l);
    assert SameBuild(c, c');
    assert SameBuild(UseLogOf(c, l), UseLogOf(c', l));
  }

  lemma SameBuildFailedElement(m: Model, n: Model, e: string)
    requires SameBuild(m, n)
    ensures SameBuild(AddFailedElement(m, e), AddFailedElement(n, e))
  {}

  lemma SameBuildEvent(m: Model, n: Model, l: Line, now: Time)
    requires SameBuild(m, n) && l.Event?
    ensures SameBuild(ParseEvent(m, l, now), ParseEvent(n, l, now))
  {}

  lemma SameBuildStep(m: Model, n: Model, i: Input)
    requires SameBuild(m, n)
    ensures SameBuild(Step(m, i), Step(n, i))
  {
    if i.Parsed? && i.line.Unstructured? { SameBuildPlain(m, n, i.line); }
    if i.Parsed? && i.line.Event? { SameBuildEvent(m, n, i.line, i.now); }
  }

  lemma {:induction false} SameBuildRun(m: Model, n: Model, inputs: seq<Input>)
    requires SameBuild(m, n)
    ensures SameBuild(Run(m, inputs), Run(n, inputs))
  {
    if inputs == [] {
    } else {
      SameBuildRun(m, n, inputs[..|inputs| - 1]);
      SameBuildStep(Run(m, inputs[..|inputs| - 1]), Run(n, inputs[..|inputs| - 1]), inputs[|inputs| - 1]);
    }
  }

  lemma {:induction false} RunAppend(m: Model, a: seq<Input>, b: seq<Input>)
    ensures Run(m, a + b) == Run(Run(m, a), b)
  {
    if b == [] {
      assert a + b == a;
    } else {
      assert (a + b)[..|a + b| - 1] == a + b[..|b| - 1];
      RunAppend(m, a, b[..|b| - 1]);
    }
  }

  /** Last header wins: whatever state a log is read from and whatever it says
      before its last header or truncation, the result is that of a fresh start
      there, except for the element total and the version. */
  lemma LastHeaderWins(m: Model, pre: seq<Input>, header: Input, post: seq<Input>)
    requires Clears(header)
    ensures SameBuild(Run(m, pre + [header] + post), Run(FRESH, [header] + post))
  {
    RunAppend(m, pre + [header], post);
    RunAppend(m, pre, [header]);
    RunAppend(FRESH, [header], post);
    assert [header][..0] == [];
    SameBuildRun(Run(m, pre + [header]), Run(FRESH, [header]), post);
  }

  // ---- The clock does not matter ----

  function EraseJobs(active: map<string, Job>): map<string, Job> {
    map h | h in active :: active[h].(start := 0)
  }

  function EraseFinished(done: seq<Finished>): (r: seq<Finished>)
    ensures |r| == |done| && forall i | 0 <= i < |r| :: r[i] == done[i].(duration := 0)
  {
    seq(|done|, i requires 0 <= i < |done| => done[i].(duration := 0))
  }

  function EraseFailures(fs: seq<Failure>): (r: seq<Failure>)
    ensures |r| == |fs| && forall i | 0 <= i < |r| :: r[i] == fs[i].(duration := 0)
  {
    seq(|fs|, i requires 0 <= i < |fs| => fs[i].(duration := 0))
  }

  /** The state without clock readings. */
  function Erase(m: Model): Model {
    m.(active := EraseJobs(m.active), completed := EraseFinished(m.completed),
       failures := EraseFailures(m.failures), buildStart := 0, buildEnd := 0)
  }

  /** The effect of a line on the erased state. */
  function Replay(m: Model, l: Line): Model { Erase(Parse(m, l, 0)) }

  lemma {:induction false} EraseKeep(fs: seq<Failure>, elements: set<string>)
    ensures EraseFailures(Keep(fs, elements)) == Keep(EraseFailures(fs), elements)
  {
    if fs == [] {
    } else {
      EraseKeep(fs[..|fs| - 1], elements);
      assert EraseFailures(fs)[..|fs| - 1] == EraseFailures(fs[..|fs| - 1]);
    }
  }

  lemma {:induction false} EraseAttach(fs: seq<Failure>, path: string)
    ensures EraseFailures(AttachLog(fs, path)) == AttachLog(EraseFailures(fs), path)
  {
    if fs == [] {
    } else {
      EraseAttach(fs[..|fs| - 1], path);
      assert EraseFailures(fs)[..|fs| - 1] == EraseFailures(fs[..|fs| - 1]);
    }
  }

  lemma EraseTail(fs: seq<Failure>)
    requires fs != []
    ensures EraseFailures(fs)[0] == fs[0].(duration := 0) && EraseFailures(fs)[1..] == EraseFailures(fs[1..])
  {}

  lemma EraseCons(f: Failure, fs: seq<Failure>)
    ensures EraseFailures([f] + fs) == [f.(duration := 0)] + EraseFailures(fs)
  {}

  lemma {:induction false} EraseFill(fs: seq<Failure>, item: Failure)
    ensures EraseFailures(Fill(fs, item)) == Fill(EraseFailures(fs), item.(duration := 0))
  {
    if fs == [] {
    } else {
      EraseFill(fs[1..], item);
      EraseTail(fs);
      EraseCons(fs[0], Fill(fs[1..], item));
      EraseCons(item, fs[1..]);
    }
  }

  lemma EraseHas(fs: seq<Failure>, x: string)
    ensures HasElement(EraseFailures(fs), x) <==> HasElement(fs, x)
    ensures HasHash(EraseFailures(fs), x) <==> HasHash(fs, x)
  {}

  lemma EraseJobsUpdate(active: map<string, Job>, h: string, job: Job)
    ensures EraseJobs(active[h := job]) == EraseJobs(active)[h := job.(start := 0)]
    ensures EraseJobs(active - {h}) == EraseJobs(active) - {h}
  {}

  lemma EraseRecord(fs: seq<Failure>, item: Failure)
    ensures EraseFailures(Record(fs, item)) == Record(EraseFailures(fs), item.(duration := 0))
  {
    EraseHas(fs, item.hash);
    EraseFill(fs, item);
  }

  lemma EraseFinishedSnoc(done: seq<Finished>, f: Finished)
    ensures EraseFinished(done + [f]) == EraseFinished(done) + [f.(duration := 0)]
  {}

  lemma EraseTwice(m: Model)
    ensures Erase(Erase(m)) == Erase(m)
  {}

  lemma EraseElement(m: Model, e: string)
    ensures Erase(AddFailedElement(m, e)) == Erase(AddFailedElement(Erase(m), e))
  {}

  lemma EraseLog(m: Model, path: string)
    ensures Erase(SetFailLog(m, path)) == Erase(SetFailLog(Erase(m), path))
  {
    EraseTwice(m);
    EraseAttach(m.failures, path);
    EraseAttach(EraseFailures(m.failures), path);
  }

  lemma EraseQueue(m: Model, l: Line)
    requires l.Unstructured?
    ensures Erase(UseQueueOf(UseTotalOf(m, l), l)) == Erase(UseQueueOf(UseTotalOf(Erase(m), l), l))
  {}

  lemma EraseText(m: Model, n: Model, l: Line)
    requires l.Unstructured? && Erase(m) == Erase(n)
    ensures Erase(UseTextOf(m, l)) == Erase(UseTextOf(n, l))
  {}

  lemma ErasePlain(m: Model, l: Line)
    requires l.Unstructured?
    ensures Erase(ParsePlain(m, l)) == Erase(ParsePlain(Erase(m), l))
  {
    var a, a' := UseQueueOf(UseTotalOf(m, l), l), UseQueueOf(UseTotalOf(Erase(m), l), l);
    EraseQueue(m, l);
    if l.failedElement.Some? {
      EraseElement(a, l.failedElement.value);
      EraseElement(a', l.failedElement.value);
    }
    var b, b' := UseElementOf(a, l), UseElementOf(a', l);
    if l.logPath.Some? {
      EraseLog(b, l.logPath.value);
      EraseLog(b', l.logPath.value);
    }
    EraseText(UseLogOf(b, l), UseLogOf(b', l), l);
  }

  lemma EraseFail(m: Model, element: string, hash: string, now: Time)
    ensures Erase(FailJob(m, element, hash, now)) == Erase(FailJob(Erase(m), element, hash, 0))
  {
    EraseTwice(m);
    if hash in m.active {
      var job := m.active[hash];
      var item := Failure(element, hash, now - job.start, job.log);
      EraseJobsUpdate(m.active, hash, job);
      EraseJobsUpdate(EraseJobs(m.active), hash, job);
      EraseFinishedSnoc(m.completed, Finished(element, hash, now - job.start, false));
      EraseFinishedSnoc(EraseFinished(m.completed), Finished(element, hash, 0, false));
      EraseRecord(m.failures, item);
      EraseRecord(EraseFailures(m.failures), item.(duration := 0));
      assert |EraseFailures(Record(m.failures, item))| == |Record(m.failures, item)|;
    }
  }

  lemma EraseFinish(m: Model, element: string, hash: string, now: Time)
    ensures Erase(FinishJob(m, element, hash, now)) == Erase(FinishJob(Erase(m), element, hash, 0))
  {}

  lemma EraseEvent(m: Model, l: Line, now: Time)
    requires l.Event?
    ensures Erase(ParseEvent(m, l, now)) == Erase(ParseEvent(Erase(m), l, 0))
  {
    var n, n' := AddRecent(m, l.text), AddRecent(Erase(m), l.text);
    EraseTwice(m);
    assert Erase(n) == Erase(n');
    if IsStart(l) {
      EraseJobsUpdate(n.active, l.hash, Job(l.element, l.hash, now, l.log));
      EraseJobsUpdate(n'.active, l.hash, Job(l.element, l.hash, 0, l.log));
    } else if IsSuccess(l) {
      EraseFinish(n, l.element, l.hash, now);
      EraseFinish(n', l.element, l.hash, 0);
    } else if IsFailure(l) {
      EraseFail(n, l.element, l.hash, now);
      EraseFail(n', l.element, l.hash, 0);
    }
  }

  /** Clock readings never reach the rest of the state: a line acts on the erased
      state alone, at whatever time it is read. */
  lemma ClockIndependent(m: Model, l: Line, now: Time)
    ensures Erase(Parse(m, l, now)) == Replay(Erase(m), l)
  {
    EraseTwice(m);
    match l
    case Blank =>
    case Header(_, _) =>
    case PipelineSummary(_) =>
      EraseKeep(m.failures, m.summary);
      EraseKeep(EraseFailures(m.failures), m.summary);
    case Unstructured(_, _, _, _, _, _) => ErasePlain(m, l);
    case Event(_, _, _, _, _, _, _, _) => EraseEvent(m, l, now);
  }

  // ---- The state of the log alone ----

  /** The state without what depends on when it is looked at: clock readings, the
      catch-up flag and the number of updates. */
  function Core(m: Model): Model { Erase(m).(catchingUp := false, version := 0) }

  /** Equal but for the catch-up flag and the version. */
  predicate SameShown(m: Model, n: Model) {
    m.(catchingUp := false, version := 0) == n.(catchingUp := false, version := 0)
  }

  lemma ShownPlain(m: Model, n: Model, l: Line)
    requires SameShown(m, n) && l.Unstructured?
    ensures SameShown(ParsePlain(m, l), ParsePlain(n, l))
  {
    var a, a' := UseQueueOf(UseTotalOf(m, l), l), UseQueueOf(UseTotalOf(n, l), l);
    assert SameShown(a, a');
    var c, c' := UseElementOf(a, l), UseElementOf(a', l);
    assert SameShown(c, c');
    assert SameShown(UseLogOf(c, l), UseLogOf(c', l));
  }

  lemma ShownSummary(m: Model, n: Model, now: Time, text: string)
    requires SameShown(m, n)
    ensures SameShown(PipelineDone(m, now, text), PipelineDone(n, now, text))
  {}

  lemma ShownEvent(m: Model, n: Model, l: Line, now: Time)
    requires SameShown(m, n) && l.Event?
    ensures SameShown(ParseEvent(m, l, now), ParseEvent(n, l, now))
  {}

  lemma ShownParse(m: Model, n: Model, l: Line, now: Time)
    requires SameShown(m, n)
    ensures SameShown(Parse(m, l, now), Parse(n, l, now))
  {
    match l
    case Blank =>
    case Header(_, _) =>
    case PipelineSummary(text) => ShownSummary(m, n, now, text);
    case Unstructured(_, _, _, _, _, _) => ShownPlain(m, n, l);
    case Event(_, _, _, _, _, _, _, _) => ShownEvent(m, n, l, now);
  }

  /** The effect of a line on the core. */
  function CoreStep(m: Model, l: Line): Model { Core(Parse(m, l, 0)) }

  /** A line acts on the core alone, whenever it is read. */
  lemma CoreIndependent(m: Model, l: Line, now: Time)
    ensures Core(Parse(m, l, now)) == CoreStep(Core(m), l)
  {
    ClockIndependent(m, l, now);
    ShownParse(Erase(m), Core(m), l, 0);
  }

  lemma CatchUpInvisible(m: Model, mtime: Time)
    ensures Core(CaughtUp(m, mtime)) == Core(m)
  {}
}
