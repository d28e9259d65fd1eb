/** What the lines of a log do to the dashboard, field by field: single inputs and
    the course of a job through a run. */
module DashboardEffects {
  import opened Text
  import opened DashboardState
  import opened DashboardRuns

  // ---- Inputs that start over ----

  /** A build header and a truncated log leave nothing but the element total. */
  lemma ClearsEverything(m: Model, i: Input)
    requires i.Truncated? || (i.Parsed? && i.line.Header?)
    ensures var n := Step(m, i);
            && n.active == map[] && n.completed == [] && n.failures == [] && n.summary == {}
            && n.pulled == n.successCount == n.failureCount == n.cachedCount == 0
            && n.buildEnd == 0 && n.catchingUp && n.total == m.total && n.version == m.version + 1
            && (i.Truncated? ==> n.buildStart == 0 && n.recent == [])
            && (i.Parsed? ==> n.buildStart == i.line.started && n.recent == [i.line.text])
  {}

  // ---- Pipeline Summaries ----

  /** Without a Failure Summary before it, a Pipeline Summary keeps the failure table
      and the count; it always ends all jobs and, if that is still open, the build. */
  lemma SummaryWithoutNames(m: Model, now: Time, text: string)
    ensures var n := Step(m, Parsed(PipelineSummary(text), now));
            && (m.summary == {} ==> n.failures == m.failures && n.failureCount == m.failureCount)
            && n.active == map[] && n.summary == {} && !n.catchingUp
            && n.buildEnd == (if m.buildEnd == 0 then now else m.buildEnd)
            && n.completed == m.completed && n.buildStart == m.buildStart && n.total == m.total
            && n.pulled == m.pulled && n.successCount == m.successCount && n.cachedCount == m.cachedCount
  {}

  /** What is kept keeps its place, entry by entry. */
  lemma {:induction false} KeepAppend(a: seq<Failure>, b: seq<Failure>, elements: set<string>)
    ensures Keep(a + b, elements) == Keep(a, elements) + Keep(b, elements)
  {
    if b == [] {
      assert a + b == a;
    } else {
      assert (a + b)[..|a + b| - 1] == a + b[..|b| - 1];
      KeepAppend(a, b[..|b| - 1], elements);
    }
  }

  lemma KeepOne(f: Failure, elements: set<string>)
    ensures Keep([f], elements) == if f.element in elements then [f] else []
  {
    assert [f][..0] == [];
  }

  /** The input ends the time in which named elements are collected. */
  predicate EndsSummary(i: Input) { Clears(i) || (i.Parsed? && i.line.PipelineSummary?) }

  predicate NamesElement(i: Input, e: string) {
    i.Parsed? && i.line.Unstructured? && i.line.failedElement == Some(e)
  }

  /** Element `e` has been named since collecting began. */
  ghost predicate Named(inputs: seq<Input>, e: string) {
    exists i | 0 <= i < |inputs| ::
      NamesElement(inputs[i], e) && forall j | i < j < |inputs| :: !EndsSummary(inputs[j])
  }

  lemma NamedStep(inputs: seq<Input>, e: string)
    requires inputs != []
    ensures var init, last := inputs[..|inputs| - 1], inputs[|inputs| - 1];
            Named(inputs, e) <==> NamesElement(last, e) || (Named(init, e) && !EndsSummary(last))
  {
    var init, last := inputs[..|inputs| - 1], inputs[|inputs| - 1];
    if Named(init, e) && !EndsSummary(last) {
      var i :| 0 <= i < |init| && NamesElement(init[i], e) && forall j | i < j < |init| :: !EndsSummary(init[j]);
      assert NamesElement(inputs[i], e);
    }
    if Named(inputs, e) && !NamesElement(last, e) {
      var i :| 0 <= i < |inputs| && NamesElement(inputs[i], e)
               && forall j | i < j < |inputs| :: !EndsSummary(inputs[j]);
      assert NamesElement(init[i], e);
    }
  }

  lemma LogKeepsRest(m: Model, l: Line)
    requires l.Unstructured?
    ensures var n := UseTextOf(UseLogOf(m, l), l);
            && n.failureCount == m.failureCount && n.summary == m.summary && n.completed == m.completed
            && n.buildStart == m.buildStart && n.buildEnd == m.buildEnd && n.catchingUp == m.catchingUp
            && (l.logPath.None? ==> n.failures == m.failures)
  {}

  lemma SummaryPlain(m: Model, l: Line)
    requires l.Unstructured?
    ensures ParsePlain(m, l).summary
            == m.summary + if l.failedElement.Some? then {l.failedElement.value} else {}
  {
    var c := UseElementOf(UseQueueOf(UseTotalOf(m, l), l), l);
    LogKeepsRest(c, l);
    assert m.summary + {} == m.summary;
  }

  lemma SummaryStep(m: Model, i: Input)
    ensures Step(m, i).summary
            == (if EndsSummary(i) then {} else m.summary)
               + if i.Parsed? && i.line.Unstructured? && i.line.failedElement.Some?
                 then {i.line.failedElement.value} else {}
  {
    if i.Parsed? && i.line.Unstructured? { SummaryPlain(m, i.line); }
  }

  /** The summary set holds exactly the elements that Failure Summaries have named
      since the last header, truncation or Pipeline Summary. */
  lemma {:induction false} SummaryNames(inputs: seq<Input>, e: string)
    ensures e in Run(FRESH, inputs).summary <==> Named(inputs, e)
  {
    if inputs == [] {
    } else {
      SummaryNames(inputs[..|inputs| - 1], e);
      SummaryStep(Run(FRESH, inputs[..|inputs| - 1]), inputs[|inputs| - 1]);
      NamedStep(inputs, e);
    }
  }

  // ---- Unstructured lines ----

  /** A Build Queue line sets the count when it is zero and leaves it otherwise. */
  lemma QueueMeans(m: Model, l: Line, now: Time)
    requires l.Unstructured? && l.failedElement.None?
    ensures var n := Parse(m, l, now);
            && n.failureCount == (if m.failureCount == 0 && l.buildFailed.Some? then l.buildFailed.value
                                  else m.failureCount)
            && n.summary == m.summary && n.completed == m.completed
            && n.buildStart == m.buildStart && n.buildEnd == m.buildEnd && n.catchingUp == m.catchingUp
            && (l.logPath.None? ==> n.failures == m.failures)
  {
    LogKeepsRest(UseQueueOf(UseTotalOf(m, l), l), l);
  }

  /** A Failure Summary line for an element that the table lacks adds a placeholder
      without hash and log and raises the count to cover it; otherwise it adds nothing. */
  lemma ElementMeans(m: Model, l: Line, now: Time)
    requires l.Unstructured? && l.failedElement.Some? && l.buildFailed.None? && l.logPath.None?
    ensures var n, e := Parse(m, l, now), l.failedElement.value;
            if HasElement(m.failures, e) then n.failures == m.failures && n.failureCount == m.failureCount
            else && n.failures == m.failures + [Failure(e, "", 0, "")]
                 && n.failureCount >= |n.failures| && n.failureCount >= m.failureCount
                 && (n.failureCount == |n.failures| || n.failureCount == m.failureCount)
  {}

  /** A log path goes to the last entry without one and to no other. */
  lemma LogMeans(m: Model, l: Line, now: Time) returns (i: nat)
    requires l.Unstructured? && l.failedElement.None? && l.logPath.Some?
    ensures var n := Parse(m, l, now);
            && i <= |m.failures| && (forall j | i <= j < |m.failures| :: m.failures[j].log != "")
            && (if i == 0 then n.failures == m.failures
                else && m.failures[i - 1].log == ""
                     && n.failures == m.failures[i - 1 := m.failures[i - 1].(log := l.logPath.value)])
  {
    i := AttachLogIs(m.failures, l.logPath.value);
  }

  // ---- Events ----

  /** Events of other kinds, and events of a job's inner steps that do not fail, only
      appear in the recent log. */
  lemma OtherEvents(m: Model, l: Line, now: Time)
    requires l.Event?
    requires l.action == Build ==> l.status != Failed && (l.top ==> l.status !in {Start, Success})
    requires l.action == Pull ==> l.mentionsPull ==> l.status !in {Skipped, Success}
    ensures Parse(m, l, now) == m.(recent := m.recent + [l.text], version := m.version + 1)
  {}

  /** A pull that is skipped counts as cached, one that succeeds as pulled. */
  lemma PullMeans(m: Model, l: Line, now: Time)
    requires l.Event? && l.action == Pull && l.mentionsPull && l.status in {Skipped, Success}
    ensures Parse(m, l, now)
            == m.(recent := m.recent + [l.text], version := m.version + 2,
                  cachedCount := m.cachedCount + if l.status == Skipped then 1 else 0,
                  pulled := m.pulled + if l.status == Success then 1 else 0)
  {}

  /** A failure that belongs to no tracked job, the sub-event of another one, changes
      nothing but the recent log. */
  lemma UntrackedFailure(m: Model, l: Line, now: Time)
    requires l.Event? && l.action == Build && l.status == Failed && l.hash !in m.active
    ensures Parse(m, l, now) == m.(recent := m.recent + [l.text], version := m.version + 2)
  {}

  /** What a live failure does to the table: a known hash is left alone, the first
      placeholder of the element is filled, and otherwise the entry is appended. */
  lemma RecordMeans(fs: seq<Failure>, item: Failure) returns (i: nat)
    ensures HasHash(fs, item.hash) ==> Record(fs, item) == fs
    ensures !HasHash(fs, item.hash) ==>
              && i <= |fs| && (forall j | 0 <= j < i :: !(fs[j].element == item.element && fs[j].hash == ""))
              && (if i < |fs|
                  then fs[i].element == item.element && fs[i].hash == "" && Record(fs, item) == fs[i := item]
                  else Record(fs, item) == fs + [item])
  {
    i := FillIs(fs, item);
  }

  // ---- The course of a job ----

  /** The input starts, ends or drops the job with hash `h`. */
  predicate Touches(i: Input, h: string) {
    || Clears(i) || (i.Parsed? && i.line.PipelineSummary?)
    || (i.Parsed? && i.line.Event? && i.line.hash == h && i.line.action == Build
        && (i.line.status == Failed || (i.line.top && i.line.status in {Start, Success})))
  }

  predicate StartsJob(i: Input, h: string) {
    i.Parsed? && i.line.Event? && i.line.action == Build && i.line.top && i.line.status == Start && i.line.hash == h
  }

  /** The job with hash `h` was started by input `s` and not touched since. */
  ghost predicate Underway(inputs: seq<Input>, h: string, s: nat) {
    s < |inputs| && StartsJob(inputs[s], h) && forall j | s < j < |inputs| :: !Touches(inputs[j], h)
  }

  function StartedJob(i: Input): Job
    requires i.Parsed? && i.line.Event?
  {
    Job(i.line.element, i.line.hash, i.now, i.line.log)
  }

  lemma UntouchedStays(m: Model, i: Input, h: string)
    requires !Touches(i, h)
    ensures h in Step(m, i).active <==> h in m.active
    ensures h in m.active ==> Step(m, i).active[h] == m.active[h]
  {
    if i.Parsed? && i.line.Unstructured? { PlainFrame(m, i.line); }
  }

  /** A job underway is tracked as its start described it. */
  lemma {:induction false} JobTracked(inputs: seq<Input>, h: string, s: nat)
    requires Underway(inputs, h, s)
    ensures h in Run(FRESH, inputs).active && Run(FRESH, inputs).active[h] == StartedJob(inputs[s])
  {
    var init := inputs[..|inputs| - 1];
    if s == |inputs| - 1 {
    } else {
      JobTracked(init, h, s);
      UntouchedStays(Run(FRESH, init), inputs[|inputs| - 1], h);
    }
  }

  /** A job that fails: it is closed with the time since its start, enters the failure
      table with the log its start named, and the count is that of the table. */
  lemma JobFails(inputs: seq<Input>, h: string, s: nat, l: Line, now: Time)
    requires Underway(inputs, h, s) && l.Event? && l.action == Build && l.status == Failed && l.hash == h
    ensures var m, job := Run(FRESH, inputs), StartedJob(inputs[s]);
            var n := Step(m, Parsed(l, now));
            && n.active == m.active - {h} && n.buildEnd == now
            && n.completed == m.completed + [Finished(l.element, h, now - job.start, false)]
            && n.failures == Record(m.failures, Failure(l.element, h, now - job.start, job.log))
            && n.failureCount == |n.failures| && n.successCount == m.successCount
  {
    JobTracked(inputs, h, s);
  }

  /** A job that succeeds: it is closed with the time since its start and counted. */
  lemma JobSucceeds(inputs: seq<Input>, h: string, s: nat, l: Line, now: Time)
    requires Underway(inputs, h, s) && l.Event? && l.action == Build && l.top && l.status == Success && l.hash == h
    ensures var m, job := Run(FRESH, inputs), StartedJob(inputs[s]);
            var n := Step(m, Parsed(l, now));
            && n.active == m.active - {h} && n.buildEnd == now
            && n.completed == m.completed + [Finished(l.element, h, now - job.start, true)]
            && n.successCount == m.successCount + 1
            && n.failures == m.failures && n.failureCount == m.failureCount
  {
    JobTracked(inputs, h, s);
  }

  /** A success without a tracked job is counted all the same, with no duration. */
  lemma UntrackedSuccess(m: Model, l: Line, now: Time)
    requires l.Event? && l.action == Build && l.top && l.status == Success && l.hash !in m.active
    ensures var n := Parse(m, l, now);
            && n.active == m.active && n.buildEnd == now && n.successCount == m.successCount + 1
            && n.completed == m.completed + [Finished(l.element, l.hash, 0, true)]
            && n.failures == m.failures && n.failureCount == m.failureCount
  {}

  /** A start tracks its job and changes nothing else but the recent log. */
  lemma StartMeans(m: Model, i: Input, h: string)
    requires StartsJob(i, h)
    ensures Step(m, i) == m.(active := m.active[h := StartedJob(i)], recent := m.recent + [i.line.text],
                             version := m.version + 2)
  {}

  // ---- The end of the log, and the recent lines ----

  /** When everything has been read, the catch-up is over, and a build that has
      successes, no jobs and no end ends when the log was last written. */
  lemma AllReadMeans(m: Model, mtime: Time)
    ensures Step(m, AllRead(mtime))
            == m.(catchingUp := false, version := m.version + 1,
                  buildEnd := if m.buildEnd == 0 && m.active == map[] && m.successCount > 0 then mtime
                              else m.buildEnd)
  {}

  predicate EndsCatchUp(i: Input) { i.AllRead? || (i.Parsed? && i.line.PipelineSummary?) }

  ghost predicate NoneEndsCatchUp(inputs: seq<Input>) {
    forall i | 0 <= i < |inputs| :: !EndsCatchUp(inputs[i])
  }

  lemma NoneEndsSnoc(inputs: seq<Input>, i: Input)
    ensures NoneEndsCatchUp(inputs + [i]) <==> NoneEndsCatchUp(inputs) && !EndsCatchUp(i)
  {
    if NoneEndsCatchUp(inputs + [i]) {
      assert !EndsCatchUp((inputs + [i])[|inputs|]);
      assert forall j | 0 <= j < |inputs| :: (inputs + [i])[j] == inputs[j];
    }
  }

  /** The dashboard is catching up until everything has been read or the pipeline is
      done, and again after every new start. */
  lemma {:induction false} CatchingUp(inputs: seq<Input>)
    ensures Run(FRESH, inputs).catchingUp <==> NoneEndsCatchUp(SinceClear(inputs))
  {
    if inputs == [] {
    } else {
      var init, last := inputs[..|inputs| - 1], inputs[|inputs| - 1];
      CatchingUp(init);
      if Clears(last) {
        ClearsEverything(Run(FRESH, init), last);
      } else {
        NoneEndsSnoc(SinceClear(init), last);
      }
    }
  }

  /** What an input shows in the recent log. */
  function Shows(i: Input): seq<string> {
    if !i.Parsed? then [] else
      match i.line
      case Blank => []
      case Header(_, text) => [text]
      case PipelineSummary(text) => [text]
      case Unstructured(_, _, _, _, text, indented) => if indented then [] else [text]
      case Event(_, _, _, _, _, _, _, text) => [text]
  }

  /** What a log shows, from the last new start on. */
  function ShownLog(inputs: seq<Input>): seq<string> {
    if inputs == [] then [] else
      var last := inputs[|inputs| - 1];
      (if Clears(last) then [] else ShownLog(inputs[..|inputs| - 1])) + Shows(last)
  }

  lemma RecentPlain(m: Model, l: Line)
    requires l.Unstructured?
    ensures ParsePlain(m, l).recent == m.recent + if l.indented then [] else [l.text]
  {}

  lemma RecentStep(m: Model, i: Input)
    ensures Step(m, i).recent == (if Clears(i) then [] else m.recent) + Shows(i)
  {
    if i.Parsed? && i.line.Unstructured? { RecentPlain(m, i.line); }
  }

  /** The recent log is what the lines since the last new start show, in order. */
  lemma {:induction false} RecentIsShown(inputs: seq<Input>)
    ensures Run(FRESH, inputs).recent == ShownLog(inputs)
  {
    if inputs == [] {
    } else {
      RecentIsShown(inputs[..|inputs| - 1]);
      RecentStep(Run(FRESH, inputs[..|inputs| - 1]), inputs[|inputs| - 1]);
    }
  }
}
