/** `tail_log`: the incremental reader that feeds the dashboard. The log is a
    sequence of one-byte characters. */
module LogTail {
  import opened Text
  import opened DashboardState
  import opened DashboardRuns

  /** The line patterns of the parser. */
  type Classifier = string -> Line

  /** Where the reader is: the offset, the carried-over piece of a line, and the
      dashboard's state without clock readings, catch-up flag and version. */
  datatype Tail = Tail(pos: nat, buf: string, core: Model)

  /** Parsing complete lines one after the other. */
  function ReplayText(classify: Classifier, m: Model, lines: seq<string>): Model {
    if lines == [] then m
    else CoreStep(ReplayText(classify, m, lines[..|lines| - 1]), classify(lines[|lines| - 1]))
  }

  function Chop(pieces: seq<string>): seq<string>
    requires pieces != []
  {
    pieces[..|pieces| - 1]
  }

  function Last(pieces: seq<string>): string
    requires pieces != []
  {
    pieces[|pieces| - 1]
  }

  /** A look at the log: its size, and then what it holds when it is opened. */
  datatype Sight = Sight(size: nat, content: string)

  function Whole(log: string): Sight { Sight(|log|, log) }

  /** What reading `size - pos` characters at `pos` gives. */
  function Chunk(pos: nat, s: Sight): string
    requires pos <= s.size
  {
    s.content[Min(pos, |s.content|)..Min(s.size, |s.content|)]
  }

  /** Within the log that is what lies between; a log that has become shorter since it
      was measured gives what it still has. */
  lemma ChunkMeans(pos: nat, s: Sight)
    requires pos <= s.size
    ensures s.size <= |s.content| ==> Chunk(pos, s) == s.content[pos..s.size]
    ensures pos <= |s.content| < s.size ==> Chunk(pos, s) == s.content[pos..]
    ensures |s.content| < pos ==> Chunk(pos, s) == ""
  {}

  /** One turn of the endless loop; `None` is a log that does not exist. */
  function TailStep(classify: Classifier, t: Tail, file: Option<Sight>): Tail {
    if file.None? then t else
      var size := file.value.size;
      var t := if size < t.pos then Tail(0, "", Core(Reset(t.core))) else t;
      if size > t.pos then
        var pieces := Split(t.buf + Chunk(t.pos, file.value), NL);
        Tail(size, Last(pieces), ReplayText(classify, t.core, Chop(pieces)))
      else t
  }

  function TailRun(classify: Classifier, t: Tail, files: seq<Option<Sight>>): Tail {
    if files == [] then t
    else TailStep(classify, TailRun(classify, t, files[..|files| - 1]), files[|files| - 1])
  }

  /** The inputs are the lines, classified, in order. */
  ghost predicate AreParsed(classify: Classifier, lines: seq<string>, inputs: seq<Input>) {
    && |inputs| == |lines|
    && forall i | 0 <= i < |lines| :: inputs[i].Parsed? && inputs[i].line == classify(lines[i])
  }

  class Tailer {
    const classify: Classifier
    const state: State
    var pos: nat
    var buf: string

    constructor (classify: Classifier, state: State)
      ensures this.classify == classify && this.state == state && View() == Tail(0, "", Core(state.View()))
    {
      this.classify, this.state := classify, state;
      pos, buf := 0, "";
    }

    function View(): Tail
      reads this, state
    {
      Tail(pos, buf, Core(state.View()))
    }

    /** Hands complete lines to the parser, reading the clock for each. */
    method ParseLines(lines: seq<string>) returns (ghost inputs: seq<Input>)
      modifies state
      ensures AreParsed(classify, lines, inputs)
      ensures Core(state.View()) == ReplayText(classify, old(Core(state.View())), lines)
      ensures state.View() == Run(old(state.View()), inputs)
    {
      ghost var m, core := state.View(), Core(state.View());
      inputs := [];
      for i := 0 to |lines|
        invariant Core(state.View()) == ReplayText(classify, core, lines[..i])
        invariant state.View() == Run(m, inputs) && AreParsed(classify, lines[..i], inputs)
      {
        assert lines[..i + 1][..i] == lines[..i];
        var now: Time := *;
        CoreIndependent(state.View(), classify(lines[i]), now);
        RunOne(m, inputs, Parsed(classify(lines[i]), now));
        inputs := inputs + [Parsed(classify(lines[i]), now)];
        state.ParseLine(classify(lines[i]), now);
      }
      assert lines[..|lines|] == lines;
    }

    /** Parses the log from `start` on, in front of which `buf` was carried over. */
    method ReadMore(file: Sight) returns (ghost parsed: seq<Input>)
      requires pos < file.size
      modifies this, state
      ensures AreParsed(classify, Chop(Split(old(buf) + Chunk(old(pos), file), NL)), parsed)
      ensures state.View() == Run(old(state.View()), parsed)
      ensures View() == TailStep(classify, old(View()), Some(file))
    {
      var pieces := Split(buf + Chunk(pos, file), NL);
      pos, buf := file.size, pieces[|pieces| - 1];
      parsed := ParseLines(pieces[..|pieces| - 1]);
    }

    /** Starts over. */
    method Restart()
      modifies this, state
      ensures View() == Tail(0, "", Core(Reset(old(View()).core)))
      ensures state.View() == Run(old(state.View()), [Truncated]) && state.catchingUp
    {
      assert [Truncated][..0] == [];
      state.ResetState();
      pos, buf := 0, "";
    }

    /** Looks at the log once. `parsed` are the lines that became complete, `inputs` is
        all that this does to the state. */
    method Poll(file: Option<Sight>, mtime: Time) returns (ghost inputs: seq<Input>, ghost parsed: seq<Input>)
      modifies this, state
      ensures View() == TailStep(classify, old(View()), file)
      ensures state.View() == Run(old(state.View()), inputs)
      ensures AreParsed(classify, NewLines(old(View()), file), parsed)
      ensures inputs == LookInputs(old(View()), old(state.catchingUp), file, mtime, parsed)
    {
      inputs, parsed := [], [];
      if file.None? { return; }
      var size := file.value.size;
      if size < pos {
        Restart();
        inputs := [Truncated];
      }
      if size > pos {
        assert "" + Chunk(pos, file.value) == Chunk(pos, file.value);
        parsed := ReadMore(file.value);
        RunAppend(old(state.View()), inputs, parsed);
        assert [] + parsed == parsed;
        inputs := inputs + parsed;
      } else if state.catchingUp {
        CatchUpInvisible(state.View(), mtime);
        RunOne(old(state.View()), inputs, AllRead(mtime));
        inputs := inputs + [AllRead(mtime)];
        state.DoneCatchingUp(mtime);
      }
    }
  }

  /** The lines that a look at the log completes. */
  function NewLines(t: Tail, file: Option<Sight>): seq<string> {
    if file.None? then []
    else if file.value.size < t.pos then
      if file.value.size > 0 then Chop(Split(Chunk(0, file.value), NL)) else []
    else if file.value.size > t.pos then Chop(Split(t.buf + Chunk(t.pos, file.value), NL))
    else []
  }

  /** What a look at the log does to the dashboard: a reset when it is shorter, then the
      complete lines if there is more of it than was read, and otherwise the end of the
      catch-up, if that is still to come. */
  function LookInputs(t: Tail, catchingUp: bool, file: Option<Sight>, mtime: Time, parsed: seq<Input>): seq<Input> {
    if file.None? then []
    else if file.value.size < t.pos then
      [Truncated] + if file.value.size > 0 then parsed else [AllRead(mtime)]
    else if file.value.size > t.pos then parsed
    else if catchingUp then [AllRead(mtime)]
    else []
  }

  /** One turn of the loop: the log and its modification time, when it exists. */
  datatype Look = Look(file: Option<Sight>, mtime: Time)

  function Files(looks: seq<Look>): (r: seq<Option<Sight>>)
    ensures |r| == |looks| && forall i | 0 <= i < |r| :: r[i] == looks[i].file
  {
    seq(|looks|, i requires 0 <= i < |looks| => looks[i].file)
  }

  /** The endless loop up to some turn, from a fresh dashboard. The reader is where
      the turns lead, and the dashboard is in a state of some run, so that what
      holds of all runs holds of it. */
  method TailLog(classify: Classifier, looks: seq<Look>) returns (t: Tailer, ghost inputs: seq<Input>)
    ensures t.View() == TailRun(classify, Tail(0, "", Core(FRESH)), Files(looks))
    ensures t.state.View() == Run(FRESH, inputs) && Inv(t.state.View())
  {
    var state := new State();
    t := new Tailer(classify, state);
    inputs := [];
    for i := 0 to |looks|
      invariant fresh(t) && t.classify == classify && fresh(t.state)
      invariant t.View() == TailRun(classify, Tail(0, "", Core(FRESH)), Files(looks[..i]))
      invariant t.state.View() == Run(FRESH, inputs)
    {
      assert Files(looks[..i + 1])[..i] == Files(looks[..i]);
      ghost var more, parsed;
      more, parsed := t.Poll(looks[i].file, looks[i].mtime);
      RunAppend(FRESH, inputs, more);
      inputs := inputs + more;
    }
    assert looks[..|looks|] == looks;
    Reachable(inputs);
  }

  // ---- Independence of polling ----

  /** Reading a text at one go. */
  function SinglePass(classify: Classifier, core: Model, text: string): Tail {
    Tail(|text|, Last(Split(text, NL)), ReplayText(classify, core, Chop(Split(text, NL))))
  }

  lemma {:induction false} ReplayAppend(classify: Classifier, m: Model, a: seq<string>, b: seq<string>)
    ensures ReplayText(classify, m, a + b) == ReplayText(classify, ReplayText(classify, m, a), b)
  {
    if b == [] {
      assert a + b == a;
    } else {
      assert (a + b)[..|a + b| - 1] == a + b[..|b| - 1];
      ReplayAppend(classify, m, a, b[..|b| - 1]);
    }
  }

  lemma ChopAppend(a: seq<string>, b: seq<string>)
    requires b != []
    ensures Chop(a + b) == a + Chop(b) && Last(a + b) == Last(b)
  {}

  /** Carrying on after a part gives what one pass over the whole gives. */
  lemma PassContinues(classify: Classifier, core: Model, seen: string, more: string)
    ensures var t := SinglePass(classify, core, seen);
            var pieces := Split(t.buf + more, NL);
            SinglePass(classify, core, seen + more)
            == Tail(|seen| + |more|, Last(pieces), ReplayText(classify, t.core, Chop(pieces)))
  {
    var r := Split(seen, NL);
    var q := Split(Last(r) + more, NL);
    SplitAppend(seen, more, NL);
    ChopAppend(Chop(r), q);
    ReplayAppend(classify, core, Chop(r), Chop(q));
  }

  /** How much of the log the polls have shown. */
  function Shown(files: seq<Option<Sight>>): nat {
    if files == [] then 0
    else if files[|files| - 1].Some? then files[|files| - 1].value.size
    else Shown(files[..|files| - 1])
  }

  /** A look at an earlier stage of `log`, which may grow while it is being looked at. */
  predicate SeesPart(s: Sight, log: string) { s.size <= |s.content| && s.content <= log }

  /** Every poll sees a part of the growing `log`, never less than the one before. */
  ghost predicate Growing(files: seq<Option<Sight>>, log: string) {
    files == [] ||
    (var last := files[|files| - 1];
     && Growing(files[..|files| - 1], log)
     && (last.Some? ==> SeesPart(last.value, log) && Shown(files[..|files| - 1]) <= last.value.size))
  }

  /** However the growth of a log is cut into polls, the reader is where a single
      pass over what it has been shown would be. */
  lemma {:induction false} PollingIndependent(
    classify: Classifier, core: Model, files: seq<Option<Sight>>, log: string)
    requires Growing(files, log)
    ensures Shown(files) <= |log|
    ensures TailRun(classify, Tail(0, "", core), files) == SinglePass(classify, core, log[..Shown(files)])
  {
    if files == [] {
      assert log[..0] == "" && Split("", NL) == [""];
      assert Chop([""]) == [];
    } else {
      var init, last := files[..|files| - 1], files[|files| - 1];
      PollingIndependent(classify, core, init, log);
      if last.Some? && last.value.size > Shown(init) {
        var more := Chunk(Shown(init), last.value);
        assert log[..last.value.size] == log[..Shown(init)] + more;
        PassContinues(classify, core, log[..Shown(init)], more);
      }
    }
  }

  /** Two readers of the same log that have been shown equally much agree. */
  lemma SchedulesAgree(classify: Classifier, core: Model, a: seq<Option<Sight>>, b: seq<Option<Sight>>, log: string)
    requires Growing(a, log) && Growing(b, log) && Shown(a) == Shown(b)
    ensures TailRun(classify, Tail(0, "", core), a) == TailRun(classify, Tail(0, "", core), b)
  {
    PollingIndependent(classify, core, a, log);
    PollingIndependent(classify, core, b, log);
  }

  /** What has been read is the parsed lines with their newlines and the carry. */
  lemma NothingLost(text: string)
    ensures text == Unlines(Chop(Split(text, NL))) + Last(Split(text, NL))
    ensures NL !in Last(Split(text, NL))
  {
    SplitIsUnlines(text);
    assert Last(Split(text, NL)) in Split(text, NL);
  }

  // ---- A log that starts over ----

  lemma {:induction false} TailRunAppend(classify: Classifier, t: Tail, a: seq<Option<Sight>>, b: seq<Option<Sight>>)
    ensures TailRun(classify, t, a + b) == TailRun(classify, TailRun(classify, t, a), b)
  {
    if b == [] {
      assert a + b == a;
    } else {
      assert (a + b)[..|a + b| - 1] == a + b[..|b| - 1];
      TailRunAppend(classify, t, a, b[..|b| - 1]);
    }
  }

  lemma {:induction false} ReplaySameBuild(classify: Classifier, m: Model, n: Model, lines: seq<string>)
    requires SameBuild(m, n)
    ensures SameBuild(ReplayText(classify, m, lines), ReplayText(classify, n, lines))
  {
    if lines == [] {
    } else {
      var init, last := lines[..|lines| - 1], classify(lines[|lines| - 1]);
      ReplaySameBuild(classify, m, n, init);
      var a, b := ReplayText(classify, m, init), ReplayText(classify, n, init);
      SameBuildStep(a, b, Parsed(last, 0));
    }
  }

  /** A poll that finds the log shorter starts over: from then on the reader is
      where a single pass over the new log would be, and but for the element total
      it shows what a fresh dashboard would show. */
  lemma ShorterLogStartsOver(classify: Classifier, t: Tail, files: seq<Option<Sight>>, log: string)
    requires files != [] && files[0].Some? && files[0].value.size < t.pos
    requires Growing(files, log)
    ensures Shown(files) <= |log|
    ensures var r := TailRun(classify, t, files);
            && r == SinglePass(classify, Core(Reset(t.core)), log[..Shown(files)])
            && SameBuild(r.core, SinglePass(classify, Core(FRESH), log[..Shown(files)]).core)
  {
    var core := Core(Reset(t.core));
    var head, rest := files[..1], files[1..];
    assert files == head + rest;
    TailRunAppend(classify, t, head, rest);
    TailRunAppend(classify, Tail(0, "", core), head, rest);
    assert head[..0] == [];
    assert TailRun(classify, t, head) == TailRun(classify, Tail(0, "", core), head);
    PollingIndependent(classify, core, files, log);
    ReplaySameBuild(classify, core, Core(FRESH), Chop(Split(log[..Shown(files)], NL)));
  }

  // ---- A log that is replaced ----

  /** A new log is recognised by its length alone: a longer one is taken for growth. */
  lemma LongerLogIsGrowth(classify: Classifier, core: Model, seen: string, log: string)
    requires |seen| <= |log|
    ensures TailStep(classify, SinglePass(classify, core, seen), Some(Whole(log)))
            == SinglePass(classify, core, seen + log[|seen|..])
  {
    assert Chunk(|seen|, Whole(log)) == log[|seen|..];
    if |seen| == |log| {
      assert seen + log[|seen|..] == seen;
    } else {
      PassContinues(classify, core, seen, log[|seen|..]);
    }
  }

  /** A classifier that shows every line in the recent log. */
  function Verbatim(line: string): Line { Unstructured(None, None, None, None, line, false) }

  lemma {:induction false} VerbatimShows(m: Model, lines: seq<string>)
    ensures ReplayText(Verbatim, m, lines).recent == m.recent + lines
  {
    if lines == [] {
    } else {
      VerbatimShows(m, lines[..|lines| - 1]);
      assert lines == lines[..|lines| - 1] + [lines[|lines| - 1]];
    }
  }

  lemma VerbatimTells(core: Model, a: string, b: string)
    requires SinglePass(Verbatim, core, a) == SinglePass(Verbatim, core, b)
    ensures a == b
  {
    var p, q := Chop(Split(a, NL)), Chop(Split(b, NL));
    VerbatimShows(core, p);
    VerbatimShows(core, q);
    assert (core.recent + p)[|core.recent|..] == p && (core.recent + q)[|core.recent|..] == q;
    SplitIsUnlines(a);
    SplitIsUnlines(b);
  }

  /** A reader that has been shown `seen` and then finds the log `log`, not
      shorter, shows that log - whatever its lines mean - if and only if the log
      has grown. One that was replaced, also by one of the same length, is misread. */
  lemma ReplacedLogIsMisread(core: Model, files: seq<Option<Sight>>, seen: string, log: string)
    requires Growing(files, seen) && Shown(files) == |seen| <= |log|
    ensures (forall classify ::
               TailRun(classify, Tail(0, "", core), files + [Some(Whole(log))]) == SinglePass(classify, core, log))
            <==> seen <= log
  {
    assert (files + [Some(Whole(log))])[..|files|] == files && seen[..|seen|] == seen;
    forall classify
      ensures TailRun(classify, Tail(0, "", core), files + [Some(Whole(log))])
              == SinglePass(classify, core, seen + log[|seen|..])
    {
      PollingIndependent(classify, core, files, seen);
      LongerLogIsGrowth(classify, core, seen, log);
    }
    if seen <= log {
      assert seen + log[|seen|..] == log;
    } else if SinglePass(Verbatim, core, seen + log[|seen|..]) == SinglePass(Verbatim, core, log) {
      VerbatimTells(core, seen + log[|seen|..], log);
    }
  }

  /** The failing input: a log of one line replaced by another of the same length. */
  lemma SameLengthUnseen(core: Model)
    ensures var t := SinglePass(Verbatim, core, "a\n");
            TailStep(Verbatim, t, Some(Whole("b\n"))) == t != SinglePass(Verbatim, core, "b\n")
  {
    if SinglePass(Verbatim, core, "a\n") == SinglePass(Verbatim, core, "b\n") {
      VerbatimTells(core, "a\n", "b\n");
    }
  }
}
