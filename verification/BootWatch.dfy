/** `run_qemu`: wait for the passphrase prompt, send the passphrase once, then
    watch how the boot ends. A run is a trace of polls. */
module BootWatch {
  import opened Text
  import opened SerialClassifier

  const PROMPT_DEADLINE := 300.0
  const BOOT_DEADLINE := 300.0
  const POLL_INTERVAL := 3.0
  const BOOT_INTERVAL := 5.0
  const CONTENT_THRESHOLD := 0.5
  const STABLE_POLLS := 2
  const GNOME_THRESHOLD := 1.8
  const GNOME_STABLE_POLLS := 1

  /** Mean brightness and MD5 of a screen dump, or the pair (-1, "") on failure. */
  datatype RawDump = Dump(brightness: real, md5: string) {
    predicate Valid() { brightness >= 0.0 && md5 != "" }
  }

  type Dump = d: RawDump | d.Valid() || d == Dump(-1.0, "") witness Dump(-1.0, "")

  /** One turn of a loop: its clock reading, what the serial log says, the dump. */
  datatype Poll = Poll(clock: real, verdict: Verdict, dump: Dump)

  type Trace = nat -> Poll

  /** Sleeping `d` advances the clock by at least `d`. */
  ghost predicate Paced(t: Trace, start: real, d: real) {
    start <= t(0).clock && forall k: nat :: Advances(t, d, k)
  }

  predicate Advances(t: Trace, d: real, k: nat) { t(k).clock + d <= t(k + 1).clock }

  lemma {:induction false} PacedClock(t: Trace, start: real, d: real, k: nat)
    requires Paced(t, start, d)
    ensures start + d * (k as real) <= t(k).clock
  {
    if k == 0 {
    } else {
      PacedClock(t, start, d, k - 1);
      assert Advances(t, d, k - 1);
      assert d * (k as real) == d * ((k - 1) as real) + d;
    }
  }

  /** A loop test that finds time left is among the first `n`. */
  lemma PollsLeft(t: Trace, start: real, d: real, n: nat, k: nat)
    requires Paced(t, start, d) && d > 0.0 && t(k).clock < start + d * (n as real)
    ensures k < n
  {
    assert k >= n ==> d * (k as real) >= d * (n as real);
    PacedClock(t, start, d, k);
  }

  /** The loop tests 0..k all found time left. */
  ghost predicate LiveThrough(t: Trace, deadline: real, k: nat) {
    forall i: nat | i <= k :: t(i).clock < deadline
  }

  // ---- Phase one: the prompt ----

  /** A dump counts once some valid dump up to it was above the threshold. */
  predicate Tracked(t: Trace, k: nat) {
    t(k).dump.Valid() && HadContent(t, k + 1)
  }

  predicate HadContent(t: Trace, k: nat) {
    exists i: nat | i < k :: Bright(t, i)
  }

  predicate Bright(t: Trace, i: nat) {
    t(i).dump.Valid() && t(i).dump.brightness > CONTENT_THRESHOLD
  }

  /** Poll `k` shows the same picture as the last counted dump before it, only
      failed dumps lying in between. */
  ghost predicate Repeats(t: Trace, k: nat) {
    && Tracked(t, k)
    && exists j: nat | j < k && Tracked(t, j) :: SamePictureAcross(t, j, k)
  }

  ghost predicate SamePictureAcross(t: Trace, j: nat, k: nat) {
    && t(j).dump.md5 == t(k).dump.md5
    && forall i: nat | j < i < k :: !t(i).dump.Valid()
  }

  /** The framebuffer criterion: three counted dumps of one picture, the last
      two of them taken by adjacent polls. */
  ghost predicate FrameTrigger(t: Trace, k: nat) {
    k > 0 && Tracked(t, k) && Repeats(t, k - 1) && t(k).dump.md5 == t(k - 1).dump.md5
  }

  predicate SerialTrigger(t: Trace, k: nat) { t(k).verdict == Plymouth }

  ghost predicate PromptSeen(t: Trace, k: nat) { SerialTrigger(t, k) || FrameTrigger(t, k) }

  /** Poll `k` is the one that ends the prompt phase. */
  ghost predicate PromptFoundAt(t: Trace, start: real, k: nat) {
    && LiveThrough(t, start + PROMPT_DEADLINE, k)
    && PromptSeen(t, k)
    && forall i: nat | i < k :: !PromptSeen(t, i)
  }

  /** The hash the loop remembers after `k` polls: that of the last counted dump. */
  ghost predicate Remembered(t: Trace, k: nat, md5: string) {
    if HadContent(t, k)
    then exists j: nat | j < k && Tracked(t, j) :: LastValid(t, j, k) && md5 == t(j).dump.md5
    else md5 == ""
  }

  ghost predicate LastValid(t: Trace, j: nat, k: nat) {
    forall i: nat | j < i < k :: !t(i).dump.Valid()
  }

  /** The hash carried into the second phase. The serial path leaves without
      storing the picture of the prompt. */
  ghost predicate Recorded(t: Trace, k: nat, md5: string) {
    if SerialTrigger(t, k) then Remembered(t, k, md5) else md5 == t(k).dump.md5
  }

  /** What the loop's three variables say after `k` polls without a trigger. */
  ghost predicate Watching(t: Trace, k: nat, hadContent: bool, stableCount: nat, prevHash: string) {
    && hadContent == HadContent(t, k)
    && Remembered(t, k, prevHash)
    && stableCount < STABLE_POLLS
    && (stableCount == 1 <==> k > 0 && Repeats(t, k - 1))
  }

  lemma WatchDarkDump(t: Trace, k: nat, stableCount: nat, prevHash: string)
    requires Watching(t, k, false, stableCount, prevHash) && !Bright(t, k)
    ensures Watching(t, k + 1, false, stableCount, prevHash) && !FrameTrigger(t, k)
  {}

  lemma WatchCountedDump(t: Trace, k: nat, hadContent: bool, stableCount: nat, prevHash: string)
    requires Watching(t, k, hadContent, stableCount, prevHash)
    requires t(k).dump.Valid() && (hadContent || Bright(t, k))
    ensures var count := if t(k).dump.md5 == prevHash then stableCount + 1 else 0;
            if count < STABLE_POLLS
            then Watching(t, k + 1, true, count, t(k).dump.md5) && !FrameTrigger(t, k)
            else FrameTrigger(t, k)
  {}

  lemma NeverFound(t: Trace, start: real, n: nat)
    requires t(n).clock >= start + PROMPT_DEADLINE
    requires forall i: nat | i < n :: !PromptSeen(t, i)
    ensures forall k: nat :: !PromptFoundAt(t, start, k)
  {}

  method WaitForPrompt(t: Trace, start: real) returns (sent: nat, polls: nat, prevHash: string)
    requires Paced(t, start, POLL_INTERVAL)
    ensures polls <= 100
    ensures sent <= 1
    ensures sent == 1 ==> polls > 0 && PromptFoundAt(t, start, polls - 1)
    ensures sent == 0 ==> forall k: nat :: !PromptFoundAt(t, start, k)
    ensures sent == 1 ==> Recorded(t, polls - 1, prevHash)
  {
    var deadline := start + PROMPT_DEADLINE;
    var hadContent := false;
    var stableCount := 0;
    sent, polls, prevHash := 0, 0, "";
    while t(polls).clock < deadline
      invariant sent == 0 && polls <= 100
      invariant polls > 0 ==> LiveThrough(t, deadline, polls - 1)
      invariant forall i: nat | i < polls :: !PromptSeen(t, i)
      invariant stableCount >= 0 && Watching(t, polls, hadContent, stableCount, prevHash)
      decreases 100 - polls
    {
      var k := polls;
      polls := polls + 1;
      PollsLeft(t, start, POLL_INTERVAL, 100, k);
      assert LiveThrough(t, deadline, k);
      if t(k).verdict == Plymouth {
        sent := sent + 1;
        return;
      }
      var dump := t(k).dump;
      if dump.brightness < 0.0 {
        stableCount := 0;
        continue;
      }
      if !hadContent && !(dump.brightness > CONTENT_THRESHOLD) {
        WatchDarkDump(t, k, stableCount, prevHash);
      } else {
        WatchCountedDump(t, k, hadContent, stableCount, prevHash);
      }
      if !hadContent && dump.brightness > CONTENT_THRESHOLD {
        hadContent := true;
      }
      if hadContent {
        if dump.md5 == prevHash { stableCount := stableCount + 1; } else { stableCount := 0; }
        prevHash := dump.md5;
      }
      if hadContent && stableCount >= STABLE_POLLS {
        sent := sent + 1;
        return;
      }
    }
    NeverFound(t, start, polls);
  }

  // ---- Phase two: the boot ----

  predicate SerialDecides(t: Trace, k: nat) { t(k).verdict.Rank() >= Gdm.Rank() }

  /** Two adjacent polls show the same picture (or both fail), after some poll
      differed from the hash recorded when the passphrase was sent. */
  predicate FrameDecides(t: Trace, recorded: string, k: nat) {
    && k > 0
    && t(k).dump.md5 == t(k - 1).dump.md5
    && Changed(t, recorded, k + 1)
  }

  predicate Changed(t: Trace, recorded: string, n: nat) {
    exists i: nat | i < n :: t(i).dump.md5 != recorded
  }

  lemma ChangedGrows(t: Trace, recorded: string, k: nat)
    ensures Changed(t, recorded, k + 1) <==> Changed(t, recorded, k) || t(k).dump.md5 != recorded
  {}

  predicate Decides(t: Trace, recorded: string, k: nat) {
    SerialDecides(t, k) || FrameDecides(t, recorded, k)
  }

  function ExitCode(p: Poll): int {
    match p.verdict
    case Emergency => 2
    case InitialSetup => 0
    case Gdm => 0
    case _ => if p.dump.brightness > GNOME_THRESHOLD then 0 else 2
  }

  ghost predicate DecidedAt(t: Trace, start: real, recorded: string, k: nat) {
    && LiveThrough(t, start + BOOT_DEADLINE, k)
    && Decides(t, recorded, k)
    && forall i: nat | i < k :: !Decides(t, recorded, i)
  }

  /** The exit code is that of the first decisive poll, and 2 without one. */
  ghost predicate BootEnds(t: Trace, start: real, recorded: string, code: int) {
    if exists k: nat :: DecidedAt(t, start, recorded, k)
    then exists k: nat | DecidedAt(t, start, recorded, k) :: code == ExitCode(t(k))
    else code == 2
  }

  lemma EndsAt(t: Trace, start: real, recorded: string, k: nat)
    requires LiveThrough(t, start + BOOT_DEADLINE, k) && Decides(t, recorded, k)
    requires forall i: nat | i < k :: !Decides(t, recorded, i)
    ensures BootEnds(t, start, recorded, ExitCode(t(k)))
  {}

  lemma EndsUndecided(t: Trace, start: real, recorded: string, n: nat)
    requires t(n).clock >= start + BOOT_DEADLINE
    requires forall i: nat | i < n :: !Decides(t, recorded, i)
    ensures BootEnds(t, start, recorded, 2)
  {}

  method WatchBoot(t: Trace, start: real, recorded: string) returns (code: int, polls: nat)
    requires Paced(t, start, BOOT_INTERVAL)
    ensures polls <= 60
    ensures BootEnds(t, start, recorded, code)
  {
    var deadline := start + BOOT_DEADLINE;
    var screenChanged, gnomeStableCount, prevHash := false, 0, recorded;
    polls := 0;
    while t(polls).clock < deadline
      invariant polls <= 60
      invariant polls > 0 ==> LiveThrough(t, deadline, polls - 1)
      invariant forall i: nat | i < polls :: !Decides(t, recorded, i)
      invariant screenChanged <==> Changed(t, recorded, polls)
      invariant gnomeStableCount >= 0
      invariant prevHash == if polls == 0 then recorded else t(polls - 1).dump.md5
      decreases 60 - polls
    {
      var k := polls;
      polls := polls + 1;
      PollsLeft(t, start, BOOT_INTERVAL, 60, k);
      ChangedGrows(t, recorded, k);
      assert LiveThrough(t, deadline, k);
      var result := t(k).verdict;
      if result == Emergency {
        code := 2;
        EndsAt(t, start, recorded, k);
        return;
      }
      var dump := t(k).dump;
      if dump.md5 != recorded && !screenChanged {
        screenChanged := true;
      }
      if result == InitialSetup || result == Gdm {
        code := 0;
        EndsAt(t, start, recorded, k);
        return;
      }
      if dump.md5 == prevHash {
        gnomeStableCount := gnomeStableCount + 1;
      } else {
        gnomeStableCount := 0;
      }
      if screenChanged && gnomeStableCount >= GNOME_STABLE_POLLS {
        code := if dump.brightness > GNOME_THRESHOLD then 0 else 2;
        EndsAt(t, start, recorded, k);
        return;
      }
      prevHash := dump.md5;
    }
    code := 2;
    EndsUndecided(t, start, recorded, polls);
  }

  /** ... so the trace and the recorded hash alone fix the exit code. */
  lemma BootEndsOneWay(t: Trace, start: real, recorded: string, code: int, other: int)
    requires BootEnds(t, start, recorded, code) && BootEnds(t, start, recorded, other)
    ensures code == other
  {
    if k: nat :| DecidedAt(t, start, recorded, k) {
      assert forall i: nat | DecidedAt(t, start, recorded, i) :: i == k;
    }
  }

  // ---- The whole run ----

  /** The exit code and how often the passphrase was sent. The clock of the
      second phase starts after the first. */
  method RunQemu(prompt: Trace, start: real, boot: Trace, bootStart: real)
    returns (code: int, sent: nat)
    requires Paced(prompt, start, POLL_INTERVAL) && Paced(boot, bootStart, BOOT_INTERVAL)
    ensures code == 1 <==> sent == 0
    ensures sent == 1 <==> exists k: nat :: PromptFoundAt(prompt, start, k)
    ensures sent <= 1 && code in {0, 1, 2}
    ensures sent == 1 ==>
              exists k: nat, recorded | PromptFoundAt(prompt, start, k) ::
                Recorded(prompt, k, recorded) && BootEnds(boot, bootStart, recorded, code)
  {
    var polls, prevHash;
    sent, polls, prevHash := WaitForPrompt(prompt, start);
    if sent == 0 {
      return 1, 0;
    }
    code, polls := WatchBoot(boot, bootStart, prevHash);
  }

  // ---- When the loops end, and how ----

  /** The first poll within 300 seconds that reports the prompt on the serial line,
      with no framebuffer trigger before it, ends the prompt phase. */
  lemma SerialPromptFound(t: Trace, start: real, k: nat)
    requires forall i: nat | i <= k :: t(i).clock < start + 300.0
    requires t(k).verdict == Plymouth && forall i: nat | i < k :: t(i).verdict != Plymouth && !FrameTrigger(t, i)
    ensures PromptFoundAt(t, start, k)
  {}

  /** Without a trigger in that time there is none. */
  lemma PromptTooLate(t: Trace, start: real, k: nat)
    requires PromptFoundAt(t, start, k)
    ensures forall i: nat | i <= k :: t(i).clock < start + 300.0
    ensures t(k).verdict == Plymouth || FrameTrigger(t, k)
  {}

  /** How a boot ends at the poll that decides it: an emergency fails it, a display
      manager confirms it, and a picture that has come to rest must be bright enough. */
  lemma DecisionMeans(t: Trace, start: real, recorded: string, k: nat, code: int)
    requires DecidedAt(t, start, recorded, k) && BootEnds(t, start, recorded, code)
    ensures t(k).verdict == Emergency ==> code == 2
    ensures t(k).verdict in {Gdm, InitialSetup} ==> code == 0
    ensures t(k).verdict in {NoMarker, Plymouth} ==> code == if t(k).dump.brightness > 1.8 then 0 else 2
  {
    EndsAt(t, start, recorded, k);
    BootEndsOneWay(t, start, recorded, code, ExitCode(t(k)));
  }

  /** ... and 2 when no poll decides in time. */
  lemma NoDecisionMeans(t: Trace, start: real, recorded: string, code: int)
    requires BootEnds(t, start, recorded, code)
    requires forall k: nat | t(k).clock < start + 300.0 && forall i: nat | i < k :: t(i).clock < start + 300.0
               :: !Decides(t, recorded, k)
    ensures code == 2
  {
    assert forall k: nat :: !DecidedAt(t, start, recorded, k);
  }

  lemma ConfirmedBoot(t: Trace, start: real, recorded: string, k: nat, code: int)
    requires BootEnds(t, start, recorded, code)
    requires forall i: nat | i <= k :: t(i).clock < start + 300.0
    requires t(k).verdict in {Gdm, InitialSetup}
    requires forall i: nat | i < k :: NoUnitMarker(t(i).verdict) && !FrameDecides(t, recorded, i)
    ensures DecidedAt(t, start, recorded, k) && code == 0
  {
    assert Decides(t, recorded, k);
    DecisionMeans(t, start, recorded, k, code);
  }

  predicate NoUnitMarker(v: Verdict) { v == NoMarker || v == Plymouth }

  lemma BelowMarkers(t: Trace, log: nat -> string, k: nat)
    requires ReadsGrowingLog(t, log) && (k == 0 || NoUnitMarker(t(k - 1).verdict))
    ensures forall i: nat | i < k :: NoUnitMarker(t(i).verdict)
  {
    forall i: nat | i < k ensures NoUnitMarker(t(i).verdict) { VerdictsGrow(t, log, i, k - 1); }
  }

  /** A growing serial log in which a display-manager marker appears in time, with no
      picture come to rest before it: the boot has succeeded, whatever the picture. */
  lemma MarkerConfirmsBoot(t: Trace, log: nat -> string, start: real, recorded: string, k: nat, code: int)
    requires ReadsGrowingLog(t, log) && BootEnds(t, start, recorded, code)
    requires forall i: nat | i <= k :: t(i).clock < start + 300.0
    requires t(k).verdict in {Gdm, InitialSetup} && (k == 0 || NoUnitMarker(t(k - 1).verdict))
    requires forall i: nat | i < k :: !FrameDecides(t, recorded, i)
    ensures DecidedAt(t, start, recorded, k) && code == 0
  {
    BelowMarkers(t, log, k);
    ConfirmedBoot(t, start, recorded, k, code);
  }

  /** Two failed dumps in a row look like a picture come to rest: they decide the boot, as
      failed, exactly when a picture was recorded or one has been seen since. */
  lemma FailedDumpsDecide(t: Trace, start: real, recorded: string, k: nat, code: int)
    requires k > 0 && !t(k).dump.Valid() && !t(k - 1).dump.Valid() && t(k).verdict in {NoMarker, Plymouth}
    requires forall i: nat | i <= k :: t(i).clock < start + 300.0
    requires (forall i: nat | i < k :: !Decides(t, recorded, i)) && BootEnds(t, start, recorded, code)
    ensures DecidedAt(t, start, recorded, k) <==> recorded != "" || exists i: nat | i < k :: t(i).dump.md5 != ""
    ensures DecidedAt(t, start, recorded, k) ==> code == 2
  {
    assert t(k).dump == Dump(-1.0, "") && t(k - 1).dump == Dump(-1.0, "");
    assert Changed(t, recorded, k + 1) <==> recorded != "" || exists i: nat | i < k :: t(i).dump.md5 != "" by {
      if recorded != "" { assert t(k).dump.md5 != recorded; }
    }
    if DecidedAt(t, start, recorded, k) { DecisionMeans(t, start, recorded, k, code); }
  }

  // ---- What a trigger and a verdict mean ----

  /** Content is a picture brighter than 0.5. */
  lemma ContentMeans(t: Trace, n: nat)
    ensures HadContent(t, n) <==> exists i: nat | i < n :: t(i).dump.md5 != "" && t(i).dump.brightness > 0.5
  {
    if HadContent(t, n) {
      var i: nat :| i < n && Bright(t, i);
      assert t(i).dump.md5 != "" && t(i).dump.brightness > 0.5;
    }
    if i: nat :| i < n && t(i).dump.md5 != "" && t(i).dump.brightness > 0.5 {
      assert Bright(t, i);
    }
  }

  /** The two criteria of a trigger as one statement about three polls. */
  lemma FrameTriggerAcross(t: Trace, k: nat)
    ensures FrameTrigger(t, k) <==>
              exists j: nat | j + 1 < k ::
                && SamePictureAcross(t, j, k - 1)
                && t(j).dump.Valid() && t(k - 1).dump.Valid() && t(k).dump.Valid()
                && t(k - 1).dump.md5 == t(k).dump.md5
                && HadContent(t, j + 1)
  {}

  /** A framebuffer trigger rests on three valid dumps of one picture, the last
      two by adjacent polls, after some dump above the content threshold. */
  lemma FrameTriggerNeedsThreeDumps(t: Trace, k: nat)
    ensures FrameTrigger(t, k) <==> exists j: nat | j + 1 < k :: ThreeDumps(t, j, k) && HadContent(t, j + 1)
  {
    FrameTriggerAcross(t, k);
    forall j: nat | j + 1 < k
      ensures ThreeDumps(t, j, k) <==>
                && SamePictureAcross(t, j, k - 1)
                && t(j).dump.Valid() && t(k - 1).dump.Valid() && t(k).dump.Valid()
                && t(k - 1).dump.md5 == t(k).dump.md5
    {}
  }

  /** Polls `j`, `k - 1` and `k` show one picture, and between the first two of them
      all dumps failed. */
  predicate ThreeDumps(t: Trace, j: nat, k: nat)
    requires j + 1 < k
  {
    && t(j).dump.md5 == t(k - 1).dump.md5 == t(k).dump.md5 != ""
    && forall i: nat | j < i < k - 1 :: t(i).dump.md5 == ""
  }

  /** The verdicts are read from a serial log that only grows from poll to poll. */
  ghost predicate ReadsGrowingLog(t: Trace, log: nat -> string) {
    && (forall k: nat :: Reads(t, log, k))
    && (forall i: nat, j: nat | i <= j :: Grown(log, i, j))
  }

  predicate Reads(t: Trace, log: nat -> string, k: nat) { t(k).verdict == Classify(Some(log(k))) }

  predicate Grown(log: nat -> string, i: nat, j: nat) { log(i) <= log(j) }

  lemma VerdictsGrow(t: Trace, log: nat -> string, i: nat, j: nat)
    requires ReadsGrowingLog(t, log) && i <= j
    ensures t(i).verdict.Rank() <= t(j).verdict.Rank()
  {
    var a, c := log(i), log(j);
    assert Reads(t, log, i) && Reads(t, log, j) && Grown(log, i, j);
    assert c == a + c[|a|..];
    VerdictNeverFalls(a, c[|a|..]);
  }

  /** Once the log shows more than the prompt, the serial path can no longer
      fire: only the framebuffer can still send the passphrase. */
  lemma SerialPromptWindowCloses(t: Trace, log: nat -> string, i: nat, j: nat)
    requires ReadsGrowingLog(t, log) && i <= j && t(i).verdict.Rank() > Plymouth.Rank()
    ensures !SerialTrigger(t, j)
    ensures PromptSeen(t, j) <==> FrameTrigger(t, j)
  {
    VerdictsGrow(t, log, i, j);
  }

  /** Exit code 0 means that no poll up to the decision saw an emergency
      marker, and none before it saw a display-manager marker either. */
  lemma SuccessSawNoEmergency(t: Trace, start: real, recorded: string, k: nat, i: nat)
    requires DecidedAt(t, start, recorded, k) && ExitCode(t(k)) == 0 && i <= k
    ensures t(i).verdict != Emergency
    ensures i < k ==> t(i).verdict.Rank() <= Plymouth.Rank()
    ensures t(k).verdict.Rank() <= Plymouth.Rank() ==>
              k > 0 && t(k).dump.Valid() && t(k).dump.md5 == t(k - 1).dump.md5
              && t(k).dump.brightness > 1.8
  {
    assert i < k ==> !Decides(t, recorded, i);
  }

  /** An emergency marker in a growing log is never missed: the run that has
      time for that poll and saw no earlier decision ends with 2. */
  lemma EmergencyDecides(t: Trace, log: nat -> string, start: real, recorded: string, k: nat, i: nat)
    requires ReadsGrowingLog(t, log) && DecidedAt(t, start, recorded, k) && i <= k && t(i).verdict == Emergency
    ensures i == k && ExitCode(t(k)) == 2
    ensures forall j: nat | k <= j :: t(j).verdict == Emergency
  {
    assert Decides(t, recorded, i);
    forall j: nat | k <= j ensures t(j).verdict == Emergency { VerdictsGrow(t, log, i, j); }
  }

  // ---- A boot that never leaves the prompt ----

  /** The last dump counted before poll `k` shows the picture `p`. */
  ghost predicate LastCounted(t: Trace, k: nat, p: string) {
    exists j: nat | j < k && Tracked(t, j) :: LastValid(t, j, k) && t(j).dump.md5 == p
  }

  /** Ending the prompt phase at poll `k` records the picture `p`. */
  ghost predicate Records(t: Trace, k: nat, p: string) {
    if SerialTrigger(t, k) then LastCounted(t, k, p) else t(k).dump.md5 == p
  }

  lemma RememberedPicture(t: Trace, k: nat, md5: string, p: string)
    requires Remembered(t, k, md5) && p != ""
    ensures md5 == p <==> LastCounted(t, k, p)
  {
    if HadContent(t, k) {
      var j: nat :| j < k && Tracked(t, j) && LastValid(t, j, k) && md5 == t(j).dump.md5;
      assert forall i: nat | i < k && Tracked(t, i) && LastValid(t, i, k) :: i == j;
    } else {
      assert forall j: nat | j < k :: !Tracked(t, j);
    }
  }

  /** The recorded hash is the prompt's unless the serial line gave the prompt
      away: the last picture counted before that is recorded instead, if any. */
  lemma RecordedPicture(t: Trace, k: nat, recorded: string)
    requires Recorded(t, k, recorded) && t(k).dump.Valid()
    ensures recorded != t(k).dump.md5 <==> SerialTrigger(t, k) && !LastCounted(t, k, t(k).dump.md5)
  {
    if SerialTrigger(t, k) { RememberedPicture(t, k, recorded, t(k).dump.md5); }
  }

  /** While the screen never changes, the framebuffer decides the boot exactly
      when another picture was recorded. */
  lemma UnchangedScreenDecides(b: Trace, recorded: string, p: string, k: nat)
    requires forall i: nat :: b(i).dump.md5 == p
    ensures FrameDecides(b, recorded, k) <==> k > 0 && recorded != p
  {
    assert Changed(b, recorded, k + 1) <==> recorded != p by {
      if recorded != p { assert b(0).dump.md5 != recorded; }
    }
  }

  /** With two pictures that differ, every poll but the first sees a change from both,
      unless the first two polls show one of them. */
  lemma ChangedFromBoth(b: Trace, r: string, p: string, k: nat)
    requires r != p && !(b(0).dump.md5 == b(1).dump.md5 && b(0).dump.md5 in {r, p})
    ensures Decides(b, r, k) <==> Decides(b, p, k)
  {
    if k > 0 && b(0).dump.md5 != b(1).dump.md5 {
      assert b(0).dump.md5 != r || b(1).dump.md5 != r;
      assert b(0).dump.md5 != p || b(1).dump.md5 != p;
      assert Changed(b, r, k + 1) && Changed(b, p, k + 1);
    }
  }

  /** The first two polls show one of the two pictures and no marker, in time. */
  ghost predicate OpensWith(b: Trace, start: real, r: string, p: string) {
    && LiveThrough(b, start + BOOT_DEADLINE, 1)
    && b(0).dump.md5 == b(1).dump.md5 && b(0).dump.md5 in {r, p}
    && !SerialDecides(b, 0) && !SerialDecides(b, 1)
  }

  lemma OpeningDecides(b: Trace, start: real, r: string, p: string)
    requires r != p && OpensWith(b, start, r, p)
    ensures DecidedAt(b, start, r, 1) <==> b(0).dump.md5 != r
    ensures DecidedAt(b, start, p, 1) <==> b(0).dump.md5 != p
  {
    assert !Decides(b, r, 0) && !Decides(b, p, 0);
    assert Changed(b, r, 2) <==> b(0).dump.md5 != r;
    assert Changed(b, p, 2) <==> b(0).dump.md5 != p;
  }

  lemma OpeningAside(b: Trace, start: real, r: string, p: string, k: nat)
    requires r != p && !OpensWith(b, start, r, p)
    ensures DecidedAt(b, start, r, k) <==> DecidedAt(b, start, p, k)
  {
    if b(0).dump.md5 == b(1).dump.md5 && b(0).dump.md5 in {r, p} {
      assert LiveThrough(b, start + BOOT_DEADLINE, k) && k > 0 ==> LiveThrough(b, start + BOOT_DEADLINE, 1);
      assert Decides(b, r, 0) == SerialDecides(b, 0) == Decides(b, p, 0);
      assert SerialDecides(b, 1) ==> Decides(b, r, 1) && Decides(b, p, 1);
    } else {
      forall i: nat ensures Decides(b, r, i) <==> Decides(b, p, i) { ChangedFromBoth(b, r, p, i); }
    }
  }

  /** Which of two pictures was recorded matters to a boot - another poll decides
      it - exactly when its first two polls show one of them and no marker. So a
      prompt that was not recorded is harmless once the screen has moved on. */
  lemma RecordingMatters(b: Trace, start: real, r: string, p: string)
    requires r != p
    ensures (exists k: nat :: DecidedAt(b, start, r, k) != DecidedAt(b, start, p, k)) <==> OpensWith(b, start, r, p)
  {
    if OpensWith(b, start, r, p) {
      OpeningDecides(b, start, r, p);
      assert DecidedAt(b, start, r, 1) != DecidedAt(b, start, p, 1);
    } else {
      forall k: nat ensures DecidedAt(b, start, r, k) == DecidedAt(b, start, p, k) {
        OpeningAside(b, start, r, p, k);
      }
    }
  }

  /** A boot phase that shows the picture `p` and no marker for at least two polls.
      With `p` recorded it runs into its deadline and exits with 2. Without, its
      second poll decides, and a bright prompt passes for a finished boot. */
  lemma StuckAtPrompt(t: Trace, start: real, k: nat, recorded: string, p: string,
                      b: Trace, bootStart: real, code: int)
    requires PromptFoundAt(t, start, k) && Recorded(t, k, recorded)
    requires p != "" && forall i: nat :: b(i).dump.md5 == p && !SerialDecides(b, i)
    requires LiveThrough(b, bootStart + BOOT_DEADLINE, 1) && BootEnds(b, bootStart, recorded, code)
    ensures if Records(t, k, p) then forall n: nat :: !DecidedAt(b, bootStart, recorded, n)
            else DecidedAt(b, bootStart, recorded, 1)
    ensures code == 0 <==> !Records(t, k, p) && b(1).dump.brightness > 1.8
    ensures code != 0 ==> code == 2
  {
    if SerialTrigger(t, k) { RememberedPicture(t, k, recorded, p); }
    assert recorded == p <==> Records(t, k, p);
    forall n: nat ensures Decides(b, recorded, n) <==> n > 0 && recorded != p {
      UnchangedScreenDecides(b, recorded, p, n);
    }
    if recorded != p {
      EndsAt(b, bootStart, recorded, 1);
      BootEndsOneWay(b, bootStart, recorded, code, ExitCode(b(1)));
      assert b(1).verdict.Rank() < Gdm.Rank();
    }
  }

  /** A run for the lemma below: the firmware's picture, then a serial prompt. */
  function FirmwareThenPrompt(i: nat): Poll {
    if i == 0 then Poll(0.0, NoMarker, Dump(2.0, "firmware"))
    else Poll(3.0 * (i as real), Plymouth, Dump(1.0, "prompt"))
  }

  /** ... after which the screen stays as it is, on a serial line without markers. */
  function PromptForEver(brightness: real): Trace
    requires brightness >= 0.0
  {
    (i: nat) => Poll(5.0 * (i as real), Plymouth, Dump(brightness, "prompt"))
  }

  lemma ExamplesPaced(brightness: real)
    requires brightness >= 0.0
    ensures Paced(FirmwareThenPrompt, 0.0, POLL_INTERVAL) && Paced(PromptForEver(brightness), 0.0, BOOT_INTERVAL)
  {
    forall k: nat ensures Advances(FirmwareThenPrompt, POLL_INTERVAL, k) {
      assert FirmwareThenPrompt(k).clock == 3.0 * (k as real);
    }
  }

  lemma FirmwareRecorded()
    ensures PromptFoundAt(FirmwareThenPrompt, 0.0, 1) && Recorded(FirmwareThenPrompt, 1, "firmware")
  {
    var t: Trace := FirmwareThenPrompt;
    assert Bright(t, 0) && Tracked(t, 0) && LastValid(t, 0, 1);
    assert HadContent(t, 1);
    assert !FrameTrigger(t, 0);
  }

  /** The failing input: the firmware's picture is recorded, so that the unchanged
      prompt decides the boot at its second poll, as a success if it is bright. */
  lemma FirmwarePictureMisleads(brightness: real)
    requires brightness >= 0.0
    ensures Paced(FirmwareThenPrompt, 0.0, POLL_INTERVAL) && Paced(PromptForEver(brightness), 0.0, BOOT_INTERVAL)
    ensures PromptFoundAt(FirmwareThenPrompt, 0.0, 1) && Recorded(FirmwareThenPrompt, 1, "firmware")
    ensures var b := PromptForEver(brightness);
            && DecidedAt(b, 0.0, "firmware", 1)
            && BootEnds(b, 0.0, "firmware", if brightness > 1.8 then 0 else 2)
  {
    ExamplesPaced(brightness);
    FirmwareRecorded();
    var b := PromptForEver(brightness);
    forall n: nat ensures FrameDecides(b, "firmware", n) <==> n > 0 {
      UnchangedScreenDecides(b, "firmware", "prompt", n);
    }
    EndsAt(b, 0.0, "firmware", 1);
  }
}
