/** `qemu_check_serial`: what the boot has reached, judged from a serial log
    that only ever grows. */
module SerialClassifier {
  import opened Text
  import opened Ansi

  datatype Verdict = NoMarker | Plymouth | Gdm | InitialSetup | Emergency {
    function Rank(): nat {
      match this
      case NoMarker => 0
      case Plymouth => 1
      case Gdm => 2
      case InitialSetup => 3
      case Emergency => 4
    }
  }

  const EMERGENCY_MODE := "emergency mode"
  const EMERGENCY_SHELL := "emergency shell"
  const INITIAL_SETUP := "Started gnome-initial-setup"
  const GDM_UNIT := "Started gdm.service"
  const GDM_TITLE := "Started GNOME Display Manager"
  const PROMPT := "Please enter passphrase for disk"

  /** `' '.join(s.split())` */
  function Collapse(s: string): string { Join(Words(s), " ") }

  /** Text-mode reading: "\r\n" and a lone "\r" both become "\n". */
  function UniversalNewlines(s: string): string
    decreases |s|
  {
    if s == "" then ""
    else if s[0] == '\r' then
      "\n" + UniversalNewlines(if |s| > 1 && s[1] == '\n' then s[2..] else s[1..])
    else [s[0]] + UniversalNewlines(s[1..])
  }

  predicate SaysEmergency(content: string) {
    Contains(content, EMERGENCY_MODE) || Contains(content, EMERGENCY_SHELL)
  }

  predicate SaysInitialSetup(flat: string) { Contains(flat, INITIAL_SETUP) }

  predicate SaysGdm(flat: string) {
    Contains(flat, GDM_UNIT) || Contains(flat, GDM_TITLE)
  }

  predicate SaysPlymouth(raw: string) { Contains(raw, PROMPT) }

  function ClassifyText(raw: string): Verdict { Judge(StripAnsi(raw), raw) }

  function Judge(content: string, raw: string): Verdict {
    var flat := Collapse(content);
    if SaysEmergency(content) then Emergency
    else if SaysInitialSetup(flat) then InitialSetup
    else if SaysGdm(flat) then Gdm
    else if SaysPlymouth(raw) then Plymouth
    else NoMarker
  }

  /** `None` is a log that cannot be opened. */
  function Classify(log: Option<string>): Verdict {
    if log.None? then NoMarker else ClassifyText(UniversalNewlines(log.value))
  }

  // ---- Reading, stripping and collapsing a growing log ----

  lemma {:induction false} NewlinesPrefix(a: string, b: string)
    ensures UniversalNewlines(a) <= UniversalNewlines(a + b)
    decreases |a|
  {
    if a == "" {
    } else {
      var n := if a[0] == '\r' && |a| > 1 && a[1] == '\n' then 2 else 1;
      NewlinesPrefix(a[n..], b);
      assert (a + b)[n..] == a[n..] + b;
    }
  }

  /** Collapsing a prefix gives a prefix of the collapse. */
  lemma {:induction false} CollapsePrefix(a: string, b: string)
    ensures Collapse(a) <= Collapse(a + b)
    decreases |a|
  {
    if a == "" {
    } else if IsSpace(a[0]) {
      assert (a + b)[1..] == a[1..] + b;
      CollapsePrefix(a[1..], b);
    } else {
      var n, m := WordEnd(a), WordEnd(a + b);
      if n == |a| {
        assert a[n..] == "" && a[..n] == a;
        assert a <= (a + b)[..m];
        CollapseWord(a);
        CollapseWord(a + b);
      } else {
        assert (a + b)[..n] == a[..n];
        WordEndIs(a + b, n);
        assert (a + b)[n..] == a[n..] + b;
        CollapsePrefix(a[n..], b);
        CollapseWord(a);
        CollapseWord(a + b);
      }
    }
  }

  /** A text that starts with a word collapses to the word and, if anything is
      left, a blank and the collapse of the rest. */
  lemma CollapseWord(s: string)
    requires s != "" && !IsSpace(s[0])
    ensures var w, rest := s[..WordEnd(s)], Collapse(s[WordEnd(s)..]);
            Collapse(s) == if rest == "" then w else w + " " + rest
  {}

  /** How a space-free tail `d` is added to a collapsed text. */
  predicate TailAdded(flat: string, d: string, whole: string) {
    whole == flat + d || (flat != "" && whole == flat + " " + d)
  }

  lemma TailAddedAfterWord(w: string, flat: string, d: string, whole: string)
    requires d != "" && TailAdded(flat, d, whole)
    ensures whole != ""
    ensures TailAdded(if flat == "" then w else w + " " + flat, d, w + " " + whole) || w == ""
  {}

  lemma CollapseOneWord(s: string)
    requires s != "" && NoSpace(s)
    ensures Collapse(s) == s
  {
    assert s[0] in s && s[..|s|] == s && s[|s|..] == "";
    WordEndIs(s, |s|);
    CollapseWord(s);
  }

  /** White space before a space-free tail survives as at most one blank. */
  lemma {:induction false} CollapseTail(a: string, d: string)
    requires d != "" && NoSpace(d)
    ensures TailAdded(Collapse(a), d, Collapse(a + d))
    decreases |a|
  {
    if a == "" {
      CollapseOneWord(d);
      assert a + d == d;
    } else if IsSpace(a[0]) {
      assert (a + d)[1..] == a[1..] + d;
      CollapseTail(a[1..], d);
    } else if WordEnd(a) == |a| {
      assert a[..|a|] == a;
      CollapseOneWord(a);
      CollapseOneWord(a + d);
    } else {
      var n := WordEnd(a);
      assert (a + d)[..n] == a[..n] && (a + d)[n..] == a[n..] + d;
      WordEndIs(a + d, n);
      CollapseTail(a[n..], d);
      CollapseWord(a);
      CollapseWord(a + d);
      TailAddedAfterWord(a[..n], Collapse(a[n..]), d, Collapse(a[n..] + d));
    }
  }

  // ---- Markers ----

  /** What all the markers have in common: they start with a letter, do not end
      in a blank and hold no escape character. */
  predicate IsMarker(m: string) {
    m != "" && IsLetter(m[0]) && m[|m| - 1] != ' ' && ESC !in m
  }

  /** A marker never reaches into a dangling escape sequence, nor the blank before it. */
  lemma MarkerBeforeDangling(text: string, blank: string, d: string, m: string)
    requires IsMarker(m) && (blank == "" || blank == " ")
    requires Dangling(d) && Contains(text + blank + d, m)
    ensures Contains(text, m)
  {
    var whole := text + blank + d;
    var i :| 0 <= i <= |whole| && OccursAt(whole, m, i);
    var cut := |text| + |blank|;
    assert forall j | i <= j < i + |m| :: whole[j] == whole[i..i + |m|][j - i] == m[j - i];
    assert forall j | cut <= j < |whole| :: whole[j] == d[j - cut];
    assert forall j | 2 <= j < |d| :: IsParam(d[j]);
    assert i < cut by { assert IsLetter(whole[i]); }
    assert i + |m| <= cut by { assert cut < |whole| ==> whole[cut] == ESC; }
    assert i + |m| <= |text| by {
      assert whole[i + |m| - 1] != ' ';
      assert blank != "" ==> whole[|text|] == ' ';
    }
    assert OccursAt(text, m, i) by { assert text[i..i + |m|] == whole[i..i + |m|]; }
  }

  /** A marker seen in the stripped log stays when the log grows. */
  lemma StrippedMarkerStays(a: string, b: string, m: string)
    requires IsMarker(m) && Contains(StripAnsi(a), m)
    ensures Contains(StripAnsi(a + b), m)
  {
    var kept, d, more := StripGrowing(a, b);
    assert kept + "" + d == kept + d;
    MarkerBeforeDangling(kept, "", d, m);
    ContainsPrefix(kept, kept + more, m);
  }

  /** A marker seen in the stripped and collapsed log stays when the log grows. */
  lemma CollapsedMarkerStays(a: string, b: string, m: string)
    requires IsMarker(m) && Contains(Collapse(StripAnsi(a)), m)
    ensures Contains(Collapse(StripAnsi(a + b)), m)
  {
    var kept, d, more := StripGrowing(a, b);
    MarkerCollapsed(kept, d, m);
    CollapsePrefix(kept, more);
    ContainsPrefix(Collapse(kept), Collapse(kept + more), m);
  }

  lemma MarkerCollapsed(kept: string, d: string, m: string)
    requires IsMarker(m) && Dangling(d) && Contains(Collapse(kept + d), m)
    ensures Contains(Collapse(kept), m)
  {
    if d == "" {
      assert kept + d == kept;
    } else {
      assert forall j | 2 <= j < |d| :: IsParam(d[j]);
      CollapseTail(kept, d);
      assert NoSpace(d);
      var blank := if Collapse(kept + d) == Collapse(kept) + d then "" else " ";
      assert Collapse(kept) + "" + d == Collapse(kept) + d;
      MarkerBeforeDangling(Collapse(kept), blank, d, m);
    }
  }

  lemma EmergencyStays(a: string, b: string)
    requires SaysEmergency(StripAnsi(a))
    ensures SaysEmergency(StripAnsi(a + b))
  {
    if Contains(StripAnsi(a), EMERGENCY_MODE) {
      StrippedMarkerStays(a, b, EMERGENCY_MODE);
    } else {
      StrippedMarkerStays(a, b, EMERGENCY_SHELL);
    }
  }

  lemma InitialSetupStays(a: string, b: string)
    requires SaysInitialSetup(Collapse(StripAnsi(a)))
    ensures SaysInitialSetup(Collapse(StripAnsi(a + b)))
  {
    CollapsedMarkerStays(a, b, INITIAL_SETUP);
  }

  lemma GdmStays(a: string, b: string)
    requires SaysGdm(Collapse(StripAnsi(a)))
    ensures SaysGdm(Collapse(StripAnsi(a + b)))
  {
    var m := if Contains(Collapse(StripAnsi(a)), GDM_UNIT)
      then GDM_UNIT else GDM_TITLE;
    CollapsedMarkerStays(a, b, m);
  }

  lemma TextVerdictNeverFalls(a: string, b: string)
    ensures ClassifyText(a).Rank() <= ClassifyText(a + b).Rank()
  {
    if SaysEmergency(StripAnsi(a)) {
      EmergencyStays(a, b);
    } else if SaysInitialSetup(Collapse(StripAnsi(a))) {
      InitialSetupStays(a, b);
    } else if SaysGdm(Collapse(StripAnsi(a))) {
      GdmStays(a, b);
    } else if SaysPlymouth(a) {
      ContainsPrefix(a, a + b, PROMPT);
    }
  }

  /** While the log only grows, the verdict never falls. */
  lemma VerdictNeverFalls(log: string, more: string)
    ensures Classify(Some(log)).Rank() <= Classify(Some(log + more)).Rank()
  {
    var a, c := UniversalNewlines(log), UniversalNewlines(log + more);
    NewlinesPrefix(log, more);
    assert c == a + c[|a|..];
    TextVerdictNeverFalls(a, c[|a|..]);
  }

  /** Colour blindness: a complete escape sequence, put where none is in
      progress, is invisible after stripping. */
  lemma EscapeIsInvisible(a: string, esc: string, b: string)
    requires Settled(a) == |a| && esc != "" && EscapeLength(esc) == |esc|
    ensures StripAnsi(a + (esc + b)) == StripAnsi(a + b)
  {
    StripAppend(a, esc + b);
    StripAppend(a, b);
    assert a[|a|..] + (esc + b) == esc + b && a[|a|..] + b == b;
    EscapeVanishes(esc, b);
  }

  lemma EscapeVanishes(esc: string, b: string)
    requires esc != "" && EscapeLength(esc) == |esc|
    ensures StripAnsi(esc + b) == StripAnsi(b)
  {
    assert !Dangling(esc);
    EscapeLengthAppend(esc, b);
    assert (esc + b)[|esc|..] == b;
  }

  lemma JudgeSameContent(content: string, u: string, v: string)
    ensures Judge(content, u) == Judge(content, v)
            || (Judge(content, u).Rank() <= 1 && Judge(content, v).Rank() <= 1)
  {}

  /** The same verdict, but for the passphrase prompt. */
  predicate SameButPrompt(u: string, v: string) {
    ClassifyText(u) == ClassifyText(v) || (ClassifyText(u).Rank() <= 1 && ClassifyText(v).Rank() <= 1)
  }

  lemma SameTextSameVerdict(u: string, v: string)
    requires StripAnsi(u) == StripAnsi(v)
    ensures SameButPrompt(u, v)
  {
    JudgeSameContent(StripAnsi(u), u, v);
  }

  /** Hence it changes no verdict, except that it may hide or reveal the
      passphrase prompt, which is looked for in the raw text. */
  lemma EscapesKeepVerdict(a: string, esc: string, b: string)
    requires Settled(a) == |a| && esc != "" && EscapeLength(esc) == |esc|
    ensures SameButPrompt(a + (esc + b), a + b)
  {
    EscapeIsInvisible(a, esc, b);
    SameTextSameVerdict(a + (esc + b), a + b);
  }

  // ---- What the verdicts say ----

  lemma {:induction false} NewlinesBefore(a: string, b: string)
    requires '\r' !in a
    ensures UniversalNewlines(a + b) == a + UniversalNewlines(b)
  {
    if a == "" {
      assert a + b == b;
    } else {
      assert a[0] in a && (a + b)[1..] == a[1..] + b;
      NewlinesBefore(a[1..], b);
      assert a == [a[0]] + a[1..];
      Associative([a[0]], a[1..], UniversalNewlines(b));
    }
  }

  /** Both ways to write a carriage return become one newline, and a text without
      them is left alone. */
  lemma NewlinesAreOne(a: string, b: string)
    requires '\r' !in a
    ensures UniversalNewlines(a) == a
    ensures UniversalNewlines(a + ("\r\n" + b)) == a + ("\n" + UniversalNewlines(b))
    ensures b == "" || b[0] != '\n' ==> UniversalNewlines(a + ("\r" + b)) == a + ("\n" + UniversalNewlines(b))
  {
    NewlinesBefore(a, "");
    NewlinesBefore(a, "\r\n" + b);
    NewlinesBefore(a, "\r" + b);
    assert a + "" == a;
    assert ("\r\n" + b)[2..] == b && ("\r" + b)[1..] == b;
  }

  /** The collapsed text consists of the words, one blank between any two. */
  lemma CollapsedWords(s: string)
    ensures if Words(s) == [] then Collapse(s) == "" else Split(Collapse(s), ' ') == Words(s)
  {
    if Words(s) != [] {
      forall w | w in Words(s) ensures ' ' !in w { assert NoSpace(w); }
      SplitJoin(Words(s), ' ');
    }
  }

  /** White space of any kind and length between two words becomes one blank. */
  lemma {:induction false} GapCollapsed(w: string, gap: string, x: string)
    requires w != "" && NoSpace(w) && x != "" && NoSpace(x)
    requires gap != "" && forall c | c in gap :: IsSpace(c)
    ensures Collapse(w + gap + x) == w + " " + x
  {
    var rest := gap[1..] + x;
    assert gap[0] in gap && gap == [gap[0]] + gap[1..];
    assert w + gap + x == w + [gap[0]] + rest;
    WordThen(w, gap[0], rest);
    BlanksThenWord(gap[1..], x);
    assert Join([x], " ") == x && [w, x][1..] == [x];
  }

  lemma {:induction false} BlanksThenWord(gap: string, x: string)
    requires x != "" && NoSpace(x) && forall c | c in gap :: IsSpace(c)
    ensures Words(gap + x) == [x]
  {
    if gap == "" {
      assert gap + x == x;
      OneWord(x);
    } else {
      assert gap[0] in gap && gap + x == [gap[0]] + (gap[1..] + x);
      BlankThen(gap[0], gap[1..] + x);
      BlanksThenWord(gap[1..], x);
    }
  }

  /** What each verdict means: the first of these that applies. Emergency markers are
      looked for in the stripped log, unit markers in the stripped and collapsed one,
      the prompt in the log as it is; without a log there is no marker. */
  lemma VerdictsMean(log: string)
    ensures var raw := UniversalNewlines(log);
            var content := StripAnsi(raw);
            var flat, v := Collapse(content), Classify(Some(log));
            var emergency := Contains(content, "emergency mode") || Contains(content, "emergency shell");
            var setup := Contains(flat, "Started gnome-initial-setup");
            var gdm := Contains(flat, "Started gdm.service") || Contains(flat, "Started GNOME Display Manager");
            var prompt := Contains(raw, "Please enter passphrase for disk");
            && (v == Emergency <==> emergency)
            && (v == InitialSetup <==> setup && !emergency)
            && (v == Gdm <==> gdm && !setup && !emergency)
            && (v == Plymouth <==> prompt && !gdm && !setup && !emergency)
    ensures Classify(None) == NoMarker
  {}
}
