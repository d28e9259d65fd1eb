/** The terminal-escape pattern ESC '[' [0-9;]* [A-Za-z] that the file-map
    generator and the serial-log classifier both delete from their input. */
module Ansi {
  import opened Text

  const ESC: char := '\U{001B}'

  predicate IsParam(c: char) { '0' <= c <= '9' || c == ';' }

  predicate IsLetter(c: char) { 'A' <= c <= 'Z' || 'a' <= c <= 'z' }

  /** Where the parameter characters starting at `i` end. */
  function ParamEnd(s: string, i: nat): (j: nat)
    requires i <= |s|
    ensures i <= j <= |s|
    ensures forall k | i <= k < j :: IsParam(s[k])
    ensures j < |s| ==> !IsParam(s[j])
    decreases |s| - i
  {
    if i < |s| && IsParam(s[i]) then ParamEnd(s, i + 1) else i
  }

  /** The length of the escape sequence `s` starts with, 0 when there is none. */
  function EscapeLength(s: string): (n: nat)
    ensures n <= |s|
  {
    if |s| >= 2 && s[0] == ESC && s[1] == '[' then
      var j := ParamEnd(s, 2);
      if j < |s| && IsLetter(s[j]) then j + 1 else 0
    else 0
  }

  /** What the pattern matches. */
  predicate IsEscape(s: string) {
    && |s| >= 3 && s[0] == '\U{001B}' && s[1] == '['
    && (forall k | 2 <= k < |s| - 1 :: '0' <= s[k] <= '9' || s[k] == ';')
    && ('A' <= s[|s| - 1] <= 'Z' || 'a' <= s[|s| - 1] <= 'z')
  }

  lemma {:induction false} ParamEndIs(s: string, i: nat, j: nat)
    requires i <= j <= |s| && (forall k | i <= k < j :: IsParam(s[k])) && (j < |s| ==> !IsParam(s[j]))
    ensures ParamEnd(s, i) == j
    decreases j - i
  {
    if i < j { ParamEndIs(s, i + 1, j); }
  }

  /** A text starts with a match of length `n` exactly when its first `n` characters
      are an escape sequence. */
  lemma EscapeIsMatch(s: string, n: nat)
    requires 0 < n <= |s|
    ensures EscapeLength(s) == n <==> IsEscape(s[..n])
  {
    if IsEscape(s[..n]) {
      forall k | 2 <= k < n - 1 ensures IsParam(s[k]) { assert s[..n][k] == s[k]; }
      ParamEndIs(s, 2, n - 1);
    }
  }

  /** Deletes every match of the pattern, scanning from the left. */
  function StripAnsi(s: string): string
    decreases |s|
  {
    if s == "" then ""
    else if EscapeLength(s) > 0 then StripAnsi(s[EscapeLength(s)..])
    else [s[0]] + StripAnsi(s[1..])
  }

  /** A sequence that has started but whose final letter has not arrived. */
  predicate Dangling(d: string) {
    d == "" || (d[0] == ESC && (|d| > 1 ==> d[1] == '[' && ParamEnd(d, 2) == |d|))
  }

  /** The length of the part of `s` whose stripping no later text can change. */
  function Settled(s: string): (k: nat)
    ensures k <= |s|
    ensures Dangling(s[k..])
    decreases |s|
  {
    if Dangling(s) then 0
    else if EscapeLength(s) > 0 then
      var n := EscapeLength(s);
      assert s[n..][Settled(s[n..])..] == s[n + Settled(s[n..])..];
      n + Settled(s[n..])
    else
      assert s[1..][Settled(s[1..])..] == s[1 + Settled(s[1..])..];
      1 + Settled(s[1..])
  }

  lemma {:induction false} NoEscapeKept(s: string)
    requires ESC !in s
    ensures StripAnsi(s) == s
  {
    if s == "" {
    } else {
      NoEscapeKept(s[1..]);
      assert s == [s[0]] + s[1..];
    }
  }

  lemma DanglingKept(d: string)
    requires Dangling(d)
    ensures StripAnsi(d) == d
  {
    if d != "" {
      forall c | c in d[1..] ensures c != ESC {
        var k :| 1 <= k < |d| && d[k] == c;
      }
      NoEscapeKept(d[1..]);
      assert d == [d[0]] + d[1..];
    }
  }

  lemma {:induction false} ParamEndTake(s: string, i: nat, k: nat)
    requires i <= k <= |s|
    ensures ParamEnd(s[..k], i) == if ParamEnd(s, i) <= k then ParamEnd(s, i) else k
    decreases k - i
  {}

  /** Cutting a text off keeps a match that is complete before the cut, and makes none. */
  lemma EscapeLengthTake(s: string, k: nat)
    requires k <= |s|
    ensures EscapeLength(s[..k]) == if EscapeLength(s) <= k then EscapeLength(s) else 0
  {}

  /** Appending text does not change whether, and how far, a sequence that is
      not dangling matches. */
  lemma EscapeLengthAppend(s: string, t: string)
    requires !Dangling(s)
    ensures EscapeLength(s + t) == EscapeLength(s)
  {
    assert (s + t)[..|s|] == s;
    EscapeLengthTake(s + t, |s|);
    if |s| >= 2 { ParamEndTake(s + t, 2, |s|); }
  }

  /** The scanner's step: how much is consumed and what is kept of it. */
  function StepLength(s: string): (n: nat)
    requires s != ""
    ensures 0 < n <= |s|
  {
    if EscapeLength(s) > 0 then EscapeLength(s) else 1
  }

  function StepKept(s: string): string
    requires s != ""
  {
    if EscapeLength(s) > 0 then "" else [s[0]]
  }

  lemma StripStep(s: string)
    requires s != ""
    ensures StripAnsi(s) == StepKept(s) + StripAnsi(s[StepLength(s)..])
  {}

  lemma StripStepAppend(s: string, t: string)
    requires !Dangling(s)
    ensures StripAnsi(s + t) == StepKept(s) + StripAnsi(s[StepLength(s)..] + t)
  {
    EscapeLengthAppend(s, t);
    StripStep(s + t);
    assert (s + t)[StepLength(s)..] == s[StepLength(s)..] + t;
  }

  lemma SettledStep(s: string)
    requires !Dangling(s)
    ensures Settled(s) == StepLength(s) + Settled(s[StepLength(s)..])
  {}

  lemma StepOfPrefix(s: string, k: nat)
    requires s != "" && StepLength(s) <= k <= |s|
    ensures StepLength(s[..k]) == StepLength(s) && StepKept(s[..k]) == StepKept(s)
  {}

  lemma StripStepPrefix(s: string, k: nat)
    requires s != "" && StepLength(s) <= k <= |s|
    ensures StripAnsi(s[..k]) == StepKept(s) + StripAnsi(s[StepLength(s)..][..k - StepLength(s)])
  {
    StepOfPrefix(s, k);
    StripStep(s[..k]);
    assert s[..k][StepLength(s)..] == s[StepLength(s)..][..k - StepLength(s)];
  }

  lemma StripStepSettled(s: string)
    requires !Dangling(s)
    ensures var u := s[StepLength(s)..];
            && s[Settled(s)..] == u[Settled(u)..]
            && StripAnsi(s[..Settled(s)]) == StepKept(s) + StripAnsi(u[..Settled(u)])
  {
    SettledStep(s);
    StripStepPrefix(s, Settled(s));
  }

  /** What `StripAppend` claims of `s` and `t`. */
  predicate SplitsAtSettled(s: string, t: string) {
    StripAnsi(s + t) == StripAnsi(s[..Settled(s)]) + StripAnsi(s[Settled(s)..] + t)
  }

  lemma SplitsAtSettledStep(s: string, t: string)
    requires !Dangling(s) && SplitsAtSettled(s[StepLength(s)..], t)
    ensures SplitsAtSettled(s, t)
  {
    var u := s[StepLength(s)..];
    StripStepAppend(s, t);
    StripStepSettled(s);
    Regroup(StripAnsi(s + t), StepKept(s), StripAnsi(u + t),
            StripAnsi(u[..Settled(u)]), StripAnsi(u[Settled(u)..] + t));
  }

  lemma Regroup(whole: string, kept: string, rest: string, left: string, right: string)
    requires whole == kept + rest && rest == left + right
    ensures whole == kept + left + right
  {}

  /** Stripping splits at the settled prefix: what comes after it, including
      any later text, is stripped on its own. */
  lemma {:induction false} StripAppend(s: string, t: string)
    ensures SplitsAtSettled(s, t)
    decreases |s|
  {
    if Dangling(s) {
    } else {
      StripAppend(s[StepLength(s)..], t);
      SplitsAtSettledStep(s, t);
    }
  }

  /** A growing text: what is stripped so far is some settled output `kept` and
      a dangling sequence, and more text can only extend `kept`. */
  lemma StripGrowing(a: string, b: string) returns (kept: string, d: string, more: string)
    ensures Dangling(d)
    ensures StripAnsi(a) == kept + d
    ensures StripAnsi(a + b) == kept + more
  {
    kept, d := StripAnsi(a[..Settled(a)]), a[Settled(a)..];
    more := StripAnsi(d + b);
    StripAppend(a, "");
    StripAppend(a, b);
    DanglingKept(d);
    assert a + "" == a && d + "" == d;
  }
}
