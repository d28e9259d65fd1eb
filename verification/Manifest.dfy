/** The component manifest: one line `path TAB component TAB interval` per claim
    that an element makes on a file. */
module Manifest {
  import opened Text

  datatype Claim = Claim(path: string, component: string, interval: string)

  const DEFAULT_INTERVAL := "weekly"

  function PrintClaim(c: Claim): string {
    c.path + [TAB] + c.component + [TAB] + c.interval
  }

  function PrintAll(cs: seq<Claim>): (r: seq<string>)
    ensures |r| == |cs| && forall i | 0 <= i < |cs| :: r[i] == PrintClaim(cs[i])
  {
    seq(|cs|, i requires 0 <= i < |cs| => PrintClaim(cs[i]))
  }

  /** How both C readers take a line apart: blank lines, comments and lines
      without a tab are skipped, and a missing second tab means "weekly". */
  function ParseLine(line: string): Option<Claim> {
    if line == "" || line[0] == '#' then None else
      var t1 := IndexOf(line, TAB);
      if t1 == |line| then None else
        var rest := line[t1 + 1..];
        var t2 := IndexOf(rest, TAB);
        Some(Claim(line[..t1], rest[..t2],
                   if t2 == |rest| then DEFAULT_INTERVAL else rest[t2 + 1..]))
  }

  /** A field ends at its tab. */
  lemma FieldBeforeTab(field: string, rest: string)
    requires TAB !in field
    ensures var s := field + [TAB] + rest;
            IndexOf(s, TAB) == |field| && s[..|field|] == field && s[|field| + 1..] == rest
  {
    var s := field + [TAB] + rest;
    assert s[..|field|] == field;
    IndexOfIs(s, TAB, |field|);
  }

  /** Which lines make no claim ... */
  lemma SkippedLines(line: string)
    ensures ParseLine(line).None? <==> line == "" || line[0] == '#' || '\t' !in line
  {}

  /** ... what a line says: path, component, and the rest as the interval ... */
  lemma LineReads(path: string, component: string, interval: string)
    requires path != "" && path[0] != '#' && '\t' !in path && '\t' !in component
    ensures ParseLine(path + "\t" + component + "\t" + interval) == Some(Claim(path, component, interval))
  {
    var rest := component + [TAB] + interval;
    assert path + "\t" + component + "\t" + interval == path + [TAB] + rest;
    FieldBeforeTab(path, rest);
    FieldBeforeTab(component, interval);
  }

  /** ... and what it says when only one tab was written. */
  lemma IntervalByDefault(path: string, component: string)
    requires path != "" && path[0] != '#' && '\t' !in path && '\t' !in component
    ensures ParseLine(path + "\t" + component) == Some(Claim(path, component, "weekly"))
  {
    assert path + "\t" + component == path + [TAB] + component && component[..|component|] == component;
    FieldBeforeTab(path, component);
    IndexOfIs(component, TAB, |component|);
  }

  predicate Clean(s: string) { NL !in s && NUL !in s }

  /** What the format can carry. */
  predicate Printable(c: Claim) {
    && c.path != "" && c.path[0] != '#'
    && TAB !in c.path && TAB !in c.component
    && Clean(c.path) && Clean(c.component) && Clean(c.interval)
  }

  lemma ParsePrinted(c: Claim)
    requires Printable(c)
    ensures ParseLine(PrintClaim(c)) == Some(c)
    ensures Clean(PrintClaim(c))
  {
    LineReads(c.path, c.component, c.interval);
  }

  lemma PrintInjective(a: Claim, b: Claim)
    requires Printable(a) && Printable(b) && PrintClaim(a) == PrintClaim(b)
    ensures a == b
  {
    ParsePrinted(a);
    ParsePrinted(b);
  }

  /** `a` is a proper prefix of `b` whose next character sorts before TAB:
      the one case in which lines order two owners the other way round. */
  predicate OvertakenByTab(a: string, b: string) {
    |a| < |b| && a <= b && b[|a|] < TAB
  }

  /** Lines of one path are ordered as their components, except as above. */
  lemma {:induction false} LinesOrderOwners(a: Claim, b: Claim)
    requires a.path == b.path && TAB !in a.component && TAB !in b.component
    requires Lt(a.component, b.component)
    ensures Le(PrintClaim(a), PrintClaim(b)) <==> !OvertakenByTab(a.component, b.component)
  {
    var p := a.path + [TAB];
    var u, v := [TAB] + a.interval, [TAB] + b.interval;
    assert PrintClaim(a) == p + (a.component + u) && PrintClaim(b) == p + (b.component + v);
    LeSamePrefix(p, a.component + u, b.component + v);
    TailsOrderOwners(a.component, b.component, u, v);
  }

  lemma {:induction false} TailsOrderOwners(a: string, b: string, u: string, v: string)
    requires u != "" && v != "" && u[0] == v[0] == TAB
    requires TAB !in a && TAB !in b && Lt(a, b)
    ensures Le(a + u, b + v) <==> !OvertakenByTab(a, b)
  {
    if a == "" {
      assert a + u == u && b[0] in b;
    } else if a[0] == b[0] {
      assert (a + u)[1..] == a[1..] + u && (b + v)[1..] == b[1..] + v;
      assert a == [a[0]] + a[1..] && b == [b[0]] + b[1..];
      TailsOrderOwners(a[1..], b[1..], u, v);
      assert a <= b <==> a[1..] <= b[1..];
    }
  }
}
