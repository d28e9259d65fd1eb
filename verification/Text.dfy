/** Strings as the repository's Python and C code handle them: character
    classes, searching, splitting, trimming and the character-wise order. */
module Text {

  datatype Option<+T> = None | Some(value: T)

  type Byte = n: nat | n < 256

  function Min(a: nat, b: nat): nat { if a < b then a else b }

  const TAB: char := '\t'
  const NL: char := '\n'
  const NUL: char := '\0'

  /** The line boundaries of Python's `str.splitlines`. */
  predicate IsLineBreak(c: char) {
    || '\U{000A}' <= c <= '\U{000D}'
    || '\U{001C}' <= c <= '\U{001E}'
    || c == '\U{0085}' || c == '\U{2028}' || c == '\U{2029}'
  }

  /** The characters for which Python's `str.isspace` holds. */
  predicate IsSpace(c: char) {
    || IsLineBreak(c)
    || c == '\t' || c == ' ' || c == '\U{001F}' || c == '\U{00A0}' || c == '\U{1680}'
    || '\U{2000}' <= c <= '\U{200A}'
    || c == '\U{202F}' || c == '\U{205F}' || c == '\U{3000}'
  }

  predicate NoSpace(s: string) { forall c | c in s :: !IsSpace(c) }

  predicate NoLineBreak(s: string) { forall c | c in s :: !IsLineBreak(c) }

  // ---- Searching ----

  /** `i` is the place of the first `c` of `s`, or `|s|` when there is none. */
  predicate FirstAt(s: string, c: char, i: nat) {
    i <= |s| && (forall k | 0 <= k < i :: s[k] != c) && (i < |s| ==> s[i] == c)
  }

  lemma FirstExists(s: string, c: char)
    ensures exists i: nat | i <= |s| :: FirstAt(s, c, i)
  {
    var i := 0;
    while i < |s| && s[i] != c
      invariant i <= |s| && forall k | 0 <= k < i :: s[k] != c
    {
      i := i + 1;
    }
    assert FirstAt(s, c, i);
  }

  /** C's `strchr`, as an index. */
  function IndexOf(s: string, c: char): (i: nat)
    ensures FirstAt(s, c, i)
    ensures c !in s[..i]
  {
    FirstExists(s, c);
    var i: nat :| i <= |s| && FirstAt(s, c, i);
    i
  }

  lemma IndexOfIs(s: string, c: char, i: nat)
    requires i <= |s| && c !in s[..i]
    requires i < |s| ==> s[i] == c
    ensures IndexOf(s, c) == i
  {}

  /** Python's `pat in s`. */
  predicate Contains(s: string, pat: string) {
    exists i | 0 <= i <= |s| :: OccursAt(s, pat, i)
  }

  predicate OccursAt(s: string, pat: string, i: nat) {
    i + |pat| <= |s| && s[i..i + |pat|] == pat
  }

  lemma ContainsPrefix(s: string, t: string, pat: string)
    requires s <= t && Contains(s, pat)
    ensures Contains(t, pat)
  {
    var i :| 0 <= i <= |s| && OccursAt(s, pat, i);
    assert OccursAt(t, pat, i) by { assert t[i..i + |pat|] == s[i..i + |pat|]; }
  }

  // ---- Splitting and joining ----

  /** Python's `s.split(c)`: never empty, pieces free of `c`. */
  function Split(s: string, c: char): (r: seq<string>)
    ensures |r| > 0
    ensures forall x | x in r :: c !in x
    decreases |s|
  {
    var n := IndexOf(s, c);
    if n == |s| then [s] else [s[..n]] + Split(s[n + 1..], c)
  }

  /** Every line followed by its newline. */
  function Unlines(lines: seq<string>): string {
    if lines == [] then "" else lines[0] + [NL] + Unlines(lines[1..])
  }

  function Join(parts: seq<string>, sep: string): string {
    if parts == [] then "" else
    if |parts| == 1 then parts[0] else parts[0] + sep + Join(parts[1..], sep)
  }

  lemma SplitStep(s: string, c: char)
    requires IndexOf(s, c) < |s|
    ensures var n := IndexOf(s, c); Split(s, c) == [s[..n]] + Split(s[n + 1..], c)
  {}

  /** A split text put together again: the last piece has no newline after it. */
  predicate Rejoins(pieces: seq<string>, s: string)
    requires |pieces| > 0
  {
    s == Unlines(pieces[..|pieces| - 1]) + pieces[|pieces| - 1]
  }

  lemma RejoinsCons(l: string, pieces: seq<string>, s: string)
    requires |pieces| > 0 && Rejoins(pieces, s)
    ensures Rejoins([l] + pieces, l + [NL] + s)
  {
    var init, last := pieces[..|pieces| - 1], pieces[|pieces| - 1];
    assert ([l] + pieces)[..|pieces|] == [l] + init;
    Associative(l + [NL], Unlines(init), last);
  }

  lemma RejoinsAt(s: string, n: nat, pieces: seq<string>)
    requires n < |s| && s[n] == NL && |pieces| > 0 && Rejoins(pieces, s[n + 1..])
    ensures Rejoins([s[..n]] + pieces, s)
  {
    RejoinsCons(s[..n], pieces, s[n + 1..]);
    assert s == s[..n] + [NL] + s[n + 1..];
  }

  /** Splitting at newlines loses nothing: all but the last piece were lines,
      the last one is what follows the last newline. */
  lemma {:induction false} SplitIsUnlines(s: string)
    ensures Rejoins(Split(s, NL), s)
    decreases |s|
  {
    var n := IndexOf(s, NL);
    if n == |s| {
      assert Unlines([s][..0]) == "";
    } else {
      SplitStep(s, NL);
      SplitIsUnlines(s[n + 1..]);
      RejoinsAt(s, n, Split(s[n + 1..], NL));
    }
  }

  /** Appending to a string only continues its last piece. */
  lemma {:induction false} SplitAppend(s: string, t: string, c: char)
    ensures var r := Split(s, c);
            Split(s + t, c) == r[..|r| - 1] + Split(r[|r| - 1] + t, c)
    decreases |s|
  {
    var n := IndexOf(s, c);
    if n < |s| {
      var l, q := s[..n], Split(s[n + 1..], c);
      assert (s + t)[..n] == l && (s + t)[n + 1..] == s[n + 1..] + t;
      IndexOfIs(s + t, c, n);
      SplitAppend(s[n + 1..], t, c);
      SplitStep(s, c);
      SplitStep(s + t, c);
      assert ([l] + q)[..|q|] == [l] + q[..|q| - 1];
    }
  }

  lemma {:induction false} SplitUnlines(lines: seq<string>)
    requires forall l | l in lines :: NL !in l
    ensures Split(Unlines(lines), NL) == lines + [""]
  {
    if lines == [] {
    } else {
      var s := Unlines(lines);
      var l := lines[0];
      assert s[..|l|] == l;
      IndexOfIs(s, NL, |l|);
      assert s[|l| + 1..] == Unlines(lines[1..]);
      SplitUnlines(lines[1..]);
    }
  }

  lemma {:induction false} SplitJoin(parts: seq<string>, c: char)
    requires parts != [] && forall p | p in parts :: c !in p
    ensures Split(Join(parts, [c]), c) == parts
  {
    var first := parts[0];
    if |parts| == 1 {
      assert first[..|first|] == first;
      IndexOfIs(first, c, |first|);
    } else {
      var s := Join(parts, [c]);
      assert s[..|first|] == first && s[|first| + 1..] == Join(parts[1..], [c]);
      IndexOfIs(s, c, |first|);
      SplitJoin(parts[1..], c);
      assert parts == [first] + parts[1..];
    }
  }

  lemma {:induction false} JoinUnlines(lines: seq<string>)
    requires lines != []
    ensures Join(lines, [NL]) + [NL] == Unlines(lines)
  {
    if |lines| > 1 {
      JoinUnlines(lines[1..]);
    }
  }

  /** Python's `str.splitlines`: "\r\n" is one boundary, and a text that ends
      in a boundary has no empty last line. */
  function SplitLines(s: string): (r: seq<string>)
    ensures forall l | l in r :: NoLineBreak(l)
    decreases |s|
  {
    if s == "" then [] else
      var n := BreakAt(s);
      if n == |s| then [s]
      else if s[n] == '\r' && n + 1 < |s| && s[n + 1] == '\n' then [s[..n]] + SplitLines(s[n + 2..])
      else [s[..n]] + SplitLines(s[n + 1..])
  }

  function BreakAt(s: string): (n: nat)
    ensures n <= |s| && NoLineBreak(s[..n])
    ensures n < |s| ==> IsLineBreak(s[n])
  {
    if s == "" || IsLineBreak(s[0]) then 0 else
      var n := 1 + BreakAt(s[1..]);
      assert s[..n] == [s[0]] + s[1..][..n - 1];
      n
  }

  lemma {:induction false} BreakAtIs(s: string, n: nat)
    requires n <= |s| && NoLineBreak(s[..n])
    requires n < |s| ==> IsLineBreak(s[n])
    ensures BreakAt(s) == n
  {}

  lemma {:induction false} SplitLinesUnlines(lines: seq<string>)
    requires forall l | l in lines :: NoLineBreak(l)
    ensures SplitLines(Unlines(lines)) == lines
  {
    if lines == [] {
    } else {
      var s, l := Unlines(lines), lines[0];
      assert s[..|l|] == l;
      BreakAtIs(s, |l|);
      assert s[|l| + 1..] == Unlines(lines[1..]);
      SplitLinesUnlines(lines[1..]);
    }
  }

  /** Each boundary ends one line, "\r\n" included. */
  lemma OneLineMore(line: string, end: string, rest: string)
    requires NoLineBreak(line) && (end == "\r\n" || (|end| == 1 && IsLineBreak(end[0])))
    requires end == "\r" ==> !("\n" <= rest)
    ensures SplitLines(line + end + rest) == [line] + SplitLines(rest)
  {
    var s := line + end + rest;
    assert s[..|line|] == line && s[|line|..] == end + rest && s[|line| + |end|..] == rest;
    BreakAtIs(s, |line|);
  }

  // ---- Trimming and words ----

  function LStrip(s: string): (r: string)
    ensures r != "" ==> !IsSpace(r[0])
    ensures |r| <= |s| && r == s[|s| - |r|..]
  {
    if s != "" && IsSpace(s[0]) then LStrip(s[1..]) else s
  }

  function RStrip(s: string): (r: string)
    ensures r != "" ==> !IsSpace(r[|r| - 1])
    ensures r <= s
  {
    if s != "" && IsSpace(s[|s| - 1]) then RStrip(s[..|s| - 1]) else s
  }

  function Strip(s: string): string { RStrip(LStrip(s)) }

  /** No white space at either end. */
  predicate Trimmed(s: string) {
    s != "" ==> !IsSpace(s[0]) && !IsSpace(s[|s| - 1])
  }

  /** Python's `s.lstrip(c)` and `s.rstrip(c)` for one character. */
  function LStripChar(s: string, c: char): (r: string)
    ensures r != "" ==> r[0] != c
    ensures |r| <= |s| && r == s[|s| - |r|..]
  {
    if s != "" && s[0] == c then LStripChar(s[1..], c) else s
  }

  function RStripChar(s: string, c: char): (r: string)
    ensures r != "" ==> r[|r| - 1] != c
    ensures r <= s
  {
    if s != "" && s[|s| - 1] == c then RStripChar(s[..|s| - 1], c) else s
  }

  function WordEnd(s: string): (n: nat)
    ensures n <= |s| && NoSpace(s[..n])
    ensures n < |s| ==> IsSpace(s[n])
    ensures s != "" && !IsSpace(s[0]) ==> n > 0
  {
    if s == "" || IsSpace(s[0]) then 0 else
      var n := 1 + WordEnd(s[1..]);
      assert s[..n] == [s[0]] + s[1..][..n - 1];
      n
  }

  lemma {:induction false} WordEndIs(s: string, n: nat)
    requires n <= |s| && NoSpace(s[..n])
    requires n < |s| ==> IsSpace(s[n])
    ensures WordEnd(s) == n
  {}

  /** Python's `s.split()`: the maximal runs of characters that are not white space. */
  function Words(s: string): (r: seq<string>)
    ensures forall w | w in r :: w != "" && NoSpace(w)
    decreases |s|
  {
    if s == "" then []
    else if IsSpace(s[0]) then Words(s[1..])
    else var n := WordEnd(s); [s[..n]] + Words(s[n..])
  }

  lemma WordThen(word: string, blank: char, rest: string)
    requires word != "" && NoSpace(word) && IsSpace(blank)
    ensures Words(word + [blank] + rest) == [word] + Words(rest)
  {
    var s := word + [blank] + rest;
    assert s[..|word|] == word && s[|word|..] == [blank] + rest && ([blank] + rest)[1..] == rest;
    assert !IsSpace(s[0]) by { assert word[0] in word; }
    WordEndIs(s, |word|);
    assert Words([blank] + rest) == Words(rest);
  }

  lemma BlankThen(blank: char, rest: string)
    requires IsSpace(blank)
    ensures Words([blank] + rest) == Words(rest)
  {
    assert ([blank] + rest)[1..] == rest;
  }

  lemma OneWord(word: string)
    requires word != "" && NoSpace(word)
    ensures Words(word) == [word]
  {
    assert word[..|word|] == word && word[|word|..] == "";
    assert !IsSpace(word[0]) by { assert word[0] in word; }
    WordEndIs(word, |word|);
  }

  /** Line boundaries and white space, by their code points. */
  lemma SpacesMean(c: char)
    ensures IsLineBreak(c) <==> c as int in {10, 11, 12, 13, 28, 29, 30, 133, 8232, 8233}
    ensures IsSpace(c) <==>
              IsLineBreak(c) || c as int in {9, 31, 32, 160, 5760, 8239, 8287, 12288} || 8192 <= c as int <= 8202
  {}

  // ---- Sequences of anything ----

  lemma TakeOneMore<T>(a: seq<T>, b: seq<T>, j: nat)
    requires j < |b|
    ensures a + b[..j + 1] == a + b[..j] + [b[j]]
  {}

  lemma TakeDrop<T>(a: seq<T>, b: seq<T>, n: nat)
    requires n <= |b|
    ensures a + b == a + b[..n] + b[n..]
  {}

  lemma Associative<T>(a: seq<T>, b: seq<T>, c: seq<T>)
    ensures a + b + c == a + (b + c)
  {}

  lemma TakeOut<T>(xs: seq<T>, i: nat)
    requires i < |xs|
    ensures multiset(xs) == multiset(xs[..i] + xs[i + 1..]) + multiset{xs[i]}
  {
    assert xs == xs[..i] + [xs[i]] + xs[i + 1..];
  }

  lemma SameLength<T>(xs: seq<T>, ys: seq<T>)
    requires multiset(xs) == multiset(ys)
    ensures |xs| == |ys|
  {
    assert |multiset(xs)| == |multiset(ys)|;
  }

  /** Where a permutation has the first element; the rest is a permutation, too. */
  lemma WithoutFirst<T>(xs: seq<T>, ys: seq<T>) returns (i: nat)
    requires multiset(xs) == multiset(ys) && xs != []
    ensures i < |ys| && ys[i] == xs[0]
    ensures multiset(xs[1..]) == multiset(ys[..i] + ys[i + 1..])
  {
    assert xs[0] in multiset(ys);
    i :| 0 <= i < |ys| && ys[i] == xs[0];
    assert xs == [xs[0]] + xs[1..];
    TakeOut(ys, i);
    assert multiset(xs[1..]) == multiset(xs) - multiset{xs[0]};
    assert multiset(ys[..i] + ys[i + 1..]) == multiset(ys) - multiset{xs[0]};
  }

  function Map<A, B>(f: A -> B, s: seq<A>): (r: seq<B>)
    ensures |r| == |s| && forall i | 0 <= i < |r| :: r[i] == f(s[i])
  {
    seq(|s|, i requires 0 <= i < |s| => f(s[i]))
  }

  lemma MapTake<A, B>(f: A -> B, xs: seq<A>, i: nat)
    requires i < |xs|
    ensures multiset(Map(f, xs)) == multiset(Map(f, xs[..i] + xs[i + 1..])) + multiset{f(xs[i])}
  {
    TakeOut(Map(f, xs), i);
    assert Map(f, xs[..i] + xs[i + 1..]) == Map(f, xs)[..i] + Map(f, xs)[i + 1..];
  }

  lemma MapFirst<A, B>(f: A -> B, xs: seq<A>)
    requires xs != []
    ensures multiset(Map(f, xs)) == multiset(Map(f, xs[1..])) + multiset{f(xs[0])}
  {
    MapTake(f, xs, 0);
    assert xs[..0] + xs[1..] == xs[1..];
  }

  lemma {:induction false} MapPermuted<A, B>(f: A -> B, xs: seq<A>, ys: seq<A>)
    requires multiset(xs) == multiset(ys)
    ensures multiset(Map(f, xs)) == multiset(Map(f, ys))
    decreases |xs|
  {
    if xs == [] {
      SameLength(xs, ys);
    } else {
      var i := WithoutFirst(xs, ys);
      var ys' := ys[..i] + ys[i + 1..];
      MapPermuted(f, xs[1..], ys');
      MapFirst(f, xs);
      MapTake(f, ys, i);
    }
  }

  function Sum(xs: seq<nat>): nat { if xs == [] then 0 else xs[0] + Sum(xs[1..]) }

  lemma {:induction false} SumTake(xs: seq<nat>, i: nat)
    requires i < |xs|
    ensures Sum(xs) == Sum(xs[..i] + xs[i + 1..]) + xs[i]
  {
    if i == 0 {
      assert xs[..0] + xs[1..] == xs[1..];
    } else {
      var rest := xs[..i] + xs[i + 1..];
      SumTake(xs[1..], i - 1);
      assert rest[0] == xs[0] && rest[1..] == xs[1..][..i - 1] + xs[1..][i..];
    }
  }

  lemma {:induction false} SumPermuted(xs: seq<nat>, ys: seq<nat>)
    requires multiset(xs) == multiset(ys)
    ensures Sum(xs) == Sum(ys)
    decreases |xs|
  {
    if xs == [] {
      SameLength(xs, ys);
    } else {
      var i := WithoutFirst(xs, ys);
      SumTake(ys, i);
      SumPermuted(xs[1..], ys[..i] + ys[i + 1..]);
    }
  }

  lemma SumSnoc(xs: seq<nat>, x: nat)
    ensures Sum(xs + [x]) == Sum(xs) + x
  {
    SumTake(xs + [x], |xs|);
    assert (xs + [x])[..|xs|] + (xs + [x])[|xs| + 1..] == xs;
  }

  // ---- Order ----

  /** The order of Python's `<=` on `str` and of C's `strcmp`. */
  predicate Le(a: string, b: string) {
    a == "" || (b != "" && (a[0] < b[0] || (a[0] == b[0] && Le(a[1..], b[1..]))))
  }

  predicate Lt(a: string, b: string) { a != b && Le(a, b) }

  lemma {:induction a} LeReflexive(a: string)
    ensures Le(a, a)
  {}

  lemma {:induction false} LeTotal(a: string, b: string)
    ensures Le(a, b) || Le(b, a)
  {
    if a == "" || b == "" {
    } else {
      LeTotal(a[1..], b[1..]);
    }
  }

  lemma {:induction false} LeAntisymmetric(a: string, b: string)
    requires Le(a, b) && Le(b, a)
    ensures a == b
  {
    if a == "" || b == "" {
    } else {
      LeAntisymmetric(a[1..], b[1..]);
      assert a == [a[0]] + a[1..] && b == [b[0]] + b[1..];
    }
  }

  lemma {:induction false} LeTransitive(a: string, b: string, c: string)
    requires Le(a, b) && Le(b, c)
    ensures Le(a, c)
  {
    if a == "" || a[0] < b[0] || b[0] < c[0] {
    } else {
      LeTransitive(a[1..], b[1..], c[1..]);
    }
  }

  /** A common prefix does not matter to the order. */
  lemma {:induction false} LeSamePrefix(p: string, a: string, b: string)
    ensures Le(p + a, p + b) == Le(a, b)
  {
    if p == "" {
      assert p + a == a && p + b == b;
    } else {
      assert (p + a)[1..] == p[1..] + a && (p + b)[1..] == p[1..] + b;
      LeSamePrefix(p[1..], a, b);
    }
  }

  // ---- Sorting ----

  ghost predicate Sorted(xs: seq<string>) {
    forall i, j | 0 <= i < j < |xs| :: Le(xs[i], xs[j])
  }

  function Insert(x: string, xs: seq<string>): (r: seq<string>)
    ensures multiset(r) == multiset{x} + multiset(xs)
    ensures |r| == |xs| + 1
  {
    if xs == [] || Le(x, xs[0]) then [x] + xs else
      var r := [xs[0]] + Insert(x, xs[1..]);
      assert xs == [xs[0]] + xs[1..];
      r
  }

  /** Python's `sorted` on a list of strings; `SortedPermutationIsSort` says
      why no other algorithm could return anything else. */
  function Sort(xs: seq<string>): (r: seq<string>)
    ensures multiset(r) == multiset(xs) && |r| == |xs|
  {
    if xs == [] then [] else
      assert xs == [xs[0]] + xs[1..];
      Insert(xs[0], Sort(xs[1..]))
  }

  lemma {:induction false} InsertSorted(x: string, xs: seq<string>)
    requires Sorted(xs)
    ensures Sorted(Insert(x, xs))
  {
    if xs == [] {
    } else if Le(x, xs[0]) {
      forall k | 0 <= k < |xs| ensures Le(x, xs[k]) {
        if k > 0 { LeTransitive(x, xs[0], xs[k]); }
      }
    } else {
      LeTotal(x, xs[0]);
      var t := Insert(x, xs[1..]);
      InsertSorted(x, xs[1..]);
      forall k | 0 <= k < |t| ensures Le(xs[0], t[k]) {
        assert t[k] in multiset(t);
        if t[k] != x { assert t[k] in xs[1..]; }
      }
    }
  }

  lemma {:induction false} SortSorted(xs: seq<string>)
    ensures Sorted(Sort(xs))
  {
    if xs == [] {
    } else {
      SortSorted(xs[1..]);
      InsertSorted(xs[0], Sort(xs[1..]));
    }
  }

  lemma FirstIsLeast(a: seq<string>, x: string)
    requires Sorted(a) && x in multiset(a)
    ensures Le(a[0], x)
  {
    LeReflexive(x);
    var i :| 0 <= i < |a| && a[i] == x;
  }

  lemma TailMultiset(a: seq<string>)
    requires a != []
    ensures multiset(a[1..]) == multiset(a) - multiset{a[0]}
  {
    assert a == [a[0]] + a[1..];
  }

  lemma {:induction false} SortedPermutationUnique(a: seq<string>, b: seq<string>)
    requires Sorted(a) && Sorted(b) && multiset(a) == multiset(b)
    ensures a == b
  {
    assert |a| == |multiset(a)| == |multiset(b)| == |b|;
    if a == [] {
    } else {
      assert a[0] in multiset(a) && b[0] in multiset(b);
      FirstIsLeast(a, b[0]);
      FirstIsLeast(b, a[0]);
      LeAntisymmetric(a[0], b[0]);
      TailMultiset(a);
      TailMultiset(b);
      SortedPermutationUnique(a[1..], b[1..]);
      assert a == [a[0]] + a[1..] && b == [b[0]] + b[1..];
    }
  }

  /** A sorted permutation is unique, so `Sort` stands for any sorting routine. */
  lemma SortedPermutationIsSort(xs: seq<string>, r: seq<string>)
    requires Sorted(r) && multiset(r) == multiset(xs)
    ensures r == Sort(xs)
  {
    SortSorted(xs);
    SortedPermutationUnique(r, Sort(xs));
  }
}
