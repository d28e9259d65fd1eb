/** The manifest reader inside fakecap: an in-place tokenizer, a sort by path
    and a binary search. Pointers into the buffer are offsets. */
module ManifestIndex {
  import opened Text
  import opened CStrings
  import opened Manifest
  import opened Filemap
  import opened Writers
  import opened WritersAgree

  /** An entry of the index; `None` is the pointer to the literal "weekly". */
  datatype Slot = Slot(path: nat, component: nat, interval: Option<nat>)

  /** The pointers of `s` lead to the pieces of `c`, all ending below `limit`. */
  ghost predicate Means(b: seq<char>, s: Slot, c: Claim, limit: nat) {
    && StringAt(b, s.path, c.path) && s.path + |c.path| < limit
    && StringAt(b, s.component, c.component) && s.component + |c.component| < limit
    && (s.interval.None? ==> c.interval == DEFAULT_INTERVAL)
    && (s.interval.Some? ==>
          StringAt(b, s.interval.value, c.interval) && s.interval.value + |c.interval| < limit)
  }

  ghost predicate AllMean(b: seq<char>, slots: seq<Slot>, cs: seq<Claim>, limit: nat) {
    |slots| == |cs| && forall i | 0 <= i < |slots| :: Means(b, slots[i], cs[i], limit)
  }

  // ---- What the text says ----

  function ClaimsOfLines(lines: seq<string>): seq<Claim> {
    if lines == [] then [] else ClaimsOfLine(lines[0]) + ClaimsOfLines(lines[1..])
  }

  function ClaimsOfLine(line: string): (r: seq<Claim>)
    ensures |r| <= 1
  {
    if ParseLine(line).Some? then [ParseLine(line).value] else []
  }

  /** A linear scan of the text. */
  function ParseText(text: string): seq<Claim> { ClaimsOfLines(Split(text, NL)) }

  lemma ParseTextStep(text: string)
    ensures var n := IndexOf(text, NL);
            ParseText(text) == ClaimsOfLine(text[..n]) + if n < |text| then ParseText(text[n + 1..]) else []
  {
    var n := IndexOf(text, NL);
    if n == |text| {
      assert text[..n] == text && Split(text, NL) == [text];
      assert ClaimsOfLines([text]) == ClaimsOfLine(text) + ClaimsOfLines([]);
    } else {
      var rest := Split(text[n + 1..], NL);
      assert Split(text, NL) == [text[..n]] + rest;
      assert ([text[..n]] + rest)[1..] == rest;
    }
  }

  lemma ParseEmpty()
    ensures ParseText("") == []
  {
    assert Split("", NL) == [""];
    assert ClaimsOfLines([""]) == ClaimsOfLine("") + ClaimsOfLines([]);
  }

  // ---- The tokenizer ----

  /** The claim of a line with its first tab at `t1` and the next one `t2` after it. */
  function ClaimAt(line: string, t1: nat, t2: nat): Claim
    requires t1 < |line| && t1 + 1 + t2 <= |line|
  {
    var rest := line[t1 + 1..];
    Claim(line[..t1], rest[..t2], if t2 < |rest| then rest[t2 + 1..] else DEFAULT_INTERVAL)
  }

  function SlotAt(o: nat, length: nat, t1: nat, t2: nat): Slot {
    Slot(o, o + t1 + 1, if t1 + 1 + t2 < length then Some(o + t1 + 1 + t2 + 1) else None)
  }

  /** `c` is `b` with NULs at the two tabs. */
  ghost predicate IsCut(b: seq<char>, c: seq<char>, x: nat, y: nat) {
    && |c| == |b| && x < y < |c| && c[x] == NUL && c[y] == NUL
    && forall i | 0 <= i < |b| && i != x && i != y :: c[i] == b[i]
  }

  lemma CutMeansAt(b: seq<char>, c: seq<char>, o: nat, line: string, t1: nat, t2: nat)
    requires StringAt(b, o, line) && t1 < |line| && t1 + 1 + t2 <= |line|
    requires IsCut(b, c, o + t1, o + t1 + 1 + t2)
    ensures Means(c, SlotAt(o, |line|, t1, t2), ClaimAt(line, t1, t2), o + |line| + 1)
  {
    var s, claim := SlotAt(o, |line|, t1, t2), ClaimAt(line, t1, t2);
  }

  lemma CutMeans(b: seq<char>, c: seq<char>, o: nat, line: string, t1: nat, t2: nat)
    requires StringAt(b, o, line) && line != "" && line[0] != '#'
    requires t1 == IndexOf(line, TAB) < |line| && t2 == IndexOf(line[t1 + 1..], TAB)
    requires IsCut(b, c, o + t1, o + t1 + 1 + t2)
    ensures ParseLine(line).Some?
    ensures Means(c, SlotAt(o, |line|, t1, t2), ParseLine(line).value, o + |line| + 1)
  {
    CutMeansAt(b, c, o, line, t1, t2);
  }

  /** Cuts the line at `o` at its first two tabs; `head` is what `strlen` then sees. */
  method CutLine(buf: array<char>, o: nat, ghost line: string)
    returns (slot: Option<Slot>, ghost head: string)
    requires StringAt(buf[..], o, line)
    modifies buf
    ensures forall i | 0 <= i < buf.Length && !(o <= i < o + |line|) :: buf[i] == old(buf[i])
    ensures slot.Some? <==> ParseLine(line).Some?
    ensures slot.Some? ==> Means(buf[..], slot.value, ParseLine(line).value, o + |line| + 1)
    ensures slot.None? ==> buf[..] == old(buf[..])
    ensures StringAt(buf[..], o, head) && |head| <= |line|
  {
    head := line;
    if buf[o] == NUL || buf[o] == '#' { return None, head; }
    var t1 := Strchr(buf, o, line, TAB);
    if buf[o + t1] != TAB { return None, head; }
    head := line[..t1];
    slot := CutTabs(buf, o, line, t1);
  }

  /** The part of `CutLine` that writes. */
  method CutTabs(buf: array<char>, o: nat, ghost line: string, t1: nat) returns (slot: Option<Slot>)
    requires StringAt(buf[..], o, line) && line != "" && line[0] != '#' && t1 == IndexOf(line, TAB) < |line|
    modifies buf
    ensures forall i | 0 <= i < buf.Length && !(o <= i < o + |line|) :: buf[i] == old(buf[i])
    ensures ParseLine(line).Some? && slot.Some?
    ensures Means(buf[..], slot.value, ParseLine(line).value, o + |line| + 1)
    ensures StringAt(buf[..], o, line[..t1])
  {
    ghost var b, rest := buf[..], line[t1 + 1..];
    var component := o + t1 + 1;
    assert StringAt(buf[..], component, rest);
    var t2 := Strchr(buf, component, rest, TAB);
    var second := buf[component + t2] == TAB;
    buf[o + t1] := NUL;
    if second { buf[component + t2] := NUL; }
    assert buf[component + t2] == NUL;
    slot := Some(Slot(o, component, if second then Some(component + t2 + 1) else None));
    assert slot.value == SlotAt(o, |line|, t1, t2);
    assert IsCut(b, buf[..], o + t1, component + t2);
    CutMeans(b, buf[..], o, line, t1, t2);
  }

  /** Before the line at offset `line`: the text from there is `rest`, and the
      slots stand for the claims of what came before. */
  ghost predicate Loading(b: seq<char>, slots: seq<Slot>, done: seq<Claim>, line: nat, rest: string, text: string) {
    && StringAt(b, line, rest)
    && AllMean(b, slots, done, if rest == "" then |b| else line)
    && done + ParseText(rest) == ParseText(text)
  }

  /** One line more. */
  lemma AllMeanMore(b: seq<char>, slots: seq<Slot>, done: seq<Claim>, limit: nat,
                    slot: Option<Slot>, line: string, limit': nat)
    requires AllMean(b, slots, done, limit) && limit <= limit'
    requires slot.Some? <==> ParseLine(line).Some?
    requires slot.Some? ==> Means(b, slot.value, ParseLine(line).value, limit')
    ensures AllMean(b, if slot.Some? then slots + [slot.value] else slots, done + ClaimsOfLine(line), limit')
  {}

  /** What one turn of the loader keeps. */
  lemma LoadingNext(b: seq<char>, c: seq<char>, slots: seq<Slot>, done: seq<Claim>, line: nat, rest: string,
                    text: string, slot: Option<Slot>, next: string, line': nat)
    requires Loading(b, slots, done, line, rest, text) && |c| == |b|
    requires forall i | 0 <= i < line :: c[i] == b[i]
    requires var n := IndexOf(rest, NL);
             var here := rest[..n];
             && next == (if n < |rest| then rest[n + 1..] else "")
             && (slot.Some? <==> ParseLine(here).Some?)
             && (slot.Some? ==> Means(c, slot.value, ParseLine(here).value, line + n + 1))
             && (next != "" ==> line' == line + n + 1)
    requires rest != "" && StringAt(c, line', next)
    ensures Loading(c, if slot.Some? then slots + [slot.value] else slots,
                    done + ClaimsOfLine(rest[..IndexOf(rest, NL)]), line', next, text)
  {
    var n := IndexOf(rest, NL);
    var here := rest[..n];
    AllMeanMore(c, slots, done, line, slot, here, if next == "" then |c| else line');
    ParseTextStep(rest);
    ParseEmpty();
    Associative(done, ClaimsOfLine(here), ParseText(next));
    assert ParseText(rest) == ClaimsOfLine(here) + ParseText(next);
  }

  /** Takes the line at offset `line` apart and finds the next one. */
  method LoadLine(buf: array<char>, line: nat, ghost rest: string)
    returns (slot: Option<Slot>, line': nat, ghost next: string)
    requires StringAt(buf[..], line, rest) && rest != ""
    modifies buf
    ensures forall i | 0 <= i < line :: buf[i] == old(buf[i])
    ensures var n := IndexOf(rest, NL);
            && next == (if n < |rest| then rest[n + 1..] else "")
            && (slot.Some? <==> ParseLine(rest[..n]).Some?)
            && (slot.Some? ==> Means(buf[..], slot.value, ParseLine(rest[..n]).value, line + n + 1))
            && (next != "" ==> line' == line + n + 1)
    ensures StringAt(buf[..], line', next)
  {
    ghost var b := buf[..];
    var n := Strchr(buf, line, rest, NL);
    var newline := buf[line + n] == NL;
    if newline { buf[line + n] := NUL; }
    StringAtCut(b, buf[..], line, rest, n);
    ghost var head;
    slot, head := CutLine(buf, line, rest[..n]);
    if newline {
      next := rest[n + 1..];
      StringAtMoved(b, buf[..], line, rest, n + 1);
      line' := line + n + 1;
    } else {
      var m := Strlen(buf, line, head);
      next := "";
      assert head[m..] == next;
      line' := line + m;
    }
  }

  method Load(buf: array<char>, ghost text: string) returns (slots: seq<Slot>)
    requires StringAt(buf[..], 0, text)
    modifies buf
    ensures AllMean(buf[..], slots, ParseText(text), buf.Length)
  {
    var line: nat := 0;
    slots := [];
    ghost var rest, done := text, [];
    while buf[line] != NUL
      invariant StringAt(buf[..], line, rest)
      invariant Loading(buf[..], slots, done, line, rest, text)
      decreases |rest|
    {
      ghost var b := buf[..];
      var slot, line', next := LoadLine(buf, line, rest);
      LoadingNext(b, buf[..], slots, done, line, rest, text, slot, next, line');
      if slot.Some? { slots := slots + [slot.value]; }
      done := done + ClaimsOfLine(rest[..IndexOf(rest, NL)]);
      line, rest := line', next;
    }
    ParseEmpty();
    assert done + [] == done;
  }

  // ---- The array that receives the entries ----

  function Newlines(text: string): nat {
    if text == "" then 0 else (if text[0] == NL then 1 else 0) + Newlines(text[1..])
  }

  lemma {:induction false} NewlinesAppend(a: string, b: string)
    ensures Newlines(a + b) == Newlines(a) + Newlines(b)
  {
    if a == "" {
      assert a + b == b;
    } else {
      assert (a + b)[1..] == a[1..] + b;
      NewlinesAppend(a[1..], b);
    }
  }

  lemma {:induction false} NoNewlines(s: string)
    requires NL !in s
    ensures Newlines(s) == 0
  {
    if s == "" {
    } else {
      NoNewlines(s[1..]);
    }
  }

  /** The first newline is the first to be counted. */
  lemma NewlinesFrom(text: string, n: nat)
    requires n < |text| && text[n] == NL && NL !in text[..n]
    ensures Newlines(text) == 1 + Newlines(text[n + 1..])
  {
    var tail := [NL] + text[n + 1..];
    assert text == text[..n] + tail && tail[1..] == text[n + 1..];
    NewlinesAppend(text[..n], tail);
    NoNewlines(text[..n]);
  }

  lemma {:induction false} PiecesAreNewlines(text: string)
    ensures |Split(text, NL)| == Newlines(text) + 1
    decreases |text|
  {
    var n := IndexOf(text, NL);
    if n == |text| {
      assert text[..n] == text;
      NoNewlines(text);
    } else {
      NewlinesFrom(text, n);
      SplitStep(text, NL);
      PiecesAreNewlines(text[n + 1..]);
    }
  }

  lemma {:induction false} ClaimsBelowLines(lines: seq<string>)
    ensures |ClaimsOfLines(lines)| <= |lines|
    ensures |ClaimsOfLines(lines)| == |lines| <==> forall l | l in lines :: ParseLine(l).Some?
  {
    if lines == [] {
    } else {
      ClaimsBelowLines(lines[1..]);
      assert lines == [lines[0]] + lines[1..];
    }
  }

  /** The loader counts newlines to size the array. The count suffices exactly
      when some piece of the text makes no entry; a text that ends in a newline,
      or holds a comment or blank line, is always safe. */
  lemma CapacitySuffices(text: string)
    ensures |ParseText(text)| <= Newlines(text) + 1
    ensures |ParseText(text)| <= Newlines(text) <==> exists l | l in Split(text, NL) :: ParseLine(l).None?
    ensures text == "" || text[|text| - 1] == NL ==> |ParseText(text)| <= Newlines(text)
  {
    PiecesAreNewlines(text);
    ClaimsBelowLines(Split(text, NL));
    if text == "" || text[|text| - 1] == NL {
      SplitIsUnlines(text);
      var r := Split(text, NL);
      assert ParseLine("").None? && r[|r| - 1] in r;
    }
  }

  /** The failing input: a line without a newline makes an entry that is not counted. */
  lemma LastLineUncounted()
    ensures |ParseText("/a\tb")| == 1 && Newlines("/a\tb") == 0
  {
    var text := "/a\tb";
    assert text[..|text|] == text && NL !in text;
    IndexOfIs(text, NL, |text|);
    NoNewlines(text);
    assert Split(text, NL) == [text];
    IndexOfIs(text, TAB, 2) by { assert text[..2] == "/a"; }
    assert ParseLine(text).Some?;
    CapacitySuffices(text);
  }

  // ---- Sorting and searching ----

  ghost predicate SortedByPath(es: seq<Claim>) {
    forall i, j | 0 <= i < j < |es| :: Le(es[i].path, es[j].path)
  }

  /** Some result of `qsort`. */
  ghost predicate IsQsorted(es: seq<Claim>, of: seq<Claim>) {
    SortedByPath(es) && multiset(es) == multiset(of)
  }

  /** Where a binary search probes the range lo..hi: any choice is allowed. */
  type Probe = (nat, nat) -> nat

  function ProbeAt(probe: Probe, lo: nat, hi: nat): (i: nat)
    requires lo < hi
    ensures lo <= i < hi
  {
    if lo <= probe(lo, hi) < hi then probe(lo, hi) else lo
  }

  /** `bsearch`: halves the range by comparing with the probed element. */
  function Bsearch(es: seq<Claim>, key: string, lo: nat, hi: nat, probe: Probe): (r: Option<nat>)
    requires lo <= hi <= |es|
    ensures r.Some? ==> lo <= r.value < hi && es[r.value].path == key
    decreases hi - lo
  {
    if lo == hi then None else
      var i := ProbeAt(probe, lo, hi);
      if es[i].path == key then Some(i)
      else if Le(es[i].path, key) then Bsearch(es, key, i + 1, hi, probe)
      else Bsearch(es, key, lo, i, probe)
  }

  /** On a sorted index no probing order misses a path. */
  lemma {:induction false} BsearchFinds(es: seq<Claim>, key: string, lo: nat, hi: nat, probe: Probe)
    requires SortedByPath(es) && lo <= hi <= |es|
    ensures Bsearch(es, key, lo, hi, probe).None? ==> forall k | lo <= k < hi :: es[k].path != key
    decreases hi - lo
  {
    if lo < hi {
      var i := ProbeAt(probe, lo, hi);
      if es[i].path != key {
        if Le(es[i].path, key) {
          BsearchFinds(es, key, i + 1, hi, probe);
          forall k | lo <= k < i ensures es[k].path != key {
            if es[k].path == key { LeAntisymmetric(es[i].path, key); }
          }
        } else {
          BsearchFinds(es, key, lo, i, probe);
        }
      }
    }
  }

  /** Strips a prefix that ends where a path component ends. */
  function StripPrefix(path: string, prefix: string): string {
    if prefix != "" && prefix <= path && (path[|prefix|..] == "" || path[|prefix|] == '/')
    then path[|prefix|..] else path
  }

  function Lookup(es: seq<Claim>, path: string, prefix: string, probe: Probe): Option<Claim> {
    var r := Bsearch(es, StripPrefix(path, prefix), 0, |es|, probe);
    if r.Some? then Some(es[r.value]) else None
  }

  const COMPONENT := "user.component"
  const UPDATE_INTERVAL := "user.update-interval"

  datatype Reply = NoData | Range | Length(n: nat) | Value(v: string)

  function GetXattr(es: seq<Claim>, path: string, prefix: string, name: string, size: nat, probe: Probe): Reply {
    var e := Lookup(es, path, prefix, probe);
    if e.None? then NoData
    else if name == COMPONENT then Answer(e.value.component, size)
    else if name == UPDATE_INTERVAL then Answer(e.value.interval, size)
    else NoData
  }

  function Answer(v: string, size: nat): Reply {
    if size == 0 then Length(|v|) else if size < |v| then Range else Value(v)
  }

  // ---- The index and the text agree ----

  lemma QsortedMembers(es: seq<Claim>, of: seq<Claim>)
    requires IsQsorted(es, of)
    ensures forall c :: c in es <==> c in of
  {
    forall c ensures c in es <==> c in of {
      assert c in es <==> c in multiset(es);
      assert c in of <==> c in multiset(of);
    }
  }

  /** A lookup answers like a linear scan of the text, for every result of the
      sort and every way of probing. */
  lemma LookupScans(text: string, es: seq<Claim>, p: string, prefix: string, probe: Probe)
    requires IsQsorted(es, ParseText(text)) && p != "" && p[0] == '/'
    ensures var r := Lookup(es, prefix + p, prefix, probe);
            && (r.Some? <==> exists c | c in ParseText(text) :: c.path == p)
            && (r.Some? ==> r.value in ParseText(text) && r.value.path == p)
  {
    QsortedMembers(es, ParseText(text));
    assert (prefix + p)[|prefix|..] == p;
    assert StripPrefix(prefix + p, prefix) == p;
    BsearchFinds(es, p, 0, |es|, probe);
    if c :| c in ParseText(text) && c.path == p {
      var k :| 0 <= k < |es| && es[k] == c;
    }
  }

  // ---- The index as it is in memory ----

  /** The C string at an offset, and the entry whose pointers a slot holds. */
  function StringFrom(b: seq<char>, o: nat): string {
    if o <= |b| then b[o..][..IndexOf(b[o..], NUL)] else ""
  }

  function ReadSlot(b: seq<char>, s: Slot): Claim {
    Claim(StringFrom(b, s.path), StringFrom(b, s.component),
          if s.interval.None? then DEFAULT_INTERVAL else StringFrom(b, s.interval.value))
  }

  function ReadSlots(b: seq<char>, slots: seq<Slot>): (r: seq<Claim>)
    ensures |r| == |slots| && forall i | 0 <= i < |r| :: r[i] == ReadSlot(b, slots[i])
  {
    Map(s => ReadSlot(b, s), slots)
  }

  lemma StringFromIs(b: seq<char>, o: nat, s: string)
    requires StringAt(b, o, s)
    ensures StringFrom(b, o) == s
  {
    assert b[o..][..|s|] == s;
    IndexOfIs(b[o..], NUL, |s|);
  }

  lemma MeaningRead(b: seq<char>, s: Slot, c: Claim, limit: nat)
    requires Means(b, s, c, limit)
    ensures ReadSlot(b, s) == c
  {
    StringFromIs(b, s.path, c.path);
    StringFromIs(b, s.component, c.component);
    if s.interval.Some? { StringFromIs(b, s.interval.value, c.interval); }
  }

  lemma SlotsRead(b: seq<char>, slots: seq<Slot>, cs: seq<Claim>, limit: nat)
    requires AllMean(b, slots, cs, limit)
    ensures ReadSlots(b, slots) == cs
  {
    forall i | 0 <= i < |slots| ensures ReadSlot(b, slots[i]) == cs[i] { MeaningRead(b, slots[i], cs[i], limit); }
  }

  /** What `qsort` leaves: the slots in some order in which the strings that their
      path pointers lead to ascend. */
  ghost predicate SlotsSorted(b: seq<char>, sorted: seq<Slot>, slots: seq<Slot>) {
    && multiset(sorted) == multiset(slots)
    && forall i, j | 0 <= i < j < |sorted| :: Le(StringFrom(b, sorted[i].path), StringFrom(b, sorted[j].path))
  }

  lemma SortedSlotsAreQsorted(b: seq<char>, sorted: seq<Slot>, slots: seq<Slot>, cs: seq<Claim>)
    requires AllMean(b, slots, cs, |b|) && SlotsSorted(b, sorted, slots)
    ensures IsQsorted(ReadSlots(b, sorted), cs)
  {
    SlotsRead(b, slots, cs, |b|);
    MapPermuted(s => ReadSlot(b, s), sorted, slots);
    var es := ReadSlots(b, sorted);
    forall i, j | 0 <= i < j < |es| ensures Le(es[i].path, es[j].path) {
      assert es[i].path == StringFrom(b, sorted[i].path) && es[j].path == StringFrom(b, sorted[j].path);
    }
  }

  /** From the loader to the answer: in the buffer that `Load` has cut, with its
      slots sorted through their pointers, a lookup answers like a linear scan of
      the text that was loaded. */
  lemma LoadedLookup(b: seq<char>, slots: seq<Slot>, sorted: seq<Slot>, text: string,
                     p: string, prefix: string, probe: Probe)
    requires AllMean(b, slots, ParseText(text), |b|) && SlotsSorted(b, sorted, slots)
    requires p != "" && p[0] == '/'
    ensures var r := Lookup(ReadSlots(b, sorted), prefix + p, prefix, probe);
            && (r.Some? <==> exists c | c in ParseText(text) :: c.path == p)
            && (r.Some? ==> r.value in ParseText(text) && r.value.path == p)
  {
    SortedSlotsAreQsorted(b, sorted, slots, ParseText(text));
    LookupScans(text, ReadSlots(b, sorted), p, prefix, probe);
  }

  // ---- Which owner is served ----

  /** A prefix is stripped only where it ends a path component: other paths are looked
      up as they are. */
  lemma OutsidePrefix(es: seq<Claim>, path: string, prefix: string, probe: Probe)
    requires prefix == "" || !(prefix <= path) || (|path| > |prefix| && path[|prefix|] != '/')
    ensures StripPrefix(path, prefix) == path
    ensures Lookup(es, path, prefix, probe) == Lookup(es, path, "", probe)
  {}

  /** The prefix itself is looked up as the empty path. */
  lemma PrefixItself(prefix: string)
    ensures StripPrefix(prefix, prefix) == ""
  {
    assert prefix[|prefix|..] == "";
  }

  /** Any entry of a path can be the one that is served ... */
  lemma AnyOwnerMayBeServed(es: seq<Claim>, i: nat) returns (probe: Probe)
    requires i < |es|
    ensures Bsearch(es, es[i].path, 0, |es|, probe) == Some(i)
  {
    probe := (lo, hi) => i;
  }

  lemma AnswersDiffer(es: seq<Claim>, c: Claim, d: Claim) returns (f: Probe, g: Probe)
    requires c in es && d in es && c != d && c.path == d.path && c.path != ""
    ensures Lookup(es, c.path, "", f) != Lookup(es, c.path, "", g)
  {
    var i :| 0 <= i < |es| && es[i] == c;
    var j :| 0 <= j < |es| && es[j] == d;
    f := AnyOwnerMayBeServed(es, i);
    g := AnyOwnerMayBeServed(es, j);
  }

  lemma AnswersAgree(es: seq<Claim>, p: string, f: Probe, g: Probe)
    requires SortedByPath(es) && forall c, d | c in es && d in es && c.path == d.path == p :: c == d
    ensures Lookup(es, p, "", f) == Lookup(es, p, "", g)
  {
    BsearchFinds(es, p, 0, |es|, f);
    BsearchFinds(es, p, 0, |es|, g);
  }

  /** ... so the answer is independent of the probing exactly when the entries
      of the path do not differ. */
  lemma ServedClaimDetermined(es: seq<Claim>, p: string)
    requires SortedByPath(es) && p != "" && p[0] == '/'
    ensures (forall f: Probe, g: Probe :: Lookup(es, p, "", f) == Lookup(es, p, "", g))
            <==> forall c, d | c in es && d in es && c.path == d.path == p :: c == d
  {
    if forall c, d | c in es && d in es && c.path == d.path == p :: c == d {
      forall f: Probe, g: Probe ensures Lookup(es, p, "", f) == Lookup(es, p, "", g) { AnswersAgree(es, p, f, g); }
    } else {
      var c, d :| c in es && d in es && c.path == d.path == p && c != d;
      var f, g := AnswersDiffer(es, c, d);
    }
  }

  /** The failing input: two owners of a file, each of which some search finds. */
  lemma TwoOwnersServed()
    ensures var es := [Claim("/a", "x", DEFAULT_INTERVAL), Claim("/a", "y", DEFAULT_INTERVAL)];
            SortedByPath(es) && exists f: Probe, g: Probe :: Lookup(es, "/a", "", f) != Lookup(es, "/a", "", g)
  {
    var es := [Claim("/a", "x", DEFAULT_INTERVAL), Claim("/a", "y", DEFAULT_INTERVAL)];
    LeReflexive("/a");
    assert es[0] in es && es[1] in es;
    ServedClaimDetermined(es, "/a");
  }

  // ---- The index and the generator ----

  lemma PrintedLinesClean(cs: seq<Claim>)
    requires forall c | c in cs :: Printable(c)
    ensures forall l | l in PrintAll(cs) :: NL !in l
  {
    forall l | l in PrintAll(cs) ensures NL !in l {
      var i :| 0 <= i < |cs| && PrintAll(cs)[i] == l;
      ParsePrinted(cs[i]);
    }
  }

  lemma {:induction false} ClaimsOfPrinted(cs: seq<Claim>)
    requires forall c | c in cs :: Printable(c)
    ensures ClaimsOfLines(PrintAll(cs)) == cs
  {
    if cs == [] {
    } else {
      ParsePrinted(cs[0]);
      ClaimsOfPrinted(cs[1..]);
      PrintTail(cs);
      assert ClaimsOfLine(PrintClaim(cs[0])) == [cs[0]];
      assert cs == [cs[0]] + cs[1..];
    }
  }

  lemma {:induction false} ClaimsOfLinesAppend(a: seq<string>, b: seq<string>)
    ensures ClaimsOfLines(a + b) == ClaimsOfLines(a) + ClaimsOfLines(b)
  {
    if a == [] {
      assert a + b == b;
    } else {
      assert (a + b)[1..] == a[1..] + b;
      ClaimsOfLinesAppend(a[1..], b);
      Associative(ClaimsOfLine(a[0]), ClaimsOfLines(a[1..]), ClaimsOfLines(b));
    }
  }

  lemma ParseUnlines(lines: seq<string>)
    requires forall l | l in lines :: NL !in l
    ensures ParseText(Unlines(lines)) == ClaimsOfLines(lines)
  {
    SplitUnlines(lines);
    ClaimsOfLinesAppend(lines, [""]);
    assert ClaimsOfLines([""]) == ClaimsOfLine("") + ClaimsOfLines([]);
  }

  /** The manifest is a header and the printed claims, one per line. */
  lemma ManifestIsUnlines(fm: seq<Entry>)
    ensures var cs := SortClaims(Claims(fm));
            ManifestText(fm) == Unlines([HEADER_TITLE + HEADER_COLUMNS] + if cs == [] then [""] else PrintAll(cs))
  {
    var cs := SortClaims(Claims(fm));
    SortPrints(Claims(fm));
    var header, body := HEADER_TITLE + HEADER_COLUMNS, if cs == [] then [""] else PrintAll(cs);
    assert ([header] + body)[1..] == body;
    assert Unlines([header] + body) == header + [NL] + Unlines(body);
    if cs == [] {
      assert Unlines([""]) == "" + [NL] + Unlines([]);
    } else {
      JoinUnlines(PrintAll(cs));
    }
  }

  lemma CommentedClaims(header: string, cs: seq<Claim>)
    requires header != "" && header[0] == '#' && NL !in header
    requires forall c | c in cs :: Printable(c)
    ensures ParseText(Unlines([header] + if cs == [] then [""] else PrintAll(cs))) == cs
  {
    var body := if cs == [] then [""] else PrintAll(cs);
    ClaimsOfPrinted(cs);
    PrintedLinesClean(cs);
    ParseUnlines([header] + body);
    ClaimsOfLinesAppend([header], body);
    assert ClaimsOfLines([header]) == ClaimsOfLine(header) + ClaimsOfLines([]);
    assert ClaimsOfLines([""]) == ClaimsOfLine("") + ClaimsOfLines([]);
  }

  /** Round trip: the loader recovers the claims of the generator, every one of
      them once, and the array is never too small. */
  lemma LoadedClaims(fm: seq<Entry>)
    requires forall c | c in Claims(fm) :: Printable(c)
    ensures ParseText(ManifestText(fm)) == SortClaims(Claims(fm))
    ensures |ParseText(ManifestText(fm))| <= Newlines(ManifestText(fm))
  {
    ManifestIsUnlines(fm);
    HeaderIsClean();
    CommentedClaims(HEADER_TITLE + HEADER_COLUMNS, SortClaims(Claims(fm)));
    CapacitySuffices(ManifestText(fm));
  }

  /** Asking with size 0 and then with what was answered: the second call gives a
      value of that length, and no smaller buffer would have done. */
  lemma LengthThenValue(es: seq<Claim>, path: string, prefix: string, name: string, size: nat, probe: Probe)
    requires name in {COMPONENT, UPDATE_INTERVAL} && size > 0
    ensures var asked := GetXattr(es, path, prefix, name, 0, probe);
            var got := GetXattr(es, path, prefix, name, size, probe);
            if Lookup(es, path, prefix, probe).None? then asked == got == NoData
            else asked.Length? && if size >= asked.n then got.Value? && |got.v| == asked.n else got == Range
  {}

  /** For a path with one claim the index serves that claim, whatever the search. */
  lemma ServedClaim(fm: seq<Entry>, es: seq<Claim>, c: Claim, prefix: string, probe: Probe)
    requires forall d | d in Claims(fm) :: Printable(d)
    requires IsQsorted(es, ParseText(ManifestText(fm))) && |c.path| > 0 && c.path[0] == '/'
    requires c in Claims(fm) && forall d | d in Claims(fm) && d.path == c.path :: d == c
    ensures Lookup(es, prefix + c.path, prefix, probe) == Some(c)
  {
    LoadedClaims(fm);
    LookupScans(ManifestText(fm), es, c.path, prefix, probe);
    assert c in SortClaims(Claims(fm));
  }

  /** What a caller of getxattr is told for such a path: the claim's component and its
      interval under their names, within the buffer, and nothing under another name. */
  lemma ServedValues(fm: seq<Entry>, es: seq<Claim>, c: Claim, prefix: string, name: string,
                     size: nat, probe: Probe)
    requires forall d | d in Claims(fm) :: Printable(d)
    requires IsQsorted(es, ParseText(ManifestText(fm))) && |c.path| > 0 && c.path[0] == '/'
    requires c in Claims(fm) && forall d | d in Claims(fm) && d.path == c.path :: d == c
    ensures var r := GetXattr(es, prefix + c.path, prefix, name, size, probe);
            if name == "user.component" then Told(r, c.component, size)
            else if name == "user.update-interval" then Told(r, c.interval, size)
            else r == NoData
  {
    ServedClaim(fm, es, c, prefix, probe);
  }

  /** The answer to a question with a buffer of `size` characters; 0 asks for the length. */
  predicate Told(r: Reply, v: string, size: nat) {
    && (size == 0 ==> r == Length(|v|))
    && (0 < size < |v| ==> r == Range)
    && (size > 0 && size >= |v| ==> r == Value(v))
  }

  /** A path without claims is unknown. */
  lemma UnknownPath(fm: seq<Entry>, es: seq<Claim>, p: string, prefix: string, name: string, size: nat, probe: Probe)
    requires forall d | d in Claims(fm) :: Printable(d) && d.path != p
    requires IsQsorted(es, ParseText(ManifestText(fm))) && p != "" && p[0] == '/'
    ensures GetXattr(es, prefix + p, prefix, name, size, probe) == NoData
  {
    LoadedClaims(fm);
    LookupScans(ManifestText(fm), es, p, prefix, probe);
    forall d | d in SortClaims(Claims(fm)) ensures d.path != p { assert d in Claims(fm); }
  }

  /** All three readers agree on a file with one claim: what fakecap serves for it is
      what fakecap-restore writes on it, and apply-xattrs if it gets there. */
  lemma ServedIsWritten(fm: seq<Entry>, es: seq<Claim>, c: Claim, prefix: string, probe: Probe,
                        rootLength: nat, k: Kernel, f: nat, m: Marks)
    requires AllFit(Claims(fm), rootLength) && Respells(Claims(fm), k)
    requires IsQsorted(es, ParseText(ManifestText(fm))) && |c.path| > 0 && c.path[0] == '/'
    requires c in Claims(fm) && forall d | d in Claims(fm) && d.path == c.path :: d == c
    requires On(k, c.path) == Writable(f)
    requires forall d | d in Claims(fm) && SetsComponent(On(k, d.path)) && On(k, d.path).file == f :: d == c
    ensures Lookup(es, prefix + c.path, prefix, probe) == Some(c)
    ensures Carries(WriteAll(Restored(fm, rootLength), k, m), f, c)
    ensures Serves(es, prefix + c.path, prefix, probe, WriteAll(Restored(fm, rootLength), k, m), f)
    ensures c in Reached(Claims(fm), k) ==>
              && Carries(WriteAll(Applied(fm, k), k, m), f, c)
              && Serves(es, prefix + c.path, prefix, probe, WriteAll(Applied(fm, k), k, m), f)
  {
    var cs := Claims(fm);
    RestoredClaims(fm, rootLength);
    ServedClaim(fm, es, c, prefix, probe);
    assert c in SortClaims(cs);
    OnlyClaimWins(SortClaims(cs), c, k, f, m);
    ReachedMembers(cs, k);
    RespelledReached(cs, k);
    RespelledMarks(Reached(cs, k), k, m);
    if c in Reached(cs, k) { OnlyClaimWins(Reached(cs, k), c, k, f, m); }
    forall size: nat
      ensures Told(GetXattr(es, prefix + c.path, prefix, "user.component", size, probe), c.component, size)
      ensures Told(GetXattr(es, prefix + c.path, prefix, "user.update-interval", size, probe), c.interval, size)
    {
      ServedValues(fm, es, c, prefix, "user.component", size, probe);
      ServedValues(fm, es, c, prefix, "user.update-interval", size, probe);
    }
  }

  /** Asking fakecap for a path gives what is marked on file `f`. */
  ghost predicate Serves(es: seq<Claim>, path: string, prefix: string, probe: Probe, m: Marks, f: nat) {
    && f in m.component && f in m.interval
    && forall size: nat ::
         && Told(GetXattr(es, path, prefix, "user.component", size, probe), m.component[f], size)
         && Told(GetXattr(es, path, prefix, "user.update-interval", size, probe), m.interval[f], size)
  }

  predicate Carries(m: Marks, f: nat, c: Claim) {
    f in m.component && m.component[f] == c.component && f in m.interval && m.interval[f] == c.interval
  }

  lemma OnlyClaimWins(cs: seq<Claim>, c: Claim, k: Kernel, f: nat, m: Marks)
    requires c in cs && On(k, c.path) == Writable(f)
    requires forall d | d in cs && SetsComponent(On(k, d.path)) && On(k, d.path).file == f :: d == c
    ensures Carries(WriteAll(cs, k, m), f, c)
  {
    MarksAt(cs, k, m, f);
  }
}
