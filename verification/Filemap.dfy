/** `gen-filemap.py`: from an artifact listing to the element-to-files map and
    its two printed forms. */
module Filemap {
  import opened Text
  import opened Ansi
  import opened Manifest

  // ---- The listing parser ----

  datatype ListingLine = Ignored | Header(element: string) | File(path: string)

  function ReadLine(raw: string): ListingLine {
    var line := RStrip(StripAnsi(raw));
    if line == "" then Ignored
    else if line[0] != TAB then Header(HeaderName(line))
    else ReadFields(Words(line))
  }

  /** A line that does not start with a tab is a header, however it starts, unless nothing
      but white space and escapes is in it; others are no headers. */
  lemma HeadersMean(raw: string)
    ensures var line := RStrip(StripAnsi(raw));
            if line == "" then ReadLine(raw).Ignored?
            else if line[0] != '\t' then ReadLine(raw) == Header(RStripChar(Strip(line), ':'))
            else !ReadLine(raw).Header?
  {}

  /** A tab-indented line of four or more fields names a file by its fourth, unless its
      second field is "dir"; other tab-indented lines say nothing. */
  lemma FieldsMean(parts: seq<string>)
    ensures ReadFields(parts).File? <==> |parts| >= 4 && parts[1] != "dir"
    ensures ReadFields(parts).File? ==> ReadFields(parts) == File("/" + parts[3])
    ensures !ReadFields(parts).Header?
  {}

  function HeaderName(line: string): string { RStripChar(Strip(line), ':') }

  function ReadFields(parts: seq<string>): ListingLine {
    if |parts| < 4 || parts[1] == "dir" then Ignored else File("/" + parts[3])
  }

  /** A Python dict of lists: its keys in insertion order, and their values. */
  datatype Contents = Contents(order: seq<string>, files: map<string, seq<string>>) {
    ghost predicate Valid() {
      && (forall e :: e in order <==> e in files)
      && (forall i, j | 0 <= i < j < |order| :: order[i] != order[j])
    }
  }

  function ReadLines(lines: seq<string>): (r: seq<ListingLine>)
    ensures |r| == |lines| && forall i | 0 <= i < |r| :: r[i] == ReadLine(lines[i])
  {
    seq(|lines|, i requires 0 <= i < |lines| => ReadLine(lines[i]))
  }

  /** The last header before line `n`. */
  function Owner(lines: seq<ListingLine>, n: nat): Option<string>
    requires n <= |lines|
  {
    if n == 0 then None
    else if lines[n - 1].Header? then Some(lines[n - 1].element)
    else Owner(lines, n - 1)
  }

  /** The paths that the first `n` lines list under the headers of element `e`. */
  function PathsOf(lines: seq<ListingLine>, n: nat, e: string): seq<string>
    requires n <= |lines|
  {
    if n == 0 then [] else
      PathsOf(lines, n - 1, e)
      + if lines[n - 1].File? && Owner(lines, n - 1) == Some(e) then [lines[n - 1].path] else []
  }

  /** Line `h` is the header of element `e` that is in force at line `i`. */
  ghost predicate InForce(lines: seq<ListingLine>, h: nat, i: nat, e: string) {
    h < i <= |lines| && lines[h] == Header(e) && forall j | h < j < i :: !lines[j].Header?
  }

  lemma {:induction false} OwnerInForce(lines: seq<ListingLine>, i: nat, e: string)
    requires i <= |lines|
    ensures Owner(lines, i) == Some(e) <==> exists h: nat :: InForce(lines, h, i, e)
  {
    if i == 0 {
    } else {
      OwnerInForce(lines, i - 1, e);
      if lines[i - 1].Header? {
        if lines[i - 1].element == e { assert InForce(lines, i - 1, i, e); }
      } else {
        var before := i - 1;
        forall h: nat ensures InForce(lines, h, i, e) <==> InForce(lines, h, before, e) {}
      }
    }
  }

  ghost predicate ListedAt(lines: seq<ListingLine>, i: nat, e: string, p: string) {
    i < |lines| && lines[i] == File(p) && exists h: nat :: InForce(lines, h, i, e)
  }

  /** An element's paths are the files listed while its header is in force. */
  lemma {:induction false} ListedUnder(lines: seq<ListingLine>, n: nat, e: string, p: string)
    requires n <= |lines|
    ensures p in PathsOf(lines, n, e) <==> exists i: nat | i < n :: ListedAt(lines, i, e, p)
  {
    if n == 0 {
    } else {
      ListedUnder(lines, n - 1, e, p);
      OwnerInForce(lines, n - 1, e);
      assert ListedAt(lines, n - 1, e, p) <==> lines[n - 1] == File(p) && Owner(lines, n - 1) == Some(e);
      if p in PathsOf(lines, n - 1, e) {
        var i: nat :| i < n - 1 && ListedAt(lines, i, e, p);
        assert i < n;
      }
    }
  }

  ghost predicate Lists(c: Contents, lines: seq<ListingLine>, n: nat)
    requires n <= |lines|
  {
    forall e :: if e in c.files then c.files[e] == PathsOf(lines, n, e) != []
                else PathsOf(lines, n, e) == []
  }

  /** `result[e].append(path)` on a defaultdict. */
  function Appended(c: Contents, e: string, path: string): Contents {
    if e in c.files then Contents(c.order, c.files[e := c.files[e] + [path]])
    else Contents(c.order + [e], c.files[e := [path]])
  }

  lemma AppendedValid(c: Contents, e: string, path: string)
    requires c.Valid()
    ensures Appended(c, e, path).Valid()
  {}

  lemma AppendedLists(c: Contents, lines: seq<ListingLine>, n: nat, e: string)
    requires n < |lines| && Lists(c, lines, n)
    requires lines[n].File? && Owner(lines, n) == Some(e)
    ensures Lists(Appended(c, e, lines[n].path), lines, n + 1)
  {}

  lemma SkippedLists(c: Contents, lines: seq<ListingLine>, n: nat)
    requires n < |lines| && Lists(c, lines, n)
    requires lines[n].File? ==> Owner(lines, n).None?
    ensures Lists(c, lines, n + 1)
  {}

  method GroupFiles(lines: seq<ListingLine>) returns (c: Contents)
    ensures c.Valid() && Lists(c, lines, |lines|)
  {
    c := Contents([], map[]);
    var current := None;
    for n := 0 to |lines|
      invariant c.Valid() && Lists(c, lines, n)
      invariant current == Owner(lines, n)
    {
      if !lines[n].File? || current.None? {
        SkippedLists(c, lines, n);
        if lines[n].Header? { current := Some(lines[n].element); }
      } else {
        AppendedValid(c, current.value, lines[n].path);
        AppendedLists(c, lines, n, current.value);
        c := Appended(c, current.value, lines[n].path);
      }
    }
  }

  method ListAllContents(out: string) returns (c: Contents)
    ensures c.Valid()
    ensures var lines := ReadLines(SplitLines(out)); Lists(c, lines, |lines|)
  {
    c := GroupFiles(ReadLines(SplitLines(out)));
  }

  /** A path fit for a manifest line: one slash and a word without white space. */
  predicate IsListedPath(p: string) { |p| > 1 && p[0] == '/' && NoSpace(p) }

  /** Reported paths are free of white space and element names of line breaks. */
  predicate CleanLine(l: ListingLine) {
    match l
    case Ignored => true
    case Header(element) => NoLineBreak(element)
    case File(path) => IsListedPath(path)
  }

  lemma {:induction false} StripAnsiKeeps(s: string)
    ensures forall c | c in StripAnsi(s) :: c in s
    decreases |s|
  {
    if s == "" {
    } else {
      StripAnsiKeeps(s[if EscapeLength(s) > 0 then EscapeLength(s) else 1..]);
    }
  }

  lemma HeaderNameKeeps(line: string)
    ensures forall c | c in HeaderName(line) :: c in line
  {}

  lemma FieldsClean(line: string)
    ensures CleanLine(ReadFields(Words(line)))
  {
    var parts := Words(line);
    if |parts| >= 4 { assert parts[3] in parts; }
  }

  lemma ReadLineClean(raw: string)
    requires NoLineBreak(raw)
    ensures CleanLine(ReadLine(raw))
  {
    StripAnsiKeeps(raw);
    var line := RStrip(StripAnsi(raw));
    HeaderNameKeeps(line);
    FieldsClean(line);
  }

  lemma ListingClean(out: string)
    ensures forall l | l in ReadLines(SplitLines(out)) :: CleanLine(l)
  {
    var raw := SplitLines(out);
    forall l | l in ReadLines(raw) ensures CleanLine(l) {
      var i :| 0 <= i < |raw| && ReadLines(raw)[i] == l;
      assert raw[i] in raw;
      ReadLineClean(raw[i]);
    }
  }

  /** Every path the parser reports is free of white space and starts with a
      slash, and its owner fits on a line, whatever the listing was. */
  lemma {:induction false} ListedPathsAreClean(lines: seq<ListingLine>, n: nat, e: string)
    requires n <= |lines| && forall l | l in lines :: CleanLine(l)
    ensures forall p | p in PathsOf(lines, n, e) :: IsListedPath(p)
    ensures PathsOf(lines, n, e) != [] ==> NoLineBreak(e)
    ensures Owner(lines, n).Some? ==> NoLineBreak(Owner(lines, n).value)
  {
    if n == 0 {
    } else {
      assert CleanLine(lines[n - 1]);
      ListedPathsAreClean(lines, n - 1, e);
    }
  }

  // ---- The map and its two printed forms ----

  /** One item of filemap.json; a file map is the list of its items in file order. */
  datatype Entry = Entry(element: string, interval: string, files: seq<string>)

  const SKIP_PREFIX := "oci/layers/"

  function GuessInterval(element: string): string {
    if Contains(element, "xfce-linux/") then "weekly"
    else if Contains(element, "gnome/") then "monthly"
    else if Contains(element, "freedesktop-sdk") then "monthly"
    else "monthly"
  }

  predicate Kept(e: string, files: seq<string>) { files != [] && !(SKIP_PREFIX <= e) }

  function EntryOf(e: string, files: seq<string>): Entry {
    Entry(e, GuessInterval(e), Sort(files))
  }

  function FilemapOf(keys: seq<string>, files: map<string, seq<string>>): seq<Entry>
    requires forall e | e in keys :: e in files
  {
    if keys == [] then [] else
      var e := keys[|keys| - 1];
      FilemapOf(keys[..|keys| - 1], files) + if Kept(e, files[e]) then [EntryOf(e, files[e])] else []
  }

  function ClaimsOf(entry: Entry): (r: seq<Claim>)
    ensures |r| == |entry.files|
    ensures forall i | 0 <= i < |r| :: r[i] == Claim(entry.files[i], entry.element, entry.interval)
  {
    seq(|entry.files|, i requires 0 <= i < |entry.files| =>
      Claim(entry.files[i], entry.element, entry.interval))
  }

  /** All claims of a file map, in JSON order. */
  function Claims(fm: seq<Entry>): seq<Claim> {
    if fm == [] then [] else Claims(fm[..|fm| - 1]) + ClaimsOf(fm[|fm| - 1])
  }

  const HEADER_TITLE := "# fakecap component manifest: "
  const HEADER_COLUMNS := "path\tcomponent\tinterval"
  const MANIFEST_HEADER := HEADER_TITLE + HEADER_COLUMNS + "\n"

  function ManifestText(fm: seq<Entry>): string {
    MANIFEST_HEADER + Join(Sort(PrintAll(Claims(fm))), "\n") + "\n"
  }

  lemma HeaderText()
    ensures MANIFEST_HEADER == "# fakecap component manifest: path\tcomponent\tinterval\n"
  {}

  lemma SortKeepsMembers(xs: seq<string>)
    ensures forall x :: x in Sort(xs) <==> x in xs
  {
    forall x ensures x in Sort(xs) <==> x in xs {
      assert x in Sort(xs) <==> x in multiset(Sort(xs));
      assert x in xs <==> x in multiset(xs);
    }
  }

  /** Which entries are in the map: those of elements with files that are no layer
      aggregation, each with its interval and its files in order. */
  lemma {:induction false} EntriesMean(keys: seq<string>, files: map<string, seq<string>>, x: Entry)
    requires forall e | e in keys :: e in files
    ensures x in FilemapOf(keys, files)
            <==> && x.element in keys && files[x.element] != [] && !("oci/layers/" <= x.element)
                 && x.interval == (if Contains(x.element, "xfce-linux/") then "weekly" else "monthly")
                 && Sorted(x.files) && multiset(x.files) == multiset(files[x.element])
  {
    if keys == [] {
    } else {
      var e := keys[|keys| - 1];
      EntriesMean(keys[..|keys| - 1], files, x);
      SortSorted(files[e]);
      if x.element == e && Sorted(x.files) && multiset(x.files) == multiset(files[e]) {
        SortedPermutationIsSort(files[e], x.files);
      }
    }
  }

  method BuildFilemap(c: Contents) returns (fm: seq<Entry>, totalFiles: nat)
    requires c.Valid()
    ensures var keys := Sort(c.order);
            (forall e | e in keys :: e in c.files) && fm == FilemapOf(keys, c.files)
    ensures totalFiles == |Claims(fm)|
  {
    var keys := Sort(c.order);
    SortKeepsMembers(c.order);
    fm, totalFiles := [], 0;
    for n := 0 to |keys|
      invariant fm == FilemapOf(keys[..n], c.files)
      invariant totalFiles == |Claims(fm)|
    {
      var e, files := keys[n], c.files[keys[n]];
      assert keys[..n + 1][..n] == keys[..n];
      if !Kept(e, files) { continue; }
      var entry := EntryOf(e, files);
      assert (fm + [entry])[..|fm|] == fm;
      fm := fm + [entry];
      totalFiles := totalFiles + |files|;
    }
    assert keys[..|keys|] == keys;
  }

  method PrintManifest(fm: seq<Entry>) returns (manifest: string)
    ensures manifest == ManifestText(fm)
  {
    var lines: seq<string> := [];
    for i := 0 to |fm|
      invariant lines == PrintAll(Claims(fm[..i]))
    {
      assert fm[..i + 1][..i] == fm[..i];
      ghost var claims := ClaimsOf(fm[i]);
      for j := 0 to |fm[i].files|
        invariant lines == PrintAll(Claims(fm[..i]) + claims[..j])
      {
        lines := lines + [PrintClaim(Claim(fm[i].files[j], fm[i].element, fm[i].interval))];
      }
      assert claims[..|fm[i].files|] == claims;
    }
    assert fm[..|fm|] == fm;
    manifest := MANIFEST_HEADER + Join(Sort(lines), "\n") + "\n";
  }

  // ---- What the map says ----

  /** The elements of a file map come in strictly ascending order. */
  ghost predicate Ascending(fm: seq<Entry>) {
    forall i, j | 0 <= i < j < |fm| :: Lt(fm[i].element, fm[j].element)
  }

  lemma {:induction false} FilemapAscending(keys: seq<string>, files: map<string, seq<string>>)
    requires forall e | e in keys :: e in files
    requires Sorted(keys) && forall i, j | 0 <= i < j < |keys| :: keys[i] != keys[j]
    ensures Ascending(FilemapOf(keys, files))
    ensures forall x | x in FilemapOf(keys, files) ::
              x.element in keys && Kept(x.element, files[x.element]) && x == EntryOf(x.element, files[x.element])
  {
    if keys == [] {
    } else {
      var rest := keys[..|keys| - 1];
      FilemapAscending(rest, files);
      forall x | x in FilemapOf(rest, files) ensures Lt(x.element, keys[|keys| - 1]) {
        var i :| 0 <= i < |rest| && rest[i] == x.element;
      }
    }
  }

  /** Nothing but empty lists and layer aggregations is left out. */
  lemma {:induction false} FilemapComplete(keys: seq<string>, files: map<string, seq<string>>, e: string)
    requires forall k | k in keys :: k in files
    requires e in keys && Kept(e, files[e])
    ensures EntryOf(e, files[e]) in FilemapOf(keys, files)
  {
    if keys[|keys| - 1] != e { FilemapComplete(keys[..|keys| - 1], files, e); }
  }

  /** Sorting the keys of a dict gives them in strictly ascending order. */
  lemma SortedKeysDistinct(order: seq<string>)
    requires forall i, j | 0 <= i < j < |order| :: order[i] != order[j]
    ensures Sorted(Sort(order))
    ensures forall i, j | 0 <= i < j < |order| :: Sort(order)[i] != Sort(order)[j]
  {
    SortSorted(order);
    DistinctMultiset(order);
    MultisetDistinct(Sort(order));
  }

  lemma {:induction false} DistinctMultiset(xs: seq<string>)
    requires forall i, j | 0 <= i < j < |xs| :: xs[i] != xs[j]
    ensures forall x :: multiset(xs)[x] <= 1
  {
    if xs == [] {
    } else {
      DistinctMultiset(xs[1..]);
      assert xs == [xs[0]] + xs[1..];
    }
  }

  lemma {:induction false} MultisetDistinct(xs: seq<string>)
    requires forall x :: multiset(xs)[x] <= 1
    ensures forall i, j | 0 <= i < j < |xs| :: xs[i] != xs[j]
  {
    if xs == [] {
    } else {
      var t := xs[1..];
      assert xs == [xs[0]] + t;
      assert forall x :: multiset(t)[x] <= multiset(xs)[x];
      MultisetDistinct(t);
      assert multiset(xs)[xs[0]] <= 1 && xs[0] !in multiset(t);
      forall j | 0 < j < |xs| ensures xs[0] != xs[j] { assert xs[j] == t[j - 1] && t[j - 1] in multiset(t); }
    }
  }

  /** Along the JSON order the owners of any two claims ascend, and one owner
      has one interval. */
  ghost predicate Ordered(cs: seq<Claim>) {
    forall i, j | 0 <= i < j < |cs| ::
      if cs[i].component == cs[j].component then cs[i].interval == cs[j].interval
      else Lt(cs[i].component, cs[j].component)
  }

  lemma {:induction false} ClaimsOrdered(fm: seq<Entry>)
    requires Ascending(fm)
    ensures Ordered(Claims(fm))
    ensures forall c | c in Claims(fm) :: exists x | x in fm :: c.component == x.element
  {
    if fm == [] {
    } else {
      var n := |fm| - 1;
      ClaimsOrdered(fm[..n]);
      forall c | c in Claims(fm[..n]) ensures Lt(c.component, fm[n].element) {
        var x :| x in fm[..n] && c.component == x.element;
      }
      assert fm[n] in fm;
    }
  }
}
