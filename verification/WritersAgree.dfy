/** The two writers compared: when the sorted manifest and the file map leave
    the same xattrs, and when they count alike. */
module WritersAgree {
  import opened Text
  import opened Manifest
  import opened Filemap
  import opened Writers

  // ---- Sorting the lines is sorting the claims ----

  function InsertClaim(c: Claim, cs: seq<Claim>): (r: seq<Claim>)
    ensures |r| == |cs| + 1
    ensures forall x :: x in r <==> x == c || x in cs
  {
    if cs == [] || Le(PrintClaim(c), PrintClaim(cs[0])) then [c] + cs
    else [cs[0]] + InsertClaim(c, cs[1..])
  }

  function SortClaims(cs: seq<Claim>): (r: seq<Claim>)
    ensures |r| == |cs|
    ensures forall x :: x in r <==> x in cs
  {
    if cs == [] then [] else InsertClaim(cs[0], SortClaims(cs[1..]))
  }

  lemma PrintTail(cs: seq<Claim>)
    requires cs != []
    ensures PrintAll(cs)[0] == PrintClaim(cs[0]) && PrintAll(cs)[1..] == PrintAll(cs[1..])
  {}

  lemma {:induction false} InsertPrints(c: Claim, cs: seq<Claim>)
    ensures PrintAll(InsertClaim(c, cs)) == Insert(PrintClaim(c), PrintAll(cs))
  {
    if cs == [] || Le(PrintClaim(c), PrintClaim(cs[0])) {
    } else {
      InsertPrints(c, cs[1..]);
      PrintTail(cs);
    }
  }

  lemma {:induction false} SortPrints(cs: seq<Claim>)
    ensures PrintAll(SortClaims(cs)) == Sort(PrintAll(cs))
  {
    if cs == [] {
    } else {
      SortPrints(cs[1..]);
      InsertPrints(cs[0], SortClaims(cs[1..]));
      PrintTail(cs);
    }
  }

  /** The sorted claims have ascending lines. */
  lemma SortedClaims(cs: seq<Claim>)
    ensures forall i, j | 0 <= i < j < |cs| ::
              Le(PrintClaim(SortClaims(cs)[i]), PrintClaim(SortClaims(cs)[j]))
  {
    SortPrints(cs);
    SortSorted(PrintAll(cs));
    var r := PrintAll(SortClaims(cs));
    forall i, j | 0 <= i < j < |cs|
      ensures Le(PrintClaim(SortClaims(cs)[i]), PrintClaim(SortClaims(cs)[j]))
    {
      assert Le(r[i], r[j]);
    }
  }

  // ---- The manifest text read back ----

  /** The claim survives the manifest format, the line buffer and the path buffer. */
  predicate Fits(c: Claim, rootLength: nat) {
    && Printable(c)
    && |PrintClaim(c)| + 1 < LINE_SIZE
    && rootLength + |c.path| < LINE_SIZE
  }

  ghost predicate AllFit(cs: seq<Claim>, rootLength: nat) {
    forall c | c in cs :: Fits(c, rootLength)
  }

  /** `fgets` takes a short line whole. */
  lemma AttemptedLine(line: string, rest: string, rootLength: nat)
    requires Clean(line) && |line| + 1 < LINE_SIZE
    ensures Attempted(line + [NL] + rest, rootLength)
            == ChunkClaim(line + [NL], rootLength) + Attempted(rest, rootLength)
  {
    var text := line + [NL] + rest;
    assert text[..|line|] == line;
    IndexOfIs(text, NL, |line|);
    assert text[..|line| + 1] == line + [NL] && text[|line| + 1..] == rest;
  }

  lemma ChunkOfLine(line: string, rootLength: nat)
    requires Clean(line)
    ensures var c := ParseLine(line);
            ChunkClaim(line + [NL], rootLength)
            == if c.Some? && rootLength + |c.value.path| < LINE_SIZE then [c.value] else []
  {
    var chunk := line + [NL];
    assert NUL !in chunk && chunk[..|chunk|] == chunk;
    IndexOfIs(chunk, NUL, |chunk|);
    assert chunk[..|line|] == line;
  }

  lemma AttemptedClaim(c: Claim, rest: string, rootLength: nat)
    requires Fits(c, rootLength)
    ensures Attempted(PrintClaim(c) + [NL] + rest, rootLength) == [c] + Attempted(rest, rootLength)
  {
    ParsePrinted(c);
    AttemptedLine(PrintClaim(c), rest, rootLength);
    ChunkOfLine(PrintClaim(c), rootLength);
  }

  lemma UnlinesPrinted(cs: seq<Claim>)
    requires cs != []
    ensures Unlines(PrintAll(cs)) == PrintClaim(cs[0]) + [NL] + Unlines(PrintAll(cs[1..]))
  {
    assert PrintAll(cs) == [PrintClaim(cs[0])] + PrintAll(cs[1..]);
  }

  lemma {:induction false} AttemptedPrinted(cs: seq<Claim>, rootLength: nat)
    requires AllFit(cs, rootLength)
    ensures Attempted(Unlines(PrintAll(cs)), rootLength) == cs
  {
    if cs == [] {
    } else {
      assert Fits(cs[0], rootLength);
      AttemptedPrinted(cs[1..], rootLength);
      UnlinesPrinted(cs);
      AttemptedClaim(cs[0], Unlines(PrintAll(cs[1..])), rootLength);
      assert cs == [cs[0]] + cs[1..];
    }
  }

  lemma HeaderIsClean()
    ensures Clean(HEADER_TITLE + HEADER_COLUMNS) && HEADER_TITLE[0] == '#'
    ensures |HEADER_TITLE| + |HEADER_COLUMNS| < 100
  {
    assert Clean(HEADER_TITLE);
    assert Clean(HEADER_COLUMNS);
  }

  lemma CommentSkipped(line: string, rest: string, rootLength: nat)
    requires Clean(line) && line != "" && line[0] == '#' && |line| + 1 < LINE_SIZE
    ensures Attempted(line + [NL] + rest, rootLength) == Attempted(rest, rootLength)
  {
    AttemptedLine(line, rest, rootLength);
    ChunkOfLine(line, rootLength);
  }

  lemma HeaderIsComment(rest: string, rootLength: nat)
    ensures Attempted(MANIFEST_HEADER + rest, rootLength) == Attempted(rest, rootLength)
  {
    HeaderIsClean();
    CommentSkipped(HEADER_TITLE + HEADER_COLUMNS, rest, rootLength);
  }

  lemma BodyReadBack(cs: seq<Claim>, rootLength: nat)
    requires AllFit(cs, rootLength)
    ensures Attempted(Join(PrintAll(cs), "\n") + "\n", rootLength) == cs
  {
    if cs == [] {
      AttemptedLine("", "", rootLength);
      ChunkOfLine("", rootLength);
      assert Join(PrintAll(cs), "\n") + "\n" == "" + [NL] + "";
    } else {
      JoinUnlines(PrintAll(cs));
      AttemptedPrinted(cs, rootLength);
    }
  }

  /** Round trip: fakecap-restore attempts exactly the claims of the file map,
      in the order of their lines. */
  lemma ManifestReadBack(fm: seq<Entry>, rootLength: nat)
    requires AllFit(Claims(fm), rootLength)
    ensures Attempted(ManifestText(fm), rootLength) == SortClaims(Claims(fm))
  {
    var body := Join(Sort(PrintAll(Claims(fm))), "\n") + "\n";
    SortPrints(Claims(fm));
    assert ManifestText(fm) == MANIFEST_HEADER + body;
    HeaderIsComment(body, rootLength);
    BodyReadBack(SortClaims(Claims(fm)), rootLength);
  }

  // ---- The last claim on a file decides ----

  /** The last claim on one of some paths. */
  function LastOn(cs: seq<Claim>, paths: set<string>): (r: Option<Claim>)
    ensures r.Some? ==> r.value in cs && r.value.path in paths
    ensures r.None? ==> forall c | c in cs :: c.path !in paths
  {
    if cs == [] then None
    else if cs[|cs| - 1].path in paths then Some(cs[|cs| - 1])
    else LastOn(cs[..|cs| - 1], paths)
  }

  function LastClaim(cs: seq<Claim>, p: string): Option<Claim> { LastOn(cs, {p}) }

  lemma {:induction false} LastOnIndex(cs: seq<Claim>, paths: set<string>) returns (i: nat)
    requires LastOn(cs, paths).Some?
    ensures i < |cs| && cs[i] == LastOn(cs, paths).value
    ensures forall j | i < j < |cs| :: cs[j].path !in paths
  {
    if cs[|cs| - 1].path in paths { i := |cs| - 1; } else { i := LastOnIndex(cs[..|cs| - 1], paths); }
  }

  lemma {:induction false} LastOnSame(cs: seq<Claim>, a: set<string>, b: set<string>)
    requires forall c | c in cs :: c.path in a <==> c.path in b
    ensures LastOn(cs, a) == LastOn(cs, b)
  {
    if cs == [] {
    } else {
      LastOnSame(cs[..|cs| - 1], a, b);
    }
  }

  /** The paths through which the component of a file is set, and its interval. */
  function ComponentPaths(k: Kernel, file: nat): set<string> {
    set p | p in k && SetsComponent(k[p]) && k[p].file == file
  }

  function IntervalPaths(k: Kernel, file: nat): set<string> { set p | p in k && k[p] == Writable(file) }

  /** What the files carry after a list of claims. */
  lemma {:induction false} MarksAt(cs: seq<Claim>, k: Kernel, m: Marks, f: nat)
    ensures var r, c := WriteAll(cs, k, m), LastOn(cs, ComponentPaths(k, f));
            if c.Some? then f in r.component && r.component[f] == c.value.component
            else (f in r.component <==> f in m.component)
                 && (f in m.component ==> r.component[f] == m.component[f])
    ensures var r, c := WriteAll(cs, k, m), LastOn(cs, IntervalPaths(k, f));
            if c.Some? then f in r.interval && r.interval[f] == c.value.interval
            else (f in r.interval <==> f in m.interval)
                 && (f in m.interval ==> r.interval[f] == m.interval[f])
  {
    if cs == [] {
    } else {
      MarksAt(cs[..|cs| - 1], k, m, f);
    }
  }

  function ComponentOf(c: Option<Claim>): Option<string> { if c.None? then None else Some(c.value.component) }

  function IntervalOf(c: Option<Claim>): Option<string> { if c.None? then None else Some(c.value.interval) }

  /** Two lists of claims leave the same on file `f`. */
  predicate SameOn(a: seq<Claim>, b: seq<Claim>, k: Kernel, f: nat) {
    && ComponentOf(LastOn(a, ComponentPaths(k, f))) == ComponentOf(LastOn(b, ComponentPaths(k, f)))
    && IntervalOf(LastOn(a, IntervalPaths(k, f))) == IntervalOf(LastOn(b, IntervalPaths(k, f)))
  }

  lemma SameOnSameMarks(a: seq<Claim>, b: seq<Claim>, k: Kernel, m: Marks)
    requires forall f: nat :: SameOn(a, b, k, f)
    ensures WriteAll(a, k, m) == WriteAll(b, k, m)
  {
    var r, q := WriteAll(a, k, m), WriteAll(b, k, m);
    forall f: nat
      ensures f in r.component <==> f in q.component
      ensures f in r.component ==> r.component[f] == q.component[f]
      ensures f in r.interval <==> f in q.interval
      ensures f in r.interval ==> r.interval[f] == q.interval[f]
    {
      assert SameOn(a, b, k, f);
      MarksAt(a, k, m, f);
      MarksAt(b, k, m, f);
    }
    assert r.component == q.component && r.interval == q.interval;
  }

  lemma SameMarksSameOn(a: seq<Claim>, b: seq<Claim>, k: Kernel, f: nat)
    requires WriteAll(a, k, Marks(map[], map[])) == WriteAll(b, k, Marks(map[], map[]))
    ensures SameOn(a, b, k, f)
  {
    MarksAt(a, k, Marks(map[], map[]), f);
    MarksAt(b, k, Marks(map[], map[]), f);
  }

  /** Whatever the files carried before, two lists of claims leave the same on them. */
  ghost predicate SameEffect(a: seq<Claim>, b: seq<Claim>, k: Kernel) {
    forall m: Marks :: WriteAll(a, k, m) == WriteAll(b, k, m)
  }

  lemma SameEffectLaw(a: seq<Claim>, b: seq<Claim>, k: Kernel)
    ensures SameEffect(a, b, k) <==> forall f: nat :: SameOn(a, b, k, f)
  {
    if forall f: nat :: SameOn(a, b, k, f) {
      forall m: Marks ensures WriteAll(a, k, m) == WriteAll(b, k, m) { SameOnSameMarks(a, b, k, m); }
      assert SameEffect(a, b, k);
    }
    if SameEffect(a, b, k) {
      assert WriteAll(a, k, Marks(map[], map[])) == WriteAll(b, k, Marks(map[], map[]));
      forall f: nat ensures SameOn(a, b, k, f) { SameMarksSameOn(a, b, k, f); }
    }
  }

  // ---- The last claim in line order ----

  /** Of the claims on some paths, `g` has the greatest line. */
  predicate Greatest(cs: seq<Claim>, paths: set<string>, g: Claim) {
    && g in cs && g.path in paths
    && forall c | c in cs && c.path in paths :: Le(PrintClaim(c), PrintClaim(g))
  }

  /** Sorting puts the claim with the greatest line last. */
  lemma SortedLastIsGreatest(cs: seq<Claim>, paths: set<string>)
    ensures LastOn(SortClaims(cs), paths).None? <==> forall c | c in cs :: c.path !in paths
    ensures LastOn(SortClaims(cs), paths).Some? ==> Greatest(cs, paths, LastOn(SortClaims(cs), paths).value)
  {
    var s := SortClaims(cs);
    if LastOn(s, paths).Some? {
      SortedClaims(cs);
      var i := LastOnIndex(s, paths);
      forall c | c in cs && c.path in paths ensures Le(PrintClaim(c), PrintClaim(s[i])) {
        assert c in s;
        var j :| 0 <= j < |s| && s[j] == c;
        if i == j { LeReflexive(PrintClaim(c)); }
      }
    }
  }

  lemma GreatestUnique(cs: seq<Claim>, paths: set<string>, g: Claim, h: Claim)
    requires Greatest(cs, paths, g) && Greatest(cs, paths, h) && forall c | c in cs :: Printable(c)
    ensures g == h
  {
    LeAntisymmetric(PrintClaim(g), PrintClaim(h));
    PrintInjective(g, h);
  }

  /** What a claim says, as component or interval. */
  type Field = Option<Claim> -> Option<string>

  /** On some paths, the last of the `reached` claims says the same as the claim of
      `cs` with the greatest line, and there is none when `cs` has none. */
  ghost predicate SettledOn(cs: seq<Claim>, reached: seq<Claim>, paths: set<string>, field: Field) {
    && (forall g | Greatest(cs, paths, g) :: field(LastOn(reached, paths)) == field(Some(g)))
    && (LastOn(cs, paths).None? ==> LastOn(reached, paths).None?)
  }

  /** A file is settled when both of its xattrs are. */
  ghost predicate Settled(cs: seq<Claim>, reached: seq<Claim>, k: Kernel, f: nat) {
    && SettledOn(cs, reached, ComponentPaths(k, f), ComponentOf)
    && SettledOn(cs, reached, IntervalPaths(k, f), IntervalOf)
  }

  lemma SettledIsLast(cs: seq<Claim>, reached: seq<Claim>, paths: set<string>, field: Field)
    requires forall c | c in cs :: Printable(c)
    requires forall c :: field(c).None? <==> c.None?
    ensures SettledOn(cs, reached, paths, field)
            <==> field(LastOn(SortClaims(cs), paths)) == field(LastOn(reached, paths))
  {
    SortedLastIsGreatest(cs, paths);
    if LastOn(SortClaims(cs), paths).Some? {
      var l := LastOn(SortClaims(cs), paths).value;
      forall g | Greatest(cs, paths, g) ensures g == l { GreatestUnique(cs, paths, g, l); }
    }
  }

  lemma SettledIsSameOn(cs: seq<Claim>, reached: seq<Claim>, k: Kernel, f: nat)
    requires forall c | c in cs :: Printable(c)
    ensures Settled(cs, reached, k, f) <==> SameOn(SortClaims(cs), reached, k, f)
  {
    SettledIsLast(cs, reached, ComponentPaths(k, f), ComponentOf);
    SettledIsLast(cs, reached, IntervalPaths(k, f), IntervalOf);
  }

  /** Writing the claims in line order has the effect of other claims exactly when
      every file is settled. */
  lemma SortingLaw(cs: seq<Claim>, reached: seq<Claim>, k: Kernel)
    requires forall c | c in cs :: Printable(c)
    ensures SameEffect(SortClaims(cs), reached, k) <==> forall f: nat :: Settled(cs, reached, k, f)
  {
    SameEffectLaw(SortClaims(cs), reached, k);
    forall f: nat ensures Settled(cs, reached, k, f) <==> SameOn(SortClaims(cs), reached, k, f) {
      SettledIsSameOn(cs, reached, k, f);
    }
  }

  /** What each writer does with a file map: the claims it writes, in order. */
  function Restored(fm: seq<Entry>, rootLength: nat): seq<Claim> { Attempted(ManifestText(fm), rootLength) }

  function Applied(fm: seq<Entry>, k: Kernel): seq<Claim> { Reached(Retarget(Claims(fm)), k) }

  lemma RestoredClaims(fm: seq<Entry>, rootLength: nat)
    requires AllFit(Claims(fm), rootLength)
    ensures Restored(fm, rootLength) == SortClaims(Claims(fm))
    ensures forall c | c in Claims(fm) :: Printable(c)
  {
    ManifestReadBack(fm, rootLength);
    forall c | c in Claims(fm) ensures Printable(c) { assert Fits(c, rootLength); }
  }

  /** THE LAW: under any kernel behaviour - several spellings of a path, paths that
      lead to one file, errors that end apply-xattrs - and for every state of the
      files before, the manifest and the file map leave the same xattrs if and only
      if every file is settled. */
  lemma WritersAgree(fm: seq<Entry>, rootLength: nat, k: Kernel)
    requires AllFit(Claims(fm), rootLength)
    ensures SameEffect(Restored(fm, rootLength), Applied(fm, k), k)
            <==> forall f: nat :: Settled(Claims(fm), Applied(fm, k), k, f)
  {
    RestoredClaims(fm, rootLength);
    SortingLaw(Claims(fm), Applied(fm, k), k);
  }

  // ---- Paths that are respelled ----

  /** For the kernel the listed path is the one that apply-xattrs makes of it. */
  predicate Respells(cs: seq<Claim>, k: Kernel) { forall c | c in cs :: SameAsTarget(k, c.path) }

  predicate SameAsTarget(k: Kernel, path: string) { On(k, path) == On(k, Target(path)) }

  lemma {:induction false} RespelledReached(cs: seq<Claim>, k: Kernel)
    requires Respells(cs, k)
    ensures Reached(Retarget(cs), k) == Retarget(Reached(cs, k))
  {
    if cs == [] {
    } else {
      assert cs[0] in cs && SameAsTarget(k, cs[0].path);
      assert Retarget(cs)[1..] == Retarget(cs[1..]);
      RespelledReached(cs[1..], k);
      RetargetAppend([cs[0]], Reached(cs[1..], k));
    }
  }

  lemma {:induction false} RespelledMarks(cs: seq<Claim>, k: Kernel, m: Marks)
    requires Respells(cs, k)
    ensures WriteAll(Retarget(cs), k, m) == WriteAll(cs, k, m)
  {
    if cs == [] {
    } else {
      var n := |cs| - 1;
      assert cs[n] in cs && SameAsTarget(k, cs[n].path);
      assert Retarget(cs)[..n] == Retarget(cs[..n]);
      RespelledMarks(cs[..n], k, m);
    }
  }

  lemma {:induction false} RespelledTally(cs: seq<Claim>, k: Kernel)
    requires Respells(cs, k)
    ensures ApplyTally(Retarget(cs), k) == ApplyTally(cs, k)
    ensures Raising(Retarget(cs), k) <==> Raising(cs, k)
  {
    if cs == [] {
    } else {
      var n := |cs| - 1;
      assert cs[n] in cs && SameAsTarget(k, cs[n].path);
      assert Retarget(cs)[..n] == Retarget(cs[..n]);
      RespelledTally(cs[..n], k);
      RaisingSnoc(cs[..n], cs[n], k);
      RaisingSnoc(Retarget(cs[..n]), Retarget(cs)[n], k);
      assert cs == cs[..n] + [cs[n]] && Retarget(cs) == Retarget(cs[..n]) + [Retarget(cs)[n]];
    }
  }

  lemma RaisingSnoc(cs: seq<Claim>, c: Claim, k: Kernel)
    ensures Raising(cs + [c], k) <==> Raising(cs, k) || On(k, c.path).Raises?
  {
    ReachedAppend(cs, [c], k);
    assert c in [c];
  }

  /** What is reached of the respelled claims has the effect of what would be
      reached of the listed ones. */
  lemma RespelledEffect(cs: seq<Claim>, sorted: seq<Claim>, k: Kernel)
    requires Respells(cs, k)
    ensures SameEffect(sorted, Reached(Retarget(cs), k), k) <==> SameEffect(sorted, Reached(cs, k), k)
  {
    ReachedMembers(cs, k);
    RespelledReached(cs, k);
    forall m: Marks ensures WriteAll(Reached(Retarget(cs), k), k, m) == WriteAll(Reached(cs, k), k, m) {
      RespelledMarks(Reached(cs, k), k, m);
    }
  }

  lemma {:induction false} ReachedMembers(cs: seq<Claim>, k: Kernel)
    ensures forall c | c in Reached(cs, k) :: c in cs
  {
    if cs == [] {
    } else {
      ReachedMembers(cs[1..], k);
      assert cs == [cs[0]] + cs[1..];
    }
  }

  /** For paths in the usual spelling nothing is respelled, whatever the kernel. */
  lemma SpelledApplied(fm: seq<Entry>, k: Kernel)
    requires forall c | c in Claims(fm) :: Spelled(c.path)
    ensures Applied(fm, k) == Reached(Claims(fm), k) && Respells(Claims(fm), k)
  {
    SpelledRetarget(Claims(fm));
    forall c | c in Claims(fm) ensures SameAsTarget(k, c.path) { SpelledStays(c.path); }
  }

  /** Where nothing raises, apply-xattrs leaves on a file what the last of the listed
      claims that lead to it says. */
  lemma ListedFilesMarked(fm: seq<Entry>, k: Kernel, m: Marks, f: nat)
    requires (forall c | c in Claims(fm) :: Spelled(c.path)) && !Raising(Claims(fm), k)
    ensures var r, c := WriteAll(Applied(fm, k), k, m), LastOn(Claims(fm), ComponentPaths(k, f));
            c.Some? ==> f in r.component && r.component[f] == c.value.component
    ensures var r, c := WriteAll(Applied(fm, k), k, m), LastOn(Claims(fm), IntervalPaths(k, f));
            c.Some? ==> f in r.interval && r.interval[f] == c.value.interval
  {
    SpelledApplied(fm, k);
    ReachedAll(Claims(fm), k);
    MarksAt(Claims(fm), k, m, f);
  }

  // ---- Owners that are settled under every plain kernel ----

  /** No exception ends the program, respelling a path makes no difference, and no
      two listed paths lead to one file. */
  predicate Plain(cs: seq<Claim>, k: Kernel) {
    && !Raising(cs, k) && Respells(cs, k)
    && forall c, d | c in cs && d in cs && SameFile(k, c.path, d.path) :: c.path == d.path
  }

  predicate SameFile(k: Kernel, p: string, q: string) {
    SetsComponent(On(k, p)) && SetsComponent(On(k, q)) && On(k, p).file == On(k, q).file
  }

  /** The path is listed under one spelling only; two of them lead to one file. */
  predicate OneSpelling(cs: seq<Claim>, path: string) {
    forall c | c in cs && Target(c.path) == Target(path) :: c.path == path
  }

  /** No owner of a path of one spelling overtakes, in line order, the owner that the
      file map names last. Names whose characters all sort after TAB satisfy this. */
  predicate SafeOwners(cs: seq<Claim>) {
    forall c | c in cs && OneSpelling(cs, c.path) :: Settles(c, LastClaim(cs, c.path))
  }

  predicate Settles(c: Claim, last: Option<Claim>) {
    last.Some? ==> !OvertakenByTab(c.component, last.value.component)
  }

  /** In a list with ascending owners, a claim on a path is either the last one or
      has a strictly smaller owner. */
  lemma OwnerBelowLast(cs: seq<Claim>, c: Claim)
    requires Ordered(cs) && c in cs
    ensures LastClaim(cs, c.path).Some?
    ensures var l := LastClaim(cs, c.path).value; c == l || Lt(c.component, l.component)
  {
    var i := LastOnIndex(cs, {c.path});
    var j :| 0 <= j < |cs| && cs[j] == c;
  }

  /** The last claim on a path has the greatest line exactly when nobody overtakes it. */
  lemma LastHasGreatestLine(cs: seq<Claim>, l: Claim)
    requires Ordered(cs) && forall c | c in cs :: Printable(c)
    requires l in cs && LastClaim(cs, l.path) == Some(l)
    ensures Greatest(cs, {l.path}, l) <==> forall c | c in cs && c.path == l.path :: Settles(c, Some(l))
  {
    forall c | c in cs && c.path == l.path
      ensures Le(PrintClaim(c), PrintClaim(l)) <==> Settles(c, Some(l))
    {
      OwnerBelowLast(cs, c);
      if c == l { LeReflexive(PrintClaim(c)); } else { LinesOrderOwners(c, l); }
    }
  }

  /** The claims on a file are the ones on the path of any of them. */
  lemma PlainPaths(cs: seq<Claim>, k: Kernel, f: nat, g: Claim)
    requires Plain(cs, k) && g in cs && g.path in ComponentPaths(k, f)
    ensures LastOn(cs, ComponentPaths(k, f)) == LastClaim(cs, g.path)
    ensures forall c | c in cs :: c.path in ComponentPaths(k, f) <==> c.path == g.path
    ensures forall c | c in cs :: c.path in IntervalPaths(k, f) <==> c.path == g.path && k[g.path].Writable?
  {
    forall c | c in cs ensures c.path in ComponentPaths(k, f) <==> c.path in {g.path} {
      if c.path in ComponentPaths(k, f) { assert SameFile(k, c.path, g.path); }
    }
    LastOnSame(cs, ComponentPaths(k, f), {g.path});
  }

  lemma PlainOneSpelling(cs: seq<Claim>, k: Kernel, g: Claim)
    requires Plain(cs, k) && g in cs && SetsComponent(On(k, g.path))
    ensures OneSpelling(cs, g.path)
  {
    assert SameAsTarget(k, g.path);
    forall c | c in cs && Target(c.path) == Target(g.path) ensures c.path == g.path {
      assert SameAsTarget(k, c.path) && SameFile(k, c.path, g.path);
    }
  }

  lemma SafeComponent(cs: seq<Claim>, k: Kernel, f: nat, g: Claim)
    requires Ordered(cs) && forall c | c in cs :: Printable(c)
    requires SafeOwners(cs) && Plain(cs, k) && Greatest(cs, ComponentPaths(k, f), g)
    ensures LastOn(cs, ComponentPaths(k, f)) == Some(g)
  {
    PlainPaths(cs, k, f, g);
    PlainOneSpelling(cs, k, g);
    SafeLastIsGreatest(cs, g.path, g);
  }

  lemma SafeInterval(cs: seq<Claim>, k: Kernel, f: nat, g: Claim)
    requires Ordered(cs) && forall c | c in cs :: Printable(c)
    requires SafeOwners(cs) && Plain(cs, k) && Greatest(cs, IntervalPaths(k, f), g)
    ensures LastOn(cs, IntervalPaths(k, f)) == Some(g)
  {
    PlainPaths(cs, k, f, g);
    LastOnSame(cs, IntervalPaths(k, f), {g.path});
    PlainOneSpelling(cs, k, g);
    SafeLastIsGreatest(cs, g.path, g);
  }

  lemma SafeFileSettled(cs: seq<Claim>, k: Kernel, f: nat)
    requires Ordered(cs) && forall c | c in cs :: Printable(c)
    requires SafeOwners(cs) && Plain(cs, k)
    ensures Settled(cs, cs, k, f)
  {
    forall g | Greatest(cs, ComponentPaths(k, f), g) ensures LastOn(cs, ComponentPaths(k, f)) == Some(g) {
      SafeComponent(cs, k, f, g);
    }
    forall g | Greatest(cs, IntervalPaths(k, f), g) ensures LastOn(cs, IntervalPaths(k, f)) == Some(g) {
      SafeInterval(cs, k, f, g);
    }
  }

  lemma SafeLastIsGreatest(cs: seq<Claim>, p: string, g: Claim)
    requires Ordered(cs) && forall c | c in cs :: Printable(c)
    requires SafeOwners(cs) && OneSpelling(cs, p) && g in cs && g.path == p
    requires forall c | c in cs && c.path == p :: Le(PrintClaim(c), PrintClaim(g))
    ensures LastClaim(cs, p) == Some(g)
  {
    OwnerBelowLast(cs, g);
    var l := LastClaim(cs, p).value;
    LastHasGreatestLine(cs, l);
    GreatestUnique(cs, {p}, g, l);
  }

  /** A kernel that knows one file, under both spellings of its path. */
  function OneFile(path: string): Kernel { map[path := Writable(0), Target(path) := Writable(0)] }

  lemma OneFileAt(cs: seq<Claim>, c: Claim, d: Claim)
    requires c in cs && d in cs && OneSpelling(cs, c.path)
    ensures d.path in OneFile(c.path) <==> d.path == c.path
    ensures SameAsTarget(OneFile(c.path), d.path)
  {
    TargetTwice(c.path);
    TargetTwice(d.path);
  }

  lemma OneFilePlain(cs: seq<Claim>, c: Claim)
    requires c in cs && OneSpelling(cs, c.path)
    ensures Plain(cs, OneFile(c.path))
    ensures forall d | d in cs :: d.path in OneFile(c.path) <==> d.path == c.path
  {
    forall d | d in cs
      ensures d.path in OneFile(c.path) <==> d.path == c.path
      ensures SameAsTarget(OneFile(c.path), d.path)
    {
      OneFileAt(cs, c, d);
    }
  }

  lemma UnsafeFileUnsettled(cs: seq<Claim>, c: Claim, k: Kernel)
    requires Ordered(cs) && forall x | x in cs :: Printable(x)
    requires c in cs && OneSpelling(cs, c.path) && !Settles(c, LastClaim(cs, c.path)) && k == OneFile(c.path)
    ensures Plain(cs, k) && !Settled(cs, cs, k, 0)
  {
    var paths, l := ComponentPaths(k, 0), LastClaim(cs, c.path).value;
    OneFilePlain(cs, c);
    PlainPaths(cs, k, 0, c);
    var g := GreatestIsNotLast(cs, c, l);
    assert Greatest(cs, paths, g);
  }

  /** An overtaking owner has, or leaves to another one, the greatest line. */
  lemma GreatestIsNotLast(cs: seq<Claim>, c: Claim, l: Claim) returns (g: Claim)
    requires Ordered(cs) && forall x | x in cs :: Printable(x)
    requires c in cs && LastClaim(cs, c.path) == Some(l) && !Settles(c, Some(l))
    ensures Greatest(cs, {c.path}, g) && g.component != l.component
  {
    SortedLastIsGreatest(cs, {c.path});
    g := LastOn(SortClaims(cs), {c.path}).value;
    LastHasGreatestLine(cs, l);
    OwnerBelowLast(cs, g);
  }

  lemma SafeOwnersSettle(cs: seq<Claim>, k: Kernel)
    requires Ordered(cs) && forall c | c in cs :: Printable(c)
    requires SafeOwners(cs) && Plain(cs, k)
    ensures SameEffect(SortClaims(cs), cs, k)
  {
    forall f: nat ensures Settled(cs, cs, k, f) { SafeFileSettled(cs, k, f); }
    SortingLaw(cs, cs, k);
  }

  lemma UnsafeOwnersDisagree(cs: seq<Claim>) returns (k: Kernel)
    requires Ordered(cs) && forall c | c in cs :: Printable(c)
    requires !SafeOwners(cs)
    ensures Plain(cs, k) && !SameEffect(SortClaims(cs), cs, k)
  {
    var c :| c in cs && OneSpelling(cs, c.path) && !Settles(c, LastClaim(cs, c.path));
    k := OneFile(c.path);
    UnsafeFileUnsettled(cs, c, k);
    SortingLaw(cs, cs, k);
  }

  lemma SafeOwnersLaw(cs: seq<Claim>)
    requires Ordered(cs) && forall c | c in cs :: Printable(c)
    ensures SafeOwners(cs) <==> forall k | Plain(cs, k) :: SameEffect(SortClaims(cs), cs, k)
  {
    if SafeOwners(cs) {
      forall k | Plain(cs, k) ensures SameEffect(SortClaims(cs), cs, k) { SafeOwnersSettle(cs, k); }
    } else {
      var k := UnsafeOwnersDisagree(cs);
    }
  }

  lemma PlainEffect(cs: seq<Claim>, k: Kernel)
    requires Plain(cs, k)
    ensures SameEffect(SortClaims(cs), Reached(Retarget(cs), k), k) <==> SameEffect(SortClaims(cs), cs, k)
  {
    RespelledEffect(cs, SortClaims(cs), k);
    ReachedAll(cs, k);
  }

  /** The law for all plain kernels at once: it is the owners' names that decide. */
  lemma SafeOwnersAgree(fm: seq<Entry>, rootLength: nat)
    requires Ascending(fm) && AllFit(Claims(fm), rootLength)
    ensures SafeOwners(Claims(fm)) <==>
              forall k | Plain(Claims(fm), k) :: SameEffect(Restored(fm, rootLength), Applied(fm, k), k)
  {
    var cs := Claims(fm);
    RestoredClaims(fm, rootLength);
    ClaimsOrdered(fm);
    SafeOwnersLaw(cs);
    forall k | Plain(cs, k)
      ensures SameEffect(SortClaims(cs), Reached(Retarget(cs), k), k) <==> SameEffect(SortClaims(cs), cs, k)
    {
      PlainEffect(cs, k);
    }
  }

  /** Where all paths are in the usual spelling, every path has one only. */
  lemma SpelledOnce(cs: seq<Claim>, c: Claim)
    requires c in cs && forall d | d in cs :: Spelled(d.path)
    ensures OneSpelling(cs, c.path)
  {
    SpelledStays(c.path);
    forall d | d in cs && Target(d.path) == Target(c.path) ensures d.path == c.path { SpelledStays(d.path); }
  }

  /** Names without characters up to TAB are safe, however many share a file. */
  lemma PlainNamesAreSafe(cs: seq<Claim>)
    requires forall c, x | c in cs && x in c.component :: x > TAB
    ensures SafeOwners(cs)
  {
    forall c | c in cs ensures Settles(c, LastClaim(cs, c.path)) {
      var l := LastClaim(cs, c.path);
      if l.Some? && |c.component| < |l.value.component| {
        assert l.value.component[|c.component|] in l.value.component;
      }
    }
  }

  // ---- The counters ----

  datatype Kind = Set | Half | Refusal | Absence | Obstacle | Exception

  function KindOf(o: Outcome): Kind {
    match o
    case Writable(_) => Set
    case ComponentOnly(_) => Half
    case Refused => Refusal
    case Missing => Absence
    case Unreachable => Obstacle
    case Raises => Exception
  }

  function CountKind(cs: seq<Claim>, k: Kernel, o: Kind): nat {
    if cs == [] then 0 else (if KindOf(On(k, cs[0].path)) == o then 1 else 0) + CountKind(cs[1..], k, o)
  }

  lemma {:induction false} CountAppend(a: seq<Claim>, b: seq<Claim>, k: Kernel, o: Kind)
    ensures CountKind(a + b, k, o) == CountKind(a, k, o) + CountKind(b, k, o)
  {
    if a == [] {
      assert a + b == b;
    } else {
      assert (a + b)[1..] == a[1..] + b;
      CountAppend(a[1..], b, k, o);
    }
  }

  lemma CountSnoc(cs: seq<Claim>, k: Kernel, o: Kind)
    requires cs != []
    ensures CountKind(cs, k, o)
            == CountKind(cs[..|cs| - 1], k, o) + if KindOf(On(k, cs[|cs| - 1].path)) == o then 1 else 0
  {
    CountAppend(cs[..|cs| - 1], [cs[|cs| - 1]], k, o);
    assert cs == cs[..|cs| - 1] + [cs[|cs| - 1]];
  }

  lemma {:induction false} CountInsert(c: Claim, cs: seq<Claim>, k: Kernel, o: Kind)
    ensures CountKind(InsertClaim(c, cs), k, o)
            == CountKind(cs, k, o) + if KindOf(On(k, c.path)) == o then 1 else 0
  {
    if cs == [] || Le(PrintClaim(c), PrintClaim(cs[0])) {
    } else {
      CountInsert(c, cs[1..], k, o);
    }
  }

  lemma {:induction false} CountSort(cs: seq<Claim>, k: Kernel, o: Kind)
    ensures CountKind(SortClaims(cs), k, o) == CountKind(cs, k, o)
  {
    if cs == [] {
    } else {
      CountSort(cs[1..], k, o);
      CountInsert(cs[0], SortClaims(cs[1..]), k, o);
    }
  }

  /** How each writer's counters split over the outcomes. */
  lemma {:induction false} TalliesCount(cs: seq<Claim>, k: Kernel)
    ensures RestoreTally(cs, k) == Tally(CountKind(cs, k, Set) + CountKind(cs, k, Half),
                                         CountKind(cs, k, Absence),
                                         CountKind(cs, k, Refusal) + CountKind(cs, k, Obstacle)
                                         + CountKind(cs, k, Exception))
    ensures ApplyTally(cs, k) == Tally(CountKind(cs, k, Set),
                                       CountKind(cs, k, Absence) + CountKind(cs, k, Obstacle),
                                       CountKind(cs, k, Refusal) + CountKind(cs, k, Half)
                                       + CountKind(cs, k, Exception))
  {
    if cs == [] {
    } else {
      TalliesCount(cs[..|cs| - 1], k);
      forall o ensures CountKind(cs, k, o)
            == CountKind(cs[..|cs| - 1], k, o) + if KindOf(On(k, cs[|cs| - 1].path)) == o then 1 else 0
      {
        CountSnoc(cs, k, o);
      }
    }
  }

  lemma {:induction false} CountZero(cs: seq<Claim>, k: Kernel, o: Kind)
    ensures CountKind(cs, k, o) == 0 <==> forall c | c in cs :: KindOf(On(k, c.path)) != o
  {
    if cs == [] {
    } else {
      CountZero(cs[1..], k, o);
      assert cs == [cs[0]] + cs[1..];
    }
  }

  /** The claim meets an outcome that both programs count under the same heading. */
  predicate CountedAlike(k: Kernel, c: Claim) { KindOf(On(k, c.path)) !in {Half, Obstacle, Exception} }

  /** fakecap-restore accounts for every claim, and apply-xattrs does unless it is
      ended by an exception. If respelling makes no difference, they print the same
      counters if and only if no second call fails, no file is hidden by another error
      than ENOENT, and nothing raises. */
  lemma TalliesAgree(fm: seq<Entry>, rootLength: nat, k: Kernel)
    requires AllFit(Claims(fm), rootLength)
    ensures var r, a := RestoreTally(Restored(fm, rootLength), k), ApplyResult(Retarget(Claims(fm)), k);
            && r.written + r.skipped + r.errors == |Claims(fm)|
            && (a.Some? ==> a.value.written + a.value.skipped + a.value.errors == |Claims(fm)|)
            && (Respells(Claims(fm), k) ==>
                  && (a.Some? ==> r.written >= a.value.written && r.skipped <= a.value.skipped)
                  && (a == Some(r) <==> forall c | c in Claims(fm) :: CountedAlike(k, c)))
  {
    RestoredClaims(fm, rootLength);
    SortedTallies(Claims(fm), k);
    SortedTallies(Retarget(Claims(fm)), k);
    if Respells(Claims(fm), k) { RespelledTally(Claims(fm), k); }
  }

  /** The order of the claims does not matter to the counters. */
  lemma SortedCounts(cs: seq<Claim>, k: Kernel)
    ensures RestoreTally(SortClaims(cs), k) == RestoreTally(cs, k)
  {
    TalliesCount(cs, k);
    TalliesCount(SortClaims(cs), k);
    CountSort(cs, k, Set);
    CountSort(cs, k, Half);
    CountSort(cs, k, Absence);
    CountSort(cs, k, Refusal);
    CountSort(cs, k, Obstacle);
    CountSort(cs, k, Exception);
  }

  lemma AllCountedAlike(cs: seq<Claim>, k: Kernel)
    ensures (forall c | c in cs :: CountedAlike(k, c))
            <==> CountKind(cs, k, Half) == CountKind(cs, k, Obstacle) == CountKind(cs, k, Exception) == 0
    ensures Raising(cs, k) <==> CountKind(cs, k, Exception) != 0
  {
    CountZero(cs, k, Half);
    CountZero(cs, k, Obstacle);
    CountZero(cs, k, Exception);
    if Raising(cs, k) {
      var c :| c in cs && On(k, c.path).Raises?;
      assert KindOf(On(k, c.path)) == Exception;
    }
  }

  lemma SortedTallies(cs: seq<Claim>, k: Kernel)
    ensures var r, a := RestoreTally(SortClaims(cs), k), ApplyTally(cs, k);
            && r.written + r.skipped + r.errors == |cs| == a.written + a.skipped + a.errors
            && r.written >= a.written && r.skipped <= a.skipped
            && (a == r && !Raising(cs, k) <==> forall c | c in cs :: CountedAlike(k, c))
  {
    SortedCounts(cs, k);
    TalliesCount(cs, k);
    AllCountedAlike(cs, k);
    CountsCover(cs, k);
  }

  /** Under every kernel the counters are equal if and only if nothing raises and the
      outcomes of the respelled paths balance those of the listed ones. */
  lemma TalliesBalance(fm: seq<Entry>, rootLength: nat, k: Kernel)
    requires AllFit(Claims(fm), rootLength)
    ensures ApplyResult(Retarget(Claims(fm)), k) == Some(RestoreTally(Restored(fm, rootLength), k))
            <==> !Raising(Retarget(Claims(fm)), k) && Balanced(Claims(fm), Retarget(Claims(fm)), k)
  {
    RestoredClaims(fm, rootLength);
    SortedBalance(Claims(fm), Retarget(Claims(fm)), k);
  }

  /** What the first list meets as files set, the second meets as files written, and
      what the first meets as missing, the second does as missing or hidden. */
  predicate Balanced(cs: seq<Claim>, cs': seq<Claim>, k: Kernel) {
    && CountKind(cs', k, Set) == CountKind(cs, k, Set) + CountKind(cs, k, Half)
    && CountKind(cs', k, Absence) + CountKind(cs', k, Obstacle) == CountKind(cs, k, Absence)
  }

  lemma SortedBalance(cs: seq<Claim>, cs': seq<Claim>, k: Kernel)
    requires |cs| == |cs'|
    ensures ApplyTally(cs', k) == RestoreTally(SortClaims(cs), k) <==> Balanced(cs, cs', k)
  {
    SortedCounts(cs, k);
    TalliesCount(cs, k);
    TalliesCount(cs', k);
    CountsCover(cs, k);
    CountsCover(cs', k);
  }

  lemma {:induction false} CountsCover(cs: seq<Claim>, k: Kernel)
    ensures CountKind(cs, k, Set) + CountKind(cs, k, Half) + CountKind(cs, k, Refusal)
            + CountKind(cs, k, Absence) + CountKind(cs, k, Obstacle) + CountKind(cs, k, Exception) == |cs|
  {
    if cs == [] {
    } else {
      CountsCover(cs[1..], k);
    }
  }

  // ---- From the listing to the files ----

  /** What the listing parser leaves open: NUL characters, a tab inside an element
      name, and the two buffer sizes. */
  predicate FitsListed(c: Claim, rootLength: nat) {
    && TAB !in c.component && NUL !in c.path && NUL !in c.component
    && |PrintClaim(c)| + 1 < LINE_SIZE && rootLength + |c.path| < LINE_SIZE
  }

  lemma {:induction false} ClaimIsListed(fm: seq<Entry>, c: Claim) returns (x: Entry)
    requires c in Claims(fm)
    ensures x in fm && c.path in x.files && c.component == x.element && c.interval == x.interval
  {
    var e := fm[|fm| - 1];
    if c in ClaimsOf(e) {
      x := e;
      var i :| 0 <= i < |e.files| && ClaimsOf(e)[i] == c;
    } else {
      x := ClaimIsListed(fm[..|fm| - 1], c);
    }
  }

  /** Whatever the artifact listing was, the map built from it satisfies the law
      once its claims fit: ascending owners and clean paths come for free. */
  lemma GeneratedMapFits(out: string, c: Contents, rootLength: nat)
    requires c.Valid()
    requires var lines := ReadLines(SplitLines(out)); Lists(c, lines, |lines|)
    requires forall e | e in Sort(c.order) :: e in c.files
    ensures var fm := FilemapOf(Sort(c.order), c.files);
            && Ascending(fm)
            && (AllFit(Claims(fm), rootLength)
                <==> forall x | x in Claims(fm) :: FitsListed(x, rootLength))
  {
    var fm := FilemapOf(Sort(c.order), c.files);
    SortedKeysDistinct(c.order);
    FilemapAscending(Sort(c.order), c.files);
    forall x | x in Claims(fm) && FitsListed(x, rootLength) ensures Fits(x, rootLength) {
      ListedClaimFits(out, c, x, rootLength);
    }
    forall x | x in Claims(fm) && Fits(x, rootLength) ensures FitsListed(x, rootLength) {}
  }

  lemma ListedClaimFits(out: string, c: Contents, x: Claim, rootLength: nat)
    requires c.Valid()
    requires var lines := ReadLines(SplitLines(out)); Lists(c, lines, |lines|)
    requires forall e | e in Sort(c.order) :: e in c.files
    requires x in Claims(FilemapOf(Sort(c.order), c.files)) && FitsListed(x, rootLength)
    ensures Fits(x, rootLength)
  {
    SortedKeysDistinct(c.order);
    FilemapAscending(Sort(c.order), c.files);
    var entry := ClaimIsListed(FilemapOf(Sort(c.order), c.files), x);
    var e := entry.element;
    SortKeepsMembers(c.files[e]);
    assert x.path in c.files[e];
    ListedIsClean(out, c, e, x.path);
    GuessIsClean(e);
  }

  lemma GuessIsClean(e: string)
    ensures Clean(GuessInterval(e))
  {}

  lemma ListedIsClean(out: string, c: Contents, e: string, p: string)
    requires var lines := ReadLines(SplitLines(out)); Lists(c, lines, |lines|)
    requires e in c.files && p in c.files[e]
    ensures IsListedPath(p) && NoLineBreak(e)
  {
    var lines := ReadLines(SplitLines(out));
    ListingClean(out);
    ListedPathsAreClean(lines, |lines|, e);
    assert c.files[e] == PathsOf(lines, |lines|, e);
  }
}
