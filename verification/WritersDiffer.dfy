/** Maps that the generator makes of a listing and on which the two writers differ. */
module WritersDiffer {
  import opened Text
  import Ansi
  import opened Manifest
  import opened Filemap
  import opened Writers
  import opened WritersAgree

  // ---- Maps of two owners ----

  /** The map of two owners with a file each. */
  function TwoOwners(owner: string, file: string, owner': string, file': string): seq<Entry> {
    [Entry(owner, GuessInterval(owner), ["/" + file]), Entry(owner', GuessInterval(owner'), ["/" + file'])]
  }

  /** A field in front of others. */
  function Before(rest: string): string { "-" + " " + rest }

  /** A line of four fields, the last of which is the path. */
  function FileLine(file: string): string { "\t" + Before(Before(Before(file))) }

  /** The lines of an owner with one file. */
  function OneListed(owner: string, file: string): seq<string> { [owner + ":", FileLine(file)] }

  /** A short name that the listing parser reads as it is written. */
  predicate ShortName(s: string) {
    && 0 < |s| < 10 && NoSpace(s) && Ansi.ESC !in s && NUL !in s && s[|s| - 1] != ':'
    && forall c | c in s :: c != TAB && !IsLineBreak(c)
  }

  lemma ColonStripped(owner: string)
    requires ShortName(owner)
    ensures RStripChar(owner + ":", ':') == owner
  {
    assert (owner + ":")[..|owner|] == owner;
    assert RStripChar(owner, ':') == owner;
  }

  lemma HeaderRead(owner: string)
    requires ShortName(owner)
    ensures ReadLine(owner + ":") == Header(owner)
  {
    var line := owner + ":";
    Ansi.NoEscapeKept(line);
    assert NoSpace(line);
    ColonStripped(owner);
  }

  lemma NextField(rest: string, fields: seq<string>)
    requires Words(rest) == fields
    ensures Words(Before(rest)) == ["-"] + fields
  {
    assert "-" + " " + rest == "-" + [' '] + rest;
    WordThen("-", ' ', rest);
  }

  /** Three fields in front of another one. */
  lemma ThreeFields(rest: string, one: string, two: string, three: string, fields: seq<string>)
    requires Words(rest) == fields && |fields| == 1
    requires one == Before(rest) && two == Before(one) && three == Before(two)
    ensures |Words(three)| == 4 && Words(three)[1] == "-" && Words(three)[3] == fields[0]
  {
    NextField(rest, fields);
    NextField(one, Words(one));
    NextField(two, Words(two));
  }

  lemma WordsAfterTab(s: string)
    ensures Words("\t" + s) == Words(s)
  {
    assert "\t" + s == ['\t'] + s;
    BlankThen('\t', s);
  }

  lemma RStripWhole(s: string)
    requires s != "" && !IsSpace(s[|s| - 1])
    ensures RStrip(s) == s
  {}

  lemma FileLineEnds(file: string)
    requires ShortName(file)
    ensures Ansi.StripAnsi(FileLine(file)) == FileLine(file) && RStrip(FileLine(file)) == FileLine(file)
  {
    var line := FileLine(file);
    Ansi.NoEscapeKept(line);
    assert line[|line| - 1] == file[|file| - 1] && file[|file| - 1] in file;
    RStripWhole(line);
  }

  lemma FileRead(file: string)
    requires ShortName(file)
    ensures ReadLine(FileLine(file)) == File("/" + file)
  {
    FileLineEnds(file);
    OneWord(file);
    ThreeFields(file, Before(file), Before(Before(file)), Before(Before(Before(file))), [file]);
    WordsAfterTab(Before(Before(Before(file))));
    assert FileLine(file)[0] == TAB && "-" != "dir";
  }

  function OneHeader(owner: string, file: string): seq<ListingLine> { [Header(owner), File("/" + file)] }

  /** A line of the listing and what it is read as. */
  predicate ReadsAs(raw: string, line: ListingLine) { NoLineBreak(raw) && ReadLine(raw) == line }

  ghost predicate AllReadAs(raw: seq<string>, lines: seq<ListingLine>) {
    |raw| == |lines| && forall i | 0 <= i < |raw| :: ReadsAs(raw[i], lines[i])
  }

  lemma LinesRead(raw: seq<string>, lines: seq<ListingLine>)
    requires AllReadAs(raw, lines)
    ensures ReadLines(SplitLines(Unlines(raw))) == lines
  {
    forall l | l in raw ensures NoLineBreak(l) {
      var i :| 0 <= i < |raw| && raw[i] == l;
      assert ReadsAs(raw[i], lines[i]);
    }
    SplitLinesUnlines(raw);
    forall i | 0 <= i < |raw| ensures ReadLines(raw)[i] == lines[i] { assert ReadsAs(raw[i], lines[i]); }
  }

  lemma HeaderReadsAs(owner: string)
    requires ShortName(owner)
    ensures ReadsAs(owner + ":", Header(owner))
  {
    HeaderRead(owner);
  }

  lemma FileReadsAs(file: string)
    requires ShortName(file)
    ensures ReadsAs(FileLine(file), File("/" + file))
  {
    FileRead(file);
  }

  lemma OneReadAs(owner: string, file: string)
    requires ShortName(owner) && ShortName(file)
    ensures AllReadAs(OneListed(owner, file), OneHeader(owner, file))
  {
    HeaderReadsAs(owner);
    FileReadsAs(file);
  }

  lemma BothReadAs(a: seq<string>, x: seq<ListingLine>, b: seq<string>, y: seq<ListingLine>)
    requires AllReadAs(a, x) && AllReadAs(b, y)
    ensures AllReadAs(a + b, x + y)
  {
    forall i | 0 <= i < |a + b| ensures ReadsAs((a + b)[i], (x + y)[i]) {
      assert if i < |a| then ReadsAs(a[i], x[i]) else ReadsAs(b[i - |a|], y[i - |a|]);
    }
  }

  lemma PathsOfTwo(owner: string, file: string, owner': string, file': string, e: string)
    requires owner != owner'
    ensures PathsOf(OneHeader(owner, file) + OneHeader(owner', file'), 4, e)
            == if e == owner then ["/" + file] else if e == owner' then ["/" + file'] else []
  {
    var lines := OneHeader(owner, file) + OneHeader(owner', file');
    assert lines == [Header(owner), File("/" + file), Header(owner'), File("/" + file')];
    assert Owner(lines, 1) == Some(owner) && Owner(lines, 3) == Some(owner');
    assert PathsOf(lines, 1, e) == [];
    assert PathsOf(lines, 2, e) == PathsOf(lines, 1, e) + if e == owner then ["/" + file] else [];
    assert PathsOf(lines, 3, e) == PathsOf(lines, 2, e) + [];
    assert PathsOf(lines, 4, e) == PathsOf(lines, 3, e) + if e == owner' then ["/" + file'] else [];
  }

  function TwoContents(owner: string, file: string, owner': string, file': string): Contents {
    Contents([owner, owner'], map[owner := ["/" + file], owner' := ["/" + file']])
  }

  lemma TwoLists(owner: string, file: string, owner': string, file': string)
    requires owner != owner'
    ensures var c := TwoContents(owner, file, owner', file');
            c.Valid() && Lists(c, OneHeader(owner, file) + OneHeader(owner', file'), 4)
  {
    forall e: string { PathsOfTwo(owner, file, owner', file', e); }
  }

  lemma SortOne(x: string)
    ensures Sort([x]) == [x]
  {
    assert [x][1..] == [];
  }

  lemma SortTwo(x: string, y: string)
    requires Le(x, y)
    ensures Sort([x, y]) == [x, y]
  {
    assert [x, y][1..] == [y];
    SortOne(y);
  }

  lemma TwoEntries(owner: string, file: string, owner': string, file': string)
    requires ShortName(owner) && ShortName(owner') && owner != owner'
    ensures FilemapOf([owner, owner'], TwoContents(owner, file, owner', file').files)
            == TwoOwners(owner, file, owner', file')
  {
    var keys, files := [owner, owner'], TwoContents(owner, file, owner', file').files;
    SortOne("/" + file);
    SortOne("/" + file');
    assert keys[..1] == [owner] && keys[..1][..0] == [];
    assert FilemapOf(keys[..1], files) == [] + [EntryOf(owner, files[owner])];
  }

  /** The map is what the generator makes of some listing. */
  ghost predicate Generated(fm: seq<Entry>) {
    exists out: string, c: Contents :: MadeFrom(fm, out, c)
  }

  ghost predicate MadeFrom(fm: seq<Entry>, out: string, c: Contents) {
    var lines := ReadLines(SplitLines(out));
    && c.Valid() && Lists(c, lines, |lines|)
    && (forall e | e in Sort(c.order) :: e in c.files) && fm == FilemapOf(Sort(c.order), c.files)
  }

  lemma TwoMade(owner: string, file: string, owner': string, file': string, out: string)
    requires ShortName(owner) && ShortName(owner') && Lt(owner, owner')
    requires ReadLines(SplitLines(out)) == OneHeader(owner, file) + OneHeader(owner', file')
    ensures MadeFrom(TwoOwners(owner, file, owner', file'), out, TwoContents(owner, file, owner', file'))
  {
    TwoLists(owner, file, owner', file');
    SortTwo(owner, owner');
    TwoEntries(owner, file, owner', file');
  }

  lemma TwoGenerated(owner: string, file: string, owner': string, file': string)
    requires ShortName(owner) && ShortName(file) && ShortName(owner') && ShortName(file') && Lt(owner, owner')
    ensures Generated(TwoOwners(owner, file, owner', file'))
  {
    var a, b := OneListed(owner, file), OneListed(owner', file');
    OneReadAs(owner, file);
    OneReadAs(owner', file');
    BothReadAs(a, OneHeader(owner, file), b, OneHeader(owner', file'));
    LinesRead(a + b, OneHeader(owner, file) + OneHeader(owner', file'));
    TwoMade(owner, file, owner', file', Unlines(a + b));
  }

  // ---- What the writers do with them ----

  function ClaimOf(owner: string, file: string): Claim { Claim("/" + file, owner, GuessInterval(owner)) }

  lemma TwoClaims(owner: string, file: string, owner': string, file': string)
    ensures Claims(TwoOwners(owner, file, owner', file')) == [ClaimOf(owner, file), ClaimOf(owner', file')]
  {
    var fm := TwoOwners(owner, file, owner', file');
    assert fm[..1] == [fm[0]] && fm[..1][..0] == [];
    assert Claims(fm[..1]) == Claims(fm[..1][..0]) + ClaimsOf(fm[0]) == ClaimsOf(fm[0]);
  }

  lemma GuessIsShort(owner: string)
    ensures Clean(GuessInterval(owner)) && |GuessInterval(owner)| < 10
  {}

  lemma ShortClaimFits(owner: string, file: string)
    requires ShortName(owner) && ShortName(file)
    ensures Fits(ClaimOf(owner, file), 0)
  {
    GuessIsShort(owner);
  }

  lemma TwoOwnersFit(owner: string, file: string, owner': string, file': string)
    requires ShortName(owner) && ShortName(file) && ShortName(owner') && ShortName(file')
    ensures AllFit(Claims(TwoOwners(owner, file, owner', file')), 0)
  {
    TwoClaims(owner, file, owner', file');
    ShortClaimFits(owner, file);
    ShortClaimFits(owner', file');
  }

  /** A plain name in the root is spelled as it is listed. */
  lemma SpelledInRoot(file: string)
    requires IsPart(file) && '/' !in file
    ensures Target("/" + file) == "/" + file
  {
    PathPartsOf(file);
    PathPartsJoined([file]);
    assert Join([file], "/") == file;
  }

  lemma TwoTargets(owner: string, file: string, owner': string, file': string)
    requires IsPart(file) && '/' !in file && IsPart(file') && '/' !in file'
    ensures var cs := Claims(TwoOwners(owner, file, owner', file')); Retarget(cs) == cs
  {
    TwoClaims(owner, file, owner', file');
    SpelledInRoot(file);
    SpelledInRoot(file');
  }

  lemma EarlierPath(c: Claim, d: Claim)
    requires |c.path| > 1 && |d.path| > 1 && c.path[0] == d.path[0] && c.path[1] < d.path[1]
    ensures Le(PrintClaim(c), PrintClaim(d))
  {
    var p, q := PrintClaim(c), PrintClaim(d);
    assert p[0] == q[0] && p[1..][0] == c.path[1] && q[1..][0] == d.path[1];
  }

  lemma AliasesUnsettled(c: Claim, d: Claim, k: Kernel)
    requires On(k, c.path) == On(k, d.path) == Writable(0)
    requires c.component != d.component && Le(PrintClaim(d), PrintClaim(c))
    ensures !Settled([c, d], Reached([c, d], k), k, 0)
  {
    ReachedAll([c, d], k);
    LeReflexive(PrintClaim(c));
    assert c in [c, d] && Greatest([c, d], ComponentPaths(k, 0), c);
  }

  lemma AliasesDisagree(fm: seq<Entry>, c: Claim, d: Claim, k: Kernel)
    requires Claims(fm) == Retarget(Claims(fm)) == [c, d] && AllFit(Claims(fm), 0)
    requires On(k, c.path) == On(k, d.path) == Writable(0)
    requires c.component != d.component && Le(PrintClaim(d), PrintClaim(c))
    ensures !SameEffect(Restored(fm, 0), Applied(fm, k), k)
  {
    AliasesUnsettled(c, d, k);
    WritersAgree.WritersAgree(fm, 0, k);
  }

  lemma RaisingUnsettled(c: Claim, d: Claim, k: Kernel)
    requires On(k, c.path) == Raises && On(k, d.path) == Writable(0)
    ensures !Settled([c, d], Reached([c, d], k), k, 0) && Raising([c, d], k)
  {
    assert c in [c, d] && d in [c, d] && Reached([c, d], k) == [];
    LeReflexive(PrintClaim(d));
    assert Greatest([c, d], ComponentPaths(k, 0), d);
  }

  lemma RaisingDisagrees(fm: seq<Entry>, c: Claim, d: Claim, k: Kernel)
    requires Claims(fm) == Retarget(Claims(fm)) == [c, d] && AllFit(Claims(fm), 0)
    requires On(k, c.path) == Raises && On(k, d.path) == Writable(0)
    ensures !SameEffect(Restored(fm, 0), Applied(fm, k), k) && ApplyResult(Retarget(Claims(fm)), k) == None
  {
    RaisingUnsettled(c, d, k);
    WritersAgree.WritersAgree(fm, 0, k);
  }

  // ---- The inputs ----

  /** The name of a file in the root that is spelled as it is listed. */
  predicate PlainFile(file: string) { ShortName(file) && IsPart(file) && '/' !in file }

  /** A name that overtakes nobody and is not overtaken. */
  predicate PlainOwner(owner: string) { ShortName(owner) && forall c | c in owner :: c > TAB }

  lemma {:induction false} PrefixLe(a: string, b: string)
    requires a <= b
    ensures Le(a, b)
  {
    if a == "" {
    } else {
      assert a[1..] <= b[1..];
      PrefixLe(a[1..], b[1..]);
    }
  }

  lemma FirstUnsafe(c: Claim, d: Claim)
    requires c.path == d.path && OvertakenByTab(c.component, d.component)
    ensures !SafeOwners([c, d])
  {
    var cs := [c, d];
    assert cs[0] == c && c in cs && OneSpelling(cs, c.path);
    assert LastClaim(cs, c.path) == Some(d);
    assert !Settles(c, LastClaim(cs, c.path));
  }

  lemma PlainOwnersSafe(c: Claim, d: Claim)
    requires PlainOwner(c.component) && PlainOwner(d.component)
    ensures SafeOwners([c, d])
  {
    PlainNamesAreSafe([c, d]);
  }

  /** Two owners of a file, the second of which goes on with a character before TAB,
      such as "a" and "a\U{0001}". */
  lemma OvertakenOwner(owner: string, owner': string, file: string)
    requires ShortName(owner) && ShortName(owner') && ShortName(file) && OvertakenByTab(owner, owner')
    ensures var fm := TwoOwners(owner, file, owner', file);
            && Generated(fm) && AllFit(Claims(fm), 0)
            && exists k | Plain(Claims(fm), k) :: !SameEffect(Restored(fm, 0), Applied(fm, k), k)
  {
    var fm := TwoOwners(owner, file, owner', file);
    PrefixLe(owner, owner');
    TwoGenerated(owner, file, owner', file);
    TwoOwnersFit(owner, file, owner', file);
    TwoClaims(owner, file, owner', file);
    FirstUnsafe(ClaimOf(owner, file), ClaimOf(owner', file));
    assert Ascending(fm);
    SafeOwnersAgree(fm, 0);
  }

  /** Two paths to one file: the later path decides in the manifest, the later owner
      in the map. Their owners are safe. */
  lemma AliasedFile(owner: string, owner': string, late: string, early: string)
    requires PlainOwner(owner) && PlainOwner(owner') && Lt(owner, owner')
    requires PlainFile(late) && PlainFile(early) && early[0] < late[0]
    ensures var fm := TwoOwners(owner, late, owner', early);
            var k := map["/" + early := Writable(0), "/" + late := Writable(0)];
            && Generated(fm) && AllFit(Claims(fm), 0) && SafeOwners(Claims(fm))
            && !SameEffect(Restored(fm, 0), Applied(fm, k), k)
  {
    var fm := TwoOwners(owner, late, owner', early);
    var k := map["/" + early := Writable(0), "/" + late := Writable(0)];
    var c, d := ClaimOf(owner, late), ClaimOf(owner', early);
    TwoGenerated(owner, late, owner', early);
    TwoOwnersFit(owner, late, owner', early);
    TwoClaims(owner, late, owner', early);
    TwoTargets(owner, late, owner', early);
    PlainOwnersSafe(c, d);
    EarlierPath(d, c);
    AliasesDisagree(fm, c, d, k);
  }

  /** A path that raises: apply-xattrs ends there, fakecap-restore goes on. */
  lemma RaisingPath(owner: string, owner': string, file: string, file': string)
    requires PlainOwner(owner) && PlainOwner(owner') && Lt(owner, owner')
    requires PlainFile(file) && PlainFile(file') && "/" + file != "/" + file'
    ensures var fm := TwoOwners(owner, file, owner', file');
            var k := map["/" + file := Raises, "/" + file' := Writable(0)];
            && Generated(fm) && AllFit(Claims(fm), 0) && SafeOwners(Claims(fm))
            && !SameEffect(Restored(fm, 0), Applied(fm, k), k)
            && ApplyResult(Retarget(Claims(fm)), k) == None
  {
    var fm := TwoOwners(owner, file, owner', file');
    var k := map["/" + file := Raises, "/" + file' := Writable(0)];
    var c, d := ClaimOf(owner, file), ClaimOf(owner', file');
    TwoGenerated(owner, file, owner', file');
    TwoOwnersFit(owner, file, owner', file');
    TwoClaims(owner, file, owner', file');
    TwoTargets(owner, file, owner', file');
    PlainOwnersSafe(c, d);
    RaisingDisagrees(fm, c, d, k);
  }

  lemma SlashDropped(file: string)
    requires IsPart(file) && '/' !in file
    ensures Target("/" + (file + "/")) == "/" + file
  {
    PathPartsOf(file + "/");
    assert (file + "/")[..|file|] == file && (file + "/")[|file| + 1..] == "";
    IndexOfIs(file + "/", '/', |file|);
    IndexOfIs("", '/', 0);
    assert Split(file + "/", '/') == [file] + Split("", '/') == [file, ""];
    assert [file, ""][1..] == [""] && [""][1..] == [];
    assert PathParts([""]) == [] && PathParts([file, ""]) == [file] + PathParts([""]) == [file];
    assert Join([file], "/") == file;
  }

  lemma RespelledDisagrees(fm: seq<Entry>, c: Claim, d: Claim, k: Kernel)
    requires AllFit(Claims(fm), 0) && Claims(fm) == [c, d] && Retarget(Claims(fm))[0].path in k
    requires k == map[Retarget(Claims(fm))[0].path := Writable(0)] && c.path !in k && d.path !in k
    ensures !SameEffect(Restored(fm, 0), Applied(fm, k), k)
  {
    var cs := Retarget(Claims(fm));
    assert Reached(cs, k)[0] == cs[0];
    assert cs[0].path in ComponentPaths(k, 0);
    assert LastOn(Claims(fm), ComponentPaths(k, 0)).None?;
    assert !Settled(Claims(fm), Applied(fm, k), k, 0);
    WritersAgree.WritersAgree(fm, 0, k);
  }

  /** A path that is listed with a slash behind it: as it stands it asks for a
      directory, and apply-xattrs drops the slash. */
  lemma TrailingSlash(owner: string, owner': string, file: string, file': string)
    requires PlainOwner(owner) && PlainOwner(owner') && Lt(owner, owner')
    requires PlainFile(file) && ShortName(file + "/") && PlainFile(file') && file[0] != file'[0]
    ensures var fm, k := TwoOwners(owner, file + "/", owner', file'), map["/" + file := Writable(0)];
            && Generated(fm) && AllFit(Claims(fm), 0) && SafeOwners(Claims(fm))
            && !SameEffect(Restored(fm, 0), Applied(fm, k), k)
  {
    var fm, k := TwoOwners(owner, file + "/", owner', file'), map["/" + file := Writable(0)];
    var c, d := ClaimOf(owner, file + "/"), ClaimOf(owner', file');
    TwoGenerated(owner, file + "/", owner', file');
    TwoOwnersFit(owner, file + "/", owner', file');
    TwoClaims(owner, file + "/", owner', file');
    PlainOwnersSafe(c, d);
    SlashDropped(file);
    assert ("/" + file')[1] != ("/" + file)[1] && |c.path| == |"/" + file| + 1;
    RespelledDisagrees(fm, c, d, k);
  }

  lemma TalliesDiffer(fm: seq<Entry>, c: Claim, k: Kernel)
    requires AllFit(Claims(fm), 0) && Retarget(Claims(fm)) == Claims(fm)
    requires c in Claims(fm) && !CountedAlike(k, c)
    ensures ApplyResult(Retarget(Claims(fm)), k) != Some(RestoreTally(Restored(fm, 0), k))
  {
    forall x | x in Claims(fm) ensures SameAsTarget(k, x.path) {
      var i :| 0 <= i < |Claims(fm)| && Claims(fm)[i] == x;
      assert Retarget(Claims(fm))[i] == x;
    }
    TalliesAgree(fm, 0, k);
  }

  /** A parent that is a plain file or a loop of links: an error for the one, a
      skipped file for the other. A second call that fails: set, and an error. */
  lemma CountedDifferently(owner: string, owner': string, file: string, file': string, o: Outcome)
    requires ShortName(owner) && ShortName(owner') && Lt(owner, owner') && PlainFile(file) && PlainFile(file')
    requires o.Unreachable? || o.ComponentOnly?
    ensures var fm, k := TwoOwners(owner, file, owner', file'), map["/" + file := o];
            && Generated(fm) && AllFit(Claims(fm), 0)
            && ApplyResult(Retarget(Claims(fm)), k) != Some(RestoreTally(Restored(fm, 0), k))
  {
    var fm, k := TwoOwners(owner, file, owner', file'), map["/" + file := o];
    TwoGenerated(owner, file, owner', file');
    TwoOwnersFit(owner, file, owner', file');
    TwoClaims(owner, file, owner', file');
    TwoTargets(owner, file, owner', file');
    TalliesDiffer(fm, ClaimOf(owner, file), k);
  }

  /** There are names for all of these inputs. */
  lemma NamesExist()
    ensures PlainOwner("a") && PlainOwner("b") && Lt("a", "b")
    ensures ShortName("a\U{0001}") && OvertakenByTab("a", "a\U{0001}")
    ensures PlainFile("f") && PlainFile("g") && "f"[0] < "g"[0] && ShortName("f" + "/")
  {}
}
