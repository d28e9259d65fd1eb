/** The two programs that write the component xattrs onto a root file system:
    `fakecap-restore.c`, from the manifest text, and `apply-xattrs.py`, from the
    file map. A file is named by its path below the root. */
module Writers {
  import opened Text
  import opened Manifest
  import opened Filemap

  /** What the two xattr calls on a path meet, fixed for a run. Files are numbered,
      since several paths may lead to one. */
  datatype Outcome =
    | Writable(file: nat)       // both calls succeed
    | ComponentOnly(file: nat)  // the first call succeeds, the second fails
    | Refused                   // the file exists or is a link, and the first call fails
    | Missing                   // ENOENT
    | Unreachable               // neither a file nor a link is seen, and the error is not ENOENT:
                                // a parent is no directory (ENOTDIR) or a loop of links (ELOOP)
    | Raises                    // Python's exists() lets the error through: no permission (EACCES),
                                // or a name that is too long (ENAMETOOLONG); the calls fail with it, too

  type Kernel = map<string, Outcome>

  /** Paths that nothing is known of are missing. */
  function On(k: Kernel, path: string): Outcome { if path in k then k[path] else Missing }

  predicate SetsComponent(o: Outcome) { o.Writable? || o.ComponentOnly? }

  /** The xattrs user.component and user.update-interval of every file. */
  datatype Marks = Marks(component: map<nat, string>, interval: map<nat, string>)

  datatype Tally = Tally(written: nat, skipped: nat, errors: nat)

  /** The files of the root and their xattrs. */
  class Rootfs {
    const kernel: Kernel
    var marks: Marks

    constructor (kernel: Kernel, marks: Marks)
      ensures this.kernel == kernel && this.marks == marks
    {
      this.kernel := kernel;
      this.marks := marks;
    }

    /** Python's `exists() or is_symlink()`; `None` is an exception. */
    function Exists(path: string): Option<bool> {
      match On(kernel, path)
      case Raises => None
      case Missing => Some(false)
      case Unreachable => Some(false)
      case _ => Some(true)
    }

    method SetComponent(path: string, value: string) returns (ok: bool, enoent: bool)
      modifies this
      ensures ok <==> SetsComponent(On(kernel, path))
      ensures enoent <==> On(kernel, path).Missing?
      ensures marks == if ok then old(marks).(component := old(marks).component[On(kernel, path).file := value])
                       else old(marks)
    {
      var o := On(kernel, path);
      ok, enoent := SetsComponent(o), o.Missing?;
      if ok { marks := marks.(component := marks.component[o.file := value]); }
    }

    method SetInterval(path: string, value: string) returns (ok: bool)
      modifies this
      ensures ok <==> On(kernel, path).Writable?
      ensures marks == if ok then old(marks).(interval := old(marks).interval[On(kernel, path).file := value])
                       else old(marks)
    {
      var o := On(kernel, path);
      ok := o.Writable?;
      if ok { marks := marks.(interval := marks.interval[o.file := value]); }
    }
  }

  // ---- What a list of claims does to the files ----

  function Write(c: Claim, k: Kernel, m: Marks): Marks {
    match On(k, c.path)
    case Writable(file) => Marks(m.component[file := c.component], m.interval[file := c.interval])
    case ComponentOnly(file) => m.(component := m.component[file := c.component])
    case _ => m
  }

  /** Writing the claims one after the other: the last one on a file wins. */
  function WriteAll(cs: seq<Claim>, k: Kernel, m: Marks): Marks {
    if cs == [] then m else Write(cs[|cs| - 1], k, WriteAll(cs[..|cs| - 1], k, m))
  }

  /** A failing second call still counts as set, all errors but ENOENT as errors. */
  function RestoreStep(t: Tally, o: Outcome): Tally {
    match o
    case Writable(_) => t.(written := t.written + 1)
    case ComponentOnly(_) => t.(written := t.written + 1)
    case Missing => t.(skipped := t.skipped + 1)
    case _ => t.(errors := t.errors + 1)
  }

  /** A failing second call counts as an error, a file that is not seen as skipped. */
  function ApplyStep(t: Tally, o: Outcome): Tally {
    match o
    case Writable(_) => t.(written := t.written + 1)
    case Missing => t.(skipped := t.skipped + 1)
    case Unreachable => t.(skipped := t.skipped + 1)
    case _ => t.(errors := t.errors + 1)
  }

  function RestoreTally(cs: seq<Claim>, k: Kernel): Tally {
    if cs == [] then Tally(0, 0, 0) else RestoreStep(RestoreTally(cs[..|cs| - 1], k), On(k, cs[|cs| - 1].path))
  }

  function ApplyTally(cs: seq<Claim>, k: Kernel): Tally {
    if cs == [] then Tally(0, 0, 0) else ApplyStep(ApplyTally(cs[..|cs| - 1], k), On(k, cs[|cs| - 1].path))
  }

  /** How one claim is counted, by what its path meets. */
  lemma OneClaimCounted(c: Claim, k: Kernel)
    ensures var written, skipped, error := Tally(1, 0, 0), Tally(0, 1, 0), Tally(0, 0, 1);
            var r, a := RestoreTally([c], k), ApplyTally([c], k);
            var o := On(k, c.path);
            && (c.path !in k || o.Missing? ==> r == a == skipped)
            && (o.Writable? ==> r == a == written)
            && (o.ComponentOnly? ==> r == written && a == error)
            && (o.Refused? ==> r == a == error)
            && (o.Unreachable? ==> r == error && a == skipped)
            && (o.Raises? ==> r == error)
  {
    assert [c][..0] == [];
  }

  // ---- fakecap-restore ----

  const LINE_SIZE: nat := 8192

  /** How many characters `fgets` takes with a buffer of LINE_SIZE. */
  function FgetsLength(text: string): (n: nat)
    requires text != ""
    ensures 0 < n <= |text|
  {
    Min(Min(IndexOf(text, NL) + 1, |text|), LINE_SIZE - 1)
  }

  /** It takes a line with its newline, but no more than 8191 characters. */
  lemma OneChunk(text: string)
    requires text != ""
    ensures var n := FgetsLength(text);
            && n <= 8191 && '\n' !in text[..n - 1]
            && (n == |text| || n == 8191 || text[n - 1] == '\n')
  {}

  function CString(s: string): string { s[..IndexOf(s, NUL)] }

  /** The claim of one chunk of `fgets`, when it makes one and the joined path fits. */
  function ChunkClaim(chunk: string, rootLength: nat): seq<Claim> {
    var line := CString(chunk);
    var c := ParseLine(if line != "" && line[|line| - 1] == NL then line[..|line| - 1] else line);
    if c.Some? && rootLength + |c.value.path| < LINE_SIZE then [c.value] else []
  }

  /** The claims that fakecap-restore tries to write, in order. */
  function Attempted(text: string, rootLength: nat): seq<Claim>
    decreases |text|
  {
    if text == "" then [] else
      ChunkClaim(text[..FgetsLength(text)], rootLength) + Attempted(text[FgetsLength(text)..], rootLength)
  }

  /** A path that does not fit behind the root in 8192 characters is passed over. */
  lemma LongPathSkipped(chunk: string, rootLength: nat)
    ensures forall c | c in ChunkClaim(chunk, rootLength) :: rootLength + |c.path| <= 8191
    ensures ChunkClaim(chunk, 0) != [] && rootLength + |ChunkClaim(chunk, 0)[0].path| <= 8191 ==>
              ChunkClaim(chunk, rootLength) == ChunkClaim(chunk, 0)
  {}

  /** A chunk is read up to its first NUL and without its newline, if it has one. */
  lemma ChunkUpToNul(line: string, rest: string)
    requires '\0' !in line && '\n' !in line
    ensures ChunkClaim(line + "\n", 0) == ChunkClaim(line, 0)
    ensures ChunkClaim(line + ("\0" + rest), 0) == ChunkClaim(line, 0)
  {
    assert line[..|line|] == line && (line + "\n")[..|line| + 1] == line + "\n";
    IndexOfIs(line, NUL, |line|);
    IndexOfIs(line + "\n", NUL, |line| + 1);
    assert (line + "\n")[..|line|] == line;
    assert (line + ("\0" + rest))[..|line|] == line;
    IndexOfIs(line + ("\0" + rest), NUL, |line|);
    assert line != "" ==> line[|line| - 1] in line;
  }

  method RestoreClaim(c: Claim, fs: Rootfs, before: Tally) returns (t: Tally)
    modifies fs
    ensures fs.marks == Write(c, fs.kernel, old(fs.marks))
    ensures t == RestoreStep(before, On(fs.kernel, c.path))
  {
    t := before;
    var ok, enoent := fs.SetComponent(c.path, c.component);
    if !ok {
      if enoent { t := t.(skipped := t.skipped + 1); } else { t := t.(errors := t.errors + 1); }
      return;
    }
    var _ := fs.SetInterval(c.path, c.interval);
    t := t.(written := t.written + 1);
  }

  method ReadChunk(chunk: string, rootLength: nat) returns (c: Option<Claim>)
    ensures ChunkClaim(chunk, rootLength) == if c.Some? then [c.value] else []
  {
    var line := CString(chunk);
    if line != "" && line[|line| - 1] == NL { line := line[..|line| - 1]; }
    c := ParseLine(line);
    if c.Some? && rootLength + |c.value.path| >= LINE_SIZE { c := None; }
  }

  method Restore(text: string, rootLength: nat, fs: Rootfs) returns (t: Tally)
    modifies fs
    ensures fs.marks == WriteAll(Attempted(text, rootLength), fs.kernel, old(fs.marks))
    ensures t == RestoreTally(Attempted(text, rootLength), fs.kernel)
  {
    t := Tally(0, 0, 0);
    var stream := text;
    ghost var done: seq<Claim> := [];
    ghost var m := fs.marks;
    while stream != ""
      invariant done + Attempted(stream, rootLength) == Attempted(text, rootLength)
      invariant fs.marks == WriteAll(done, fs.kernel, m) && t == RestoreTally(done, fs.kernel)
      decreases |stream|
    {
      var n := FgetsLength(stream);
      var parsed := ReadChunk(stream[..n], rootLength);
      ghost var claims := ChunkClaim(stream[..n], rootLength);
      stream := stream[n..];
      Associative(done, claims, Attempted(stream, rootLength));
      if parsed.None? {
        assert done + claims == done;
        continue;
      }
      done := done + claims;
      t := RestoreClaim(parsed.value, fs, t);
    }
    assert done == Attempted(text, rootLength);
  }

  // ---- apply-xattrs ----

  predicate IsPart(piece: string) { piece !in ["", "."] }

  /** What a path library keeps of the pieces between slashes. */
  function PathParts(pieces: seq<string>): seq<string> {
    if pieces == [] then []
    else (if IsPart(pieces[0]) then [pieces[0]] else []) + PathParts(pieces[1..])
  }

  /** How apply-xattrs spells a listed path: without doubled slashes and dots. */
  function Target(path: string): string { "/" + Join(PathParts(Split(path, '/')), "/") }

  lemma {:induction false} PathPartsAre(pieces: seq<string>)
    ensures forall p | p in PathParts(pieces) :: p in pieces && IsPart(p)
  {
    if pieces == [] {
    } else {
      PathPartsAre(pieces[1..]);
      assert pieces == [pieces[0]] + pieces[1..];
    }
  }

  lemma {:induction false} PathPartsStay(parts: seq<string>)
    requires forall p | p in parts :: IsPart(p)
    ensures PathParts(parts) == parts
  {
    if parts == [] {
    } else {
      PathPartsStay(parts[1..]);
      assert IsPart(parts[0]) && parts == [parts[0]] + parts[1..];
    }
  }

  /** The pieces of a path that starts with a slash. */
  lemma PathPartsOf(s: string)
    ensures PathParts(Split("/" + s, '/')) == PathParts(Split(s, '/'))
  {
    assert ("/" + s)[..0] == "" && ("/" + s)[1..] == s;
    IndexOfIs("/" + s, '/', 0);
    assert ([""] + Split(s, '/'))[1..] == Split(s, '/');
  }

  lemma PathPartsJoined(parts: seq<string>)
    requires forall p | p in parts :: IsPart(p) && '/' !in p
    ensures PathParts(Split(Join(parts, "/"), '/')) == parts
  {
    if parts == [] {
      IndexOfIs("", '/', 0);
      assert Split("", '/') == [""] && [""][1..] == [];
    } else {
      SplitJoin(parts, '/');
      PathPartsStay(parts);
    }
  }

  /** Nothing but empty pieces and single dots is dropped. */
  lemma {:induction false} PathPartsAppend(a: seq<string>, b: seq<string>)
    ensures PathParts(a + b) == PathParts(a) + PathParts(b)
  {
    if a == [] {
      assert a + b == b;
    } else {
      assert (a + b)[1..] == a[1..] + b;
      PathPartsAppend(a[1..], b);
    }
  }

  lemma OnePathPart(piece: string)
    ensures PathParts([piece]) == if piece == "" || piece == "." then [] else [piece]
  {
    assert [piece][1..] == [];
  }

  /** Respelling keeps the pieces of a path that name something. */
  lemma TargetKeepsParts(path: string)
    ensures PathParts(Split(Target(path), '/')) == PathParts(Split(path, '/'))
  {
    var parts := PathParts(Split(path, '/'));
    PathPartsAre(Split(path, '/'));
    PathPartsOf(Join(parts, "/"));
    PathPartsJoined(parts);
  }

  /** The usual spelling: a slash in front, single slashes between, no dot pieces. */
  ghost predicate Spelled(path: string) {
    exists parts: seq<string> :: AllNames(parts) && path == "/" + Join(parts, "/")
  }

  ghost predicate AllNames(parts: seq<string>) {
    forall i | 0 <= i < |parts| :: parts[i] != "" && parts[i] != "." && '/' !in parts[i]
  }

  /** A path in the usual spelling is the one that apply-xattrs opens. */
  lemma SpelledStays(path: string)
    requires Spelled(path)
    ensures Target(path) == path
  {
    var parts: seq<string> :| AllNames(parts) && path == "/" + Join(parts, "/");
    PathPartsOf(Join(parts, "/"));
    PathPartsJoined(parts);
  }

  /** A path that the library has respelled is left as it is. */
  lemma TargetTwice(path: string)
    ensures Target(Target(path)) == Target(path)
  {
    var parts := PathParts(Split(path, '/'));
    PathPartsAre(Split(path, '/'));
    PathPartsOf(Join(parts, "/"));
    PathPartsJoined(parts);
  }

  function Retarget(cs: seq<Claim>): (r: seq<Claim>)
    ensures |r| == |cs| && forall i | 0 <= i < |r| :: r[i] == cs[i].(path := Target(cs[i].path))
  {
    seq(|cs|, i requires 0 <= i < |cs| => cs[i].(path := Target(cs[i].path)))
  }

  /** A list of claims in the usual spelling is written as it is listed. */
  lemma SpelledRetarget(cs: seq<Claim>)
    requires forall c | c in cs :: Spelled(c.path)
    ensures Retarget(cs) == cs
  {
    forall i | 0 <= i < |cs| ensures Retarget(cs)[i] == cs[i] { SpelledStays(cs[i].path); }
  }

  lemma RetargetAppend(a: seq<Claim>, b: seq<Claim>)
    ensures Retarget(a + b) == Retarget(a) + Retarget(b)
  {}

  /** The claims that come before an exception ends the program. */
  function Reached(cs: seq<Claim>, k: Kernel): seq<Claim> {
    if cs == [] || On(k, cs[0].path).Raises? then [] else [cs[0]] + Reached(cs[1..], k)
  }

  predicate Raising(cs: seq<Claim>, k: Kernel) { exists c | c in cs :: On(k, c.path).Raises? }

  /** The counters that are printed at the end, if it comes to that. */
  function ApplyResult(cs: seq<Claim>, k: Kernel): Option<Tally> {
    if Raising(cs, k) then None else Some(ApplyTally(cs, k))
  }

  lemma {:induction false} ReachedAppend(a: seq<Claim>, b: seq<Claim>, k: Kernel)
    ensures Reached(a + b, k) == if Raising(a, k) then Reached(a, k) else a + Reached(b, k)
    ensures Raising(a + b, k) <==> Raising(a, k) || Raising(b, k)
  {
    if a == [] {
      assert a + b == b;
    } else {
      assert (a + b)[1..] == a[1..] + b;
      ReachedAppend(a[1..], b, k);
      assert a == [a[0]] + a[1..];
      Associative([a[0]], a[1..], Reached(b, k));
    }
  }

  lemma ReachedAll(cs: seq<Claim>, k: Kernel)
    requires !Raising(cs, k)
    ensures Reached(cs, k) == cs
  {
    ReachedAppend(cs, [], k);
    assert cs + [] == cs;
  }

  /** One more claim that does not raise. */
  lemma ApplySnoc(cs: seq<Claim>, c: Claim, k: Kernel, m: Marks)
    ensures WriteAll(cs + [c], k, m) == Write(c, k, WriteAll(cs, k, m))
    ensures ApplyResult(cs, k).Some? && !On(k, c.path).Raises? ==>
              ApplyResult(cs + [c], k) == Some(ApplyStep(ApplyTally(cs, k), On(k, c.path)))
  {
    ReachedAppend(cs, [c], k);
  }

  /** Sets both xattrs on an existing file; `None` is an exception. */
  method ApplyClaim(target: string, element: string, interval: string, fs: Rootfs, before: Tally)
    returns (t: Option<Tally>)
    modifies fs
    ensures fs.marks == Write(Claim(target, element, interval), fs.kernel, old(fs.marks))
    ensures t == if On(fs.kernel, target).Raises? then None else Some(ApplyStep(before, On(fs.kernel, target)))
  {
    var exists' := fs.Exists(target);
    if exists'.None? { return None; }
    if !exists'.value { return Some(before.(skipped := before.skipped + 1)); }
    var ok, _ := fs.SetComponent(target, element);
    if ok { ok := fs.SetInterval(target, interval); }
    t := Some(if ok then before.(written := before.written + 1) else before.(errors := before.errors + 1));
  }

  /** One more file, after the claims `done`. */
  method ApplyFile(c: Claim, ghost done: seq<Claim>, ghost m: Marks, fs: Rootfs, before: Tally)
    returns (t: Option<Tally>)
    requires fs.marks == WriteAll(done, fs.kernel, m) && ApplyResult(done, fs.kernel) == Some(before)
    modifies fs
    ensures fs.marks == WriteAll(Reached(done + [c], fs.kernel), fs.kernel, m)
    ensures t == ApplyResult(done + [c], fs.kernel)
  {
    ApplySnoc(done, c, fs.kernel, m);
    ReachedAppend(done, [c], fs.kernel);
    assert done + [] == done;
    t := ApplyClaim(c.path, c.component, c.interval, fs, before);
  }

  /** What follows an exception is not reached. */
  lemma EndsEarly(done: seq<Claim>, claims: seq<Claim>, n: nat, k: Kernel)
    requires n <= |claims| && Raising(done + claims[..n], k)
    ensures Reached(done + claims, k) == Reached(done + claims[..n], k) && Raising(done + claims, k)
  {
    TakeDrop(done, claims, n);
    ReachedAppend(done + claims[..n], claims[n..], k);
  }

  method ApplyEntry(entry: Entry, ghost done: seq<Claim>, ghost m: Marks, fs: Rootfs, before: Tally)
    returns (t: Option<Tally>)
    requires fs.marks == WriteAll(done, fs.kernel, m) && ApplyResult(done, fs.kernel) == Some(before)
    modifies fs
    ensures var cs := done + Retarget(ClaimsOf(entry));
            fs.marks == WriteAll(Reached(cs, fs.kernel), fs.kernel, m) && t == ApplyResult(cs, fs.kernel)
  {
    ghost var claims, sofar := Retarget(ClaimsOf(entry)), done;
    t := Some(before);
    for j := 0 to |entry.files|
      invariant sofar == done + claims[..j]
      invariant t.Some? && fs.marks == WriteAll(sofar, fs.kernel, m) && ApplyResult(sofar, fs.kernel) == t
    {
      var c := Claim(Target(entry.files[j]), entry.element, entry.interval);
      t := ApplyFile(c, sofar, m, fs, t.value);
      TakeOneMore(done, claims, j);
      sofar := sofar + [c];
      if t.None? {
        EndsEarly(done, claims, j + 1, fs.kernel);
        return;
      }
      ReachedAll(sofar, fs.kernel);
    }
    assert claims[..|entry.files|] == claims;
    ReachedAll(sofar, fs.kernel);
  }

  lemma {:induction false} ClaimsSplit(fm: seq<Entry>, n: nat) returns (rest: seq<Claim>)
    requires n <= |fm|
    ensures Claims(fm) == Claims(fm[..n]) + rest
  {
    if n == |fm| {
      rest := [];
      assert fm[..n] == fm;
    } else {
      var init := fm[..|fm| - 1];
      rest := ClaimsSplit(init, n);
      assert init[..n] == fm[..n];
      Associative(Claims(fm[..n]), rest, ClaimsOf(fm[|fm| - 1]));
      rest := rest + ClaimsOf(fm[|fm| - 1]);
    }
  }

  method Apply(fm: seq<Entry>, fs: Rootfs) returns (t: Option<Tally>)
    modifies fs
    ensures var cs := Retarget(Claims(fm));
            fs.marks == WriteAll(Reached(cs, fs.kernel), fs.kernel, old(fs.marks)) && t == ApplyResult(cs, fs.kernel)
  {
    t := Some(Tally(0, 0, 0));
    ghost var sofar, m := [], fs.marks;
    for i := 0 to |fm|
      invariant sofar == Retarget(Claims(fm[..i]))
      invariant t.Some? && fs.marks == WriteAll(sofar, fs.kernel, m) && ApplyResult(sofar, fs.kernel) == t
    {
      assert fm[..i + 1][..i] == fm[..i];
      t := ApplyEntry(fm[i], sofar, m, fs, t.value);
      RetargetAppend(Claims(fm[..i]), ClaimsOf(fm[i]));
      sofar := sofar + Retarget(ClaimsOf(fm[i]));
      if t.None? {
        ghost var rest := ClaimsSplit(fm, i + 1);
        RetargetAppend(Claims(fm[..i + 1]), rest);
        ReachedAppend(sofar, Retarget(rest), fs.kernel);
        return;
      }
      ReachedAll(sofar, fs.kernel);
    }
    assert fm[..|fm|] == fm;
    ReachedAll(sofar, fs.kernel);
  }
}
