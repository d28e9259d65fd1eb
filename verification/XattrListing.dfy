/** `list_metadata` and the `listxattr` wrappers: the names of the stored
    attributes appended, inside the caller's buffer, to the kernel's own list. */
module XattrListing {
  import opened Text
  import opened CStrings
  import opened MetadataStore

  // ---- Name lists in a buffer ----

  /** Every name followed by its NUL. */
  function Encode(names: seq<string>): seq<char> {
    if names == [] then [] else Encode(names[..|names| - 1]) + names[|names| - 1] + [NUL]
  }

  /** Attribute and file names hold no NUL. */
  ghost predicate AllNames(names: seq<string>) { forall i | 0 <= i < |names| :: IsAttributeName(names[i]) }

  predicate IsAttributeName(s: string) { NUL !in s }

  /** Reading a list from the front, one `strlen` at a time. */
  function Decode(b: seq<char>): seq<string>
    decreases |b|
  {
    if b == [] then [] else
      var n := IndexOf(b, NUL);
      [b[..n]] + if n == |b| then [] else Decode(b[n + 1..])
  }

  lemma {:induction false} EncodeCons(name: string, names: seq<string>)
    ensures Encode([name] + names) == name + [NUL] + Encode(names)
  {
    if names == [] {
      assert [name] + names == [name] && [name][..0] == [];
      assert Encode([name]) == Encode([]) + name + [NUL];
    } else {
      var init, last := names[..|names| - 1], names[|names| - 1];
      assert ([name] + names)[..|names|] == [name] + init;
      EncodeCons(name, init);
      Associative(name + [NUL], Encode(init), last + [NUL]);
      Associative(name + [NUL] + Encode(init), last, [NUL]);
      Associative(Encode(init), last, [NUL]);
    }
  }

  /** Round trip. */
  lemma {:induction false} DecodeEncode(names: seq<string>)
    requires AllNames(names)
    ensures Decode(Encode(names)) == names
  {
    if names == [] {
    } else {
      var name, rest := names[0], names[1..];
      assert names == [name] + rest;
      EncodeCons(name, rest);
      DecodeEncode(rest);
      var b := Encode(names);
      assert b[..|name|] == name && b[|name| + 1..] == Encode(rest);
      IndexOfIs(b, NUL, |name|);
    }
  }

  lemma {:induction false} EncodeAppend(a: seq<string>, b: seq<string>)
    ensures Encode(a + b) == Encode(a) + Encode(b)
  {
    if b == [] {
      assert a + b == a;
    } else {
      var init, last := b[..|b| - 1], b[|b| - 1];
      assert (a + b)[..|a + b| - 1] == a + init;
      EncodeAppend(a, init);
      Associative(Encode(a), Encode(init), last + [NUL]);
      Associative(Encode(a) + Encode(init), last, [NUL]);
      Associative(Encode(init), last, [NUL]);
    }
  }

  /** The buffer after `s` has been written at `at`. */
  function Splice(b: seq<char>, at: nat, s: seq<char>): (r: seq<char>)
    requires at + |s| <= |b|
    ensures |r| == |b|
  {
    b[..at] + s + b[at + |s|..]
  }

  lemma SpliceTwice(b: seq<char>, at: nat, s: seq<char>, t: seq<char>)
    requires at + |s| + |t| <= |b|
    ensures Splice(Splice(b, at, s), at + |s|, t) == Splice(b, at, s + t)
  {}

  lemma SpliceNothing(b: seq<char>, at: nat)
    requires at <= |b|
    ensures Splice(b, at, []) == b
  {}

  lemma TailOfSplice(b: seq<char>, s: seq<char>, size: nat)
    requires |s| <= size <= |b|
    ensures Splice(b, 0, s)[size..] == b[size..]
  {}

  /** The buffer starts with the list of `names`, `base` characters long. */
  ghost predicate StartsWith(b: seq<char>, base: nat, names: seq<string>) {
    base <= |b| && b[..base] == Encode(names) && AllNames(names)
  }

  /** Where name `i` of an encoded list starts and ends. */
  function Offset(names: seq<string>, i: nat): nat
    requires i <= |names|
  {
    |Encode(names[..i])|
  }

  lemma NameAtOffset(names: seq<string>, i: nat)
    requires AllNames(names)
    requires i < |names|
    ensures StringAt(Encode(names), Offset(names, i), names[i])
    ensures Offset(names, i + 1) == Offset(names, i) + |names[i]| + 1 <= |Encode(names)|
  {
    var before, n, after := Encode(names[..i]), names[i], names[i + 1..];
    assert names == names[..i + 1] + after;
    EncodeAppend(names[..i + 1], after);
    assert names[..i + 1][..i] == names[..i];
    assert Encode(names[..i + 1]) == before + n + [NUL];
  }

  // ---- Which names are listed ----

  /** The attribute names among the first `n` directory entries that are not in
      the caller's list already. */
  function Added(entries: seq<string>, prefix: string, existing: seq<string>, n: nat): seq<string>
    requires n <= |entries|
  {
    Flatten(AddedParts(entries, prefix, existing), n)
  }

  function AddedParts(entries: seq<string>, prefix: string, existing: seq<string>): (r: seq<seq<string>>)
    ensures |r| == |entries| && forall i | 0 <= i < |r| :: r[i] == AddedBy(entries[i], prefix, existing)
  {
    seq(|entries|, i requires 0 <= i < |entries| => AddedBy(entries[i], prefix, existing))
  }

  function Flatten(parts: seq<seq<string>>, n: nat): seq<string>
    requires n <= |parts|
  {
    if n == 0 then [] else Flatten(parts, n - 1) + parts[n - 1]
  }

  /** `name` is one of `names`. */
  predicate Listed(name: string, names: seq<string>) {
    names != [] && (names[|names| - 1] == name || Listed(name, names[..|names| - 1]))
  }

  lemma {:induction false} ListedIsIn(name: string, names: seq<string>)
    ensures Listed(name, names) <==> name in names
  {
    if names == [] {
    } else {
      ListedIsIn(name, names[..|names| - 1]);
      assert names == names[..|names| - 1] + [names[|names| - 1]];
    }
  }

  lemma {:induction false} ListedPrefix(name: string, names: seq<string>, i: nat)
    requires i <= |names| && Listed(name, names[..i])
    ensures Listed(name, names)
  {
    if i == |names| {
      assert names[..i] == names;
    } else {
      assert names[..|names| - 1][..i] == names[..i];
      ListedPrefix(name, names[..|names| - 1], i);
    }
  }

  function AddedBy(entry: string, prefix: string, existing: seq<string>): (r: seq<string>)
    ensures |r| <= 1
  {
    if prefix <= entry && !Listed(entry[|prefix|..], existing) then [entry[|prefix|..]] else []
  }

  /** What an entry contributes to the buffer. */
  function EntryBytes(entry: string, prefix: string, existing: seq<string>): seq<char> {
    if prefix <= entry && !Listed(entry[|prefix|..], existing) then entry[|prefix|..] + [NUL] else []
  }

  function Contributions(entries: seq<string>, prefix: string, existing: seq<string>): (r: seq<seq<char>>)
    ensures |r| == |entries| && forall i | 0 <= i < |r| :: r[i] == EntryBytes(entries[i], prefix, existing)
  {
    seq(|entries|, i requires 0 <= i < |entries| => EntryBytes(entries[i], prefix, existing))
  }

  /** The first `n` pieces in a row. */
  function Concat(pieces: seq<seq<char>>, n: nat): seq<char>
    requires n <= |pieces|
  {
    if n == 0 then [] else Concat(pieces, n - 1) + pieces[n - 1]
  }

  lemma {:induction false} ConcatGrows(pieces: seq<seq<char>>, m: nat, n: nat)
    requires m <= n <= |pieces|
    ensures |Concat(pieces, m)| <= |Concat(pieces, n)|
  {
    if m < n { ConcatGrows(pieces, m, n - 1); }
  }

  /** One more piece, and all of them. */
  lemma ConcatStep(pieces: seq<seq<char>>, n: nat)
    requires n < |pieces|
    ensures Concat(pieces, n + 1) == Concat(pieces, n) + pieces[n]
    ensures |Concat(pieces, n)| + |pieces[n]| <= |Concat(pieces, |pieces|)|
  {
    ConcatGrows(pieces, n + 1, |pieces|);
  }

  lemma {:induction false} ConcatShorter(a: seq<seq<char>>, b: seq<seq<char>>, n: nat)
    requires n <= |a| == |b| && forall i | 0 <= i < n :: |a[i]| <= |b[i]|
    ensures |Concat(a, n)| <= |Concat(b, n)|
  {
    if n == 0 {
    } else {
      ConcatShorter(a, b, n - 1);
    }
  }

  /** All that is added, as it is written into the buffer. */
  function Bytes(entries: seq<string>, prefix: string, existing: seq<string>): seq<char> {
    Concat(Contributions(entries, prefix, existing), |entries|)
  }

  lemma {:induction false} ConcatEncodes(pieces: seq<seq<char>>, parts: seq<seq<string>>, n: nat)
    requires n <= |pieces| == |parts| && forall i | 0 <= i < n :: pieces[i] == Encode(parts[i])
    ensures Concat(pieces, n) == Encode(Flatten(parts, n))
  {
    if n == 0 {
    } else {
      ConcatEncodes(pieces, parts, n - 1);
      EncodeAppend(Flatten(parts, n - 1), parts[n - 1]);
    }
  }

  lemma BytesEncode(entries: seq<string>, prefix: string, existing: seq<string>)
    ensures Bytes(entries, prefix, existing) == Encode(Added(entries, prefix, existing, |entries|))
  {
    var pieces, parts := Contributions(entries, prefix, existing), AddedParts(entries, prefix, existing);
    forall i | 0 <= i < |entries| ensures pieces[i] == Encode(parts[i]) {}
    ConcatEncodes(pieces, parts, |entries|);
  }

  /** Leaving names out can only shorten the list. */
  lemma FilterShortens(entries: seq<string>, prefix: string, existing: seq<string>)
    ensures |Bytes(entries, prefix, existing)| <= |Bytes(entries, prefix, [])|
  {
    var a, b := Contributions(entries, prefix, existing), Contributions(entries, prefix, []);
    forall i | 0 <= i < |entries| ensures |a[i]| <= |b[i]| {}
    ConcatShorter(a, b, |entries|);
  }

  /** The inner loop of `list_metadata`: is `name` in the list at the front of the buffer? */
  method InList(buf: array<char>, size: nat, ghost names: seq<string>, name: string) returns (found: bool)
    requires AllNames(names)
    requires size <= buf.Length && buf[..size] == Encode(names)
    ensures found <==> Listed(name, names)
  {
    var offset := 0;
    ghost var i := 0;
    while offset < size
      invariant i <= |names| && offset == Offset(names, i)
      invariant !Listed(name, names[..i])
      decreases size - offset
    {
      assert i < |names| by { assert names[..|names|] == names; }
      NameAtOffset(names, i);
      assert forall k | 0 <= k < size :: buf[k] == buf[..size][k];
      assert StringAt(buf[..], offset, names[i]);
      var length := Strlen(buf, offset, names[i]);
      assert buf[offset..offset + length] == names[i];
      assert names[..i + 1][..i] == names[..i];
      if buf[offset..offset + length] == name {
        ListedPrefix(name, names, i + 1);
        return true;
      }
      offset := offset + length + 1;
      i := i + 1;
    }
    if i < |names| { NameAtOffset(names, i); }
    assert names[..|names|] == names;
    found := false;
  }

  /** `strcpy` */
  method Strcpy(buf: array<char>, at: nat, s: string)
    requires at + |s| < buf.Length
    modifies buf
    ensures buf[..] == Splice(old(buf[..]), at, s + [NUL])
  {
    forall i | 0 <= i < |s| { buf[at + i] := s[i]; }
    buf[at + |s|] := NUL;
  }

  /** `list_metadata` without a buffer: only the length is computed. */
  method MeasureMetadata(entries: seq<string>, prefix: string) returns (written: nat)
    ensures written == |Bytes(entries, prefix, [])|
  {
    written := 0;
    for n := 0 to |entries|
      invariant written == |Concat(Contributions(entries, prefix, []), n)|
    {
      if !(prefix <= entries[n]) { continue; }
      written := written + |entries[n][|prefix|..]| + 1;
    }
  }

  /** One turn of the loop: -1 when the entry has to be added and does not fit.
      The buffer was `b` before the first turn, and `done` has been added since. */
  method FillEntry(entry: string, prefix: string, buf: array<char>, base: nat, written: nat, size: nat,
                   ghost names: seq<string>, ghost b: seq<char>, ghost done: seq<char>) returns (next: int)
    requires base + size <= buf.Length == |b| && written == |done| <= size && StartsWith(b, base, names)
    requires buf[..] == Splice(b, base, done)
    modifies buf
    ensures var one := EntryBytes(entry, prefix, names);
            if written + |one| > size then next == -1 && buf[..] == old(buf[..])
            else next == |done + one| && buf[..] == Splice(b, base, done + one)
  {
    assert done + [] == done;
    if !(prefix <= entry) { return written; }
    var name := entry[|prefix|..];
    var found := InList(buf, base, names, name);
    if found { return written; }
    if size - written <= |name| { return -1; }
    SpliceTwice(b, base, done, name + [NUL]);
    Strcpy(buf, base + written, name);
    next := written + |name| + 1;
  }

  /** `list_metadata` with a buffer: `size` characters at `base` are free, and the
      caller's list is in front of them. `taken` is how many entries were handled. */
  method FillMetadata(entries: seq<string>, prefix: string, buf: array<char>, base: nat, size: nat,
                      ghost names: seq<string>) returns (written: int, ghost taken: nat)
    requires base + size <= buf.Length && StartsWith(buf[..], base, names)
    modifies buf
    ensures var pieces := Contributions(entries, prefix, names);
            && taken <= |entries| && |Concat(pieces, taken)| <= size
            && buf[..] == Splice(old(buf[..]), base, Concat(pieces, taken))
            && if |Concat(pieces, |entries|)| <= size
               then taken == |entries| && written == |Concat(pieces, |entries|)|
               else written == -1
  {
    written, taken := 0, 0;
    ghost var b, done, pieces := buf[..], [], Contributions(entries, prefix, names);
    for n := 0 to |entries|
      invariant taken == n && done == Concat(pieces, n) && written == |done| <= size
      invariant buf[..] == Splice(b, base, done)
    {
      var next := FillEntry(entries[n], prefix, buf, base, written, size, names, b, done);
      ConcatStep(pieces, n);
      if next < 0 {
        return -1, n;
      }
      done := done + pieces[n];
      written, taken := next, n + 1;
    }
  }

  // ---- The wrappers ----

  /** What the real listxattr has to say about the file: a list of names, or an
      error that is ENOTSUP or not. */
  datatype KernelList = Names(names: seq<string>) | Error(notSupported: bool)

  function KernelNames(k: KernelList): seq<string> { if k.Names? then k.names else [] }

  /** The real call: a zero size asks for the length, too small a size is ERANGE. */
  method KernelListXattr(k: KernelList, buf: array<char>, size: nat) returns (r: int, notSupported: bool)
    requires size <= buf.Length
    modifies buf
    ensures r == if k.Error? || 0 < size < |Encode(k.names)| then -1 else |Encode(k.names)|
    ensures notSupported <==> k.Error? && k.notSupported
    ensures buf[..] == if r > 0 && size > 0 then Splice(old(buf[..]), 0, Encode(k.names)) else old(buf[..])
  {
    if k.Error? { return -1, k.notSupported; }
    var list := Encode(k.names);
    if size == 0 { return |list|, false; }
    if size < |list| { return -1, false; }
    forall i | 0 <= i < |list| { buf[i] := list[i]; }
    return |list|, false;
  }

  /** `listxattr`, `llistxattr` and `flistxattr`, which differ only in how the
      file is named. The prefix, that of the file's inode, is absent when the file
      cannot be inspected. */
  method ListXattr(k: KernelList, entries: seq<string>, prefix: Option<string>, buf: array<char>, size: nat)
    returns (r: int)
    requires size <= buf.Length && AllNames(KernelNames(k))
    modifies buf
    ensures r == ListResult(k, entries, prefix, size)
    ensures buf[size..] == old(buf[size..])
    ensures size == 0 ==> buf[..] == old(buf[..])
    ensures size > 0 && Complete(k, entries, prefix, size) ==>
              buf[..] == Splice(old(buf[..]), 0, Encode(FullList(k, entries, prefix)))
  {
    ghost var b := buf[..];
    var nextRet, notSupported := KernelListXattr(k, buf, size);
    SpliceNothing(b, 0);
    if nextRet < 0 {
      if !notSupported { return nextRet; }
      nextRet := 0;
    }
    if prefix.None? {
      assert KernelNames(k) + [] == KernelNames(k);
      if size > 0 { TailOfSplice(b, Encode(KernelNames(k)), size); }
      assert buf[size..] == buf[..][size..];
      return nextRet;
    }
    if size == 0 {
      var more := MeasureMetadata(entries, prefix.value);
      return nextRet + more;
    }
    r := FillList(KernelNames(k), entries, prefix.value, buf, nextRet, size, b);
    FullListBytes(k, entries, prefix.value);
  }

  /** The fill call once the kernel's list is in the buffer, which was `b` before. */
  method FillList(ghost names: seq<string>, entries: seq<string>, prefix: string, buf: array<char>,
                  nextRet: nat, size: nat, ghost b: seq<char>) returns (r: int)
    requires nextRet == |Encode(names)| <= size <= buf.Length == |b| && AllNames(names)
    requires buf[..] == Splice(b, 0, Encode(names))
    modifies buf
    ensures buf[size..] == b[size..]
    ensures var all := Encode(names) + Bytes(entries, prefix, names);
            if |all| <= size then r == |all| && buf[..] == Splice(b, 0, all) else r == nextRet - 1
  {
    ghost var front := Encode(names);
    var more;
    ghost var taken;
    more, taken := FillMetadata(entries, prefix, buf, nextRet, size - nextRet, names);
    ghost var added := Concat(Contributions(entries, prefix, names), taken);
    SpliceTwice(b, 0, front, added);
    TailOfSplice(b, front + added, size);
    assert buf[size..] == buf[..][size..];
    return nextRet + more;
  }

  /** The names of the file: the kernel's, then the stored ones it does not have. */
  function FullList(k: KernelList, entries: seq<string>, prefix: Option<string>): seq<string> {
    KernelNames(k) + if prefix.None? then [] else
      Added(entries, prefix.value, KernelNames(k), |entries|)
  }

  lemma FullListBytes(k: KernelList, entries: seq<string>, prefix: string)
    ensures Encode(FullList(k, entries, Some(prefix)))
            == Encode(KernelNames(k)) + Bytes(entries, prefix, KernelNames(k))
  {
    BytesEncode(entries, prefix, KernelNames(k));
    EncodeAppend(KernelNames(k), Added(entries, prefix, KernelNames(k), |entries|));
  }

  predicate Fails(k: KernelList, size: nat) {
    (k.Error? && !k.notSupported) || (k.Names? && 0 < size < |Encode(k.names)|)
  }

  /** The buffer takes the whole list. */
  predicate Complete(k: KernelList, entries: seq<string>, prefix: Option<string>, size: nat) {
    !Fails(k, size) && |Encode(FullList(k, entries, prefix))| <= size
  }

  function ListResult(k: KernelList, entries: seq<string>, prefix: Option<string>, size: nat): int {
    var kernel := |Encode(KernelNames(k))|;
    if Fails(k, size) then -1
    else if prefix.None? then kernel
    else if size == 0 then kernel + |Bytes(entries, prefix.value, [])|
    else if Complete(k, entries, prefix, size) then |Encode(FullList(k, entries, prefix))|
    else kernel - 1
  }

  // ---- The two-call protocol ----

  lemma AddedByIs(entry: string, prefix: string, existing: seq<string>, x: string)
    ensures x in AddedBy(entry, prefix, existing) <==> x !in existing && entry == prefix + x
  {
    ListedIsIn(x, existing);
    if entry == prefix + x { assert entry[|prefix|..] == x; }
    if prefix <= entry { assert entry == prefix + entry[|prefix|..]; }
  }

  /** Exactly the names behind the prefix that the caller does not have. */
  lemma {:induction false} AddedNames(entries: seq<string>, prefix: string, existing: seq<string>, n: nat)
    requires n <= |entries|
    ensures forall x :: x in Added(entries, prefix, existing, n) <==> x !in existing && prefix + x in entries[..n]
  {
    if n == 0 {
    } else {
      AddedNames(entries, prefix, existing, n - 1);
      assert entries[..n] == entries[..n - 1] + [entries[n - 1]];
      forall x { AddedByIs(entries[n - 1], prefix, existing, x); }
    }
  }

  /** A query adds up the kernel's names and all that are stored for the inode. A file
      system without xattrs has none of its own. */
  lemma QueryCounts(k: KernelList, entries: seq<string>, prefix: string)
    requires k.Error? ==> k.notSupported
    ensures ListResult(k, entries, Some(prefix), 0)
            == |Encode(if k.Error? then [] else k.names)| + |Encode(Added(entries, prefix, [], |entries|))|
  {
    BytesEncode(entries, prefix, []);
  }

  /** A fill call with a buffer that is large enough gives the length of the whole list. */
  lemma FillCounts(k: KernelList, entries: seq<string>, prefix: string, size: nat)
    requires k.Error? ==> k.notSupported
    requires var names := if k.Error? then [] else k.names;
             |Encode(names)| + |Encode(Added(entries, prefix, names, |entries|))| <= size
    ensures var names := if k.Error? then [] else k.names;
            ListResult(k, entries, Some(prefix), size)
            == |Encode(names)| + |Encode(Added(entries, prefix, names, |entries|))|
  {
    EncodeAppend(KernelNames(k), Added(entries, prefix, KernelNames(k), |entries|));
    if size == 0 {
      assert KernelNames(k) == [];
      QueryCounts(k, entries, prefix);
    }
  }

  /** On a file system without xattrs the list is that of exactly the stored names. */
  lemma StoredNamesOnly(entries: seq<string>, prefix: string, x: string)
    ensures x in FullList(Error(true), entries, Some(prefix)) <==> prefix + x in entries
  {
    AddedNames(entries, prefix, [], |entries|);
    assert entries[..|entries|] == entries;
  }

  /** Without the file's inode only the kernel answers; its errors but ENOTSUP are
      passed on, and so is its ERANGE. */
  lemma KernelAlone(k: KernelList, entries: seq<string>, size: nat)
    ensures ListResult(k, entries, None, size)
            == match k
               case Error(notSupported) => if notSupported then 0 else -1
               case Names(names) => if 0 < size < |Encode(names)| then -1 else |Encode(names)|
  {}

  lemma KernelErrors(k: KernelList, entries: seq<string>, prefix: Option<string>, size: nat)
    requires k == Error(false) || (k.Names? && 0 < size < |Encode(k.names)|)
    ensures ListResult(k, entries, prefix, size) == -1
  {}

  // ---- The directory in another order ----

  /** How many characters an entry adds to a list without other names. */
  function EntrySize(entry: string, prefix: string): nat { |EntryBytes(entry, prefix, [])| }

  lemma {:induction false} ConcatSize(entries: seq<string>, prefix: string, n: nat)
    requires n <= |entries|
    ensures |Concat(Contributions(entries, prefix, []), n)| == Sum(Map(e => EntrySize(e, prefix), entries[..n]))
  {
    if n == 0 {
    } else {
      var sizes := Map(e => EntrySize(e, prefix), entries[..n]);
      ConcatSize(entries, prefix, n - 1);
      SumSnoc(Map(e => EntrySize(e, prefix), entries[..n - 1]), EntrySize(entries[n - 1], prefix));
      assert sizes == Map(e => EntrySize(e, prefix), entries[..n - 1]) + [EntrySize(entries[n - 1], prefix)];
    }
  }

  /** The length that is asked for does not depend on the order of the entries. */
  lemma SameSize(entries: seq<string>, entries': seq<string>, prefix: string)
    requires multiset(entries) == multiset(entries')
    ensures |Bytes(entries, prefix, [])| == |Bytes(entries', prefix, [])|
  {
    ConcatSize(entries, prefix, |entries|);
    ConcatSize(entries', prefix, |entries'|);
    assert entries[..|entries|] == entries && entries'[..|entries'|] == entries';
    MapPermuted(e => EntrySize(e, prefix), entries, entries');
    SumPermuted(Map(e => EntrySize(e, prefix), entries), Map(e => EntrySize(e, prefix), entries'));
  }

  lemma SameQuery(k: KernelList, entries: seq<string>, entries': seq<string>, prefix: Option<string>)
    requires multiset(entries) == multiset(entries')
    ensures ListResult(k, entries, prefix, 0) == ListResult(k, entries', prefix, 0)
  {
    if prefix.Some? { SameSize(entries, entries', prefix.value); }
  }

  /** Ask for the size, then fill a buffer of that size, with the store unchanged but
      read in any order by the second call: it cannot fail, returns at most what the
      first one did, and the buffer then reads as the kernel's names followed by the
      stored names it lacks, in the order of the second reading. */
  method TwoCalls(k: KernelList, entries: seq<string>, entries': seq<string>, prefix: Option<string>,
                  scratch: array<char>)
    returns (asked: int, filled: int, buf: array<char>)
    requires AllNames(KernelNames(k)) && AllNames(entries') && multiset(entries) == multiset(entries')
    modifies scratch
    ensures scratch[..] == old(scratch[..])
    ensures asked == -1 <==> k.Error? && !k.notSupported
    ensures asked > 0 ==> buf.Length == asked && 0 <= filled <= asked
    ensures asked > 0 ==> Decode(buf[..filled]) == FullList(k, entries', prefix)
  {
    asked := ListXattr(k, entries, prefix, scratch, 0);
    SameQuery(k, entries, entries', prefix);
    if asked <= 0 {
      filled, buf := asked, scratch;
      return;
    }
    buf := new char[asked];
    QuerySuffices(k, entries', prefix);
    FullListNames(k, entries', prefix);
    ghost var all, b := Encode(FullList(k, entries', prefix)), buf[..];
    filled := ListXattr(k, entries', prefix, buf, asked);
    CompleteResult(k, entries', prefix, asked);
    assert filled == |all| && buf[..filled] == buf[..][0..|all|];
    DecodeEncode(FullList(k, entries', prefix));
  }

  lemma CompleteResult(k: KernelList, entries: seq<string>, prefix: Option<string>, size: nat)
    requires size > 0 && Complete(k, entries, prefix, size)
    ensures ListResult(k, entries, prefix, size) == |Encode(FullList(k, entries, prefix))|
  {
    assert KernelNames(k) + [] == KernelNames(k);
  }

  lemma QuerySuffices(k: KernelList, entries: seq<string>, prefix: Option<string>)
    requires ListResult(k, entries, prefix, 0) > 0
    ensures Complete(k, entries, prefix, ListResult(k, entries, prefix, 0))
  {
    if prefix.Some? {
      var p := prefix.value;
      FilterShortens(entries, p, KernelNames(k));
      FullListBytes(k, entries, p);
    } else {
      assert KernelNames(k) + [] == KernelNames(k);
    }
  }

  lemma FullListNames(k: KernelList, entries: seq<string>, prefix: Option<string>)
    requires AllNames(KernelNames(k)) && AllNames(entries)
    ensures AllNames(FullList(k, entries, prefix))
  {
    if prefix.Some? { AddedAreNames(entries, prefix.value, KernelNames(k), |entries|); }
  }

  lemma {:induction false} AddedAreNames(entries: seq<string>, prefix: string, existing: seq<string>, n: nat)
    requires n <= |entries| && AllNames(entries)
    ensures AllNames(Added(entries, prefix, existing, n))
  {
    if n == 0 {
    } else {
      AddedAreNames(entries, prefix, existing, n - 1);
      assert IsAttributeName(entries[n - 1]);
    }
  }

  ghost predicate Distinct(names: seq<string>) {
    forall i, j | 0 <= i < j < |names| :: names[i] != names[j]
  }

  lemma {:induction false} AddedDistinct(entries: seq<string>, prefix: string, existing: seq<string>, n: nat)
    requires n <= |entries| && Distinct(entries)
    ensures Distinct(Added(entries, prefix, existing, n))
  {
    if n == 0 {
    } else {
      AddedDistinct(entries, prefix, existing, n - 1);
      AddedNames(entries, prefix, existing, n - 1);
      var before := Added(entries, prefix, existing, n - 1);
      if AddedBy(entries[n - 1], prefix, existing) != [] {
        var x := entries[n - 1][|prefix|..];
        assert entries[n - 1] == prefix + x && prefix + x !in entries[..n - 1];
        assert x !in before;
      }
    }
  }

  /** No name is listed twice. */
  lemma NoDuplicates(k: KernelList, entries: seq<string>, prefix: Option<string>)
    requires Distinct(KernelNames(k)) && Distinct(entries)
    ensures Distinct(FullList(k, entries, prefix))
  {
    if prefix.Some? {
      var p := prefix.value;
      var added := Added(entries, p, KernelNames(k), |entries|);
      AddedDistinct(entries, p, KernelNames(k), |entries|);
      AddedNames(entries, p, KernelNames(k), |entries|);
      forall j | 0 <= j < |added| ensures added[j] !in KernelNames(k) { assert added[j] in added; }
    }
  }

  /** The stored part is the store's: a name is listed exactly when the kernel
      has it or a value is kept for this inode under it. */
  lemma ListsTheStore(k: KernelList, entries: seq<string>, inode: Inode, dir: Directory, ops: seq<Op>, name: string)
    requires forall e :: e in entries <==> e in DirRun(dir, ops)
    ensures name in FullList(k, entries, Some(Prefix(inode)))
            <==> name in KernelNames(k) || ValueRun(dir, ops, Key(inode, name)).Some?
  {
    var p := Prefix(inode);
    AddedNames(entries, p, KernelNames(k), |entries|);
    DirectoryRefinesMap(dir, ops, Key(inode, name));
    assert p + name == FileName(Key(inode, name));
    assert entries[..|entries|] == entries;
  }

  /** Too small a buffer. The wrapper adds the -1 of `list_metadata` to the
      kernel's length, so the caller sees an error only when the kernel's list is
      empty; otherwise it sees the length of that list, less one. */
  lemma ShortBufferIsReported(k: KernelList, entries: seq<string>, inode: Inode, size: nat)
    requires size > 0 && k != Error(false) && (k.Names? ==> |Encode(k.names)| <= size)
    requires |Encode(FullList(k, entries, Some(Prefix(inode))))| > size
    ensures ListResult(k, entries, Some(Prefix(inode)), size) == |Encode(KernelNames(k))| - 1
    ensures ListResult(k, entries, Some(Prefix(inode)), size) < 0 <==> KernelNames(k) == []
  {}

  /** The failing input: the kernel has "a", the store "bb", and a buffer of three
      characters, in which the second does not fit, is answered with length 1. */
  lemma ShortBufferUnseen(inode: Inode)
    ensures var entries := [FileName(Key(inode, "bb"))];
            && ListResult(Names(["a"]), entries, Some(Prefix(inode)), 3) == 1
            && "bb" in FullList(Names(["a"]), entries, Some(Prefix(inode)))
  {
    var p := Prefix(inode);
    var entry, k := p + "bb", Names(["a"]);
    assert entry[|p|..] == "bb" && p <= entry;
    assert ["a"][..0] == [] && Encode(["a"]) == Encode([]) + "a" + [NUL];
    ListedIsIn("bb", ["a"]);
    assert AddedBy(entry, p, ["a"]) == ["bb"] && EntryBytes(entry, p, ["a"]) == "bb" + [NUL];
    assert Flatten(AddedParts([entry], p, ["a"]), 1) == Flatten(AddedParts([entry], p, ["a"]), 0) + ["bb"];
    assert Concat(Contributions([entry], p, ["a"]), 1) == Concat(Contributions([entry], p, ["a"]), 0) + ("bb" + [NUL]);
    FullListBytes(k, [entry], p);
    ShortBufferIsReported(k, [entry], inode, 3);
  }
}
