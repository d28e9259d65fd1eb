/** How `ghcr-blob-stream.py` splits an image reference into registry and repository. */
module Reference {
  import opened Text

  /** `s.rsplit(c, 1)[0]` */
  function BeforeLast(s: string, c: char): string {
    if c !in s then s
    else if s[|s| - 1] == c then s[..|s| - 1]
    else BeforeLast(s[..|s| - 1], c)
  }

  /** `s.rsplit(c, 1)[-1]` */
  function AfterLast(s: string, c: char): string {
    if s == "" || s[|s| - 1] == c then "" else AfterLast(s[..|s| - 1], c) + [s[|s| - 1]]
  }

  function Registry(ref: string): string { ref[..IndexOf(ref, '/')] }

  function Repository(ref: string): string {
    var slash := IndexOf(ref, '/');
    var rest := if slash == |ref| then "" else ref[slash + 1..];
    var repo := BeforeLast(rest, '@');
    if ':' in AfterLast(repo, '/') then BeforeLast(repo, ':') else repo
  }

  lemma {:induction false} LastSplit(a: string, c: char, b: string)
    requires c !in b
    ensures BeforeLast(a + [c] + b, c) == a && AfterLast(a + [c] + b, c) == b
  {
    var s := a + [c] + b;
    assert s[|a|] == c;
    if b == "" {
      assert s[..|s| - 1] == a;
    } else {
      var init := b[..|b| - 1];
      assert s[..|s| - 1] == a + [c] + init && s[|s| - 1] == b[|b| - 1];
      LastSplit(a, c, init);
      assert init + [b[|b| - 1]] == b;
    }
  }

  lemma {:induction false} NoSplit(s: string, c: char)
    requires c !in s
    ensures BeforeLast(s, c) == s && AfterLast(s, c) == s
  {
    if s == "" {
    } else {
      NoSplit(s[..|s| - 1], c);
      assert s[..|s| - 1] + [s[|s| - 1]] == s;
    }
  }

  /** Appending characters other than `c` extends the part after the last `c`. */
  lemma {:induction false} AfterLastAppend(s: string, t: string, c: char)
    requires c !in t
    ensures AfterLast(s + t, c) == AfterLast(s, c) + t
  {
    if t == "" {
      assert s + t == s;
    } else {
      var init := t[..|t| - 1];
      assert (s + t)[..|s + t| - 1] == s + init && (s + t)[|s + t| - 1] == t[|t| - 1];
      AfterLastAppend(s, init, c);
      assert init + [t[|t| - 1]] == t;
    }
  }

  /** A repository path that can be told from a tag and a digest. */
  predicate IsRepository(repo: string) { '@' !in repo && ':' !in AfterLast(repo, '/') }

  lemma FirstSlash(registry: string, rest: string)
    requires '/' !in registry
    ensures var ref := registry + "/" + rest;
            Registry(ref) == registry && IndexOf(ref, '/') == |registry| && ref[|registry| + 1..] == rest
  {
    var ref := registry + "/" + rest;
    assert ref[..|registry|] == registry;
    IndexOfIs(ref, '/', |registry|);
  }

  /** A bare reference is taken apart as meant exactly for such paths. */
  lemma BareReference(registry: string, repo: string)
    requires '/' !in registry
    ensures Registry(registry + "/" + repo) == registry
    ensures Repository(registry + "/" + repo) == repo <==> IsRepository(repo)
  {
    FirstSlash(registry, repo);
    if '@' !in repo {
      NoSplit(repo, '@');
      if ':' in AfterLast(repo, '/') {
        AfterLastIn(repo, '/', ':');
        BeforeLastShorter(repo, ':');
      }
    } else {
      BeforeLastShorter(repo, '@');
      BeforeLastAtMost(BeforeLast(repo, '@'), ':');
    }
  }

  lemma {:induction false} AfterLastIn(s: string, c: char, x: char)
    requires x in AfterLast(s, c)
    ensures x in s
  {
    if x in AfterLast(s[..|s| - 1], c) { AfterLastIn(s[..|s| - 1], c, x); }
  }

  lemma {:induction false} BeforeLastAtMost(s: string, c: char)
    ensures |BeforeLast(s, c)| <= |s|
  {
    if c in s && s[|s| - 1] != c { BeforeLastAtMost(s[..|s| - 1], c); }
  }

  lemma BeforeLastShorter(s: string, c: char)
    requires c in s
    ensures |BeforeLast(s, c)| < |s|
  {}

  lemma Suffixed(registry: string, repo: string, suffix: string)
    requires '/' !in registry
    ensures var ref := registry + "/" + repo + suffix;
            && Registry(ref) == registry
            && Repository(ref) == (var r := BeforeLast(repo + suffix, '@');
                                   if ':' in AfterLast(r, '/') then BeforeLast(r, ':') else r)
  {
    FirstSlash(registry, repo + suffix);
    assert registry + "/" + repo + suffix == registry + "/" + (repo + suffix);
  }

  lemma Tagged(repo: string, tag: string)
    requires ':' !in tag && '/' !in tag
    ensures ':' in AfterLast(repo + ":" + tag, '/') && BeforeLast(repo + ":" + tag, ':') == repo
  {
    LastSplit(repo, ':', tag);
    assert repo + ":" + tag == repo + [':'] + tag == repo + (":" + tag);
    AfterLastAppend(repo, ":" + tag, '/');
    assert (":" + tag)[0] == ':';
  }

  predicate Names(ref: string, registry: string, repo: string) {
    Registry(ref) == registry && Repository(ref) == repo
  }

  lemma NamedByTag(registry: string, repo: string, tag: string)
    requires '/' !in registry && IsRepository(repo)
    requires '@' !in tag && ':' !in tag && '/' !in tag
    ensures Names(registry + "/" + repo + (":" + tag), registry, repo)
  {
    Suffixed(registry, repo, ":" + tag);
    Tagged(repo, tag);
    assert repo + (":" + tag) == repo + ":" + tag;
    NoSplit(repo + ":" + tag, '@');
  }

  lemma NamedByDigest(registry: string, repo: string, digest: string)
    requires '/' !in registry && IsRepository(repo) && '@' !in digest
    ensures Names(registry + "/" + repo + ("@" + digest), registry, repo)
  {
    Suffixed(registry, repo, "@" + digest);
    Associative(repo, ['@'], digest);
    LastSplit(repo, '@', digest);
  }

  lemma BothGrouped(repo: string, tag: string, digest: string)
    ensures repo + (":" + tag + "@" + digest) == repo + ":" + tag + ['@'] + digest
  {}

  lemma NamedByBoth(registry: string, repo: string, tag: string, digest: string)
    requires '/' !in registry && '@' !in digest && ':' !in tag && '/' !in tag
    ensures Names(registry + "/" + repo + (":" + tag + "@" + digest), registry, repo)
  {
    Suffixed(registry, repo, ":" + tag + "@" + digest);
    Tagged(repo, tag);
    BothGrouped(repo, tag, digest);
    LastSplit(repo + ":" + tag, '@', digest);
  }

  /** Tags and digests do not matter: bare, tagged, pinned, and tagged and pinned
      references name the same registry and repository. */
  lemma TagAndDigestBlind(registry: string, repo: string, tag: string, digest: string)
    requires '/' !in registry && IsRepository(repo)
    requires '@' !in digest && '@' !in tag && ':' !in tag && '/' !in tag
    ensures Names(registry + "/" + repo, registry, repo)
    ensures Names(registry + "/" + repo + (":" + tag), registry, repo)
    ensures Names(registry + "/" + repo + ("@" + digest), registry, repo)
    ensures Names(registry + "/" + repo + (":" + tag + "@" + digest), registry, repo)
  {
    BareReference(registry, repo);
    NamedByTag(registry, repo, tag);
    NamedByDigest(registry, repo, digest);
    NamedByBoth(registry, repo, tag, digest);
  }

  /** A reference without a slash is all registry. */
  lemma NoRepository(ref: string)
    requires '/' !in ref
    ensures Registry(ref) == ref && Repository(ref) == ""
  {
    assert ref[..|ref|] == ref;
    IndexOfIs(ref, '/', |ref|);
  }
}
