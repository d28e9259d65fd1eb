/** NUL-terminated strings in a character buffer, with pointers as offsets. */
module CStrings {
  import opened Text

  /** At offset `o` the buffer holds the C string `s`. */
  ghost predicate StringAt(b: seq<char>, o: nat, s: string) {
    && o + |s| < |b| && b[o + |s|] == NUL
    && forall i | 0 <= i < |s| :: b[o + i] == s[i] && s[i] != NUL
  }

  /** Cutting a string at position `n` leaves its first part. */
  lemma StringAtCut(b: seq<char>, c: seq<char>, o: nat, s: string, n: nat)
    requires StringAt(b, o, s) && n <= |s| && |c| == |b| && c[o + n] == NUL
    requires forall i | o <= i < o + n :: c[i] == b[i]
    ensures StringAt(c, o, s[..n])
  {}

  /** The rest of a string is not disturbed by changes before it. */
  lemma StringAtMoved(b: seq<char>, c: seq<char>, o: nat, s: string, n: nat)
    requires StringAt(b, o, s) && n <= |s| && |c| == |b|
    requires forall i | o + n <= i <= o + |s| :: c[i] == b[i]
    ensures StringAt(c, o + n, s[n..])
  {}

  /** C's `strchr`: where `c` is, or the end of the string. */
  method Strchr(buf: array<char>, o: nat, ghost s: string, c: char) returns (i: nat)
    requires StringAt(buf[..], o, s) && c != NUL
    ensures i == IndexOf(s, c)
    ensures o + i < buf.Length && (i < |s| <==> buf[o + i] == c)
  {
    i := 0;
    while buf[o + i] != NUL && buf[o + i] != c
      invariant i <= |s| && c !in s[..i]
      decreases |s| - i
    {
      assert i < |s| && s[..i + 1] == s[..i] + [s[i]];
      i := i + 1;
    }
    IndexOfIs(s, c, i);
  }

  /** C's `strlen`. */
  method Strlen(buf: array<char>, o: nat, ghost s: string) returns (n: nat)
    requires StringAt(buf[..], o, s)
    ensures n == |s|
  {
    n := 0;
    while buf[o + n] != NUL
      invariant n <= |s| && (n < |s| ==> buf[o + n] == s[n] != NUL)
      decreases |s| - n
    {
      n := n + 1;
    }
  }
}
