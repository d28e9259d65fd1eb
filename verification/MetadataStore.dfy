/** The flat directory in which fakecap keeps attribute values: one file per
    device, inode and attribute name. */
module MetadataStore {
  import opened Text

  datatype Inode = Inode(major: nat, minor: nat, number: nat)

  datatype Key = Key(inode: Inode, name: string)

  type Directory = map<string, seq<Byte>>

  // ---- File names ----

  /** printf's "%u" and "%lu". */
  function Decimal(n: nat): (s: string)
    ensures s != "" && forall c | c in s :: '0' <= c <= '9'
  {
    if n < 10 then [Digit(n)] else Decimal(n / 10) + [Digit(n % 10)]
  }

  function Digit(d: nat): char
    requires d < 10
  {
    "0123456789"[d]
  }

  lemma {:induction false} DecimalInjective(m: nat, n: nat)
    requires Decimal(m) == Decimal(n)
    ensures m == n
    decreases m
  {
    var s, t := Decimal(m), Decimal(n);
    assert s[|s| - 1] == Digit(m % 10) && t[|t| - 1] == Digit(n % 10);
    if m >= 10 && n >= 10 {
      assert s[..|s| - 1] == Decimal(m / 10) && t[..|t| - 1] == Decimal(n / 10);
      DecimalInjective(m / 10, n / 10);
    }
  }

  function Prefix(i: Inode): string {
    Decimal(i.major) + "-" + (Decimal(i.minor) + "-" + (Decimal(i.number) + "-"))
  }

  function FileName(k: Key): string { Prefix(k.inode) + k.name }

  /** What the digits say, most significant first. */
  function Value(digits: string): int {
    if digits == "" then 0
    else 10 * Value(digits[..|digits| - 1]) + (digits[|digits| - 1] as int - '0' as int)
  }

  /** Numbers are written in decimal, without leading zeros. */
  lemma {:induction false} DecimalMeans(n: nat)
    ensures Value(Decimal(n)) == n
    ensures n > 0 ==> Decimal(n)[0] != '0'
    ensures n == 0 ==> Decimal(n) == "0"
  {
    var s := Decimal(n);
    if n < 10 {
      assert s[..0] == "";
    } else {
      DecimalMeans(n / 10);
      assert s[..|s| - 1] == Decimal(n / 10);
    }
  }

  /** The order of the fields. */
  lemma FileNameReads(k: Key)
    ensures FileName(k) == Decimal(k.inode.major) + "-" + Decimal(k.inode.minor) + "-"
                           + Decimal(k.inode.number) + "-" + k.name
  {}

  /** Two fields that end at their first dash can be told apart. */
  lemma DashSplits(a: string, x: string, b: string, y: string)
    requires '-' !in a && '-' !in b && a + "-" + x <= b + "-" + y
    ensures a == b && x <= y
  {
    var u, v := a + "-" + x, b + "-" + y;
    assert u[..|a|] == a && v[..|b|] == b && v[..|a|] == u[..|a|];
    IndexOfIs(u, '-', |a|);
    IndexOfIs(v, '-', |b|);
    IndexOfIs(v, '-', |a|) by { assert v[|a|] == u[|a|]; }
    assert u[|a| + 1..] == x && v[|b| + 1..] == y;
  }

  /** The prefix test of the listing selects exactly the files of one inode. */
  lemma PrefixSelects(i: Inode, k: Key)
    ensures Prefix(i) <= FileName(k) <==> i == k.inode
    ensures i == k.inode ==> FileName(k)[|Prefix(i)|..] == k.name
  {
    var j := k.inode;
    if Prefix(i) <= FileName(k) {
      var x2, y2 := Decimal(i.number) + "-", Decimal(j.number) + "-" + k.name;
      var x1, y1 := Decimal(i.minor) + "-" + x2, Decimal(j.minor) + "-" + y2;
      assert FileName(k) == Decimal(j.major) + "-" + y1;
      DashSplits(Decimal(i.major), x1, Decimal(j.major), y1);
      DashSplits(Decimal(i.minor), x2, Decimal(j.minor), y2);
      DashSplits(Decimal(i.number), "", Decimal(j.number), k.name) by { assert x2 + "" == x2; }
      DecimalInjective(i.major, j.major);
      DecimalInjective(i.minor, j.minor);
      DecimalInjective(i.number, j.number);
    }
  }

  lemma FileNameInjective(k: Key, l: Key)
    requires FileName(k) == FileName(l)
    ensures k == l
  {
    PrefixSelects(k.inode, l);
    PrefixSelects(k.inode, k);
  }

  // ---- Reading and writing ----

  /** XATTR_CREATE and XATTR_REPLACE; the first wins when both are given. */
  datatype Flags = Flags(create: bool, replace: bool)

  /** One write: `opens` is whether the kernel lets the file be opened, apart from
      what the flags ask, and `room` how many bytes it takes. */
  datatype Op = Op(key: Key, value: seq<Byte>, flags: Flags, opens: bool, room: nat)

  /** A name with a slash leads out of the flat directory and cannot be opened. */
  predicate Openable(name: string, opens: bool) { opens && '/' !in name }

  predicate Refuses(present: bool, op: Op) {
    !Openable(op.key.name, op.opens) || (op.flags.create && present)
  }

  /** The bytes that reach the file. */
  function Taken(op: Op): seq<Byte> { op.value[..Min(op.room, |op.value|)] }

  lemma TakenWhole(op: Op)
    requires op.room >= |op.value|
    ensures Taken(op) == op.value == Taken(op) + []
  {}

  /** REPLACE does not truncate, so the tail of a longer old value stays. */
  function TailKept(old': Option<seq<Byte>>, op: Op): seq<Byte> {
    if !op.flags.create && op.flags.replace && old'.Some? && |old'.value| > |Taken(op)|
    then old'.value[|Taken(op)|..] else []
  }

  /** What the file holds after a write that could be opened. */
  function Written(old': Option<seq<Byte>>, op: Op): seq<Byte> { Taken(op) + TailKept(old', op) }

  function Get<K, V>(m: map<K, V>, k: K): Option<V> { if k in m then Some(m[k]) else None }

  /** The directory after one write. A short write is reported as an error, but it
      changes the file all the same. */
  function DirStep(dir: Directory, op: Op): Directory {
    var f := FileName(op.key);
    if Refuses(f in dir, op) then dir else dir[f := Written(Get(dir, f), op)]
  }

  function DirRun(dir: Directory, ops: seq<Op>): Directory {
    if ops == [] then dir else DirStep(DirRun(dir, ops[..|ops| - 1]), ops[|ops| - 1])
  }

  class Db {
    var dir: Directory

    constructor (dir: Directory)
      ensures this.dir == dir
    {
      this.dir := dir;
    }

    /** `writexattr`: the number of bytes written, or -1. */
    method WriteXattr(op: Op) returns (r: int)
      modifies this
      ensures r == if Refuses(FileName(op.key) in old(dir), op) || op.room < |op.value| then -1 else |op.value|
      ensures dir == DirStep(old(dir), op)
      ensures forall l: Key | l != op.key :: Get(dir, FileName(l)) == Get(old(dir), FileName(l))
    {
      var path := FileName(op.key);
      forall l: Key | l != op.key ensures FileName(l) != path {
        if FileName(l) == path { FileNameInjective(l, op.key); }
      }
      if !Openable(op.key.name, op.opens) { return -1; }
      var content: seq<Byte>;
      if op.flags.create {
        if path in dir { return -1; }
        content := [];
      } else if op.flags.replace {
        content := if path in dir then dir[path] else [];
      } else {
        content := [];
      }
      var written := Min(op.room, |op.value|);
      content := op.value[..written] + if |content| > written then content[written..] else [];
      dir := dir[path := content];
      r := if written == |op.value| then |op.value| else -1;
    }

    /** `readxattr`: -1 without a value or with too small a buffer; a zero size
        asks for the length. */
    method ReadXattr(k: Key, size: nat, opens: bool) returns (r: int, value: seq<Byte>)
      ensures var v := if opens && '/' !in k.name then Get(dir, FileName(k)) else None;
              r == (if v.None? || (size > 0 && size < |v.value|) then -1 else |v.value|)
              && value == (if r >= 0 && size > 0 then v.value else [])
    {
      value := [];
      if !Openable(k.name, opens) || FileName(k) !in dir { return -1, []; }
      var data := dir[FileName(k)];
      if size == 0 { return |data|, []; }
      if |data| > size { return -1, []; }
      return |data|, data;
    }

    /** The calls of a client, one after the other. */
    method WriteAll(ops: seq<Op>)
      modifies this
      ensures dir == DirRun(old(dir), ops)
    {
      for i := 0 to |ops|
        invariant dir == DirRun(old(dir), ops[..i])
      {
        assert ops[..i + 1][..i] == ops[..i];
        var _ := WriteXattr(ops[i]);
      }
      assert ops[..|ops|] == ops;
    }

    /** Writing and then reading a key with a buffer that is large enough. */
    method WriteThenRead(ops: seq<Op>, k: Key, size: nat) returns (r: int, value: seq<Byte>)
      requires '/' !in k.name && size > 0
      modifies this
      ensures var v := ValueRun(old(dir), ops, k);
              if v.None? then r == -1
              else if size < |v.value| then r == -1
              else r == |v.value| && value == v.value
    {
      DirectoryRefinesMap(dir, ops, k);
      WriteAll(ops);
      r, value := ReadXattr(k, size, true);
    }
  }

  // ---- The directory as a map ----

  /** The value of one key after a write, looking at that key alone. */
  function ValueStep(v: Option<seq<Byte>>, op: Op): Option<seq<Byte>> {
    if Refuses(v.Some?, op) then v else Some(Written(v, op))
  }

  /** The history of one key: the operations on other keys do not count. */
  function ValueRun(dir: Directory, ops: seq<Op>, k: Key): Option<seq<Byte>> {
    if ops == [] then Get(dir, FileName(k)) else
      var v := ValueRun(dir, ops[..|ops| - 1], k);
      if ops[|ops| - 1].key == k then ValueStep(v, ops[|ops| - 1]) else v
  }

  /** Refinement: for every directory and sequence of writes the directory then
      holds, under the file name of each key, what the history of that key says. */
  lemma {:induction false} DirectoryRefinesMap(dir: Directory, ops: seq<Op>, k: Key)
    ensures Get(DirRun(dir, ops), FileName(k)) == ValueRun(dir, ops, k)
  {
    if ops == [] {
    } else {
      var op := ops[|ops| - 1];
      DirectoryRefinesMap(dir, ops[..|ops| - 1], k);
      if op.key != k && FileName(op.key) == FileName(k) { FileNameInjective(op.key, k); }
    }
  }

  /** From operation `i` on, every one on the key is refused: it cannot be opened,
      or asks to create what is there. */
  predicate SettledFrom(ops: seq<Op>, i: nat, k: Key) {
    forall j | i <= j < |ops| && ops[j].key == k :: Refuses(true, ops[j])
  }

  lemma {:induction false} SettledValueStays(dir: Directory, ops: seq<Op>, i: nat, k: Key)
    requires i <= |ops| && SettledFrom(ops, i, k) && ValueRun(dir, ops[..i], k).Some?
    ensures ValueRun(dir, ops, k) == ValueRun(dir, ops[..i], k)
  {
    if i == |ops| {
      assert ops[..i] == ops;
    } else {
      var init := ops[..|ops| - 1];
      assert init[..i] == ops[..i];
      SettledValueStays(dir, init, i, k);
    }
  }

  /** A read returns what the last write that was not refused left, however many
      operations on other keys and refused ones follow. */
  lemma LastWriteIsRead(dir: Directory, ops: seq<Op>, i: nat)
    requires i < |ops| && SettledFrom(ops, i + 1, ops[i].key)
    requires !Refuses(ValueRun(dir, ops[..i], ops[i].key).Some?, ops[i])
    ensures Get(DirRun(dir, ops), FileName(ops[i].key))
            == Some(Written(ValueRun(dir, ops[..i], ops[i].key), ops[i]))
  {
    assert ops[..i + 1][..i] == ops[..i];
    SettledValueStays(dir, ops, i + 1, ops[i].key);
    DirectoryRefinesMap(dir, ops, ops[i].key);
  }

  /** A complete write without flags, or one that creates a new key, is read back
      until another one on its key is accepted. */
  lemma PlainWriteWins(dir: Directory, ops: seq<Op>, i: nat)
    requires i < |ops| && SettledFrom(ops, i + 1, ops[i].key)
    requires ops[i].opens && '/' !in ops[i].key.name && ops[i].room >= |ops[i].value|
    requires if ops[i].flags.create then ValueRun(dir, ops[..i], ops[i].key).None? else !ops[i].flags.replace
    ensures Get(DirRun(dir, ops), FileName(ops[i].key)) == Some(ops[i].value)
  {
    TakenWhole(ops[i]);
    LastWriteIsRead(dir, ops, i);
  }

  /** A write that the kernel cuts short is reported as an error, and what it left is
      read until another one on its key is accepted. */
  lemma ShortWriteStays(dir: Directory, ops: seq<Op>, i: nat)
    requires i < |ops| && SettledFrom(ops, i + 1, ops[i].key)
    requires ops[i].opens && '/' !in ops[i].key.name && ops[i].room < |ops[i].value|
    requires !ops[i].flags.create && !ops[i].flags.replace
    ensures Get(DirRun(dir, ops), FileName(ops[i].key)) == Some(ops[i].value[..ops[i].room])
  {
    LastWriteIsRead(dir, ops, i);
    assert Taken(ops[i]) + [] == ops[i].value[..ops[i].room];
  }

  /** A write under a name with a slash, or on a file that the kernel does not open,
      leaves everything as it was. */
  lemma UnopenedWrite(dir: Directory, op: Op)
    requires !op.opens || '/' in op.key.name
    ensures DirStep(dir, op) == dir && Refuses(FileName(op.key) in dir, op)
  {}

  /** CREATE on a key that has a value changes nothing at all. */
  lemma CreateOnlyOnce(dir: Directory, before: seq<Op>, op: Op, after: seq<Op>)
    requires op.flags.create && ValueRun(dir, before, op.key).Some?
    ensures DirRun(dir, before + [op] + after) == DirRun(dir, before + after)
  {
    DirectoryRefinesMap(dir, before, op.key);
    assert (before + [op])[..|before|] == before;
    DirRunAppend(dir, before + [op], after);
    DirRunAppend(dir, before, after);
  }

  lemma {:induction false} DirRunAppend(dir: Directory, a: seq<Op>, b: seq<Op>)
    ensures DirRun(dir, a + b) == DirRun(DirRun(dir, a), b)
  {
    if b == [] {
      assert a + b == a;
    } else {
      assert (a + b)[..|a + b| - 1] == a + b[..|b| - 1];
      DirRunAppend(dir, a, b[..|b| - 1]);
    }
  }

  /** REPLACE keeps the tail of the old value: it reads back what was written, and
      after any later operations on other keys still does, exactly when the old
      value was not longer. */
  lemma ReplaceReadsBack(dir: Directory, ops: seq<Op>, i: nat)
    requires i < |ops| && SettledFrom(ops, i + 1, ops[i].key)
    requires ops[i].opens && '/' !in ops[i].key.name && ops[i].room >= |ops[i].value|
    requires !ops[i].flags.create && ops[i].flags.replace
    ensures var value, before := ops[i].value, ValueRun(dir, ops[..i], ops[i].key);
            var after := Get(DirRun(dir, ops), FileName(ops[i].key));
            && after.Some? && value <= after.value
            && (before.Some? && |before.value| > |value| ==> after.value == value + before.value[|value|..])
            && (after == Some(value) <==> before.None? || |before.value| <= |value|)
  {
    TakenWhole(ops[i]);
    LastWriteIsRead(dir, ops, i);
  }

  function PutOp(k: Key, value: seq<Byte>, replace: bool): Op {
    Op(k, value, Flags(false, replace), true, |value|)
  }

  /** The failing input: one byte replaces two, and two are read. */
  lemma ReplaceKeepsTail(i: Inode)
    ensures var k := Key(i, "a");
            Get(DirRun(map[], [PutOp(k, [1, 2], false), PutOp(k, [3], true)]), FileName(k)) == Some([3, 2])
  {
    var k := Key(i, "a");
    var first, second := PutOp(k, [1, 2], false), PutOp(k, [3], true);
    assert [first, second][..1] == [first] && [first][..0] == [];
    TakenWhole(first);
    assert ValueRun(map[], [first], k) == ValueStep(None, first) == Some([1, 2]);
    ReplaceReadsBack(map[], [first, second], 1);
    assert [3] + [1, 2][1..] == [3, 2];
  }
}
