/** `_fetch_deptree`: the reader of `bst show` output in which every element is
    followed by its dependencies as a block sequence. */
module DepTree {
  import opened Text

  type Nodes = map<string, seq<string>>

  datatype Reader = Reader(nodes: Nodes, name: Option<string>, deps: seq<string>)

  function Flush(r: Reader): Nodes {
    if r.name.Some? then r.nodes[r.name.value := r.deps] else r.nodes
  }

  /** The dependency behind the dashes; nothing when only dashes are left. */
  function ReadDep(text: string): (r: seq<string>)
    ensures |r| <= 1
  {
    var dep := Strip(LStripChar(text, '-'));
    if dep == "" then [] else [dep]
  }

  /** What one line says: a name with what follows it, one more item, or nothing. */
  datatype Item = Head(name: string, deps: seq<string>) | More(deps: seq<string>) | Other

  function ReadLine(line: string): Item {
    var t := IndexOf(line, TAB);
    if t < |line| then Head(Strip(line[..t]), FirstDeps(Strip(line[t + 1..])))
    else MoreDeps(Strip(line))
  }

  function FirstDeps(text: string): seq<string> {
    if text == "" || text == "[]" then [] else ReadDep(text)
  }

  function MoreDeps(text: string): Item {
    if text != "" && text[0] == '-' then More(ReadDep(text)) else Other
  }

  function Take(r: Reader, item: Item): Reader {
    match item
    case Head(name, deps) => Reader(Flush(r), Some(name), deps)
    case More(deps) => if r.name.Some? then r.(deps := r.deps + deps) else r
    case Other => r
  }

  function TakeAll(r: Reader, items: seq<Item>): Reader {
    if items == [] then r else Take(TakeAll(r, items[..|items| - 1]), items[|items| - 1])
  }

  function ReadLines(lines: seq<string>): seq<Item> { Map(ReadLine, lines) }

  const NOTHING_READ := Reader(map[], None, [])

  method FetchDepTree(out: string) returns (nodes: Nodes)
    ensures nodes == Flush(TakeAll(NOTHING_READ, ReadLines(SplitLines(out))))
  {
    nodes := Collect(ReadLines(SplitLines(out)));
  }

  method Collect(items: seq<Item>) returns (nodes: Nodes)
    ensures nodes == Flush(TakeAll(NOTHING_READ, items))
  {
    nodes := map[];
    var name, deps := None, [];
    for i := 0 to |items|
      invariant Reader(nodes, name, deps) == TakeAll(NOTHING_READ, items[..i])
    {
      assert items[..i + 1][..i] == items[..i];
      match items[i]
      case Head(newName, newDeps) =>
        if name.Some? { nodes := nodes[name.value := deps]; }
        name, deps := Some(newName), newDeps;
      case More(newDeps) =>
        if name.Some? { deps := deps + newDeps; }
      case Other =>
    }
    assert items[..|items|] == items;
    if name.Some? { nodes := nodes[name.value := deps]; }
  }

  // ---- The printed form ----

  datatype Node = Node(name: string, deps: seq<string>)

  function PrintDeps(deps: seq<string>): (r: seq<string>)
    ensures |r| == |deps| && forall i | 0 <= i < |r| :: r[i] == "- " + deps[i]
  {
    seq(|deps|, i requires 0 <= i < |deps| => "- " + deps[i])
  }

  function FirstItem(deps: seq<string>): string { if deps == [] then "[]" else "- " + deps[0] }

  function Rest(deps: seq<string>): seq<string> { if deps == [] then [] else deps[1..] }

  /** `name TAB` and the list, the first item on the same line. */
  function PrintNode(n: Node): seq<string> {
    [n.name + "\t" + FirstItem(n.deps)] + PrintDeps(Rest(n.deps))
  }

  function PrintNodes(ns: seq<Node>): seq<string> {
    if ns == [] then [] else PrintNodes(ns[..|ns| - 1]) + PrintNode(ns[|ns| - 1])
  }

  /** What the printed nodes stand for: a name printed twice means its last block. */
  function Meaning(ns: seq<Node>): Nodes {
    if ns == [] then map[] else Meaning(ns[..|ns| - 1])[ns[|ns| - 1].name := ns[|ns| - 1].deps]
  }

  predicate IsName(s: string) { s != "" && Trimmed(s) && TAB !in s && NoLineBreak(s) }

  ghost predicate WellNamed(n: Node) {
    IsName(n.name) && forall i | 0 <= i < |n.deps| :: IsName(n.deps[i])
  }

  // ---- Round trip ----

  lemma StripBlank(s: string)
    requires Trimmed(s) && s != ""
    ensures Strip(" " + s) == s
  {
    assert (" " + s)[1..] == s;
    assert LStrip(" " + s) == LStrip(s) == s;
  }

  /** Stripping the dash and the blank of an item leaves the dependency. */
  lemma DepRead(d: string)
    requires IsName(d)
    ensures ReadDep("- " + d) == [d]
  {
    var s := "- " + d;
    assert s[1..] == " " + d && (" " + d)[0] != '-';
    assert LStripChar(s, '-') == " " + d;
    StripBlank(d);
  }

  lemma ItemLine(d: string)
    requires IsName(d)
    ensures Trimmed("- " + d) && TAB !in "- " + d && NoLineBreak("- " + d)
  {}

  lemma ItemRead(d: string)
    requires IsName(d)
    ensures ReadLine("- " + d) == More([d])
  {
    var s := "- " + d;
    ItemLine(d);
    assert s[..|s|] == s;
    IndexOfIs(s, TAB, |s|);
    DepRead(d);
  }

  lemma HeadRead(name: string, item: string)
    requires IsName(name) && Trimmed(item)
    ensures ReadLine(name + "\t" + item) == Head(name, FirstDeps(item))
  {
    var line := name + "\t" + item;
    assert line[..|name|] == name && line[|name| + 1..] == item;
    IndexOfIs(line, TAB, |name|);
  }

  function First(deps: seq<string>): seq<string> { if deps == [] then [] else [deps[0]] }

  lemma FirstItemRead(deps: seq<string>)
    requires forall i | 0 <= i < |deps| :: IsName(deps[i])
    ensures Trimmed(FirstItem(deps)) && NoLineBreak(FirstItem(deps)) && FirstDeps(FirstItem(deps)) == First(deps)
  {
    if deps != [] {
      ItemLine(deps[0]);
      DepRead(deps[0]);
      assert ("- " + deps[0])[0] == '-';
    }
  }

  function MoreItems(deps: seq<string>): (r: seq<Item>)
    ensures |r| == |deps| && forall i | 0 <= i < |r| :: r[i] == More([deps[i]])
  {
    seq(|deps|, i requires 0 <= i < |deps| => More([deps[i]]))
  }

  lemma MoreRead(deps: seq<string>)
    requires forall i | 0 <= i < |deps| :: IsName(deps[i])
    ensures ReadLines(PrintDeps(deps)) == MoreItems(deps)
  {
    forall i | 0 <= i < |deps| ensures ReadLine("- " + deps[i]) == More([deps[i]]) { ItemRead(deps[i]); }
  }

  lemma MapAppend<A, B>(f: A -> B, a: seq<A>, b: seq<A>)
    ensures Map(f, a + b) == Map(f, a) + Map(f, b)
  {}

  lemma MapCons<A, B>(f: A -> B, x: A, s: seq<A>)
    ensures Map(f, [x] + s) == [f(x)] + Map(f, s)
  {}

  /** The items of a printed node. */
  function Items(n: Node): seq<Item> { [Head(n.name, First(n.deps))] + MoreItems(Rest(n.deps)) }

  lemma FirstLineRead(n: Node)
    requires WellNamed(n)
    ensures ReadLine(n.name + "\t" + FirstItem(n.deps)) == Head(n.name, First(n.deps))
  {
    FirstItemRead(n.deps);
    HeadRead(n.name, FirstItem(n.deps));
  }

  lemma ItemsOfLines(n: Node)
    requires ReadLine(n.name + "\t" + FirstItem(n.deps)) == Head(n.name, First(n.deps))
    requires ReadLines(PrintDeps(Rest(n.deps))) == MoreItems(Rest(n.deps))
    ensures ReadLines(PrintNode(n)) == Items(n)
  {
    MapCons(ReadLine, n.name + "\t" + FirstItem(n.deps), PrintDeps(Rest(n.deps)));
  }

  lemma PrintedItems(n: Node)
    requires WellNamed(n)
    ensures ReadLines(PrintNode(n)) == Items(n)
  {
    FirstLineRead(n);
    MoreRead(Rest(n.deps));
    ItemsOfLines(n);
  }

  lemma {:induction false} MoreTaken(r: Reader, deps: seq<string>)
    requires r.name.Some?
    ensures TakeAll(r, MoreItems(deps)) == r.(deps := r.deps + deps)
  {
    if deps == [] {
      assert r.deps + [] == r.deps;
    } else {
      var init, last := deps[..|deps| - 1], deps[|deps| - 1];
      MoreTaken(r, init);
      assert MoreItems(deps)[..|deps| - 1] == MoreItems(init);
      Associative(r.deps, init, [last]);
      assert init + [last] == deps;
    }
  }

  lemma {:induction false} TakeAppend(r: Reader, a: seq<Item>, b: seq<Item>)
    ensures TakeAll(r, a + b) == TakeAll(TakeAll(r, a), b)
  {
    if b == [] {
      assert a + b == a;
    } else {
      assert (a + b)[..|a + b| - 1] == a + b[..|b| - 1];
      TakeAppend(r, a, b[..|b| - 1]);
    }
  }

  lemma NodeTaken(r: Reader, n: Node)
    ensures TakeAll(r, Items(n)) == Reader(Flush(r), Some(n.name), n.deps)
  {
    var head := [Head(n.name, First(n.deps))];
    TakeAppend(r, head, MoreItems(Rest(n.deps)));
    assert head[..0] == [] && TakeAll(r, head) == Reader(Flush(r), Some(n.name), First(n.deps));
    MoreTaken(Reader(Flush(r), Some(n.name), First(n.deps)), Rest(n.deps));
    assert First(n.deps) + Rest(n.deps) == n.deps;
  }

  lemma {:induction false} NodesRead(ns: seq<Node>)
    requires forall i | 0 <= i < |ns| :: WellNamed(ns[i])
    ensures Flush(TakeAll(NOTHING_READ, ReadLines(PrintNodes(ns)))) == Meaning(ns)
  {
    if ns == [] {
    } else {
      var init, last := ns[..|ns| - 1], ns[|ns| - 1];
      NodesRead(init);
      var before := ReadLines(PrintNodes(init));
      MapAppend(ReadLine, PrintNodes(init), PrintNode(last));
      PrintedItems(last);
      TakeAppend(NOTHING_READ, before, Items(last));
      NodeTaken(TakeAll(NOTHING_READ, before), last);
    }
  }

  lemma NodeLines(n: Node)
    requires WellNamed(n)
    ensures forall l | l in PrintNode(n) :: NoLineBreak(l)
  {}

  lemma {:induction false} NodesLines(ns: seq<Node>)
    requires forall i | 0 <= i < |ns| :: WellNamed(ns[i])
    ensures forall l | l in PrintNodes(ns) :: NoLineBreak(l)
  {
    if ns == [] {
    } else {
      NodesLines(ns[..|ns| - 1]);
      NodeLines(ns[|ns| - 1]);
    }
  }

  /** Round trip: printing any nodes and reading the text recovers every name with
      its dependencies in order. */
  lemma PrintedTreeReadBack(ns: seq<Node>)
    requires forall i | 0 <= i < |ns| :: WellNamed(ns[i])
    ensures Flush(TakeAll(NOTHING_READ, ReadLines(SplitLines(Unlines(PrintNodes(ns)))))) == Meaning(ns)
  {
    NodesLines(ns);
    SplitLinesUnlines(PrintNodes(ns));
    NodesRead(ns);
  }

  /** Node `i` is the last one with its name. */
  ghost predicate LastBlock(ns: seq<Node>, name: string, i: nat) {
    i < |ns| && ns[i].name == name && forall j | i < j < |ns| :: ns[j].name != name
  }

  /** The names of a tree are exactly the printed ones, and each has the
      dependencies of its last block. */
  lemma {:induction false} MeaningOf(ns: seq<Node>, name: string)
    ensures name in Meaning(ns) <==> exists i | 0 <= i < |ns| :: ns[i].name == name
    ensures name in Meaning(ns) ==> exists i: nat :: LastBlock(ns, name, i) && Meaning(ns)[name] == ns[i].deps
  {
    if ns == [] {
    } else {
      var init, last := ns[..|ns| - 1], ns[|ns| - 1];
      MeaningOf(init, name);
      if last.name == name {
        assert LastBlock(ns, name, |ns| - 1);
      } else if name in Meaning(init) {
        var i: nat :| LastBlock(init, name, i) && Meaning(init)[name] == init[i].deps;
        assert LastBlock(ns, name, i) && ns[i] == init[i];
      }
    }
  }

  // ---- Lines that the printed form does not have ----

  /** A line with neither a tab nor a dash in front says nothing, and an item before
      the first name is dropped. */
  lemma StrayLines(r: Reader, line: string)
    requires TAB !in line
    ensures Strip(line) == "" || Strip(line)[0] != '-' ==> Take(r, ReadLine(line)) == r
    ensures r.name.None? ==> Take(r, ReadLine(line)) == r
  {
    assert line[..|line|] == line;
    IndexOfIs(line, TAB, |line|);
  }

  ghost predicate AllDashes(s: string) { forall i | 0 <= i < |s| :: s[i] == '-' }

  lemma {:induction false} DashesStripped(s: string)
    requires AllDashes(s)
    ensures LStripChar(s, '-') == ""
  {
    if s == "" {
    } else {
      DashesStripped(s[1..]);
    }
  }

  /** An item of dashes alone is no dependency. */
  lemma EmptyItems(dashes: string)
    requires AllDashes(dashes)
    ensures ReadDep(dashes) == []
  {
    DashesStripped(dashes);
    assert Strip("") == "";
  }
}
