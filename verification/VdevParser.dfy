/** Rebuilding the vdev tree of a pool from the indentation of a status listing, with a
    bounded stack of the open vdevs. */
module VdevParser {
  import opened Sequences
  import opened VdevForest

  /** The first five columns: path, state, read, write and checksum errors. */
  type Info = seq<string>

  /** A line of the listing: the number of leading blanks, and the blank-separated words. */
  datatype TextLine = TextLine(indent: nat, words: seq<string>)

  const MAX_DEPTH: nat := 64

  // ---------------------------------------------------------------- which lines are vdev rows

  predicate Starts(l: TextLine, word: string) {
    l.words != [] && word <= l.words[0]
  }

  function DropThrough(lines: seq<TextLine>, word: string): seq<TextLine> {
    if lines == [] then [] else if Starts(lines[0], word) then lines[1..] else DropThrough(lines[1..], word)
  }

  function TakeUntil(lines: seq<TextLine>, word: string): seq<TextLine> {
    if lines == [] || Starts(lines[0], word) then [] else [lines[0]] + TakeUntil(lines[1..], word)
  }

  function Wide(lines: seq<TextLine>): seq<TextLine> {
    if lines == [] then [] else (if |lines[0].words| >= 5 then [lines[0]] else []) + Wide(lines[1..])
  }

  function BelowRoot(lines: seq<TextLine>, root: nat): seq<Row<Info>> {
    if lines == [] then [] else
      (if lines[0].indent == root || |lines[0].words| < 5 then [] else [Row(lines[0].indent, lines[0].words[..5])])
      + BelowRoot(lines[1..], root)
  }

  /** The listed lines: after the header of the config section, up to the error summary. */
  function Listed(lines: seq<TextLine>): seq<TextLine> {
    Wide(TakeUntil(DropThrough(DropThrough(lines, "config:"), "NAME"), "errors:"))
  }

  /** The accepted rows: all listed lines but those as far indented as the first, the pool itself. */
  function Accepted(lines: seq<TextLine>): seq<Row<Info>> {
    var l := Listed(lines);
    if l == [] then [] else BelowRoot(l, l[0].indent)
  }

  // ---------------------------------------------------------------- the accepted rows, by position

  /** The first line from `lo` on that starts with `word`, or the end of the text. */
  ghost predicate FirstAt(lines: seq<TextLine>, word: string, lo: nat, k: nat) {
    && lo <= k <= |lines| && (k < |lines| ==> Starts(lines[k], word))
    && forall i | lo <= i < k :: !Starts(lines[i], word)
  }

  /** The line behind it. */
  function Past(lines: seq<TextLine>, k: nat): (n: nat)
    ensures k <= |lines| ==> n <= |lines|
  {
    if k < |lines| then k + 1 else k
  }

  lemma {:induction false} DropThroughAt(lines: seq<TextLine>, word: string, k: nat)
    requires FirstAt(lines, word, 0, k)
    ensures DropThrough(lines, word) == lines[Past(lines, k)..]
  {
    if k > 0 {
      assert !Starts(lines[0], word);
      DropThroughAt(lines[1..], word, k - 1);
    }
  }

  lemma {:induction false} TakeUntilAt(lines: seq<TextLine>, word: string, k: nat)
    requires FirstAt(lines, word, 0, k)
    ensures TakeUntil(lines, word) == lines[..k]
  {
    if k > 0 {
      assert !Starts(lines[0], word);
      TakeUntilAt(lines[1..], word, k - 1);
    }
  }

  lemma FirstAtShift(lines: seq<TextLine>, word: string, lo: nat, k: nat)
    requires FirstAt(lines, word, lo, k)
    ensures FirstAt(lines[lo..], word, 0, k - lo)
  {
  }

  /** The table of vdevs: what stands between the heading and the error summary. */
  lemma TableLines(lines: seq<TextLine>, a: nat, b: nat, e: nat)
    requires FirstAt(lines, "config:", 0, a)
    requires FirstAt(lines, "NAME", Past(lines, a), b) && FirstAt(lines, "errors:", Past(lines, b), e)
    ensures Listed(lines) == Wide(lines[Past(lines, b)..e])
  {
    var p, q := Past(lines, a), Past(lines, b);
    DropThroughAt(lines, "config:", a);
    DropThroughFrom(lines, "NAME", p, b);
    TakeUntilFrom(lines, "errors:", q, e);
  }

  lemma DropThroughFrom(lines: seq<TextLine>, word: string, lo: nat, k: nat)
    requires FirstAt(lines, word, lo, k)
    ensures DropThrough(lines[lo..], word) == lines[Past(lines, k)..]
  {
    FirstAtShift(lines, word, lo, k);
    DropThroughAt(lines[lo..], word, k - lo);
    assert lines[lo..][Past(lines[lo..], k - lo)..] == lines[Past(lines, k)..];
  }

  lemma TakeUntilFrom(lines: seq<TextLine>, word: string, lo: nat, k: nat)
    requires FirstAt(lines, word, lo, k)
    ensures TakeUntil(lines[lo..], word) == lines[lo..k]
  {
    FirstAtShift(lines, word, lo, k);
    TakeUntilAt(lines[lo..], word, k - lo);
    assert lines[lo..][..k - lo] == lines[lo..k];
  }

  lemma {:induction false} WideSnoc(lines: seq<TextLine>, l: TextLine)
    ensures Wide(lines + [l]) == Wide(lines) + (if |l.words| >= 5 then [l] else [])
  {
    if lines == [] {
      assert lines + [l] == [l] && [l][1..] == [];
    } else {
      assert (lines + [l])[1..] == lines[1..] + [l];
      WideSnoc(lines[1..], l);
      Associate(if |lines[0].words| >= 5 then [lines[0]] else [], Wide(lines[1..]), if |l.words| >= 5 then [l] else []);
    }
  }

  /** The row of a line, if it has one. */
  function AsRow(l: TextLine, root: nat): seq<Row<Info>> {
    if l.indent == root || |l.words| < 5 then [] else [Row(l.indent, l.words[..5])]
  }

  lemma {:induction false} BelowRootSnoc(lines: seq<TextLine>, l: TextLine, root: nat)
    ensures BelowRoot(lines + [l], root) == BelowRoot(lines, root) + AsRow(l, root)
  {
    if lines == [] {
      assert lines + [l] == [l] && [l][1..] == [];
    } else {
      assert (lines + [l])[1..] == lines[1..] + [l];
      BelowRootSnoc(lines[1..], l, root);
      Associate(AsRow(lines[0], root), BelowRoot(lines[1..], root), AsRow(l, root));
    }
  }

  /** The lines of a table that are rows: wide enough and not indented like its root. */
  ghost function IsRow(table: seq<TextLine>, root: nat): seq<bool> {
    seq(|table|, k requires 0 <= k < |table| => |table[k].words| >= 5 && table[k].indent != root)
  }

  ghost predicate RowsOf(rows: seq<Row<Info>>, table: seq<TextLine>, ks: seq<nat>) {
    && |rows| == |ks|
    && forall i | 0 <= i < |ks| :: ks[i] < |table| && |table[ks[i]].words| >= 5
                                   && rows[i] == Row(table[ks[i]].indent, table[ks[i]].words[..5])
  }

  /** `ks` are the lines of a table that become rows. */
  ghost predicate AreRows(table: seq<TextLine>, root: nat, ks: seq<nat>) {
    Marks(ks, IsRow(table, root)) && RowsOf(BelowRoot(Wide(table), root), table, ks)
  }

  lemma {:induction false} TableRows(table: seq<TextLine>, root: nat) returns (ks: seq<nat>)
    ensures AreRows(table, root, ks)
  {
    if table == [] {
      ks := [];
    } else {
      var n := |table| - 1;
      var before, l := table[..n], table[n];
      assert table == before + [l];
      var some := TableRows(before, root);
      ks := OneLine(before, l, root, some);
    }
  }

  lemma OneLine(before: seq<TextLine>, l: TextLine, root: nat, ks: seq<nat>) returns (more: seq<nat>)
    requires AreRows(before, root, ks)
    ensures AreRows(before + [l], root, more)
  {
    var m := |l.words| >= 5 && l.indent != root;
    more := if m then ks + [|before|] else ks;
    assert IsRow(before + [l], root) == IsRow(before, root) + [m];
    MarksSnoc(ks, IsRow(before, root), m);
    RowsOfSnoc(BelowRoot(Wide(before), root), before, ks, l);
    WideRowsSnoc(before, l, root);
  }

  lemma WideRowsSnoc(before: seq<TextLine>, l: TextLine, root: nat)
    ensures BelowRoot(Wide(before + [l]), root) == BelowRoot(Wide(before), root) + AsRow(l, root)
  {
    WideSnoc(before, l);
    if |l.words| >= 5 {
      BelowRootSnoc(Wide(before), l, root);
    } else {
      assert Wide(before) + [] == Wide(before);
    }
  }

  lemma RowsOfSnoc(rows: seq<Row<Info>>, table: seq<TextLine>, ks: seq<nat>, l: TextLine)
    requires RowsOf(rows, table, ks)
    ensures RowsOf(rows + [], table + [l], ks)
    ensures |l.words| >= 5 ==> RowsOf(rows + [Row(l.indent, l.words[..5])], table + [l], ks + [|table|])
  {
    assert rows + [] == rows;
  }

  lemma {:induction false} FirstWide(table: seq<TextLine>) returns (r: nat)
    ensures r <= |table| && forall i | 0 <= i < r :: |table[i].words| < 5
    ensures if r < |table| then Wide(table) != [] && Wide(table)[0] == table[r] && |table[r].words| >= 5 else Wide(table) == []
  {
    if table == [] || |table[0].words| >= 5 {
      r := 0;
    } else {
      r := FirstWide(table[1..]);
      r := r + 1;
    }
  }

  /** The accepted rows: behind the first heading behind the first config line, up to the error
      summary, the first five words and the indent of exactly those lines that have five and
      are not indented like the first of them; none if there is no such first one. */
  lemma AcceptedMeans(lines: seq<TextLine>, a: nat, b: nat, e: nat) returns (r: nat, ks: seq<nat>)
    requires FirstAt(lines, "config:", 0, a)
    requires FirstAt(lines, "NAME", Past(lines, a), b) && FirstAt(lines, "errors:", Past(lines, b), e)
    ensures var table := lines[Past(lines, b)..e];
      && r <= |table| && (forall i | 0 <= i < r :: |table[i].words| < 5) && (r < |table| ==> |table[r].words| >= 5)
      && (r == |table| ==> Accepted(lines) == [])
      && (r < |table| ==> Marks(ks, IsRow(table, table[r].indent)) && RowsOf(Accepted(lines), table, ks))
  {
    var table := lines[Past(lines, b)..e];
    TableLines(lines, a, b, e);
    r := FirstWide(table);
    ks := TableRows(table, if r < |table| then table[r].indent else 0);
  }

  datatype Action = Skip | Stop | Take(row: Row<Info>)

  /** How far the scanner of the listing has come. */
  datatype Scan = Scan(inConfig: bool, headerSkipped: bool, rootIndent: int) {

    /** The rows the remaining lines will yield. */
    function Coming(lines: seq<TextLine>): seq<Row<Info>> {
      var a := if inConfig then lines else DropThrough(lines, "config:");
      var b := if headerSkipped then a else DropThrough(a, "NAME");
      var l := Wide(TakeUntil(b, "errors:"));
      if l == [] then [] else BelowRoot(l, if rootIndent < 0 then l[0].indent else rootIndent)
    }

    /** One line of the listing. */
    method Step(line: TextLine, ghost rest: seq<TextLine>) returns (st: Scan, action: Action)
      ensures action.Stop? ==> Coming([line] + rest) == []
      ensures action.Skip? ==> Coming([line] + rest) == st.Coming(rest)
      ensures action.Take? ==> Coming([line] + rest) == [action.row] + st.Coming(rest)
    {
      ComingStep(this, [line] + rest);
      assert ([line] + rest)[1..] == rest;
      st, action := this, Skip;
      if !inConfig {
        return Scan(Starts(line, "config:"), headerSkipped, rootIndent), Skip;
      }
      if !headerSkipped {
        return Scan(inConfig, Starts(line, "NAME"), rootIndent), Skip;
      }
      if Starts(line, "errors:") {
        return this, Stop;
      }
      if |line.words| < 5 {
        return this, Skip;
      }
      ComingRow(this, [line] + rest);
      var root := if rootIndent < 0 then line.indent else rootIndent;
      st := Scan(inConfig, headerSkipped, root);
      if line.indent != root {
        action := Take(Row(line.indent, line.words[..5]));
      }
    }
  }

  ghost predicate Shallow(par: seq<int>, n: nat) {
    n <= |par| && Backward(par) && forall j | 0 <= j < n :: Depth(par, j) < MAX_DEPTH
  }

  // ---------------------------------------------------------------- the tree on the heap

  class Vdev {
    const info: Info
    var children: seq<Vdev>

    constructor (info: Info)
      ensures this.info == info && children == []
    {
      this.info := info;
      children := [];
    }
  }

  function Roots<V>(f: seq<Tree<V>>): seq<V> {
    seq(|f|, i requires 0 <= i < |f| => f[i].info)
  }

  ghost function Nodes(g: seq<Tree<Vdev>>): set<Vdev> {
    if g == [] then {} else {g[0].info} + Nodes(g[0].children) + Nodes(g[1..])
  }

  lemma {:induction false} NodesOfPreorder(g: seq<Tree<Vdev>>, v: Vdev)
    ensures v in Nodes(g) <==> v in Preorder(g)
  {
    if g != [] {
      NodesOfPreorder(g[0].children, v);
      NodesOfPreorder(g[1..], v);
    }
  }

  /** A forest drawn with the vdevs themselves is the one on the heap: each vdev holds the
      roots of what is drawn below it. */
  ghost predicate Hangs(g: seq<Tree<Vdev>>)
    reads Nodes(g)
    decreases g
  {
    g == [] || (HangsBelow(g[0]) && Hangs(g[1..]))
  }

  ghost predicate HangsBelow(t: Tree<Vdev>)
    reads {t.info} + Nodes(t.children)
    decreases t
  {
    t.info.children == Roots(t.children) && Hangs(t.children)
  }

  /** The information of the vdevs in it. */
  ghost function Labels(g: seq<Tree<Vdev>>): seq<Tree<Info>> {
    if g == [] then [] else [Node(g[0].info.info, Labels(g[0].children))] + Labels(g[1..])
  }

  /** No node is met twice. */
  ghost predicate Distinct(ns: seq<Vdev>) {
    forall i, j | 0 <= i < j < |ns| :: ns[i] != ns[j]
  }

  /** The vdevs `vs` are the roots of the forest `g` on the heap, which looks like `f` and shares
      no node. */
  ghost predicate OnHeap(vs: seq<Vdev>, g: seq<Tree<Vdev>>, f: seq<Tree<Info>>)
    reads Nodes(g)
  {
    vs == Roots(g) && Hangs(g) && Labels(g) == f && Distinct(Preorder(g))
  }

  /** The nodes whose parent is `p`, in order. */
  ghost function Own(par: seq<int>, nodes: seq<Vdev>, p: int): seq<Vdev>
    requires |nodes| <= |par|
  {
    if nodes == [] then [] else
      var n := |nodes| - 1;
      Own(par, nodes[..n], p) + (if par[n] == p then [nodes[n]] else [])
  }

  /** One more node lengthens the list of its parent and no other. */
  lemma OwnGrows(par: seq<int>, nodes: seq<Vdev>, v: Vdev, p: int)
    requires |nodes| < |par|
    ensures Own(par, nodes + [v], p) == Own(par, nodes, p) + (if par[|nodes|] == p then [v] else [])
  {
    assert (nodes + [v])[..|nodes|] == nodes;
  }

  lemma {:induction false} OwnNone(par: seq<int>, nodes: seq<Vdev>, p: nat)
    requires |nodes| <= |par| && |nodes| <= p && Backward(par)
    ensures Own(par, nodes, p) == []
  {
    if nodes != [] { OwnNone(par, nodes[..|nodes| - 1], p); }
  }

  /** Each node holds exactly its children. */
  ghost predicate Linked(rows: seq<Row<Info>>, par: seq<int>, nodes: seq<Vdev>)
    reads nodes
  {
    && |nodes| <= |rows| == |par|
    && Distinct(nodes)
    && (forall i | 0 <= i < |nodes| :: nodes[i].info == rows[i].info && nodes[i].children == Own(par, nodes, i))
  }

  ghost function Deref(nodes: seq<Vdev>, ks: seq<nat>): seq<Vdev>
    requires Within(ks, 0, |nodes|)
  {
    seq(|ks|, i requires 0 <= i < |ks| => nodes[ks[i]])
  }

  lemma {:induction false} OwnIsKids(par: seq<int>, nodes: seq<Vdev>, n: nat, p: int)
    requires n <= |nodes| <= |par|
    ensures Within(Kids(par, 0, n, p), 0, |nodes|)
    ensures Own(par, nodes[..n], p) == Deref(nodes, Kids(par, 0, n, p))
  {
    KidsInRange(par, 0, n, p);
    if n > 0 {
      OwnIsKids(par, nodes, n - 1, p);
      assert nodes[..n][..n - 1] == nodes[..n - 1];
    }
  }

  /** The rows with the nodes made for them in place of their information. */
  ghost function Drawn(rows: seq<Row<Info>>, nodes: seq<Vdev>): seq<Row<Vdev>>
    requires |nodes| == |rows|
  {
    seq(|rows|, j requires 0 <= j < |rows| => Row(rows[j].indent, nodes[j]))
  }

  ghost predicate SameIndents<U, V>(a: seq<Row<U>>, b: seq<Row<V>>) {
    |a| == |b| && forall j | 0 <= j < |a| :: a[j].indent == b[j].indent
  }

  lemma {:induction false} SameEnd<U, V>(a: seq<Row<U>>, b: seq<Row<V>>, lo: nat, at: nat, hi: nat)
    requires SameIndents(a, b) && lo < at <= hi <= |a|
    ensures End(a, lo, at, hi) == End(b, lo, at, hi)
    decreases hi - at
  {
    if at < hi && a[at].indent > a[lo].indent { SameEnd(a, b, lo, at + 1, hi); }
  }

  lemma {:induction false} SameNearest<U, V>(a: seq<Row<U>>, b: seq<Row<V>>, q: int, x: nat)
    requires |b| <= |a| && forall j | 0 <= j < |b| :: a[j].indent == b[j].indent
    requires -1 <= q < |b|
    ensures Nearest(a, q, x) == Nearest(b, q, x)
    decreases q
  {
    if q >= 0 && a[q].indent >= x { SameNearest(a, b, q - 1, x); }
  }

  lemma SameParents<U, V>(a: seq<Row<U>>, b: seq<Row<V>>, par: seq<int>)
    requires |b| <= |a| && forall j | 0 <= j < |b| :: a[j].indent == b[j].indent
    requires AreParents(a, par)
    ensures AreParents(b, par[..|b|])
  {
    forall j | 0 <= j < |b| ensures par[j] == Parent(b, j) {
      assert par[j] == Parent(a, j);
      SameNearest(a, b, j - 1, b[j].indent);
    }
  }

  /** Drawing with nodes and reading off their information is reading the rows. */
  lemma {:induction false} DrawnLabels(d: seq<Row<Vdev>>, rows: seq<Row<Info>>, lo: nat, hi: nat)
    requires SameIndents(d, rows) && forall j | 0 <= j < |rows| :: d[j].info.info == rows[j].info
    requires lo <= hi <= |rows|
    ensures Labels(Segment(d, lo, hi)) == Segment(rows, lo, hi)
    decreases hi - lo
  {
    if lo < hi {
      var m := End(rows, lo, lo + 1, hi);
      SameEnd(d, rows, lo, lo + 1, hi);
      DrawnLabels(d, rows, lo + 1, m);
      DrawnLabels(d, rows, m, hi);
      LabelsJoin(d, rows, lo, m, hi);
    }
  }

  lemma LabelsJoin(d: seq<Row<Vdev>>, rows: seq<Row<Info>>, lo: nat, m: nat, hi: nat)
    requires lo < m <= hi <= |rows| == |d| && m == End(d, lo, lo + 1, hi) == End(rows, lo, lo + 1, hi)
    requires d[lo].info.info == rows[lo].info
    requires Labels(Segment(d, lo + 1, m)) == Segment(rows, lo + 1, m)
    requires Labels(Segment(d, m, hi)) == Segment(rows, m, hi)
    ensures Labels(Segment(d, lo, hi)) == Segment(rows, lo, hi)
  {
    LabelsCons(Node(d[lo].info, Segment(d, lo + 1, m)), Segment(d, m, hi));
  }

  lemma LabelsCons(t: Tree<Vdev>, g: seq<Tree<Vdev>>)
    ensures Labels([t] + g) == [Node(t.info.info, Labels(t.children))] + Labels(g)
  {
    assert ([t] + g)[1..] == g;
  }

  /** The node at `j` holds the children that it should. */
  ghost predicate Holds(par: seq<int>, nodes: seq<Vdev>, j: nat)
    requires j < |nodes| == |par|
    reads nodes
  {
    var ks := Kids(par, 0, |par|, j);
    Within(ks, 0, |nodes|) && nodes[j].children == Deref(nodes, ks)
  }

  lemma LinkedHolds(rows: seq<Row<Info>>, par: seq<int>, nodes: seq<Vdev>, j: nat)
    requires Linked(rows, par, nodes) && j < |nodes| == |rows|
    ensures Holds(par, nodes, j)
  {
    OwnIsKids(par, nodes, |nodes|, j);
    assert nodes[..|nodes|] == nodes;
  }

  /** What is drawn for a block of rows hangs on the heap, its roots being the children. */
  lemma {:induction false} BlockHangs(d: seq<Row<Vdev>>, par: seq<int>, p: int, lo: nat, hi: nat)
    requires Block(d, p, lo, hi) && AreParents(d, par)
    requires forall j | 0 <= j < |d| :: Holds(par, Infos(d), j)
    ensures Within(Kids(par, lo, hi, p), 0, |d|)
    ensures Roots(Segment(d, lo, hi)) == Deref(Infos(d), Kids(par, lo, hi, p))
    ensures Hangs(Segment(d, lo, hi))
    decreases hi - lo
  {
    if lo < hi {
      var m := BlockOpens(d, par, p, lo, hi);
      BlockHangs(d, par, lo, lo + 1, m);
      BlockHangs(d, par, p, m, hi);
      JoinBlock(d, par, p, lo, m, hi);
    }
  }

  lemma JoinBlock(d: seq<Row<Vdev>>, par: seq<int>, p: int, lo: nat, m: nat, hi: nat)
    requires lo < m <= hi <= |d| == |par| && m == End(d, lo, lo + 1, hi)
    requires Holds(par, Infos(d), lo) && Kids(par, 0, |par|, lo) == Kids(par, lo + 1, m, lo)
    requires Kids(par, lo, hi, p) == [lo] + Kids(par, m, hi, p) && Within(Kids(par, m, hi, p), 0, |d|)
    requires Roots(Segment(d, lo + 1, m)) == d[lo].info.children && Hangs(Segment(d, lo + 1, m))
    requires Roots(Segment(d, m, hi)) == Deref(Infos(d), Kids(par, m, hi, p)) && Hangs(Segment(d, m, hi))
    ensures Within(Kids(par, lo, hi, p), 0, |d|)
    ensures Roots(Segment(d, lo, hi)) == Deref(Infos(d), Kids(par, lo, hi, p))
    ensures Hangs(Segment(d, lo, hi))
  {
    var t, behind := Node(d[lo].info, Segment(d, lo + 1, m)), Segment(d, m, hi);
    assert Segment(d, lo, hi) == [t] + behind;
    JoinHangs(t, behind);
    DerefCons(Infos(d), lo, Kids(par, m, hi, p));
  }

  lemma DerefCons(nodes: seq<Vdev>, k: nat, ks: seq<nat>)
    requires k < |nodes| && Within(ks, 0, |nodes|)
    ensures Within([k] + ks, 0, |nodes|) && Deref(nodes, [k] + ks) == [nodes[k]] + Deref(nodes, ks)
  {
  }

  lemma JoinHangs(t: Tree<Vdev>, g: seq<Tree<Vdev>>)
    requires HangsBelow(t) && Hangs(g)
    ensures Hangs([t] + g) && Roots([t] + g) == [t.info] + Roots(g)
  {
    assert ([t] + g)[1..] == g;
  }

  /** A chain of rows from a top-level row down, each the parent of the next. */
  ghost predicate Chain(par: seq<int>, spine: seq<nat>) {
    spine == [] ||
      var up := spine[..|spine| - 1];
      Tip(spine) < |par| && par[Tip(spine)] == Tip(up) && Chain(par, up)
  }

  /** The last row of a chain. */
  function Tip(spine: seq<nat>): int {
    if spine == [] then -1 else spine[|spine| - 1]
  }

  lemma {:induction false} ChainDepth(par: seq<int>, spine: seq<nat>)
    requires Backward(par) && Chain(par, spine) && spine != []
    ensures |spine| == Depth(par, Tip(spine)) + 1
  {
    if |spine| > 1 {
      ChainDepth(par, spine[..|spine| - 1]);
    }
  }

  /** The stacked indents strictly increase. */
  lemma {:induction false} ChainIncreases<V>(rows: seq<Row<V>>, par: seq<int>, spine: seq<nat>, k: nat)
    requires AreParents(rows, par) && Chain(par, spine) && k < |spine| - 1
    ensures spine[k] < |rows| && Tip(spine) < |rows| && rows[spine[k]].indent < rows[Tip(spine)].indent
  {
    var up := spine[..|spine| - 1];
    assert Parent(rows, Tip(spine)) == Tip(up);
    if k < |up| - 1 { ChainIncreases(rows, par, up, k); }
  }

  /** Everything behind the parent of a closed row is closed too. */
  lemma ClosedBy<V>(rows: seq<Row<V>>, par: seq<int>, c: nat, n: nat, indent: nat)
    requires AreParents(rows, par) && c < n < |rows| && rows[c].indent >= indent
    requires forall q | c < q < n :: rows[q].indent >= indent
    ensures forall q | par[c] < q < n :: rows[q].indent >= indent
  {
    assert par[c] == Parent(rows, c);
    NearestSkips(rows, c - 1, rows[c].indent);
  }

  /** The row that survives the popping is the parent. */
  lemma ParentFound<V>(rows: seq<Row<V>>, par: seq<int>, t: int, n: nat)
    requires AreParents(rows, par) && -1 <= t < n < |rows|
    requires t >= 0 ==> rows[t].indent < rows[n].indent
    requires forall q | t < q < n :: rows[q].indent >= rows[n].indent
    ensures par[n] == t
  {
    NearestIsUnique(rows, n - 1, rows[n].indent, t);
    assert par[n] == Parent(rows, n);
  }

  /** The stack has one slot per ancestor. */
  lemma SlotPerAncestor(par: seq<int>, spine: seq<nat>, n: nat)
    requires Backward(par) && Chain(par, spine) && n < |par| && par[n] == Tip(spine)
    ensures |spine| == Depth(par, n)
  {
    if spine != [] { ChainDepth(par, spine); }
  }

  // ---------------------------------------------------------------- the code

  class TreeBuilder {
    const stack: array<Vdev?>
    const stackIndent: array<int>
    var stackTop: int
    var topVdevs: seq<Vdev>
    /** the rows to be pushed, their parents, and the nodes made for them so far */
    ghost const rows: seq<Row<Info>>
    ghost const par: seq<int>
    ghost var nodes: seq<Vdev>
    /** the rows of the open vdevs */
    ghost var spine: seq<nat>

    /** The stack is a chain of open vdevs among `ns`. */
    ghost predicate StackOf(ns: seq<Vdev>)
      reads this`stackTop, this`spine, stack, stackIndent
    {
      AreParents(rows, par) && Chain(par, spine) && Slots(ns)
    }

    /** What is in the slots of the stack. */
    ghost predicate Slots(ns: seq<Vdev>)
      reads this`stackTop, this`spine, stack, stackIndent
    {
      && stackTop + 1 == |spine| <= stack.Length
      && |ns| <= |rows| && stackIndent.Length == stack.Length
      && (forall k | 0 <= k <= stackTop ::
            spine[k] < |ns| && stack[k] == ns[spine[k]] && stackIndent[k] == rows[spine[k]].indent)
    }

    lemma StackSurvives(ns: seq<Vdev>, v: Vdev)
      requires StackOf(ns) && |ns| < |rows|
      ensures StackOf(ns + [v])
    {
    }

    ghost predicate OnStack()
      reads this, stack, stackIndent
    {
      StackOf(nodes)
    }

    ghost predicate Valid()
      reads this, stack, stackIndent, nodes
    {
      && stack.Length == stackIndent.Length == MAX_DEPTH
      && LinkedSoFar()
      && OnStack() && Tip(spine) == |nodes| - 1
    }

    constructor (ghost rows: seq<Row<Info>>)
      ensures Valid() && fresh(stack) && fresh(stackIndent) && nodes == []
      ensures this.rows == rows && AreParents(rows, par)
    {
      stack := new Vdev?[MAX_DEPTH](_ => null);
      stackIndent := new int[MAX_DEPTH](_ => 0);
      stackTop := -1;
      topVdevs := [];
      this.rows, par := rows, Parents(rows);
      ParentsAreUnique(rows, Parents(rows));
      nodes, spine := [], [];
    }

    /** Pop the vdevs that the next row closes; what remains on top is its parent. */
    method Pop(indent: nat)
      requires Valid() && |nodes| < |rows| && rows[|nodes|].indent == indent
      modifies this`stackTop, this`spine
      ensures OnStack() && Tip(spine) == par[|nodes|] && |spine| == Depth(par, |nodes|)
    {
      ghost var n := |nodes|;
      while stackTop >= 0 && stackIndent[stackTop] >= indent
        invariant OnStack() && Tip(spine) < n
        invariant forall q | Tip(spine) < q < n :: rows[q].indent >= indent
        decreases stackTop
      {
        ClosedBy(rows, par, spine[stackTop], n, indent);
        Drop();
      }
      ParentFound(rows, par, Tip(spine), n);
      SlotPerAncestor(par, spine, n);
    }

    /** Take the top off the stack; below it is its parent. */
    method Drop()
      requires OnStack() && stackTop >= 0
      modifies this`stackTop, this`spine
      ensures OnStack() && stackTop == old(stackTop) - 1
      ensures Tip(spine) == par[Tip(old(spine))]
    {
      stackTop := stackTop - 1;
      spine := spine[..|spine| - 1];
    }

    /** Hang a new vdev below `parent`, or make it a top-level one. */
    method Link(vdev: Vdev, parent: Vdev?)
      requires |nodes| < |rows| && Linked(rows, par, nodes) && topVdevs == Own(par, nodes, -1) && Backward(par)
      requires par[|nodes|] >= 0 ==> parent == nodes[par[|nodes|]]
      requires par[|nodes|] < 0 ==> parent == null
      requires vdev !in nodes && vdev.info == rows[|nodes|].info && vdev.children == []
      modifies this`topVdevs, this`nodes, nodes
      ensures nodes == old(nodes) + [vdev]
      ensures Linked(rows, par, nodes) && topVdevs == Own(par, nodes, -1)
    {
      ghost var n := |nodes|;
      forall i | -1 <= i < n
        ensures Own(par, nodes + [vdev], i) == Own(par, nodes, i) + (if par[n] == i then [vdev] else [])
      {
        OwnGrows(par, nodes, vdev, i);
      }
      assert Own(par, nodes + [vdev], n) == [] by {
        OwnNone(par, nodes, n);
        OwnGrows(par, nodes, vdev, n);
      }
      if parent == null {
        topVdevs := topVdevs + [vdev];
      } else {
        parent.children := parent.children + [vdev];
      }
      nodes := nodes + [vdev];
    }

    /** Push a linked vdev onto the stack. */
    method Open(vdev: Vdev, indent: nat)
      requires nodes != [] && vdev == nodes[|nodes| - 1] && |nodes| <= |rows| && rows[|nodes| - 1].indent == indent
      requires OnStack() && stackTop + 1 < stack.Length && Tip(spine) == par[|nodes| - 1]
      modifies this`stackTop, this`spine, stack, stackIndent
      ensures OnStack() && Tip(spine) == |nodes| - 1
    {
      ChainDown(par, spine, |nodes| - 1);
      FillSlot(vdev, indent);
    }

    method FillSlot(vdev: Vdev, indent: nat)
      requires nodes != [] && vdev == nodes[|nodes| - 1] && |nodes| <= |rows| && rows[|nodes| - 1].indent == indent
      requires Slots(nodes) && stackTop + 1 < stack.Length
      modifies this`stackTop, this`spine, stack, stackIndent
      ensures Slots(nodes) && spine == old(spine) + [|nodes| - 1]
    {
      stackTop := stackTop + 1;
      stack[stackTop] := vdev;
      stackIndent[stackTop] := indent;
      spine := spine + [|nodes| - 1];
    }

    /** The vdev on top of the stack, null if there is none. */
    method Top() returns (v: Vdev?)
      requires OnStack()
      ensures spine == [] ==> v == null
      ensures spine != [] ==> 0 <= Tip(spine) < |nodes| && v == nodes[Tip(spine)]
    {
      v := if stackTop < 0 then null else stack[stackTop];
    }

    /** Everything below the stack: the nodes, their links and the top-level list. */
    ghost predicate LinkedSoFar()
      reads this`nodes, this`topVdevs, nodes
    {
      AreParents(rows, par) && Linked(rows, par, nodes) && topVdevs == Own(par, nodes, -1)
    }

    /** Link a vdev below the top of the stack and push it. */
    method Place(vdev: Vdev, indent: nat)
      requires LinkedSoFar() && |nodes| < |rows| && rows[|nodes|] == Row(indent, vdev.info)
      requires OnStack() && stackTop + 1 < stack.Length && Tip(spine) == par[|nodes|]
      requires vdev !in nodes && vdev.children == []
      modifies this`stackTop, this`spine, this`topVdevs, this`nodes, stack, stackIndent, nodes
      ensures LinkedSoFar() && OnStack() && Tip(spine) == |nodes| - 1
      ensures nodes == old(nodes) + [vdev]
    {
      LinkBelowTop(vdev);
      Open(vdev, indent);
    }

    method LinkBelowTop(vdev: Vdev)
      requires LinkedSoFar() && |nodes| < |rows| && rows[|nodes|].info == vdev.info
      requires OnStack() && Tip(spine) == par[|nodes|]
      requires vdev !in nodes && vdev.children == []
      modifies this`topVdevs, this`nodes, nodes
      ensures LinkedSoFar() && OnStack() && nodes == old(nodes) + [vdev]
    {
      var parent := Top();
      StackSurvives(nodes, vdev);
      Link(vdev, parent);
    }

    /** A vdev that was made but not linked. */
    ghost predicate Unlinked(v: Vdev)
      reads this`nodes, v
    {
      v !in nodes && v.children == []
    }

    /** One accepted row: close what it closes, check the depth, place it; null unless the new
        vdev is refused. */
    method Push(indent: nat, info: Info) returns (refused: Vdev?)
      requires Valid() && |nodes| < |rows| && rows[|nodes|] == Row(indent, info)
      modifies this, stack, stackIndent, nodes
      ensures refused == null <==> Depth(par, |old(nodes)|) < MAX_DEPTH
      ensures refused == null ==> Valid() && |nodes| == |old(nodes)| + 1
      ensures refused == null ==> forall v | v in nodes :: v in old(nodes) || fresh(v)
      ensures refused != null ==> LinkedSoFar() && nodes == old(nodes)
      ensures refused != null ==> fresh(refused) && Unlinked(refused) && refused.info == info
    {
      var vdev := new Vdev(info);
      Pop(indent);
      if stackTop + 1 >= MAX_DEPTH {
        return vdev;
      }
      Place(vdev, indent);
      return null;
    }

    /** Valid, and no row so far was too deep. */
    ghost predicate Ready(n: nat)
      reads this, stack, stackIndent, nodes
    {
      Valid() && |nodes| == n && Shallow(par, n)
    }

    /** The next row is the first one with too many ancestors. */
    ghost predicate TooDeepNext()
      reads this`nodes
    {
      |nodes| < |rows| == |par| && Shallow(par, |nodes|) && Depth(par, |nodes|) >= MAX_DEPTH
    }

    method PushNext(row: Row<Info>) returns (refused: Vdev?)
      requires Ready(|nodes|) && |nodes| < |rows| && rows[|nodes|] == row
      modifies this, stack, stackIndent, nodes
      ensures refused == null ==> Ready(|old(nodes)| + 1)
      ensures refused == null ==> forall v | v in nodes :: v in old(nodes) || fresh(v)
      ensures refused != null ==> TooDeepNext() && LinkedSoFar() && nodes == old(nodes)
      ensures refused != null ==> fresh(refused) && Unlinked(refused) && refused.info == row.info
    {
      refused := Push(row.indent, row.info);
    }

    method PushAll(all: seq<Row<Info>>) returns (refused: Vdev?)
      requires Ready(0) && all == rows
      modifies this, stack, stackIndent
      ensures refused == null ==> Valid() && |nodes| == |rows| && Shallow(par, |rows|)
      ensures refused != null ==> TooDeepNext() && fresh(refused) && Unlinked(refused)
      ensures refused != null ==> refused.info == rows[|nodes|].info
      ensures LinkedSoFar() && fresh(nodes)
    {
      for i := 0 to |all|
        invariant Ready(i)
        invariant forall k | 0 <= k < |nodes| :: fresh(nodes[k])
      {
        refused := PushNext(all[i]);
        if refused != null { return; }
        assert forall k | 0 <= k < |nodes| :: nodes[k] in nodes;
      }
      refused := null;
    }
  }

  lemma ChainDown(par: seq<int>, spine: seq<nat>, j: nat)
    requires Chain(par, spine) && j < |par| && par[j] == Tip(spine)
    ensures Chain(par, spine + [j]) && Tip(spine + [j]) == j
  {
    assert (spine + [j])[..|spine|] == spine;
  }

  // ---------------------------------------------------------------- freeing a tree

  /** bd_zfs_vdev_info_free: everything below the vdev, then the vdev itself. */
  method Free(v: Vdev, ghost t: Tree<Vdev>) returns (freed: seq<Vdev>)
    requires v == t.info && HangsBelow(t)
    ensures multiset(freed) == multiset([t.info] + Preorder(t.children))
    ensures t.children == [] ==> multiset(freed) == multiset([v])
    decreases t, 2
  {
    freed := FreeAll(v.children, t.children);
    freed := freed + [v];
    assert t.children == [] ==> [t.info] + Preorder(t.children) == [v];
  }

  /** One vdev after the other. */
  method FreeAll(vs: seq<Vdev>, ghost g: seq<Tree<Vdev>>) returns (freed: seq<Vdev>)
    requires vs == Roots(g) && Hangs(g)
    ensures multiset(freed) == multiset(Preorder(g))
    decreases g, 1
  {
    freed := [];
    assert g[0..] == g;
    assert allocated(Nodes(g));
    var i := 0;
    while i < |vs|
      invariant 0 <= i <= |vs| && Hangs(g)
      invariant multiset(freed) + multiset(Preorder(g[i..])) == multiset(Preorder(g))
    {
      freed := FreeNext(vs[i], g, i, freed);
      i := i + 1;
    }
  }

  method FreeNext(v: Vdev, ghost g: seq<Tree<Vdev>>, ghost i: nat, freed: seq<Vdev>) returns (freed': seq<Vdev>)
    requires i < |g| && v == g[i].info && Hangs(g)
    ensures var next := i + 1;
      multiset(freed') + multiset(Preorder(g[next..])) == multiset(freed) + multiset(Preorder(g[i..]))
    decreases g, 0
  {
    HangsAt(g, i);
    var more := Free(v, g[i]);
    FreedMore(g, i, freed, more);
    freed' := freed + more;
  }

  lemma FreedMore(g: seq<Tree<Vdev>>, i: nat, freed: seq<Vdev>, more: seq<Vdev>)
    requires i < |g| && multiset(more) == multiset([g[i].info] + Preorder(g[i].children))
    ensures var next := i + 1;
      multiset(freed + more) + multiset(Preorder(g[next..])) == multiset(freed) + multiset(Preorder(g[i..]))
  {
    PreorderFrom(g, i);
    var next := i + 1;
    Moved(freed, more, [g[i].info] + Preorder(g[i].children), Preorder(g[next..]), Preorder(g[i..]));
  }

  lemma Moved<T>(a: seq<T>, b: seq<T>, b': seq<T>, c: seq<T>, d: seq<T>)
    requires multiset(b) == multiset(b') && d == b' + c
    ensures multiset(a + b) + multiset(c) == multiset(a) + multiset(d)
  {
  }

  lemma {:induction false} HangsAt(g: seq<Tree<Vdev>>, i: nat)
    requires Hangs(g) && i < |g|
    ensures HangsBelow(g[i])
  {
    if i > 0 { HangsAt(g[1..], i - 1); }
  }

  lemma PreorderFrom<V>(g: seq<Tree<V>>, i: nat)
    requires i < |g|
    ensures var next := i + 1; Preorder(g[i..]) == [g[i].info] + Preorder(g[i].children) + Preorder(g[next..])
  {
    assert g[i..][1..] == g[i + 1..] && g[i..][0] == g[i];
  }

  /** So distinct nodes are all freed, and none of them twice. */
  lemma FreedOnce(freed: seq<Vdev>, ns: seq<Vdev>)
    requires Distinct(ns) && multiset(freed) == multiset(ns)
    ensures |freed| == |ns| && Distinct(freed) && forall v :: v in freed <==> v in ns
  {
    assert |multiset(freed)| == |freed| && |multiset(ns)| == |ns|;
    forall i, j | 0 <= i < j < |freed| ensures freed[i] != freed[j] {
      if freed[i] == freed[j] {
        CountTwice(freed, i, j);
        CountOnce(ns, freed[i]);
      }
    }
    assert forall v :: v in freed <==> v in multiset(freed);
    assert forall v :: v in ns <==> v in multiset(ns);
  }

  lemma CountTwice(s: seq<Vdev>, i: nat, j: nat)
    requires i < j < |s| && s[i] == s[j]
    ensures multiset(s)[s[i]] >= 2
  {
    assert s == s[..j] + s[j..];
    assert s[i] in s[..j] && s[j] in s[j..];
  }

  lemma {:induction false} CountOnce(s: seq<Vdev>, v: Vdev)
    requires Distinct(s)
    ensures multiset(s)[v] <= 1
  {
    if s != [] {
      var n := |s| - 1;
      CountOnce(s[..n], v);
      assert s == s[..n] + [s[n]];
      assert s[n] !in s[..n];
    }
  }

  // ---------------------------------------------------------------- copying a tree

  /** bd_zfs_vdev_info_copy: a tree of the same shape made of new nodes only. */
  method Copy(v: Vdev, ghost t: Tree<Vdev>) returns (c: Vdev, ghost u: Tree<Vdev>)
    requires v == t.info && HangsBelow(t)
    ensures c == u.info && HangsBelow(u) && c.info == v.info && Labels(u.children) == Labels(t.children)
    ensures fresh(c) && c !in Nodes(u.children) && Distinct(Preorder(u.children))
    ensures fresh(Nodes(u.children))
    decreases t, 0
  {
    assert allocated(Nodes(t.children));
    c := new Vdev(v.info);
    ghost var h;
    c.children, h := CopyAll(v.children, t.children);
    u := Node(c, h);
  }

  method CopyAll(vs: seq<Vdev>, ghost g: seq<Tree<Vdev>>) returns (kids: seq<Vdev>, ghost h: seq<Tree<Vdev>>)
    requires vs == Roots(g) && Hangs(g)
    ensures OnHeap(kids, h, Labels(g)) && fresh(Nodes(h))
    decreases g, 0
  {
    kids, h := [], [];
    var i := 0;
    while i < |vs|
      invariant 0 <= i <= |vs| && Hangs(g)
      invariant OnHeap(kids, h, Labels(g[..i])) && forall w | w in Nodes(h) :: fresh(w)
    {
      var next := i + 1;
      assert g[..next] == g[..i] + [g[i]];
      HangsAt(g, i);
      assert allocated(Nodes(g));
      kids, h := CopyNext(vs[i], g[i], kids, g[..i], h);
      i := next;
    }
    assert g[..i] == g;
  }

  /** One more copy behind those in `kids`. */
  method CopyNext(v: Vdev, ghost t: Tree<Vdev>, kids: seq<Vdev>, ghost g: seq<Tree<Vdev>>, ghost h: seq<Tree<Vdev>>)
    returns (kids': seq<Vdev>, ghost h': seq<Tree<Vdev>>)
    requires v == t.info && HangsBelow(t) && OnHeap(kids, h, Labels(g))
    ensures OnHeap(kids', h', Labels(g + [t]))
    ensures forall w | w in Nodes(h') :: w in Nodes(h) || fresh(w)
    decreases t, 1
  {
    assert allocated(Nodes(h));
    ghost var u;
    var c;
    c, u := Copy(v, t);
    HangsSnoc(h, u);
    NodesSnoc(h, u);
    LabelsSnoc(h, u);
    LabelsSnoc(g, t);
    DistinctSnoc(h, u);
    kids', h' := kids + [c], h + [u];
  }

  lemma DistinctSnoc(g: seq<Tree<Vdev>>, t: Tree<Vdev>)
    requires Distinct(Preorder(g)) && Distinct(Preorder(t.children)) && t.info !in Nodes(t.children)
    requires Nodes(g) !! {t.info} + Nodes(t.children)
    ensures Distinct(Preorder(g) + ([t.info] + Preorder(t.children)))
  {
    forall v | v in Preorder(g) ensures v in Nodes(g) { NodesOfPreorder(g, v); }
    forall v | v in Preorder(t.children) ensures v in Nodes(t.children) { NodesOfPreorder(t.children, v); }
    var below := Preorder(t.children);
    DistinctConcat([t.info], below);
    forall v | v in Preorder(g) ensures v !in [t.info] + below {
      assert v in Nodes(g);
    }
    DistinctConcat(Preorder(g), [t.info] + below);
  }

  lemma DistinctConcat(a: seq<Vdev>, b: seq<Vdev>)
    requires Distinct(a) && Distinct(b) && forall v | v in a :: v !in b
    ensures Distinct(a + b)
  {
    forall i, j | 0 <= i < j < |a + b| ensures (a + b)[i] != (a + b)[j] {
      if i < |a| <= j {
        assert a[i] in a && b[j - |a|] in b;
      }
    }
  }

  lemma {:induction false} HangsSnoc(g: seq<Tree<Vdev>>, t: Tree<Vdev>)
    requires Hangs(g) && HangsBelow(t)
    ensures Hangs(g + [t]) && Roots(g + [t]) == Roots(g) + [t.info]
  {
    if g == [] {
      JoinHangs(t, []);
      assert g + [t] == [t] + [];
    } else {
      HangsSnoc(g[1..], t);
      JoinHangs(g[0], g[1..] + [t]);
      assert g + [t] == [g[0]] + (g[1..] + [t]);
    }
  }

  lemma {:induction false} NodesSnoc(g: seq<Tree<Vdev>>, t: Tree<Vdev>)
    ensures Preorder(g + [t]) == Preorder(g) + ([t.info] + Preorder(t.children))
    ensures Nodes(g + [t]) == Nodes(g) + ({t.info} + Nodes(t.children))
  {
    if g == [] {
      assert g + [t] == [t] + [];
    } else {
      NodesSnoc(g[1..], t);
      assert g + [t] == [g[0]] + (g[1..] + [t]);
      Associate([g[0].info] + Preorder(g[0].children), Preorder(g[1..]), [t.info] + Preorder(t.children));
    }
  }

  lemma {:induction false} LabelsSnoc(g: seq<Tree<Vdev>>, t: Tree<Vdev>)
    ensures Labels(g + [t]) == Labels(g) + [Node(t.info.info, Labels(t.children))]
  {
    if g == [] {
      assert g + [t] == [t];
    } else {
      LabelsSnoc(g[1..], t);
      assert (g + [t])[1..] == g[1..] + [t];
    }
  }

  /** A line outside the table of vdevs, or too narrow for it. */
  lemma ComingStep(st: Scan, lines: seq<TextLine>)
    requires lines != []
    ensures !st.inConfig ==> st.Coming(lines) == st.(inConfig := Starts(lines[0], "config:")).Coming(lines[1..])
    ensures st.inConfig && !st.headerSkipped ==>
      st.Coming(lines) == st.(headerSkipped := Starts(lines[0], "NAME")).Coming(lines[1..])
    ensures st.inConfig && st.headerSkipped && Starts(lines[0], "errors:") ==> st.Coming(lines) == []
    ensures st.inConfig && st.headerSkipped && !Starts(lines[0], "errors:") && |lines[0].words| < 5 ==>
      st.Coming(lines) == st.Coming(lines[1..])
  {
    if !Starts(lines[0], "errors:") {
      assert TakeUntil(lines, "errors:")[1..] == TakeUntil(lines[1..], "errors:");
      assert |lines[0].words| < 5 ==> Wide(TakeUntil(lines, "errors:")) == Wide(TakeUntil(lines[1..], "errors:"));
    }
  }

  /** A listed line: the pool itself is skipped, everything else is a row. */
  lemma ComingRow(st: Scan, lines: seq<TextLine>)
    requires st.inConfig && st.headerSkipped
    requires lines != [] && !Starts(lines[0], "errors:") && |lines[0].words| >= 5
    ensures var root := if st.rootIndent < 0 then lines[0].indent else st.rootIndent;
      st.Coming(lines)
        == (if lines[0].indent == root then [] else [Row(lines[0].indent, lines[0].words[..5])])
           + st.(rootIndent := root).Coming(lines[1..])
  {
    var l := Wide(TakeUntil(lines, "errors:"));
    assert TakeUntil(lines, "errors:")[1..] == TakeUntil(lines[1..], "errors:");
    assert l == [lines[0]] + Wide(TakeUntil(lines[1..], "errors:"));
    assert l[1..] == Wide(TakeUntil(lines[1..], "errors:"));
  }

  datatype Parsed = Vdevs(tops: seq<Vdev>) | TooDeep | NoVdevs

  /** The scanning half of the parsing loop. */
  method Accept(lines: seq<TextLine>) returns (rows: seq<Row<Info>>)
    ensures rows == Accepted(lines)
  {
    var st, stop, i := Scan(false, false, -1), false, 0;
    rows := [];
    ghost var all := Accepted(lines);
    assert lines[0..] == lines && rows + st.Coming(lines) == all;
    while i < |lines| && !stop
      invariant 0 <= i <= |lines|
      invariant if stop then rows == all else rows + st.Coming(lines[i..]) == all
    {
      assert lines[i..] == [lines[i]] + lines[i + 1..];
      st, stop, rows := AcceptLine(st, lines[i], lines[i + 1..], rows, all);
      i := i + 1;
    }
    if !stop {
      assert lines[i..] == [];
      assert st.Coming([]) == [];
    }
  }

  /** One round of it. */
  method AcceptLine(st: Scan, line: TextLine, ghost rest: seq<TextLine>, rows: seq<Row<Info>>, ghost all: seq<Row<Info>>)
    returns (st': Scan, stop: bool, rows': seq<Row<Info>>)
    requires rows + st.Coming([line] + rest) == all
    ensures stop ==> rows' == all
    ensures !stop ==> rows' + st'.Coming(rest) == all
  {
    var action;
    st', action := st.Step(line, rest);
    stop, rows' := action.Stop?, rows;
    if action.Take? {
      rows' := rows + [action.row];
      Associate(rows, [action.row], st'.Coming(rest));
    }
  }

  lemma {:induction false} OwnOfPrefix(par: seq<int>, n: nat, nodes: seq<Vdev>, p: int)
    requires |nodes| <= n <= |par|
    ensures Own(par[..n], nodes, p) == Own(par, nodes, p)
  {
    if nodes != [] { OwnOfPrefix(par, n, nodes[..|nodes| - 1], p); }
  }

  /** The nodes made so far are the forest of the rows so far. */
  lemma PartDrawn(rows: seq<Row<Info>>, par: seq<int>, nodes: seq<Vdev>) returns (g: seq<Tree<Vdev>>)
    requires AreParents(rows, par) && Linked(rows, par, nodes)
    ensures OnHeap(Own(par, nodes, -1), g, Forest(rows[..|nodes|])) && Preorder(g) == nodes
    ensures forall v | v in Nodes(g) :: v in nodes
  {
    var n := |nodes|;
    SameParents(rows, rows[..n], par);
    forall p ensures Own(par[..n], nodes, p) == Own(par, nodes, p) {
      OwnOfPrefix(par, n, nodes, p);
    }
    g := AllDrawn(rows[..n], par[..n], nodes);
    forall v | v in Nodes(g) ensures v in nodes { NodesOfPreorder(g, v); }
  }

  /** The depth error: the refused vdev is freed, and what was built. */
  method FreeBuilt(v: Vdev, tops: seq<Vdev>, ghost g: seq<Tree<Vdev>>) returns (freed: seq<Vdev>, ghost all: seq<Tree<Vdev>>)
    requires v.children == [] && v !in Nodes(g) && tops == Roots(g) && Hangs(g) && Distinct(Preorder(g))
    ensures Preorder(all) == Preorder(g) + [v] && Nodes(all) == Nodes(g) + {v} && Distinct(Preorder(all))
    ensures Labels(all) == Labels(g) + [Node(v.info, [])]
    ensures |freed| == |Preorder(g)| + 1 && Distinct(freed) && multiset(freed) == multiset(Preorder(g) + [v])
  {
    assert allocated(Nodes(g));
    freed := Free(v, Node(v, []));
    var more := FreeAll(tops, g);
    all := WithRefused(g, v);
    BothFreed(freed, more, v, Preorder(g));
    freed := freed + more;
  }

  lemma WithRefused(g: seq<Tree<Vdev>>, v: Vdev) returns (all: seq<Tree<Vdev>>)
    requires v !in Nodes(g) && Distinct(Preorder(g))
    ensures Preorder(all) == Preorder(g) + [v] && Nodes(all) == Nodes(g) + {v} && Distinct(Preorder(all))
    ensures Labels(all) == Labels(g) + [Node(v.info, [])]
  {
    var t := Node(v, []);
    all := g + [t];
    LabelsSnoc(g, t);
    NodesSnoc(g, t);
    DistinctSnoc(g, t);
    assert [v] + [] == [v];
  }

  lemma BothFreed(a: seq<Vdev>, b: seq<Vdev>, v: Vdev, p: seq<Vdev>)
    requires multiset(a) == multiset([v]) && multiset(b) == multiset(p) && Distinct(p + [v])
    ensures |a + b| == |p| + 1 && Distinct(a + b) && multiset(a + b) == multiset(p + [v])
  {
    assert multiset(a + b) == multiset(a) + multiset(b);
    FreedOnce(a + b, p + [v]);
  }

  /** The first `n` rows are not too deep, one more is. */
  ghost predicate StopsAt(rows: seq<Row<Info>>, n: nat) {
    n < |rows| && Height(Forest(rows[..n])) <= MAX_DEPTH < Height(Forest(rows[..n + 1]))
  }

  lemma {:induction false} DepthOfPrefix(par: seq<int>, n: nat, j: nat)
    requires Backward(par) && j < n <= |par|
    ensures Backward(par[..n]) && Depth(par[..n], j) == Depth(par, j)
    decreases j
  {
    if par[j] >= 0 { DepthOfPrefix(par, n, par[j]); }
  }

  lemma ShallowPrefix(rows: seq<Row<Info>>, par: seq<int>, n: nat)
    requires AreParents(rows, par) && n <= |rows|
    ensures Shallow(par, n) <==> Height(Forest(rows[..n])) <= MAX_DEPTH
  {
    SameParents(rows, rows[..n], par);
    forall j | 0 <= j < n ensures Depth(par[..n], j) == Depth(par, j) { DepthOfPrefix(par, n, j); }
    ShallowIsLow(rows[..n], par[..n]);
  }

  lemma FirstTooDeep(rows: seq<Row<Info>>, par: seq<int>, n: nat)
    requires AreParents(rows, par) && n < |rows| && Shallow(par, n) && Depth(par, n) >= MAX_DEPTH
    ensures StopsAt(rows, n) && Height(Forest(rows)) > MAX_DEPTH
  {
    ShallowPrefix(rows, par, n);
    ShallowPrefix(rows, par, n + 1);
    ShallowIsLow(rows, par);
  }

  /** What the parsing loop leaves on the heap: all vdevs made, `g`, are the result or freed. */
  ghost predicate Settled(rows: seq<Row<Info>>, r: Parsed, g: seq<Tree<Vdev>>, freed: seq<Vdev>)
    reads Nodes(g)
  {
    match r
    case Vdevs(tops) => OnHeap(tops, g, Forest(rows)) && freed == []
    case NoVdevs => g == [] && freed == []
    case TooDeep =>
      && Distinct(freed) && multiset(freed) == multiset(Preorder(g))
      && |freed| > 0 && StopsAt(rows, |freed| - 1)
      && Labels(g) == Forest(rows[..|freed| - 1]) + [Node(rows[|freed| - 1].info, [])]
  }

  /** The tree-building half of the parsing loop. */
  method Build(rows: seq<Row<Info>>) returns (r: Parsed, ghost g: seq<Tree<Vdev>>, freed: seq<Vdev>)
    ensures r.TooDeep? <==> Height(Forest(rows)) > MAX_DEPTH
    ensures r.NoVdevs? <==> rows == []
    ensures fresh(Nodes(g)) && Settled(rows, r, g, freed)
  {
    var builder := new TreeBuilder(rows);
    var refused := builder.PushAll(rows);
    if refused == null {
      ShallowIsLow(rows, builder.par);
      r, g := Result(builder);
      freed := [];
    } else {
      FirstTooDeep(rows, builder.par, |builder.nodes|);
      freed, g := Undo(builder, refused);
      r := TooDeep;
    }
  }

  /** The top-level vdevs, if there are any. */
  method Result(builder: TreeBuilder) returns (r: Parsed, ghost g: seq<Tree<Vdev>>)
    requires builder.LinkedSoFar() && |builder.nodes| == |builder.rows|
    ensures !r.TooDeep? && (r.NoVdevs? <==> builder.rows == []) && Settled(builder.rows, r, g, [])
    ensures forall v | v in Nodes(g) :: v in builder.nodes
  {
    g := PartDrawn(builder.rows, builder.par, builder.nodes);
    assert builder.rows[..|builder.rows|] == builder.rows;
    r := if builder.topVdevs == [] then NoVdevs else Vdevs(builder.topVdevs);
  }

  /** The depth error, at the row after those that are built. */
  method Undo(builder: TreeBuilder, refused: Vdev) returns (freed: seq<Vdev>, ghost g: seq<Tree<Vdev>>)
    requires builder.LinkedSoFar() && builder.Unlinked(refused) && StopsAt(builder.rows, |builder.nodes|)
    requires refused.info == builder.rows[|builder.nodes|].info
    ensures Settled(builder.rows, TooDeep, g, freed)
    ensures Distinct(freed) && multiset(freed) == multiset(builder.nodes + [refused])
    ensures forall v | v in Nodes(g) :: v in builder.nodes || v == refused
  {
    g := PartDrawn(builder.rows, builder.par, builder.nodes);
    freed, g := FreeBuilt(refused, builder.topVdevs, g);
  }

  lemma ShallowIsLow(rows: seq<Row<Info>>, par: seq<int>)
    requires AreParents(rows, par)
    ensures Shallow(par, |rows|) <==> Height(Forest(rows)) <= MAX_DEPTH
  {
    ParentsAreUnique(rows, par);
    DepthIsHeight(rows, MAX_DEPTH);
    if Shallow(par, |rows|) {
      assert forall j | 0 <= j < |rows| :: Depth(par, j) < MAX_DEPTH;
    }
    if Height(Forest(rows)) <= MAX_DEPTH {
      assert forall j | 0 <= j < |rows| :: Depth(par, j) < MAX_DEPTH;
    }
  }

  /** bd_zfs_pool_get_vdevs, from the output of the status command on.  `g` are all vdevs ever
      made; they are either the result or freed. */
  method Parse(lines: seq<TextLine>) returns (r: Parsed, ghost g: seq<Tree<Vdev>>, freed: seq<Vdev>)
    ensures r.TooDeep? <==> Height(Forest(Accepted(lines))) > MAX_DEPTH
    ensures r.NoVdevs? <==> Accepted(lines) == []
    ensures fresh(Nodes(g)) && Settled(Accepted(lines), r, g, freed)
  {
    var rows := Accept(lines);
    r, g, freed := Build(rows);
  }

  /** The top-level list of linked nodes is the forest of their rows. */
  lemma AllDrawn(rows: seq<Row<Info>>, par: seq<int>, nodes: seq<Vdev>) returns (g: seq<Tree<Vdev>>)
    requires AreParents(rows, par) && Linked(rows, par, nodes) && |nodes| == |rows|
    ensures OnHeap(Own(par, nodes, -1), g, Forest(rows)) && Preorder(g) == nodes
  {
    var d := Drawn(rows, nodes);
    g := Forest(d);
    assert Infos(d) == nodes;
    ForestKeepsOrder(d);
    assert Labels(g) == Forest(rows) by { DrawnLabels(d, rows, 0, |rows|); }
    assert Own(par, nodes, -1) == Roots(g) && Hangs(g) by {
      SameParents(rows, d, par);
      assert par[..|d|] == par;
      TopsDrawn(rows, par, nodes, d);
    }
  }

  lemma TopsDrawn(rows: seq<Row<Info>>, par: seq<int>, nodes: seq<Vdev>, d: seq<Row<Vdev>>)
    requires |d| == |nodes| == |rows| && Infos(d) == nodes && AreParents(d, par) && Linked(rows, par, nodes)
    ensures Own(par, nodes, -1) == Roots(Forest(d)) && Hangs(Forest(d))
  {
    forall j | 0 <= j < |nodes| ensures Holds(par, nodes, j) {
      LinkedHolds(rows, par, nodes, j);
    }
    BlockHangs(d, par, -1, 0, |d|);
    OwnIsKids(par, nodes, |nodes|, -1);
    assert nodes[..|nodes|] == nodes;
  }

  // ---------------------------------------------------------------- round trip

  predicate Printable(f: seq<Tree<Info>>) {
    f == [] || (|f[0].info| == 5 && !("errors:" <= f[0].info[0]) && Printable(f[0].children) && Printable(f[1..]))
  }

  function AsLine(r: Row<Info>): TextLine { TextLine(r.indent, r.info) }

  function AsLines(rows: seq<Row<Info>>): seq<TextLine> {
    seq(|rows|, i requires 0 <= i < |rows| => AsLine(rows[i]))
  }

  /** A status listing of the pool `root` with the vdevs `f`. */
  function Listing(root: Row<Info>, f: seq<Tree<Info>>, indent: nat -> nat): seq<TextLine> {
    Framed(root, Printed(f, indent, 0))
  }

  const CONFIG_LINE := TextLine(0, ["config:"])
  const HEADER_LINE := TextLine(0, ["NAME", "STATE", "READ", "WRITE", "CKSUM"])
  const ERRORS_LINE := TextLine(0, ["errors:", "No", "known", "data", "errors"])

  function Framed(root: Row<Info>, rows: seq<Row<Info>>): seq<TextLine> {
    [CONFIG_LINE, HEADER_LINE, AsLine(root)] + AsLines(rows) + [ERRORS_LINE]
  }

  lemma {:induction false} PrintedIsPrintable(f: seq<Tree<Info>>, indent: nat -> nat, level: nat)
    requires Printable(f)
    ensures forall j | 0 <= j < |Printed(f, indent, level)| ::
      |Printed(f, indent, level)[j].info| == 5 && !("errors:" <= Printed(f, indent, level)[j].info[0])
  {
    if f != [] {
      PrintedIsPrintable(f[0].children, indent, level + 1);
      PrintedIsPrintable(f[1..], indent, level);
    }
  }

  lemma {:induction false} RowsAreListed(rows: seq<Row<Info>>, tail: TextLine)
    requires Starts(tail, "errors:")
    requires forall j | 0 <= j < |rows| :: |rows[j].info| == 5 && !("errors:" <= rows[j].info[0])
    ensures Wide(TakeUntil(AsLines(rows) + [tail], "errors:")) == AsLines(rows)
  {
    if rows != [] {
      var l := AsLines(rows) + [tail];
      assert l[1..] == AsLines(rows[1..]) + [tail];
      RowsAreListed(rows[1..], tail);
      assert AsLines(rows) == [AsLine(rows[0])] + AsLines(rows[1..]);
    }
  }

  lemma {:induction false} RowsAreBelow(rows: seq<Row<Info>>, root: nat)
    requires forall j | 0 <= j < |rows| :: |rows[j].info| == 5 && rows[j].indent > root
    ensures BelowRoot(AsLines(rows), root) == rows
  {
    if rows != [] {
      assert AsLines(rows)[1..] == AsLines(rows[1..]);
      RowsAreBelow(rows[1..], root);
      assert rows[0].info[..5] == rows[0].info;
      assert rows == [rows[0]] + rows[1..];
    }
  }

  /** The listing of a forest is accepted as its printed rows, which read back as the forest. */
  lemma ListingRoundTrip(root: Row<Info>, f: seq<Tree<Info>>, indent: nat -> nat)
    requires Printable(f) && Deepening(indent) && indent(0) > root.indent
    requires |root.info| == 5 && !("errors:" <= root.info[0])
    ensures Accepted(Listing(root, f, indent)) == Printed(f, indent, 0)
    ensures Forest(Accepted(Listing(root, f, indent))) == f
  {
    var rows := Printed(f, indent, 0);
    PrintedIsPrintable(f, indent, 0);
    PrintedIndents(f, indent, 0);
    PrintReadRoundTrip(f, indent);
    assert Accepted(Framed(root, rows)) == rows by { FramedIsAccepted(root, rows); }
  }

  /** Listing a forest and parsing the listing gives the forest back, unless there is nothing
      in it or it is more than 64 levels high. */
  method ParseListing(root: Row<Info>, f: seq<Tree<Info>>, indent: nat -> nat)
    returns (r: Parsed, ghost g: seq<Tree<Vdev>>)
    requires Printable(f) && Deepening(indent) && indent(0) > root.indent
    requires |root.info| == 5 && !("errors:" <= root.info[0])
    ensures r.TooDeep? <==> Height(f) > MAX_DEPTH
    ensures r.NoVdevs? <==> f == []
    ensures r.Vdevs? ==> OnHeap(r.tops, g, f) && fresh(Nodes(g))
  {
    ListingRoundTrip(root, f, indent);
    PrintedIndents(f, indent, 0);
    var freed;
    r, g, freed := Parse(Listing(root, f, indent));
  }

  lemma FramedIsAccepted(root: Row<Info>, rows: seq<Row<Info>>)
    requires |root.info| == 5 && !("errors:" <= root.info[0])
    requires forall j | 0 <= j < |rows| :: |rows[j].info| == 5 && !("errors:" <= rows[j].info[0])
    requires forall j | 0 <= j < |rows| :: rows[j].indent > root.indent
    ensures Accepted(Framed(root, rows)) == rows
  {
    var l := AsLines([root] + rows);
    assert Listed(Framed(root, rows)) == l by { ListingIsListed(root, rows); }
    assert l[1..] == AsLines(rows) && l[0] == AsLine(root);
    RowsAreBelow(rows, root.indent);
    assert BelowRoot(l, root.indent) == [] + BelowRoot(AsLines(rows), root.indent);
  }

  lemma ListingIsListed(root: Row<Info>, rows: seq<Row<Info>>)
    requires |root.info| == 5 && !("errors:" <= root.info[0])
    requires forall j | 0 <= j < |rows| :: |rows[j].info| == 5 && !("errors:" <= rows[j].info[0])
    ensures Listed(Framed(root, rows)) == AsLines([root] + rows)
  {
    var table := AsLines([root] + rows);
    assert table == [AsLine(root)] + AsLines(rows);
    assert Framed(root, rows) == [CONFIG_LINE, HEADER_LINE] + (table + [ERRORS_LINE]);
    HeadersDropped(table + [ERRORS_LINE]);
    RowsAreListed([root] + rows, ERRORS_LINE);
  }

  lemma HeadersDropped(rest: seq<TextLine>)
    ensures DropThrough(DropThrough([CONFIG_LINE, HEADER_LINE] + rest, "config:"), "NAME") == rest
  {
    var l := [CONFIG_LINE, HEADER_LINE] + rest;
    assert l[1..] == [HEADER_LINE] + rest && ([HEADER_LINE] + rest)[1..] == rest;
  }
}
