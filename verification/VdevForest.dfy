/** Indented rows and the forests they denote.

    `Forest` is the reference reading of a sequence of indented rows, by recursive descent.
    `Parent` is the reading by position: the nearest earlier row with a smaller indent.
    The lemmas show that both are the same, that printing and reading are inverse, and
    that the number of ancestors of the deepest row is the height of the forest. */
module VdevForest {

  datatype Row<V> = Row(indent: nat, info: V)

  datatype Tree<V> = Node(info: V, children: seq<Tree<V>>)

  // ---------------------------------------------------------------- reading by recursive descent

  /** The end of the block of rows nested below row `lo`. */
  function End<V>(rows: seq<Row<V>>, lo: nat, at: nat, hi: nat): (m: nat)
    requires lo < at <= hi <= |rows|
    ensures at <= m <= hi
    decreases hi - at
  {
    if at == hi || rows[at].indent <= rows[lo].indent then at else End(rows, lo, at + 1, hi)
  }

  function Segment<V>(rows: seq<Row<V>>, lo: nat, hi: nat): seq<Tree<V>>
    requires lo <= hi <= |rows|
    decreases hi - lo
  {
    if lo == hi then [] else
      var m := End(rows, lo, lo + 1, hi);
      [Node(rows[lo].info, Segment(rows, lo + 1, m))] + Segment(rows, m, hi)
  }

  function Forest<V>(rows: seq<Row<V>>): seq<Tree<V>> {
    Segment(rows, 0, |rows|)
  }

  lemma {:induction false} EndIsEnd<V>(rows: seq<Row<V>>, lo: nat, at: nat, hi: nat)
    requires lo < at <= hi <= |rows|
    requires forall q | lo < q < at :: rows[q].indent > rows[lo].indent
    ensures forall q | lo < q < End(rows, lo, at, hi) :: rows[q].indent > rows[lo].indent
    ensures End(rows, lo, at, hi) < hi ==> rows[End(rows, lo, at, hi)].indent <= rows[lo].indent
    decreases hi - at
  {
    if at < hi && rows[at].indent > rows[lo].indent {
      EndIsEnd(rows, lo, at + 1, hi);
    }
  }

  lemma {:induction false} EndIsUnique<V>(rows: seq<Row<V>>, lo: nat, at: nat, hi: nat, m: nat)
    requires lo < at <= m <= hi <= |rows|
    requires forall q | at <= q < m :: rows[q].indent > rows[lo].indent
    requires m < hi ==> rows[m].indent <= rows[lo].indent
    ensures m == End(rows, lo, at, hi)
    decreases hi - at
  {
    if at < m {
      EndIsUnique(rows, lo, at + 1, hi, m);
    }
  }

  // ---------------------------------------------------------------- reading by position

  /** The nearest row at or before `q` with an indent below `x`, or -1. */
  function Nearest<V>(rows: seq<Row<V>>, q: int, x: nat): (r: int)
    requires -1 <= q < |rows|
    ensures -1 <= r <= q
    ensures r >= 0 ==> rows[r].indent < x
    decreases q
  {
    if q < 0 || rows[q].indent < x then q else Nearest(rows, q - 1, x)
  }

  function Parent<V>(rows: seq<Row<V>>, j: nat): (r: int)
    requires j < |rows|
    ensures -1 <= r < j
  {
    Nearest(rows, j - 1, rows[j].indent)
  }

  lemma {:induction false} NearestIsUnique<V>(rows: seq<Row<V>>, q: int, x: nat, r: int)
    requires -1 <= r <= q < |rows|
    requires r >= 0 ==> rows[r].indent < x
    requires forall k | r < k <= q :: rows[k].indent >= x
    ensures r == Nearest(rows, q, x)
    decreases q
  {
    if r < q { NearestIsUnique(rows, q - 1, x, r); }
  }

  lemma {:induction false} NearestSkips<V>(rows: seq<Row<V>>, q: int, x: nat)
    requires -1 <= q < |rows|
    ensures forall k | Nearest(rows, q, x) < k <= q :: rows[k].indent >= x
    decreases q
  {
    if q >= 0 && rows[q].indent >= x { NearestSkips(rows, q - 1, x); }
  }

  /** The parent of every row; -1 for a top-level row. */
  function Parents<V>(rows: seq<Row<V>>): (par: seq<int>)
    ensures |par| == |rows|
    ensures forall j | 0 <= j < |rows| :: par[j] == Parent(rows, j)
  {
    seq(|rows|, j requires 0 <= j < |rows| => Parent(rows, j))
  }

  /** The children of `p` among the rows `lo..hi`, in order. */
  function Kids(par: seq<int>, lo: nat, hi: nat, p: int): seq<nat>
    requires lo <= hi <= |par|
    decreases hi
  {
    if lo == hi then [] else
      Kids(par, lo, hi - 1, p) + (if par[hi - 1] == p then [hi - 1] else [])
  }

  lemma {:induction false} KidsSplit(par: seq<int>, lo: nat, mid: nat, hi: nat, p: int)
    requires lo <= mid <= hi <= |par|
    ensures Kids(par, lo, hi, p) == Kids(par, lo, mid, p) + Kids(par, mid, hi, p)
    decreases hi
  {
    if mid < hi { KidsSplit(par, lo, mid, hi - 1, p); }
  }

  lemma {:induction false} NoKids(par: seq<int>, lo: nat, hi: nat, p: int)
    requires lo <= hi <= |par|
    requires forall j | lo <= j < hi :: par[j] != p
    ensures Kids(par, lo, hi, p) == []
    decreases hi
  {
    if lo < hi { NoKids(par, lo, hi - 1, p); }
  }

  predicate Within(s: seq<nat>, lo: nat, hi: nat) {
    forall k | 0 <= k < |s| :: lo <= s[k] < hi
  }

  lemma {:induction false} KidsInRange(par: seq<int>, lo: nat, hi: nat, p: int)
    requires lo <= hi <= |par|
    ensures Within(Kids(par, lo, hi, p), lo, hi)
    decreases hi
  {
    if lo < hi { KidsInRange(par, lo, hi - 1, p); }
  }

  /** Parents come before their children. */
  predicate Backward(par: seq<int>) {
    forall j | 0 <= j < |par| :: -1 <= par[j] < j
  }

  lemma KidsAfter(par: seq<int>, p: nat)
    requires p < |par| && Backward(par)
    ensures Within(Kids(par, 0, |par|, p), p + 1, |par|)
  {
    KidsSplit(par, 0, p + 1, |par|, p);
    NoKids(par, 0, p + 1, p);
    KidsInRange(par, p + 1, |par|, p);
  }

  /** `par` lists the parent of every row. */
  ghost predicate AreParents<V>(rows: seq<Row<V>>, par: seq<int>) {
    && |par| == |rows| && Backward(par)
    && forall j {:trigger Parent(rows, j)} | 0 <= j < |rows| :: par[j] == Parent(rows, j)
  }

  lemma ParentsAreUnique<V>(rows: seq<Row<V>>, par: seq<int>)
    ensures AreParents(rows, par) <==> par == Parents(rows)
  {
    if AreParents(rows, par) {
      forall j | 0 <= j < |rows| ensures par[j] == Parents(rows)[j] {
        assert par[j] == Parent(rows, j);
      }
    }
  }

  /** The forest unfolded from the children lists. */
  function Unfolded<V>(rows: seq<Row<V>>, par: seq<int>, kids: seq<nat>, from: nat): seq<Tree<V>>
    requires |rows| == |par| && Backward(par)
    requires from <= |rows| && Within(kids, from, |rows|)
    decreases |rows| - from, |kids|
  {
    if kids == [] then [] else
      KidsAfter(par, kids[0]);
      [Node(rows[kids[0]].info, Unfolded(rows, par, Kids(par, 0, |par|, kids[0]), kids[0] + 1))]
      + Unfolded(rows, par, kids[1..], from)
  }

  // ---------------------------------------------------------------- both readings agree

  /** Rows `lo..hi` form a whole block of descendants of `p`. */
  ghost predicate Block<V>(rows: seq<Row<V>>, p: int, lo: nat, hi: nat) {
    && -1 <= p < lo <= hi <= |rows|
    && (p >= 0 ==> forall j | lo <= j < hi :: rows[p].indent < rows[j].indent)
    && (lo < hi ==> forall q | p < q < lo :: rows[q].indent >= rows[lo].indent)
    && (p < 0 ==> hi == |rows|)
    && (p >= 0 && hi < |rows| ==> rows[hi].indent <= rows[p].indent)
  }

  /** The first row of a block and its nested rows; the remaining rows are a block again. */
  lemma BlockStep<V>(rows: seq<Row<V>>, p: int, lo: nat, hi: nat) returns (m: nat)
    requires Block(rows, p, lo, hi) && lo < hi
    ensures m == End(rows, lo, lo + 1, hi) && m <= hi
    ensures Block(rows, lo, lo + 1, m)
    ensures Block(rows, p, m, hi)
    ensures Parent(rows, lo) == p
    ensures forall j | lo < j < m :: Parent(rows, j) >= lo
  {
    m := End(rows, lo, lo + 1, hi);
    EndIsEnd(rows, lo, lo + 1, hi);
    NearestIsUnique(rows, lo - 1, rows[lo].indent, p);
    forall j | lo < j < m ensures Parent(rows, j) >= lo {
      NearestSkips(rows, j - 1, rows[j].indent);
    }
  }

  /** The children of `p` all lie in its block. */
  lemma BlockHasAllKids<V>(rows: seq<Row<V>>, par: seq<int>, p: nat, hi: nat)
    requires Block(rows, p, p + 1, hi) && AreParents(rows, par)
    ensures Kids(par, 0, |rows|, p) == Kids(par, p + 1, hi, p)
  {
    forall j | hi <= j < |rows| ensures par[j] != p {
      assert par[j] == Parent(rows, j);
      NearestSkips(rows, j - 1, rows[j].indent);
    }
    KidsSplit(par, 0, p + 1, |rows|, p);
    NoKids(par, 0, p + 1, p);
    KidsSplit(par, p + 1, hi, |rows|, p);
    NoKids(par, hi, |rows|, p);
  }

  /** What the first row of a block means for the children lists. */
  lemma BlockOpens<V>(rows: seq<Row<V>>, par: seq<int>, p: int, lo: nat, hi: nat) returns (m: nat)
    requires Block(rows, p, lo, hi) && lo < hi && AreParents(rows, par)
    ensures m == End(rows, lo, lo + 1, hi) && m <= hi
    ensures Block(rows, lo, lo + 1, m)
    ensures Block(rows, p, m, hi)
    ensures par[lo] == p
    ensures Kids(par, lo, hi, p) == [lo] + Kids(par, m, hi, p)
    ensures Kids(par, 0, |par|, lo) == Kids(par, lo + 1, m, lo)
  {
    m := BlockStep(rows, p, lo, hi);
    BlockHasAllKids(rows, par, lo, m);
    assert par[lo] == Parent(rows, lo);
    forall j | lo < j < m ensures par[j] >= lo { assert par[j] == Parent(rows, j); }
    BlockKids(par, p, lo, hi, m);
  }

  lemma {:induction false} BlockAgrees<V>(rows: seq<Row<V>>, par: seq<int>, p: int, lo: nat, hi: nat, from: nat)
    requires Block(rows, p, lo, hi) && from <= lo && AreParents(rows, par)
    ensures Within(Kids(par, lo, hi, p), from, |rows|)
    ensures Unfolded(rows, par, Kids(par, lo, hi, p), from) == Segment(rows, lo, hi)
    decreases hi - lo
  {
    if lo < hi {
      var m := BlockOpens(rows, par, p, lo, hi);
      BlockAgrees(rows, par, lo, lo + 1, m, lo + 1);
      BlockAgrees(rows, par, p, m, hi, from);
      JoinAgreement(rows, par, p, lo, m, hi, from);
    }
  }

  /** One tree and the rest of the block, put together on both sides. */
  lemma JoinAgreement<V>(rows: seq<Row<V>>, par: seq<int>, p: int, lo: nat, m: nat, hi: nat, from: nat)
    requires from <= lo < m <= hi <= |rows| == |par| && Backward(par)
    requires m == End(rows, lo, lo + 1, hi)
    requires Within(Kids(par, lo + 1, m, lo), lo + 1, |rows|) && Within(Kids(par, m, hi, p), from, |rows|)
    requires Kids(par, lo, hi, p) == [lo] + Kids(par, m, hi, p)
    requires Kids(par, 0, |par|, lo) == Kids(par, lo + 1, m, lo)
    requires Unfolded(rows, par, Kids(par, lo + 1, m, lo), lo + 1) == Segment(rows, lo + 1, m)
    requires Unfolded(rows, par, Kids(par, m, hi, p), from) == Segment(rows, m, hi)
    ensures Within(Kids(par, lo, hi, p), from, |rows|)
    ensures Unfolded(rows, par, Kids(par, lo, hi, p), from) == Segment(rows, lo, hi)
  {
    UnfoldOne(rows, par, lo, Kids(par, m, hi, p), from);
  }

  /** The first row of a block is a child, the rows nested below it are not. */
  lemma BlockKids(par: seq<int>, p: int, lo: nat, hi: nat, m: nat)
    requires lo < m <= hi <= |par| && p < lo
    requires par[lo] == p && forall j | lo < j < m :: par[j] >= lo
    ensures Kids(par, lo, hi, p) == [lo] + Kids(par, m, hi, p)
  {
    var a, b, c := Kids(par, lo, lo + 1, p), Kids(par, lo + 1, m, p), Kids(par, m, hi, p);
    assert b == [] by { NoKids(par, lo + 1, m, p); }
    assert a == [lo] by { assert Kids(par, lo, lo, p) == []; }
    assert Kids(par, lo, hi, p) == Kids(par, lo, m, p) + c by { KidsSplit(par, lo, m, hi, p); }
    assert Kids(par, lo, m, p) == a + b by { KidsSplit(par, lo, lo + 1, m, p); }
    assert a + b == a;
  }

  lemma UnfoldOne<V>(rows: seq<Row<V>>, par: seq<int>, j: nat, kids: seq<nat>, from: nat)
    requires |rows| == |par| && Backward(par)
    requires from <= j < |rows| && Within(kids, from, |rows|)
    ensures Within([j] + kids, from, |rows|) && Within(Kids(par, 0, |par|, j), j + 1, |rows|)
    ensures Unfolded(rows, par, [j] + kids, from)
      == [Node(rows[j].info, Unfolded(rows, par, Kids(par, 0, |par|, j), j + 1))] + Unfolded(rows, par, kids, from)
  {
    KidsAfter(par, j);
    var ks := [j] + kids;
    assert ks[1..] == kids;
    assert ks[0] == j;
  }

  /** Reading by recursive descent and reading by nearest smaller indent give the same forest. */
  lemma ReadingsAgree<V>(rows: seq<Row<V>>)
    ensures Within(Kids(Parents(rows), 0, |rows|, -1), 0, |rows|)
    ensures Unfolded(rows, Parents(rows), Kids(Parents(rows), 0, |rows|, -1), 0) == Forest(rows)
  {
    ParentsAreUnique(rows, Parents(rows));
    BlockAgrees(rows, Parents(rows), -1, 0, |rows|, 0);
  }

  // ---------------------------------------------------------------- order, height, printing

  function Preorder<V>(f: seq<Tree<V>>): seq<V> {
    if f == [] then [] else [f[0].info] + Preorder(f[0].children) + Preorder(f[1..])
  }

  function Infos<V>(rows: seq<Row<V>>): seq<V> {
    seq(|rows|, j requires 0 <= j < |rows| => rows[j].info)
  }

  lemma {:induction false} SegmentKeepsOrder<V>(rows: seq<Row<V>>, lo: nat, hi: nat)
    requires lo <= hi <= |rows|
    ensures Preorder(Segment(rows, lo, hi)) == Infos(rows[lo..hi])
    decreases hi - lo
  {
    if lo < hi {
      var m := End(rows, lo, lo + 1, hi);
      SegmentKeepsOrder(rows, lo + 1, m);
      SegmentKeepsOrder(rows, m, hi);
      assert Segment(rows, lo, hi)[1..] == Segment(rows, m, hi);
      InfosSplit(rows, lo, m, hi);
    }
  }

  lemma InfosSplit<V>(rows: seq<Row<V>>, lo: nat, m: nat, hi: nat)
    requires lo < m <= hi <= |rows|
    ensures Infos(rows[lo..hi]) == [rows[lo].info] + Infos(rows[lo + 1..m]) + Infos(rows[m..hi])
  {
  }

  /** The preorder of the forest is the row sequence. */
  lemma ForestKeepsOrder<V>(rows: seq<Row<V>>)
    ensures Preorder(Forest(rows)) == Infos(rows)
  {
    SegmentKeepsOrder(rows, 0, |rows|);
    assert rows[0..|rows|] == rows;
  }

  function Max(a: nat, b: nat): nat { if a < b then b else a }

  function Height<V>(f: seq<Tree<V>>): nat {
    if f == [] then 0 else Max(1 + Height(f[0].children), Height(f[1..]))
  }

  /** The number of ancestors of a row. */
  function Depth(par: seq<int>, j: nat): nat
    requires j < |par| && Backward(par)
    decreases j
  {
    if par[j] < 0 then 0 else 1 + Depth(par, par[j])
  }

  function LevelBelow(par: seq<int>, p: int): nat
    requires p < |par| && Backward(par)
  {
    if p < 0 then 0 else Depth(par, p) + 1
  }

  /** `d` is a deepest row among `lo..hi`, which reach `h` levels from `level` on. */
  ghost predicate DeepestIn(par: seq<int>, lo: nat, hi: nat, level: nat, h: nat, d: nat)
    requires hi <= |par| && Backward(par)
  {
    && (forall j | lo <= j < hi :: Depth(par, j) < level + h)
    && (if lo < hi then lo <= d < hi && Depth(par, d) + 1 == level + h else h == 0)
  }

  lemma BlockSplits<V>(rows: seq<Row<V>>, par: seq<int>, p: int, lo: nat, hi: nat) returns (m: nat)
    requires Block(rows, p, lo, hi) && lo < hi && AreParents(rows, par) && p < |rows|
    ensures m == End(rows, lo, lo + 1, hi) && m <= hi
    ensures Block(rows, lo, lo + 1, m) && Block(rows, p, m, hi)
    ensures Depth(par, lo) == LevelBelow(par, p)
    ensures LevelBelow(par, lo) == LevelBelow(par, p) + 1
    ensures Height(Segment(rows, lo, hi)) == Max(1 + Height(Segment(rows, lo + 1, m)), Height(Segment(rows, m, hi)))
  {
    m := End(rows, lo, lo + 1, hi);
    assert par[lo] == p && Block(rows, lo, lo + 1, m) && Block(rows, p, m, hi) by {
      var _ := BlockOpens(rows, par, p, lo, hi);
    }
  }

  /** The height of a block is the depth of its deepest row. */
  lemma {:induction false} BlockDepth<V>(rows: seq<Row<V>>, par: seq<int>, p: int, lo: nat, hi: nat) returns (deepest: nat)
    requires Block(rows, p, lo, hi) && AreParents(rows, par) && p < |rows|
    ensures DeepestIn(par, lo, hi, LevelBelow(par, p), Height(Segment(rows, lo, hi)), deepest)
    decreases hi - lo
  {
    deepest := 0;
    if lo < hi {
      var m := BlockSplits(rows, par, p, lo, hi);
      var a := BlockDepth(rows, par, lo, lo + 1, m);
      var b := BlockDepth(rows, par, p, m, hi);
      deepest := JoinDepth(par, lo, m, hi, LevelBelow(par, p),
                           Height(Segment(rows, lo + 1, m)), Height(Segment(rows, m, hi)), a, b);
    } else {
      assert Segment(rows, lo, hi) == [];
    }
  }

  /** The deepest row of a tree and its right siblings. */
  lemma JoinDepth(par: seq<int>, lo: nat, m: nat, hi: nat, level: nat, inner: nat, rest: nat, a: nat, b: nat)
    returns (deepest: nat)
    requires Backward(par) && lo < m <= hi <= |par| && Depth(par, lo) == level
    requires DeepestIn(par, lo + 1, m, level + 1, inner, a)
    requires DeepestIn(par, m, hi, level, rest, b)
    ensures DeepestIn(par, lo, hi, level, Max(1 + inner, rest), deepest)
  {
    deepest := if rest > inner + 1 then b else if lo + 1 < m then a else lo;
  }

  /** A bound on the ancestors of every row is a bound on the height of the forest. */
  lemma DepthIsHeight<V>(rows: seq<Row<V>>, bound: nat)
    ensures Backward(Parents(rows))
    ensures (forall j | 0 <= j < |rows| :: Depth(Parents(rows), j) < bound) <==> Height(Forest(rows)) <= bound
  {
    ParentsAreUnique(rows, Parents(rows));
    var deepest := BlockDepth(rows, Parents(rows), -1, 0, |rows|);
    if |rows| > 0 {
      assert Depth(Parents(rows), deepest) + 1 == Height(Forest(rows));
    }
  }

  /** One row per tree in preorder, indented by level. */
  function Printed<V>(f: seq<Tree<V>>, indent: nat -> nat, level: nat): seq<Row<V>> {
    if f == [] then [] else
      [Row(indent(level), f[0].info)] + Printed(f[0].children, indent, level + 1) + Printed(f[1..], indent, level)
  }

  ghost predicate Deepening(indent: nat -> nat) {
    forall a, b | a < b :: indent(a) < indent(b)
  }

  lemma {:induction false} PrintedIndents<V>(f: seq<Tree<V>>, indent: nat -> nat, level: nat)
    requires Deepening(indent)
    ensures f != [] <==> Printed(f, indent, level) != []
    ensures f != [] ==> Printed(f, indent, level)[0].indent == indent(level)
    ensures forall j | 0 <= j < |Printed(f, indent, level)| :: Printed(f, indent, level)[j].indent >= indent(level)
  {
    if f != [] {
      PrintedIndents(f[0].children, indent, level + 1);
      PrintedIndents(f[1..], indent, level);
      assert indent(level) < indent(level + 1);
    }
  }

  lemma SliceParts<V>(rows: seq<Row<V>>, lo: nat, hi: nat, x: Row<V>, a: seq<Row<V>>, b: seq<Row<V>>)
    requires lo <= hi <= |rows| && rows[lo..hi] == [x] + a + b
    ensures hi == lo + 1 + |a| + |b| && rows[lo] == x
    ensures rows[lo + 1..lo + 1 + |a|] == a && rows[lo + 1 + |a|..hi] == b
    ensures forall q | lo < q <= lo + |a| :: rows[q] == a[q - lo - 1]
    ensures b != [] ==> rows[lo + 1 + |a|] == b[0]
  {
    var s := rows[lo..hi];
    assert |s| == 1 + |a| + |b|;
    assert s[0] == x && s[1..1 + |a|] == a && s[1 + |a|..] == b;
    assert forall q | lo <= q < hi :: rows[q] == s[q - lo];
  }

  lemma {:induction false} ReadPrinted<V>(f: seq<Tree<V>>, indent: nat -> nat, level: nat, rows: seq<Row<V>>, lo: nat, hi: nat)
    requires Deepening(indent)
    requires lo <= hi <= |rows| && rows[lo..hi] == Printed(f, indent, level)
    ensures Segment(rows, lo, hi) == f
    decreases f
  {
    if f != [] {
      var a, b := Printed(f[0].children, indent, level + 1), Printed(f[1..], indent, level);
      var m := lo + 1 + |a|;
      PrintedIndents(f[0].children, indent, level + 1);
      PrintedIndents(f[1..], indent, level);
      assert indent(level) < indent(level + 1);
      SliceParts(rows, lo, hi, Row(indent(level), f[0].info), a, b);
      EndIsUnique(rows, lo, lo + 1, hi, m);
      ReadPrinted(f[0].children, indent, level + 1, rows, lo + 1, m);
      ReadPrinted(f[1..], indent, level, rows, m, hi);
      assert f == [f[0]] + f[1..];
    }
  }

  /** Reading what was printed gives the printed forest back. */
  lemma PrintReadRoundTrip<V>(f: seq<Tree<V>>, indent: nat -> nat)
    requires Deepening(indent)
    ensures Forest(Printed(f, indent, 0)) == f
  {
    var rows := Printed(f, indent, 0);
    assert rows[0..|rows|] == rows;
    ReadPrinted(f, indent, 0, rows, 0, |rows|);
  }
}
