/** The ordering step of the btrfs subvolume listing: top-level subvolumes are moved to the
    front, swap-removed from the worklist, and the rest is inserted one by one from the right.

    The listing promises that no child precedes its parent.  The code keeps that promise
    exactly when the worklist left by swap-removal is `Unobstructed`, a condition on the
    order of the worklist alone. */
module SubvolumeOrder {

  /** BD_BTRFS_MAIN_VOLUME_ID */
  const MAIN_VOLUME_ID: nat := 5

  /** A subvolume record; `address` is its identity as a heap pointer. */
  datatype Subvol = Subvol(address: nat, id: nat, parentId: nat) {
    predicate TopLevel() { parentId == MAIN_VOLUME_ID }
  }

  // ---------------------------------------------------------------- the specification

  /** The top-level subvolumes, in their original order. */
  function Tops(items: seq<Subvol>): seq<Subvol> {
    if items == [] then [] else
      Tops(items[..|items| - 1]) + (if items[|items| - 1].TopLevel() then [items[|items| - 1]] else [])
  }

  function IndexOf(a: seq<Subvol>, x: Subvol): (i: nat)
    ensures i <= |a|
    ensures i < |a| ==> a[i] == x
    ensures forall j | 0 <= j < i :: a[j] != x
  {
    if a == [] || a[0] == x then 0 else 1 + IndexOf(a[1..], x)
  }

  /** Remove one occurrence by overwriting it with the last element. */
  function SwapRemoved(a: seq<Subvol>, x: Subvol): seq<Subvol> {
    var i := IndexOf(a, x);
    if i == |a| then a else a[i := a[|a| - 1]][..|a| - 1]
  }

  function AllSwapRemoved(a: seq<Subvol>, xs: seq<Subvol>): seq<Subvol> {
    if xs == [] then a else SwapRemoved(AllSwapRemoved(a, xs[..|xs| - 1]), xs[|xs| - 1])
  }

  /** What the swap-removal of the top-level subvolumes leaves to be inserted. */
  function Worklist(items: seq<Subvol>): seq<Subvol> {
    AllSwapRemoved(items, Tops(items))
  }

  /** `q` is the parent or a sibling of `x`. */
  predicate Kin(q: Subvol, x: Subvol) {
    q.id == x.parentId || q.parentId == x.parentId
  }

  /** An item moving left stops behind `q`. */
  predicate Blocks(q: Subvol, x: Subvol) {
    Kin(q, x) || q.TopLevel()
  }

  /** The slot an item comes to rest in: right behind the rightmost blocker. */
  function Slot(s: seq<Subvol>, x: Subvol): (k: nat)
    ensures k <= |s|
    ensures k > 0 ==> Blocks(s[k - 1], x)
    ensures forall i | k <= i < |s| :: !Blocks(s[i], x)
  {
    if s == [] || Blocks(s[|s| - 1], x) then |s| else Slot(s[..|s| - 1], x)
  }

  function Inserted(s: seq<Subvol>, x: Subvol): seq<Subvol> {
    s[..Slot(s, x)] + [x] + s[Slot(s, x)..]
  }

  function AllInserted(s: seq<Subvol>, w: seq<Subvol>): seq<Subvol> {
    if w == [] then s else Inserted(AllInserted(s, w[..|w| - 1]), w[|w| - 1])
  }

  function Ordered(items: seq<Subvol>): seq<Subvol> {
    AllInserted(Tops(items), Worklist(items))
  }

  // ---------------------------------------------------------------- the code

  /** Move the item at `last` towards the front of `ret`, swapping neighbours. */
  method SiftDown(ret: array<Subvol>, last: nat)
    requires last < ret.Length
    modifies ret
    ensures ret[..last + 1] == Inserted(old(ret[..last]), old(ret[last]))
    ensures ret[last + 1..] == old(ret[last + 1..])
  {
    ghost var s := ret[..last];
    var item := ret[last];
    var y := last;
    while y > 0 && ret[y - 1].id != item.parentId && ret[y - 1].parentId != item.parentId
          && ret[y - 1].parentId != MAIN_VOLUME_ID
      invariant 0 <= y <= last
      invariant ret[y] == item
      invariant forall i | 0 <= i < y :: ret[i] == s[i]
      invariant forall i | y < i <= last :: ret[i] == s[i - 1]
      invariant forall i | last < i < ret.Length :: ret[i] == old(ret[i])
      invariant forall i | y <= i < last :: !Blocks(s[i], item)
    {
      var swap := ret[y - 1];
      ret[y - 1] := ret[y];
      ret[y] := swap;
      y := y - 1;
    }
    SlotIsUnique(s, item, y);
    assert ret[..last + 1] == s[..y] + [item] + s[y..];
  }

  /** First loop: top-level items to the front of the result. */
  method CollectTops(items: seq<Subvol>, ret: array<Subvol>) returns (next: nat)
    requires ret.Length == |items|
    modifies ret
    ensures next <= |items|
    ensures ret[..next] == Tops(items)
  {
    next := 0;
    for i := 0 to |items|
      invariant next <= i
      invariant ret[..next] == Tops(items[..i])
    {
      assert items[..i + 1][..i] == items[..i];
      if items[i].parentId == MAIN_VOLUME_ID {
        ret[next] := items[i];
        next := next + 1;
        assert ret[..next] == ret[..next - 1] + [items[i]];
      }
    }
    assert items[..|items|] == items;
  }

  /** Second loop: swap-remove what was collected. */
  method RemoveCollected(items: seq<Subvol>, ret: array<Subvol>, next: nat) returns (work: seq<Subvol>)
    requires next <= ret.Length
    ensures work == AllSwapRemoved(items, ret[..next])
  {
    work := items;
    for i := 0 to next
      invariant work == AllSwapRemoved(items, ret[..i])
    {
      assert ret[..i + 1][..i] == ret[..i];
      var at := Find(work, ret[i]);
      if at < |work| {
        work := work[at := work[|work| - 1]][..|work| - 1];
      }
    }
  }

  /** The ordering loops of the listing. */
  method Order(items: seq<Subvol>) returns (ret: array<Subvol>)
    ensures fresh(ret)
    ensures ret[..] == Ordered(items)
  {
    ret := new Subvol[|items|];
    var next := CollectTops(items, ret);
    var work := RemoveCollected(items, ret, next);
    OrderKeepsItems(items);
    InsertRest(Tops(items), work, ret, next);
  }

  /** Third loop: insert what is left. */
  method InsertRest(ghost tops: seq<Subvol>, work: seq<Subvol>, ret: array<Subvol>, start: nat)
    requires start + |work| == ret.Length && ret[..start] == tops
    modifies ret
    ensures ret[..] == AllInserted(tops, work)
  {
    for i := 0 to |work|
      invariant ret[..start + i] == AllInserted(tops, work[..i])
    {
      assert work[..i + 1][..i] == work[..i];
      ret[start + i] := work[i];
      SiftDown(ret, start + i);
    }
    assert work[..|work|] == work;
    assert ret[..ret.Length] == ret[..];
  }

  /** The search of the swap-removal. */
  method Find(a: seq<Subvol>, x: Subvol) returns (i: nat)
    ensures i == IndexOf(a, x)
  {
    i := 0;
    while i < |a| && a[i] != x
      invariant i <= |a|
      invariant forall j | 0 <= j < i :: a[j] != x
    {
      i := i + 1;
    }
    ghost var k := IndexOf(a, x);
  }

  lemma {:induction false} SlotIsUnique(s: seq<Subvol>, x: Subvol, k: nat)
    requires k <= |s|
    requires k > 0 ==> Blocks(s[k - 1], x)
    requires forall i | k <= i < |s| :: !Blocks(s[i], x)
    ensures k == Slot(s, x)
  {
    var j := Slot(s, x);
    assert k > 0 ==> Blocks(s[k - 1], x);
    assert j > 0 ==> Blocks(s[j - 1], x);
  }

  // ---------------------------------------------------------------- always: a permutation, tops first

  lemma {:induction false} SwapRemovedContents(a: seq<Subvol>, x: Subvol)
    ensures multiset(SwapRemoved(a, x)) == multiset(a) - multiset{x}
  {
    var i, n := IndexOf(a, x), |a| - 1;
    if i <= n {
      var b := a[..n];
      assert a == b + [a[n]];
      if i < n {
        UpdateContents(b, i, a[n]);
        assert b[i] == a[i] == x;
        assert SwapRemoved(a, x) == b[i := a[n]];
      }
    }
  }

  lemma UpdateContents(a: seq<Subvol>, i: nat, y: Subvol)
    requires i < |a|
    ensures multiset(a[i := y]) + multiset{a[i]} == multiset(a) + multiset{y}
  {
  }

  lemma SpliceContents(s: seq<Subvol>, k: nat, x: Subvol)
    requires k <= |s|
    ensures multiset(s[..k] + [x] + s[k..]) == multiset(s) + multiset{x}
  {
    assert s == s[..k] + s[k..];
  }

  lemma SnocContents(s: seq<Subvol>)
    requires s != []
    ensures multiset(s) == multiset(s[..|s| - 1]) + multiset{s[|s| - 1]}
  {
    assert s == s[..|s| - 1] + [s[|s| - 1]];
  }

  lemma {:induction false} AllSwapRemovedContents(a: seq<Subvol>, xs: seq<Subvol>)
    ensures multiset(AllSwapRemoved(a, xs)) == multiset(a) - multiset(xs)
  {
    if xs != [] {
      var n := |xs| - 1;
      AllSwapRemovedContents(a, xs[..n]);
      SwapRemovedContents(AllSwapRemoved(a, xs[..n]), xs[n]);
      SnocContents(xs);
    }
  }

  /** The top-level items are exactly the top-level part of the input, with multiplicities. */
  lemma {:induction false} TopsContents(items: seq<Subvol>, x: Subvol)
    ensures multiset(Tops(items))[x] == if x.TopLevel() then multiset(items)[x] else 0
  {
    if items != [] {
      var n := |items| - 1;
      TopsContents(items[..n], x);
      assert items == items[..n] + [items[n]];
    }
  }

  /** Swap-removal takes out the top-level items and nothing else. */
  lemma WorklistContents(items: seq<Subvol>)
    ensures multiset(Worklist(items)) + multiset(Tops(items)) == multiset(items)
    ensures forall x | x in Worklist(items) :: !x.TopLevel()
    ensures forall x | x in Tops(items) :: x.TopLevel()
  {
    var t, w := Tops(items), Worklist(items);
    AllSwapRemovedContents(items, t);
    TopsAreContained(items);
    forall x | x in w ensures !x.TopLevel() { NotInRest(items, x); }
    forall x | x in t ensures x.TopLevel() {
      TopsContents(items, x);
      assert x in multiset(t);
    }
  }

  lemma TopsAreContained(items: seq<Subvol>)
    ensures multiset(Tops(items)) <= multiset(items)
  {
    forall x ensures multiset(Tops(items))[x] <= multiset(items)[x] { TopsContents(items, x); }
  }

  lemma NotInRest(items: seq<Subvol>, x: Subvol)
    requires x in Worklist(items)
    ensures !x.TopLevel()
  {
    AllSwapRemovedContents(items, Tops(items));
    TopsContents(items, x);
    assert x in multiset(Worklist(items));
  }

  lemma {:induction false} AllInsertedContents(s: seq<Subvol>, w: seq<Subvol>)
    ensures multiset(AllInserted(s, w)) == multiset(s) + multiset(w)
    ensures |AllInserted(s, w)| == |s| + |w|
  {
    if w != [] {
      var n := |w| - 1;
      AllInsertedContents(s, w[..n]);
      var t := AllInserted(s, w[..n]);
      SpliceContents(t, Slot(t, w[n]), w[n]);
      SnocContents(w);
    }
  }

  /** The listing is a permutation of the parsed subvolumes. */
  lemma {:induction false} OrderKeepsItems(items: seq<Subvol>)
    ensures multiset(Ordered(items)) == multiset(items)
    ensures |Tops(items)| + |Worklist(items)| == |items| == |Ordered(items)|
  {
    WorklistContents(items);
    AllInsertedContents(Tops(items), Worklist(items));
    assert |multiset(items)| == |items|;
    assert |multiset(Worklist(items))| == |Worklist(items)|;
    assert |multiset(Tops(items))| == |Tops(items)|;
  }

  lemma {:induction false} TopsStayFirst(tops: seq<Subvol>, w: seq<Subvol>)
    requires forall x | x in tops :: x.TopLevel()
    ensures |tops| <= |AllInserted(tops, w)|
    ensures AllInserted(tops, w)[..|tops|] == tops
  {
    if w != [] {
      var n := |w| - 1;
      TopsStayFirst(tops, w[..n]);
      SlotBehindTops(AllInserted(tops, w[..n]), tops, w[n]);
    }
  }

  /** No item moves past a top-level one. */
  lemma SlotBehindTops(s: seq<Subvol>, tops: seq<Subvol>, x: Subvol)
    requires tops <= s && forall t | t in tops :: t.TopLevel()
    ensures |tops| <= Slot(s, x) && tops <= Inserted(s, x)
  {
    var k := Slot(s, x);
    assert forall i | 0 <= i < |tops| :: s[i] == tops[i] && tops[i] in tops && Blocks(s[i], x);
    assert k < |s| ==> !Blocks(s[k], x);
    assert Inserted(s, x)[..|tops|] == s[..|tops|];
  }

  /** Top-level subvolumes come first, in their original order. */
  lemma OrderPutsTopsFirst(items: seq<Subvol>)
    ensures |Tops(items)| <= |Ordered(items)|
    ensures Ordered(items)[..|Tops(items)|] == Tops(items)
    ensures forall x | x in Ordered(items)[|Tops(items)|..] :: !x.TopLevel()
  {
    WorklistContents(items);
    TopsStayFirst(Tops(items), Worklist(items));
    AllInsertedContents(Tops(items), Worklist(items));
    RestContents(Ordered(items), Tops(items), Worklist(items));
  }

  lemma RestContents(r: seq<Subvol>, t: seq<Subvol>, w: seq<Subvol>)
    requires t <= r
    requires multiset(r) == multiset(t) + multiset(w)
    ensures forall x | x in r[|t|..] :: x in w
  {
    var rest := r[|t|..];
    assert r == t + rest;
    assert multiset(r) == multiset(t) + multiset(rest);
    forall x | x in rest ensures x in w {
      assert multiset(r)[x] == multiset(t)[x] + multiset(rest)[x];
      assert multiset(r)[x] == multiset(t)[x] + multiset(w)[x];
      assert x in multiset(w);
    }
  }

  // ---------------------------------------------------------------- relative order

  ghost predicate Distinct(s: seq<Subvol>) {
    forall i, j | 0 <= i < j < |s| :: s[i].id != s[j].id
  }

  /** `x` stands before `y`. */
  ghost predicate Before(s: seq<Subvol>, x: Subvol, y: Subvol) {
    exists i, j :: 0 <= i < j < |s| && s[i] == x && s[j] == y
  }

  lemma BeforeIsStrict(s: seq<Subvol>, x: Subvol, y: Subvol)
    requires Distinct(s)
    ensures !(Before(s, x, y) && Before(s, y, x))
    ensures x in s && y in s && x != y ==> Before(s, x, y) || Before(s, y, x)
  {
    if x in s && y in s && x != y {
      var i :| 0 <= i < |s| && s[i] == x;
      var j :| 0 <= j < |s| && s[j] == y;
      if i < j { assert Before(s, x, y); } else { assert Before(s, y, x); }
    }
  }

  /** One insertion keeps the order of the items already there; the new item lands
      behind `q` exactly when a blocker stands at `q` or behind it. */
  lemma {:induction false} InsertionOrder(s: seq<Subvol>, x: Subvol, q: Subvol, i: nat)
    requires i < |s| && s[i] == q
    ensures i < Slot(s, x) ==> Before(Inserted(s, x), q, x)
    ensures i >= Slot(s, x) ==> Before(Inserted(s, x), x, q)
    ensures i < Slot(s, x) <==> exists j :: i <= j < |s| && Blocks(s[j], x)
  {
    var k := Slot(s, x);
    var r := Inserted(s, x);
    assert r[k] == x;
    if i < k {
      assert r[i] == q;
      assert i <= k - 1 < |s| && Blocks(s[k - 1], x);
    } else {
      assert r[i + 1] == q;
    }
  }

  lemma {:induction false} InsertionKeepsOrder(s: seq<Subvol>, w: seq<Subvol>, n: nat, x: Subvol, y: Subvol)
    requires n <= |w|
    requires Before(AllInserted(s, w[..n]), x, y)
    ensures Before(AllInserted(s, w), x, y)
    decreases |w|
  {
    if n == |w| {
      assert w[..n] == w;
    } else {
      var m := |w| - 1;
      assert w[..m][..n] == w[..n];
      InsertionKeepsOrder(s, w[..m], n, x, y);
      assert Before(Inserted(AllInserted(s, w[..m]), w[m]), x, y) by {
        StepKeepsOrder(AllInserted(s, w[..m]), w[m], x, y);
      }
    }
  }

  lemma StepKeepsOrder(t: seq<Subvol>, z: Subvol, x: Subvol, y: Subvol)
    requires Before(t, x, y)
    ensures Before(Inserted(t, z), x, y)
  {
    var i, j :| 0 <= i < j < |t| && t[i] == x && t[j] == y;
    var k, r := Slot(t, z), Inserted(t, z);
    assert r[if i < k then i else i + 1] == x;
    assert r[if j < k then j else j + 1] == y;
  }

  lemma StepKeepsDistinct(t: seq<Subvol>, z: Subvol)
    requires Distinct(t) && forall i | 0 <= i < |t| :: t[i].id != z.id
    ensures Distinct(Inserted(t, z))
  {
    var k, r := Slot(t, z), Inserted(t, z);
    assert forall i | 0 <= i < |r| :: r[i] == if i < k then t[i] else if i == k then z else t[i - 1];
  }

  lemma {:induction false} InsertionKeepsDistinct(s: seq<Subvol>, w: seq<Subvol>)
    requires Distinct(s + w)
    ensures Distinct(AllInserted(s, w))
  {
    if w != [] {
      var n := |w| - 1;
      DistinctPrefix(s, w, n);
      InsertionKeepsDistinct(s, w[..n]);
      var t := AllInserted(s, w[..n]);
      forall i | 0 <= i < |t| ensures t[i].id != w[n].id {
        InsertionMembers(s, w[..n], t[i]);
        NotListedTwice(s, w, n, t[i]);
      }
      StepKeepsDistinct(t, w[n]);
    } else {
      assert s + w == s;
    }
  }

  lemma DistinctPrefix(s: seq<Subvol>, w: seq<Subvol>, n: nat)
    requires Distinct(s + w) && n <= |w|
    ensures Distinct(s + w[..n])
  {
    assert forall i | 0 <= i < |s + w[..n]| :: (s + w[..n])[i] == (s + w)[i];
  }

  lemma NotListedTwice(s: seq<Subvol>, w: seq<Subvol>, n: nat, x: Subvol)
    requires Distinct(s + w) && n < |w| && (x in s || x in w[..n])
    ensures x.id != w[n].id
  {
    assert (s + w)[|s| + n] == w[n];
    if x in s {
      var i :| 0 <= i < |s| && s[i] == x;
      assert (s + w)[i] == x;
    } else {
      var i :| 0 <= i < n && w[i] == x;
      assert (s + w)[|s| + i] == x;
    }
  }

  /** Everything inserted so far can be found in the sorted part, and nothing else. */
  lemma InsertionMembers(s: seq<Subvol>, w: seq<Subvol>, x: Subvol)
    ensures x in AllInserted(s, w) <==> x in s || x in w
  {
    AllInsertedContents(s, w);
    assert x in AllInserted(s, w) <==> x in multiset(AllInserted(s, w));
    assert x in s <==> x in multiset(s);
    assert x in w <==> x in multiset(w);
  }

  // ---------------------------------------------------------------- the exact condition

  /** No child precedes its parent. */
  ghost predicate ParentsPrecede(r: seq<Subvol>) {
    forall i, j | 0 <= i < j < |r| :: r[i].parentId != r[j].id
  }

  ghost predicate FirstOfSiblings(w: seq<Subvol>, c: nat)
    requires c < |w|
  {
    forall e | 0 <= e < c :: w[e].parentId != w[c].parentId
  }

  /** Read off the worklist alone: `w[a]`, inserted after `w[c]`, comes to rest behind it.
      Either a parent or sibling of `w[a]` is listed no later than `w[c]`, or the parent of
      `w[a]` is listed in between and is itself caught behind `w[c]`. */
  ghost predicate Caught(w: seq<Subvol>, c: nat, a: nat)
    requires c < a < |w|
    decreases a
  {
    || (exists b :: 0 <= b <= c && Kin(w[b], w[a]))
    || (exists g :: c < g < a && w[g].id == w[a].parentId && Caught(w, c, g))
  }

  /** No first-listed child has a later-listed parent that gets caught behind it. */
  ghost predicate Unobstructed(w: seq<Subvol>) {
    forall c, a | 0 <= c < a < |w| && w[a].id == w[c].parentId && FirstOfSiblings(w, c) :: !Caught(w, c, a)
  }

  /** A legal split of the input: top-level items apart from the rest, ids unique. */
  ghost predicate Split(tops: seq<Subvol>, w: seq<Subvol>) {
    && (forall x | x in tops :: x.TopLevel())
    && (forall x | x in w :: !x.TopLevel())
    && Distinct(tops + w)
  }

  lemma SplitPrefix(tops: seq<Subvol>, w: seq<Subvol>, n: nat)
    requires Split(tops, w) && n <= |w|
    ensures Split(tops, w[..n])
  {
    DistinctPrefix(tops, w, n);
  }

  /** Items of the sorted part that do not stand among the top-level ones come from the worklist. */
  lemma BehindTops(tops: seq<Subvol>, w: seq<Subvol>, i: nat) returns (b: nat)
    requires Split(tops, w)
    requires |tops| <= i < |AllInserted(tops, w)|
    ensures b < |w| && AllInserted(tops, w)[i] == w[b]
  {
    var s := AllInserted(tops, w);
    TopsStayFirst(tops, w);
    InsertionKeepsDistinct(tops, w);
    InsertionMembers(tops, w, s[i]);
    assert forall k | 0 <= k < |tops| :: s[..|tops|][k] == s[k] && s[k].id != s[i].id;
    b :| 0 <= b < |w| && w[b] == s[i];
  }

  /** Where a worklist item stands. */
  lemma PlaceOf(tops: seq<Subvol>, w: seq<Subvol>, b: nat) returns (i: nat)
    requires Split(tops, w) && b < |w|
    ensures |tops| <= i < |AllInserted(tops, w)| && AllInserted(tops, w)[i] == w[b]
  {
    var s := AllInserted(tops, w);
    TopsStayFirst(tops, w);
    InsertionMembers(tops, w, w[b]);
    i :| 0 <= i < |s| && s[i] == w[b];
    assert forall k | 0 <= k < |tops| :: s[..|tops|][k] == s[k] && tops[k] in tops;
    assert w[b] in w;
  }

  /** A first child whose parent is not placed yet moves right behind the top-level items. */
  lemma {:induction false} FirstChildLandsFirst(tops: seq<Subvol>, w: seq<Subvol>, c: nat, b: nat)
    requires Split(tops, w) && b < c < |w|
    requires FirstOfSiblings(w, c)
    requires forall x | x in tops + w[..c] :: x.id != w[c].parentId
    ensures Before(AllInserted(tops, w[..c + 1]), w[c], w[b])
  {
    var s := AllInserted(tops, w[..c]);
    SplitPrefix(tops, w, c);
    TopsStayFirst(tops, w[..c]);
    assert w[..c + 1][..c] == w[..c];
    var i := PlaceOf(tops, w[..c], b);
    forall j | i <= j < |s| ensures !Blocks(s[j], w[c]) {
      var d := BehindTops(tops, w[..c], j);
      assert w[d] in tops + w[..c] && w[d] in w;
    }
    InsertionOrder(s, w[c], w[b], i);
  }

  /** The insertion of `w[a]` puts it behind `w[c]` exactly when a parent or sibling
      of `w[a]` stands at `w[c]` or behind it. */
  lemma LandingRule(tops: seq<Subvol>, w: seq<Subvol>, c: nat, a: nat) returns (i: nat)
    requires Split(tops, w) && c < a < |w|
    ensures Split(tops, w[..a])
    ensures |tops| <= i < |AllInserted(tops, w[..a])| && AllInserted(tops, w[..a])[i] == w[c]
    ensures Before(AllInserted(tops, w[..a + 1]), w[c], w[a])
      <==> exists j :: i <= j < |AllInserted(tops, w[..a])| && Blocks(AllInserted(tops, w[..a])[j], w[a])
  {
    SplitPrefix(tops, w, a);
    SplitPrefix(tops, w, a + 1);
    InsertionKeepsDistinct(tops, w[..a + 1]);
    assert w[..a + 1][..a] == w[..a];
    i := PlaceOf(tops, w[..a], c);
    InsertionOrder(AllInserted(tops, w[..a]), w[a], w[c], i);
    BeforeIsStrict(AllInserted(tops, w[..a + 1]), w[c], w[a]);
  }

  lemma {:induction false} CaughtStaysBehind(tops: seq<Subvol>, w: seq<Subvol>, c: nat, a: nat)
    requires Split(tops, w) && c < a < |w|
    requires FirstOfSiblings(w, c)
    requires forall x | x in tops + w[..c] :: x.id != w[c].parentId
    requires Caught(w, c, a)
    ensures Before(AllInserted(tops, w[..a + 1]), w[c], w[a])
    decreases a
  {
    var i := LandingRule(tops, w, c, a);
    var b :| 0 <= b < a && Kin(w[b], w[a]) && (b <= c || Caught(w, c, b));
    if b < c {
      FirstChildLandsFirst(tops, w, c, b);
      StillBefore(tops, w, c + 1, a, w[c], w[b]);
    } else if b > c {
      CaughtStaysBehind(tops, w, c, b);
      StillBefore(tops, w, b + 1, a, w[c], w[b]);
    }
    var s := AllInserted(tops, w[..a]);
    var j := PlaceOf(tops, w[..a], b);
    InsertionKeepsDistinct(tops, w[..a]);
    if b != c {
      BehindMeansLater(s, i, j, w[c], w[b]);
    }
    assert Blocks(s[j], w[a]);
    assert i <= j by { assert b == c ==> s[i].id == s[j].id; }
  }

  lemma BehindMeansLater(s: seq<Subvol>, i: nat, j: nat, x: Subvol, y: Subvol)
    requires Distinct(s) && i < |s| && j < |s| && s[i] == x && s[j] == y
    requires Before(s, x, y)
    ensures i < j
  {
    var i', j' :| 0 <= i' < j' < |s| && s[i'] == x && s[j'] == y;
    assert s[i'].id == s[i].id && s[j'].id == s[j].id;
  }

  lemma {:induction false} BehindIsCaught(tops: seq<Subvol>, w: seq<Subvol>, c: nat, a: nat)
    requires Split(tops, w) && c < a < |w|
    requires Before(AllInserted(tops, w[..a + 1]), w[c], w[a])
    ensures Caught(w, c, a)
    decreases a
  {
    var i := LandingRule(tops, w, c, a);
    var s := AllInserted(tops, w[..a]);
    var j :| i <= j < |s| && Blocks(s[j], w[a]);
    var b := BehindTops(tops, w[..a], j);
    assert w[b] in w;
    if b > c {
      assert Before(s, w[c], w[b]) by {
        assert (tops + w)[|tops| + b].id != (tops + w)[|tops| + c].id;
      }
      EarlierOrder(tops, w, b, a, c);
      BehindIsCaught(tops, w, c, b);
      SiblingCaught(w, c, b, a);
    }
  }

  /** `Caught` looks at the moving item only through its parent id. */
  lemma SiblingCaught(w: seq<Subvol>, c: nat, b: nat, a: nat)
    requires c < b < a < |w|
    requires Caught(w, c, b) && Kin(w[b], w[a])
    ensures Caught(w, c, a)
  {
    if w[b].id != w[a].parentId {
      assert forall e | 0 <= e <= c :: Kin(w[e], w[b]) <==> Kin(w[e], w[a]);
    }
  }

  /** Two placed items keep their order. */
  lemma StillBefore(tops: seq<Subvol>, w: seq<Subvol>, m: nat, n: nat, x: Subvol, y: Subvol)
    requires m <= n <= |w|
    requires Before(AllInserted(tops, w[..m]), x, y)
    ensures Before(AllInserted(tops, w[..n]), x, y)
  {
    assert w[..n][..m] == w[..m];
    InsertionKeepsOrder(tops, w[..n], m, x, y);
  }

  /** The order of two items is settled as soon as both are placed. */
  lemma EarlierOrder(tops: seq<Subvol>, w: seq<Subvol>, b: nat, n: nat, c: nat)
    requires Split(tops, w) && c < b < n <= |w|
    requires Before(AllInserted(tops, w[..n]), w[c], w[b])
    ensures Before(AllInserted(tops, w[..b + 1]), w[c], w[b])
  {
    SplitPrefix(tops, w, b + 1);
    SplitPrefix(tops, w, n);
    InsertionKeepsDistinct(tops, w[..b + 1]);
    InsertionKeepsDistinct(tops, w[..n]);
    var s := AllInserted(tops, w[..b + 1]);
    var i := PlaceOf(tops, w[..b + 1], c);
    var j := PlaceOf(tops, w[..b + 1], b);
    if j < i {
      assert Before(s, w[b], w[c]);
      StillBefore(tops, w, b + 1, n, w[b], w[c]);
      BeforeIsStrict(AllInserted(tops, w[..n]), w[b], w[c]);
      assert false;
    }
    assert (tops + w)[|tops| + b].id != (tops + w)[|tops| + c].id;
  }

  // ---------------------------------------------------------------- main theorem

  /** A child inserted after its parent, or after its first sibling, ends up behind it. */
  lemma LaterKinLandsBehind(tops: seq<Subvol>, w: seq<Subvol>, b: nat, a: nat)
    requires Split(tops, w) && b < a < |w|
    requires Kin(w[b], w[a])
    ensures Before(AllInserted(tops, w), w[b], w[a])
  {
    var i := LandingRule(tops, w, b, a);
    assert Blocks(AllInserted(tops, w[..a])[i], w[a]);
    StillBefore(tops, w, a + 1, |w|, w[b], w[a]);
    assert w[..|w|] == w;
  }

  /** The first listed sibling of `w[x]`. */
  lemma {:induction false} FirstSibling(w: seq<Subvol>, x: nat) returns (c: nat)
    requires x < |w|
    ensures c <= x && w[c].parentId == w[x].parentId && FirstOfSiblings(w, c)
  {
    if FirstOfSiblings(w, x) {
      c := x;
    } else {
      var e :| 0 <= e < x && w[e].parentId == w[x].parentId;
      c := FirstSibling(w, e);
    }
  }

  /** The main volume itself is not listed behind one of its children. */
  ghost predicate MainVolumeFirst(tops: seq<Subvol>, w: seq<Subvol>) {
    tops != [] ==> forall j | 0 < j < |tops + w| :: (tops + w)[j].id != MAIN_VOLUME_ID
  }

  /** A parent that is not caught ends up before all its children. */
  lemma UncaughtParentPrecedes(tops: seq<Subvol>, w: seq<Subvol>, x: nat, a: nat)
    requires Split(tops, w) && x < |w| && a < |w| && x != a
    requires w[a].id == w[x].parentId
    requires Unobstructed(w)
    ensures Before(AllInserted(tops, w), w[a], w[x])
  {
    var r := AllInserted(tops, w);
    assert (tops + w)[|tops| + a].id != (tops + w)[|tops| + x].id;
    if a < x {
      LaterKinLandsBehind(tops, w, a, x);
    } else {
      var c := FirstSibling(w, x);
      if Before(AllInserted(tops, w[..a + 1]), w[c], w[a]) {
        BehindIsCaught(tops, w, c, a);
        assert false;
      }
      var p, q := OrderOncePlaced(tops, w, a, c);
      if c < x {
        LaterKinLandsBehind(tops, w, c, x);
        InsertionKeepsDistinct(tops, w);
        var i, j :| 0 <= i < j < |r| && r[i] == w[c] && r[j] == w[x];
        assert r[q].id == r[i].id;
        assert r[p] == w[a] && r[j] == w[x];
      }
    }
  }

  lemma OrderOncePlaced(tops: seq<Subvol>, w: seq<Subvol>, a: nat, c: nat) returns (p: nat, q: nat)
    requires Split(tops, w) && c < a < |w|
    requires !Before(AllInserted(tops, w[..a + 1]), w[c], w[a])
    ensures p < q < |AllInserted(tops, w)|
    ensures AllInserted(tops, w)[p] == w[a] && AllInserted(tops, w)[q] == w[c]
  {
    SplitPrefix(tops, w, a + 1);
    InsertionKeepsDistinct(tops, w[..a + 1]);
    var i := PlaceOf(tops, w[..a + 1], a);
    var j := PlaceOf(tops, w[..a + 1], c);
    assert (tops + w)[|tops| + a].id != (tops + w)[|tops| + c].id;
    assert Before(AllInserted(tops, w[..a + 1]), w[a], w[c]);
    StillBefore(tops, w, a + 1, |w|, w[a], w[c]);
    assert w[..|w|] == w;
    p, q :| 0 <= p < q < |AllInserted(tops, w)| && AllInserted(tops, w)[p] == w[a] && AllInserted(tops, w)[q] == w[c];
  }

  lemma UnobstructedSuffices(tops: seq<Subvol>, w: seq<Subvol>)
    requires Split(tops, w)
    requires Unobstructed(w) && MainVolumeFirst(tops, w)
    ensures ParentsPrecede(AllInserted(tops, w))
  {
    var r := AllInserted(tops, w);
    TopsStayFirst(tops, w);
    InsertionKeepsDistinct(tops, w);
    forall i, j | 0 <= i < j < |r| ensures r[i].parentId != r[j].id {
      if i < |tops| {
        TopsPrecedeMain(tops, w, i, j);
      } else {
        var x := BehindTops(tops, w, i);
        var a := BehindTops(tops, w, j);
        if w[a].id == w[x].parentId {
          UncaughtParentPrecedes(tops, w, x, a);
          BehindMeansLater(r, j, i, w[a], w[x]);
          assert false;
        }
      }
    }
  }

  lemma TopsPrecedeMain(tops: seq<Subvol>, w: seq<Subvol>, i: nat, j: nat)
    requires Split(tops, w) && MainVolumeFirst(tops, w)
    requires i < |tops| && i < j < |AllInserted(tops, w)|
    ensures AllInserted(tops, w)[i].parentId != AllInserted(tops, w)[j].id
  {
    var r := AllInserted(tops, w);
    TopsStayFirst(tops, w);
    assert r[i] == r[..|tops|][i] && tops[i] in tops;
    if j < |tops| {
      assert r[j] == r[..|tops|][j] == (tops + w)[j];
    } else {
      var b := BehindTops(tops, w, j);
      assert r[j] == (tops + w)[|tops| + b];
    }
  }

  lemma ObstructionBreaksOrder(tops: seq<Subvol>, w: seq<Subvol>, c: nat, a: nat)
    requires Split(tops, w) && c < a < |w|
    requires w[a].id == w[c].parentId && FirstOfSiblings(w, c) && Caught(w, c, a)
    ensures !ParentsPrecede(AllInserted(tops, w))
  {
    forall x | x in tops + w[..c] ensures x.id != w[c].parentId {
      var k :| 0 <= k < |tops + w[..c]| && (tops + w[..c])[k] == x;
      assert (tops + w)[k] == x && (tops + w)[|tops| + a] == w[a];
    }
    CaughtStaysBehind(tops, w, c, a);
    StillBefore(tops, w, a + 1, |w|, w[c], w[a]);
    assert w[..|w|] == w;
  }

  lemma UnobstructedIsNeeded(tops: seq<Subvol>, w: seq<Subvol>)
    requires Split(tops, w)
    requires ParentsPrecede(AllInserted(tops, w))
    ensures Unobstructed(w) && MainVolumeFirst(tops, w)
  {
    forall c, a | 0 <= c < a < |w| && w[a].id == w[c].parentId && FirstOfSiblings(w, c)
      ensures !Caught(w, c, a)
    {
      if Caught(w, c, a) {
        ObstructionBreaksOrder(tops, w, c, a);
      }
    }
    var r := AllInserted(tops, w);
    TopsStayFirst(tops, w);
    forall j | tops != [] && 0 < j < |tops + w| ensures (tops + w)[j].id != MAIN_VOLUME_ID {
      assert r[0] == r[..|tops|][0] && tops[0] in tops;
      if j < |tops| {
        assert r[j] == r[..|tops|][j] == (tops + w)[j];
      } else {
        var k := PlaceOf(tops, w, j - |tops|);
        assert r[k] == (tops + w)[j];
      }
    }
  }

  lemma {:induction false} DistinctOnce(s: seq<Subvol>, x: Subvol)
    requires Distinct(s)
    ensures multiset(s)[x] <= 1
  {
    if s != [] {
      DistinctOnce(s[..|s| - 1], x);
      SnocContents(s);
      if x == s[|s| - 1] {
        assert x !in s[..|s| - 1];
      }
    }
  }

  lemma TwiceCounts(s: seq<Subvol>, i: nat, j: nat)
    requires i < j < |s| && s[i] == s[j]
    ensures multiset(s)[s[i]] >= 2
  {
    assert s == s[..j] + s[j..];
    assert s[i] in s[..j] && s[j] in s[j..];
    assert multiset(s) == multiset(s[..j]) + multiset(s[j..]);
  }

  lemma DistinctPermuted(s: seq<Subvol>, t: seq<Subvol>)
    requires Distinct(s) && multiset(s) == multiset(t)
    ensures Distinct(t)
  {
    forall i, j | 0 <= i < j < |t| ensures t[i].id != t[j].id {
      if t[i] == t[j] {
        DistinctOnce(s, t[i]);
        TwiceCounts(t, i, j);
        assert false;
      }
      assert t[i] in multiset(t) && t[j] in multiset(t);
      assert t[i] in s && t[j] in s;
    }
  }

  /** The promise of the listing, for every input with unique ids: no child precedes its
      parent if and only if the worklist is unobstructed (and the main volume, should it
      be listed at all, is not listed behind its children). */
  lemma OrderIsExact(items: seq<Subvol>)
    requires Distinct(items)
    ensures ParentsPrecede(Ordered(items))
      <==> Unobstructed(Worklist(items)) && MainVolumeFirst(Tops(items), Worklist(items))
  {
    var tops, w := Tops(items), Worklist(items);
    WorklistContents(items);
    assert multiset(tops + w) == multiset(items);
    DistinctPermuted(items, tops + w);
    if Unobstructed(w) && MainVolumeFirst(tops, w) {
      UnobstructedSuffices(tops, w);
    }
    if ParentsPrecede(Ordered(items)) {
      UnobstructedIsNeeded(tops, w);
    }
  }

  /** A worklist that lists every parent before its children is always good enough. */
  lemma ParentsFirstSuffices(items: seq<Subvol>)
    requires Distinct(items) && ParentsPrecede(Worklist(items))
    requires forall x | x in items :: x.id != MAIN_VOLUME_ID
    ensures ParentsPrecede(Ordered(items))
  {
    WorklistContents(items);
    forall x | x in Tops(items) + Worklist(items) ensures x in items {
      assert x in multiset(items);
    }
    OrderIsExact(items);
  }

  const SCRAMBLED: seq<Subvol> :=
    [Subvol(1, 256, 5), Subvol(2, 257, 256), Subvol(3, 258, 5),
     Subvol(4, 259, 256), Subvol(5, 260, 259), Subvol(6, 261, 258)]

  /** A listing that names every parent before its children and still comes out wrong:
      swap-removal puts 260 before its parent 259 and behind its uncle 257. */
  lemma OrderCanFail()
    ensures Distinct(SCRAMBLED) && ParentsPrecede(SCRAMBLED)
    ensures !ParentsPrecede(Ordered(SCRAMBLED))
  {
    ScrambledWorklist();
    var w := Worklist(SCRAMBLED);
    assert Kin(w[1], w[3]);
    assert Caught(w, 2, 3) && FirstOfSiblings(w, 2);
    OrderIsExact(SCRAMBLED);
  }

  lemma ScrambledTops()
    ensures Tops(SCRAMBLED) == [SCRAMBLED[0], SCRAMBLED[2]]
  {
    var v := SCRAMBLED;
    assert v[..2][..1] == v[..1] && v[..3][..2] == v[..2] && v[..4][..3] == v[..3] && v[..5][..4] == v[..4];
    assert Tops(v[..1]) == [v[0]];
    assert Tops(v[..3]) == [v[0], v[2]];
    assert Tops(v[..5]) == [v[0], v[2]];
  }

  lemma ScrambledWorklist()
    ensures Worklist(SCRAMBLED) == [SCRAMBLED[5], SCRAMBLED[1], SCRAMBLED[4], SCRAMBLED[3]]
  {
    ScrambledTops();
    var v := SCRAMBLED;
    var u := SwapRemoved(v, v[0]);
    assert u == [v[5], v[1], v[2], v[3], v[4]] by { assert IndexOf(v, v[0]) == 0; }
    assert IndexOf(u, v[2]) == 2;
    assert SwapRemoved(u, v[2]) == [v[5], v[1], v[4], v[3]];
    var t := [v[0], v[2]];
    assert t[..1] == [v[0]] && t[..1][..0] == [];
    assert AllSwapRemoved(v, []) == v;
    assert AllSwapRemoved(v, t[..1]) == u;
  }
}
