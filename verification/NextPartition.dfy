/** "Give me the next partition" on a DOS (MBR) table: primary, logical, or a new extended
    partition together with its first logical one.

    The partition library is an arbitrary environment: it may accept or reject every addition
    and choose the placement.  All that is asked of it is that it adds what was requested
    and respects the four records of the table (section 5.2.1, Legacy MBR, of the UEFI
    Specification). */
module NextPartition {
  import opened Wrappers

  datatype Part = Part(start: nat, size: nat, hasRange: bool, container: bool, nested: bool, free: bool) {
    predicate Covers(pos: nat) { hasRange && start <= pos < start + size }
  }

  datatype Decision = AskNormal | AskLogical | AskExtendedAndLogical | RefuseInside

  // ---------------------------------------------------------------- the decision

  /** The first partition that covers `start`, if any. */
  ghost predicate FirstCovering(table: seq<Part>, start: nat, k: int) {
    && -1 <= k < |table|
    && (k >= 0 ==> !table[k].free && table[k].Covers(start))
    && (forall i | 0 <= i < (if k < 0 then |table| else k) :: !table[i].free ==> !table[i].Covers(start))
  }

  ghost predicate FirstContainer(table: seq<Part>, k: int) {
    && -1 <= k < |table|
    && (k >= 0 ==> !table[k].free && table[k].container)
    && (forall i | 0 <= i < (if k < 0 then |table| else k) :: !table[i].free ==> !table[i].container)
  }

  function Count(table: seq<Part>): nat {
    if table == [] then 0 else Count(table[..|table| - 1]) + (if table[|table| - 1].free then 0 else 1)
  }

  /** The scan of the table and the choice that follows. */
  method Decide(table: seq<Part>, start: nat) returns (d: Decision)
    ensures Decided(table, start, d)
  {
    var inPa, ext := -1, -1;
    var n := 0;
    var i := 0;
    while i < |table|
      invariant 0 <= i <= |table|
      invariant FirstCovering(table[..i], start, inPa) && FirstContainer(table[..i], ext)
      invariant n == Count(table[..i])
    {
      assert table[..i + 1][..i] == table[..i];
      var pa := table[i];
      i := i + 1;
      if pa.free {
        continue;
      }
      if ext < 0 && pa.container {
        ext := i - 1;
      }
      if inPa < 0 && pa.Covers(start) {
        inPa := i - 1;
      }
      n := n + 1;
    }
    assert table[..i] == table;
    if inPa >= 0 {
      d := if ext == inPa then AskLogical else RefuseInside;
    } else if ext >= 0 {
      d := AskNormal;
    } else if n == 3 {
      d := AskExtendedAndLogical;
    } else {
      d := AskNormal;
    }
  }

  /** The decision as a function of the table. */
  ghost predicate Decided(table: seq<Part>, start: nat, d: Decision) {
    exists inside, epa ::
      && FirstCovering(table, start, inside) && FirstContainer(table, epa)
      && d == Choice(inside, epa, Count(table))
  }

  function Choice(inside: int, epa: int, parts: nat): Decision {
    if inside >= 0 then (if inside == epa then AskLogical else RefuseInside)
    else if epa < 0 && parts == 3 then AskExtendedAndLogical else AskNormal
  }

  /** There is only one decision to take. */
  lemma DecisionIsUnique(table: seq<Part>, start: nat, d: Decision, d': Decision)
    requires Decided(table, start, d) && Decided(table, start, d')
    ensures d == d'
  {
    var i, e :| FirstCovering(table, start, i) && FirstContainer(table, e)
      && d == Choice(i, e, Count(table));
    var i', e' :| FirstCovering(table, start, i') && FirstContainer(table, e')
      && d' == Choice(i', e', Count(table));
  }

  /** Some partition covers the start. */
  ghost predicate Covered(table: seq<Part>, start: nat) {
    exists k :: 0 <= k < |table| && !table[k].free && table[k].Covers(start)
  }

  /** The entry at `k` is extended and covers the start, and no partition before it is either. */
  ghost predicate ExtendedAt(table: seq<Part>, start: nat, k: nat)
    requires k < |table|
  {
    && !table[k].free && table[k].Covers(start) && table[k].container
    && (forall i | 0 <= i < k && !table[i].free :: !table[i].Covers(start) && !table[i].container)
  }

  /** The first partition that covers the start is an extended one, the first of its kind. */
  ghost predicate InFirstExtended(table: seq<Part>, start: nat) {
    exists k :: 0 <= k < |table| && ExtendedAt(table, start, k)
  }

  ghost predicate SomeExtended(table: seq<Part>) {
    exists k :: 0 <= k < |table| && !table[k].free && table[k].container
  }

  /** The entries that are partitions. */
  ghost function Used(table: seq<Part>): set<int> {
    set k | 0 <= k < |table| && !table[k].free
  }

  /** Each decision in terms of the table alone. */
  lemma DecisionMeans(table: seq<Part>, start: nat, d: Decision)
    requires Decided(table, start, d)
    ensures d.AskLogical? <==> InFirstExtended(table, start)
    ensures d.RefuseInside? <==> Covered(table, start) && !InFirstExtended(table, start)
    ensures d.AskExtendedAndLogical? <==> !Covered(table, start) && !SomeExtended(table) && |Used(table)| == 3
    ensures d.AskNormal? <==> !Covered(table, start) && (|Used(table)| == 3 ==> SomeExtended(table))
  {
    CountIsNumber(table);
    DecisionCases(table, start, d);
  }

  lemma DecisionCases(table: seq<Part>, start: nat, d: Decision)
    requires Decided(table, start, d)
    ensures d.AskLogical? <==> InFirstExtended(table, start)
  {
    var inside, epa :| FirstCovering(table, start, inside) && FirstContainer(table, epa) && d == Choice(inside, epa, Count(table));
    if InFirstExtended(table, start) {
      var k :| 0 <= k < |table| && ExtendedAt(table, start, k);
      assert inside == k && epa == k;
    } else if d.AskLogical? {
      assert ExtendedAt(table, start, inside);
    }
  }

  /** The count is the number of entries that are not free. */
  lemma {:induction false} CountIsNumber(table: seq<Part>)
    ensures Count(table) == |Used(table)|
  {
    if table == [] {
      assert Used(table) == {};
    } else {
      var n := |table| - 1;
      CountIsNumber(table[..n]);
      UsedSnoc(table, n);
    }
  }

  lemma UsedSnoc(table: seq<Part>, n: nat)
    requires |table| == n + 1
    ensures |Used(table)| == |Used(table[..n])| + (if table[n].free then 0 else 1)
  {
    assert Used(table) == if table[n].free then Used(table[..n]) else Used(table[..n]) + {n};
  }

  // ---------------------------------------------------------------- one request

  /** How the library and the disk answer one request: what is added for the extended and for
      the requested partition (None for a rejection), whether the label was written, and
      whether the kernel took note of it. */
  datatype Answers = Answers(extended: Option<Part>, requested: Option<Part>, written: bool, reread: bool)

  /** The table on disk after a request with decision `d`. */
  function Disk(table: seq<Part>, d: Decision, a: Answers): seq<Part> {
    match d
    case RefuseInside => table
    case AskExtendedAndLogical =>
      if a.extended.Some? && a.requested.Some? && a.written
      then table + [a.extended.value, a.requested.value] else table
    case _ =>
      if a.requested.Some? && a.written then table + [a.requested.value] else table
  }

  /** The library accepted all that was asked of it, and the label was written. */
  predicate Accepted(d: Decision, a: Answers) {
    !d.RefuseInside? && a.written && a.requested.Some? && (d.AskExtendedAndLogical? ==> a.extended.Some?)
  }

  /** What was accepted and written is on the disk, the requested partition last, behind the
      extended one if that was asked for as well; otherwise nothing changes. */
  lemma DiskMeans(table: seq<Part>, d: Decision, a: Answers)
    ensures !Accepted(d, a) ==> Disk(table, d, a) == table
    ensures Accepted(d, a) ==>
      var disk, n := Disk(table, d, a), |table|;
      && |disk| == (if d.AskExtendedAndLogical? then n + 2 else n + 1) && disk[..n] == table
      && disk[|disk| - 1] == a.requested.value
      && (d.AskExtendedAndLogical? ==> disk[n] == a.extended.value)
  {
  }

  /** The creation path: the in-memory table is changed first and written as a whole, or dropped. */
  method CreateNext(table: seq<Part>, start: nat, a: Answers) returns (disk: seq<Part>, ok: bool, ghost d: Decision)
    ensures Decided(table, start, d)
    ensures disk == Disk(table, d, a)
    ensures ok <==> disk != table && a.reread
  {
    var dec := Decide(table, start);
    d := dec;
    var memory := table;
    if dec.RefuseInside? {
      return table, false, d;
    }
    if dec.AskExtendedAndLogical? {
      if a.extended.None? {
        return table, false, d;
      }
      memory := memory + [a.extended.value];
    }
    if a.requested.None? {
      return table, false, d;
    }
    memory := memory + [a.requested.value];
    if !a.written {
      return table, false, d;
    }
    disk, ok := memory, a.reread;
    if dec.AskExtendedAndLogical? {
      assert memory == table + [a.extended.value, a.requested.value];
    }
  }

  // ---------------------------------------------------------------- runs

  function Number(table: seq<Part>, p: Part -> bool): nat {
    if table == [] then 0 else Number(table[..|table| - 1], p) + (if p(table[|table| - 1]) then 1 else 0)
  }

  const IS_CONTAINER: Part -> bool := (p: Part) => p.container
  const IS_RECORD: Part -> bool := (p: Part) => !p.nested

  /** What is asked of the library: it adds the requested kind of partition, and has room for
      at most four primary and extended ones. */
  ghost predicate Lawful(table: seq<Part>, d: Decision, a: Answers) {
    && (a.extended.Some? ==> a.extended.value.container && !a.extended.value.nested && !a.extended.value.free)
    && (a.requested.Some? ==>
          var p := a.requested.value;
          !p.container && !p.free && (p.nested <==> d.AskLogical? || d.AskExtendedAndLogical?))
    && (d.AskNormal? && a.requested.Some? ==> Number(table, IS_RECORD) < 4)
  }

  datatype Request = Request(start: nat, decision: Decision, answers: Answers)

  /** The tables on disk in the course of a run of requests. */
  ghost predicate Run(tables: seq<seq<Part>>, reqs: seq<Request>) {
    && |tables| == |reqs| + 1 && tables[0] == []
    && forall i | 0 <= i < |reqs| ::
         && Decided(tables[i], reqs[i].start, reqs[i].decision)
         && Lawful(tables[i], reqs[i].decision, reqs[i].answers)
         && tables[i + 1] == Disk(tables[i], reqs[i].decision, reqs[i].answers)
  }

  ghost predicate Inv(table: seq<Part>) {
    && (forall i | 0 <= i < |table| :: !table[i].free)
    && Number(table, IS_CONTAINER) <= 1
    && Number(table, IS_RECORD) <= 4
    && (Number(table, IS_CONTAINER) == 0 ==> |table| <= 3 && Number(table, IS_RECORD) == |table|)
  }

  ghost function Where(table: seq<Part>, p: Part -> bool): set<int> {
    set k | 0 <= k < |table| && p(table[k])
  }

  lemma WhereSnoc(table: seq<Part>, p: Part -> bool, n: nat)
    requires |table| == n + 1
    ensures |Where(table, p)| == |Where(table[..n], p)| + (if p(table[n]) then 1 else 0)
  {
    assert Where(table, p) == if p(table[n]) then Where(table[..n], p) + {n} else Where(table[..n], p);
  }

  /** It is a number of entries. */
  lemma {:induction false} NumberIs(table: seq<Part>, p: Part -> bool)
    ensures Number(table, p) == |Where(table, p)|
  {
    if table == [] {
      assert Where(table, p) == {};
    } else {
      var n := |table| - 1;
      NumberIs(table[..n], p);
      WhereSnoc(table, p, n);
    }
  }

  ghost function Records(table: seq<Part>): set<int> {
    set k | 0 <= k < |table| && !table[k].nested
  }

  /** What the invariant says about the entries: never two extended partitions, no logical one
      without an extended one, and at most four records. */
  lemma InvMeans(table: seq<Part>)
    requires Inv(table)
    ensures forall i, j | 0 <= i < j < |table| :: !table[i].container || !table[j].container
    ensures (exists i :: 0 <= i < |table| && table[i].nested) ==> exists i :: 0 <= i < |table| && table[i].container
    ensures |Records(table)| <= 4
  {
    NumberIs(table, IS_CONTAINER);
    NumberIs(table, IS_RECORD);
    var extended, records := Where(table, IS_CONTAINER), Where(table, IS_RECORD);
    assert records == Records(table);
    forall i, j | 0 <= i < j < |table| ensures !table[i].container || !table[j].container {
      if table[i].container && table[j].container {
        TwoMembers(extended, i, j);
      }
    }
    if i :| 0 <= i < |table| && table[i].nested {
      if extended == {} {
        AllButOne(|table|, i, records);
        assert false;
      }
      var k :| k in extended;
      assert table[k].container;
    }
  }

  lemma TwoMembers(s: set<int>, i: int, j: int)
    requires i in s && j in s && i != j
    ensures |s| >= 2
  {
    var rest := s - {i};
    assert s == rest + {i} && j in rest;
  }

  lemma AllButOne(n: nat, i: nat, some: set<int>)
    requires i < n && i !in some && forall k | k in some :: 0 <= k < n
    ensures |some| < n
  {
    BoundedSet(n, some + {i});
  }

  lemma {:induction false} BoundedSet(n: nat, s: set<int>)
    requires forall k | k in s :: 0 <= k < n
    ensures |s| <= n
  {
    if n > 0 {
      var last := n - 1;
      BoundedSet(last, s - {last});
    } else {
      assert forall k :: k !in s;
      assert |s| == 0;
    }
  }

  lemma NumberSnoc(table: seq<Part>, p: Part, q: Part -> bool)
    ensures Number(table + [p], q) == Number(table, q) + (if q(p) then 1 else 0)
  {
    assert (table + [p])[..|table|] == table;
  }

  lemma {:induction false} CountAll(table: seq<Part>)
    requires forall i | 0 <= i < |table| :: !table[i].free
    ensures Count(table) == |table|
  {
    if table != [] { CountAll(table[..|table| - 1]); }
  }

  lemma {:induction false} NoContainers(table: seq<Part>)
    ensures Number(table, IS_CONTAINER) == 0 <==> forall i | 0 <= i < |table| :: !table[i].container
  {
    if table != [] {
      var n := |table| - 1;
      NoContainers(table[..n]);
      assert table == table[..n] + [table[n]];
    }
  }

  /** One request keeps the table in order, and adds an extended partition only together with
      its first logical one, where there were three primaries and none before. */
  lemma RequestKeepsInv(table: seq<Part>, r: Request)
    requires Inv(table) && Decided(table, r.start, r.decision) && Lawful(table, r.decision, r.answers)
    ensures var disk := Disk(table, r.decision, r.answers);
      && Inv(disk) && table <= disk
      && (Number(disk, IS_CONTAINER) != Number(table, IS_CONTAINER) <==> r.decision.AskExtendedAndLogical? && disk != table)
      && (r.decision.AskExtendedAndLogical? ==>
            && Number(table, IS_CONTAINER) == 0 && Number(table, IS_RECORD) == |table| == 3
            && (disk == table || (|disk| == 5 && disk[3].container && disk[4].nested)))
  {
    var d, a := r.decision, r.answers;
    FacesOf(table, r.start, d);
    if Disk(table, d, a) != table {
      if d.AskExtendedAndLogical? {
        PairKeepsInv(table, a.extended.value, a.requested.value);
      } else {
        OneKeepsInv(table, a.requested.value);
      }
    }
  }

  /** What a decision says about the numbers of a table. */
  lemma FacesOf(table: seq<Part>, start: nat, d: Decision)
    requires Inv(table) && Decided(table, start, d)
    ensures d.AskExtendedAndLogical? ==> Number(table, IS_CONTAINER) == 0 && |table| == 3
    ensures d.AskNormal? && Number(table, IS_CONTAINER) == 0 ==> |table| < 3
    ensures d.AskLogical? ==> Number(table, IS_CONTAINER) > 0
  {
    DecisionMeans(table, start, d);
    CountAll(table);
    NoContainers(table);
  }

  lemma PairKeepsInv(table: seq<Part>, e: Part, l: Part)
    requires Inv(table) && Number(table, IS_CONTAINER) == 0 && |table| == 3
    requires e.container && !e.nested && !e.free && !l.container && l.nested && !l.free
    ensures Inv(table + [e, l]) && Number(table + [e, l], IS_CONTAINER) == 1
  {
    assert table + [e, l] == (table + [e]) + [l];
    NumberSnoc(table, e, IS_CONTAINER);
    NumberSnoc(table + [e], l, IS_CONTAINER);
    NumberSnoc(table, e, IS_RECORD);
    NumberSnoc(table + [e], l, IS_RECORD);
  }

  lemma OneKeepsInv(table: seq<Part>, p: Part)
    requires Inv(table) && !p.container && !p.free
    requires !p.nested ==> Number(table, IS_RECORD) < 4
    requires Number(table, IS_CONTAINER) == 0 ==> !p.nested && |table| < 3
    ensures Inv(table + [p]) && Number(table + [p], IS_CONTAINER) == Number(table, IS_CONTAINER)
  {
    NumberSnoc(table, p, IS_CONTAINER);
    NumberSnoc(table, p, IS_RECORD);
  }

  /** In every run of requests from an empty table there is at most one extended partition at
      any time, at most four records, no logical partition without an extended one, and
      written partitions stay. */
  lemma {:induction false} RunsKeepInv(tables: seq<seq<Part>>, reqs: seq<Request>, i: nat)
    requires Run(tables, reqs) && i < |tables|
    ensures Inv(tables[i])
    ensures i > 0 ==> tables[i - 1] <= tables[i]
  {
    if i > 0 {
      RunsKeepInv(tables, reqs, i - 1);
      RequestKeepsInv(tables[i - 1], reqs[i - 1]);
    }
  }
}
