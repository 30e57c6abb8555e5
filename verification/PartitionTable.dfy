/** Partitions, free spaces and the metadata entries that fill the gaps between them, and
    the lookup of the region at a given position. */
module PartitionTable {
  import opened Sequences
  import opened Wrappers

  const TWO64: int := 0x1_0000_0000_0000_0000

  type U64 = x: int | 0 <= x < TWO64

  /** 64-bit unsigned arithmetic. */
  function Wrap64(x: int): (y: U64)
    ensures 0 <= x < TWO64 ==> y == x
  {
    x % TWO64
  }

  /** The flags of a partition type; none set is a normal partition. */
  datatype PartType = PartType(logical: bool, extended: bool, freespace: bool, metadata: bool)

  const NORMAL := PartType(false, false, false, false)
  const EXTENDED := PartType(false, true, false, false)

  datatype Spec = Spec(start: U64, size: U64, ty: PartType) {
    /** The end as the code computes it, in 64 bits. */
    function End64(): U64 { Wrap64(start + size) }

    function End(): nat { start + size }

    predicate Container() { ty == EXTENDED }

    predicate Covers(pos: int) { start <= pos < End() }
  }

  // ---------------------------------------------------------------- filling the gaps

  /** The metadata entry between two neighbours, if there is room for one. */
  function Gap(prev: Spec, spec: Spec): seq<Spec> {
    if spec.start > prev.End64() || (prev.Container() && spec.start > prev.start) then
      if prev.Container() then
        [Spec(prev.start, Wrap64(spec.start - prev.start), PartType(true, false, false, true))]
      else
        [Spec(prev.End64(), Wrap64(spec.start - prev.End64()), PartType(spec.ty.logical, false, false, true))]
    else []
  }

  function Filled(specs: seq<Spec>): seq<Spec> {
    if specs == [] then [] else
      var n := |specs| - 1;
      Filled(specs[..n]) + (if n > 0 then Gap(specs[n - 1], specs[n]) else []) + [specs[n]]
  }

  /** The loop of get_disk_parts over the sorted table, with metadata entries. */
  method GetDiskParts(table: seq<Spec>) returns (parts: seq<Spec>)
    ensures parts == Filled(table)
  {
    parts := [];
    var prev := None;
    for i := 0 to |table|
      invariant prev == if i == 0 then None else Some(table[i - 1])
      invariant parts == Filled(table[..i])
    {
      assert table[..i + 1][..i] == table[..i];
      parts := AddEntry(parts, prev, table[i]);
      prev := Some(table[i]);
    }
    assert table[..|table|] == table;
  }

  /** One round of the loop: the metadata entry, if there is room for one, and the entry itself. */
  method AddEntry(before: seq<Spec>, prev: Option<Spec>, spec: Spec) returns (parts: seq<Spec>)
    ensures parts == before + (if prev.Some? then Gap(prev.value, spec) else []) + [spec]
  {
    parts := before;
    if prev.Some? {
      var p := prev.value;
      if spec.start > p.End64() || (p.ty == EXTENDED && spec.start > p.start) {
        var meta: Spec;
        if p.ty == EXTENDED {
          meta := Spec(p.start, Wrap64(spec.start - p.start), PartType(true, false, false, true));
        } else {
          var start := p.End64();
          meta := Spec(start, Wrap64(spec.start - start), PartType(spec.ty.logical, false, false, true));
        }
        parts := parts + [meta];
      }
    }
    parts := parts + [spec];
  }

  // ---------------------------------------------------------------- the table is still there

  /** Which entries are not metadata. */
  ghost function Regular(parts: seq<Spec>): seq<bool> {
    seq(|parts|, i requires 0 <= i < |parts| => !parts[i].ty.metadata)
  }

  ghost predicate NoMetadata(specs: seq<Spec>) {
    forall i | 0 <= i < |specs| :: !specs[i].ty.metadata
  }

  /** Leaving out the metadata entries gives the table back, unchanged and in order. */
  lemma {:induction false} TableRemains(specs: seq<Spec>) returns (ks: seq<nat>)
    requires NoMetadata(specs)
    ensures Marks(ks, Regular(Filled(specs))) && Picked(Filled(specs), ks) == specs
  {
    if specs == [] {
      ks := [];
    } else {
      var n := |specs| - 1;
      var before := TableRemains(specs[..n]);
      var gap := FilledStep(specs);
      ks := EntryAdded(Filled(specs[..n]), before, gap, specs[n]);
      assert specs == specs[..n] + [specs[n]];
    }
  }

  lemma FilledStep(specs: seq<Spec>) returns (gap: seq<Spec>)
    requires specs != []
    ensures var n := |specs| - 1; Filled(specs) == Filled(specs[..n]) + gap + [specs[n]]
    ensures |gap| <= 1 && forall m | m in gap :: m.ty.metadata
  {
    var n := |specs| - 1;
    gap := if n > 0 then Gap(specs[n - 1], specs[n]) else [];
  }

  lemma EntryAdded(parts: seq<Spec>, ks: seq<nat>, gap: seq<Spec>, e: Spec) returns (more: seq<nat>)
    requires Marks(ks, Regular(parts)) && !e.ty.metadata
    requires |gap| <= 1 && forall m | m in gap :: m.ty.metadata
    ensures Marks(more, Regular(parts + gap + [e])) && Picked(parts + gap + [e], more) == Picked(parts, ks) + [e]
  {
    assert Regular(parts + gap + [e]) == Regular(parts + gap) + [true];
    MarksSnoc(ks, Regular(parts + gap), true);
    PickedSnoc(parts + gap, ks, e);
    more := ks + [|parts + gap|];
  }

  // ---------------------------------------------------------------- sound tables

  /** No entry reaches beyond 64 bits. */
  predicate Bounded(specs: seq<Spec>) {
    forall i | 0 <= i < |specs| :: specs[i].End() < TWO64
  }

  /** Sorted by start; entries other than extended partitions do not overlap, and those
      listed before an extended partition end by its start. */
  predicate Sound(specs: seq<Spec>) {
    && Bounded(specs)
    && (forall i, j | 0 <= i < j < |specs| :: specs[i].start <= specs[j].start)
    && (forall i, j | 0 <= i < j < |specs| && !specs[i].Container() :: specs[i].End() <= specs[j].start)
  }

  /** Where the next entry may start: the contents of an extended partition start inside it. */
  function Frontier(e: Spec): nat { if e.Container() then e.start else e.End() }

  /** The entries other than extended partitions cover `lo..hi` without gap or overlap. */
  ghost predicate Tiles(parts: seq<Spec>, lo: int, hi: int) {
    if parts == [] then lo == hi else
      var n := |parts| - 1;
      if parts[n].Container() then Tiles(parts[..n], lo, hi)
      else parts[n].End() == hi && Tiles(parts[..n], lo, parts[n].start)
  }

  /** The gap entry reaches exactly from the frontier to the next start. */
  lemma GapIs(prev: Spec, spec: Spec)
    requires prev.End() < TWO64 && Frontier(prev) <= spec.start
    ensures Gap(prev, spec) == [] ==> Frontier(prev) == spec.start
    ensures Gap(prev, spec) != [] ==>
      var meta := Gap(prev, spec)[0];
      Gap(prev, spec) == [meta] && meta.start == Frontier(prev) && meta.End() == spec.start && !meta.Container()
    // a metadata entry is logical inside an extended partition and in front of a logical one
    ensures forall meta | meta in Gap(prev, spec) ::
      meta.ty == PartType(prev.Container() || spec.ty.logical, false, false, true)
  {
  }

  lemma GapFills(parts: seq<Spec>, prev: Spec, spec: Spec, lo: int)
    requires Tiles(parts, lo, Frontier(prev))
    requires prev.End() < TWO64 && Frontier(prev) <= spec.start
    ensures Tiles(parts + Gap(prev, spec), lo, spec.start)
  {
    GapIs(prev, spec);
    if Gap(prev, spec) == [] {
      assert parts + Gap(prev, spec) == parts;
    }
  }

  /** With the metadata entries, the listed regions tile the range from the first start to
      the frontier of the last entry. */
  lemma {:induction false} FilledTiles(specs: seq<Spec>)
    requires Sound(specs) && specs != []
    ensures Tiles(Filled(specs), specs[0].start, Frontier(specs[|specs| - 1]))
  {
    var n := |specs| - 1;
    var lo, spec := specs[0].start, specs[n];
    if n == 0 {
      assert specs[..0] == [] && Filled(specs[..0]) == [];
      assert Filled(specs) == [] + [] + [spec];
      assert [] + [spec] == Filled(specs);
    } else {
      var init := specs[..n];
      assert Sound(init) && init[0] == specs[0] && init[|init| - 1] == specs[n - 1];
      FilledTiles(init);
      GapFills(Filled(init), specs[n - 1], spec, lo);
    }
  }

  // ---------------------------------------------------------------- lookup by position

  /** bd_part_get_part_by_pos on the listed entries. */
  method PartByPos(parts: seq<Spec>, pos: U64) returns (ret: Option<nat>)
    ensures ret.Some? ==> ret.value < |parts|
    ensures ret.Some? ==> Hit(parts[ret.value], pos) && forall j | 0 <= j < ret.value :: !Hit(parts[j], pos)
    ensures ret.Some? <==> Found(parts, pos)
  {
    for i := 0 to |parts|
      invariant forall j | 0 <= j < i :: !Hit(parts[j], pos)
    {
      if parts[i].start <= pos && parts[i].End64() > pos {
        if parts[i].ty == EXTENDED {
          continue;
        }
        return Some(i);
      }
    }
    return None;
  }

  predicate Hit(e: Spec, pos: U64) {
    !e.Container() && e.start <= pos < e.End64()
  }

  ghost predicate Found(parts: seq<Spec>, pos: U64) {
    exists i :: 0 <= i < |parts| && Hit(parts[i], pos)
  }

  /** In a tiling every region lies in the range and no two regions overlap. */
  lemma {:induction false} TilesApart(parts: seq<Spec>, lo: int, hi: int, i: nat)
    requires Tiles(parts, lo, hi) && i < |parts| && !parts[i].Container()
    ensures lo <= parts[i].start && parts[i].End() <= hi
    ensures forall j | i < j < |parts| && !parts[j].Container() :: parts[i].End() <= parts[j].start
  {
    var n := |parts| - 1;
    var init := parts[..n];
    if i < n {
      TilesApart(init, lo, if parts[n].Container() then hi else parts[n].start, i);
      forall j | i < j < |parts| && !parts[j].Container() ensures parts[i].End() <= parts[j].start {
        if j < n { assert init[j] == parts[j]; }
      }
    } else {
      TilesRange(init, lo, parts[n].start);
    }
  }

  lemma {:induction false} TilesRange(parts: seq<Spec>, lo: int, hi: int)
    requires Tiles(parts, lo, hi)
    ensures lo <= hi
  {
    if parts != [] {
      var n := |parts| - 1;
      TilesRange(parts[..n], lo, if parts[n].Container() then hi else parts[n].start);
    }
  }

  /** In a tiling every position of the range lies in a region. */
  lemma {:induction false} TilesCover(parts: seq<Spec>, lo: int, hi: int, pos: int) returns (i: nat)
    requires Tiles(parts, lo, hi) && lo <= pos < hi
    ensures i < |parts| && !parts[i].Container() && parts[i].Covers(pos)
  {
    var n := |parts| - 1;
    if !parts[n].Container() && parts[n].start <= pos {
      i := n;
    } else {
      i := TilesCover(parts[..n], lo, if parts[n].Container() then hi else parts[n].start, pos);
    }
  }

  lemma {:induction false} FilledIsBounded(specs: seq<Spec>)
    requires Sound(specs)
    ensures Bounded(Filled(specs))
  {
    if specs != [] {
      var n := |specs| - 1;
      FilledIsBounded(specs[..n]);
      if n > 0 { GapIs(specs[n - 1], specs[n]); }
    }
  }

  /** Lookup by position in a sound table succeeds for exactly the positions from the first
      start to the frontier of the last entry.  If the last entry is not an extended
      partition, that is its end. */
  lemma LookupIsExact(specs: seq<Spec>, pos: U64)
    requires Sound(specs) && specs != []
    ensures Found(Filled(specs), pos) <==> specs[0].start <= pos < Frontier(specs[|specs| - 1])
  {
    FilledTiles(specs);
    FilledIsBounded(specs);
    LookupInTiling(Filled(specs), specs[0].start, Frontier(specs[|specs| - 1]), pos);
  }

  lemma LookupInTiling(parts: seq<Spec>, lo: int, hi: int, pos: U64)
    requires Tiles(parts, lo, hi) && Bounded(parts)
    ensures Found(parts, pos) <==> lo <= pos < hi
  {
    if lo <= pos < hi {
      var i := TilesCover(parts, lo, hi, pos);
      assert Hit(parts[i], pos);
    }
    if Found(parts, pos) {
      var i :| 0 <= i < |parts| && Hit(parts[i], pos);
      TilesApart(parts, lo, hi, i);
    }
  }

  /** There is never more than one region to find. */
  lemma LookupIsUnique(specs: seq<Spec>, pos: U64, i: nat, j: nat)
    requires Sound(specs) && i < |Filled(specs)| && j < |Filled(specs)|
    requires Hit(Filled(specs)[i], pos) && Hit(Filled(specs)[j], pos)
    ensures i == j
  {
    var parts := Filled(specs);
    FilledTiles(specs);
    FilledIsBounded(specs);
    TilesApart(parts, specs[0].start, Frontier(specs[|specs| - 1]), i);
    TilesApart(parts, specs[0].start, Frontier(specs[|specs| - 1]), j);
  }

  /** The table entry `j` is a region at the position. */
  ghost predicate TableHit(specs: seq<Spec>, pos: U64, j: int) {
    0 <= j < |specs| && specs[j].ty != EXTENDED && specs[j].start <= pos < specs[j].start + specs[j].size
  }

  /** What a lookup finds in a sound table is the entry of the table at the position, or a
      metadata entry where the table has none but perhaps an extended partition. */
  lemma LookupFindsEntry(specs: seq<Spec>, pos: U64, i: nat)
    requires Sound(specs) && NoMetadata(specs)
    requires i < |Filled(specs)| && Hit(Filled(specs)[i], pos)
    ensures var e := Filled(specs)[i];
      if e.ty.metadata then forall j :: !TableHit(specs, pos, j)
      else exists j :: TableHit(specs, pos, j) && specs[j] == e
  {
    var parts := Filled(specs);
    var ks := TableRemains(specs);
    FilledIsBounded(specs);
    if parts[i].ty.metadata {
      forall j ensures !TableHit(specs, pos, j) {
        if TableHit(specs, pos, j) {
          assert parts[ks[j]] == specs[j] && Regular(parts)[ks[j]];
          LookupIsUnique(specs, pos, i, ks[j]);
        }
      }
    } else {
      assert Regular(parts)[i];
      var j :| 0 <= j < |ks| && ks[j] == i;
      assert Picked(parts, ks)[j] == parts[i];
      assert TableHit(specs, pos, j);
    }
  }
}
