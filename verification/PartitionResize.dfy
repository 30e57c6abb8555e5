/** The largest size a partition can be given, and the size a resize request ends up with. */
module PartitionResize {
  import opened PartitionTable
  import opened Wrappers

  /** An entry of the sorted table of partitions and free spaces, in sectors. */
  datatype Entry = Entry(start: U64, size: U64, hasStart: bool, hasSize: bool, container: bool, nested: bool, free: bool) {
    function End(): nat { start + size }
    predicate Usable() { hasStart && hasSize && !(nested && container) }
    predicate Primary() { !nested && !container && !free }
  }

  // ---------------------------------------------------------------- the maximum size

  /** get_max_part_size for the entry at `which`, None when the table has no such partition;
      `oldLibrary` is the branch for libfdisk versions that do not count free space between
      partitions. */
  method MaxPartSize(table: seq<Entry>, which: Option<nat>, oldLibrary: bool) returns (r: Option<U64>)
    requires which.Some? ==> which.value < |table|
    ensures which.None? ==> r == None
    ensures which.Some? ==> r == Some(MaxSize(table, which.value, oldLibrary))
  {
    if which.None? {
      return None;
    }
    var cur := which.value;
    var max: U64 := 0;
    var c := table[cur];
    var i := 0;
    var found := false;
    while !found && i < |table|
      invariant 0 <= i <= |table|
      invariant found ==> i == cur + 1 && c.Usable()
      invariant !found ==> i <= cur || !c.Usable()
    {
      var pa := table[i];
      i := i + 1;
      if !pa.hasStart || !pa.hasSize || (pa.container && i - 1 != cur) {
        continue;
      }
      if pa.nested && c.container {
        continue;
      }
      if c.nested && !pa.nested {
        continue;
      }
      if i - 1 == cur {
        found := true;
      }
    }
    if found && i < |table| {
      var pa := table[i];
      if pa.free {
        if oldLibrary {
          max := Wrap64(c.size + pa.size);
        } else {
          max := Wrap64(pa.size - Wrap64(c.start - pa.start));
        }
      }
    }
    if max == 0 {
      max := c.size;
    }
    return Some(max);
  }

  function MaxSize(table: seq<Entry>, cur: nat, oldLibrary: bool): U64
    requires cur < |table|
  {
    var c := table[cur];
    if c.Usable() && cur + 1 < |table| && table[cur + 1].free then
      var pa := table[cur + 1];
      var max := if oldLibrary then Wrap64(c.size + pa.size) else Wrap64(pa.size - Wrap64(c.start - pa.start));
      if max == 0 then c.size else max
    else c.size
  }

  /** Sorted by start; everything not nested is disjoint, and everything nested starts inside
      an extended partition listed before it and ends in it. */
  ghost predicate Sound(table: seq<Entry>) {
    && (forall i | 0 <= i < |table| :: table[i].size > 0 && table[i].End() < TWO64)
    && (forall i, j | 0 <= i < j < |table| :: table[i].start <= table[j].start)
    && (forall i, j | 0 <= i < j < |table| && !table[i].nested && !table[j].nested :: table[i].End() <= table[j].start)
    && (forall j | 0 <= j < |table| && table[j].nested :: exists k :: Contains(table, k, j))
  }

  ghost predicate Contains(table: seq<Entry>, k: int, j: nat)
    requires j < |table|
  {
    0 <= k < j && table[k].container && !table[k].nested && !table[k].free
      && table[k].start <= table[j].start && table[j].End() <= table[k].End()
  }

  /** For a primary partition followed by free space, the wrapping subtraction is the
      distance from its own start to the end of that space. */
  lemma MaxSizeIsDistance(table: seq<Entry>, cur: nat)
    requires Sound(table) && cur < |table| && table[cur].Usable() && !table[cur].nested && !table[cur].container
    requires cur + 1 < |table| && table[cur + 1].free
    ensures MaxSize(table, cur, false) == table[cur + 1].End() - table[cur].start
    ensures MaxSize(table, cur, true) == table[cur].size + table[cur + 1].size
    ensures table[cur].size < MaxSize(table, cur, true) <= table[cur + 1].End() - table[cur].start
  {
    assert table[cur].End() <= table[cur + 1].start;
  }

  /** Everything that is not directly followed by free space can only keep its own size. */
  lemma MaxSizeIsOwn(table: seq<Entry>, cur: nat, oldLibrary: bool)
    requires cur < |table|
    requires var c := table[cur];
      || !c.hasStart || !c.hasSize || (c.nested && c.container)
      || cur + 1 == |table| || !table[cur + 1].free
    ensures MaxSize(table, cur, oldLibrary) == table[cur].size
  {
  }

  // ---------------------------------------------------------------- the size of a resize request

  datatype Outcome = Unchanged | Refused | Resized(size: U64)

  const MIB: nat := 0x10_0000

  /** The rounding of the request, in 64 bits. */
  function RoundedUp(size: U64, grain: U64): nat
    requires grain > 0
  {
    if size % grain == 0 then size else (Wrap64(size + grain) / grain) * grain
  }

  ghost predicate Multiple(x: nat, grain: nat) { exists k: nat :: x == k * grain }

  predicate SumWraps(size: U64, grain: U64)
    requires grain > 0
  {
    size % grain != 0 && size + grain >= TWO64
  }

  /** This is the next multiple of the grain size exactly if the sum does not wrap around;
      if it does, nothing is left of the request. */
  lemma RoundsToNextMultiple(size: U64, grain: U64)
    requires grain > 0
    ensures Multiple(RoundedUp(size, grain), grain) && RoundedUp(size, grain) < size + grain
    ensures size <= RoundedUp(size, grain) <==> !SumWraps(size, grain)
    ensures SumWraps(size, grain) ==> RoundedUp(size, grain) == 0
  {
    if SumWraps(size, grain) {
      WrapsToNothing(size, grain);
      assert 0 == 0 * grain;
      assert Multiple(0, grain);
    } else {
      RoundsUp(size, grain);
    }
  }

  lemma RoundsUp(size: U64, grain: U64)
    requires grain > 0 && !SumWraps(size, grain)
    ensures Multiple(RoundedUp(size, grain), grain) && size <= RoundedUp(size, grain) < size + grain
  {
    var k, r := size / grain, size % grain;
    assert size == k * grain + r;
    if r == 0 {
      assert RoundedUp(size, grain) == k * grain;
    } else {
      QuotientIs(size + grain, grain, k + 1, r);
      assert RoundedUp(size, grain) == (k + 1) * grain;
    }
  }

  /** The largest request there is, in sectors of 512 bytes. */
  lemma LargestRequestWraps()
    ensures SumWraps(TWO64 - 1, 512) && RoundedUp(TWO64 - 1, 512) == 0
  {
    RoundsToNextMultiple(TWO64 - 1, 512);
  }

  lemma WrapsToNothing(size: U64, grain: U64)
    requires grain > 0 && SumWraps(size, grain)
    ensures RoundedUp(size, grain) == 0 < size
  {
    assert Wrap64(size + grain) == size + grain - TWO64;
    QuotientIs(Wrap64(size + grain), grain, 0, size + grain - TWO64);
  }

  lemma QuotientIs(x: nat, g: nat, q: nat, r: nat)
    requires 0 < g && r < g && x == q * g + r
    ensures x / g == q
  {
    var q', r' := x / g, x % g;
    assert x == q' * g + r';
    if q' < q { MulMono(q' + 1, q, g); }
    if q < q' { MulMono(q + 1, q', g); }
  }

  lemma MulMono(a: nat, b: nat, g: nat)
    requires a <= b
    ensures a * g <= b * g
  {
    assert (b - a) * g >= 0;
  }

  lemma QuotientBounds(x: nat, g: nat)
    requires g > 0
    ensures 0 <= x / g <= x && 0 <= x / g * g <= x
  {
    var q := x / g;
    assert x == q * g + x % g;
    MulMono(1, g, q);
  }

  /** The size logic of bd_part_resize_part: `size` in bytes, 0 for the maximum; `current` and
      `max` in sectors; `alignedEnd` is what the library makes of the end, when it is asked. */
  method NewSize(size: U64, current: U64, max: U64, start: U64, grain: U64, sector: U64, align: bool, alignedEnd: int)
    returns (r: Outcome)
    requires grain > 0 && sector > 0 && start + max < TWO64
    requires start <= alignedEnd <= start + max
    ensures r.Resized? ==> r.size <= current || r.size <= max
    ensures size == 0 ==> r == if max == current then Unchanged else Resized(if align then alignedEnd - start else max)
    ensures size > 0 ==>
      var wanted := RoundedUp(size, grain) / sector;
      && (r.Unchanged? <==> wanted == current)
      && (r.Refused? <==> wanted > current && wanted > max + 4 * MIB / sector)
      && (r.Resized? ==> r.size == if wanted > current && wanted > max then max else wanted)
    // a request too large for the rounding is not refused but sets no sectors at all
    ensures SumWraps(size, grain) ==> r == if current == 0 then Unchanged else Resized(0)
  {
    if size == 0 {
      if max == current {
        return Unchanged;
      }
      var m := max;
      if align {
        m := alignedEnd - start;
      }
      return Resized(m);
    }
    var n := SectorsWanted(size, grain, sector);
    r := Clamp(n, current, max, 4 * MIB / sector);
  }

  /** The request, aligned up and in sectors. */
  method SectorsWanted(size: U64, grain: U64, sector: U64) returns (n: U64)
    requires grain > 0 && sector > 0
    ensures n == RoundedUp(size, grain) / sector
    ensures SumWraps(size, grain) ==> n == 0
  {
    QuotientBounds(Wrap64(size + grain), grain);
    var bytes: U64 := size;
    if size % grain != 0 {
      bytes := (Wrap64(size + grain) / grain) * grain;
    }
    QuotientBounds(bytes, sector);
    RoundsToNextMultiple(size, grain);
    n := bytes / sector;
  }

  /** Too large a request is cut down to the maximum if it is within the tolerance. */
  method Clamp(wanted: U64, current: U64, max: U64, tolerance: nat) returns (r: Outcome)
    ensures r.Unchanged? <==> wanted == current
    ensures r.Refused? <==> wanted > current && wanted > max + tolerance
    ensures r.Resized? ==> r.size == if wanted > current && wanted > max then max else wanted
  {
    var n := wanted;
    if n == current {
      return Unchanged;
    }
    if n > current && n > max {
      if n - max <= tolerance {
        n := max;
      } else {
        return Refused;
      }
    }
    return Resized(n);
  }

  // ---------------------------------------------------------------- no overlap

  ghost predicate Apart(start: int, size: int, e: Entry) {
    start + size <= e.start || e.End() <= start
  }

  /** A primary partition resized to at most its old size or the maximum overlaps no other
      partition of the table, be it primary, extended or logical. */
  lemma ResizedOverlapsNothing(table: seq<Entry>, cur: nat, oldLibrary: bool, size: nat, j: nat)
    requires Sound(table) && cur < |table| && table[cur].Primary()
    requires size <= table[cur].size || size <= MaxSize(table, cur, oldLibrary)
    requires j < |table| && j != cur && !table[j].free
    ensures Apart(table[cur].start, size, table[j])
  {
    if table[j].nested {
      var k :| Contains(table, k, j);
      TopLevelApart(table, cur, oldLibrary, size, k);
    } else {
      TopLevelApart(table, cur, oldLibrary, size, j);
    }
  }

  lemma TopLevelApart(table: seq<Entry>, cur: nat, oldLibrary: bool, size: nat, j: nat)
    requires Sound(table) && cur < |table| && table[cur].Primary()
    requires size <= table[cur].size || size <= MaxSize(table, cur, oldLibrary)
    requires j < |table| && j != cur && !table[j].nested && (table[j].container || !table[j].free)
    requires table[j].container ==> !table[j].free
    ensures Apart(table[cur].start, size, table[j])
  {
    if cur < j && size > table[cur].size {
      var n := cur + 1;
      assert table[cur].Usable() && table[n].free;
      MaxSizeIsDistance(table, cur);
      assert table[n].End() <= table[j].start;
    }
  }

  /** No other partition of the table overlaps the one at `cur` if that has this size. */
  ghost predicate OverlapsNothing(table: seq<Entry>, cur: nat, size: int)
    requires cur < |table|
  {
    forall j | 0 <= j < |table| && j != cur && !table[j].free :: Apart(table[cur].start, size, table[j])
  }

  predicate FreeBehind(table: seq<Entry>, cur: nat) { cur + 1 < |table| && table[cur + 1].free }

  /** bd_part_resize_part for a primary partition: whatever is requested, however the library
      aligns the end in its range, the partition overlaps no other one afterwards. */
  method ResizePart(table: seq<Entry>, which: Option<nat>, oldLibrary: bool, size: U64, grain: U64, sector: U64,
                    align: bool, alignedEnd: int)
    returns (r: Option<Outcome>)
    requires grain > 0 && sector > 0 && Sound(table)
    requires which.Some? ==>
      && which.value < |table| && table[which.value].Primary()
      && 0 <= alignedEnd - table[which.value].start <= MaxSize(table, which.value, oldLibrary)
    ensures r.None? <==> which.None?
    ensures which.Some? ==>
      var c := table[which.value];
      OverlapsNothing(table, which.value, if r.value.Resized? then r.value.size else c.size)
    // a request that the rounding cannot hold leaves nothing of the partition
    ensures which.Some? && SumWraps(size, grain) ==> r.value == Resized(0)
    // asked for the maximum, it reaches the end of the free space behind it
    ensures which.Some? && size == 0 && !align && !oldLibrary ==>
      table[which.value].Usable() && FreeBehind(table, which.value) ==>
      r.value == Resized(table[which.value + 1].End() - table[which.value].start)
  {
    var max := MaxPartSize(table, which, oldLibrary);
    if max.None? {
      return None;
    }
    var cur := which.value;
    var o := NewSize(size, table[cur].size, max.value, table[cur].start, grain, sector, align, alignedEnd);
    ghost var after := if o.Resized? then o.size else table[cur].size;
    forall j | 0 <= j < |table| && j != cur && !table[j].free ensures Apart(table[cur].start, after, table[j]) {
      ResizedOverlapsNothing(table, cur, oldLibrary, after, j);
    }
    if table[cur].Usable() && FreeBehind(table, cur) { MaxSizeIsDistance(table, cur); }
    return Some(o);
  }
}
