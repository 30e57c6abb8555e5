/** The choice of the free region for a new partition. */
module FreeRegion {
  import opened PartitionTable
  import opened Wrappers

  datatype Wanted = WantNormal | WantLogical | WantExtended | WantOther

  /** Large enough, and on the right side of the extended partition. */
  predicate Fits(r: Spec, wanted: Wanted, size: U64) {
    r.size > size && match wanted
                     case WantNormal => !r.ty.logical
                     case WantLogical => r.ty.logical
                     case WantExtended => true
                     case WantOther => false
  }

  /** `a` is a better choice than `b`: smaller, or larger for an extended partition. */
  predicate Better(a: Spec, b: Spec, wanted: Wanted) {
    if wanted.WantExtended? then a.size > b.size else a.size < b.size
  }

  /** The first best fit among the first `n` regions. */
  ghost predicate FirstBest(regs: seq<Spec>, n: nat, wanted: Wanted, size: U64, ret: Option<nat>) {
    n <= |regs| &&
    match ret
    case None => forall i | 0 <= i < n :: !Fits(regs[i], wanted, size)
    case Some(k) =>
      && k < n && Fits(regs[k], wanted, size)
      && (forall i | 0 <= i < n && Fits(regs[i], wanted, size) :: !Better(regs[i], regs[k], wanted))
      && (forall i | 0 <= i < k && Fits(regs[i], wanted, size) :: Better(regs[k], regs[i], wanted))
  }

  /** bd_part_get_best_free_region.  `freed` lists the regions given back, in order; the
      result, if any, is the only region that is not. */
  method BestFreeRegion(regs: seq<Spec>, wanted: Wanted, size: U64) returns (ret: Option<nat>, freed: seq<nat>)
    ensures wanted.WantExtended? && (exists i :: 0 <= i < |regs| && regs[i].ty.logical) ==> ret.None?
    ensures !(wanted.WantExtended? && (exists i :: 0 <= i < |regs| && regs[i].ty.logical)) ==>
      FirstBest(regs, |regs|, wanted, size, ret)
    ensures forall i, j | 0 <= i < j < |freed| :: freed[i] < freed[j]
    ensures forall i | 0 <= i < |regs| :: i in freed <==> ret != Some(i)
    ensures forall i | 0 <= i < |freed| :: freed[i] < |regs|
  {
    ret := None;
    for i := 0 to |regs|
      invariant wanted.WantExtended? ==> forall j | 0 <= j < i :: !regs[j].ty.logical
      invariant FirstBest(regs, i, wanted, size, ret)
    {
      var r := regs[i];
      if wanted.WantExtended? && r.ty.logical {
        ret := None;
        freed := FreeAllBut(|regs|, None);
        return;
      }
      if Fits(r, wanted, size) {
        if ret.None? || Better(r, regs[ret.value], wanted) {
          ret := Some(i);
        }
      }
    }
    freed := FreeAllBut(|regs|, ret);
  }

  method FreeAllBut(n: nat, keep: Option<nat>) returns (freed: seq<nat>)
    ensures forall i, j | 0 <= i < j < |freed| :: freed[i] < freed[j]
    ensures forall i | 0 <= i < n :: i in freed <==> keep != Some(i)
    ensures forall i | 0 <= i < |freed| :: freed[i] < n
  {
    freed := [];
    for k := 0 to n
      invariant forall i, j | 0 <= i < j < |freed| :: freed[i] < freed[j]
      invariant forall i | 0 <= i < k :: i in freed <==> keep != Some(i)
      invariant forall i | 0 <= i < |freed| :: freed[i] < k
    {
      if keep != Some(k) {
        freed := freed + [k];
      }
    }
  }

  /** The choice in terms of sizes and sides: the first of the smallest regions that are large
      enough, outside or inside the extended partition as wanted; the first of the largest
      ones for an extended partition. */
  lemma FirstBestMeans(regs: seq<Spec>, wanted: Wanted, size: U64, ret: Option<nat>)
    requires FirstBest(regs, |regs|, wanted, size, ret)
    ensures wanted.WantOther? ==> ret.None?
    ensures ret.None? && wanted.WantNormal? ==> forall i | 0 <= i < |regs| :: regs[i].size <= size || regs[i].ty.logical
    ensures ret.None? && wanted.WantLogical? ==> forall i | 0 <= i < |regs| :: regs[i].size <= size || !regs[i].ty.logical
    ensures ret.None? && wanted.WantExtended? ==> forall i | 0 <= i < |regs| :: regs[i].size <= size
    ensures ret.Some? ==> ret.value < |regs| && size < regs[ret.value].size
    ensures ret.Some? && wanted.WantNormal? ==> !regs[ret.value].ty.logical
    ensures ret.Some? && wanted.WantLogical? ==> regs[ret.value].ty.logical
    ensures ret.Some? && !wanted.WantExtended? ==>
      forall i | 0 <= i < |regs| && size < regs[i].size && regs[i].ty.logical == wanted.WantLogical? ::
        regs[ret.value].size <= regs[i].size && (regs[i].size == regs[ret.value].size ==> ret.value <= i)
    ensures ret.Some? && wanted.WantExtended? ==>
      forall i | 0 <= i < |regs| && size < regs[i].size ::
        regs[i].size <= regs[ret.value].size && (regs[i].size == regs[ret.value].size ==> ret.value <= i)
  {
    if ret.Some? {
      var k := ret.value;
      forall i | 0 <= i < |regs| && Fits(regs[i], wanted, size)
        ensures !Better(regs[i], regs[k], wanted) && (i < k ==> Better(regs[k], regs[i], wanted))
      {
      }
    } else {
      assert forall i | 0 <= i < |regs| :: !Fits(regs[i], wanted, size);
    }
  }

  /** A smallest fit that is at the same time the first of its size leaves no choice. */
  lemma FirstBestIsUnique(regs: seq<Spec>, wanted: Wanted, size: U64, a: Option<nat>, b: Option<nat>)
    requires FirstBest(regs, |regs|, wanted, size, a) && FirstBest(regs, |regs|, wanted, size, b)
    ensures a == b
  {
    if a.Some? { assert Fits(regs[a.value], wanted, size); }
    if b.Some? { assert Fits(regs[b.value], wanted, size); }
  }
}
