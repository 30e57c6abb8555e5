/** What several proofs need to know about concatenation and about picking elements. */
module Sequences {
  lemma Associate<T>(a: seq<T>, b: seq<T>, c: seq<T>)
    ensures (a + b) + c == a + (b + c)
  {
  }

  /** `ks` lists, in increasing order, exactly the positions that are marked. */
  ghost predicate Marks(ks: seq<nat>, marked: seq<bool>) {
    && (forall i, j | 0 <= i < j < |ks| :: ks[i] < ks[j])
    && (forall i | 0 <= i < |ks| :: ks[i] < |marked| && marked[ks[i]])
    && (forall k | 0 <= k < |marked| && marked[k] :: k in ks)
  }

  ghost function Picked<T>(s: seq<T>, ks: seq<nat>): seq<T>
    requires forall i | 0 <= i < |ks| :: ks[i] < |s|
  {
    seq(|ks|, i requires 0 <= i < |ks| => s[ks[i]])
  }

  /** One more position, marked or not. */
  lemma MarksSnoc(ks: seq<nat>, marked: seq<bool>, m: bool)
    requires Marks(ks, marked)
    ensures Marks(if m then ks + [|marked|] else ks, marked + [m])
  {
    var more := if m then ks + [|marked|] else ks;
    forall k | 0 <= k < |marked| + 1 && (marked + [m])[k] ensures k in more {
      if k < |marked| {
        assert k in ks;
      } else {
        assert more[|ks|] == k;
      }
    }
  }

  /** Appending keeps what was picked. */
  lemma PickedSnoc<T>(s: seq<T>, ks: seq<nat>, x: T)
    requires forall i | 0 <= i < |ks| :: ks[i] < |s|
    ensures Picked(s + [x], ks) == Picked(s, ks)
    ensures Picked(s + [x], ks + [|s|]) == Picked(s, ks) + [x]
  {
  }
}
