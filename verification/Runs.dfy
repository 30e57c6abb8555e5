/** Runs of a machine whose steps are atomic: a step may be enabled in a state, and then
    leads to the next state. */
module Runs {

  datatype Machine<!S, !T> = Machine(enabled: (S, T) -> bool, next: (S, T) -> S)

  /** The steps can be taken one after the other from `s` on. */
  ghost predicate CanRun<S, T>(m: Machine<S, T>, s: S, steps: seq<T>)
    decreases steps
  {
    steps == [] || (m.enabled(s, steps[0]) && CanRun(m, m.next(s, steps[0]), steps[1..]))
  }

  /** The state they lead to. */
  ghost function After<S, T>(m: Machine<S, T>, s: S, steps: seq<T>): S
    requires CanRun(m, s, steps)
    decreases steps
  {
    if steps == [] then s else After(m, m.next(s, steps[0]), steps[1..])
  }

  /** A run can be taken in two parts. */
  lemma {:induction false} RunSplits<S, T>(m: Machine<S, T>, s: S, a: seq<T>, b: seq<T>)
    requires CanRun(m, s, a + b)
    ensures CanRun(m, s, a) && CanRun(m, After(m, s, a), b)
    ensures After(m, s, a + b) == After(m, After(m, s, a), b)
    decreases a
  {
    if a == [] {
      assert a + b == b;
    } else {
      assert (a + b)[0] == a[0] && (a + b)[1..] == a[1..] + b;
      RunSplits(m, m.next(s, a[0]), a[1..], b);
    }
  }

  /** The state before the `k`-th step. */
  ghost function Before<S, T>(m: Machine<S, T>, s: S, steps: seq<T>, k: nat): S
    requires CanRun(m, s, steps) && k <= |steps|
  {
    assert steps == steps[..k] + steps[k..];
    RunSplits(m, s, steps[..k], steps[k..]);
    After(m, s, steps[..k])
  }

  /** The last step of a run. */
  lemma LastStep<S, T>(m: Machine<S, T>, s: S, steps: seq<T>)
    requires CanRun(m, s, steps) && steps != []
    ensures var n := |steps| - 1;
      && CanRun(m, s, steps[..n])
      && m.enabled(After(m, s, steps[..n]), steps[n])
      && After(m, s, steps) == m.next(After(m, s, steps[..n]), steps[n])
  {
    var n := |steps| - 1;
    assert steps == steps[..n] + [steps[n]];
    RunSplits(m, s, steps[..n], [steps[n]]);
    assert [steps[n]][1..] == [];
  }

  /** A prefix of a run sees the same states. */
  lemma SameBefore<S, T>(m: Machine<S, T>, s: S, steps: seq<T>, n: nat, k: nat)
    requires k <= n <= |steps| && CanRun(m, s, steps) && CanRun(m, s, steps[..n])
    ensures Before(m, s, steps[..n], k) == Before(m, s, steps, k)
  {
    assert steps[..n][..k] == steps[..k];
  }

  /** A run can be continued by an enabled step. */
  lemma {:induction false} RunExtends<S, T>(m: Machine<S, T>, s: S, a: seq<T>, step: T)
    requires CanRun(m, s, a) && m.enabled(After(m, s, a), step)
    ensures CanRun(m, s, a + [step]) && After(m, s, a + [step]) == m.next(After(m, s, a), step)
    decreases a
  {
    if a == [] {
      assert a + [step] == [step];
      assert [step][1..] == [];
    } else {
      assert (a + [step])[0] == a[0] && (a + [step])[1..] == a[1..] + [step];
      RunExtends(m, m.next(s, a[0]), a[1..], step);
    }
  }
}
