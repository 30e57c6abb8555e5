/** The double-checked dependency cache: any number of concurrent calls share a mask of
    available dependencies and one lock.  The four checking functions (utilities, kernel
    modules, D-Bus services, utility features) follow the same protocol and differ only in
    the probe they run, so a probe is an event with an arbitrary outcome here.

    A run is an arbitrary interleaving of the atomic steps of all calls. */
module DependencyChecks {
  import opened Wrappers
  import opened Runs

  type CallId = nat

  /** A dependency: one bit of one of the masks that share the lock. */
  datatype Dep = Dep(mask: nat, bit: nat)

  datatype Pc =
    | FastRead                  // read the mask without the lock
    | Lock                      // wait for the lock
    | Reread                    // read the mask again, now with the lock
    | Scan(i: nat)              // look at the i-th dependency of the table
    | Probe(i: nat)             // run the probe of the i-th dependency
    | Record(i: nat)            // the probe passed: set the bit
    | Unlock                    // all probes done
    | FinalRead                 // read the mask once more, without the lock
    | UnlockEarly               // everything was there after all
    | Returned(ok: bool)

  predicate Holds(pc: Pc) {
    pc.Reread? || pc.Scan? || pc.Probe? || pc.Record? || pc.Unlock? || pc.UnlockEarly?
  }

  /** One call: its required dependencies, the table it probes, its copy of the mask, and
      (for the record) the dependencies whose probe failed during this call. */
  datatype Call = Call(required: set<Dep>, table: seq<Dep>, pc: Pc, val: set<Dep>, failed: set<Dep>)

  /** `passed` records the successful probes in the order of their completion. */
  datatype State = State(mask: set<Dep>, lock: Option<CallId>, calls: map<CallId, Call>, passed: seq<Dep>)

  const INITIAL := State({}, None, map[], [])

  predicate NoDuplicates(s: seq<Dep>) {
    forall i, j | 0 <= i < j < |s| :: s[i] != s[j]
  }

  // ---------------------------------------------------------------- the atomic steps

  datatype Step =
    | Start(id: CallId, required: set<Dep>, table: seq<Dep>)
    | Go(id: CallId)                       // the next step of a call, when it is determined
    | ProbeReturns(id: CallId, ok: bool)   // a probe comes back

  predicate Enabled(s: State, step: Step) {
    match step
    case Start(id, _, table) => id !in s.calls && NoDuplicates(table)
    case Go(id) =>
      && id in s.calls
      && !s.calls[id].pc.Probe? && !s.calls[id].pc.Returned?
      && (s.calls[id].pc.Lock? ==> s.lock.None?)
    case ProbeReturns(id, _) => id in s.calls && s.calls[id].pc.Probe?
  }

  function At(s: State, id: CallId, c: Call): State {
    s.(calls := s.calls[id := c])
  }

  /** The next state; a step that is not enabled changes nothing. */
  function Applied(s: State, step: Step): State {
    if !Enabled(s, step) then s else
    match step
    case Start(id, required, table) => At(s, id, Call(required, table, FastRead, {}, {}))
    case ProbeReturns(id, ok) =>
      var c := s.calls[id];
      var i := c.pc.i;
      if ok then At(s, id, c.(pc := Record(i)))
      else At(s, id, c.(pc := Scan(i + 1), failed := if i < |c.table| then c.failed + {c.table[i]} else c.failed))
    case Go(id) => Advanced(s, id)
  }

  function Advanced(s: State, id: CallId): State
    requires Enabled(s, Go(id))
  {
    var c := s.calls[id];
    match c.pc
    case FastRead =>
      At(s, id, if c.required <= s.mask then c.(pc := Returned(true)) else c.(pc := Lock))
    case Lock =>
      At(s, id, c.(pc := Reread)).(lock := Some(id))
    case Reread =>
      At(s, id, c.(val := s.mask, pc := if c.required <= s.mask then UnlockEarly else Scan(0)))
    case Scan(i) =>
      if i >= |c.table| then At(s, id, c.(pc := Unlock))
      else if c.table[i] in c.required && c.table[i] !in c.val then At(s, id, c.(pc := Probe(i)))
      else At(s, id, c.(pc := Scan(i + 1)))
    case Record(i) =>
      if i >= |c.table| then s
      else At(s, id, c.(pc := Scan(i + 1))).(mask := s.mask + {c.table[i]}, passed := s.passed + [c.table[i]])
    case Unlock => At(s, id, c.(pc := FinalRead)).(lock := None)
    case UnlockEarly => At(s, id, c.(pc := Returned(true))).(lock := None)
    case FinalRead => At(s, id, c.(pc := Returned(c.required <= s.mask)))
    case _ => s
  }

  const CHECKS: Machine<State, Step> := Machine((s, step) => Enabled(s, step), (s, step) => Applied(s, step))

  // ---------------------------------------------------------------- the invariant

  /** What holds of a call in the middle of its critical section. */
  ghost predicate Scanning(s: State, c: Call, i: nat) {
    && NoDuplicates(c.table) && i <= |c.table|
    // nothing beyond `i` has become available behind the back of the call
    && (forall k | i <= k < |c.table| :: c.table[k] in s.mask ==> c.table[k] in c.val)
    // everything required before `i` is available, or its probe failed
    && (forall k | 0 <= k < i :: c.table[k] in c.required ==> c.table[k] in s.mask || c.table[k] in c.failed)
    && c.val <= s.mask
  }

  ghost predicate CallOk(s: State, c: Call) {
    match c.pc
    case Scan(i) => Scanning(s, c, i)
    case Probe(i) => Scanning(s, c, i) && i < |c.table| && c.table[i] in c.required && c.table[i] !in c.val
    case Record(i) => Scanning(s, c, i) && i < |c.table| && c.table[i] in c.required && c.table[i] !in c.val
    case Unlock => Scanning(s, c, |c.table|)
    case FinalRead => forall d | d in c.table && d in c.required :: d in s.mask || d in c.failed
    case UnlockEarly => c.required <= s.mask
    case Returned(ok) => if ok then c.required <= s.mask else exists d :: d in c.required && (d !in c.table || d in c.failed)
    case _ => NoDuplicates(c.table)
  }

  ghost predicate Inv(s: State) {
    && LockOk(s)
    && MaskOk(s)
    && (forall id | id in s.calls :: CallOk(s, s.calls[id]))
  }

  ghost predicate LockOk(s: State) {
    && (forall id | id in s.calls :: Holds(s.calls[id].pc) <==> s.lock == Some(id))
    && (s.lock.Some? ==> s.lock.value in s.calls)
  }

  /** The lock is held by exactly the calls in their critical section. */
  lemma StepKeepsLock(s: State, step: Step)
    requires LockOk(s) && Enabled(s, step)
    ensures LockOk(Applied(s, step))
  {
  }

  ghost predicate MaskOk(s: State) {
    NoDuplicates(s.passed) && s.mask == (set d | d in s.passed)
  }

  lemma StepKeepsOwn(s: State, step: Step)
    requires Enabled(s, step) && step.Go?
    requires CallOk(s, s.calls[step.id])
    ensures CallOk(Applied(s, step), Applied(s, step).calls[step.id])
  {
    var c := s.calls[step.id];
    var s' := Applied(s, step);
    match c.pc
    case Scan(i) =>
    case Record(i) => RecordKeepsScanning(s, s', c, i);
    case FinalRead =>
      if !(c.required <= s.mask) {
        var d :| d in c.required && d !in s.mask;
      }
    case _ =>
  }

  lemma RecordKeepsScanning(s: State, s': State, c: Call, i: nat)
    requires Scanning(s, c, i) && i < |c.table| && s'.mask == s.mask + {c.table[i]}
    ensures Scanning(s', c, i + 1)
  {
  }

  lemma ProbeKeepsOwn(s: State, step: Step)
    requires Enabled(s, step) && step.ProbeReturns?
    requires CallOk(s, s.calls[step.id])
    ensures CallOk(Applied(s, step), Applied(s, step).calls[step.id])
  {
  }

  /** A call that does not hold the lock is indifferent to the mask growing. */
  lemma OthersStayOk(s: State, c: Call, s': State)
    requires CallOk(s, c) && (s'.mask == s.mask || (s.mask <= s'.mask && !Holds(c.pc)))
    ensures CallOk(s', c)
  {
  }

  lemma StepKeepsInv(s: State, step: Step)
    requires Inv(s) && Enabled(s, step)
    ensures Inv(Applied(s, step))
    ensures s.mask <= Applied(s, step).mask
  {
    var s' := Applied(s, step);
    StepKeepsLock(s, step);
    forall id | id in s'.calls ensures CallOk(s', s'.calls[id]) {
      if id != step.id {
        OthersStayOk(s, s.calls[id], s');
      } else if step.Go? {
        StepKeepsOwn(s, step);
      } else if step.ProbeReturns? {
        ProbeKeepsOwn(s, step);
      }
    }
  }

  // ---------------------------------------------------------------- every run

  lemma {:induction false} RunKeepsInv(s: State, steps: seq<Step>)
    requires Inv(s) && CanRun(CHECKS, s, steps)
    ensures Inv(After(CHECKS, s, steps))
    ensures s.mask <= After(CHECKS, s, steps).mask
    decreases steps
  {
    if steps != [] {
      StepKeepsInv(s, steps[0]);
      RunKeepsInv(Applied(s, steps[0]), steps[1..]);
    }
  }

  /** In every reachable state probes do not overlap, no call asks for the lock it holds, no
      dependency has passed a probe twice, TRUE means that everything required has passed a
      probe, and FALSE that something required is unknown to the table or failed its probe
      during this very call. */
  lemma RunsAreSafe(steps: seq<Step>)
    requires CanRun(CHECKS, INITIAL, steps)
    ensures var s := After(CHECKS, INITIAL, steps);
      && (forall a, b | a in s.calls && b in s.calls && s.calls[a].pc.Probe? && s.calls[b].pc.Probe? :: a == b)
      && (forall id | id in s.calls && s.calls[id].pc.Lock? :: s.lock != Some(id))
      && NoDuplicates(s.passed)
      && (forall id | id in s.calls && s.calls[id].pc == Returned(true) ::
            forall d | d in s.calls[id].required :: d in s.passed)
      && (forall id | id in s.calls && s.calls[id].pc == Returned(false) ::
            exists d :: d in s.calls[id].required && (d !in s.calls[id].table || d in s.calls[id].failed))
  {
    RunKeepsInv(INITIAL, steps);
    var s := After(CHECKS, INITIAL, steps);
    forall id | id in s.calls && s.calls[id].pc == Returned(false)
      ensures exists d :: d in s.calls[id].required && (d !in s.calls[id].table || d in s.calls[id].failed)
    {
      assert CallOk(s, s.calls[id]);
    }
    forall id | id in s.calls && s.calls[id].pc == Returned(true)
      ensures forall d | d in s.calls[id].required :: d in s.passed
    {
      assert CallOk(s, s.calls[id]);
    }
  }

  /** The call is running the probe of `d`. */
  ghost predicate Probes(s: State, id: CallId, d: Dep) {
    id in s.calls && s.calls[id].pc.Probe? && s.calls[id].pc.i < |s.calls[id].table|
      && s.calls[id].table[s.calls[id].pc.i] == d
  }

  /** At step `k` of the run, the probe of `d` came back to the call `id` with this outcome. */
  ghost predicate CameBack(steps: seq<Step>, k: int, id: CallId, d: Dep, ok: bool)
    requires CanRun(CHECKS, INITIAL, steps)
  {
    0 <= k < |steps| && steps[k] == ProbeReturns(id, ok) && Probes(Before(CHECKS, INITIAL, steps, k), id, d)
  }

  ghost predicate Passed(steps: seq<Step>, d: Dep)
    requires CanRun(CHECKS, INITIAL, steps)
  {
    exists k, id :: CameBack(steps, k, id, d, true)
  }

  ghost predicate Failed(steps: seq<Step>, id: CallId, d: Dep)
    requires CanRun(CHECKS, INITIAL, steps)
  {
    exists k :: CameBack(steps, k, id, d, false)
  }

  /** The call has to set the bit of `d` next. */
  ghost predicate Records(s: State, id: CallId, d: Dep) {
    id in s.calls && s.calls[id].pc.Record? && s.calls[id].pc.i < |s.calls[id].table|
      && s.calls[id].table[s.calls[id].pc.i] == d
  }

  /** What came back earlier came back. */
  lemma CameBackEarlier(steps: seq<Step>, n: nat, k: int, id: CallId, d: Dep, ok: bool)
    requires CanRun(CHECKS, INITIAL, steps) && n <= |steps| && CanRun(CHECKS, INITIAL, steps[..n])
    requires CameBack(steps[..n], k, id, d, ok)
    ensures CameBack(steps, k, id, d, ok)
  {
    SameBefore(CHECKS, INITIAL, steps, n, k);
  }

  /** An available dependency, or one about to be recorded, passed its probe in this run. */
  lemma {:induction false} SetBitsPassed(steps: seq<Step>, d: Dep)
    requires CanRun(CHECKS, INITIAL, steps)
    requires var s := After(CHECKS, INITIAL, steps); d in s.mask || exists id :: Records(s, id, d)
    ensures Passed(steps, d)
    decreases |steps|
  {
    if steps != [] {
      var n := |steps| - 1;
      LastStep(CHECKS, INITIAL, steps);
      var s, step := After(CHECKS, INITIAL, steps[..n]), steps[n];
      if d in s.mask || exists id :: Records(s, id, d) {
        SetBitsPassed(steps[..n], d);
        var k, id :| CameBack(steps[..n], k, id, d, true);
        CameBackEarlier(steps, n, k, id, d, true);
      } else {
        NewRecord(s, step, d);
        assert CameBack(steps, n, step.id, d, true);
      }
    }
  }

  /** Only a probe that comes back with success makes a call record its dependency. */
  lemma NewRecord(s: State, step: Step, d: Dep)
    requires Enabled(s, step) && d !in s.mask && forall id :: !Records(s, id, d)
    requires d in Applied(s, step).mask || exists id :: Records(Applied(s, step), id, d)
    ensures step == ProbeReturns(step.id, true) && Probes(s, step.id, d)
  {
    if d in Applied(s, step).mask {
      assert Records(s, step.id, d);
    } else {
      var id :| Records(Applied(s, step), id, d);
      assert !Records(s, id, d);
    }
  }

  /** And every probe that passed is recorded, or about to be. */
  lemma {:induction false} PassedIsSet(steps: seq<Step>, d: Dep)
    requires CanRun(CHECKS, INITIAL, steps) && Inv(After(CHECKS, INITIAL, steps)) && Passed(steps, d)
    ensures var s := After(CHECKS, INITIAL, steps); d in s.mask || exists id :: Records(s, id, d)
    decreases |steps|
  {
    var k, id :| CameBack(steps, k, id, d, true);
    var n := |steps| - 1;
    LastStep(CHECKS, INITIAL, steps);
    RunKeepsInv(INITIAL, steps[..n]);
    var s, s' := After(CHECKS, INITIAL, steps[..n]), After(CHECKS, INITIAL, steps);
    if k == n {
      assert Records(s', id, d);
    } else {
      SameBefore(CHECKS, INITIAL, steps, n, k);
      assert CameBack(steps[..n], k, id, d, true);
      PassedIsSet(steps[..n], d);
      RecordsLast(s, steps[n], d);
    }
  }

  lemma RecordsLast(s: State, step: Step, d: Dep)
    requires Enabled(s, step) && (d in s.mask || exists id :: Records(s, id, d))
    ensures d in Applied(s, step).mask || exists id :: Records(Applied(s, step), id, d)
  {
    if d !in Applied(s, step).mask {
      var id :| Records(s, id, d);
      assert Records(Applied(s, step), id, d);
    }
  }

  /** A call remembers exactly the probes that failed in it. */
  lemma {:induction false} FailedIsExact(steps: seq<Step>, id: CallId, d: Dep)
    requires CanRun(CHECKS, INITIAL, steps)
    ensures var s := After(CHECKS, INITIAL, steps); (id in s.calls && d in s.calls[id].failed) <==> Failed(steps, id, d)
    decreases |steps|
  {
    if steps != [] {
      var n := |steps| - 1;
      LastStep(CHECKS, INITIAL, steps);
      var s, step := After(CHECKS, INITIAL, steps[..n]), steps[n];
      FailedIsExact(steps[..n], id, d);
      FailedStep(s, step, id, d);
      if Failed(steps[..n], id, d) {
        var k :| CameBack(steps[..n], k, id, d, false);
        CameBackEarlier(steps, n, k, id, d, false);
      }
      if step == ProbeReturns(id, false) && Probes(s, id, d) { assert CameBack(steps, n, id, d, false); }
      if Failed(steps, id, d) {
        var k :| CameBack(steps, k, id, d, false);
        if k < n {
          SameBefore(CHECKS, INITIAL, steps, n, k);
          assert CameBack(steps[..n], k, id, d, false);
        }
      }
    }
  }

  lemma FailedStep(s: State, step: Step, id: CallId, d: Dep)
    requires Enabled(s, step)
    ensures var s' := Applied(s, step);
      (id in s'.calls && d in s'.calls[id].failed)
      <==> (id in s.calls && d in s.calls[id].failed) || (step == ProbeReturns(id, false) && Probes(s, id, d))
  {
  }

  /** In every run the results follow the outcomes of the probes: a bit is set exactly if a
      probe of its dependency came back with success and has been recorded; TRUE means a
      success for everything required; FALSE means a failed probe in this very call, of
      something required, or something required that the table does not know; so a call with
      a sufficient table none of whose probes failed returns TRUE. */
  lemma ResultsFollowProbes(steps: seq<Step>)
    requires CanRun(CHECKS, INITIAL, steps)
    ensures var s := After(CHECKS, INITIAL, steps);
      && (forall d :: Passed(steps, d) <==> d in s.mask || exists id :: Records(s, id, d))
      && (forall id | id in s.calls && s.calls[id].pc == Returned(true) ::
            forall d | d in s.calls[id].required :: Passed(steps, d))
      && (forall id | id in s.calls && s.calls[id].pc == Returned(false) ::
            exists d :: d in s.calls[id].required && (d !in s.calls[id].table || Failed(steps, id, d)))
      && (forall id | id in s.calls && s.calls[id].pc.Returned? ::
            (forall d | d in s.calls[id].required :: d in s.calls[id].table) && ProbeReturns(id, false) !in steps
            ==> s.calls[id].pc == Returned(true))
  {
    var s := After(CHECKS, INITIAL, steps);
    RunKeepsInv(INITIAL, steps);
    RunsAreSafe(steps);
    forall d ensures Passed(steps, d) <==> d in s.mask || exists id :: Records(s, id, d) {
      if Passed(steps, d) { PassedIsSet(steps, d); }
      if d in s.mask || exists id :: Records(s, id, d) { SetBitsPassed(steps, d); }
    }
    forall id | id in s.calls && s.calls[id].pc == Returned(false)
      ensures exists d :: d in s.calls[id].required && (d !in s.calls[id].table || Failed(steps, id, d))
    {
      FalseIsExplained(steps, id);
    }
    forall id | id in s.calls && s.calls[id].pc == Returned(true)
      ensures forall d | d in s.calls[id].required :: Passed(steps, d)
    {
      forall d | d in s.calls[id].required ensures Passed(steps, d) {
        assert d in s.passed;
      }
    }
  }

  lemma FalseIsExplained(steps: seq<Step>, id: CallId)
    requires CanRun(CHECKS, INITIAL, steps)
    requires var s := After(CHECKS, INITIAL, steps); id in s.calls && s.calls[id].pc == Returned(false)
    ensures var c := After(CHECKS, INITIAL, steps).calls[id];
      exists d :: d in c.required && (d !in c.table || Failed(steps, id, d))
  {
    RunsAreSafe(steps);
    var c := After(CHECKS, INITIAL, steps).calls[id];
    var d :| d in c.required && (d !in c.table || d in c.failed);
    FailedIsExact(steps, id, d);
  }

  /** Bits are never taken back: what is available after a prefix stays available. */
  lemma MaskGrows(steps: seq<Step>, n: nat)
    requires CanRun(CHECKS, INITIAL, steps) && n <= |steps|
    ensures CanRun(CHECKS, INITIAL, steps[..n])
    ensures After(CHECKS, INITIAL, steps[..n]).mask <= After(CHECKS, INITIAL, steps).mask
  {
    assert steps == steps[..n] + steps[n..];
    RunSplits(CHECKS, INITIAL, steps[..n], steps[n..]);
    RunKeepsInv(INITIAL, steps[..n]);
    RunKeepsInv(After(CHECKS, INITIAL, steps[..n]), steps[n..]);
  }

  // ---------------------------------------------------------------- progress

  /** While a call has not returned, some call can take a step. */
  lemma NoDeadlock(s: State, id: CallId) returns (step: Step)
    requires Inv(s) && id in s.calls && !s.calls[id].pc.Returned?
    ensures !step.Start? && Enabled(s, step)
  {
    var w := if s.lock.Some? then s.lock.value else id;
    step := if s.calls[w].pc.Probe? then ProbeReturns(w, true) else Go(w);
  }

  /** How many steps a call can still take. */
  function Remaining(c: Call): nat {
    var n := 3 * |c.table|;
    match c.pc
    case FastRead => n + 6
    case Lock => n + 5
    case Reread => n + 4
    case Scan(i) => if i <= |c.table| then n - 3 * i + 3 else 3
    case Probe(i) => if i < |c.table| then n - 3 * i + 2 else 2
    case Record(i) => if i < |c.table| then n - 3 * i + 1 else 1
    case Unlock => 2
    case FinalRead => 1
    case UnlockEarly => 1
    case Returned(_) => 0
  }

  /** Every step brings its own call closer to the end and leaves the others where they are. */
  lemma StepMakesProgress(s: State, step: Step)
    requires Inv(s) && Enabled(s, step) && !step.Start?
    ensures var c := Applied(s, step).calls[step.id];
      Remaining(c) < Remaining(s.calls[step.id]) && c.table == s.calls[step.id].table
    ensures forall id | id in s.calls && id != step.id :: id in Applied(s, step).calls && Applied(s, step).calls[id] == s.calls[id]
  {
    assert CallOk(s, s.calls[step.id]);
  }

  /** The steps a call takes in a run, its start not counted. */
  function StepsOf(steps: seq<Step>, id: CallId): nat {
    if steps == [] then 0 else
      (if !steps[0].Start? && steps[0].id == id then 1 else 0) + StepsOf(steps[1..], id)
  }

  /** The steps a call takes from some state on are paid for by what remained of it. */
  lemma {:induction false} StepsArePaid(s: State, steps: seq<Step>, id: CallId)
    requires Inv(s) && CanRun(CHECKS, s, steps) && id in s.calls
    ensures id in After(CHECKS, s, steps).calls
    ensures After(CHECKS, s, steps).calls[id].table == s.calls[id].table
    ensures StepsOf(steps, id) + Remaining(After(CHECKS, s, steps).calls[id]) <= Remaining(s.calls[id])
    decreases steps
  {
    if steps != [] {
      StepKeepsInv(s, steps[0]);
      if !steps[0].Start? { StepMakesProgress(s, steps[0]); }
      StepsArePaid(Applied(s, steps[0]), steps[1..], id);
    }
  }

  /** In every run, a call takes at most three steps per table entry and six more. */
  lemma {:induction false} CallsAreBounded(s: State, steps: seq<Step>, id: CallId)
    requires Inv(s) && CanRun(CHECKS, s, steps) && id !in s.calls
    requires id in After(CHECKS, s, steps).calls
    ensures StepsOf(steps, id) <= 3 * |After(CHECKS, s, steps).calls[id].table| + 6
    decreases steps
  {
    StepKeepsInv(s, steps[0]);
    var s' := Applied(s, steps[0]);
    if id in s'.calls {
      StepsArePaid(s', steps[1..], id);
    } else {
      CallsAreBounded(s', steps[1..], id);
    }
  }
}
