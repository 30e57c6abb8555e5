/** The cached ZFS version and the once-only record of runtime capabilities.

    Any number of threads ask for the version or for the capabilities.  Both share one
    non-recursive lock: the version is probed under the lock, the capabilities are worked
    out without it (the version probe takes it) and published under it.  A run is an
    arbitrary interleaving of the atomic steps of all threads between two resets. */
module ZfsCapabilities {
  import opened Wrappers
  import opened Runs
  import opened Versions

  type ThreadId = nat

  /** The numbers of a normalised version; there are always at least two. */
  type Version = v: seq<nat> | |v| >= 2 witness [0, 0]

  datatype Caps = Caps(probed: bool, trim: bool, scrubPause: bool, bookmark: bool, encryption: bool, initialize: bool)

  /** What a thread is after: the version alone, or the first or second comparison of the capabilities. */
  datatype Query = VersionOnly | For064 | For080

  datatype Pc =
    | CapsRead                  // look at `probed` without the lock
    | Lock                      // version probe: wait for the lock
    | Look                      // is there a cached version?
    | Exec                      // run "zfs version" and parse its output
    | Store(v: Version)         // assign the cached version
    | Unlock(found: bool)       // release the lock
    | ReadBack                  // read the cached version, without the lock
    | LockCaps                  // publishing: wait for the lock
    | LookCaps                  // is somebody else done already?
    | Write(k: nat)             // write the k-th field of the record, the flag last
    | UnlockCaps
    | Done

  predicate Holds(pc: Pc) {
    pc.Look? || pc.Exec? || pc.Store? || pc.Unlock? || pc.LookCaps? || pc.Write? || pc.UnlockCaps?
  }

  /** `result`, `r064`, `r080` are the versions returned to the three kinds of query. */
  datatype Thread = Thread(pc: Pc, query: Query, result: Option<Version>, r064: Option<Version>, r080: Option<Version>)

  /** Whether the two queries of the publishing thread got a version. */
  datatype Publisher = Publisher(got064: bool, got080: bool)

  /** `stores`, `failures` and `publisher` record the assignments of the cached version, the
      failed probes, and how the thread that published the capabilities had fared. */
  datatype State = State(lock: Option<ThreadId>, cached: Option<Version>, caps: Caps,
                         threads: map<ThreadId, Thread>, stores: seq<Version>, failures: nat,
                         publisher: Option<Publisher>)

  const NOTHING := Caps(false, false, false, false, false, false)
  const INITIAL := State(None, None, NOTHING, map[], [], 0, None)

  // ---------------------------------------------------------------- the atomic steps

  datatype Step =
    | AskVersion(id: ThreadId)
    | AskCaps(id: ThreadId)
    | Go(id: ThreadId)
    | ExecReturns(id: ThreadId, out: Option<Version>)

  predicate Enabled(s: State, step: Step) {
    match step
    case AskVersion(id) => id !in s.threads
    case AskCaps(id) => id !in s.threads
    case Go(id) =>
      && id in s.threads
      && !s.threads[id].pc.Exec? && !s.threads[id].pc.Done?
      && (s.threads[id].pc.Lock? || s.threads[id].pc.LockCaps? ==> s.lock.None?)
    case ExecReturns(id, _) => id in s.threads && s.threads[id].pc.Exec?
  }

  function At(s: State, id: ThreadId, t: Thread): State {
    s.(threads := s.threads[id := t])
  }

  /** The return of the version probe to whoever asked. */
  function Answered(t: Thread, v: Option<Version>): Thread {
    match t.query
    case VersionOnly => t.(result := v, pc := Done)
    case For064 => t.(r064 := v, query := For080, pc := Lock)
    case For080 => t.(r080 := v, pc := LockCaps)
  }

  predicate Supports(v: Option<Version>, major: nat, minor: nat, patch: nat) {
    v.Some? && AtLeast(v.value, major, minor, patch)
  }

  predicate Has064(t: Thread) { Supports(t.r064, 0, 6, 4) }
  predicate Has080(t: Thread) { Supports(t.r080, 0, 8, 0) }

  function Written(c: Caps, t: Thread, k: nat): Caps {
    if k == 0 then c.(bookmark := Has064(t))
    else if k == 1 then c.(trim := Has080(t))
    else if k == 2 then c.(scrubPause := Has080(t))
    else if k == 3 then c.(encryption := Has080(t))
    else if k == 4 then c.(initialize := Has080(t))
    else c.(probed := true)
  }

  /** The next state; a step that is not enabled changes nothing. */
  function Applied(s: State, step: Step): State {
    if !Enabled(s, step) then s else
    match step
    case AskVersion(id) => At(s, id, Thread(Lock, VersionOnly, None, None, None))
    case AskCaps(id) => At(s, id, Thread(CapsRead, For064, None, None, None))
    case ExecReturns(id, out) =>
      var t := s.threads[id];
      if out.Some? then At(s, id, t.(pc := Store(out.value)))
      else At(s, id, t.(pc := Unlock(false))).(failures := s.failures + 1)
    case Go(id) => Advanced(s, id)
  }

  /** One field written; the last one publishes the record. */
  function Wrote(s: State, t: Thread, k: nat): State {
    s.(caps := Written(s.caps, t, k),
       publisher := if k >= 5 then Some(Publisher(t.r064.Some?, t.r080.Some?)) else s.publisher)
  }

  function Advanced(s: State, id: ThreadId): State
    requires Enabled(s, Go(id))
  {
    var t := s.threads[id];
    match t.pc
    case CapsRead => At(s, id, t.(pc := if s.caps.probed then Done else Lock))
    case Lock => At(s, id, t.(pc := Look)).(lock := Some(id))
    case Look => At(s, id, t.(pc := if s.cached.Some? then Unlock(true) else Exec))
    case Store(v) => At(s, id, t.(pc := Unlock(true))).(cached := Some(v), stores := s.stores + [v])
    case Unlock(found) =>
      At(s, id, if found then t.(pc := ReadBack) else Answered(t, None)).(lock := None)
    case ReadBack => At(s, id, Answered(t, s.cached))
    case LockCaps => At(s, id, t.(pc := LookCaps)).(lock := Some(id))
    case LookCaps => At(s, id, t.(pc := if s.caps.probed then UnlockCaps else Write(0)))
    case Write(k) => At(Wrote(s, t, k), id, t.(pc := if k >= 5 then UnlockCaps else Write(k + 1)))
    case UnlockCaps => At(s, id, t.(pc := Done)).(lock := None)
    case _ => s
  }

  const CAPABILITIES: Machine<State, Step> := Machine((s, step) => Enabled(s, step), (s, step) => Applied(s, step))

  // ---------------------------------------------------------------- the invariant

  ghost predicate LockOk(s: State) {
    && (forall id | id in s.threads :: Holds(s.threads[id].pc) <==> s.lock == Some(id))
    && (s.lock.Some? ==> s.lock.value in s.threads)
  }

  /** The version is assigned at most once. */
  ghost predicate CacheOk(s: State) {
    s.stores == if s.cached.Some? then [s.cached.value] else []
  }

  ghost predicate Saw(s: State, v: Option<Version>) {
    v.Some? ==> s.cached == v
  }

  /** The capability record answers for the comparisons of `t`, up to field `k`. */
  ghost predicate Fits(c: Caps, b: bool, v: bool, k: nat) {
    && (k > 0 ==> c.bookmark == b)
    && (k > 1 ==> c.trim == v)
    && (k > 2 ==> c.scrubPause == v)
    && (k > 3 ==> c.encryption == v)
    && (k > 4 ==> c.initialize == v)
  }

  ghost predicate ThreadOk(s: State, t: Thread) {
    && Saw(s, t.result) && Saw(s, t.r064) && Saw(s, t.r080)
    && (t.pc.Exec? || t.pc.Store? ==> s.cached.None?)
    && (t.pc == Unlock(true) || t.pc.ReadBack? ==> s.cached.Some?)
    && (t.pc == Unlock(false) ==> s.failures > 0)
    && (t.query.For080? ==> s.failures > 0 || t.r064.Some?)
    && (t.pc.CapsRead? ==> t.query.For064?)
    && (t.pc.LockCaps? || t.pc.LookCaps? || t.pc.Write? ==> t.query.For080? && (s.failures > 0 || t.r080.Some?))
    && (t.pc.Write? ==> !s.caps.probed && t.pc.k <= 5 && Fits(s.caps, Has064(t), Has080(t), t.pc.k))
  }

  /** A published record says what the publisher knew: no more than the cached version
      supports, and less where one of its queries had failed. */
  ghost predicate CapsOk(s: State) {
    s.caps.probed ==>
      && s.publisher.Some?
      && s.caps.trim == s.caps.scrubPause == s.caps.encryption == s.caps.initialize
      && s.caps.bookmark == (s.publisher.value.got064 && Supports(s.cached, 0, 6, 4))
      && s.caps.trim == (s.publisher.value.got080 && Supports(s.cached, 0, 8, 0))
      && (s.publisher.value.got064 || s.publisher.value.got080 ==> s.cached.Some?)
      && (s.failures == 0 ==> s.publisher.value == Publisher(true, true))
  }

  ghost predicate Inv(s: State) {
    LockOk(s) && CacheOk(s) && CapsOk(s) && ThreadsOk(s)
  }

  lemma StepKeepsLock(s: State, step: Step)
    requires LockOk(s) && Enabled(s, step)
    ensures LockOk(Applied(s, step))
  {
  }

  lemma AnswerIsOk(s: State, t: Thread, v: Option<Version>)
    requires ThreadOk(s, t) && Saw(s, v) && (v.None? ==> s.failures > 0)
    requires t.pc.Unlock? || t.pc.ReadBack?
    ensures ThreadOk(s, Answered(t, v))
  {
  }

  lemma WriteKeepsOwn(s: State, id: ThreadId)
    requires Enabled(s, Go(id)) && ThreadOk(s, s.threads[id]) && s.threads[id].pc.Write?
    ensures ThreadOk(Advanced(s, id), Advanced(s, id).threads[id])
    ensures CapsOk(s) ==> CapsOk(Advanced(s, id))
  {
    var t := s.threads[id];
    var c := Advanced(s, id).caps;
    assert Fits(c, Has064(t), Has080(t), t.pc.k + 1);
  }

  /** A thread only sees the cached version, the failures and the capability record. */
  lemma ThreadOkFrame(s: State, s': State, t: Thread)
    requires ThreadOk(s, t) && s'.cached == s.cached && s'.failures >= s.failures && s'.caps == s.caps
    ensures ThreadOk(s', t)
  {
  }

  lemma GoKeepsOwn(s: State, id: ThreadId)
    requires Enabled(s, Go(id)) && ThreadOk(s, s.threads[id]) && !s.threads[id].pc.Write?
    ensures ThreadOk(Advanced(s, id), Advanced(s, id).threads[id])
    ensures Advanced(s, id).caps == s.caps
  {
    var t, s' := s.threads[id], Advanced(s, id);
    match t.pc
    case Unlock(found) =>
      if !found { AnswerIsOk(s, t, None); ThreadOkFrame(s, s', Answered(t, None)); }
    case ReadBack =>
      AnswerIsOk(s, t, s.cached);
      ThreadOkFrame(s, s', Answered(t, s.cached));
    case _ =>
  }

  lemma StepKeepsOwn(s: State, step: Step)
    requires Enabled(s, step) && CapsOk(s) && CacheOk(s)
    requires step.id in s.threads ==> ThreadOk(s, s.threads[step.id])
    ensures ThreadOk(Applied(s, step), Applied(s, step).threads[step.id])
    ensures CapsOk(Applied(s, step))
  {
    if step.Go? {
      if s.threads[step.id].pc.Write? {
        WriteKeepsOwn(s, step.id);
      } else {
        GoKeepsOwn(s, step.id);
      }
    }
  }

  /** Threads outside the critical section do not mind what happens in it. */
  lemma OthersStayOk(s: State, t: Thread, s': State)
    requires ThreadOk(s, t) && s'.failures >= s.failures
    requires s.cached.Some? ==> s'.cached == s.cached
    requires (s'.cached == s.cached && s'.caps == s.caps) || !Holds(t.pc)
    ensures ThreadOk(s', t)
  {
  }

  /** Outside the lock nothing shared changes. */
  lemma OnlyHoldersWrite(s: State, step: Step)
    requires Enabled(s, step)
    ensures (Applied(s, step).cached == s.cached && Applied(s, step).caps == s.caps)
      || (step.id in s.threads && Holds(s.threads[step.id].pc))
    ensures forall id | id in s.threads && id != step.id :: id in Applied(s, step).threads && Applied(s, step).threads[id] == s.threads[id]
  {
  }

  /** A thread that does not move. */
  lemma OtherThread(s: State, step: Step, id: ThreadId)
    requires LockOk(s) && CacheOk(s) && Enabled(s, step) && id in s.threads && id != step.id
    requires step.id in s.threads ==> ThreadOk(s, s.threads[step.id])
    requires ThreadOk(s, s.threads[id])
    ensures id in Applied(s, step).threads && Applied(s, step).threads[id] == s.threads[id]
    ensures ThreadOk(Applied(s, step), s.threads[id])
  {
    OnlyHoldersWrite(s, step);
    OthersStayOk(s, s.threads[id], Applied(s, step));
  }

  ghost predicate ThreadsOk(s: State) {
    forall id | id in s.threads :: ThreadOk(s, s.threads[id])
  }

  lemma StepKeepsThreads(s: State, step: Step)
    requires LockOk(s) && CacheOk(s) && CapsOk(s) && ThreadsOk(s) && Enabled(s, step)
    ensures ThreadsOk(Applied(s, step))
  {
    var s' := Applied(s, step);
    assert s'.threads.Keys <= s.threads.Keys + {step.id};
    forall id | id in s'.threads ensures ThreadOk(s', s'.threads[id]) {
      if id == step.id {
        StepKeepsOwn(s, step);
      } else {
        OtherThread(s, step, id);
      }
    }
  }

  lemma StepKeepsInv(s: State, step: Step)
    requires Inv(s) && Enabled(s, step)
    ensures Inv(Applied(s, step))
    ensures s.cached.Some? ==> Applied(s, step).cached == s.cached
  {
    assert LockOk(Applied(s, step)) by { StepKeepsLock(s, step); }
    assert ThreadsOk(Applied(s, step)) by { StepKeepsThreads(s, step); }
    assert CapsOk(Applied(s, step)) by { StepKeepsOwn(s, step); }
  }

  // ---------------------------------------------------------------- every run

  /** A published record is never touched again. */
  lemma StepFreezesCaps(s: State, step: Step)
    requires Inv(s) && Enabled(s, step) && s.caps.probed
    ensures Applied(s, step).caps == s.caps && Applied(s, step).publisher == s.publisher
  {
    assert step.id in s.threads ==> ThreadOk(s, s.threads[step.id]);
  }

  lemma {:induction false} RunKeepsInv(s: State, steps: seq<Step>)
    requires Inv(s) && CanRun(CAPABILITIES, s, steps)
    ensures var s' := After(CAPABILITIES, s, steps);
      && Inv(s')
      && (s.cached.Some? ==> s'.cached == s.cached)
      && (s.caps.probed ==> s'.caps == s.caps && s'.publisher == s.publisher)
    decreases steps
  {
    if steps != [] {
      StepKeepsInv(s, steps[0]);
      if s.caps.probed { StepFreezesCaps(s, steps[0]); }
      RunKeepsInv(Applied(s, steps[0]), steps[1..]);
    }
  }

  lemma InitialIsOk()
    ensures Inv(INITIAL)
  {
  }

  /** In every reachable state the version has been assigned at most once, every query that
      got a version, for the version itself or for the capabilities, got that one, and no
      thread asks for the lock it holds. */
  lemma VersionIsUnique(steps: seq<Step>)
    requires CanRun(CAPABILITIES, INITIAL, steps)
    ensures var s := After(CAPABILITIES, INITIAL, steps);
      && |s.stores| <= 1
      && (forall id, v: Version | id in s.threads && Some(v) in {s.threads[id].result, s.threads[id].r064, s.threads[id].r080} ::
            s.stores == [v])
      && (forall id | id in s.threads && (s.threads[id].pc.Lock? || s.threads[id].pc.LockCaps?) :: s.lock != Some(id))
  {
    InitialIsOk();
    RunKeepsInv(INITIAL, steps);
    var s := After(CAPABILITIES, INITIAL, steps);
    forall id, v: Version | id in s.threads && Some(v) in {s.threads[id].result, s.threads[id].r064, s.threads[id].r080}
      ensures s.stores == [v]
    {
      assert ThreadOk(s, s.threads[id]);
    }
  }

  /** All five flags answer for the cached version. */
  ghost predicate Exact(s: State) {
    && s.caps.bookmark == Supports(s.cached, 0, 6, 4)
    && s.caps.trim == s.caps.scrubPause == s.caps.encryption == s.caps.initialize == Supports(s.cached, 0, 8, 0)
  }

  /** Once published, the capabilities never change, and in every later state: they never
      claim more than the version supports, and they are exact if and only if neither query
      of the publisher failed for a version that passes its comparison. */
  lemma CapsAreRight(before: seq<Step>, later: seq<Step>)
    requires CanRun(CAPABILITIES, INITIAL, before + later)
    ensures CanRun(CAPABILITIES, INITIAL, before)
    ensures
      var s, s' := After(CAPABILITIES, INITIAL, before), After(CAPABILITIES, INITIAL, before + later);
      s.caps.probed ==>
        && s'.caps == s.caps && s'.publisher == s.publisher && s.publisher.Some?
        && (s'.caps.bookmark ==> Supports(s'.cached, 0, 6, 4))
        && (s'.caps.trim || s'.caps.scrubPause || s'.caps.encryption || s'.caps.initialize ==> Supports(s'.cached, 0, 8, 0))
        && (Exact(s') <==>
              && (s.publisher.value.got064 || !Supports(s'.cached, 0, 6, 4))
              && (s.publisher.value.got080 || !Supports(s'.cached, 0, 8, 0)))
        && (s.failures == 0 ==> s.publisher.value == Publisher(true, true))
  {
    InitialIsOk();
    RunSplits(CAPABILITIES, INITIAL, before, later);
    RunKeepsInv(INITIAL, before);
    RunKeepsInv(After(CAPABILITIES, INITIAL, before), later);
  }

  // ---------------------------------------------------------------- the answers, in terms of the steps

  /** At step `k` of the run, the thread `id` failed to find out the version for its query `q`. */
  ghost predicate FailsAt(steps: seq<Step>, k: int, id: ThreadId, q: Query)
    requires CanRun(CAPABILITIES, INITIAL, steps)
  {
    && 0 <= k < |steps| && steps[k] == ExecReturns(id, None)
    && Asking(Before(CAPABILITIES, INITIAL, steps, k), id, q)
  }

  ghost predicate Asking(s: State, id: ThreadId, q: Query) {
    id in s.threads && s.threads[id].query == q
  }

  ghost predicate Fails(steps: seq<Step>, id: ThreadId, q: Query)
    requires CanRun(CAPABILITIES, INITIAL, steps)
  {
    exists k :: FailsAt(steps, k, id, q)
  }

  /** The query has been answered. */
  predicate HasAnswer(t: Thread, q: Query) {
    match q
    case VersionOnly => t.query.VersionOnly? && t.pc.Done?
    case For064 => t.query.For080?
    case For080 => t.query.For080? && (t.pc.LockCaps? || t.pc.LookCaps? || t.pc.Write? || t.pc.UnlockCaps? || t.pc.Done?)
  }

  function Answer(t: Thread, q: Query): Option<Version> {
    match q
    case VersionOnly => t.result
    case For064 => t.r064
    case For080 => t.r080
  }

  /** The query failed, as the thread knows it: it is about to say so, or has said so. */
  ghost predicate Knows(t: Thread, q: Query) {
    (t.pc == Unlock(false) && t.query == q) || (HasAnswer(t, q) && Answer(t, q).None?)
  }

  ghost predicate KnowsFailure(s: State, id: ThreadId, q: Query) {
    id in s.threads && Knows(s.threads[id], q)
  }

  /** The queries of a thread follow each other, and its work ends with a published record. */
  ghost predicate InOrder(s: State, t: Thread) {
    && (t.query.VersionOnly? || t.query.For064? ==>
          !t.pc.LockCaps? && !t.pc.LookCaps? && !t.pc.Write? && !t.pc.UnlockCaps?)
    && (t.pc.CapsRead? ==> t.query.For064?)
    && (t.pc.UnlockCaps? || (t.pc.Done? && !t.query.VersionOnly?) ==> s.caps.probed)
  }

  lemma OwnStaysInOrder(s: State, step: Step)
    requires Enabled(s, step) && (step.id in s.threads ==> InOrder(s, s.threads[step.id]))
    ensures InOrder(Applied(s, step), Applied(s, step).threads[step.id])
    ensures s.caps.probed ==> Applied(s, step).caps.probed
  {
  }

  ghost predicate AllInOrder(s: State) {
    forall id | id in s.threads :: InOrder(s, s.threads[id])
  }

  lemma StepKeepsOrder(s: State, step: Step)
    requires AllInOrder(s) && Enabled(s, step)
    ensures AllInOrder(Applied(s, step))
  {
    OwnStaysInOrder(s, step);
    OnlyHoldersWrite(s, step);
    var s' := Applied(s, step);
    assert s'.threads.Keys <= s.threads.Keys + {step.id};
    forall id | id in s'.threads ensures InOrder(s', s'.threads[id]) {
      if id != step.id { assert InOrder(s, s.threads[id]); }
    }
  }

  lemma {:induction false} RunKeepsOrder(steps: seq<Step>)
    requires CanRun(CAPABILITIES, INITIAL, steps)
    ensures AllInOrder(After(CAPABILITIES, INITIAL, steps))
    decreases |steps|
  {
    if steps != [] {
      LastStep(CAPABILITIES, INITIAL, steps);
      RunKeepsOrder(steps[..|steps| - 1]);
      StepKeepsOrder(After(CAPABILITIES, INITIAL, steps[..|steps| - 1]), steps[|steps| - 1]);
    }
  }

  lemma GoKnows(s: State, id: ThreadId, q: Query)
    requires Enabled(s, Go(id)) && ThreadOk(s, s.threads[id]) && InOrder(s, s.threads[id])
    ensures Knows(Advanced(s, id).threads[id], q) <==> Knows(s.threads[id], q)
  {
    var t := s.threads[id];
    if t.pc == Unlock(false) {
      AnsweredKnows(t, None, q);
    } else if t.pc.ReadBack? {
      AnsweredKnows(t, s.cached, q);
    } else {
      OtherGoKnows(s, id, q);
    }
  }

  lemma OtherGoKnows(s: State, id: ThreadId, q: Query)
    requires Enabled(s, Go(id)) && InOrder(s, s.threads[id])
    requires s.threads[id].pc != Unlock(false) && !s.threads[id].pc.ReadBack?
    ensures Knows(Advanced(s, id).threads[id], q) <==> Knows(s.threads[id], q)
  {
  }

  lemma AnsweredKnows(t: Thread, v: Option<Version>, q: Query)
    requires t.pc.Unlock? || t.pc.ReadBack?
    ensures Knows(Answered(t, v), q) <==> if q == t.query then v.None? else HasAnswer(t, q) && Answer(t, q).None?
  {
  }

  /** A step makes a thread know of a failure exactly if its probe came back with nothing. */
  lemma KnowsStep(s: State, step: Step, id: ThreadId, q: Query)
    requires Enabled(s, step) && ThreadsOk(s) && AllInOrder(s)
    ensures KnowsFailure(Applied(s, step), id, q)
      <==> KnowsFailure(s, id, q) || (step == ExecReturns(id, None) && Asking(s, id, q))
  {
    if id != step.id {
      OnlyHoldersWrite(s, step);
      assert Applied(s, step).threads.Keys <= s.threads.Keys + {step.id};
    } else if step.Go? {
      assert ThreadOk(s, s.threads[id]) && InOrder(s, s.threads[id]);
      GoKnows(s, id, q);
    }
  }

  /** A thread knows of a failure exactly if it happened. */
  lemma {:induction false} FailuresAreKnown(steps: seq<Step>, id: ThreadId, q: Query)
    requires CanRun(CAPABILITIES, INITIAL, steps)
    ensures KnowsFailure(After(CAPABILITIES, INITIAL, steps), id, q) <==> Fails(steps, id, q)
    decreases |steps|
  {
    if steps != [] {
      var n := |steps| - 1;
      LastStep(CAPABILITIES, INITIAL, steps);
      var s, step := After(CAPABILITIES, INITIAL, steps[..n]), steps[n];
      FailuresAreKnown(steps[..n], id, q);
      InitialIsOk();
      RunKeepsInv(INITIAL, steps[..n]);
      RunKeepsOrder(steps[..n]);
      KnowsStep(s, step, id, q);
      FailsLastOrEarlier(steps, n, id, q);
    }
  }

  lemma FailsLastOrEarlier(steps: seq<Step>, n: nat, id: ThreadId, q: Query)
    requires CanRun(CAPABILITIES, INITIAL, steps) && |steps| == n + 1 && CanRun(CAPABILITIES, INITIAL, steps[..n])
    ensures Fails(steps, id, q)
      <==> Fails(steps[..n], id, q)
           || (steps[n] == ExecReturns(id, None) && Asking(After(CAPABILITIES, INITIAL, steps[..n]), id, q))
  {
    if Fails(steps[..n], id, q) {
      var k :| FailsAt(steps[..n], k, id, q);
      SameBefore(CAPABILITIES, INITIAL, steps, n, k);
      assert FailsAt(steps, k, id, q);
    }
    if steps[n] == ExecReturns(id, None) && Asking(After(CAPABILITIES, INITIAL, steps[..n]), id, q) {
      assert FailsAt(steps, n, id, q);
    }
    if Fails(steps, id, q) {
      var k :| FailsAt(steps, k, id, q);
      if k < n {
        SameBefore(CAPABILITIES, INITIAL, steps, n, k);
        assert FailsAt(steps[..n], k, id, q);
      }
    }
  }

  /** In every run, a query that has been answered was answered with the cached version, unless
      the thread itself failed to find it out for that query; and a thread that asked for the
      capabilities is done only when they are published. */
  lemma AnswersFollowSteps(steps: seq<Step>, id: ThreadId)
    requires CanRun(CAPABILITIES, INITIAL, steps) && id in After(CAPABILITIES, INITIAL, steps).threads
    ensures var s := After(CAPABILITIES, INITIAL, steps); var t := s.threads[id];
      && (t.pc.Done? && t.query.VersionOnly? ==>
            t.result == if Fails(steps, id, VersionOnly) then None else s.cached)
      && (t.query.For080? ==> t.r064 == if Fails(steps, id, For064) then None else s.cached)
      && (t.query.For080? && HasAnswer(t, For080) ==>
            t.r080 == if Fails(steps, id, For080) then None else s.cached)
      && (t.pc.Done? && !t.query.VersionOnly? ==> s.caps.probed)
    ensures ExecReturns(id, None) !in steps ==> forall q :: !Fails(steps, id, q)
  {
    var s := After(CAPABILITIES, INITIAL, steps);
    InitialIsOk();
    RunKeepsInv(INITIAL, steps);
    RunKeepsOrder(steps);
    assert ThreadOk(s, s.threads[id]) && InOrder(s, s.threads[id]);
    FailuresAreKnown(steps, id, VersionOnly);
    FailuresAreKnown(steps, id, For064);
    FailuresAreKnown(steps, id, For080);
  }

  ghost predicate IsAfter(s: State, id: ThreadId, versionOnly: bool) {
    id in s.threads && s.threads[id].query.VersionOnly? == versionOnly
  }

  lemma KindIsKept(s: State, step: Step, id: ThreadId, versionOnly: bool)
    requires Enabled(s, step)
    requires IsAfter(s, id, versionOnly) || step == if versionOnly then AskVersion(id) else AskCaps(id)
    ensures IsAfter(Applied(s, step), id, versionOnly)
  {
    OnlyHoldersWrite(s, step);
  }

  /** What a thread asked for is what it is after. */
  lemma {:induction false} AskedIsKept(steps: seq<Step>, id: ThreadId, versionOnly: bool)
    requires CanRun(CAPABILITIES, INITIAL, steps) && (if versionOnly then AskVersion(id) else AskCaps(id)) in steps
    ensures IsAfter(After(CAPABILITIES, INITIAL, steps), id, versionOnly)
    decreases |steps|
  {
    var n := |steps| - 1;
    LastStep(CAPABILITIES, INITIAL, steps);
    assert steps == steps[..n] + [steps[n]];
    if steps[n] != if versionOnly then AskVersion(id) else AskCaps(id) {
      AskedIsKept(steps[..n], id, versionOnly);
    }
    KindIsKept(After(CAPABILITIES, INITIAL, steps[..n]), steps[n], id, versionOnly);
  }

  // ---------------------------------------------------------------- progress

  /** While a thread is not done, some thread can take a step. */
  lemma NoDeadlock(s: State, id: ThreadId) returns (step: Step)
    requires Inv(s) && id in s.threads && !s.threads[id].pc.Done?
    ensures step.Go? || step.ExecReturns?
    ensures Enabled(s, step)
  {
    var w := if s.lock.Some? then s.lock.value else id;
    step := if s.threads[w].pc.Exec? then ExecReturns(w, None) else Go(w);
  }

  const MOST_STEPS: nat := 22

  /** How many steps a thread can still take. */
  function Remaining(t: Thread): nat {
    var tail := if t.query.VersionOnly? then 0 else if t.query.For064? then 15 else 9;
    match t.pc
    case CapsRead => MOST_STEPS
    case Lock => 6 + tail
    case Look => 5 + tail
    case Exec => 4 + tail
    case Store(_) => 3 + tail
    case Unlock(_) => 2 + tail
    case ReadBack => 1 + tail
    case LockCaps => 9
    case LookCaps => 8
    case Write(k) => if k <= 5 then 7 - k else 2
    case UnlockCaps => 1
    case Done => 0
  }

  predicate Asks(step: Step) { step.AskVersion? || step.AskCaps? }

  /** Every step brings its own thread closer to the end. */
  lemma StepMakesProgress(s: State, step: Step)
    requires Enabled(s, step) && !Asks(step)
    requires s.threads[step.id].pc.CapsRead? ==> s.threads[step.id].query.For064?
    ensures Remaining(Applied(s, step).threads[step.id]) < Remaining(s.threads[step.id])
  {
  }

  /** The steps a thread takes in a run, its question not counted. */
  function StepsOf(steps: seq<Step>, id: ThreadId): nat {
    if steps == [] then 0 else
      (if !Asks(steps[0]) && steps[0].id == id then 1 else 0) + StepsOf(steps[1..], id)
  }

  lemma {:induction false} StepsArePaid(s: State, steps: seq<Step>, id: ThreadId)
    requires Inv(s) && CanRun(CAPABILITIES, s, steps) && id in s.threads
    ensures StepsOf(steps, id) <= Remaining(s.threads[id])
    decreases steps
  {
    if steps != [] {
      StepKeepsInv(s, steps[0]);
      OnlyHoldersWrite(s, steps[0]);
      if !Asks(steps[0]) {
        assert ThreadOk(s, s.threads[steps[0].id]);
        StepMakesProgress(s, steps[0]);
      }
      StepsArePaid(Applied(s, steps[0]), steps[1..], id);
    }
  }

  /** A thread appears by asking. */
  lemma Appears(s: State, step: Step, id: ThreadId)
    requires Enabled(s, step) && id !in s.threads
    ensures !Asks(step) ==> step.id != id && id !in Applied(s, step).threads
  {
  }

  /** In every run, a thread takes at most 22 steps. */
  lemma {:induction false} ThreadsAreBounded(s: State, steps: seq<Step>, id: ThreadId)
    requires Inv(s) && CanRun(CAPABILITIES, s, steps) && id !in s.threads
    ensures StepsOf(steps, id) <= MOST_STEPS
    decreases steps
  {
    if steps != [] {
      var s' := Applied(s, steps[0]);
      StepKeepsInv(s, steps[0]);
      Appears(s, steps[0], id);
      if id in s'.threads {
        StepsArePaid(s', steps[1..], id);
        assert Remaining(s'.threads[id]) <= MOST_STEPS;
      } else {
        ThreadsAreBounded(s', steps[1..], id);
      }
    }
  }

  // ---------------------------------------------------------------- a failing probe

  /** A state with thread 0 as its only thread. */
  ghost function Alone(s: State, t: Thread): State {
    s.(threads := map[0 := t])
  }

  /** The next step of the only thread, appended to a run. */
  lemma Then(a: seq<Step>, s: State, t: Thread, step: Step, s': State, t': Thread)
    requires CanRun(CAPABILITIES, INITIAL, a) && After(CAPABILITIES, INITIAL, a) == Alone(s, t)
    requires Enabled(Alone(s, t), step)
    requires Applied(Alone(s, t), step).(threads := map[]) == s'.(threads := map[])
    requires Applied(Alone(s, t), step).threads == map[0 := t][0 := t']
    ensures CanRun(CAPABILITIES, INITIAL, a + [step]) && After(CAPABILITIES, INITIAL, a + [step]) == Alone(s', t')
  {
    RunExtends(CAPABILITIES, INITIAL, a, step);
  }

  const V215: Version := [2, 1, 5]

  /** A capability query asks for the version. */
  lemma QueryStarts() returns (a: seq<Step>)
    ensures CanRun(CAPABILITIES, INITIAL, a) && After(CAPABILITIES, INITIAL, a) == Alone(INITIAL, Thread(Lock, For064, None, None, None))
  {
    var t := Thread(CapsRead, For064, None, None, None);
    RunExtends(CAPABILITIES, INITIAL, [], AskCaps(0));
    assert [] + [AskCaps(0)] == [AskCaps(0)];
    a := [AskCaps(0)];
    assert After(CAPABILITIES, INITIAL, a) == Alone(INITIAL, t) by { assert map[][0 := t] == map[0 := t]; }
    Then(a, INITIAL, t, Go(0), INITIAL, t.(pc := Lock));
    a := a + [Go(0)];
  }

  /** Its first version probe fails. */
  lemma FirstProbeFails() returns (a: seq<Step>, s: State)
    ensures s == State(None, None, NOTHING, map[], [], 1, None)
    ensures CanRun(CAPABILITIES, INITIAL, a) && After(CAPABILITIES, INITIAL, a) == Alone(s, Thread(Lock, For080, None, None, None))
  {
    a := QueryStarts();
    var t := Thread(Lock, For064, None, None, None);
    var l := INITIAL.(lock := Some(0));
    Then(a, INITIAL, t, Go(0), l, t.(pc := Look));
    a := a + [Go(0)];
    Then(a, l, t.(pc := Look), Go(0), l, t.(pc := Exec));
    a := a + [Go(0)];
    var f := l.(failures := 1);
    Then(a, l, t.(pc := Exec), ExecReturns(0, None), f, t.(pc := Unlock(false)));
    a := a + [ExecReturns(0, None)];
    s := f.(lock := None);
    Then(a, f, t.(pc := Unlock(false)), Go(0), s, Thread(Lock, For080, None, None, None));
    a := a + [Go(0)];
  }

  /** The second one succeeds. */
  lemma SecondProbeSucceeds() returns (a: seq<Step>, s: State)
    ensures s == State(None, Some(V215), NOTHING, map[], [V215], 1, None)
    ensures CanRun(CAPABILITIES, INITIAL, a) && After(CAPABILITIES, INITIAL, a) == Alone(s, Thread(LockCaps, For080, None, None, Some(V215)))
  {
    var i;
    a, i := FirstProbeFails();
    var t := Thread(Lock, For080, None, None, None);
    var l := i.(lock := Some(0));
    Then(a, i, t, Go(0), l, t.(pc := Look));
    a := a + [Go(0)];
    Then(a, l, t.(pc := Look), Go(0), l, t.(pc := Exec));
    a := a + [Go(0)];
    Then(a, l, t.(pc := Exec), ExecReturns(0, Some(V215)), l, t.(pc := Store(V215)));
    a := a + [ExecReturns(0, Some(V215))];
    var c := l.(cached := Some(V215), stores := [V215]);
    Then(a, l, t.(pc := Store(V215)), Go(0), c, t.(pc := Unlock(true)));
    a := a + [Go(0)];
    s := c.(lock := None);
    Then(a, c, t.(pc := Unlock(true)), Go(0), s, t.(pc := ReadBack));
    a := a + [Go(0)];
    Then(a, s, t.(pc := ReadBack), Go(0), s, Thread(LockCaps, For080, None, None, Some(V215)));
    a := a + [Go(0)];
  }

  /** Without the assumption that version probes succeed the record need not be exact: here
      it denies bookmarks to a version that has them, and does so for good. */
  lemma FailedProbeUnderclaims() returns (a: seq<Step>)
    ensures CanRun(CAPABILITIES, INITIAL, a)
    ensures var s := After(CAPABILITIES, INITIAL, a);
      s.caps.probed && s.cached == Some(V215) && Supports(s.cached, 0, 6, 4) && !s.caps.bookmark && s.caps.trim
  {
    var i;
    a, i := SecondProbeSucceeds();
    var t := Thread(LockCaps, For080, None, None, Some(V215));
    var s := i.(lock := Some(0));
    Then(a, i, t, Go(0), s, t.(pc := LookCaps));
    a := a + [Go(0)];
    Then(a, s, t.(pc := LookCaps), Go(0), s, t.(pc := Write(0)));
    a := a + [Go(0)];
    a, s := FiveFieldsWritten(a, s, t);
    var s' := Wrote(s, t, 5);
    Then(a, s, t.(pc := Write(5)), Go(0), s', t.(pc := UnlockCaps));
    a := a + [Go(0)];
  }

  lemma FieldWritten(a: seq<Step>, s: State, t: Thread, k: nat) returns (b: seq<Step>, s': State)
    requires CanRun(CAPABILITIES, INITIAL, a) && After(CAPABILITIES, INITIAL, a) == Alone(s, t.(pc := Write(k)))
    requires k < 5
    ensures s' == s.(caps := Written(s.caps, t, k))
    ensures CanRun(CAPABILITIES, INITIAL, b) && After(CAPABILITIES, INITIAL, b) == Alone(s', t.(pc := Write(k + 1)))
  {
    s' := Wrote(s, t, k);
    Then(a, s, t.(pc := Write(k)), Go(0), s', t.(pc := Write(k + 1)));
    b := a + [Go(0)];
  }

  lemma FiveFieldsWritten(a: seq<Step>, s: State, t: Thread) returns (b: seq<Step>, s': State)
    requires CanRun(CAPABILITIES, INITIAL, a) && After(CAPABILITIES, INITIAL, a) == Alone(s, t.(pc := Write(0)))
    ensures CanRun(CAPABILITIES, INITIAL, b) && After(CAPABILITIES, INITIAL, b) == Alone(s', t.(pc := Write(5)))
    ensures s' == s.(caps := s'.caps) && Fits(s'.caps, Has064(t), Has080(t), 5)
  {
    b, s' := a, s;
    for k := 0 to 5
      invariant CanRun(CAPABILITIES, INITIAL, b) && After(CAPABILITIES, INITIAL, b) == Alone(s', t.(pc := Write(k)))
      invariant s' == s.(caps := s'.caps) && Fits(s'.caps, Has064(t), Has080(t), k)
    {
      b, s' := FieldWritten(b, s', t, k);
    }
  }
}
