/** Running a command and reporting on it: spawn, feed the input, poll both output
    descriptors until both are at their end, wait for the process, report.

    Every outcome of the system calls is an input of the model, so the contract of `Run`
    speaks about all of them.  A script of poll outcomes that ends before both descriptors
    do stands for a process that is still running. */
module ExecRun {
  import opened ExecOutput
  import opened Sequences
  import opened Wrappers

  datatype Failure =
    | SpawnFailure | WriteFailure | PollFailure | ReadFailure | WaitFailure
    | KilledBySignal
    | ExitStatus(code: int, message: seq<Byte>)

  datatype Report<S> = Started | Step(completion: S) | Finished(failure: Option<Failure>)

  datatype Poll = Interrupted | PollError | Ready(out: FdEvent, err: FdEvent)

  datatype Wait = Signaled(signal: nat) | Exited(code: int) | OtherChange | NoSuchChild | WaitError

  datatype Outcome =
    | Running
    | Returned(success: bool, error: Option<Failure>, status: Option<int>,
               stdout: Option<seq<Byte>>, stderr: Option<seq<Byte>>)

  // ---------------------------------------------------------------- what the descriptors deliver

  /** The bytes both descriptors have delivered, and how far each of them is. */
  datatype Streams = Streams(out: seq<Byte>, err: seq<Byte>, outDone: bool, errDone: bool, failure: Option<Failure>) {
    function Bytes(fd: Fd): seq<Byte> { if fd.Stdout? then out else err }
    predicate Done(fd: Fd) { if fd.Stdout? then outDone else errDone }
    predicate Over() { failure.Some? || (outDone && errDone) }
    predicate Reads(fd: Fd) { failure.None? && !Done(fd) }
  }

  const FRESH := Streams([], [], false, false, None)

  function FdRead(d: Streams, fd: Fd, ev: FdEvent): Streams {
    if !d.Reads(fd) then d else
      var failure := if ev.Fails() then Some(ReadFailure) else None;
      if fd.Stdout? then d.(out := d.out + ev.Data(), outDone := ev.Ends(), failure := failure)
      else d.(err := d.err + ev.Data(), errDone := ev.Ends(), failure := failure)
  }

  /** The lines this offers: those that the new data makes of the unfinished tail. */
  function FdCalls(d: Streams, fd: Fd, ev: FdEvent): seq<Call> {
    if !d.Reads(fd) then [] else Tagged(Shown(Tail(d.Bytes(fd)) + ev.Data(), ev.Ends()), fd)
  }

  /** Standard output is read before standard error. */
  function Polled(d: Streams, p: Poll): Streams {
    if d.Over() then d else
    match p
    case Interrupted => d
    case PollError => d.(failure := Some(PollFailure))
    case Ready(o, e) => FdRead(FdRead(d, Stdout, o), Stderr, e)
  }

  function PollCalls(d: Streams, p: Poll): seq<Call> {
    if d.Over() || !p.Ready? then [] else FdCalls(d, Stdout, p.out) + FdCalls(FdRead(d, Stdout, p.out), Stderr, p.err)
  }

  function Drained(polls: seq<Poll>): Streams {
    if polls == [] then FRESH else Polled(Drained(polls[..|polls| - 1]), polls[|polls| - 1])
  }

  /** All lines offered, in order. */
  function Offers(polls: seq<Poll>): seq<Call> {
    if polls == [] then [] else
      var n := |polls| - 1;
      Offers(polls[..n]) + PollCalls(Drained(polls[..n]), polls[n])
  }

  /** The offered lines of each descriptor are those of splitting its stream once. */
  ghost predicate SplitOf(calls: seq<Call>, d: Streams) {
    forall fd :: LinesOf(calls, fd) == Shown(d.Bytes(fd), d.Done(fd))
  }

  lemma FdCallsSplit(calls: seq<Call>, d: Streams, fd: Fd, ev: FdEvent)
    requires SplitOf(calls, d)
    ensures SplitOf(calls + FdCalls(d, fd, ev), FdRead(d, fd, ev))
  {
    if d.Reads(fd) {
      var lines := Shown(Tail(d.Bytes(fd)) + ev.Data(), ev.Ends());
      ShownResumes(d.Bytes(fd), ev.Data(), ev.Ends());
      forall of
        ensures LinesOf(calls + Tagged(lines, fd), of) == LinesOf(calls, of) + (if of == fd then lines else [])
      {
        LinesOfTagged(calls, lines, fd, of);
      }
    } else {
      assert calls + [] == calls;
    }
  }

  lemma PollCallsSplit(calls: seq<Call>, d: Streams, p: Poll)
    requires SplitOf(calls, d)
    ensures SplitOf(calls + PollCalls(d, p), Polled(d, p))
  {
    if d.Over() || !p.Ready? {
      assert calls + [] == calls;
    } else {
      var a, b := FdCalls(d, Stdout, p.out), FdCalls(FdRead(d, Stdout, p.out), Stderr, p.err);
      FdCallsSplit(calls, d, Stdout, p.out);
      FdCallsSplit(calls + a, FdRead(d, Stdout, p.out), Stderr, p.err);
      Associate(calls, a, b);
    }
  }

  /** However the streams are cut into polls and reads, each is split as if in one piece. */
  lemma {:induction false} OffersSplit(polls: seq<Poll>)
    ensures SplitOf(Offers(polls), Drained(polls))
  {
    if polls != [] {
      var n := |polls| - 1;
      OffersSplit(polls[..n]);
      PollCallsSplit(Offers(polls[..n]), Drained(polls[..n]), polls[n]);
    }
  }

  // ---------------------------------------------------------------- what the polls say about the streams

  function Event(p: Poll, fd: Fd): FdEvent
    requires p.Ready?
  {
    if fd.Stdout? then p.out else p.err
  }

  /** Reading the descriptor at poll `i` fails. */
  ghost predicate ReadFailsAt(polls: seq<Poll>, i: int, fd: Fd) {
    && 0 <= i < |polls| && polls[i].Ready? && Drained(polls[..i]).Reads(fd) && !Drained(polls[..i]).Over()
    && Event(polls[i], fd).pollIn && Event(polls[i], fd).end.ReadFailed?
  }

  /** The descriptor is looked at in poll `i`: it was open, nothing had gone wrong, and for
      standard error, reading standard output in the same poll does not fail either. */
  ghost predicate Handled(polls: seq<Poll>, i: int, fd: Fd) {
    && 0 <= i < |polls| && polls[i].Ready? && Drained(polls[..i]).Reads(fd) && !Drained(polls[..i]).Over()
    && (fd.Stderr? ==> !ReadFailsAt(polls, i, Stdout))
  }

  /** Then it is at its end if it hung up or was read to the end. */
  ghost predicate EndsAt(polls: seq<Poll>, i: int, fd: Fd) {
    Handled(polls, i, fd) &&
      var ev := Event(polls[i], fd);
      (ev.hangup || (ev.pollIn && ev.end.Eof?)) && !(ev.pollIn && ev.end.ReadFailed?)
  }

  /** One poll: what it adds to a descriptor, and whether that ends. */
  lemma PollDelivers(polls: seq<Poll>, i: nat, fd: Fd)
    requires i < |polls|
    ensures var d, d' := Drained(polls[..i]), Drained(polls[..i + 1]);
      && d'.Bytes(fd) == d.Bytes(fd)
           + (if Handled(polls, i, fd) && Event(polls[i], fd).pollIn then Flatten(Event(polls[i], fd).chunks) else [])
      && (d'.Done(fd) <==> d.Done(fd) || EndsAt(polls, i, fd))
  {
    OnePoll(polls, i);
    var d := Drained(polls[..i]);
    if !d.Over() && polls[i].Ready? {
      assert ReadFailsAt(polls, i, Stdout) <==> d.Reads(Stdout) && polls[i].out.Fails();
    }
  }

  lemma OnePoll(polls: seq<Poll>, i: nat)
    requires i < |polls|
    ensures var next := i + 1;
      && Drained(polls[..next]) == Polled(Drained(polls[..i]), polls[i])
      && Offers(polls[..next]) == Offers(polls[..i]) + PollCalls(Drained(polls[..i]), polls[i])
  {
    assert polls[..i + 1][..i] == polls[..i];
  }

  /** A descriptor is at its end exactly if some poll ended it. */
  lemma {:induction false} EndIsExplained(polls: seq<Poll>, n: nat, fd: Fd)
    requires n <= |polls|
    ensures Drained(polls[..n]).Done(fd) <==> exists i :: 0 <= i < n && EndsAt(polls, i, fd)
  {
    if n > 0 {
      var k := n - 1;
      EndIsExplained(polls, k, fd);
      PollDelivers(polls, k, fd);
      if exists i :: 0 <= i < n && EndsAt(polls, i, fd) {
        var i :| 0 <= i < n && EndsAt(polls, i, fd);
        assert i == k || 0 <= i < k;
      }
    }
  }

  ghost predicate PollErrorAt(polls: seq<Poll>, i: int) {
    0 <= i < |polls| && polls[i].PollError? && !Drained(polls[..i]).Over()
  }

  ghost predicate ReadErrorAt(polls: seq<Poll>, i: int) {
    ReadFailsAt(polls, i, Stdout) || (Handled(polls, i, Stderr) && ReadFailsAt(polls, i, Stderr))
  }

  /** One poll: whether it fails. */
  lemma PollFails(polls: seq<Poll>, i: nat)
    requires i < |polls|
    ensures var d, d' := Drained(polls[..i]), Drained(polls[..i + 1]);
      && (d'.failure == Some(PollFailure) <==> d.failure == Some(PollFailure) || PollErrorAt(polls, i))
      && (d'.failure == Some(ReadFailure) <==> d.failure == Some(ReadFailure) || ReadErrorAt(polls, i))
  {
    OnePoll(polls, i);
    var d := Drained(polls[..i]);
    if !d.Over() && polls[i].Ready? {
      assert ReadFailsAt(polls, i, Stdout) <==> d.Reads(Stdout) && polls[i].out.Fails();
      assert ReadFailsAt(polls, i, Stderr) <==> d.Reads(Stderr) && polls[i].err.Fails();
    }
  }

  /** The polling failed exactly if some poll did, or some reading of a descriptor looked at. */
  lemma {:induction false} FailureIsExplained(polls: seq<Poll>, n: nat)
    requires n <= |polls|
    ensures Drained(polls[..n]).failure == Some(PollFailure) <==> exists i :: 0 <= i < n && PollErrorAt(polls, i)
    ensures Drained(polls[..n]).failure == Some(ReadFailure) <==> exists i :: 0 <= i < n && ReadErrorAt(polls, i)
  {
    if n > 0 {
      var k := n - 1;
      FailureIsExplained(polls, k);
      PollFails(polls, k);
    }
  }

  /** Within one poll, all lines of standard output are offered before those of standard error. */
  lemma PollOrder(polls: seq<Poll>, i: nat, j: nat, k: nat)
    requires i < |polls| && |Offers(polls[..i])| <= j < k < |Offers(polls[..i + 1])|
    ensures Offers(polls[..i + 1])[k].fd.Stdout? ==> Offers(polls[..i + 1])[j].fd.Stdout?
  {
    OnePoll(polls, i);
  }

  // ---------------------------------------------------------------- the code

  /** A reader has seen what `d` says about its descriptor. */
  ghost predicate Shows<S>(r: Reader<S>, d: Streams)
    reads r, r.progress
  {
    r.Synced() && d.Bytes(r.fd) == r.buffer && d.Done(r.fd) == r.done
  }

  ghost predicate BothShow<S>(stdout: Reader<S>, stderr: Reader<S>, d: Streams)
    reads stdout, stderr, stdout.progress, stderr.progress
  {
    && stdout.fd == Stdout && stderr.fd == Stderr && stdout.progress == stderr.progress
    && stdout.progress.Synced() && Shows(stdout, d) && Shows(stderr, d)
  }

  /** The poll loop. */
  method PollLoop<S>(polls: seq<Poll>, progress: Progress<S>)
    returns (failure: Option<Failure>, over: bool, out: seq<Byte>, err: seq<Byte>)
    requires progress.Synced() && progress.calls == []
    modifies progress`completion, progress`reports, progress`calls
    ensures progress.Synced() && progress.calls == Offers(polls)
    ensures failure == Drained(polls).failure
    ensures over == Drained(polls).Over()
    ensures out == Replay(progress.extract, progress.init, Offers(polls)).out
    ensures err == Replay(progress.extract, progress.init, Offers(polls)).err
  {
    var stdout := new Reader(Stdout, progress);
    var stderr := new Reader(Stderr, progress);
    failure := None;
    var i := 0;
    while i < |polls|
      invariant 0 <= i <= |polls| && stdout.progress == progress
      invariant fresh(stdout) && fresh(stderr)
      invariant Drained(polls[..i]).failure == failure && progress.calls == Offers(polls[..i])
      invariant BothShow(stdout, stderr, Drained(polls[..i]))
    {
      var next := i + 1;
      OnePoll(polls, i);
      if failure.None? && !(stdout.done && stderr.done) {
        failure := PollOnce(stdout, stderr, polls[i], Drained(polls[..i]));
      }
      i := next;
    }
    assert polls[..|polls|] == polls;
    over := failure.Some? || (stdout.done && stderr.done);
    out, err := stdout.filtered, stderr.filtered;
  }

  /** One round of the loop. */
  method PollOnce<S>(stdout: Reader<S>, stderr: Reader<S>, poll: Poll, ghost d: Streams)
    returns (failure: Option<Failure>)
    requires BothShow(stdout, stderr, d) && !d.Over()
    modifies stdout, stderr, stdout.progress`completion, stdout.progress`reports, stdout.progress`calls
    ensures BothShow(stdout, stderr, Polled(d, poll))
    ensures failure == Polled(d, poll).failure
    ensures stdout.progress.calls == old(stdout.progress.calls) + PollCalls(d, poll)
  {
    match poll
    case Interrupted => failure := None;
    case PollError => failure := Some(PollFailure);
    case Ready(o, e) => failure := ReadBoth(stdout, stderr, o, e, d);
  }

  /** Standard output first, then standard error. */
  method ReadBoth<S>(stdout: Reader<S>, stderr: Reader<S>, o: FdEvent, e: FdEvent, ghost d: Streams)
    returns (failure: Option<Failure>)
    requires BothShow(stdout, stderr, d) && d.failure.None?
    modifies stdout, stderr, stdout.progress`completion, stdout.progress`reports, stdout.progress`calls
    ensures BothShow(stdout, stderr, FdRead(FdRead(d, Stdout, o), Stderr, e))
    ensures failure == FdRead(FdRead(d, Stdout, o), Stderr, e).failure
    ensures stdout.progress.calls ==
      old(stdout.progress.calls) + (FdCalls(d, Stdout, o) + FdCalls(FdRead(d, Stdout, o), Stderr, e))
  {
    ghost var before, d' := stdout.progress.calls, FdRead(d, Stdout, o);
    failure := ReadOne(stdout, stderr, o, None, d);
    failure := ReadOne(stderr, stdout, e, failure, d');
    Associate(before, FdCalls(d, Stdout, o), FdCalls(d', Stderr, e));
  }

  /** One descriptor is read, unless it is at its end or reading failed before, while the
      other keeps what it has. */
  method ReadOne<S>(r: Reader<S>, other: Reader<S>, ev: FdEvent, before: Option<Failure>, ghost d: Streams)
    returns (failure: Option<Failure>)
    requires r.fd != other.fd && r.progress == other.progress && d.failure == before
    requires r.progress.Synced() && Shows(r, d) && Shows(other, d)
    modifies r, r.progress`completion, r.progress`reports, r.progress`calls
    ensures r.progress.Synced() && Shows(r, FdRead(d, r.fd, ev)) && Shows(other, FdRead(d, r.fd, ev))
    ensures failure == FdRead(d, r.fd, ev).failure
    ensures r.progress.calls == old(r.progress.calls) + FdCalls(d, r.fd, ev)
  {
    failure := before;
    if failure.None? && !r.done {
      ghost var p, calls, bytes := r.progress, r.progress.calls, r.buffer;
      var ok := r.ProcessEvent(ev);
      OtherUntouched(p.extract, p.init, calls, p.calls, r.fd, other.fd);
      ShownResumes(bytes, ev.Data(), ev.Ends());
      OfferedLines(calls, p.calls, r.fd, Shown(Tail(bytes) + ev.Data(), ev.Ends()));
      if !ok { failure := Some(ReadFailure); }
    }
  }

  // ---------------------------------------------------------------- the whole run

  /** There is nothing to complain about. */
  predicate EndedWell(wait: Wait) { wait == Exited(0) || wait.OtherChange? || wait.NoSuchChild? }

  predicate Reaped(wait: Wait) { wait.Signaled? || wait.Exited? || wait.OtherChange? }

  /** Waiting for the process and judging its end. */
  method Reap(wait: Wait, out: seq<Byte>, err: seq<Byte>) returns (failure: Option<Failure>, status: Option<int>)
    // there is a failure exactly for a signal, a non-zero exit and a wait error, and it says which
    ensures failure.None? <==> EndedWell(wait)
    ensures failure == Some(KilledBySignal) <==> wait.Signaled?
    ensures failure == Some(WaitFailure) <==> wait.WaitError?
    ensures failure.Some? && failure.value.ExitStatus? <==> wait.Exited? && wait.code != 0
    // there is a status exactly if the process was reaped, zero exactly if it did not fail
    ensures status.Some? <==> Reaped(wait)
    ensures status.Some? ==> (status.value == 0 <==> failure.None?)
    ensures wait.Signaled? ==> status == Some(128 + wait.signal)
    // a non-zero exit is reported with its status and the best text there is
    ensures failure.Some? && failure.value.ExitStatus? ==>
      && status == Some(failure.value.code) == Some(wait.code)
      && failure.value.message == (if err != [] then err else out)
  {
    failure, status := None, None;
    match wait
    case Signaled(signal) =>
      status, failure := Some(128 + signal), Some(KilledBySignal);
    case Exited(code) =>
      status := Some(code);
      if code != 0 {
        failure := Some(ExitStatus(code, if |err| > 0 then err else out));
      }
    case OtherChange => status := Some(0);
    case NoSuchChild =>
    case WaitError => failure := Some(WaitFailure);
  }

  lemma {:induction false} StreamFailures(polls: seq<Poll>)
    ensures var f := Drained(polls).failure; f.None? || f.value.PollFailure? || f.value.ReadFailure?
  {
    if polls != [] { StreamFailures(polls[..|polls| - 1]); }
  }

  function Steps<S>(reports: seq<S>): seq<Report<S>> {
    seq(|reports|, i requires 0 <= i < |reports| => Step(reports[i]))
  }

  /** The lines offered in a run; none without a process or with one that does not take its input. */
  function Calls(spawned: bool, written: bool, polls: seq<Poll>): seq<Call> {
    if spawned && written then Offers(polls) else []
  }

  /** _utils_exec_and_report_progress. */
  method Run<S>(spawned: bool, written: bool, polls: seq<Poll>, wait: Wait, extract: Option<Extractor<S>>, init: S,
                wantOut: bool, wantErr: bool)
    returns (res: Outcome, trace: seq<Report<S>>)
    // no report at all, or one start, then only steps, then one finish that carries the error
    ensures !spawned ==> trace == [] && res.Returned?
    ensures spawned ==>
      var steps := Steps(Replay(extract, init, Calls(spawned, written, polls)).reports);
      trace == [Started] + steps + (if res.Returned? then [Finished(res.error)] else [])
    // an error exactly when FALSE is returned, output only on success
    ensures res.Returned? ==> (res.success <==> res.error.None?)
    ensures res.Returned? && !res.success ==> res.stdout.None? && res.stderr.None?
    // success is decided by the system calls alone, and the output is the one of a single split
    ensures res.Returned? && res.success <==>
      && spawned && written
      && Drained(polls).outDone && Drained(polls).errDone && Drained(polls).failure.None?
      && EndedWell(wait)
    ensures res.Returned? && res.success ==>
      && res.stdout == (if wantOut then Some(Replay(extract, init, Offers(polls)).out) else None)
      && res.stderr == (if wantErr then Some(Replay(extract, init, Offers(polls)).err) else None)
    // a run that has not returned is one whose descriptors are still open
    ensures res.Running? <==> spawned && written && !Drained(polls).Over()
    // a failed exit keeps its status and reports what standard error, or else standard output, said
    ensures res.Returned? && res.error.Some? && res.error.value.ExitStatus? ==>
      && wait == Exited(res.error.value.code) && res.status == Some(res.error.value.code)
      && res.error.value.message ==
           (var con := Replay(extract, init, Offers(polls)); if con.err != [] then con.err else con.out)
    // the first thing that goes wrong is the error, and success means status zero
    ensures res.Returned? && spawned && written && Drained(polls).failure.Some? ==> res.error == Drained(polls).failure
    ensures res.Returned? && res.error == Some(KilledBySignal) ==>
      wait.Signaled? && res.status == Some(128 + wait.signal)
    ensures res.Returned? && res.success ==> res.status == if Reaped(wait) then Some(0) else None
  {
    if !spawned {
      return Returned(false, Some(SpawnFailure), None, None, None), [];
    }
    trace := [Started];
    if !written {
      trace := trace + [Finished(Some(WriteFailure))];
      return Returned(false, Some(WriteFailure), None, None, None), trace;
    }
    var progress := new Progress(extract, init);
    var failure, over, out, err := PollLoop(polls, progress);
    trace := trace + Steps(progress.reports);
    if !over {
      return Running, trace;
    }
    StreamFailures(polls);
    var status: Option<int> := None;
    if failure.None? {
      failure, status := Reap(wait, out, err);
    }
    trace := trace + [Finished(failure)];
    res := Returned(failure.None?, failure, status,
                    if failure.None? && wantOut then Some(out) else None,
                    if failure.None? && wantErr then Some(err) else None);
  }

  /** Without an extractor the captured output is each stream minus its NUL bytes,
      however the stream was cut and interleaved, and nothing but the frame is reported. */
  lemma CapturedOutput<S>(polls: seq<Poll>, fd: Fd, init: S)
    requires Drained(polls).Done(fd)
    ensures Replay(None, init, Offers(polls)).Text(fd) == WithoutNul(Drained(polls).Bytes(fd))
    ensures Replay(None, init, Offers(polls)).reports == []
  {
    OffersSplit(polls);
    ReplayWithoutExtractor(init, Offers(polls), fd);
    SplitKeepsBytes(Drained(polls).Bytes(fd));
  }

  /** When the other stream is silent, even the calls themselves are those of the one-shot
      split, so the completion value, the reports and the output do not depend on how
      reads and polls cut the stream. */
  lemma SingleStream(polls: seq<Poll>, fd: Fd, other: Fd)
    requires fd != other && Drained(polls).Done(fd) && Drained(polls).Bytes(other) == []
    ensures Offers(polls) == Tagged(Lines(Drained(polls).Bytes(fd)), fd)
  {
    OffersSplit(polls);
    assert LinesOf(Offers(polls), other) == [];
    OnlyOne(Offers(polls), fd, other);
  }

  lemma {:induction false} OnlyOne(calls: seq<Call>, fd: Fd, other: Fd)
    requires fd != other && LinesOf(calls, other) == []
    ensures calls == Tagged(LinesOf(calls, fd), fd)
  {
    if calls != [] {
      var n := |calls| - 1;
      assert calls[n].fd == fd;
      OnlyOne(calls[..n], fd, other);
      assert calls == calls[..n] + [calls[n]];
    }
  }
}
