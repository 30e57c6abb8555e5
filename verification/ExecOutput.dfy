/** Cutting the output of a child process into lines while it arrives.

    Bytes are read in arbitrary pieces into a buffer that is never trimmed.  Whatever
    is closed by a newline or a NUL byte is offered to an extractor and, if the extractor
    declines it, appended to the filtered output.  All ways of cutting the stream into
    reads and poll events agree with splitting the whole stream once. */
module ExecOutput {
  import opened Sequences
  import opened Wrappers

  newtype Byte = b: int | 0 <= b < 256
  type Line = seq<Byte>

  const NUL: Byte := 0
  const NEWLINE: Byte := 10

  // ---------------------------------------------------------------- splitting a whole stream

  predicate Separator(b: Byte) { b == NUL || b == NEWLINE }

  /** The first separator at or after `i`, or the length when there is none. */
  function SeparatorFrom(s: seq<Byte>, i: nat): (k: nat)
    requires i <= |s|
    ensures i <= k <= |s| && forall j | i <= j < k :: !Separator(s[j])
    ensures k < |s| ==> Separator(s[k])
    decreases |s| - i
  {
    if i == |s| || Separator(s[i]) then i else SeparatorFrom(s, i + 1)
  }

  function FirstSeparator(s: seq<Byte>): nat { SeparatorFrom(s, 0) }

  predicate Open(s: seq<Byte>) {
    forall i | 0 <= i < |s| :: !Separator(s[i])
  }

  lemma OpenUpToFirst(s: seq<Byte>)
    ensures FirstSeparator(s) <= |s| && Open(s[..FirstSeparator(s)])
  {
  }

  /** A line closed by the separator at `k`: a newline stays on its line, a NUL is dropped. */
  function ClosedAt(s: seq<Byte>, k: nat): Line
    requires k < |s|
  {
    if s[k] == NUL then s[..k] else s[..k + 1]
  }

  /** The lines closed by a separator. */
  function Closed(s: seq<Byte>): seq<Line> {
    var k := FirstSeparator(s);
    if k == |s| then [] else [ClosedAt(s, k)] + Closed(s[k + 1..])
  }

  lemma ClosedStep(s: seq<Byte>, k: nat)
    requires k == FirstSeparator(s) < |s|
    ensures Closed(s) == [ClosedAt(s, k)] + Closed(s[k + 1..]) && Tail(s) == Tail(s[k + 1..])
  {
  }

  /** What follows the last separator. */
  function Tail(s: seq<Byte>): seq<Byte> {
    var k := FirstSeparator(s);
    if k == |s| then s else Tail(s[k + 1..])
  }

  /** The one-shot split of a whole stream. */
  function Lines(s: seq<Byte>): seq<Line> {
    Closed(s) + (if Tail(s) == [] then [] else [Tail(s)])
  }

  /** The lines of a stream that is open or at its end. */
  function Shown(s: seq<Byte>, ended: bool): seq<Line> { if ended then Lines(s) else Closed(s) }

  function Flatten(ls: seq<seq<Byte>>): seq<Byte> {
    if ls == [] then [] else Flatten(ls[..|ls| - 1]) + ls[|ls| - 1]
  }

  function WithoutNul(s: seq<Byte>): seq<Byte> {
    if s == [] then [] else (if s[0] == NUL then [] else [s[0]]) + WithoutNul(s[1..])
  }

  lemma FirstSeparatorAppend(a: seq<Byte>, b: seq<Byte>)
    ensures FirstSeparator(a) < |a| ==> FirstSeparator(a + b) == FirstSeparator(a)
  {
    var k := FirstSeparator(a);
    assert forall i | 0 <= i < |a| :: (a + b)[i] == a[i];
  }

  /** Splitting may stop anywhere and resume with the unfinished tail. */
  lemma {:induction false} SplitResumes(a: seq<Byte>, b: seq<Byte>)
    ensures Closed(a + b) == Closed(a) + Closed(Tail(a) + b)
    ensures Tail(a + b) == Tail(Tail(a) + b)
    decreases |a|
  {
    var k := FirstSeparator(a);
    if k < |a| {
      SplitResumes(a[k + 1..], b);
      ResumeStep(a, b, k);
    }
  }

  lemma ResumeStep(a: seq<Byte>, b: seq<Byte>, k: nat)
    requires k == FirstSeparator(a) < |a|
    requires Closed(a[k + 1..] + b) == Closed(a[k + 1..]) + Closed(Tail(a[k + 1..]) + b)
    requires Tail(a[k + 1..] + b) == Tail(Tail(a[k + 1..]) + b)
    ensures Closed(a + b) == Closed(a) + Closed(Tail(a) + b)
    ensures Tail(a + b) == Tail(Tail(a) + b)
  {
    var rest := a[k + 1..];
    StepBeforeAppended(a, b, k);
    ClosedStep(a, k);
    Associate([ClosedAt(a, k)], Closed(rest), Closed(Tail(rest) + b));
  }

  /** The first line does not notice what is appended. */
  lemma StepBeforeAppended(a: seq<Byte>, b: seq<Byte>, k: nat)
    requires k == FirstSeparator(a) < |a|
    ensures Closed(a + b) == [ClosedAt(a, k)] + Closed(a[k + 1..] + b) && Tail(a + b) == Tail(a[k + 1..] + b)
  {
    FirstSeparatorAppend(a, b);
    ClosedStep(a + b, k);
    assert ClosedAt(a + b, k) == ClosedAt(a, k);
    assert (a + b)[k + 1..] == a[k + 1..] + b;
  }

  /** So new data only adds the lines that it makes of the unfinished tail. */
  lemma ShownResumes(s: seq<Byte>, data: seq<Byte>, ended: bool)
    ensures Shown(s + data, ended) == Closed(s) + Shown(Tail(s) + data, ended)
  {
    SplitResumes(s, data);
  }

  lemma {:induction false} TailIsOpen(s: seq<Byte>)
    ensures |Tail(s)| <= |s| && Tail(s) == s[|s| - |Tail(s)|..]
    ensures Open(Tail(s))
  {
    var k := FirstSeparator(s);
    if k < |s| {
      TailIsOpen(s[k + 1..]);
    } else {
      OpenUpToFirst(s);
      assert s[..k] == s;
    }
  }

  lemma {:induction false} FlattenAppend(a: seq<seq<Byte>>, b: seq<seq<Byte>>)
    ensures Flatten(a + b) == Flatten(a) + Flatten(b)
  {
    if b == [] {
      assert a + b == a;
    } else {
      var n := |b| - 1;
      assert (a + b)[..|a + b| - 1] == a + b[..n];
      FlattenAppend(a, b[..n]);
    }
  }

  lemma {:induction false} WithoutNulAppend(a: seq<Byte>, b: seq<Byte>)
    ensures WithoutNul(a + b) == WithoutNul(a) + WithoutNul(b)
  {
    if a == [] {
      assert a + b == b;
    } else {
      assert (a + b)[1..] == a[1..] + b;
      WithoutNulAppend(a[1..], b);
    }
  }

  lemma {:induction false} NoNulKept(s: seq<Byte>)
    requires Open(s)
    ensures WithoutNul(s) == s
  {
    if s != [] {
      assert !Separator(s[0]);
      NoNulKept(s[1..]);
    }
  }

  /** The split loses nothing but the NUL bytes. */
  lemma {:induction false} SplitKeepsBytes(s: seq<Byte>)
    ensures Flatten(Lines(s)) == WithoutNul(s)
    decreases |s|
  {
    var k := FirstSeparator(s);
    if k == |s| {
      OpenKeepsBytes(s);
    } else {
      SplitKeepsBytes(s[k + 1..]);
      FirstKeepsBytes(s, k);
    }
  }

  lemma OpenKeepsBytes(s: seq<Byte>)
    requires FirstSeparator(s) == |s|
    ensures Flatten(Lines(s)) == WithoutNul(s)
  {
    OpenUpToFirst(s);
    assert s[..|s|] == s;
    NoNulKept(s);
    assert Lines(s) == if s == [] then [] else [s];
    FlattenOne(s);
  }

  lemma FirstKeepsBytes(s: seq<Byte>, k: nat)
    requires k == FirstSeparator(s) < |s|
    requires Flatten(Lines(s[k + 1..])) == WithoutNul(s[k + 1..])
    ensures Flatten(Lines(s)) == WithoutNul(s)
  {
    LinesStep(s, k);
    OpenUpToFirst(s);
    LineKeepsBytes(s, k, Lines(s[k + 1..]), Lines(s));
  }

  lemma LinesStep(s: seq<Byte>, k: nat)
    requires k == FirstSeparator(s) < |s|
    ensures Lines(s) == [ClosedAt(s, k)] + Lines(s[k + 1..])
  {
    var rest := s[k + 1..];
    ClosedStep(s, k);
    Associate([ClosedAt(s, k)], Closed(rest), if Tail(rest) == [] then [] else [Tail(rest)]);
  }

  lemma LineKeepsBytes(s: seq<Byte>, k: nat, rest: seq<Line>, all: seq<Line>)
    requires k < |s| && Open(s[..k]) && all == [ClosedAt(s, k)] + rest
    requires Flatten(rest) == WithoutNul(s[k + 1..])
    ensures Flatten(all) == WithoutNul(s)
  {
    FlattenCons(ClosedAt(s, k), rest);
    ClosedKeepsBytes(s, k);
    WithoutNulSplit(s, k + 1);
  }

  lemma FlattenCons(l: seq<Byte>, ls: seq<seq<Byte>>)
    ensures Flatten([l] + ls) == l + Flatten(ls)
  {
    FlattenAppend([l], ls);
    FlattenOne(l);
  }

  lemma WithoutNulSplit(s: seq<Byte>, k: nat)
    requires k <= |s|
    ensures WithoutNul(s) == WithoutNul(s[..k]) + WithoutNul(s[k..])
  {
    assert s == s[..k] + s[k..];
    WithoutNulAppend(s[..k], s[k..]);
  }

  lemma FlattenOne(l: seq<Byte>)
    ensures Flatten([l]) == l
  {
    assert [l][..0] == [];
    assert Flatten([l][..0]) == [];
  }

  lemma ClosedKeepsBytes(s: seq<Byte>, k: nat)
    requires k < |s| && Open(s[..k])
    ensures WithoutNul(s[..k + 1]) == ClosedAt(s, k)
  {
    assert s[..k + 1] == s[..k] + [s[k]];
    WithoutNulAppend(s[..k], [s[k]]);
    NoNulKept(s[..k]);
    assert [s[k]][1..] == [];
  }

  function Separators(s: seq<Byte>): nat {
    if s == [] then 0 else (if Separator(s[0]) then 1 else 0) + Separators(s[1..])
  }

  lemma {:induction false} SeparatorsAppend(a: seq<Byte>, b: seq<Byte>)
    ensures Separators(a + b) == Separators(a) + Separators(b)
  {
    if a == [] {
      assert a + b == b;
    } else {
      assert (a + b)[1..] == a[1..] + b;
      SeparatorsAppend(a[1..], b);
    }
  }

  lemma {:induction false} NoSeparators(s: seq<Byte>)
    requires Open(s)
    ensures Separators(s) == 0
  {
    if s != [] { NoSeparators(s[1..]); }
  }

  /** A separator only at the very end of a line, where it is a newline. */
  predicate Clean(l: Line) {
    forall i | 0 <= i < |l| && Separator(l[i]) :: i == |l| - 1 && l[i] == NEWLINE
  }

  /** One line per separator, and separators only at the end of a line. */
  lemma {:induction false} SplitIsPrecise(s: seq<Byte>)
    ensures |Closed(s)| == Separators(s)
    ensures forall l | l in Closed(s) :: Clean(l)
    decreases |s|
  {
    var k := FirstSeparator(s);
    OpenUpToFirst(s);
    if k < |s| {
      SplitIsPrecise(s[k + 1..]);
      SeparatorsUpTo(s, k);
    } else {
      assert Separators(s) == 0 by { assert s[..k] == s; NoSeparators(s); }
    }
  }

  lemma SeparatorsUpTo(s: seq<Byte>, k: nat)
    requires k < |s| && Separator(s[k]) && Open(s[..k])
    ensures Separators(s) == 1 + Separators(s[k + 1..])
  {
    var a, b := s[..k], s[k..];
    assert s == a + b;
    SeparatorsAppend(a, b);
    NoSeparators(a);
    assert b[1..] == s[k + 1..];
  }

  // ---------------------------------------------------------------- offering lines to the extractor

  datatype Fd = Stdout | Stderr

  /** Looks at a line and at the completion value; says whether it consumed the line and
      leaves a new completion value either way. */
  type Extractor<!S> = (Line, S) -> (bool, S)

  datatype Call = Call(fd: Fd, line: Line)

  datatype Console<S> = Console(completion: S, reports: seq<S>, out: seq<Byte>, err: seq<Byte>) {
    function Text(fd: Fd): seq<Byte> { if fd.Stdout? then out else err }
  }

  function Offered<S>(x: Option<Extractor<S>>, con: Console<S>, call: Call): Console<S> {
    var (hit, c) := if x.Some? then x.value(call.line, con.completion) else (false, con.completion);
    if hit then con.(completion := c, reports := con.reports + [c])
    else if call.fd.Stdout? then con.(completion := c, out := con.out + call.line)
    else con.(completion := c, err := con.err + call.line)
  }

  /** What a given sequence of offered lines amounts to. */
  function Replay<S>(x: Option<Extractor<S>>, init: S, calls: seq<Call>): Console<S> {
    if calls == [] then Console(init, [], [], []) else
      Offered(x, Replay(x, init, calls[..|calls| - 1]), calls[|calls| - 1])
  }

  /** The lines of one descriptor among the offered ones. */
  function LinesOf(calls: seq<Call>, fd: Fd): seq<Line> {
    if calls == [] then [] else
      LinesOf(calls[..|calls| - 1], fd)
      + (if calls[|calls| - 1].fd == fd then [calls[|calls| - 1].line] else [])
  }

  /** Lines as offered for one descriptor. */
  function Tagged(lines: seq<Line>, fd: Fd): seq<Call> {
    seq(|lines|, i requires 0 <= i < |lines| => Call(fd, lines[i]))
  }

  lemma {:induction false} LinesOfTagged(calls: seq<Call>, lines: seq<Line>, fd: Fd, of: Fd)
    ensures LinesOf(calls + Tagged(lines, fd), of) == LinesOf(calls, of) + (if of == fd then lines else [])
    decreases |lines|
  {
    var all := calls + Tagged(lines, fd);
    if lines == [] {
      assert all == calls;
    } else {
      var n := |lines| - 1;
      assert all[..|all| - 1] == calls + Tagged(lines[..n], fd);
      assert lines == lines[..n] + [lines[n]];
      LinesOfTagged(calls, lines[..n], fd, of);
    }
  }

  /** Without an extractor the text of a descriptor is simply its lines. */
  lemma {:induction false} ReplayWithoutExtractor<S>(init: S, calls: seq<Call>, fd: Fd)
    ensures Replay(None, init, calls).completion == init
    ensures Replay(None, init, calls).reports == []
    ensures Replay(None, init, calls).Text(fd) == Flatten(LinesOf(calls, fd))
  {
    if calls != [] {
      var n := |calls| - 1;
      ReplayWithoutExtractor(init, calls[..n], fd);
      FlattenSnoc(LinesOf(calls[..n], fd), calls[n].line);
    }
  }

  lemma FlattenSnoc(ls: seq<seq<Byte>>, l: seq<Byte>)
    ensures Flatten(ls + [l]) == Flatten(ls) + l
    ensures Flatten(ls + []) == Flatten(ls)
  {
    assert (ls + [l])[..|ls|] == ls;
    assert ls + [] == ls;
  }

  /** What the extractor says about line after line: `hits[k]` is whether it consumed the
      k-th, `comps[k]` the completion value it was shown. */
  ghost predicate Verdicts<S(!new)>(x: Extractor<S>, init: S, calls: seq<Call>, hits: seq<bool>, comps: seq<S>) {
    && |hits| == |calls| && |comps| == |calls| + 1 && comps[0] == init
    && forall k | 0 <= k < |calls| :: Verdict(x, calls[k].line, comps, hits, k)
  }

  ghost predicate Verdict<S(!new)>(x: Extractor<S>, line: Line, comps: seq<S>, hits: seq<bool>, k: nat)
    requires k < |hits| && k + 1 < |comps|
  {
    x(line, comps[k]) == (hits[k], comps[k + 1])
  }

  /** The extractor leaves no choice about them. */
  lemma {:induction false} VerdictsAreUnique<S(!new)>(x: Extractor<S>, init: S, calls: seq<Call>,
                                                     hits: seq<bool>, comps: seq<S>, hits': seq<bool>, comps': seq<S>, n: nat)
    requires Verdicts(x, init, calls, hits, comps) && Verdicts(x, init, calls, hits', comps') && n <= |calls|
    ensures hits[..n] == hits'[..n] && comps[..n + 1] == comps'[..n + 1]
  {
    if n > 0 {
      var k := n - 1;
      VerdictsAreUnique(x, init, calls, hits, comps, hits', comps', k);
      assert comps[k] == comps[..n][k] == comps'[..n][k] == comps'[k];
      assert Verdict(x, calls[k].line, comps, hits, k) && Verdict(x, calls[k].line, comps', hits', k);
    }
  }

  /** The lines of `fd` that the extractor left. */
  ghost function Declined(calls: seq<Call>, hits: seq<bool>, fd: Fd): seq<bool>
    requires |hits| == |calls|
  {
    seq(|calls|, k requires 0 <= k < |calls| => calls[k].fd == fd && !hits[k])
  }

  ghost function LineTexts(calls: seq<Call>): seq<Line> {
    seq(|calls|, k requires 0 <= k < |calls| => calls[k].line)
  }

  /** With an extractor: what is reported are the completion values of exactly the lines it
      consumed, and the text of a descriptor is exactly the lines of it that it left, in order. */
  lemma {:induction false} ReplayMeans<S(!new)>(x: Extractor<S>, init: S, calls: seq<Call>, fd: Fd)
    returns (hits: seq<bool>, comps: seq<S>, reported: seq<nat>, kept: seq<nat>)
    ensures Verdicts(x, init, calls, hits, comps)
    ensures Marks(reported, hits) && Marks(kept, Declined(calls, hits, fd))
    ensures Replay(Some(x), init, calls).completion == comps[|calls|]
    ensures Replay(Some(x), init, calls).reports == Picked(comps[1..], reported)
    ensures Replay(Some(x), init, calls).Text(fd) == Flatten(Picked(LineTexts(calls), kept))
  {
    if calls == [] {
      hits, comps, reported, kept := [], [init], [], [];
    } else {
      var n := |calls| - 1;
      hits, comps, reported, kept := ReplayMeans(x, init, calls[..n], fd);
      var call, con := calls[n], Replay(Some(x), init, calls[..n]);
      var (hit, c) := x(call.line, comps[n]);
      VerdictsSnoc(x, init, calls, hits, comps, hit, c);
      reported, kept := OneVerdict(x, con, calls[..n], call, fd, hits, comps, reported, kept);
      assert calls == calls[..n] + [call];
      hits, comps := hits + [hit], comps + [c];
    }
  }

  ghost predicate Means<S(!new)>(con: Console<S>, calls: seq<Call>, fd: Fd, hits: seq<bool>, comps: seq<S>,
                                 reported: seq<nat>, kept: seq<nat>)
  {
    && |hits| == |calls| && |comps| == |calls| + 1
    && Marks(reported, hits) && Marks(kept, Declined(calls, hits, fd))
    && con.completion == comps[|calls|]
    && con.reports == Picked(comps[1..], reported)
    && con.Text(fd) == Flatten(Picked(LineTexts(calls), kept))
  }

  /** One more line. */
  lemma OneVerdict<S(!new)>(x: Extractor<S>, con: Console<S>, before: seq<Call>, call: Call, fd: Fd,
                            hits: seq<bool>, comps: seq<S>, reported: seq<nat>, kept: seq<nat>)
    returns (reported': seq<nat>, kept': seq<nat>)
    requires Means(con, before, fd, hits, comps, reported, kept)
    ensures var (hit, c) := x(call.line, con.completion);
      Means(Offered(Some(x), con, call), before + [call], fd, hits + [hit], comps + [c], reported', kept')
  {
    var (hit, c) := x(call.line, con.completion);
    reported' := ReportsSnoc(hits, comps, reported, hit, c);
    kept' := TextSnoc(before, call, hits, kept, fd, hit);
  }

  lemma ReportsSnoc<S>(hits: seq<bool>, comps: seq<S>, reported: seq<nat>, hit: bool, c: S) returns (reported': seq<nat>)
    requires Marks(reported, hits) && |comps| == |hits| + 1
    ensures Marks(reported', hits + [hit])
    ensures Picked((comps + [c])[1..], reported') == Picked(comps[1..], reported) + (if hit then [c] else [])
  {
    reported' := if hit then reported + [|hits|] else reported;
    MarksSnoc(reported, hits, hit);
    assert (comps + [c])[1..] == comps[1..] + [c];
    PickedSnoc(comps[1..], reported, c);
  }

  lemma TextSnoc(before: seq<Call>, call: Call, hits: seq<bool>, kept: seq<nat>, fd: Fd, hit: bool) returns (kept': seq<nat>)
    requires |hits| == |before| && Marks(kept, Declined(before, hits, fd))
    ensures Marks(kept', Declined(before + [call], hits + [hit], fd))
    ensures Flatten(Picked(LineTexts(before + [call]), kept'))
      == Flatten(Picked(LineTexts(before), kept)) + (if call.fd == fd && !hit then call.line else [])
  {
    var left := call.fd == fd && !hit;
    kept' := if left then kept + [|before|] else kept;
    assert Declined(before + [call], hits + [hit], fd) == Declined(before, hits, fd) + [left];
    MarksSnoc(kept, Declined(before, hits, fd), left);
    assert LineTexts(before + [call]) == LineTexts(before) + [call.line];
    PickedSnoc(LineTexts(before), kept, call.line);
    FlattenSnoc(Picked(LineTexts(before), kept), call.line);
  }

  lemma VerdictsSnoc<S(!new)>(x: Extractor<S>, init: S, calls: seq<Call>, hits: seq<bool>, comps: seq<S>, hit: bool, c: S)
    requires calls != [] && Verdicts(x, init, calls[..|calls| - 1], hits, comps)
    requires x(calls[|calls| - 1].line, comps[|calls| - 1]) == (hit, c)
    ensures Verdicts(x, init, calls, hits + [hit], comps + [c])
  {
    var n := |calls| - 1;
    forall k | 0 <= k < |calls| ensures Verdict(x, calls[k].line, comps + [c], hits + [hit], k) {
      if k < n {
        assert Verdict(x, calls[..n][k].line, comps, hits, k);
      }
    }
  }

  // ---------------------------------------------------------------- the code

  datatype ReadEnd = Eof | WouldBlock | ReadFailed

  /** One poll result for a descriptor: readable or hung up, and the reads it leads to. */
  datatype FdEvent = FdEvent(pollIn: bool, hangup: bool, chunks: seq<seq<Byte>>, end: ReadEnd) {
    predicate Fails() { pollIn && end.ReadFailed? }
    predicate Ends() { !Fails() && (hangup || (pollIn && end.Eof?)) }
    function Data(): seq<Byte> { if pollIn then Flatten(chunks) else [] }
  }

  /** The bytes up to the first NUL, as C string functions see them. */
  function CString(s: seq<Byte>): seq<Byte> {
    if s == [] || s[0] == NUL then [] else [s[0]] + CString(s[1..])
  }

  lemma {:induction false} CStringStops(s: seq<Byte>, k: nat)
    requires k <= |s| && forall i | 0 <= i < k :: s[i] != NUL
    requires k == |s| || s[k] == NUL
    ensures CString(s) == s[..k]
  {
    if k > 0 {
      assert s[..k] == [s[0]] + s[1..][..k - 1];
      CStringStops(s[1..], k - 1);
    }
  }

  method MemChr(s: seq<Byte>, b: Byte) returns (i: int)
    ensures -1 <= i < |s|
    ensures i >= 0 ==> s[i] == b
    ensures forall j | 0 <= j < (if i < 0 then |s| else i) :: s[j] != b
  {
    for n := 0 to |s|
      invariant forall j | 0 <= j < n :: s[j] != b
    {
      if s[n] == b { return n; }
    }
    return -1;
  }

  /** bd_strchr_len_null: the needle or a NUL, whichever comes first; -1 for a null pointer. */
  method StrChrLenNull(s: seq<Byte>) returns (i: int)
    ensures i == if FirstSeparator(s) == |s| then -1 else FirstSeparator(s)
  {
    var ret := MemChr(s, NEWLINE);
    var retNull := MemChr(s, NUL);
    if ret >= 0 && retNull >= 0 {
      i := if ret < retNull then ret else retNull;
    } else {
      i := if ret < retNull then retNull else ret;
    }
    var k := if i < 0 then |s| else i;
  }

  /** The state shared by the two descriptors of a run. */
  class Progress<S> {
    const extract: Option<Extractor<S>>
    ghost const init: S
    var completion: S
    var reports: seq<S>
    /** every line offered so far, in order */
    ghost var calls: seq<Call>

    ghost predicate Synced()
      reads this
    {
      var con := Replay(extract, init, calls);
      completion == con.completion && reports == con.reports
    }

    constructor (x: Option<Extractor<S>>, init: S)
      ensures Synced() && calls == [] && extract == x && this.init == init
    {
      extract, this.init := x, init;
      completion, reports, calls := init, [], [];
    }
  }

  class Reader<S> {
    const fd: Fd
    const progress: Progress<S>
    var buffer: seq<Byte>
    var pos: nat
    var filtered: seq<Byte>
    var done: bool

    /** What the reader has to show for the bytes it has read so far. */
    ghost predicate Synced()
      reads this, progress
    {
      && pos <= |buffer|
      && filtered == Replay(progress.extract, progress.init, progress.calls).Text(fd)
      && (!done ==> buffer[pos..] == Tail(buffer))
      && LinesOf(progress.calls, fd) == Shown(buffer, done)
    }

    constructor (fd: Fd, progress: Progress<S>)
      requires progress.calls == []
      ensures Synced() && !done && buffer == [] && this.fd == fd && this.progress == progress
    {
      this.fd, this.progress := fd, progress;
      buffer, pos, filtered, done := [], 0, [], false;
    }

    /** Hand one line to the extractor, keep it if declined. */
    method Offer(line: Line)
      requires progress.Synced()
      requires filtered == Replay(progress.extract, progress.init, progress.calls).Text(fd)
      modifies this`filtered, progress`completion, progress`reports, progress`calls
      ensures progress.calls == old(progress.calls) + [Call(fd, line)]
      ensures progress.Synced()
      ensures filtered == Replay(progress.extract, progress.init, progress.calls).Text(fd)
      ensures LinesOf(progress.calls, fd) == LinesOf(old(progress.calls), fd) + [line]
    {
      progress.calls := progress.calls + [Call(fd, line)];
      assert progress.calls[..|progress.calls| - 1] == old(progress.calls);
      var hit := false;
      if progress.extract.Some? {
        var (h, c) := progress.extract.value(line, progress.completion);
        hit, progress.completion := h, c;
      }
      if hit {
        progress.reports := progress.reports + [progress.completion];
      } else {
        filtered := filtered + line;
      }
    }

    /** In the middle of processing fresh data: `buffer[pos..]` is still to be split. */
    ghost predicate Midway()
      reads this, progress
    {
      && progress.Synced() && !done && pos <= |buffer|
      && filtered == Replay(progress.extract, progress.init, progress.calls).Text(fd)
      && LinesOf(progress.calls, fd) + Closed(buffer[pos..]) == Closed(buffer)
      && Tail(buffer[pos..]) == Tail(buffer)
    }

    /** Take the next closed line off the buffer, if there is one. */
    method NextLine() returns (more: bool)
      requires Midway()
      modifies this`filtered, this`pos, progress`completion, progress`reports, progress`calls
      ensures Midway() && OnlyFrom(old(progress.calls), progress.calls, fd)
      ensures if more then pos > old(pos) else Tail(buffer) == buffer[pos..] && Closed(buffer[pos..]) == []
    {
      var newline, line := NextSeparated(buffer[pos..]);
      if newline < 0 {
        return false;
      }
      var next := pos + newline + 1;
      assert buffer[pos..][newline + 1..] == buffer[next..];
      Associate(LinesOf(progress.calls, fd), [line], Closed(buffer[next..]));
      Offer(line);
      pos := next;
      return true;
    }

    /** Process the fresh data by lines. */
    method SplitFresh()
      requires Midway()
      modifies this`filtered, this`pos, progress`completion, progress`reports, progress`calls
      ensures Midway() && OnlyFrom(old(progress.calls), progress.calls, fd)
      ensures Tail(buffer) == buffer[pos..] && LinesOf(progress.calls, fd) == Closed(buffer)
    {
      var more := true;
      while more
        invariant Midway() && OnlyFrom(old(progress.calls), progress.calls, fd)
        invariant !more ==> Tail(buffer) == buffer[pos..] && Closed(buffer[pos..]) == []
        decreases more, |buffer| - pos
      {
        more := NextLine();
      }
    }

    /** _process_fd_event: read what is there, process it by lines, and at the end of file
        process the rest of the buffer. */
    method ProcessEvent(ev: FdEvent) returns (ok: bool)
      requires progress.Synced() && Synced() && !done
      modifies this, progress`completion, progress`reports, progress`calls
      ensures progress.Synced() && Synced()
      ensures buffer == old(buffer) + ev.Data()
      ensures ok <==> !ev.Fails()
      ensures done <==> ev.Ends()
      ensures OnlyFrom(old(progress.calls), progress.calls, fd)
    {
      var eof := false;
      if ev.pollIn {
        SplitResumes(buffer, ev.Data());
        assert (buffer + ev.Data())[pos..] == buffer[pos..] + ev.Data();
        Fill(ev.chunks);
        SplitFresh();
        if ev.end.ReadFailed? {
          return false;
        }
        eof := ev.end.Eof?;
      }
      if ev.hangup {
        eof := true;
      }
      if eof {
        Finish();
      }
      return true;
    }

    /** End of file: what is left is the last line. */
    method Finish()
      requires progress.Synced() && Synced() && !done
      modifies this`filtered, this`done, progress`completion, progress`reports, progress`calls
      ensures progress.Synced() && Synced() && done
      ensures OnlyFrom(old(progress.calls), progress.calls, fd)
    {
      done := true;
      var line := CString(buffer[pos..]);
      OpenCString(buffer);
      if |line| > 0 {
        Offer(line);
      }
    }

    /** The read loop. */
    method Fill(chunks: seq<seq<Byte>>)
      modifies this`buffer
      ensures buffer == old(buffer) + Flatten(chunks)
    {
      for i := 0 to |chunks|
        invariant buffer == old(buffer) + Flatten(chunks[..i])
      {
        assert chunks[..i + 1][..i] == chunks[..i];
        buffer := buffer + chunks[i];
      }
      assert chunks[..|chunks|] == chunks;
    }
  }

  /** Only lines of `fd` were offered in between. */
  ghost predicate OnlyFrom(before: seq<Call>, after: seq<Call>, fd: Fd) {
    before <= after && forall i | |before| <= i < |after| :: after[i].fd == fd
  }

  /** Then the lines of `fd` determine what was offered. */
  lemma OfferedLines(before: seq<Call>, after: seq<Call>, fd: Fd, lines: seq<Line>)
    requires OnlyFrom(before, after, fd) && LinesOf(after, fd) == LinesOf(before, fd) + lines
    ensures after == before + Tagged(lines, fd)
  {
    var n := |before|;
    var ls := seq(|after| - n, i requires 0 <= i < |after| - n => after[n + i].line);
    assert after == before + Tagged(ls, fd);
    LinesOfTagged(before, ls, fd, fd);
    assert ls == LinesOf(after, fd)[|LinesOf(before, fd)|..] == lines;
  }

  lemma OpenCString(s: seq<Byte>)
    ensures CString(Tail(s)) == Tail(s)
  {
    TailIsOpen(s);
    var t := Tail(s);
    assert forall i | 0 <= i < |t| :: t[i] != NUL by { assert forall i | 0 <= i < |t| :: !Separator(t[i]); }
    CStringStops(t, |t|);
    assert t[..|t|] == t;
  }

  /** Find the next closed line in the rest of the buffer and copy it. */
  method NextSeparated(rest: seq<Byte>) returns (newline: int, line: Line)
    ensures newline < |rest|
    ensures newline < 0 ==> Closed(rest) == [] && Tail(rest) == rest
    ensures newline >= 0 ==> Closed(rest) == [line] + Closed(rest[newline + 1..])
    ensures newline >= 0 ==> Tail(rest) == Tail(rest[newline + 1..])
  {
    newline := StrChrLenNull(rest);
    if newline < 0 {
      return -1, [];
    }
    line := CString(rest[..newline + 1]);
    FirstIsClosed(rest, newline);
    ClosedStep(rest, newline);
  }

  lemma FirstIsClosed(s: seq<Byte>, k: nat)
    requires k == FirstSeparator(s) < |s|
    ensures CString(s[..k + 1]) == ClosedAt(s, k)
  {
    OpenUpToFirst(s);
    ClosedIsCString(s, k);
  }

  /** What g_strndup copies of a closed line. */
  lemma ClosedIsCString(s: seq<Byte>, k: nat)
    requires k < |s| && Separator(s[k]) && Open(s[..k])
    ensures CString(s[..k + 1]) == ClosedAt(s, k)
  {
    var line := s[..k + 1];
    var n := if s[k] == NUL then k else k + 1;
    assert forall i | 0 <= i < k :: !Separator(s[..k][i]);
    CStringStops(line, n);
    assert line[..n] == s[..n];
  }

  /** The other descriptor does not notice. */
  lemma {:induction false} OtherUntouched<S>(x: Option<Extractor<S>>, init: S, before: seq<Call>, after: seq<Call>,
                                             fd: Fd, other: Fd)
    requires OnlyFrom(before, after, fd) && other != fd
    ensures LinesOf(after, other) == LinesOf(before, other)
    ensures Replay(x, init, after).Text(other) == Replay(x, init, before).Text(other)
    decreases |after|
  {
    if |after| == |before| {
      assert after == before;
    } else {
      var n := |after| - 1;
      assert after[n].fd == fd;
      OtherUntouched(x, init, before, after[..n], fd, other);
    }
  }
}
