/** Command lines with extra arguments: a counting pass sizes the array, an appending pass
    fills it, and the array must come out exactly full and terminated. */
module ExtraArgs {
  import opened Sequences
  import opened Wrappers

  /** An extra argument; an absent or empty half is left out of the command line. */
  datatype ExtraArg = ExtraArg(opt: Option<string>, val: Option<string>)

  predicate Given(s: Option<string>) { s.Some? && s.value != "" }

  function Word(s: Option<string>): seq<string> { if Given(s) then [s.value] else [] }

  /** The words of the first `i` extra arguments, in order. */
  function WordsUpTo(e: seq<ExtraArg>, i: nat): seq<string>
    requires i <= |e|
  {
    if i == 0 then [] else WordsUpTo(e, i - 1) + Both(e[i - 1])
  }

  function Words(extra: seq<ExtraArg>): seq<string> { WordsUpTo(extra, |extra|) }

  function Both(e: ExtraArg): seq<string> { Word(e.opt) + Word(e.val) }

  /** The extra arguments of a call; none at all counts as an empty list. */
  function WordsOf(extra: Option<seq<ExtraArg>>): seq<string> {
    if extra.None? then [] else Words(extra.value)
  }

  function Optional(s: Option<string>): seq<string> { if s.Some? then [s.value] else [] }

  /** The slots of a terminated argument array. */
  function Slots(words: seq<string>): seq<Option<string>> {
    seq(|words|, i requires 0 <= i < |words| => Some(words[i]))
  }

  function Terminated(words: seq<string>): seq<Option<string>> {
    Slots(words) + [None]
  }

  // ---------------------------------------------------------------- which words these are

  /** A half that makes a word. */
  predicate Present(s: Option<string>) { s != None && s != Some("") }

  /** How many halves of the first `i` extra arguments are present. */
  function HalvesBefore(e: seq<ExtraArg>, i: nat): nat
    requires i <= |e|
  {
    if i == 0 then 0
    else HalvesBefore(e, i - 1) + (if Present(e[i - 1].opt) then 1 else 0) + (if Present(e[i - 1].val) then 1 else 0)
  }

  lemma {:induction false} WordsCounted(e: seq<ExtraArg>, i: nat)
    requires i <= |e|
    ensures |WordsUpTo(e, i)| == HalvesBefore(e, i)
  {
    if i > 0 { WordsCounted(e, i - 1); }
  }

  /** The arguments that follow only add words behind. */
  lemma {:induction false} WordsSplit(e: seq<ExtraArg>, i: nat, j: nat) returns (rest: seq<string>)
    requires i <= j <= |e|
    ensures WordsUpTo(e, j) == WordsUpTo(e, i) + rest
    decreases j
  {
    if i == j {
      rest := [];
    } else {
      var more := WordsSplit(e, i, j - 1);
      Associate(WordsUpTo(e, i), more, Both(e[j - 1]));
      rest := more + Both(e[j - 1]);
    }
  }

  /** Behind the words of the arguments before it, an argument has its option and then its
      value, each only if it is there; and there are no other words. */
  lemma WordsAreInOrder(e: seq<ExtraArg>, i: nat)
    requires i < |e|
    ensures |Words(e)| == HalvesBefore(e, |e|)
    ensures var n, ws := HalvesBefore(e, i), Words(e);
      match (e[i].opt, e[i].val)
      case (Some(o), Some(v)) =>
        (o != "" ==> n < |ws| && ws[n] == o)
        && (v != "" ==> var m := if o != "" then n + 1 else n; m < |ws| && ws[m] == v)
      case (Some(o), None) => o != "" ==> n < |ws| && ws[n] == o
      case (None, Some(v)) => v != "" ==> n < |ws| && ws[n] == v
      case (None, None) => true
  {
    WordsCounted(e, |e|);
    WordsCounted(e, i);
    var rest := WordsSplit(e, i + 1, |e|);
  }

  // ---------------------------------------------------------------- the two passes

  /** The counting pass. */
  method CountExtraArgs(extra: Option<seq<ExtraArg>>) returns (n: nat)
    ensures n == |WordsOf(extra)|
  {
    n := 0;
    if extra.None? { return; }
    var e := extra.value;
    for i := 0 to |e|
      invariant n == |WordsUpTo(e, i)|
    {
      WordsGrow(e, i);
      if Given(e[i].opt) { n := n + 1; }
      if Given(e[i].val) { n := n + 1; }
    }
  }

  lemma WordsGrow(e: seq<ExtraArg>, i: nat)
    requires i < |e|
    ensures |WordsUpTo(e, i + 1)| == |WordsUpTo(e, i)| + |Word(e[i].opt)| + |Word(e[i].val)|
  {
  }

  /** An argument array under construction. */
  class Argv {
    const slots: array<Option<string>>
    var next: nat
    /** the words written so far */
    ghost var words: seq<string>

    ghost predicate Valid()
      reads this, slots
    {
      && next == |words| <= slots.Length
      && slots[..next] == Slots(words)
      && (forall i | next <= i < slots.Length :: slots[i] == None)
    }

    constructor (size: nat)
      ensures Valid() && fresh(slots) && slots.Length == size && words == []
    {
      slots := new Option<string>[size](_ => None);
      next, words := 0, [];
    }

    method Put(w: string)
      requires Valid() && next < slots.Length
      modifies this`next, this`words, slots
      ensures Valid() && words == old(words) + [w]
    {
      slots[next] := Some(w);
      next := next + 1;
      assert slots[..next] == slots[..next - 1] + [Some(w)];
      words := words + [w];
    }

    method PutAll(ws: seq<string>)
      requires Valid() && next + |ws| <= slots.Length
      modifies this`next, this`words, slots
      ensures Valid() && words == old(words) + ws
    {
      for i := 0 to |ws|
        invariant Valid() && words == old(words) + ws[..i]
      {
        assert ws[..i + 1] == ws[..i] + [ws[i]];
        Put(ws[i]);
      }
      assert ws[..|ws|] == ws;
    }

    method PutHalf(s: Option<string>)
      requires Valid() && next + |Word(s)| <= slots.Length
      modifies this`next, this`words, slots
      ensures Valid() && words == old(words) + Word(s)
    {
      if s.Some? && s.value != "" {
        Put(s.value);
      }
    }

    method PutBoth(e: ExtraArg)
      requires Valid() && next + |Both(e)| <= slots.Length
      modifies this`next, this`words, slots
      ensures Valid() && words == old(words) + Both(e)
    {
      PutHalf(e.opt);
      PutHalf(e.val);
    }

    method PutOptional(s: Option<string>)
      requires Valid() && next + |Optional(s)| <= slots.Length
      modifies this`next, this`words, slots
      ensures Valid() && words == old(words) + Optional(s)
    {
      if s.Some? {
        Put(s.value);
      }
    }

    /** The appending pass. */
    method AppendExtra(extra: Option<seq<ExtraArg>>)
      requires Valid() && next + |WordsOf(extra)| <= slots.Length
      modifies this`next, this`words, slots
      ensures Valid() && words == old(words) + WordsOf(extra)
    {
      if extra.Some? { AppendWords(extra.value); }
    }

    method AppendWords(e: seq<ExtraArg>)
      requires Valid() && next + |Words(e)| <= slots.Length
      modifies this`next, this`words, slots
      ensures Valid() && words == old(words) + Words(e)
    {
      ghost var start := words;
      for i := 0 to |e|
        invariant Valid() && words == start + WordsUpTo(e, i)
      {
        PutNext(e, i, start);
      }
    }

    /** One extra argument behind those before it. */
    method PutNext(e: seq<ExtraArg>, i: nat, ghost start: seq<string>)
      requires Valid() && i < |e| && words == start + WordsUpTo(e, i) && |start| + |Words(e)| <= slots.Length
      modifies this`next, this`words, slots
      ensures Valid() && words == start + WordsUpTo(e, i + 1)
    {
      ghost var rest := WordsSplit(e, i + 1, |e|);
      Associate(start, WordsUpTo(e, i), Both(e[i]));
      PutBoth(e[i]);
    }

    /** A full array but for its last slot is the terminated list of its words. */
    lemma FullIsTerminated()
      requires Valid() && next + 1 == slots.Length
      ensures slots[..] == Terminated(words)
    {
      assert slots[..] == slots[..next] + [slots[next]];
    }
  }

  // ---------------------------------------------------------------- the command lines

  /** _append_extra_args: a copy of the command line with the extra words behind it. */
  method WithExtraArgs(argv: seq<string>, extra: Option<seq<ExtraArg>>) returns (args: Option<array<Option<string>>>)
    ensures args.None? <==> extra.None?
    ensures args.Some? ==> args.value[..] == Terminated(argv + WordsOf(extra))
  {
    if extra.None? {
      return None;
    }
    var n := CountExtraArgs(extra);
    var a := new Argv(|argv| + n + 1);
    a.PutAll(argv);
    a.AppendExtra(extra);
    assert a.words == argv + WordsOf(extra);
    a.FullIsTerminated();
    return Some(a.slots);
  }

  /** The command line that creates a pool: no extra word comes behind the "--". */
  method PoolCreateArgv(name: string, raidLevel: Option<string>, vdevs: seq<string>, extra: Option<seq<ExtraArg>>)
    returns (argv: array<Option<string>>)
    ensures argv[..] == Terminated(["zpool", "create"] + WordsOf(extra) + ["--", name]
                                   + (if raidLevel == None then [] else [raidLevel.value]) + vdevs)
  {
    var n := CountExtraArgs(extra);
    var a := new Argv(4 + n + |vdevs| + (if raidLevel.Some? then 1 else 0) + 1);
    a.PutAll(["zpool", "create"]);
    assert a.words == ["zpool", "create"];
    a.AppendExtra(extra);
    a.PutAll(["--", name]);
    a.PutOptional(raidLevel);
    a.PutAll(vdevs);
    ghost var w := WordsOf(extra);
    assert a.words == ["zpool", "create"] + w + ["--", name] + Optional(raidLevel) + vdevs;
    a.FullIsTerminated();
    return a.slots;
  }

  /** The "-d dir" pairs of an import. */
  function SearchWords(dirs: seq<string>): seq<string> {
    if dirs == [] then [] else SearchWords(dirs[..|dirs| - 1]) + ["-d", dirs[|dirs| - 1]]
  }

  lemma {:induction false} SearchLength(dirs: seq<string>, i: nat)
    requires i <= |dirs|
    ensures |SearchWords(dirs[..i])| == 2 * i
  {
    if i > 0 {
      SearchLength(dirs, i - 1);
      assert dirs[..i][..i - 1] == dirs[..i - 1];
    }
  }

  /** Every directory stands behind a "-d" of its own. */
  lemma {:induction false} SearchInOrder(dirs: seq<string>, i: nat)
    requires i < |dirs|
    ensures |SearchWords(dirs)| == 2 * |dirs|
    ensures var n := 2 * i; SearchWords(dirs)[n] == "-d" && SearchWords(dirs)[n + 1] == dirs[i]
  {
    var last := |dirs| - 1;
    SearchLength(dirs, last);
    if i < last { SearchInOrder(dirs[..last], i); }
  }

  /** The loop over the search directories of an import. */
  method PutSearch(a: Argv, dirs: seq<string>)
    requires a.Valid() && a.next + 2 * |dirs| <= a.slots.Length
    modifies a`next, a`words, a.slots
    ensures a.Valid() && a.words == old(a.words) + SearchWords(dirs)
  {
    for i := 0 to |dirs|
      invariant a.Valid() && a.words == old(a.words) + SearchWords(dirs[..i])
    {
      SearchLength(dirs, i);
      assert dirs[..i + 1][..i] == dirs[..i];
      a.PutAll(["-d", dirs[i]]);
    }
    assert dirs[..|dirs|] == dirs;
  }

  /** The command line that imports a pool. */
  method PoolImportArgv(pool: string, newName: Option<string>, dirs: seq<string>, force: bool,
                        extra: Option<seq<ExtraArg>>)
    returns (argv: array<Option<string>>)
    ensures argv[..] == Terminated(["zpool", "import"] + (if force then ["-f"] else []) + SearchWords(dirs)
                                   + WordsOf(extra) + ["--", pool] + (if newName == None then [] else [newName.value]))
  {
    var n := CountExtraArgs(extra);
    var a := new Argv(4 + (if force then 1 else 0) + 2 * |dirs| + n + (if newName.Some? then 1 else 0) + 1);
    SearchLength(dirs, |dirs|);
    assert dirs[..|dirs|] == dirs;
    a.PutAll(["zpool", "import"]);
    assert a.words == ["zpool", "import"];
    a.PutOptional(if force then Some("-f") else None);
    PutSearch(a, dirs);
    a.AppendExtra(extra);
    a.PutAll(["--", pool]);
    a.PutOptional(newName);
    a.FullIsTerminated();
    return a.slots;
  }
}
