/** Comparing version strings: the general comparison of the utilities library, the at-least
    check of the ZFS plugin and the kernel version check, and how far they agree. */
module Versions {
  import opened Decimal
  import opened Wrappers

  // ---------------------------------------------------------------- comparing lists of numbers

  /** The sign of `x - y`. */
  function Cmp(x: int, y: int): int { if x < y then -1 else if x > y then 1 else 0 }

  /** Lexicographic order, a proper prefix being lower: -1, 0 or 1. */
  function Lex(a: seq<nat>, b: seq<nat>): int {
    if a == [] || b == [] then Cmp(|a|, |b|)
    else if a[0] != b[0] then Cmp(a[0], b[0])
    else Lex(a[1..], b[1..])
  }

  lemma {:induction false} LexIsAntisymmetric(a: seq<nat>, b: seq<nat>)
    ensures Lex(a, b) == -Lex(b, a)
    ensures Lex(a, b) == 0 <==> a == b
  {
    if a != [] && b != [] && a[0] == b[0] {
      LexIsAntisymmetric(a[1..], b[1..]);
      assert a == [a[0]] + a[1..] && b == [b[0]] + b[1..];
    }
  }

  lemma {:induction false} LexIsTransitive(a: seq<nat>, b: seq<nat>, c: seq<nat>)
    requires Lex(a, b) <= 0 && Lex(b, c) <= 0
    ensures Lex(a, c) <= 0
    ensures Lex(a, b) < 0 || Lex(b, c) < 0 ==> Lex(a, c) < 0
  {
    if a != [] && b != [] && c != [] && a[0] == b[0] == c[0] {
      LexIsTransitive(a[1..], b[1..], c[1..]);
    }
  }

  lemma {:induction false} LexPrefixIsLower(a: seq<nat>, b: seq<nat>)
    requires b != []
    ensures Lex(a, a + b) == -1
  {
    if a != [] {
      assert (a + b)[1..] == a[1..] + b;
      LexPrefixIsLower(a[1..], b);
    }
  }

  /** The first difference decides. */
  lemma {:induction false} LexFirstDifference(a: seq<nat>, b: seq<nat>, k: nat)
    requires k < |a| && k < |b| && a[..k] == b[..k] && a[k] != b[k]
    ensures Lex(a, b) == Cmp(a[k], b[k])
  {
    if k > 0 {
      assert a[0] == a[..k][0] == b[..k][0] == b[0];
      assert a[1..][..k - 1] == a[..k][1..] == b[..k][1..] == b[1..][..k - 1];
      LexFirstDifference(a[1..], b[1..], k - 1);
    }
  }

  // ---------------------------------------------------------------- bd_utils_version_cmp

  const UINT64_MAX: nat := 0xFFFF_FFFF_FFFF_FFFF
  const TWO31: int := 0x8000_0000
  const TWO32: int := 0x1_0000_0000

  /** The pattern a version must match: numbers joined by dots, then perhaps a dash and a
      single digit, then perhaps a line break. */
  predicate Supported(s: string)
    decreases |s|, 0
  {
    var k := DigitRun(s);
    k > 0 && SupportedRest(s[k..])
  }

  predicate SupportedRest(s: string)
    decreases |s|, 1
  {
    Ending(s) || (s != [] && s[0] == '.' && Supported(s[1..]))
  }

  predicate Ending(e: string) {
    e == "" || e == "\n" || (|e| == 2 && DashDigit(e)) || (|e| == 3 && DashDigit(e) && e[2] == '\n')
  }

  predicate DashDigit(e: string)
    requires |e| >= 2
  {
    e[0] == '-' && IsDigit(e[1])
  }

  predicate Number(f: string) { f != [] && AllDigits(f) }

  /** Strings put together from numbers, dots and one of the endings. */
  function Assembled(ns: seq<string>, ending: string): string
    requires ns != []
    decreases |ns|, 1
  {
    ns[0] + Following(ns, ending)
  }

  function Following(ns: seq<string>, ending: string): string
    requires ns != []
    decreases |ns|, 0
  {
    if |ns| == 1 then ending else "." + Assembled(ns[1..], ending)
  }

  /** Only strings of that form are supported. */
  lemma {:induction false} SupportedIsAssembled(s: string) returns (ns: seq<string>, ending: string)
    requires Supported(s)
    ensures ns != [] && (forall i | 0 <= i < |ns| :: Number(ns[i])) && Ending(ending) && s == Assembled(ns, ending)
    decreases |s|
  {
    var k := DigitRun(s);
    DigitRunDigits(s);
    if Ending(s[k..]) {
      ns, ending := [s[..k]], s[k..];
      assert s == s[..k] + s[k..];
    } else {
      var ns', e := SupportedIsAssembled(s[k..][1..]);
      ns, ending := [s[..k]] + ns', e;
      OneMore(s, k, ns', e);
    }
  }

  lemma OneMore(s: string, k: nat, ns: seq<string>, e: string)
    requires k < |s| && s[k] == '.' && ns != [] && s[k..][1..] == Assembled(ns, e)
    ensures s == Assembled([s[..k]] + ns, e)
  {
    assert ([s[..k]] + ns)[1..] == ns;
    assert s[k..] == "." + s[k..][1..];
    assert s == s[..k] + s[k..];
  }

  /** And all of them are. */
  lemma {:induction false} AssembledIsSupported(ns: seq<string>, ending: string)
    requires ns != [] && (forall i | 0 <= i < |ns| :: Number(ns[i])) && Ending(ending)
    ensures Supported(Assembled(ns, ending))
    decreases |ns|
  {
    if |ns| > 1 {
      AssembledIsSupported(ns[1..], ending);
      var rest := Following(ns, ending);
      assert rest[1..] == Assembled(ns[1..], ending);
      assert SupportedRest(rest);
    }
    NumberThenRest(ns[0], Following(ns, ending));
  }

  lemma NumberThenRest(f: string, rest: string)
    requires Number(f) && SupportedRest(rest)
    ensures Supported(f + rest)
  {
    var s := f + rest;
    DigitRunIs(s, |f|);
    assert s[|f|..] == rest;
  }

  predicate Joint(c: char) { c == '.' || c == '-' }

  function FirstJoint(s: string): (k: nat)
    ensures k <= |s|
    ensures k < |s| ==> Joint(s[k])
  {
    if s == [] || Joint(s[0]) then 0 else 1 + FirstJoint(s[1..])
  }

  /** The fields between dots and dashes. */
  function Fields(s: string): seq<string> {
    var k := FirstJoint(s);
    if k == |s| then [s] else [s[..k]] + Fields(s[k + 1..])
  }

  predicate IsOctal(c: char) { '0' <= c <= '7' }

  function OctalRun(s: string): (k: nat)
    ensures k <= |s|
  {
    if s == [] || !IsOctal(s[0]) then 0 else 1 + OctalRun(s[1..])
  }

  function OctalValue(s: string): nat {
    if s == [] then 0 else 8 * OctalValue(s[..|s| - 1]) + DigitValue(s[|s| - 1])
  }

  function Saturated(n: nat): nat { if n > UINT64_MAX then UINT64_MAX else n }

  /** Number conversion with automatic base: a leading zero means octal. */
  function FieldValue(s: string): nat {
    if s != [] && s[0] == '0' then Saturated(OctalValue(s[..OctalRun(s)])) else Saturated(Value(s[..DigitRun(s)]))
  }

  function FieldValues(fs: seq<string>): seq<nat> {
    seq(|fs|, i requires 0 <= i < |fs| => FieldValue(fs[i]))
  }

  /** bd_utils_version_cmp; -2 stands for the error. */
  method VersionCmp(v1: string, v2: string) returns (ret: int)
    ensures !Supported(v1) || !Supported(v2) ==> ret == -2
    ensures Supported(v1) && Supported(v2) ==> ret == Lex(FieldValues(Fields(v1)), FieldValues(Fields(v2)))
  {
    if !Supported(v1) || !Supported(v2) {
      return -2;
    }
    var f1, f2 := Fields(v1), Fields(v2);
    ghost var a, b := FieldValues(f1), FieldValues(f2);
    ret := -2;
    var i := 0;
    while i < |f1| && i < |f2| && ret == -2
      invariant 0 <= i <= |f1| && i <= |f2|
      invariant ret == -2 ==> a[..i] == b[..i]
      invariant ret != -2 ==> ret == Lex(a, b)
    {
      var x, y := FieldValue(f1[i]), FieldValue(f2[i]);
      if x != y {
        LexFirstDifference(a, b, i);
      }
      if x < y {
        ret := -1;
      } else if x > y {
        ret := 1;
      }
      i := i + 1;
    }
    if ret == -2 {
      LexCommonPrefix(a, b, i);
      if |f1| < |f2| {
        ret := -1;
      } else if |f1| > |f2| {
        ret := 1;
      } else {
        ret := 0;
      }
    }
  }

  lemma {:induction false} LexCommonPrefix(a: seq<nat>, b: seq<nat>, k: nat)
    requires k <= |a| && k <= |b| && a[..k] == b[..k] && (k == |a| || k == |b|)
    ensures Lex(a, b) == Cmp(|a|, |b|)
  {
    if k > 0 {
      assert a[0] == a[..k][0] == b[..k][0] == b[0];
      assert a[1..][..k - 1] == a[..k][1..] == b[..k][1..] == b[1..][..k - 1];
      LexCommonPrefix(a[1..], b[1..], k - 1);
    }
  }

  // ---------------------------------------------------------------- normalising a ZFS version

  /** Numbers joined by dots: every dot is followed by a digit. */
  ghost predicate Dotted(s: string) {
    && s != [] && IsDigit(s[0])
    && forall i | 0 <= i < |s| :: IsDigit(s[i]) || DotThenDigit(s, i)
  }

  predicate DotThenDigit(s: string, i: nat)
    requires i < |s|
  {
    s[i] == '.' && i + 1 < |s| && IsDigit(s[i + 1])
  }

  /** `raw[lo..hi]` starts at the first digit and cannot be extended to the right. */
  ghost predicate MaximalRun(raw: string, lo: nat, hi: nat) {
    && lo < hi <= |raw|
    && (forall i | 0 <= i < lo :: !IsDigit(raw[i]))
    && IsDigit(raw[lo])
    && (forall i | lo <= i < hi :: IsDigit(raw[i]) || DotThenDigit(raw, i))
    && (hi < |raw| ==> !IsDigit(raw[hi]) && !DotThenDigit(raw, hi))
  }

  /** normalize_zfs_version, with its two scans. */
  method Normalize(raw: string) returns (r: Option<string>, lo: nat, hi: nat)
    ensures r.None? ==> AllNonDigits(raw) || (MaximalRun(raw, lo, hi) && '.' !in raw[lo..hi])
    ensures r.Some? ==> MaximalRun(raw, lo, hi) && '.' in raw[lo..hi] && r.value == raw[lo..hi]
  {
    lo := 0;
    while lo < |raw| && !IsDigit(raw[lo])
      invariant lo <= |raw| && forall i | 0 <= i < lo :: !IsDigit(raw[i])
    {
      lo := lo + 1;
    }
    hi := lo;
    if lo == |raw| {
      return None, lo, hi;
    }
    while hi < |raw| && (IsDigit(raw[hi]) || (raw[hi] == '.' && hi + 1 < |raw| && IsDigit(raw[hi + 1])))
      invariant lo <= hi <= |raw|
      invariant forall i | lo <= i < hi :: IsDigit(raw[i]) || DotThenDigit(raw, i)
    {
      hi := hi + 1;
    }
    if '.' !in raw[lo..hi] {
      return None, lo, hi;
    }
    return Some(raw[lo..hi]), lo, hi;
  }

  predicate AllNonDigits(s: string) { forall i | 0 <= i < |s| :: !IsDigit(s[i]) }

  /** There is only one such run, so `Normalize` is determined by its contract. */
  lemma MaximalRunIsUnique(raw: string, lo: nat, hi: nat, lo': nat, hi': nat)
    requires MaximalRun(raw, lo, hi) && MaximalRun(raw, lo', hi')
    ensures lo == lo' && hi == hi'
  {
    assert IsDigit(raw[lo]) && IsDigit(raw[lo']);
    if hi < |raw| { assert !IsDigit(raw[hi]) && !DotThenDigit(raw, hi); }
    if hi' < |raw| { assert !IsDigit(raw[hi']) && !DotThenDigit(raw, hi'); }
  }

  /** A maximal run is a dotted number, and normalising it again changes nothing. */
  lemma RunIsDotted(raw: string, lo: nat, hi: nat)
    requires MaximalRun(raw, lo, hi)
    ensures Dotted(raw[lo..hi])
    ensures MaximalRun(raw[lo..hi], 0, hi - lo) && raw[lo..hi][0..hi - lo] == raw[lo..hi]
  {
    var s := raw[lo..hi];
    forall i | 0 <= i < |s| ensures IsDigit(s[i]) || DotThenDigit(s, i) {
      assert s[i] == raw[lo + i];
      if !IsDigit(s[i]) {
        assert DotThenDigit(raw, lo + i);
        assert hi < |raw| ==> !IsDigit(raw[hi]);
        assert s[i + 1] == raw[lo + i + 1];
      }
    }
  }

  // ---------------------------------------------------------------- the numbers of a dotted version

  /** The numbers between the dots. */
  function Numbers(s: string): seq<string> {
    var k := DigitRun(s);
    if k == |s| then [s] else [s[..k]] + Numbers(s[k + 1..])
  }

  /** A dotted number is supported by the general comparison, whose fields are its numbers. */
  lemma {:induction false} DottedIsSupported(s: string)
    requires Dotted(s)
    ensures Supported(s) && Fields(s) == Numbers(s)
    decreases |s|
  {
    var k := DigitRun(s);
    DottedJoint(s);
    if k < |s| {
      DottedIsSupported(s[k + 1..]);
    }
  }

  /** The first separator ends the first number. */
  lemma DottedJoint(s: string)
    requires Dotted(s)
    ensures FirstJoint(s) == DigitRun(s) > 0
    ensures DigitRun(s) == |s| ==> Supported(s)
  {
    var k := DigitRun(s);
    DigitRunDigits(s);
    FirstJointAfterDigits(s, k);
    assert k > 0 by { assert IsDigit(s[0]); }
    assert s[|s|..] == "";
  }

  lemma {:induction false} FirstJointAfterDigits(s: string, k: nat)
    requires k <= |s| && AllDigits(s[..k]) && (k == |s| || Joint(s[k]))
    ensures FirstJoint(s) == k
  {
    if k > 0 {
      assert IsDigit(s[..k][0]);
      assert s[1..][..k - 1] == s[..k][1..];
      FirstJointAfterDigits(s[1..], k - 1);
    }
  }

  /** A dot makes at least two numbers. */
  lemma DotMakesTwo(s: string)
    requires Dotted(s) && '.' in s
    ensures |Numbers(s)| >= 2
  {
    DigitRunDigits(s);
    assert s[..|s|] == s;
    assert !AllDigits(s);
  }

  // ---------------------------------------------------------------- which numbers a field can hold

  /** The numbers that the conversion reads as written: with a leading zero only those of one
      octal digit, else those that fit 64 bits. */
  predicate ReadsAsNumber(f: string) {
    Value(f) <= (if f != [] && f[0] == '0' then 7 else UINT64_MAX)
  }

  lemma {:induction false} OctalAgainstDecimal(s: string)
    requires forall i | 0 <= i < |s| :: IsOctal(s[i])
    ensures OctalValue(s) <= Value(s)
    ensures OctalValue(s) == Value(s) <==> Value(s) <= 7
  {
    if s != [] { OctalAgainstDecimal(s[..|s| - 1]); }
  }

  lemma {:induction false} PrefixIsSmaller(s: string, k: nat)
    requires k <= |s|
    ensures Value(s[..k]) <= Value(s)
    ensures k < |s| && Value(s) > 0 ==> Value(s[..k]) < Value(s)
  {
    if k < |s| {
      var n := |s| - 1;
      PrefixIsSmaller(s[..n], k);
      assert s[..n][..k] == s[..k];
    } else {
      assert s[..k] == s;
    }
  }

  /** A field that is a number is read as that number exactly in these cases. */
  lemma FieldValueIsExact(f: string)
    requires Number(f)
    ensures FieldValue(f) == Value(f) <==> ReadsAsNumber(f)
  {
    if f[0] == '0' {
      var k := OctalRun(f);
      OctalRunEnds(f);
      OctalAgainstDecimal(f[..k]);
      PrefixIsSmaller(f, k);
      if k < |f| {
        BeyondOctal(f, k);
      } else {
        assert f[..k] == f;
      }
    } else {
      DigitRunIs(f, |f|);
      assert f[..|f|] == f;
    }
  }

  lemma {:induction false} OctalRunEnds(s: string)
    ensures forall i | 0 <= i < OctalRun(s) :: IsOctal(s[i])
    ensures OctalRun(s) < |s| ==> !IsOctal(s[OctalRun(s)])
  {
    if s != [] && IsOctal(s[0]) { OctalRunEnds(s[1..]); }
  }

  /** A digit above seven makes a number above seven. */
  lemma BeyondOctal(f: string, k: nat)
    requires k < |f| && IsDigit(f[k]) && !IsOctal(f[k])
    ensures Value(f) >= 8
  {
    PrefixIsSmaller(f, k + 1);
    assert f[..k + 1][..k] == f[..k];
  }

  /** The numbers of a version, the one after the dash included. */
  function Components(ns: seq<string>, ending: string): seq<string>
    requires Ending(ending)
  {
    if |ending| >= 2 then ns + [[ending[1]]] else ns
  }

  /** A number is read up to its end. */
  lemma FieldValueStops(f: string, rest: string)
    requires Number(f) && (rest == [] || !IsDigit(rest[0]))
    ensures FieldValue(f + rest) == FieldValue(f)
  {
    OctalRunStops(f, rest);
    DigitRunIs(f, |f|);
    DigitRunIs(f + rest, |f|);
    assert (f + rest)[..|f|] == f[..|f|];
    assert (f + rest)[..OctalRun(f)] == f[..OctalRun(f)];
  }

  lemma {:induction false} OctalRunStops(f: string, rest: string)
    requires rest == [] || !IsDigit(rest[0])
    ensures OctalRun(f + rest) == OctalRun(f)
  {
    if f == [] {
      assert f + rest == rest;
    } else {
      assert (f + rest)[1..] == f[1..] + rest;
      OctalRunStops(f[1..], rest);
    }
  }

  /** A number in front of a separator is the first field. */
  lemma FieldsSplit(f: string, c: char, rest: string)
    requires Number(f) && Joint(c)
    ensures Fields(f + ([c] + rest)) == [f] + Fields(rest)
  {
    var s := f + ([c] + rest);
    assert s[..|f|] == f && s[|f| + 1..] == rest;
    FirstJointAfterDigits(s, |f|);
  }

  lemma FieldValuesCons(f: string, fs: seq<string>)
    ensures FieldValues([f] + fs) == [FieldValue(f)] + FieldValues(fs)
  {
  }

  /** One number and a separator in front of other fields. */
  lemma OneMoreField(f: string, c: char, s: string, cs: seq<string>)
    requires Number(f) && Joint(c) && FieldValues(Fields(s)) == FieldValues(cs)
    ensures FieldValues(Fields(f + ([c] + s))) == FieldValues([f] + cs)
  {
    FieldsSplit(f, c, s);
    FieldValuesCons(f, Fields(s));
    FieldValuesCons(f, cs);
  }

  /** A number that nothing or a line break follows. */
  lemma LastField(f: string, rest: string)
    requires Number(f) && (rest == "" || rest == "\n")
    ensures FieldValues(Fields(f + rest)) == FieldValues([f])
  {
    FieldValueStops(f, rest);
  }

  /** The fields of the last number and the ending. */
  lemma LastFields(f: string, ending: string)
    requires Number(f) && Ending(ending)
    ensures FieldValues(Fields(f + ending)) == FieldValues(Components([f], ending))
  {
    if |ending| >= 2 {
      var d, rest := [ending[1]], ending[2..];
      LastField(d, rest);
      OneMoreField(f, '-', d + rest, [d]);
      assert ending == ['-'] + (d + rest);
    } else {
      LastField(f, ending);
    }
  }

  lemma AssembledStep(ns: seq<string>, ending: string)
    requires |ns| > 1 && Ending(ending)
    ensures Assembled(ns, ending) == ns[0] + (['.'] + Assembled(ns[1..], ending))
    ensures Components(ns, ending) == [ns[0]] + Components(ns[1..], ending)
  {
    assert ns == [ns[0]] + ns[1..];
  }

  /** The comparison sees the numbers a version is put together from. */
  lemma {:induction false} AssembledFields(ns: seq<string>, ending: string)
    requires ns != [] && (forall i | 0 <= i < |ns| :: Number(ns[i])) && Ending(ending)
    ensures FieldValues(Fields(Assembled(ns, ending))) == FieldValues(Components(ns, ending))
    decreases |ns|
  {
    if |ns| == 1 {
      assert ns == [ns[0]];
      LastFields(ns[0], ending);
    } else {
      AssembledFields(ns[1..], ending);
      OneMoreField(ns[0], '.', Assembled(ns[1..], ending), Components(ns[1..], ending));
      AssembledStep(ns, ending);
    }
  }

  /** The numbers compared are those written in the version exactly if each of them can be held. */
  lemma ReadingIsExact(ns: seq<string>, ending: string)
    requires ns != [] && (forall i | 0 <= i < |ns| :: Number(ns[i])) && Ending(ending)
    ensures FieldValues(Fields(Assembled(ns, ending))) == Values(Components(ns, ending))
      <==> forall i | 0 <= i < |ns| :: ReadsAsNumber(ns[i])
  {
    AssembledFields(ns, ending);
    var cs := Components(ns, ending);
    forall i | 0 <= i < |cs| ensures FieldValue(cs[i]) == Value(cs[i]) <==> ReadsAsNumber(cs[i]) {
      FieldValueIsExact(cs[i]);
    }
    ReadingsEqual(cs);
    assert forall i | 0 <= i < |ns| :: cs[i] == ns[i];
  }

  lemma ReadingsEqual(cs: seq<string>)
    ensures FieldValues(cs) == Values(cs) <==> forall i | 0 <= i < |cs| :: FieldValue(cs[i]) == Value(cs[i])
  {
    var r, v := FieldValues(cs), Values(cs);
    assert forall i | 0 <= i < |cs| :: r[i] == FieldValue(cs[i]) && v[i] == Value(cs[i]);
    assert (forall i | 0 <= i < |cs| :: r[i] == v[i]) ==> r == v;
  }

  /** So "1.010" is below "1.9", although ten is above nine. */
  lemma OctalMisorders()
    ensures Supported("1.010") && Supported("1.9")
    ensures Lex(FieldValues(Fields("1.010")), FieldValues(Fields("1.9"))) == -1
    ensures Lex(Values(["1", "010"]), Values(["1", "9"])) == 1
  {
    assert "1.010" == "1" + "." + "010" && "1.9" == "1" + "." + "9";
    TwoNumbers("1", "010");
    TwoNumbers("1", "9");
    ReadOfTen();
    ReadOfNine();
    TwoFieldsCompare("1", "010", "9");
  }

  lemma ReadOfNine()
    ensures FieldValue("9") == Value("9") == 9
  {
    FieldValueIsExact("9");
    assert Value("9") == 9 by { assert "9"[..0] == [] && Value("9"[..0]) == 0; }
  }

  lemma TwoFieldsCompare(a: string, b: string, c: string)
    requires FieldValue(b) != FieldValue(c) && Value(b) != Value(c)
    ensures Lex(FieldValues([a, b]), FieldValues([a, c])) == Cmp(FieldValue(b), FieldValue(c))
    ensures Lex(Values([a, b]), Values([a, c])) == Cmp(Value(b), Value(c))
  {
    var p, q := FieldValues([a, b]), FieldValues([a, c]);
    assert p[..1] == q[..1];
    LexFirstDifference(p, q, 1);
    var v, w := Values([a, b]), Values([a, c]);
    assert v[..1] == w[..1];
    LexFirstDifference(v, w, 1);
  }

  lemma ReadOfTen()
    ensures FieldValue("010") == 8 && Value("010") == 10
  {
    var s := "010";
    assert s[1..] == "10" && s[1..][1..] == "0" && s[1..][1..][1..] == "";
    assert OctalRun(s[1..][1..]) == 1;
    assert OctalRun(s) == 3 && s[..3] == s;
    assert s[..2] == "01" && s[..2][..1] == "0" && s[..2][..1][..0] == "";
    assert OctalValue(s[..2][..1]) == 0 && Value(s[..2][..1]) == 0;
    assert OctalValue(s[..2]) == 1 && Value(s[..2]) == 1;
  }

  /** A release number behind a dash is supported exactly if it has one digit. */
  lemma {:induction false} ReleaseIsOneDigit(ns: seq<string>, r: string)
    requires ns != [] && (forall i | 0 <= i < |ns| :: Number(ns[i])) && Number(r)
    ensures Supported(Assembled(ns, "-" + r)) <==> |r| == 1
    decreases |ns|
  {
    var rest := Following(ns, "-" + r);
    var s := ns[0] + rest;
    DigitRunIs(s, |ns[0]|);
    assert s[|ns[0]|..] == rest;
    if |ns| == 1 {
      assert |r| >= 2 ==> IsDigit(rest[2]);
    } else {
      ReleaseIsOneDigit(ns[1..], r);
      assert rest[1..] == Assembled(ns[1..], "-" + r);
    }
  }

  /** The two-digit release of "1.2-10" is an error. */
  lemma TwoDigitRelease()
    ensures !Supported("1.2-10")
  {
    assert Assembled(["1", "2"], "-" + "10") == "1.2-10" by { assert ["1", "2"][1..] == ["2"]; }
    ReleaseIsOneDigit(["1", "2"], "10");
  }

  // ---------------------------------------------------------------- zfs_version_at_least

  /** What a scanned number leaves in a 32-bit unsigned variable. */
  function Stored(n: nat): nat { Saturated(n) % TWO32 }

  function StoredAll(v: seq<nat>): seq<nat> {
    seq(|v|, i requires 0 <= i < |v| => Stored(v[i]))
  }

  /** sscanf with "%u.%u.%u": the numbers it converts, at most `count`, as they are stored. */
  function Scanned(s: string, count: nat): seq<nat> {
    var k := DigitRun(s);
    if count == 0 || k == 0 then []
    else if k < |s| && s[k] == '.' then [Stored(Value(s[..k]))] + Scanned(s[k + 1..], count - 1)
    else [Stored(Value(s[..k]))]
  }

  function Values(fs: seq<string>): seq<nat> {
    seq(|fs|, i requires 0 <= i < |fs| => Value(fs[i]))
  }

  function Take(v: seq<nat>, n: nat): seq<nat> {
    if n < |v| then v[..n] else v
  }

  lemma ValuesCons(f: string, fs: seq<string>)
    ensures Values([f] + fs) == [Value(f)] + Values(fs)
  {
  }

  lemma StoredCons(x: nat, v: seq<nat>)
    ensures StoredAll([x] + v) == [Stored(x)] + StoredAll(v)
  {
  }

  lemma TakeCons(x: nat, v: seq<nat>, n: nat)
    ensures Take([x] + v, n + 1) == [x] + Take(v, n)
  {
  }

  /** The conversion yields the numbers between the dots, as they are stored. */
  predicate ScansAll(s: string, count: nat) {
    Scanned(s, count) == Take(StoredAll(Values(Numbers(s))), count)
  }

  lemma {:induction false} ScansNumbers(s: string, count: nat)
    requires Dotted(s)
    ensures ScansAll(s, count)
    decreases |s|
  {
    var k := DigitRun(s);
    if count == 0 {
      assert Take(StoredAll(Values(Numbers(s))), 0) == [];
    } else if k == |s| {
      ScansLast(s, count);
    } else {
      assert DotThenDigit(s, k) && Dotted(s[k + 1..]);
      assert ScansAll(s[k + 1..], count - 1) by { ScansNumbers(s[k + 1..], count - 1); }
      ScansOne(s, k, count);
    }
  }

  lemma ScansOne(s: string, k: nat, count: nat)
    requires 0 < k == DigitRun(s) < |s| && s[k] == '.' && count > 0
    requires ScansAll(s[k + 1..], count - 1)
    ensures ScansAll(s, count)
  {
    var f, rest := s[..k], Numbers(s[k + 1..]);
    ValuesCons(f, rest);
    StoredCons(Value(f), Values(rest));
    TakeCons(Stored(Value(f)), StoredAll(Values(rest)), count - 1);
  }

  lemma ScansLast(s: string, count: nat)
    requires s != [] && DigitRun(s) == |s|
    ensures ScansAll(s, count)
  {
    assert s[..|s|] == s;
    assert Values([s]) == [Value(s)];
    assert StoredAll([Value(s)]) == [Stored(Value(s))];
  }

  /** The comparison steps of the at-least check on the scanned numbers, 0 for a missing patch. */
  predicate AtLeast(v: seq<nat>, major: nat, minor: nat, patch: nat)
    requires |v| >= 2
  {
    if v[0] > major then true
    else if v[0] < major then false
    else if v[1] > minor then true
    else if v[1] < minor then false
    else (if |v| > 2 then v[2] else 0) >= patch
  }

  /** zfs_version_at_least, on the cached version; None for the parse error. */
  function VersionAtLeast(cached: string, major: nat, minor: nat, patch: nat): Option<bool> {
    var v := Scanned(cached, 3);
    if |v| < 2 then None else Some(AtLeast(v, major, minor, patch))
  }

  /** The parse error of the at-least check cannot happen for a normalised version, whose
      numbers are compared as they are stored. */
  lemma NormalizedIsScanned(s: string, major: nat, minor: nat, patch: nat)
    requires Dotted(s) && '.' in s
    ensures |Scanned(s, 3)| >= 2 && |Numbers(s)| >= 2
    ensures VersionAtLeast(s, major, minor, patch) == Some(AtLeast(StoredAll(Values(Numbers(s))), major, minor, patch))
  {
    ScansNumbers(s, 3);
    DotMakesTwo(s);
  }

  /** On lists of numbers, the at-least check is the lexicographic order but for one case:
      two numbers, both equal, and a required patch level of zero. */
  lemma AtLeastIsLex(v: seq<nat>, major: nat, minor: nat, patch: nat)
    requires |v| >= 2
    ensures AtLeast(v, major, minor, patch) == (Lex(v, [major, minor, patch]) >= 0)
      <==> !(|v| == 2 && v[0] == major && v[1] == minor && patch == 0)
  {
    var w := [major, minor, patch];
    assert v[1..][0] == v[1] && w[1..] == [minor, patch] && w[1..][1..] == [patch] && w[1..][1..][1..] == [];
    var r := v[1..][1..];
    assert Lex(v, w) == if v[0] != major then Cmp(v[0], major) else if v[1] != minor then Cmp(v[1], minor) else Lex(r, [patch]);
    assert r != [] ==> r[0] == v[2];
    assert r != [] && r[0] == patch ==> Lex(r, [patch]) == Cmp(|r[1..]|, 0);
  }

  /** Version 2.1 is at least 2.1.0, although it is the lower list. */
  lemma BareVersionPasses()
    ensures AtLeast([2, 1], 2, 1, 0) && Lex([2, 1], [2, 1, 0]) == -1
  {
    assert [2, 1, 0] == [2, 1] + [0];
    LexPrefixIsLower([2, 1], [0]);
  }

  function Joined(major: nat, minor: nat, patch: nat): string {
    Printed(major) + "." + (Printed(minor) + "." + Printed(patch))
  }

  lemma NumbersOfJoined(a: string, rest: string)
    requires AllDigits(a) && a != []
    ensures Numbers(a + "." + rest) == [a] + Numbers(rest)
    ensures Dotted(rest) ==> Dotted(a + "." + rest)
    ensures Dotted(a) && Numbers(a) == [a]
  {
    var s := a + "." + rest;
    DigitRunIs(s, |a|);
    DigitRunIs(a, |a|);
    assert s[..|a|] == a && s[|a| + 1..] == rest;
    if Dotted(rest) {
      forall i | 0 <= i < |s| ensures IsDigit(s[i]) || DotThenDigit(s, i) {
        if i > |a| {
          assert s[i] == rest[i - |a| - 1];
          assert IsDigit(rest[i - |a| - 1]) || DotThenDigit(rest, i - |a| - 1);
        }
      }
    }
  }

  /** The printed form of three numbers, as both comparisons see it. */
  lemma JoinedNumbers(major: nat, minor: nat, patch: nat)
    requires major <= UINT64_MAX && minor <= UINT64_MAX && patch <= UINT64_MAX
    ensures Supported(Joined(major, minor, patch))
    ensures FieldValues(Fields(Joined(major, minor, patch))) == [major, minor, patch]
  {
    PrintedReadsBack(major);
    PrintedReadsBack(minor);
    PrintedReadsBack(patch);
    ThreeNumbers(Printed(major), Printed(minor), Printed(patch));
    ThreeValues(Printed(major), Printed(minor), Printed(patch));
  }

  lemma ThreeValues(a: string, b: string, c: string)
    ensures FieldValues([a, b, c]) == [FieldValue(a), FieldValue(b), FieldValue(c)]
  {
  }

  lemma ThreeNumbers(a: string, b: string, c: string)
    requires AllDigits(a) && AllDigits(b) && AllDigits(c) && a != [] && b != [] && c != []
    ensures Supported(a + "." + (b + "." + c))
    ensures Fields(a + "." + (b + "." + c)) == [a, b, c]
  {
    var t := b + "." + c;
    assert Dotted(t) && Numbers(t) == [b] + [c] by {
      NumbersOfJoined(c, "0");
      NumbersOfJoined(b, c);
    }
    JoinedFields(a, t);
    assert [a] + ([b] + [c]) == [a, b, c];
  }

  lemma JoinedFields(a: string, t: string)
    requires AllDigits(a) && a != [] && Dotted(t)
    ensures Supported(a + "." + t) && Fields(a + "." + t) == [a] + Numbers(t)
  {
    NumbersOfJoined(a, t);
    DottedIsSupported(a + "." + t);
  }

  lemma PrintedReadsBack(n: nat)
    requires n <= UINT64_MAX
    ensures Number(Printed(n)) && ReadsAsNumber(Printed(n)) && FieldValue(Printed(n)) == n
  {
    PrintedReads(n);
    PrintedLeads(n);
    FieldValueIsExact(Printed(n));
  }

  /** Three numbers to compare, 0 for a missing patch level. */
  function Triple(v: seq<nat>): seq<nat>
    requires |v| >= 2
  {
    [v[0], v[1], if |v| > 2 then v[2] else 0]
  }

  /** The at-least check is the lexicographic order on triples. */
  lemma AtLeastOnTriples(v: seq<nat>, major: nat, minor: nat, patch: nat)
    requires |v| >= 2
    ensures AtLeast(v, major, minor, patch) == (Lex(Triple(v), [major, minor, patch]) >= 0)
  {
    AtLeastIsLex(Triple(v), major, minor, patch);
  }

  /** The first component that differs does not fit 32 bits, and what is stored of the rest
      from there on is lower than what is required. */
  predicate WrapsBelow(v: seq<nat>, w: seq<nat>)
    requires |v| == |w|
  {
    v != [] && (if v[0] == w[0] then WrapsBelow(v[1..], w[1..]) else v[0] >= TWO32 && Lex(StoredAll(v), w) < 0)
  }

  /** Storing the numbers changes the order exactly then. */
  lemma {:induction false} StoredOrder(v: seq<nat>, w: seq<nat>)
    requires |v| == |w| && forall i | 0 <= i < |w| :: w[i] < TWO32
    ensures (Lex(StoredAll(v), w) >= 0) == (Lex(v, w) >= 0) <==> !WrapsBelow(v, w)
  {
    if v != [] && v[0] < TWO32 {
      StoresSmall(v[0]);
      if v[0] == w[0] {
        StoredOrder(v[1..], w[1..]);
        assert StoredAll(v)[1..] == StoredAll(v[1..]);
      }
    }
  }

  lemma StoresSmall(n: nat)
    requires n < TWO32
    ensures Stored(n) == n
  {
  }

  /** A two-number version that equals the required major and minor numbers, against patch level 0. */
  predicate BareEqual(v: seq<nat>, major: nat, minor: nat, patch: nat)
    requires |v| >= 2
  {
    |v| == 2 && v[0] == major && v[1] == minor && patch == 0
  }

  /** On lists: storing the numbers and the missing patch level are the only differences. */
  lemma StoredAtLeastIsLex(v: seq<nat>, major: nat, minor: nat, patch: nat)
    requires |v| >= 2 && major < TWO32 && minor < TWO32 && patch < TWO32
    ensures AtLeast(StoredAll(v), major, minor, patch) == (Lex(v, [major, minor, patch]) >= 0)
      <==> !BareEqual(v, major, minor, patch) && !WrapsBelow(Triple(v), [major, minor, patch])
  {
    var t := [major, minor, patch];
    AtLeastIsLex(v, major, minor, patch);
    AtLeastOnTriples(v, major, minor, patch);
    AtLeastOnTriples(StoredAll(v), major, minor, patch);
    StoredOrder(Triple(v), t);
    StoredTriple(v);
    if BareEqual(v, major, minor, patch) { BareNeverWraps(v, major, minor, patch); }
  }

  lemma StoredTriple(v: seq<nat>)
    requires |v| >= 2
    ensures |StoredAll(v)| >= 2 && Triple(StoredAll(v)) == StoredAll(Triple(v))
  {
    StoresSmall(0);
  }

  lemma BareNeverWraps(v: seq<nat>, major: nat, minor: nat, patch: nat)
    requires |v| >= 2 && BareEqual(v, major, minor, patch)
    ensures !WrapsBelow(Triple(v), [major, minor, patch])
  {
    assert Triple(v) == [major, minor, patch];
    SameNeverWraps(Triple(v));
  }

  lemma {:induction false} SameNeverWraps(v: seq<nat>)
    ensures !WrapsBelow(v, v)
  {
    if v != [] { SameNeverWraps(v[1..]); }
  }

  /** The at-least check of the ZFS plugin and the general comparison agree about a normalised
      version whose fields read as their numbers, except for a bare equal version against patch
      level 0 and for a number beyond 32 bits whose stored rest is too low. */
  lemma AtLeastAgreesWithCmp(s: string, major: nat, minor: nat, patch: nat)
    requires Dotted(s) && '.' in s && forall f | f in Numbers(s) :: ReadsAsNumber(f)
    requires major < TWO32 && minor < TWO32 && patch < TWO32
    ensures Supported(s) && Supported(Joined(major, minor, patch)) && |Numbers(s)| >= 2
    ensures
      var cmp := Lex(FieldValues(Fields(s)), FieldValues(Fields(Joined(major, minor, patch))));
      var v := Values(Numbers(s));
      (VersionAtLeast(s, major, minor, patch) == Some(cmp >= 0))
      <==> !BareEqual(v, major, minor, patch) && !WrapsBelow(Triple(v), [major, minor, patch])
  {
    DottedIsSupported(s);
    JoinedNumbers(major, minor, patch);
    NormalizedIsScanned(s, major, minor, patch);
    var fs := Numbers(s);
    NumbersAreNumbers(s);
    forall i | 0 <= i < |fs| ensures FieldValue(fs[i]) == Value(fs[i]) {
      FieldValueIsExact(fs[i]);
    }
    ReadingsEqual(fs);
    StoredAtLeastIsLex(Values(fs), major, minor, patch);
  }

  lemma {:induction false} NumbersAreNumbers(s: string)
    requires Dotted(s)
    ensures forall i | 0 <= i < |Numbers(s)| :: Number(Numbers(s)[i])
    decreases |s|
  {
    var k := DigitRun(s);
    DigitRunDigits(s);
    if k < |s| {
      NumbersAreNumbers(s[k + 1..]);
    } else {
      assert s[..k] == s;
    }
  }

  lemma TwoNumbers(a: string, b: string)
    requires Number(a) && Number(b)
    ensures var s := a + "." + b; Dotted(s) && '.' in s && Supported(s) && Numbers(s) == Fields(s) == [a, b]
  {
    NumbersOfJoined(b, "0");
    NumbersOfJoined(a, b);
    JoinedFields(a, b);
    assert [a] + [b] == [a, b];
    assert (a + "." + b)[|a|] == '.';
  }

  /** A version like 4294967296.0, with a multiple of 2^32 in front, is not at least 1.0.0 or
      anything else with a positive major number, although the general comparison puts it above. */
  lemma LargeMajorWraps(n: nat, major: nat, minor: nat, patch: nat)
    requires TWO32 <= n <= UINT64_MAX && n % TWO32 == 0
    requires 0 < major < TWO32 && minor < TWO32 && patch < TWO32
    ensures
      var s := Printed(n) + "." + Printed(0);
      && Supported(s) && Supported(Joined(major, minor, patch))
      && Lex(FieldValues(Fields(s)), FieldValues(Fields(Joined(major, minor, patch)))) == 1
      && VersionAtLeast(s, major, minor, patch) == Some(false)
  {
    var a, b := Printed(n), Printed(0);
    PrintedReadsBack(n);
    PrintedReadsBack(0);
    PrintedReads(n);
    JoinedNumbers(major, minor, patch);
    LargeIsAbove(a, b, [major, minor, patch]);
    LargeIsStoredAsZero(a, b, major, minor, patch);
  }

  lemma LargeIsAbove(a: string, b: string, w: seq<nat>)
    requires Number(a) && Number(b) && |w| > 0 && FieldValue(a) > w[0]
    ensures Supported(a + "." + b) && Lex(FieldValues(Fields(a + "." + b)), w) == 1
  {
    TwoNumbers(a, b);
    assert FieldValues([a, b])[0] == FieldValue(a);
  }

  lemma LargeIsStoredAsZero(a: string, b: string, major: nat, minor: nat, patch: nat)
    requires Number(a) && Number(b) && Stored(Value(a)) == 0 < major
    ensures VersionAtLeast(a + "." + b, major, minor, patch) == Some(false)
  {
    TwoNumbers(a, b);
    NormalizedIsScanned(a + "." + b, major, minor, patch);
    assert StoredAll(Values([a, b]))[0] == 0;
  }

  // ---------------------------------------------------------------- bd_utils_check_linux_version

  /** A signed minus an unsigned 32-bit number, stored in a signed one. */
  function Minus32(x: int, y: int): int {
    var d := (x - y) % TWO32;
    if d < TWO31 then d else d - TWO32
  }

  method CheckLinuxVersion(detected: seq<nat>, major: nat, minor: nat, micro: nat) returns (ret: int)
    requires |detected| == 3 && (forall i | 0 <= i < 3 :: detected[i] < TWO31)
    requires major < TWO32 && minor < TWO32 && micro < TWO32
    ensures ret == FirstNonZero(Minuses(detected, [major, minor, micro]))
  {
    FirstOfThree(Minuses(detected, [major, minor, micro]));
    ret := Minus32(detected[0], major);
    if ret == 0 {
      ret := Minus32(detected[1], minor);
    }
    if ret == 0 {
      ret := Minus32(detected[2], micro);
    }
  }

  function FirstNonZero(ds: seq<int>): int {
    if ds == [] then 0 else if ds[0] != 0 then ds[0] else FirstNonZero(ds[1..])
  }

  lemma FirstOfThree(ds: seq<int>)
    requires |ds| == 3
    ensures FirstNonZero(ds) == if ds[0] != 0 then ds[0] else if ds[1] != 0 then ds[1] else ds[2]
  {
    assert ds[1..][0] == ds[1] && ds[1..][1..] == [ds[2]];
    assert FirstNonZero([ds[2]]) == ds[2] by { assert [ds[2]][1..] == []; }
  }

  function Minuses(a: seq<nat>, b: seq<nat>): seq<int>
    requires |a| == |b|
  {
    seq(|a|, i requires 0 <= i < |a| => Minus32(a[i], b[i]))
  }

  /** The difference that decides is not below what a signed number can hold. */
  predicate NoUnderflow(a: seq<nat>, b: seq<nat>)
    requires |a| == |b|
  {
    a == [] || (if a[0] != b[0] then a[0] - b[0] >= -TWO31 else NoUnderflow(a[1..], b[1..]))
  }

  /** The sign of the kernel version check is that of the comparison exactly when the first
      differing component does not ask for 2^31 more than was detected. */
  lemma {:induction false} KernelCheckIsLex(a: seq<nat>, b: seq<nat>)
    requires |a| == |b|
    requires forall i | 0 <= i < |a| :: a[i] < TWO31 && b[i] < TWO32
    ensures Cmp(FirstNonZero(Minuses(a, b)), 0) == Lex(a, b) <==> NoUnderflow(a, b)
  {
    if a != [] {
      var x, y := a[0], b[0];
      MinusSign(x, y);
      if x == y {
        KernelCheckIsLex(a[1..], b[1..]);
        assert Minuses(a, b)[1..] == Minuses(a[1..], b[1..]);
      }
    }
  }

  /** A kernel 0.0.0 passes for one that is newer than 2147483649.0.0. */
  lemma KernelCheckCanFail()
    ensures Cmp(FirstNonZero(Minuses([0, 0, 0], [TWO31 + 1, 0, 0])), 0) == 1
    ensures Lex([0, 0, 0], [TWO31 + 1, 0, 0]) == -1
  {
    assert Minuses([0, 0, 0], [TWO31 + 1, 0, 0])[0] == TWO31 - 1;
  }

  lemma MinusSign(x: int, y: int)
    requires 0 <= x < TWO31 && 0 <= y < TWO32
    ensures Minus32(x, y) == 0 <==> x == y
    ensures Cmp(Minus32(x, y), 0) == Cmp(x, y) <==> x - y >= -TWO31
  {
    if x >= y {
      assert (x - y) % TWO32 == x - y;
    } else {
      assert (x - y) % TWO32 == x - y + TWO32;
    }
  }
}
