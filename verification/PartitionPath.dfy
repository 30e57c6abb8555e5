/** Building the path of a partition from its disk and number, and getting the number back. */
module PartitionPath {
  import opened Decimal
  import opened Wrappers

  const INT_MAX: nat := 0x7FFF_FFFF

  /** The path of partition `n`: a disk name that ends in a digit is set off by a 'p'. */
  function PartPath(disk: string, n: nat): string
    requires disk != []
  {
    if IsDigit(disk[|disk| - 1]) then disk + "p" + Printed(n) else disk + Printed(n)
  }

  /** Character by character: the disk, a 'p' exactly behind a digit, and the number without
      leading zeros. */
  lemma PathReads(disk: string, n: nat)
    requires disk != []
    ensures var path, k := PartPath(disk, n), |disk|;
      var digits := if '0' <= disk[k - 1] <= '9' then k + 1 else k;
      && digits < |path| && path[..k] == disk && (digits > k ==> path[k] == 'p')
      && (forall i | digits <= i < |path| :: '0' <= path[i] <= '9')
      && Value(path[digits..]) == n && (path[digits] == '0' <==> n == 0)
  {
    PrintedReads(n);
    PrintedLeads(n);
    var path, k := PartPath(disk, n), |disk|;
    if IsDigit(disk[k - 1]) {
      assert path == disk + (['p'] + Printed(n));
      assert path[k + 1..] == Printed(n);
      assert forall i | k + 1 <= i < |path| :: path[i] == Printed(n)[i - k - 1];
    } else {
      assert path[k..] == Printed(n);
      assert forall i | k <= i < |path| :: path[i] == Printed(n)[i - k];
    }
  }

  predicate NumberChar(c: char) { IsDigit(c) || c == '-' }

  /** Where the trailing run of digits and dashes begins. */
  function RunStart(s: string): (i: nat)
    ensures i <= |s|
    ensures i > 0 ==> !NumberChar(s[i - 1])
  {
    if s == [] || !NumberChar(s[|s| - 1]) then |s| else RunStart(s[..|s| - 1])
  }

  lemma {:induction false} RunStartIs(s: string, i: nat)
    requires i <= |s| && (i > 0 ==> !NumberChar(s[i - 1])) && forall k | i <= k < |s| :: NumberChar(s[k])
    ensures RunStart(s) == i
  {
    if i < |s| { RunStartIs(s[..|s| - 1], i); }
  }

  /** atoi on digits and dashes: an optional sign, then the leading digits. */
  function Atoi(s: string): int {
    if s != [] && s[0] == '-' then 0 - Value(s[1..][..DigitRun(s[1..])]) else Value(s[..DigitRun(s)])
  }

  /** get_part_num; None for the error. */
  method GetPartNum(part: string) returns (r: Option<int>)
    ensures r == PartNum(part)
  {
    if part == [] {
      return None;
    }
    var i := |part|;
    while i > 0 && (IsDigit(part[i - 1]) || part[i - 1] == '-')
      invariant 0 <= i <= |part|
      invariant forall k | i <= k < |part| :: NumberChar(part[k])
    {
      i := i - 1;
    }
    RunStartIs(part, i);
    var n := Atoi(part[i..]);
    if n <= 0 {
      return None;
    }
    return Some(n);
  }

  function PartNum(part: string): Option<int> {
    if part == [] then None else
      var n := Atoi(part[RunStart(part)..]);
      if n <= 0 then None else Some(n)
  }

  /** The digits at the end of a path whose number is set off by some other character. */
  lemma DigitsAtEnd(prefix: string, digits: string)
    requires AllDigits(digits) && digits != []
    requires prefix != [] ==> !NumberChar(prefix[|prefix| - 1])
    ensures RunStart(prefix + digits) == |prefix|
    ensures Atoi((prefix + digits)[|prefix|..]) == Value(digits)
  {
    var s := prefix + digits;
    RunStartIs(s, |prefix|);
    assert s[|prefix|..] == digits;
    AtoiOfDigits(digits);
  }

  lemma AtoiOfDigits(digits: string)
    requires AllDigits(digits) && digits != []
    ensures Atoi(digits) == Value(digits)
  {
    assert IsDigit(digits[0]);
    DigitRunIs(digits, |digits|);
    assert digits[..|digits|] == digits;
  }

  /** The trailing dashes and digits of a disk name, where they end in a dash. */
  ghost function DashRun(disk: string): string { disk[RunStart(disk)..] }

  /** What the number comes out as for a disk name that ends in a dash: the digits of the
      path are not reached at all. */
  lemma DashedPath(disk: string, n: nat)
    requires disk != [] && disk[|disk| - 1] == '-'
    ensures PartNum(PartPath(disk, n)) == (var m := Atoi(DashRun(disk) + Printed(n)); if m <= 0 then None else Some(m))
  {
    PrintedReads(n);
    AtoiOfAppended(disk, Printed(n));
  }

  lemma AtoiOfAppended(disk: string, digits: string)
    requires AllDigits(digits)
    ensures Atoi((disk + digits)[RunStart(disk + digits)..]) == Atoi(DashRun(disk) + digits)
  {
    RunStartAppend(disk, digits);
    var s, i := disk + digits, RunStart(disk);
    assert s[i..] == disk[i..] + digits;
  }

  lemma RunStartAppend(disk: string, digits: string)
    requires AllDigits(digits)
    ensures RunStart(disk + digits) == RunStart(disk)
  {
    var s, i := disk + digits, RunStart(disk);
    RunStartChars(disk);
    forall k | i <= k < |s| ensures NumberChar(s[k]) {
      if k >= |disk| { assert IsDigit(digits[k - |disk|]); }
    }
    RunStartIs(s, i);
  }

  lemma {:induction false} RunStartChars(s: string)
    ensures forall k | RunStart(s) <= k < |s| :: NumberChar(s[k])
  {
    if s != [] && NumberChar(s[|s| - 1]) { RunStartChars(s[..|s| - 1]); }
  }

  /** The leading digits of the trailing run of a name that ends in a dash. */
  ghost function Misread(disk: string): int {
    var run := DashRun(disk);
    if run == [] || run[0] == '-' then 0 else Value(run[..DigitRun(run)])
  }

  lemma AtoiOfRun(run: string, digits: string)
    requires run != [] && run[|run| - 1] == '-' && run[0] != '-' && AllDigits(digits)
    ensures Atoi(run + digits) == Value(run[..DigitRun(run)])
  {
    var s, k := run + digits, DigitRun(run);
    DigitRunDigits(run);
    assert forall i | 0 <= i < k :: run[..k][i] == run[i] && IsDigit(run[i]);
    assert !IsDigit(run[|run| - 1]);
    DigitRunIs(s, k);
    assert s[..k] == run[..k];
  }

  /** The number of a partition can be read back from its path if and only if the disk name
      does not end in a dash, or happens to end in that number and a dash. */
  lemma PathRoundTrip(disk: string, n: nat)
    requires disk != [] && 1 <= n <= INT_MAX
    ensures PartNum(PartPath(disk, n)) == Some(n)
      <==> disk[|disk| - 1] != '-' || Misread(disk) == n
  {
    PrintedReads(n);
    var last := disk[|disk| - 1];
    if IsDigit(last) {
      DigitsAtEnd(disk + "p", Printed(n));
    } else if last != '-' {
      DigitsAtEnd(disk, Printed(n));
    } else {
      DashedPath(disk, n);
      RunStartChars(disk);
      var run := DashRun(disk);
      assert run != [] && run[|run| - 1] == '-' by {
        assert RunStart(disk) < |disk|;
      }
      if run[0] == '-' {
        var s := run + Printed(n);
        assert s[0] == '-';
      } else {
        AtoiOfRun(run, Printed(n));
      }
    }
  }

  /** Neither part of the condition is idle: one number is lost, the other is misread. */
  lemma DashedDiskFails()
    ensures PartNum(PartPath("loop-", 3)) == None
    ensures PartNum(PartPath("d5-", 3)) == Some(5)
  {
    RunStartIs("loop-", 4);
    assert DashRun("loop-") == "-";
    assert ("-" + Printed(3))[0] == '-';
    DashedPath("loop-", 3);

    RunStartIs("d5-", 1);
    assert DashRun("d5-") == "5-";
    DashedPath("d5-", 3);
    PrintedReads(3);
    AtoiOfRun("5-", Printed(3));
    ReadsFive();
  }

  lemma ReadsFive()
    ensures Value("5-"[..DigitRun("5-")]) == 5
  {
    DigitRunIs("5-", 1);
    assert "5-"[..1] == "5" && "5"[..0] == [];
    assert Value("5"[..0]) == 0;
  }
}
