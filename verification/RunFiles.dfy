/** The names of the scratch files of a sort, and what lies under them on disk. */
module RunFiles {
  import opened Arithmetic
  import opened SpillStore
  import opened ExternalMerge

  // ----- names of run files -----

  predicate IsDigit(c: char) { '0' <= c <= '9' }

  function Digit(d: nat): char
    requires d < 10
  {
    '0' + d as char
  }

  function Digits(n: nat): (s: string)
    ensures |s| > 0 && forall i | 0 <= i < |s| :: IsDigit(s[i])
  {
    if n < 10 then [Digit(n)] else Digits(n / 10) + [Digit(n % 10)]
  }

  function RunPath(prefix: Path, pass: nat, run: nat): Path {
    prefix + ".p" + Digits(pass) + ".r" + Digits(run) + ".spill"
  }

  /** Reading digits in base ten. */
  function Decimal(s: string): int {
    if s == [] then 0 else 10 * Decimal(s[..|s| - 1]) + (s[|s| - 1] as int - '0' as int)
  }

  /** The digits of a number read as that number, and do not begin with a zero unless they are just that. */
  lemma {:induction false} DigitsAreDecimal(n: nat)
    ensures Decimal(Digits(n)) == n && (n > 0 ==> Digits(n)[0] != '0')
    decreases n
  {
    var s := Digits(n);
    if n < 10 {
      assert s[..|s| - 1] == [];
    } else {
      DigitsAreDecimal(n / 10);
      assert s[..|s| - 1] == Digits(n / 10);
    }
  }

  lemma {:induction false} DigitsInjective(m: nat, n: nat)
    requires Digits(m) == Digits(n)
    ensures m == n
    decreases m
  {
    if m >= 10 && n >= 10 {
      var a, b := Digits(m), Digits(n);
      assert a[..|a| - 1] == Digits(m / 10) && b[..|b| - 1] == Digits(n / 10);
      DigitsInjective(m / 10, n / 10);
      assert a[|a| - 1] == Digit(m % 10) && b[|b| - 1] == Digit(n % 10);
    } else {
      assert |Digits(m)| == 1 ==> m < 10 by { LongDigits(m); }
      assert |Digits(n)| == 1 ==> n < 10 by { LongDigits(n); }
      assert Digits(m)[0] == Digits(n)[0];
    }
  }

  lemma {:induction false} LongDigits(n: nat)
    ensures n >= 10 ==> |Digits(n)| > 1
  {
  }

  /** Digits that end where something else begins. */
  lemma {:induction false} DigitsEnd(a: string, b: string, x: string, y: string)
    requires a + x == b + y && |x| > 0 && |y| > 0 && !IsDigit(x[0]) && !IsDigit(y[0])
    requires (forall i | 0 <= i < |a| :: IsDigit(a[i])) && (forall i | 0 <= i < |b| :: IsDigit(b[i]))
    ensures a == b && x == y
  {
    var w := a + x;
    assert w == b + y;
    assert !IsDigit(w[|a|]) && !IsDigit(w[|b|]);
    assert forall i | 0 <= i < |a| :: w[i] == a[i];
    assert forall i | 0 <= i < |b| :: w[i] == b[i];
    assert |a| == |b|;
    assert (a + x)[..|a|] == a && (b + y)[..|b|] == b;
    assert (a + x)[|a|..] == x && (b + y)[|b|..] == y;
  }

  /** Run files have different names. */
  lemma {:induction false} RunPathInjective(prefix: Path, pass: nat, run: nat, pass': nat, run': nat)
    requires RunPath(prefix, pass, run) == RunPath(prefix, pass', run')
    ensures pass == pass' && run == run'
  {
    var front := prefix + ".p";
    var x, y := ".r" + Digits(run) + ".spill", ".r" + Digits(run') + ".spill";
    assert RunPath(prefix, pass, run) == front + (Digits(pass) + x);
    assert RunPath(prefix, pass', run') == front + (Digits(pass') + y);
    assert RunPath(prefix, pass, run)[|front|..] == Digits(pass) + x;
    assert RunPath(prefix, pass', run')[|front|..] == Digits(pass') + y;
    DigitsEnd(Digits(pass), Digits(pass'), x, y);
    DigitsInjective(pass, pass');
    RunNumber(run, run');
  }

  lemma {:induction false} RunNumber(run: nat, run': nat)
    requires ".r" + Digits(run) + ".spill" == ".r" + Digits(run') + ".spill"
    ensures run == run'
  {
    var x, y := ".r" + Digits(run) + ".spill", ".r" + Digits(run') + ".spill";
    assert x == ".r" + (Digits(run) + ".spill") && y == ".r" + (Digits(run') + ".spill");
    assert x[2..] == Digits(run) + ".spill" && y[2..] == Digits(run') + ".spill";
    DigitsEnd(Digits(run), Digits(run'), ".spill", ".spill");
    DigitsInjective(run, run');
  }

  /** Temporary names are never names of runs. */
  lemma {:induction false} PartialIsNoRun(path: Path, prefix: Path, pass: nat, run: nat)
    ensures PartialPath(path) != RunPath(prefix, pass, run)
  {
    var a, b := PartialPath(path), RunPath(prefix, pass, run);
    assert a[|a| - 2] == 'a';
    assert b[|b| - 2] == 'l';
  }

  // ----- the run files of a pass on disk -----

  ghost function AddRuns(base: map<Path, File>, prefix: Path, pass: nat, runs: seq<File>): map<Path, File> {
    if runs == [] then base
    else
      var n := |runs| - 1;
      AddRuns(base, prefix, pass, runs[..n])[RunPath(prefix, pass, n) := runs[n]]
  }

  ghost predicate Fresh(base: map<Path, File>, prefix: Path, pass: nat, count: nat) {
    forall i | 0 <= i < count :: RunPath(prefix, pass, i) !in base
  }

  /** The disk holds the run files of one pass and what was there before. */
  ghost predicate Live(files: map<Path, File>, base: map<Path, File>, prefix: Path, pass: nat, runs: seq<File>) {
    files == AddRuns(base, prefix, pass, runs) && Fresh(base, prefix, pass, |runs|)
  }

  lemma {:induction false} AddRunsAt(base: map<Path, File>, prefix: Path, pass: nat, runs: seq<File>, i: nat)
    requires i < |runs|
    ensures RunPath(prefix, pass, i) in AddRuns(base, prefix, pass, runs)
    ensures AddRuns(base, prefix, pass, runs)[RunPath(prefix, pass, i)] == runs[i]
    decreases |runs|
  {
    var n := |runs| - 1;
    if i < n {
      AddRunsAt(base, prefix, pass, runs[..n], i);
      if RunPath(prefix, pass, i) == RunPath(prefix, pass, n) { RunPathInjective(prefix, pass, i, pass, n); }
    }
  }

  ghost predicate NotARun(path: Path, prefix: Path, pass: nat, count: nat) {
    forall i | 0 <= i < count :: path != RunPath(prefix, pass, i)
  }

  lemma {:induction false} AddRunsElsewhere(base: map<Path, File>, prefix: Path, pass: nat, runs: seq<File>, path: Path)
    requires NotARun(path, prefix, pass, |runs|)
    ensures path in AddRuns(base, prefix, pass, runs) <==> path in base
    ensures path in base ==> AddRuns(base, prefix, pass, runs)[path] == base[path]
    decreases |runs|
  {
    if runs != [] { AddRunsElsewhere(base, prefix, pass, runs[..|runs| - 1], path); }
  }

  /** One more run file. */
  lemma {:induction false} AddRunsMore(base: map<Path, File>, prefix: Path, pass: nat, runs: seq<File>, f: File)
    ensures AddRuns(base, prefix, pass, runs + [f]) == AddRuns(base, prefix, pass, runs)[RunPath(prefix, pass, |runs|) := f]
  {
    assert (runs + [f])[..|runs|] == runs;
  }

  ghost function RunPaths(prefix: Path, pass: nat, count: nat): set<Path> {
    set i | 0 <= i < count :: RunPath(prefix, pass, i)
  }

  lemma {:induction false} RemoveAll(base: map<Path, File>, prefix: Path, pass: nat, runs: seq<File>)
    requires Fresh(base, prefix, pass, |runs|)
    ensures AddRuns(base, prefix, pass, runs) - RunPaths(prefix, pass, |runs|) == base
  {
    var all, gone := AddRuns(base, prefix, pass, runs), RunPaths(prefix, pass, |runs|);
    var left := all - gone;
    forall path
      ensures path in left <==> path in base
      ensures path in base ==> left[path] == base[path]
    {
      if i :| 0 <= i < |runs| && path == RunPath(prefix, pass, i) {
        assert path in gone;
      } else {
        AddRunsElsewhere(base, prefix, pass, runs, path);
        assert path !in gone;
      }
    }
  }

  /** Names of different passes are different. */
  lemma {:induction false} OtherPass(prefix: Path, pass: nat, k: nat, pass': nat, count: nat)
    requires pass != pass' || count <= k
    ensures NotARun(RunPath(prefix, pass, k), prefix, pass', count)
  {
    forall j | 0 <= j < count
      ensures RunPath(prefix, pass, k) != RunPath(prefix, pass', j)
    {
      if RunPath(prefix, pass, k) == RunPath(prefix, pass', j) { RunPathInjective(prefix, pass, k, pass', j); }
    }
  }

  lemma {:induction false} StillFresh(base: map<Path, File>, prefix: Path, pass: nat, runs: seq<File>)
    requires Fresh(base, prefix, pass, |runs|) && RunPath(prefix, pass, |runs|) !in AddRuns(base, prefix, pass, runs)
    ensures Fresh(base, prefix, pass, |runs| + 1)
  {
    OtherPass(prefix, pass, |runs|, pass, |runs|);
    AddRunsElsewhere(base, prefix, pass, runs, RunPath(prefix, pass, |runs|));
  }

  lemma {:induction false} BaseStays(base: map<Path, File>, prefix: Path, pass: nat, runs: seq<File>, path: Path)
    requires path in base
    ensures path in AddRuns(base, prefix, pass, runs)
    decreases |runs|
  {
    if runs != [] { BaseStays(base, prefix, pass, runs[..|runs| - 1], path); }
  }

  /** Scratch files take their own bytes and no more. */
  lemma {:induction false} AddRunsOccupied(base: map<Path, File>, prefix: Path, pass: nat, runs: seq<File>)
    requires Fresh(base, prefix, pass, |runs|)
    ensures Occupied(AddRuns(base, prefix, pass, runs)) == Occupied(base) + AllBytes(runs)
    decreases |runs|
  {
    if runs != [] {
      var n := |runs| - 1;
      var path, less := RunPath(prefix, pass, n), AddRuns(base, prefix, pass, runs[..n]);
      AddRunsOccupied(base, prefix, pass, runs[..n]);
      OtherPass(prefix, pass, n, pass, n);
      AddRunsElsewhere(base, prefix, pass, runs[..n], path);
      OccupiedPut(less, path, runs[n]);
      assert less - {path} == less;
    }
  }

  ghost function AllBytes(runs: seq<File>): nat {
    if runs == [] then 0 else AllBytes(runs[..|runs| - 1]) + Bytes(runs[|runs| - 1])
  }

  // ----- two generations of runs -----

  /** Two generations of runs on the disk: those of a pass, and those of the next one so far. */
  ghost predicate Both(
      files: map<Path, File>, base: map<Path, File>, prefix: Path, pass: nat, runs: seq<File>, next: seq<File>)
  {
    && Fresh(base, prefix, pass, |runs|)
    && Live(files, AddRuns(base, prefix, pass, runs), prefix, pass + 1, next)
  }

  /** A run of the current pass is still on the disk. */
  lemma {:induction false} OldRunThere(
      files: map<Path, File>, base: map<Path, File>, prefix: Path, pass: nat, runs: seq<File>, next: seq<File>, k: nat)
    requires Both(files, base, prefix, pass, runs, next) && k < |runs|
    ensures RunPath(prefix, pass, k) in files && files[RunPath(prefix, pass, k)] == runs[k]
  {
    var path := RunPath(prefix, pass, k);
    OtherPass(prefix, pass, k, pass + 1, |next|);
    AddRunsElsewhere(AddRuns(base, prefix, pass, runs), prefix, pass + 1, next, path);
    AddRunsAt(base, prefix, pass, runs, k);
  }

  /** Removing the old generation leaves the new one. */
  lemma {:induction false} Generation(base: map<Path, File>, prefix: Path, pass: nat, runs: seq<File>, next: seq<File>)
    requires Fresh(base, prefix, pass, |runs|) && Fresh(AddRuns(base, prefix, pass, runs), prefix, pass + 1, |next|)
    ensures Fresh(base, prefix, pass + 1, |next|)
    ensures AddRuns(AddRuns(base, prefix, pass, runs), prefix, pass + 1, next) - RunPaths(prefix, pass, |runs|)
         == AddRuns(base, prefix, pass + 1, next)
  {
    var mid, gone := AddRuns(base, prefix, pass, runs), RunPaths(prefix, pass, |runs|);
    var left, right := AddRuns(mid, prefix, pass + 1, next) - gone, AddRuns(base, prefix, pass + 1, next);
    var later := pass + 1;
    forall i | 0 <= i < |next|
      ensures RunPath(prefix, later, i) !in base
    {
      OtherPass(prefix, later, i, pass, |runs|);
      AddRunsElsewhere(base, prefix, pass, runs, RunPath(prefix, later, i));
    }
    forall path
      ensures path in left <==> path in right
      ensures path in right ==> path in left && left[path] == right[path]
    {
      GenerationAt(base, prefix, pass, runs, next, path);
    }
  }

  lemma {:induction false} GenerationAt(
      base: map<Path, File>, prefix: Path, pass: nat, runs: seq<File>, next: seq<File>, path: Path)
    requires Fresh(base, prefix, pass, |runs|)
    ensures var mid, gone := AddRuns(base, prefix, pass, runs), RunPaths(prefix, pass, |runs|);
            var left, right := AddRuns(mid, prefix, pass + 1, next) - gone, AddRuns(base, prefix, pass + 1, next);
            (path in left <==> path in right) && (path in right ==> path in left && left[path] == right[path])
  {
    var mid, gone := AddRuns(base, prefix, pass, runs), RunPaths(prefix, pass, |runs|);
    if i :| 0 <= i < |runs| && path == RunPath(prefix, pass, i) {
      OtherPass(prefix, pass, i, pass + 1, |next|);
      AddRunsElsewhere(base, prefix, pass + 1, next, path);
      assert path in gone;
    } else {
      assert path !in gone && NotARun(path, prefix, pass, |runs|);
      AddRunsElsewhere(base, prefix, pass, runs, path);
      var later := pass + 1;
      if j :| 0 <= j < |next| && path == RunPath(prefix, later, j) {
        AddRunsAt(mid, prefix, pass + 1, next, j);
        AddRunsAt(base, prefix, pass + 1, next, j);
      } else {
        assert NotARun(path, prefix, pass + 1, |next|);
        AddRunsElsewhere(mid, prefix, pass + 1, next, path);
        AddRunsElsewhere(base, prefix, pass + 1, next, path);
      }
    }
  }

  lemma {:induction false} OnlyOutputLeft(
      base: map<Path, File>, prefix: Path, pass: nat, runs: seq<File>, output: Path, result: File)
    requires Fresh(base, prefix, pass, |runs|) && output !in base && NotARun(output, prefix, pass, |runs|)
    ensures AddRuns(base, prefix, pass, runs)[output := result] - RunPaths(prefix, pass, |runs|) == base[output := result]
  {
    AddRunsElsewhere(base, prefix, pass, runs, output);
    RemoveAll(base, prefix, pass, runs);
    var all, gone := AddRuns(base, prefix, pass, runs), RunPaths(prefix, pass, |runs|);
    assert output !in gone;
    assert all[output := result] - gone == (all - gone)[output := result];
  }

  // ----- the passes -----

  /** How many groups of at most `fanIn` runs there are. */
  function Groups(count: nat, fanIn: nat): nat
    requires fanIn >= 1
  {
    count / fanIn + if count % fanIn != 0 then 1 else 0
  }

  /** The groups cover the runs, none is empty, and there are fewer groups than runs. */
  lemma {:induction false} GroupsCover(count: nat, fanIn: nat)
    requires fanIn >= 2 && count > fanIn
    ensures 0 < Groups(count, fanIn) < count && Groups(count, fanIn) * fanIn >= count
    ensures (Groups(count, fanIn) - 1) * fanIn < count
  {
    var q, r := count / fanIn, count % fanIn;
    assert count == q * fanIn + r;
    assert q >= 1;
    assert q * fanIn >= 2 * q;
    if r != 0 { assert (q + 1) * fanIn == q * fanIn + fanIn; } else { assert (q - 1) * fanIn == q * fanIn - fanIn; }
  }

  lemma {:induction false} GroupStarts(count: nat, fanIn: nat, group: nat)
    requires fanIn >= 2 && count > fanIn && group < Groups(count, fanIn)
    ensures group * fanIn < count && (group + 1) * fanIn == group * fanIn + fanIn
  {
    GroupsCover(count, fanIn);
    assert group * fanIn <= (Groups(count, fanIn) - 1) * fanIn by {
      ProductMonotone(group, Groups(count, fanIn) - 1, fanIn);
    }
  }

  /** Neither the name of a merge's output nor that of its temporary file is taken. */
  ghost predicate TargetFree(base: map<Path, File>, target: Path) {
    target !in base && PartialPath(target) !in base
  }

  ghost predicate PassFree(base: map<Path, File>, prefix: Path, pass: nat, count: nat) {
    forall i | 0 <= i < count :: TargetFree(base, RunPath(prefix, pass, i))
  }

  /** The names a merge pass uses. */
  ghost function PassNames(prefix: Path, pass: nat, count: nat): set<Path> {
    RunPaths(prefix, pass, count) + set i | 0 <= i < count :: PartialPath(RunPath(prefix, pass, i))
  }

  /** The names used by the passes after a pass with so many runs. */
  ghost function LaterNames(prefix: Path, pass: nat, count: nat, fanIn: nat): set<Path>
    requires fanIn >= 2
    decreases count
  {
    if count <= fanIn then {}
    else
      GroupsCover(count, fanIn);
      PassNames(prefix, pass + 1, Groups(count, fanIn)) + LaterNames(prefix, pass + 1, Groups(count, fanIn), fanIn)
  }

  /** The names of the runs that the last merge reads. */
  ghost function LastNames(prefix: Path, pass: nat, count: nat, fanIn: nat): set<Path>
    requires fanIn >= 2
    decreases count
  {
    if count <= fanIn then RunPaths(prefix, pass, count)
    else
      GroupsCover(count, fanIn);
      LastNames(prefix, pass + 1, Groups(count, fanIn), fanIn)
  }

  /** The names of the scratch files for n numbers. */
  ghost function ScratchNames(prefix: Path, output: Path, capacity: nat, fanIn: nat, n: nat): set<Path>
    requires capacity >= 1 && fanIn >= 2
  {
    {PartialPath(output)} + RunPaths(prefix, 0, Groups(n, capacity)) + LaterNames(prefix, 0, Groups(n, capacity), fanIn)
  }

  /** No name used for sorting n numbers is taken, and the output is none of the runs it is merged from. */
  ghost predicate NamesFree(base: map<Path, File>, prefix: Path, output: Path, capacity: nat, fanIn: nat, n: nat)
    requires capacity >= 1 && fanIn >= 2
  {
    && base.Keys !! ScratchNames(prefix, output, capacity, fanIn, n) + {output}
    && output !in LastNames(prefix, 0, Groups(n, capacity), fanIn)
  }

  /** The part of `NamesFree` that is left when the runs of a pass are there. */
  ghost predicate LaterFree(base: map<Path, File>, prefix: Path, pass: nat, count: nat, fanIn: nat, output: Path)
    requires fanIn >= 2
  {
    && base.Keys !! LaterNames(prefix, pass, count, fanIn) && TargetFree(base, output)
    && output !in LastNames(prefix, pass, count, fanIn)
  }

  lemma {:induction false} FreshIff(base: map<Path, File>, prefix: Path, pass: nat, count: nat)
    ensures Fresh(base, prefix, pass, count) <==> base.Keys !! RunPaths(prefix, pass, count)
  {
    forall i | 0 <= i < count
      ensures RunPath(prefix, pass, i) in RunPaths(prefix, pass, count)
    {
    }
  }

  lemma {:induction false} PassFreeIff(base: map<Path, File>, prefix: Path, pass: nat, count: nat)
    ensures PassFree(base, prefix, pass, count) <==> base.Keys !! PassNames(prefix, pass, count)
  {
    var names := PassNames(prefix, pass, count);
    if base.Keys !! names {
      forall i | 0 <= i < count
        ensures TargetFree(base, RunPath(prefix, pass, i))
      {
        assert RunPath(prefix, pass, i) in names && PartialPath(RunPath(prefix, pass, i)) in names;
      }
    }
    if PassFree(base, prefix, pass, count) {
      forall path | path in names
        ensures path !in base
      {
        var i :| 0 <= i < count && (path == RunPath(prefix, pass, i) || path == PartialPath(RunPath(prefix, pass, i)));
        assert TargetFree(base, RunPath(prefix, pass, i));
      }
    }
  }

  lemma {:induction false} LaterFreeStep(base: map<Path, File>, prefix: Path, pass: nat, count: nat, fanIn: nat, output: Path)
    requires fanIn >= 2 && count > fanIn
    ensures LaterFree(base, prefix, pass, count, fanIn, output) <==>
              && PassFree(base, prefix, pass + 1, Groups(count, fanIn))
              && LaterFree(base, prefix, pass + 1, Groups(count, fanIn), fanIn, output)
  {
    PassFreeIff(base, prefix, pass + 1, Groups(count, fanIn));
  }

  lemma {:induction false} LaterFreeLast(base: map<Path, File>, prefix: Path, pass: nat, count: nat, fanIn: nat, output: Path)
    requires fanIn >= 2 && count <= fanIn
    ensures LaterFree(base, prefix, pass, count, fanIn, output) <==>
              TargetFree(base, output) && NotARun(output, prefix, pass, count)
  {
  }

  lemma {:induction false} NamesFreeIff(base: map<Path, File>, prefix: Path, output: Path, capacity: nat, fanIn: nat, n: nat)
    requires capacity >= 1 && fanIn >= 2
    ensures NamesFree(base, prefix, output, capacity, fanIn, n) <==>
              && Fresh(base, prefix, 0, Groups(n, capacity))
              && LaterFree(base, prefix, 0, Groups(n, capacity), fanIn, output)
  {
    FreshIff(base, prefix, 0, Groups(n, capacity));
  }
}
