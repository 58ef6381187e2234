/** What a sort needs of the disk, in closed form: how many runs each pass has, which names it uses, and how many
    bytes. */
module SortSpace {
  import opened Arithmetic
  import opened Floats
  import opened SpillStore
  import opened Merging
  import opened ExternalMerge
  import opened RunFiles
  import opened ExternalSort

  // ----- how many runs -----

  function Pow(base: nat, e: nat): nat { if e == 0 then 1 else base * Pow(base, e - 1) }

  /** k pieces of size d are enough for n, and no fewer. */
  predicate JustEnough(n: nat, d: nat, k: nat) { n <= k * d && (k > 0 ==> (k - 1) * d < n) }

  lemma {:induction false} GroupsAreEnough(n: nat, d: nat)
    requires d >= 1
    ensures JustEnough(n, d, Groups(n, d))
  {
    var q, r := n / d, n % d;
    assert n == q * d + r;
    Distribute(q, 1, d);
  }

  lemma {:induction false} EnoughIsUnique(n: nat, d: nat, k: nat, l: nat)
    requires d >= 1 && JustEnough(n, d, k) && JustEnough(n, d, l)
    ensures k == l
  {
    if k < l { ProductMonotone(k, l - 1, d); }
    if l < k { ProductMonotone(l, k - 1, d); }
  }

  /** Groups of groups are larger groups. */
  lemma {:induction false} GroupsOfGroups(n: nat, c: nat, d: nat)
    requires c >= 1 && d >= 1
    ensures c * d >= 1 && Groups(Groups(n, c), d) == Groups(n, c * d)
  {
    var k := Groups(n, c);
    var j := Groups(k, d);
    ProductMonotone(1, c, d);
    GroupsAreEnough(n, c);
    GroupsAreEnough(k, d);
    GroupsAreEnough(n, c * d);
    TimesBoth(j, d, c);
    ProductMonotone(k, j * d, c);
    if j > 0 {
      TimesBoth(j - 1, d, c);
      ProductMonotone((j - 1) * d, k - 1, c);
    }
    EnoughIsUnique(n, c * d, j, Groups(n, c * d));
  }

  lemma {:induction false} TimesBoth(j: int, d: int, c: int)
    ensures j * d * c == j * (c * d)
  {
    Associate(j, d, c);
  }

  lemma {:induction false} PowPositive(base: nat, e: nat)
    requires base >= 1
    ensures Pow(base, e) >= 1
    decreases e
  {
    if e > 0 {
      PowPositive(base, e - 1);
      ProductMonotone(1, base, Pow(base, e - 1));
    }
  }

  /** The runs of a pass: each holds what fits the buffer, times the fan-in once for every pass before. */
  function RunsOfPass(n: nat, capacity: nat, fanIn: nat, pass: nat): nat
    requires capacity >= 1 && fanIn >= 2
  {
    PowPositive(fanIn, pass);
    ProductMonotone(1, capacity, Pow(fanIn, pass));
    Groups(n, capacity * Pow(fanIn, pass))
  }

  lemma {:induction false} FirstRuns(n: nat, capacity: nat, fanIn: nat)
    requires capacity >= 1 && fanIn >= 2
    ensures RunsOfPass(n, capacity, fanIn, 0) == Groups(n, capacity)
  {
    assert capacity * Pow(fanIn, 0) == capacity;
  }

  lemma {:induction false} NextRuns(n: nat, capacity: nat, fanIn: nat, pass: nat)
    requires capacity >= 1 && fanIn >= 2
    ensures RunsOfPass(n, capacity, fanIn, pass + 1) == Groups(RunsOfPass(n, capacity, fanIn, pass), fanIn)
  {
    var size := capacity * Pow(fanIn, pass);
    PowPositive(fanIn, pass);
    ProductMonotone(1, capacity, Pow(fanIn, pass));
    GroupsOfGroups(n, size, fanIn);
    Associate(capacity, Pow(fanIn, pass), fanIn);
    assert Pow(fanIn, pass + 1) == fanIn * Pow(fanIn, pass);
  }

  lemma {:induction false} FewerLater(n: nat, capacity: nat, fanIn: nat, pass: nat, later: nat)
    requires capacity >= 1 && fanIn >= 2 && pass <= later
    ensures RunsOfPass(n, capacity, fanIn, later) <= RunsOfPass(n, capacity, fanIn, pass)
    decreases later
  {
    if pass < later {
      FewerLater(n, capacity, fanIn, pass, later - 1);
      NextRuns(n, capacity, fanIn, later - 1);
      var k := RunsOfPass(n, capacity, fanIn, later - 1);
      GroupsAreEnough(k, fanIn);
      if Groups(k, fanIn) > k { ProductMonotone(1, fanIn, Groups(k, fanIn) - 1); }
    }
  }

  // ----- which names -----

  /** The pass before had more runs than can be merged at once. */
  predicate MergesInto(n: nat, capacity: nat, fanIn: nat, pass: nat)
    requires capacity >= 1 && fanIn >= 2
  {
    pass > 0 && RunsOfPass(n, capacity, fanIn, pass - 1) > fanIn
  }

  /** A run file of a merge pass, or its temporary name. */
  predicate RunName(prefix: Path, path: Path, pass: nat, run: nat) {
    path == RunPath(prefix, pass, run) || path == RunPath(prefix, pass, run) + ".partial"
  }

  ghost predicate UsedLater(n: nat, capacity: nat, fanIn: nat, prefix: Path, path: Path, pass: nat, run: nat)
    requires capacity >= 1 && fanIn >= 2
  {
    MergesInto(n, capacity, fanIn, pass) && run < RunsOfPass(n, capacity, fanIn, pass) && RunName(prefix, path, pass, run)
  }

  lemma {:induction false} PassNamesIff(prefix: Path, pass: nat, count: nat, path: Path)
    ensures path in PassNames(prefix, pass, count) <==> exists run: nat :: run < count && RunName(prefix, path, pass, run)
  {
    if path in PassNames(prefix, pass, count) {
      var run: nat :| run < count && (path == RunPath(prefix, pass, run) || path == PartialPath(RunPath(prefix, pass, run)));
      assert RunName(prefix, path, pass, run);
    }
    if run: nat :| run < count && RunName(prefix, path, pass, run) {
      assert RunPath(prefix, pass, run) in RunPaths(prefix, pass, count);
      assert PartialPath(RunPath(prefix, pass, run)) in PassNames(prefix, pass, count);
    }
  }

  lemma {:induction false} LaterNamesIff(
      n: nat, capacity: nat, fanIn: nat, prefix: Path, pass: nat, path: Path)
    requires capacity >= 1 && fanIn >= 2
    ensures path in LaterNames(prefix, pass, RunsOfPass(n, capacity, fanIn, pass), fanIn) <==>
              exists later: nat, run: nat :: later > pass && UsedLater(n, capacity, fanIn, prefix, path, later, run)
    decreases RunsOfPass(n, capacity, fanIn, pass)
  {
    var count := RunsOfPass(n, capacity, fanIn, pass);
    if count > fanIn {
      GroupsCover(count, fanIn);
      NextRuns(n, capacity, fanIn, pass);
      var next := pass + 1;
      PassNamesIff(prefix, next, Groups(count, fanIn), path);
      LaterNamesIff(n, capacity, fanIn, prefix, next, path);
      if run: nat :| run < Groups(count, fanIn) && RunName(prefix, path, next, run) {
        assert UsedLater(n, capacity, fanIn, prefix, path, next, run);
      }
      if later: nat, run: nat :| later > pass && UsedLater(n, capacity, fanIn, prefix, path, later, run) {
        if later == next { assert run < Groups(count, fanIn) && RunName(prefix, path, next, run); }
      }
    } else {
      if later: nat, run: nat :| later > pass && UsedLater(n, capacity, fanIn, prefix, path, later, run) {
        FewerLater(n, capacity, fanIn, pass, later - 1);
      }
    }
  }

  /** The pass whose runs are merged into the output. */
  predicate LastPass(n: nat, capacity: nat, fanIn: nat, pass: nat)
    requires capacity >= 1 && fanIn >= 2
  {
    RunsOfPass(n, capacity, fanIn, pass) <= fanIn && (pass > 0 ==> RunsOfPass(n, capacity, fanIn, pass - 1) > fanIn)
  }

  ghost predicate ReadLast(n: nat, capacity: nat, fanIn: nat, prefix: Path, path: Path, pass: nat, run: nat)
    requires capacity >= 1 && fanIn >= 2
  {
    LastPass(n, capacity, fanIn, pass) && run < RunsOfPass(n, capacity, fanIn, pass) && path == RunPath(prefix, pass, run)
  }

  lemma {:induction false} LastNamesIff(
      n: nat, capacity: nat, fanIn: nat, prefix: Path, pass: nat, path: Path)
    requires capacity >= 1 && fanIn >= 2 && (pass > 0 ==> RunsOfPass(n, capacity, fanIn, pass - 1) > fanIn)
    ensures path in LastNames(prefix, pass, RunsOfPass(n, capacity, fanIn, pass), fanIn) <==>
              exists last: nat, run: nat :: ReadLast(n, capacity, fanIn, prefix, path, last, run)
    decreases RunsOfPass(n, capacity, fanIn, pass)
  {
    var count := RunsOfPass(n, capacity, fanIn, pass);
    if count > fanIn {
      GroupsCover(count, fanIn);
      NextRuns(n, capacity, fanIn, pass);
      LastNamesIff(n, capacity, fanIn, prefix, pass + 1, path);
    } else {
      if path in RunPaths(prefix, pass, count) {
        var run: nat :| run < count && path == RunPath(prefix, pass, run);
        assert ReadLast(n, capacity, fanIn, prefix, path, pass, run);
      }
      if last: nat, run: nat :| ReadLast(n, capacity, fanIn, prefix, path, last, run) {
        if last < pass { FewerLater(n, capacity, fanIn, last, pass - 1); }
        if pass < last { FewerLater(n, capacity, fanIn, pass, last - 1); }
        assert last == pass;
      }
    }
  }

  /** The scratch names of a sort: the temporary output, the runs read from the source, and those of merge passes with
      their temporaries. */
  ghost predicate Scratch(n: nat, capacity: nat, fanIn: nat, prefix: Path, output: Path, path: Path)
    requires capacity >= 1 && fanIn >= 2
  {
    || path == output + ".partial"
    || (exists run: nat :: run < RunsOfPass(n, capacity, fanIn, 0) && path == RunPath(prefix, 0, run))
    || (exists pass: nat, run: nat :: UsedLater(n, capacity, fanIn, prefix, path, pass, run))
  }

  lemma {:induction false} ScratchIff(n: nat, capacity: nat, fanIn: nat, prefix: Path, output: Path, path: Path)
    requires capacity >= 1 && fanIn >= 2
    ensures path in ScratchNames(prefix, output, capacity, fanIn, n) <==> Scratch(n, capacity, fanIn, prefix, output, path)
  {
    FirstRuns(n, capacity, fanIn);
    LaterNamesIff(n, capacity, fanIn, prefix, 0, path);
    if pass: nat, run: nat :| UsedLater(n, capacity, fanIn, prefix, path, pass, run) { assert pass > 0; }
  }

  // ----- what can be sorted -----

  /** A record takes 20 bytes besides its own, and a number is 8 bytes long. */
  lemma {:induction false} FileBytes(f: File, r: Record)
    ensures Bytes([]) == 0
    ensures r.Number? ==> Bytes(f + [r]) == Bytes(f) + 28
    ensures r.Other? ==> Bytes(f + [r]) == Bytes(f) + 20 + r.length
  {
    assert (f + [r])[..|f|] == f;
  }

  /** Arguments in order, every scratch name and the output free, the output none of the runs it is merged from,
      28 bytes a number within the quota of a file and twice as much within that of the scratch, and no number that is
      not finite. */
  ghost predicate CanSort(
      files: map<Path, File>, values: seq<Double>, from: nat, prefix: Path, output: Path,
      capacity: nat, fanIn: nat, perFile: nat, total: nat)
    requires from <= |values|
  {
    var n := |values| - from;
    && prefix != [] && output != [] && prefix != output && 1 <= capacity && 2 <= fanIn && 28 <= perFile && 28 <= total
    && output !in files && (forall path | path in files :: !Scratch(n, capacity, fanIn, prefix, output, path))
    && (forall pass: nat, run: nat :: !ReadLast(n, capacity, fanIn, prefix, output, pass, run))
    && 28 * n <= perFile && 56 * n <= total
    && forall i | from <= i < |values| :: Exponent(values[i]) != 2047
  }

  lemma {:induction false} SortableIff(
      files: map<Path, File>, values: seq<Double>, from: nat, prefix: Path, output: Path,
      capacity: nat, fanIn: nat, perFile: nat, total: nat)
    requires from <= |values|
    ensures Sortable(files, values, from, prefix, output, capacity, fanIn, perFile, total)
       <==> CanSort(files, values, from, prefix, output, capacity, fanIn, perFile, total)
  {
    if SortArgumentsOk(prefix, output, capacity, fanIn, perFile, total) {
      NamesIff(files, prefix, output, capacity, fanIn, |values| - from);
    }
  }

  lemma {:induction false} NamesIff(
      files: map<Path, File>, prefix: Path, output: Path, capacity: nat, fanIn: nat, n: nat)
    requires capacity >= 1 && fanIn >= 2
    ensures NamesFree(files, prefix, output, capacity, fanIn, n) <==>
              && output !in files && (forall path | path in files :: !Scratch(n, capacity, fanIn, prefix, output, path))
              && forall pass: nat, run: nat :: !ReadLast(n, capacity, fanIn, prefix, output, pass, run)
  {
    forall path
      ensures path in ScratchNames(prefix, output, capacity, fanIn, n) <==> Scratch(n, capacity, fanIn, prefix, output, path)
    {
      ScratchIff(n, capacity, fanIn, prefix, output, path);
    }
    FirstRuns(n, capacity, fanIn);
    LastNamesIff(n, capacity, fanIn, prefix, 0, output);
  }

  // ----- what can be merged -----

  /** Finite numbers in non-decreasing order. */
  predicate SortedNumbers(f: File) {
    && (forall i | 0 <= i < |f| :: f[i].Number? && Exponent(f[i].value) != 2047)
    && forall i, j | 0 <= i < j < |f| :: NumberValue(f[i].value) <= NumberValue(f[j].value)
  }

  /** As many inputs as can be merged, each there, in order, and within the quota; the output free, and its bytes within
      the quota. */
  ghost predicate CanMerge(files: map<Path, File>, inputs: seq<Path>, output: Path, maxFanIn: nat, quota: nat) {
    && 1 <= |inputs| <= maxFanIn && 2 <= maxFanIn && 20 <= quota
    && output != [] && output !in files && output + ".partial" !in files
    && (forall i | 0 <= i < |inputs| ::
          && inputs[i] != [] && inputs[i] in files
          && SortedNumbers(files[inputs[i]]) && 28 * |files[inputs[i]]| <= quota)
    && 28 * Numbers(files, inputs) <= quota
  }

  ghost function Numbers(files: map<Path, File>, inputs: seq<Path>): nat {
    if inputs == [] then 0
    else
      var last := inputs[|inputs| - 1];
      Numbers(files, inputs[..|inputs| - 1]) + if last in files then |files[last]| else 0
  }

  lemma {:induction false} MergeableIff(
      files: map<Path, File>, inputs: seq<Path>, output: Path, maxFanIn: nat, quota: nat)
    ensures Mergeable(files, inputs, output, maxFanIn, quota) <==> CanMerge(files, inputs, output, maxFanIn, quota)
  {
    TotalNumbers(files, inputs);
    forall i | 0 <= i < |inputs| && inputs[i] in files
      ensures Readable(files[inputs[i]], quota) && Ascending(files[inputs[i]]) <==>
                20 <= quota && SortedNumbers(files[inputs[i]]) && 28 * |files[inputs[i]]| <= quota
    {
      ReadableIff(files[inputs[i]], quota);
    }
  }

  lemma {:induction false} ReadableIff(f: File, quota: nat)
    ensures Readable(f, quota) && Ascending(f) <==> 20 <= quota && SortedNumbers(f) && 28 * |f| <= quota
  {
    if AllNumbers(f) { NumberBytes(f); }
  }

  lemma {:induction false} TotalNumbers(files: map<Path, File>, inputs: seq<Path>)
    ensures Sum(Lengths(RunsOf(files, inputs))) == Numbers(files, inputs)
    decreases |inputs|
  {
    if inputs != [] {
      var n := |inputs| - 1;
      TotalNumbers(files, inputs[..n]);
      assert RunsOf(files, inputs)[..n] == RunsOf(files, inputs[..n]);
      assert Lengths(RunsOf(files, inputs))[..n] == Lengths(RunsOf(files, inputs[..n]));
    }
  }
}
