/** Sorting a stream that does not fit in memory: sorted runs on disk, then merge passes of bounded fan-in. */
module ExternalSort {
  import opened Arithmetic
  import opened Floats
  import opened SpillStore
  import opened MergeHeap
  import opened Merging
  import opened ExternalMerge
  import opened RunFiles

  // ----- removing runs -----

  /** Removes the run files of a pass.  One whose name finds no memory, or that cannot be removed, is left behind. */
  method RemoveRuns(disk: Disk, prefix: Path, pass: nat, count: nat)
    requires disk.Valid()
    modifies disk`files, disk`torn, disk`faulty, disk`orphans
    ensures disk.Valid() && (old(disk.faulty) ==> disk.faulty)
    ensures disk.Kept() == old(disk.Kept()) - RunPaths(prefix, pass, count)
    ensures disk.Torn() == old(disk.Torn()) - RunPaths(prefix, pass, count)
    ensures disk.orphans <= old(disk.orphans) + RunPaths(prefix, pass, count)
    ensures disk.files - RunPaths(prefix, pass, count) == old(disk.files) - RunPaths(prefix, pass, count)
  {
    for i := 0 to count
      invariant disk.Valid() && (old(disk.faulty) ==> disk.faulty)
      invariant disk.Kept() == old(disk.Kept()) - RunPaths(prefix, pass, i)
      invariant disk.Torn() == old(disk.Torn()) - RunPaths(prefix, pass, i)
      invariant disk.orphans <= old(disk.orphans) + RunPaths(prefix, pass, i)
      invariant disk.files - RunPaths(prefix, pass, i) == old(disk.files) - RunPaths(prefix, pass, i)
    {
      ghost var path, gone, was := RunPath(prefix, pass, i), RunPaths(prefix, pass, i), disk.files;
      RemoveRun(disk, prefix, pass, i);
      assert RunPaths(prefix, pass, i + 1) == gone + {path};
      WithoutMore(old(disk.Kept()), gone, path);
      WithoutMore(disk.files, gone, path);
      WithoutMore(was, gone, path);
      WithoutMore(old(disk.files), gone, path);
    }
    assert old(disk.files) - RunPaths(prefix, pass, 0) == old(disk.files);
  }

  lemma {:induction false} WithoutMore(files: map<Path, File>, gone: set<Path>, path: Path)
    ensures files - (gone + {path}) == files - gone - {path} && files - (gone + {path}) == files - {path} - gone
  {
  }

  method RemoveRun(disk: Disk, prefix: Path, pass: nat, run: nat)
    requires disk.Valid()
    modifies disk`files, disk`torn, disk`faulty, disk`orphans
    ensures disk.Valid() && (old(disk.faulty) ==> disk.faulty)
    ensures disk.Kept() == old(disk.Kept()) - {RunPath(prefix, pass, run)}
    ensures disk.Torn() == old(disk.Torn()) - {RunPath(prefix, pass, run)}
    ensures disk.orphans <= old(disk.orphans) + {RunPath(prefix, pass, run)}
    ensures disk.files - {RunPath(prefix, pass, run)} == old(disk.files) - {RunPath(prefix, pass, run)}
  {
    var named := disk.Allocate();
    if named {
      disk.Remove(RunPath(prefix, pass, run));
    } else {
      disk.Leave(RunPath(prefix, pass, run));
    }
  }

  // ----- bytes and bags -----

  function TotalBytes(runs: seq<File>): nat { NUMBER_BYTES * Sum(Lengths(runs)) }

  /** The bytes of a generation of runs of numbers. */
  lemma {:induction false} GoodBytes(runs: seq<File>)
    requires RunsGood(runs)
    ensures AllBytes(runs) == TotalBytes(runs)
    decreases |runs|
  {
    if runs != [] {
      var n := |runs| - 1;
      GoodBytes(runs[..n]);
      assert runs == runs[..n] + [runs[n]];
      LengthsMore(runs[..n], runs[n]);
      assert Nonempty(runs[n]) && AllNumbers(runs[n]) by { GoodNumbers(runs[n]); }
      NumberBytes(runs[n]);
    }
  }

  lemma {:induction false} GoodNumbers(f: File)
    requires GoodRun(f)
    ensures AllNumbers(f)
  {
    forall i | 0 <= i < |f|
      ensures f[i].Number?
    {
      assert GoodAt(f, i);
    }
  }

  lemma {:induction false} LengthsMore(runs: seq<File>, f: File)
    ensures Sum(Lengths(runs + [f])) == Sum(Lengths(runs)) + |f|
    ensures UnionBag(runs + [f]) == UnionBag(runs) + multiset(f)
  {
    assert Lengths(runs + [f])[..|runs|] == Lengths(runs);
    assert (runs + [f])[..|runs|] == runs;
  }

  lemma {:induction false} BagSize(runs: seq<File>)
    ensures |UnionBag(runs)| == Sum(Lengths(runs))
    decreases |runs|
  {
    if runs != [] {
      var n := |runs| - 1;
      BagSize(runs[..n]);
      assert runs == runs[..n] + [runs[n]];
      LengthsMore(runs[..n], runs[n]);
    }
  }

  lemma {:induction false} BagsAppend(a: seq<File>, b: seq<File>)
    ensures UnionBag(a + b) == UnionBag(a) + UnionBag(b)
    ensures Sum(Lengths(a + b)) == Sum(Lengths(a)) + Sum(Lengths(b))
    decreases |b|
  {
    if b == [] {
      assert a + b == a;
    } else {
      var n := |b| - 1;
      BagsAppend(a, b[..n]);
      assert a + b == (a + b[..n]) + [b[n]] && b == b[..n] + [b[n]];
      LengthsMore(a + b[..n], b[n]);
      LengthsMore(b[..n], b[n]);
    }
  }

  // ----- the source -----

  /** A stream of numbers that may break off. */
  class Source {
    const values: seq<Double>
    var index: nat
    ghost var broken: bool

    method Next() returns (status: Status, value: Double, has: bool)
      requires index <= |values|
      modifies this
      ensures old(index) <= index <= |values| && (old(broken) ==> broken)
      ensures status == Ok ==> has == (old(index) < |values|) && broken == old(broken)
      ensures status == Ok && has ==> value == values[old(index)] && index == old(index) + 1
      ensures status == Ok && !has ==> index == old(index)
      ensures status != Ok ==> broken
    {
      value, has := ZERO, false;
      if * { broken := true; return IoError, value, has; }
      if index < |values| {
        value, has := values[index], true;
        index := index + 1;
      }
      status := Ok;
    }
  }

  function Records(values: seq<Double>): File { seq(|values|, i requires 0 <= i < |values| => Number(values[i])) }

  // ----- runs -----

  predicate Sorted(s: seq<Double>) { forall i, j | 0 <= i < j < |s| :: Rank(s[i]) <= Rank(s[j]) }

  /** There is a sorted arrangement of every sequence. */
  lemma {:induction false} SortedExists(s: seq<Double>) returns (t: seq<Double>)
    ensures Sorted(t) && multiset(t) == multiset(s) && |t| == |s|
    decreases |s|
  {
    if s == [] {
      t := [];
    } else {
      var n := |s| - 1;
      var rest := SortedExists(s[..n]);
      t := Inserted(rest, s[n]);
      assert s == s[..n] + [s[n]];
    }
  }

  lemma {:induction false} Inserted(s: seq<Double>, v: Double) returns (t: seq<Double>)
    requires Sorted(s)
    ensures Sorted(t) && multiset(t) == multiset(s) + multiset{v} && |t| == |s| + 1
    decreases |s|
  {
    if s == [] || Rank(s[|s| - 1]) <= Rank(v) {
      t := s + [v];
    } else {
      var n := |s| - 1;
      var front := Inserted(s[..n], v);
      t := front + [s[n]];
      assert s == s[..n] + [s[n]];
      forall i | 0 <= i < |front|
        ensures Rank(front[i]) <= Rank(s[n])
      {
        assert front[i] in multiset(front);
        assert front[i] in multiset(s[..n]) || front[i] == v;
      }
    }
  }

  /** The library sort: some sorted arrangement of the first `count` values. */
  method SortValues(values: array<Double>, count: nat)
    requires count <= values.Length
    modifies values
    ensures Sorted(values[..count]) && multiset(values[..count]) == multiset(old(values[..count]))
  {
    ghost var t := SortedExists(values[..count]);
    var arranged: seq<Double> :| Sorted(arranged) && multiset(arranged) == multiset(values[..count]) && |arranged| == count;
    forall i | 0 <= i < count { values[i] := arranged[i]; }
    assert values[..count] == arranged;
  }

  lemma {:induction false} SortedIsGood(s: seq<Double>)
    requires Sorted(s) && forall i | 0 <= i < |s| :: IsFinite(s[i])
    ensures GoodRun(Records(s)) && AllNumbers(Records(s))
  {
    forall i | 0 <= i < |s|
      ensures GoodAt(Records(s), i)
    {
    }
  }

  lemma {:induction false} RecordCount(s: seq<Double>, v: Double)
    ensures multiset(Records(s))[Number(v)] == multiset(s)[v]
    decreases |s|
  {
    if s != [] {
      var n := |s| - 1;
      RecordCount(s[..n], v);
      assert s == s[..n] + [s[n]];
      assert Records(s) == Records(s[..n]) + [Number(s[n])];
    }
  }

  lemma {:induction false} RecordsBag(s: seq<Double>, t: seq<Double>)
    requires multiset(s) == multiset(t)
    ensures multiset(Records(s)) == multiset(Records(t)) && |s| == |t|
  {
    assert |s| == |multiset(s)| && |t| == |multiset(t)|;
    forall r
      ensures multiset(Records(s))[r] == multiset(Records(t))[r]
    {
      if r.Number? {
        RecordCount(s, r.value);
        RecordCount(t, r.value);
      } else {
        assert r !in Records(s) && r !in Records(t);
      }
    }
  }

  /** Writes one run to a new file.  On failure the file is removed, but not if the store has failed after
      creating it. */
  method WriteRun(disk: Disk, path: Path, values: array<Double>, count: nat, quota: nat) returns (status: Status, bytes: nat)
    requires disk.Valid() && count <= values.Length && HEADER + TRAILER <= quota
    modifies disk
    ensures disk.Valid() && (old(disk.faulty) ==> disk.faulty)
    ensures disk.peak <= Most(old(disk.peak), Occupied(old(disk.Kept())) + quota)
    ensures disk.orphans <= old(disk.orphans) + {path} && disk.Torn() == old(disk.Torn())
    ensures status == Ok ==>
              && path !in old(disk.files) && disk.Kept() == old(disk.Kept())[path := Records(values[..count])]
              && disk.faulty == old(disk.faulty) && bytes == NUMBER_BYTES * count && (count > 0 ==> bytes <= quota)
    ensures status != Ok ==> disk.Kept() == old(disk.Kept())
    ensures status != Ok && !disk.faulty ==> path in old(disk.files) || NUMBER_BYTES * count > quota
    ensures path !in old(disk.files) && old(disk.fate) == Unnamed ==>
              status == MemoryError && disk.files == old(disk.files)[path := []] && disk.orphans == old(disk.orphans) + {path}
  {
    ghost var kept := disk.Kept();
    bytes := 0;
    if disk.Exists(path) { return Argument, bytes; }
    status := disk.Open(path, quota);
    if status != Ok { return; }
    assert disk.Kept() == kept[path := []] && kept[path := []] - {path} == kept;
    status, bytes := FillRun(disk, path, values, count, quota);
    assert status == Ok ==> disk.Kept() == kept[path := Records(values[..count])];
  }

  /** Fills the new file of a run, or removes it. */
  method FillRun(disk: Disk, path: Path, values: array<Double>, count: nat, quota: nat) returns (status: Status, bytes: nat)
    requires disk.Valid() && count <= values.Length
    requires path in disk.files && path !in disk.orphans && path !in disk.torn && disk.files[path] == []
    modifies disk
    ensures disk.Valid() && (old(disk.faulty) ==> disk.faulty)
    ensures disk.peak <= Most(old(disk.peak), Occupied(old(disk.Kept()) - {path}) + quota)
    ensures disk.orphans <= old(disk.orphans) + {path} && disk.Torn() == old(disk.Torn())
    ensures status == Ok ==>
              && disk.Kept() == (old(disk.Kept()) - {path})[path := Records(values[..count])]
              && disk.faulty == old(disk.faulty) && bytes == NUMBER_BYTES * count && (count > 0 ==> bytes <= quota)
    ensures status != Ok ==> disk.Kept() == old(disk.Kept()) - {path}
    ensures status != Ok && !disk.faulty ==> NUMBER_BYTES * count > quota
  {
    bytes := 0;
    ghost var files, kept, torn, orphans := disk.files, disk.Kept(), disk.torn, disk.orphans;
    assert files - {path} - orphans == kept - {path};
    status := WriteValues(disk, path, values, count, quota);
    StillKept(files, disk.files, orphans, path);
    TornBut(torn, disk.torn, orphans, path);
    var closed := disk.Close(path);
    if status == Ok { status := closed; }
    if status == Ok {
      NumberBytes(Records(values[..count]));
      var ok;
      ok, bytes := disk.Measure(path);
      if !ok { status := IoError; }
    }
    if status != Ok { disk.Remove(path); }
  }

  lemma {:induction false} StillKept(files: map<Path, File>, files': map<Path, File>, orphans: set<Path>, path: Path)
    requires files' - {path} == files - {path} && path !in orphans && path in files'
    ensures files' - orphans == (files - orphans - {path})[path := files'[path]]
    ensures files' - orphans - {path} == files - orphans - {path}
  {
    assert files' - orphans - {path} == files' - {path} - orphans;
    assert files - orphans - {path} == files - {path} - orphans;
  }

  /** Appends the values to the file of a run. */
  method WriteValues(disk: Disk, path: Path, values: array<Double>, count: nat, quota: nat) returns (status: Status)
    requires disk.Valid() && count <= values.Length
    requires path in disk.files && path !in disk.orphans && path !in disk.torn && disk.files[path] == []
    modifies disk`files, disk`torn, disk`faulty, disk`peak
    ensures disk.Valid() && (old(disk.faulty) ==> disk.faulty)
    ensures path in disk.files && disk.files - {path} == old(disk.files) - {path}
    ensures disk.torn - {path} == old(disk.torn) && (status == Ok ==> path !in disk.torn)
    ensures disk.peak <= Most(old(disk.peak), Occupied(old(disk.files) - {path} - disk.orphans) + quota)
    ensures status == Ok ==>
              && disk.files[path] == Records(values[..count]) && disk.faulty == old(disk.faulty)
              && (count > 0 ==> NUMBER_BYTES * count <= quota)
    ensures status != Ok && !disk.faulty ==> NUMBER_BYTES * count > quota
  {
    status := Ok;
    assert values[..0] == [] && Records(values[..0]) == [];
    for i := 0 to count
      invariant disk.Valid() && disk.faulty == old(disk.faulty) && status == Ok && disk.torn == old(disk.torn)
      invariant path in disk.files && disk.files - {path} == old(disk.files) - {path}
      invariant disk.files[path] == Records(values[..i]) && (i > 0 ==> NUMBER_BYTES * i <= quota)
      invariant disk.peak <= Most(old(disk.peak), Occupied(old(disk.files) - {path} - disk.orphans) + quota)
    {
      assert values[..i + 1] == values[..i] + [values[i]];
      status := disk.Append(path, values[i], quota);
      if status != Ok { return; }
      assert Records(values[..i + 1]) == Records(values[..i]) + [Number(values[i])];
    }
  }

  /** A run that fails and is not cleaned up: the store runs out of memory once the file is there.  No run has been
      counted then, so removing the runs does not remove it. */
  method LeftBehind(values: array<Double>, count: nat, quota: nat) returns (disk: Disk, status: Status)
    requires count <= values.Length && HEADER + TRAILER <= quota
    ensures status == MemoryError && disk.orphans == {RunPath("sort", 0, 0)}
    ensures disk.files == map[RunPath("sort", 0, 0) := []]
  {
    disk := new Disk(Unnamed);
    var bytes;
    status, bytes := WriteRun(disk, RunPath("sort", 0, 0), values, count, quota);
    RemoveRuns(disk, "sort", 0, 0);
    assert disk.files - RunPaths("sort", 0, 0) == disk.files;
    assert disk.Kept() == map[];
  }

  function Least(a: nat, b: nat): nat { if a < b then a else b }

  ghost predicate AllFinite(values: seq<Double>, from: nat, to: nat) {
    to <= |values| && forall i | from <= i < to :: IsFinite(values[i])
  }

  /** Reads up to a buffer full of values. */
  method ReadChunk(source: Source, values: array<Double>, ghost from: nat) returns (status: Status, count: nat, eof: bool)
    requires source.index <= |source.values| && from == source.index && values.Length > 0
    modifies source, values
    ensures from <= source.index <= |source.values| && (old(source.broken) ==> source.broken)
    ensures count <= values.Length
    ensures status == Ok ==>
              && source.broken == old(source.broken)
              && source.index == from + count && values[..count] == source.values[from..from + count]
              && AllFinite(source.values, from, from + count)
              && (eof ==> source.index == |source.values| && count < values.Length) && (!eof ==> count == values.Length)
    ensures status != Ok ==> source.broken || !AllFinite(source.values, from, |source.values|)
  {
    count, eof, status := 0, false, Ok;
    while count < values.Length
      invariant count <= values.Length && source.index == from + count <= |source.values| && !eof && status == Ok
      invariant source.broken == old(source.broken)
      invariant values[..count] == source.values[from..from + count]
      invariant AllFinite(source.values, from, from + count)
      decreases values.Length - count
    {
      var value, has;
      status, value, has := source.Next();
      if status != Ok { return; }
      if !has { eof := true; return; }
      if !IsFinite(value) { status := DataError; return; }
      values[count] := value;
      count := count + 1;
    }
  }

  // ----- the first pass: runs from the source -----

  ghost predicate Nonempty(run: File) { run != [] && GoodRun(run) }

  /** All runs are in order, and none is empty. */
  ghost predicate RunsGood(runs: seq<File>) { forall i | 0 <= i < |runs| :: Nonempty(runs[i]) }

  /** What holds of the disk all along: scratch space within the quota, no file left behind that is not one of the
      sort's own, and torn tails only where they were. */
  ghost predicate Steady(disk: Disk, base: map<Path, File>, total: nat, names: set<Path>, torn: set<Path>)
    reads disk
  {
    && disk.Valid() && disk.peak <= Occupied(base) + total && disk.orphans <= names
    && disk.Torn() == torn && torn <= base.Keys
  }

  /** The quotas for n numbers: a file may hold them all, and the scratch space may hold them twice. */
  predicate Enough(n: nat, perFile: nat, total: nat) {
    NUMBER_BYTES * n <= perFile && 2 * (NUMBER_BYTES * n) <= total
  }

  /** What the runs on disk hold of the source. */
  ghost predicate Drained(runs: seq<File>, values: seq<Double>, from: nat, to: nat) {
    && from <= to <= |values| && RunsGood(runs)
    && UnionBag(runs) == multiset(Records(values[from..to]))
  }

  lemma {:induction false} DrainMore(runs: seq<File>, values: seq<Double>, from: nat, to: nat, chunk: seq<Double>)
    requires Drained(runs, values, from, to) && to + |chunk| <= |values|
    requires multiset(chunk) == multiset(values[to..to + |chunk|]) && Sorted(chunk) && chunk != []
    requires forall i | 0 <= i < |chunk| :: IsFinite(chunk[i])
    ensures Drained(runs + [Records(chunk)], values, from, to + |chunk|)
    ensures Sum(Lengths(runs + [Records(chunk)])) == Sum(Lengths(runs)) + |chunk|
  {
    var next := to + |chunk|;
    SortedIsGood(chunk);
    RecordsBag(chunk, values[to..next]);
    LengthsMore(runs, Records(chunk));
    OneMoreGood(runs, Records(chunk));
    assert values[from..next] == values[from..to] + values[to..next];
    assert Records(values[from..next]) == Records(values[from..to]) + Records(values[to..next]);
  }

  lemma {:induction false} FiniteChunk(chunk: seq<Double>, was: seq<Double>)
    requires multiset(chunk) == multiset(was) && forall i | 0 <= i < |was| :: IsFinite(was[i])
    ensures forall i | 0 <= i < |chunk| :: IsFinite(chunk[i])
  {
    forall i | 0 <= i < |chunk|
      ensures IsFinite(chunk[i])
    {
      assert chunk[i] in multiset(was);
    }
  }

  lemma {:induction false} DrainedSize(runs: seq<File>, values: seq<Double>, from: nat, to: nat)
    requires Drained(runs, values, from, to)
    ensures Sum(Lengths(runs)) == to - from
  {
    BagSize(runs);
    assert |multiset(Records(values[from..to]))| == |Records(values[from..to])|;
  }

  /** None of the sort's own runs has a torn tail. */
  lemma {:induction false} NoTails(base: map<Path, File>, prefix: Path, pass: nat, count: nat, torn: set<Path>)
    requires torn <= base.Keys && Fresh(base, prefix, pass, count)
    ensures torn - RunPaths(prefix, pass, count) == torn && RunPaths(prefix, pass, count) !! torn
  {
    FreshIff(base, prefix, pass, count);
  }

  /** The scratch space that the runs of a pass take. */
  lemma {:induction false} LiveOccupied(kept: map<Path, File>, base: map<Path, File>, prefix: Path, pass: nat, runs: seq<File>)
    requires Live(kept, base, prefix, pass, runs) && RunsGood(runs)
    ensures Occupied(kept) == Occupied(base) + TotalBytes(runs)
  {
    AddRunsOccupied(base, prefix, pass, runs);
    GoodBytes(runs);
  }

  /** The runs written so far, and what they hold of the source. */
  ghost predicate Written(
      disk: Disk, base: map<Path, File>, prefix: Path, runs: seq<File>, values: seq<Double>, from: nat, to: nat,
      used: nat, total: nat, names: set<Path>, torn: set<Path>)
    reads disk
  {
    Steady(disk, base, total, names, torn) && RunsHold(disk.Kept(), base, prefix, runs, values, from, to, used, total)
  }

  ghost predicate RunsHold(
      kept: map<Path, File>, base: map<Path, File>, prefix: Path, runs: seq<File>, values: seq<Double>, from: nat, to: nat,
      used: nat, total: nat)
  {
    && Live(kept, base, prefix, 0, runs) && Drained(runs, values, from, to)
    && AllFinite(values, from, to) && used == TotalBytes(runs) <= total
  }

  /** One more run on the disk. */
  lemma {:induction false} ChunkAdded(
      base: map<Path, File>, prefix: Path, runs: seq<File>, values: seq<Double>, from: nat, to: nat, chunk: seq<Double>)
    requires Fresh(base, prefix, 0, |runs| + 1) && Drained(runs, values, from, to) && to + |chunk| <= |values|
    requires AllFinite(values, from, to) && AllFinite(values, to, to + |chunk|)
    requires multiset(chunk) == multiset(values[to..to + |chunk|]) && Sorted(chunk) && chunk != []
    ensures Live(AddRuns(base, prefix, 0, runs)[RunPath(prefix, 0, |runs|) := Records(chunk)], base, prefix, 0,
                 runs + [Records(chunk)])
    ensures Drained(runs + [Records(chunk)], values, from, to + |chunk|) && AllFinite(values, from, to + |chunk|)
    ensures TotalBytes(runs + [Records(chunk)]) == TotalBytes(runs) + NUMBER_BYTES * |chunk|
  {
    FiniteChunk(chunk, values[to..to + |chunk|]);
    DrainMore(runs, values, from, to, chunk);
    AddRunsMore(base, prefix, 0, runs, Records(chunk));
  }

  /** One buffer full: sorted, and written to the next run file. */
  method WriteChunk(
      disk: Disk, prefix: Path, values: array<Double>, count: nat, runCount: nat, used: nat, perFile: nat, total: nat,
      ghost base: map<Path, File>, ghost runs: seq<File>, ghost all: seq<Double>, ghost from: nat, ghost to: nat,
      ghost names: set<Path>, ghost torn: set<Path>, ghost groups: nat)
      returns (status: Status, used': nat, ghost runs': seq<File>)
    requires 0 < count <= values.Length && NUMBER_BYTES <= perFile && NUMBER_BYTES <= total
    requires Written(disk, base, prefix, runs, all, from, to, used, total, names, torn)
    requires RunPaths(prefix, 0, groups) <= names && |runs| == runCount < groups
    requires AllFinite(all, to, to + count) && values[..count] == all[to..to + count]
    modifies disk, values
    ensures old(disk.faulty) ==> disk.faulty
    ensures status == Ok ==>
              |runs'| == runCount + 1 && Written(disk, base, prefix, runs', all, from, to + count, used', total, names, torn)
    ensures status != Ok ==> disk.Kept() == old(disk.Kept()) && Steady(disk, base, total, names, torn)
    ensures status != Ok && !disk.faulty ==>
              !Fresh(base, prefix, 0, groups) || !Enough(|all| - from, perFile, total)
  {
    runs', used' := runs, used;
    assert RunPath(prefix, 0, runCount) in RunPaths(prefix, 0, groups);
    DrainedSize(runs, all, from, to);
    LiveOccupied(disk.Kept(), base, prefix, 0, runs);
    NotFresh(base, prefix, 0, runs);
    SortValues(values, count);
    var bytes;
    status, bytes := WriteFile(disk, prefix, runCount, values, count, used, perFile, total, base, names, torn);
    if status != Ok { return; }
    ChunkAdded(base, prefix, runs, all, from, to, values[..count]);
    runs' := runs + [Records(values[..count])];
    used' := used + bytes;
  }

  /** A sorted buffer to a run file, if there is room for it. */
  method WriteFile(
      disk: Disk, prefix: Path, run: nat, values: array<Double>, count: nat, used: nat, perFile: nat, total: nat,
      ghost base: map<Path, File>, ghost names: set<Path>, ghost torn: set<Path>)
      returns (status: Status, bytes: nat)
    requires Steady(disk, base, total, names, torn) && RunPath(prefix, 0, run) in names && 0 < count <= values.Length
    requires used <= total && Occupied(disk.Kept()) == Occupied(base) + used
    modifies disk
    ensures Steady(disk, base, total, names, torn) && (old(disk.faulty) ==> disk.faulty)
    ensures status == Ok ==>
              && RunPath(prefix, 0, run) !in old(disk.Kept())
              && disk.Kept() == old(disk.Kept())[RunPath(prefix, 0, run) := Records(values[..count])]
              && bytes == NUMBER_BYTES * count && used + bytes <= total
    ensures status != Ok ==> disk.Kept() == old(disk.Kept())
    ensures status != Ok && !disk.faulty ==>
              RunPath(prefix, 0, run) in old(disk.Kept()) || NUMBER_BYTES * count > Least(perFile, total - used)
  {
    bytes := 0;
    var named := disk.Allocate();
    if !named { return MemoryError, bytes; }
    var path := RunPath(prefix, 0, run);
    var remaining := total - used;
    var quota := Least(perFile, remaining);
    if quota < NUMBER_BYTES { return Overflow, bytes; }
    assert disk.orphans == {} ==> disk.Kept() == disk.files;
    status, bytes := WriteRun(disk, path, values, count, quota);
  }

  /** The next run file is there only if it was there before. */
  lemma {:induction false} NotFresh(base: map<Path, File>, prefix: Path, pass: nat, runs: seq<File>)
    requires Fresh(base, prefix, pass, |runs|)
    ensures RunPath(prefix, pass, |runs|) in AddRuns(base, prefix, pass, runs) <==> RunPath(prefix, pass, |runs|) in base
    ensures RunPath(prefix, pass, |runs|) !in base ==> Fresh(base, prefix, pass, |runs| + 1)
  {
    OtherPass(prefix, pass, |runs|, pass, |runs|);
    AddRunsElsewhere(base, prefix, pass, runs, RunPath(prefix, pass, |runs|));
  }

  /** How many buffers n numbers fill. */
  lemma {:induction false} BuffersFilled(n: nat, capacity: nat, full: nat, rest: nat)
    requires capacity > 0 && n == full * capacity + rest && rest < capacity
    ensures Groups(n, capacity) == full + if rest > 0 then 1 else 0
  {
    QuotientUnique(n, full, rest, capacity);
  }

  lemma {:induction false} BufferCounts(n: nat, capacity: nat, k: nat)
    requires capacity > 0 && k * capacity < n
    ensures k < Groups(n, capacity)
  {
    QuotientBound(n, capacity, k);
    var q := n / capacity;
    assert n == q * capacity + n % capacity;
  }

  /** What that many full buffers hold. */
  function Filled(full: nat, capacity: nat): nat { full * capacity }

  lemma {:induction false} FullBuffers(n: nat, capacity: nat, k: nat)
    requires capacity > 0 && Filled(k, capacity) <= n
    ensures k <= Groups(n, capacity)
  {
    QuotientBound(n, capacity, k);
  }

  lemma {:induction false} NextBuffer(n: nat, capacity: nat, full: nat, count: nat, last: bool)
    requires capacity > 0 && count <= capacity && Filled(full, capacity) + count <= n
    requires if last then count < capacity && Filled(full, capacity) + count == n else count == capacity
    ensures last ==> Groups(n, capacity) == full + if count > 0 then 1 else 0
    ensures !last ==> Filled(full + 1, capacity) == Filled(full, capacity) + count
    ensures count > 0 ==> full < Groups(n, capacity)
  {
    Distribute(full, 1, capacity);
    if last { BuffersFilled(n, capacity, full, count); }
    if count > 0 { BufferCounts(n, capacity, full); }
  }

  /** The next buffer full from the source to the next run file. */
  method WriteNext(
      disk: Disk, source: Source, prefix: Path, values: array<Double>, runCount: nat, used: nat, perFile: nat, total: nat,
      ghost base: map<Path, File>, ghost runs: seq<File>, ghost from: nat, ghost to: nat, ghost names: set<Path>, ghost torn: set<Path>)
      returns (status: Status, runCount': nat, used': nat, eof: bool, ghost runs': seq<File>, ghost to': nat)
    requires from <= to == source.index <= |source.values| && NUMBER_BYTES <= perFile && NUMBER_BYTES <= total
    requires Written(disk, base, prefix, runs, source.values, from, to, used, total, names, torn) && |runs| == runCount
    requires values.Length > 0 && to - from == Filled(runCount, values.Length)
    requires RunPaths(prefix, 0, Groups(|source.values| - from, values.Length)) <= names
    modifies disk, source, values
    ensures (old(disk.faulty) ==> disk.faulty) && (old(source.broken) ==> source.broken)
    ensures to <= source.index <= |source.values|
    ensures status == Ok ==>
              && Written(disk, base, prefix, runs', source.values, from, to', used', total, names, torn)
              && |runs'| == runCount' && to' == source.index
              && (eof ==> to' == |source.values| && runCount' == Groups(|source.values| - from, values.Length))
              && (!eof ==> to' - from == Filled(runCount', values.Length) && to' > to)
    ensures status != Ok ==> disk.Kept() == old(disk.Kept()) && Steady(disk, base, total, names, torn)
    ensures status != Ok && !disk.faulty && !source.broken ==>
              CannotWrite(base, prefix, source.values, from, values.Length, perFile, total)
  {
    runCount', used', runs', to' := runCount, used, runs, to;
    ghost var n := |source.values| - from;
    var count;
    status, count, eof := ReadChunk(source, values, to);
    assert Written(disk, base, prefix, runs, source.values, from, to, used, total, names, torn);
    if status != Ok { return; }
    NextBuffer(n, values.Length, runCount, count, eof);
    if count == 0 { return; }
    status, used', runs' :=
      WriteChunk(disk, prefix, values, count, runCount, used, perFile, total, base, runs, source.values, from, to, names, torn,
                 Groups(n, values.Length));
    runCount', to' := runCount + 1, to + count;
  }

  /** What stands in the way of writing the first runs. */
  ghost predicate CannotWrite(
      base: map<Path, File>, prefix: Path, values: seq<Double>, from: nat, capacity: nat, perFile: nat, total: nat)
    requires from <= |values| && capacity > 0
  {
    || !Fresh(base, prefix, 0, Groups(|values| - from, capacity)) || !Enough(|values| - from, perFile, total)
    || !AllFinite(values, from, |values|)
  }

  /** Runs from the whole source.  If anything goes wrong the run files are removed. */
  method WriteRuns(disk: Disk, source: Source, prefix: Path, capacity: nat, perFile: nat, total: nat,
                   ghost base: map<Path, File>, ghost names: set<Path>, ghost torn: set<Path>)
      returns (status: Status, runCount: nat, used: nat, ghost runs: seq<File>)
    requires source.index <= |source.values| && capacity > 0 && NUMBER_BYTES <= perFile && NUMBER_BYTES <= total
    requires Steady(disk, base, total, names, torn) && disk.Kept() == base
    requires RunPaths(prefix, 0, Groups(|source.values| - source.index, capacity)) <= names
    modifies disk, source
    ensures Steady(disk, base, total, names, torn) && (old(disk.faulty) ==> disk.faulty)
    ensures status == Ok ==>
              && Written(disk, base, prefix, runs, source.values, old(source.index), |source.values|, used, total, names, torn)
              && |runs| == runCount == Groups(|source.values| - old(source.index), capacity)
    ensures status != Ok ==> disk.Kept() == base
    ensures status != Ok && !disk.faulty && !source.broken ==>
              CannotWrite(base, prefix, source.values, old(source.index), capacity, perFile, total)
  {
    ghost var from, to := source.index, source.index;
    runCount, used, runs, status := 0, 0, [], Ok;
    var granted := disk.Allocate();
    if !granted { status := MemoryError; return; }
    var values := new Double[capacity](_ => ZERO);
    var eof := false;
    assert source.values[from..from] == [] && Records([]) == [];
    while !eof
      invariant from <= to == source.index <= |source.values| && status == Ok
      invariant (old(disk.faulty) ==> disk.faulty) && |runs| == runCount
      invariant Written(disk, base, prefix, runs, source.values, from, to, used, total, names, torn)
      invariant eof ==> to == |source.values| && runCount == Groups(|source.values| - from, capacity)
      invariant !eof ==> to - from == Filled(runCount, capacity)
      decreases |source.values| - to, !eof
    {
      ghost var runs0 := runs;
      var count := runCount;
      FullBuffers(|source.values| - from, capacity, count);
      status, runCount, used, eof, runs, to :=
        WriteNext(disk, source, prefix, values, runCount, used, perFile, total, base, runs, from, to, names, torn);
      if status != Ok {
        FewerPaths(prefix, 0, count, Groups(|source.values| - from, capacity));
        NoTails(base, prefix, 0, count, torn);
        RemoveRuns(disk, prefix, 0, count);
        RemoveAll(base, prefix, 0, runs0);
        return;
      }
    }
  }

  // ----- merge passes -----

  function GroupPaths(prefix: Path, pass: nat, start: nat, count: nat): seq<Path> {
    seq(count, i requires 0 <= i < count => RunPath(prefix, pass, start + i))
  }

  /** The runs of a group, as a merge finds them. */
  lemma {:induction false} GroupRuns(
      files: map<Path, File>, orphans: set<Path>, base: map<Path, File>, prefix: Path, pass: nat,
      runs: seq<File>, next: seq<File>, start: nat, count: nat)
    requires Both(files - orphans, base, prefix, pass, runs, next) && start + count <= |runs|
    ensures RunsOf(files, GroupPaths(prefix, pass, start, count)) == runs[start..start + count]
  {
    var inputs := GroupPaths(prefix, pass, start, count);
    forall i | 0 <= i < count
      ensures RunsOf(files, inputs)[i] == runs[start..start + count][i]
    {
      OldRunThere(files - orphans, base, prefix, pass, runs, next, start + i);
    }
  }

  lemma {:induction false} SubSum(runs: seq<File>, start: nat, count: nat)
    requires start + count <= |runs|
    ensures Sum(Lengths(runs[..start])) + Sum(Lengths(runs[start..start + count])) <= Sum(Lengths(runs))
    ensures forall i | start <= i < start + count :: |runs[i]| <= Sum(Lengths(runs[start..start + count]))
  {
    var group := runs[start..start + count];
    assert runs == runs[..start] + group + runs[start + count..];
    BagsAppend(runs[..start] + group, runs[start + count..]);
    BagsAppend(runs[..start], group);
    forall i | start <= i < start + count
      ensures |runs[i]| <= Sum(Lengths(group))
    {
      EachInSum(group, i - start);
    }
  }

  lemma {:induction false} EachInSum(runs: seq<File>, i: nat)
    requires i < |runs|
    ensures |runs[i]| <= Sum(Lengths(runs))
    decreases |runs|
  {
    var n := |runs| - 1;
    assert runs == runs[..n] + [runs[n]];
    LengthsMore(runs[..n], runs[n]);
    if i < n { EachInSum(runs[..n], i); }
  }

  lemma {:induction false} GoodIsReadable(f: File, quota: nat)
    requires GoodRun(f) && HEADER + TRAILER <= quota && NUMBER_BYTES * |f| <= quota
    ensures Readable(f, quota)
  {
    forall i | 0 <= i < |f|
      ensures f[i].Number?
    {
      assert GoodAt(f, i);
    }
    NumberBytes(f);
  }

  /** With free names and room, a group can be merged. */
  lemma {:induction false} GroupMergeable(
      files: map<Path, File>, base: map<Path, File>, prefix: Path, pass: nat, runs: seq<File>, next: seq<File>,
      start: nat, count: nat, target: Path, fanIn: nat, quota: nat)
    requires Both(files, base, prefix, pass, runs, next) && start + count <= |runs| && RunsGood(runs)
    requires 0 < count <= fanIn && fanIn >= 2 && NUMBER_BYTES <= quota
    requires NUMBER_BYTES * Sum(Lengths(runs[start..start + count])) <= quota
    requires target != "" && TargetFree(base, target)
    requires NotARun(target, prefix, pass, |runs|) && NotARun(target, prefix, pass + 1, |next|)
    ensures Mergeable(files, GroupPaths(prefix, pass, start, count), target, fanIn, quota)
  {
    var inputs := GroupPaths(prefix, pass, start, count);
    assert files - {} == files;
    GroupRuns(files, {}, base, prefix, pass, runs, next, start, count);
    forall i | 0 <= i < count
      ensures inputs[i] != target && inputs[i] != "" && inputs[i] in files
      ensures Readable(files[inputs[i]], quota) && Ascending(files[inputs[i]])
    {
      OldRunThere(files, base, prefix, pass, runs, next, start + i);
      RunFits(runs, start, count, i, quota);
    }
    TargetStaysFree(files, base, prefix, pass, runs, next, target);
  }

  lemma {:induction false} RunFits(runs: seq<File>, start: nat, count: nat, i: nat, quota: nat)
    requires start + count <= |runs| && i < count && RunsGood(runs) && NUMBER_BYTES <= quota
    requires NUMBER_BYTES * Sum(Lengths(runs[start..start + count])) <= quota
    ensures Readable(runs[start + i], quota) && Ascending(runs[start + i])
  {
    GoodRunIff(runs[start + i]);
    SubSum(runs, start, count);
    assert Nonempty(runs[start + i]);
    assert NUMBER_BYTES * |runs[start + i]| <= NUMBER_BYTES * Sum(Lengths(runs[start..start + count]));
    GoodIsReadable(runs[start + i], quota);
  }

  /** A free name that is none of the runs' is still free, and conversely. */
  lemma {:induction false} TargetStaysFree(
      files: map<Path, File>, base: map<Path, File>, prefix: Path, pass: nat, runs: seq<File>, next: seq<File>, target: Path)
    requires Both(files, base, prefix, pass, runs, next)
    requires NotARun(target, prefix, pass, |runs|) && NotARun(target, prefix, pass + 1, |next|)
    ensures TargetFree(files, target) <==> TargetFree(base, target)
  {
    var mid := AddRuns(base, prefix, pass, runs);
    forall k: nat, i: nat
      ensures PartialPath(target) != RunPath(prefix, k, i)
    {
      PartialIsNoRun(target, prefix, k, i);
    }
    AddRunsElsewhere(base, prefix, pass, runs, target);
    AddRunsElsewhere(mid, prefix, pass + 1, next, target);
    AddRunsElsewhere(base, prefix, pass, runs, PartialPath(target));
    AddRunsElsewhere(mid, prefix, pass + 1, next, PartialPath(target));
  }

  /** The next run of the next pass is none of those there. */
  lemma {:induction false} NextIsNew(prefix: Path, pass: nat, count: nat, next: nat)
    ensures NotARun(RunPath(prefix, pass + 1, next), prefix, pass, count)
    ensures NotARun(RunPath(prefix, pass + 1, next), prefix, pass + 1, next)
  {
    OtherPass(prefix, pass + 1, next, pass, count);
    OtherPass(prefix, pass + 1, next, pass + 1, next);
  }

  /** Progress of a pass: the next generation holds what the groups before `start` held. */
  ghost predicate Merged(runs: seq<File>, next: seq<File>, start: nat) {
    && start <= |runs| && RunsGood(runs) && RunsGood(next)
    && UnionBag(next) == UnionBag(runs[..start])
  }

  lemma {:induction false} MergeMore(runs: seq<File>, next: seq<File>, start: nat, count: nat, merged: File)
    requires Merged(runs, next, start) && start + count <= |runs| && Nonempty(merged)
    requires multiset(merged) == UnionBag(runs[start..start + count])
    ensures Merged(runs, next + [merged], start + count)
  {
    var group := runs[start..start + count];
    LengthsMore(next, merged);
    BagsAppend(runs[..start], group);
    assert runs[..start + count] == runs[..start] + group;
    OneMoreGood(next, merged);
  }

  lemma {:induction false} OneMoreGood(runs: seq<File>, run: File)
    requires RunsGood(runs) && Nonempty(run)
    ensures RunsGood(runs + [run])
  {
    forall i | 0 <= i < |runs| + 1
      ensures Nonempty((runs + [run])[i])
    {
      if i < |runs| { assert Nonempty(runs[i]); }
    }
  }

  /** The state after a group has been merged. */
  lemma {:induction false} GroupDone(
      kept: map<Path, File>, base: map<Path, File>, prefix: Path, pass: nat, runs: seq<File>, next: seq<File>,
      start: nat, count: nat, out: seq<Tag>, merged: File)
    requires Both(kept, base, prefix, pass, runs, next) && Merged(runs, next, start) && start + count <= |runs| && count > 0
    requires RunPath(prefix, pass + 1, |next|) !in kept
    requires merged == MergedFile(runs[start..start + count], out) && StableMerge(runs[start..start + count], out)
    requires multiset(merged) == UnionBag(runs[start..start + count])
    ensures Both(kept[RunPath(prefix, pass + 1, |next|) := merged], base, prefix, pass, runs, next + [merged])
    ensures Merged(runs, next + [merged], start + count)
    ensures Sum(Lengths(next + [merged])) == Sum(Lengths(next)) + |out| && Bytes(merged) == NUMBER_BYTES * |out|
  {
    var group := runs[start..start + count];
    var mid := AddRuns(base, prefix, pass, runs);
    forall r | 0 <= r < |group|
      ensures GoodRun(group[r])
    {
      assert group[r] == runs[start + r] && Nonempty(runs[start + r]);
    }
    SomeInGroup(runs, start, count);
    BagSize(group);
    MergedIsGood(group, out);
    AddRunsMore(mid, prefix, pass + 1, next, merged);
    StillFresh(mid, prefix, pass + 1, next);
    MergeMore(runs, next, start, count, merged);
    LengthsMore(next, merged);
    NumberBytes(merged);
  }

  lemma {:induction false} SomeInGroup(runs: seq<File>, start: nat, count: nat)
    requires RunsGood(runs) && start + count <= |runs| && count > 0
    ensures Sum(Lengths(runs[start..start + count])) > 0
  {
    var group := runs[start..start + count];
    assert Nonempty(runs[start]) && group[0] == runs[start];
    EachInSum(group, 0);
  }

  lemma {:induction false} MergedSize(runs: seq<File>, next: seq<File>, start: nat)
    requires Merged(runs, next, start)
    ensures Sum(Lengths(next)) == Sum(Lengths(runs[..start]))
  {
    BagSize(next);
    BagSize(runs[..start]);
  }

  /** Room for the next group: what has been merged and what is to be merged are never more than all numbers. */
  lemma {:induction false} GroupPossible(
      files: map<Path, File>, base: map<Path, File>, prefix: Path, pass: nat, runs: seq<File>, next: seq<File>,
      start: nat, count: nat, fanIn: nat, perFile: nat, total: nat, used: nat)
    requires Both(files, base, prefix, pass, runs, next) && Merged(runs, next, start) && start + count <= |runs|
    requires 0 < count <= fanIn && fanIn >= 2 && used == TotalBytes(runs) + TotalBytes(next) <= total
    ensures TargetFree(base, RunPath(prefix, pass + 1, |next|)) && Enough(Sum(Lengths(runs)), perFile, total) ==>
              && NUMBER_BYTES <= Least(perFile, total - used)
              && Mergeable(files, GroupPaths(prefix, pass, start, count), RunPath(prefix, pass + 1, |next|), fanIn,
                           Least(perFile, total - used))
  {
    if !TargetFree(base, RunPath(prefix, pass + 1, |next|)) || !Enough(Sum(Lengths(runs)), perFile, total) { return; }
    MergedSize(runs, next, start);
    SubSum(runs, start, count);
    SomeInGroup(runs, start, count);
    RoomFor(Sum(Lengths(runs)), Sum(Lengths(next)), Sum(Lengths(runs[start..start + count])), perFile, total);
    NextIsNew(prefix, pass, |runs|, |next|);
    GroupMergeable(files, base, prefix, pass, runs, next, start, count, RunPath(prefix, pass + 1, |next|), fanIn,
                   Least(perFile, total - used));
  }

  lemma {:induction false} RoomFor(n: nat, next: nat, group: nat, perFile: nat, total: nat)
    requires Enough(n, perFile, total) && next + group <= n && group > 0
    requires NUMBER_BYTES * n + NUMBER_BYTES * next <= total
    ensures NUMBER_BYTES <= Least(perFile, total - (NUMBER_BYTES * n + NUMBER_BYTES * next))
    ensures NUMBER_BYTES * group <= Least(perFile, total - (NUMBER_BYTES * n + NUMBER_BYTES * next))
  {
  }

  /** The scratch space that two generations of runs take. */
  lemma {:induction false} BothOccupied(
      kept: map<Path, File>, base: map<Path, File>, prefix: Path, pass: nat, runs: seq<File>, next: seq<File>)
    requires Both(kept, base, prefix, pass, runs, next) && RunsGood(runs) && RunsGood(next)
    ensures Occupied(kept) == Occupied(base) + TotalBytes(runs) + TotalBytes(next)
  {
    AddRunsOccupied(base, prefix, pass, runs);
    AddRunsOccupied(AddRuns(base, prefix, pass, runs), prefix, pass + 1, next);
    GoodBytes(runs);
    GoodBytes(next);
  }

  /** Merges some of the runs into a new file. */
  method MergeSome(
      disk: Disk, prefix: Path, pass: nat, start: nat, count: nat, target: Path, fanIn: nat, quota: nat,
      ghost base: map<Path, File>, ghost runs: seq<File>, ghost next: seq<File>, ghost total: nat, ghost names: set<Path>, ghost torn: set<Path>)
      returns (status: Status, ghost out: seq<Tag>)
    requires Steady(disk, base, total, names, torn) && PartialPath(target) in names && start + count <= |runs|
    requires Both(disk.Kept(), base, prefix, pass, runs, next) && Occupied(disk.Kept()) + quota <= Occupied(base) + total
    modifies disk
    ensures Steady(disk, base, total, names, torn) && (old(disk.faulty) ==> disk.faulty)
    ensures status == Ok ==>
              var group := runs[start..start + count];
              && disk.Kept() == old(disk.Kept())[target := MergedFile(group, out)]
              && StableMerge(group, out) && multiset(MergedFile(group, out)) == UnionBag(group) && NUMBER_BYTES * |out| <= quota
              && Mergeable(old(disk.files), GroupPaths(prefix, pass, start, count), target, fanIn, quota)
    ensures status != Ok ==> disk.Kept() == old(disk.Kept())
    ensures status != Ok && !disk.faulty ==>
              !Mergeable(old(disk.Kept()), GroupPaths(prefix, pass, start, count), target, fanIn, quota)
  {
    var inputs := GroupPaths(prefix, pass, start, count);
    GroupRuns(disk.files, disk.orphans, base, prefix, pass, runs, next, start, count);
    assert disk.orphans == {} ==> disk.Kept() == disk.files;
    NoTails(base, prefix, pass, |runs|, torn);
    assert InputSet(inputs) <= RunPaths(prefix, pass, |runs|);
    status, out := MergeRuns(disk, inputs, target, fanIn, quota);
  }

  /** Merges a group of runs into the next run of the next pass. */
  method MakeRun(
      disk: Disk, prefix: Path, pass: nat, start: nat, count: nat, group: nat, fanIn: nat, quota: nat,
      ghost base: map<Path, File>, ghost runs: seq<File>, ghost next: seq<File>, ghost total: nat, ghost names: set<Path>, ghost torn: set<Path>)
      returns (status: Status, ghost merged: File)
    requires Steady(disk, base, total, names, torn) && PartialPath(RunPath(prefix, pass + 1, group)) in names
    requires Both(disk.Kept(), base, prefix, pass, runs, next) && Merged(runs, next, start) && |next| == group
    requires 0 < count && start + count <= |runs| && Occupied(disk.Kept()) + quota <= Occupied(base) + total
    modifies disk
    ensures Steady(disk, base, total, names, torn) && (old(disk.faulty) ==> disk.faulty)
    ensures status == Ok ==>
              && Both(disk.Kept(), base, prefix, pass, runs, next + [merged]) && Merged(runs, next + [merged], start + count)
              && RunPath(prefix, pass + 1, group) in disk.files && disk.files[RunPath(prefix, pass + 1, group)] == merged
              && TargetFree(base, RunPath(prefix, pass + 1, group)) && Bytes(merged) <= quota
              && TotalBytes(next + [merged]) == TotalBytes(next) + Bytes(merged)
    ensures status != Ok ==> disk.Kept() == old(disk.Kept())
    ensures status != Ok && !disk.faulty ==>
              !Mergeable(old(disk.Kept()), GroupPaths(prefix, pass, start, count), RunPath(prefix, pass + 1, group), fanIn, quota)
  {
    ghost var files, kept := disk.files, disk.Kept();
    merged := [];
    ghost var out;
    status, out :=
      MergeSome(disk, prefix, pass, start, count, RunPath(prefix, pass + 1, group), fanIn, quota, base, runs, next, total, names, torn);
    if status == Ok {
      GroupMade(files, kept, base, prefix, pass, runs, next, start, count, out);
      merged := MergedFile(runs[start..start + count], out);
      assert RunPath(prefix, pass + 1, group) in disk.Kept();
    }
  }

  /** One group of runs into one run of the next pass. */
  method MergeGroup(
      disk: Disk, prefix: Path, pass: nat, start: nat, count: nat, group: nat, fanIn: nat, used: nat, perFile: nat, total: nat,
      ghost base: map<Path, File>, ghost runs: seq<File>, ghost next: seq<File>, ghost names: set<Path>, ghost torn: set<Path>)
      returns (status: Status, bytes: nat, created: bool, ghost next': seq<File>)
    requires Steady(disk, base, total, names, torn) && PartialPath(RunPath(prefix, pass + 1, group)) in names
    requires Both(disk.Kept(), base, prefix, pass, runs, next) && Merged(runs, next, start) && |next| == group
    requires 0 < count <= fanIn && fanIn >= 2 && start + count <= |runs|
    requires used == TotalBytes(runs) + TotalBytes(next) <= total
    modifies disk
    ensures Steady(disk, base, total, names, torn) && (old(disk.faulty) ==> disk.faulty)
    ensures created == (|next'| == group + 1) && (!created ==> next' == next)
    ensures Both(disk.Kept(), base, prefix, pass, runs, next')
    ensures status == Ok ==>
              && created && Merged(runs, next', start + count) && TargetFree(base, RunPath(prefix, pass + 1, group))
              && used + bytes == TotalBytes(runs) + TotalBytes(next') <= total
    ensures status != Ok && !disk.faulty ==>
              !TargetFree(base, RunPath(prefix, pass + 1, group)) || !Enough(Sum(Lengths(runs)), perFile, total)
  {
    bytes, created, next' := 0, false, next;
    var granted := disk.Allocate();
    if !granted { status := MemoryError; return; }
    var quota := Least(perFile, total - used);
    GroupPossible(disk.Kept(), base, prefix, pass, runs, next, start, count, fanIn, perFile, total, used);
    if quota < NUMBER_BYTES { return Overflow, bytes, created, next'; }
    BothOccupied(disk.Kept(), base, prefix, pass, runs, next);
    ghost var merged;
    status, merged := MakeRun(disk, prefix, pass, start, count, group, fanIn, quota, base, runs, next, total, names, torn);
    if status != Ok { return; }
    created, next' := true, next + [merged];
    var ok;
    ok, bytes := disk.Measure(RunPath(prefix, pass + 1, group));
    if !ok { status := Overflow; }
  }

  lemma {:induction false} GroupMade(
      files: map<Path, File>, kept: map<Path, File>, base: map<Path, File>, prefix: Path, pass: nat,
      runs: seq<File>, next: seq<File>, start: nat, count: nat, out: seq<Tag>)
    requires Both(kept, base, prefix, pass, runs, next) && Merged(runs, next, start) && start + count <= |runs| && count > 0
    requires kept.Keys <= files.Keys && TargetFree(files, RunPath(prefix, pass + 1, |next|))
    requires StableMerge(runs[start..start + count], out)
    requires multiset(MergedFile(runs[start..start + count], out)) == UnionBag(runs[start..start + count])
    ensures var merged := MergedFile(runs[start..start + count], out);
            && Both(kept[RunPath(prefix, pass + 1, |next|) := merged], base, prefix, pass, runs, next + [merged])
            && Merged(runs, next + [merged], start + count)
            && Sum(Lengths(next + [merged])) == Sum(Lengths(next)) + |out| && Bytes(merged) == NUMBER_BYTES * |out|
    ensures TargetFree(base, RunPath(prefix, pass + 1, |next|))
  {
    var path := RunPath(prefix, pass + 1, |next|);
    NextIsNew(prefix, pass, |runs|, |next|);
    TargetStaysFree(kept, base, prefix, pass, runs, next, path);
    GroupDone(kept, base, prefix, pass, runs, next, start, count, out, MergedFile(runs[start..start + count], out));
  }

  // ----- a whole pass -----

  lemma {:induction false} StillNone(base: map<Path, File>, prefix: Path, pass: nat, runs: seq<File>, later: nat, count: nat)
    requires Fresh(AddRuns(base, prefix, pass, runs), prefix, later, count)
    ensures Fresh(base, prefix, later, count)
  {
    forall i | 0 <= i < count
      ensures RunPath(prefix, later, i) !in base
    {
      if RunPath(prefix, later, i) in base { BaseStays(base, prefix, pass, runs, RunPath(prefix, later, i)); }
    }
  }

  /** Removes both generations after a failure. */
  method Abandon(disk: Disk, prefix: Path, pass: nat, runCount: nat, created: nat,
                 ghost base: map<Path, File>, ghost runs: seq<File>, ghost next: seq<File>, ghost total: nat, ghost names: set<Path>, ghost torn: set<Path>)
    requires Both(disk.Kept(), base, prefix, pass, runs, next) && |runs| == runCount && |next| == created
    requires Steady(disk, base, total, names, torn)
    requires RunPaths(prefix, pass, runCount) <= names && RunPaths(prefix, pass + 1, created) <= names
    modifies disk`files, disk`torn, disk`faulty, disk`orphans
    ensures disk.Kept() == base && Steady(disk, base, total, names, torn) && (old(disk.faulty) ==> disk.faulty)
  {
    StillNone(base, prefix, pass, runs, pass + 1, created);
    NoTails(base, prefix, pass + 1, created, torn);
    NoTails(base, prefix, pass, runCount, torn);
    RemoveRuns(disk, prefix, pass + 1, created);
    RemoveAll(AddRuns(base, prefix, pass, runs), prefix, pass + 1, next);
    RemoveRuns(disk, prefix, pass, runCount);
    RemoveAll(base, prefix, pass, runs);
  }

  /** What is left of the runs once `group` groups are done. */
  function Covered(group: nat, fanIn: nat, count: nat): nat { Least(group * fanIn, count) }

  /** The state of a pass after some of its groups. */
  ghost predicate InPass(
      disk: Disk, base: map<Path, File>, prefix: Path, pass: nat, runs: seq<File>, next: seq<File>, fanIn: nat,
      nextBytes: nat, total: nat, names: set<Path>, torn: set<Path>)
    reads disk
  {
    && Steady(disk, base, total, names, torn) && Both(disk.Kept(), base, prefix, pass, runs, next)
    && PassFree(base, prefix, pass + 1, |next|) && Merged(runs, next, Covered(|next|, fanIn, |runs|))
    && nextBytes == TotalBytes(next) && TotalBytes(runs) + nextBytes <= total
  }

  /** The next group of a pass. */
  method MergeNext(
      disk: Disk, prefix: Path, pass: nat, runCount: nat, created: nat, used: nat, nextBytes: nat, fanIn: nat,
      perFile: nat, total: nat, ghost base: map<Path, File>, ghost runs: seq<File>, ghost next: seq<File>, ghost names: set<Path>, ghost torn: set<Path>)
      returns (status: Status, created': nat, nextBytes': nat, ghost next': seq<File>)
    requires fanIn >= 2 && |next| == created < Groups(runCount, fanIn) && |runs| == runCount > fanIn
    requires InPass(disk, base, prefix, pass, runs, next, fanIn, nextBytes, total, names, torn) && used == TotalBytes(runs)
    requires PassNames(prefix, pass + 1, Groups(runCount, fanIn)) <= names
    modifies disk
    ensures Steady(disk, base, total, names, torn) && (old(disk.faulty) ==> disk.faulty)
    ensures Both(disk.Kept(), base, prefix, pass, runs, next') && |next'| == created' <= created + 1
    ensures status == Ok ==>
              created' == created + 1 && InPass(disk, base, prefix, pass, runs, next', fanIn, nextBytes', total, names, torn)
    ensures status != Ok && !disk.faulty ==>
              !PassFree(base, prefix, pass + 1, Groups(runCount, fanIn)) || !Enough(Sum(Lengths(runs)), perFile, total)
  {
    GroupStarts(runCount, fanIn, created);
    assert PartialPath(RunPath(prefix, pass + 1, created)) in PassNames(prefix, pass + 1, Groups(runCount, fanIn));
    var start: nat := created * fanIn;
    var count: nat := Least(runCount - start, fanIn);
    assert start == Covered(created, fanIn, runCount) && start + count == Covered(created + 1, fanIn, runCount);
    var bytes, done;
    status, bytes, done, next' :=
      MergeGroup(disk, prefix, pass, start, count, created, fanIn, used + nextBytes, perFile, total, base, runs, next, names, torn);
    created' := if done then created + 1 else created;
    nextBytes' := nextBytes + bytes;
  }

  /** All groups of a pass, up to the first that fails. */
  method MergeGroups(
      disk: Disk, prefix: Path, pass: nat, runCount: nat, used: nat, fanIn: nat, perFile: nat, total: nat,
      ghost base: map<Path, File>, ghost runs: seq<File>, ghost names: set<Path>, ghost torn: set<Path>)
      returns (status: Status, created: nat, nextBytes: nat, ghost next: seq<File>)
    requires Steady(disk, base, total, names, torn) && fanIn >= 2 && PassNames(prefix, pass + 1, Groups(runCount, fanIn)) <= names
    requires Live(disk.Kept(), base, prefix, pass, runs) && RunsGood(runs) && |runs| == runCount > fanIn
    requires used == TotalBytes(runs) <= total
    modifies disk
    ensures Steady(disk, base, total, names, torn) && (old(disk.faulty) ==> disk.faulty)
    ensures Both(disk.Kept(), base, prefix, pass, runs, next) && |next| == created <= Groups(runCount, fanIn)
    ensures status == Ok ==>
              && created == Groups(runCount, fanIn) && PassFree(base, prefix, pass + 1, created)
              && Merged(runs, next, runCount) && nextBytes == TotalBytes(next) && used + nextBytes <= total
    ensures status != Ok && !disk.faulty ==>
              !PassFree(base, prefix, pass + 1, Groups(runCount, fanIn)) || !Enough(Sum(Lengths(runs)), perFile, total)
  {
    GroupsCover(runCount, fanIn);
    var groups := Groups(runCount, fanIn);
    status, created, nextBytes, next := Ok, 0, 0, [];
    assert runs[..0] == [];
    while created < groups
      invariant status == Ok && (old(disk.faulty) ==> disk.faulty) && |next| == created <= groups
      invariant InPass(disk, base, prefix, pass, runs, next, fanIn, nextBytes, total, names, torn)
      decreases groups - created
    {
      status, created, nextBytes, next :=
        MergeNext(disk, prefix, pass, runCount, created, used, nextBytes, fanIn, perFile, total, base, runs, next, names, torn);
      if status != Ok { return; }
    }
  }

  /** Merges all groups of a pass, then removes the runs they came from; after a failure both are removed. */
  method MergePass(
      disk: Disk, prefix: Path, pass: nat, runCount: nat, used: nat, fanIn: nat, perFile: nat, total: nat,
      ghost base: map<Path, File>, ghost runs: seq<File>, ghost names: set<Path>, ghost torn: set<Path>)
      returns (status: Status, runCount': nat, used': nat, ghost runs': seq<File>)
    requires Steady(disk, base, total, names, torn) && fanIn >= 2
    requires RunPaths(prefix, pass, runCount) <= names && PassNames(prefix, pass + 1, Groups(runCount, fanIn)) <= names
    requires Live(disk.Kept(), base, prefix, pass, runs) && RunsGood(runs) && |runs| == runCount > fanIn
    requires used == TotalBytes(runs) <= total
    modifies disk
    ensures Steady(disk, base, total, names, torn) && (old(disk.faulty) ==> disk.faulty)
    ensures status == Ok ==>
              && PassFree(base, prefix, pass + 1, Groups(runCount, fanIn))
              && Live(disk.Kept(), base, prefix, pass + 1, runs') && RunsGood(runs') && UnionBag(runs') == UnionBag(runs)
              && |runs'| == runCount' == Groups(runCount, fanIn) && 0 < runCount' < runCount
              && used' == TotalBytes(runs') <= total
    ensures status != Ok ==> disk.Kept() == base
    ensures status != Ok && !disk.faulty ==>
              !PassFree(base, prefix, pass + 1, Groups(runCount, fanIn)) || !Enough(Sum(Lengths(runs)), perFile, total)
  {
    GroupsCover(runCount, fanIn);
    status, runCount', used', runs' := MergeGroups(disk, prefix, pass, runCount, used, fanIn, perFile, total, base, runs, names, torn);
    if status != Ok {
      FewerPaths(prefix, pass + 1, runCount', Groups(runCount, fanIn));
      Abandon(disk, prefix, pass, runCount, runCount', base, runs, runs', total, names, torn);
      return;
    }
    assert runs[..runCount] == runs;
    NoTails(base, prefix, pass, runCount, torn);
    RemoveRuns(disk, prefix, pass, runCount);
    Generation(base, prefix, pass, runs, runs');
  }

  lemma {:induction false} FewerPaths(prefix: Path, pass: nat, count: nat, all: nat)
    requires count <= all
    ensures RunPaths(prefix, pass, count) <= RunPaths(prefix, pass, all)
  {
  }

  // ----- the last merge -----

  /** What the last merge needs. */
  ghost predicate LastPossible(
      base: map<Path, File>, prefix: Path, pass: nat, runs: seq<File>, output: Path, perFile: nat, total: nat)
  {
    TargetFree(base, output) && NotARun(output, prefix, pass, |runs|) && Enough(Sum(Lengths(runs)), perFile, total)
  }

  /** The runs that are left into the output; the runs are removed either way. */
  method FinalMerge(
      disk: Disk, prefix: Path, pass: nat, runCount: nat, used: nat, output: Path, fanIn: nat, perFile: nat, total: nat,
      ghost base: map<Path, File>, ghost runs: seq<File>, ghost names: set<Path>, ghost torn: set<Path>)
      returns (status: Status, ghost result: File)
    requires Steady(disk, base, total, names, torn) && PartialPath(output) in names && RunPaths(prefix, pass, runCount) <= names
    requires Live(disk.Kept(), base, prefix, pass, runs) && RunsGood(runs) && 0 < |runs| == runCount <= fanIn && fanIn >= 2
    requires used == TotalBytes(runs) <= total && output != ""
    modifies disk
    ensures Steady(disk, base, total, names, torn) && (old(disk.faulty) ==> disk.faulty)
    ensures status == Ok ==>
              && disk.Kept() == base[output := result] && GoodRun(result) && multiset(result) == UnionBag(runs)
              && LastPossible(base, prefix, pass, runs, output, perFile, total)
    ensures status != Ok ==> disk.Kept() == base
    ensures status != Ok && !disk.faulty ==>
              !LastPossible(base, prefix, pass, runs, output, perFile, total)
  {
    status, result := MergeLast(disk, prefix, pass, runCount, used, output, fanIn, perFile, total, base, runs, names, torn);
    NoTails(base, prefix, pass, runCount, torn);
    RemoveRuns(disk, prefix, pass, runCount);
    if status == Ok {
      OnlyOutputLeft(base, prefix, pass, runs, output, result);
    } else {
      RemoveAll(base, prefix, pass, runs);
    }
  }

  /** The last merge itself. */
  method MergeLast(
      disk: Disk, prefix: Path, pass: nat, runCount: nat, used: nat, output: Path, fanIn: nat, perFile: nat, total: nat,
      ghost base: map<Path, File>, ghost runs: seq<File>, ghost names: set<Path>, ghost torn: set<Path>)
      returns (status: Status, ghost result: File)
    requires Steady(disk, base, total, names, torn) && PartialPath(output) in names
    requires Live(disk.Kept(), base, prefix, pass, runs) && RunsGood(runs) && 0 < |runs| == runCount <= fanIn && fanIn >= 2
    requires used == TotalBytes(runs) <= total && output != ""
    modifies disk
    ensures Steady(disk, base, total, names, torn) && (old(disk.faulty) ==> disk.faulty)
    ensures status == Ok ==>
              && disk.Kept() == old(disk.Kept())[output := result] && GoodRun(result) && multiset(result) == UnionBag(runs)
              && LastPossible(base, prefix, pass, runs, output, perFile, total)
    ensures status != Ok ==> disk.Kept() == old(disk.Kept())
    ensures status != Ok && !disk.faulty ==>
              !LastPossible(base, prefix, pass, runs, output, perFile, total)
  {
    ghost var files, kept := disk.files, disk.Kept();
    result := [];
    var granted := disk.Allocate();
    if !granted { status := MemoryError; return; }
    var quota := Least(perFile, total - used);
    LiveOccupied(kept, base, prefix, pass, runs);
    assert runs[0..runCount] == runs;
    FinalPossible(kept, base, prefix, pass, runs, runCount, output, fanIn, used, perFile, total);
    ghost var out;
    status, out := MergeSome(disk, prefix, pass, 0, runCount, output, fanIn, quota, base, runs, [], total, names, torn);
    if status == Ok {
      result := MergedFile(runs, out);
      FinalFacts(files, kept, base, prefix, pass, runs, runCount, output, out, fanIn, used, perFile, total, quota);
    }
  }

  lemma {:induction false} FinalPossible(
      files: map<Path, File>, base: map<Path, File>, prefix: Path, pass: nat, runs: seq<File>, count: nat, output: Path,
      fanIn: nat, used: nat, perFile: nat, total: nat)
    requires Live(files, base, prefix, pass, runs) && RunsGood(runs) && 0 < |runs| == count <= fanIn && fanIn >= 2
    requires used == TotalBytes(runs) <= total && output != ""
    ensures LastPossible(base, prefix, pass, runs, output, perFile, total) ==>
              Mergeable(files, GroupPaths(prefix, pass, 0, count), output, fanIn, Least(perFile, total - used))
  {
    if LastPossible(base, prefix, pass, runs, output, perFile, total) {
      assert runs[0..count] == runs;
      SomeInGroup(runs, 0, count);
      RoomFor(Sum(Lengths(runs)), 0, Sum(Lengths(runs)), perFile, total);
      GroupMergeable(files, base, prefix, pass, runs, [], 0, count, output, fanIn, Least(perFile, total - used));
    }
  }

  lemma {:induction false} FinalFacts(
      files: map<Path, File>, kept: map<Path, File>, base: map<Path, File>, prefix: Path, pass: nat,
      runs: seq<File>, count: nat, output: Path, out: seq<Tag>, fanIn: nat, used: nat, perFile: nat, total: nat, quota: nat)
    requires Live(kept, base, prefix, pass, runs) && kept.Keys <= files.Keys && RunsGood(runs) && |runs| == count
    requires used == TotalBytes(runs) <= total && quota == Least(perFile, total - used)
    requires Mergeable(files, GroupPaths(prefix, pass, 0, count), output, fanIn, quota)
    requires StableMerge(runs, out) && multiset(MergedFile(runs, out)) == UnionBag(runs) && NUMBER_BYTES * |out| <= quota
    ensures GoodRun(MergedFile(runs, out)) && LastPossible(base, prefix, pass, runs, output, perFile, total)
  {
    forall r | 0 <= r < count
      ensures GoodRun(runs[r])
    {
      assert Nonempty(runs[r]);
    }
    BagSize(runs);
    var inputs := GroupPaths(prefix, pass, 0, count);
    MergedIsGood(runs, out);
    forall i | 0 <= i < count
      ensures output != RunPath(prefix, pass, i)
    {
      assert inputs[i] == RunPath(prefix, pass, i);
    }
    TargetStaysFree(kept, base, prefix, pass, runs, [], output);
  }

  /** The output for an empty source. */
  method WriteEmpty(disk: Disk, output: Path, perFile: nat, ghost names: set<Path>, ghost torn: set<Path>) returns (status: Status)
    requires disk.Valid() && HEADER + TRAILER <= perFile && PartialPath(output) in names && output !in disk.files
    requires disk.orphans <= names && disk.Torn() == torn
    modifies disk`files, disk`torn, disk`fate, disk`faulty, disk`orphans
    ensures disk.Valid() && (old(disk.faulty) ==> disk.faulty) && disk.orphans <= names && disk.Torn() == torn
    ensures status == Ok ==> disk.Kept() == old(disk.Kept())[output := []] && PartialPath(output) !in old(disk.files)
    ensures status != Ok ==> disk.Kept() == old(disk.Kept())
    ensures status != Ok && !disk.faulty ==> PartialPath(output) in old(disk.files)
  {
    ghost var kept := disk.Kept();
    var granted := disk.Allocate();
    if !granted { return MemoryError; }
    var temp := PartialPath(output);
    if disk.Exists(temp) { return Argument; }
    status := disk.Open(temp, perFile);
    assert kept - {temp} == kept;
    if status != Ok {
      disk.Remove(temp);
      return;
    }
    assert disk.Kept() == kept[temp := []] && kept[temp := []] - {temp} == kept;
    status := Activate(disk, temp, output, Ok, kept, torn);
  }

  // ----- the whole sort -----

  predicate SortArgumentsOk(prefix: Path, output: Path, capacity: nat, fanIn: nat, perFile: nat, total: nat) {
    && prefix != "" && output != "" && prefix != output && capacity > 0 && fanIn >= 2
    && NUMBER_BYTES <= perFile && NUMBER_BYTES <= total
  }

  /** Exactly what a sort needs, apart from a source and a disk that work. */
  ghost predicate Sortable(
      files: map<Path, File>, values: seq<Double>, from: nat, prefix: Path, output: Path,
      capacity: nat, fanIn: nat, perFile: nat, total: nat)
    requires from <= |values|
  {
    && SortArgumentsOk(prefix, output, capacity, fanIn, perFile, total)
    && NamesFree(files, prefix, output, capacity, fanIn, |values| - from)
    && Enough(|values| - from, perFile, total) && AllFinite(values, from, |values|)
  }

  /** On success the output holds the numbers of the source in non-decreasing order.  Apart from it, and from files
      left behind because of a failure, the disk is as it was, torn tails included, and never holds more scratch than the quota.  Only
      scratch files of the sort are ever left behind; nothing has changed on failure if and only if there is none.
      With a source and a disk that work the sort succeeds exactly for what can be sorted. */
  method SortDoubles(
      disk: Disk, source: Source, prefix: Path, output: Path, capacity: nat, fanIn: nat, perFile: nat, total: nat)
      returns (status: Status, ghost result: File)
    requires source.index <= |source.values| && disk.torn <= disk.files.Keys
    modifies disk, source
    ensures disk.Torn() == old(disk.torn)
    ensures disk.Valid() && disk.peak <= Occupied(old(disk.files)) + total
    ensures status == Ok ==>
              && disk.Kept() == old(disk.files)[output := result] && Ascending(result)
              && multiset(result) == multiset(Records(source.values[old(source.index)..]))
              && (disk.files == old(disk.files)[output := result] <==> disk.orphans == {})
    ensures status != Ok ==>
              disk.Kept() == old(disk.files) && (disk.files == old(disk.files) <==> disk.orphans == {})
    ensures disk.orphans != {} ==>
              && disk.faulty && SortArgumentsOk(prefix, output, capacity, fanIn, perFile, total)
              && disk.orphans <= ScratchNames(prefix, output, capacity, fanIn, |source.values| - old(source.index))
    ensures status == Ok ==>
              Sortable(old(disk.files), source.values, old(source.index), prefix, output, capacity, fanIn, perFile, total)
    ensures status != Ok && !disk.faulty && !source.broken ==>
              !Sortable(old(disk.files), source.values, old(source.index), prefix, output, capacity, fanIn, perFile, total)
  {
    ghost var base, from, torn := disk.files, source.index, disk.torn;
    disk.Restart();
    assert disk.Kept() == base && disk.Torn() == torn;
    result := [];
    if !SortArgumentsOk(prefix, output, capacity, fanIn, perFile, total) { return Argument, result; }
    if disk.Exists(output) { return Argument, result; }
    status, result := SortNew(disk, source, prefix, output, capacity, fanIn, perFile, total, base, torn);
    GoodRunIff(result);
    UnchangedIff(disk.Kept(), disk.files, disk.orphans);
  }

  /** The sort into an output that does not exist. */
  method SortNew(
      disk: Disk, source: Source, prefix: Path, output: Path, capacity: nat, fanIn: nat, perFile: nat, total: nat,
      ghost base: map<Path, File>, ghost torn: set<Path>)
      returns (status: Status, ghost result: File)
    requires source.index <= |source.values| && SortArgumentsOk(prefix, output, capacity, fanIn, perFile, total)
    requires Steady(disk, base, total, {}, torn) && disk.files == base && output !in base
    modifies disk, source
    ensures Steady(disk, base, total, ScratchNames(prefix, output, capacity, fanIn, |source.values| - old(source.index)), torn)
    ensures status == Ok ==>
              && disk.Kept() == base[output := result] && GoodRun(result)
              && multiset(result) == multiset(Records(source.values[old(source.index)..]))
              && Sortable(base, source.values, old(source.index), prefix, output, capacity, fanIn, perFile, total)
    ensures status != Ok ==> disk.Kept() == base
    ensures status != Ok && !disk.faulty && !source.broken ==>
              !Sortable(base, source.values, old(source.index), prefix, output, capacity, fanIn, perFile, total)
  {
    ghost var from, n := source.index, |source.values| - source.index;
    ghost var names := ScratchNames(prefix, output, capacity, fanIn, n);
    NamesFreeIff(base, prefix, output, capacity, fanIn, n);
    assert disk.Kept() == base;
    result := [];
    var runCount, used;
    ghost var runs;
    status, runCount, used, runs := WriteRuns(disk, source, prefix, capacity, perFile, total, base, names, torn);
    if status != Ok { return; }
    assert source.values[from..|source.values|] == source.values[from..];
    DrainedSize(runs, source.values, from, |source.values|);
    if runCount == 0 {
      BuffersEmpty(n, capacity);
      assert runs == [];
      LaterFreeLast(base, prefix, 0, 0, fanIn, output);
      status := WriteEmpty(disk, output, perFile, names, torn);
      return;
    }
    status, result := MergeAll(disk, prefix, runCount, used, output, fanIn, perFile, total, base, runs, names, torn);
  }

  lemma {:induction false} BuffersEmpty(n: nat, capacity: nat)
    requires capacity > 0 && Groups(n, capacity) == 0
    ensures n == 0
  {
    assert n == n / capacity * capacity + n % capacity;
  }

  /** Passes until the runs fit into one merge; the number of runs falls with every pass. */
  method MergeAll(
      disk: Disk, prefix: Path, runCount0: nat, used0: nat, output: Path, fanIn: nat, perFile: nat, total: nat,
      ghost base: map<Path, File>, ghost runs0: seq<File>, ghost names: set<Path>, ghost torn: set<Path>)
      returns (status: Status, ghost result: File)
    requires Steady(disk, base, total, names, torn) && fanIn >= 2 && PartialPath(output) in names
    requires RunPaths(prefix, 0, runCount0) <= names && LaterNames(prefix, 0, runCount0, fanIn) <= names
    requires Live(disk.Kept(), base, prefix, 0, runs0) && RunsGood(runs0) && 0 < |runs0| == runCount0
    requires used0 == TotalBytes(runs0) <= total && output != ""
    modifies disk
    ensures Steady(disk, base, total, names, torn) && (old(disk.faulty) ==> disk.faulty)
    ensures status == Ok ==>
              && disk.Kept() == base[output := result]
              && GoodRun(result) && multiset(result) == UnionBag(runs0)
              && LaterFree(base, prefix, 0, runCount0, fanIn, output) && Enough(Sum(Lengths(runs0)), perFile, total)
    ensures status != Ok ==> disk.Kept() == base
    ensures status != Ok && !disk.faulty ==>
              || !LaterFree(base, prefix, 0, runCount0, fanIn, output)
              || !Enough(Sum(Lengths(runs0)), perFile, total)
  {
    result := [];
    var runCount, used := runCount0, used0;
    ghost var runs := runs0;
    var pass: nat := 0;
    BagSize(runs0);
    while runCount > fanIn
      invariant Steady(disk, base, total, names, torn) && (old(disk.faulty) ==> disk.faulty)
      invariant Live(disk.Kept(), base, prefix, pass, runs) && RunsGood(runs) && 0 < |runs| == runCount
      invariant used == TotalBytes(runs) <= total
      invariant UnionBag(runs) == UnionBag(runs0) && Sum(Lengths(runs)) == Sum(Lengths(runs0))
      invariant RunPaths(prefix, pass, runCount) <= names && LaterNames(prefix, pass, runCount, fanIn) <= names
      invariant LaterFree(base, prefix, pass, runCount, fanIn, output) <==>
                LaterFree(base, prefix, 0, runCount0, fanIn, output)
      decreases runCount
    {
      LaterFreeStep(base, prefix, pass, runCount, fanIn, output);
      status, runCount, used, runs :=
        MergePass(disk, prefix, pass, runCount, used, fanIn, perFile, total, base, runs, names, torn);
      if status != Ok { return; }
      BagSize(runs);
      pass := pass + 1;
    }
    LaterFreeLast(base, prefix, pass, runCount, fanIn, output);
    status, result := FinalMerge(disk, prefix, pass, runCount, used, output, fanIn, perFile, total, base, runs, names, torn);
  }
}
