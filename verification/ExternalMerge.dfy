/** Merging sorted runs on disk into a new file, with cleanup on every way out. */
module ExternalMerge {
  import opened Floats
  import opened SpillStore
  import opened MergeHeap
  import opened Merging

  function PartialPath(path: Path): Path { path + ".partial" }

  function RunsOf(files: map<Path, File>, inputs: seq<Path>): seq<File> {
    seq(|inputs|, i requires 0 <= i < |inputs| => if inputs[i] in files then files[inputs[i]] else [])
  }

  predicate ArgumentsOk(inputs: seq<Path>, output: Path, maxFanIn: nat) {
    && inputs != [] && output != "" && maxFanIn >= 2 && |inputs| <= maxFanIn
    && forall i | 0 <= i < |inputs| :: inputs[i] != "" && inputs[i] != output
  }

  /** Exactly what a merge needs, apart from a disk that works. */
  ghost predicate Mergeable(files: map<Path, File>, inputs: seq<Path>, output: Path, maxFanIn: nat, quota: nat) {
    && ArgumentsOk(inputs, output, maxFanIn) && HEADER + TRAILER <= quota
    && output !in files && PartialPath(output) !in files
    && (forall i | 0 <= i < |inputs| ::
          inputs[i] in files && Readable(files[inputs[i]], quota) && Ascending(files[inputs[i]]))
    && NUMBER_BYTES * Sum(Lengths(RunsOf(files, inputs))) <= quota
  }

  // ----- the tables of a merge -----

  /** Which runs have a previous value, and that value. */
  ghost predicate Remembered(runs: seq<File>, taken: seq<nat>, previous: seq<Double>, have: seq<bool>) {
    && |previous| == |have| == |taken| == |runs|
    && forall r | 0 <= r < |runs| :: RememberedAt(runs, taken, previous, have, r)
  }

  ghost predicate RememberedAt(runs: seq<File>, taken: seq<nat>, previous: seq<Double>, have: seq<bool>, r: nat)
    requires |previous| == |have| == |taken| == |runs| && r < |runs|
  {
    && (have[r] <==> taken[r] > 0)
    && (have[r] ==> taken[r] <= |runs[r]| && runs[r][taken[r] - 1] == Number(previous[r]))
  }

  /** How far each reader has read: one record ahead of what has been taken. */
  ghost predicate ReadAhead(runs: seq<File>, taken: seq<nat>, front: Front, positions: seq<nat>) {
    && |positions| == |taken| == |runs|
    && forall r | 0 <= r < |runs| :: ReadAheadAt(taken, front, positions, r)
  }

  ghost predicate ReadAheadAt(taken: seq<nat>, front: Front, positions: seq<nat>, r: nat)
    requires r < |positions| == |taken|
  {
    positions[r] == taken[r] + if r in front then 1 else 0
  }

  /** The array heap holds the foremost records. */
  ghost predicate HeapIs(heap: seq<Node>, front: Front) {
    IsHeap(heap) && multiset(heap) == FrontBag(front) && |heap| == |front|
  }

  lemma {:induction false} FrontFits(front: Front, n: nat, r: nat)
    requires r !in front && r < n && forall q | q in front :: q < n
    ensures |front| < n
  {
    SetFits(front.Keys + {r}, n);
  }

  lemma {:induction false} SetFits(s: set<nat>, n: nat)
    requires forall q | q in s :: q < n
    ensures |s| <= n
    decreases n
  {
    if n == 0 {
      assert s == {};
    } else {
      SetFits(s - {n - 1}, n - 1);
    }
  }

  // ----- opening the runs -----

  /** The front when the first i runs have been opened. */
  ghost predicate Opened(runs: seq<File>, front: Front, i: nat) {
    && i <= |runs|
    && (forall r | r in front :: r < i)
    && forall r | 0 <= r < i :: FirstOk(runs, front, r)
  }

  ghost predicate FirstOk(runs: seq<File>, front: Front, r: nat)
    requires r < |runs|
  {
    && (r in front <==> runs[r] != [])
    && (r in front ==> runs[r][0] == Number(front[r]) && IsFinite(front[r]))
  }

  /** Opens one run and puts its first record into the heap. */
  method OpenRun(disk: Disk, path: Path, quota: nat, heap: array<Node>, length: nat, i: nat, ghost runs: seq<File>, ghost front: Front)
      returns (status: Status, length': nat, position: nat, ghost front': Front)
    requires |runs| == heap.Length && i < |runs| && Opened(runs, front, i)
    requires length <= heap.Length && HeapIs(heap[..length], front)
    requires path in disk.files ==> runs[i] == disk.files[path]
    modifies disk`torn, disk`faulty, heap
    ensures old(disk.faulty) ==> disk.faulty
    ensures old(disk.torn) - {path} <= disk.torn <= old(disk.torn) && (status == Ok ==> path !in disk.torn)
    ensures length' <= heap.Length
    ensures status == Ok ==>
              && disk.faulty == old(disk.faulty) && path in disk.files && Readable(runs[i], quota)
              && Opened(runs, front', i + 1) && HeapIs(heap[..length'], front')
              && position == (if runs[i] != [] then 1 else 0)
    ensures status != Ok && !disk.faulty ==> path !in disk.files || !Readable(runs[i], quota) || !GoodRun(runs[i])
  {
    front', length', position := front, length, 0;
    status := disk.OpenReader(path, quota);
    if status != Ok { return; }
    var record, more;
    status, record, more := disk.ReadNext(path, 0);
    if status != Ok { return; }
    if more {
      if record.Other? || !IsFinite(record.value) {
        assert !GoodAt(runs[i], 0);
        status := DataError;
        return;
      }
      length' := PushRecord(heap, length, record.value, i, front);
      front' := front[i := record.value];
      position := 1;
    }
    forall r | 0 <= r < i
      ensures FirstOk(runs, front', r)
    {
      assert FirstOk(runs, front, r);
    }
  }

  ghost predicate BadInput(files: map<Path, File>, path: Path, quota: nat) {
    path !in files || !Readable(files[path], quota) || !GoodRun(files[path])
  }

  method OpenRuns(disk: Disk, inputs: seq<Path>, quota: nat, heap: array<Node>, positions: array<nat>)
      returns (status: Status, length: nat, ghost front: Front)
    requires heap.Length == positions.Length == |inputs|
    modifies disk`torn, disk`faulty, heap, positions
    ensures old(disk.faulty) ==> disk.faulty
    ensures old(disk.torn) - InputSet(inputs) <= disk.torn <= old(disk.torn)
    ensures length <= heap.Length
    ensures status == Ok ==>
              && disk.faulty == old(disk.faulty)
              && AllReadable(disk.files, inputs, quota, |inputs|)
              && disk.torn !! InputSet(inputs)
              && Opened(RunsOf(disk.files, inputs), front, |inputs|) && HeapIs(heap[..length], front)
              && forall r | 0 <= r < |inputs| :: positions[r] == if r in front then 1 else 0
    ensures status != Ok && !disk.faulty ==> exists i :: 0 <= i < |inputs| && BadInput(disk.files, inputs[i], quota)
  {
    ghost var runs := RunsOf(disk.files, inputs);
    length, front := 0, map[];
    assert FrontBag(front) == multiset{};
    for i := 0 to |inputs|
      invariant disk.faulty == old(disk.faulty) && length <= heap.Length
      invariant old(disk.torn) - InputSet(inputs) <= disk.torn <= old(disk.torn)
      invariant forall k | 0 <= k < i :: inputs[k] !in disk.torn
      invariant Opening(disk.files, inputs, quota, runs, front, heap[..length], positions[..], i)
    {
      status, length, front := OpenNext(disk, inputs, quota, heap, length, positions, i, runs, front);
      if status != Ok { return; }
    }
    FirstReadFront(runs, front, positions[..]);
    status := Ok;
  }

  function InputSet(inputs: seq<Path>): set<Path> { set i | 0 <= i < |inputs| :: inputs[i] }

  /** The first n runs are open. */
  ghost predicate Opening(
      files: map<Path, File>, inputs: seq<Path>, quota: nat, runs: seq<File>, front: Front, heap: seq<Node>,
      positions: seq<nat>, n: nat)
  {
    && Opened(runs, front, n) && HeapIs(heap, front)
    && AllReadable(files, inputs, quota, n) && FirstRead(runs, positions, n)
  }

  method OpenNext(disk: Disk, inputs: seq<Path>, quota: nat, heap: array<Node>, length: nat, positions: array<nat>, i: nat,
                  ghost runs: seq<File>, ghost front: Front)
      returns (status: Status, length': nat, ghost front': Front)
    requires heap.Length == positions.Length == |inputs| && i < |inputs| && length <= heap.Length
    requires runs == RunsOf(disk.files, inputs)
    requires Opening(disk.files, inputs, quota, runs, front, heap[..length], positions[..], i)
    modifies disk`torn, disk`faulty, heap, positions
    ensures old(disk.faulty) ==> disk.faulty
    ensures length' <= heap.Length
    ensures old(disk.torn) - {inputs[i]} <= disk.torn <= old(disk.torn) && (status == Ok ==> inputs[i] !in disk.torn)
    ensures status == Ok ==>
              && disk.faulty == old(disk.faulty)
              && Opening(disk.files, inputs, quota, runs, front', heap[..length'], positions[..], i + 1)
    ensures status != Ok && !disk.faulty ==> BadInput(disk.files, inputs[i], quota)
  {
    var position;
    ghost var before := positions[..];
    status, length', position, front' := OpenRun(disk, inputs[i], quota, heap, length, i, runs, front);
    if status != Ok { return; }
    positions[i] := position;
    FirstReadMore(runs, before, positions[..], i);
  }

  ghost predicate AllReadable(files: map<Path, File>, inputs: seq<Path>, quota: nat, n: nat) {
    n <= |inputs| && forall k | 0 <= k < n :: inputs[k] in files && Readable(files[inputs[k]], quota)
  }

  /** The first record of each of the first n runs, if there is one, has been read. */
  ghost predicate FirstRead(runs: seq<File>, positions: seq<nat>, n: nat) {
    n <= |runs| == |positions| && forall r | 0 <= r < n :: positions[r] == if runs[r] != [] then 1 else 0
  }

  lemma {:induction false} FirstReadMore(runs: seq<File>, positions: seq<nat>, positions': seq<nat>, n: nat)
    requires FirstRead(runs, positions, n) && n < |runs|
    requires positions' == positions[n := if runs[n] != [] then 1 else 0]
    ensures FirstRead(runs, positions', n + 1)
  {
  }

  lemma {:induction false} FirstReadFront(runs: seq<File>, front: Front, positions: seq<nat>)
    requires Opened(runs, front, |runs|) && FirstRead(runs, positions, |runs|)
    ensures forall r | 0 <= r < |runs| :: positions[r] == if r in front then 1 else 0
  {
    forall r | 0 <= r < |runs|
      ensures positions[r] == if r in front then 1 else 0
    {
      assert FirstOk(runs, front, r);
    }
  }

  // ----- merging -----

  /** All tables of the merge loop together. */
  ghost predicate Loaded(
      runs: seq<File>, taken: seq<nat>, front: Front, out: seq<Tag>,
      heap: seq<Node>, positions: seq<nat>, previous: seq<Double>, have: seq<bool>)
  {
    && MergeInvariant(runs, taken, front, out) && HeapIs(heap, front)
    && ReadAhead(runs, taken, front, positions) && Remembered(runs, taken, previous, have)
  }

  /** One more record into the heap. */
  method PushRecord(heap: array<Node>, length: nat, value: Double, r: nat, ghost front: Front) returns (length': nat)
    requires r !in front && r < heap.Length && length <= heap.Length && HeapIs(heap[..length], front)
    requires forall q | q in front :: q < heap.Length
    modifies heap
    ensures length' <= heap.Length && HeapIs(heap[..length'], front[r := value])
  {
    FrontFits(front, heap.Length, r);
    FrontAdd(front, r, value);
    length' := Push(heap, length, Node(value, r));
  }

  /** The next record of a run, if there is one, is a finite number. */
  ghost predicate NextFinite(run: File, taken: nat) {
    taken + 1 < |run| ==> run[taken + 1].Number? && IsFinite(run[taken + 1].value)
  }

  /** Reads the next record of the run just taken from, and puts it into the heap. */
  method Refill(disk: Disk, path: Path, heap: array<Node>, length: nat, positions: array<nat>, r: nat,
                ghost runs: seq<File>, ghost taken: seq<nat>, ghost front: Front)
      returns (status: Status, length': nat)
    requires |runs| == |taken| == heap.Length == positions.Length && r < |runs| && taken[r] < |runs[r]|
    requires path in disk.files && disk.files[path] == runs[r]
    requires r in front && positions[r] == taken[r] + 1 && length <= heap.Length
    requires forall q | q in front :: q < |runs|
    requires HeapIs(heap[..length], front - {r})
    modifies disk`faulty, heap, positions
    ensures old(disk.faulty) ==> disk.faulty
    ensures length' <= heap.Length
    ensures status == Ok ==>
              && disk.faulty == old(disk.faulty) && NextFinite(runs[r], taken[r])
              && HeapIs(heap[..length'], FrontNext(runs, taken, front, r))
              && positions[..] == old(positions[..])[r := taken[r] + 1 + if taken[r] + 1 < |runs[r]| then 1 else 0]
    ensures status != Ok && !disk.faulty ==> !GoodRun(runs[r])
  {
    length' := length;
    var record, more;
    status, record, more := disk.ReadNext(path, positions[r]);
    if status != Ok { return; }
    if more {
      if record.Other? || !IsFinite(record.value) {
        assert !GoodAt(runs[r], taken[r] + 1);
        status := DataError;
        return;
      }
      length' := PushRecord(heap, length, record.value, r, front - {r});
      positions[r] := positions[r] + 1;
    }
  }

  /** Takes the first of the foremost records. */
  method TakeFirst(heap: array<Node>, length: nat, ghost runs: seq<File>, ghost taken: seq<nat>, ghost front: Front)
      returns (node: Node, length': nat)
    requires 0 < length <= heap.Length && HeapIs(heap[..length], front)
    modifies heap
    ensures length' < length && node.run in front && node.value == front[node.run]
    ensures HeapIs(heap[..length'], front - {node.run})
    ensures forall q | q in front :: !NodeBefore(Node(front[q], q), node)
  {
    ghost var was := heap[..length];
    node, length' := Pop(heap, length);
    assert node in multiset(was);
    assert node in FrontBag(front);
    FrontRemove(front, node.run);
    forall q | q in front
      ensures !NodeBefore(Node(front[q], q), node)
    {
      assert Node(front[q], q) in FrontBag(front);
      assert Node(front[q], q) in multiset(was);
      assert Node(front[q], q) in was;
    }
  }

  lemma {:induction false} KeepRead(
      runs: seq<File>, taken: seq<nat>, front: Front, r: nat, positions: seq<nat>, positions': seq<nat>)
    requires |taken| == |runs| && r < |runs| && NextFinite(runs[r], taken[r])
    requires ReadAhead(runs, taken, front, positions)
    requires positions' == positions[r := taken[r] + 1 + if taken[r] + 1 < |runs[r]| then 1 else 0]
    ensures ReadAhead(runs, taken[r := taken[r] + 1], FrontNext(runs, taken, front, r), positions')
  {
    var taken', front' := taken[r := taken[r] + 1], FrontNext(runs, taken, front, r);
    forall q | 0 <= q < |runs|
      ensures ReadAheadAt(taken', front', positions', q)
    {
      assert ReadAheadAt(taken, front, positions, q);
    }
  }

  lemma {:induction false} KeepRemembered(
      runs: seq<File>, taken: seq<nat>, r: nat, value: Double, previous: seq<Double>, have: seq<bool>)
    requires Remembered(runs, taken, previous, have) && r < |runs| && taken[r] < |runs[r]|
    requires runs[r][taken[r]] == Number(value)
    ensures Remembered(runs, taken[r := taken[r] + 1], previous[r := value], have[r := true])
  {
    var taken', previous', have' := taken[r := taken[r] + 1], previous[r := value], have[r := true];
    forall q | 0 <= q < |runs|
      ensures RememberedAt(runs, taken', previous', have', q)
    {
      assert RememberedAt(runs, taken, previous, have, q);
    }
  }

  /** The first of the foremost records, one of run r, has left the heap and is to be written. */
  ghost predicate Chosen(
      runs: seq<File>, taken: seq<nat>, front: Front, out: seq<Tag>,
      heap: seq<Node>, positions: seq<nat>, previous: seq<Double>, have: seq<bool>, r: nat, value: Double)
  {
    && MergeInvariant(runs, taken, front, out) && r < |runs| && r in front && value == front[r]
    && Takeable(runs, taken, front, r) && HeapIs(heap, front - {r})
    && ReadAhead(runs, taken, front, positions) && Remembered(runs, taken[r := taken[r] + 1], previous, have)
  }

  lemma {:induction false} ChosenNext(
      runs: seq<File>, taken: seq<nat>, front: Front, out: seq<Tag>, heap: seq<Node>, heap': seq<Node>,
      positions: seq<nat>, previous: seq<Double>, have: seq<bool>, r: nat)
    requires Loaded(runs, taken, front, out, heap, positions, previous, have)
    requires r in front && HeapIs(heap', front - {r})
    requires forall q | q in front :: !NodeBefore(Node(front[q], q), Node(front[r], r))
    requires r < |runs| && !(have[r] && Rank(front[r]) < Rank(previous[r]))
    ensures Chosen(runs, taken, front, out, heap', positions, previous[r := front[r]], have[r := true], r, front[r])
  {
    assert RunOk(runs, taken, front, r) && RememberedAt(runs, taken, previous, have, r);
    KeepRemembered(runs, taken, r, front[r], previous, have);
  }

  lemma {:induction false} Refused(
      runs: seq<File>, taken: seq<nat>, front: Front, out: seq<Tag>, previous: seq<Double>, have: seq<bool>, r: nat)
    requires MergeInvariant(runs, taken, front, out) && Remembered(runs, taken, previous, have)
    requires r in front && r < |runs| && have[r] && Rank(front[r]) < Rank(previous[r])
    ensures !GoodRun(runs[r])
  {
    assert RunOk(runs, taken, front, r) && RememberedAt(runs, taken, previous, have, r);
    assert !GoodAt(runs[r], taken[r]);
  }

  /** Takes the foremost record, and checks it against the one before it of the same run. */
  method TakeNext(
      heap: array<Node>, length: nat, previous: array<Double>, have: array<bool>, ghost positions: seq<nat>,
      ghost runs: seq<File>, ghost taken: seq<nat>, ghost front: Front, ghost out: seq<Tag>)
      returns (status: Status, node: Node, length': nat)
    requires 0 < length <= heap.Length && previous.Length == have.Length == |runs|
    requires Loaded(runs, taken, front, out, heap[..length], positions, previous[..], have[..])
    modifies heap, previous, have
    ensures length' < length && node.run < |runs|
    ensures status == Ok ==>
              Chosen(runs, taken, front, out, heap[..length'], positions, previous[..], have[..], node.run, node.value)
    ensures status != Ok ==> !GoodRun(runs[node.run])
  {
    ghost var heap0, previous0, have0 := heap[..length], previous[..], have[..];
    FrontBelow(runs, taken, front, out);
    node, length' := TakeFirst(heap, length, runs, taken, front);
    if have[node.run] && Rank(node.value) < Rank(previous[node.run]) {
      Refused(runs, taken, front, out, previous0, have0, node.run);
      return DataError, node, length';
    }
    ChosenNext(runs, taken, front, out, heap0, heap[..length'], positions, previous0, have0, node.run);
    previous[node.run], have[node.run] := node.value, true;
    status := Ok;
  }

  /** The temporary file is being written; all others stay as they are, and what the disk holds below the ceiling. */
  ghost predicate Writing(disk: Disk, temp: Path, quota: nat, ceiling: nat, others: map<Path, File>, torn: set<Path>)
    reads disk
  {
    && disk.Valid() && temp in disk.files && temp !in disk.orphans
    && disk.files - {temp} == others && disk.torn - {temp} == torn
    && disk.peak <= ceiling && Occupied(others - disk.orphans) + quota <= ceiling
  }

  /** The runs are on the disk, apart from the file being written. */
  ghost predicate InputsThere(others: map<Path, File>, inputs: seq<Path>, runs: seq<File>)
    requires |runs| == |inputs|
  {
    forall i | 0 <= i < |inputs| :: inputs[i] in others && others[inputs[i]] == runs[i]
  }

  lemma {:induction false} InputThere(
      files: map<Path, File>, temp: Path, others: map<Path, File>, inputs: seq<Path>, runs: seq<File>, i: nat)
    requires |runs| == |inputs| && InputsThere(others, inputs, runs) && i < |inputs| && files - {temp} == others
    ensures inputs[i] in files && files[inputs[i]] == runs[i]
  {
    assert inputs[i] in files - {temp};
  }

  method AppendRecord(
      disk: Disk, temp: Path, quota: nat, value: Double,
      ghost ceiling: nat, ghost others: map<Path, File>, ghost torn: set<Path>)
      returns (status: Status)
    requires Writing(disk, temp, quota, ceiling, others, torn) && AllNumbers(disk.files[temp]) && temp !in disk.torn
    modifies disk`files, disk`torn, disk`faulty, disk`peak
    ensures Writing(disk, temp, quota, ceiling, others, torn) && (old(disk.faulty) ==> disk.faulty)
    ensures status == Ok ==>
              && disk.faulty == old(disk.faulty) && temp !in disk.torn
              && disk.files[temp] == old(disk.files)[temp] + [Number(value)] && NUMBER_BYTES * |disk.files[temp]| <= quota
    ensures status != Ok && !disk.faulty ==> NUMBER_BYTES * (|old(disk.files)[temp]| + 1) > quota
  {
    ghost var before := disk.files;
    status := disk.Append(temp, value, quota);
    assert disk.files - {temp} == before - {temp};
  }

  lemma {:induction false} LoadedNext(
      runs: seq<File>, taken: seq<nat>, front: Front, out: seq<Tag>, heap: seq<Node>, heap': seq<Node>,
      positions: seq<nat>, positions': seq<nat>, previous: seq<Double>, have: seq<bool>, r: nat, value: Double)
    requires Chosen(runs, taken, front, out, heap, positions, previous, have, r, value)
    requires NextFinite(runs[r], taken[r]) && HeapIs(heap', FrontNext(runs, taken, front, r))
    requires positions' == positions[r := taken[r] + 1 + if taken[r] + 1 < |runs[r]| then 1 else 0]
    ensures Loaded(runs, taken[r := taken[r] + 1], FrontNext(runs, taken, front, r), out + [Tag(r, taken[r])],
                   heap', positions', previous, have)
    ensures MergedFile(runs, out + [Tag(r, taken[r])]) == MergedFile(runs, out) + [Number(value)]
  {
    MergeStep(runs, taken, front, out, r);
    KeepRead(runs, taken, front, r, positions, positions');
  }

  /** What is known of the run the record has been chosen from. */
  lemma {:induction false} ChosenFacts(
      runs: seq<File>, taken: seq<nat>, front: Front, out: seq<Tag>, heap: seq<Node>,
      positions: seq<nat>, previous: seq<Double>, have: seq<bool>, r: nat, value: Double)
    requires Chosen(runs, taken, front, out, heap, positions, previous, have, r, value)
    ensures |taken| == |runs| == |positions| && taken[r] < |runs[r]| && positions[r] == taken[r] + 1
    ensures AllNumbers(MergedFile(runs, out)) && |MergedFile(runs, out)| == |out| < Sum(Lengths(runs))
    ensures forall q | q in front :: q < |runs|
  {
    assert RunOk(runs, taken, front, r) && ReadAheadAt(taken, front, positions, r);
    MoreToCome(runs, taken, front, out, r);
  }

  /** Appends the record of run r to the output and reads the next one of that run. */
  method WriteRecord(
      disk: Disk, inputs: seq<Path>, temp: Path, quota: nat, heap: array<Node>, length: nat, positions: array<nat>,
      value: Double, r: nat, ghost previous: seq<Double>, ghost have: seq<bool>,
      ghost runs: seq<File>, ghost taken: seq<nat>, ghost front: Front, ghost out: seq<Tag>,
      ghost ceiling: nat, ghost others: map<Path, File>, ghost torn: set<Path>)
      returns (status: Status, length': nat)
    requires |inputs| == |runs| == heap.Length == positions.Length && length <= heap.Length
    requires Chosen(runs, taken, front, out, heap[..length], positions[..], previous, have, r, value)
    requires InputsThere(others, inputs, runs) && Writing(disk, temp, quota, ceiling, others, torn)
    requires disk.files[temp] == MergedFile(runs, out) && temp !in disk.torn
    modifies disk`files, disk`torn, disk`faulty, disk`peak, heap, positions
    ensures Writing(disk, temp, quota, ceiling, others, torn) && (old(disk.faulty) ==> disk.faulty)
    ensures length' <= heap.Length && |taken| == |runs|
    ensures status == Ok ==>
              && disk.faulty == old(disk.faulty) && temp !in disk.torn
              && Loaded(runs, taken[r := taken[r] + 1], FrontNext(runs, taken, front, r), out + [Tag(r, taken[r])],
                        heap[..length'], positions[..], previous, have)
              && disk.files[temp] == MergedFile(runs, out + [Tag(r, taken[r])]) && NUMBER_BYTES * (|out| + 1) <= quota
    ensures status != Ok && !disk.faulty ==> NUMBER_BYTES * Sum(Lengths(runs)) > quota || !GoodRun(runs[r])
  {
    length' := length;
    ghost var heap0, positions0 := heap[..length], positions[..];
    ChosenFacts(runs, taken, front, out, heap0, positions0, previous, have, r, value);
    status := AppendRecord(disk, temp, quota, value, ceiling, others, torn);
    if status != Ok { return; }
    InputThere(disk.files, temp, others, inputs, runs, r);
    status, length' := Refill(disk, inputs[r], heap, length, positions, r, runs, taken, front);
    if status != Ok { return; }
    LoadedNext(runs, taken, front, out, heap0, heap[..length'], positions0, positions[..], previous, have, r, value);
  }

  lemma {:induction false} FrontBelow(runs: seq<File>, taken: seq<nat>, front: Front, out: seq<Tag>)
    requires MergeInvariant(runs, taken, front, out)
    ensures forall q | q in front :: q < |runs|
  {
  }

  /** One record from the heap to the output. */
  method MergeOne(
      disk: Disk, inputs: seq<Path>, temp: Path, quota: nat, heap: array<Node>, length: nat, positions: array<nat>,
      previous: array<Double>, have: array<bool>,
      ghost runs: seq<File>, ghost taken: seq<nat>, ghost front: Front, ghost out: seq<Tag>,
      ghost ceiling: nat, ghost others: map<Path, File>, ghost torn: set<Path>)
      returns (status: Status, length': nat, ghost taken': seq<nat>, ghost front': Front, ghost out': seq<Tag>)
    requires |inputs| == |runs| == heap.Length == positions.Length == previous.Length == have.Length
    requires 0 < length <= heap.Length
    requires Loaded(runs, taken, front, out, heap[..length], positions[..], previous[..], have[..])
    requires InputsThere(others, inputs, runs) && Writing(disk, temp, quota, ceiling, others, torn)
    requires disk.files[temp] == MergedFile(runs, out) && temp !in disk.torn
    modifies disk`files, disk`torn, disk`faulty, disk`peak, heap, positions, previous, have
    ensures Writing(disk, temp, quota, ceiling, others, torn) && (old(disk.faulty) ==> disk.faulty)
    ensures length' <= heap.Length
    ensures status == Ok ==>
              && disk.faulty == old(disk.faulty) && temp !in disk.torn
              && Loaded(runs, taken', front', out', heap[..length'], positions[..], previous[..], have[..])
              && disk.files[temp] == MergedFile(runs, out') && NUMBER_BYTES * |out'| <= quota && |out'| == |out| + 1
    ensures status != Ok && !disk.faulty ==>
              || NUMBER_BYTES * Sum(Lengths(runs)) > quota
              || exists i :: 0 <= i < |runs| && !GoodRun(runs[i])
  {
    taken', front', out' := taken, front, out;
    var node;
    status, node, length' := TakeNext(heap, length, previous, have, positions[..], runs, taken, front, out);
    if status != Ok { return; }
    var r := node.run;
    status, length' := WriteRecord(disk, inputs, temp, quota, heap, length', positions, node.value, r, previous[..], have[..],
                                   runs, taken, front, out, ceiling, others, torn);
    if status != Ok { return; }
    taken', front', out' := taken[r := taken[r] + 1], FrontNext(runs, taken, front, r), out + [Tag(r, taken[r])];
  }

  lemma {:induction false} SomeInFront(runs: seq<File>, taken: seq<nat>, front: Front, out: seq<Tag>, heap: seq<Node>)
    requires MergeInvariant(runs, taken, front, out) && HeapIs(heap, front) && heap != []
    ensures |out| + 1 <= Sum(Lengths(runs))
  {
    assert |front| > 0;
    var r :| r in front;
    MoreToCome(runs, taken, front, out, r);
  }

  /** From the first record to the last. */
  method MergeLoop(
      disk: Disk, inputs: seq<Path>, temp: Path, quota: nat, heap: array<Node>, length: nat, positions: array<nat>,
      ghost runs: seq<File>, ghost front: Front, ghost ceiling: nat, ghost others: map<Path, File>, ghost torn: set<Path>)
      returns (status: Status, ghost out: seq<Tag>)
    requires |inputs| == |runs| == heap.Length == positions.Length && length <= heap.Length
    requires Opened(runs, front, |runs|) && HeapIs(heap[..length], front)
    requires forall r | 0 <= r < |runs| :: positions[r] == if r in front then 1 else 0
    requires InputsThere(others, inputs, runs) && Writing(disk, temp, quota, ceiling, others, torn)
    requires disk.files[temp] == [] && temp !in disk.torn
    modifies disk`files, disk`torn, disk`faulty, disk`peak, heap, positions
    ensures Writing(disk, temp, quota, ceiling, others, torn) && (old(disk.faulty) ==> disk.faulty)
    ensures status == Ok ==>
              && disk.faulty == old(disk.faulty) && temp !in disk.torn
              && StableMerge(runs, out) && (forall r | 0 <= r < |runs| :: GoodRun(runs[r]))
              && multiset(MergedFile(runs, out)) == UnionBag(runs) && |out| == Sum(Lengths(runs))
              && disk.files[temp] == MergedFile(runs, out) && (out == [] || NUMBER_BYTES * |out| <= quota)
    ensures status != Ok && !disk.faulty ==>
              || NUMBER_BYTES * Sum(Lengths(runs)) > quota
              || exists i :: 0 <= i < |runs| && !GoodRun(runs[i])
  {
    var previous := new Double[|inputs|](_ => ZERO);
    var have := new bool[|inputs|](_ => false);
    ghost var taken := seq(|runs|, _ => 0);
    ghost var front' := front;
    out := [];
    StartTables(runs, taken, front, positions[..], previous[..], have[..]);
    assert MergedFile(runs, out) == [];
    var n: nat := length;
    status := Ok;
    while n > 0
      invariant n <= heap.Length && status == Ok && disk.faulty == old(disk.faulty) && temp !in disk.torn
      invariant Loaded(runs, taken, front', out, heap[..n], positions[..], previous[..], have[..])
      invariant Writing(disk, temp, quota, ceiling, others, torn)
      invariant disk.files[temp] == MergedFile(runs, out) && (out == [] || NUMBER_BYTES * |out| <= quota)
      decreases Sum(Lengths(runs)) - |out|
    {
      SomeInFront(runs, taken, front', out, heap[..n]);
      status, n, taken, front', out :=
        MergeOne(disk, inputs, temp, quota, heap, n, positions, previous, have, runs, taken, front', out, ceiling, others, torn);
      if status != Ok { return; }
    }
    NothingInFront(runs, taken, front', out, heap[..n]);
  }

  lemma {:induction false} NothingInFront(runs: seq<File>, taken: seq<nat>, front: Front, out: seq<Tag>, heap: seq<Node>)
    requires MergeInvariant(runs, taken, front, out) && HeapIs(heap, front) && heap == []
    ensures StableMerge(runs, out) && (forall r | 0 <= r < |runs| :: GoodRun(runs[r]))
    ensures multiset(MergedFile(runs, out)) == UnionBag(runs) && |out| == Sum(Lengths(runs))
  {
    assert front == map[];
    MergeDone(runs, taken, front, out);
  }

  lemma {:induction false} StartTables(
      runs: seq<File>, taken: seq<nat>, front: Front, positions: seq<nat>, previous: seq<Double>, have: seq<bool>)
    requires |positions| == |previous| == |have| == |taken| == |runs| && Opened(runs, front, |runs|)
    requires forall r | 0 <= r < |runs| :: taken[r] == 0 && !have[r] && positions[r] == if r in front then 1 else 0
    ensures MergeInvariant(runs, taken, front, []) && ReadAhead(runs, taken, front, positions) && Remembered(runs, taken, previous, have)
  {
    forall r | 0 <= r < |runs|
      ensures RunOk(runs, taken, front, r) && ReadAheadAt(taken, front, positions, r) && RememberedAt(runs, taken, previous, have, r)
    {
      assert FirstOk(runs, front, r);
    }
    StartMerging(runs, taken, front);
  }

  // ----- the whole merge -----

  /** On success the output is the stable merge of the runs and nothing else has changed, apart from files left
      behind; otherwise nothing else has changed.  Torn tails of inputs are cut off, so that no file changes if and
      only if none has one.  As long as the disk works it succeeds exactly for what can be merged, and the quota
      bounds what is written. */
  method MergeRuns(disk: Disk, inputs: seq<Path>, output: Path, maxFanIn: nat, quota: nat)
      returns (status: Status, ghost out: seq<Tag>)
    requires disk.Valid()
    modifies disk
    ensures disk.Valid() && (old(disk.faulty) ==> disk.faulty)
    ensures status == Ok ==>
              var runs := RunsOf(old(disk.files), inputs);
              && output !in old(disk.files) && disk.Kept() == old(disk.Kept())[output := MergedFile(runs, out)]
              && StableMerge(runs, out) && (forall r | 0 <= r < |runs| :: Ascending(runs[r]))
              && multiset(MergedFile(runs, out)) == UnionBag(runs) && NUMBER_BYTES * |out| <= quota
    ensures status != Ok ==> disk.Kept() == old(disk.Kept())
    ensures status == Ok ==> Ascending(MergedFile(RunsOf(old(disk.files), inputs), out))
    ensures status == Ok ==> disk.faulty == old(disk.faulty) && Mergeable(old(disk.files), inputs, output, maxFanIn, quota)
    ensures !disk.faulty && Mergeable(old(disk.files), inputs, output, maxFanIn, quota) ==> status == Ok
    ensures disk.peak <= Most(old(disk.peak), Occupied(old(disk.Kept())) + quota)
    ensures disk.orphans <= old(disk.orphans) + {PartialPath(output)}
    ensures old(disk.Torn()) - InputSet(inputs) <= disk.Torn() <= old(disk.Torn())
    ensures status == Ok ==> (disk.Torn() == old(disk.Torn()) <==> InputSet(inputs) !! old(disk.Torn()))
  {
    out := [];
    ghost var files := disk.files;
    ghost var runs := RunsOf(files, inputs);
    if !ArgumentsOk(inputs, output, maxFanIn) { return Argument, out; }
    status, out := MergeInputs(disk, inputs, output, quota, runs, files, disk.Kept(), disk.Torn());
    if status == Ok {
      MergedFits(files, inputs, runs, output, maxFanIn, quota, out);
      MergedIsGood(runs, out);
      GoodRunIff(MergedFile(runs, out));
    } else {
      UnfitInput(files, inputs, output, maxFanIn, quota);
      UnfitMerge(files, inputs, runs, output, maxFanIn, quota);
    }
  }

  /** The output holds the stable merge of runs that were all in order. */
  ghost predicate MergedInto(kept: map<Path, File>, kept': map<Path, File>, runs: seq<File>, output: Path, out: seq<Tag>) {
    && kept' == kept[output := MergedFile(runs, out)] && StableMerge(runs, out)
    && (forall r | 0 <= r < |runs| :: GoodRun(runs[r]))
    && multiset(MergedFile(runs, out)) == UnionBag(runs) && |out| == Sum(Lengths(runs))
  }

  /** Opens the runs and merges them. */
  method MergeInputs(
      disk: Disk, inputs: seq<Path>, output: Path, quota: nat,
      ghost runs: seq<File>, ghost files: map<Path, File>, ghost kept: map<Path, File>, ghost torn: set<Path>)
      returns (status: Status, ghost out: seq<Tag>)
    requires disk.Valid() && disk.files == files && disk.Kept() == kept && disk.Torn() == torn && runs == RunsOf(files, inputs)
    modifies disk
    ensures disk.Valid() && (old(disk.faulty) ==> disk.faulty)
    ensures status == Ok ==>
              && MergedInto(kept, disk.Kept(), runs, output, out) && (out == [] || NUMBER_BYTES * |out| <= quota)
              && AllReadable(files, inputs, quota, |inputs|)
              && output !in files && PartialPath(output) !in files && disk.faulty == old(disk.faulty)
    ensures status != Ok ==> disk.Kept() == kept
    ensures status != Ok && !disk.faulty ==> SomeBadInput(files, inputs, quota) || Hindered(files, runs, output, quota)
    ensures disk.peak <= Most(old(disk.peak), Occupied(kept) + quota)
    ensures disk.orphans <= old(disk.orphans) + {PartialPath(output)}
    ensures torn - InputSet(inputs) <= disk.Torn() <= torn
    ensures status == Ok ==> (disk.Torn() == torn <==> InputSet(inputs) !! torn)
  {
    out := [];
    var granted := disk.Allocate();
    if !granted { return MemoryError, out; }
    var heap := new Node[|inputs|](_ => Node(ZERO, 0));
    var positions := new nat[|inputs|](_ => 0);
    var length;
    ghost var front;
    status, length, front := OpenAll(disk, inputs, quota, heap, positions, runs, files, kept, torn);
    if status != Ok { return; }
    status, out := WriteMerged(disk, inputs, output, quota, heap, length, positions, runs, front, files, kept, disk.Torn());
  }

  ghost predicate SomeBadInput(files: map<Path, File>, inputs: seq<Path>, quota: nat) {
    exists i :: 0 <= i < |inputs| && BadInput(files, inputs[i], quota)
  }

  /** Opens the runs; of what is on the disk only their torn tails go. */
  method OpenAll(
      disk: Disk, inputs: seq<Path>, quota: nat, heap: array<Node>, positions: array<nat>,
      ghost runs: seq<File>, ghost files: map<Path, File>, ghost kept: map<Path, File>, ghost torn: set<Path>)
      returns (status: Status, length: nat, ghost front: Front)
    requires disk.Valid() && disk.files == files && disk.Kept() == kept && disk.Torn() == torn && runs == RunsOf(files, inputs)
    requires heap.Length == positions.Length == |inputs|
    modifies disk`torn, disk`faulty, heap, positions
    ensures disk.Valid() && (old(disk.faulty) ==> disk.faulty) && disk.Kept() == kept
    ensures status == Ok ==>
              && disk.faulty == old(disk.faulty) && AllReadable(files, inputs, quota, |inputs|) && length <= heap.Length
              && Opened(runs, front, |runs|) && HeapIs(heap[..length], front)
              && forall r | 0 <= r < |runs| :: positions[r] == if r in front then 1 else 0
    ensures status != Ok && !disk.faulty ==> SomeBadInput(files, inputs, quota)
    ensures torn - InputSet(inputs) <= disk.Torn() <= torn
    ensures status == Ok ==> (disk.Torn() == torn <==> InputSet(inputs) !! torn)
  {
    ghost var before := disk.torn;
    status, length, front := OpenRuns(disk, inputs, quota, heap, positions);
    TailsCut(before, disk.torn, disk.orphans, InputSet(inputs));
  }

  /** Which files have a torn tail after those of the inputs have been cut off, all or some. */
  lemma {:induction false} TailsCut(torn: set<Path>, torn': set<Path>, orphans: set<Path>, inputs: set<Path>)
    requires torn - inputs <= torn' <= torn
    ensures torn - orphans - inputs <= torn' - orphans <= torn - orphans
    ensures torn' !! inputs ==> (torn' - orphans == torn - orphans <==> inputs !! torn - orphans)
  {
  }

  lemma {:induction false} UnfitInput(files: map<Path, File>, inputs: seq<Path>, output: Path, maxFanIn: nat, quota: nat)
    ensures SomeBadInput(files, inputs, quota) ==> !Mergeable(files, inputs, output, maxFanIn, quota)
  {
    if i :| 0 <= i < |inputs| && BadInput(files, inputs[i], quota) {
      if inputs[i] in files { GoodRunIff(files[inputs[i]]); }
    }
  }

  /** What stands in the way of a merge of readable runs. */
  ghost predicate Hindered(files: map<Path, File>, runs: seq<File>, output: Path, quota: nat) {
    || output in files || PartialPath(output) in files || quota < HEADER + TRAILER
    || NUMBER_BYTES * Sum(Lengths(runs)) > quota || exists i :: 0 <= i < |runs| && !GoodRun(runs[i])
  }

  lemma {:induction false} UnfitMerge(
      files: map<Path, File>, inputs: seq<Path>, runs: seq<File>, output: Path, maxFanIn: nat, quota: nat)
    requires runs == RunsOf(files, inputs)
    ensures Hindered(files, runs, output, quota) ==> !Mergeable(files, inputs, output, maxFanIn, quota)
  {
    if i :| 0 <= i < |runs| && !GoodRun(runs[i]) { GoodRunIff(runs[i]); }
  }

  lemma {:induction false} MergedFits(
      files: map<Path, File>, inputs: seq<Path>, runs: seq<File>, output: Path, maxFanIn: nat, quota: nat, out: seq<Tag>)
    requires runs == RunsOf(files, inputs)
    requires ArgumentsOk(inputs, output, maxFanIn) && AllReadable(files, inputs, quota, |inputs|)
    requires output !in files && PartialPath(output) !in files
    requires forall r | 0 <= r < |runs| :: GoodRun(runs[r])
    requires |out| == Sum(Lengths(runs)) && (out == [] || NUMBER_BYTES * |out| <= quota)
    ensures Mergeable(files, inputs, output, maxFanIn, quota) && NUMBER_BYTES * |out| <= quota
    ensures forall r | 0 <= r < |runs| :: Ascending(runs[r])
  {
    forall i | 0 <= i < |inputs|
      ensures inputs[i] in files && Readable(files[inputs[i]], quota) && Ascending(files[inputs[i]])
    {
      assert runs[i] == files[inputs[i]];
      GoodRunIff(runs[i]);
    }
    assert Readable(files[inputs[0]], quota);
  }

  /** Merges the opened runs into a temporary file and gives it its name. */
  method WriteMerged(
      disk: Disk, inputs: seq<Path>, output: Path, quota: nat, heap: array<Node>, length: nat, positions: array<nat>,
      ghost runs: seq<File>, ghost front: Front, ghost files: map<Path, File>, ghost kept: map<Path, File>, ghost torn: set<Path>)
      returns (status: Status, ghost out: seq<Tag>)
    requires disk.Valid() && disk.files == files && disk.Kept() == kept && disk.Torn() == torn && runs == RunsOf(files, inputs)
    requires |inputs| == heap.Length == positions.Length && length <= heap.Length
    requires AllReadable(files, inputs, quota, |inputs|)
    requires Opened(runs, front, |runs|) && HeapIs(heap[..length], front)
    requires forall r | 0 <= r < |runs| :: positions[r] == if r in front then 1 else 0
    modifies disk, heap, positions
    ensures disk.Valid() && (old(disk.faulty) ==> disk.faulty)
    ensures status == Ok ==>
              && MergedInto(kept, disk.Kept(), runs, output, out) && (out == [] || NUMBER_BYTES * |out| <= quota)
              && output !in files && PartialPath(output) !in files && disk.faulty == old(disk.faulty)
    ensures status != Ok ==> disk.Kept() == kept
    ensures status != Ok && !disk.faulty ==> Hindered(files, runs, output, quota)
    ensures disk.peak <= Most(old(disk.peak), Occupied(kept) + quota)
    ensures disk.orphans <= old(disk.orphans) + {PartialPath(output)} && disk.Torn() == torn
  {
    ghost var tails, orphans := disk.torn, disk.orphans;
    ghost var ceiling := Most(disk.peak, Occupied(kept) + quota);
    out := [];
    var temp := PartialPath(output);
    status := StartOutput(disk, output, temp, quota, files, kept, torn, ceiling);
    if status != Ok { return; }
    status, out := MergeLoop(disk, inputs, temp, quota, heap, length, positions, runs, front, ceiling, files, tails);
    KeptBut(files, disk.files, disk.orphans, temp);
    TornBut(tails, disk.torn, disk.orphans, temp);
    status := Activate(disk, temp, output, status, kept, torn);
  }

  /** Creates the temporary file, if neither it nor the output is there. */
  method StartOutput(
      disk: Disk, output: Path, temp: Path, quota: nat,
      ghost files: map<Path, File>, ghost kept: map<Path, File>, ghost torn: set<Path>, ghost ceiling: nat)
      returns (status: Status)
    requires disk.Valid() && disk.files == files && disk.Kept() == kept && disk.Torn() == torn && temp == PartialPath(output)
    requires disk.peak <= ceiling && Occupied(kept) + quota <= ceiling
    modifies disk`files, disk`torn, disk`fate, disk`faulty, disk`orphans
    ensures disk.Valid() && (old(disk.faulty) ==> disk.faulty)
    ensures status == Ok ==>
              && Writing(disk, temp, quota, ceiling, files, old(disk.torn)) && disk.orphans == old(disk.orphans)
              && temp !in files && disk.files[temp] == [] && temp !in disk.torn
              && output !in files && disk.faulty == old(disk.faulty)
    ensures status != Ok ==>
              disk.Kept() == kept && disk.Torn() == torn && disk.orphans <= old(disk.orphans) + {temp}
    ensures status != Ok && !disk.faulty ==> output in files || temp in files || quota < HEADER + TRAILER
  {
    var granted := disk.Allocate();
    if !granted { return MemoryError; }
    if disk.Exists(output) || disk.Exists(temp) { return Argument; }
    status := disk.Open(temp, quota);
    if status != Ok {
      disk.Remove(temp);
      return;
    }
    KeptBut(files, disk.files, disk.orphans, temp);
  }

  lemma {:induction false} TornBut(torn: set<Path>, torn': set<Path>, orphans: set<Path>, temp: Path)
    requires torn' - {temp} == torn && temp !in torn
    ensures torn' - orphans - {temp} == torn - orphans
  {
  }

  /** Apart from the temporary file, what is kept is what was kept. */
  lemma {:induction false} KeptBut(files: map<Path, File>, files': map<Path, File>, orphans: set<Path>, temp: Path)
    requires temp !in files && orphans <= files.Keys && files' - {temp} == files[temp := []] - {temp}
    ensures files' - orphans - {temp} == files - orphans && files' - {temp} == files
  {
    assert files[temp := []] - {temp} == files;
    assert files' - orphans - {temp} == files' - {temp} - orphans;
  }

  /** Closes the temporary file and renames it, or removes it if anything has gone wrong. */
  method Activate(disk: Disk, temp: Path, output: Path, status: Status, ghost kept: map<Path, File>, ghost torn: set<Path>)
      returns (status': Status)
    requires disk.Valid() && temp in disk.files && temp !in disk.orphans && output !in disk.files
    requires disk.Kept() - {temp} == kept && disk.Torn() - {temp} == torn && (status == Ok ==> temp !in disk.torn)
    modifies disk`files, disk`torn, disk`faulty, disk`orphans
    ensures disk.Valid() && (old(disk.faulty) ==> disk.faulty)
    ensures status' == Ok ==>
              && status == Ok && disk.faulty == old(disk.faulty) && disk.Kept() == kept[output := old(disk.files)[temp]]
    ensures status' != Ok ==> disk.Kept() == kept && (disk.faulty || status == status')
    ensures disk.orphans <= old(disk.orphans) + {temp} && disk.Torn() == torn
  {
    status' := status;
    var closed := disk.Close(temp);
    if status' == Ok { status' := closed; }
    if status' == Ok {
      var renamed := disk.Rename(temp, output);
      if !renamed { status' := IoError; }
      else { assert disk.Kept() == kept[output := old(disk.files)[temp]]; }
    }
    if status' != Ok { disk.Remove(temp); }
  }
}
