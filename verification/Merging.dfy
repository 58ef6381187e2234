/** What a k-way merge is, and the invariant of merging by always taking the first of the foremost records. */
module Merging {
  import opened Floats
  import opened SpillStore
  import opened MergeHeap

  // ----- runs that can be merged -----

  predicate GoodAt(f: File, i: nat)
    requires i < |f|
  {
    && f[i].Number? && IsFinite(f[i].value)
    && (i > 0 ==> f[i - 1].Number? && Rank(f[i - 1].value) <= Rank(f[i].value))
  }

  predicate GoodPrefix(f: File, n: nat)
    requires n <= |f|
  {
    forall i | 0 <= i < n :: GoodAt(f, i)
  }

  /** Finite numbers in non-decreasing order. */
  predicate GoodRun(f: File) { GoodPrefix(f, |f|) }

  /** Finite numbers, none greater than a later one. */
  ghost predicate Ascending(f: File) {
    && (forall i | 0 <= i < |f| :: f[i].Number? && IsFinite(f[i].value))
    && forall i, j | 0 <= i < j < |f| :: NumberValue(f[i].value) <= NumberValue(f[j].value)
  }

  lemma {:induction false} GoodRunIff(f: File)
    ensures GoodRun(f) <==> Ascending(f)
  {
    if GoodRun(f) {
      forall i | 0 <= i < |f|
        ensures f[i].Number? && IsFinite(f[i].value)
      {
        assert GoodAt(f, i);
      }
      forall i, j | 0 <= i < j < |f|
        ensures NumberValue(f[i].value) <= NumberValue(f[j].value)
      {
        RunRises(f, i, j);
        RankIsOrder(f[i].value, f[j].value);
      }
    }
    if Ascending(f) {
      forall i | 0 <= i < |f|
        ensures GoodAt(f, i)
      {
        if i > 0 { RankIsOrder(f[i - 1].value, f[i].value); }
      }
    }
  }

  // ----- the result -----

  /** A record by the run it comes from and its place there. */
  datatype Tag = Tag(run: nat, pos: nat)

  predicate ValidTag(runs: seq<File>, t: Tag) {
    t.run < |runs| && t.pos < |runs[t.run]| && runs[t.run][t.pos].Number?
  }

  function Val(runs: seq<File>, t: Tag): Double {
    if ValidTag(runs, t) then runs[t.run][t.pos].value else ZERO
  }

  /** By value, then by run, then by place in the run. */
  predicate Before(runs: seq<File>, s: Tag, t: Tag) {
    || Rank(Val(runs, s)) < Rank(Val(runs, t))
    || (Rank(Val(runs, s)) == Rank(Val(runs, t)) && (s.run < t.run || (s.run == t.run && s.pos < t.pos)))
  }

  ghost predicate InOrder(runs: seq<File>, out: seq<Tag>) {
    forall i, j | 0 <= i < j < |out| :: Before(runs, out[i], out[j])
  }

  /** All records of all runs, each once, in order. */
  ghost predicate StableMerge(runs: seq<File>, out: seq<Tag>) {
    && InOrder(runs, out)
    && (forall t | t in out :: ValidTag(runs, t))
    && (forall r, p | 0 <= r < |runs| && 0 <= p < |runs[r]| :: Tag(r, p) in out)
  }

  function MergedFile(runs: seq<File>, out: seq<Tag>): File {
    seq(|out|, i requires 0 <= i < |out| => Number(Val(runs, out[i])))
  }

  ghost function UnionBag(runs: seq<File>): multiset<Record> {
    if runs == [] then multiset{} else UnionBag(runs[..|runs| - 1]) + multiset(runs[|runs| - 1])
  }

  /** There is only one stable merge. */
  lemma {:induction false} StableMergeUnique(runs: seq<File>, a: seq<Tag>, b: seq<Tag>)
    requires StableMerge(runs, a) && StableMerge(runs, b)
    ensures a == b
  {
    forall t
      ensures t in a <==> t in b
    {
      if t in a { assert ValidTag(runs, t); }
      if t in b { assert ValidTag(runs, t); }
    }
    SameOrder(runs, a, b);
  }

  lemma {:induction false} SameOrder(runs: seq<File>, a: seq<Tag>, b: seq<Tag>)
    requires InOrder(runs, a) && InOrder(runs, b) && forall t :: t in a <==> t in b
    ensures a == b
    decreases |a|
  {
    assert b != [] ==> b[0] in b;
    if a != [] {
      assert a[0] in b && b != [] && b[0] in a;
      assert a[0] == b[0];
      forall t
        ensures t in a[1..] <==> t in b[1..]
      {
        assert t in a[1..] <==> t in a && t != a[0];
        assert t in b[1..] <==> t in b && t != b[0];
      }
      SameOrder(runs, a[1..], b[1..]);
    }
  }

  /** The merged file is a run again. */
  lemma {:induction false} MergedIsGood(runs: seq<File>, out: seq<Tag>)
    requires StableMerge(runs, out) && forall r | 0 <= r < |runs| :: GoodRun(runs[r])
    ensures GoodRun(MergedFile(runs, out))
  {
    var f := MergedFile(runs, out);
    forall i | 0 <= i < |f|
      ensures GoodAt(f, i)
    {
      var t := out[i];
      assert t in out && ValidTag(runs, t);
      assert GoodRun(runs[t.run]) && GoodAt(runs[t.run], t.pos);
      if i > 0 { assert Before(runs, out[i - 1], out[i]); }
    }
  }

  /** Equal values keep the order of their runs, and the records of one run keep their order. */
  lemma {:induction false} MergeIsStable(runs: seq<File>, out: seq<Tag>, i: nat, j: nat)
    requires StableMerge(runs, out) && i < j < |out|
    ensures Rank(Val(runs, out[i])) <= Rank(Val(runs, out[j]))
    ensures Rank(Val(runs, out[i])) == Rank(Val(runs, out[j])) ==> out[i].run <= out[j].run
    ensures out[i].run == out[j].run && (forall r | 0 <= r < |runs| :: GoodRun(runs[r])) ==> out[i].pos < out[j].pos
  {
    assert Before(runs, out[i], out[j]);
    if out[i].run == out[j].run && out[j].pos <= out[i].pos && forall r | 0 <= r < |runs| :: GoodRun(runs[r]) {
      assert out[i] in out && out[j] in out && ValidTag(runs, out[i]) && ValidTag(runs, out[j]);
      RunRises(runs[out[i].run], out[j].pos, out[i].pos);
    }
  }

  /** The same in terms of the numbers, for runs that are in order. */
  lemma {:induction false} MergeKeepsOrder(runs: seq<File>, out: seq<Tag>, i: nat, j: nat)
    requires StableMerge(runs, out) && i < j < |out| && forall r | 0 <= r < |runs| :: Ascending(runs[r])
    ensures ValidTag(runs, out[i]) && ValidTag(runs, out[j])
    ensures var x, y := NumberValue(runs[out[i].run][out[i].pos].value), NumberValue(runs[out[j].run][out[j].pos].value);
            x < y || (x == y && (out[i].run < out[j].run || (out[i].run == out[j].run && out[i].pos < out[j].pos)))
  {
    assert out[i] in out && out[j] in out;
    forall r | 0 <= r < |runs|
      ensures GoodRun(runs[r])
    {
      GoodRunIff(runs[r]);
    }
    MergeIsStable(runs, out, i, j);
    RankIsOrder(Val(runs, out[i]), Val(runs, out[j]));
    RankIsOrder(Val(runs, out[j]), Val(runs, out[i]));
  }

  lemma {:induction false} RunRises(f: File, i: nat, j: nat)
    requires GoodRun(f) && i <= j < |f|
    ensures f[i].Number? && f[j].Number? && Rank(f[i].value) <= Rank(f[j].value)
    decreases j
  {
    assert GoodAt(f, j);
    if i < j { RunRises(f, i, j - 1); }
  }

  // ----- sums and bags -----

  function Sum(s: seq<nat>): nat { if s == [] then 0 else Sum(s[..|s| - 1]) + s[|s| - 1] }

  function Lengths(runs: seq<File>): seq<nat> { seq(|runs|, i requires 0 <= i < |runs| => |runs[i]|) }

  lemma {:induction false} SumUpdate(s: seq<nat>, r: nat, v: nat)
    requires r < |s|
    ensures Sum(s[r := v]) == Sum(s) - s[r] + v
    decreases |s|
  {
    var n := |s| - 1;
    if r == n {
      assert s[r := v][..n] == s[..n];
    } else {
      assert s[r := v][..n] == s[..n][r := v];
      SumUpdate(s[..n], r, v);
    }
  }

  lemma {:induction false} SumMonotone(s: seq<nat>, t: seq<nat>)
    requires |s| == |t| && forall i | 0 <= i < |s| :: s[i] <= t[i]
    ensures Sum(s) <= Sum(t)
    decreases |s|
  {
    if s != [] { SumMonotone(s[..|s| - 1], t[..|t| - 1]); }
  }

  /** No more is taken than there is. */
  ghost predicate Within(runs: seq<File>, taken: seq<nat>) {
    |taken| == |runs| && forall r | 0 <= r < |runs| :: taken[r] <= |runs[r]|
  }

  /** The records taken so far. */
  ghost function TakenBag(runs: seq<File>, taken: seq<nat>): multiset<Record>
    requires Within(runs, taken)
  {
    if runs == [] then multiset{}
    else
      var n := |runs| - 1;
      TakenBag(runs[..n], taken[..n]) + multiset(runs[n][..taken[n]])
  }

  lemma {:induction false} TakeOne(runs: seq<File>, taken: seq<nat>, r: nat)
    requires Within(runs, taken) && r < |runs| && taken[r] < |runs[r]|
    ensures TakenBag(runs, taken[r := taken[r] + 1]) == TakenBag(runs, taken) + multiset{runs[r][taken[r]]}
    decreases |runs|
  {
    var n := |runs| - 1;
    var more := taken[r := taken[r] + 1];
    if r == n {
      assert more[..n] == taken[..n];
      assert runs[n][..taken[n] + 1] == runs[n][..taken[n]] + [runs[n][taken[n]]];
    } else {
      assert more[..n] == taken[..n][r := taken[..n][r] + 1];
      TakeOne(runs[..n], taken[..n], r);
      assert runs[..n][r] == runs[r];
    }
  }

  lemma {:induction false} TakeNone(runs: seq<File>, taken: seq<nat>)
    requires |runs| == |taken| && forall r | 0 <= r < |runs| :: taken[r] == 0
    ensures TakenBag(runs, taken) == multiset{} && Sum(taken) == 0
    decreases |runs|
  {
    if runs != [] { TakeNone(runs[..|runs| - 1], taken[..|runs| - 1]); }
  }

  lemma {:induction false} TakeAll(runs: seq<File>, taken: seq<nat>)
    requires |runs| == |taken| && forall r | 0 <= r < |runs| :: taken[r] == |runs[r]|
    ensures TakenBag(runs, taken) == UnionBag(runs)
    decreases |runs|
  {
    if runs != [] {
      var n := |runs| - 1;
      TakeAll(runs[..n], taken[..n]);
      assert runs[n][..taken[n]] == runs[n];
    }
  }

  // ----- merging -----

  /** The next record of each run that is not used up, by run. */
  type Front = map<nat, Double>

  ghost function FrontBag(front: Front): multiset<Node> {
    multiset(set r | r in front :: Node(front[r], r))
  }

  lemma {:induction false} FrontAdd(front: Front, r: nat, v: Double)
    requires r !in front
    ensures FrontBag(front[r := v]) == FrontBag(front) + multiset{Node(v, r)}
  {
    var more := front[r := v];
    var a, b := (set q | q in front :: Node(front[q], q)), (set q | q in more :: Node(more[q], q));
    forall n
      ensures n in b <==> n in a + {Node(v, r)}
    {
      if n in a { assert n.run in more && more[n.run] == n.value; }
      if n == Node(v, r) { assert r in more; }
    }
    assert b == a + {Node(v, r)};
  }

  lemma {:induction false} FrontRemove(front: Front, r: nat)
    requires r in front
    ensures FrontBag(front - {r}) == FrontBag(front) - multiset{Node(front[r], r)}
  {
    var less := front - {r};
    var a, b := (set q | q in front :: Node(front[q], q)), (set q | q in less :: Node(less[q], q));
    forall n
      ensures n in b <==> n in a - {Node(front[r], r)}
    {
      if n in a && n != Node(front[r], r) { assert n.run in less && less[n.run] == n.value; }
    }
    assert b == a - {Node(front[r], r)} && Node(front[r], r) in a;
    assert a == b + {Node(front[r], r)};
    assert multiset(a) == multiset(b) + multiset{Node(front[r], r)};
  }

  ghost predicate RunOk(runs: seq<File>, taken: seq<nat>, front: Front, r: nat)
    requires |taken| == |runs| && r < |runs|
  {
    && taken[r] <= |runs[r]| && GoodPrefix(runs[r], taken[r])
    && (r in front <==> taken[r] < |runs[r]|)
    && (r in front ==> runs[r][taken[r]] == Number(front[r]) && IsFinite(front[r]))
  }

  /** The run goes down at its next record. */
  ghost predicate Descends(runs: seq<File>, taken: seq<nat>, front: Front, r: nat)
    requires r in front
  {
    && r < |runs| && r < |taken| && 0 < taken[r] <= |runs[r]|
    && runs[r][taken[r] - 1].Number? && Rank(front[r]) < Rank(runs[r][taken[r] - 1].value)
  }

  ghost predicate Taken(runs: seq<File>, taken: seq<nat>, out: seq<Tag>)
    requires |taken| == |runs|
  {
    && (forall t | t in out :: t.run < |runs| && t.pos < taken[t.run])
    && (forall r, p | 0 <= r < |runs| && 0 <= p < taken[r] :: Tag(r, p) in out)
  }

  ghost predicate FrontAfter(runs: seq<File>, taken: seq<nat>, front: Front, out: seq<Tag>) {
    out != [] ==>
      forall r | r in front ::
        r < |taken| && (Descends(runs, taken, front, r) || Before(runs, out[|out| - 1], Tag(r, taken[r])))
  }

  ghost predicate MergeInvariant(runs: seq<File>, taken: seq<nat>, front: Front, out: seq<Tag>) {
    && Within(runs, taken)
    && (forall r | 0 <= r < |runs| :: RunOk(runs, taken, front, r))
    && (forall r | r in front :: r < |runs|)
    && Taken(runs, taken, out) && InOrder(runs, out) && FrontAfter(runs, taken, front, out)
    && |out| == Sum(taken) && multiset(MergedFile(runs, out)) == TakenBag(runs, taken)
  }

  lemma {:induction false} StartMerging(runs: seq<File>, taken: seq<nat>, front: Front)
    requires |taken| == |runs| && (forall r | 0 <= r < |runs| :: taken[r] == 0 && RunOk(runs, taken, front, r))
    requires forall r | r in front :: r < |runs|
    ensures MergeInvariant(runs, taken, front, [])
  {
    TakeNone(runs, taken);
    assert MergedFile(runs, []) == [];
  }

  /** What is in front after the record of run r has been taken. */
  function FrontNext(runs: seq<File>, taken: seq<nat>, front: Front, r: nat): Front
    requires |taken| == |runs| && r < |runs|
  {
    if taken[r] + 1 < |runs[r]| && runs[r][taken[r] + 1].Number? then (front - {r})[r := runs[r][taken[r] + 1].value]
    else front - {r}
  }

  /** The record may be taken: none in front is before it, and its run does not go down. */
  ghost predicate Takeable(runs: seq<File>, taken: seq<nat>, front: Front, r: nat)
    requires r in front
  {
    && !Descends(runs, taken, front, r)
    && forall q | q in front :: !NodeBefore(Node(front[q], q), Node(front[r], r))
  }

  lemma {:induction false} TakeTag(runs: seq<File>, taken: seq<nat>, front: Front, out: seq<Tag>, r: nat)
    requires MergeInvariant(runs, taken, front, out) && r in front
    ensures Taken(runs, taken[r := taken[r] + 1], out + [Tag(r, taken[r])])
  {
    var taken', out' := taken[r := taken[r] + 1], out + [Tag(r, taken[r])];
    forall q, p | 0 <= q < |runs| && 0 <= p < taken'[q]
      ensures Tag(q, p) in out'
    {
      if q == r && p == taken[r] {
        assert out'[|out|] == Tag(q, p);
      } else {
        assert Tag(q, p) in out;
      }
    }
  }

  lemma {:induction false} TakeOrder(runs: seq<File>, taken: seq<nat>, front: Front, out: seq<Tag>, r: nat)
    requires MergeInvariant(runs, taken, front, out) && r in front && Takeable(runs, taken, front, r)
    ensures InOrder(runs, out + [Tag(r, taken[r])])
  {
    var t := Tag(r, taken[r]);
    var out' := out + [t];
    assert RunOk(runs, taken, front, r);
    forall i, j | 0 <= i < j < |out'|
      ensures Before(runs, out'[i], out'[j])
    {
      if j == |out| {
        assert Before(runs, out[|out| - 1], t);
        if i < |out| - 1 { assert Before(runs, out[i], out[|out| - 1]); }
      }
    }
  }

  lemma {:induction false} TakeFront(runs: seq<File>, taken: seq<nat>, front: Front, out: seq<Tag>, r: nat)
    requires MergeInvariant(runs, taken, front, out) && r in front && Takeable(runs, taken, front, r)
    requires taken[r] + 1 < |runs[r]| ==> runs[r][taken[r] + 1].Number? && IsFinite(runs[r][taken[r] + 1].value)
    ensures var taken', front' := taken[r := taken[r] + 1], FrontNext(runs, taken, front, r);
            && (forall q | 0 <= q < |runs| :: RunOk(runs, taken', front', q))
            && (forall q | q in front' :: q < |runs|)
            && FrontAfter(runs, taken', front', out + [Tag(r, taken[r])])
            && Within(runs, taken')
  {
    var taken', front' := taken[r := taken[r] + 1], FrontNext(runs, taken, front, r);
    assert RunOk(runs, taken, front, r);
    forall q | 0 <= q < |runs|
      ensures RunOk(runs, taken', front', q)
    {
      assert RunOk(runs, taken, front, q);
      if q == r {
        forall i | 0 <= i < taken'[r]
          ensures GoodAt(runs[r], i)
        {
          if i == taken[r] && i > 0 { assert GoodAt(runs[r], i - 1); }
        }
      }
    }
    forall q | q in front'
      ensures Descends(runs, taken', front', q) || Before(runs, Tag(r, taken[r]), Tag(q, taken'[q]))
    {
      assert RunOk(runs, taken, front, q) && RunOk(runs, taken', front', q);
      if q != r { assert !NodeBefore(Node(front[q], q), Node(front[r], r)); }
    }
  }

  /** Taking the first of the foremost records. */
  lemma {:induction false} MergeStep(runs: seq<File>, taken: seq<nat>, front: Front, out: seq<Tag>, r: nat)
    requires MergeInvariant(runs, taken, front, out) && r in front && Takeable(runs, taken, front, r)
    requires taken[r] + 1 < |runs[r]| ==> runs[r][taken[r] + 1].Number? && IsFinite(runs[r][taken[r] + 1].value)
    ensures MergeInvariant(runs, taken[r := taken[r] + 1], FrontNext(runs, taken, front, r), out + [Tag(r, taken[r])])
    ensures MergedFile(runs, out + [Tag(r, taken[r])]) == MergedFile(runs, out) + [Number(front[r])]
  {
    TakeTag(runs, taken, front, out, r);
    TakeOrder(runs, taken, front, out, r);
    TakeFront(runs, taken, front, out, r);
    assert RunOk(runs, taken, front, r);
    SumUpdate(taken, r, taken[r] + 1);
    TakeOne(runs, taken, r);
    assert MergedFile(runs, out + [Tag(r, taken[r])]) == MergedFile(runs, out) + [Number(front[r])];
  }

  /** When nothing is in front the merge is complete, and every run was good. */
  lemma {:induction false} MergeDone(runs: seq<File>, taken: seq<nat>, front: Front, out: seq<Tag>)
    requires MergeInvariant(runs, taken, front, out) && front == map[]
    ensures StableMerge(runs, out) && forall r | 0 <= r < |runs| :: GoodRun(runs[r])
    ensures multiset(MergedFile(runs, out)) == UnionBag(runs) && |out| == Sum(Lengths(runs))
  {
    assert taken == Lengths(runs) by {
      forall r | 0 <= r < |runs|
        ensures taken[r] == |runs[r]|
      {
        assert RunOk(runs, taken, front, r);
      }
    }
    forall r | 0 <= r < |runs|
      ensures taken[r] == |runs[r]| && GoodRun(runs[r])
    {
      assert RunOk(runs, taken, front, r);
    }
    forall t | t in out
      ensures ValidTag(runs, t)
    {
      assert GoodAt(runs[t.run], t.pos);
    }
    TakeAll(runs, taken);
  }

  /** While something is in front there is more to come than has been taken. */
  lemma {:induction false} MoreToCome(runs: seq<File>, taken: seq<nat>, front: Front, out: seq<Tag>, r: nat)
    requires MergeInvariant(runs, taken, front, out) && r in front
    ensures |out| + 1 <= Sum(Lengths(runs))
  {
    var more := taken[r := taken[r] + 1];
    assert RunOk(runs, taken, front, r);
    SumUpdate(taken, r, taken[r] + 1);
    forall q | 0 <= q < |runs|
      ensures more[q] <= Lengths(runs)[q]
    {
      assert RunOk(runs, taken, front, q);
    }
    SumMonotone(more, Lengths(runs));
  }
}
