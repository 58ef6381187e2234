/** Lexical canonicalization of paths, in place in one buffer, against a reducer on component lists.
    Separators are those of POSIX. */
module LexicalPath {

  type Path = seq<char>

  const SLASH: char := '/'

  predicate IsComponent(w: Path) { w != [] && SLASH !in w }

  // ----- components -----

  /** The components that are complete, and the one that is being read. */
  datatype Words = Words(complete: seq<Path>, current: Path)

  function WordsOf(s: Path): Words {
    if s == [] then Words([], [])
    else
      var before := WordsOf(s[..|s| - 1]);
      var c := s[|s| - 1];
      if c != SLASH then Words(before.complete, before.current + [c])
      else if before.current == [] then before
      else Words(before.complete + [before.current], [])
  }

  /** The non-empty pieces between slashes. */
  function Components(s: Path): seq<Path> {
    var w := WordsOf(s);
    if w.current == [] then w.complete else w.complete + [w.current]
  }

  lemma {:induction false} SlashEndsWord(s: Path)
    ensures Components(s + [SLASH]) == Components(s) && WordsOf(s + [SLASH]).current == []
  {
    assert (s + [SLASH])[..|s|] == s;
  }

  lemma {:induction false} CharExtendsWord(s: Path, c: char)
    requires c != SLASH
    ensures WordsOf(s + [c]) == Words(WordsOf(s).complete, WordsOf(s).current + [c])
  {
    assert (s + [c])[..|s|] == s;
  }

  /** A component after a separator, or at the beginning. */
  lemma {:induction false} ComponentAppends(s: Path, w: Path)
    requires WordsOf(s).current == [] && SLASH !in w
    ensures WordsOf(s + w) == Words(WordsOf(s).complete, w)
    decreases |w|
  {
    if w == [] {
      assert s + w == s;
    } else {
      var n := |w| - 1;
      ComponentAppends(s, w[..n]);
      CharExtendsWord(s + w[..n], w[n]);
      assert s + w == (s + w[..n]) + [w[n]] && w == w[..n] + [w[n]];
    }
  }

  lemma {:induction false} CurrentEmpty(s: Path)
    requires s == [] || s[|s| - 1] == SLASH
    ensures WordsOf(s).current == []
  {
    if s != [] { SlashEndsWord(s[..|s| - 1]); assert s == s[..|s| - 1] + [SLASH]; }
  }

  lemma {:induction false} ComponentsAreComponents(s: Path)
    ensures forall i | 0 <= i < |WordsOf(s).complete| :: IsComponent(WordsOf(s).complete[i])
    ensures SLASH !in WordsOf(s).current
    decreases |s|
  {
    if s != [] { ComponentsAreComponents(s[..|s| - 1]); }
  }

  /** Pieces with one separator between each two. */
  function Glued(pieces: seq<Path>): Path {
    if |pieces| <= 1 then (if pieces == [] then "" else pieces[0])
    else Glued(pieces[..|pieces| - 1]) + "/" + pieces[|pieces| - 1]
  }

  function NonEmpty(pieces: seq<Path>): seq<Path> {
    if pieces == [] then []
    else
      var n := |pieces| - 1;
      NonEmpty(pieces[..n]) + if pieces[n] == "" then [] else [pieces[n]]
  }

  /** The components of a path are the pieces between its separators that are not empty. */
  lemma {:induction false} ComponentsAre(pieces: seq<Path>)
    requires forall i | 0 <= i < |pieces| :: '/' !in pieces[i]
    ensures Components(Glued(pieces)) == NonEmpty(pieces)
    decreases |pieces|
  {
    if pieces != [] {
      var n := |pieces| - 1;
      var front, w := if n == 0 then "" else Glued(pieces[..n]) + "/", pieces[n];
      if n > 0 {
        ComponentsAre(pieces[..n]);
        SlashEndsWord(Glued(pieces[..n]));
      }
      assert Components(front) == NonEmpty(pieces[..n]) && WordsOf(front).current == [];
      assert Glued(pieces) == front + w;
      ComponentAppends(front, w);
    }
  }

  /** Every path is glued from pieces. */
  lemma {:induction false} PathIsGlued(s: Path) returns (pieces: seq<Path>)
    ensures pieces != [] && (forall i | 0 <= i < |pieces| :: '/' !in pieces[i]) && Glued(pieces) == s
    decreases |s|
  {
    if s == [] {
      pieces := [""];
    } else {
      var n := |s| - 1;
      var before := PathIsGlued(s[..n]);
      var m := |before| - 1;
      assert s == s[..n] + [s[n]];
      if s[n] == '/' {
        pieces := before + [""];
        assert pieces[..m + 1] == before;
      } else {
        pieces := before[..m] + [before[m] + [s[n]]];
        assert pieces[..m] == before[..m];
      }
    }
  }

  // ----- reduction -----

  const DOT: Path := ['.']
  const DOTS: Path := ['.', '.']

  /** One more component: `.` is dropped, `..` takes back a name, and at the root of an absolute path nothing. */
  function Push(absolute: bool, names: seq<Path>, w: Path): seq<Path> {
    if w == DOT then names
    else if w == DOTS && names != [] && names[|names| - 1] != DOTS then names[..|names| - 1]
    else if w == DOTS && absolute then names
    else names + [w]
  }

  function Reduce(absolute: bool, ws: seq<Path>): seq<Path> {
    if ws == [] then [] else Push(absolute, Reduce(absolute, ws[..|ws| - 1]), ws[|ws| - 1])
  }

  /** Names with one separator between them, after the root if there is one. */
  function Joined(absolute: bool, names: seq<Path>): Path {
    if names == [] then (if absolute then [SLASH] else [])
    else
      var front := Joined(absolute, names[..|names| - 1]);
      Separated(front) + names[|names| - 1]
  }

  function Separated(s: Path): Path { if s != [] && s[|s| - 1] != SLASH then s + [SLASH] else s }

  predicate IsAbsolute(s: Path) { s != [] && s[0] == SLASH }

  function Rendered(absolute: bool, names: seq<Path>): Path {
    var s := Joined(absolute, names);
    if s == [] then DOT else s
  }

  /** What canonicalization computes. */
  function Canonical(s: Path): Path { Rendered(IsAbsolute(s), Reduce(IsAbsolute(s), Components(s))) }

  // ----- idempotence -----

  /** Reduced lists: no `.`, and `..` only in front of a relative path. */
  ghost predicate Normal(absolute: bool, names: seq<Path>) {
    && (forall i | 0 <= i < |names| :: IsComponent(names[i]) && names[i] != DOT)
    && (forall i | 0 <= i < |names| && names[i] == DOTS :: !absolute && forall j | 0 <= j < i :: names[j] == DOTS)
  }

  lemma {:induction false} ReduceIsNormal(absolute: bool, ws: seq<Path>)
    requires forall i | 0 <= i < |ws| :: IsComponent(ws[i])
    ensures Normal(absolute, Reduce(absolute, ws))
    decreases |ws|
  {
    if ws != [] {
      var n := |ws| - 1;
      ReduceIsNormal(absolute, ws[..n]);
      PushIsNormal(absolute, Reduce(absolute, ws[..n]), ws[n]);
    }
  }

  lemma {:induction false} PushIsNormal(absolute: bool, names: seq<Path>, w: Path)
    requires Normal(absolute, names) && IsComponent(w)
    ensures Normal(absolute, Push(absolute, names, w))
  {
    var more := Push(absolute, names, w);
    if w == DOTS && more == names + [w] {
      forall i | 0 <= i < |names|
        ensures names[i] == DOTS
      {
        var last := |names| - 1;
        assert names[last] == DOTS;
      }
    }
  }

  /** Reduced lists stay as they are. */
  lemma {:induction false} NormalIsReduced(absolute: bool, names: seq<Path>)
    requires Normal(absolute, names)
    ensures Reduce(absolute, names) == names
    decreases |names|
  {
    if names != [] {
      var n := |names| - 1;
      assert names == names[..n] + [names[n]];
      NormalIsReduced(absolute, names[..n]);
    }
  }

  /** Splitting what has been joined gives the names back. */
  lemma {:induction false} JoinedSplits(absolute: bool, names: seq<Path>)
    requires forall i | 0 <= i < |names| :: IsComponent(names[i])
    ensures Components(Joined(absolute, names)) == names
    decreases |names|
  {
    if names == [] {
      if absolute { SlashEndsWord([]); assert [] + [SLASH] == [SLASH]; }
    } else {
      var n := |names| - 1;
      var front := Joined(absolute, names[..n]);
      JoinedSplits(absolute, names[..n]);
      SeparatedWords(front);
      ComponentAppends(Separated(front), names[n]);
      assert WordsOf(Separated(front)).complete == names[..n];
      assert names == names[..n] + [names[n]];
    }
  }

  lemma {:induction false} SeparatedWords(s: Path)
    ensures WordsOf(Separated(s)).current == [] && Components(Separated(s)) == Components(s)
  {
    if s != [] && s[|s| - 1] != SLASH { SlashEndsWord(s); } else { CurrentEmpty(s); }
  }

  lemma {:induction false} JoinedAbsolute(absolute: bool, names: seq<Path>)
    requires forall i | 0 <= i < |names| :: IsComponent(names[i])
    ensures IsAbsolute(Joined(absolute, names)) == absolute
    decreases |names|
  {
    if names != [] { JoinedAbsolute(absolute, names[..|names| - 1]); }
  }

  /** Canonical paths are their own canonical form. */
  lemma {:induction false} CanonicalIdempotent(s: Path)
    ensures Canonical(Canonical(s)) == Canonical(s)
  {
    var absolute := IsAbsolute(s);
    ComponentsAreComponents(s);
    var names := Reduce(absolute, Components(s));
    ReduceIsNormal(absolute, Components(s));
    JoinedSplits(absolute, names);
    JoinedAbsolute(absolute, names);
    NormalIsReduced(absolute, names);
    DotIsCanonical();
    CanonicalAgain(Joined(absolute, names), absolute, names);
  }

  lemma {:induction false} DotIsCanonical()
    ensures Canonical(DOT) == DOT
  {
    ComponentAppends([], DOT);
    assert [] + DOT == DOT;
    assert Components(DOT) == [DOT];
    assert Reduce(false, [DOT]) == [] by { assert [DOT][..0] == []; }
  }

  lemma {:induction false} CanonicalAgain(text: Path, absolute: bool, names: seq<Path>)
    requires text == Joined(absolute, names) && Components(text) == names && IsAbsolute(text) == absolute
    requires Reduce(absolute, names) == names && Canonical(DOT) == DOT
    ensures Canonical(Rendered(absolute, names)) == Rendered(absolute, names)
  {
  }

  // ----- where a path leads -----

  /** One component from a directory, given by the names below the root: `.` stays, `..` goes up, though not above
      the root, and a name goes down. */
  function StepInto(dir: seq<Path>, w: Path): seq<Path> {
    if w == "." then dir
    else if w == ".." then (if dir == [] then [] else dir[..|dir| - 1])
    else dir + [w]
  }

  function Walk(dir: seq<Path>, ws: seq<Path>): seq<Path> {
    if ws == [] then dir else StepInto(Walk(dir, ws[..|ws| - 1]), ws[|ws| - 1])
  }

  /** Where a path leads from a directory; absolute paths start at the root. */
  function Leads(dir: seq<Path>, s: Path): seq<Path> { Walk(if IsAbsolute(s) then [] else dir, Components(s)) }

  /** A component that is pushed leads where it leads. */
  lemma {:induction false} PushWalks(dir: seq<Path>, absolute: bool, names: seq<Path>, w: Path)
    requires Normal(absolute, names) && (absolute ==> dir == [])
    ensures Walk(dir, Push(absolute, names, w)) == StepInto(Walk(dir, names), w)
  {
    if w == DOTS && names != [] && names[|names| - 1] != DOTS {
      var n := |names| - 1;
      assert names[n] != DOT;
      assert (Walk(dir, names[..n]) + [names[n]])[..|Walk(dir, names[..n])|] == Walk(dir, names[..n]);
    } else if w != DOT && !(w == DOTS && absolute) {
      assert (names + [w])[..|names|] == names;
    }
  }

  lemma {:induction false} ReduceWalks(dir: seq<Path>, absolute: bool, ws: seq<Path>)
    requires (forall i | 0 <= i < |ws| :: IsComponent(ws[i])) && (absolute ==> dir == [])
    ensures Walk(dir, Reduce(absolute, ws)) == Walk(dir, ws)
    decreases |ws|
  {
    if ws != [] {
      var n := |ws| - 1;
      ReduceWalks(dir, absolute, ws[..n]);
      ReduceIsNormal(absolute, ws[..n]);
      PushWalks(dir, absolute, Reduce(absolute, ws[..n]), ws[n]);
    }
  }

  /** The canonical form leads to the same place from every directory, and is absolute if the path is. */
  lemma {:induction false} CanonicalLeadsThere(s: Path, dir: seq<Path>)
    ensures Leads(dir, Canonical(s)) == Leads(dir, s) && IsAbsolute(Canonical(s)) == IsAbsolute(s)
  {
    var absolute := IsAbsolute(s);
    var names := Reduce(absolute, Components(s));
    ComponentsAreComponents(s);
    ReduceIsNormal(absolute, Components(s));
    ReduceWalks(if absolute then [] else dir, absolute, Components(s));
    RenderedLeads(absolute, names, dir);
  }

  lemma {:induction false} RenderedLeads(absolute: bool, names: seq<Path>, dir: seq<Path>)
    requires Normal(absolute, names)
    ensures IsAbsolute(Rendered(absolute, names)) == absolute
    ensures Leads(dir, Rendered(absolute, names)) == Walk(if absolute then [] else dir, names)
  {
    JoinedSplits(absolute, names);
    JoinedAbsolute(absolute, names);
    if Joined(absolute, names) == [] {
      ComponentAppends([], DOT);
      assert [] + DOT == DOT;
      assert Components(DOT) == [DOT] && [DOT][..0] == [];
      assert Components([]) == [];
    }
  }

  // ----- and that no other canonical path leads there -----

  ghost predicate DotsThenNames(names: seq<Path>, k: nat) {
    && k <= |names| && (forall i | 0 <= i < k :: names[i] == DOTS)
    && forall i | k <= i < |names| :: names[i] != DOTS && names[i] != DOT
  }

  lemma {:induction false} NormalSplits(absolute: bool, names: seq<Path>) returns (k: nat)
    requires Normal(absolute, names)
    ensures DotsThenNames(names, k) && (absolute ==> k == 0)
  {
    k := 0;
    while k < |names| && names[k] == DOTS
      invariant k <= |names| && (absolute ==> k == 0) && forall i | 0 <= i < k :: names[i] == DOTS
    {
      k := k + 1;
    }
    assert k < |names| ==> names[k] != DOTS;
  }

  /** Some steps up, then down. */
  lemma {:induction false} NormalWalk(dir: seq<Path>, names: seq<Path>, k: nat)
    requires DotsThenNames(names, k) && k <= |dir|
    ensures Walk(dir, names) == dir[..|dir| - k] + names[k..]
    decreases |names|
  {
    if names != [] {
      var n := |names| - 1;
      NormalWalk(dir, names[..n], if k > n then n else k);
      if k <= n { assert names[k..] == names[..n][k..] + [names[n]]; }
    }
  }

  /** Reduced lists that lead to the same place from everywhere are the same. */
  lemma {:induction false} NormalUnique(a: seq<Path>, b: seq<Path>, k: nat, l: nat)
    requires DotsThenNames(a, k) && DotsThenNames(b, l) && k <= l
    requires forall dir :: Walk(dir, a) == Walk(dir, b)
    ensures a == b
  {
    SameTail("x", a, b, k, l);
    SameTail("y", a, b, k, l);
  }

  /** From a directory of one name, repeated. */
  lemma {:induction false} SameTail(c: Path, a: seq<Path>, b: seq<Path>, k: nat, l: nat)
    requires DotsThenNames(a, k) && DotsThenNames(b, l) && k <= l
    requires forall dir :: Walk(dir, a) == Walk(dir, b)
    ensures k == l ==> a == b
    ensures k < l ==> l - k - 1 < |b| - l && b[l..][l - k - 1] == c
  {
    var dir: seq<Path> := seq(l + 1, _ => c);
    NormalWalk(dir, a, k);
    NormalWalk(dir, b, l);
    var up, down := dir[..l + 1 - k] + a[k..], dir[..1] + b[l..];
    assert up == down;
    if k < l {
      assert up[l - k] == c;
      assert down[l - k] == b[l..][l - k - 1];
    } else {
      assert a[k..] == up[1..] && b[l..] == down[1..];
      assert a == a[..k] + a[k..] && b == b[..l] + b[l..] && a[..k] == b[..l];
    }
  }

  /** Two paths have the same canonical form exactly if they lead to the same place from every directory. */
  lemma {:induction false} CanonicalIff(s: Path, t: Path)
    ensures Canonical(s) == Canonical(t) <==> IsAbsolute(s) == IsAbsolute(t) && forall dir :: Leads(dir, s) == Leads(dir, t)
  {
    forall dir
      ensures Leads(dir, Canonical(s)) == Leads(dir, s) && Leads(dir, Canonical(t)) == Leads(dir, t)
    {
      CanonicalLeadsThere(s, dir);
      CanonicalLeadsThere(t, dir);
    }
    CanonicalLeadsThere(s, []);
    CanonicalLeadsThere(t, []);
    if IsAbsolute(s) == IsAbsolute(t) && forall dir :: Leads(dir, s) == Leads(dir, t) { SamePlace(s, t); }
  }

  lemma {:induction false} SamePlace(s: Path, t: Path)
    requires IsAbsolute(s) == IsAbsolute(t) && forall dir :: Leads(dir, s) == Leads(dir, t)
    ensures Reduce(IsAbsolute(s), Components(s)) == Reduce(IsAbsolute(t), Components(t))
  {
    var absolute := IsAbsolute(s);
    var a, b := Reduce(absolute, Components(s)), Reduce(absolute, Components(t));
    ComponentsAreComponents(s);
    ComponentsAreComponents(t);
    ReduceIsNormal(absolute, Components(s));
    ReduceIsNormal(absolute, Components(t));
    var k := NormalSplits(absolute, a);
    var l := NormalSplits(absolute, b);
    forall dir: seq<Path>
      ensures absolute || Walk(dir, a) == Walk(dir, b)
    {
      if !absolute {
        ReduceWalks(dir, absolute, Components(s));
        ReduceWalks(dir, absolute, Components(t));
        assert Leads(dir, s) == Leads(dir, t);
      }
    }
    if absolute {
      ReduceWalks([], absolute, Components(s));
      ReduceWalks([], absolute, Components(t));
      assert Leads([], s) == Leads([], t);
      NormalWalk([], a, 0);
      NormalWalk([], b, 0);
      assert Walk([], a) == a && Walk([], b) == b;
    } else if k <= l {
      NormalUnique(a, b, k, l);
    } else {
      NormalUnique(b, a, l, k);
    }
  }

  /** What canonical paths look like: not empty, no two separators in a row, and none at the end but for the root. */
  lemma {:induction false} CanonicalShape(s: Path)
    ensures var t := Canonical(s);
            && t != [] && (t[|t| - 1] == SLASH ==> t == [SLASH])
            && forall i | 0 <= i < |t| - 1 :: t[i] == SLASH ==> t[i + 1] != SLASH
  {
    ComponentsAreComponents(s);
    ReduceIsNormal(IsAbsolute(s), Components(s));
    JoinedShape(IsAbsolute(s), Reduce(IsAbsolute(s), Components(s)));
  }

  lemma {:induction false} JoinedShape(absolute: bool, names: seq<Path>)
    requires forall i | 0 <= i < |names| :: IsComponent(names[i])
    ensures var t := Joined(absolute, names);
            && (t != [] && t[|t| - 1] == SLASH ==> t == [SLASH])
            && forall i | 0 <= i < |t| - 1 :: t[i] == SLASH ==> t[i + 1] != SLASH
    decreases |names|
  {
    if names != [] {
      var n := |names| - 1;
      JoinedShape(absolute, names[..n]);
      var t, front := Joined(absolute, names), Separated(Joined(absolute, names[..n]));
      assert IsComponent(names[n]) && t == front + names[n] && t[|front|..] == names[n];
      assert forall i | |front| <= i < |t| :: t[i] == t[|front|..][i - |front|];
      forall i | 0 <= i < |t| - 1 && t[i] == SLASH
        ensures t[i + 1] != SLASH
      {
        assert SLASH !in t[|front|..];
        assert i < |front|;
        if i + 1 >= |front| { assert t[i + 1] == names[n][i + 1 - |front|]; }
      }
      assert t[|t| - 1] == names[n][|names[n]| - 1];
    }
  }

  // ----- in place -----

  /** Where each name starts in the buffer. */
  ghost predicate MarksOk(absolute: bool, names: seq<Path>, marks: seq<nat>) {
    && |names| <= |marks|
    && forall j | 0 <= j < |names| :: marks[j] == |Separated(Joined(absolute, names[..j]))|
  }

  /** The buffer holds the reduction of what has been read, and no more of it than that. */
  ghost predicate Progress(s: Path, i: nat, text: Path, names: seq<Path>, marks: seq<nat>) {
    && i <= |s| && names == Reduce(IsAbsolute(s), Components(s[..i]))
    && text == Joined(IsAbsolute(s), names) && MarksOk(IsAbsolute(s), names, marks)
    && |text| <= i
    && (i < |s| && s[i] != SLASH ==> text == [] || text[|text| - 1] == SLASH)
    && (i < |s| && s[i] != SLASH ==> i == 0 || s[i - 1] == SLASH)
    && forall k | 0 <= k < |names| :: IsComponent(names[k])
  }

  /** The last name in the buffer. */
  lemma {:induction false} LastName(absolute: bool, names: seq<Path>, text: Path, marks: seq<nat>)
    requires names != [] && text == Joined(absolute, names) && MarksOk(absolute, names, marks)
    ensures var m := marks[|names| - 1];
            m <= |text| && text[m..] == names[|names| - 1] && text[..m] == Separated(Joined(absolute, names[..|names| - 1]))
  {
    var n := |names| - 1;
    assert marks[n] == |Separated(Joined(absolute, names[..n]))|;
  }

  lemma {:induction false} MarksLess(absolute: bool, names: seq<Path>, marks: seq<nat>)
    requires names != [] && MarksOk(absolute, names, marks)
    ensures MarksOk(absolute, names[..|names| - 1], marks)
  {
    var less := names[..|names| - 1];
    forall j | 0 <= j < |less|
      ensures marks[j] == |Separated(Joined(absolute, less[..j]))|
    {
      assert less[..j] == names[..j];
    }
  }

  lemma {:induction false} MarksMore(absolute: bool, names: seq<Path>, marks: seq<nat>, w: Path)
    requires MarksOk(absolute, names, marks) && |names| < |marks|
    ensures MarksOk(absolute, names + [w], marks[|names| := |Separated(Joined(absolute, names))|])
  {
    var more, marks' := names + [w], marks[|names| := |Separated(Joined(absolute, names))|];
    forall j | 0 <= j < |more|
      ensures marks'[j] == |Separated(Joined(absolute, more[..j]))|
    {
      if j < |names| { assert more[..j] == names[..j]; } else { assert more[..j] == names; }
    }
  }

  /** At most every other byte starts a name. */
  lemma {:induction false} NamesFit(absolute: bool, names: seq<Path>)
    requires forall k | 0 <= k < |names| :: IsComponent(names[k])
    ensures |names| <= |Joined(absolute, names)|
    decreases |names|
  {
    if names != [] { NamesFit(absolute, names[..|names| - 1]); }
  }

  /** Reading from a separator to the end of the next component. */
  lemma {:induction false} ReadComponent(s: Path, start: nat, end: nat)
    requires start < end <= |s| && SLASH !in s[start..end] && (start == 0 || s[start - 1] == SLASH)
    ensures Components(s[..end]) == Components(s[..start]) + [s[start..end]]
    ensures Reduce(IsAbsolute(s), Components(s[..end]))
         == Push(IsAbsolute(s), Reduce(IsAbsolute(s), Components(s[..start])), s[start..end])
  {
    CurrentEmpty(s[..start]);
    ComponentAppends(s[..start], s[start..end]);
    assert s[..end] == s[..start] + s[start..end];
    var ws := Components(s[..start]) + [s[start..end]];
    assert ws[..|ws| - 1] == Components(s[..start]);
  }

  /** Goes past separators. */
  method SkipSlashes(s: Path, from: nat) returns (i: nat)
    requires from <= |s|
    ensures from <= i <= |s| && (i < |s| ==> s[i] != SLASH) && (i > from ==> s[i - 1] == SLASH)
    ensures Components(s[..i]) == Components(s[..from])
    ensures from < |s| ==> (s[from] == SLASH <==> from < i)
  {
    i := from;
    while i < |s| && s[i] == SLASH
      invariant from <= i <= |s| && (i > from ==> s[i - 1] == SLASH && s[from] == SLASH)
      invariant Components(s[..i]) == Components(s[..from])
      decreases |s| - i
    {
      SlashEndsWord(s[..i]);
      assert s[..i + 1] == s[..i] + [SLASH];
      i := i + 1;
    }
  }

  /** Goes to the end of a component. */
  method FindEnd(s: Path, start: nat) returns (i: nat)
    requires start < |s| && s[start] != SLASH
    ensures start < i <= |s| && SLASH !in s[start..i] && (i < |s| ==> s[i] == SLASH)
  {
    i := start;
    while i < |s| && s[i] != SLASH
      invariant start <= i <= |s| && SLASH !in s[start..i]
      decreases |s| - i
    {
      assert s[start..i + 1] == s[start..i] + [s[i]];
      i := i + 1;
    }
  }

  /** Writes a separator if one is needed, notes where the name starts, and copies it. */
  method AppendName(result: array<char>, marks: array<nat>, used: nat, depth: nat, s: Path, start: nat, end: nat,
                    ghost absolute: bool, ghost names: seq<Path>)
      returns (used': nat)
    requires result.Length == marks.Length == |s| + 2 && start < end <= |s| && depth == |names|
    requires used <= start && result[..used] == Joined(absolute, names) && MarksOk(absolute, names, marks[..])
    requires used == 0 || result[used - 1] == SLASH || used < start
    requires depth <= used
    modifies result, marks
    ensures used' <= end && result[..used'] == Joined(absolute, names + [s[start..end]])
    ensures MarksOk(absolute, names + [s[start..end]], marks[..])
  {
    ghost var front := Joined(absolute, names);
    used' := AppendSeparator(result, used);
    assert result[..used'] == Separated(front);
    ghost var was := marks[..];
    marks[depth] := used';
    assert marks[..] == was[depth := used'];
    MarksMore(absolute, names, was, s[start..end]);
    CopyName(result, used', s, start, end);
    used' := used' + (end - start);
    assert (names + [s[start..end]])[..|names|] == names;
  }

  /** Writes a separator behind what is there, unless that is empty or ends with one. */
  method AppendSeparator(result: array<char>, used: nat) returns (used': nat)
    requires used < result.Length
    modifies result
    ensures used <= used' <= used + 1 && result[..used'] == Separated(old(result[..used]))
    ensures used == 0 || old(result[used - 1]) == SLASH ==> used' == used
  {
    used' := used;
    if used' != 0 && result[used' - 1] != SLASH {
      result[used'] := SLASH;
      used' := used' + 1;
    }
  }

  method CopyName(result: array<char>, at: nat, s: Path, start: nat, end: nat)
    requires start <= end <= |s| && at + (end - start) <= result.Length
    modifies result
    ensures result[..at + (end - start)] == old(result[..at]) + s[start..end]
  {
    for k := start to end
      invariant result[..at + (k - start)] == old(result[..at]) + s[start..k]
    {
      result[at + (k - start)] := s[k];
      assert s[start..k + 1] == s[start..k] + [s[k]];
    }
  }

  /** Takes back the last name and the separator before it. */
  method DropName(result: array<char>, marks: array<nat>, used: nat, depth: nat, rootLength: nat,
                  ghost absolute: bool, ghost names: seq<Path>)
      returns (used': nat)
    requires names != [] && depth == |names| && depth <= marks.Length && used <= result.Length
    requires result[..used] == Joined(absolute, names) && MarksOk(absolute, names, marks[..])
    requires rootLength == (if absolute then 1 else 0) && forall k | 0 <= k < |names| :: IsComponent(names[k])
    ensures used' <= used && result[..used'] == Joined(absolute, names[..|names| - 1])
    ensures MarksOk(absolute, names[..|names| - 1], marks[..])
  {
    ghost var text := result[..used];
    WithoutLast(absolute, names, text, marks[..], rootLength);
    used' := marks[depth - 1];
    if used' > rootLength && result[used' - 1] == SLASH { used' := used' - 1; }
    assert result[..used'] == text[..used'];
  }

  /** The text without its last name. */
  lemma {:induction false} WithoutLast(absolute: bool, names: seq<Path>, text: Path, marks: seq<nat>, rootLength: nat)
    requires names != [] && text == Joined(absolute, names) && MarksOk(absolute, names, marks)
    requires rootLength == (if absolute then 1 else 0) && forall k | 0 <= k < |names| :: IsComponent(names[k])
    ensures MarksOk(absolute, names[..|names| - 1], marks)
    ensures var m := marks[|names| - 1];
            && m <= |text|
            && var used := if m > rootLength && text[m - 1] == SLASH then m as int - 1 else m;
               0 <= used && text[..used] == Joined(absolute, names[..|names| - 1])
  {
    var n := |names| - 1;
    LastName(absolute, names, text, marks);
    MarksLess(absolute, names, marks);
    JoinedEnd(absolute, names[..n]);
    SeparatorCut(text, marks[n], rootLength, Joined(absolute, names[..n]));
  }

  lemma {:induction false} SeparatorCut(text: Path, m: nat, rootLength: nat, front: Path)
    requires m <= |text| && text[..m] == Separated(front)
    requires if |front| <= rootLength then |front| == rootLength && (front == [] || front == [SLASH]) else front[|front| - 1] != SLASH
    ensures var used := if m > rootLength && text[m - 1] == SLASH then m as int - 1 else m;
            0 <= used && text[..used] == front
  {
    if m > 0 { assert text[..m][m - 1] == text[m - 1]; }
    if front != [] && front[|front| - 1] != SLASH {
      assert text[..m][..m - 1] == text[..m - 1];
    }
  }

  /** Only the bare root ends with a separator. */
  lemma {:induction false} JoinedEnd(absolute: bool, names: seq<Path>)
    requires forall k | 0 <= k < |names| :: IsComponent(names[k])
    ensures var s := Joined(absolute, names);
            if names == [] then s == (if absolute then [SLASH] else []) else |s| > 1 - (if absolute then 0 else 1) && s[|s| - 1] != SLASH
  {
    if names != [] {
      var n := |names| - 1;
      assert IsComponent(names[n]);
      assert Joined(absolute, names)[|Joined(absolute, names)| - 1] == names[n][|names[n]| - 1];
      if absolute && n > 0 { JoinedEnd(absolute, names[..n]); }
    }
  }

  /** The components that are no names. */
  lemma {:induction false} ComponentIs(s: Path, start: nat, end: nat)
    requires start < end <= |s|
    ensures s[start..end] == DOT <==> end - start == 1 && s[start] == '.'
    ensures s[start..end] == DOTS <==> end - start == 2 && s[start] == '.' && s[start + 1] == '.'
  {
    var w := s[start..end];
    assert w[0] == s[start] && (|w| > 1 ==> w[1] == s[start + 1]);
    if |w| == 1 && w[0] == '.' { assert w == DOT; }
    if |w| == 2 && w[0] == '.' && w[1] == '.' { assert w == DOTS; }
  }

  lemma {:induction false} PushComponents(absolute: bool, names: seq<Path>, w: Path)
    requires w != [] && SLASH !in w && forall k | 0 <= k < |names| :: IsComponent(names[k])
    ensures forall k | 0 <= k < |Push(absolute, names, w)| :: IsComponent(Push(absolute, names, w)[k])
  {
  }

  /** One component: dropped, taken as a step back, or written. */
  method TakeComponent(result: array<char>, marks: array<nat>, used: nat, depth: nat, s: Path, start: nat, end: nat,
                       absolute: bool, ghost names: seq<Path>)
      returns (used': nat, depth': nat, ghost names': seq<Path>)
    requires result.Length == marks.Length == |s| + 2 && start < end <= |s| && SLASH !in s[start..end]
    requires depth == |names| <= used <= start
    requires result[..used] == Joined(absolute, names) && MarksOk(absolute, names, marks[..])
    requires used == 0 || result[used - 1] == SLASH || used < start
    requires forall k | 0 <= k < |names| :: IsComponent(names[k])
    modifies result, marks
    ensures names' == Push(absolute, names, s[start..end]) && depth' == |names'| && used' <= end
    ensures result[..used'] == Joined(absolute, names') && MarksOk(absolute, names', marks[..])
    ensures forall k | 0 <= k < |names'| :: IsComponent(names'[k])
  {
    used', depth', names' := used, depth, names;
    var length := end - start;
    ghost var w := s[start..end];
    ComponentIs(s, start, end);
    PushComponents(absolute, names, w);
    if length == 1 && s[start] == '.' { return; }
    var parent := length == 2 && s[start] == '.' && s[start + 1] == '.';
    if parent && depth != 0 {
      var dots := LastIsDots(result, marks, used, depth, absolute, names);
      if !dots {
        used' := DropName(result, marks, used, depth, if absolute then 1 else 0, absolute, names);
        depth', names' := depth - 1, names[..depth - 1];
        return;
      }
    }
    if parent && absolute { return; }
    used' := AppendName(result, marks, used, depth, s, start, end, absolute, names);
    depth', names' := depth + 1, names + [w];
  }

  /** Whether the last name in the buffer is `..`. */
  method LastIsDots(result: array<char>, marks: array<nat>, used: nat, depth: nat, ghost absolute: bool, ghost names: seq<Path>)
      returns (dots: bool)
    requires names != [] && depth == |names| && depth <= marks.Length && used <= result.Length
    requires result[..used] == Joined(absolute, names) && MarksOk(absolute, names, marks[..])
    ensures dots <==> names[depth - 1] == DOTS
  {
    LastName(absolute, names, result[..used], marks[..]);
    var previous := marks[depth - 1];
    EndsInDots(result[..used], previous, names[depth - 1]);
    dots := used - previous == 2 && result[previous] == '.' && result[previous + 1] == '.';
  }

  lemma {:induction false} EndsInDots(text: Path, at: nat, last: Path)
    requires at <= |text| && text[at..] == last
    ensures last == DOTS <==> |text| == at + 2 && text[at] == '.' && text[at + 1] == '.'
  {
    if |text| == at + 2 && text[at] == '.' && text[at + 1] == '.' { assert text[at..] == DOTS; }
  }

  /** What holds in front of a component. */
  lemma {:induction false} AtComponent(s: Path, i: nat, start: nat, text: Path, names: seq<Path>, marks: seq<nat>)
    requires Progress(s, i, text, names, marks) && i < |s| && i <= start < |s| && s[start] != SLASH
    requires (start > i ==> s[start - 1] == SLASH) && (s[i] == SLASH ==> i < start) && (s[i] != SLASH ==> i == start)
    requires Components(s[..start]) == Components(s[..i])
    ensures |names| <= |text| <= start && (start == 0 || s[start - 1] == SLASH)
    ensures text == [] || text[|text| - 1] == SLASH || |text| < start
    ensures names == Reduce(IsAbsolute(s), Components(s[..start]))
  {
    NamesFit(IsAbsolute(s), names);
  }

  lemma {:induction false} AfterComponent(s: Path, start: nat, end: nat, text: Path, names: seq<Path>, names': seq<Path>, marks: seq<nat>)
    requires start < end <= |s| && SLASH !in s[start..end] && (start == 0 || s[start - 1] == SLASH)
    requires names == Reduce(IsAbsolute(s), Components(s[..start])) && names' == Push(IsAbsolute(s), names, s[start..end])
    requires text == Joined(IsAbsolute(s), names') && MarksOk(IsAbsolute(s), names', marks) && |text| <= end
    requires (end < |s| ==> s[end] == SLASH) && forall k | 0 <= k < |names'| :: IsComponent(names'[k])
    ensures Progress(s, end, text, names', marks)
  {
    ReadComponent(s, start, end);
  }

  /** The state before the first component. */
  lemma {:induction false} StartProgress(s: Path, i: nat, text: Path, marks: seq<nat>)
    requires i <= |s| && text == (if IsAbsolute(s) then [SLASH] else []) && |text| <= i
    requires Components(s[..i]) == [] && (i < |s| && s[i] != SLASH ==> i == 0 || s[i - 1] == SLASH)
    ensures Progress(s, i, text, [], marks)
  {
  }

  /** Component after component. */
  method ScanComponents(result: array<char>, marks: array<nat>, s: Path, absolute: bool, used0: nat, i0: nat) returns (used: nat)
    requires result.Length == marks.Length == |s| + 2 && absolute == IsAbsolute(s) && used0 <= i0 <= |s|
    requires Progress(s, i0, result[..used0], [], marks[..])
    modifies result, marks
    ensures used <= |s| && result[..used] == Joined(absolute, Reduce(absolute, Components(s)))
  {
    used := used0;
    var depth: nat, i: nat := 0, i0;
    ghost var names: seq<Path> := [];
    while i < |s|
      invariant i <= |s| && used <= i && depth == |names|
      invariant Progress(s, i, result[..used], names, marks[..])
      decreases |s| - i
    {
      var start := SkipSlashes(s, i);
      if start >= |s| {
        assert s[..start] == s;
        return;
      }
      AtComponent(s, i, start, result[..used], names, marks[..]);
      ghost var before := names;
      i := FindEnd(s, start);
      used, depth, names := TakeComponent(result, marks, used, depth, s, start, i, absolute, names);
      AfterComponent(s, start, i, result[..used], before, names, marks[..]);
    }
    assert s[..i] == s;
  }

  /** The canonical form, written into a buffer two bytes longer than the path, with its terminator. */
  method DataLexicalPath(s: Path) returns (result: array<char>, length: nat)
    ensures fresh(result) && result.Length == |s| + 2 && length < result.Length
    ensures result[..length] == Canonical(s) && result[length] == '\0'
    ensures length <= |s| + 1
    ensures IsAbsolute(result[..length]) == IsAbsolute(s) && forall dir :: Leads(dir, result[..length]) == Leads(dir, s)
  {
    var n := |s|;
    result := new char[n + 2](_ => '\0');
    var marks := new nat[n + 2](_ => 0);
    var used: nat, i: nat := 0, 0;
    var absolute := n != 0 && s[0] == SLASH;
    assert s[..0] == [];
    if absolute {
      result[0] := SLASH;
      used := 1;
      i := SkipSlashes(s, 0);
    }
    assert result[..used] == if absolute then [SLASH] else [];
    StartProgress(s, i, result[..used], marks[..]);
    used := ScanComponents(result, marks, s, absolute, used, i);
    length := Finish(result, s, absolute, used);
    CanonicalIff(result[..length], s);
    CanonicalIdempotent(s);
  }

  lemma {:induction false} RootStays(s: Path)
    requires IsAbsolute(s)
    ensures Joined(true, Reduce(true, Components(s))) != []
  {
    ComponentsAreComponents(s);
    ReduceIsNormal(true, Components(s));
    JoinedAbsolute(true, Reduce(true, Components(s)));
  }

  /** An empty result becomes a dot; the terminator follows. */
  method Finish(result: array<char>, s: Path, absolute: bool, used: nat) returns (length: nat)
    requires result.Length == |s| + 2 && used <= |s| && absolute == IsAbsolute(s)
    requires result[..used] == Joined(absolute, Reduce(absolute, Components(s)))
    modifies result
    ensures length <= |s| + 1 && result[..length] == Canonical(s) && result[length] == '\0'
  {
    ghost var text := result[..used];
    length := used;
    if used == 0 {
      if absolute { RootStays(s); }
      result[0] := if absolute then SLASH else '.';
      length := 1;
      assert result[..1] == DOT;
    }
    result[length] := '\0';
    assert result[..length] == if used == 0 then DOT else text;
  }
}
