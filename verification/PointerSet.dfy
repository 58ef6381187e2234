/** A growing open-addressing hash set of pointers, proved to be a set for every hash function. */
module PointerSet {
  import opened Arithmetic

  /** An empty slot or a pointer. */
  datatype Slot = Empty | Full(pointer: nat)

  function Probe(h: nat, d: nat, capacity: nat): nat
    requires capacity > 0
  {
    (h + d) % capacity
  }

  lemma {:induction false} ProbeNext(h: nat, d: nat, capacity: nat)
    requires capacity > 0
    ensures Probe(h, d, capacity) < capacity
    ensures Probe(h, d + 1, capacity) == (Probe(h, d, capacity) + 1) % capacity
  {
    ModSum(h + d, 1, capacity);
  }

  lemma {:induction false} ModSum(a: nat, b: nat, m: nat)
    requires m > 0
    ensures (a % m + b) % m == (a + b) % m
  {
    var p, q := a / m, (a % m + b) / m;
    assert a == p * m + a % m && a % m + b == q * m + (a % m + b) % m;
    assert a + b == (p + q) * m + (a % m + b) % m;
    Distribute(p, q, m);
    QuotientUnique(a + b, p + q, (a % m + b) % m, m);
  }

  /** Probing from anywhere gets to every slot. */
  lemma {:induction false} ProbeReaches(h: nat, slot: nat, capacity: nat) returns (d: nat)
    requires slot < capacity
    ensures d < capacity && Probe(h, d, capacity) == slot
  {
    var start := h % capacity;
    d := if slot >= start then slot - start else slot + capacity - start;
    ModSum(h, d, capacity);
    QuotientUnique(start + d, if slot >= start then 0 else 1, slot, capacity);
  }

  // ----- masks -----

  predicate PowerOfTwo(n: nat) { n == 1 || (n > 0 && n % 2 == 0 && PowerOfTwo(n / 2)) }

  /** The bits that both numbers have. */
  function BitAnd(a: nat, b: nat): nat
    decreases b
  {
    if b == 0 then 0 else 2 * BitAnd(a / 2, b / 2) + (a % 2) * (b % 2)
  }

  /** Masking with a power of two less one takes the remainder. */
  lemma {:induction false} MaskIsRemainder(h: nat, capacity: nat)
    requires PowerOfTwo(capacity)
    ensures BitAnd(h, capacity - 1) == h % capacity
    decreases capacity
  {
    if capacity > 1 {
      var half := capacity / 2;
      MaskIsRemainder(h / 2, half);
      HalfRemainder(h, half);
      assert (capacity - 1) / 2 == half - 1 && (capacity - 1) % 2 == 1;
    }
  }

  lemma {:induction false} HalfRemainder(h: nat, half: nat)
    requires half > 0
    ensures h % (2 * half) == 2 * ((h / 2) % half) + h % 2
  {
    var q, r := (h / 2) / half, (h / 2) % half;
    assert h / 2 == q * half + r;
    assert h == 2 * (h / 2) + h % 2;
    TwiceProduct(q, half);
    QuotientUnique(h, q, 2 * r + h % 2, 2 * half);
  }

  lemma {:induction false} TwiceProduct(q: nat, half: nat)
    ensures q * (2 * half) == 2 * (q * half)
  {
  }

  /** The masks that the code applies take it from slot to slot. */
  lemma {:induction false} MaskedProbe(h: nat, d: nat, slot: nat, capacity: nat)
    requires PowerOfTwo(capacity) && slot == Probe(h, d, capacity)
    ensures BitAnd(h, capacity - 1) == Probe(h, 0, capacity)
    ensures BitAnd(slot + 1, capacity - 1) == Probe(h, d + 1, capacity) < capacity
  {
    MaskIsRemainder(h, capacity);
    MaskIsRemainder(slot + 1, capacity);
    ProbeNext(h, d, capacity);
    ProbeNext(h, d + 1, capacity);
  }

  // ----- tables -----

  ghost function Elements(slots: seq<Slot>): set<nat> {
    set i | 0 <= i < |slots| && slots[i].Full? :: slots[i].pointer
  }

  function Occupied(slots: seq<Slot>): nat {
    if slots == [] then 0 else Occupied(slots[..|slots| - 1]) + if slots[|slots| - 1].Full? then 1 else 0
  }

  lemma {:induction false} OccupiedUpdate(slots: seq<Slot>, i: nat, x: nat)
    requires i < |slots| && slots[i].Empty?
    ensures Occupied(slots[i := Full(x)]) == Occupied(slots) + 1
    decreases |slots|
  {
    var n := |slots| - 1;
    if i == n {
      assert slots[i := Full(x)][..n] == slots[..n];
    } else {
      assert slots[i := Full(x)][..n] == slots[..n][i := Full(x)];
      OccupiedUpdate(slots[..n], i, x);
    }
  }

  /** With fewer pointers than slots there is an empty slot. */
  lemma {:induction false} EmptySlot(slots: seq<Slot>) returns (i: nat)
    requires Occupied(slots) < |slots|
    ensures i < |slots| && slots[i].Empty?
    decreases |slots|
  {
    var n := |slots| - 1;
    if slots[n].Empty? {
      i := n;
    } else {
      i := EmptySlot(slots[..n]);
    }
  }

  lemma {:induction false} NoneOccupied(slots: seq<Slot>)
    requires forall i | 0 <= i < |slots| :: slots[i].Empty?
    ensures Occupied(slots) == 0 && Elements(slots) == {}
    decreases |slots|
  {
    if slots != [] { NoneOccupied(slots[..|slots| - 1]); }
  }

  /** No empty slot on the way from the hash of x to d further. */
  ghost predicate FullUpTo(slots: seq<Slot>, h: nat, d: nat) {
    forall e | 0 <= e < d :: FullAt(slots, h, e)
  }

  ghost predicate FullAt(slots: seq<Slot>, h: nat, e: nat) {
    slots != [] ==> slots[Probe(h, e, |slots|)].Full?
  }

  /** The pointer in slot i can be found from its hash. */
  ghost predicate Findable(slots: seq<Slot>, hash: nat -> nat, i: nat)
    requires i < |slots|
  {
    slots[i].Full? ==>
      exists d :: 0 <= d < |slots| && Probe(hash(slots[i].pointer), d, |slots|) == i
               && FullUpTo(slots, hash(slots[i].pointer), d)
  }

  ghost predicate AllFindable(slots: seq<Slot>, hash: nat -> nat) {
    forall i | 0 <= i < |slots| :: Findable(slots, hash, i)
  }

  lemma {:induction false} FillKeepsFull(slots: seq<Slot>, slot: nat, x: nat, h: nat, d: nat)
    requires slot < |slots| && FullUpTo(slots, h, d)
    ensures FullUpTo(slots[slot := Full(x)], h, d)
  {
    var slots' := slots[slot := Full(x)];
    forall e | 0 <= e < d
      ensures FullAt(slots', h, e)
    {
      assert FullAt(slots, h, e);
    }
  }

  /** Filling a slot keeps everything findable. */
  lemma {:induction false} FillKeepsFindable(slots: seq<Slot>, hash: nat -> nat, x: nat, d: nat)
    requires slots != [] && AllFindable(slots, hash) && d < |slots|
    requires slots[Probe(hash(x), d, |slots|)].Empty? && FullUpTo(slots, hash(x), d)
    ensures AllFindable(slots[Probe(hash(x), d, |slots|) := Full(x)], hash)
    ensures Elements(slots[Probe(hash(x), d, |slots|) := Full(x)]) == Elements(slots) + {x}
  {
    var slot := Probe(hash(x), d, |slots|);
    var slots' := slots[slot := Full(x)];
    forall i | 0 <= i < |slots'|
      ensures Findable(slots', hash, i)
    {
      if i == slot {
        FillKeepsFull(slots, slot, x, hash(x), d);
      } else if slots'[i].Full? {
        assert Findable(slots, hash, i);
        var h := hash(slots[i].pointer);
        var e :| 0 <= e < |slots| && Probe(h, e, |slots|) == i && FullUpTo(slots, h, e);
        FillKeepsFull(slots, slot, x, h, e);
      }
    }
    ElementsUpdate(slots, slot, x);
  }

  lemma {:induction false} ElementsUpdate(slots: seq<Slot>, slot: nat, x: nat)
    requires slot < |slots| && slots[slot].Empty?
    ensures Elements(slots[slot := Full(x)]) == Elements(slots) + {x}
  {
    var slots' := slots[slot := Full(x)];
    forall y
      ensures y in Elements(slots') <==> y in Elements(slots) + {x}
    {
      if y in Elements(slots) {
        var i :| 0 <= i < |slots| && slots[i].Full? && slots[i].pointer == y;
        assert slots'[i] == Full(y);
      }
      if y == x { assert slots'[slot] == Full(x); }
    }
  }

  /** An empty slot on the way shows that x is not there. */
  lemma {:induction false} NotThere(slots: seq<Slot>, hash: nat -> nat, x: nat, d: nat)
    requires slots != [] && AllFindable(slots, hash)
    requires slots[Probe(hash(x), d, |slots|)].Empty?
    requires forall e | 0 <= e < d :: slots[Probe(hash(x), e, |slots|)] != Full(x)
    ensures x !in Elements(slots)
  {
    assert !FullAt(slots, hash(x), d);
    forall i | 0 <= i < |slots|
      ensures slots[i] != Full(x)
    {
      assert Findable(slots, hash, i);
    }
  }

  /** Probing meets an empty slot before it has gone round. */
  lemma {:induction false} ProbeStops(slots: seq<Slot>, h: nat, d: nat)
    requires Occupied(slots) < |slots| && FullUpTo(slots, h, d)
    ensures d < |slots|
  {
    var empty := EmptySlot(slots);
    var e := ProbeReaches(h, empty, |slots|);
    assert e < d ==> FullAt(slots, h, e);
  }

  /** Finds the empty slot at which probing for x ends. */
  method FindEmpty(slots: array<Slot>, hash: nat -> nat, x: nat) returns (slot: nat, ghost d: nat)
    requires Occupied(slots[..]) < slots.Length && PowerOfTwo(slots.Length)
    ensures slot < slots.Length && slots[slot].Empty?
    ensures d < slots.Length && slot == Probe(hash(x), d, slots.Length) && FullUpTo(slots[..], hash(x), d)
  {
    MaskedProbe(hash(x), 0, Probe(hash(x), 0, slots.Length), slots.Length);
    slot, d := BitAnd(hash(x), slots.Length - 1), 0;
    while slots[slot].Full?
      invariant slot < slots.Length && slot == Probe(hash(x), d, slots.Length) && FullUpTo(slots[..], hash(x), d)
      decreases slots.Length - d
    {
      assert FullUpTo(slots[..], hash(x), d + 1);
      ProbeStops(slots[..], hash(x), d + 1);
      MaskedProbe(hash(x), d, slot, slots.Length);
      slot := BitAnd(slot + 1, slots.Length - 1);
      d := d + 1;
    }
    ProbeStops(slots[..], hash(x), d);
  }

  /** Looks for x: where it is, or the empty slot at which probing for it ends. */
  method Locate(slots: array<Slot>, hash: nat -> nat, x: nat) returns (found: bool, slot: nat, ghost d: nat)
    requires Occupied(slots[..]) < slots.Length && PowerOfTwo(slots.Length) && AllFindable(slots[..], hash)
    ensures found <==> x in Elements(slots[..])
    ensures slot < slots.Length && (if found then slots[slot] == Full(x) else slots[slot].Empty?)
    ensures d < slots.Length && slot == Probe(hash(x), d, slots.Length) && FullUpTo(slots[..], hash(x), d)
  {
    MaskedProbe(hash(x), 0, Probe(hash(x), 0, slots.Length), slots.Length);
    slot, d := BitAnd(hash(x), slots.Length - 1), 0;
    while slots[slot].Full?
      invariant slot < slots.Length && slot == Probe(hash(x), d, slots.Length) && FullUpTo(slots[..], hash(x), d)
      invariant forall e | 0 <= e < d :: slots[..][Probe(hash(x), e, slots.Length)] != Full(x)
      decreases slots.Length - d
    {
      if slots[slot].pointer == x {
        assert slots[..][slot] == Full(x);
        ProbeStops(slots[..], hash(x), d);
        return true, slot, d;
      }
      assert FullUpTo(slots[..], hash(x), d + 1);
      ProbeStops(slots[..], hash(x), d + 1);
      MaskedProbe(hash(x), d, slot, slots.Length);
      slot := BitAnd(slot + 1, slots.Length - 1);
      d := d + 1;
    }
    ProbeStops(slots[..], hash(x), d);
    NotThere(slots[..], hash, x, d);
    found := false;
  }

  /** Puts a pointer that is not there into its slot. */
  method Fill(slots: array<Slot>, hash: nat -> nat, x: nat, slot: nat, ghost d: nat)
    requires AllFindable(slots[..], hash) && slot < slots.Length && slots[slot].Empty?
    requires d < slots.Length && slot == Probe(hash(x), d, slots.Length) && FullUpTo(slots[..], hash(x), d)
    modifies slots
    ensures AllFindable(slots[..], hash) && Occupied(slots[..]) == old(Occupied(slots[..])) + 1
    ensures Elements(slots[..]) == old(Elements(slots[..])) + {x}
  {
    ghost var was := slots[..];
    FillKeepsFindable(was, hash, x, d);
    OccupiedUpdate(was, slot, x);
    slots[slot] := Full(x);
    assert slots[..] == was[slot := Full(x)];
  }

  /** Puts the pointers of one table into an empty larger one. */
  method Rehash(table: array<Slot>, larger: array<Slot>, hash: nat -> nat)
    requires table != larger && table.Length < larger.Length && PowerOfTwo(larger.Length)
    requires forall i | 0 <= i < larger.Length :: larger[i].Empty?
    modifies larger
    ensures AllFindable(larger[..], hash) && Occupied(larger[..]) == Occupied(table[..])
    ensures Elements(larger[..]) == Elements(table[..])
  {
    NoneOccupied(larger[..]);
    ghost var all := table[..];
    for i := 0 to table.Length
      invariant table[..] == all && AllFindable(larger[..], hash)
      invariant Occupied(larger[..]) == Occupied(all[..i]) <= i && Elements(larger[..]) == Elements(all[..i])
    {
      assert all[..i + 1] == all[..i] + [all[i]];
      MoreElements(all[..i], all[i]);
      assert all[i] == table[i];
      if table[i].Full? {
        var slot;
        ghost var d;
        slot, d := FindEmpty(larger, hash, table[i].pointer);
        Fill(larger, hash, table[i].pointer, slot, d);
      }
    }
    assert all[..table.Length] == all;
  }

  class Pointers {
    const hash: nat -> nat
    var slots: array<Slot>
    var length: nat

    ghost predicate Valid()
      reads this, slots
    {
      && length == Occupied(slots[..]) && AllFindable(slots[..], hash)
      && (slots.Length == 0 || (slots.Length >= 16 && PowerOfTwo(slots.Length) && length <= slots.Length / 2))
    }

    ghost function Contents(): set<nat>
      reads this, slots
    {
      Elements(slots[..])
    }

    constructor (hash: nat -> nat)
      ensures Valid() && Contents() == {} && fresh(slots) && this.hash == hash
    {
      this.hash := hash;
      slots := new Slot[0];
      length := 0;
    }

    /** Doubles the table and puts every pointer where probing will find it. */
    method Grow()
      requires Valid()
      modifies this
      ensures fresh(slots) && slots.Length == (if old(slots.Length) == 0 then 16 else 2 * old(slots.Length))
      ensures PowerOfTwo(slots.Length)
      ensures length == old(length) == Occupied(slots[..]) && AllFindable(slots[..], hash)
      ensures Contents() == old(Contents())
    {
      var table := slots;
      var capacity := if table.Length == 0 then 16 else table.Length * 2;
      assert PowerOfTwo(16) && (table.Length > 0 ==> 2 * table.Length / 2 == table.Length);
      var larger := new Slot[capacity](_ => Empty);
      Rehash(table, larger, hash);
      slots := larger;
    }

    /** Adds x; tells whether it was new. */
    method Insert(x: nat) returns (inserted: bool)
      requires Valid()
      modifies this, slots
      ensures Valid() && (slots == old(slots) || fresh(slots))
      ensures inserted <==> x !in old(Contents())
      ensures Contents() == old(Contents()) + {x}
    {
      if slots.Length == 0 || length >= slots.Length / 2 { Grow(); }
      var found, slot;
      ghost var d;
      found, slot, d := Locate(slots, hash, x);
      if found { return false; }
      Fill(slots, hash, x, slot, d);
      length := length + 1;
      inserted := true;
    }
  }

  lemma {:induction false} MoreElements(slots: seq<Slot>, s: Slot)
    ensures Elements(slots + [s]) == Elements(slots) + (if s.Full? then {s.pointer} else {})
    ensures Occupied(slots + [s]) == Occupied(slots) + (if s.Full? then 1 else 0)
  {
    var more := slots + [s];
    assert more[..|slots|] == slots;
    forall y
      ensures y in Elements(more) <==> y in Elements(slots) || (s.Full? && y == s.pointer)
    {
      if y in Elements(slots) {
        var i :| 0 <= i < |slots| && slots[i].Full? && slots[i].pointer == y;
        assert more[i] == Full(y);
      }
      if s.Full? && y == s.pointer { assert more[|slots|] == Full(y); }
    }
  }
}
