/** Bytes and little-endian numbers. */
module Words {

  type Byte = x: int | 0 <= x < 256
  type Word16 = x: int | 0 <= x < 0x1_0000
  type Word32 = x: int | 0 <= x < 0x1_0000_0000

  /** The i-th byte of a number, counted from the lowest. */
  function Digit(n: nat, i: nat): Byte
    decreases i
  {
    if i == 0 then n % 256 else Digit(n / 256, i - 1)
  }

  /** The k lowest bytes of a number, lowest first. */
  function LittleEndian(k: nat, n: nat): (s: seq<Byte>)
    ensures |s| == k
  {
    seq(k, i requires 0 <= i < k => Digit(n, i))
  }

  lemma {:induction false} LowestFirst(k: nat, n: nat)
    requires k > 0
    ensures LittleEndian(k, n) == [n % 256] + LittleEndian(k - 1, n / 256)
  {
  }

  function ReadAt(b: seq<Byte>, o: nat, k: nat): nat
    requires o + k <= |b|
    decreases k
  {
    if k == 0 then 0 else (b[o] as int) + 256 * ReadAt(b, o + 1, k - 1)
  }

  function Power256(k: nat): nat { if k == 0 then 1 else 256 * Power256(k - 1) }

  lemma {:induction false} LowByte(a: Byte, k: nat)
    ensures ((a as int) + 256 * k) % 256 == a && ((a as int) + 256 * k) / 256 == k
  {
  }

  /** Reading gives the number whose bytes are there. */
  lemma {:induction false} ReadIs(b: seq<Byte>, o: nat, k: nat, n: nat)
    requires o + k <= |b| && n < Power256(k)
    ensures ReadAt(b, o, k) == n <==> b[o..o + k] == LittleEndian(k, n)
    decreases k
  {
    if k > 0 {
      assert n / 256 < Power256(k - 1);
      ReadIs(b, o + 1, k - 1, n / 256);
      assert b[o..o + k] == [b[o]] + b[o + 1..o + k];
      LowestFirst(k, n);
      LowByte(b[o], ReadAt(b, o + 1, k - 1));
      if b[o..o + k] == LittleEndian(k, n) {
        assert b[o] == LittleEndian(k, n)[0] && b[o + 1..o + k] == LittleEndian(k, n)[1..];
      }
    }
  }

  lemma {:induction false} ReadBelow(b: seq<Byte>, o: nat, k: nat)
    requires o + k <= |b|
    ensures ReadAt(b, o, k) < Power256(k)
    decreases k
  {
    if k > 0 { ReadBelow(b, o + 1, k - 1); }
  }

  lemma {:induction false} Powers()
    ensures Power256(2) == 0x1_0000 && Power256(4) == 0x1_0000_0000
  {
    assert Power256(1) == 256 * Power256(0);
    assert Power256(2) == 256 * Power256(1);
    assert Power256(3) == 256 * Power256(2);
  }

  function U16(n: Word16): seq<Byte> { LittleEndian(2, n) }

  function U32(n: Word32): seq<Byte> { LittleEndian(4, n) }

  function R16(b: seq<Byte>, o: nat): Word16
    requires o + 2 <= |b|
  {
    Powers();
    ReadBelow(b, o, 2);
    ReadAt(b, o, 2)
  }

  function R32(b: seq<Byte>, o: nat): Word32
    requires o + 4 <= |b|
  {
    Powers();
    ReadBelow(b, o, 4);
    ReadAt(b, o, 4)
  }

  /** A prefix of what is left, and the rest. */
  lemma {:induction false} Cut(b: seq<Byte>, o: nat, part: seq<Byte>, rest: seq<Byte>)
    requires o <= |b|
    ensures b[o..] == part + rest <==> o + |part| <= |b| && b[o..o + |part|] == part && b[o + |part|..] == rest
  {
    if o + |part| <= |b| {
      assert b[o..] == b[o..o + |part|] + b[o + |part|..];
      if b[o..] == part + rest {
        assert b[o..o + |part|] == b[o..][..|part|] && b[o + |part|..] == b[o..][|part|..];
      }
    }
    if b[o..] == part + rest { assert |b| - o == |part| + |rest|; }
  }

  lemma {:induction false} Cut16(b: seq<Byte>, o: nat, n: Word16, rest: seq<Byte>)
    requires o <= |b|
    ensures b[o..] == U16(n) + rest <==> o + 2 <= |b| && R16(b, o) == n && b[o + 2..] == rest
  {
    Cut(b, o, U16(n), rest);
    if o + 2 <= |b| { Powers(); ReadIs(b, o, 2, n); }
  }

  lemma {:induction false} Cut32(b: seq<Byte>, o: nat, n: Word32, rest: seq<Byte>)
    requires o <= |b|
    ensures b[o..] == U32(n) + rest <==> o + 4 <= |b| && R32(b, o) == n && b[o + 4..] == rest
  {
    Cut(b, o, U32(n), rest);
    if o + 4 <= |b| { Powers(); ReadIs(b, o, 4, n); }
  }

  // ----- writing -----

  /** Writes a part at the cursor.  What is before the cursor, with what is still to come behind it, stays the
      same sequence. */
  method PutBytes(out: array<Byte>, cursor: nat, part: seq<Byte>, ghost rest: seq<Byte>) returns (next: nat)
    requires cursor + |part| <= out.Length
    modifies out
    ensures next == cursor + |part| && out[..next] + rest == old(out[..cursor]) + (part + rest)
    ensures forall i | next <= i < out.Length :: out[i] == old(out[i])
  {
    next := cursor + |part|;
    for i := 0 to |part|
      invariant out[..cursor] == old(out[..cursor]) && out[cursor..cursor + i] == part[..i]
      invariant forall j | next <= j < out.Length :: out[j] == old(out[j])
    {
      out[cursor + i] := part[i];
    }
    assert out[..next] == old(out[..cursor]) + part;
  }

  /** Writes a number, lowest byte first. */
  method PutWord(out: array<Byte>, cursor: nat, size: nat, n: nat, ghost rest: seq<Byte>) returns (next: nat)
    requires cursor + size <= out.Length
    modifies out
    ensures next == cursor + size && out[..next] + rest == old(out[..cursor]) + (LittleEndian(size, n) + rest)
    ensures forall i | next <= i < out.Length :: out[i] == old(out[i])
  {
    next := cursor + size;
    ghost var part := LittleEndian(size, n);
    var high := n;
    for i := 0 to size
      invariant forall j: nat :: Digit(high, j) == Digit(n, i + j)
      invariant out[..cursor] == old(out[..cursor]) && out[cursor..cursor + i] == part[..i]
      invariant forall j | next <= j < out.Length :: out[j] == old(out[j])
    {
      assert Digit(high, 0) == Digit(n, i + 0) == part[i];
      out[cursor + i] := high % 256;
      forall j: nat
        ensures Digit(high / 256, j) == Digit(n, i + 1 + j)
      {
        assert Digit(high, j + 1) == Digit(n, i + (j + 1));
      }
      high := high / 256;
    }
    assert out[..next] == old(out[..cursor]) + part;
  }

  method Put16(out: array<Byte>, cursor: nat, n: Word16, ghost rest: seq<Byte>) returns (next: nat)
    requires cursor + 2 <= out.Length
    modifies out
    ensures next == cursor + 2 && out[..next] + rest == old(out[..cursor]) + (U16(n) + rest)
    ensures forall i | next <= i < out.Length :: out[i] == old(out[i])
  {
    next := PutWord(out, cursor, 2, n, rest);
  }

  method Put32(out: array<Byte>, cursor: nat, n: Word32, ghost rest: seq<Byte>) returns (next: nat)
    requires cursor + 4 <= out.Length
    modifies out
    ensures next == cursor + 4 && out[..next] + rest == old(out[..cursor]) + (U32(n) + rest)
    ensures forall i | next <= i < out.Length :: out[i] == old(out[i])
  {
    next := PutWord(out, cursor, 4, n, rest);
  }
}
