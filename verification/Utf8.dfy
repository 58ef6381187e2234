/** The two UTF-8 scanners of the program against section 4 of RFC 3629.  Bytes are numbers below 256:
    masking with 0xC0 is a range test, masking with 0x3F a remainder, and shifting in six bits a
    multiplication by 64. */
module Utf8 {
  import opened Words

  // ----- the standard -----

  predicate Tail(b: Byte) { 0x80 <= b <= 0xBF }

  /** One character of the grammar of section 4, by its number of bytes. */
  predicate IsCharacter(s: seq<Byte>) {
    IsOne(s) || IsTwo(s) || IsThree(s) || IsFour(s)
  }

  predicate IsOne(s: seq<Byte>) { |s| == 1 && s[0] <= 0x7F }

  predicate IsTwo(s: seq<Byte>) { |s| == 2 && 0xC2 <= s[0] <= 0xDF && Tail(s[1]) }

  predicate IsThree(s: seq<Byte>) {
    && |s| == 3 && Tail(s[2])
    && (|| (s[0] == 0xE0 && 0xA0 <= s[1] <= 0xBF)
        || (0xE1 <= s[0] <= 0xEC && Tail(s[1]))
        || (s[0] == 0xED && 0x80 <= s[1] <= 0x9F)
        || (0xEE <= s[0] <= 0xEF && Tail(s[1])))
  }

  predicate IsFour(s: seq<Byte>) {
    && |s| == 4 && Tail(s[2]) && Tail(s[3])
    && (|| (s[0] == 0xF0 && 0x90 <= s[1] <= 0xBF)
        || (0xF1 <= s[0] <= 0xF3 && Tail(s[1]))
        || (s[0] == 0xF4 && 0x80 <= s[1] <= 0x8F))
  }

  /** Scalar values: code points up to U+10FFFF without the surrogates. */
  predicate IsScalar(cp: nat) { cp <= 0x10FFFF && !(0xD800 <= cp <= 0xDFFF) }

  /** The encoding of section 3. */
  function Encode(cp: nat): seq<Byte>
    requires IsScalar(cp)
  {
    if cp <= 0x7F then [cp]
    else if cp <= 0x7FF then [0xC0 + cp / 64, 0x80 + cp % 64]
    else if cp <= 0xFFFF then [0xE0 + cp / 64 / 64, 0x80 + cp / 64 % 64, 0x80 + cp % 64]
    else [0xF0 + cp / 64 / 64 / 64, 0x80 + cp / 64 / 64 % 64, 0x80 + cp / 64 % 64, 0x80 + cp % 64]
  }

  /** The low bits of a byte. */
  function Low(b: Byte, m: nat): nat
    requires m > 0
  {
    b as int % m
  }

  /** The number a character stands for. */
  function Decode(s: seq<Byte>): nat
    requires IsCharacter(s)
  {
    if IsOne(s) then s[0]
    else if IsTwo(s) then Low(s[0], 32) * 64 + Low(s[1], 64)
    else if IsThree(s) then (Low(s[0], 16) * 64 + Low(s[1], 64)) * 64 + Low(s[2], 64)
    else ((Low(s[0], 8) * 64 + Low(s[1], 64)) * 64 + Low(s[2], 64)) * 64 + Low(s[3], 64)
  }

  lemma {:induction false} Six(hi: nat, lo: nat)
    requires lo < 64
    ensures (hi * 64 + lo) / 64 == hi && (hi * 64 + lo) % 64 == lo
  {
  }

  /** The characters of the grammar are exactly the encodings of the scalar values. */
  lemma {:induction false} DecodeEncodes(s: seq<Byte>)
    requires IsCharacter(s)
    ensures IsScalar(Decode(s)) && Encode(Decode(s)) == s
  {
    if IsTwo(s) {
      Six(Low(s[0], 32), Low(s[1], 64));
    } else if IsThree(s) {
      DecodeThree(s);
    } else if IsFour(s) {
      DecodeFour(s);
    }
  }

  lemma {:induction false} DecodeThree(s: seq<Byte>)
    requires IsThree(s)
    ensures IsScalar(Decode(s)) && Encode(Decode(s)) == s
  {
    var a, b, c := Low(s[0], 16), Low(s[1], 64), Low(s[2], 64);
    assert s[0] == 0xE0 + a && s[1] == 0x80 + b && s[2] == 0x80 + c;
    Six(a * 64 + b, c);
    Six(a, b);
  }

  lemma {:induction false} DecodeFour(s: seq<Byte>)
    requires IsFour(s)
    ensures IsScalar(Decode(s)) && Encode(Decode(s)) == s
  {
    var a, b, c, d := Low(s[0], 8), Low(s[1], 64), Low(s[2], 64), Low(s[3], 64);
    assert s[0] == 0xF0 + a && s[1] == 0x80 + b && s[2] == 0x80 + c && s[3] == 0x80 + d;
    Six((a * 64 + b) * 64 + c, d);
    Six(a * 64 + b, c);
    Six(a, b);
  }

  lemma {:induction false} EncodeDecodes(cp: nat)
    requires IsScalar(cp)
    ensures IsCharacter(Encode(cp)) && Decode(Encode(cp)) == cp
  {
    if 0x80 <= cp <= 0x7FF { assert IsTwo(Encode(cp)); }
    else if 0x800 <= cp <= 0xFFFF { EncodeThree(cp); }
    else if cp > 0xFFFF { EncodeFour(cp); }
  }

  lemma {:induction false} EncodeThree(cp: nat)
    requires IsScalar(cp) && 0x800 <= cp <= 0xFFFF
    ensures IsThree(Encode(cp)) && Decode(Encode(cp)) == cp
  {
    var q := cp / 64;
    var r := q / 64;
    assert cp == q * 64 + cp % 64 && q == r * 64 + q % 64;
    assert Encode(cp) == [0xE0 + r, 0x80 + q % 64, 0x80 + cp % 64];
  }

  lemma {:induction false} EncodeFour(cp: nat)
    requires IsScalar(cp) && cp > 0xFFFF
    ensures IsFour(Encode(cp)) && Decode(Encode(cp)) == cp
  {
    var q := cp / 64;
    var r := q / 64;
    var t := r / 64;
    assert cp == q * 64 + cp % 64 && q == r * 64 + q % 64 && r == t * 64 + r % 64;
    assert Encode(cp) == [0xF0 + t, 0x80 + r % 64, 0x80 + q % 64, 0x80 + cp % 64];
  }

  function EncodeAll(cps: seq<nat>): seq<Byte>
    requires forall i | 0 <= i < |cps| :: IsScalar(cps[i])
  {
    if cps == [] then [] else Encode(cps[0]) + EncodeAll(cps[1..])
  }

  /** How many bytes the character at the beginning takes; zero if there is none. */
  function Width(s: seq<Byte>): (w: nat)
    ensures w <= |s| && (w > 0 ==> IsCharacter(s[..w]))
  {
    if |s| >= 1 && IsCharacter(s[..1]) then 1
    else if |s| >= 2 && IsCharacter(s[..2]) then 2
    else if |s| >= 3 && IsCharacter(s[..3]) then 3
    else if |s| >= 4 && IsCharacter(s[..4]) then 4
    else 0
  }

  /** A sequence of characters. */
  predicate WellFormed(s: seq<Byte>) {
    s == [] || (Width(s) > 0 && WellFormed(s[Width(s)..]))
  }

  /** No character is the beginning of another. */
  lemma {:induction false} WidthIs(s: seq<Byte>, k: nat)
    requires k <= |s| && IsCharacter(s[..k])
    ensures Width(s) == k
  {
    assert s[..1][0] == s[0];
    if |s| >= 2 { assert s[..2][0] == s[0]; }
    if |s| >= 3 { assert s[..3][0] == s[0]; }
    assert s[..k][0] == s[0];
  }

  lemma {:induction false} NoCharacter(s: seq<Byte>)
    requires Width(s) == 0
    ensures forall k | 0 <= k <= |s| :: !IsCharacter(s[..k])
  {
  }

  /** Well-formed strings are exactly the encodings of sequences of scalar values. */
  lemma {:induction false} WellFormedEncodes(s: seq<Byte>) returns (cps: seq<nat>)
    requires WellFormed(s)
    ensures (forall i | 0 <= i < |cps| :: IsScalar(cps[i])) && EncodeAll(cps) == s
    decreases |s|
  {
    if s == [] {
      cps := [];
    } else {
      var w := Width(s);
      DecodeEncodes(s[..w]);
      var rest := WellFormedEncodes(s[w..]);
      cps := [Decode(s[..w])] + rest;
      assert cps[1..] == rest && s == s[..w] + s[w..];
    }
  }

  lemma {:induction false} EncodingWellFormed(cps: seq<nat>)
    requires forall i | 0 <= i < |cps| :: IsScalar(cps[i])
    ensures WellFormed(EncodeAll(cps))
    decreases |cps|
  {
    if cps != [] {
      EncodeDecodes(cps[0]);
      var c, rest := Encode(cps[0]), EncodeAll(cps[1..]);
      assert (c + rest)[..|c|] == c && (c + rest)[|c|..] == rest;
      WidthIs(c + rest, |c|);
      EncodingWellFormed(cps[1..]);
    }
  }

  lemma {:induction false} WellFormedAppend(s: seq<Byte>, t: seq<Byte>)
    requires WellFormed(s) && WellFormed(t)
    ensures WellFormed(s + t)
    decreases |s|
  {
    if s == [] {
      assert s + t == t;
    } else {
      var w := Width(s);
      assert (s + t)[..w] == s[..w] && (s + t)[w..] == s[w..] + t;
      WidthIs(s + t, w);
      WellFormedAppend(s[w..], t);
    }
  }

  /** A well-formed beginning can be cut off. */
  lemma {:induction false} WellFormedSplit(s: seq<Byte>, k: nat)
    requires k <= |s| && WellFormed(s[..k])
    ensures WellFormed(s) <==> WellFormed(s[k..])
    decreases k
  {
    if k == 0 {
      assert s[0..] == s;
    } else {
      var w := Width(s[..k]);
      assert s[..k][..w] == s[..w] && s[..k][w..] == s[w..][..k - w] && s[w..][k - w..] == s[k..];
      WidthIs(s, w);
      WellFormedSplit(s[w..], k - w);
    }
  }

  // ----- the scanner of the data-plan codec -----

  /** Reads one character: succeeds exactly where the standard has one, goes past it, and gives the scalar
      value whose encoding the consumed bytes are. */
  method Utf8Next(s: seq<Byte>, cursor: nat) returns (ok: bool, cursor': nat, cp: nat)
    ensures ok <==> cursor < |s| && Width(s[cursor..]) > 0
    ensures ok ==> cursor < cursor' <= |s| && cursor' == cursor + Width(s[cursor..])
    ensures ok ==> IsScalar(cp) && Encode(cp) == s[cursor..cursor']
    ensures !ok ==> cursor' == cursor
  {
    ok, cursor', cp := false, cursor, 0;
    if cursor >= |s| { return; }
    ghost var rest := s[cursor..];
    var b0 := s[cursor];
    var width := 0;
    var value: nat := 0;
    if b0 <= 0x7F { value, width := b0, 1; }
    else if 0xC2 <= b0 <= 0xDF { value, width := b0 % 32, 2; }
    else if 0xE0 <= b0 <= 0xEF { value, width := b0 % 16, 3; }
    else if 0xF0 <= b0 <= 0xF4 { value, width := b0 % 8, 4; }
    else { ScanFails(rest, 0, 0); return; }
    if width > |s| - cursor { ScanFails(rest, width, 0); return; }
    for k := 1 to width
      invariant value == Scanned(rest, k)
      invariant forall j | 1 <= j < k :: GoodTail(rest, j)
    {
      var next := s[cursor + k];
      assert next == rest[k];
      if !(0x80 <= next < 0xC0) { ScanFails(rest, width, k); return; }
      if k == 1 {
        if b0 == 0xE0 && next < 0xA0 { ScanFails(rest, width, k); return; }
        if b0 == 0xED && next >= 0xA0 { ScanFails(rest, width, k); return; }
        if b0 == 0xF0 && next < 0x90 { ScanFails(rest, width, k); return; }
        if b0 == 0xF4 && next >= 0x90 { ScanFails(rest, width, k); return; }
      }
      value := value * 64 + next % 64;
    }
    ScanSucceeds(rest, width);
    assert rest[..width] == s[cursor..cursor + width];
    ok, cursor', cp := true, cursor + width, value;
  }

  /** How many bytes the first byte announces. */
  function Announced(b: Byte): nat {
    if b <= 0x7F then 1 else if 0xC2 <= b <= 0xDF then 2 else if 0xE0 <= b <= 0xEF then 3 else if 0xF0 <= b <= 0xF4 then 4 else 0
  }

  /** What the scanner asks of the byte at position k of a character. */
  predicate GoodTail(s: seq<Byte>, k: nat) {
    && 0 < k < |s| && Tail(s[k])
    && (k == 1 ==>
          && (s[0] == 0xE0 ==> s[1] >= 0xA0) && (s[0] == 0xED ==> s[1] < 0xA0)
          && (s[0] == 0xF0 ==> s[1] >= 0x90) && (s[0] == 0xF4 ==> s[1] < 0x90))
  }

  /** The value after the first k bytes. */
  function Scanned(s: seq<Byte>, k: nat): nat
    requires 0 < k <= |s|
  {
    if k == 1 then
      if s[0] <= 0x7F then s[0]
      else if s[0] <= 0xDF then s[0] % 32
      else if s[0] <= 0xEF then s[0] % 16
      else s[0] % 8
    else Scanned(s, k - 1) * 64 + s[k - 1] % 64
  }

  lemma {:induction false} ScanSucceeds(s: seq<Byte>, width: nat)
    requires s != [] && width == Announced(s[0]) && 0 < width <= |s|
    requires forall j | 1 <= j < width :: GoodTail(s, j)
    ensures Width(s) == width && IsScalar(Scanned(s, width)) && Encode(Scanned(s, width)) == s[..width]
  {
    if width > 1 { assert GoodTail(s, 1); }
    if width > 2 { assert GoodTail(s, 2); }
    if width > 3 { assert GoodTail(s, 3); }
    assert IsCharacter(s[..width]);
    WidthIs(s, width);
    DecodeEncodes(s[..width]);
    assert Scanned(s, width) == Decode(s[..width]) by { ScannedDecodes(s, width); }
  }

  lemma {:induction false} ScannedDecodes(s: seq<Byte>, width: nat)
    requires width <= |s| && IsCharacter(s[..width])
    ensures Scanned(s, width) == Decode(s[..width])
  {
    assert forall i | 0 <= i < width :: s[..width][i] == s[i];
    if width >= 2 { assert Scanned(s, 2) == Scanned(s, 1) * 64 + s[1] % 64; }
    if width >= 3 { assert Scanned(s, 3) == Scanned(s, 2) * 64 + s[2] % 64; }
    if width >= 4 { assert Scanned(s, 4) == Scanned(s, 3) * 64 + s[3] % 64; }
  }

  /** If the announced bytes are not all good there is no character. */
  lemma {:induction false} ScanFails(s: seq<Byte>, width: nat, j: nat)
    requires s != [] && width == Announced(s[0])
    requires width == 0 || width > |s| || (1 <= j < width && !GoodTail(s, j))
    ensures Width(s) == 0
  {
    var w := Width(s);
    if w > 0 {
      assert forall i | 0 <= i < w :: s[..w][i] == s[i];
      assert w == width;
      assert w > 1 ==> GoodTail(s, 1);
      assert w > 2 ==> GoodTail(s, 2);
      assert w > 3 ==> GoodTail(s, 3);
    }
  }

  // ----- strings and identifiers of the codec -----

  const MAX_STRING_BYTES: nat := 4096
  const MAX_NAME_BYTES: nat := 255

  predicate IsString(s: seq<Byte>) {
    0 < |s| <= MAX_STRING_BYTES && WellFormed(s) && forall i | 0 <= i < |s| :: s[i] != 0
  }

  /** Reads a string to its end; the character NUL is refused. */
  method ValidString(s: seq<Byte>) returns (ok: bool)
    ensures ok <==> IsString(s)
  {
    if |s| == 0 || |s| > MAX_STRING_BYTES { return false; }
    var cursor: nat := 0;
    assert s[..0] == [];
    while cursor < |s|
      invariant cursor <= |s| && WellFormed(s[..cursor])
      invariant forall i | 0 <= i < cursor :: s[i] != 0
      decreases |s| - cursor
    {
      ghost var before := cursor;
      WellFormedSplit(s, cursor);
      var cp;
      ok, cursor, cp := Utf8Next(s, cursor);
      if !ok { return false; }
      if cp == 0 {
        assert s[before..cursor][0] == 0;
        return false;
      }
      NextCharacter(s, before, cursor, cp);
    }
    assert s[..cursor] == s;
    ok := true;
  }

  /** One more character at the end of what has been read. */
  lemma {:induction false} NextCharacter(s: seq<Byte>, before: nat, after: nat, cp: nat)
    requires before < after <= |s| && WellFormed(s[..before])
    requires IsScalar(cp) && Encode(cp) == s[before..after] && cp != 0
    ensures WellFormed(s[..after]) && forall i | before <= i < after :: s[i] != 0
    ensures cp >= 0x80 ==> forall i | before <= i < after :: s[i] >= 0x80
    ensures cp < 0x80 ==> after == before + 1 && s[before] == cp
  {
    var c := s[before..after];
    EncodeDecodes(cp);
    OneWellFormed(c);
    WellFormedAppend(s[..before], c);
    assert s[..after] == s[..before] + c;
    EncodedBytes(cp);
    forall i | before <= i < after
      ensures s[i] != 0 && (cp >= 0x80 ==> s[i] >= 0x80)
    {
      assert s[i] == c[i - before];
    }
    assert s[before] == c[0];
  }

  lemma {:induction false} OneWellFormed(c: seq<Byte>)
    requires IsCharacter(c)
    ensures WellFormed(c)
  {
    WidthIs(c, |c|);
    assert c[..|c|] == c && c[|c|..] == [];
  }

  /** Only ASCII characters have bytes below 0x80, and only NUL has a zero. */
  lemma {:induction false} EncodedBytes(cp: nat)
    requires IsScalar(cp) && cp != 0
    ensures var c := Encode(cp);
            && |c| > 0 && (forall i | 0 <= i < |c| :: c[i] != 0 && (cp >= 0x80 ==> c[i] >= 0x80))
            && (cp < 0x80 ==> c == [cp])
  {
  }

  predicate IdentifierStart(cp: nat) {
    cp == '_' as int || 'A' as int <= cp <= 'Z' as int || 'a' as int <= cp <= 'z' as int
  }

  predicate IdentifierContinue(cp: nat) { IdentifierStart(cp) || '0' as int <= cp <= '9' as int }

  /** ASCII characters follow the rules of identifiers, others are free. */
  predicate IsIdentifier(s: seq<Byte>) {
    && IsString(s) && |s| <= MAX_NAME_BYTES
    && forall i | 0 <= i < |s| && s[i] < 0x80 :: if i == 0 then IdentifierStart(s[i]) else IdentifierContinue(s[i])
  }

  method ValidIdentifier(s: seq<Byte>) returns (ok: bool)
    ensures ok <==> IsIdentifier(s)
  {
    ok := ValidString(s);
    if !ok || |s| > MAX_NAME_BYTES { return false; }
    var cursor: nat := 0;
    var first := true;
    assert s[..0] == [];
    while cursor < |s|
      invariant cursor <= |s| && WellFormed(s[..cursor]) && (first <==> cursor == 0)
      invariant forall i | 0 <= i < cursor && s[i] < 0x80 :: if i == 0 then IdentifierStart(s[i]) else IdentifierContinue(s[i])
      decreases |s| - cursor
    {
      ghost var before := cursor;
      WellFormedSplit(s, cursor);
      var cp;
      ok, cursor, cp := Utf8Next(s, cursor);
      if !ok { return false; }
      assert s[before] == Encode(cp)[0];
      NextCharacter(s, before, cursor, cp);
      if cp >= 0x80 {
        first := false;
      } else {
        if (first && !IdentifierStart(cp)) || (!first && !IdentifierContinue(cp)) { return false; }
        first := false;
      }
    }
    ok := true;
  }

  // ----- the scanner of the Arrow reader -----

  /** The other scanner accepts the same strings. */
  method ArrowUtf8Valid(text: seq<Byte>) returns (ok: bool)
    ensures ok <==> WellFormed(text)
  {
    var i: nat := 0;
    assert text[0..] == text;
    while i < |text|
      invariant i <= |text| && (WellFormed(text) <==> WellFormed(text[i..]))
      decreases |text| - i
    {
      ghost var from := i;
      ghost var rest := text[i..];
      var a := text[i];
      i := i + 1;
      if a < 0x80 {
      } else if 0xC2 <= a <= 0xDF {
        if i >= |text| || !(0x80 <= text[i] < 0xC0) { ScanFails(rest, 2, 1); return false; }
        i := i + 1;
      } else if 0xE0 <= a <= 0xEF {
        if i + 1 >= |text| { ScanFails(rest, 3, 1); return false; }
        var b, c := text[i], text[i + 1];
        i := i + 2;
        if !(0x80 <= b < 0xC0) || !(0x80 <= c < 0xC0) || (a == 0xE0 && b < 0xA0) || (a == 0xED && b >= 0xA0) {
          ScanFails(rest, 3, if GoodTail(rest, 1) then 2 else 1);
          return false;
        }
      } else if 0xF0 <= a <= 0xF4 {
        if i + 2 >= |text| { ScanFails(rest, 4, 1); return false; }
        var b, c, d := text[i], text[i + 1], text[i + 2];
        i := i + 3;
        if !(0x80 <= b < 0xC0) || !(0x80 <= c < 0xC0) || !(0x80 <= d < 0xC0) || (a == 0xF0 && b < 0x90) || (a == 0xF4 && b >= 0x90) {
          ScanFails(rest, 4, if !GoodTail(rest, 1) then 1 else if GoodTail(rest, 2) then 3 else 2);
          return false;
        }
      } else {
        ScanFails(rest, 0, 0);
        return false;
      }
      assert IsCharacter(rest[..i - from]);
      WidthIs(rest, i - from);
      assert rest[i - from..] == text[i..];
    }
    ok := true;
  }
}
