/** Bits inside a byte, and bits inside an array of bytes. */
module ByteBits {

  /** The byte `1 << bit`. */
  function Mask(bit: nat): bv8
    requires bit < 8
  {
    if bit == 0 then 0x01 else if bit == 1 then 0x02
    else if bit == 2 then 0x04 else if bit == 3 then 0x08
    else if bit == 4 then 0x10 else if bit == 5 then 0x20
    else if bit == 6 then 0x40 else 0x80
  }

  predicate Bit(b: bv8, bit: nat)
    requires bit < 8
  {
    b & Mask(bit) != 0
  }

  lemma OrMask(b: bv8, bit: nat)
    requires bit < 8
    ensures forall j: nat | j < 8 :: Bit(b | Mask(bit), j) <==> j == bit || Bit(b, j)
  {
    forall j: nat | j < 8
      ensures Bit(b | Mask(bit), j) <==> j == bit || Bit(b, j)
    {
      if j == bit { OrSame(b, Mask(bit)); } else { OrOther(b, bit, j); }
    }
  }

  lemma AndNotMask(b: bv8, bit: nat)
    requires bit < 8
    ensures forall j: nat | j < 8 :: Bit(b & !Mask(bit), j) <==> j != bit && Bit(b, j)
  {
    forall j: nat | j < 8
      ensures Bit(b & !Mask(bit), j) <==> j != bit && Bit(b, j)
    {
      if j == bit { AndNotSame(b, Mask(bit)); } else { AndNotOther(b, bit, j); }
    }
  }

  lemma OrSame(b: bv8, m: bv8)
    requires m != 0
    ensures (b | m) & m != 0
  {
    assert (b | m) & m == m;
  }

  lemma OrOther(b: bv8, i: nat, j: nat)
    requires i < 8 && j < 8 && i != j
    ensures (b | Mask(i)) & Mask(j) == b & Mask(j)
  {
    MasksDisjoint(i, j);
    OrDisjoint(b, Mask(i), Mask(j));
  }

  lemma OrDisjoint(b: bv8, m: bv8, n: bv8)
    requires m & n == 0
    ensures (b | m) & n == b & n
  {}

  lemma AndNotSame(b: bv8, m: bv8)
    ensures (b & !m) & m == 0
  {}

  lemma AndNotOther(b: bv8, i: nat, j: nat)
    requires i < 8 && j < 8 && i != j
    ensures (b & !Mask(i)) & Mask(j) == b & Mask(j)
  {
    MasksDisjoint(i, j);
    AndNotDisjoint(b, Mask(i), Mask(j));
  }

  lemma AndNotDisjoint(b: bv8, m: bv8, n: bv8)
    requires m & n == 0
    ensures (b & !m) & n == b & n
  {}

  lemma MasksDisjoint(i: nat, j: nat)
    requires i < 8 && j < 8 && i != j
    ensures Mask(i) & Mask(j) == 0
  {}

  /** A byte is zero exactly when no bit is set. */
  lemma ZeroByte(b: bv8)
    ensures b == 0 <==> forall j: nat | j < 8 :: !Bit(b, j)
  {
    if forall j: nat | j < 8 :: !Bit(b, j) {
      assert !Bit(b, 0) && !Bit(b, 1) && !Bit(b, 2) && !Bit(b, 3)
          && !Bit(b, 4) && !Bit(b, 5) && !Bit(b, 6) && !Bit(b, 7);
    }
  }

  lemma BitsDetermineByte(a: bv8, b: bv8)
    requires forall j: nat | j < 8 :: Bit(a, j) == Bit(b, j)
    ensures a == b
  {
    assert Bit(a, 0) == Bit(b, 0) && Bit(a, 1) == Bit(b, 1) && Bit(a, 2) == Bit(b, 2)
        && Bit(a, 3) == Bit(b, 3) && Bit(a, 4) == Bit(b, 4) && Bit(a, 5) == Bit(b, 5)
        && Bit(a, 6) == Bit(b, 6) && Bit(a, 7) == Bit(b, 7);
  }

  ghost predicate NoBitBelow(b: bv8, n: nat)
    requires n <= 8
  {
    forall j: nat | j < n :: !Bit(b, j)
  }

  /** Index of the lowest set bit. */
  method TrailingZeros(b: bv8) returns (r: nat)
    requires b != 0
    ensures r < 8 && Bit(b, r) && NoBitBelow(b, r)
  {
    r :=
      if b & 0x01 != 0 then 0 else if b & 0x02 != 0 then 1
    else if b & 0x04 != 0 then 2 else if b & 0x08 != 0 then 3
    else if b & 0x10 != 0 then 4 else if b & 0x20 != 0 then 5
    else if b & 0x40 != 0 then 6
    else 7;
    if r == 7 { ZeroByteIsLast(b); }
  }

  lemma ZeroByteIsLast(b: bv8)
    requires b != 0
    requires b & 0x01 == 0 && b & 0x02 == 0 && b & 0x04 == 0 && b & 0x08 == 0
    requires b & 0x10 == 0 && b & 0x20 == 0 && b & 0x40 == 0
    ensures b & 0x80 != 0
  {}

  /** The byte `(1 << n) - 1`. */
  function LowMask(n: nat): bv8
    requires n < 8
  {
    if n == 0 then 0x00 else if n == 1 then 0x01
    else if n == 2 then 0x03 else if n == 3 then 0x07
    else if n == 4 then 0x0F else if n == 5 then 0x1F
    else if n == 6 then 0x3F else 0x7F
  }

  lemma AndLowMask(b: bv8, n: nat)
    requires n < 8
    ensures forall j: nat | j < 8 :: Bit(b & LowMask(n), j) <==> j < n && Bit(b, j)
  {
    forall j: nat | j < 8
      ensures Bit(b & LowMask(n), j) <==> j < n && Bit(b, j)
    {
      LowMaskBit(n, j);
      AndNested(b, LowMask(n), Mask(j));
    }
  }

  lemma LowMaskBit(n: nat, j: nat)
    requires n < 8 && j < 8
    ensures LowMask(n) & Mask(j) == if j < n then Mask(j) else 0
  {}

  lemma AndNested(a: bv8, b: bv8, c: bv8)
    ensures b & c == c ==> (a & b) & c == a & c
    ensures b & c == 0 ==> (a & b) & c == 0
  {
    assert (a & b) & c == a & (b & c);
  }

  datatype Found = NoBit | BitAt(bit: nat)

  /** Lowest set bit among the low `width` bits of a byte. */
  method LowestBit(b: bv8, width: nat) returns (r: Found)
    requires width <= 8
    ensures r.NoBit? ==> NoBitBelow(b, width)
    ensures r.BitAt? ==> r.bit < width && Bit(b, r.bit) && NoBitBelow(b, r.bit)
  {
    var masked := if width == 8 then b else b & LowMask(width);
    if width < 8 { AndLowMask(b, width); }
    ZeroByte(masked);
    if masked == 0 { return NoBit; }
    var bit := TrailingZeros(masked);
    r := BitAt(bit);
  }

  // ----- bits of a byte sequence -----

  predicate Get(s: seq<bv8>, pos: nat)
    requires pos < 8 * |s|
  {
    Bit(s[pos / 8], pos % 8)
  }

  function Set(s: seq<bv8>, pos: nat): seq<bv8>
    requires pos < 8 * |s|
  {
    s[pos / 8 := s[pos / 8] | Mask(pos % 8)]
  }

  function Clear(s: seq<bv8>, pos: nat): seq<bv8>
    requires pos < 8 * |s|
  {
    s[pos / 8 := s[pos / 8] & !Mask(pos % 8)]
  }

  /** Setting one bit changes that bit and no other. */
  lemma SetGet(s: seq<bv8>, pos: nat)
    requires pos < 8 * |s|
    ensures forall q: nat | q < 8 * |s| :: Get(Set(s, pos), q) <==> q == pos || Get(s, q)
  {
    OrMask(s[pos / 8], pos % 8);
    forall q: nat | q < 8 * |s|
      ensures Get(Set(s, pos), q) <==> q == pos || Get(s, q)
    {
      if q / 8 == pos / 8 { assert q == pos <==> q % 8 == pos % 8; }
    }
  }

  /** Clearing one bit changes that bit and no other. */
  lemma ClearGet(s: seq<bv8>, pos: nat)
    requires pos < 8 * |s|
    ensures forall q: nat | q < 8 * |s| :: Get(Clear(s, pos), q) <==> q != pos && Get(s, q)
  {
    AndNotMask(s[pos / 8], pos % 8);
    forall q: nat | q < 8 * |s|
      ensures Get(Clear(s, pos), q) <==> q != pos && Get(s, q)
    {
      if q / 8 == pos / 8 { assert q == pos <==> q % 8 == pos % 8; }
    }
  }

  /** Two byte sequences with the same bits are the same bytes. */
  lemma BitsDetermineBytes(s: seq<bv8>, t: seq<bv8>)
    requires |s| == |t|
    requires forall q: nat | q < 8 * |s| :: Get(s, q) == Get(t, q)
    ensures s == t
  {
    forall n | 0 <= n < |s|
      ensures s[n] == t[n]
    {
      forall j: nat | j < 8
        ensures Bit(s[n], j) == Bit(t[n], j)
      {
        assert Get(s, 8 * n + j) == Get(t, 8 * n + j);
      }
      BitsDetermineByte(s[n], t[n]);
    }
  }
}
