/** Bit-level helpers of the Life-like rule engine (gollybase/liferules.cpp).
 *
 *  A 3x3 neighbourhood is a 9-bit pattern: bits 0..2, 3..5 and 6..8 are the
 *  three rows, and bit 4 (0x10) is the centre cell.  The eight other bits are
 *  the ring of neighbours.  A 4x4 block is a 16-bit index whose bit
 *  15 - 4*row - col holds the cell at (row, col).
 */
module RuleBits {

  /** The centre-cell bit of a 3x3 pattern. */
  const CenterBit: bv16 := 0x10
  /** The eight neighbour bits of a 3x3 pattern (everything but the centre). */
  const RingBits: bv16 := 0x1ef

  /** Bit k of x is set. */
  predicate Bit(x: bv16, k: nat)
    requires k < 16
  {
    (x >> k) & 1 == 1
  }

  /** Bit k of x as 0 or 1. */
  function BitValue(x: bv16, k: nat): int
    requires k < 16
  {
    if Bit(x, k) then 1 else 0
  }

  /** Number of set bits among the n low bits of x. */
  function PopCount(x: bv16, n: nat): (r: int)
    requires n <= 16
    ensures 0 <= r <= n
  {
    if n == 0 then 0 else PopCount(x, n - 1) + BitValue(x, n - 1)
  }

  /** Number of set bits among the nine low bits of x. */
  function Pop9(x: bv16): int
  {
    PopCount(x, 9)
  }

  /** Pop9 written out bit by bit. */
  lemma Pop9Unfold(x: bv16)
    ensures Pop9(x) == BitValue(x, 0) + BitValue(x, 1) + BitValue(x, 2) + BitValue(x, 3) + BitValue(x, 4)
                     + BitValue(x, 5) + BitValue(x, 6) + BitValue(x, 7) + BitValue(x, 8)
  {
    assert PopCount(x, 9) == PopCount(x, 8) + BitValue(x, 8);
    assert PopCount(x, 8) == PopCount(x, 7) + BitValue(x, 7);
    assert PopCount(x, 7) == PopCount(x, 6) + BitValue(x, 6);
    assert PopCount(x, 6) == PopCount(x, 5) + BitValue(x, 5);
    assert PopCount(x, 5) == PopCount(x, 4) + BitValue(x, 4);
    assert PopCount(x, 4) == PopCount(x, 3) + BitValue(x, 3);
    assert PopCount(x, 3) == PopCount(x, 2) + BitValue(x, 2);
    assert PopCount(x, 2) == PopCount(x, 1) + BitValue(x, 1);
  }

  /** Number of live neighbours of pattern x that the neighbourhood mask counts. */
  function NeighbourCount(x: bv16, mask: bv16): int
  {
    Pop9(x & RingBits & mask)
  }

  /** Pop9 peels off the lowest bit (the step of the counting loop in setTotalistic). */
  lemma Pop9Step(x: bv16)
    requires x < 512
    ensures x >> 1 < 512
    ensures (x & 1) as int == BitValue(x, 0)
    ensures Pop9(x) == BitValue(x, 0) + Pop9(x >> 1)
  {
    Pop9Unfold(x);
    Pop9Unfold(x >> 1);
  }

  lemma Pop9Bounds(x: bv16)
    ensures 0 <= Pop9(x) <= 9
    ensures x & 0x1ff == 0 ==> Pop9(x) == 0
  {
    Pop9Unfold(x);
  }

  /** flipBits: exchanges the first and the last row of the pattern. */
  function FlipBits(x: bv16): (r: bv16)
    requires x < 512
    ensures r < 512
  {
    ((x & 0x07) << 6) | ((x & 0x1c0) >> 6) | (x & 0x38)
  }

  /** rotateBits90Clockwise: turns the pattern a quarter turn. */
  function RotateBits90Clockwise(x: bv16): (r: bv16)
    requires x < 512
    ensures r < 512
  {
    ((x & 0x4) << 6) | ((x & 0x20) << 2) | ((x & 0x100) >> 2)
    | ((x & 0x2) << 4) | (x & 0x10) | ((x & 0x80) >> 4)
    | ((x & 0x1) << 2) | ((x & 0x8) >> 2) | ((x & 0x40) >> 6)
  }

  /** The rotation moves each of the nine cells to another cell; the centre stays put. */
  lemma RotatePermutesCells(x: bv16)
    requires x < 512
    ensures var y := RotateBits90Clockwise(x);
      && (Bit(y, 0) <==> Bit(x, 6)) && (Bit(y, 1) <==> Bit(x, 3)) && (Bit(y, 2) <==> Bit(x, 0))
      && (Bit(y, 3) <==> Bit(x, 7)) && (Bit(y, 4) <==> Bit(x, 4)) && (Bit(y, 5) <==> Bit(x, 1))
      && (Bit(y, 6) <==> Bit(x, 8)) && (Bit(y, 7) <==> Bit(x, 5)) && (Bit(y, 8) <==> Bit(x, 2))
  {
  }

  /** The flip exchanges rows 0 and 2 and keeps the middle row. */
  lemma FlipPermutesCells(x: bv16)
    requires x < 512
    ensures var y := FlipBits(x);
      && (Bit(y, 0) <==> Bit(x, 6)) && (Bit(y, 1) <==> Bit(x, 7)) && (Bit(y, 2) <==> Bit(x, 8))
      && (Bit(y, 3) <==> Bit(x, 3)) && (Bit(y, 4) <==> Bit(x, 4)) && (Bit(y, 5) <==> Bit(x, 5))
      && (Bit(y, 6) <==> Bit(x, 0)) && (Bit(y, 7) <==> Bit(x, 1)) && (Bit(y, 8) <==> Bit(x, 2))
  {
  }

  /** Four quarter turns give the identity. */
  lemma RotateFourTimes(x: bv16)
    requires x < 512
    ensures RotateBits90Clockwise(RotateBits90Clockwise(RotateBits90Clockwise(RotateBits90Clockwise(x)))) == x
  {
  }

  /** Two flips give the identity. */
  lemma FlipTwice(x: bv16)
    requires x < 512
    ensures FlipBits(FlipBits(x)) == x
  {
  }

  /** A flip followed by a quarter turn equals three quarter turns followed by a flip. */
  lemma RotateAfterFlip(x: bv16)
    requires x < 512
    ensures RotateBits90Clockwise(FlipBits(x))
         == FlipBits(RotateBits90Clockwise(RotateBits90Clockwise(RotateBits90Clockwise(x))))
  {
  }

  lemma RotateKeepsCount(x: bv16)
    requires x < 512
    ensures Pop9(RotateBits90Clockwise(x) & RingBits) == Pop9(x & RingBits)
  {
    RotatePermutesCells(x);
    var y, z := RotateBits90Clockwise(x) & RingBits, x & RingBits;
    assert BitValue(y, 0) == BitValue(z, 6) && BitValue(y, 1) == BitValue(z, 3);
    assert BitValue(y, 2) == BitValue(z, 0) && BitValue(y, 3) == BitValue(z, 7);
    assert BitValue(y, 5) == BitValue(z, 1) && BitValue(y, 6) == BitValue(z, 8);
    assert BitValue(y, 7) == BitValue(z, 5) && BitValue(y, 8) == BitValue(z, 2);
    assert BitValue(y, 4) == 0 == BitValue(z, 4);
    Pop9Unfold(y);
    Pop9Unfold(z);
  }

  lemma FlipKeepsCount(x: bv16)
    requires x < 512
    ensures Pop9(FlipBits(x) & RingBits) == Pop9(x & RingBits)
  {
    FlipPermutesCells(x);
    var f, z := FlipBits(x) & RingBits, x & RingBits;
    assert BitValue(f, 0) == BitValue(z, 6) && BitValue(f, 1) == BitValue(z, 7);
    assert BitValue(f, 2) == BitValue(z, 8) && BitValue(f, 6) == BitValue(z, 0);
    assert BitValue(f, 7) == BitValue(z, 1) && BitValue(f, 8) == BitValue(z, 2);
    assert BitValue(f, 3) == BitValue(z, 3) && BitValue(f, 5) == BitValue(z, 5);
    assert BitValue(f, 4) == 0 == BitValue(z, 4);
    Pop9Unfold(f);
    Pop9Unfold(z);
  }

  /** Neither symmetry moves the centre cell, and both keep the number of live neighbours. */
  lemma SymmetriesKeepCentreAndCount(x: bv16)
    requires x < 512
    ensures RotateBits90Clockwise(x) & CenterBit == x & CenterBit
    ensures FlipBits(x) & CenterBit == x & CenterBit
    ensures Pop9(RotateBits90Clockwise(x) & RingBits) == Pop9(x & RingBits)
    ensures Pop9(FlipBits(x) & RingBits) == Pop9(x & RingBits)
  {
    RotateKeepsCount(x);
    FlipKeepsCount(x);
  }

  /** The k-fold quarter turn. */
  function Turn(x: bv16, k: nat): (r: bv16)
    requires x < 512
    ensures r < 512
    decreases k
  {
    if k == 0 then x else RotateBits90Clockwise(Turn(x, k - 1))
  }

  /** The k-th image of x (0 <= k < 8) under the symmetries of the square, in
   *  the order setSymmetrical512 visits them: four turns of x, then four turns
   *  of its flip. */
  function Image(x: bv16, k: nat): (r: bv16)
    requires x < 512 && k < 8
    ensures r < 512
  {
    if k < 4 then Turn(x, k) else Turn(FlipBits(x), k - 4)
  }

  /** The eight images of x, in the order setSymmetrical512 visits them. */
  function Orbit(x: bv16): (r: seq<bv16>)
    requires x < 512
    ensures |r| == 8 && forall k | 0 <= k < 8 :: r[k] == Image(x, k)
  {
    [Image(x, 0), Image(x, 1), Image(x, 2), Image(x, 3), Image(x, 4), Image(x, 5), Image(x, 6), Image(x, 7)]
  }

  /** A flip turns a k-fold quarter turn into a (4-k)-fold one. */
  lemma FlipOfTurns(x: bv16)
    requires x < 512
    ensures var r1 := RotateBits90Clockwise(x); var r2 := RotateBits90Clockwise(r1);
      var r3 := RotateBits90Clockwise(r2);
      var f := FlipBits(x); var f1 := RotateBits90Clockwise(f); var f2 := RotateBits90Clockwise(f1);
      var f3 := RotateBits90Clockwise(f2);
      && FlipBits(r1) == f3 && FlipBits(r2) == f2 && FlipBits(r3) == f1
      && RotateBits90Clockwise(r3) == x && RotateBits90Clockwise(f3) == f
      && FlipBits(f) == x && FlipBits(f1) == r3 && FlipBits(f2) == r2 && FlipBits(f3) == r1
  {
  }

  /** The images of x are closed under both symmetries: a quarter turn and a
   *  flip map the k-th image to another image. */
  lemma {:induction false} ImagesClosed(x: bv16, k: nat)
    requires x < 512 && k < 8
    ensures RotateBits90Clockwise(Image(x, k)) == Image(x, if k < 4 then (k + 1) % 4 else 4 + (k - 3) % 4)
    ensures FlipBits(Image(x, k)) == Image(x, if k < 4 then 4 + (4 - k) % 4 else (8 - k) % 4)
  {
    FlipOfTurns(x);
    var f := FlipBits(x);
    assert Turn(x, 0) == x && Turn(f, 0) == f;
    assert Turn(x, 1) == RotateBits90Clockwise(x);
    assert Turn(x, 2) == RotateBits90Clockwise(Turn(x, 1));
    assert Turn(x, 3) == RotateBits90Clockwise(Turn(x, 2));
    assert Turn(f, 1) == RotateBits90Clockwise(f);
    assert Turn(f, 2) == RotateBits90Clockwise(Turn(f, 1));
    assert Turn(f, 3) == RotateBits90Clockwise(Turn(f, 2));
    assert k in {0, 1, 2, 3, 4, 5, 6, 7};
  }

  lemma OrbitRotateClosed(x: bv16, y: bv16)
    requires x < 512 && y in Orbit(x)
    ensures RotateBits90Clockwise(y) in Orbit(x)
  {
    var k :| 0 <= k < 8 && Orbit(x)[k] == y;
    ImagesClosed(x, k);
  }

  lemma OrbitFlipClosed(x: bv16, y: bv16)
    requires x < 512 && y in Orbit(x)
    ensures FlipBits(y) in Orbit(x)
  {
    var k :| 0 <= k < 8 && Orbit(x)[k] == y;
    ImagesClosed(x, k);
  }

  /** The orbit of x is closed under both symmetries in both directions, so
   *  writing one value over the whole orbit keeps a symmetric table symmetric. */
  lemma {:induction false} OrbitClosed(x: bv16, y: bv16)
    requires x < 512 && y < 512
    ensures y in Orbit(x) <==> RotateBits90Clockwise(y) in Orbit(x)
    ensures y in Orbit(x) <==> FlipBits(y) in Orbit(x)
  {
    RotateFourTimes(y);
    FlipTwice(y);
    var r1 := RotateBits90Clockwise(y);
    var r2 := RotateBits90Clockwise(r1);
    var r3 := RotateBits90Clockwise(r2);
    if y in Orbit(x) {
      OrbitRotateClosed(x, y);
      OrbitFlipClosed(x, y);
    }
    if r1 in Orbit(x) {
      OrbitRotateClosed(x, r1);
      OrbitRotateClosed(x, r2);
      OrbitRotateClosed(x, r3);
    }
    if FlipBits(y) in Orbit(x) {
      OrbitFlipClosed(x, FlipBits(y));
    }
  }

  /** Turning keeps the centre cell and the number of live neighbours. */
  lemma {:induction false} TurnKeepsCentreAndCount(x: bv16, k: nat)
    requires x < 512
    ensures Turn(x, k) & CenterBit == x & CenterBit
    ensures Pop9(Turn(x, k) & RingBits) == Pop9(x & RingBits)
    decreases k
  {
    if k > 0 {
      TurnKeepsCentreAndCount(x, k - 1);
      SymmetriesKeepCentreAndCount(Turn(x, k - 1));
    }
  }

  /** Every image of x has the centre cell and the number of live neighbours of x. */
  lemma {:induction false} ImageKeepsCentreAndCount(x: bv16, k: nat)
    requires x < 512 && k < 8
    ensures Image(x, k) & CenterBit == x & CenterBit
    ensures Pop9(Image(x, k) & RingBits) == Pop9(x & RingBits)
  {
    if k < 4 {
      TurnKeepsCentreAndCount(x, k);
    } else {
      SymmetriesKeepCentreAndCount(x);
      TurnKeepsCentreAndCount(FlipBits(x), k - 4);
    }
  }

  // The four 3x3 windows of a 4x4 block read by convertTo4x4Map.  Window
  // (r0, c0) holds block rows r0..r0+2 and columns c0..c0+2; the centre of the
  // window is block cell (r0+1, c0+1).

  /** Rows 0..2, columns 0..2 of the block. */
  function Window00(i: bv16): (r: bv16)
    ensures r < 512
  {
    ((i & 57344) >> 13) | ((i & 3584) >> 6) | ((i & 224) << 1)
  }

  /** Rows 0..2, columns 1..3 of the block. */
  function Window01(i: bv16): (r: bv16)
    ensures r < 512
  {
    ((i & 28672) >> 12) | ((i & 1792) >> 5) | ((i & 112) << 2)
  }

  /** Rows 1..3, columns 0..2 of the block. */
  function Window10(i: bv16): (r: bv16)
    ensures r < 512
  {
    ((i & 3584) >> 9) | ((i & 224) >> 2) | ((i & 14) << 5)
  }

  /** Rows 1..3, columns 1..3 of the block. */
  function Window11(i: bv16): (r: bv16)
    ensures r < 512
  {
    ((i & 1792) >> 8) | ((i & 112) >> 1) | ((i & 7) << 6)
  }

  /** Block cell (row, col) of a 4x4 index. */
  predicate BlockCell(i: bv16, row: nat, col: nat)
    requires row < 4 && col < 4
  {
    Bit(i, 15 - 4 * row - col)
  }

  /** Cell (row, col) of a 3x3 pattern: rows are stored from the low bits up,
   *  and within a row the leftmost cell is the highest bit. */
  predicate PatternCell(x: bv16, row: nat, col: nat)
    requires row < 3 && col < 3
  {
    Bit(x, 3 * row + 2 - col)
  }

  /** The 3x3 pattern w is block rows r0..r0+2, columns c0..c0+2 of the 4x4 index i. */
  predicate SubBlock(w: bv16, i: bv16, r0: nat, c0: nat)
    requires r0 < 2 && c0 < 2
  {
    && (PatternCell(w, 0, 0) <==> BlockCell(i, r0, c0))
    && (PatternCell(w, 0, 1) <==> BlockCell(i, r0, c0 + 1))
    && (PatternCell(w, 0, 2) <==> BlockCell(i, r0, c0 + 2))
    && (PatternCell(w, 1, 0) <==> BlockCell(i, r0 + 1, c0))
    && (PatternCell(w, 1, 1) <==> BlockCell(i, r0 + 1, c0 + 1))
    && (PatternCell(w, 1, 2) <==> BlockCell(i, r0 + 1, c0 + 2))
    && (PatternCell(w, 2, 0) <==> BlockCell(i, r0 + 2, c0))
    && (PatternCell(w, 2, 1) <==> BlockCell(i, r0 + 2, c0 + 1))
    && (PatternCell(w, 2, 2) <==> BlockCell(i, r0 + 2, c0 + 2))
  }

  lemma Window00IsSubBlock(i: bv16)
    ensures SubBlock(Window00(i), i, 0, 0)
  {
  }

  lemma Window01IsSubBlock(i: bv16)
    ensures SubBlock(Window01(i), i, 0, 1)
  {
  }

  lemma Window10IsSubBlock(i: bv16)
    ensures SubBlock(Window10(i), i, 1, 0)
  {
  }

  lemma Window11IsSubBlock(i: bv16)
    ensures SubBlock(Window11(i), i, 1, 1)
  {
  }

  /** Each window is exactly the 3x3 sub-block it claims to be. */
  lemma WindowsAreSubBlocks(i: bv16)
    ensures SubBlock(Window00(i), i, 0, 0)
    ensures SubBlock(Window01(i), i, 0, 1)
    ensures SubBlock(Window10(i), i, 1, 0)
    ensures SubBlock(Window11(i), i, 1, 1)
  {
    Window00IsSubBlock(i);
    Window01IsSubBlock(i);
    Window10IsSubBlock(i);
    Window11IsSubBlock(i);
  }

  /** A 9-bit pattern converts to a table index and back. */
  lemma PatternRoundTrip(x: bv16)
    requires x < 512
    ensures x as int < 512 && (x as int) as bv16 == x
  {
  }
}
