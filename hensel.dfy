/** The static letter tables of the rule engine (the liferules constructor,
 *  gollybase/liferules.cpp:44-56): the characters a rule may contain, the
 *  Hensel letters valid for each neighbour count, and one canonical 3x3
 *  pattern per letter.
 */
module Hensel {
  import opened RuleBits

  /** valid_rule_letters: digits 0..8 (indices 0..8), the thirteen Hensel
   *  letters (indices 9..21) and the negation sign (index 22). */
  const ValidRuleLetters: string := "012345678ceaiknjqrytwz-"

  /** rule_letters[3]: every Hensel letter, in canonical order. */
  const LetterOrder: string := "ceaiknjqrytwz"

  /** rule_letters[0..3]: the letters valid for 1, 2, 3 and 4 live neighbours
   *  (counts 5, 6 and 7 use the lists of 3, 2 and 1). */
  const RuleLetters: seq<string> := ["ce", "ceaikn", "ceaiknjqry", "ceaiknjqrytwz"]

  /** rule_neighborhoods[0..3]: the canonical pattern of each letter for 1..4
   *  live neighbours. */
  const RuleNeighborhoods: seq<seq<bv16>> := [
    [1, 2],
    [5, 10, 3, 40, 33, 68],
    [69, 42, 11, 7, 98, 13, 14, 70, 41, 97],
    [325, 170, 15, 45, 99, 71, 106, 102, 43, 101, 105, 78, 108]
  ]

  /** strchr on a constant table: the position of c in s, or -1 when c is absent. */
  function IndexOf(s: string, c: char): (r: int)
    ensures -1 <= r < |s|
    ensures r >= 0 ==> s[r] == c && forall k :: 0 <= k < r ==> s[k] != c
    ensures r == -1 <==> c !in s
  {
    IndexFrom(s, c, 0)
  }

  /** The scan behind IndexOf, from position i on. */
  function IndexFrom(s: string, c: char, i: nat): (r: int)
    requires i <= |s|
    ensures -1 <= r < |s|
    ensures r >= 0 ==> i <= r && s[r] == c && forall k :: i <= k < r ==> s[k] != c
    ensures r == -1 <==> forall k :: i <= k < |s| ==> s[k] != c
    decreases |s| - i
  {
    if i == |s| then -1
    else if s[i] == c then i
    else IndexFrom(s, c, i + 1)
  }

  /** The row of rule_neighborhoods that setSymmetrical reads for a count of
   *  1..7 live neighbours: counts above 4 are reflected to 8 - count. */
  function TableRow(value: int): (r: nat)
    requires 1 <= value <= 7
    ensures r < 4
  {
    var nindex := value - 1;
    if nindex > 3 then 6 - nindex else nindex
  }

  /** The number of Hensel letters that have a pattern for the given count. */
  function LetterCount(value: int): (r: nat)
    requires 1 <= value <= 7
    ensures 2 <= r <= 13
  {
    |RuleNeighborhoods[TableRow(value)]|
  }

  /** The canonical 3x3 pattern of letter lindex for `value` live neighbours,
   *  before the centre bit is added. */
  function LetterPattern(value: int, lindex: int): bv16
    requires 1 <= value <= 7 && 0 <= lindex < LetterCount(value)
  {
    var xorbit: bv16 := if value - 1 > 3 then 0x1ef else 0;
    RuleNeighborhoods[TableRow(value)][lindex] ^ xorbit
  }

  /** Each row of rule_neighborhoods lists as many patterns as rule_letters lists letters. */
  lemma TablesAgree()
    ensures forall k | 0 <= k < 4 :: |RuleNeighborhoods[k]| == |RuleLetters[k]|
    ensures forall k | 0 <= k < 4 :: RuleLetters[k] <= LetterOrder
  {
  }

  /** Every pattern of row k is a ring pattern (centre clear) with exactly k+1 live neighbours. */
  ghost predicate RowShaped(k: nat)
    requires k < 4
  {
    forall j | 0 <= j < |RuleNeighborhoods[k]| :: Shaped(RuleNeighborhoods[k][j], k + 1)
  }

  /** A ring pattern (centre clear) with n live neighbours. */
  ghost predicate Shaped(x: bv16, n: int) {
    x < 512 && x & CenterBit == 0 && Pop9(x & RingBits) == n
  }

  lemma Row0Shaped()
    ensures RowShaped(0)
  {
    Pop9Unfold(1 & RingBits);
    assert Pop9(1 & RingBits) == 1;
    Pop9Unfold(2 & RingBits);
    assert Pop9(2 & RingBits) == 1;
  }

  lemma Row1Shaped()
    ensures RowShaped(1)
  {
    Pop9Unfold(5 & RingBits);
    assert Pop9(5 & RingBits) == 2;
    Pop9Unfold(10 & RingBits);
    assert Pop9(10 & RingBits) == 2;
    Pop9Unfold(3 & RingBits);
    assert Pop9(3 & RingBits) == 2;
    Pop9Unfold(40 & RingBits);
    assert Pop9(40 & RingBits) == 2;
    Pop9Unfold(33 & RingBits);
    assert Pop9(33 & RingBits) == 2;
    Pop9Unfold(68 & RingBits);
    assert Pop9(68 & RingBits) == 2;
  }

  /** The first five patterns of row 2. */
  lemma Row2FirstHalf()
    ensures forall j | 0 <= j < 5 :: var x := RuleNeighborhoods[2][j]; x < 512 && x & CenterBit == 0 && Pop9(x & RingBits) == 3
  {
    Pop9Unfold(69 & RingBits);
    assert Pop9(69 & RingBits) == 3;
    Pop9Unfold(42 & RingBits);
    assert Pop9(42 & RingBits) == 3;
    Pop9Unfold(11 & RingBits);
    assert Pop9(11 & RingBits) == 3;
    Pop9Unfold(7 & RingBits);
    assert Pop9(7 & RingBits) == 3;
    Pop9Unfold(98 & RingBits);
    assert Pop9(98 & RingBits) == 3;
  }

  /** The last five patterns of row 2. */
  lemma Row2SecondHalf()
    ensures forall j | 5 <= j < 10 :: var x := RuleNeighborhoods[2][j]; x < 512 && x & CenterBit == 0 && Pop9(x & RingBits) == 3
  {
    Pop9Unfold(13 & RingBits);
    assert Pop9(13 & RingBits) == 3;
    Pop9Unfold(14 & RingBits);
    assert Pop9(14 & RingBits) == 3;
    Pop9Unfold(70 & RingBits);
    assert Pop9(70 & RingBits) == 3;
    Pop9Unfold(41 & RingBits);
    assert Pop9(41 & RingBits) == 3;
    Pop9Unfold(97 & RingBits);
    assert Pop9(97 & RingBits) == 3;
  }

  lemma Row2Shaped()
    ensures RowShaped(2)
  {
    Row2FirstHalf();
    Row2SecondHalf();
  }

  /** The first seven patterns of row 3. */
  lemma Row3FirstHalf()
    ensures forall j | 0 <= j < 7 :: var x := RuleNeighborhoods[3][j]; x < 512 && x & CenterBit == 0 && Pop9(x & RingBits) == 4
  {
    Pop9Unfold(325 & RingBits);
    assert Pop9(325 & RingBits) == 4;
    Pop9Unfold(170 & RingBits);
    assert Pop9(170 & RingBits) == 4;
    Pop9Unfold(15 & RingBits);
    assert Pop9(15 & RingBits) == 4;
    Pop9Unfold(45 & RingBits);
    assert Pop9(45 & RingBits) == 4;
    Pop9Unfold(99 & RingBits);
    assert Pop9(99 & RingBits) == 4;
    Pop9Unfold(71 & RingBits);
    assert Pop9(71 & RingBits) == 4;
    Pop9Unfold(106 & RingBits);
    assert Pop9(106 & RingBits) == 4;
  }

  /** The last six patterns of row 3. */
  lemma Row3SecondHalf()
    ensures forall j | 7 <= j < 13 :: var x := RuleNeighborhoods[3][j]; x < 512 && x & CenterBit == 0 && Pop9(x & RingBits) == 4
  {
    Pop9Unfold(102 & RingBits);
    assert Pop9(102 & RingBits) == 4;
    Pop9Unfold(43 & RingBits);
    assert Pop9(43 & RingBits) == 4;
    Pop9Unfold(101 & RingBits);
    assert Pop9(101 & RingBits) == 4;
    Pop9Unfold(105 & RingBits);
    assert Pop9(105 & RingBits) == 4;
    Pop9Unfold(78 & RingBits);
    assert Pop9(78 & RingBits) == 4;
    Pop9Unfold(108 & RingBits);
    assert Pop9(108 & RingBits) == 4;
  }

  lemma Row3Shaped()
    ensures RowShaped(3)
  {
    Row3FirstHalf();
    Row3SecondHalf();
  }

  /** Complementing the ring of a pattern turns k live neighbours into 8 - k. */
  lemma RingComplement(x: bv16)
    requires x < 512 && x & CenterBit == 0
    ensures var y := x ^ 0x1ef; y < 512 && y & CenterBit == 0 && Pop9(y & RingBits) == 8 - Pop9(x & RingBits)
  {
    Pop9Unfold((x ^ 0x1ef) & RingBits);
    Pop9Unfold(x & RingBits);
  }

  /** Entry j of row k has the shape RowShaped promises. */
  lemma RowEntryShaped(k: nat, j: nat)
    requires k < 4 && j < |RuleNeighborhoods[k]|
    ensures Shaped(RuleNeighborhoods[k][j], k + 1)
  {
    if k == 0 {
      Row0Shaped();
    } else if k == 1 {
      Row1Shaped();
    } else if k == 2 {
      Row2Shaped();
    } else {
      Row3Shaped();
    }
  }

  /** The pattern setSymmetrical looks up for a count of 1..7 is a ring
   *  pattern with exactly that many live neighbours, so a letter only ever
   *  refines its own digit. */
  lemma {:induction false} LetterPatternShape(value: int, lindex: int)
    requires 1 <= value <= 7 && 0 <= lindex < LetterCount(value)
    ensures var x := LetterPattern(value, lindex);
      x < 512 && x & CenterBit == 0 && Pop9(x & RingBits) == value
  {
    var k := TableRow(value);
    RowEntryShaped(k, lindex);
    var x0 := RuleNeighborhoods[k][lindex];
    assert LetterPattern(value, lindex) == x0 ^ (if value > 4 then 0x1ef else 0);
    FlippedShape(x0, value);
  }

  /** Row TableRow(value) holds patterns with up to four live neighbours;
   *  flipping the ring of one turns its count n into 8 - n. */
  lemma FlippedShape(x0: bv16, value: int)
    requires 1 <= value <= 7 && Shaped(x0, TableRow(value) + 1)
    ensures var x := x0 ^ (if value > 4 then 0x1ef else 0);
      x < 512 && x & CenterBit == 0 && Pop9(x & RingBits) == value
  {
    if value > 4 {
      RingComplement(x0);
    } else {
      assert x0 ^ 0 == x0;
    }
  }

  /** The Hensel letters are distinct lower-case letters, so each is found
   *  at its own position. */
  lemma LetterOrderFacts(i: int)
    requires 0 <= i < |LetterOrder|
    ensures IndexOf(LetterOrder, LetterOrder[i]) == i
    ensures 'a' <= LetterOrder[i] <= 'z'
  {
    assert forall k, j | 0 <= k < j < |LetterOrder| :: LetterOrder[k] != LetterOrder[j];
    assert forall k | 0 <= k < |LetterOrder| :: 'a' <= LetterOrder[k] <= 'z';
  }
}
