/** Emulation of B0 rules (gollybase/liferules.cpp:420-533).  A rule with
 *  birth on zero neighbours would switch on the whole empty universe, so the
 *  engine runs a pair of derived rules that never do: on even generations the
 *  cells are stored inverted, on odd generations the rule maps inverted cells
 *  back.  The three builders rewrite the birth and survival digit strings;
 *  the tables come from createRuleMap on the new strings.
 *
 *  This module states the rewritten strings as functions and proves what
 *  each builder promises about them and about the table built from them.
 */
module B0Rules {
  import opened RuleBits
  import opened RuleTables
  import opened RuleSyntax

  /** The digit string a builder loop writes when it walks i = 0, 1, ..., k - 1
   *  and appends the digit i (or n - i when mirrored) whenever the presence
   *  of i in s is keep.  Presence is strchr on the digit. */
  function Picked(s: string, n: int, k: int, keep: bool, mirror: bool): (r: string)
    requires 0 <= n <= 8 && 0 <= k <= n + 1
    ensures DigitsAtMost(r, 8)
    decreases k
  {
    if k == 0 then []
    else
      var i := k - 1;
      Picked(s, n, i, keep, mirror) + (if HasDigit(s, i) == keep then [Digit(if mirror then n - i else i)] else [])
  }

  /** createB0EvenRuleMap: every digit 0..n missing from a part, in the same part. */
  function EvenParts(birth: string, survival: string, n: int): (r: Parts)
    requires 0 <= n <= 8
    ensures DigitsAtMost(r.birth, 8) && DigitsAtMost(r.survival, 8)
  {
    Parts(Picked(birth, n, n + 1, false, false), Picked(survival, n, n + 1, false, false))
  }

  /** createB0OddRuleMap: birth n - x for each survival digit x, and survival
   *  n - x for each birth digit x. */
  function OddParts(birth: string, survival: string, n: int): (r: Parts)
    requires 0 <= n <= 8
    ensures DigitsAtMost(r.birth, 8) && DigitsAtMost(r.survival, 8)
  {
    Parts(Picked(survival, n, n + 1, true, true), Picked(birth, n, n + 1, true, true))
  }

  /** createB0SmaxRuleMap: both changes at once, birth n - x for each digit x
   *  missing from survival and survival n - x for each digit x missing from
   *  birth. */
  function SmaxParts(birth: string, survival: string, n: int): (r: Parts)
    requires 0 <= n <= 8
    ensures DigitsAtMost(r.birth, 8) && DigitsAtMost(r.survival, 8)
  {
    Parts(Picked(survival, n, n + 1, false, true), Picked(birth, n, n + 1, false, true))
  }

  //
  // What the strings contain
  //

  /** The digits of Picked: only digits up to n, and digit d exactly when its
   *  source digit (d, or n - d when mirrored) was visited and its presence
   *  in s is keep. */
  lemma {:induction false} PickedDigits(s: string, n: int, k: int, keep: bool, mirror: bool, d: int)
    requires 0 <= n <= 8 && 0 <= k <= n + 1
    ensures DigitsAtMost(Picked(s, n, k, keep, mirror), n)
    ensures HasDigit(Picked(s, n, k, keep, mirror), d) <==>
      var src := if mirror then n - d else d;
      0 <= d <= n && 0 <= src < k && HasDigit(s, src) == keep
    decreases k
  {
    if k > 0 {
      var i := k - 1;
      var front := Picked(s, n, i, keep, mirror);
      var last: string := if HasDigit(s, i) == keep then [Digit(if mirror then n - i else i)] else [];
      PickedDigits(s, n, i, keep, mirror, d);
      assert Picked(s, n, k, keep, mirror) == front + last;
      assert forall x :: x in front + last <==> x in front || x in last;
      if 0 <= d <= 9 {
        DigitInjective(d, if mirror then n - i else i);
      }
      assert forall j | 0 <= j < |last| :: last[j] == Digit(if mirror then n - i else i);
      assert forall j | 0 <= j < |front + last| :: (front + last)[j] == if j < |front| then front[j] else last[j - |front|];
    }
  }

  /** Even generations: a part has digit d exactly when the original part
   *  does not (gollybase/liferules.cpp:505-533). */
  lemma EvenPartsMeaning(birth: string, survival: string, n: int, d: int)
    requires 0 <= n <= 8
    ensures var r := EvenParts(birth, survival, n);
      && DigitsAtMost(r.birth, n) && DigitsAtMost(r.survival, n)
      && (HasDigit(r.birth, d) <==> 0 <= d <= n && !HasDigit(birth, d))
      && (HasDigit(r.survival, d) <==> 0 <= d <= n && !HasDigit(survival, d))
  {
    PickedDigits(birth, n, n + 1, false, false, d);
    PickedDigits(survival, n, n + 1, false, false, d);
  }

  /** Odd generations: birth has d exactly when the original survival has
   *  n - d, and survival has d exactly when the original birth has n - d
   *  (gollybase/liferules.cpp:474-502). */
  lemma OddPartsMeaning(birth: string, survival: string, n: int, d: int)
    requires 0 <= n <= 8
    ensures var r := OddParts(birth, survival, n);
      && DigitsAtMost(r.birth, n) && DigitsAtMost(r.survival, n)
      && (HasDigit(r.birth, d) <==> 0 <= d <= n && HasDigit(survival, n - d))
      && (HasDigit(r.survival, d) <==> 0 <= d <= n && HasDigit(birth, n - d))
  {
    PickedDigits(survival, n, n + 1, true, true, d);
    PickedDigits(birth, n, n + 1, true, true, d);
  }

  /** B0 with Smax: birth has d exactly when the original survival lacks
   *  n - d, and survival has d exactly when the original birth lacks n - d
   *  (gollybase/liferules.cpp:443-471). */
  lemma SmaxPartsMeaning(birth: string, survival: string, n: int, d: int)
    requires 0 <= n <= 8
    ensures var r := SmaxParts(birth, survival, n);
      && DigitsAtMost(r.birth, n) && DigitsAtMost(r.survival, n)
      && (HasDigit(r.birth, d) <==> 0 <= d <= n && !HasDigit(survival, n - d))
      && (HasDigit(r.survival, d) <==> 0 <= d <= n && !HasDigit(birth, n - d))
  {
    PickedDigits(survival, n, n + 1, false, true, d);
    PickedDigits(birth, n, n + 1, false, true, d);
  }

  //
  // What the tables do
  //

  /** The pattern with every counted neighbour and the centre inverted. */
  function Invert(x: bv16, mask: bv16): (y: bv16)
    requires x < 512
    ensures y < 512
  {
    x ^ (mask & RingBits) ^ CenterBit
  }

  /** Inverting a pattern inverts its centre and turns c counted live
   *  neighbours into n - c, where n is the size of the neighbourhood. */
  lemma InvertCounts(x: bv16, mask: bv16)
    requires x < 512
    ensures Bit(Invert(x, mask), 4) == !Bit(x, 4)
    ensures NeighbourCount(Invert(x, mask), mask) == Pop9(mask & RingBits) - NeighbourCount(x, mask)
    ensures 0 <= NeighbourCount(x, mask) <= Pop9(mask & RingBits)
  {
    InvertBit4(x, mask);
    InvertSum(x, mask);
    assert NeighbourCount(Invert(x, mask), mask) == Pop9(Invert(x, mask) & RingBits & mask);
    assert 0 <= Pop9(Invert(x, mask) & RingBits & mask);
  }

  lemma InvertSum(x: bv16, mask: bv16)
    requires x < 512
    ensures Pop9(Invert(x, mask) & RingBits & mask) + Pop9(x & RingBits & mask) == Pop9(mask & RingBits)
  {
    var live, ring, dead := x & RingBits & mask, mask & RingBits, Invert(x, mask) & RingBits & mask;
    InvertRing(x, mask);
    CountSplit(live, ring, dead);
  }

  /** The counted cells of the inverted pattern are the counted cells that
   *  are dead in x. */
  lemma InvertRing(x: bv16, mask: bv16)
    requires x < 512
    ensures Invert(x, mask) & RingBits & mask == (mask & RingBits) & !(x & RingBits & mask)
    ensures (x & RingBits & mask) & (mask & RingBits) == x & RingBits & mask
  {
  }

  /** A part z of a word w and the rest of w have as many set bits as w. */
  lemma CountSplit(z: bv16, w: bv16, rest: bv16)
    requires z & w == z && rest == w & !z
    ensures Pop9(rest) + Pop9(z) == Pop9(w)
  {
    SplitBit0(z, w);
    SplitBit1(z, w);
    SplitBit2(z, w);
    SplitBit3(z, w);
    SplitBit4(z, w);
    SplitBit5(z, w);
    SplitBit6(z, w);
    SplitBit7(z, w);
    SplitBit8(z, w);
    Pop9Sum(w & !z, z, w);
  }

  /** Counts add up when the bits do. */
  lemma Pop9Sum(a: bv16, b: bv16, c: bv16)
    requires BitValue(a, 0) + BitValue(b, 0) == BitValue(c, 0)
    requires BitValue(a, 1) + BitValue(b, 1) == BitValue(c, 1)
    requires BitValue(a, 2) + BitValue(b, 2) == BitValue(c, 2)
    requires BitValue(a, 3) + BitValue(b, 3) == BitValue(c, 3)
    requires BitValue(a, 4) + BitValue(b, 4) == BitValue(c, 4)
    requires BitValue(a, 5) + BitValue(b, 5) == BitValue(c, 5)
    requires BitValue(a, 6) + BitValue(b, 6) == BitValue(c, 6)
    requires BitValue(a, 7) + BitValue(b, 7) == BitValue(c, 7)
    requires BitValue(a, 8) + BitValue(b, 8) == BitValue(c, 8)
    ensures Pop9(a) + Pop9(b) == Pop9(c)
  {
    Pop9Unfold(a);
    Pop9Unfold(b);
    Pop9Unfold(c);
  }

  lemma InvertBit4(x: bv16, mask: bv16)
    requires x < 512
    ensures Bit(Invert(x, mask), 4) == !Bit(x, 4)
  {
  }

  // One bit of a split word: it is set in exactly one of the part and the rest.

  lemma SplitBit0(z: bv16, w: bv16)
    requires z & w == z
    ensures BitValue(w & !z, 0) + BitValue(z, 0) == BitValue(w, 0)
  {
  }

  lemma SplitBit1(z: bv16, w: bv16)
    requires z & w == z
    ensures BitValue(w & !z, 1) + BitValue(z, 1) == BitValue(w, 1)
  {
  }

  lemma SplitBit2(z: bv16, w: bv16)
    requires z & w == z
    ensures BitValue(w & !z, 2) + BitValue(z, 2) == BitValue(w, 2)
  {
  }

  lemma SplitBit3(z: bv16, w: bv16)
    requires z & w == z
    ensures BitValue(w & !z, 3) + BitValue(z, 3) == BitValue(w, 3)
  {
  }

  lemma SplitBit4(z: bv16, w: bv16)
    requires z & w == z
    ensures BitValue(w & !z, 4) + BitValue(z, 4) == BitValue(w, 4)
  {
  }

  lemma SplitBit5(z: bv16, w: bv16)
    requires z & w == z
    ensures BitValue(w & !z, 5) + BitValue(z, 5) == BitValue(w, 5)
  {
  }

  lemma SplitBit6(z: bv16, w: bv16)
    requires z & w == z
    ensures BitValue(w & !z, 6) + BitValue(z, 6) == BitValue(w, 6)
  {
  }

  lemma SplitBit7(z: bv16, w: bv16)
    requires z & w == z
    ensures BitValue(w & !z, 7) + BitValue(z, 7) == BitValue(w, 7)
  {
  }

  lemma SplitBit8(z: bv16, w: bv16)
    requires z & w == z
    ensures BitValue(w & !z, 8) + BitValue(z, 8) == BitValue(w, 8)
  {
  }

  /** Entry x of the table of a totalistic rule. */
  function TotalisticEntry(birth: string, survival: string, x: bv16, mask: bv16): bv8
  {
    if (if Bit(x, 4) then HasDigit(survival, NeighbourCount(x, mask)) else HasDigit(birth, NeighbourCount(x, mask)))
    then 1 else 0
  }

  /** The table of a totalistic rule built from scratch. */
  function TotalisticTable(birth: string, survival: string, mask: bv16): (t: seq<bv8>)
    requires DigitsAtMost(birth, 8) && DigitsAtMost(survival, 8)
    ensures |t| == 512
  {
    var e := Tables(EmptyTable(), 0, seq(18, i => 0), seq(18, i => 0));
    RuleMap(e, birth, survival, true, mask).value.table
  }

  /** Entry x of that table, as TotalisticEntry states it. */
  lemma TotalisticTableAt(birth: string, survival: string, mask: bv16, x: bv16)
    requires DigitsAtMost(birth, 8) && DigitsAtMost(survival, 8) && x < 512
    ensures Lookup(TotalisticTable(birth, survival, mask), x) == TotalisticEntry(birth, survival, x, mask)
  {
    var e := Tables(EmptyTable(), 0, seq(18, i => 0), seq(18, i => 0));
    TotalisticRuleMapMeaning(e, birth, survival, mask);
    PatternRoundTrip(x);
  }

  /** B0 without Smax, even generations: every entry of the even table is
   *  the opposite of the original rule's entry, so a normal generation steps
   *  to an inverted one. */
  lemma EvenTableInverts(birth: string, survival: string, mask: bv16, n: int, x: bv16)
    requires DigitsAtMost(birth, 8) && DigitsAtMost(survival, 8) && x < 512
    requires n == Pop9(mask & RingBits) && n <= 8
    ensures var r := EvenParts(birth, survival, n);
      Lookup(TotalisticTable(r.birth, r.survival, mask), x) == 1 - Lookup(TotalisticTable(birth, survival, mask), x)
  {
    var r := EvenParts(birth, survival, n);
    var y := x;
    InvertCounts(x, mask);
    EvenPartsMeaning(birth, survival, n, NeighbourCount(x, mask));
    TotalisticTableAt(r.birth, r.survival, mask, y);
    TotalisticTableAt(birth, survival, mask, x);
  }

  /** B0 without Smax, odd generations: the odd table read on an inverted
   *  pattern gives the original rule's entry for the pattern, so an
   *  inverted generation steps back to a normal one. */
  lemma OddTableRestores(birth: string, survival: string, mask: bv16, n: int, x: bv16)
    requires DigitsAtMost(birth, 8) && DigitsAtMost(survival, 8) && x < 512
    requires n == Pop9(mask & RingBits) && n <= 8
    ensures var r := OddParts(birth, survival, n);
      Lookup(TotalisticTable(r.birth, r.survival, mask), Invert(x, mask)) == Lookup(TotalisticTable(birth, survival, mask), x)
  {
    var r := OddParts(birth, survival, n);
    var y := Invert(x, mask);
    InvertCounts(x, mask);
    OddPartsMeaning(birth, survival, n, NeighbourCount(y, mask));
    TotalisticTableAt(r.birth, r.survival, mask, y);
    TotalisticTableAt(birth, survival, mask, x);
  }

  /** B0 with Smax: the table read on an inverted pattern gives the inverse
   *  of the original rule's entry, so the whole universe is kept inverted in
   *  every generation. */
  lemma SmaxTableInverts(birth: string, survival: string, mask: bv16, n: int, x: bv16)
    requires DigitsAtMost(birth, 8) && DigitsAtMost(survival, 8) && x < 512
    requires n == Pop9(mask & RingBits) && n <= 8
    ensures var r := SmaxParts(birth, survival, n);
      Lookup(TotalisticTable(r.birth, r.survival, mask), Invert(x, mask)) == 1 - Lookup(TotalisticTable(birth, survival, mask), x)
  {
    var r := SmaxParts(birth, survival, n);
    var y := Invert(x, mask);
    InvertCounts(x, mask);
    SmaxPartsMeaning(birth, survival, n, NeighbourCount(y, mask));
    TotalisticTableAt(r.birth, r.survival, mask, y);
    TotalisticTableAt(birth, survival, mask, x);
  }

  //
  // The examples of the source comment (gollybase/liferules.cpp:420-440)
  //

  /** B03/S23 on even generations: B1245678/S0145678. */
  lemma EvenExample()
    ensures EvenParts("03", "23", 8) == Parts("1245678", "0145678")
  {
    Missing03();
    Missing23();
  }

  /** B03/S23 on odd generations: B56/S58, with the digits in loop order. */
  lemma OddExample()
    ensures OddParts("03", "23", 8) == Parts("65", "85")
  {
    Mirrored23();
    Mirrored03();
  }

  /** B03/S238 (B0 with S8): B123478/S0123467, with the digits in loop order. */
  lemma SmaxExample()
    ensures SmaxParts("03", "238", 8) == Parts("874321", "7643210")
  {
    MirroredMissing238();
    MirroredMissing03();
  }

  /** The digits missing from 03, ascending. */
  lemma Missing03()
    ensures Picked("03", 8, 9, false, false) == "1245678"
  {
    assert HasDigit("03", 0);
    assert !HasDigit("03", 1);
    assert !HasDigit("03", 2);
    assert HasDigit("03", 3);
    assert !HasDigit("03", 4);
    assert !HasDigit("03", 5);
    assert !HasDigit("03", 6);
    assert !HasDigit("03", 7);
    assert !HasDigit("03", 8);
    assert Picked("03", 8, 1, false, false) == "";
    assert Picked("03", 8, 2, false, false) == "1";
    assert Picked("03", 8, 3, false, false) == "12";
    assert Picked("03", 8, 4, false, false) == "12";
    assert Picked("03", 8, 5, false, false) == "124";
    assert Picked("03", 8, 6, false, false) == "1245";
    assert Picked("03", 8, 7, false, false) == "12456";
    assert Picked("03", 8, 8, false, false) == "124567";
  }

  /** The digits missing from 23, ascending. */
  lemma Missing23()
    ensures Picked("23", 8, 9, false, false) == "0145678"
  {
    assert !HasDigit("23", 0);
    assert !HasDigit("23", 1);
    assert HasDigit("23", 2);
    assert HasDigit("23", 3);
    assert !HasDigit("23", 4);
    assert !HasDigit("23", 5);
    assert !HasDigit("23", 6);
    assert !HasDigit("23", 7);
    assert !HasDigit("23", 8);
    assert Picked("23", 8, 1, false, false) == "0";
    assert Picked("23", 8, 2, false, false) == "01";
    assert Picked("23", 8, 3, false, false) == "01";
    assert Picked("23", 8, 4, false, false) == "01";
    assert Picked("23", 8, 5, false, false) == "014";
    assert Picked("23", 8, 6, false, false) == "0145";
    assert Picked("23", 8, 7, false, false) == "01456";
    assert Picked("23", 8, 8, false, false) == "014567";
  }

  /** 8 - x for the digits x of 23, in the order of x. */
  lemma Mirrored23()
    ensures Picked("23", 8, 9, true, true) == "65"
  {
    assert !HasDigit("23", 0);
    assert !HasDigit("23", 1);
    assert HasDigit("23", 2);
    assert HasDigit("23", 3);
    assert !HasDigit("23", 4);
    assert !HasDigit("23", 5);
    assert !HasDigit("23", 6);
    assert !HasDigit("23", 7);
    assert !HasDigit("23", 8);
    assert Picked("23", 8, 1, true, true) == "";
    assert Picked("23", 8, 2, true, true) == "";
    assert Picked("23", 8, 3, true, true) == "6";
    assert Picked("23", 8, 4, true, true) == "65";
    assert Picked("23", 8, 5, true, true) == "65";
    assert Picked("23", 8, 6, true, true) == "65";
    assert Picked("23", 8, 7, true, true) == "65";
    assert Picked("23", 8, 8, true, true) == "65";
  }

  /** 8 - x for the digits x of 03, in the order of x. */
  lemma Mirrored03()
    ensures Picked("03", 8, 9, true, true) == "85"
  {
    assert HasDigit("03", 0);
    assert !HasDigit("03", 1);
    assert !HasDigit("03", 2);
    assert HasDigit("03", 3);
    assert !HasDigit("03", 4);
    assert !HasDigit("03", 5);
    assert !HasDigit("03", 6);
    assert !HasDigit("03", 7);
    assert !HasDigit("03", 8);
    assert Picked("03", 8, 1, true, true) == "8";
    assert Picked("03", 8, 2, true, true) == "8";
    assert Picked("03", 8, 3, true, true) == "8";
    assert Picked("03", 8, 4, true, true) == "85";
    assert Picked("03", 8, 5, true, true) == "85";
    assert Picked("03", 8, 6, true, true) == "85";
    assert Picked("03", 8, 7, true, true) == "85";
    assert Picked("03", 8, 8, true, true) == "85";
  }

  /** 8 - x for the digits x missing from 238, in the order of x. */
  lemma MirroredMissing238()
    ensures Picked("238", 8, 9, false, true) == "874321"
  {
    assert !HasDigit("238", 0);
    assert !HasDigit("238", 1);
    assert HasDigit("238", 2);
    assert HasDigit("238", 3);
    assert !HasDigit("238", 4);
    assert !HasDigit("238", 5);
    assert !HasDigit("238", 6);
    assert !HasDigit("238", 7);
    assert HasDigit("238", 8);
    assert Picked("238", 8, 1, false, true) == "8";
    assert Picked("238", 8, 2, false, true) == "87";
    assert Picked("238", 8, 3, false, true) == "87";
    assert Picked("238", 8, 4, false, true) == "87";
    assert Picked("238", 8, 5, false, true) == "874";
    assert Picked("238", 8, 6, false, true) == "8743";
    assert Picked("238", 8, 7, false, true) == "87432";
    assert Picked("238", 8, 8, false, true) == "874321";
  }

  /** 8 - x for the digits x missing from 03, in the order of x. */
  lemma MirroredMissing03()
    ensures Picked("03", 8, 9, false, true) == "7643210"
  {
    assert HasDigit("03", 0);
    assert !HasDigit("03", 1);
    assert !HasDigit("03", 2);
    assert HasDigit("03", 3);
    assert !HasDigit("03", 4);
    assert !HasDigit("03", 5);
    assert !HasDigit("03", 6);
    assert !HasDigit("03", 7);
    assert !HasDigit("03", 8);
    assert Picked("03", 8, 1, false, true) == "";
    assert Picked("03", 8, 2, false, true) == "7";
    assert Picked("03", 8, 3, false, true) == "76";
    assert Picked("03", 8, 4, false, true) == "76";
    assert Picked("03", 8, 5, false, true) == "764";
    assert Picked("03", 8, 6, false, true) == "7643";
    assert Picked("03", 8, 7, false, true) == "76432";
    assert Picked("03", 8, 8, false, true) == "764321";
  }
}
