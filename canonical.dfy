/** The canonical text of a rule (createCanonicalName,
 *  gollybase/liferules.cpp:301-381), stated as functions on the rule fields.
 *  The LifeRules class builds the same text character by character and is
 *  proved against CanonicalName.
 */
module CanonicalNames {
  import opened RuleBits
  import opened Hensel
  import opened RuleTables
  import opened RuleSyntax

  /** The letters of ceaiknjqrytwz whose bit is set among the first k bits of
   *  bits, in that order (the j-loop over rule_letters[3]). */
  function Letters(bits: bv32, k: nat): (r: string)
    requires k <= 13
  {
    if k == 0 then []
    else Letters(bits, k - 1) + (if Bit32(bits, k - 1) then [LetterOrder[k - 1]] else [])
  }

  /** The text for digit i of one half (slot i + off): nothing when its
   *  rulebits bit is clear, otherwise the digit, its letters, and a '-'
   *  followed by its negated letters when there are any. */
  function DigitName(e: Tables, off: nat, i: nat): string
    requires WellSized(e) && off <= SurvivalOffset && i <= 8
  {
    var slot := off + i;
    if !Bit32(e.rulebits, slot) then []
    else [Digit(i)] + LetterSuffix(e.letterBits[slot], e.negLetterBits[slot])
  }

  /** The letters after a digit: its letters, then a '-' followed by its
   *  negated letters when there are any. */
  function LetterSuffix(letters: bv32, negLetters: bv32): string {
    (if letters != 0 then Letters(letters, 13) else [])
    + (if negLetters != 0 then "-" + Letters(negLetters, 13) else [])
  }

  /** The texts of digits 0 .. k - 1 of one half, in order. */
  function PartName(e: Tables, off: nat, k: nat): string
    requires WellSized(e) && off <= SurvivalOffset && k <= 9
  {
    if k == 0 then [] else PartName(e, off, k - 1) + DigitName(e, off, k - 1)
  }

  /** The decimal text of n, as sprintf's %d writes it. */
  function DecimalString(n: nat): (r: string)
    ensures r != [] && forall i | 0 <= i < |r| :: '0' <= r[i] <= '9'
  {
    if n < 10 then [Digit(n)] else DecimalString(n / 10) + [Digit(n % 10)]
  }

  /** canonrule: W and the rule number for a Wolfram rule, otherwise B, the
   *  birth digits, /S, the survival digits and H or V for a non-Moore
   *  neighbourhood; then the bounded-grid suffix, which is empty for an
   *  unbounded universe. */
  function CanonicalName(s: Settings, e: Tables, m: Masks, suffix: string): string
    requires WellSized(e) && 0 <= s.neighbors <= 8
  {
    (if s.wolfram >= 0 then "W" + DecimalString(s.wolfram)
     else
       "B" + PartName(e, 0, s.neighbors + 1) + "/S" + PartName(e, SurvivalOffset, s.neighbors + 1)
       + (if s.mask == m.hexagonal then "H" else "") + (if s.mask == m.vonNeumann then "V" else ""))
    + suffix
  }

  //
  // The Wolfram name
  //

  /** The decimal text reads back as the number it was written from. */
  lemma {:induction false} DecimalRoundTrip(n: nat)
    ensures LeadingDigits(DecimalString(n)) == |DecimalString(n)|
    ensures Decimal(DecimalString(n)) == n
  {
    var r := DecimalString(n);
    LeadingAllDigits(r);
    if n >= 10 {
      DecimalRoundTrip(n / 10);
      assert r[..|r| - 1] == DecimalString(n / 10);
    }
  }

  /** A string of digits only is one run of leading digits. */
  lemma {:induction false} LeadingAllDigits(s: string)
    requires forall i | 0 <= i < |s| :: '0' <= s[i] <= '9'
    ensures LeadingDigits(s) == |s|
    decreases |s|
  {
    if s != [] {
      LeadingAllDigits(s[1..]);
    }
  }

  //
  // The letters
  //

  /** Letter j of ceaiknjqrytwz is in the text exactly when j < k and bit j
   *  is set, and every letter of the text comes from the first k. */
  lemma {:induction false} LettersMeaning(bits: bv32, k: nat, j: nat)
    requires k <= 13 && j < 13
    ensures LetterOrder[j] in Letters(bits, k) <==> j < k && Bit32(bits, j)
    ensures forall c | c in Letters(bits, k) :: 0 <= IndexOf(LetterOrder, c) < k
  {
    LetterOrderFacts(j);
    if k > 0 {
      LettersMeaning(bits, k - 1, j);
      LetterOrderFacts(k - 1);
      var front := Letters(bits, k - 1);
      var last: string := if Bit32(bits, k - 1) then [LetterOrder[k - 1]] else [];
      assert Letters(bits, k) == front + last;
      assert forall c :: c in front + last <==> c in front || c in last;
    }
  }

  /** The letters appear in the order of ceaiknjqrytwz, each at most once. */
  lemma {:induction false} LettersOrdered(bits: bv32, k: nat)
    requires k <= 13
    ensures var r := Letters(bits, k);
      forall a, b | 0 <= a < b < |r| :: IndexOf(LetterOrder, r[a]) < IndexOf(LetterOrder, r[b])
  {
    if k > 0 {
      LettersOrdered(bits, k - 1);
      var front := Letters(bits, k - 1);
      LettersMeaning(bits, k - 1, 0);
      LetterOrderFacts(k - 1);
      var r := Letters(bits, k);
      assert r == front + (if Bit32(bits, k - 1) then [LetterOrder[k - 1]] else []);
      forall a, b | 0 <= a < b < |r|
        ensures IndexOf(LetterOrder, r[a]) < IndexOf(LetterOrder, r[b])
      {
        if b >= |front| {
          assert r[a] in front;
        } else {
          assert r[a] == front[a] && r[b] == front[b];
        }
      }
    }
  }

  //
  // The name of a totalistic rule
  //

  /** No letter bits are set: the state of a totalistic rule. */
  predicate NoLetters(e: Tables)
    requires WellSized(e)
  {
    forall i | 0 <= i < 18 :: e.letterBits[i] == 0 && e.negLetterBits[i] == 0
  }

  /** The digits of s are in increasing order, each at most once. */
  predicate Ascending(s: string) {
    forall a, b | 0 <= a < b < |s| :: s[a] < s[b]
  }

  /** Without letters, the text of a half is the digits d < k whose rulebits
   *  bit is set, in increasing order. */
  lemma {:induction false} TotalisticPartName(e: Tables, off: nat, k: nat, d: int)
    requires WellSized(e) && NoLetters(e) && off <= SurvivalOffset && k <= 9
    ensures var r := PartName(e, off, k);
      && Ascending(r)
      && (forall c | c in r :: '0' <= c && c as int < '0' as int + k)
      && (HasDigit(r, d) <==> 0 <= d < k && Bit32(e.rulebits, off + d))
  {
    if k > 0 {
      TotalisticPartName(e, off, k - 1, d);
      var front := PartName(e, off, k - 1);
      var last := DigitName(e, off, k - 1);
      assert last == if Bit32(e.rulebits, off + k - 1) then [Digit(k - 1)] else [];
      var r := PartName(e, off, k);
      assert r == front + last;
      assert forall c :: c in r <==> c in front || c in last;
      if 0 <= d <= 9 {
        DigitInjective(d, k - 1);
      }
      forall a, b | 0 <= a < b < |r|
        ensures r[a] < r[b]
      {
        if b >= |front| {
          assert r[a] in front;
        } else {
          assert r[a] == front[a] && r[b] == front[b];
        }
      }
    }
  }

  /** The table state setrule starts from: empty table, no rule bits, no
   *  letter bits. */
  function ResetTables(): (e: Tables)
    ensures WellSized(e) && NoLetters(e)
  {
    Tables(EmptyTable(), 0, seq(18, i => 0), seq(18, i => 0))
  }

  /** The canonical halves of a totalistic rule list exactly the digits of
   *  its birth and survival parts, in increasing order and each once: B3/S32
   *  and B33/S23 are both named B3/S23. */
  lemma CanonicalTotalistic(birth: string, survival: string, n: int, mask: bv16, d: int)
    requires 0 <= n <= 8 && DigitsAtMost(birth, n) && DigitsAtMost(survival, n)
    ensures var e := RuleMap(ResetTables(), birth, survival, true, mask).value;
      var b := PartName(e, 0, n + 1); var s := PartName(e, SurvivalOffset, n + 1);
      && Ascending(b) && Ascending(s)
      && (HasDigit(b, d) <==> HasDigit(birth, d))
      && (HasDigit(s, d) <==> HasDigit(survival, d))
  {
    assert DigitsAtMost(birth, 8) && DigitsAtMost(survival, 8);
    TotalisticNoLetters(birth, survival, mask);
    TotalisticDigitBits(birth, survival, mask, d);
    var e := RuleMap(ResetTables(), birth, survival, true, mask).value;
    TotalisticHalf(e, 0, n, birth, d);
    TotalisticHalf(e, SurvivalOffset, n, survival, d);
  }

  /** A totalistic rule built from nothing has no letters. */
  lemma TotalisticNoLetters(birth: string, survival: string, mask: bv16)
    requires DigitsAtMost(birth, 8) && DigitsAtMost(survival, 8)
    ensures NoLetters(RuleMap(ResetTables(), birth, survival, true, mask).value)
  {
    LettersStay(ResetTables(), birth, survival, mask);
  }

  /** The rulebits of a totalistic rule built from nothing: bit off + d
   *  exactly for the digits d of each half. */
  lemma TotalisticDigitBits(birth: string, survival: string, mask: bv16, d: int)
    requires DigitsAtMost(birth, 8) && DigitsAtMost(survival, 8)
    ensures var bits := RuleMap(ResetTables(), birth, survival, true, mask).value.rulebits;
      && (0 <= d <= 8 ==> (Bit32(bits, 0 + d) <==> HasDigit(birth, d)))
      && (0 <= d <= 8 ==> (Bit32(bits, SurvivalOffset + d) <==> HasDigit(survival, d)))
  {
    var e0 := ResetTables();
    TotalisticRuleBits(e0, birth, survival, mask);
    var bits := RuleMap(e0, birth, survival, true, mask).value.rulebits;
    assert bits == 0 | DigitBits(birth, 0) | DigitBits(survival, SurvivalOffset);
    if 0 <= d <= 8 {
      TotalisticBits(birth, survival, d);
      assert Bit32(bits, 0 + d) == Bit32(bits, d);
    }
  }

  /** The rulebits of a totalistic rule built from nothing: bit d for birth
   *  digit d, bit 9 + d for survival digit d. */
  lemma TotalisticBits(birth: string, survival: string, d: int)
    requires DigitsAtMost(birth, 8) && DigitsAtMost(survival, 8) && 0 <= d <= 8
    ensures var bits := 0 | DigitBits(birth, 0) | DigitBits(survival, SurvivalOffset);
      && (Bit32(bits, d) <==> HasDigit(birth, d))
      && (Bit32(bits, SurvivalOffset + d) <==> HasDigit(survival, d))
  {
    BirthBit(birth, survival, d);
    SurvivalBit(birth, survival, d);
  }

  lemma BirthBit(birth: string, survival: string, d: int)
    requires DigitsAtMost(birth, 8) && DigitsAtMost(survival, 8) && 0 <= d <= 8
    ensures Bit32(0 | DigitBits(birth, 0) | DigitBits(survival, SurvivalOffset), d) <==> HasDigit(birth, d)
  {
    ZeroBitsMeaning(birth, survival, d);
  }

  lemma SurvivalBit(birth: string, survival: string, d: int)
    requires DigitsAtMost(birth, 8) && DigitsAtMost(survival, 8) && 0 <= d <= 8
    ensures Bit32(0 | DigitBits(birth, 0) | DigitBits(survival, SurvivalOffset), SurvivalOffset + d)
      <==> HasDigit(survival, d)
  {
    var k := SurvivalOffset + d;
    BeyondDigits(birth, 8, k);
    ZeroBitsMeaning(birth, survival, k);
    assert k - SurvivalOffset == d;
  }

  /** One half of that: when the rulebits of the half are the digits of
   *  part, its text is those digits, ascending. */
  lemma TotalisticHalf(e: Tables, off: nat, n: int, part: string, d: int)
    requires WellSized(e) && NoLetters(e) && off <= SurvivalOffset && 0 <= n <= 8
    requires DigitsAtMost(part, n)
    requires 0 <= d <= 8 ==> (Bit32(e.rulebits, off + d) <==> HasDigit(part, d))
    ensures var r := PartName(e, off, n + 1);
      Ascending(r) && (HasDigit(r, d) <==> HasDigit(part, d))
  {
    TotalisticPartName(e, off, n + 1, d);
    BeyondDigits(part, n, d);
  }

  /** The totalistic builders leave the letter bits alone. */
  lemma LettersStay(e: Tables, birth: string, survival: string, mask: bv16)
    requires WellSized(e) && DigitsAtMost(birth, 8) && DigitsAtMost(survival, 8)
    ensures var r := RuleMap(e, birth, survival, true, mask).value;
      r.letterBits == e.letterBits && r.negLetterBits == e.negLetterBits
  {
    var e0 := e.(table := EmptyTable());
    TotalisticFromStringTable(e0, birth, false, mask);
    TotalisticFromStringTable(TotalisticFromString(e0, birth, false, mask), survival, true, mask);
  }

  /** Bit k of the rulebits built from nothing: a birth digit k or a
   *  survival digit k - 9. */
  lemma ZeroBitsMeaning(birth: string, survival: string, k: nat)
    requires DigitsAtMost(birth, 8) && DigitsAtMost(survival, 8) && k < 32
    ensures Bit32(0 | DigitBits(birth, 0) | DigitBits(survival, SurvivalOffset), k) <==>
      HasDigit(birth, k) || (SurvivalOffset <= k && HasDigit(survival, k - SurvivalOffset))
  {
    RuleBitsMeaning(0, birth, survival, k);
    NoBits(k);
  }

  lemma NoBits(k: nat)
    requires k < 32
    ensures !Bit32(0, k)
  {
  }

  /** A digit string up to n has no digit above n. */
  lemma BeyondDigits(s: string, n: int, d: int)
    requires DigitsAtMost(s, n) && 0 <= n <= 8
    ensures HasDigit(s, d) ==> 0 <= d <= n
  {
    if HasDigit(s, d) {
      var k :| 0 <= k < |s| && s[k] == Digit(d);
    }
  }

  //
  // isRegularLife
  //

  /** The rulebits of B3/S23: bit 3, and bits 9 + 2 and 9 + 3. */
  const LifeBits: bv32 := 0x1808

  /** isRegularLife (gollybase/liferules.cpp:924-927): a Moore, totalistic,
   *  non-Wolfram rule whose rulebits are those of B3/S23. */
  predicate IsRegularLife(s: Settings, rulebits: bv32, m: Masks) {
    s.mask == m.moore && s.totalistic && rulebits == LifeBits && s.wolfram < 0
  }

  /** The only bits of LifeBits are 3, 11 and 12. */
  lemma LifeBitsMeaning(k: nat)
    requires k < 32
    ensures Bit32(LifeBits, k) <==> k == 3 || k == 11 || k == 12
  {
  }

  /** Built from its digit strings, a totalistic rule has the rulebits of
   *  B3/S23 only when its birth digits are {3} and its survival digits
   *  {2, 3}. */
  lemma RegularLifeDigits(birth: string, survival: string, d: int)
    requires DigitsAtMost(birth, 8) && DigitsAtMost(survival, 8) && 0 <= d <= 8
    requires 0 | DigitBits(birth, 0) | DigitBits(survival, SurvivalOffset) == LifeBits
    ensures HasDigit(birth, d) <==> d == 3
    ensures HasDigit(survival, d) <==> d == 2 || d == 3
  {
    BirthBit(birth, survival, d);
    SurvivalBit(birth, survival, d);
    LifeBitsMeaning(d);
    LifeBitsMeaning(SurvivalOffset + d);
  }

  /** B3/S23 itself has those rulebits. */
  lemma LifeIsRegular(mask: bv16)
    ensures RuleMap(ResetTables(), "3", "23", true, mask).value.rulebits == LifeBits
  {
    TotalisticRuleBits(ResetTables(), "3", "23", mask);
    BirthThree();
    SurvivalTwoThree();
  }

  lemma BirthThree()
    ensures DigitBits("3", 0) == 0x8
  {
    assert DigitBits("3", 0) == OneBit(3) | DigitBits("", 0);
  }

  lemma SurvivalTwoThree()
    ensures DigitBits("23", SurvivalOffset) == 0x1800
  {
    assert DigitBits("3", SurvivalOffset) == OneBit(12) | DigitBits("", SurvivalOffset);
    assert DigitBits("23", SurvivalOffset) == OneBit(11) | DigitBits("3", SurvivalOffset);
  }
}
