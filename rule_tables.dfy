/** The 512-entry 3x3 transition table of the Life-like rule engine and the
 *  steps that fill it (gollybase/liferules.cpp:63-298), stated as functions on
 *  values.  The LifeRules class performs the same steps in place and is
 *  proved against these functions.
 *
 *  Entry p of the table is the next state of the centre cell of the 3x3
 *  pattern p.  Birth digits fill the half with the centre clear, survival
 *  digits the half with the centre set.
 */
module RuleTables {
  import opened RuleBits
  import opened Hensel
  import opened Outcomes

  /** survival_offset: survival digit d uses rulebits bit 9 + d and letter slot 9 + d. */
  const SurvivalOffset: nat := 9

  /** The masks of the three neighbourhoods.  Their values live in a header
   *  that is not part of this model; the model only relies on the relations
   *  stated by ValidMasks. */
  datatype Masks = Masks(moore: bv16, hexagonal: bv16, vonNeumann: bv16)

  /** Each mask counts 8, 6 and 4 of the ring cells respectively, and the
   *  three masks are different. */
  predicate ValidMasks(m: Masks) {
    && Pop9(m.moore & RingBits) == 8
    && Pop9(m.hexagonal & RingBits) == 6
    && Pop9(m.vonNeumann & RingBits) == 4
    && m.moore != m.hexagonal && m.moore != m.vonNeumann && m.hexagonal != m.vonNeumann
  }

  /** The fields setTotalistic and setSymmetrical update: rule3x3, rulebits,
   *  letter_bits and neg_letter_bits. */
  datatype Tables = Tables(table: seq<bv8>, rulebits: bv32, letterBits: seq<bv32>, negLetterBits: seq<bv32>)

  predicate WellSized(e: Tables) {
    |e.table| == 512 && |e.letterBits| == 18 && |e.negLetterBits| == 18
  }

  /** Every table entry is 0 or 1. */
  predicate Binary(t: seq<bv8>) {
    forall p | 0 <= p < |t| :: t[p] <= 1
  }

  /** The index of the pattern a quarter turn makes of pattern p. */
  function RotIndex(p: int): (q: int)
    requires 0 <= p < 512
    ensures 0 <= q < 512
  {
    RotateBits90Clockwise(p as bv16) as int
  }

  /** The index of the pattern a flip makes of pattern p. */
  function FlipIndex(p: int): (q: int)
    requires 0 <= p < 512
    ensures 0 <= q < 512
  {
    FlipBits(p as bv16) as int
  }

  function Offset(survival: bool): (r: nat)
    ensures r == 0 || r == SurvivalOffset
  {
    if survival then SurvivalOffset else 0
  }

  /** The 32-bit word with only bit n set. */
  function OneBit(n: nat): bv32
    requires n < 32
  {
    1 << n
  }

  /** Bit k of a 32-bit word. */
  predicate Bit32(x: bv32, k: nat)
    requires k < 32
  {
    Meets(x, OneBit(k))
  }

  /** The two words share a set bit. */
  predicate Meets(x: bv32, w: bv32) {
    x & w != 0
  }

  /** The character of decimal digit d. */
  function Digit(d: int): (c: char)
    requires 0 <= d <= 9
    ensures '0' <= c <= '9'
  {
    ('0' as int + d) as char
  }

  lemma DigitInjective(d: int, e: int)
    requires 0 <= d <= 9 && 0 <= e <= 9
    ensures Digit(d) == Digit(e) <==> d == e
  {
  }

  /** Every character of s is a digit from 0 to n. */
  predicate DigitsAtMost(s: string, n: int) {
    forall k | 0 <= k < |s| :: '0' <= s[k] && s[k] as int <= '0' as int + n
  }

  /** The digit d occurs in s. */
  predicate HasDigit(s: string, d: int) {
    0 <= d <= 9 && Digit(d) in s
  }

  /** The rulebits one setTotalistic call per digit of s sets: bit d + off for each digit d. */
  function DigitBits(s: string, off: nat): bv32
    requires DigitsAtMost(s, 8) && off <= SurvivalOffset
    decreases |s|
  {
    if s == [] then 0
    else
      DigitsTail(s, 8);
      OneBit(s[0] as int - '0' as int + off) | DigitBits(s[1..], off)
  }

  /** A table with every entry 0 (the memset before each rebuild). */
  function EmptyTable(): (t: seq<bv8>)
    ensures |t| == 512 && forall p | 0 <= p < 512 :: t[p] == 0
  {
    seq(512, p => 0)
  }

  /** The patterns setTotalistic(value, survival) switches on: centre set iff
   *  survival, and exactly `value` live cells among the masked ring cells. */
  predicate Selected(x: bv16, value: int, survival: bool, mask: bv16) {
    Bit(x, 4) == survival && NeighbourCount(x, mask) == value
  }

  /** setTotalistic (gollybase/liferules.cpp:63-96). */
  function TotalisticStep(e: Tables, value: int, survival: bool, mask: bv16): (r: Tables)
    requires WellSized(e) && 0 <= value <= 8
    ensures WellSized(r)
  {
    e.(table := seq(512, p requires 0 <= p < 512 =>
                      if Selected(p as bv16, value, survival, mask) then 1 else e.table[p]),
       rulebits := e.rulebits | OneBit(value + Offset(survival)))
  }

  /** setSymmetrical512 (gollybase/liferules.cpp:111-129): b at the eight
   *  images of x. */
  function Symmetrical512Step(t: seq<bv8>, x: bv16, b: bv8): (r: seq<bv8>)
    requires |t| == 512 && x < 512
    ensures |r| == 512
  {
    seq(512, p requires 0 <= p < 512 => if p as bv16 in Orbit(x) then b else t[p])
  }

  /** The pattern setSymmetrical writes for letter lindex of digit value. */
  function LetterTarget(value: int, lindex: int, survival: bool): (x: bv16)
    requires 1 <= value <= 7 && 0 <= lindex < LetterCount(value)
    ensures x < 512
  {
    LetterPatternShape(value, lindex);
    LetterPattern(value, lindex) | (if survival then CenterBit else 0)
  }

  /** setSymmetrical (gollybase/liferules.cpp:132-170).  A letter with no
   *  pattern for its digit is excluded: the original reads past the row. */
  function SymmetricalStep(e: Tables, value: int, survival: bool, lindex: int, normal: bool, mask: bv16): (r: Tables)
    requires WellSized(e) && 0 <= value <= 8 && 0 <= lindex < 13
    requires 1 <= value <= 7 ==> lindex < LetterCount(value)
    ensures WellSized(r)
  {
    if value == 0 || value == 8 then TotalisticStep(e, value, survival, mask)
    else LetterStep(e, value, survival, lindex, normal)
  }

  /** setSymmetrical for a count of 1..7: the digit's rulebits bit, the
   *  letter's bit (in the negated list for a negated letter), and the
   *  letter's pattern with all its images set to 1 (0 when negated). */
  function LetterStep(e: Tables, value: int, survival: bool, lindex: int, normal: bool): (r: Tables)
    requires WellSized(e) && 1 <= value <= 7 && 0 <= lindex < LetterCount(value)
    ensures WellSized(r)
  {
    var slot := value + Offset(survival);
    Tables(Symmetrical512Step(e.table, LetterTarget(value, lindex, survival), if normal then 1 else 0),
           e.rulebits | OneBit(slot),
           if normal then Mark(e.letterBits, slot, lindex) else e.letterBits,
           if normal then e.negLetterBits else Mark(e.negLetterBits, slot, lindex))
  }

  /** Letter lindex recorded in the word of the given slot. */
  function Mark(words: seq<bv32>, slot: int, lindex: int): (r: seq<bv32>)
    requires 0 <= slot < |words| && 0 <= lindex < 32
    ensures |r| == |words|
  {
    words[slot := words[slot] | OneBit(lindex)]
  }

  /** setTotalisticRuleFromString (gollybase/liferules.cpp:173-186): one
   *  setTotalistic per digit, left to right. */
  function TotalisticFromString(e: Tables, s: string, survival: bool, mask: bv16): (r: Tables)
    requires WellSized(e) && DigitsAtMost(s, 8)
    ensures WellSized(r)
    decreases |s|
  {
    if s == [] then e
    else TotalisticFromString(TotalisticStep(e, s[0] as int - '0' as int, survival, mask), s[1..], survival, mask)
  }

  /** setRuleFromString (gollybase/liferules.cpp:189-261), scanning for the
   *  next digit.  None stands for a letter with no pattern for its digit, where
   *  the original reads outside rule_neighborhoods. */
  function RuleFromString(e: Tables, s: string, survival: bool, mask: bv16): (r: Option<Tables>)
    requires WellSized(e)
    ensures r.Some? ==> WellSized(r.value)
    decreases |s|, 0
  {
    if s == [] then Some(e)
    else
      var lindex := IndexOf(ValidRuleLetters, s[0]);
      var rest := s[1..];
      if (0 < lindex <= 8) || (lindex == 0 && survival) then
        var nindex := if rest == [] then 0 else IndexOf(ValidRuleLetters, rest[0]);
        var e1 := if 0 <= nindex <= 8 then TotalisticStep(e, lindex, survival, mask) else e;
        if rest != [] && rest[0] == '-' then LetterRun(e1, rest[1..], lindex, survival, false, mask)
        else LetterRun(e1, rest, lindex, survival, true, mask)
      else RuleFromString(e, rest, survival, mask)
  }

  /** The run of Hensel letters after a digit (and its optional '-'). */
  function LetterRun(e: Tables, s: string, value: int, survival: bool, normal: bool, mask: bv16): (r: Option<Tables>)
    requires WellSized(e) && 0 <= value <= 8
    ensures r.Some? ==> WellSized(r.value)
    decreases |s|, 1
  {
    var lindex := if s == [] then -1 else IndexOf(LetterOrder, s[0]);
    if lindex >= 0 then
      if 1 <= value <= 7 && lindex >= LetterCount(value) then None
      else LetterRun(SymmetricalStep(e, value, survival, lindex, normal, mask), s[1..], value, survival, normal, mask)
    else RuleFromString(e, s, survival, mask)
  }

  /** createRuleMap (gollybase/liferules.cpp:279-298): clear the table, then
   *  the birth part, then the survival part.  rulebits is not cleared. */
  function RuleMap(e: Tables, birth: string, survival: string, totalistic: bool, mask: bv16): (r: Option<Tables>)
    requires WellSized(e)
    requires totalistic ==> DigitsAtMost(birth, 8) && DigitsAtMost(survival, 8)
    ensures r.Some? ==> WellSized(r.value)
  {
    var e0 := e.(table := EmptyTable());
    if totalistic then
      Some(TotalisticFromString(TotalisticFromString(e0, birth, false, mask), survival, true, mask))
    else
      match RuleFromString(e0, birth, false, mask)
      case None => None
      case Some(e1) => RuleFromString(e1, survival, true, mask)
  }

  /** The entry createWolframMap writes for pattern x. */
  function WolframEntry(w: int, x: bv16): (r: bv8)
    requires 0 <= w < 256
    ensures r == 0 || r == 1
  {
    if Bit(w as bv16, (x & 7) as nat) || x & 16 != 0 then 1 else 0
  }

  /** createWolframMap (gollybase/liferules.cpp:264-276). */
  function WolframTable(w: int): (r: seq<bv8>)
    requires 0 <= w < 256
    ensures |r| == 512
  {
    seq(512, i requires 0 <= i < 512 => WolframEntry(w, i as bv16))
  }

  /** The 4x4 entry for block i: the next states of the four inner cells, at bits 5, 4, 1 and 0. */
  function Entry4x4(t: seq<bv8>, i: bv16): bv8
    requires |t| == 512
  {
    Pack4(Lookup(t, Window00(i)), Lookup(t, Window01(i)), Lookup(t, Window10(i)), Lookup(t, Window11(i)))
  }

  /** Entry x of the 3x3 table. */
  function Lookup(t: seq<bv8>, x: bv16): (r: bv8)
    requires |t| == 512 && x < 512
    ensures Binary(t) ==> r <= 1
  {
    PatternRoundTrip(x);
    t[x]
  }

  /** convertTo4x4Map (gollybase/liferules.cpp:384-418). */
  function Compile4x4(t: seq<bv8>): (r: seq<bv8>)
    requires |t| == 512
    ensures |r| == 65536
  {
    seq(65536, i requires 0 <= i < 65536 => Entry4x4(t, i as bv16))
  }

  //
  // Lemmas
  //

  /** The digits of s[1..] are those of s except possibly s[0]. */
  lemma HasDigitTail(s: string, d: int)
    requires s != [] && '0' <= s[0] <= '9'
    ensures HasDigit(s, d) <==> (0 <= d <= 9 && Digit(d) == s[0]) || HasDigit(s[1..], d)
  {
    if 0 <= d <= 9 && Digit(d) in s && Digit(d) != s[0] {
      var k :| 0 <= k < |s| && s[k] == Digit(d);
      assert s[1..][k - 1] == Digit(d);
    }
  }

  /** Setting bit v + offset of rulebits. */
  lemma RuleBitSet(bits: bv32, n: nat, k: nat)
    requires n < 32 && k < 32
    ensures Bit32(bits | OneBit(n), k) <==> Bit32(bits, k) || k == n
  {
    BitOr(bits, OneBit(n), k);
    OneBitMeets(n, k);
  }

  /** A bit of a union of three words is a bit of one of them. */
  lemma BitOr3(a: bv32, b: bv32, c: bv32, k: nat)
    requires k < 32
    ensures Bit32(a | b | c, k) <==> Bit32(a, k) || Bit32(b, k) || Bit32(c, k)
  {
    BitOr(a, b, k);
    BitOr(a | b, c, k);
  }

  /** A bit of a union is a bit of either side. */
  lemma BitOr(a: bv32, b: bv32, k: nat)
    requires k < 32
    ensures Bit32(a | b, k) <==> Bit32(a, k) || Bit32(b, k)
  {
    OrMeets(a, b, OneBit(k));
  }

  /** A union meets a word exactly when one of its sides does. */
  lemma OrMeets(a: bv32, b: bv32, w: bv32)
    ensures Meets(a | b, w) <==> Meets(a, w) || Meets(b, w)
  {
    AndOverOr(a, b, w);
    OrNonZero(a & w, b & w);
  }

  lemma AndOverOr(a: bv32, b: bv32, w: bv32)
    ensures (a | b) & w == (a & w) | (b & w)
  {
  }

  lemma OrNonZero(x: bv32, y: bv32)
    ensures x | y != 0 <==> x != 0 || y != 0
  {
  }

  /** Two single-bit words meet exactly when they are the same bit. */
  lemma OneBitMeets(n: nat, k: nat)
    requires n < 32 && k < 32
    ensures Bit32(OneBit(n), k) <==> n == k
  {
    if n != k {
      OneBitsApart(n, k);
    }
  }

  lemma OneBitsApart(n: nat, k: nat)
    requires n < 32 && k < 32 && n != k
    ensures OneBit(n) & OneBit(k) == 0
  {
  }

  /** The digits of a digit string are digits of its tail. */
  lemma DigitsTail(s: string, n: int)
    requires s != [] && DigitsAtMost(s, n)
    ensures DigitsAtMost(s[1..], n)
  {
    forall k | 0 <= k < |s| - 1 ensures '0' <= s[1..][k] && s[1..][k] as int <= '0' as int + n {
      assert s[1..][k] == s[k + 1];
    }
  }

  /** setTotalisticRuleFromString switches on exactly the patterns of its half
   *  whose masked neighbour count is one of the digits and never clears an
   *  entry; it leaves the letter bits alone. */
  lemma {:induction false} TotalisticFromStringTable(e: Tables, s: string, survival: bool, mask: bv16)
    requires WellSized(e) && DigitsAtMost(s, 8)
    ensures var r := TotalisticFromString(e, s, survival, mask);
      && (forall p | 0 <= p < 512 ::
            r.table[p] == if Bit(p as bv16, 4) == survival && HasDigit(s, NeighbourCount(p as bv16, mask)) then 1 else e.table[p])
      && r.letterBits == e.letterBits && r.negLetterBits == e.negLetterBits
  {
    forall p | 0 <= p < 512
      ensures TotalisticFromString(e, s, survival, mask).table[p]
           == if Bit(p as bv16, 4) == survival && HasDigit(s, NeighbourCount(p as bv16, mask)) then 1 else e.table[p]
    {
      TotalisticEntry(e, s, survival, mask, p);
    }
    TotalisticFromStringLetters(e, s, survival, mask);
  }

  /** Entry p of that table, by induction on the digits. */
  lemma {:induction false} TotalisticEntry(e: Tables, s: string, survival: bool, mask: bv16, p: int)
    requires WellSized(e) && DigitsAtMost(s, 8) && 0 <= p < 512
    ensures TotalisticFromString(e, s, survival, mask).table[p]
         == if Bit(p as bv16, 4) == survival && HasDigit(s, NeighbourCount(p as bv16, mask)) then 1 else e.table[p]
    decreases |s|
  {
    if s != [] {
      var v := s[0] as int - '0' as int;
      DigitsTail(s, 8);
      TotalisticEntry(TotalisticStep(e, v, survival, mask), s[1..], survival, mask, p);
      assert Digit(v) == s[0];
      HasDigitTail(s, NeighbourCount(p as bv16, mask));
    }
  }

  /** setTotalisticRuleFromString does not touch the letter bits. */
  lemma {:induction false} TotalisticFromStringLetters(e: Tables, s: string, survival: bool, mask: bv16)
    requires WellSized(e) && DigitsAtMost(s, 8)
    ensures var r := TotalisticFromString(e, s, survival, mask);
      r.letterBits == e.letterBits && r.negLetterBits == e.negLetterBits
    decreases |s|
  {
    if s != [] {
      DigitsTail(s, 8);
      TotalisticFromStringLetters(TotalisticStep(e, s[0] as int - '0' as int, survival, mask), s[1..], survival, mask);
    }
  }

  /** setTotalisticRuleFromString adds DigitBits to rulebits. */
  lemma {:induction false} TotalisticFromStringRulebits(e: Tables, s: string, survival: bool, mask: bv16)
    requires WellSized(e) && DigitsAtMost(s, 8)
    ensures TotalisticFromString(e, s, survival, mask).rulebits == e.rulebits | DigitBits(s, Offset(survival))
    decreases |s|
  {
    if s != [] {
      DigitsTail(s, 8);
      TotalisticFromStringRulebits(TotalisticStep(e, s[0] as int - '0' as int, survival, mask), s[1..], survival, mask);
    }
  }

  /** One digit more sets one bit more. */
  lemma DigitBitsStep(s: string, off: nat, k: nat)
    requires s != [] && DigitsAtMost(s, 8) && off <= SurvivalOffset && k < 32
    ensures DigitsAtMost(s[1..], 8)
    ensures Bit32(DigitBits(s, off), k) <==> Bit32(DigitBits(s[1..], off), k) || k == s[0] as int - '0' as int + off
  {
    DigitsTail(s, 8);
    RuleBitSet(DigitBits(s[1..], off), s[0] as int - '0' as int + off, k);
    BitOr(OneBit(s[0] as int - '0' as int + off), DigitBits(s[1..], off), k);
  }

  /** Bit k of DigitBits(s, off) is set exactly when k - off is a digit of s. */
  lemma {:induction false} DigitBitsMeaning(s: string, off: nat, k: nat)
    requires DigitsAtMost(s, 8) && off <= SurvivalOffset && k < 32
    ensures Bit32(DigitBits(s, off), k) <==> off <= k && HasDigit(s, k - off)
    decreases |s|
  {
    if s != [] {
      DigitsTail(s, 8);
      DigitBitsMeaning(s[1..], off, k);
      var v := s[0] as int - '0' as int;
      assert Digit(v) == s[0];
      DigitBitsStep(s, off, k);
      HasDigitTail(s, k - off);
      if 0 <= k - off <= 9 {
        DigitInjective(k - off, v);
      }
    }
  }

  /** A totalistic rule table: entry p is 1 exactly when the digit for p's
   *  masked neighbour count appears in the birth part (centre clear) or the
   *  survival part (centre set), and 0 otherwise. */
  lemma {:induction false} TotalisticRuleMapMeaning(e: Tables, birth: string, survival: string, mask: bv16)
    requires WellSized(e) && DigitsAtMost(birth, 8) && DigitsAtMost(survival, 8)
    ensures var r := RuleMap(e, birth, survival, true, mask);
      && r.Some? && Binary(r.value.table)
      && forall p | 0 <= p < 512 :: var x := p as bv16;
           r.value.table[p] == if (if Bit(x, 4) then HasDigit(survival, NeighbourCount(x, mask))
                                   else HasDigit(birth, NeighbourCount(x, mask))) then 1 else 0
  {
    var e0 := e.(table := EmptyTable());
    TotalisticFromStringTable(e0, birth, false, mask);
    var e1 := TotalisticFromString(e0, birth, false, mask);
    TotalisticFromStringTable(e1, survival, true, mask);
  }

  /** The totalistic rule map adds the digit bits of both parts to rulebits. */
  lemma {:induction false} TotalisticRuleBits(e: Tables, birth: string, survival: string, mask: bv16)
    requires WellSized(e) && DigitsAtMost(birth, 8) && DigitsAtMost(survival, 8)
    ensures var r := RuleMap(e, birth, survival, true, mask);
      r.Some? && r.value.rulebits == e.rulebits | DigitBits(birth, 0) | DigitBits(survival, SurvivalOffset)
  {
    var e0 := e.(table := EmptyTable());
    var e1 := TotalisticFromString(e0, birth, false, mask);
    TotalisticFromStringRulebits(e0, birth, false, mask);
    TotalisticFromStringRulebits(e1, survival, true, mask);
  }

  /** Those bits are bit d for each birth digit d and bit 9 + d for each
   *  survival digit d, on top of the bits already set. */
  lemma RuleBitsMeaning(bits: bv32, birth: string, survival: string, k: nat)
    requires DigitsAtMost(birth, 8) && DigitsAtMost(survival, 8) && k < 32
    ensures Bit32(bits | DigitBits(birth, 0) | DigitBits(survival, SurvivalOffset), k) <==>
      Bit32(bits, k) || HasDigit(birth, k) || (SurvivalOffset <= k && HasDigit(survival, k - SurvivalOffset))
  {
    var b, c := DigitBits(birth, 0), DigitBits(survival, SurvivalOffset);
    DigitBitsMeaning(birth, 0, k);
    assert Bit32(b, k) <==> HasDigit(birth, k);
    DigitBitsMeaning(survival, SurvivalOffset, k);
    BitOr3(bits, b, c, k);
  }

  //
  // Symmetry of the 3x3 table
  //

  /** A table that gives every pattern the same entry as its quarter turn and its flip. */
  ghost predicate Symmetric(t: seq<bv8>)
    requires |t| == 512
  {
    forall x: bv16 | x < 512 :: t[RotateBits90Clockwise(x)] == t[x] && t[FlipBits(x)] == t[x]
  }

  /** A full Moore mask counts every ring cell. */
  lemma FullRing(mask: bv16)
    requires Pop9(mask & RingBits) == 8
    ensures mask & RingBits == RingBits
  {
    Pop9Unfold(mask & RingBits);
  }

  /** Under a mask that counts the whole ring, the symmetries keep the centre and the count. */
  lemma SymmetriesKeepSelection(x: bv16, mask: bv16)
    requires x < 512 && mask & RingBits == RingBits
    ensures Bit(RotateBits90Clockwise(x), 4) == Bit(x, 4)
    ensures NeighbourCount(RotateBits90Clockwise(x), mask) == NeighbourCount(x, mask)
    ensures Bit(FlipBits(x), 4) == Bit(x, 4)
    ensures NeighbourCount(FlipBits(x), mask) == NeighbourCount(x, mask)
  {
    SymmetriesKeepCentreAndCount(x);
    assert RotateBits90Clockwise(x) & RingBits & mask == RotateBits90Clockwise(x) & RingBits;
    assert FlipBits(x) & RingBits & mask == FlipBits(x) & RingBits;
    assert x & RingBits & mask == x & RingBits;
  }

  /** setSymmetrical512(x, b) writes b at every image of x and nothing else. */
  lemma Symmetrical512At(t: seq<bv8>, x: bv16, b: bv8, y: bv16)
    requires |t| == 512 && x < 512 && y < 512
    ensures Symmetrical512Step(t, x, b)[y] == if y in Orbit(x) then b else t[y]
  {
  }

  /** setTotalistic sets entry y to 1 when y is selected and keeps it otherwise. */
  lemma TotalisticStepAt(e: Tables, value: int, survival: bool, mask: bv16, y: bv16)
    requires WellSized(e) && 0 <= value <= 8 && y < 512
    ensures TotalisticStep(e, value, survival, mask).table[y] == if Selected(y, value, survival, mask) then 1 else e.table[y]
  {
  }

  /** The entries of a pattern and of its two images agree after setSymmetrical512. */
  lemma Symmetrical512KeepsPair(t: seq<bv8>, x: bv16, b: bv8, y: bv16)
    requires |t| == 512 && x < 512 && y < 512 && Symmetric(t)
    ensures var r := Symmetrical512Step(t, x, b);
      r[RotateBits90Clockwise(y)] == r[y] && r[FlipBits(y)] == r[y]
  {
    Symmetrical512At(t, x, b, y);
    Symmetrical512At(t, x, b, RotateBits90Clockwise(y));
    Symmetrical512At(t, x, b, FlipBits(y));
    OrbitClosed(x, y);
  }

  /** setSymmetrical512 keeps a symmetric table symmetric: the orbit is closed
   *  under both symmetries. */
  lemma Symmetrical512KeepsSymmetry(t: seq<bv8>, x: bv16, b: bv8)
    requires |t| == 512 && x < 512 && Symmetric(t)
    ensures Symmetric(Symmetrical512Step(t, x, b))
  {
    forall y: bv16 | y < 512
      ensures var r := Symmetrical512Step(t, x, b); r[RotateBits90Clockwise(y)] == r[y] && r[FlipBits(y)] == r[y]
    {
      Symmetrical512KeepsPair(t, x, b, y);
    }
  }

  /** The entries of a pattern and of its two images agree after setTotalistic. */
  lemma TotalisticStepKeepsPair(e: Tables, value: int, survival: bool, mask: bv16, y: bv16)
    requires WellSized(e) && 0 <= value <= 8 && mask & RingBits == RingBits && Symmetric(e.table) && y < 512
    ensures var r := TotalisticStep(e, value, survival, mask).table;
      r[RotateBits90Clockwise(y)] == r[y] && r[FlipBits(y)] == r[y]
  {
    TotalisticStepAt(e, value, survival, mask, y);
    TotalisticStepAt(e, value, survival, mask, RotateBits90Clockwise(y));
    TotalisticStepAt(e, value, survival, mask, FlipBits(y));
    SymmetriesKeepSelection(y, mask);
  }

  /** setTotalistic with the Moore mask keeps a symmetric table symmetric. */
  lemma TotalisticStepKeepsSymmetry(e: Tables, value: int, survival: bool, mask: bv16)
    requires WellSized(e) && 0 <= value <= 8 && mask & RingBits == RingBits && Symmetric(e.table)
    ensures Symmetric(TotalisticStep(e, value, survival, mask).table)
  {
    forall y: bv16 | y < 512
      ensures var r := TotalisticStep(e, value, survival, mask).table; r[RotateBits90Clockwise(y)] == r[y] && r[FlipBits(y)] == r[y]
    {
      TotalisticStepKeepsPair(e, value, survival, mask, y);
    }
  }

  /** setSymmetrical with the Moore mask keeps a symmetric table symmetric. */
  lemma SymmetricalStepKeepsSymmetry(e: Tables, value: int, survival: bool, lindex: int, normal: bool, mask: bv16)
    requires WellSized(e) && 0 <= value <= 8 && 0 <= lindex < 13
    requires 1 <= value <= 7 ==> lindex < LetterCount(value)
    requires mask & RingBits == RingBits && Symmetric(e.table)
    ensures Symmetric(SymmetricalStep(e, value, survival, lindex, normal, mask).table)
  {
    if value == 0 || value == 8 {
      TotalisticStepKeepsSymmetry(e, value, survival, mask);
    } else {
      Symmetrical512KeepsSymmetry(e.table, LetterTarget(value, lindex, survival), if normal then 1 else 0);
    }
  }

  lemma {:induction false} TotalisticFromStringKeepsSymmetry(e: Tables, s: string, survival: bool, mask: bv16)
    requires WellSized(e) && DigitsAtMost(s, 8) && mask & RingBits == RingBits && Symmetric(e.table)
    ensures Symmetric(TotalisticFromString(e, s, survival, mask).table)
    decreases |s|
  {
    if s != [] {
      DigitsTail(s, 8);
      var e1 := TotalisticStep(e, s[0] as int - '0' as int, survival, mask);
      TotalisticStepKeepsSymmetry(e, s[0] as int - '0' as int, survival, mask);
      TotalisticFromStringKeepsSymmetry(e1, s[1..], survival, mask);
    }
  }

  lemma {:induction false} RuleFromStringKeepsSymmetry(e: Tables, s: string, survival: bool, mask: bv16)
    requires WellSized(e) && mask & RingBits == RingBits && Symmetric(e.table)
    ensures var r := RuleFromString(e, s, survival, mask); r.Some? ==> Symmetric(r.value.table)
    decreases |s|, 0
  {
    if s != [] {
      var lindex := IndexOf(ValidRuleLetters, s[0]);
      var rest := s[1..];
      if (0 < lindex <= 8) || (lindex == 0 && survival) {
        var nindex := if rest == [] then 0 else IndexOf(ValidRuleLetters, rest[0]);
        var e1 := if 0 <= nindex <= 8 then TotalisticStep(e, lindex, survival, mask) else e;
        if 0 <= nindex <= 8 {
          TotalisticStepKeepsSymmetry(e, lindex, survival, mask);
        }
        if rest != [] && rest[0] == '-' {
          LetterRunKeepsSymmetry(e1, rest[1..], lindex, survival, false, mask);
        } else {
          LetterRunKeepsSymmetry(e1, rest, lindex, survival, true, mask);
        }
      } else {
        RuleFromStringKeepsSymmetry(e, rest, survival, mask);
      }
    }
  }

  lemma {:induction false} LetterRunKeepsSymmetry(e: Tables, s: string, value: int, survival: bool, normal: bool, mask: bv16)
    requires WellSized(e) && 0 <= value <= 8 && mask & RingBits == RingBits && Symmetric(e.table)
    ensures var r := LetterRun(e, s, value, survival, normal, mask); r.Some? ==> Symmetric(r.value.table)
    decreases |s|, 1
  {
    var lindex := if s == [] then -1 else IndexOf(LetterOrder, s[0]);
    if lindex >= 0 {
      if !(1 <= value <= 7 && lindex >= LetterCount(value)) {
        SymmetricalStepKeepsSymmetry(e, value, survival, lindex, normal, mask);
        LetterRunKeepsSymmetry(SymmetricalStep(e, value, survival, lindex, normal, mask), s[1..], value, survival, normal, mask);
      }
    } else {
      RuleFromStringKeepsSymmetry(e, s, survival, mask);
    }
  }

  lemma EmptySymmetric()
    ensures Symmetric(EmptyTable())
  {
  }

  /** With the Moore neighbourhood every rule table createRuleMap builds, totalistic
   *  or with Hensel letters, treats the eight images of a pattern alike. */
  lemma MooreRuleMapSymmetric(e: Tables, birth: string, survival: string, totalistic: bool, m: Masks)
    requires WellSized(e) && ValidMasks(m)
    requires totalistic ==> DigitsAtMost(birth, 8) && DigitsAtMost(survival, 8)
    ensures var r := RuleMap(e, birth, survival, totalistic, m.moore); r.Some? ==> Symmetric(r.value.table)
  {
    FullRing(m.moore);
    EmptySymmetric();
    var e0 := e.(table := EmptyTable());
    if totalistic {
      TotalisticFromStringKeepsSymmetry(e0, birth, false, m.moore);
      TotalisticFromStringKeepsSymmetry(TotalisticFromString(e0, birth, false, m.moore), survival, true, m.moore);
    } else {
      RuleFromStringKeepsSymmetry(e0, birth, false, m.moore);
      match RuleFromString(e0, birth, false, m.moore)
      case None =>
      case Some(e1) => RuleFromStringKeepsSymmetry(e1, survival, true, m.moore);
    }
  }

  //
  // Wolfram rules and the 4x4 table
  //

  /** The Wolfram code of the three cells of the top row: left, middle and right
   *  weigh 4, 2 and 1. */
  function TopRowCode(y: bv16): (c: nat)
    requires y < 512
    ensures c < 8
  {
    4 * BitValue(y, 2) + 2 * BitValue(y, 1) + BitValue(y, 0)
  }

  lemma LowBitsAreTopRow(y: bv16)
    requires y < 512
    ensures (y & 7) as nat == TopRowCode(y)
  {
    var c := y & 7;
    assert c == (if Bit(y, 2) then 4 else 0) + (if Bit(y, 1) then 2 else 0) + (if Bit(y, 0) then 1 else 0);
    assert c < 8;
    if c == 0 {} else if c == 1 {} else if c == 2 {} else if c == 3 {}
    else if c == 4 {} else if c == 5 {} else if c == 6 {} else {}
  }

  /** createWolframMap: a cell is live in the next generation when it is live
   *  now, or when Wolfram rule w maps its top-row triple to 1. */
  lemma WolframTableMeaning(w: int, y: bv16)
    requires 0 <= w < 256 && y < 512
    ensures WolframTable(w)[y] == if PatternCell(y, 1, 1) || Bit(w as bv16, TopRowCode(y)) then 1 else 0
  {
    assert WolframTable(w)[y] == WolframEntry(w, y);
    LowBitsAreTopRow(y);
    assert (y & 16 != 0) == PatternCell(y, 1, 1);
  }

  /** An even rule number never makes a cell live out of an empty top row and a
   *  dead centre: this is why setrule accepts only even Wolfram numbers. */
  lemma WolframEvenQuiescent(w: int, y: bv16)
    requires 0 <= w < 256 && y < 512 && y & 0x17 == 0
    ensures WolframTable(w)[y] == 0 <==> w % 2 == 0
  {
    WolframTableMeaning(w, y);
    assert TopRowCode(y) == 0;
    assert PatternCell(y, 1, 1) == false;
    assert Bit(w as bv16, 0) <==> w % 2 == 1;
  }

  /** The four next states packed into one byte, at bits 5, 4, 1 and 0. */
  function Pack4(a: bv8, b: bv8, c: bv8, d: bv8): bv8 {
    (a << 5) | (b << 4) | (c << 1) | d
  }

  /** Packing binary states uses only the bits of 0x33, and each state can be read back. */
  lemma Pack4Bits(a: bv8, b: bv8, c: bv8, d: bv8)
    requires a <= 1 && b <= 1 && c <= 1 && d <= 1
    ensures var r := Pack4(a, b, c, d);
      r & 0xcc == 0 && (r >> 5) & 1 == a && (r >> 4) & 1 == b && (r >> 1) & 1 == c && r & 1 == d
  {
  }

  /** The block of 4x4 entry i: its inner cells (1,1), (1,2), (2,1) and (2,2)
   *  each look up the 3x3 table with the sub-block centred on them, and the
   *  four results land at bits 5, 4, 1 and 0; no other bit is set. */
  lemma Entry4x4Meaning(t: seq<bv8>, i: bv16)
    requires |t| == 512 && Binary(t)
    ensures var r := Entry4x4(t, i);
      && r & 0xcc == 0
      && (r >> 5) & 1 == Lookup(t, Window00(i)) && (r >> 4) & 1 == Lookup(t, Window01(i))
      && (r >> 1) & 1 == Lookup(t, Window10(i)) && r & 1 == Lookup(t, Window11(i))
    ensures SubBlock(Window00(i), i, 0, 0) && SubBlock(Window01(i), i, 0, 1)
    ensures SubBlock(Window10(i), i, 1, 0) && SubBlock(Window11(i), i, 1, 1)
  {
    Pack4Bits(Lookup(t, Window00(i)), Lookup(t, Window01(i)), Lookup(t, Window10(i)), Lookup(t, Window11(i)));
    WindowsAreSubBlocks(i);
  }

  //
  // Scope of setSymmetrical
  //

  /** The pattern of a letter has exactly `value` live neighbours, and its centre is set iff survival. */
  lemma LetterTargetShape(value: int, lindex: int, survival: bool)
    requires 1 <= value <= 7 && 0 <= lindex < LetterCount(value)
    ensures var x := LetterTarget(value, lindex, survival);
      Bit(x, 4) == survival && Pop9(x & RingBits) == value
  {
    LetterPatternShape(value, lindex);
    WithCentre(LetterPattern(value, lindex), survival);
  }

  /** Adding the centre bit to a ring pattern leaves its ring alone. */
  lemma WithCentre(x0: bv16, survival: bool)
    requires x0 < 512 && x0 & CenterBit == 0
    ensures var x := x0 | (if survival then CenterBit else 0);
      Bit(x, 4) == survival && x & RingBits == x0 & RingBits
  {
  }

  /** Every pattern in the orbit of x has x's centre and neighbour count. */
  lemma OrbitKeepsCentreAndCount(x: bv16, y: bv16)
    requires x < 512 && y in Orbit(x)
    ensures Bit(y, 4) == Bit(x, 4) && Pop9(y & RingBits) == Pop9(x & RingBits)
  {
    var k :| 0 <= k < 8 && Orbit(x)[k] == y;
    ImageKeepsCentreAndCount(x, k);
  }

  /** setSymmetrical only ever writes patterns of its own half (centre set iff
   *  survival) with exactly `value` live neighbours: a letter refines its own
   *  digit and nothing else. */
  lemma SymmetricalStepScope(e: Tables, value: int, survival: bool, lindex: int, normal: bool, mask: bv16, y: bv16)
    requires WellSized(e) && 0 <= value <= 8 && 0 <= lindex < 13
    requires 1 <= value <= 7 ==> lindex < LetterCount(value)
    requires mask & RingBits == RingBits && y < 512
    ensures Lookup(SymmetricalStep(e, value, survival, lindex, normal, mask).table, y) != Lookup(e.table, y) ==>
      Bit(y, 4) == survival && Pop9(y & RingBits) == value
  {
    assert y & RingBits & mask == y & RingBits;
    if value == 0 || value == 8 {
      TotalisticStepAt(e, value, survival, mask, y);
    } else {
      var x := LetterTarget(value, lindex, survival);
      Symmetrical512At(e.table, x, if normal then 1 else 0, y);
      LetterTargetShape(value, lindex, survival);
      if y in Orbit(x) {
        OrbitKeepsCentreAndCount(x, y);
      }
    }
  }
}
