/** The liferules object (gollybase/liferules.cpp): the rule fields, the
 *  512-entry 3x3 table, the two 65536-entry 4x4 tables and the letter bits,
 *  updated in place by the table builders and by setrule.  Each builder is
 *  proved against the function on values that states what it computes.
 */
module LifeRuleEngine {
  import opened Outcomes
  import opened RuleBits
  import opened Hensel
  import opened RuleTables
  import opened RuleSyntax
  import opened B0Rules
  import opened CanonicalNames

  /** Pattern y of 3x3 table is written by setTotalistic's loops once the
   *  outer loop is at block i and the inner loop at j. */
  predicate Done(y: bv16, i: bv16, j: bv16) {
    y < i || (i <= y && y - i < 32 && y & 15 < j)
  }

  lemma DoneStart(y: bv16, i: bv16)
    ensures Done(y, i, 0) <==> y < i
  {
  }

  /** One inner step marks patterns i + j and i + j + 16. */
  lemma DoneStep(y: bv16, i: bv16, j: bv16)
    requires i < 512 && i & 31 == 0 && j < 16
    ensures Done(y, i, j + 1) <==> Done(y, i, j) || y == i + j || y == i + j + 16
    ensures !Done(i + j, i, j) && !Done(i + j + 16, i, j)
  {
  }

  /** After the inner loop the whole block is written. */
  lemma DoneBlock(y: bv16, i: bv16)
    requires i < 512 && i & 31 == 0
    ensures Done(y, i, 16) <==> y < i + 32
  {
  }

  lemma NextBlock(i: bv16)
    requires i < 512 && i & 31 == 0
    ensures i + 32 <= 512 && (i + 32) & 31 == 0
  {
  }

  /** The pattern setTotalistic writes at step (i, j) is i + j with the
   *  centre bit added for survival. */
  lemma Slot(i: bv16, j: bv16, centre: bv16, mask: bv16)
    requires i < 512 && i & 31 == 0 && j < 16 && (centre == 0 || centre == CenterBit)
    ensures i + j + centre < 512 && (i + j) & mask < 512
    ensures (centre == 0 ==> i + j + centre == i + j) && (centre == CenterBit ==> i + j + centre == i + j + 16)
  {
  }

  /** Of the pair i + j and i + j + 16 only the second has the centre set. */
  lemma SlotCentre(i: bv16, j: bv16)
    requires i < 512 && i & 31 == 0 && j < 16
    ensures !Bit(i + j, 4) && Bit(i + j + 16, 4)
  {
  }

  /** Their neighbour count is the count of i + j under the mask. */
  lemma SlotCount(i: bv16, j: bv16, centre: bv16, mask: bv16)
    requires i < 512 && i & 31 == 0 && j < 16 && (centre == 0 || centre == CenterBit)
    ensures (i + j + centre) & RingBits & mask == (i + j) & mask
  {
  }

  /** The table setTotalistic has built from t0 once its loops are at (i, j):
   *  1 at every selected pattern already visited, t0 elsewhere. */
  ghost predicate Filled(t: seq<bv8>, t0: seq<bv8>, value: int, survival: bool, mask: bv16, i: bv16, j: bv16)
    requires |t| == 512 && |t0| == 512
  {
    forall y: bv16 | y < 512 ::
      Lookup(t, y) == if Selected(y, value, survival, mask) && Done(y, i, j) then 1 else Lookup(t0, y)
  }

  /** t1 is t with v written at pattern x. */
  ghost predicate WrittenAt(t: seq<bv8>, t1: seq<bv8>, x: bv16, v: bv8)
    requires |t| == 512 && |t1| == 512 && x < 512
  {
    forall y: bv16 | y < 512 :: Lookup(t1, y) == if y == x then v else Lookup(t, y)
  }

  /** Writing at index p is writing at pattern x when p is x's index. */
  lemma Written(t: seq<bv8>, p: int, x: bv16, v: bv8)
    requires |t| == 512 && 0 <= p < 512 && x < 512 && p == x as int
    ensures WrittenAt(t, t[p := v], x, v)
  {
    forall y: bv16 | y < 512
      ensures Lookup(t[p := v], y) == if y == x then v else Lookup(t, y)
    {
      PatternRoundTrip(y);
      PatternRoundTrip(x);
    }
  }

  lemma FilledStart(t0: seq<bv8>, value: int, survival: bool, mask: bv16)
    requires |t0| == 512
    ensures Filled(t0, t0, value, survival, mask, 0, 0)
  {
  }

  /** A visited pattern with the right count gets its 1. */
  lemma FilledWrite(t: seq<bv8>, t1: seq<bv8>, t0: seq<bv8>, value: int, survival: bool, mask: bv16,
                    i: bv16, j: bv16, centre: bv16)
    requires |t| == 512 && |t1| == 512 && |t0| == 512 && Filled(t, t0, value, survival, mask, i, j)
    requires i < 512 && i & 31 == 0 && j < 16 && centre == (if survival then CenterBit else 0)
    requires Pop9((i + j) & mask) == value
    requires i + j + centre < 512 && WrittenAt(t, t1, i + j + centre, 1)
    ensures Filled(t1, t0, value, survival, mask, i, j + 1)
  {
    forall y: bv16 | y < 512
      ensures Lookup(t1, y) == if Selected(y, value, survival, mask) && Done(y, i, j + 1) then 1 else Lookup(t0, y)
    {
      StepAt(Lookup(t, y), Lookup(t1, y), Lookup(t0, y), value, survival, mask, i, j, centre, y, true);
    }
  }

  /** A visited pattern with another count stays as it was. */
  lemma FilledSkip(t: seq<bv8>, t0: seq<bv8>, value: int, survival: bool, mask: bv16, i: bv16, j: bv16, centre: bv16)
    requires |t| == 512 && |t0| == 512 && Filled(t, t0, value, survival, mask, i, j)
    requires i < 512 && i & 31 == 0 && j < 16 && centre == (if survival then CenterBit else 0)
    requires Pop9((i + j) & mask) != value
    ensures Filled(t, t0, value, survival, mask, i, j + 1)
  {
    forall y: bv16 | y < 512
      ensures Lookup(t, y) == if Selected(y, value, survival, mask) && Done(y, i, j + 1) then 1 else Lookup(t0, y)
    {
      StepAt(Lookup(t, y), Lookup(t, y), Lookup(t0, y), value, survival, mask, i, j, centre, y, false);
    }
  }

  /** One entry across one inner step: before is its value at (i, j), after
   *  its value once pattern i + j + centre was written (when write) or not. */
  lemma StepAt(before: bv8, after: bv8, orig: bv8, value: int, survival: bool, mask: bv16,
               i: bv16, j: bv16, centre: bv16, y: bv16, write: bool)
    requires i < 512 && i & 31 == 0 && j < 16 && centre == (if survival then CenterBit else 0) && y < 512
    requires write <==> Pop9((i + j) & mask) == value
    requires before == if Selected(y, value, survival, mask) && Done(y, i, j) then 1 else orig
    requires after == if write && y == i + j + centre then 1 else before
    ensures after == if Selected(y, value, survival, mask) && Done(y, i, j + 1) then 1 else orig
  {
    if y == i + j + centre {
      StepAtSlot(before, after, orig, value, survival, mask, i, j, centre, write);
    } else if y == i + j || y == i + j + 16 {
      StepAtPair(before, after, orig, value, survival, mask, i, j, centre, y, write);
    } else {
      StepAtRest(before, after, orig, value, survival, mask, i, j, centre, y, write);
    }
  }

  lemma StepAtSlot(before: bv8, after: bv8, orig: bv8, value: int, survival: bool, mask: bv16,
                   i: bv16, j: bv16, centre: bv16, write: bool)
    requires i < 512 && i & 31 == 0 && j < 16 && centre == (if survival then CenterBit else 0)
    requires write <==> Pop9((i + j) & mask) == value
    requires before == if Selected(i + j + centre, value, survival, mask) && Done(i + j + centre, i, j) then 1 else orig
    requires after == if write then 1 else before
    ensures after == if Selected(i + j + centre, value, survival, mask) && Done(i + j + centre, i, j + 1) then 1 else orig
  {
    Slot(i, j, centre, mask);
    DoneStep(i + j + centre, i, j);
    StepAtWritten(value, survival, mask, i, j, centre);
  }

  lemma StepAtPair(before: bv8, after: bv8, orig: bv8, value: int, survival: bool, mask: bv16,
                   i: bv16, j: bv16, centre: bv16, y: bv16, write: bool)
    requires i < 512 && i & 31 == 0 && j < 16 && centre == (if survival then CenterBit else 0)
    requires (y == i + j || y == i + j + 16) && y != i + j + centre
    requires before == if Selected(y, value, survival, mask) && Done(y, i, j) then 1 else orig
    requires after == before
    ensures after == if Selected(y, value, survival, mask) && Done(y, i, j + 1) then 1 else orig
  {
    StepAtOther(value, survival, mask, i, j, centre, y);
  }

  lemma StepAtRest(before: bv8, after: bv8, orig: bv8, value: int, survival: bool, mask: bv16,
                   i: bv16, j: bv16, centre: bv16, y: bv16, write: bool)
    requires i < 512 && i & 31 == 0 && j < 16
    requires y != i + j && y != i + j + 16
    requires before == if Selected(y, value, survival, mask) && Done(y, i, j) then 1 else orig
    requires after == before
    ensures after == if Selected(y, value, survival, mask) && Done(y, i, j + 1) then 1 else orig
  {
    DoneStep(y, i, j);
  }

  /** The pattern written at step (i, j) is selected exactly when its count is value. */
  lemma StepAtWritten(value: int, survival: bool, mask: bv16, i: bv16, j: bv16, centre: bv16)
    requires i < 512 && i & 31 == 0 && j < 16 && centre == (if survival then CenterBit else 0)
    ensures Selected(i + j + centre, value, survival, mask) <==> Pop9((i + j) & mask) == value
  {
    SlotBit(i, j, centre, survival);
    SlotNeighbours(i, j, centre, mask);
  }

  lemma SlotBit(i: bv16, j: bv16, centre: bv16, survival: bool)
    requires i < 512 && i & 31 == 0 && j < 16 && centre == (if survival then CenterBit else 0)
    ensures Bit(i + j + centre, 4) == survival
  {
    Slot(i, j, centre, 0);
    SlotCentre(i, j);
  }

  lemma SlotNeighbours(i: bv16, j: bv16, centre: bv16, mask: bv16)
    requires i < 512 && i & 31 == 0 && j < 16 && (centre == 0 || centre == CenterBit)
    ensures NeighbourCount(i + j + centre, mask) == Pop9((i + j) & mask)
  {
    SlotCount(i, j, centre, mask);
    SameCount(i + j + centre, mask, (i + j) & mask);
  }

  lemma SameCount(x: bv16, mask: bv16, a: bv16)
    requires x & RingBits & mask == a
    ensures NeighbourCount(x, mask) == Pop9(a)
  {
  }

  /** The other pattern of the pair has the wrong centre. */
  lemma StepAtOther(value: int, survival: bool, mask: bv16, i: bv16, j: bv16, centre: bv16, y: bv16)
    requires i < 512 && i & 31 == 0 && j < 16 && centre == (if survival then CenterBit else 0)
    requires (y == i + j || y == i + j + 16) && y != i + j + centre
    ensures !Selected(y, value, survival, mask)
  {
    Slot(i, j, centre, mask);
    SlotCentre(i, j);
  }

  lemma FilledBlock(t: seq<bv8>, t0: seq<bv8>, value: int, survival: bool, mask: bv16, i: bv16)
    requires |t| == 512 && |t0| == 512 && Filled(t, t0, value, survival, mask, i, 16)
    requires i < 512 && i & 31 == 0
    ensures Filled(t, t0, value, survival, mask, i + 32, 0)
  {
    forall y: bv16 | y < 512
      ensures Lookup(t, y) == if Selected(y, value, survival, mask) && Done(y, i + 32, 0) then 1 else Lookup(t0, y)
    {
      DoneBlock(y, i);
      DoneStart(y, i + 32);
    }
  }

  /** Once every block is visited the table is setTotalistic's. */
  lemma FilledAll(t: seq<bv8>, e: Tables, value: int, survival: bool, mask: bv16)
    requires WellSized(e) && 0 <= value <= 8 && |t| == 512 && Filled(t, e.table, value, survival, mask, 512, 0)
    ensures t == TotalisticStep(e, value, survival, mask).table
  {
    var r := TotalisticStep(e, value, survival, mask).table;
    forall y: bv16 | y < 512
      ensures Lookup(t, y) == Lookup(r, y)
    {
      DoneStart(y, 512);
      TotalisticStepAt(e, value, survival, mask, y);
    }
    SameTable(t, r);
  }

  /** Two 512-entry tables agreeing at every pattern are equal. */
  lemma SameTable(a: seq<bv8>, b: seq<bv8>)
    requires |a| == 512 && |b| == 512
    requires forall y: bv16 | y < 512 :: Lookup(a, y) == Lookup(b, y)
    ensures a == b
  {
    forall p | 0 <= p < 512
      ensures a[p] == b[p]
    {
      var y := ToPattern(p);
      BelowAsInt(y);
      assert Lookup(a, y) == Lookup(b, y);
    }
  }

  /** The pattern whose index is p. */
  function ToPattern(p: int): (y: bv16)
    requires 0 <= p < 512
    ensures y as int == p
  {
    if p == 0 then 0 else Succ(ToPattern(p - 1))
  }

  function Succ(y: bv16): (z: bv16)
    requires y as int < 511
    ensures z as int == y as int + 1
  {
    y + 1
  }

  lemma BelowAsInt(y: bv16)
    ensures y < 512 <==> y as int < 512
  {
  }

  /** The table setSymmetrical512 has built from t0 after its first k
   *  writes: b at the first k images of x, t0 elsewhere. */
  ghost predicate Painted(t: seq<bv8>, t0: seq<bv8>, x: bv16, b: bv8, k: nat)
    requires |t| == 512 && |t0| == 512 && x < 512 && k <= 8
  {
    forall y: bv16 | y < 512 :: Lookup(t, y) == if y in Orbit(x)[..k] then b else Lookup(t0, y)
  }

  lemma PaintedStart(t0: seq<bv8>, x: bv16, b: bv8)
    requires |t0| == 512 && x < 512
    ensures Painted(t0, t0, x, b, 0)
  {
  }

  /** The write of b at the k-th image adds it to the painted images. */
  lemma PaintedStep(t: seq<bv8>, t1: seq<bv8>, t0: seq<bv8>, x: bv16, b: bv8, k: nat)
    requires |t| == 512 && |t1| == 512 && |t0| == 512 && x < 512 && k < 8
    requires Painted(t, t0, x, b, k) && WrittenAt(t, t1, Image(x, k), b)
    ensures Painted(t1, t0, x, b, k + 1)
  {
    assert Orbit(x)[..k + 1] == Orbit(x)[..k] + [Image(x, k)];
  }

  /** All eight images painted: the table is setSymmetrical512's. */
  lemma PaintedAll(t: seq<bv8>, t0: seq<bv8>, x: bv16, b: bv8)
    requires |t| == 512 && |t0| == 512 && x < 512 && Painted(t, t0, x, b, 8)
    ensures t == Symmetrical512Step(t0, x, b)
  {
    var r := Symmetrical512Step(t0, x, b);
    forall y: bv16 | y < 512
      ensures Lookup(t, y) == Lookup(r, y)
    {
      assert Orbit(x)[..8] == Orbit(x);
      Symmetrical512At(t0, x, b, y);
    }
    SameTable(t, r);
  }

  /** What setRuleFromString does after the digit value, on the rest s of the string. */
  ghost function DigitRun(e: Tables, s: string, value: int, survival: bool, mask: bv16): (r: Option<Tables>)
    requires WellSized(e) && 0 <= value <= 8
    ensures r.Some? ==> WellSized(r.value)
  {
    var nindex := if s == [] then 0 else IndexOf(ValidRuleLetters, s[0]);
    var e1 := if 0 <= nindex <= 8 then TotalisticStep(e, value, survival, mask) else e;
    if s != [] && s[0] == '-' then LetterRun(e1, s[1..], value, survival, false, mask)
    else LetterRun(e1, s, value, survival, true, mask)
  }

  /** The letters after the digit value, s, have patterns for that digit. */
  ghost predicate DigitFits(s: string, value: int, survival: bool)
    requires 0 <= value <= 8
  {
    if s != [] && s[0] == '-' then RunFits(s[1..], value, survival) else RunFits(s, value, survival)
  }

  /** One step of the scan of setRuleFromString at pos: a digit hands over to
   *  DigitRun, any other character is skipped. */
  lemma ScanStep(e: Tables, rule: string, pos: int, survival: bool, mask: bv16)
    requires WellSized(e) && 0 <= pos < |rule| && LettersFit(rule[pos..], survival)
    ensures var lindex := IndexOf(ValidRuleLetters, rule[pos]);
      if (0 < lindex <= 8) || (lindex == 0 && survival) then
        && DigitFits(rule[pos + 1..], lindex, survival)
        && RuleFromString(e, rule[pos..], survival, mask) == DigitRun(e, rule[pos + 1..], lindex, survival, mask)
      else
        && LettersFit(rule[pos + 1..], survival)
        && RuleFromString(e, rule[pos..], survival, mask) == RuleFromString(e, rule[pos + 1..], survival, mask)
  {
    assert rule[pos..][1..] == rule[pos + 1..];
  }

  /** A digit is not a Hensel letter. */
  lemma DigitNotLetter(c: char)
    requires '0' <= c <= '9'
    ensures IndexOf(LetterOrder, c) < 0
  {
    if IndexOf(LetterOrder, c) >= 0 {
      LetterOrderFacts(IndexOf(LetterOrder, c));
    }
  }

  /** A string of digits up to 8 has no letter to check, so setRuleFromString
   *  accepts it as a list of totalistic digits. */
  lemma {:induction false} DigitsFit(s: string, survival: bool)
    requires DigitsAtMost(s, 8)
    ensures LettersFit(s, survival)
    decreases |s|
  {
    if s != [] {
      DigitsTail(s, 8);
      DigitsFit(s[1..], survival);
      DigitLetterIndex(s[0]);
      if |s| > 1 {
        assert s[1..][0] == s[1];
        DigitNotLetter(s[1]);
      }
    }
  }

  /** The parts createRuleMap accepts: digit strings when totalistic, letters
   *  with a pattern for their digit otherwise. */
  predicate PartsFit(birth: string, survival: string, totalistic: bool) {
    if totalistic then DigitsAtMost(birth, 8) && DigitsAtMost(survival, 8)
    else LettersFit(birth, false) && LettersFit(survival, true)
  }

  //
  // What setrule installs
  //

  /** The rule fields and tables a successful setrule leaves: the table
   *  state, canonrule, rule0, rule1 when it is rebuilt, and alternate_rules. */
  datatype Installed = Installed(final: Tables, canon: string, table0: seq<bv8>, table1: Option<seq<bv8>>, alternate: bool)

  /** An accepted rule, as the table builders need it. */
  predicate Installable(s: Settings, p: Parts) {
    && 0 <= s.neighbors <= 8
    && (s.wolfram >= 0 ==> s.wolfram <= 254)
    && (s.wolfram < 0 ==> PartsFit(p.birth, p.survival, s.totalistic))
  }

  /** Whatever setrule's parser accepts, the installer can build. */
  lemma ParsedInstallable(m: Masks, r: Parsed)
    requires ValidMasks(m) && WellParsed(m, r, true) && r.parts.Ok?
    ensures Installable(r.settings, r.parts.value)
  {
  }

  /** createRuleMap on parts it accepts always builds a table. */
  lemma RuleMapBuilds(e: Tables, birth: string, survival: string, totalistic: bool, mask: bv16)
    requires WellSized(e) && PartsFit(birth, survival, totalistic)
    ensures RuleMap(e, birth, survival, totalistic, mask).Some?
  {
    if totalistic {
      TotalisticRuleMapMeaning(e, birth, survival, mask);
    } else {
      var e0 := e.(table := EmptyTable());
      LettersFitExact(e0, birth, false, mask);
      LettersFitExact(RuleFromString(e0, birth, false, mask).value, survival, true, mask);
    }
  }

  /** The tables createRuleMap builds from accepted parts. */
  function Build(e: Tables, birth: string, survival: string, totalistic: bool, mask: bv16): (r: Tables)
    requires WellSized(e) && PartsFit(birth, survival, totalistic)
    ensures WellSized(r) && Some(r) == RuleMap(e, birth, survival, totalistic, mask)
  {
    RuleMapBuilds(e, birth, survival, totalistic, mask);
    RuleMap(e, birth, survival, totalistic, mask).value
  }

  /** The success branch of setrule (gollybase/liferules.cpp:865-913), from
   *  the fields reset at its start. */
  function Install(m: Masks, s: Settings, p: Parts, suffix: string): (b: Installed)
    requires Installable(s, p)
  {
    if s.wolfram >= 0 then InstallWolfram(m, s, suffix)
    else
      var e1 := Build(ResetTables(), p.birth, p.survival, s.totalistic, s.mask);
      InstallB0(s, p, e1, CanonicalName(s, e1, m, suffix))
  }

  /** The Wolfram branch: the Wolfram table, its name and its 4x4 table. */
  function InstallWolfram(m: Masks, s: Settings, suffix: string): (b: Installed)
    requires 0 <= s.wolfram <= 254 && 0 <= s.neighbors <= 8
  {
    var e := ResetTables().(table := WolframTable(s.wolfram));
    Installed(e, CanonicalName(s, e, m, suffix), Compile4x4(e.table), None, false)
  }

  /** The B0 check after createRuleMap and createCanonicalName: a totalistic
   *  rule with birth on 0 is emulated, with one derived table when it also
   *  survives on neighbors and with an even and an odd one otherwise. */
  function InstallB0(s: Settings, p: Parts, e1: Tables, canon: string): (b: Installed)
    requires WellSized(e1) && 0 <= s.neighbors <= 8
  {
    if s.totalistic && HasDigit(p.birth, 0) then
      if HasDigit(p.survival, s.neighbors) then
        var q := SmaxParts(p.birth, p.survival, s.neighbors);
        var e2 := Build(e1, q.birth, q.survival, true, s.mask);
        Installed(e2, canon, Compile4x4(e2.table), None, false)
      else
        var q := EvenParts(p.birth, p.survival, s.neighbors);
        var e2 := Build(e1, q.birth, q.survival, true, s.mask);
        var r := OddParts(p.birth, p.survival, s.neighbors);
        var e3 := Build(e2, r.birth, r.survival, true, s.mask);
        Installed(e3, canon, Compile4x4(e2.table), Some(Compile4x4(e3.table)), true)
    else Installed(e1, canon, Compile4x4(e1.table), None, false)
  }

  /** The message setrule returns: the parser's, or setgridsize's for the
   *  text after a colon, or none. */
  function Failure(parsed: Parsed, rule: string, grid: Result<string>): (r: Option<string>)
  {
    if parsed.parts.Err? then Some(parsed.parts.msg)
    else if ':' in rule && grid.Err? then Some(grid.msg)
    else None
  }


  /** A letter at position pos of a run that fits: its pattern exists, and
   *  the run goes on from pos + 1 after its setSymmetrical. */
  lemma LetterRunStep(e: Tables, rule: string, pos: int, value: int, survival: bool, normal: bool, mask: bv16)
    requires WellSized(e) && 0 <= pos < |rule| && 0 <= value <= 8
    requires RunFits(rule[pos..], value, survival) && IndexOf(LetterOrder, rule[pos]) >= 0
    ensures var lindex := IndexOf(LetterOrder, rule[pos]);
      && 0 <= lindex < 13 && (1 <= value <= 7 ==> lindex < LetterCount(value))
      && RunFits(rule[pos + 1..], value, survival)
      && LetterRun(e, rule[pos..], value, survival, normal, mask)
         == LetterRun(SymmetricalStep(e, value, survival, lindex, normal, mask), rule[pos + 1..], value, survival, normal, mask)
  {
    assert rule[pos..][1..] == rule[pos + 1..];
  }

  /** A run ends at the first character that is not a letter, where the scan for digits resumes. */
  lemma LetterRunEnd(e: Tables, rule: string, pos: int, value: int, survival: bool, normal: bool, mask: bv16)
    requires WellSized(e) && 0 <= pos <= |rule| && 0 <= value <= 8
    requires RunFits(rule[pos..], value, survival) && (pos < |rule| ==> IndexOf(LetterOrder, rule[pos]) < 0)
    ensures LettersFit(rule[pos..], survival)
    ensures LetterRun(e, rule[pos..], value, survival, normal, mask) == RuleFromString(e, rule[pos..], survival, mask)
  {
  }

  /** The counting loop of setTotalistic (gollybase/liferules.cpp:85-89):
   *  adds up the low bit and shifts right until nothing is left. */
  method CountBits(x: bv16) returns (nbrs: int)
    requires x < 512
    ensures nbrs == Pop9(x)
  {
    var nhood := x;
    nbrs := 0;
    while nhood > 0
      invariant nhood < 512 && nbrs + Pop9(nhood) == Pop9(x)
      decreases nhood
    {
      Pop9Step(nhood);
      nbrs := nbrs + (nhood & 1) as int;
      nhood := nhood >> 1;
    }
    assert Pop9(0) == 0;
  }

  class LifeRules {
    /** MOORE, HEXAGONAL and VON_NEUMANN. */
    const masks: Masks
    var wolfram: int
    var neighborMask: bv16
    var neighbors: int
    var totalistic: bool
    var rulebits: bv32
    var alternateRules: bool
    var canonRule: string
    const rule3x3: array<bv8>
    const rule0: array<bv8>
    const rule1: array<bv8>
    const letterBits: array<bv32>
    const negLetterBits: array<bv32>

    /** The buffer sizes and that the buffers are distinct. */
    predicate Valid() {
      && rule3x3.Length == 512 && rule0.Length == 65536 && rule1.Length == 65536
      && letterBits.Length == 18 && negLetterBits.Length == 18
      && rule0 != rule1 && rule3x3 != rule0 && rule3x3 != rule1 && letterBits != negLetterBits
    }

    /** The fields the table builders work on. */
    function State(): (e: Tables)
      requires Valid()
      reads this, rule3x3, letterBits, negLetterBits
      ensures WellSized(e)
    {
      Tables(rule3x3[..], rulebits, letterBits[..], negLetterBits[..])
    }

    /** liferules::liferules (gollybase/liferules.cpp:30-57): Moore, 8
     *  neighbours, Wolfram number 0, totalistic, everything else cleared. */
    constructor (m: Masks)
      ensures Valid() && masks == m
      ensures canonRule == [] && !alternateRules && neighborMask == m.moore && neighbors == 8
      ensures wolfram == 0 && totalistic && rulebits == 0
      ensures State() == Tables(EmptyTable(), 0, seq(18, i => 0), seq(18, i => 0))
      ensures forall i | 0 <= i < 65536 :: rule0[i] == 0 && rule1[i] == 0
      ensures fresh(rule3x3) && fresh(rule0) && fresh(rule1) && fresh(letterBits) && fresh(negLetterBits)
    {
      masks := m;
      canonRule := [];
      alternateRules := false;
      neighborMask := m.moore;
      neighbors := 8;
      wolfram := 0;
      totalistic := true;
      rulebits := 0;
      letterBits := new bv32[18](i => 0);
      negLetterBits := new bv32[18](i => 0);
      rule0 := new bv8[65536](i => 0);
      rule1 := new bv8[65536](i => 0);
      rule3x3 := new bv8[512](i => 0);
      new;
      assert rule3x3[..] == EmptyTable();
      assert letterBits[..] == seq(18, i => 0);
      assert negLetterBits[..] == seq(18, i => 0);
    }

    /** setTotalistic (gollybase/liferules.cpp:63-96): sets the rulebits bit
     *  of the digit and a 1 at every pattern with the centre the half asks
     *  for and `value` live cells under the neighbourhood mask. */
    method SetTotalistic(value: int, survival: bool)
      requires Valid() && 0 <= value <= 8
      modifies this`rulebits, rule3x3
      ensures State() == TotalisticStep(old(State()), value, survival, neighborMask)
    {
      var offset := if survival then SurvivalOffset else 0;
      rulebits := rulebits | OneBit(value + offset);
      var centre: bv16 := if survival then CenterBit else 0;
      ghost var t0 := rule3x3[..];
      FilledStart(t0, value, survival, neighborMask);
      var i: bv16 := 0;
      while i < 512
        invariant i <= 512 && i & 31 == 0
        invariant Filled(rule3x3[..], t0, value, survival, neighborMask, i, 0)
        modifies rule3x3
      {
        FillBlock(value, survival, i, centre, t0);
        NextBlock(i);
        i := i + 32;
      }
      FilledAll(rule3x3[..], old(State()), value, survival, neighborMask);
    }

    /** The inner loop of setTotalistic over the block of 32 patterns from i. */
    method FillBlock(value: int, survival: bool, i: bv16, centre: bv16, ghost t0: seq<bv8>)
      requires Valid() && 0 <= value <= 8 && |t0| == 512
      requires i < 512 && i & 31 == 0 && centre == (if survival then CenterBit else 0)
      requires Filled(rule3x3[..], t0, value, survival, neighborMask, i, 0)
      modifies rule3x3
      ensures Filled(rule3x3[..], t0, value, survival, neighborMask, i + 32, 0)
    {
      var j: bv16 := 0;
      while j < 16
        invariant j <= 16
        invariant Filled(rule3x3[..], t0, value, survival, neighborMask, i, j)
      {
        FillSlot(value, survival, i, j, centre, t0);
        j := j + 1;
      }
      FilledBlock(rule3x3[..], t0, value, survival, neighborMask, i);
    }

    /** One step of the inner loop: pattern i + j, with the centre bit when
     *  the survival half is set, becomes 1 when its neighbour count is value. */
    method FillSlot(value: int, survival: bool, i: bv16, j: bv16, centre: bv16, ghost t0: seq<bv8>)
      requires Valid() && 0 <= value <= 8 && |t0| == 512
      requires i < 512 && i & 31 == 0 && j < 16 && centre == (if survival then CenterBit else 0)
      requires Filled(rule3x3[..], t0, value, survival, neighborMask, i, j)
      modifies rule3x3
      ensures Filled(rule3x3[..], t0, value, survival, neighborMask, i, j + 1)
    {
      var mask := neighborMask;
      Slot(i, j, centre, mask);
      var nbrs := CountBits((i + j) & mask);
      if value == nbrs {
        var x := i + j + centre;
        PatternRoundTrip(x);
        var p := x as int;
        ghost var before := rule3x3[..];
        rule3x3[p] := 1;
        Written(before, p, x, 1);
        FilledWrite(before, rule3x3[..], t0, value, survival, mask, i, j, centre);
      } else {
        FilledSkip(rule3x3[..], t0, value, survival, mask, i, j, centre);
      }
    }

    /** setSymmetrical512 (gollybase/liferules.cpp:111-129): b at the four
     *  quarter turns of x, then at the four quarter turns of its flip. */
    method SetSymmetrical512(x: bv16, b: bv8)
      requires Valid() && x < 512
      modifies rule3x3
      ensures rule3x3[..] == Symmetrical512Step(old(rule3x3[..]), x, b)
    {
      ghost var t0 := rule3x3[..];
      PaintedStart(t0, x, b);
      var y := x;
      var i := 0;
      while i < 4
        invariant 0 <= i <= 4 && y == Turn(x, i)
        invariant Painted(rule3x3[..], t0, x, b, i)
      {
        PaintAt(y, b, x, i, t0);
        y := RotateBits90Clockwise(y);
        i := i + 1;
      }
      FlipOfTurns(x);
      y := FlipBits(y);
      i := 0;
      while i < 4
        invariant 0 <= i <= 4 && y == Turn(FlipBits(x), i)
        invariant Painted(rule3x3[..], t0, x, b, 4 + i)
      {
        PaintAt(y, b, x, 4 + i, t0);
        y := RotateBits90Clockwise(y);
        i := i + 1;
      }
      PaintedAll(rule3x3[..], t0, x, b);
    }

    /** One write of setSymmetrical512: b at y, the k-th image of x. */
    method PaintAt(y: bv16, b: bv8, ghost x: bv16, ghost k: nat, ghost t0: seq<bv8>)
      requires Valid() && x < 512 && k < 8 && |t0| == 512 && y == Image(x, k)
      requires Painted(rule3x3[..], t0, x, b, k)
      modifies rule3x3
      ensures Painted(rule3x3[..], t0, x, b, k + 1)
    {
      PatternRoundTrip(y);
      var p := y as int;
      ghost var before := rule3x3[..];
      rule3x3[p] := b;
      Written(before, p, y, b);
      PaintedStep(before, rule3x3[..], t0, x, b, k);
    }

    /** setSymmetrical (gollybase/liferules.cpp:132-170): a count of 0 or 8
     *  is totalistic; otherwise the digit's rulebits bit and the letter's
     *  bit are set, and the letter's pattern (reflected for counts above 4,
     *  with the centre for survival) is written with all its images. */
    method SetSymmetrical(value: int, survival: bool, lindex: int, normal: bool)
      requires Valid() && 0 <= value <= 8 && 0 <= lindex < 13
      requires 1 <= value <= 7 ==> lindex < LetterCount(value)
      modifies this`rulebits, rule3x3, letterBits, negLetterBits
      ensures State() == SymmetricalStep(old(State()), value, survival, lindex, normal, neighborMask)
    {
      if value == 0 || value == 8 {
        SetTotalistic(value, survival);
      } else {
        SetLetter(value, survival, lindex, normal);
      }
    }

    /** The branch of setSymmetrical for a count of 1..7. */
    method SetLetter(value: int, survival: bool, lindex: int, normal: bool)
      requires Valid() && 1 <= value <= 7 && 0 <= lindex < LetterCount(value)
      modifies this`rulebits, rule3x3, letterBits, negLetterBits
      ensures State() == LetterStep(old(State()), value, survival, lindex, normal)
    {
      ghost var r := LetterStep(State(), value, survival, lindex, normal);
      var slot := value + Offset(survival);
      MarkLetter(slot, lindex, normal);
      ghost var letters, negLetters := letterBits[..], negLetterBits[..];
      var x := LetterTarget(value, lindex, survival);
      SetSymmetrical512(x, if normal then 1 else 0);
      assert letterBits[..] == letters && negLetterBits[..] == negLetters;
    }

    /** The bookkeeping of setSymmetrical: the digit's rulebits bit, and the
     *  letter's bit in letter_bits (or neg_letter_bits for a negated letter). */
    method MarkLetter(slot: int, lindex: int, normal: bool)
      requires Valid() && 0 <= slot < 18 && 0 <= lindex < 13
      modifies this`rulebits, letterBits, negLetterBits
      ensures rulebits == old(rulebits) | OneBit(slot)
      ensures letterBits[..] == if normal then Mark(old(letterBits[..]), slot, lindex) else old(letterBits[..])
      ensures negLetterBits[..] == if normal then old(negLetterBits[..]) else Mark(old(negLetterBits[..]), slot, lindex)
    {
      rulebits := rulebits | OneBit(slot);
      if normal {
        ghost var words := letterBits[..];
        var w := letterBits[slot] | OneBit(lindex);
        letterBits[slot] := w;
        assert letterBits[..] == words[slot := w];
      } else {
        ghost var words := negLetterBits[..];
        var w := negLetterBits[slot] | OneBit(lindex);
        negLetterBits[slot] := w;
        assert negLetterBits[..] == words[slot := w];
      }
    }

    /** setTotalisticRuleFromString (gollybase/liferules.cpp:173-186): one
     *  setTotalistic per digit of the part, left to right. */
    method SetTotalisticRuleFromString(rule: string, survival: bool)
      requires Valid() && DigitsAtMost(rule, 8)
      modifies this`rulebits, rule3x3
      ensures State() == TotalisticFromString(old(State()), rule, survival, neighborMask)
    {
      ghost var target := TotalisticFromString(State(), rule, survival, neighborMask);
      var k := 0;
      while k < |rule|
        invariant 0 <= k <= |rule| && DigitsAtMost(rule[k..], 8)
        invariant TotalisticFromString(State(), rule[k..], survival, neighborMask) == target
      {
        var current := rule[k] as int - '0' as int;
        assert rule[k..][1..] == rule[k + 1..];
        DigitsTail(rule[k..], 8);
        SetTotalistic(current, survival);
        k := k + 1;
      }
    }

    /** setRuleFromString (gollybase/liferules.cpp:189-261): scans for a
     *  digit; a digit followed by another digit (or by nothing) is
     *  totalistic, and the letters after it (after a '-' for negated
     *  letters) are set one by one with setSymmetrical. */
    method SetRuleFromString(rule: string, survival: bool)
      requires Valid() && LettersFit(rule, survival)
      modifies this`rulebits, rule3x3, letterBits, negLetterBits
      ensures Some(State()) == RuleFromString(old(State()), rule, survival, neighborMask)
    {
      ghost var target := RuleFromString(State(), rule, survival, neighborMask);
      var pos := 0;
      while pos < |rule|
        invariant 0 <= pos <= |rule| && LettersFit(rule[pos..], survival)
        invariant RuleFromString(State(), rule[pos..], survival, neighborMask) == target
        decreases |rule| - pos
      {
        pos := SetRuleAt(rule, pos, survival);
      }
    }

    /** One pass of the scan in setRuleFromString: the character at pos, and
     *  when it is a digit, the letters that follow it. */
    method SetRuleAt(rule: string, pos: int, survival: bool) returns (next: int)
      requires Valid() && 0 <= pos < |rule| && LettersFit(rule[pos..], survival)
      modifies this`rulebits, rule3x3, letterBits, negLetterBits
      ensures pos < next <= |rule| && LettersFit(rule[next..], survival)
      ensures RuleFromString(State(), rule[next..], survival, neighborMask)
        == RuleFromString(old(State()), rule[pos..], survival, neighborMask)
    {
      var current := rule[pos];
      next := pos + 1;
      var lindex := IndexOf(ValidRuleLetters, current);
      ScanStep(State(), rule, pos, survival, neighborMask);
      if (0 < lindex <= 8) || (lindex == 0 && survival) {
        next := SetDigit(rule, next, lindex, survival);
      }
    }

    /** A digit of setRuleFromString, with rule[start..] what follows it: the
     *  totalistic patterns unless a letter follows, then the letter run. */
    method SetDigit(rule: string, start: int, value: int, survival: bool) returns (next: int)
      requires Valid() && 0 <= start <= |rule| && 0 <= value <= 8
      requires DigitFits(rule[start..], value, survival)
      modifies this`rulebits, rule3x3, letterBits, negLetterBits
      ensures start <= next <= |rule| && LettersFit(rule[next..], survival)
      ensures RuleFromString(State(), rule[next..], survival, neighborMask)
        == DigitRun(old(State()), rule[start..], value, survival, neighborMask)
    {
      var nindex := 0;
      if start < |rule| {
        nindex := IndexOf(ValidRuleLetters, rule[start]);
      }
      if 0 <= nindex <= 8 {
        SetTotalistic(value, survival);
      }
      next := start;
      var normal := true;
      if start < |rule| && rule[start] == '-' {
        assert rule[start..][1..] == rule[start + 1..];
        next := start + 1;
        normal := false;
      }
      next := SetLetterRun(rule, next, value, survival, normal);
    }

    /** One letter of a run: setSymmetrical for the letter's pattern. */
    method SetRunLetter(rule: string, pos: int, value: int, survival: bool, normal: bool) returns (next: int)
      requires Valid() && 0 <= pos < |rule| && 0 <= value <= 8
      requires RunFits(rule[pos..], value, survival) && IndexOf(LetterOrder, rule[pos]) >= 0
      modifies this`rulebits, rule3x3, letterBits, negLetterBits
      ensures next == pos + 1 && RunFits(rule[next..], value, survival)
      ensures LetterRun(State(), rule[next..], value, survival, normal, neighborMask)
        == LetterRun(old(State()), rule[pos..], value, survival, normal, neighborMask)
    {
      ghost var e := State();
      LetterRunStep(e, rule, pos, value, survival, normal, neighborMask);
      SetSymmetrical(value, survival, IndexOf(LetterOrder, rule[pos]), normal);
      next := pos + 1;
    }

    /** The letter loop of setRuleFromString (gollybase/liferules.cpp:236-258):
     *  one setSymmetrical per Hensel letter from pos on; returns the position
     *  of the first character that is not a letter. */
    method SetLetterRun(rule: string, start: int, value: int, survival: bool, normal: bool) returns (pos: int)
      requires Valid() && 0 <= start <= |rule| && 0 <= value <= 8 && RunFits(rule[start..], value, survival)
      modifies this`rulebits, rule3x3, letterBits, negLetterBits
      ensures start <= pos <= |rule| && LettersFit(rule[pos..], survival)
      ensures RuleFromString(State(), rule[pos..], survival, neighborMask)
        == LetterRun(old(State()), rule[start..], value, survival, normal, neighborMask)
    {
      var mask := neighborMask;
      ghost var target := LetterRun(State(), rule[start..], value, survival, normal, mask);
      pos := start;
      while pos < |rule| && IndexOf(LetterOrder, rule[pos]) >= 0
        invariant Valid() && mask == neighborMask
        invariant start <= pos <= |rule| && RunFits(rule[pos..], value, survival)
        invariant LetterRun(State(), rule[pos..], value, survival, normal, mask) == target
        decreases |rule| - pos
      {
        pos := SetRunLetter(rule, pos, value, survival, normal);
      }
      LetterRunEnd(State(), rule, pos, value, survival, normal, mask);
    }

    /** The memset of rule3x3 before each rebuild. */
    method ClearTable()
      requires Valid()
      modifies rule3x3
      ensures rule3x3[..] == EmptyTable()
    {
      var p := 0;
      while p < 512
        invariant 0 <= p <= 512
        invariant forall k | 0 <= k < p :: rule3x3[k] == 0
      {
        rule3x3[p] := 0;
        p := p + 1;
      }
      assert rule3x3[..] == EmptyTable();
    }

    /** createWolframMap (gollybase/liferules.cpp:263-276): clear the table,
     *  then set pattern i when bit (i & 7) of the rule number is set or the
     *  centre of i is live. */
    method CreateWolframMap()
      requires Valid() && 0 <= wolfram < 256
      modifies rule3x3
      ensures rule3x3[..] == WolframTable(wolfram)
    {
      ClearTable();
      var w := wolfram;
      ghost var t := WolframTable(w);
      var p := 0;
      while p < 512
        invariant 0 <= p <= 512
        invariant forall k | 0 <= k < p :: rule3x3[k] == t[k]
        invariant forall k | p <= k < 512 :: rule3x3[k] == 0
      {
        var v := WolframEntry(w, p as bv16);
        assert v == t[p];
        if v == 1 {
          rule3x3[p] := 1;
        }
        p := p + 1;
      }
      assert rule3x3[..] == t;
    }

    /** convertTo4x4Map (gollybase/liferules.cpp:384-418): entry i of the
     *  65536-entry table packs the four 3x3 lookups of block i. */
    method ConvertTo4x4Map(which: array<bv8>)
      requires Valid() && (which == rule0 || which == rule1)
      modifies which
      ensures which[..] == Compile4x4(rule3x3[..])
    {
      ghost var t := rule3x3[..];
      var i := 0;
      while i < 65536
        invariant 0 <= i <= 65536 && rule3x3[..] == t
        invariant forall k | 0 <= k < i :: which[k] == Compile4x4(t)[k]
      {
        var v := Entry(i as bv16);
        which[i] := v;
        i := i + 1;
      }
      assert which[..] == Compile4x4(t);
    }

    /** The body of convertTo4x4Map's loop: four lookups in rule3x3, packed. */
    method Entry(b: bv16) returns (v: bv8)
      requires Valid()
      ensures v == Entry4x4(rule3x3[..], b)
    {
      var a := Cell(Window00(b));
      var c := Cell(Window01(b));
      var d := Cell(Window10(b));
      var f := Cell(Window11(b));
      v := Pack4(a, c, d, f);
    }

    /** One lookup in rule3x3. */
    method Cell(x: bv16) returns (c: bv8)
      requires Valid() && x < 512
      ensures c == Lookup(rule3x3[..], x)
    {
      c := rule3x3[x];
    }

    /** createRuleMap (gollybase/liferules.cpp:279-298): clear rule3x3, then
     *  build the birth half and the survival half, totalistic or not.  The
     *  rule bits are not cleared. */
    method CreateRuleMap(birth: string, survival: string)
      requires Valid() && PartsFit(birth, survival, totalistic)
      modifies this`rulebits, rule3x3, letterBits, negLetterBits
      ensures Some(State()) == RuleMap(old(State()), birth, survival, totalistic, neighborMask)
    {
      ClearTable();
      if totalistic {
        SetTotalisticRuleFromString(birth, false);
        SetTotalisticRuleFromString(survival, true);
      } else {
        SetRuleFromString(birth, false);
        SetRuleFromString(survival, true);
      }
    }

    /** createB0EvenRuleMap (gollybase/liferules.cpp:506-533): each part gets
     *  the digits 0..neighbors it lacks. */
    method CreateB0EvenRuleMap(birth: string, survival: string)
      requires Valid() && 0 <= neighbors <= 8
      modifies this`rulebits, rule3x3, letterBits, negLetterBits
      ensures var q := EvenParts(birth, survival, neighbors);
        Some(State()) == RuleMap(old(State()), q.birth, q.survival, totalistic, neighborMask)
    {
      var newBirth, newSurvival := EvenDigits(birth, survival, neighbors);
      DigitsFit(newBirth, false);
      DigitsFit(newSurvival, true);
      CreateRuleMap(newBirth, newSurvival);
    }

    /** createB0OddRuleMap (gollybase/liferules.cpp:475-503): birth gets
     *  neighbors - i for each survival digit i, survival gets neighbors - i
     *  for each birth digit i. */
    method CreateB0OddRuleMap(birth: string, survival: string)
      requires Valid() && 0 <= neighbors <= 8
      modifies this`rulebits, rule3x3, letterBits, negLetterBits
      ensures var q := OddParts(birth, survival, neighbors);
        Some(State()) == RuleMap(old(State()), q.birth, q.survival, totalistic, neighborMask)
    {
      var newBirth, newSurvival := MirroredDigits(birth, survival, neighbors, true);
      DigitsFit(newBirth, false);
      DigitsFit(newSurvival, true);
      CreateRuleMap(newBirth, newSurvival);
    }

    /** createB0SmaxRuleMap (gollybase/liferules.cpp:443-472): birth gets
     *  neighbors - i for each digit i survival lacks, survival gets
     *  neighbors - i for each digit i birth lacks. */
    method CreateB0SmaxRuleMap(birth: string, survival: string)
      requires Valid() && 0 <= neighbors <= 8
      modifies this`rulebits, rule3x3, letterBits, negLetterBits
      ensures var q := SmaxParts(birth, survival, neighbors);
        Some(State()) == RuleMap(old(State()), q.birth, q.survival, totalistic, neighborMask)
    {
      var newBirth, newSurvival := MirroredDigits(birth, survival, neighbors, false);
      DigitsFit(newBirth, false);
      DigitsFit(newSurvival, true);
      CreateRuleMap(newBirth, newSurvival);
    }

    /** createCanonicalName (gollybase/liferules.cpp:301-381): W and the rule
     *  number, or B, the birth digits with their letters, /S, the survival
     *  digits with their letters and H or V; then the suffix of a bounded
     *  grid, which the caller passes (empty for an unbounded universe). */
    method CreateCanonicalName(suffix: string)
      requires Valid() && 0 <= neighbors <= 8
      modifies this`canonRule
      ensures canonRule == CanonicalName(Settings(wolfram, neighborMask, neighbors, totalistic), State(), masks, suffix)
    {
      var name;
      if wolfram >= 0 {
        name := "W" + DecimalString(wolfram);
      } else {
        name := LifeText();
      }
      canonRule := name + suffix;
    }

    /** The name of a birth/survival rule, without the grid suffix. */
    method LifeText() returns (name: string)
      requires Valid() && 0 <= neighbors <= 8
      ensures name == "B" + PartName(State(), 0, neighbors + 1) + "/S" + PartName(State(), SurvivalOffset, neighbors + 1)
        + (if neighborMask == masks.hexagonal then "H" else "") + (if neighborMask == masks.vonNeumann then "V" else "")
    {
      var birth := PartText(0);
      var survival := PartText(SurvivalOffset);
      name := "B" + birth + "/S" + survival;
      if neighborMask == masks.hexagonal {
        name := name + "H";
      }
      if neighborMask == masks.vonNeumann {
        name := name + "V";
      }
    }

    /** One half of the canonical name: digits 0..neighbors whose bit is set
     *  at off + digit, each with its letters. */
    method PartText(off: nat) returns (r: string)
      requires Valid() && off <= SurvivalOffset && 0 <= neighbors <= 8
      ensures r == PartName(State(), off, neighbors + 1)
    {
      r := [];
      var n := neighbors;
      ghost var e := State();
      var i := 0;
      while i <= n
        invariant 0 <= i <= n + 1
        invariant r == PartName(e, off, i)
      {
        var d := DigitText(off, i);
        PartNameStep(e, off, i, r, d);
        r := r + d;
        i := i + 1;
      }
    }

    /** The text for digit i of one half: the digit, its letters, and '-'
     *  with the negated letters when there are any. */
    method DigitText(off: nat, i: nat) returns (r: string)
      requires Valid() && off <= SurvivalOffset && i <= 8
      ensures r == DigitName(State(), off, i)
    {
      r := [];
      var slot := off + i;
      var letters, negLetters := letterBits[slot], negLetterBits[slot];
      if Bit32(rulebits, slot) {
        var suffix := SuffixText(letters, negLetters);
        r := [Digit(i)] + suffix;
      }
    }

    /** setrule (gollybase/liferules.cpp:536-914).  The fields are reset,
     *  the rule text is parsed (the corrected parser), and on success the
     *  tables, the canonical name and the 4x4 tables are built.  grid is
     *  what setgridsize reports for the text after a colon: a message, or
     *  the canonical suffix of the grid.  On failure rule3x3, rule0, rule1
     *  and canonrule keep their old contents. */
    method SetRule(rule: string, grid: Result<string>) returns (err: Option<string>)
      requires Valid() && ValidMasks(masks)
      modifies this`wolfram, this`neighborMask, this`neighbors, this`totalistic, this`rulebits,
        this`alternateRules, this`canonRule, rule3x3, rule0, rule1, letterBits, negLetterBits
      ensures Valid()
      ensures var parsed := Parse(masks, rule, true);
        && Settings(wolfram, neighborMask, neighbors, totalistic) == parsed.settings
        && err == Failure(parsed, rule, grid)
      ensures err.Some? ==>
        && State() == ResetTables().(table := old(rule3x3[..])) && !alternateRules
        && canonRule == old(canonRule) && rule0[..] == old(rule0[..]) && rule1[..] == old(rule1[..])
      ensures err.None? ==>
        var parsed := Parse(masks, rule, true);
        && Installable(parsed.settings, parsed.parts.value)
        && Outcome(Install(masks, parsed.settings, parsed.parts.value, GridSuffix(rule, grid)), old(rule1[..]))
    {
      var parsed := ParseRule(rule);
      if parsed.parts.Err? {
        return Some(parsed.parts.msg);
      }
      err := SizeAndInstall(parsed.parts.value, rule, grid);
    }

    /** The rest of setrule once the rule string has parsed: a grid error
     *  leaves the tables alone, otherwise the rule is installed under the
     *  name with the grid's suffix. */
    method SizeAndInstall(p: Parts, rule: string, grid: Result<string>) returns (err: Option<string>)
      requires Valid() && Installable(Settings(wolfram, neighborMask, neighbors, totalistic), p)
      requires State() == ResetTables().(table := rule3x3[..]) && !alternateRules
      modifies this`rulebits, this`alternateRules, this`canonRule, rule3x3, rule0, rule1, letterBits, negLetterBits
      ensures err == (if ':' in rule && grid.Err? then Some(grid.msg) else None)
      ensures err.Some? ==>
        && State() == old(State()) && !alternateRules
        && canonRule == old(canonRule) && rule0[..] == old(rule0[..]) && rule1[..] == old(rule1[..])
      ensures err.None? ==>
        Outcome(Install(masks, Settings(wolfram, neighborMask, neighbors, totalistic), p, GridSuffix(rule, grid)), old(rule1[..]))
    {
      if ':' in rule && grid.Err? {
        return Some(grid.msg);
      }
      InstallRule(p, GridSuffix(rule, grid));
      err := None;
    }

    /** The front end of setrule: the reset, then the fields the parser
     *  leaves behind. */
    method ParseRule(rule: string) returns (parsed: Parsed)
      requires Valid() && ValidMasks(masks)
      modifies this`wolfram, this`neighborMask, this`neighbors, this`totalistic, this`rulebits,
        this`alternateRules, letterBits, negLetterBits
      ensures parsed == Parse(masks, rule, true)
      ensures parsed.parts.Ok? ==> Installable(parsed.settings, parsed.parts.value)
      ensures Settings(wolfram, neighborMask, neighbors, totalistic) == parsed.settings
      ensures State() == ResetTables().(table := old(rule3x3[..])) && !alternateRules
    {
      ResetFields();
      parsed := Parse(masks, rule, true);
      ParseWellFormed(masks, rule, true);
      if parsed.parts.Ok? {
        ParsedInstallable(masks, parsed);
      }
      wolfram, neighborMask := parsed.settings.wolfram, parsed.settings.mask;
      neighbors, totalistic := parsed.settings.neighbors, parsed.settings.totalistic;
    }

    /** The state after a successful setrule: the tables, canonrule, rule0,
     *  rule1 (its old contents when only rule0 is rebuilt) and alternate_rules. */
    ghost predicate Outcome(b: Installed, oldRule1: seq<bv8>)
      requires Valid()
      reads this, rule3x3, rule0, rule1, letterBits, negLetterBits
    {
      && State() == b.final && canonRule == b.canon && rule0[..] == b.table0
      && rule1[..] == (if b.table1.Some? then b.table1.value else oldRule1)
      && alternateRules == b.alternate
    }

    /** The start of setrule (gollybase/liferules.cpp:554-563): Moore, 8
     *  neighbours, not Wolfram, totalistic, no rule bits or letter bits, no
     *  alternate rules. */
    method ResetFields()
      requires Valid()
      modifies this`wolfram, this`neighborMask, this`neighbors, this`totalistic, this`rulebits,
        this`alternateRules, letterBits, negLetterBits
      ensures wolfram == -1 && neighborMask == masks.moore && neighbors == 8 && totalistic && !alternateRules
      ensures State() == ResetTables().(table := old(rule3x3[..]))
    {
      wolfram := -1;
      rulebits := 0;
      neighborMask := masks.moore;
      neighbors := 8;
      totalistic := true;
      ClearLetters();
      alternateRules := false;
    }

    /** The memsets of letter_bits and neg_letter_bits. */
    method ClearLetters()
      requires Valid()
      modifies letterBits, negLetterBits
      ensures letterBits[..] == seq(18, i => 0) && negLetterBits[..] == seq(18, i => 0)
    {
      var i := 0;
      while i < 18
        invariant 0 <= i <= 18
        invariant forall k | 0 <= k < i :: letterBits[k] == 0 && negLetterBits[k] == 0
      {
        letterBits[i] := 0;
        negLetterBits[i] := 0;
        i := i + 1;
      }
      assert letterBits[..] == seq(18, i => 0) && negLetterBits[..] == seq(18, i => 0);
    }

    /** The success branch of setrule, from the reset fields. */
    method InstallRule(p: Parts, suffix: string)
      requires Valid() && Installable(Settings(wolfram, neighborMask, neighbors, totalistic), p)
      requires State() == ResetTables().(table := rule3x3[..]) && !alternateRules
      modifies this`rulebits, this`alternateRules, this`canonRule, rule3x3, rule0, rule1, letterBits, negLetterBits
      ensures Outcome(Install(masks, Settings(wolfram, neighborMask, neighbors, totalistic), p, suffix), old(rule1[..]))
    {
      if wolfram >= 0 {
        InstallWolframRule(suffix);
      } else {
        InstallLifeRule(p, suffix);
      }
    }

    /** createWolframMap, createCanonicalName and convertTo4x4Map(rule0). */
    method InstallWolframRule(suffix: string)
      requires Valid() && 0 <= wolfram <= 254 && 0 <= neighbors <= 8
      requires State() == ResetTables().(table := rule3x3[..]) && !alternateRules
      modifies this`canonRule, rule3x3, rule0
      ensures Outcome(InstallWolfram(masks, Settings(wolfram, neighborMask, neighbors, totalistic), suffix), old(rule1[..]))
    {
      CreateWolframMap();
      CreateCanonicalName(suffix);
      ConvertTo4x4Map(rule0);
    }

    /** createRuleMap, createCanonicalName and the B0 check. */
    method InstallLifeRule(p: Parts, suffix: string)
      requires Valid() && wolfram < 0 && Installable(Settings(wolfram, neighborMask, neighbors, totalistic), p)
      requires State() == ResetTables().(table := rule3x3[..]) && !alternateRules
      modifies this`rulebits, this`alternateRules, this`canonRule, rule3x3, rule0, rule1, letterBits, negLetterBits
      ensures var s := Settings(wolfram, neighborMask, neighbors, totalistic);
        var e1 := Build(ResetTables(), p.birth, p.survival, s.totalistic, s.mask);
        Outcome(InstallB0(s, p, e1, CanonicalName(s, e1, masks, suffix)), old(rule1[..]))
    {
      CreateRuleMap(p.birth, p.survival);
      CreateCanonicalName(suffix);
      InstallB0Rule(p);
    }

    /** The B0 check of setrule and the 4x4 tables it builds. */
    method InstallB0Rule(p: Parts)
      requires Valid() && 0 <= neighbors <= 8 && !alternateRules
      modifies this`rulebits, this`alternateRules, rule3x3, rule0, rule1, letterBits, negLetterBits
      ensures Outcome(InstallB0(Settings(wolfram, neighborMask, neighbors, totalistic), p, old(State()), old(canonRule)), old(rule1[..]))
    {
      if totalistic && Digit(0) in p.birth {
        if Digit(neighbors) in p.survival {
          CreateB0SmaxRuleMap(p.birth, p.survival);
          ConvertTo4x4Map(rule0);
        } else {
          InstallAlternateRules(p);
        }
      } else {
        ConvertTo4x4Map(rule0);
      }
    }

    /** B0 without Smax: the even table into rule0, the odd one into rule1. */
    method InstallAlternateRules(p: Parts)
      requires Valid() && 0 <= neighbors <= 8 && totalistic
      modifies this`rulebits, this`alternateRules, rule3x3, rule0, rule1, letterBits, negLetterBits
      ensures var n := neighbors;
        var q := EvenParts(p.birth, p.survival, n);
        var e2 := Build(old(State()), q.birth, q.survival, true, neighborMask);
        var r := OddParts(p.birth, p.survival, n);
        var e3 := Build(e2, r.birth, r.survival, true, neighborMask);
        && State() == e3 && rule0[..] == Compile4x4(e2.table) && rule1[..] == Compile4x4(e3.table) && alternateRules
    {
      alternateRules := true;
      CreateB0EvenRuleMap(p.birth, p.survival);
      ConvertTo4x4Map(rule0);
      CreateB0OddRuleMap(p.birth, p.survival);
      ConvertTo4x4Map(rule1);
    }

    /** getrule (gollybase/liferules.cpp:920-922): the canonical name of the
     *  rule set last. */
    method GetRule() returns (r: string)
      ensures r == canonRule
    {
      r := canonRule;
    }

    /** isRegularLife (gollybase/liferules.cpp:924-927). */
    method IsRegularLife() returns (r: bool)
      ensures r <==> CanonicalNames.IsRegularLife(Settings(wolfram, neighborMask, neighbors, totalistic), rulebits, masks)
    {
      r := neighborMask == masks.moore && totalistic && rulebits == 0x1808 && wolfram < 0;
    }
  }

  /** The letters and negated letters after one digit of the name. */
  method SuffixText(letters: bv32, negLetters: bv32) returns (r: string)
    ensures r == LetterSuffix(letters, negLetters)
  {
    r := [];
    if letters != 0 {
      r := LetterText(letters);
    }
    if negLetters != 0 {
      var text := LetterText(negLetters);
      r := r + ("-" + text);
    }
  }

  /** One more digit of a half of the canonical name. */
  lemma PartNameStep(e: Tables, off: nat, i: nat, front: string, d: string)
    requires WellSized(e) && off <= SurvivalOffset && i <= 8
    requires front == PartName(e, off, i) && d == DigitName(e, off, i)
    ensures front + d == PartName(e, off, i + 1)
  {
  }

  /** The letter loop of createCanonicalName: the letters of ceaiknjqrytwz
   *  whose bit is set in bits, in that order. */
  method LetterText(bits: bv32) returns (r: string)
    ensures r == Letters(bits, 13)
  {
    r := [];
    var j := 0;
    while j < 13
      invariant 0 <= j <= 13 && r == Letters(bits, j)
    {
      if Bit32(bits, j) {
        r := r + [LetterOrder[j]];
      }
      j := j + 1;
    }
  }

  /** The loops of createB0OddRuleMap (keep) and createB0SmaxRuleMap (not
   *  keep): when the presence of digit i in birth is keep, n - i goes to
   *  the survival part, and when its presence in survival is keep, n - i
   *  goes to the birth part. */
  method MirroredDigits(birth: string, survival: string, n: int, keep: bool) returns (newBirth: string, newSurvival: string)
    requires 0 <= n <= 8
    ensures keep ==> Parts(newBirth, newSurvival) == OddParts(birth, survival, n)
    ensures !keep ==> Parts(newBirth, newSurvival) == SmaxParts(birth, survival, n)
  {
    newBirth, newSurvival := [], [];
    var i := 0;
    while i <= n
      invariant 0 <= i <= n + 1
      invariant newBirth == Picked(survival, n, i, keep, true)
      invariant newSurvival == Picked(birth, n, i, keep, true)
    {
      if (Digit(i) in birth) == keep {
        newSurvival := newSurvival + [Digit(n - i)];
      }
      if (Digit(i) in survival) == keep {
        newBirth := newBirth + [Digit(n - i)];
      }
      i := i + 1;
    }
  }

  /** The loop of createB0EvenRuleMap: digit i goes to the birth part when
   *  birth lacks it, and to the survival part when survival lacks it. */
  method EvenDigits(birth: string, survival: string, n: int) returns (newBirth: string, newSurvival: string)
    requires 0 <= n <= 8
    ensures Parts(newBirth, newSurvival) == EvenParts(birth, survival, n)
  {
    newBirth, newSurvival := [], [];
    var i := 0;
    while i <= n
      invariant 0 <= i <= n + 1
      invariant newBirth == Picked(birth, n, i, false, false)
      invariant newSurvival == Picked(survival, n, i, false, false)
    {
      if Digit(i) !in birth {
        newBirth := newBirth + [Digit(i)];
      }
      if Digit(i) !in survival {
        newSurvival := newSurvival + [Digit(i)];
      }
      i := i + 1;
    }
  }
}
