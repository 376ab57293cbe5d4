/** The rule-string front end of setrule (gollybase/liferules.cpp:536-853):
 *  the scanning loop that lower-cases the rule, drops spaces and copies the
 *  remaining characters into the tidy string while recording the markers,
 *  then the ordered checks and the split into a birth and a survival part.
 *
 *  The original is written once, with two defects this model makes
 *  explicit through the `fixed` flag: with `fixed` false it behaves as
 *  written; with `fixed` true it also accepts the digit 9 in a Wolfram rule
 *  and rejects a Hensel letter that has no pattern for its digit.  The rule
 *  engine uses the corrected parser (`fixed` true).
 */
module RuleSyntax {
  import opened Outcomes
  import opened Hensel
  import opened RuleTables

  /** tolower in the C locale. */
  function ToLower(c: char): (r: char)
    ensures 'A' <= c <= 'Z' ==> r as int == c as int + 32
    ensures !('A' <= c <= 'Z') ==> r == c
  {
    if 'A' <= c <= 'Z' then (c as int + 32) as char else c
  }

  /** The part of the rule string before the first colon; the bounded-grid
   *  suffix after it belongs to the grid collaborator. */
  function BeforeColon(s: string): (r: string)
    ensures r <= s && ':' !in r
    ensures ':' in s ==> |r| < |s| && s[|r|] == ':'
    ensures ':' !in s ==> r == s
  {
    var k := IndexOf(s, ':');
    if k < 0 then s else s[..k]
  }

  /** The local variables and fields the scanning loop updates.  Marker
   *  positions index the tidy string; -1 stands for a null pointer. */
  datatype ScanState = ScanState(
    tidy: string,
    wolfram: int,
    mask: bv16,
    neighbors: int,
    totalistic: bool,
    maxdigit: int,
    bpos: int,
    spos: int,
    slashpos: int,
    underscorepos: int)

  /** Either still scanning, or stopped with an error and the state reached. */
  datatype Scanned = Scanning(st: ScanState) | Failed(msg: string, st: ScanState)

  /** The fields as setrule resets them (gollybase/liferules.cpp:554-563) and
   *  the loop's locals before the first character. */
  function InitialScan(m: Masks): ScanState {
    ScanState([], -1, m.moore, 8, true, 0, -1, -1, -1, -1)
  }

  /** One pass of the scanning loop (gollybase/liferules.cpp:573-697). */
  function ScanChar(m: Masks, st: ScanState, c0: char, fixed: bool): (r: Scanned)
  {
    var c := ToLower(c0);
    var t := st.tidy;
    if c == 'b' then
      if st.bpos >= 0 then Failed("Only one B allowed.", st) else Scanning(st.(bpos := |t|, tidy := t + [c]))
    else if c == 's' then
      if st.spos >= 0 then Failed("Only one S allowed.", st) else Scanning(st.(spos := |t|, tidy := t + [c]))
    else if c == '/' then
      if st.slashpos >= 0 then Failed("Only one slash allowed.", st) else Scanning(st.(slashpos := |t|, tidy := t + [c]))
    else if c == '_' then
      if st.underscorepos >= 0 then Failed("Only one underscore allowed.", st)
      else Scanning(st.(underscorepos := |t|, tidy := t + [c]))
    else if c == 'h' || c == 'v' then
      if st.mask != m.moore || st.wolfram != -1 then Failed("Only one neighborhood allowed.", st)
      else if c == 'h' then Scanning(st.(mask := m.hexagonal, neighbors := 6, tidy := t + [c]))
      else Scanning(st.(mask := m.vonNeumann, neighbors := 4, tidy := t + [c]))
    else if c == 'w' then
      if t == [] then
        if st.mask != m.moore || st.wolfram != -1 then Failed("Only one neighborhood allowed.", st)
        else Scanning(st.(wolfram := 0))
      else Scanning(st.(tidy := t + [c], totalistic := false))
    else if c == ' ' then Scanning(st)
    else
      var digit := IndexOf(ValidRuleLetters, c);
      if digit > 8 then Scanning(st.(tidy := t + [c], totalistic := false))
      else if digit >= 0 then Scanning(st.(tidy := t + [c], maxdigit := if digit > st.maxdigit then digit else st.maxdigit))
      else if fixed && c == '9' && st.wolfram == 0 then Scanning(st.(tidy := t + [c]))
      else Failed("Bad character found.", st)
  }

  /** The scanning loop over the whole string, stopping at the first error. */
  function Scan(m: Masks, s: string, fixed: bool): (r: Scanned)
    decreases |s|
  {
    if s == [] then Scanning(InitialScan(m))
    else match Scan(m, s[..|s| - 1], fixed)
      case Failed(msg, st) => Failed(msg, st)
      case Scanning(st) => ScanChar(m, st, s[|s| - 1], fixed)
  }

  //
  // Checks and split
  //

  /** The fields setrule leaves behind, whether it succeeds or not. */
  datatype Settings = Settings(wolfram: int, mask: bv16, neighbors: int, totalistic: bool)

  /** The birth and survival strings handed to the table builders. */
  datatype Parts = Parts(birth: string, survival: string)

  datatype Parsed = Parsed(settings: Settings, parts: Result<Parts>)

  function SettingsOf(st: ScanState): Settings {
    Settings(st.wolfram, st.mask, st.neighbors, st.totalistic)
  }

  /** The number of leading decimal digits of s. */
  function LeadingDigits(s: string): (k: nat)
    ensures k <= |s|
    ensures forall i | 0 <= i < k :: '0' <= s[i] <= '9'
    ensures k < |s| ==> !('0' <= s[k] <= '9')
  {
    if s == [] || !('0' <= s[0] <= '9') then 0 else 1 + LeadingDigits(s[1..])
  }

  /** The value of a string of decimal digits, accumulated left to right. */
  function Decimal(s: string): (n: nat)
    requires forall i | 0 <= i < |s| :: '0' <= s[i] <= '9'
    decreases |s|
  {
    if s == [] then 0 else 10 * Decimal(s[..|s| - 1]) + (s[|s| - 1] as int - '0' as int)
  }

  /** s without any occurrence of c (the remove-b and remove-s loops). */
  function Remove(s: string, c: char): (r: string)
    ensures forall x :: x in r <==> x in s && x != c
    decreases |s|
  {
    if s == [] then [] else (if s[0] == c then [] else [s[0]]) + Remove(s[1..], c)
  }

  /** Cutting the tidy string into the birth and the survival part
   *  (gollybase/liferules.cpp:768-823). */
  function Split(t: string, bpos: int, spos: int, slash: int): (r: Parts)
    requires -1 <= bpos < |t| && -1 <= spos < |t| && -1 <= slash < |t|
    requires slash < 0 ==> 0 <= bpos && 0 <= spos && bpos != spos
  {
    if slash < 0 then
      if bpos < spos then Parts(t[bpos + 1..spos], t[spos + 1..])
      else Parts(t[bpos + 1..], t[spos + 1..bpos])
    else
      var part1 := t[..slash];
      var part2 := t[slash + 1..];
      if bpos >= 0 || spos >= 0 then
        var birthFirst := (bpos >= 0 && bpos < slash) || (spos >= 0 && spos > slash);
        Parts(Remove(if birthFirst then part1 else part2, 'b'), Remove(if birthFirst then part2 else part1, 's'))
      else Parts(part2, part1)
  }

  /** A non-totalistic part may not start with anything but 1..7. */
  predicate BadStart(s: string) {
    s != [] && (s[0] <= '0' || s[0] >= '8')
  }

  //
  // Hensel letters that have a pattern for their digit
  //

  /** Every letter that setRuleFromString would look up for s has a pattern
   *  for its digit: the check the corrected parser adds. */
  predicate LettersFit(s: string, survival: bool)
    decreases |s|, 0
  {
    if s == [] then true
    else
      var lindex := IndexOf(ValidRuleLetters, s[0]);
      var rest := s[1..];
      if (0 < lindex <= 8) || (lindex == 0 && survival) then
        if rest != [] && rest[0] == '-' then RunFits(rest[1..], lindex, survival)
        else RunFits(rest, lindex, survival)
      else LettersFit(rest, survival)
  }

  predicate RunFits(s: string, value: int, survival: bool)
    requires 0 <= value <= 8
    decreases |s|, 1
  {
    var lindex := if s == [] then -1 else IndexOf(LetterOrder, s[0]);
    if lindex >= 0 then
      !(1 <= value <= 7 && lindex >= LetterCount(value)) && RunFits(s[1..], value, survival)
    else LettersFit(s, survival)
  }

  //
  // The ordered checks
  //

  /** The facts about the scan state that need no quantifier: the field
   *  values it can reach and the marker positions inside the tidy string. */
  predicate ScanShape(m: Masks, st: ScanState) {
    var t := st.tidy;
    && (st.wolfram == -1 || st.wolfram == 0)
    && (st.wolfram == 0 ==> st.mask == m.moore)
    && ((st.mask == m.moore && st.neighbors == 8) || (st.mask == m.hexagonal && st.neighbors == 6)
        || (st.mask == m.vonNeumann && st.neighbors == 4))
    && 0 <= st.maxdigit <= 8
    && -1 <= st.bpos < |t| && (st.bpos >= 0 ==> t[st.bpos] == 'b')
    && -1 <= st.spos < |t| && (st.spos >= 0 ==> t[st.spos] == 's')
    && -1 <= st.slashpos < |t| && (st.slashpos >= 0 ==> t[st.slashpos] == '/')
    && -1 <= st.underscorepos < |t| && (st.underscorepos >= 0 ==> t[st.underscorepos] == '_')
  }

  /** The facts the scanning loop maintains about its state. */
  ghost predicate ScanInvariant(m: Masks, st: ScanState) {
    var t := st.tidy;
    && ScanShape(m, st)
    && Marker(t, st.bpos, 'b') && Marker(t, st.spos, 's')
    && Marker(t, st.slashpos, '/') && Marker(t, st.underscorepos, '_')
    && (st.mask == m.moore ==> forall k | 0 <= k < |t| :: !IsHV(t[k]))
    && (forall k, j | 0 <= k < j < |t| :: !(IsHV(t[k]) && IsHV(t[j])))
    && (forall k | 0 <= k < |t| :: IsDigit8(t[k]) ==> t[k] as int - '0' as int <= st.maxdigit)
    && (st.totalistic && st.wolfram == -1 ==> forall k | 0 <= k < |t| :: IsDigit8(t[k]) || IsMarker(t[k]))
  }

  predicate IsHV(c: char) {
    c == 'h' || c == 'v'
  }

  predicate IsDigit8(c: char) {
    '0' <= c <= '8'
  }

  predicate IsMarker(c: char) {
    c == 'b' || c == 's' || c == '/' || c == '_' || IsHV(c)
  }

  /** pos is -1 and c does not occur, or c occurs exactly at pos. */
  ghost predicate Marker(t: string, pos: int, c: char) {
    && -1 <= pos < |t|
    && (pos >= 0 ==> t[pos] == c)
    && forall k | 0 <= k < |t| :: t[k] == c ==> k == pos
  }

  /** The checks of gollybase/liferules.cpp:702-853, in the original order,
   *  then (when fixed) the letter check. */
  function Check(m: Masks, st: ScanState, fixed: bool): (r: Parsed)
    requires ScanInvariant(m, st)
  {
    var settings := SettingsOf(st);
    var t0 := st.tidy;
    if t0 == [] then Parsed(settings, Err("Rule cannot be empty string."))
    else if st.underscorepos >= 0 && st.slashpos >= 0 then Parsed(settings, Err("Can't have slash and underscore."))
    else if st.underscorepos >= 0 && st.totalistic then
      Parsed(settings, Err("Underscore not valid for totalistic rules, use slash."))
    else
      var slash := if st.underscorepos >= 0 then st.underscorepos else st.slashpos;
      if st.wolfram == 0 then CheckWolfram(settings, t0)
      else CheckLife(m, st, slash, fixed)
  }

  /** The Wolfram branch (gollybase/liferules.cpp:738-749): the leading
   *  digits are the rule number, which must be even and at most 254, and
   *  nothing may follow them.  The field keeps the number read. */
  function CheckWolfram(settings: Settings, t0: string): (r: Parsed)
  {
    var k := LeadingDigits(t0);
    var w := Decimal(t0[..k]);
    var ws := settings.(wolfram := w);
    if w > 254 || w % 2 == 1 then Parsed(ws, Err("Wolfram rule must be an even number from 0 to 254."))
    else if k < |t0| then Parsed(ws, Err("Bad character in Wolfram rule."))
    else Parsed(ws, Ok(Parts([], [])))
  }

  /** The tidy string with a trailing neighbourhood letter cut off. */
  function Trim(m: Masks, st: ScanState): (t: string)
    requires st.tidy != []
    ensures t <= st.tidy && |st.tidy| - 1 <= |t|
  {
    var t0 := st.tidy;
    if st.mask != m.moore then t0[..|t0| - 1] else t0
  }

  /** The checks of the birth/survival branch up to the split
   *  (gollybase/liferules.cpp:750-823). */
  function CheckLife(m: Masks, st: ScanState, slash: int, fixed: bool): (r: Parsed)
    requires ScanShape(m, st) && st.tidy != []
    requires slash == (if st.underscorepos >= 0 then st.underscorepos else st.slashpos)
    requires !(st.underscorepos >= 0 && st.slashpos >= 0)
    ensures r.settings == SettingsOf(st)
    ensures r.parts.Ok? && !st.totalistic ==> st.mask == m.moore
    ensures r.parts.Ok? && fixed && !st.totalistic ==>
      LettersFit(r.parts.value.birth, false) && LettersFit(r.parts.value.survival, true)
  {
    var settings := SettingsOf(st);
    var t0 := st.tidy;
    if st.mask != m.moore && !IsHV(t0[|t0| - 1]) then
      Parsed(settings, Err("Neighborhood must be at end of rule."))
    else
      var t := Trim(m, st);
      if !(slash >= 0 || (st.bpos >= 0 && st.spos >= 0 && (st.bpos == 0 || st.spos == 0))) then
        Parsed(settings, Err("Rule must contain a slash or both B and S."))
      else if st.maxdigit > st.neighbors then Parsed(settings, Err("Digit greater than neighborhood allows."))
      else if slash >= 0 && st.bpos >= 0 && st.spos >= 0
           && ((st.bpos < slash && st.spos < slash) || (st.bpos > slash && st.spos > slash)) then
        Parsed(settings, Err("B and S must be either side of slash."))
      else
        CheckParts(m, settings, Split(t, st.bpos, st.spos, slash), fixed)
  }

  /** The checks on the two parts (gollybase/liferules.cpp:826-852). */
  function CheckParts(m: Masks, settings: Settings, parts: Parts, fixed: bool): (r: Parsed)
    ensures r.settings == settings
    ensures r.parts.Ok? ==> r.parts.value == parts
    ensures r.parts.Ok? && !settings.totalistic ==>
      settings.mask == m.moore && !BadStart(parts.birth) && !BadStart(parts.survival)
    ensures r.parts.Ok? && fixed && !settings.totalistic ==>
      LettersFit(parts.birth, false) && LettersFit(parts.survival, true)
  {
    if !settings.totalistic && BadStart(parts.birth) then
      Parsed(settings, Err("Non-totalistic birth must start with a digit."))
    else if !settings.totalistic && BadStart(parts.survival) then
      Parsed(settings, Err("Non-totalistic survival must start with a digit."))
    else if !settings.totalistic && settings.mask != m.moore then
      Parsed(settings, Err("Non-totalistic only supported with Moore neighborhood."))
    else if fixed && !settings.totalistic && !(LettersFit(parts.birth, false) && LettersFit(parts.survival, true)) then
      Parsed(settings, Err("Letter not valid for numeric value."))
    else Parsed(settings, Ok(parts))
  }

  /** The whole front end of setrule: the fields it leaves and either the two
   *  parts or the error message it returns. */
  function Parse(m: Masks, rule: string, fixed: bool): (r: Parsed)
    requires ValidMasks(m)
  {
    var s := BeforeColon(rule);
    match Scan(m, s, fixed)
    case Failed(msg, st) => Parsed(SettingsOf(st), Err(msg))
    case Scanning(st) =>
      ScanKeepsInvariant(m, s, fixed);
      Check(m, st, fixed)
  }

  /** Appending a character other than c keeps the marker of c. */
  lemma MarkerAppend(t: string, pos: int, c: char, x: char)
    requires Marker(t, pos, c) && x != c
    ensures Marker(t + [x], pos, c)
  {
  }

  /** Appending the first c records its position. */
  lemma MarkerAdd(t: string, c: char)
    requires Marker(t, -1, c)
    ensures Marker(t + [c], |t|, c)
  {
  }

  /** Appending a digit or a letter keeps the facts about the tidy string
   *  that do not involve the new character. */
  lemma AppendOther(m: Masks, st: ScanState, x: char)
    requires ScanInvariant(m, st) && !IsMarker(x)
    ensures var t := st.tidy + [x];
      && Marker(t, st.bpos, 'b') && Marker(t, st.spos, 's')
      && Marker(t, st.slashpos, '/') && Marker(t, st.underscorepos, '_')
      && (st.mask == m.moore ==> forall k | 0 <= k < |t| :: !IsHV(t[k]))
      && (forall k, j | 0 <= k < j < |t| :: !(IsHV(t[k]) && IsHV(t[j])))
  {
    MarkerAppend(st.tidy, st.bpos, 'b', x);
    MarkerAppend(st.tidy, st.spos, 's', x);
    MarkerAppend(st.tidy, st.slashpos, '/', x);
    MarkerAppend(st.tidy, st.underscorepos, '_', x);
  }

  /** The single markers b and s. */
  lemma BSCharKeepsInvariant(m: Masks, st: ScanState, c0: char, fixed: bool)
    requires ValidMasks(m) && ScanInvariant(m, st)
    requires var c := ToLower(c0); c == 'b' || c == 's'
    ensures ScanChar(m, st, c0, fixed).Scanning? ==> ScanInvariant(m, ScanChar(m, st, c0, fixed).st)
  {
    var c := ToLower(c0);
    var t := st.tidy;
    var r := ScanChar(m, st, c0, fixed);
    if r.Scanning? {
      var t2 := t + [c];
      assert r.st.tidy == t2;
      if c == 'b' { MarkerAdd(t, 'b'); } else { MarkerAppend(t, st.bpos, 'b', c); }
      if c == 's' { MarkerAdd(t, 's'); } else { MarkerAppend(t, st.spos, 's', c); }
      if c == '/' { MarkerAdd(t, '/'); } else { MarkerAppend(t, st.slashpos, '/', c); }
      if c == '_' { MarkerAdd(t, '_'); } else { MarkerAppend(t, st.underscorepos, '_', c); }
      assert !IsHV(t2[|t|]) && !IsDigit8(t2[|t|]) && IsMarker(t2[|t|]);
    }
  }

  /** The single markers slash and underscore. */
  lemma SlashCharKeepsInvariant(m: Masks, st: ScanState, c0: char, fixed: bool)
    requires ValidMasks(m) && ScanInvariant(m, st)
    requires var c := ToLower(c0); c == '/' || c == '_'
    ensures ScanChar(m, st, c0, fixed).Scanning? ==> ScanInvariant(m, ScanChar(m, st, c0, fixed).st)
  {
    var c := ToLower(c0);
    var t := st.tidy;
    var r := ScanChar(m, st, c0, fixed);
    if r.Scanning? {
      var t2 := t + [c];
      assert r.st.tidy == t2;
      if c == 'b' { MarkerAdd(t, 'b'); } else { MarkerAppend(t, st.bpos, 'b', c); }
      if c == 's' { MarkerAdd(t, 's'); } else { MarkerAppend(t, st.spos, 's', c); }
      if c == '/' { MarkerAdd(t, '/'); } else { MarkerAppend(t, st.slashpos, '/', c); }
      if c == '_' { MarkerAdd(t, '_'); } else { MarkerAppend(t, st.underscorepos, '_', c); }
      assert !IsHV(t2[|t|]) && !IsDigit8(t2[|t|]) && IsMarker(t2[|t|]);
    }
  }

  /** The neighbourhood letters h and v. */
  lemma HVCharKeepsInvariant(m: Masks, st: ScanState, c0: char, fixed: bool)
    requires ValidMasks(m) && ScanInvariant(m, st)
    requires IsHV(ToLower(c0))
    ensures ScanChar(m, st, c0, fixed).Scanning? ==> ScanInvariant(m, ScanChar(m, st, c0, fixed).st)
  {
    var c := ToLower(c0);
    var t := st.tidy;
    var r := ScanChar(m, st, c0, fixed);
    if r.Scanning? {
      var t2 := t + [c];
      assert r.st.tidy == t2 && st.mask == m.moore;
      MarkerAppend(t, st.bpos, 'b', c);
      MarkerAppend(t, st.spos, 's', c);
      MarkerAppend(t, st.slashpos, '/', c);
      MarkerAppend(t, st.underscorepos, '_', c);
      assert forall k | 0 <= k < |t| :: t2[k] == t[k];
    }
  }

  /** The digits 0..8 sit at their own value in valid_rule_letters. */
  lemma DigitLetterIndex(c: char)
    requires IsDigit8(c)
    ensures IndexOf(ValidRuleLetters, c) == c as int - '0' as int
  {
    var d := c as int - '0' as int;
    assert ValidRuleLetters[d] == c;
    var i := IndexOf(ValidRuleLetters, c);
    assert 0 <= i <= d;
    assert ValidRuleLetters[i] as int - '0' as int == i;
  }

  /** Only the digits 0..8 sit at positions 0..8 of valid_rule_letters. */
  lemma LetterIndexDigit(c: char)
    ensures var i := IndexOf(ValidRuleLetters, c); 0 <= i <= 8 ==> IsDigit8(c)
  {
    var i := IndexOf(ValidRuleLetters, c);
    if 0 <= i <= 8 {
      assert ValidRuleLetters[i] == c;
      assert forall k | 0 <= k <= 8 :: IsDigit8(ValidRuleLetters[k]);
    }
  }

  /** The position of a character in valid_rule_letters is a digit value
   *  exactly for the digits 0..8. */
  lemma ValidLetterIndex(c: char)
    ensures var i := IndexOf(ValidRuleLetters, c); (0 <= i <= 8 <==> IsDigit8(c))
    ensures IsDigit8(c) ==> IndexOf(ValidRuleLetters, c) == c as int - '0' as int
  {
    LetterIndexDigit(c);
    if IsDigit8(c) {
      DigitLetterIndex(c);
    }
  }

  /** Appending a character keeps every digit within the (possibly raised) maximum. */
  lemma AppendKeepsMaxDigit(t: string, x: char, maxd: int, newmax: int)
    requires forall k | 0 <= k < |t| :: IsDigit8(t[k]) ==> t[k] as int - '0' as int <= maxd
    requires maxd <= newmax && (IsDigit8(x) ==> x as int - '0' as int <= newmax)
    ensures var t2 := t + [x]; forall k | 0 <= k < |t2| :: IsDigit8(t2[k]) ==> t2[k] as int - '0' as int <= newmax
  {
    var t2 := t + [x];
    assert forall k | 0 <= k < |t| :: t2[k] == t[k];
  }

  /** Appending a digit keeps a tidy string made of digits and markers. */
  lemma AppendKeepsDigits(t: string, x: char)
    requires forall k | 0 <= k < |t| :: IsDigit8(t[k]) || IsMarker(t[k])
    requires IsDigit8(x)
    ensures var t2 := t + [x]; forall k | 0 <= k < |t2| :: IsDigit8(t2[k]) || IsMarker(t2[k])
  {
    var t2 := t + [x];
    assert forall k | 0 <= k < |t| :: t2[k] == t[k];
  }

  /** Characters appended by the default branch: digits, letters and the minus sign. */
  lemma OtherCharKeepsInvariant(m: Masks, st: ScanState, c0: char, fixed: bool)
    requires ValidMasks(m) && ScanInvariant(m, st)
    requires var c := ToLower(c0); !IsMarker(c) && c != 'w' && c != ' '
    ensures ScanChar(m, st, c0, fixed).Scanning? ==> ScanInvariant(m, ScanChar(m, st, c0, fixed).st)
  {
    var c := ToLower(c0);
    var r := ScanChar(m, st, c0, fixed);
    ValidLetterIndex(c);
    if r.Scanning? {
      if IsDigit8(c) {
        var d := c as int - '0' as int;
        assert r.st == st.(tidy := st.tidy + [c], maxdigit := if d > st.maxdigit then d else st.maxdigit);
        AppendDigitKeepsInvariant(m, st, c);
      } else if IndexOf(ValidRuleLetters, c) > 8 {
        assert r.st == st.(tidy := st.tidy + [c], totalistic := false);
        AppendLetterKeepsInvariant(m, st, c);
      } else {
        assert r.st == st.(tidy := st.tidy + [c]) && st.wolfram == 0;
        AppendLetterKeepsInvariant(m, st, c);
      }
    }
  }

  /** Appending a digit 0..8 raises the maximum digit as the loop does. */
  lemma AppendDigitKeepsInvariant(m: Masks, st: ScanState, x: char)
    requires ScanInvariant(m, st) && IsDigit8(x)
    ensures var d := x as int - '0' as int;
      ScanInvariant(m, st.(tidy := st.tidy + [x], maxdigit := if d > st.maxdigit then d else st.maxdigit))
  {
    var d := x as int - '0' as int;
    AppendOther(m, st, x);
    AppendKeepsMaxDigit(st.tidy, x, st.maxdigit, if d > st.maxdigit then d else st.maxdigit);
    if st.totalistic && st.wolfram == -1 {
      AppendKeepsDigits(st.tidy, x);
    }
  }

  /** Appending a letter that is no digit and no marker keeps the invariant
   *  once the rule is marked non-totalistic, or inside a Wolfram rule. */
  lemma AppendLetterKeepsInvariant(m: Masks, st: ScanState, x: char)
    requires ScanInvariant(m, st) && !IsDigit8(x) && !IsMarker(x)
    ensures ScanInvariant(m, st.(tidy := st.tidy + [x], totalistic := false))
    ensures st.wolfram == 0 ==> ScanInvariant(m, st.(tidy := st.tidy + [x]))
  {
    AppendOther(m, st, x);
    AppendKeepsMaxDigit(st.tidy, x, st.maxdigit, st.maxdigit);
  }

  /** The letter w: the Wolfram marker at the start, a Hensel letter elsewhere. */
  lemma WCharKeepsInvariant(m: Masks, st: ScanState, c0: char, fixed: bool)
    requires ValidMasks(m) && ScanInvariant(m, st)
    requires ToLower(c0) == 'w'
    ensures ScanChar(m, st, c0, fixed).Scanning? ==> ScanInvariant(m, ScanChar(m, st, c0, fixed).st)
  {
    var r := ScanChar(m, st, c0, fixed);
    if r.Scanning? && st.tidy != [] {
      assert r.st == st.(tidy := st.tidy + ['w'], totalistic := false);
      AppendLetterKeepsInvariant(m, st, 'w');
    }
  }

  /** One character keeps the scan invariant. */
  lemma ScanCharKeepsInvariant(m: Masks, st: ScanState, c0: char, fixed: bool)
    requires ValidMasks(m) && ScanInvariant(m, st)
    ensures ScanChar(m, st, c0, fixed).Scanning? ==> ScanInvariant(m, ScanChar(m, st, c0, fixed).st)
  {
    var c := ToLower(c0);
    if c == 'b' || c == 's' {
      BSCharKeepsInvariant(m, st, c0, fixed);
    } else if c == '/' || c == '_' {
      SlashCharKeepsInvariant(m, st, c0, fixed);
    } else if IsHV(c) {
      HVCharKeepsInvariant(m, st, c0, fixed);
    } else if c == 'w' {
      WCharKeepsInvariant(m, st, c0, fixed);
    } else if c != ' ' {
      OtherCharKeepsInvariant(m, st, c0, fixed);
    }
  }

  lemma {:induction false} ScanKeepsInvariant(m: Masks, s: string, fixed: bool)
    requires ValidMasks(m)
    ensures Scan(m, s, fixed).Scanning? ==> ScanInvariant(m, Scan(m, s, fixed).st)
    decreases |s|
  {
    if s != [] {
      ScanKeepsInvariant(m, s[..|s| - 1], fixed);
      var prev := Scan(m, s[..|s| - 1], fixed);
      if prev.Scanning? {
        ScanCharKeepsInvariant(m, prev.st, s[|s| - 1], fixed);
      }
    }
  }

  //
  // What a successful parse hands to the table builders
  //

  /** The character is a digit from 0 up to n. */
  predicate DigitUpTo(x: char, n: int) {
    '0' <= x && x as int <= '0' as int + n
  }

  /** Every character of s is a digit from 0 up to n. */
  ghost predicate OnlyDigits(s: string, n: int) {
    forall x | x in s :: DigitUpTo(x, n)
  }

  lemma OnlyDigitsAtMost(s: string, n: int)
    requires OnlyDigits(s, n)
    ensures DigitsAtMost(s, n)
  {
    assert forall k | 0 <= k < |s| :: s[k] in s;
  }

  /** A character that occurs only at pos is missing from a slice that avoids pos. */
  lemma SliceAvoids(t: string, i: int, j: int, pos: int, c: char)
    requires 0 <= i <= j <= |t|
    requires forall k | 0 <= k < |t| :: t[k] == c ==> k == pos
    requires !(i <= pos < j)
    ensures c !in t[i..j]
  {
    assert forall k | 0 <= k < j - i :: t[i..j][k] == t[i + k];
  }

  /** A slice of t holds only characters of t. */
  lemma SliceChars(t: string, i: int, j: int)
    requires 0 <= i <= j <= |t|
    ensures forall x | x in t[i..j] :: x in t
  {
    forall x | x in t[i..j]
      ensures x in t
    {
      var k :| 0 <= k < j - i && t[i..j][k] == x;
      assert t[i + k] == x;
    }
  }

  /** The tidy string as the split sees it: digits up to n and the four
   *  single markers, the slash or underscore only at slash. */
  ghost predicate SplitReady(t: string, bpos: int, spos: int, slash: int, n: int) {
    && -1 <= slash < |t|
    && Marker(t, bpos, 'b') && Marker(t, spos, 's')
    && (forall k | 0 <= k < |t| :: (t[k] == '/' || t[k] == '_') ==> k == slash)
    && (forall x | x in t :: DigitUpTo(x, n) || x == 'b' || x == 's' || x == '/' || x == '_')
    && (slash < 0 ==> 0 <= bpos && 0 <= spos && bpos != spos)
    && (slash >= 0 && bpos >= 0 && spos >= 0 ==>
          !((bpos < slash && spos < slash) || (bpos > slash && spos > slash)))
  }

  /** A slice that avoids the slash and one of b and s, with the other one
   *  removed, holds only digits. */
  lemma CleanSlice(t: string, bpos: int, spos: int, slash: int, n: int, i: int, j: int, removed: char)
    requires SplitReady(t, bpos, spos, slash, n) && 0 <= i <= j <= |t|
    requires removed == 'b' || removed == 's'
    requires !(i <= slash < j)
    requires removed == 'b' ==> !(i <= spos < j)
    requires removed == 's' ==> !(i <= bpos < j)
    ensures OnlyDigits(Remove(t[i..j], removed), n)
  {
    SliceChars(t, i, j);
    SliceAvoids(t, i, j, slash, '/');
    SliceAvoids(t, i, j, slash, '_');
    if removed == 'b' {
      SliceAvoids(t, i, j, spos, 's');
    } else {
      SliceAvoids(t, i, j, bpos, 'b');
    }
  }

  /** Removing a character that does not occur changes nothing. */
  lemma RemoveAbsent(s: string, c: char)
    requires c !in s
    ensures Remove(s, c) == s
    decreases |s|
  {
    if s != [] {
      assert c !in s[1..];
      RemoveAbsent(s[1..], c);
    }
  }

  /** A slice avoiding the slash, with one of b and s removed and the other
   *  kept out, is a digit string up to n. */
  lemma DigitSlice(t: string, bpos: int, spos: int, slash: int, n: int, i: int, j: int, removed: char)
    requires SplitReady(t, bpos, spos, slash, n) && 0 <= i <= j <= |t|
    requires removed == 'b' || removed == 's'
    requires !(i <= slash < j)
    requires removed == 'b' ==> !(i <= spos < j)
    requires removed == 's' ==> !(i <= bpos < j)
    ensures DigitsAtMost(Remove(t[i..j], removed), n)
  {
    CleanSlice(t, bpos, spos, slash, n, i, j, removed);
    OnlyDigitsAtMost(Remove(t[i..j], removed), n);
  }

  /** A slice avoiding the slash, b and s is a digit string up to n. */
  lemma BareSlice(t: string, bpos: int, spos: int, slash: int, n: int, i: int, j: int)
    requires SplitReady(t, bpos, spos, slash, n) && 0 <= i <= j <= |t|
    requires !(i <= slash < j) && !(i <= bpos < j) && !(i <= spos < j)
    ensures DigitsAtMost(t[i..j], n)
  {
    DigitSlice(t, bpos, spos, slash, n, i, j, 'b');
    SliceAvoids(t, i, j, bpos, 'b');
    RemoveAbsent(t[i..j], 'b');
  }

  /** Both parts of a totalistic rule are digit strings up to n. */
  lemma SplitDigits(t: string, bpos: int, spos: int, slash: int, n: int)
    requires SplitReady(t, bpos, spos, slash, n)
    ensures var p := Split(t, bpos, spos, slash);
      DigitsAtMost(p.birth, n) && DigitsAtMost(p.survival, n)
  {
    if slash < 0 {
      SplitDigitsUnslashed(t, bpos, spos, n);
    } else if bpos >= 0 || spos >= 0 {
      SplitDigitsMarked(t, bpos, spos, slash, n);
    } else {
      BareSlice(t, bpos, spos, slash, n, slash + 1, |t|);
      BareSlice(t, bpos, spos, slash, n, 0, slash);
      assert t[slash + 1..|t|] == t[slash + 1..] && t[0..slash] == t[..slash];
    }
  }

  lemma SplitDigitsUnslashed(t: string, bpos: int, spos: int, n: int)
    requires SplitReady(t, bpos, spos, -1, n)
    ensures var p := Split(t, bpos, spos, -1);
      DigitsAtMost(p.birth, n) && DigitsAtMost(p.survival, n)
  {
    if bpos < spos {
      BareSlice(t, bpos, spos, -1, n, bpos + 1, spos);
      BareSlice(t, bpos, spos, -1, n, spos + 1, |t|);
      assert t[spos + 1..|t|] == t[spos + 1..];
    } else {
      BareSlice(t, bpos, spos, -1, n, bpos + 1, |t|);
      BareSlice(t, bpos, spos, -1, n, spos + 1, bpos);
      assert t[bpos + 1..|t|] == t[bpos + 1..];
    }
  }

  lemma SplitDigitsMarked(t: string, bpos: int, spos: int, slash: int, n: int)
    requires SplitReady(t, bpos, spos, slash, n) && slash >= 0 && (bpos >= 0 || spos >= 0)
    ensures var p := Split(t, bpos, spos, slash);
      DigitsAtMost(p.birth, n) && DigitsAtMost(p.survival, n)
  {
    var birthFirst := (bpos >= 0 && bpos < slash) || (spos >= 0 && spos > slash);
    assert t[slash + 1..|t|] == t[slash + 1..] && t[0..slash] == t[..slash];
    if birthFirst {
      DigitSlice(t, bpos, spos, slash, n, 0, slash, 'b');
      DigitSlice(t, bpos, spos, slash, n, slash + 1, |t|, 's');
      assert Split(t, bpos, spos, slash) == Parts(Remove(t[..slash], 'b'), Remove(t[slash + 1..], 's'));
    } else {
      DigitSlice(t, bpos, spos, slash, n, slash + 1, |t|, 'b');
      DigitSlice(t, bpos, spos, slash, n, 0, slash, 's');
      assert Split(t, bpos, spos, slash) == Parts(Remove(t[slash + 1..], 'b'), Remove(t[..slash], 's'));
    }
  }

  /** Dropping a last character other than c keeps the marker of c. */
  lemma MarkerDropLast(t: string, pos: int, c: char)
    requires Marker(t, pos, c) && t != [] && t[|t| - 1] != c
    ensures Marker(t[..|t| - 1], pos, c)
  {
  }

  /** When the last character is h or v, no earlier one is. */
  lemma OnlyLastHV(t: string)
    requires t != [] && IsHV(t[|t| - 1])
    requires forall k, j | 0 <= k < j < |t| :: !(IsHV(t[k]) && IsHV(t[j]))
    ensures forall k | 0 <= k < |t| - 1 :: !IsHV(t[k])
  {
  }

  /** Once the checks before the split have passed on a totalistic rule,
   *  the trimmed tidy string is ready for the split. */
  ghost predicate ReadyWhenChecked(m: Masks, st: ScanState, slash: int)
    requires st.tidy != []
  {
    && st.totalistic && st.wolfram == -1
    && !(st.underscorepos >= 0 && st.slashpos >= 0)
    && (st.mask != m.moore ==> IsHV(st.tidy[|st.tidy| - 1]))
    && st.maxdigit <= st.neighbors
    && (slash >= 0 || (st.bpos >= 0 && st.spos >= 0))
    && (slash >= 0 && st.bpos >= 0 && st.spos >= 0 ==>
          !((st.bpos < slash && st.spos < slash) || (st.bpos > slash && st.spos > slash)))
    ==> SplitReady(Trim(m, st), st.bpos, st.spos, slash, st.neighbors)
  }

  lemma TrimmedReady(m: Masks, st: ScanState, slash: int)
    requires ValidMasks(m) && ScanInvariant(m, st) && st.tidy != []
    requires slash == (if st.underscorepos >= 0 then st.underscorepos else st.slashpos)
    ensures ReadyWhenChecked(m, st, slash)
  {
    var t0 := st.tidy;
    var t := Trim(m, st);
    if st.mask != m.moore && IsHV(t0[|t0| - 1]) {
      MarkerDropLast(t0, st.bpos, 'b');
      MarkerDropLast(t0, st.spos, 's');
      MarkerDropLast(t0, st.slashpos, '/');
      MarkerDropLast(t0, st.underscorepos, '_');
      OnlyLastHV(t0);
    }
    assert forall k | 0 <= k < |t| :: t[k] == t0[k];
    if st.totalistic && st.wolfram == -1 && st.maxdigit <= st.neighbors
       && (st.mask != m.moore ==> IsHV(t0[|t0| - 1])) {
      assert forall k | 0 <= k < |t| :: !IsHV(t[k]);
      assert forall x | x in t :: DigitUpTo(x, st.neighbors) || x == 'b' || x == 's' || x == '/' || x == '_' by {
        forall x | x in t
          ensures DigitUpTo(x, st.neighbors) || x == 'b' || x == 's' || x == '/' || x == '_'
        {
          var k :| 0 <= k < |t| && t[k] == x;
          assert IsDigit8(t0[k]) || IsMarker(t0[k]);
        }
      }
    }
  }

  /** The neighbourhood fields agree: Moore with 8, hexagonal with 6 or von
   *  Neumann with 4 neighbours. */
  predicate MaskAgrees(m: Masks, s: Settings) {
    (s.mask == m.moore && s.neighbors == 8) || (s.mask == m.hexagonal && s.neighbors == 6)
    || (s.mask == m.vonNeumann && s.neighbors == 4)
  }

  /** What an accepted rule hands to the table builders: an even Wolfram
   *  number up to 254 on the Moore mask, or a rule whose totalistic parts are
   *  digit strings up to its neighbour count and whose non-totalistic form
   *  uses the Moore mask (and, corrected, only letters with a pattern). */
  predicate WellParsed(m: Masks, r: Parsed, fixed: bool) {
    r.parts.Ok? ==>
      var s := r.settings;
      var p := r.parts.value;
      MaskAgrees(m, s) &&
      if s.wolfram >= 0 then
        s.wolfram <= 254 && s.wolfram % 2 == 0 && s.mask == m.moore && p == Parts([], [])
      else
        && s.wolfram == -1
        && (s.totalistic ==> DigitsAtMost(p.birth, s.neighbors) && DigitsAtMost(p.survival, s.neighbors))
        && (!s.totalistic ==> s.mask == m.moore)
        && (fixed && !s.totalistic ==> LettersFit(p.birth, false) && LettersFit(p.survival, true))
  }

  lemma CheckWellFormed(m: Masks, st: ScanState, fixed: bool)
    requires ValidMasks(m) && ScanInvariant(m, st)
    ensures WellParsed(m, Check(m, st, fixed), fixed)
  {
    var t0 := st.tidy;
    if t0 == [] || (st.underscorepos >= 0 && st.slashpos >= 0) || (st.underscorepos >= 0 && st.totalistic) {
      assert Check(m, st, fixed).parts.Err?;
    } else if st.wolfram == 0 {
      assert Check(m, st, fixed) == CheckWolfram(SettingsOf(st), t0);
      CheckWolframWellFormed(m, st);
    } else {
      var slash := if st.underscorepos >= 0 then st.underscorepos else st.slashpos;
      assert Check(m, st, fixed) == CheckLife(m, st, slash, fixed);
      TrimmedReady(m, st, slash);
      CheckLifeWellFormed(m, st, slash, fixed);
    }
  }

  /** An accepted Wolfram rule is an even number up to 254 on the Moore mask. */
  lemma CheckWolframWellFormed(m: Masks, st: ScanState)
    requires ScanShape(m, st) && st.wolfram == 0
    ensures WellParsed(m, CheckWolfram(SettingsOf(st), st.tidy), true)
    ensures WellParsed(m, CheckWolfram(SettingsOf(st), st.tidy), false)
  {
  }

  lemma CheckLifeWellFormed(m: Masks, st: ScanState, slash: int, fixed: bool)
    requires ScanShape(m, st) && st.tidy != [] && st.wolfram == -1
    requires slash == (if st.underscorepos >= 0 then st.underscorepos else st.slashpos)
    requires !(st.underscorepos >= 0 && st.slashpos >= 0)
    requires ReadyWhenChecked(m, st, slash)
    ensures WellParsed(m, CheckLife(m, st, slash, fixed), fixed)
  {
    CheckLifeDigits(m, st, slash, fixed);
  }

  /** The parts of an accepted totalistic rule are digit strings up to the
   *  neighbour count. */
  lemma CheckLifeDigits(m: Masks, st: ScanState, slash: int, fixed: bool)
    requires ScanShape(m, st) && st.tidy != [] && st.wolfram == -1
    requires slash == (if st.underscorepos >= 0 then st.underscorepos else st.slashpos)
    requires !(st.underscorepos >= 0 && st.slashpos >= 0)
    requires ReadyWhenChecked(m, st, slash)
    ensures var r := CheckLife(m, st, slash, fixed);
      r.parts.Ok? && st.totalistic ==>
        DigitsAtMost(r.parts.value.birth, st.neighbors) && DigitsAtMost(r.parts.value.survival, st.neighbors)
  {
    var r := CheckLife(m, st, slash, fixed);
    if r.parts.Ok? && st.totalistic {
      var t := Trim(m, st);
      var p := Split(t, st.bpos, st.spos, slash);
      SplitDigits(t, st.bpos, st.spos, slash, st.neighbors);
    }
  }

  /** An accepted rule is well formed for the table builders. */
  lemma ParseWellFormed(m: Masks, rule: string, fixed: bool)
    requires ValidMasks(m)
    ensures WellParsed(m, Parse(m, rule, fixed), fixed)
  {
    var s := BeforeColon(rule);
    ScanKeepsInvariant(m, s, fixed);
    if Scan(m, s, fixed).Scanning? {
      CheckWellFormed(m, Scan(m, s, fixed).st, fixed);
    }
  }

  /** The letter check of the corrected parser is exactly the condition
   *  under which setRuleFromString stays inside rule_neighborhoods. */
  lemma {:induction false} LettersFitExact(e: Tables, s: string, survival: bool, mask: bv16)
    requires WellSized(e)
    ensures RuleFromString(e, s, survival, mask).Some? <==> LettersFit(s, survival)
    decreases |s|, 0
  {
    if s != [] {
      var lindex := IndexOf(ValidRuleLetters, s[0]);
      if (0 < lindex <= 8) || (lindex == 0 && survival) {
        DigitFitsExact(e, s, survival, mask);
      } else {
        LettersFitExact(e, s[1..], survival, mask);
      }
    }
  }

  /** The case of a digit that starts a run of letters. */
  lemma {:induction false} DigitFitsExact(e: Tables, s: string, survival: bool, mask: bv16)
    requires WellSized(e) && s != []
    requires var lindex := IndexOf(ValidRuleLetters, s[0]); (0 < lindex <= 8) || (lindex == 0 && survival)
    ensures RuleFromString(e, s, survival, mask).Some? <==> LettersFit(s, survival)
    decreases |s|, 0, 0
  {
    var lindex := IndexOf(ValidRuleLetters, s[0]);
    var rest := s[1..];
    var nindex := if rest == [] then 0 else IndexOf(ValidRuleLetters, rest[0]);
    var e1 := if 0 <= nindex <= 8 then TotalisticStep(e, lindex, survival, mask) else e;
    if rest != [] && rest[0] == '-' {
      RunFitsExact(e1, rest[1..], lindex, survival, false, mask);
    } else {
      RunFitsExact(e1, rest, lindex, survival, true, mask);
    }
  }

  lemma {:induction false} RunFitsExact(e: Tables, s: string, value: int, survival: bool, normal: bool, mask: bv16)
    requires WellSized(e) && 0 <= value <= 8
    ensures LetterRun(e, s, value, survival, normal, mask).Some? <==> RunFits(s, value, survival)
    decreases |s|, 1
  {
    var lindex := if s == [] then -1 else IndexOf(LetterOrder, s[0]);
    if lindex >= 0 {
      if !(1 <= value <= 7 && lindex >= LetterCount(value)) {
        RunFitsExact(SymmetricalStep(e, value, survival, lindex, normal, mask), s[1..], value, survival, normal, mask);
      }
    } else {
      LettersFitExact(e, s, survival, mask);
    }
  }

  //
  // Examples from the rule syntax
  //

  /** A digit 1..7 followed by a letter that has no pattern for it (the
   *  birth part 1z of B1z/S, say), as written: the part checks accept it,
   *  and setRuleFromString would read past the row of rule_neighborhoods for
   *  that digit. */
  lemma LetterPastRowAsWritten(m: Masks, e: Tables, mask: bv16, value: int, lindex: int)
    requires ValidMasks(m) && WellSized(e)
    requires 1 <= value <= 7 && LetterCount(value) <= lindex < |LetterOrder|
    ensures var birth := [Digit(value), LetterOrder[lindex]];
      && CheckParts(m, Settings(-1, m.moore, 8, false), Parts(birth, []), false).parts == Ok(Parts(birth, []))
      && RuleFromString(e, birth, false, mask) == None
  {
    var birth := [Digit(value), LetterOrder[lindex]];
    var letter := LetterOrder[lindex];
    DigitLetterIndex(Digit(value));
    LetterOrderFacts(lindex);
    ValidLetterIndex(letter);
    assert birth[1..] == [letter];
    assert !BadStart(birth);
    PastRowRun(e, mask, value, lindex);
  }

  /** The letter run of a letter past the row of its digit fails. */
  lemma PastRowRun(e: Tables, mask: bv16, value: int, lindex: int)
    requires WellSized(e)
    requires 1 <= value <= 7 && LetterCount(value) <= lindex < |LetterOrder|
    ensures LetterRun(e, [LetterOrder[lindex]], value, false, true, mask) == None
  {
    LetterOrderFacts(lindex);
  }

  /** The same part, corrected: refused before any table is built. */
  lemma LetterPastRowCorrected(m: Masks, value: int, lindex: int)
    requires ValidMasks(m)
    requires 1 <= value <= 7 && LetterCount(value) <= lindex < |LetterOrder|
    ensures var birth := [Digit(value), LetterOrder[lindex]];
      CheckParts(m, Settings(-1, m.moore, 8, false), Parts(birth, []), true).parts
        == Err("Letter not valid for numeric value.")
  {
    var birth := [Digit(value), LetterOrder[lindex]];
    var letter := LetterOrder[lindex];
    DigitLetterIndex(Digit(value));
    LetterOrderFacts(lindex);
    assert birth[1..] == [letter];
    assert !RunFits([letter], value, false);
    assert !LettersFit(birth, false);
    assert !BadStart(birth);
  }

  /** The input B1z/S: z is letter 12, and the digit 1 has two letters. */
  lemma LetterZ()
    ensures LetterOrder[12] == 'z' && LetterCount(1) == 2
  {
  }

  /** The digit 9 in a Wolfram rule (the 9 of W90, say), as written: it is
   *  not among valid_rule_letters, so the scan stops with an error and no
   *  Wolfram number containing the digit 9 can be entered. */
  lemma Wolfram9AsWritten(m: Masks, st: ScanState)
    requires st.wolfram == 0
    ensures ScanChar(m, st, '9', false) == Failed("Bad character found.", st)
  {
    assert '9' !in ValidRuleLetters;
  }

  /** The same digit, corrected: it is copied into the tidy string like the
   *  other digits of the rule number. */
  lemma Wolfram9Corrected(m: Masks, st: ScanState)
    requires st.wolfram == 0
    ensures ScanChar(m, st, '9', true) == Scanning(st.(tidy := st.tidy + ['9']))
  {
    assert '9' !in ValidRuleLetters;
  }

  /** The tidy string 90 that the corrected scan leaves for W90 is accepted
   *  as Wolfram rule 90. */
  lemma Wolfram90Accepted(settings: Settings)
    ensures CheckWolfram(settings, "90") == Parsed(settings.(wolfram := 90), Ok(Parts([], [])))
  {
    assert LeadingDigits("90") == 2;
    assert "90"[..2] == "90" && "90"[..1] == "9";
    assert Decimal("9") == 9;
  }
}
