/** The RuleTree algorithm (ruletreealgo.cpp): a rule is a decision tree
 *  over the states of a cell's neighbours, read from a .tree file (or, for
 *  B3/S23, from the built-in defaultRuleData) and installed as two flat
 *  arrays: a holds the child offsets of the inner nodes, b the states of
 *  the leaf nodes.  slowcalc walks num_neighbors + 1 levels from base.
 *
 *  The loader's locals (the three header values, the vectors dat, datb and
 *  noff, and the last level) are gathered in Loader.  Each node line also
 *  records its level and its number of values (levels, widths): the
 *  corrected loader uses them to check that a node only names nodes one
 *  level below it with as many values, and at the end that the header
 *  values still describe the last node.  With checked false the
 *  functions behave as the code is written.
 */
module RuleTrees {
  import opened Outcomes
  import RuleSyntax
  import RuleTables
  import CanonicalNames

  /** defaultRuleData (ruletreealgo.cpp:45-51): the tree of B3/S23, so that
   *  the default rule needs no file. */
  const DefaultRuleData: seq<string> := [
    "num_states=2", "num_neighbors=8", "num_nodes=32",
    "1 0 0", "2 0 0", "1 0 1", "2 0 2", "3 1 3", "1 1 1", "2 2 5", "3 3 6",
    "4 4 7", "2 5 0", "3 6 9", "4 7 10", "5 8 11", "3 9 1", "4 10 13",
    "5 11 14", "6 12 15", "3 1 1", "4 13 17", "5 14 18", "6 15 19",
    "7 16 20", "4 17 17", "5 18 22", "6 19 23", "7 20 24", "8 21 25",
    "5 22 22", "6 23 27", "7 24 28", "8 25 29", "9 26 30"]

  /** DefaultRule (ruletreealgo.cpp:214-216). */
  const DefaultRuleName := "B3/S23"

  //
  // Selecting the built-in tree
  //

  /** The rule name: the text before the first colon, if any
   *  (ruletreealgo.cpp:69-72). */
  function RuleName(s: string): (name: string)
    ensures name <= s && ':' !in name
    ensures ':' in s ==> |name| < |s| && s[|name|] == ':'
    ensures ':' !in s ==> name == s
  {
    if s == [] || s[0] == ':' then [] else [s[0]] + RuleName(s[1..])
  }

  /** stricmp(x, y) == 0 in the C locale: the same length, and the same
   *  characters once lower-cased. */
  predicate SameIgnoringCase(x: string, y: string) {
    |x| == |y| && forall i | 0 <= i < |x| :: RuleSyntax.ToLower(x[i]) == RuleSyntax.ToLower(y[i])
  }

  /** isDefaultRule (ruletreealgo.cpp:75-77): B3/S23 or B3S23 in any case,
   *  or exactly 23/3. */
  predicate IsDefaultRule(name: string) {
    SameIgnoringCase(name, "B3/S23") || SameIgnoringCase(name, "B3S23") || name == "23/3"
  }

  //
  // Reading the lines
  //

  /** isspace in the C locale: blank, tab, newline, vertical tab, form feed
   *  and carriage return. */
  predicate IsSpace(c: char) {
    c == ' ' || '\t' <= c <= '\r'
  }

  function SkipSpace(s: string): (r: string)
    ensures |r| <= |s|
  {
    if s != [] && IsSpace(s[0]) then SkipSpace(s[1..]) else s
  }

  /** sscanf(line, " <key> = %d", &v) == 1, and the v it stores: blanks,
   *  the key, blanks, '=', blanks, an optional sign and at least one
   *  digit; anything after the digits is ignored. */
  function HeaderValue(line: string, key: string): Option<int> {
    var s := SkipSpace(line);
    if !(key <= s) then None
    else
      var t := SkipSpace(s[|key|..]);
      if t == [] || t[0] != '=' then None
      else ScanInt(SkipSpace(t[1..]))
  }

  /** %d after its blanks: an optional sign and at least one digit. */
  function ScanInt(u: string): Option<int> {
    var signed := u != [] && (u[0] == '-' || u[0] == '+');
    var digits := if signed then u[1..] else u;
    var k := RuleSyntax.LeadingDigits(digits);
    if k == 0 then None
    else
      var n: int := RuleSyntax.Decimal(digits[..k]);
      Some(if signed && u[0] == '-' then -n else n)
  }

  /** The loader's locals: the header values (-1 until set), dat (child
   *  offsets), datb (leaf states), noff (the offset of each node), the level
   *  and number of values of each complete node line, and lev, the level
   *  of the last node line (1000 before the first). */
  datatype Loader = Loader(
    states: int, neighbors: int, nodes: int,
    dat: seq<int>, datb: seq<int>, noff: seq<int>,
    levels: seq<int>, widths: seq<int>,
    lev: int)

  const Start := Loader(-1, -1, -1, [], [], [], [], [], 1000)

  /** The check every node line makes first (ruletreealgo.cpp:126-130). */
  predicate BasicValues(ld: Loader) {
    && 2 <= ld.states <= 256
    && (ld.neighbors == 4 || ld.neighbors == 8)
    && ld.neighbors <= ld.nodes <= 100000000
  }

  /** The first j >= i that is past the blanks (characters up to ' ') at i. */
  function BlankEnd(s: string, i: nat): (j: nat)
    requires i <= |s|
    ensures i <= j <= |s| && (j < |s| ==> s[j] > ' ')
    decreases |s| - i
  {
    if i < |s| && s[i] <= ' ' then BlankEnd(s, i + 1) else i
  }

  /** The first j >= i that ends the token (characters above ' ') at i. */
  function TokenEnd(s: string, i: nat): (j: nat)
    requires i <= |s|
    ensures i <= j <= |s| && (j < |s| ==> s[j] <= ' ')
    decreases |s| - i
  {
    if i < |s| && s[i] > ' ' then TokenEnd(s, i + 1) else i
  }

  predicate AllDigits(s: string, i: nat, j: nat)
    requires i <= j <= |s|
  {
    forall k | i <= k < j :: '0' <= s[k] <= '9'
  }

  /** One value v of a node line at level lev (ruletreealgo.cpp:151-161): a
   *  leaf state must be below num_states; a node number must name a node
   *  read so far, this one included, and its offset is pushed.  Checked,
   *  it must also name a complete node one level down with num_states
   *  values. */
  function AddValue(ld: Loader, lev: int, v: int, checked: bool): Result<Loader> {
    if lev == 1 then
      if v < 0 || v >= ld.states then Err("Bad state value in ruletree file")
      else Ok(ld.(datb := ld.datb + [v]))
    else if v < 0 || v >= |ld.noff| then Err("Bad node value in ruletree file")
    else if checked && !(v < |ld.levels| && v < |ld.widths| && ld.levels[v] == lev - 1 && ld.widths[v] == ld.states) then
      Err("Bad node level in ruletree file")
    else Ok(ld.(dat := ld.dat + [ld.noff[v]]))
  }

  /** The values of a node line from position i (ruletreealgo.cpp:141-163):
   *  skip blanks, read a token of digits, add its value, until the end of
   *  the line.  Blanks at the end of the line still read one value, 0. */
  function Values(ld: Loader, lev: int, line: string, i: nat, checked: bool): Result<Loader>
    requires i <= |line|
    decreases |line| - i
  {
    if i == |line| then Ok(ld)
    else
      var q := BlankEnd(line, i);
      var e := TokenEnd(line, q);
      if !AllDigits(line, q, e) then Err("Bad line in ruletree file 2")
      else
        match AddValue(ld, lev, RuleSyntax.Decimal(line[q..e]), checked)
        case Err(m) => Err(m)
        case Ok(next) => Values(next, lev, line, e, checked)
  }

  /** The number of values read since ld0. */
  function Added(ld0: Loader, ld: Loader): int {
    |ld.dat| + |ld.datb| - (|ld0.dat| + |ld0.datb|)
  }

  /** A node line (ruletreealgo.cpp:126-166): the basic values, the level
   *  digit, the offset of the new node, its values, and their number. */
  function NodeLine(ld: Loader, line: string, checked: bool): Result<Loader>
    requires line != []
  {
    if !BasicValues(ld) then Err("Bad basic values")
    else if line[0] < '1' || line[0] as int > '0' as int + 1 + ld.neighbors then Err("Bad line in ruletree file 1")
    else
      var lev := line[0] as int - '0' as int;
      var start := ld.(lev := lev, noff := ld.noff + [if lev == 1 then |ld.datb| else |ld.dat|]);
      match Values(start, lev, line, 1, checked)
      case Err(m) => Err(m)
      case Ok(done) =>
        if Added(start, done) != ld.states then Err("Bad number of values on ruletree line")
        else Ok(done.(levels := done.levels + [lev], widths := done.widths + [ld.states]))
  }

  /** One line of the file (ruletreealgo.cpp:122-167): an empty line or a
   *  comment is skipped, a header sets its value, anything else is a node. */
  function ReadLine(ld: Loader, line: string, checked: bool): Result<Loader> {
    if line == [] || line[0] == '#' then Ok(ld)
    else if HeaderValue(line, "num_states").Some? then Ok(ld.(states := HeaderValue(line, "num_states").value))
    else if HeaderValue(line, "num_neighbors").Some? then Ok(ld.(neighbors := HeaderValue(line, "num_neighbors").value))
    else if HeaderValue(line, "num_nodes").Some? then Ok(ld.(nodes := HeaderValue(line, "num_nodes").value))
    else NodeLine(ld, line, checked)
  }

  /** The loop over the lines (ruletreealgo.cpp:112-168), up to the first error. */
  function ReadLines(ld: Loader, lines: seq<string>, checked: bool): Result<Loader>
    decreases |lines|
  {
    if lines == [] then Ok(ld)
    else
      match ReadLine(ld, lines[0], checked)
      case Err(m) => Err(m)
      case Ok(next) => ReadLines(next, lines[1..], checked)
  }

  /** The two checks after the last line as written (ruletreealgo.cpp:171-174). */
  predicate AcceptedAsWritten(ld: Loader) {
    |ld.dat| + |ld.datb| == ld.nodes * ld.states && ld.lev == ld.neighbors + 1
  }

  /** An installed tree: the header values, a, b and base. */
  datatype Tree = Tree(states: int, neighbors: int, nodes: int, a: seq<int>, b: seq<int>, base: int)

  /** The tree the loader installs (ruletreealgo.cpp:183-192); base is the
   *  offset of the last node. */
  function TreeOf(ld: Loader): Tree
    requires |ld.noff| > 0
  {
    Tree(ld.states, ld.neighbors, ld.nodes, ld.dat, ld.datb, ld.noff[|ld.noff| - 1])
  }

  /** The checks after the last line, corrected: the two of the original,
   *  then the basic values and the size of the last node again, since a
   *  header line may follow the node lines or there may be none. */
  function Finish(ld: Loader): Result<Tree> {
    if |ld.dat| + |ld.datb| != ld.nodes * ld.states then Err("Bad count of values in ruletree file")
    else if ld.lev != ld.neighbors + 1 then Err("Bad last node (wrong level)")
    else if !BasicValues(ld) then Err("Bad basic values")
    else if |ld.noff| == 0 || |ld.widths| != |ld.noff| || ld.widths[|ld.noff| - 1] != ld.states then
      Err("Bad last node (wrong number of values)")
    else Ok(TreeOf(ld))
  }

  /** The corrected loader: every line, then the final checks. */
  function Load(lines: seq<string>): Result<Tree> {
    match ReadLines(Start, lines, true)
    case Err(m) => Err(m)
    case Ok(ld) => Finish(ld)
  }

  //
  // Evaluating a tree
  //

  /** node is a node of depth levels whose every walk stays inside a and b:
   *  w child offsets in a for an inner node, w states below w in b for a
   *  leaf. */
  ghost predicate Reaches(a: seq<int>, b: seq<int>, w: int, node: int, depth: int)
    decreases depth
  {
    if depth <= 1 then
      && depth == 1 && 0 <= node && node + w <= |b|
      && forall k | node <= k < node + w :: 0 <= b[k] < w
    else
      && 0 <= node && node + w <= |a|
      && forall k {:trigger Reaches(a, b, w, a[k], depth - 1)} | node <= k < node + w :: Reaches(a, b, w, a[k], depth - 1)
  }

  /** Each entry of an inner node reaches one level less. */
  lemma ReachesChild(a: seq<int>, b: seq<int>, w: int, node: int, depth: int, k: int)
    requires depth > 1 && Reaches(a, b, w, node, depth) && node <= k < node + w
    ensures 0 <= k < |a| && Reaches(a, b, w, a[k], depth - 1)
  {
  }

  /** A tree slowcalc can evaluate: 4 or 8 neighbours, 2 to 256 states, and
   *  num_neighbors + 1 levels below base. */
  ghost predicate Evaluable(t: Tree) {
    && (t.neighbors == 4 || t.neighbors == 8)
    && 2 <= t.states <= 256
    && Reaches(t.a, t.b, t.states, t.base, t.neighbors + 1)
  }

  predicate States(path: seq<int>, w: int) {
    forall i | 0 <= i < |path| :: 0 <= path[i] < w
  }

  /** The state the tree gives for path: one child per state, then the leaf
   *  entry for the last state. */
  function Walk(a: seq<int>, b: seq<int>, w: int, node: int, path: seq<int>): (r: int)
    requires |path| >= 1 && States(path, w) && Reaches(a, b, w, node, |path|)
    ensures 0 <= r < w
    decreases |path|
  {
    if |path| == 1 then b[node + path[0]]
    else
      assert States(path[1..], w) by {
        forall i | 0 <= i < |path| - 1 ensures 0 <= path[1..][i] < w { assert path[1..][i] == path[i + 1]; }
      }
      ReachesChild(a, b, w, node, |path|, node + path[0]);
      Walk(a, b, w, a[node + path[0]], path[1..])
  }

  //
  // The corrected loader accepts only trees slowcalc can evaluate
  //

  /** Reaches only looks at entries it names, so it survives appending. */
  lemma {:induction false} ReachesGrow(a: seq<int>, b: seq<int>, a2: seq<int>, b2: seq<int>, w: int, node: int, depth: int)
    requires Reaches(a, b, w, node, depth) && a <= a2 && b <= b2
    ensures Reaches(a2, b2, w, node, depth)
    decreases depth
  {
    if depth > 1 {
      forall k | node <= k < node + w ensures Reaches(a2, b2, w, a2[k], depth - 1) {
        ReachesGrow(a, b, a2, b2, w, a[k], depth - 1);
      }
    }
  }

  /** The loader between lines: one level and one width per node offset,
   *  lev the level of the last node, and every node a tree of its level
   *  whose nodes all have its width. */
  ghost predicate Sound(ld: Loader) {
    && |ld.noff| == |ld.levels| == |ld.widths|
    && (|ld.levels| == 0 ==> ld.lev == 1000)
    && (|ld.levels| > 0 ==> ld.lev == ld.levels[|ld.levels| - 1])
    && forall i | 0 <= i < |ld.levels| :: Reaches(ld.dat, ld.datb, ld.widths[i], ld.noff[i], ld.levels[i])
  }

  /** The loader in the middle of a node line at level lev, started from
   *  base: the values read so far are states below num_states (a leaf) or
   *  offsets of complete trees one level down with num_states values. */
  ghost predicate Partial(base: Loader, cur: Loader, lev: int) {
    && cur.states == base.states && cur.levels == base.levels && cur.widths == base.widths
    && base.noff <= cur.noff && |cur.noff| == |base.noff| + 1
    && base.dat <= cur.dat && base.datb <= cur.datb
    && (lev == 1 ==> cur.dat == base.dat && forall k | |base.datb| <= k < |cur.datb| :: 0 <= cur.datb[k] < base.states)
    && (lev != 1 ==>
          && cur.datb == base.datb
          && forall k | |base.dat| <= k < |cur.dat| :: Reaches(base.dat, base.datb, base.states, cur.dat[k], lev - 1))
  }

  /** A checked value keeps the partial node sound. */
  lemma AddValuePartial(base: Loader, cur: Loader, lev: int, v: int)
    requires Sound(base) && Partial(base, cur, lev)
    ensures AddValue(cur, lev, v, true).Ok? ==> Partial(base, AddValue(cur, lev, v, true).value, lev)
  {
    if lev != 1 && AddValue(cur, lev, v, true).Ok? {
      assert cur.noff[v] == base.noff[v];
      assert Reaches(base.dat, base.datb, base.widths[v], base.noff[v], base.levels[v]);
    }
  }

  /** The values loop, checked, keeps the partial node sound. */
  lemma {:induction false} ValuesPartial(base: Loader, cur: Loader, lev: int, line: string, i: nat)
    requires Sound(base) && Partial(base, cur, lev) && i <= |line|
    ensures Values(cur, lev, line, i, true).Ok? ==> Partial(base, Values(cur, lev, line, i, true).value, lev)
    decreases |line| - i
  {
    if i < |line| {
      var q := BlankEnd(line, i);
      var e := TokenEnd(line, q);
      if AllDigits(line, q, e) {
        var v := RuleSyntax.Decimal(line[q..e]);
        AddValuePartial(base, cur, lev, v);
        if AddValue(cur, lev, v, true).Ok? {
          ValuesPartial(base, AddValue(cur, lev, v, true).value, lev, line, e);
        }
      }
    }
  }

  /** The values loop only appends to dat and datb. */
  lemma {:induction false} ValuesFrame(ld: Loader, lev: int, line: string, i: nat, checked: bool)
    requires i <= |line|
    ensures Values(ld, lev, line, i, checked).Ok? ==>
      Values(ld, lev, line, i, checked).value == ld.(dat := Values(ld, lev, line, i, checked).value.dat, datb := Values(ld, lev, line, i, checked).value.datb)
    decreases |line| - i
  {
    if i < |line| {
      var q := BlankEnd(line, i);
      var e := TokenEnd(line, q);
      if AllDigits(line, q, e) && AddValue(ld, lev, RuleSyntax.Decimal(line[q..e]), checked).Ok? {
        ValuesFrame(AddValue(ld, lev, RuleSyntax.Decimal(line[q..e]), checked).value, lev, line, e, checked);
      }
    }
  }

  /** A checked node line keeps the loader sound: the new node is a tree of
   *  its level with num_states values, and the old ones still are. */
  lemma NodeLineSound(ld: Loader, line: string)
    requires Sound(ld) && line != []
    ensures NodeLine(ld, line, true).Ok? ==> Sound(NodeLine(ld, line, true).value)
  {
    if NodeLine(ld, line, true).Ok? {
      var lev := line[0] as int - '0' as int;
      var o := if lev == 1 then |ld.datb| else |ld.dat|;
      var start := ld.(lev := lev, noff := ld.noff + [o]);
      assert Partial(ld, start, lev);
      ValuesPartial(ld, start, lev, line, 1);
      ValuesFrame(start, lev, line, 1, true);
      var done := Values(start, lev, line, 1, true).value;
      var next := done.(levels := done.levels + [lev], widths := done.widths + [ld.states]);
      assert NodeLine(ld, line, true).value == next;
      forall i | 0 <= i < |next.levels| ensures Reaches(next.dat, next.datb, next.widths[i], next.noff[i], next.levels[i]) {
        if i < |ld.levels| {
          ReachesGrow(ld.dat, ld.datb, next.dat, next.datb, ld.widths[i], ld.noff[i], ld.levels[i]);
        } else {
          NodeComplete(ld, done, lev, o);
        }
      }
    }
  }

  /** The node a checked line completes is a tree of its level. */
  lemma NodeComplete(base: Loader, done: Loader, lev: int, o: int)
    requires Sound(base) && Partial(base, done, lev) && 1 <= lev
    requires o == (if lev == 1 then |base.datb| else |base.dat|)
    requires |done.dat| + |done.datb| - (|base.dat| + |base.datb|) == base.states
    ensures Reaches(done.dat, done.datb, base.states, o, lev)
  {
    if lev != 1 {
      forall k | o <= k < o + base.states ensures Reaches(done.dat, done.datb, base.states, done.dat[k], lev - 1) {
        ReachesGrow(base.dat, base.datb, done.dat, done.datb, base.states, done.dat[k], lev - 1);
      }
    }
  }

  /** Every line, checked, keeps the loader sound. */
  lemma ReadLineSound(ld: Loader, line: string)
    requires Sound(ld)
    ensures ReadLine(ld, line, true).Ok? ==> Sound(ReadLine(ld, line, true).value)
  {
    if line != [] && line[0] != '#' && HeaderValue(line, "num_states").None? &&
       HeaderValue(line, "num_neighbors").None? && HeaderValue(line, "num_nodes").None? {
      NodeLineSound(ld, line);
    }
  }

  lemma {:induction false} ReadLinesSound(ld: Loader, lines: seq<string>)
    requires Sound(ld)
    ensures ReadLines(ld, lines, true).Ok? ==> Sound(ReadLines(ld, lines, true).value)
    decreases |lines|
  {
    if lines != [] {
      ReadLineSound(ld, lines[0]);
      if ReadLine(ld, lines[0], true).Ok? {
        ReadLinesSound(ReadLine(ld, lines[0], true).value, lines[1..]);
      }
    }
  }

  /** Whatever the lines, a tree the corrected loader installs is one
   *  slowcalc can evaluate: every walk of num_neighbors + 1 states from
   *  base stays inside a and b and ends on a state below num_states. */
  lemma LoadEvaluable(lines: seq<string>)
    ensures Load(lines).Ok? ==> Evaluable(Load(lines).value)
  {
    ReadLinesSound(Start, lines);
  }

  //
  // Node lines as text
  //

  /** A node line's content: its level and its values. */
  datatype NodeSpec = NodeSpec(level: int, values: seq<nat>)

  /** The values of a node line, each after one blank. */
  function Spaced(vs: seq<nat>): string {
    if vs == [] then "" else " " + CanonicalNames.DecimalString(vs[0]) + Spaced(vs[1..])
  }

  /** The text of a node line: the level digit, then the values. */
  function NodeText(n: NodeSpec): string
    requires 1 <= n.level <= 9
  {
    [RuleTables.Digit(n.level)] + Spaced(n.values)
  }

  /** A value that AddValue accepts. */
  predicate ValueOk(ld: Loader, lev: int, v: int, checked: bool) {
    if lev == 1 then 0 <= v < ld.states
    else 0 <= v < |ld.noff| && (!checked || (v < |ld.levels| && v < |ld.widths| && ld.levels[v] == lev - 1 && ld.widths[v] == ld.states))
  }

  /** AddValue for each of vs in turn. */
  function AddValues(ld: Loader, lev: int, vs: seq<nat>, checked: bool): Result<Loader>
    decreases |vs|
  {
    if vs == [] then Ok(ld)
    else
      match AddValue(ld, lev, vs[0], checked)
      case Err(m) => Err(m)
      case Ok(next) => AddValues(next, lev, vs[1..], checked)
  }

  /** The offsets of the nodes vs names. */
  function Offsets(noff: seq<int>, vs: seq<nat>): seq<int>
    requires forall k | 0 <= k < |vs| :: vs[k] < |noff|
  {
    seq(|vs|, k requires 0 <= k < |vs| => noff[vs[k]])
  }

  /** The values are accepted exactly when each one is: the checks read
   *  states, noff, levels and widths, which adding a value leaves alone. */
  lemma {:induction false} AddValuesOk(ld: Loader, lev: int, vs: seq<nat>, checked: bool)
    ensures AddValues(ld, lev, vs, checked).Ok? <==> forall k | 0 <= k < |vs| :: ValueOk(ld, lev, vs[k], checked)
    decreases |vs|
  {
    if vs != [] {
      var r := AddValue(ld, lev, vs[0], checked);
      assert r.Ok? <==> ValueOk(ld, lev, vs[0], checked);
      if r.Ok? {
        var next := r.value;
        AddValuesOk(next, lev, vs[1..], checked);
        assert forall k | 0 <= k < |vs| - 1 :: vs[1..][k] == vs[k + 1];
        assert forall v :: ValueOk(next, lev, v, checked) == ValueOk(ld, lev, v, checked);
      }
    }
  }

  /** A leaf's values are appended to datb as they are. */
  lemma {:induction false} AddValuesLeaf(ld: Loader, vs: seq<nat>, checked: bool)
    ensures AddValues(ld, 1, vs, checked).Ok? ==> AddValues(ld, 1, vs, checked).value == ld.(datb := ld.datb + vs)
    decreases |vs|
  {
    if vs != [] && AddValue(ld, 1, vs[0], checked).Ok? {
      var next := AddValue(ld, 1, vs[0], checked).value;
      AddValuesLeaf(next, vs[1..], checked);
      assert ld.datb + vs == next.datb + vs[1..];
    }
  }

  /** The offsets of a nonempty list: the first one's, then the rest's. */
  lemma OffsetsSplit(noff: seq<int>, vs: seq<nat>)
    requires vs != [] && forall k | 0 <= k < |vs| :: vs[k] < |noff|
    ensures Offsets(noff, vs) == [noff[vs[0]]] + Offsets(noff, vs[1..])
  {
    assert forall k | 0 <= k < |vs| - 1 :: vs[1..][k] == vs[k + 1];
  }

  /** An inner node's values name earlier nodes, whose offsets are appended
   *  to dat. */
  lemma {:induction false} AddValuesInner(ld: Loader, lev: int, vs: seq<nat>, checked: bool)
    requires lev != 1
    ensures AddValues(ld, lev, vs, checked).Ok? ==>
      (forall k | 0 <= k < |vs| :: vs[k] < |ld.noff|) &&
      AddValues(ld, lev, vs, checked).value == ld.(dat := ld.dat + Offsets(ld.noff, vs))
    decreases |vs|
  {
    if vs != [] && AddValue(ld, lev, vs[0], checked).Ok? {
      var next := AddValue(ld, lev, vs[0], checked).value;
      AddValuesInner(next, lev, vs[1..], checked);
      if AddValues(next, lev, vs[1..], checked).Ok? {
        forall k | 0 <= k < |vs| ensures vs[k] < |ld.noff| {
          if k > 0 {
            assert vs[k] == vs[1..][k - 1];
          }
        }
        OffsetsSplit(ld.noff, vs);
        assert next.dat == ld.dat + [ld.noff[vs[0]]] && next.noff == ld.noff;
        assert ld.dat + ([ld.noff[vs[0]]] + Offsets(ld.noff, vs[1..])) == ld.dat + [ld.noff[vs[0]]] + Offsets(ld.noff, vs[1..]);
      }
    }
  }

  /** TokenEnd at the end of a known token. */
  lemma {:induction false} TokenEndAt(s: string, i: nat, j: nat)
    requires i <= j <= |s|
    requires forall k | i <= k < j :: s[k] > ' '
    requires j < |s| ==> s[j] <= ' '
    ensures TokenEnd(s, i) == j
    decreases j - i
  {
    if i < j {
      TokenEndAt(s, i + 1, j);
    }
  }

  /** A blank followed by the decimal text of n is one token whose value is n. */
  lemma NumberAt(line: string, i: nat, n: nat)
    requires i + 1 + |CanonicalNames.DecimalString(n)| <= |line| && line[i] == ' '
    requires line[i + 1..i + 1 + |CanonicalNames.DecimalString(n)|] == CanonicalNames.DecimalString(n)
    requires i + 1 + |CanonicalNames.DecimalString(n)| < |line| ==> line[i + 1 + |CanonicalNames.DecimalString(n)|] == ' '
    ensures BlankEnd(line, i) == i + 1
    ensures TokenEnd(line, i + 1) == i + 1 + |CanonicalNames.DecimalString(n)|
    ensures AllDigits(line, i + 1, i + 1 + |CanonicalNames.DecimalString(n)|)
    ensures RuleSyntax.Decimal(line[i + 1..i + 1 + |CanonicalNames.DecimalString(n)|]) == n
  {
    var d := CanonicalNames.DecimalString(n);
    var e := i + 1 + |d|;
    assert forall k | i + 1 <= k < e :: line[k] == d[k - i - 1];
    assert BlankEnd(line, i + 1) == i + 1;
    TokenEndAt(line, i + 1, e);
    CanonicalNames.DecimalRoundTrip(n);
  }

  /** One turn of the values loop over a token of digits from q to e. */
  lemma ValuesUnfold(ld: Loader, lev: int, line: string, i: nat, q: nat, e: nat, v: nat, checked: bool)
    requires i < |line| && q == BlankEnd(line, i) && q <= e <= |line| && e == TokenEnd(line, q)
    requires AllDigits(line, q, e) && v == RuleSyntax.Decimal(line[q..e])
    ensures AddValue(ld, lev, v, checked).Err? ==> Values(ld, lev, line, i, checked) == Err(AddValue(ld, lev, v, checked).msg)
    ensures AddValue(ld, lev, v, checked).Ok? ==> Values(ld, lev, line, i, checked) == Values(AddValue(ld, lev, v, checked).value, lev, line, e, checked)
  {
  }

  /** Where the text of the first value and of the rest lie in a line
   *  holding Spaced(vs) from i. */
  lemma SpacedSplit(line: string, i: nat, vs: seq<nat>)
    requires vs != [] && i <= |line| && line[i..] == Spaced(vs)
    ensures var e := i + 1 + |CanonicalNames.DecimalString(vs[0])|;
      e <= |line| && line[i] == ' ' && line[i + 1..e] == CanonicalNames.DecimalString(vs[0]) &&
      line[e..] == Spaced(vs[1..]) && (e < |line| ==> line[e] == ' ')
  {
    var d := CanonicalNames.DecimalString(vs[0]);
    var e := i + 1 + |d|;
    var rest := Spaced(vs[1..]);
    assert line[i..] == " " + d + rest;
    assert line[i + 1..e] == d;
    assert line[e..] == rest;
    assert e < |line| ==> rest != [] && line[e] == ' ';
  }

  /** Tokenising the text of values gives the values back: the values loop
   *  reads the numbers Spaced writes. */
  lemma {:induction false} ValuesSpaced(ld: Loader, lev: int, line: string, i: nat, vs: seq<nat>, checked: bool)
    requires i <= |line| && line[i..] == Spaced(vs)
    ensures Values(ld, lev, line, i, checked) == AddValues(ld, lev, vs, checked)
    decreases |vs|
  {
    if vs == [] {
      assert |line[i..]| == 0;
    } else {
      var e := ValuesSpacedStep(ld, lev, line, i, vs, checked);
      var r := AddValue(ld, lev, vs[0], checked);
      if r.Ok? {
        ValuesSpaced(r.value, lev, line, e, vs[1..], checked);
      }
    }
  }

  /** The values loop over the text of the first value of vs: its error,
   *  or the loop going on at e, where the text of the rest begins. */
  lemma ValuesSpacedStep(ld: Loader, lev: int, line: string, i: nat, vs: seq<nat>, checked: bool) returns (e: nat)
    requires vs != [] && i <= |line| && line[i..] == Spaced(vs)
    ensures e <= |line| && line[e..] == Spaced(vs[1..])
    ensures AddValue(ld, lev, vs[0], checked).Err? ==> Values(ld, lev, line, i, checked) == Err(AddValue(ld, lev, vs[0], checked).msg)
    ensures AddValue(ld, lev, vs[0], checked).Ok? ==>
      Values(ld, lev, line, i, checked) == Values(AddValue(ld, lev, vs[0], checked).value, lev, line, e, checked)
  {
    e := SpacedToken(line, i, vs);
    ValuesUnfold(ld, lev, line, i, i + 1, e, vs[0], checked);
  }

  /** The first value of Spaced(vs) from i is one token, from i + 1 to e,
   *  whose value is vs[0]; the text of the rest begins at e. */
  lemma SpacedToken(line: string, i: nat, vs: seq<nat>) returns (e: nat)
    requires vs != [] && i <= |line| && line[i..] == Spaced(vs)
    ensures i < |line| && i + 1 <= e <= |line| && line[e..] == Spaced(vs[1..])
    ensures BlankEnd(line, i) == i + 1 && TokenEnd(line, i + 1) == e && AllDigits(line, i + 1, e)
    ensures RuleSyntax.Decimal(line[i + 1..e]) == vs[0]
  {
    e := i + 1 + |CanonicalNames.DecimalString(vs[0])|;
    SpacedSplit(line, i, vs);
    NumberAt(line, i, vs[0]);
  }

  /** %d reads back a number written in decimal. */
  lemma ScanDecimal(n: nat)
    ensures ScanInt(CanonicalNames.DecimalString(n)) == Some(n)
  {
    var d := CanonicalNames.DecimalString(n);
    CanonicalNames.DecimalRoundTrip(n);
    assert d[0] != '-' && d[0] != '+';
    assert d[..|d|] == d;
  }

  /** sscanf reads back the value of a header line written as key=n. */
  lemma HeaderRoundTrip(key: string, n: nat)
    requires key != [] && !IsSpace(key[0])
    ensures HeaderValue(key + "=" + CanonicalNames.DecimalString(n), key) == Some(n)
  {
    var d := CanonicalNames.DecimalString(n);
    var line := key + "=" + d;
    assert SkipSpace(line) == line by { assert line[0] == key[0]; }
    assert key <= line;
    var rest := line[|key|..];
    assert rest == "=" + d;
    assert SkipSpace(rest) == rest by { assert rest[0] == '='; }
    assert rest[1..] == d;
    assert SkipSpace(d) == d by { assert '0' <= d[0] <= '9'; }
    ScanDecimal(n);
  }

  /** A line whose text departs from key within it is not that header. */
  lemma HeaderMismatch(line: string, key: string, i: nat)
    requires line != [] && !IsSpace(line[0])
    requires i < |key| && i < |line| && line[i] != key[i]
    ensures HeaderValue(line, key) == None
  {
    assert SkipSpace(line) == line;
  }

  /** A header line sets its value and nothing else. */
  lemma ReadHeader(ld: Loader, line: string, checked: bool)
    requires line != [] && line[0] != '#'
    ensures HeaderValue(line, "num_states").Some? ==> ReadLine(ld, line, checked) == Ok(ld.(states := HeaderValue(line, "num_states").value))
    ensures HeaderValue(line, "num_states").None? && HeaderValue(line, "num_neighbors").Some? ==>
      ReadLine(ld, line, checked) == Ok(ld.(neighbors := HeaderValue(line, "num_neighbors").value))
    ensures HeaderValue(line, "num_states").None? && HeaderValue(line, "num_neighbors").None? && HeaderValue(line, "num_nodes").Some? ==>
      ReadLine(ld, line, checked) == Ok(ld.(nodes := HeaderValue(line, "num_nodes").value))
  {
  }

  /** The three header lines, written as key=n, set their value. */
  lemma ReadStates(ld: Loader, n: nat, checked: bool)
    ensures ReadLine(ld, "num_states=" + CanonicalNames.DecimalString(n), checked) == Ok(ld.(states := n))
  {
    var line := "num_states=" + CanonicalNames.DecimalString(n);
    assert HeaderValue(line, "num_states") == Some(n) by {
      assert line == "num_states" + "=" + CanonicalNames.DecimalString(n);
      HeaderRoundTrip("num_states", n);
    }
    assert line[0] == 'n';
  }

  lemma ReadNeighbors(ld: Loader, n: nat, checked: bool)
    ensures ReadLine(ld, "num_neighbors=" + CanonicalNames.DecimalString(n), checked) == Ok(ld.(neighbors := n))
  {
    var line := "num_neighbors=" + CanonicalNames.DecimalString(n);
    assert line == "num_neighbors" + "=" + CanonicalNames.DecimalString(n);
    HeaderMismatch(line, "num_states", 4);
    HeaderRoundTrip("num_neighbors", n);
    ReadHeader(ld, line, checked);
  }

  lemma ReadNodes(ld: Loader, n: nat, checked: bool)
    ensures ReadLine(ld, "num_nodes=" + CanonicalNames.DecimalString(n), checked) == Ok(ld.(nodes := n))
  {
    var line := "num_nodes=" + CanonicalNames.DecimalString(n);
    assert line == "num_nodes" + "=" + CanonicalNames.DecimalString(n);
    HeaderMismatch(line, "num_states", 4);
    HeaderMismatch(line, "num_neighbors", 5);
    HeaderRoundTrip("num_nodes", n);
    ReadHeader(ld, line, checked);
  }

  /** The loader after a node line whose values are all accepted: the new
   *  node's offset, its values, its level and its width. */
  function AfterNode(ld: Loader, n: NodeSpec): Loader
    requires n.level != 1 ==> forall k | 0 <= k < |n.values| :: n.values[k] <= |ld.noff|
  {
    var start := ld.(lev := n.level, noff := ld.noff + [if n.level == 1 then |ld.datb| else |ld.dat|]);
    var filled := if n.level == 1 then start.(datb := ld.datb + n.values)
                  else start.(dat := ld.dat + Offsets(start.noff, n.values));
    filled.(levels := ld.levels + [n.level], widths := ld.widths + [ld.states])
  }

  /** What a node line does, read from its text: with the basic values set,
   *  a level digit the neighbourhood allows and as many values as states,
   *  each accepted, the line appends the node as AfterNode says. */
  lemma NodeTextLine(ld: Loader, n: NodeSpec, checked: bool)
    requires BasicValues(ld) && 1 <= n.level <= ld.neighbors + 1 && |n.values| == ld.states
    requires forall k | 0 <= k < |n.values| ::
      ValueOk(ld.(lev := n.level, noff := ld.noff + [if n.level == 1 then |ld.datb| else |ld.dat|]), n.level, n.values[k], checked)
    ensures n.level != 1 ==> forall k | 0 <= k < |n.values| :: n.values[k] <= |ld.noff|
    ensures ReadLine(ld, NodeText(n), checked) == Ok(AfterNode(ld, n))
  {
    var line := NodeText(n);
    var start := ld.(lev := n.level, noff := ld.noff + [if n.level == 1 then |ld.datb| else |ld.dat|]);
    assert ReadLine(ld, line, checked) == NodeLine(ld, line, checked) by {
      assert line[0] == RuleTables.Digit(n.level);
      HeaderMismatch(line, "num_states", 0);
      HeaderMismatch(line, "num_neighbors", 0);
      HeaderMismatch(line, "num_nodes", 0);
    }
    var r := AddValues(start, n.level, n.values, checked);
    assert Values(start, n.level, line, 1, checked) == r by {
      assert line[1..] == Spaced(n.values);
      ValuesSpaced(start, n.level, line, 1, n.values, checked);
    }
    assert r.Ok? by { AddValuesOk(start, n.level, n.values, checked); }
    var filled := if n.level == 1 then start.(datb := ld.datb + n.values)
                  else start.(dat := ld.dat + Offsets(start.noff, n.values));
    assert r.value == filled by {
      if n.level == 1 {
        AddValuesLeaf(start, n.values, checked);
      } else {
        AddValuesInner(start, n.level, n.values, checked);
      }
    }
    assert Added(start, filled) == ld.states;
    assert line[0] as int - '0' as int == n.level;
    assert NodeLine(ld, line, checked) == Ok(filled.(levels := ld.levels + [n.level], widths := ld.widths + [ld.states]));
  }

  /** A node line with a value AddValue refuses is an error. */
  lemma NodeTextRejected(ld: Loader, n: NodeSpec, checked: bool, k: int)
    requires 1 <= n.level <= 9 && 0 <= k < |n.values|
    requires !ValueOk(ld.(lev := n.level, noff := ld.noff + [if n.level == 1 then |ld.datb| else |ld.dat|]), n.level, n.values[k], checked)
    ensures ReadLine(ld, NodeText(n), checked).Err?
  {
    var line := NodeText(n);
    var start := ld.(lev := n.level, noff := ld.noff + [if n.level == 1 then |ld.datb| else |ld.dat|]);
    assert ReadLine(ld, line, checked) == NodeLine(ld, line, checked) by {
      assert line[0] == RuleTables.Digit(n.level);
      HeaderMismatch(line, "num_states", 0);
      HeaderMismatch(line, "num_neighbors", 0);
      HeaderMismatch(line, "num_nodes", 0);
    }
    assert Values(start, n.level, line, 1, checked).Err? by {
      assert line[1..] == Spaced(n.values);
      ValuesSpaced(start, n.level, line, 1, n.values, checked);
      AddValuesOk(start, n.level, n.values, checked);
    }
    assert line[0] as int - '0' as int == n.level;
  }

  //
  // Loading well-formed node lines
  //

  /** A value of node j: a state for a leaf, an earlier node one level down
   *  otherwise. */
  predicate ChildOk(nodes: seq<NodeSpec>, j: int, v: nat, states: int)
    requires 0 <= j < |nodes|
  {
    if nodes[j].level == 1 then v < states else v < j && nodes[v].level == nodes[j].level - 1
  }

  /** Node j has a level the neighbourhood allows and num_states values. */
  predicate NodeOk(nodes: seq<NodeSpec>, j: int, states: int, neighbors: int)
    requires 0 <= j < |nodes|
  {
    && 1 <= nodes[j].level <= neighbors + 1
    && |nodes[j].values| == states
    && forall k | 0 <= k < |nodes[j].values| :: ChildOk(nodes, j, nodes[j].values[k], states)
  }

  predicate Layered(nodes: seq<NodeSpec>, states: int, neighbors: int) {
    forall j | 0 <= j < |nodes| :: NodeOk(nodes, j, states, neighbors)
  }

  /** Node n is stored at offset o: its states in datb, or the offsets of
   *  the nodes it names in dat. */
  ghost predicate Stored(ld: Loader, n: NodeSpec, o: int) {
    && 0 <= o
    && (n.level == 1 ==>
          && o + |n.values| <= |ld.datb|
          && forall s | 0 <= s < |n.values| :: ld.datb[o + s] == n.values[s])
    && (n.level != 1 ==>
          && o + |n.values| <= |ld.dat|
          && forall s | 0 <= s < |n.values| :: n.values[s] < |ld.noff| && ld.dat[o + s] == ld.noff[n.values[s]])
  }

  /** The loader after the node lines of done, with the basic values set. */
  ghost predicate Tracks(ld: Loader, done: seq<NodeSpec>) {
    && BasicValues(ld)
    && |ld.levels| == |done| && |ld.widths| == |done| && |ld.noff| == |done|
    && |ld.dat| + |ld.datb| == |done| * ld.states
    && (|done| > 0 ==> ld.lev == done[|done| - 1].level)
    && forall i | 0 <= i < |done| :: ld.levels[i] == done[i].level && ld.widths[i] == ld.states && Stored(ld, done[i], ld.noff[i])
  }

  /** Storing survives appending to dat, datb and noff. */
  lemma StoredGrow(ld: Loader, ld2: Loader, n: NodeSpec, o: int)
    requires Stored(ld, n, o) && ld.dat <= ld2.dat && ld.datb <= ld2.datb && ld.noff <= ld2.noff
    ensures Stored(ld2, n, o)
  {
  }

  /** One more well-formed node line is read as AfterNode says. */
  lemma ReadNodeOk(ld: Loader, done: seq<NodeSpec>, n: NodeSpec)
    requires Tracks(ld, done) && NodeOk(done + [n], |done|, ld.states, ld.neighbors)
    ensures n.level != 1 ==> forall k | 0 <= k < |n.values| :: n.values[k] <= |ld.noff|
    ensures ReadLine(ld, NodeText(n), true) == Ok(AfterNode(ld, n))
  {
    var all := done + [n];
    var start := ld.(lev := n.level, noff := ld.noff + [if n.level == 1 then |ld.datb| else |ld.dat|]);
    forall k | 0 <= k < |n.values| ensures ValueOk(start, n.level, n.values[k], true) {
      assert ChildOk(all, |done|, n.values[k], ld.states);
      if n.level != 1 {
        assert all[n.values[k]] == done[n.values[k]];
      }
    }
    NodeTextLine(ld, n, true);
  }

  /** The node a well-formed line appends is stored at its offset. */
  lemma NewNodeStored(ld: Loader, done: seq<NodeSpec>, n: NodeSpec)
    requires Tracks(ld, done) && NodeOk(done + [n], |done|, ld.states, ld.neighbors)
    requires n.level != 1 ==> forall k | 0 <= k < |n.values| :: n.values[k] <= |ld.noff|
    ensures Stored(AfterNode(ld, n), n, AfterNode(ld, n).noff[|done|])
  {
    if n.level != 1 {
      forall k | 0 <= k < |n.values| ensures n.values[k] < |done| {
        assert ChildOk(done + [n], |done|, n.values[k], ld.states);
      }
    }
  }

  lemma MulSucc(a: int, b: int)
    ensures (a + 1) * b == a * b + b
  {
  }

  /** After a well-formed node line the loader tracks it too. */
  lemma AfterNodeTracks(ld: Loader, done: seq<NodeSpec>, n: NodeSpec)
    requires Tracks(ld, done) && NodeOk(done + [n], |done|, ld.states, ld.neighbors)
    requires n.level != 1 ==> forall k | 0 <= k < |n.values| :: n.values[k] <= |ld.noff|
    ensures Tracks(AfterNode(ld, n), done + [n])
  {
    var all := done + [n];
    var next := AfterNode(ld, n);
    NewNodeStored(ld, done, n);
    assert |next.dat| + |next.datb| == |ld.dat| + |ld.datb| + ld.states;
    MulSucc(|done|, ld.states);
    forall i | 0 <= i < |all| ensures next.levels[i] == all[i].level && next.widths[i] == next.states && Stored(next, all[i], next.noff[i]) {
      if i < |done| {
        StoredGrow(ld, next, done[i], ld.noff[i]);
      }
    }
  }

  /** Well-formed node lines, read in order, are all accepted; the loader
   *  then tracks them all. */
  lemma {:induction false} ReadLayered(ld: Loader, done: seq<NodeSpec>, nodes: seq<NodeSpec>, lines: seq<string>)
    requires Tracks(ld, done) && Layered(done + nodes, ld.states, ld.neighbors)
    requires |lines| == |nodes| && forall j | 0 <= j < |nodes| :: 1 <= nodes[j].level <= 9 && lines[j] == NodeText(nodes[j])
    ensures ReadLines(ld, lines, true).Ok? && Tracks(ReadLines(ld, lines, true).value, done + nodes)
    ensures ReadLines(ld, lines, true).value.states == ld.states
    ensures ReadLines(ld, lines, true).value.neighbors == ld.neighbors
    ensures ReadLines(ld, lines, true).value.nodes == ld.nodes
    decreases |nodes|
  {
    if nodes == [] {
      assert done + nodes == done;
    } else {
      var n := nodes[0];
      assert (done + [n]) + nodes[1..] == done + nodes;
      assert NodeOk(done + [n], |done|, ld.states, ld.neighbors) by {
        assert NodeOk(done + nodes, |done|, ld.states, ld.neighbors);
        assert forall v | 0 <= v <= |done| :: (done + [n])[v] == (done + nodes)[v];
      }
      ReadNodeOk(ld, done, n);
      AfterNodeTracks(ld, done, n);
      ReadLayered(AfterNode(ld, n), done + [n], nodes[1..], lines[1..]);
    }
  }

  /** The state node j of nodes gives for path: one child per state down to
   *  a leaf, whose entry for the last state is the result. */
  function Follow(nodes: seq<NodeSpec>, j: int, path: seq<int>): int
    requires 0 <= j < |nodes|
    decreases |path|
  {
    var n := nodes[j];
    if path == [] || !(0 <= path[0] < |n.values|) then 0
    else if n.level == 1 || |path| == 1 then n.values[path[0]]
    else if n.values[path[0]] < |nodes| then Follow(nodes, n.values[path[0]], path[1..])
    else 0
  }

  /** Walking the arrays the loader built from well-formed node lines is
   *  following the node lines themselves. */
  lemma {:induction false} WalkFollow(ld: Loader, nodes: seq<NodeSpec>, j: int, path: seq<int>)
    requires Tracks(ld, nodes) && Layered(nodes, ld.states, ld.neighbors) && 0 <= j < |nodes|
    requires |path| == nodes[j].level && States(path, ld.states)
    requires Reaches(ld.dat, ld.datb, ld.states, ld.noff[j], |path|)
    ensures Walk(ld.dat, ld.datb, ld.states, ld.noff[j], path) == Follow(nodes, j, path)
    decreases |path|
  {
    var n := nodes[j];
    assert NodeOk(nodes, j, ld.states, ld.neighbors);
    assert Stored(ld, n, ld.noff[j]);
    if |path| > 1 {
      var v := n.values[path[0]];
      assert ChildOk(nodes, j, v, ld.states);
      assert ld.dat[ld.noff[j] + path[0]] == ld.noff[v];
      assert States(path[1..], ld.states) by {
        forall i | 0 <= i < |path| - 1 ensures 0 <= path[1..][i] < ld.states { assert path[1..][i] == path[i + 1]; }
      }
      WalkFollow(ld, nodes, v, path[1..]);
    }
  }

  /** The order slowcalc reads the neighbourhood in (ruletreealgo.cpp:237-240). */
  function Neighbourhood(neighbors: int, nw: int, n: int, ne: int, w: int, c: int, e: int, sw: int, s: int, se: int): (p: seq<int>)
    ensures |p| == (if neighbors == 4 then 5 else 9) && p[|p| - 1] == c
  {
    if neighbors == 4 then [n, w, e, s, c] else [nw, ne, sw, se, n, w, e, s, c]
  }

  /** What setrule installs: the tree and the rule name getrule reports. */
  datatype Loaded = Loaded(tree: Tree, rule: string)

  /** ruletreealgo::setrule (ruletreealgo.cpp:67-208) with the corrected
   *  checks.  file stands for the lines of rule.tree in the user's or
   *  Golly's rules folder, None when neither exists; grid is what
   *  setgridsize reports for the text after a colon. */
  function Outcome(s: string, file: Option<seq<string>>, grid: Result<string>, maxRuleSize: int): Result<Loaded> {
    var name := RuleName(s);
    var builtIn := IsDefaultRule(name);
    if !builtIn && |name| >= maxRuleSize then Err("Rule length too long")
    else if !builtIn && file.None? then Err("File not found")
    else if ':' in s && grid.Err? then Err(grid.msg)
    else
      match Load(if builtIn then DefaultRuleData else file.value)
      case Err(m) => Err(m)
      case Ok(t) => Ok(Loaded(t, name + GridSuffix(s, grid)))
  }
}
