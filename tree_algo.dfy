/** ruletreealgo as an object: setrule reads the lines of a .tree file (or
 *  defaultRuleData) into growing vectors, checks them, then replaces the
 *  arrays a and b and the header fields together; slowcalc walks them.
 *  Each method is proved against the functions of RuleTrees: the loops
 *  compute ReadLines, Values and NodeLine, and SetRule the result of
 *  Outcome.  The vectors dat, datb and noff are the seq fields of the
 *  loader value the loops update.
 */
module RuleTreeAlgo {
  import opened Outcomes
  import opened RuleTrees
  import RuleSyntax

  /** A walk of at least two steps from node goes to the child of its first
   *  state, which reaches one level less. */
  lemma WalkStep(a: seq<int>, b: seq<int>, w: int, node: int, path: seq<int>)
    requires |path| > 1 && States(path, w) && Reaches(a, b, w, node, |path|)
    ensures 0 <= node + path[0] < |a|
    ensures States(path[1..], w) && Reaches(a, b, w, a[node + path[0]], |path| - 1)
    ensures Walk(a, b, w, node, path) == Walk(a, b, w, a[node + path[0]], path[1..])
  {
    assert States(path[1..], w) by {
      forall i | 0 <= i < |path| - 1 ensures 0 <= path[1..][i] < w { assert path[1..][i] == path[i + 1]; }
    }
  }

  /** The same, for the walk from step k of path. */
  lemma WalkAt(a: seq<int>, b: seq<int>, w: int, node: int, path: seq<int>, k: int)
    requires 0 <= k < |path| - 1 && States(path[k..], w) && Reaches(a, b, w, node, |path| - k)
    ensures 0 <= node + path[k] < |a|
    ensures States(path[k + 1..], w) && Reaches(a, b, w, a[node + path[k]], |path| - k - 1)
    ensures Walk(a, b, w, node, path[k..]) == Walk(a, b, w, a[node + path[k]], path[k + 1..])
  {
    var p := path[k..];
    assert p[1..] == path[k + 1..] && p[0] == path[k] && |p| == |path| - k;
    WalkStep(a, b, w, node, p);
  }

  /** The last step of a walk reads the leaf entry of its state. */
  lemma WalkLast(a: seq<int>, b: seq<int>, w: int, node: int, path: seq<int>)
    requires |path| == 1 && States(path, w) && Reaches(a, b, w, node, 1)
    ensures 0 <= node + path[0] < |b|
    ensures Walk(a, b, w, node, path) == b[node + path[0]]
  {
  }

  /** The walk of four neighbours and the cell, as slowcalc chains it. */
  lemma VonNeumannWalk(A: seq<int>, B: seq<int>, W: int, base: int, n: int, w: int, e: int, s: int, c: int)
    requires States([n, w, e, s, c], W) && Reaches(A, B, W, base, 5)
    ensures 0 <= base + n < |A| && 0 <= A[base + n] + w < |A| && 0 <= A[A[base + n] + w] + e < |A|
    ensures 0 <= A[A[A[base + n] + w] + e] + s < |A|
    ensures 0 <= A[A[A[A[base + n] + w] + e] + s] + c < |B|
    ensures Walk(A, B, W, base, [n, w, e, s, c]) == B[A[A[A[A[base + n] + w] + e] + s] + c]
  {
    var path := [n, w, e, s, c];
    assert path[0..] == path;
    WalkAt(A, B, W, base, path, 0);
    var x1 := A[base + n];
    WalkAt(A, B, W, x1, path, 1);
    var x2 := A[x1 + w];
    WalkAt(A, B, W, x2, path, 2);
    var x3 := A[x2 + e];
    WalkAt(A, B, W, x3, path, 3);
    var x4 := A[x3 + s];
    WalkLast(A, B, W, x4, path[4..]);
  }

  /** The first four steps of a walk of nine. */
  lemma WalkFour(A: seq<int>, B: seq<int>, W: int, base: int, path: seq<int>)
    requires |path| == 9 && States(path, W) && Reaches(A, B, W, base, 9)
    ensures 0 <= base + path[0] < |A| && 0 <= A[base + path[0]] + path[1] < |A|
    ensures 0 <= A[A[base + path[0]] + path[1]] + path[2] < |A|
    ensures 0 <= A[A[A[base + path[0]] + path[1]] + path[2]] + path[3] < |A|
    ensures var x4 := A[A[A[A[base + path[0]] + path[1]] + path[2]] + path[3]];
      States(path[4..], W) && Reaches(A, B, W, x4, 5) && Walk(A, B, W, base, path) == Walk(A, B, W, x4, path[4..])
  {
    assert path[0..] == path;
    WalkAt(A, B, W, base, path, 0);
    var x1 := A[base + path[0]];
    WalkAt(A, B, W, x1, path, 1);
    var x2 := A[x1 + path[1]];
    WalkAt(A, B, W, x2, path, 2);
    var x3 := A[x2 + path[2]];
    WalkAt(A, B, W, x3, path, 3);
  }

  /** The walk of eight neighbours and the cell, as slowcalc chains it. */
  lemma MooreWalk(A: seq<int>, B: seq<int>, W: int, base: int, nw: int, ne: int, sw: int, se: int, n: int, w: int, e: int, s: int, c: int)
    requires States([nw, ne, sw, se, n, w, e, s, c], W) && Reaches(A, B, W, base, 9)
    ensures 0 <= base + nw < |A| && 0 <= A[base + nw] + ne < |A| && 0 <= A[A[base + nw] + ne] + sw < |A|
    ensures 0 <= A[A[A[base + nw] + ne] + sw] + se < |A|
    ensures 0 <= A[A[A[A[base + nw] + ne] + sw] + se] + n < |A|
    ensures 0 <= A[A[A[A[A[base + nw] + ne] + sw] + se] + n] + w < |A|
    ensures 0 <= A[A[A[A[A[A[base + nw] + ne] + sw] + se] + n] + w] + e < |A|
    ensures 0 <= A[A[A[A[A[A[A[base + nw] + ne] + sw] + se] + n] + w] + e] + s < |A|
    ensures 0 <= A[A[A[A[A[A[A[A[base + nw] + ne] + sw] + se] + n] + w] + e] + s] + c < |B|
    ensures Walk(A, B, W, base, [nw, ne, sw, se, n, w, e, s, c]) ==
      B[A[A[A[A[A[A[A[A[base + nw] + ne] + sw] + se] + n] + w] + e] + s] + c]
  {
    var path := [nw, ne, sw, se, n, w, e, s, c];
    WalkFour(A, B, W, base, path);
    var x4 := A[A[A[A[base + nw] + ne] + sw] + se];
    assert path[4..] == [n, w, e, s, c];
    VonNeumannWalk(A, B, W, x4, n, w, e, s, c);
  }

  class RuleTree {
    var a: array<int>
    var b: array<int>
    var base: int
    var numNeighbors: int
    var numStates: int
    var numNodes: int
    var maxCellStates: int
    var rule: string

    /** The installed tree. */
    function Current(): Tree
      reads this, a, b
    {
      Tree(numStates, numNeighbors, numNodes, a[..], b[..], base)
    }

    /** Before the first successful setrule there are no states; after it,
     *  the installed tree is one slowcalc can evaluate. */
    ghost predicate Valid()
      reads this, a, b
    {
      numStates == 0 || Evaluable(Current())
    }

    /** ruletreealgo::ruletreealgo (ruletreealgo.cpp:218-222): no arrays,
     *  base, the header values and the rule name cleared. */
    constructor ()
      ensures Valid()
      ensures a.Length == 0 && b.Length == 0 && base == 0
      ensures numNeighbors == 0 && numStates == 0 && numNodes == 0 && rule == ""
    {
      a := new int[0];
      b := new int[0];
      base := 0;
      numNeighbors := 0;
      numStates := 0;
      numNodes := 0;
      rule := "";
    }

    /** NumCellStates (ruletreealgo.cpp:38-40): num_states, which is 0
     *  before the first rule and between 2 and 256 after it. */
    function NumCellStates(): (r: int)
      requires Valid()
      reads this, a, b
      ensures r == numStates && (r == 0 || 2 <= r <= 256)
    {
      numStates
    }

    /** ruletreealgo::setrule (ruletreealgo.cpp:67-208) with the corrected
     *  final checks.  file is the lines of rule.tree (None when it cannot
     *  be opened) and grid what setgridsize reports for the text after a
     *  colon.  On an error none of the RuleTree's own fields change (the
     *  grid collaborator's state is outside the model); otherwise the tree
     *  Outcome describes is installed in fresh arrays. */
    method SetRule(s: string, file: Option<seq<string>>, grid: Result<string>, maxRuleSize: int) returns (err: Option<string>)
      requires Valid()
      modifies this
      ensures Valid()
      ensures Outcome(s, file, grid, maxRuleSize).Err? ==>
        err == Some(Outcome(s, file, grid, maxRuleSize).msg) && unchanged(this)
      ensures Outcome(s, file, grid, maxRuleSize).Ok? ==>
        && err == None && fresh(a) && fresh(b)
        && Current() == Outcome(s, file, grid, maxRuleSize).value.tree
        && rule == Outcome(s, file, grid, maxRuleSize).value.rule
        && maxCellStates == numStates
    {
      var name := RuleName(s);
      var builtIn := IsDefaultRule(name);
      if !builtIn && |name| >= maxRuleSize {
        return Some("Rule length too long");
      }
      if !builtIn && file.None? {
        return Some("File not found");
      }
      if ':' in s && grid.Err? {
        return Some(grid.msg);
      }
      var lines := if builtIn then DefaultRuleData else file.value;
      err := LoadTree(lines, name + GridSuffix(s, grid));
    }

    /** The loop over the lines and what follows it (ruletreealgo.cpp:106-207). */
    method LoadTree(lines: seq<string>, name: string) returns (err: Option<string>)
      requires Valid()
      modifies this
      ensures Valid()
      ensures Load(lines).Err? ==> err == Some(Load(lines).msg) && unchanged(this)
      ensures Load(lines).Ok? ==>
        && err == None && fresh(a) && fresh(b)
        && Current() == Load(lines).value && rule == name && maxCellStates == numStates
    {
      var r := ReadAndCheck(lines);
      if r.Err? {
        return Some(r.msg);
      }
      LoadEvaluable(lines);
      Install(r.value, name);
      err := None;
    }

    /** The lines, then the checks after the last one
     *  (ruletreealgo.cpp:106-174), with the corrected checks of Finish. */
    static method ReadAndCheck(lines: seq<string>) returns (r: Result<Loader>)
      ensures r.Err? ==> Load(lines) == Err(r.msg)
      ensures r.Ok? ==> |r.value.noff| > 0 && Load(lines) == Ok(TreeOf(r.value))
    {
      r := ReadAll(lines);
      if r.Err? {
        return;
      }
      var ld := r.value;
      if |ld.dat| + |ld.datb| != ld.nodes * ld.states {
        return Err("Bad count of values in ruletree file");
      }
      if ld.lev != ld.neighbors + 1 {
        return Err("Bad last node (wrong level)");
      }
      if !BasicValues(ld) {
        return Err("Bad basic values");
      }
      if |ld.noff| == 0 || |ld.widths| != |ld.noff| || ld.widths[|ld.noff| - 1] != ld.states {
        return Err("Bad last node (wrong number of values)");
      }
    }

    /** The installation (ruletreealgo.cpp:175-193): dat and datb copied
     *  into fresh arrays, which replace a and b together with the header
     *  values; base is the offset of the last node. */
    method Install(ld: Loader, name: string)
      requires |ld.noff| > 0 && Evaluable(TreeOf(ld))
      modifies this
      ensures Valid() && fresh(a) && fresh(b)
      ensures Current() == TreeOf(ld) && rule == name && maxCellStates == numStates
    {
      var na := new int[|ld.dat|];
      for i := 0 to |ld.dat|
        invariant na[..i] == ld.dat[..i]
      {
        na[i] := ld.dat[i];
      }
      assert na[..] == ld.dat[..|ld.dat|] == ld.dat;
      var nb := new int[|ld.datb|];
      for i := 0 to |ld.datb|
        invariant nb[..i] == ld.datb[..i]
        invariant na[..] == ld.dat
      {
        nb[i] := ld.datb[i];
      }
      assert nb[..] == ld.datb[..|ld.datb|] == ld.datb;
      numNodes := ld.nodes;
      numStates := ld.states;
      numNeighbors := ld.neighbors;
      a := na;
      b := nb;
      base := ld.noff[|ld.noff| - 1];
      maxCellStates := numStates;
      rule := name;
    }

    /** The lines in order, up to the first error (ruletreealgo.cpp:112-168). */
    static method ReadAll(lines: seq<string>) returns (r: Result<Loader>)
      ensures r == ReadLines(Start, lines, true)
    {
      var ld := Start;
      var i := 0;
      while i < |lines|
        invariant 0 <= i <= |lines|
        invariant ReadLines(ld, lines[i..], true) == ReadLines(Start, lines, true)
      {
        assert lines[i..][0] == lines[i] && lines[i..][1..] == lines[i + 1..];
        var next := ReadOne(ld, lines[i]);
        if next.Err? {
          return Err(next.msg);
        }
        ld := next.value;
        i := i + 1;
      }
      r := Ok(ld);
    }

    /** One line: a comment or an empty line, a header, or a node
     *  (ruletreealgo.cpp:122-167). */
    static method ReadOne(ld: Loader, line: string) returns (r: Result<Loader>)
      ensures r == ReadLine(ld, line, true)
    {
      if line == [] || line[0] == '#' {
        return Ok(ld);
      }
      var states := HeaderValue(line, "num_states");
      if states.Some? {
        return Ok(ld.(states := states.value));
      }
      var neighbors := HeaderValue(line, "num_neighbors");
      if neighbors.Some? {
        return Ok(ld.(neighbors := neighbors.value));
      }
      var nodes := HeaderValue(line, "num_nodes");
      if nodes.Some? {
        return Ok(ld.(nodes := nodes.value));
      }
      r := ReadNode(ld, line);
    }

    /** A node line (ruletreealgo.cpp:126-166). */
    static method ReadNode(ld: Loader, line: string) returns (r: Result<Loader>)
      requires line != []
      ensures r == NodeLine(ld, line, true)
    {
      if !BasicValues(ld) {
        return Err("Bad basic values");
      }
      if line[0] < '1' || line[0] as int > '0' as int + 1 + ld.neighbors {
        return Err("Bad line in ruletree file 1");
      }
      var lev := line[0] as int - '0' as int;
      var start := ld.(lev := lev, noff := ld.noff + [if lev == 1 then |ld.datb| else |ld.dat|]);
      var done := ReadValues(start, lev, line);
      if done.Err? {
        return Err(done.msg);
      }
      var vcnt := |done.value.dat| + |done.value.datb| - (|start.dat| + |start.datb|);
      if vcnt != ld.states {
        return Err("Bad number of values on ruletree line");
      }
      r := Ok(done.value.(levels := done.value.levels + [lev], widths := done.value.widths + [ld.states]));
    }

    /** The values of a node line after its level digit
     *  (ruletreealgo.cpp:141-163): skip blanks, accumulate a token of
     *  digits into v, then push a state or a node offset. */
    static method ReadValues(ld: Loader, lev: int, line: string) returns (r: Result<Loader>)
      requires line != []
      ensures r == Values(ld, lev, line, 1, true)
    {
      var cur := ld;
      var p := 1;
      while p < |line|
        invariant 1 <= p <= |line|
        invariant Values(cur, lev, line, p, true) == Values(ld, lev, line, 1, true)
        decreases |line| - p
      {
        var q := SkipBlanks(line, p);
        var v, e := ReadToken(line, q);
        if v.None? {
          return Err("Bad line in ruletree file 2");
        }
        if lev == 1 {
          if v.value < 0 || v.value >= cur.states {
            return Err("Bad state value in ruletree file");
          }
          cur := cur.(datb := cur.datb + [v.value]);
        } else {
          if v.value < 0 || v.value >= |cur.noff| {
            return Err("Bad node value in ruletree file");
          }
          if !(v.value < |cur.levels| && v.value < |cur.widths| && cur.levels[v.value] == lev - 1 && cur.widths[v.value] == cur.states) {
            return Err("Bad node level in ruletree file");
          }
          cur := cur.(dat := cur.dat + [cur.noff[v.value]]);
        }
        p := e;
      }
      r := Ok(cur);
    }

    /** The blanks before a value (ruletreealgo.cpp:142-143). */
    static method SkipBlanks(line: string, p: nat) returns (q: nat)
      requires p <= |line|
      ensures q == BlankEnd(line, p)
    {
      q := p;
      while q < |line| && line[q] <= ' '
        invariant p <= q <= |line| && BlankEnd(line, q) == BlankEnd(line, p)
      {
        q := q + 1;
      }
    }

    /** A token of digits accumulated into v (ruletreealgo.cpp:144-150);
     *  None at the first character that is not a digit. */
    static method ReadToken(line: string, q: nat) returns (v: Option<int>, e: nat)
      requires q <= |line|
      ensures v.Some? <==> AllDigits(line, q, TokenEnd(line, q))
      ensures v.Some? ==> e == TokenEnd(line, q) && v.value == RuleSyntax.Decimal(line[q..e])
    {
      var n := 0;
      e := q;
      while e < |line| && line[e] > ' '
        invariant q <= e <= |line| && TokenEnd(line, e) == TokenEnd(line, q)
        invariant AllDigits(line, q, e) && n == RuleSyntax.Decimal(line[q..e])
      {
        if line[e] < '0' || line[e] > '9' {
          return None, e;
        }
        DecimalStep(line, q, e);
        n := n * 10 + (line[e] as int - '0' as int);
        e := e + 1;
      }
      v := Some(n);
    }

    /** One more digit: the value of line[q..e + 1] is ten times that of
     *  line[q..e] plus the digit. */
    static lemma DecimalStep(line: string, q: nat, e: nat)
      requires q <= e < |line| && AllDigits(line, q, e) && '0' <= line[e] <= '9'
      ensures AllDigits(line, q, e + 1)
      ensures RuleSyntax.Decimal(line[q..e + 1]) == 10 * RuleSyntax.Decimal(line[q..e]) + (line[e] as int - '0' as int)
    {
      var s := line[q..e + 1];
      assert s[..|s| - 1] == line[q..e];
      assert s[|s| - 1] == line[e];
    }

    /** slowcalc (ruletreealgo.cpp:235-241): num_neighbors lookups in a and
     *  one in b, in the order n, w, e, s, c for four neighbours and nw, ne,
     *  sw, se, n, w, e, s, c for eight. */
    method SlowCalc(nw: int, n: int, ne: int, w: int, c: int, e: int, sw: int, s: int, se: int) returns (r: int)
      requires Valid() && numStates != 0
      requires 0 <= nw < numStates && 0 <= n < numStates && 0 <= ne < numStates && 0 <= w < numStates && 0 <= c < numStates
      requires 0 <= e < numStates && 0 <= sw < numStates && 0 <= s < numStates && 0 <= se < numStates
      ensures
        var path := Neighbourhood(numNeighbors, nw, n, ne, w, c, e, sw, s, se);
        && States(path, numStates) && Reaches(a[..], b[..], numStates, base, |path|)
        && r == Walk(a[..], b[..], numStates, base, path)
      ensures 0 <= r < numStates
    {
      ghost var A, B, W := a[..], b[..], numStates;
      if numNeighbors == 4 {
        VonNeumannWalk(A, B, W, base, n, w, e, s, c);
        r := b[a[a[a[a[base + n] + w] + e] + s] + c];
      } else {
        MooreWalk(A, B, W, base, nw, ne, sw, se, n, w, e, s, c);
        r := b[a[a[a[a[a[a[a[a[base + nw] + ne] + sw] + se] + n] + w] + e] + s] + c];
      }
    }
  }
}
