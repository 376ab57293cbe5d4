/** Two inputs on which the final checks of ruletreealgo::setrule, as
 *  written, install a tree that slowcalc cannot evaluate, and the corrected
 *  loader (RuleTrees.Load) refusing them.
 *
 *  LevelFile: node 3 names itself.  Nothing checks that a node only names
 *  complete nodes one level down, so the tree it builds sends every walk
 *  from base to offset 4 and then into b, which holds only two states.
 *
 *  EmptyFile: no node line at all.  999 neighbours and 0 nodes satisfy
 *  both final checks (0 values, last level 1000), and base is then read
 *  from the last entry of an empty noff.
 */
module TreeFindings {
  import opened Outcomes
  import opened RuleTrees
  import CanonicalNames

  const LevelFile: seq<string> := [
    "num_states=2", "num_neighbors=4", "num_nodes=5",
    "1 0 0", "2 0 0", "3 1 1", "4 3 3", "5 3 3"]

  const EmptyFile: seq<string> := ["num_neighbors=999", "num_nodes=0"]

  //
  // The header lines
  //

  lemma TwoStates(ld: Loader, checked: bool)
    ensures ReadLine(ld, "num_states=2", checked) == Ok(ld.(states := 2))
  {
    assert "num_states=2" == "num_states=" + CanonicalNames.DecimalString(2);
    ReadStates(ld, 2, checked);
  }

  lemma FourNeighbors(ld: Loader, checked: bool)
    ensures ReadLine(ld, "num_neighbors=4", checked) == Ok(ld.(neighbors := 4))
  {
    assert "num_neighbors=4" == "num_neighbors=" + CanonicalNames.DecimalString(4);
    ReadNeighbors(ld, 4, checked);
  }

  lemma FiveNodes(ld: Loader, checked: bool)
    ensures ReadLine(ld, "num_nodes=5", checked) == Ok(ld.(nodes := 5))
  {
    assert "num_nodes=5" == "num_nodes=" + CanonicalNames.DecimalString(5);
    ReadNodes(ld, 5, checked);
  }

  lemma ManyNeighbors(ld: Loader, checked: bool)
    ensures ReadLine(ld, "num_neighbors=999", checked) == Ok(ld.(neighbors := 999))
  {
    assert CanonicalNames.DecimalString(999) == "999" by {
      assert CanonicalNames.DecimalString(9) == "9";
      assert CanonicalNames.DecimalString(99) == "99";
    }
    assert "num_neighbors=999" == "num_neighbors=" + CanonicalNames.DecimalString(999);
    ReadNeighbors(ld, 999, checked);
  }

  lemma NoNodes(ld: Loader, checked: bool)
    ensures ReadLine(ld, "num_nodes=0", checked) == Ok(ld.(nodes := 0))
  {
    assert "num_nodes=0" == "num_nodes=" + CanonicalNames.DecimalString(0);
    ReadNodes(ld, 0, checked);
  }

  //
  // The loader after each line of LevelFile
  //

  const K3 := Loader(2, 4, 5, [], [], [], [], [], 1000)
  const K4 := Loader(2, 4, 5, [], [0, 0], [0], [1], [2], 1)
  const K5 := Loader(2, 4, 5, [0, 0], [0, 0], [0, 0], [1, 2], [2, 2], 2)
  const K6 := Loader(2, 4, 5, [0, 0, 0, 0], [0, 0], [0, 0, 2], [1, 2, 3], [2, 2, 2], 3)
  const K7 := Loader(2, 4, 5, [0, 0, 0, 0, 4, 4], [0, 0], [0, 0, 2, 4], [1, 2, 3, 4], [2, 2, 2, 2], 4)
  const K8 := Loader(2, 4, 5, [0, 0, 0, 0, 4, 4, 4, 4], [0, 0], [0, 0, 2, 4, 6], [1, 2, 3, 4, 5], [2, 2, 2, 2, 2], 5)

  lemma HeadersOf(d: seq<string>, checked: bool)
    requires |d| >= 3 && d[0] == "num_states=2" && d[1] == "num_neighbors=4" && d[2] == "num_nodes=5"
    ensures ReadLines(Start, d, checked) == ReadLines(K3, d[3..], checked)
  {
    var ld1 := Start.(states := 2);
    var ld2 := ld1.(neighbors := 4);
    assert ReadLines(Start, d, checked) == ReadLines(ld1, d[1..], checked) by {
      TwoStates(Start, checked);
    }
    assert ReadLines(ld1, d[1..], checked) == ReadLines(ld2, d[2..], checked) by {
      FourNeighbors(ld1, checked);
      assert d[1..][0] == d[1] && d[1..][1..] == d[2..];
    }
    assert ReadLines(ld2, d[2..], checked) == ReadLines(K3, d[3..], checked) by {
      FiveNodes(ld2, checked);
      assert d[2..][0] == d[2] && d[2..][1..] == d[3..];
    }
  }

  lemma Headers(checked: bool)
    ensures ReadLines(Start, LevelFile, checked) == ReadLines(K3, LevelFile[3..], checked)
  {
    assert LevelFile[0] == "num_states=2" && LevelFile[1] == "num_neighbors=4" && LevelFile[2] == "num_nodes=5";
    HeadersOf(LevelFile, checked);
  }

  lemma Leaf(checked: bool)
    ensures ReadLine(K3, "1 0 0", checked) == Ok(K4)
  {
    var n := NodeSpec(1, [0, 0]);
    assert "1 0 0" == NodeText(n) by { assert CanonicalNames.DecimalString(0) == "0"; }
    assert ReadLine(K3, NodeText(n), checked) == Ok(AfterNode(K3, n)) by {
      NodeTextLine(K3, n, checked);
    }
    assert AfterNode(K3, n) == K4;
  }

  lemma Level2(checked: bool)
    ensures ReadLine(K4, "2 0 0", checked) == Ok(K5)
  {
    var n := NodeSpec(2, [0, 0]);
    assert "2 0 0" == NodeText(n) by { assert CanonicalNames.DecimalString(0) == "0"; }
    assert ReadLine(K4, NodeText(n), checked) == Ok(AfterNode(K4, n)) by {
      var start := K4.(lev := 2, noff := [0, 0]);
      assert ValueOk(start, 2, 0, checked);
      NodeTextLine(K4, n, checked);
    }
    assert AfterNode(K4, n) == K5 by {
      assert Offsets([0, 0], [0, 0]) == [0, 0];
    }
  }

  lemma Level3(checked: bool)
    ensures ReadLine(K5, "3 1 1", checked) == Ok(K6)
  {
    var n := NodeSpec(3, [1, 1]);
    assert "3 1 1" == NodeText(n) by { assert CanonicalNames.DecimalString(1) == "1"; }
    assert ReadLine(K5, NodeText(n), checked) == Ok(AfterNode(K5, n)) by {
      var start := K5.(lev := 3, noff := [0, 0, 2]);
      assert ValueOk(start, 3, 1, checked);
      NodeTextLine(K5, n, checked);
    }
    assert AfterNode(K5, n) == K6 by {
      assert Offsets([0, 0, 2], [1, 1]) == [0, 0];
    }
  }

  /** Node 3 names itself: accepted as written, since its offset is pushed
   *  before its values are read. */
  lemma SelfNamed()
    ensures ReadLine(K6, "4 3 3", false) == Ok(K7)
  {
    var n := NodeSpec(4, [3, 3]);
    assert "4 3 3" == NodeText(n) by { assert CanonicalNames.DecimalString(3) == "3"; }
    assert ReadLine(K6, NodeText(n), false) == Ok(AfterNode(K6, n)) by {
      var start := K6.(lev := 4, noff := [0, 0, 2, 4]);
      assert ValueOk(start, 4, 3, false);
      NodeTextLine(K6, n, false);
    }
    assert AfterNode(K6, n) == K7 by {
      assert Offsets([0, 0, 2, 4], [3, 3]) == [4, 4];
    }
  }

  /** The checked loader refuses it: node 3 is not a complete node yet. */
  lemma SelfNamedRejected()
    ensures ReadLine(K6, "4 3 3", true).Err?
  {
    var n := NodeSpec(4, [3, 3]);
    assert "4 3 3" == NodeText(n) by { assert CanonicalNames.DecimalString(3) == "3"; }
    NodeTextRejected(K6, n, true, 0);
  }

  lemma Top()
    ensures ReadLine(K7, "5 3 3", false) == Ok(K8)
  {
    var n := NodeSpec(5, [3, 3]);
    assert "5 3 3" == NodeText(n) by { assert CanonicalNames.DecimalString(3) == "3"; }
    assert ReadLine(K7, NodeText(n), false) == Ok(AfterNode(K7, n)) by {
      var start := K7.(lev := 5, noff := [0, 0, 2, 4, 6]);
      assert ValueOk(start, 5, 3, false);
      NodeTextLine(K7, n, false);
    }
    assert AfterNode(K7, n) == K8 by {
      assert Offsets([0, 0, 2, 4, 6], [3, 3]) == [4, 4];
    }
  }

  /** The tree of K8 is not one slowcalc can evaluate: from base every walk
   *  reaches offset 4, whose leaf entries lie past the two states of b. */
  lemma K8NotEvaluable()
    ensures !Evaluable(TreeOf(K8))
  {
    var a := K8.dat;
    var b := K8.datb;
    assert !Reaches(a, b, 2, 4, 1);
    assert !Reaches(a, b, 2, 4, 2) by { assert a[4] == 4; }
    assert !Reaches(a, b, 2, 4, 3) by { assert a[4] == 4; }
    assert !Reaches(a, b, 2, 4, 4) by { assert a[4] == 4; }
    assert !Reaches(a, b, 2, 6, 5) by { assert a[6] == 4; }
  }

  /** As written: setrule accepts LevelFile, and the tree it installs
   *  cannot be evaluated. */
  lemma LevelUncheckedAsWritten()
    ensures ReadLines(Start, LevelFile, false) == Ok(K8)
    ensures AcceptedAsWritten(K8) && |K8.noff| > 0
    ensures !Evaluable(TreeOf(K8))
  {
    Headers(false);
    Leaf(false);
    Level2(false);
    Level3(false);
    SelfNamed();
    Top();
    var d := LevelFile[3..];
    assert d == ["1 0 0", "2 0 0", "3 1 1", "4 3 3", "5 3 3"];
    assert ReadLines(K3, d, false) == ReadLines(K4, d[1..], false);
    assert ReadLines(K4, d[1..], false) == ReadLines(K5, d[2..], false) by { assert d[1..][1..] == d[2..]; }
    assert ReadLines(K5, d[2..], false) == ReadLines(K6, d[3..], false) by { assert d[2..][1..] == d[3..]; }
    assert ReadLines(K6, d[3..], false) == ReadLines(K7, d[4..], false) by { assert d[3..][1..] == d[4..]; }
    assert ReadLines(K7, d[4..], false) == ReadLines(K8, [], false) by { assert d[4..][1..] == []; }
    K8NotEvaluable();
  }

  /** Corrected: the checked loader refuses LevelFile at node 3. */
  lemma LevelCheckedRejects()
    ensures Load(LevelFile).Err?
  {
    Headers(true);
    Leaf(true);
    Level2(true);
    Level3(true);
    SelfNamedRejected();
    var d := LevelFile[3..];
    assert d == ["1 0 0", "2 0 0", "3 1 1", "4 3 3", "5 3 3"];
    assert ReadLines(K3, d, true) == ReadLines(K4, d[1..], true);
    assert ReadLines(K4, d[1..], true) == ReadLines(K5, d[2..], true) by { assert d[1..][1..] == d[2..]; }
    assert ReadLines(K5, d[2..], true) == ReadLines(K6, d[3..], true) by { assert d[2..][1..] == d[3..]; }
    assert ReadLines(K6, d[3..], true).Err? by { assert d[3..][0] == "4 3 3"; }
  }

  /** As written: setrule accepts EmptyFile with no node at all, so base
   *  would be read from an empty noff. */
  lemma EmptyAsWritten()
    ensures ReadLines(Start, EmptyFile, false) == Ok(Start.(neighbors := 999, nodes := 0))
    ensures AcceptedAsWritten(Start.(neighbors := 999, nodes := 0))
    ensures |Start.(neighbors := 999, nodes := 0).noff| == 0
  {
    ManyNeighbors(Start, false);
    NoNodes(Start.(neighbors := 999), false);
    assert EmptyFile[1..] == ["num_nodes=0"];
  }

  /** Corrected: the final checks also need the basic values and a last node. */
  lemma EmptyCheckedRejects()
    ensures Load(EmptyFile) == Err("Bad basic values")
  {
    ManyNeighbors(Start, true);
    NoNodes(Start.(neighbors := 999), true);
    assert EmptyFile[1..] == ["num_nodes=0"];
  }
}
