/** The built-in tree of ruletreealgo.cpp (defaultRuleData, lines 45-51):
 *  the checked loader accepts it, and the tree it installs gives the
 *  B3/S23 successor of every Moore neighbourhood. */
module DefaultTree {
  import opened Outcomes
  import opened RuleTrees
  import RuleSyntax

  /** The node lines of defaultRuleData as level and values. */
  const DefaultNodes: seq<NodeSpec> := [
    NodeSpec(1, [0, 0]), NodeSpec(2, [0, 0]), NodeSpec(1, [0, 1]), NodeSpec(2, [0, 2]),
    NodeSpec(3, [1, 3]), NodeSpec(1, [1, 1]), NodeSpec(2, [2, 5]), NodeSpec(3, [3, 6]),
    NodeSpec(4, [4, 7]), NodeSpec(2, [5, 0]), NodeSpec(3, [6, 9]), NodeSpec(4, [7, 10]),
    NodeSpec(5, [8, 11]), NodeSpec(3, [9, 1]), NodeSpec(4, [10, 13]), NodeSpec(5, [11, 14]),
    NodeSpec(6, [12, 15]), NodeSpec(3, [1, 1]), NodeSpec(4, [13, 17]), NodeSpec(5, [14, 18]),
    NodeSpec(6, [15, 19]), NodeSpec(7, [16, 20]), NodeSpec(4, [17, 17]), NodeSpec(5, [18, 22]),
    NodeSpec(6, [19, 23]), NodeSpec(7, [20, 24]), NodeSpec(8, [21, 25]), NodeSpec(5, [22, 22]),
    NodeSpec(6, [23, 27]), NodeSpec(7, [24, 28]), NodeSpec(8, [25, 29]), NodeSpec(9, [26, 30])]

  /** For each node, numbers of live cells already seen on the way down to
   *  it (4 standing for four or more) for which the node finishes the
   *  B3/S23 count correctly. */
  const DefaultCounts: seq<set<nat>> := [
    {0, 1, 4}, {0, 4}, {2}, {1}, {0}, {3}, {2}, {1},
    {0}, {3}, {2}, {1}, {0}, {3}, {2}, {1},
    {0}, {4}, {3}, {2}, {1}, {0}, {4}, {3},
    {2}, {1}, {0}, {4}, {3}, {2}, {1}, {0}]

  /** Life (B3/S23): a dead cell with 3 live neighbours is born, a live
   *  cell with 2 or 3 survives; every other cell is dead. */
  function Life(count: int, c: int): (r: int)
    ensures r == 1 <==> count == 3 || (count == 2 && c == 1)
    ensures r == 0 || r == 1
  {
    if count == 3 || (count == 2 && c == 1) then 1 else 0
  }

  function Sum(s: seq<int>): int {
    if s == [] then 0 else Sum(s[..|s| - 1]) + s[|s| - 1]
  }

  /** The counts of node j agree with its entries (a leaf) or with the counts
   *  of its children, a dead and a live cell (an inner node). */
  predicate CountOk(nodes: seq<NodeSpec>, counts: seq<set<nat>>, j: int)
    requires 0 <= j < |nodes| && |counts| == |nodes|
  {
    |nodes[j].values| == 2 &&
    forall c | c in counts[j] ::
      && c <= 4
      && (nodes[j].level == 1 ==> nodes[j].values[0] == Life(c, 0) && nodes[j].values[1] == Life(c, 1))
      && (nodes[j].level != 1 ==>
            && nodes[j].values[0] < |nodes| && nodes[j].values[1] < |nodes|
            && c in counts[nodes[j].values[0]] && Min4(c + 1) in counts[nodes[j].values[1]])
  }

  function Min4(x: int): int {
    if x < 4 then x else 4
  }

  /** Default node line j is the text of DefaultNodes[j]. */
  predicate TextFact(j: int)
    requires 0 <= j < 32 && |DefaultNodes| == 32 && |DefaultRuleData| == 35
  {
    1 <= DefaultNodes[j].level <= 9 && DefaultRuleData[3 + j] == NodeText(DefaultNodes[j])
  }

  /** Default node j is well formed and its counts agree with its entries. */
  predicate ShapeFact(j: int)
    requires 0 <= j < 32 && |DefaultNodes| == 32 && |DefaultCounts| == 32
  {
    NodeOk(DefaultNodes, j, 2, 8) && CountOk(DefaultNodes, DefaultCounts, j)
  }

  lemma Sizes()
    ensures |DefaultNodes| == 32 && |DefaultCounts| == 32 && |DefaultRuleData| == 35
  {
  }

  // One small lemma per node line, for solver cost only: each proof names
  // just its own entries of the literal tables, whereas one proof over all
  // 32 lines would make the solver unfold every entry of both tables in a
  // single obligation. DefaultTexts and DefaultShapes dispatch to them.
  lemma Text0() requires |DefaultNodes| == 32 && |DefaultRuleData| == 35 ensures TextFact(0) {
    assert DefaultNodes[0] == NodeSpec(1, [0, 0]);
    assert DefaultRuleData[3] == NodeText(NodeSpec(1, [0, 0])) by { assert DefaultRuleData[3] == "1 0 0"; }
  }
  lemma Shape0() requires |DefaultNodes| == 32 && |DefaultCounts| == 32 ensures ShapeFact(0) {
    assert DefaultNodes[0] == NodeSpec(1, [0, 0]);
    assert CountOk(DefaultNodes, DefaultCounts, 0) by { assert DefaultCounts[0] == {0, 1, 4}; }
  }
  lemma Text1() requires |DefaultNodes| == 32 && |DefaultRuleData| == 35 ensures TextFact(1) {
    assert DefaultNodes[1] == NodeSpec(2, [0, 0]);
    assert DefaultRuleData[4] == NodeText(NodeSpec(2, [0, 0])) by { assert DefaultRuleData[4] == "2 0 0"; }
  }
  lemma Shape1() requires |DefaultNodes| == 32 && |DefaultCounts| == 32 ensures ShapeFact(1) {
    assert DefaultNodes[1] == NodeSpec(2, [0, 0]);
    assert NodeOk(DefaultNodes, 1, 2, 8) by { assert DefaultNodes[0].level == 1; }
    assert CountOk(DefaultNodes, DefaultCounts, 1) by { assert DefaultCounts[1] == {0, 4} && DefaultCounts[0] == {0, 1, 4}; }
  }
  lemma Text2() requires |DefaultNodes| == 32 && |DefaultRuleData| == 35 ensures TextFact(2) {
    assert DefaultNodes[2] == NodeSpec(1, [0, 1]);
    assert DefaultRuleData[5] == NodeText(NodeSpec(1, [0, 1])) by { assert DefaultRuleData[5] == "1 0 1"; }
  }
  lemma Shape2() requires |DefaultNodes| == 32 && |DefaultCounts| == 32 ensures ShapeFact(2) {
    assert DefaultNodes[2] == NodeSpec(1, [0, 1]);
    assert CountOk(DefaultNodes, DefaultCounts, 2) by { assert DefaultCounts[2] == {2}; }
  }
  lemma Text3() requires |DefaultNodes| == 32 && |DefaultRuleData| == 35 ensures TextFact(3) {
    assert DefaultNodes[3] == NodeSpec(2, [0, 2]);
    assert DefaultRuleData[6] == NodeText(NodeSpec(2, [0, 2])) by { assert DefaultRuleData[6] == "2 0 2"; }
  }
  lemma Shape3() requires |DefaultNodes| == 32 && |DefaultCounts| == 32 ensures ShapeFact(3) {
    assert DefaultNodes[3] == NodeSpec(2, [0, 2]);
    assert NodeOk(DefaultNodes, 3, 2, 8) by { assert DefaultNodes[0].level == 1 && DefaultNodes[2].level == 1; }
    assert CountOk(DefaultNodes, DefaultCounts, 3) by { assert DefaultCounts[3] == {1} && DefaultCounts[0] == {0, 1, 4} && DefaultCounts[2] == {2}; }
  }
  lemma Text4() requires |DefaultNodes| == 32 && |DefaultRuleData| == 35 ensures TextFact(4) {
    assert DefaultNodes[4] == NodeSpec(3, [1, 3]);
    assert DefaultRuleData[7] == NodeText(NodeSpec(3, [1, 3])) by { assert DefaultRuleData[7] == "3 1 3"; }
  }
  lemma Shape4() requires |DefaultNodes| == 32 && |DefaultCounts| == 32 ensures ShapeFact(4) {
    assert DefaultNodes[4] == NodeSpec(3, [1, 3]);
    assert NodeOk(DefaultNodes, 4, 2, 8) by { assert DefaultNodes[1].level == 2 && DefaultNodes[3].level == 2; }
    assert CountOk(DefaultNodes, DefaultCounts, 4) by { assert DefaultCounts[4] == {0} && DefaultCounts[1] == {0, 4} && DefaultCounts[3] == {1}; }
  }
  lemma Text5() requires |DefaultNodes| == 32 && |DefaultRuleData| == 35 ensures TextFact(5) {
    assert DefaultNodes[5] == NodeSpec(1, [1, 1]);
    assert DefaultRuleData[8] == NodeText(NodeSpec(1, [1, 1])) by { assert DefaultRuleData[8] == "1 1 1"; }
  }
  lemma Shape5() requires |DefaultNodes| == 32 && |DefaultCounts| == 32 ensures ShapeFact(5) {
    assert DefaultNodes[5] == NodeSpec(1, [1, 1]);
    assert CountOk(DefaultNodes, DefaultCounts, 5) by { assert DefaultCounts[5] == {3}; }
  }
  lemma Text6() requires |DefaultNodes| == 32 && |DefaultRuleData| == 35 ensures TextFact(6) {
    assert DefaultNodes[6] == NodeSpec(2, [2, 5]);
    assert DefaultRuleData[9] == NodeText(NodeSpec(2, [2, 5])) by { assert DefaultRuleData[9] == "2 2 5"; }
  }
  lemma Shape6() requires |DefaultNodes| == 32 && |DefaultCounts| == 32 ensures ShapeFact(6) {
    assert DefaultNodes[6] == NodeSpec(2, [2, 5]);
    assert NodeOk(DefaultNodes, 6, 2, 8) by { assert DefaultNodes[2].level == 1 && DefaultNodes[5].level == 1; }
    assert CountOk(DefaultNodes, DefaultCounts, 6) by { assert DefaultCounts[6] == {2} && DefaultCounts[2] == {2} && DefaultCounts[5] == {3}; }
  }
  lemma Text7() requires |DefaultNodes| == 32 && |DefaultRuleData| == 35 ensures TextFact(7) {
    assert DefaultNodes[7] == NodeSpec(3, [3, 6]);
    assert DefaultRuleData[10] == NodeText(NodeSpec(3, [3, 6])) by { assert DefaultRuleData[10] == "3 3 6"; }
  }
  lemma Shape7() requires |DefaultNodes| == 32 && |DefaultCounts| == 32 ensures ShapeFact(7) {
    assert DefaultNodes[7] == NodeSpec(3, [3, 6]);
    assert NodeOk(DefaultNodes, 7, 2, 8) by { assert DefaultNodes[3].level == 2 && DefaultNodes[6].level == 2; }
    assert CountOk(DefaultNodes, DefaultCounts, 7) by { assert DefaultCounts[7] == {1} && DefaultCounts[3] == {1} && DefaultCounts[6] == {2}; }
  }
  lemma Text8() requires |DefaultNodes| == 32 && |DefaultRuleData| == 35 ensures TextFact(8) {
    assert DefaultNodes[8] == NodeSpec(4, [4, 7]);
    assert DefaultRuleData[11] == NodeText(NodeSpec(4, [4, 7])) by { assert DefaultRuleData[11] == "4 4 7"; }
  }
  lemma Shape8() requires |DefaultNodes| == 32 && |DefaultCounts| == 32 ensures ShapeFact(8) {
    assert DefaultNodes[8] == NodeSpec(4, [4, 7]);
    assert NodeOk(DefaultNodes, 8, 2, 8) by { assert DefaultNodes[4].level == 3 && DefaultNodes[7].level == 3; }
    assert CountOk(DefaultNodes, DefaultCounts, 8) by { assert DefaultCounts[8] == {0} && DefaultCounts[4] == {0} && DefaultCounts[7] == {1}; }
  }
  lemma Text9() requires |DefaultNodes| == 32 && |DefaultRuleData| == 35 ensures TextFact(9) {
    assert DefaultNodes[9] == NodeSpec(2, [5, 0]);
    assert DefaultRuleData[12] == NodeText(NodeSpec(2, [5, 0])) by { assert DefaultRuleData[12] == "2 5 0"; }
  }
  lemma Shape9() requires |DefaultNodes| == 32 && |DefaultCounts| == 32 ensures ShapeFact(9) {
    assert DefaultNodes[9] == NodeSpec(2, [5, 0]);
    assert NodeOk(DefaultNodes, 9, 2, 8) by { assert DefaultNodes[0].level == 1 && DefaultNodes[5].level == 1; }
    assert CountOk(DefaultNodes, DefaultCounts, 9) by { assert DefaultCounts[9] == {3} && DefaultCounts[0] == {0, 1, 4} && DefaultCounts[5] == {3}; }
  }
  lemma Text10() requires |DefaultNodes| == 32 && |DefaultRuleData| == 35 ensures TextFact(10) {
    assert DefaultNodes[10] == NodeSpec(3, [6, 9]);
    assert DefaultRuleData[13] == NodeText(NodeSpec(3, [6, 9])) by { assert DefaultRuleData[13] == "3 6 9"; }
  }
  lemma Shape10() requires |DefaultNodes| == 32 && |DefaultCounts| == 32 ensures ShapeFact(10) {
    assert DefaultNodes[10] == NodeSpec(3, [6, 9]);
    assert NodeOk(DefaultNodes, 10, 2, 8) by { assert DefaultNodes[6].level == 2 && DefaultNodes[9].level == 2; }
    assert CountOk(DefaultNodes, DefaultCounts, 10) by { assert DefaultCounts[10] == {2} && DefaultCounts[6] == {2} && DefaultCounts[9] == {3}; }
  }
  lemma Text11() requires |DefaultNodes| == 32 && |DefaultRuleData| == 35 ensures TextFact(11) {
    assert DefaultNodes[11] == NodeSpec(4, [7, 10]);
    assert DefaultRuleData[14] == NodeText(NodeSpec(4, [7, 10])) by { assert DefaultRuleData[14] == "4 7 10"; }
  }
  lemma Shape11() requires |DefaultNodes| == 32 && |DefaultCounts| == 32 ensures ShapeFact(11) {
    assert DefaultNodes[11] == NodeSpec(4, [7, 10]);
    assert NodeOk(DefaultNodes, 11, 2, 8) by { assert DefaultNodes[7].level == 3 && DefaultNodes[10].level == 3; }
    assert CountOk(DefaultNodes, DefaultCounts, 11) by { assert DefaultCounts[11] == {1} && DefaultCounts[7] == {1} && DefaultCounts[10] == {2}; }
  }
  lemma Text12() requires |DefaultNodes| == 32 && |DefaultRuleData| == 35 ensures TextFact(12) {
    assert DefaultNodes[12] == NodeSpec(5, [8, 11]);
    assert DefaultRuleData[15] == NodeText(NodeSpec(5, [8, 11])) by { assert DefaultRuleData[15] == "5 8 11"; }
  }
  lemma Shape12() requires |DefaultNodes| == 32 && |DefaultCounts| == 32 ensures ShapeFact(12) {
    assert DefaultNodes[12] == NodeSpec(5, [8, 11]);
    assert NodeOk(DefaultNodes, 12, 2, 8) by { assert DefaultNodes[8].level == 4 && DefaultNodes[11].level == 4; }
    assert CountOk(DefaultNodes, DefaultCounts, 12) by { assert DefaultCounts[12] == {0} && DefaultCounts[8] == {0} && DefaultCounts[11] == {1}; }
  }
  lemma Text13() requires |DefaultNodes| == 32 && |DefaultRuleData| == 35 ensures TextFact(13) {
    assert DefaultNodes[13] == NodeSpec(3, [9, 1]);
    assert DefaultRuleData[16] == NodeText(NodeSpec(3, [9, 1])) by { assert DefaultRuleData[16] == "3 9 1"; }
  }
  lemma Shape13() requires |DefaultNodes| == 32 && |DefaultCounts| == 32 ensures ShapeFact(13) {
    assert DefaultNodes[13] == NodeSpec(3, [9, 1]);
    assert NodeOk(DefaultNodes, 13, 2, 8) by { assert DefaultNodes[1].level == 2 && DefaultNodes[9].level == 2; }
    assert CountOk(DefaultNodes, DefaultCounts, 13) by { assert DefaultCounts[13] == {3} && DefaultCounts[1] == {0, 4} && DefaultCounts[9] == {3}; }
  }
  lemma Text14() requires |DefaultNodes| == 32 && |DefaultRuleData| == 35 ensures TextFact(14) {
    assert DefaultNodes[14] == NodeSpec(4, [10, 13]);
    assert DefaultRuleData[17] == NodeText(NodeSpec(4, [10, 13])) by { assert DefaultRuleData[17] == "4 10 13"; }
  }
  lemma Shape14() requires |DefaultNodes| == 32 && |DefaultCounts| == 32 ensures ShapeFact(14) {
    assert DefaultNodes[14] == NodeSpec(4, [10, 13]);
    assert NodeOk(DefaultNodes, 14, 2, 8) by { assert DefaultNodes[10].level == 3 && DefaultNodes[13].level == 3; }
    assert CountOk(DefaultNodes, DefaultCounts, 14) by { assert DefaultCounts[14] == {2} && DefaultCounts[10] == {2} && DefaultCounts[13] == {3}; }
  }
  lemma Text15() requires |DefaultNodes| == 32 && |DefaultRuleData| == 35 ensures TextFact(15) {
    assert DefaultNodes[15] == NodeSpec(5, [11, 14]);
    assert DefaultRuleData[18] == NodeText(NodeSpec(5, [11, 14])) by { assert DefaultRuleData[18] == "5 11 14"; }
  }
  lemma Shape15() requires |DefaultNodes| == 32 && |DefaultCounts| == 32 ensures ShapeFact(15) {
    assert DefaultNodes[15] == NodeSpec(5, [11, 14]);
    assert NodeOk(DefaultNodes, 15, 2, 8) by { assert DefaultNodes[11].level == 4 && DefaultNodes[14].level == 4; }
    assert CountOk(DefaultNodes, DefaultCounts, 15) by { assert DefaultCounts[15] == {1} && DefaultCounts[11] == {1} && DefaultCounts[14] == {2}; }
  }
  lemma Text16() requires |DefaultNodes| == 32 && |DefaultRuleData| == 35 ensures TextFact(16) {
    assert DefaultNodes[16] == NodeSpec(6, [12, 15]);
    assert DefaultRuleData[19] == NodeText(NodeSpec(6, [12, 15])) by { assert DefaultRuleData[19] == "6 12 15"; }
  }
  lemma Shape16() requires |DefaultNodes| == 32 && |DefaultCounts| == 32 ensures ShapeFact(16) {
    assert DefaultNodes[16] == NodeSpec(6, [12, 15]);
    assert NodeOk(DefaultNodes, 16, 2, 8) by { assert DefaultNodes[12].level == 5 && DefaultNodes[15].level == 5; }
    assert CountOk(DefaultNodes, DefaultCounts, 16) by { assert DefaultCounts[16] == {0} && DefaultCounts[12] == {0} && DefaultCounts[15] == {1}; }
  }
  lemma Text17() requires |DefaultNodes| == 32 && |DefaultRuleData| == 35 ensures TextFact(17) {
    assert DefaultNodes[17] == NodeSpec(3, [1, 1]);
    assert DefaultRuleData[20] == NodeText(NodeSpec(3, [1, 1])) by { assert DefaultRuleData[20] == "3 1 1"; }
  }
  lemma Shape17() requires |DefaultNodes| == 32 && |DefaultCounts| == 32 ensures ShapeFact(17) {
    assert DefaultNodes[17] == NodeSpec(3, [1, 1]);
    assert NodeOk(DefaultNodes, 17, 2, 8) by { assert DefaultNodes[1].level == 2; }
    assert CountOk(DefaultNodes, DefaultCounts, 17) by { assert DefaultCounts[17] == {4} && DefaultCounts[1] == {0, 4}; }
  }
  lemma Text18() requires |DefaultNodes| == 32 && |DefaultRuleData| == 35 ensures TextFact(18) {
    assert DefaultNodes[18] == NodeSpec(4, [13, 17]);
    assert DefaultRuleData[21] == NodeText(NodeSpec(4, [13, 17])) by { assert DefaultRuleData[21] == "4 13 17"; }
  }
  lemma Shape18() requires |DefaultNodes| == 32 && |DefaultCounts| == 32 ensures ShapeFact(18) {
    assert DefaultNodes[18] == NodeSpec(4, [13, 17]);
    assert NodeOk(DefaultNodes, 18, 2, 8) by { assert DefaultNodes[13].level == 3 && DefaultNodes[17].level == 3; }
    assert CountOk(DefaultNodes, DefaultCounts, 18) by { assert DefaultCounts[18] == {3} && DefaultCounts[13] == {3} && DefaultCounts[17] == {4}; }
  }
  lemma Text19() requires |DefaultNodes| == 32 && |DefaultRuleData| == 35 ensures TextFact(19) {
    assert DefaultNodes[19] == NodeSpec(5, [14, 18]);
    assert DefaultRuleData[22] == NodeText(NodeSpec(5, [14, 18])) by { assert DefaultRuleData[22] == "5 14 18"; }
  }
  lemma Shape19() requires |DefaultNodes| == 32 && |DefaultCounts| == 32 ensures ShapeFact(19) {
    assert DefaultNodes[19] == NodeSpec(5, [14, 18]);
    assert NodeOk(DefaultNodes, 19, 2, 8) by { assert DefaultNodes[14].level == 4 && DefaultNodes[18].level == 4; }
    assert CountOk(DefaultNodes, DefaultCounts, 19) by { assert DefaultCounts[19] == {2} && DefaultCounts[14] == {2} && DefaultCounts[18] == {3}; }
  }
  lemma Text20() requires |DefaultNodes| == 32 && |DefaultRuleData| == 35 ensures TextFact(20) {
    assert DefaultNodes[20] == NodeSpec(6, [15, 19]);
    assert DefaultRuleData[23] == NodeText(NodeSpec(6, [15, 19])) by { assert DefaultRuleData[23] == "6 15 19"; }
  }
  lemma Shape20() requires |DefaultNodes| == 32 && |DefaultCounts| == 32 ensures ShapeFact(20) {
    assert DefaultNodes[20] == NodeSpec(6, [15, 19]);
    assert NodeOk(DefaultNodes, 20, 2, 8) by { assert DefaultNodes[15].level == 5 && DefaultNodes[19].level == 5; }
    assert CountOk(DefaultNodes, DefaultCounts, 20) by { assert DefaultCounts[20] == {1} && DefaultCounts[15] == {1} && DefaultCounts[19] == {2}; }
  }
  lemma Text21() requires |DefaultNodes| == 32 && |DefaultRuleData| == 35 ensures TextFact(21) {
    assert DefaultNodes[21] == NodeSpec(7, [16, 20]);
    assert DefaultRuleData[24] == NodeText(NodeSpec(7, [16, 20])) by { assert DefaultRuleData[24] == "7 16 20"; }
  }
  lemma Shape21() requires |DefaultNodes| == 32 && |DefaultCounts| == 32 ensures ShapeFact(21) {
    assert DefaultNodes[21] == NodeSpec(7, [16, 20]);
    assert NodeOk(DefaultNodes, 21, 2, 8) by { assert DefaultNodes[16].level == 6 && DefaultNodes[20].level == 6; }
    assert CountOk(DefaultNodes, DefaultCounts, 21) by { assert DefaultCounts[21] == {0} && DefaultCounts[16] == {0} && DefaultCounts[20] == {1}; }
  }
  lemma Text22() requires |DefaultNodes| == 32 && |DefaultRuleData| == 35 ensures TextFact(22) {
    assert DefaultNodes[22] == NodeSpec(4, [17, 17]);
    assert DefaultRuleData[25] == NodeText(NodeSpec(4, [17, 17])) by { assert DefaultRuleData[25] == "4 17 17"; }
  }
  lemma Shape22() requires |DefaultNodes| == 32 && |DefaultCounts| == 32 ensures ShapeFact(22) {
    assert DefaultNodes[22] == NodeSpec(4, [17, 17]);
    assert NodeOk(DefaultNodes, 22, 2, 8) by { assert DefaultNodes[17].level == 3; }
    assert CountOk(DefaultNodes, DefaultCounts, 22) by { assert DefaultCounts[22] == {4} && DefaultCounts[17] == {4}; }
  }
  lemma Text23() requires |DefaultNodes| == 32 && |DefaultRuleData| == 35 ensures TextFact(23) {
    assert DefaultNodes[23] == NodeSpec(5, [18, 22]);
    assert DefaultRuleData[26] == NodeText(NodeSpec(5, [18, 22])) by { assert DefaultRuleData[26] == "5 18 22"; }
  }
  lemma Shape23() requires |DefaultNodes| == 32 && |DefaultCounts| == 32 ensures ShapeFact(23) {
    assert DefaultNodes[23] == NodeSpec(5, [18, 22]);
    assert NodeOk(DefaultNodes, 23, 2, 8) by { assert DefaultNodes[18].level == 4 && DefaultNodes[22].level == 4; }
    assert CountOk(DefaultNodes, DefaultCounts, 23) by { assert DefaultCounts[23] == {3} && DefaultCounts[18] == {3} && DefaultCounts[22] == {4}; }
  }
  lemma Text24() requires |DefaultNodes| == 32 && |DefaultRuleData| == 35 ensures TextFact(24) {
    assert DefaultNodes[24] == NodeSpec(6, [19, 23]);
    assert DefaultRuleData[27] == NodeText(NodeSpec(6, [19, 23])) by { assert DefaultRuleData[27] == "6 19 23"; }
  }
  lemma Shape24() requires |DefaultNodes| == 32 && |DefaultCounts| == 32 ensures ShapeFact(24) {
    assert DefaultNodes[24] == NodeSpec(6, [19, 23]);
    assert NodeOk(DefaultNodes, 24, 2, 8) by { assert DefaultNodes[19].level == 5 && DefaultNodes[23].level == 5; }
    assert CountOk(DefaultNodes, DefaultCounts, 24) by { assert DefaultCounts[24] == {2} && DefaultCounts[19] == {2} && DefaultCounts[23] == {3}; }
  }
  lemma Text25() requires |DefaultNodes| == 32 && |DefaultRuleData| == 35 ensures TextFact(25) {
    assert DefaultNodes[25] == NodeSpec(7, [20, 24]);
    assert DefaultRuleData[28] == NodeText(NodeSpec(7, [20, 24])) by { assert DefaultRuleData[28] == "7 20 24"; }
  }
  lemma Shape25() requires |DefaultNodes| == 32 && |DefaultCounts| == 32 ensures ShapeFact(25) {
    assert DefaultNodes[25] == NodeSpec(7, [20, 24]);
    assert NodeOk(DefaultNodes, 25, 2, 8) by { assert DefaultNodes[20].level == 6 && DefaultNodes[24].level == 6; }
    assert CountOk(DefaultNodes, DefaultCounts, 25) by { assert DefaultCounts[25] == {1} && DefaultCounts[20] == {1} && DefaultCounts[24] == {2}; }
  }
  lemma Text26() requires |DefaultNodes| == 32 && |DefaultRuleData| == 35 ensures TextFact(26) {
    assert DefaultNodes[26] == NodeSpec(8, [21, 25]);
    assert DefaultRuleData[29] == NodeText(NodeSpec(8, [21, 25])) by { assert DefaultRuleData[29] == "8 21 25"; }
  }
  lemma Shape26() requires |DefaultNodes| == 32 && |DefaultCounts| == 32 ensures ShapeFact(26) {
    assert DefaultNodes[26] == NodeSpec(8, [21, 25]);
    assert NodeOk(DefaultNodes, 26, 2, 8) by { assert DefaultNodes[21].level == 7 && DefaultNodes[25].level == 7; }
    assert CountOk(DefaultNodes, DefaultCounts, 26) by { assert DefaultCounts[26] == {0} && DefaultCounts[21] == {0} && DefaultCounts[25] == {1}; }
  }
  lemma Text27() requires |DefaultNodes| == 32 && |DefaultRuleData| == 35 ensures TextFact(27) {
    assert DefaultNodes[27] == NodeSpec(5, [22, 22]);
    assert DefaultRuleData[30] == NodeText(NodeSpec(5, [22, 22])) by { assert DefaultRuleData[30] == "5 22 22"; }
  }
  lemma Shape27() requires |DefaultNodes| == 32 && |DefaultCounts| == 32 ensures ShapeFact(27) {
    assert DefaultNodes[27] == NodeSpec(5, [22, 22]);
    assert NodeOk(DefaultNodes, 27, 2, 8) by { assert DefaultNodes[22].level == 4; }
    assert CountOk(DefaultNodes, DefaultCounts, 27) by { assert DefaultCounts[27] == {4} && DefaultCounts[22] == {4}; }
  }
  lemma Text28() requires |DefaultNodes| == 32 && |DefaultRuleData| == 35 ensures TextFact(28) {
    assert DefaultNodes[28] == NodeSpec(6, [23, 27]);
    assert DefaultRuleData[31] == NodeText(NodeSpec(6, [23, 27])) by { assert DefaultRuleData[31] == "6 23 27"; }
  }
  lemma Shape28() requires |DefaultNodes| == 32 && |DefaultCounts| == 32 ensures ShapeFact(28) {
    assert DefaultNodes[28] == NodeSpec(6, [23, 27]);
    assert NodeOk(DefaultNodes, 28, 2, 8) by { assert DefaultNodes[23].level == 5 && DefaultNodes[27].level == 5; }
    assert CountOk(DefaultNodes, DefaultCounts, 28) by { assert DefaultCounts[28] == {3} && DefaultCounts[23] == {3} && DefaultCounts[27] == {4}; }
  }
  lemma Text29() requires |DefaultNodes| == 32 && |DefaultRuleData| == 35 ensures TextFact(29) {
    assert DefaultNodes[29] == NodeSpec(7, [24, 28]);
    assert DefaultRuleData[32] == NodeText(NodeSpec(7, [24, 28])) by { assert DefaultRuleData[32] == "7 24 28"; }
  }
  lemma Shape29() requires |DefaultNodes| == 32 && |DefaultCounts| == 32 ensures ShapeFact(29) {
    assert DefaultNodes[29] == NodeSpec(7, [24, 28]);
    assert NodeOk(DefaultNodes, 29, 2, 8) by { assert DefaultNodes[24].level == 6 && DefaultNodes[28].level == 6; }
    assert CountOk(DefaultNodes, DefaultCounts, 29) by { assert DefaultCounts[29] == {2} && DefaultCounts[24] == {2} && DefaultCounts[28] == {3}; }
  }
  lemma Text30() requires |DefaultNodes| == 32 && |DefaultRuleData| == 35 ensures TextFact(30) {
    assert DefaultNodes[30] == NodeSpec(8, [25, 29]);
    assert DefaultRuleData[33] == NodeText(NodeSpec(8, [25, 29])) by { assert DefaultRuleData[33] == "8 25 29"; }
  }
  lemma Shape30() requires |DefaultNodes| == 32 && |DefaultCounts| == 32 ensures ShapeFact(30) {
    assert DefaultNodes[30] == NodeSpec(8, [25, 29]);
    assert NodeOk(DefaultNodes, 30, 2, 8) by { assert DefaultNodes[25].level == 7 && DefaultNodes[29].level == 7; }
    assert CountOk(DefaultNodes, DefaultCounts, 30) by { assert DefaultCounts[30] == {1} && DefaultCounts[25] == {1} && DefaultCounts[29] == {2}; }
  }
  lemma Text31() requires |DefaultNodes| == 32 && |DefaultRuleData| == 35 ensures TextFact(31) {
    assert DefaultNodes[31] == NodeSpec(9, [26, 30]);
    assert DefaultRuleData[34] == NodeText(NodeSpec(9, [26, 30])) by { assert DefaultRuleData[34] == "9 26 30"; }
  }
  lemma Shape31() requires |DefaultNodes| == 32 && |DefaultCounts| == 32 ensures ShapeFact(31) {
    assert DefaultNodes[31] == NodeSpec(9, [26, 30]);
    assert NodeOk(DefaultNodes, 31, 2, 8) by { assert DefaultNodes[26].level == 8 && DefaultNodes[30].level == 8; }
    assert CountOk(DefaultNodes, DefaultCounts, 31) by { assert DefaultCounts[31] == {0} && DefaultCounts[26] == {0} && DefaultCounts[30] == {1}; }
  }

  /** Every node line of the built-in data is the text of its node; the
   *  per-node lemmas above are split for solver cost only. */
  lemma DefaultTexts()
    requires |DefaultNodes| == 32 && |DefaultRuleData| == 35
    ensures forall j | 0 <= j < 32 :: TextFact(j)
  {
    forall j | 0 <= j < 32 ensures TextFact(j) {
      if j == 0 {
        Text0();
      } else if j == 1 {
        Text1();
      } else if j == 2 {
        Text2();
      } else if j == 3 {
        Text3();
      } else if j == 4 {
        Text4();
      } else if j == 5 {
        Text5();
      } else if j == 6 {
        Text6();
      } else if j == 7 {
        Text7();
      } else if j == 8 {
        Text8();
      } else if j == 9 {
        Text9();
      } else if j == 10 {
        Text10();
      } else if j == 11 {
        Text11();
      } else if j == 12 {
        Text12();
      } else if j == 13 {
        Text13();
      } else if j == 14 {
        Text14();
      } else if j == 15 {
        Text15();
      } else if j == 16 {
        Text16();
      } else if j == 17 {
        Text17();
      } else if j == 18 {
        Text18();
      } else if j == 19 {
        Text19();
      } else if j == 20 {
        Text20();
      } else if j == 21 {
        Text21();
      } else if j == 22 {
        Text22();
      } else if j == 23 {
        Text23();
      } else if j == 24 {
        Text24();
      } else if j == 25 {
        Text25();
      } else if j == 26 {
        Text26();
      } else if j == 27 {
        Text27();
      } else if j == 28 {
        Text28();
      } else if j == 29 {
        Text29();
      } else if j == 30 {
        Text30();
      } else if j == 31 {
        Text31();
      }
    }
  }

  lemma DefaultShapes()
    requires |DefaultNodes| == 32 && |DefaultCounts| == 32
    ensures forall j | 0 <= j < 32 :: ShapeFact(j)
  {
    forall j | 0 <= j < 32 ensures ShapeFact(j) {
      if j == 0 {
        Shape0();
      } else if j == 1 {
        Shape1();
      } else if j == 2 {
        Shape2();
      } else if j == 3 {
        Shape3();
      } else if j == 4 {
        Shape4();
      } else if j == 5 {
        Shape5();
      } else if j == 6 {
        Shape6();
      } else if j == 7 {
        Shape7();
      } else if j == 8 {
        Shape8();
      } else if j == 9 {
        Shape9();
      } else if j == 10 {
        Shape10();
      } else if j == 11 {
        Shape11();
      } else if j == 12 {
        Shape12();
      } else if j == 13 {
        Shape13();
      } else if j == 14 {
        Shape14();
      } else if j == 15 {
        Shape15();
      } else if j == 16 {
        Shape16();
      } else if j == 17 {
        Shape17();
      } else if j == 18 {
        Shape18();
      } else if j == 19 {
        Shape19();
      } else if j == 20 {
        Shape20();
      } else if j == 21 {
        Shape21();
      } else if j == 22 {
        Shape22();
      } else if j == 23 {
        Shape23();
      } else if j == 24 {
        Shape24();
      } else if j == 25 {
        Shape25();
      } else if j == 26 {
        Shape26();
      } else if j == 27 {
        Shape27();
      } else if j == 28 {
        Shape28();
      } else if j == 29 {
        Shape29();
      } else if j == 30 {
        Shape30();
      } else if j == 31 {
        Shape31();
      }
    }
  }

  /** The three header lines of defaultRuleData. */
  lemma StatesLine(ld: Loader)
    ensures ReadLine(ld, "num_states=2", true) == Ok(ld.(states := 2))
  {
    assert "num_states=2" == "num_states=" + CanonicalNames.DecimalString(2);
    ReadStates(ld, 2, true);
  }

  lemma NeighborsLine(ld: Loader)
    ensures ReadLine(ld, "num_neighbors=8", true) == Ok(ld.(neighbors := 8))
  {
    assert "num_neighbors=8" == "num_neighbors=" + CanonicalNames.DecimalString(8);
    ReadNeighbors(ld, 8, true);
  }

  lemma NodesLine(ld: Loader)
    ensures ReadLine(ld, "num_nodes=32", true) == Ok(ld.(nodes := 32))
  {
    assert CanonicalNames.DecimalString(32) == "32" by {
      assert CanonicalNames.DecimalString(3) == "3";
    }
    assert "num_nodes=32" == "num_nodes=" + CanonicalNames.DecimalString(32);
    ReadNodes(ld, 32, true);
  }

  /** Lines that start with the three header lines of defaultRuleData set
   *  2 states, 8 neighbours and 32 nodes. */
  lemma HeadersRead(d: seq<string>)
    requires |d| >= 3 && d[0] == "num_states=2" && d[1] == "num_neighbors=8" && d[2] == "num_nodes=32"
    ensures ReadLines(Start, d, true) == ReadLines(Start.(states := 2, neighbors := 8, nodes := 32), d[3..], true)
  {
    var ld1 := Start.(states := 2);
    var ld2 := ld1.(neighbors := 8);
    var ld3 := ld2.(nodes := 32);
    assert ReadLines(Start, d, true) == ReadLines(ld1, d[1..], true) by {
      StatesLine(Start);
    }
    assert ReadLines(ld1, d[1..], true) == ReadLines(ld2, d[2..], true) by {
      NeighborsLine(ld1);
      assert d[1..][0] == d[1] && d[1..][1..] == d[2..];
    }
    assert ReadLines(ld2, d[2..], true) == ReadLines(ld3, d[3..], true) by {
      NodesLine(ld2);
      assert d[2..][0] == d[2] && d[2..][1..] == d[3..];
    }
  }

  /** The node lines of defaultRuleData are the texts of DefaultNodes, which
   *  are well formed for 2 states and 8 neighbours. */
  lemma DefaultNodeLines()
    ensures |DefaultNodes| == 32 && |DefaultRuleData| == 35
    ensures forall j | 0 <= j < 32 :: 1 <= DefaultNodes[j].level <= 9 && DefaultRuleData[3..][j] == NodeText(DefaultNodes[j])
    ensures Layered(DefaultNodes, 2, 8) && forall j | 0 <= j < 32 :: CountOk(DefaultNodes, DefaultCounts, j)
  {
    Sizes();
    DefaultTexts();
    DefaultShapes();
    forall j | 0 <= j < 32
      ensures 1 <= DefaultNodes[j].level <= 9 && DefaultRuleData[3..][j] == NodeText(DefaultNodes[j])
      ensures NodeOk(DefaultNodes, j, 2, 8) && CountOk(DefaultNodes, DefaultCounts, j)
    {
      assert TextFact(j) && ShapeFact(j);
    }
  }

  /** Lines made of the three header lines and the texts of well-formed
   *  nodes are all accepted by the checked loader. */
  lemma LayeredFileRead(d: seq<string>, nodes: seq<NodeSpec>)
    requires |d| == 3 + |nodes| && d[0] == "num_states=2" && d[1] == "num_neighbors=8" && d[2] == "num_nodes=32"
    requires forall j | 0 <= j < |nodes| :: 1 <= nodes[j].level <= 9 && d[3..][j] == NodeText(nodes[j])
    requires Layered(nodes, 2, 8)
    ensures ReadLines(Start, d, true).Ok?
    ensures Tracks(ReadLines(Start, d, true).value, nodes)
    ensures ReadLines(Start, d, true).value.states == 2
    ensures ReadLines(Start, d, true).value.neighbors == 8
    ensures ReadLines(Start, d, true).value.nodes == 32
  {
    HeadersRead(d);
    assert [] + nodes == nodes;
    ReadLayered(Start.(states := 2, neighbors := 8, nodes := 32), [], nodes, d[3..]);
  }

  /** The checked loader accepts every line of defaultRuleData and tracks
   *  the nodes of DefaultNodes. */
  lemma DefaultRead()
    ensures ReadLines(Start, DefaultRuleData, true).Ok?
    ensures Tracks(ReadLines(Start, DefaultRuleData, true).value, DefaultNodes)
    ensures ReadLines(Start, DefaultRuleData, true).value.states == 2
    ensures ReadLines(Start, DefaultRuleData, true).value.neighbors == 8
    ensures ReadLines(Start, DefaultRuleData, true).value.nodes == 32
  {
    DefaultNodeLines();
    assert DefaultRuleData[0] == "num_states=2" && DefaultRuleData[1] == "num_neighbors=8" && DefaultRuleData[2] == "num_nodes=32";
    LayeredFileRead(DefaultRuleData, DefaultNodes);
  }

  /** The sum of the live cells of s. */
  lemma {:induction false} SumFront(s: seq<int>)
    requires s != []
    ensures Sum(s) == s[0] + Sum(s[1..])
    decreases |s|
  {
    if |s| > 1 {
      SumFront(s[..|s| - 1]);
      assert s[..|s| - 1][1..] == s[1..][..|s| - 2];
    }
  }

  lemma {:induction false} SumNonNegative(s: seq<int>)
    requires States(s, 2)
    ensures Sum(s) >= 0
    decreases |s|
  {
    if s != [] {
      assert States(s[..|s| - 1], 2);
      SumNonNegative(s[..|s| - 1]);
    }
  }

  /** A node whose counts agree with its children's finishes the B3/S23
   *  count: from any of its counts c, following a path of dead and live
   *  cells gives the Life state for c plus the live cells before the last
   *  one, the last one being the cell itself. */
  lemma {:induction false} FollowLife(nodes: seq<NodeSpec>, counts: seq<set<nat>>, j: int, c: nat, path: seq<int>)
    requires |counts| == |nodes| && Layered(nodes, 2, 8) && forall i | 0 <= i < |nodes| :: CountOk(nodes, counts, i)
    requires 0 <= j < |nodes| && c in counts[j]
    requires 1 <= |path| == nodes[j].level && States(path, 2)
    ensures Follow(nodes, j, path) == Life(c + Sum(path[..|path| - 1]), path[|path| - 1])
    decreases |path|
  {
    var n := nodes[j];
    assert NodeOk(nodes, j, 2, 8) && CountOk(nodes, counts, j);
    if |path| > 1 {
      var p0 := path[0];
      var v := n.values[p0];
      var c' := if p0 == 0 then c else Min4(c + 1);
      assert ChildOk(nodes, j, v, 2);
      var rest := path[1..];
      assert States(rest, 2) by {
        forall i | 0 <= i < |rest| ensures 0 <= rest[i] < 2 { assert rest[i] == path[i + 1]; }
      }
      FollowLife(nodes, counts, v, c', rest);
      assert rest[..|rest| - 1] == path[..|path| - 1][1..];
      SumFront(path[..|path| - 1]);
      assert States(rest[..|rest| - 1], 2);
      SumNonNegative(rest[..|rest| - 1]);
    }
  }

  /** The built-in tree loads: 2 states, 8 neighbours, 32 nodes, a tree
   *  slowcalc can evaluate. */
  lemma DefaultLoads()
    ensures Load(DefaultRuleData).Ok?
    ensures Load(DefaultRuleData).value.states == 2
    ensures Load(DefaultRuleData).value.neighbors == 8
    ensures Load(DefaultRuleData).value.nodes == 32
    ensures Evaluable(Load(DefaultRuleData).value)
  {
    DefaultRead();
    var ld := ReadLines(Start, DefaultRuleData, true).value;
    assert ld.lev == 9 by {
      assert DefaultNodes[31] == NodeSpec(9, [26, 30]);
    }
    assert Finish(ld) == Ok(TreeOf(ld));
    LoadEvaluable(DefaultRuleData);
  }

  /** A loaded tree that tracks Life-counting nodes walks any nine
   *  states from its last node to the Life successor of the ninth. */
  lemma TrackedLife(ld: Loader, nodes: seq<NodeSpec>, counts: seq<set<nat>>, path: seq<int>)
    requires Tracks(ld, nodes) && Sound(ld) && ld.states == 2 && ld.neighbors == 8
    requires |nodes| == 32 == |counts| && Layered(nodes, 2, 8) && forall i | 0 <= i < |nodes| :: CountOk(nodes, counts, i)
    requires nodes[31].level == 9 && 0 in counts[31]
    requires |path| == 9 && States(path, 2)
    ensures Reaches(ld.dat, ld.datb, 2, ld.noff[31], 9)
    ensures Walk(ld.dat, ld.datb, 2, ld.noff[31], path) == Life(Sum(path[..8]), path[8])
  {
    assert ld.levels[31] == 9 && ld.widths[31] == 2;
    WalkFollow(ld, nodes, 31, path);
    FollowLife(nodes, counts, 31, 0, path);
  }

  /** The tree the corrected loader installs from lines whose nodes are
   *  tracked as above turns every Moore neighbourhood of dead and live
   *  cells into the Life successor of its centre. */
  lemma LoadedLife(d: seq<string>, nodes: seq<NodeSpec>, counts: seq<set<nat>>,
                   nw: int, n: int, ne: int, w: int, c: int, e: int, sw: int, s: int, se: int)
    requires ReadLines(Start, d, true).Ok? && Tracks(ReadLines(Start, d, true).value, nodes)
    requires ReadLines(Start, d, true).value.states == 2 && ReadLines(Start, d, true).value.neighbors == 8
    requires Load(d).Ok?
    requires |nodes| == 32 == |counts| && Layered(nodes, 2, 8) && forall i | 0 <= i < |nodes| :: CountOk(nodes, counts, i)
    requires nodes[31].level == 9 && 0 in counts[31]
    requires 0 <= nw < 2 && 0 <= n < 2 && 0 <= ne < 2 && 0 <= w < 2 && 0 <= c < 2
    requires 0 <= e < 2 && 0 <= sw < 2 && 0 <= s < 2 && 0 <= se < 2
    ensures
      var t := Load(d).value;
      var path := Neighbourhood(8, nw, n, ne, w, c, e, sw, s, se);
      States(path, t.states) && Reaches(t.a, t.b, t.states, t.base, |path|) &&
      Walk(t.a, t.b, t.states, t.base, path) == Life(nw + n + ne + w + e + sw + s + se, c)
  {
    var ld := ReadLines(Start, d, true).value;
    var path := Neighbourhood(8, nw, n, ne, w, c, e, sw, s, se);
    assert Load(d) == Ok(TreeOf(ld));
    ReadLinesSound(Start, d);
    MooreStates(nw, n, ne, w, c, e, sw, s, se);
    TrackedLife(ld, nodes, counts, path);
    NeighbourSum(nw, n, ne, w, e, sw, s, se);
  }

  /** The sum of the eight neighbours in slowcalc's order. */
  lemma NeighbourSum(nw: int, n: int, ne: int, w: int, e: int, sw: int, s: int, se: int)
    ensures Sum([nw, ne, sw, se, n, w, e, s]) == nw + n + ne + w + e + sw + s + se
  {
    var p := [nw, ne, sw, se, n, w, e, s];
    assert Sum(p[..1]) == nw by { assert p[..1][..0] == []; }
    assert Sum(p[..2]) == nw + ne by { assert p[..2][..1] == p[..1]; }
    assert Sum(p[..3]) == nw + ne + sw by { assert p[..3][..2] == p[..2]; }
    assert Sum(p[..4]) == nw + ne + sw + se by { assert p[..4][..3] == p[..3]; }
    assert Sum(p[..5]) == nw + ne + sw + se + n by { assert p[..5][..4] == p[..4]; }
    assert Sum(p[..6]) == nw + ne + sw + se + n + w by { assert p[..6][..5] == p[..5]; }
    assert Sum(p[..7]) == nw + ne + sw + se + n + w + e by { assert p[..7][..6] == p[..6]; }
    assert p[..8] == p && p[..7] == p[..8][..7];
  }

  /** A Moore neighbourhood of dead and live cells is a walk of two-state
   *  steps whose first eight are the neighbours in slowcalc's order. */
  lemma MooreStates(nw: int, n: int, ne: int, w: int, c: int, e: int, sw: int, s: int, se: int)
    requires 0 <= nw < 2 && 0 <= n < 2 && 0 <= ne < 2 && 0 <= w < 2 && 0 <= c < 2
    requires 0 <= e < 2 && 0 <= sw < 2 && 0 <= s < 2 && 0 <= se < 2
    ensures States(Neighbourhood(8, nw, n, ne, w, c, e, sw, s, se), 2)
    ensures Neighbourhood(8, nw, n, ne, w, c, e, sw, s, se)[..8] == [nw, ne, sw, se, n, w, e, s]
  {
  }

  /** The built-in tree is B3/S23: for every Moore neighbourhood of dead and
   *  live cells, slowcalc's walk gives the Life successor of the cell. */
  lemma DefaultTreeIsLife(nw: int, n: int, ne: int, w: int, c: int, e: int, sw: int, s: int, se: int)
    requires 0 <= nw < 2 && 0 <= n < 2 && 0 <= ne < 2 && 0 <= w < 2 && 0 <= c < 2
    requires 0 <= e < 2 && 0 <= sw < 2 && 0 <= s < 2 && 0 <= se < 2
    ensures Load(DefaultRuleData).Ok?
    ensures
      var t := Load(DefaultRuleData).value;
      var path := Neighbourhood(8, nw, n, ne, w, c, e, sw, s, se);
      States(path, t.states) && Reaches(t.a, t.b, t.states, t.base, |path|) &&
      Walk(t.a, t.b, t.states, t.base, path) == Life(nw + n + ne + w + e + sw + s + se, c)
  {
    assert ReadLines(Start, DefaultRuleData, true).Ok? && Tracks(ReadLines(Start, DefaultRuleData, true).value, DefaultNodes)
        && ReadLines(Start, DefaultRuleData, true).value.states == 2 && ReadLines(Start, DefaultRuleData, true).value.neighbors == 8 by {
      DefaultRead();
    }
    assert Load(DefaultRuleData).Ok? by { DefaultLoads(); }
    assert |DefaultNodes| == 32 == |DefaultCounts| && Layered(DefaultNodes, 2, 8)
        && forall i | 0 <= i < |DefaultNodes| :: CountOk(DefaultNodes, DefaultCounts, i) by {
      DefaultNodeLines();
    }
    assert DefaultNodes[31].level == 9 && 0 in DefaultCounts[31];
    LoadedLife(DefaultRuleData, DefaultNodes, DefaultCounts, nw, n, ne, w, c, e, sw, s, se);
  }

  /** setrule with a name of the built-in rule ignores any rule.tree file
   *  and the length limit: it installs the built-in tree and keeps the
   *  name as typed, plus the grid suffix. */
  lemma DefaultRuleOutcome(s: string, file: Option<seq<string>>, grid: Result<string>, maxRuleSize: int)
    requires IsDefaultRule(RuleName(s)) && (':' in s ==> grid.Ok?)
    ensures Load(DefaultRuleData).Ok?
    ensures Outcome(s, file, grid, maxRuleSize) == Ok(Loaded(Load(DefaultRuleData).value, RuleName(s) + GridSuffix(s, grid)))
  {
    DefaultLoads();
  }

  /** The spellings isDefaultRule accepts include b3s23 and B3/S23 in any
   *  case and 23/3, but not 23/3 in another form. */
  lemma DefaultNames()
    ensures IsDefaultRule("b3s23") && IsDefaultRule("B3/S23") && IsDefaultRule("b3/S23") && IsDefaultRule("23/3")
    ensures !IsDefaultRule("B3/S23/") && !IsDefaultRule("S23/B3")
  {
    assert RuleSyntax.ToLower('b') == RuleSyntax.ToLower('B') && RuleSyntax.ToLower('s') == RuleSyntax.ToLower('S');
    assert RuleSyntax.ToLower('S') != RuleSyntax.ToLower('B');
    assert "S23/B3"[0] == 'S';
  }

  /** A string lower-cased character by character, independently of the
   *  position-wise comparison isDefaultRule makes. */
  function LowerAll(s: string): (r: string)
    ensures |r| == |s|
  {
    if s == [] then [] else [RuleSyntax.ToLower(s[0])] + LowerAll(s[1..])
  }

  lemma {:induction false} LowerAllAt(s: string, i: int)
    requires 0 <= i < |s|
    ensures LowerAll(s)[i] == RuleSyntax.ToLower(s[i])
    decreases i
  {
    if i > 0 {
      LowerAllAt(s[1..], i - 1);
    }
  }

  /** Comparing ignoring case is comparing the lower-cased strings. */
  lemma SameIgnoringCaseLower(x: string, y: string)
    ensures SameIgnoringCase(x, y) <==> LowerAll(x) == LowerAll(y)
  {
    if |x| == |y| {
      forall i | 0 <= i < |x|
        ensures LowerAll(x)[i] == RuleSyntax.ToLower(x[i]) && LowerAll(y)[i] == RuleSyntax.ToLower(y[i])
      {
        LowerAllAt(x, i);
        LowerAllAt(y, i);
      }
    }
  }

  /** isDefaultRule for every string: its lower-cased form is b3/s23 or
   *  b3s23, or it is exactly 23/3; every other spelling is refused. */
  lemma DefaultNamesExact(name: string)
    ensures IsDefaultRule(name) <==> LowerAll(name) == "b3/s23" || LowerAll(name) == "b3s23" || name == "23/3"
  {
    SameIgnoringCaseLower(name, "B3/S23");
    SameIgnoringCaseLower(name, "B3S23");
    assert LowerAll("B3/S23") == "b3/s23";
    assert LowerAll("B3S23") == "b3s23";
  }
}
