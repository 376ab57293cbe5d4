/** The cell lists of the Python scripting bindings.  A cell list is a Python
 *  list of ints: two per live cell (x, y) when its length is even, three per
 *  cell (x, y, state) when it is odd, a multi-state list whose cells fill an
 *  even number of ints carrying one padding 0 at the end.  The list object
 *  the helpers append to is the class PyList; parse, transform and join are
 *  methods that build one, each proved against a function of the cells it
 *  writes; the new-state rules of putcells are functions.
 */
module CellLists {
  import opened Outcomes

  /** One cell of a list: its position and its state (1 in a one-state list). */
  datatype Cell = Cell(x: int, y: int, state: int)

  /** The affine map x' = x0 + x*axx + y*axy, y' = y0 + x*ayx + y*ayy that
   *  parse, transform and putcells apply to every cell. */
  datatype Affine = Affine(x0: int, y0: int, axx: int, axy: int, ayx: int, ayy: int)

  /** The defaults of the optional parameters of parse. */
  const Identity := Affine(0, 0, 1, 0, 0, 1)

  function MapX(t: Affine, x: int, y: int): int { t.x0 + x * t.axx + y * t.axy }

  function MapY(t: Affine, x: int, y: int): int { t.y0 + x * t.ayx + y * t.ayy }

  /** The cell at (x, y), moved by t, with the given state. */
  function Placed(t: Affine, x: int, y: int, state: int): Cell {
    Cell(MapX(t, x, y), MapY(t, x, y), state)
  }

  /** Every cell moved by t, states kept. */
  function Move(cells: seq<Cell>, t: Affine): seq<Cell> {
    seq(|cells|, i requires 0 <= i < |cells| => Placed(t, cells[i].x, cells[i].y, cells[i].state))
  }

  /** Every cell with state 1: what a one-state list records of them. */
  function Live(cells: seq<Cell>): seq<Cell> {
    seq(|cells|, i requires 0 <= i < |cells| => cells[i].(state := 1))
  }

  // ---------------------------------------------------------------------
  // Reading and writing the two layouts

  /** A list holds three ints per cell iff its length is odd. */
  predicate MultiState(list: seq<int>) { |list| % 2 == 1 }

  /** Cell n of a list read with three ints per cell (multi) or two. */
  function CellAt(list: seq<int>, multi: bool, n: nat): Cell
    requires n < |list| / (if multi then 3 else 2)
  {
    if multi then Cell(list[3 * n], list[3 * n + 1], list[3 * n + 2])
    else Cell(list[2 * n], list[2 * n + 1], 1)
  }

  /** The cells of a list read with a given layout; a trailing padding int is
   *  not a cell. */
  function Decode(list: seq<int>, multi: bool): seq<Cell> {
    var k := if multi then 3 else 2;
    seq(|list| / k, n requires 0 <= n < |list| / k => CellAt(list, multi, n))
  }

  /** The cells of a list, read with the layout its length announces. */
  function Cells(list: seq<int>): seq<Cell> {
    Decode(list, MultiState(list))
  }

  /** The ints AddTwoInts (and AddState, for a multi-state list) append for
   *  one cell. */
  function Ints(c: Cell, multi: bool): seq<int> {
    if multi then [c.x, c.y, c.state] else [c.x, c.y]
  }

  /** The ints of the cells, in order, without padding. */
  function Encode(cells: seq<Cell>, multi: bool): (r: seq<int>)
    ensures |r| == (if multi then 3 else 2) * |cells|
  {
    if cells == [] then [] else Encode(cells[..|cells| - 1], multi) + Ints(cells[|cells| - 1], multi)
  }

  /** The list after AddPadding: the list itself or the list and one 0, so
   *  that a nonempty list has odd length. */
  function Padded(list: seq<int>): (r: seq<int>)
    ensures |r| == 0 || |r| % 2 == 1
    ensures |list| <= |r| <= |list| + 1 && r[..|list|] == list
    ensures |r| > |list| ==> r[|list|] == 0
  {
    if |list| == 0 then list
    else if |list| % 2 == 0 then list + [0]
    else list
  }

  /** The list a helper writes for its cells: their ints, padded when it
   *  writes states. */
  function Written(cells: seq<Cell>, multi: bool): seq<int> {
    if multi then Padded(Encode(cells, true)) else Encode(cells, false)
  }

  /** Ints of one cell sit at its place in the encoding. */
  lemma {:induction false} EncodeCell(cells: seq<Cell>, multi: bool, n: nat)
    requires n < |cells|
    ensures n < |Encode(cells, multi)| / (if multi then 3 else 2)
    ensures CellAt(Encode(cells, multi), multi, n) == if multi then cells[n] else cells[n].(state := 1)
  {
    var init := cells[..|cells| - 1];
    assert Encode(cells, multi) == Encode(init, multi) + Ints(cells[|cells| - 1], multi);
    if n < |init| {
      EncodeCell(init, multi, n);
      assert init[n] == cells[n];
    }
  }

  /** Reading back the ints of cells gives the cells, with state 1 for the
   *  two-int layout. */
  lemma DecodeEncode(cells: seq<Cell>, multi: bool)
    ensures Decode(Encode(cells, multi), multi) == if multi then cells else Live(cells)
  {
    forall n | 0 <= n < |cells|
      ensures CellAt(Encode(cells, multi), multi, n) == if multi then cells[n] else cells[n].(state := 1)
    {
      EncodeCell(cells, multi, n);
    }
  }

  /** The two-int layout does not record states. */
  lemma {:induction false} EncodeLive(cells: seq<Cell>)
    ensures Encode(Live(cells), false) == Encode(cells, false)
  {
    if cells != [] {
      assert Live(cells)[..|cells| - 1] == Live(cells[..|cells| - 1]);
      EncodeLive(cells[..|cells| - 1]);
    }
  }

  /** Appending cells appends their ints. */
  lemma {:induction false} EncodeAppend(a: seq<Cell>, b: seq<Cell>, multi: bool)
    ensures Encode(a + b, multi) == Encode(a, multi) + Encode(b, multi)
    decreases |b|
  {
    if b != [] {
      var b' := b[..|b| - 1];
      assert (a + b)[..|a + b| - 1] == a + b';
      assert (a + b)[|a + b| - 1] == b[|b| - 1];
      EncodeAppend(a, b', multi);
      assert Encode(b, multi) == Encode(b', multi) + Ints(b[|b| - 1], multi);
    } else {
      assert a + b == a;
    }
  }

  /** The padding 0 of a multi-state list is not read as a cell. */
  lemma DecodePadded(list: seq<int>)
    requires |list| % 3 == 0
    ensures Decode(Padded(list), true) == Decode(list, true)
  {
    var p := Padded(list);
    assert |p| / 3 == |list| / 3;
    forall n | 0 <= n < |list| / 3 ensures CellAt(p, true, n) == CellAt(list, true, n) {
      assert p[3 * n] == list[3 * n] && p[3 * n + 1] == list[3 * n + 1] && p[3 * n + 2] == list[3 * n + 2];
    }
  }

  /** A written list reads back as its cells (states 1 when written without
   *  states), and announces the multi-state layout iff it was written with
   *  states and holds a cell. */
  lemma CellsOfWritten(cells: seq<Cell>, multi: bool)
    ensures Cells(Written(cells, multi)) == if multi then cells else Live(cells)
    ensures MultiState(Written(cells, multi)) <==> multi && cells != []
  {
    DecodeEncode(cells, multi);
    if multi {
      if cells != [] {
        DecodePadded(Encode(cells, true));
      }
    }
  }

  /** The cells of a one-state list all have state 1. */
  lemma OneStateLive(list: seq<int>)
    requires !MultiState(list)
    ensures Live(Cells(list)) == Cells(list)
  {
  }

  // ---------------------------------------------------------------------
  // transform and join

  /** What transform returns: every cell moved by t, states kept, in the
   *  layout of the input. */
  function Transformed(list: seq<int>, t: Affine): seq<int> {
    var multi := MultiState(list);
    Written(Move(Decode(list, multi), t), multi)
  }

  /** transform keeps the number, order and states of the cells and moves
   *  each one by t; its result is multi-state iff its input is and holds a
   *  cell. */
  lemma TransformCells(list: seq<int>, t: Affine)
    ensures Cells(Transformed(list, t)) == Move(Cells(list), t)
    ensures |Cells(Transformed(list, t))| == |Cells(list)|
    ensures MultiState(Transformed(list, t)) <==> MultiState(list) && Cells(list) != []
  {
    var multi := MultiState(list);
    CellsOfWritten(Move(Decode(list, multi), t), multi);
    if !multi {
      assert Live(Move(Decode(list, multi), t)) == Move(Decode(list, multi), t);
    }
  }

  /** The default transform changes no cell. */
  lemma TransformIdentity(list: seq<int>)
    ensures Cells(Transformed(list, Identity)) == Cells(list)
  {
    TransformCells(list, Identity);
  }

  /** The map that applies t1, then t2. */
  function Compose(t2: Affine, t1: Affine): Affine {
    Affine(MapX(t2, t1.x0, t1.y0), MapY(t2, t1.x0, t1.y0),
           t1.axx * t2.axx + t1.ayx * t2.axy, t1.axy * t2.axx + t1.ayy * t2.axy,
           t1.axx * t2.ayx + t1.ayx * t2.ayy, t1.axy * t2.ayx + t1.ayy * t2.ayy)
  }

  /** Two transforms in a row are one transform by their composition. */
  lemma TransformTwice(list: seq<int>, t1: Affine, t2: Affine)
    ensures Cells(Transformed(Transformed(list, t1), t2)) == Cells(Transformed(list, Compose(t2, t1)))
  {
    TransformCells(list, t1);
    TransformCells(Transformed(list, t1), t2);
    TransformCells(list, Compose(t2, t1));
    var cs := Cells(list);
    forall i | 0 <= i < |cs|
      ensures Move(Move(cs, t1), t2)[i] == Move(cs, Compose(t2, t1))[i]
    {
      var x, y := cs[i].x, cs[i].y;
      assert MapX(t2, MapX(t1, x, y), MapY(t1, x, y)) == MapX(Compose(t2, t1), x, y) by {
        ComposeX(t1, t2, x, y);
      }
      assert MapY(t2, MapX(t1, x, y), MapY(t1, x, y)) == MapY(Compose(t2, t1), x, y) by {
        ComposeY(t1, t2, x, y);
      }
    }
  }

  lemma ComposeX(t1: Affine, t2: Affine, x: int, y: int)
    ensures MapX(t2, MapX(t1, x, y), MapY(t1, x, y)) == MapX(Compose(t2, t1), x, y)
  {
    MapOfMap(t2.x0, t1.x0, t1.axx, t1.axy, t1.y0, t1.ayx, t1.ayy, x, y, t2.axx, t2.axy);
  }

  lemma ComposeY(t1: Affine, t2: Affine, x: int, y: int)
    ensures MapY(t2, MapX(t1, x, y), MapY(t1, x, y)) == MapY(Compose(t2, t1), x, y)
  {
    MapOfMap(t2.y0, t1.x0, t1.axx, t1.axy, t1.y0, t1.ayx, t1.ayy, x, y, t2.ayx, t2.ayy);
  }

  /** One coordinate of a map applied to the two coordinates of another,
   *  regrouped by x and y. */
  lemma MapOfMap(c: int, u0: int, u1: int, u2: int, v0: int, v1: int, v2: int, x: int, y: int, k: int, m: int)
    ensures c + (u0 + x * u1 + y * u2) * k + (v0 + x * v1 + y * v2) * m
      == (c + u0 * k + v0 * m) + x * (u1 * k + v1 * m) + y * (u2 * k + v2 * m)
  {
    Distribute(u0, x * u1, y * u2, k);
    Distribute(v0, x * v1, y * v2, m);
    Associate(x, u1, k);
    Associate(y, u2, k);
    Associate(x, v1, m);
    Associate(y, v2, m);
    Factor(x, u1 * k, v1 * m);
    Factor(y, u2 * k, v2 * m);
  }

  lemma Distribute(a: int, b: int, c: int, k: int)
    ensures (a + b + c) * k == a * k + b * k + c * k
  {
  }

  lemma Associate(x: int, p: int, q: int)
    ensures (x * p) * q == x * (p * q)
  {
  }

  lemma Factor(x: int, p: int, q: int)
    ensures x * p + x * q == x * (p + q)
  {
  }

  /** What join returns: the cells of the first list, then those of the
   *  second, written with states iff either list has them. */
  function Joined(list1: seq<int>, list2: seq<int>): seq<int> {
    Written(Cells(list1) + Cells(list2), MultiState(list1) || MultiState(list2))
  }

  /** join keeps every cell of both lists, the first list's before the
   *  second's, one-state cells with state 1; the result is multi-state iff
   *  either input is and some cell is joined. */
  lemma JoinCells(list1: seq<int>, list2: seq<int>)
    ensures Cells(Joined(list1, list2)) == Cells(list1) + Cells(list2)
    ensures MultiState(Joined(list1, list2)) <==>
      (MultiState(list1) || MultiState(list2)) && |Cells(list1)| + |Cells(list2)| > 0
  {
    var multi := MultiState(list1) || MultiState(list2);
    CellsOfWritten(Cells(list1) + Cells(list2), multi);
    if !multi {
      OneStateLive(list1);
      OneStateLive(list2);
      assert Live(Cells(list1) + Cells(list2)) == Live(Cells(list1)) + Live(Cells(list2));
    }
  }

  // ---------------------------------------------------------------------
  // The list object

  /** A Python list of ints that the helpers append to. */
  class PyList {
    var items: seq<int>

    constructor ()
      ensures items == []
    {
      items := [];
    }

    /** AddTwoInts: append x and y. */
    method AddTwoInts(x: int, y: int)
      modifies this
      ensures items == old(items) + [x, y]
    {
      items := items + [x, y];
    }

    /** AddState: append a cell state. */
    method AddState(s: int)
      modifies this
      ensures items == old(items) + [s]
    {
      items := items + [s];
    }

    /** AddPadding: give a nonempty list odd length by appending one 0. */
    method AddPadding()
      modifies this
      ensures items == Padded(old(items))
    {
      var len := |items|;
      if len == 0 {
        return;
      }
      if len % 2 == 0 {
        items := items + [0];
      }
    }
  }

  /** Cell n of a list is read from the ints at (ints per cell) * n, as the
   *  loops of transform, join and putcells read them. */
  lemma CellItems(list: seq<int>, k: int, n: int)
    requires k == if MultiState(list) then 3 else 2
    requires 0 <= n < |list| / k
    ensures 0 <= k * n && k * n + k <= |list| && n < |Cells(list)|
    ensures Cells(list)[n] == Cell(list[k * n], list[k * n + 1], if k == 3 then list[k * n + 2] else 1)
  {
  }

  /** transform: move every cell of list by t. */
  method Transform(list: seq<int>, t: Affine) returns (r: seq<int>)
    ensures r == Transformed(list, t)
  {
    var out := new PyList();
    var multistate := |list| % 2 == 1;
    var intsPerCell := if multistate then 3 else 2;
    var numCells := |list| / intsPerCell;
    ghost var cells := Move(Decode(list, multistate), t);
    for n := 0 to numCells
      invariant out.items == Encode(cells[..n], multistate)
    {
      CellItems(list, intsPerCell, n);
      var item := intsPerCell * n;
      var x := list[item];
      var y := list[item + 1];
      out.AddTwoInts(MapX(t, x, y), MapY(t, x, y));
      if multistate {
        var state := list[item + 2];
        out.AddState(state);
      }
      assert cells[..n + 1][..n] == cells[..n];
    }
    assert cells[..numCells] == cells;
    if multistate {
      out.AddPadding();
    }
    r := out.items;
  }

  /** One more cell of a loop appends its ints. */
  lemma EncodeStep(start: seq<int>, cells: seq<Cell>, n: nat, multi: bool)
    requires n < |cells|
    ensures start + Encode(cells[..n + 1], multi) == start + Encode(cells[..n], multi) + Ints(cells[n], multi)
  {
    assert cells[..n + 1][..n] == cells[..n];
  }

  /** The ints of one cell as the loops append them: AddTwoInts, then
   *  AddState when the output list is multi-state. */
  method AddCell(out: PyList, x: int, y: int, state: int, withState: bool)
    modifies out
    ensures out.items == old(out.items) + Ints(Cell(x, y, state), withState)
  {
    out.AddTwoInts(x, y);
    if withState {
      out.AddState(state);
    }
  }

  /** The join loop over one input list: append its cells, with their states
   *  (1 for a one-state list) when multiOut. */
  method AppendCells(out: PyList, list: seq<int>, multiOut: bool)
    modifies out
    ensures out.items == old(out.items) + Encode(Cells(list), multiOut)
  {
    var multi := |list| % 2 == 1;
    var intsPerCell := if multi then 3 else 2;
    var numCells := |list| / intsPerCell;
    ghost var start := out.items;
    ghost var cells := Cells(list);
    for n := 0 to numCells
      invariant out.items == start + Encode(cells[..n], multiOut)
    {
      CellItems(list, intsPerCell, n);
      var item := intsPerCell * n;
      var x := list[item];
      var y := list[item + 1];
      var state;
      if multi {
        state := list[item + 2];
      } else {
        state := 1;
      }
      assert cells[n] == Cell(x, y, state);
      AddCell(out, x, y, state, multiOut);
      EncodeStep(start, cells, n, multiOut);
    }
    assert cells[..numCells] == cells;
  }

  /** join: the cells of list1 followed by those of list2. */
  method Join(list1: seq<int>, list2: seq<int>) returns (r: seq<int>)
    ensures r == Joined(list1, list2)
  {
    var multi1 := |list1| % 2 == 1;
    var multi2 := |list2| % 2 == 1;
    var multiOut := multi1 || multi2;
    ghost var cells1, cells2 := Cells(list1), Cells(list2);
    var out := new PyList();
    AppendCells(out, list1, multiOut);
    ghost var first := out.items;
    assert first == Encode(cells1, multiOut);
    AppendCells(out, list2, multiOut);
    EncodeAppend(cells1, cells2, multiOut);
    assert multiOut == (MultiState(list1) || MultiState(list2));
    if multiOut {
      out.AddPadding();
    }
    r := out.items;
  }

  // ---------------------------------------------------------------------
  // parse

  const IllegalState := "parse error: illegal multi-char state."

  predicate IsDigit(c: char) { '0' <= c <= '9' }

  /** A character that only multi-state RLE uses: a dead cell '.', the first
   *  letter p..y of a two-letter state or a state letter A..X. */
  predicate IsMultiChar(c: char) { c == '.' || ('p' <= c <= 'y') || ('A' <= c <= 'X') }

  /** parse treats RLE as multi-state iff it holds such a character. */
  predicate HasMultiChar(s: string) {
    exists i | 0 <= i < |s| :: IsMultiChar(s[i])
  }

  /** The state of a letter A..X: 1 to 24. */
  function Letter(c: char): (r: int)
    requires 'A' <= c <= 'X'
    ensures 1 <= r <= 24
  {
    c as int - 'A' as int + 1
  }

  /** The state of the two letters c (p..y) and d (A..X): 25 to 264, a
   *  different state for every pair. */
  function TwoLetterState(c: char, d: char): (r: int)
    requires 'p' <= c <= 'y' && 'A' <= d <= 'X'
    ensures 25 <= r <= 264
    ensures (r - 1) / 24 == c as int - 'p' as int + 1 && (r - 1) % 24 == d as int - 'A' as int
  {
    24 * (c as int - 'p' as int + 1) + Letter(d)
  }

  /** A run of n cells from (x, y) rightwards, with the given state. */
  function Run(t: Affine, x: int, y: int, n: nat, state: int): seq<Cell> {
    seq(n, k requires 0 <= k < n => Placed(t, x + k, y, state))
  }

  function Prepend(cells: seq<Cell>, r: Result<seq<Cell>>): Result<seq<Cell>> {
    match r
    case Ok(rest) => Ok(cells + rest)
    case Err(msg) => Err(msg)
  }

  /** The cells of the visual format from s[i..], with the cursor at (x, y):
   *  '*' is a live cell, '.' a dead one, a newline ends a nonempty row, and
   *  every other character is ignored. */
  function VisualCells(s: string, i: nat, t: Affine, x: int, y: int): seq<Cell>
    requires i <= |s|
    decreases |s| - i
  {
    if i == |s| then []
    else if s[i] == '\n' then
      if x != 0 then VisualCells(s, i + 1, t, 0, y + 1) else VisualCells(s, i + 1, t, x, y)
    else if s[i] == '.' then VisualCells(s, i + 1, t, x + 1, y)
    else if s[i] == '*' then [Placed(t, x, y, 1)] + VisualCells(s, i + 1, t, x + 1, y)
    else VisualCells(s, i + 1, t, x, y)
  }

  /** The cells of the RLE text s[i..], with the cursor at (x, y) and the
   *  digits read so far making prefix; the error of a bad two-letter state.
   *  A run count is the prefix, or 1 when there is none; '!' ends the
   *  pattern, '$' goes down count rows to x = 0, 'b' and '.' skip count
   *  cells, 'o' is count live cells (state 1), a letter A..X or a pair p..y
   *  A..X count cells of its state; every other character only resets the
   *  prefix. */
  function RleCells(s: string, i: nat, t: Affine, x: int, y: int, prefix: nat): Result<seq<Cell>>
    requires i <= |s|
    decreases |s| - i
  {
    if i == |s| then Ok([])
    else
      var c := s[i];
      if IsDigit(c) then RleCells(s, i + 1, t, x, y, 10 * prefix + (c as int - '0' as int))
      else
        var n := if prefix == 0 then 1 else prefix;
        if c == '!' then Ok([])
        else if c == '$' then RleCells(s, i + 1, t, 0, y + n, 0)
        else if c == 'b' || c == '.' then RleCells(s, i + 1, t, x + n, y, 0)
        else if c == 'o' then Prepend(Run(t, x, y, n, 1), RleCells(s, i + 1, t, x + n, y, 0))
        else if 'A' <= c <= 'X' then Prepend(Run(t, x, y, n, Letter(c)), RleCells(s, i + 1, t, x + n, y, 0))
        else if 'p' <= c <= 'y' then
          if i + 1 < |s| && 'A' <= s[i + 1] <= 'X' then
            Prepend(Run(t, x, y, n, TwoLetterState(c, s[i + 1])), RleCells(s, i + 2, t, x + n, y, 0))
          else Err(IllegalState)
        else RleCells(s, i + 1, t, x, y, 0)
  }

  /** What parse returns for s: the visual format iff s holds a '*', written
   *  as a one-state list; otherwise RLE, written with states iff s holds a
   *  multi-state character. */
  function Parsed(s: string, t: Affine): Result<seq<int>> {
    if '*' in s then Ok(Written(VisualCells(s, 0, t, 0, 0), false))
    else
      match RleCells(s, 0, t, 0, 0, 0)
      case Ok(cells) => Ok(Written(cells, HasMultiChar(s)))
      case Err(msg) => Err(msg)
  }

  /** parse: the cells of a visual or RLE pattern string, moved by t. */
  method Parse(s: string, t: Affine) returns (r: Result<seq<int>>)
    ensures r == Parsed(s, t)
  {
    if '*' in s {
      var list := ParseVisual(s, t);
      r := Ok(list);
    } else {
      r := ParseRle(s, t);
    }
  }

  /** The visual branch of parse. */
  method ParseVisual(s: string, t: Affine) returns (r: seq<int>)
    ensures r == Encode(VisualCells(s, 0, t, 0, 0), false)
  {
    var out := new PyList();
    var x, y := 0, 0;
    ghost var cells: seq<Cell> := [];
    var i := 0;
    while i < |s|
      invariant 0 <= i <= |s|
      invariant out.items == Encode(cells, false)
      invariant VisualCells(s, 0, t, 0, 0) == cells + VisualCells(s, i, t, x, y)
    {
      var c := s[i];
      if c == '\n' {
        if x != 0 {
          x, y := 0, y + 1;
        }
      } else if c == '.' {
        x := x + 1;
      } else if c == '*' {
        out.AddTwoInts(MapX(t, x, y), MapY(t, x, y));
        EncodeStep([], cells + [Placed(t, x, y, 1)], |cells|, false);
        assert (cells + [Placed(t, x, y, 1)])[..|cells|] == cells;
        cells := cells + [Placed(t, x, y, 1)];
        x := x + 1;
      }
      i := i + 1;
    }
    assert cells + [] == cells;
    r := out.items;
  }

  /** The scan of parse for a multi-state character. */
  method FindMultiChar(s: string) returns (multistate: bool)
    ensures multistate == HasMultiChar(s)
  {
    multistate := false;
    var p := 0;
    while p < |s|
      invariant 0 <= p <= |s|
      invariant forall j | 0 <= j < p :: !IsMultiChar(s[j])
    {
      var c := s[p];
      p := p + 1;
      if IsMultiChar(c) {
        multistate := true;
        break;
      }
    }
  }

  /** The run loops of parse: n cells from (x, y) rightwards, each followed
   *  by its state when withState; x ends past the run. */
  method AddRun(out: PyList, t: Affine, x: int, y: int, n: nat, state: int, withState: bool) returns (x': int)
    modifies out
    ensures out.items == old(out.items) + Encode(Run(t, x, y, n, state), withState)
    ensures x' == x + n
  {
    ghost var start := out.items;
    x' := x;
    for k := 0 to n
      invariant x' == x + k
      invariant out.items == start + Encode(Run(t, x, y, n, state)[..k], withState)
    {
      assert Run(t, x, y, n, state)[k] == Placed(t, x + k, y, state);
      AddCell(out, MapX(t, x', y), MapY(t, x', y), state, withState);
      EncodeStep(start, Run(t, x, y, n, state), k, withState);
      x' := x' + 1;
    }
    assert Run(t, x, y, n, state)[..n] == Run(t, x, y, n, state);
  }

  /** One non-digit symbol of the RLE loop of parse, at s[i] with the run
   *  count n already defaulted to 1: the cells it adds to out, the index
   *  past it and the new cursor. failed is the illegal-state error. */
  method RleSymbol(out: PyList, s: string, t: Affine, i: nat, x: int, y: int, n: nat, multistate: bool, ghost cells: seq<Cell>)
    returns (next: nat, x': int, y': int, done: bool, failed: bool, ghost cells': seq<Cell>)
    requires i < |s| && !IsDigit(s[i]) && n >= 1
    requires IsMultiChar(s[i]) ==> multistate
    requires out.items == Encode(cells, multistate)
    modifies out
    ensures failed ==> RleCells(s, i, t, x, y, n) == Err(IllegalState)
    ensures !failed ==> i < next <= |s| && out.items == Encode(cells', multistate)
    ensures !failed ==> Prepend(cells, RleCells(s, i, t, x, y, n)) == Prepend(cells', RleRest(s, next, t, x', y', 0, done))
  {
    var c := s[i];
    next, x', y', done, failed, cells' := i + 1, x, y, false, false, cells;
    RleMoves(s, i, t, x, y, n);
    if c == '!' {
      assert cells + [] == cells;
      done := true;
    } else if c == '$' {
      x', y' := 0, y + n;
    } else if c == 'b' || c == '.' {
      x' := x + n;
    } else if c == 'o' || ('A' <= c <= 'X') || ('p' <= c <= 'y') {
      var state;
      var withState := multistate;
      if c == 'o' {
        state := 1;
        RleRun(s, i, t, x, y, n, state);
      } else if c < 'p' {
        state := Letter(c);
        withState := true;
        RleRun(s, i, t, x, y, n, state);
      } else if next < |s| && 'A' <= s[next] <= 'X' {
        state := TwoLetterState(c, s[next]);
        withState := true;
        RleTwo(s, i, t, x, y, n);
        next := next + 1;
      } else {
        failed := true;
        return;
      }
      var run := Run(t, x, y, n, state);
      x' := AddRun(out, t, x, y, n, state, withState);
      PrependRun(cells, run, RleCells(s, next, t, x', y', 0), multistate);
      cells' := cells + run;
    }
  }

  /** What the RLE loop has still to add: nothing once it has met '!'. */
  ghost function RleRest(s: string, i: nat, t: Affine, x: int, y: int, prefix: nat, done: bool): Result<seq<Cell>>
    requires i <= |s|
  {
    if done then Ok([]) else RleCells(s, i, t, x, y, prefix)
  }

  /** The RLE branch of parse. */
  method ParseRle(s: string, t: Affine) returns (r: Result<seq<int>>)
    requires '*' !in s
    ensures r == Parsed(s, t)
  {
    var out := new PyList();
    var x, y := 0, 0;
    var multistate := FindMultiChar(s);
    var prefix := 0;
    var done := false;
    ghost var cells: seq<Cell> := [];
    var i := 0;
    PrependRun([], [], RleCells(s, 0, t, 0, 0, 0), multistate);
    while i < |s| && !done
      invariant 0 <= i <= |s| && prefix >= 0
      invariant out.items == Encode(cells, multistate)
      invariant RleCells(s, 0, t, 0, 0, 0) == Prepend(cells, RleRest(s, i, t, x, y, prefix, done))
      decreases |s| - i
    {
      var c := s[i];
      if IsDigit(c) {
        RleMoves(s, i, t, x, y, prefix);
        prefix := 10 * prefix + (c as int - '0' as int);
        i := i + 1;
      } else {
        if prefix == 0 {
          prefix := 1;
          RleMoves(s, i, t, x, y, 0);
        }
        assert IsMultiChar(c) ==> HasMultiChar(s);
        var failed;
        i, x, y, done, failed, cells := RleSymbol(out, s, t, i, x, y, prefix, multistate, cells);
        if failed {
          RleFails(s, t, cells);
          return Err(IllegalState);
        }
        prefix := 0;
      }
    }
    RleEnds(s, t, cells, multistate);
    if multistate {
      out.AddPadding();
    }
    r := Ok(out.items);
  }

  /** The RLE loop's error is parse's. */
  lemma RleFails(s: string, t: Affine, cells: seq<Cell>)
    requires '*' !in s && RleCells(s, 0, t, 0, 0, 0) == Prepend(cells, Err(IllegalState))
    ensures Parsed(s, t) == Err(IllegalState)
  {
  }

  /** The cells the RLE loop has added when it ends are parse's. */
  lemma RleEnds(s: string, t: Affine, cells: seq<Cell>, multistate: bool)
    requires '*' !in s && multistate == HasMultiChar(s)
    requires RleCells(s, 0, t, 0, 0, 0) == Prepend(cells, Ok([]))
    ensures Parsed(s, t) == Ok(Written(cells, multistate))
  {
    assert cells + [] == cells;
  }

  /** The cells of a run join those before it, in the result and in the
   *  ints. */
  lemma PrependRun(cells: seq<Cell>, run: seq<Cell>, rest: Result<seq<Cell>>, multi: bool)
    ensures Prepend(cells, Prepend(run, rest)) == Prepend(cells + run, rest)
    ensures Encode(cells + run, multi) == Encode(cells, multi) + Encode(run, multi)
    ensures Prepend([], rest) == rest
  {
    EncodeAppend(cells, run, multi);
    if rest.Ok? {
      assert cells + (run + rest.value) == cells + run + rest.value;
      assert [] + rest.value == rest.value;
    }
  }

  /** A result of cells, moved by t. */
  function MoveResult(r: Result<seq<Cell>>, t: Affine): Result<seq<Cell>> {
    match r
    case Ok(cells) => Ok(Move(cells, t))
    case Err(msg) => Err(msg)
  }

  lemma MoveAppend(a: seq<Cell>, b: seq<Cell>, t: Affine)
    ensures Move(a + b, t) == Move(a, t) + Move(b, t)
  {
  }

  /** The visual cells under t are the untransformed ones moved by t. */
  lemma {:induction false} VisualMove(s: string, i: nat, t: Affine, x: int, y: int)
    requires i <= |s|
    ensures VisualCells(s, i, t, x, y) == Move(VisualCells(s, i, Identity, x, y), t)
    decreases |s| - i
  {
    if i < |s| {
      if s[i] == '\n' {
        if x != 0 {
          VisualMove(s, i + 1, t, 0, y + 1);
        } else {
          VisualMove(s, i + 1, t, x, y);
        }
      } else if s[i] == '.' {
        VisualMove(s, i + 1, t, x + 1, y);
      } else if s[i] == '*' {
        VisualMove(s, i + 1, t, x + 1, y);
        MoveAppend([Placed(Identity, x, y, 1)], VisualCells(s, i + 1, Identity, x + 1, y), t);
      } else {
        VisualMove(s, i + 1, t, x, y);
      }
    }
  }

  /** A run under t is the untransformed run moved by t. */
  lemma RunMove(t: Affine, x: int, y: int, n: nat, state: int, rest: Result<seq<Cell>>)
    ensures Prepend(Run(t, x, y, n, state), MoveResult(rest, t)) == MoveResult(Prepend(Run(Identity, x, y, n, state), rest), t)
  {
    forall k | 0 <= k < n ensures Run(t, x, y, n, state)[k] == Move(Run(Identity, x, y, n, state), t)[k] {
      var c := Run(Identity, x, y, n, state)[k];
      assert c == Placed(Identity, x + k, y, state);
      assert c.x == x + k && c.y == y by {
        assert MapX(Identity, x + k, y) == 0 + (x + k) * 1 + y * 0;
      }
    }
    assert Run(t, x, y, n, state) == Move(Run(Identity, x, y, n, state), t);
    if rest.Ok? {
      MoveAppend(Run(Identity, x, y, n, state), rest.value, t);
    }
  }

  /** The RLE cells under t are the untransformed ones moved by t, and the
   *  error does not depend on t. */
  lemma {:induction false} RleMove(s: string, i: nat, t: Affine, x: int, y: int, prefix: nat)
    requires i <= |s|
    ensures RleCells(s, i, t, x, y, prefix) == MoveResult(RleCells(s, i, Identity, x, y, prefix), t)
    decreases |s| - i
  {
    assert Move([], t) == [];
    if i < |s| {
      var c := s[i];
      var n := if prefix == 0 then 1 else prefix;
      if IsDigit(c) {
        RleMove(s, i + 1, t, x, y, 10 * prefix + (c as int - '0' as int));
      } else if c == '!' {
      } else if c == '$' {
        RleMove(s, i + 1, t, 0, y + n, 0);
      } else if c == 'b' || c == '.' {
        RleMove(s, i + 1, t, x + n, y, 0);
      } else if c == 'o' {
        RleMove(s, i + 1, t, x + n, y, 0);
        RunMove(t, x, y, n, 1, RleCells(s, i + 1, Identity, x + n, y, 0));
      } else if 'A' <= c <= 'X' {
        RleMove(s, i + 1, t, x + n, y, 0);
        RunMove(t, x, y, n, Letter(c), RleCells(s, i + 1, Identity, x + n, y, 0));
      } else if 'p' <= c <= 'y' {
        if i + 1 < |s| && 'A' <= s[i + 1] <= 'X' {
          RleMove(s, i + 2, t, x + n, y, 0);
          RunMove(t, x, y, n, TwoLetterState(c, s[i + 1]), RleCells(s, i + 2, Identity, x + n, y, 0));
        }
      } else {
        RleMove(s, i + 1, t, x, y, 0);
      }
    }
  }

  /** Transforming a written list writes the moved cells. */
  lemma TransformWritten(cells: seq<Cell>, multi: bool, t: Affine)
    ensures Transformed(Written(cells, multi), t) == Written(Move(cells, t), multi)
  {
    var list := Written(cells, multi);
    CellsOfWritten(cells, multi);
    if !multi {
      assert Move(Live(cells), t) == Live(Move(cells, t));
      EncodeLive(Move(cells, t));
    } else if cells == [] {
      assert list == [];
    }
  }

  /** parse with a transform is transform applied to the untransformed
   *  parse: the same error, or the same cells moved by t in the same
   *  layout. */
  lemma ParseIsTransform(s: string, t: Affine)
    ensures Parsed(s, Identity).Err? ==> Parsed(s, t) == Parsed(s, Identity)
    ensures Parsed(s, Identity).Ok? ==> Parsed(s, t) == Ok(Transformed(Parsed(s, Identity).value, t))
  {
    if '*' in s {
      VisualMove(s, 0, t, 0, 0);
      TransformWritten(VisualCells(s, 0, Identity, 0, 0), false, t);
    } else {
      RleMove(s, 0, t, 0, 0, 0);
      if RleCells(s, 0, Identity, 0, 0, 0).Ok? {
        TransformWritten(RleCells(s, 0, Identity, 0, 0, 0).value, HasMultiChar(s), t);
      }
    }
  }

  /** The visual format yields one cell per '*'. */
  lemma {:induction false} VisualCount(s: string, i: nat, t: Affine, x: int, y: int)
    requires i <= |s|
    ensures |VisualCells(s, i, t, x, y)| == multiset(s[i..])['*']
    decreases |s| - i
  {
    if i < |s| {
      assert s[i..] == [s[i]] + s[i + 1..];
      if s[i] == '\n' && x != 0 {
        VisualCount(s, i + 1, t, 0, y + 1);
      } else if s[i] == '.' || s[i] == '*' {
        VisualCount(s, i + 1, t, x + 1, y);
      } else {
        VisualCount(s, i + 1, t, x, y);
      }
    }
  }

  /** A string with a '*' parses as a one-state list with a live cell per
   *  '*'. */
  lemma ParseVisualCells(s: string, t: Affine)
    requires '*' in s
    ensures Parsed(s, t).Ok? && !MultiState(Parsed(s, t).value)
    ensures |Cells(Parsed(s, t).value)| == multiset(s)['*']
    ensures StatesIn(Cells(Parsed(s, t).value), 1, 1)
  {
    VisualCount(s, 0, t, 0, 0);
    assert s[0..] == s;
    CellsOfWritten(VisualCells(s, 0, t, 0, 0), false);
  }

  /** Every cell has a state in lo..hi. */
  predicate StatesIn(cells: seq<Cell>, lo: int, hi: int) {
    forall k | 0 <= k < |cells| :: lo <= cells[k].state <= hi
  }

  /** Every RLE cell has a state in 1..264, and state 1 when s[i..] holds no
   *  multi-state character. */
  lemma {:induction false} RleStates(s: string, i: nat, t: Affine, x: int, y: int, prefix: nat)
    requires i <= |s|
    ensures RleCells(s, i, t, x, y, prefix).Ok? ==> StatesIn(RleCells(s, i, t, x, y, prefix).value, 1, 264)
    ensures RleCells(s, i, t, x, y, prefix).Ok? && !HasMultiChar(s[i..]) ==>
      StatesIn(RleCells(s, i, t, x, y, prefix).value, 1, 1)
    decreases |s| - i
  {
    if i < |s| {
      var c := s[i];
      var n := if prefix == 0 then 1 else prefix;
      MultiCharTail(s, i);
      if IsDigit(c) {
        RleStates(s, i + 1, t, x, y, 10 * prefix + (c as int - '0' as int));
      } else if c == '!' {
      } else if c == '$' {
        RleStates(s, i + 1, t, 0, y + n, 0);
      } else if c == 'b' || c == '.' {
        RleStates(s, i + 1, t, x + n, y, 0);
      } else if c == 'o' {
        RleStates(s, i + 1, t, x + n, y, 0);
        RunState(t, x, y, n, 1);
        RunStates(Run(t, x, y, n, 1), RleCells(s, i + 1, t, x + n, y, 0), 1, 264);
        RunStates(Run(t, x, y, n, 1), RleCells(s, i + 1, t, x + n, y, 0), 1, 1);
      } else if 'A' <= c <= 'X' {
        RleStates(s, i + 1, t, x + n, y, 0);
        RunState(t, x, y, n, Letter(c));
        RunStates(Run(t, x, y, n, Letter(c)), RleCells(s, i + 1, t, x + n, y, 0), 1, 264);
        assert IsMultiChar(s[i..][0]);
      } else if 'p' <= c <= 'y' {
        assert IsMultiChar(s[i..][0]);
        if i + 1 < |s| && 'A' <= s[i + 1] <= 'X' {
          RleStates(s, i + 2, t, x + n, y, 0);
          var state := TwoLetterState(c, s[i + 1]);
          RunState(t, x, y, n, state);
          RunStates(Run(t, x, y, n, state), RleCells(s, i + 2, t, x + n, y, 0), 1, 264);
        }
      } else {
        RleStates(s, i + 1, t, x, y, 0);
      }
    }
  }

  /** A multi-state character after position i is one after position i - 1. */
  lemma MultiCharTail(s: string, i: nat)
    requires i < |s|
    ensures HasMultiChar(s[i + 1..]) ==> HasMultiChar(s[i..])
  {
    if HasMultiChar(s[i + 1..]) {
      var j :| 0 <= j < |s[i + 1..]| && IsMultiChar(s[i + 1..][j]);
      assert s[i..][j + 1] == s[i + 1..][j];
    }
  }

  /** Every cell of a run has the run's state. */
  lemma RunState(t: Affine, x: int, y: int, n: nat, state: int)
    ensures StatesIn(Run(t, x, y, n, state), state, state)
  {
    forall k | 0 <= k < n ensures Run(t, x, y, n, state)[k].state == state {
      assert Run(t, x, y, n, state)[k] == Placed(t, x + k, y, state);
    }
  }

  /** Cells of a run and of what follows it keep their state bounds. */
  lemma RunStates(run: seq<Cell>, rest: Result<seq<Cell>>, lo: int, hi: int)
    requires StatesIn(run, lo, hi)
    ensures rest.Ok? && StatesIn(rest.value, lo, hi) ==> StatesIn(Prepend(run, rest).value, lo, hi)
  {
    if rest.Ok? && StatesIn(rest.value, lo, hi) {
      var all := run + rest.value;
      forall k | 0 <= k < |all| ensures lo <= all[k].state <= hi {
        if k >= |run| {
          assert all[k] == rest.value[k - |run|];
        }
      }
    }
  }

  /** parse never yields a dead cell: every state is in 1..264, and 1 in a
   *  one-state result; a result is multi-state iff it is RLE with a
   *  multi-state character and holds a cell. */
  lemma ParseStates(s: string, t: Affine)
    requires Parsed(s, t).Ok?
    ensures StatesIn(Cells(Parsed(s, t).value), 1, 264)
    ensures !MultiState(Parsed(s, t).value) ==> StatesIn(Cells(Parsed(s, t).value), 1, 1)
    ensures MultiState(Parsed(s, t).value) <==> '*' !in s && HasMultiChar(s) && Cells(Parsed(s, t).value) != []
  {
    if '*' in s {
      ParseVisualCells(s, t);
    } else {
      var cells := RleCells(s, 0, t, 0, 0, 0).value;
      RleStates(s, 0, t, 0, 0, 0);
      assert s[0..] == s;
      CellsOfWritten(cells, HasMultiChar(s));
    }
  }

  /** An RLE error is the bad two-letter state, after a letter p..y. */
  lemma {:induction false} RleError(s: string, i: nat, t: Affine, x: int, y: int, prefix: nat)
    requires i <= |s|
    ensures RleCells(s, i, t, x, y, prefix).Err? ==>
      RleCells(s, i, t, x, y, prefix).msg == IllegalState && exists j | i <= j < |s| :: 'p' <= s[j] <= 'y'
    decreases |s| - i
  {
    if i < |s| {
      var c := s[i];
      var n := if prefix == 0 then 1 else prefix;
      if IsDigit(c) {
        RleError(s, i + 1, t, x, y, 10 * prefix + (c as int - '0' as int));
      } else if c == '!' {
      } else if c == '$' {
        RleError(s, i + 1, t, 0, y + n, 0);
      } else if c == 'b' || c == '.' {
        RleError(s, i + 1, t, x + n, y, 0);
      } else if c == 'o' {
        RleError(s, i + 1, t, x + n, y, 0);
      } else if 'A' <= c <= 'X' {
        RleError(s, i + 1, t, x + n, y, 0);
      } else if 'p' <= c <= 'y' {
        if i + 1 < |s| && 'A' <= s[i + 1] <= 'X' {
          RleError(s, i + 2, t, x + n, y, 0);
        }
      } else {
        RleError(s, i + 1, t, x, y, 0);
      }
    }
  }

  /** parse fails only on RLE text with a letter p..y, with the message of
   *  a bad two-letter state. */
  lemma ParseError(s: string, t: Affine)
    requires Parsed(s, t).Err?
    ensures Parsed(s, t).msg == IllegalState
    ensures '*' !in s && exists j | 0 <= j < |s| :: 'p' <= s[j] <= 'y'
  {
    RleError(s, 0, t, 0, 0, 0);
  }

  /** One step of RLE at a digit, at a character that moves the cursor
   *  and at '!'. */
  lemma RleMoves(s: string, i: nat, t: Affine, x: int, y: int, prefix: nat)
    requires i < |s|
    ensures IsDigit(s[i]) ==> RleCells(s, i, t, x, y, prefix) == RleCells(s, i + 1, t, x, y, 10 * prefix + (s[i] as int - '0' as int))
    ensures s[i] == 'b' || s[i] == '.' ==> RleCells(s, i, t, x, y, prefix) == RleCells(s, i + 1, t, x + (if prefix == 0 then 1 else prefix), y, 0)
    ensures s[i] == '$' ==> RleCells(s, i, t, x, y, prefix) == RleCells(s, i + 1, t, 0, y + (if prefix == 0 then 1 else prefix), 0)
    ensures s[i] == '!' ==> RleCells(s, i, t, x, y, prefix) == Ok([])
    ensures !IsDigit(s[i]) && !IsMultiChar(s[i]) && s[i] != '!' && s[i] != '$' && s[i] != 'b' && s[i] != 'o' ==>
      RleCells(s, i, t, x, y, prefix) == RleCells(s, i + 1, t, x, y, 0)
  {
  }

  /** One step of RLE at a one-letter state: its run, then the rest. */
  lemma RleRun(s: string, i: nat, t: Affine, x: int, y: int, prefix: nat, state: int)
    requires i < |s| && (s[i] == 'o' || 'A' <= s[i] <= 'X')
    requires state == if s[i] == 'o' then 1 else Letter(s[i])
    ensures var n := if prefix == 0 then 1 else prefix;
      RleCells(s, i, t, x, y, prefix) == Prepend(Run(t, x, y, n, state), RleCells(s, i + 1, t, x + n, y, 0))
  {
  }

  /** One step of RLE at a two-letter state: its run, then the rest after
   *  both letters. */
  lemma RleTwo(s: string, i: nat, t: Affine, x: int, y: int, prefix: nat)
    requires i + 1 < |s| && 'p' <= s[i] <= 'y' && 'A' <= s[i + 1] <= 'X'
    ensures var n := if prefix == 0 then 1 else prefix;
      RleCells(s, i, t, x, y, prefix) == Prepend(Run(t, x, y, n, TwoLetterState(s[i], s[i + 1])), RleCells(s, i + 2, t, x + n, y, 0))
  {
  }

  /** The cells of a run of one. */
  lemma RunOne(t: Affine, x: int, y: int, state: int)
    ensures Run(t, x, y, 1, state) == [Placed(t, x, y, state)]
  {
    assert Run(t, x, y, 1, state)[0] == Placed(t, x + 0, y, state);
  }

  /** The glider "bo$2bo$3o!" parses as the one-state list of its five
   *  cells, moved by t. */
  lemma GliderParse(t: Affine)
    ensures Parsed("bo$2bo$3o!", t) == Ok(Encode([Placed(t, 1, 0, 1), Placed(t, 2, 1, 1),
      Placed(t, 0, 2, 1), Placed(t, 1, 2, 1), Placed(t, 2, 2, 1)], false))
  {
    var s := "bo$2bo$3o!";
    assert '*' !in s && !HasMultiChar(s);
    GliderCells(s, t);
  }

  /** The cells of the glider's RLE text, row by row. */
  lemma GliderCells(s: string, t: Affine)
    requires s == "bo$2bo$3o!"
    ensures RleCells(s, 0, t, 0, 0, 0) == Ok([Placed(t, 1, 0, 1), Placed(t, 2, 1, 1),
      Placed(t, 0, 2, 1), Placed(t, 1, 2, 1), Placed(t, 2, 2, 1)])
  {
    GliderMiddle(s, t);
    RleMoves(s, 4, t, 0, 1, 2);
    RleMoves(s, 3, t, 0, 1, 0);
    RleMoves(s, 2, t, 2, 0, 0);
    RleRun(s, 1, t, 1, 0, 0, 1);
    RleMoves(s, 0, t, 0, 0, 0);
    RunOne(t, 1, 0, 1);
    assert [Placed(t, 1, 0, 1), Placed(t, 2, 1, 1), Placed(t, 0, 2, 1), Placed(t, 1, 2, 1), Placed(t, 2, 2, 1)]
      == [Placed(t, 1, 0, 1)] + [Placed(t, 2, 1, 1), Placed(t, 0, 2, 1), Placed(t, 1, 2, 1), Placed(t, 2, 2, 1)];
  }

  /** The glider from its second row on: the cell of "2bo", then the
   *  last row. */
  lemma GliderMiddle(s: string, t: Affine)
    requires s == "bo$2bo$3o!"
    ensures RleCells(s, 5, t, 2, 1, 0) == Ok([Placed(t, 2, 1, 1), Placed(t, 0, 2, 1), Placed(t, 1, 2, 1), Placed(t, 2, 2, 1)])
  {
    GliderLast(s, t);
    RleMoves(s, 7, t, 0, 2, 0);
    RleMoves(s, 6, t, 3, 1, 0);
    RleRun(s, 5, t, 2, 1, 0, 1);
    RunOne(t, 2, 1, 1);
    var row := [Placed(t, 0, 2, 1), Placed(t, 1, 2, 1), Placed(t, 2, 2, 1)];
    assert [Placed(t, 2, 1, 1)] + row == [Placed(t, 2, 1, 1), Placed(t, 0, 2, 1), Placed(t, 1, 2, 1), Placed(t, 2, 2, 1)];
  }

  /** The glider's last row "3o!": three cells. */
  lemma GliderLast(s: string, t: Affine)
    requires s == "bo$2bo$3o!"
    ensures RleCells(s, 8, t, 0, 2, 3) == Ok([Placed(t, 0, 2, 1), Placed(t, 1, 2, 1), Placed(t, 2, 2, 1)])
  {
    var row := [Placed(t, 0, 2, 1), Placed(t, 1, 2, 1), Placed(t, 2, 2, 1)];
    RleMoves(s, 9, t, 3, 2, 0);
    RleRun(s, 8, t, 0, 2, 3, 1);
    assert Run(t, 0, 2, 3, 1) == row by {
      assert Run(t, 0, 2, 3, 1)[0] == Placed(t, 0 + 0, 2, 1);
      assert Run(t, 0, 2, 3, 1)[1] == Placed(t, 0 + 1, 2, 1);
      assert Run(t, 0, 2, 3, 1)[2] == Placed(t, 0 + 2, 2, 1);
    }
    assert row + [] == row;
  }

  /** A multi-state string: cells of states 1 and 2 with a dead cell
   *  between, moved by t and padded to seven ints. */
  lemma MultiStateParse(t: Affine)
    ensures Parsed("A.B!", t) == Ok([MapX(t, 0, 0), MapY(t, 0, 0), 1, MapX(t, 2, 0), MapY(t, 2, 0), 2, 0])
  {
    var s := "A.B!";
    assert IsMultiChar(s[0]);
    var cells := [Placed(t, 0, 0, 1), Placed(t, 2, 0, 2)];
    assert RleCells(s, 2, t, 2, 0, 0) == Ok(cells[1..]) by {
      RleMoves(s, 3, t, 3, 0, 0);
      RleRun(s, 2, t, 2, 0, 0, 2);
      RunOne(t, 2, 0, 2);
      assert cells[1..] + [] == cells[1..];
    }
    assert RleCells(s, 0, t, 0, 0, 0) == Ok(cells) by {
      RleMoves(s, 1, t, 1, 0, 0);
      RleRun(s, 0, t, 0, 0, 0, 1);
      RunOne(t, 0, 0, 1);
      assert cells == [cells[0]] + cells[1..];
    }
    assert Encode(cells, true) == [MapX(t, 0, 0), MapY(t, 0, 0), 1, MapX(t, 2, 0), MapY(t, 2, 0), 2] by {
      assert cells[..1][..0] == [];
    }
    assert '*' !in s && HasMultiChar(s);
    assert Written(cells, true) == Encode(cells, true) + [0];
    assert Parsed(s, t) == Ok(Written(cells, true));
    assert [MapX(t, 0, 0), MapY(t, 0, 0), 1, MapX(t, 2, 0), MapY(t, 2, 0), 2] + [0]
        == [MapX(t, 0, 0), MapY(t, 0, 0), 1, MapX(t, 2, 0), MapY(t, 2, 0), 2, 0];
  }

  /** A letter p..y not followed by A..X is an error, whatever t. */
  lemma BadStateParse(t: Affine)
    ensures Parsed("2pZ!", t) == Err(IllegalState)
  {
    RleMoves("2pZ!", 0, t, 0, 0, 0);
  }

  // ---------------------------------------------------------------------
  // putcells

  /** The paste modes of putcells. */
  datatype Mode = Copy | Or | Xor | Not

  /** Bitwise exclusive or of two non-negative ints. */
  function BitXor(a: nat, b: nat): nat
    decreases a + b
  {
    if a == 0 && b == 0 then 0 else 2 * BitXor(a / 2, b / 2) + (a % 2 + b % 2) % 2
  }

  /** The operator ^ of C on ints, in two's complement. */
  function CXor(a: int, b: int): int {
    if a >= 0 && b >= 0 then BitXor(a, b)
    else if a < 0 && b < 0 then BitXor(-1 - a, -1 - b)
    else if a < 0 then -1 - BitXor(-1 - a, b)
    else -1 - BitXor(a, -1 - b)
  }

  /** The state putcells gives a cell whose state is current, for a list
   *  cell of state given (read only from a multi-state list), in a universe
   *  of numStates states: xor toggles a one-state cell and xors a state,
   *  keeping the current one when the xor is not a state; not pastes the
   *  complement of the state, or dead cells from a one-state list; copy and
   *  or paste the state.  For states of the universe the result is one too,
   *  except that xor with a one-state list needs current at most 1. */
  function NewState(mode: Mode, multi: bool, given: int, current: int, numStates: int): (r: int)
    ensures 2 <= numStates && 0 <= given < numStates && 0 <= current < numStates && (mode == Xor && !multi ==> current <= 1)
      ==> 0 <= r < numStates
  {
    if mode == Xor then
      if multi then
        if given == current then (if current != 0 then 0 else given)
        else
          var v := CXor(given, current);
          if v >= numStates then current else v
      else 1 - current
    else
      var s := if multi then given else if mode == Not then 0 else 1;
      if mode == Not && multi then numStates - 1 - s else s
  }

  lemma {:induction false} BitXorZero(a: nat)
    ensures BitXor(a, 0) == a && BitXor(0, a) == a
  {
    if a != 0 {
      BitXorZero(a / 2);
    }
  }

  lemma {:induction false} BitXorSelf(a: nat)
    ensures BitXor(a, a) == 0
  {
    if a != 0 {
      BitXorSelf(a / 2);
    }
  }

  /** Xor with a twice gives back b. */
  lemma HalfOf(q: nat, bit: nat)
    requires bit < 2
    ensures (2 * q + bit) / 2 == q && (2 * q + bit) % 2 == bit
  {
  }

  lemma ParityCancel(p: nat, r: nat)
    requires p < 2 && r < 2
    ensures (p + (p + r) % 2) % 2 == r
  {
  }

  lemma {:induction false} BitXorCancel(a: nat, b: nat)
    ensures BitXor(a, BitXor(a, b)) == b
    decreases a + b
  {
    if a == 0 {
      BitXorZero(b);
      BitXorZero(BitXor(0, b));
    } else {
      var q := BitXor(a / 2, b / 2);
      var bit := (a % 2 + b % 2) % 2;
      var c := BitXor(a, b);
      assert c == 2 * q + bit;
      HalfOf(q, bit);
      assert BitXor(a, c) == 2 * BitXor(a / 2, q) + (a % 2 + bit) % 2;
      BitXorCancel(a / 2, b / 2);
      ParityCancel(a % 2, b % 2);
    }
  }

  /** Pasting the same list cell twice in xor mode restores the cell. */
  lemma XorTwiceRestores(multi: bool, given: int, current: int, numStates: int)
    requires 2 <= numStates && 0 <= given < numStates && 0 <= current < numStates && (!multi ==> current <= 1)
    ensures NewState(Xor, multi, given, NewState(Xor, multi, given, current, numStates), numStates) == current
  {
    if multi && given != current {
      var v := BitXor(given, current);
      if v < numStates {
        BitXorCancel(given, current);
        if v == given {
          BitXorSelf(given);
        }
      }
    } else if multi && current != 0 {
      BitXorZero(given);
    }
  }

  /** The complement of not mode is its own inverse on states. */
  lemma NotTwiceRestores(given: int, current: int, current': int, numStates: int)
    requires 2 <= numStates && 0 <= given < numStates
    ensures NewState(Not, true, NewState(Not, true, given, current, numStates), current', numStates) == given
    ensures NewState(Not, false, given, current, numStates) == 0
  {
  }
}
