/**
 * The game state of MineSweap (Minesweap/MineSweapPart.java): a 16 by 16
 * grid in which 9 marks a mine and every other cell holds how many of its
 * (up to eight) neighbours are mines, and the two counters shown to and
 * hidden from the player, `guessedMinesLeft` and `actualMinesLeft`, that
 * flagging and unflagging move. The random coordinates of the mines are
 * inputs here.
 */
module Minesweeper {
  const Rows: int := 16
  const Cols: int := 16
  const TotalMines: int := 10
  const NoMinesValue: int := 0
  const AllMinesValue: int := 8
  const MineValue: int := 9
  const ExposedMineSymbol: string := "BOMB"

  type Cell = (int, int)
  type Grid = seq<seq<int>>

  predicate IsGrid(g: Grid) {
    |g| == Rows && forall r :: 0 <= r < Rows ==> |g[r]| == Cols
  }

  predicate InBounds(r: int, c: int) {
    0 <= r < Rows && 0 <= c < Cols
  }

  /** One of the eight cells around `(r, c)`. */
  predicate Adjacent(i: int, j: int, r: int, c: int) {
    (i, j) != (r, c) && -1 <= i - r <= 1 && -1 <= j - c <= 1
  }

  /** The cells holding a mine. */
  function Mines(g: Grid): set<Cell>
    requires IsGrid(g)
  {
    set i, j | 0 <= i < Rows && 0 <= j < Cols && g[i][j] == MineValue :: (i, j)
  }

  lemma MineAt(g: Grid, r: int, c: int)
    requires IsGrid(g) && InBounds(r, c)
    ensures (r, c) in Mines(g) <==> g[r][c] == MineValue
  {
  }

  /** The mines among the in-bounds neighbours of `(r, c)`. */
  function MinesAround(g: Grid, r: int, c: int): set<Cell>
    requires IsGrid(g)
  {
    set i, j | 0 <= i < Rows && 0 <= j < Cols && Adjacent(i, j, r, c) && g[i][j] == MineValue :: (i, j)
  }

  /** Every cell that is not a mine holds the number of mines around it. */
  ghost predicate Consistent(g: Grid) {
    && IsGrid(g)
    && forall r, c :: InBounds(r, c) && g[r][c] != MineValue ==> g[r][c] == |MinesAround(g, r, c)|
  }

  /** The grid as `createContents` leaves it: all zeros. */
  function Blank(): (g: Grid)
    ensures IsGrid(g)
  {
    seq(Rows, _ => seq(Cols, _ => NoMinesValue))
  }

  /**
   * One turn of `setMines`' loop at `(r, c)`: nothing happens on a mine;
   * otherwise the cell becomes a mine and each in-bounds neighbour that is
   * not a mine goes up by one.
   */
  function Placed(g: Grid, r: int, c: int): (h: Grid)
    requires IsGrid(g) && InBounds(r, c)
    ensures IsGrid(h)
  {
    if g[r][c] == MineValue then g
    else
      seq(Rows, i requires 0 <= i < Rows => seq(Cols, j requires 0 <= j < Cols =>
        if (i, j) == (r, c) then MineValue
        else if Adjacent(i, j, r, c) && g[i][j] != MineValue then g[i][j] + 1
        else g[i][j]))
  }

  lemma BlankConsistent()
    ensures Consistent(Blank()) && Mines(Blank()) == {}
  {
    var g := Blank();
    forall r, c | InBounds(r, c) ensures MinesAround(g, r, c) == {} {
    }
  }

  /** The eight positions around `(r, c)`, in bounds or not. */
  function Around(r: int, c: int): set<Cell> {
    {(r - 1, c - 1), (r - 1, c), (r - 1, c + 1), (r, c - 1), (r, c + 1), (r + 1, c - 1), (r + 1, c), (r + 1, c + 1)}
  }

  /** No cell has more than eight neighbours, so a non-mine cell of a consistent grid never reads 9. */
  lemma MinesAroundAtMostEight(g: Grid, r: int, c: int)
    requires IsGrid(g)
    ensures |MinesAround(g, r, c)| <= AllMinesValue
  {
    MinesAroundWithin(g, r, c);
    SubsetCardinality(MinesAround(g, r, c), Around(r, c));
  }

  lemma MinesAroundWithin(g: Grid, r: int, c: int)
    requires IsGrid(g)
    ensures MinesAround(g, r, c) <= Around(r, c)
  {
    forall x | x in MinesAround(g, r, c) ensures x in Around(r, c) {
    }
  }

  /** With one neighbour known not to be a mine, at most seven are. */
  lemma MinesAroundAtMostSeven(g: Grid, i: int, j: int, r: int, c: int)
    requires IsGrid(g) && InBounds(r, c) && Adjacent(r, c, i, j) && g[r][c] != MineValue
    ensures |MinesAround(g, i, j)| < AllMinesValue
  {
    var rest := Around(i, j) - {(r, c)};
    assert (r, c) in Around(i, j);
    assert Around(i, j) == rest + {(r, c)};
    AroundSize(i, j);
    MinesAroundWithin(g, i, j);
    assert (r, c) !in MinesAround(g, i, j);
    assert MinesAround(g, i, j) <= rest;
    SubsetCardinality(MinesAround(g, i, j), rest);
  }

  lemma AroundSize(r: int, c: int)
    ensures |Around(r, c)| <= AllMinesValue
  {
  }

  lemma SubsetCardinality<T>(a: set<T>, b: set<T>)
    requires a <= b
    ensures |a| <= |b|
  {
    assert b == a + (b - a);
  }

  /** Each cell of the grid after placing a mine at `(r, c)`. */
  lemma PlacedAt(g: Grid, r: int, c: int, i: int, j: int)
    requires IsGrid(g) && InBounds(r, c) && InBounds(i, j) && g[r][c] != MineValue
    ensures Placed(g, r, c)[i][j] ==
              if (i, j) == (r, c) then MineValue
              else if Adjacent(i, j, r, c) && g[i][j] != MineValue then g[i][j] + 1
              else g[i][j]
  {
  }

  /** The increments never turn a cell into a mine: only `(r, c)` becomes one. */
  lemma PlacedMinesAt(g: Grid, r: int, c: int, i: int, j: int)
    requires Consistent(g) && InBounds(r, c) && InBounds(i, j) && g[r][c] != MineValue
    ensures (Placed(g, r, c)[i][j] == MineValue) <==> (g[i][j] == MineValue || (i, j) == (r, c))
  {
    PlacedAt(g, r, c, i, j);
    if (i, j) != (r, c) && Adjacent(i, j, r, c) && g[i][j] != MineValue {
      MinesAroundAtMostSeven(g, i, j, r, c);
    }
  }

  lemma PlacedMines(g: Grid, r: int, c: int)
    requires Consistent(g) && InBounds(r, c) && g[r][c] != MineValue
    ensures Mines(Placed(g, r, c)) == Mines(g) + {(r, c)}
    ensures forall i, j :: InBounds(i, j) ==>
              (Placed(g, r, c)[i][j] == MineValue <==> g[i][j] == MineValue || (i, j) == (r, c))
  {
    forall i, j | InBounds(i, j) ensures (Placed(g, r, c)[i][j] == MineValue) <==> (g[i][j] == MineValue || (i, j) == (r, c)) {
      PlacedMinesAt(g, r, c, i, j);
    }
  }

  /** The count at `(i, j)` stays right: it went up by one exactly when `(r, c)` is a neighbour. */
  lemma CountAfterPlacing(g: Grid, h: Grid, r: int, c: int, i: int, j: int)
    requires IsGrid(g) && IsGrid(h) && InBounds(r, c) && InBounds(i, j) && g[r][c] != MineValue
    requires forall a, b :: InBounds(a, b) ==> (h[a][b] == MineValue <==> g[a][b] == MineValue || (a, b) == (r, c))
    requires h[i][j] == if (i, j) == (r, c) then MineValue
                        else if Adjacent(i, j, r, c) && g[i][j] != MineValue then g[i][j] + 1
                        else g[i][j]
    requires g[i][j] != MineValue ==> g[i][j] == |MinesAround(g, i, j)|
    ensures h[i][j] != MineValue ==> h[i][j] == |MinesAround(h, i, j)|
  {
    if h[i][j] != MineValue {
      MinesAroundAfter(g, h, r, c, i, j);
      if Adjacent(r, c, i, j) {
        assert (r, c) !in MinesAround(g, i, j);
      }
    }
  }

  lemma MinesAroundAfter(g: Grid, h: Grid, r: int, c: int, i: int, j: int)
    requires IsGrid(g) && IsGrid(h) && InBounds(r, c)
    requires forall a, b :: InBounds(a, b) ==> (h[a][b] == MineValue <==> g[a][b] == MineValue || (a, b) == (r, c))
    ensures MinesAround(h, i, j) == MinesAround(g, i, j) + (if Adjacent(r, c, i, j) then {(r, c)} else {})
  {
    var rhs := MinesAround(g, i, j) + (if Adjacent(r, c, i, j) then {(r, c)} else {});
    forall x | x in MinesAround(h, i, j) ensures x in rhs {
    }
    forall x | x in rhs ensures x in MinesAround(h, i, j) {
    }
  }

  /** Placing a mine on a consistent grid keeps it consistent and adds exactly that cell to the mines. */
  lemma PlacedKeepsConsistent(g: Grid, r: int, c: int)
    requires Consistent(g) && InBounds(r, c)
    ensures Consistent(Placed(g, r, c))
    ensures Mines(Placed(g, r, c)) == Mines(g) + {(r, c)}
  {
    if g[r][c] != MineValue {
      var h := Placed(g, r, c);
      PlacedMines(g, r, c);
      forall i, j | InBounds(i, j) ensures h[i][j] != MineValue ==> h[i][j] == |MinesAround(h, i, j)| {
        PlacedAt(g, r, c, i, j);
        CountAfterPlacing(g, h, r, c, i, j);
      }
    }
  }

  // ---------------------------------------------------------------- setMines

  predicate AllInBounds(draws: seq<Cell>) {
    forall k :: 0 <= k < |draws| ==> InBounds(draws[k].0, draws[k].1)
  }

  /** The distinct cells among the random draws. */
  function Drawn(draws: seq<Cell>): set<Cell> {
    set k | 0 <= k < |draws| :: draws[k]
  }

  /** The grid after placing a mine at each draw in turn. */
  function PlaceAll(g: Grid, draws: seq<Cell>): (h: Grid)
    requires IsGrid(g) && AllInBounds(draws)
    ensures IsGrid(h)
  {
    if draws == [] then g
    else
      var last := draws[|draws| - 1];
      Placed(PlaceAll(g, draws[..|draws| - 1]), last.0, last.1)
  }

  /** The in-bounds cells among `(row, c - 1)`, `(row, c)` and `(row, c + 1)`. */
  function RowCells(row: int, c: int): set<Cell> {
    {(row, c)} + (if c + 1 < Cols then {(row, c + 1)} else {}) + (if c - 1 >= 0 then {(row, c - 1)} else {})
  }

  /** The in-bounds cells among `(r, c + 1)` and `(r, c - 1)`. */
  function SideCells(r: int, c: int): set<Cell> {
    (if c + 1 < Cols then {(r, c + 1)} else {}) + (if c - 1 >= 0 then {(r, c - 1)} else {})
  }

  /** The in-bounds cells of the row below `(r, c)`: `randRow + 1`. */
  function Below(r: int, c: int): set<Cell> {
    if r + 1 < Rows then RowCells(r + 1, c) else {}
  }

  /** The in-bounds cells of the row above `(r, c)`: `randRow - 1`. */
  function Above(r: int, c: int): set<Cell> {
    if r - 1 >= 0 then RowCells(r - 1, c) else {}
  }

  /** The increments `setMines` makes reach exactly the in-bounds neighbours. */
  lemma NeighboursDone(r: int, c: int)
    requires InBounds(r, c)
    ensures forall i, j :: InBounds(i, j) ==>
      ((i, j) in Below(r, c) + Above(r, c) + SideCells(r, c) <==> Adjacent(i, j, r, c))
  {
  }

  lemma PlaceAllStep(draws: seq<Cell>, i: nat)
    requires AllInBounds(draws) && i < |draws|
    ensures AllInBounds(draws[..i + 1])
    ensures PlaceAll(Blank(), draws[..i + 1]) == Placed(PlaceAll(Blank(), draws[..i]), draws[i].0, draws[i].1)
  {
    assert draws[..i + 1][..i] == draws[..i];
  }

  /**
   * From the blank grid, the mines are exactly the distinct cells drawn, and
   * every other cell counts the mines around it.
   */
  lemma {:induction false} PlaceAllFromBlank(draws: seq<Cell>)
    requires AllInBounds(draws)
    ensures Consistent(PlaceAll(Blank(), draws))
    ensures Mines(PlaceAll(Blank(), draws)) == Drawn(draws)
  {
    if draws == [] {
      BlankConsistent();
    } else {
      var n := |draws| - 1;
      assert draws == draws[..n] + [draws[n]];
      PlaceAllFromBlank(draws[..n]);
      PlaceOneMore(draws[..n], draws[n]);
    }
  }

  lemma PlaceOneMore(init: seq<Cell>, last: Cell)
    requires AllInBounds(init) && InBounds(last.0, last.1)
    requires Consistent(PlaceAll(Blank(), init)) && Mines(PlaceAll(Blank(), init)) == Drawn(init)
    ensures AllInBounds(init + [last])
    ensures Consistent(PlaceAll(Blank(), init + [last]))
    ensures Mines(PlaceAll(Blank(), init + [last])) == Drawn(init + [last])
  {
    var draws := init + [last];
    assert draws[..|draws| - 1] == init;
    PlacedKeepsConsistent(PlaceAll(Blank(), init), last.0, last.1);
    DrawnAppend(init, last);
  }

  /** A draw that repeats an earlier one adds no cell, so there are fewer distinct cells than draws. */
  lemma {:induction false} RepeatedDrawShrinks(draws: seq<Cell>, i: nat, j: nat)
    requires i < j < |draws| && draws[i] == draws[j]
    ensures |Drawn(draws)| < |draws|
  {
    var init := draws[..|draws| - 1];
    var last := draws[|draws| - 1];
    assert Drawn(draws) == Drawn(init) + {last};
    if j == |draws| - 1 {
      assert init[i] == last;
      assert Drawn(draws) == Drawn(init);
      DrawnBound(init);
    } else {
      assert init[i] == init[j];
      RepeatedDrawShrinks(init, i, j);
    }
  }

  lemma {:induction false} DrawnBound(draws: seq<Cell>)
    ensures |Drawn(draws)| <= |draws|
  {
    if draws != [] {
      var init := draws[..|draws| - 1];
      assert Drawn(draws) == Drawn(init) + {draws[|draws| - 1]};
      DrawnBound(init);
    }
  }

  /**
   * `setMines` as written draws TOTAL_MINES cells and skips a draw that
   * lands on a mine (the retry is commented out), so two equal draws leave
   * fewer than TOTAL_MINES mines on the grid.
   */
  lemma RepeatedDrawLeavesFewerMines(draws: seq<Cell>, i: nat, j: nat)
    requires |draws| == TotalMines && AllInBounds(draws)
    requires i < j < |draws| && draws[i] == draws[j]
    ensures |Mines(PlaceAll(Blank(), draws))| < TotalMines
  {
    PlaceAllFromBlank(draws);
    RepeatedDrawShrinks(draws, i, j);
  }

  // ---------------------------------------------------------------- getGridValueStr

  /** `getGridValueStr` on the value of a cell. */
  function ValueStr(v: int): (r: string)
    ensures r == ExposedMineSymbol <==> v < NoMinesValue || v > AllMinesValue
    ensures NoMinesValue <= v <= AllMinesValue ==> |r| == 1 && r[0] as int - '0' as int == v
  {
    if v == NoMinesValue then "0"
    else if NoMinesValue < v <= AllMinesValue then [('0' as int + v) as char]
    else ExposedMineSymbol
  }

  /** On a consistent grid a cell shows "BOMB" exactly when it holds a mine, and otherwise the count around it. */
  lemma ValueStrShowsMines(g: Grid, r: int, c: int)
    requires Consistent(g) && InBounds(r, c)
    ensures ValueStr(g[r][c]) == ExposedMineSymbol <==> (r, c) in Mines(g)
    ensures (r, c) !in Mines(g) ==> ValueStr(g[r][c])[0] as int - '0' as int == |MinesAround(g, r, c)|
  {
    if g[r][c] != MineValue {
      MinesAroundAtMostEight(g, r, c);
    }
  }

  // ---------------------------------------------------------------- flags

  /** `guessedMinesLeft`, `actualMinesLeft`, `running`, and the cells showing the flag symbol. */
  datatype Counters = Counters(guessed: int, actual: int, running: bool, flagged: set<Cell>)

  const Start: Counters := Counters(TotalMines, TotalMines, true, {})

  /**
   * What the counters say: one guess is used per flag, `actualMinesLeft`
   * counts the mines not yet flagged, and the game runs until it reaches 0.
   */
  predicate CountersOk(s: Counters, mines: set<Cell>) {
    && s.guessed >= 0
    && s.guessed + |s.flagged| == TotalMines
    && s.actual + |s.flagged * mines| == TotalMines
    && (s.running <==> s.actual != 0)
  }

  /** Ctrl+click on `p`: flags an unflagged, unexposed cell while guesses remain. */
  function Flag(s: Counters, mines: set<Cell>, exposed: set<Cell>, p: Cell): Counters {
    if !s.running || p in s.flagged || p in exposed || s.guessed == 0 then s
    else
      var actual := if p in mines then s.actual - 1 else s.actual;
      Counters(s.guessed - 1, actual, if p in mines && actual == 0 then false else s.running, s.flagged + {p})
  }

  /** Shift+click on a flagged, unexposed `p`: removes the flag. */
  function Unflag(s: Counters, mines: set<Cell>, exposed: set<Cell>, p: Cell): Counters {
    if !s.running || p !in s.flagged || p in exposed then s
    else Counters(s.guessed + 1, if p in mines then s.actual + 1 else s.actual, s.running, s.flagged - {p})
  }

  lemma StartOk(mines: set<Cell>)
    ensures CountersOk(Start, mines)
  {
  }

  lemma FlagKeepsCounters(s: Counters, mines: set<Cell>, exposed: set<Cell>, p: Cell)
    requires CountersOk(s, mines)
    ensures CountersOk(Flag(s, mines, exposed, p), mines)
  {
    var t := Flag(s, mines, exposed, p);
    if t != s {
      assert t.flagged * mines == if p in mines then s.flagged * mines + {p} else s.flagged * mines;
    }
  }

  lemma UnflagKeepsCounters(s: Counters, mines: set<Cell>, exposed: set<Cell>, p: Cell)
    requires CountersOk(s, mines)
    ensures CountersOk(Unflag(s, mines, exposed, p), mines)
  {
    var t := Unflag(s, mines, exposed, p);
    SubsetCardinality(s.flagged * mines, s.flagged);
    if t != s {
      assert s.flagged * mines == if p in mines then t.flagged * mines + {p} else t.flagged * mines;
      assert s.flagged == t.flagged + {p};
    }
  }

  /** Unflagging a cell just flagged, while the game still runs, restores every counter. */
  lemma UnflagAfterFlag(s: Counters, mines: set<Cell>, exposed: set<Cell>, p: Cell)
    requires CountersOk(s, mines)
    requires Flag(s, mines, exposed, p) != s && Flag(s, mines, exposed, p).running
    ensures Unflag(Flag(s, mines, exposed, p), mines, exposed, p) == s
  {
    assert s.flagged + {p} - {p} == s.flagged;
  }

  /** With all TOTAL_MINES mines on the grid, the game stops exactly when every mine is flagged. */
  lemma StopsWhenAllMinesFlagged(s: Counters, mines: set<Cell>)
    requires CountersOk(s, mines) && |mines| == TotalMines
    ensures !s.running <==> mines <= s.flagged
  {
    if s.flagged * mines != mines {
      SubsetSmaller(s.flagged * mines, mines);
    }
  }

  /**
   * With fewer mines than TOTAL_MINES, `actualMinesLeft` can never reach 0:
   * the game runs on however the player flags.
   */
  lemma FewerMinesNeverStop(s: Counters, mines: set<Cell>, exposed: set<Cell>, p: Cell)
    requires CountersOk(s, mines) && |mines| < TotalMines
    ensures s.running && Flag(s, mines, exposed, p).running && Unflag(s, mines, exposed, p).running
  {
    SubsetCardinality(s.flagged * mines, mines);
    FlagKeepsCounters(s, mines, exposed, p);
    UnflagKeepsCounters(s, mines, exposed, p);
    var t := Flag(s, mines, exposed, p);
    SubsetCardinality(t.flagged * mines, mines);
    var u := Unflag(s, mines, exposed, p);
    SubsetCardinality(u.flagged * mines, mines);
  }

  lemma SubsetSmaller<T>(a: set<T>, b: set<T>)
    requires a <= b && a != b
    ensures |a| < |b|
  {
    assert b == a + (b - a);
    var x :| x in b - a;
  }

  /** The frame's state: `mineGrid`, the static counters, `running`, and which buttons are flagged or exposed. */
  class Game {
    var mineGrid: array2<int>
    ghost var cells: Grid
    var guessedMinesLeft: int
    var actualMinesLeft: int
    var running: bool
    var flagged: set<Cell>
    var exposed: set<Cell>

    /** `mineGrid` holds `cells`. */
    ghost predicate Mirrors()
      reads this`mineGrid, this`cells, mineGrid
    {
      && mineGrid.Length0 == Rows && mineGrid.Length1 == Cols && IsGrid(cells)
      && forall i, j :: InBounds(i, j) ==> mineGrid[i, j] == cells[i][j]
    }

    ghost function State(): Counters
      reads this`guessedMinesLeft, this`actualMinesLeft, this`running, this`flagged
    {
      Counters(guessedMinesLeft, actualMinesLeft, running, flagged)
    }

    ghost predicate Valid()
      reads this, mineGrid
    {
      Mirrors() && Consistent(cells) && CountersOk(State(), Mines(cells))
    }

    /**
     * The constructor as written: `createContents` zeroes the grid, then
     * `setMines` places one mine per draw, skipping a draw on a mine. The
     * mines are exactly the distinct drawn cells, so a repeated draw leaves
     * fewer than TOTAL_MINES of them while the counters still start at 10.
     */
    constructor (draws: seq<Cell>)
      requires |draws| == TotalMines && AllInBounds(draws)
      ensures Valid() && fresh(mineGrid)
      ensures State() == Start && exposed == {}
      ensures cells == PlaceAll(Blank(), draws) && Mines(cells) == Drawn(draws)
    {
      mineGrid := new int[Rows, Cols];
      guessedMinesLeft, actualMinesLeft, running := TotalMines, TotalMines, true;
      flagged, exposed := {}, {};
      new;
      Lay(draws);
      assert State() == Start;
      StartOk(Mines(cells));
    }

    /** The grid part of the constructor as written: `createContents`, then `setMines`. */
    method Lay(draws: seq<Cell>)
      requires mineGrid.Length0 == Rows && mineGrid.Length1 == Cols
      requires |draws| == TotalMines && AllInBounds(draws)
      modifies this`cells, mineGrid
      ensures Mirrors() && Consistent(cells)
      ensures cells == PlaceAll(Blank(), draws) && Mines(cells) == Drawn(draws)
    {
      CreateContents();
      SetMinesOnce(draws);
    }

    /** The constructor with the retry of `setMines` restored. */
    constructor Repaired(draws: seq<Cell>)
      requires AllInBounds(draws)
      ensures Valid() && fresh(mineGrid)
      ensures State() == Start && exposed == {}
      ensures Mines(cells) <= Drawn(draws)
      ensures |Drawn(draws)| >= TotalMines ==> |Mines(cells)| == TotalMines
    {
      mineGrid := new int[Rows, Cols];
      guessedMinesLeft, actualMinesLeft, running := TotalMines, TotalMines, true;
      flagged, exposed := {}, {};
      new;
      LayRepaired(draws);
      assert State() == Start;
      StartOk(Mines(cells));
    }

    /** The grid part of the repaired constructor: `createContents`, then `setMines` with its retry. */
    method LayRepaired(draws: seq<Cell>)
      requires mineGrid.Length0 == Rows && mineGrid.Length1 == Cols && AllInBounds(draws)
      modifies this`cells, mineGrid
      ensures Mirrors() && Consistent(cells)
      ensures Mines(cells) <= Drawn(draws) && |Mines(cells)| <= TotalMines
      ensures |Drawn(draws)| >= TotalMines ==> |Mines(cells)| == TotalMines
    {
      CreateContents();
      SetMines(draws);
    }

    /** `createContents`, for the grid: every cell is set to 0. */
    method CreateContents()
      requires mineGrid.Length0 == Rows && mineGrid.Length1 == Cols
      modifies this`cells, mineGrid
      ensures Mirrors() && cells == Blank()
    {
      for r := 0 to Rows
        invariant forall i, j :: 0 <= i < r && 0 <= j < Cols ==> mineGrid[i, j] == NoMinesValue
      {
        for c := 0 to Cols
          invariant forall i, j :: 0 <= i < r && 0 <= j < Cols ==> mineGrid[i, j] == NoMinesValue
          invariant forall j :: 0 <= j < c ==> mineGrid[r, j] == NoMinesValue
        {
          mineGrid[r, c] := NoMinesValue;
        }
      }
      cells := Blank();
    }

    /**
     * Partway through placing a mine at `(r, c)` on `g`: the cell is a mine
     * and the neighbours in `done` have had their increment.
     */
    ghost predicate PartlyPlaced(g: Grid, r: int, c: int, done: set<Cell>)
      reads this, mineGrid
    {
      && mineGrid.Length0 == Rows && mineGrid.Length1 == Cols && IsGrid(g)
      && forall i, j :: InBounds(i, j) ==>
           mineGrid[i, j] == if (i, j) == (r, c) then MineValue
                             else if (i, j) in done && g[i][j] != MineValue then g[i][j] + 1
                             else g[i][j]
    }

    /** One neighbour's increment in `setMines`, skipped when that neighbour is a mine. */
    method Bump(i: int, j: int, ghost g: Grid, ghost r: int, ghost c: int, ghost done: set<Cell>)
      requires PartlyPlaced(g, r, c, done) && InBounds(i, j) && (i, j) != (r, c) && (i, j) !in done
      modifies mineGrid
      ensures PartlyPlaced(g, r, c, done + {(i, j)})
    {
      if mineGrid[i, j] != MineValue {
        mineGrid[i, j] := mineGrid[i, j] + 1;
      }
    }

    /** The increments of one neighbouring row, `randRow + 1` or `randRow - 1`. */
    method BumpRow(row: int, c: int, ghost g: Grid, ghost r: int, ghost done: set<Cell>)
      requires PartlyPlaced(g, r, c, done) && 0 <= row < Rows && row != r && 0 <= c < Cols
      requires forall j :: (row, j) !in done
      modifies mineGrid
      ensures PartlyPlaced(g, r, c, done + RowCells(row, c))
    {
      Bump(row, c, g, r, c, done);
      ghost var now := done + {(row, c)};
      if c + 1 < Cols {
        Bump(row, c + 1, g, r, c, now);
        now := now + {(row, c + 1)};
      }
      if c - 1 >= 0 {
        Bump(row, c - 1, g, r, c, now);
        now := now + {(row, c - 1)};
      }
      assert now == done + RowCells(row, c);
    }

    /** The increments of the two cells beside the mine, in its own row. */
    method BumpSides(r: int, c: int, ghost g: Grid, ghost done: set<Cell>)
      requires PartlyPlaced(g, r, c, done) && InBounds(r, c)
      requires forall j :: (r, j) !in done
      modifies mineGrid
      ensures PartlyPlaced(g, r, c, done + SideCells(r, c))
    {
      ghost var now := done;
      if c + 1 < Cols {
        Bump(r, c + 1, g, r, c, now);
        now := now + {(r, c + 1)};
      }
      if c - 1 >= 0 {
        Bump(r, c - 1, g, r, c, now);
        now := now + {(r, c - 1)};
      }
      assert now == done + SideCells(r, c);
    }

    /** One turn of `setMines`' loop, with the drawn coordinates as arguments. */
    method PlaceMine(r: int, c: int)
      requires Mirrors() && InBounds(r, c)
      modifies this`cells, mineGrid
      ensures Mirrors() && cells == Placed(old(cells), r, c)
    {
      if !(mineGrid[r, c] == MineValue) {
        MarkMine(r, c);
        BumpBelow(r, c);
        BumpAbove(r, c);
        BumpBeside(r, c);
        Settle(r, c);
      }
    }

    /** `mineGrid[randRow][randCol] = IS_A_MINE_IN_GRID_VALUE` */
    method MarkMine(r: int, c: int)
      requires Mirrors() && InBounds(r, c)
      modifies mineGrid
      ensures PartlyPlaced(cells, r, c, {})
    {
      mineGrid[r, c] := MineValue;
    }

    /** The increments of the row below the mine, when there is one. */
    method BumpBelow(r: int, c: int)
      requires PartlyPlaced(cells, r, c, {}) && InBounds(r, c)
      modifies mineGrid
      ensures PartlyPlaced(cells, r, c, Below(r, c))
    {
      if r + 1 < Rows {
        BumpRow(r + 1, c, cells, r, {});
        assert {} + RowCells(r + 1, c) == Below(r, c);
      }
    }

    /** The increments of the row above the mine, when there is one. */
    method BumpAbove(r: int, c: int)
      requires PartlyPlaced(cells, r, c, Below(r, c)) && InBounds(r, c)
      modifies mineGrid
      ensures PartlyPlaced(cells, r, c, Below(r, c) + Above(r, c))
    {
      if r - 1 >= 0 {
        BumpRow(r - 1, c, cells, r, Below(r, c));
      } else {
        assert Below(r, c) + Above(r, c) == Below(r, c);
      }
    }

    /** The increments beside the mine, in its own row. */
    method BumpBeside(r: int, c: int)
      requires PartlyPlaced(cells, r, c, Below(r, c) + Above(r, c)) && InBounds(r, c)
      modifies mineGrid
      ensures PartlyPlaced(cells, r, c, Below(r, c) + Above(r, c) + SideCells(r, c))
    {
      BumpSides(r, c, cells, Below(r, c) + Above(r, c));
    }

    /** Once every in-bounds neighbour has had its increment, `mineGrid` holds `Placed(cells, r, c)`. */
    method Settle(r: int, c: int)
      requires InBounds(r, c) && PartlyPlaced(cells, r, c, Below(r, c) + Above(r, c) + SideCells(r, c))
      requires cells[r][c] != MineValue
      modifies this`cells
      ensures Mirrors() && cells == Placed(old(cells), r, c)
    {
      NeighboursDone(r, c);
      forall i, j | InBounds(i, j) ensures mineGrid[i, j] == Placed(cells, r, c)[i][j] {
        PlacedAt(cells, r, c, i, j);
      }
      cells := Placed(cells, r, c);
    }

    /** `setMines` as written: TOTAL_MINES draws, a draw on a mine skipped. */
    method SetMinesOnce(draws: seq<Cell>)
      requires Mirrors() && cells == Blank() && |draws| == TotalMines && AllInBounds(draws)
      modifies this`cells, mineGrid
      ensures Mirrors() && cells == PlaceAll(Blank(), draws)
      ensures Consistent(cells) && Mines(cells) == Drawn(draws)
    {
      for i := 0 to |draws|
        invariant Mirrors() && cells == PlaceAll(Blank(), draws[..i])
      {
        PlaceDraw(draws, i);
      }
      assert draws[..|draws|] == draws;
      PlaceAllFromBlank(draws);
    }

    /** Turn `i` of `setMines`' loop as written, on the `i`-th draw. */
    method PlaceDraw(draws: seq<Cell>, i: nat)
      requires AllInBounds(draws) && i < |draws|
      requires Mirrors() && cells == PlaceAll(Blank(), draws[..i])
      modifies this`cells, mineGrid
      ensures Mirrors() && cells == PlaceAll(Blank(), draws[..i + 1])
    {
      PlaceAllStep(draws, i);
      PlaceMine(draws[i].0, draws[i].1);
    }

    /**
     * `setMines` with its retry restored: a draw that lands on a mine is
     * repeated, so draws are consumed until TOTAL_MINES distinct cells hold
     * mines or the draws run out.
     */
    method SetMines(draws: seq<Cell>)
      requires Mirrors() && cells == Blank() && AllInBounds(draws)
      modifies this`cells, mineGrid
      ensures Mirrors() && Consistent(cells)
      ensures Mines(cells) <= Drawn(draws) && |Mines(cells)| <= TotalMines
      ensures |Drawn(draws)| >= TotalMines ==> |Mines(cells)| == TotalMines
    {
      PlaceAllFromBlank([]);
      var placed := 0;
      var k := 0;
      while placed < TotalMines && k < |draws|
        invariant 0 <= k <= |draws|
        invariant Mirrors() && Consistent(cells) && Mines(cells) == Drawn(draws[..k])
        invariant placed == |Mines(cells)| <= TotalMines
        decreases |draws| - k
      {
        var (r, c) := draws[k];
        assert draws[..k + 1] == draws[..k] + [draws[k]];
        DrawnAppend(draws[..k], draws[k]);
        var added := DrawOne(r, c);
        if added {
          placed := placed + 1;
        }
        k := k + 1;
      }
      if placed < TotalMines {
        assert draws[..k] == draws;
      }
      forall x | x in Drawn(draws[..k]) ensures x in Drawn(draws) {
        var i :| 0 <= i < k && draws[..k][i] == x;
        assert draws[i] == x;
      }
    }

    /** One draw of `setMines`: a mine is placed unless the cell already holds one. */
    method DrawOne(r: int, c: int) returns (added: bool)
      requires Mirrors() && Consistent(cells) && InBounds(r, c)
      modifies this`cells, mineGrid
      ensures Mirrors() && Consistent(cells)
      ensures added <==> (r, c) !in old(Mines(cells))
      ensures Mines(cells) == old(Mines(cells)) + {(r, c)}
      ensures |Mines(cells)| == |old(Mines(cells))| + (if added then 1 else 0)
    {
      MineAt(cells, r, c);
      added := mineGrid[r, c] != MineValue;
      PlacedKeepsConsistent(cells, r, c);
      if added {
        PlaceMine(r, c);
      }
    }

    /** The flag branch of the listener: ctrl+click on `(r, c)`. */
    method FlagCell(r: int, c: int)
      requires Valid() && InBounds(r, c)
      modifies this`guessedMinesLeft, this`actualMinesLeft, this`running, this`flagged
      ensures Valid() && State() == Flag(old(State()), Mines(cells), exposed, (r, c))
    {
      var isMine := mineGrid[r, c] == MineValue;
      MineAt(cells, r, c);
      ghost var next := Flag(State(), Mines(cells), exposed, (r, c));
      FlagKeepsCounters(State(), Mines(cells), exposed, (r, c));
      if running && (r, c) !in flagged && (r, c) !in exposed && guessedMinesLeft != 0 {
        flagged := flagged + {(r, c)};
        guessedMinesLeft := guessedMinesLeft - 1;
        if isMine {
          actualMinesLeft := actualMinesLeft - 1;
          if actualMinesLeft == 0 {
            running := false;
          }
        }
      }
      assert State() == next;
    }

    /** The unflag branch of the listener: shift+click on a flagged `(r, c)`. */
    method UnflagCell(r: int, c: int)
      requires Valid() && InBounds(r, c)
      modifies this`guessedMinesLeft, this`actualMinesLeft, this`flagged
      ensures Valid() && State() == Unflag(old(State()), Mines(cells), exposed, (r, c))
    {
      var isMine := mineGrid[r, c] == MineValue;
      MineAt(cells, r, c);
      UnflagKeepsCounters(State(), Mines(cells), exposed, (r, c));
      if running && (r, c) in flagged && (r, c) !in exposed {
        flagged := flagged - {(r, c)};
        if isMine {
          actualMinesLeft := actualMinesLeft + 1;
        }
        guessedMinesLeft := guessedMinesLeft + 1;
      }
    }

    /** `getGridValueStr(row, col)` */
    method GridValueStr(row: int, col: int) returns (r: string)
      requires Valid() && InBounds(row, col)
      ensures r == ValueStr(cells[row][col])
      ensures r == ExposedMineSymbol <==> (row, col) in Mines(cells)
    {
      var v := mineGrid[row, col];
      if v == NoMinesValue {
        r := "0";
      } else if v > NoMinesValue && v <= AllMinesValue {
        r := [('0' as int + v) as char];
      } else {
        r := ExposedMineSymbol;
      }
      ValueStrShowsMines(cells, row, col);
    }
  }

  lemma DrawnAppend(draws: seq<Cell>, x: Cell)
    ensures Drawn(draws + [x]) == Drawn(draws) + {x}
  {
    var d := draws + [x];
    forall y | y in Drawn(d) ensures y in Drawn(draws) + {x} {
      var k :| 0 <= k < |d| && d[k] == y;
      if k < |draws| { assert draws[k] == y; }
    }
    forall y | y in Drawn(draws) ensures y in Drawn(d) {
      var k :| 0 <= k < |draws| && draws[k] == y;
      assert d[k] == y;
    }
    assert d[|draws|] == x;
  }
}
