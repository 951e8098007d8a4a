/** Day 4: a grid of paper rolls (`@`) and empty cells (`.`). A round
    removes, all at once, every roll with fewer than four rolls among its
    eight neighbours; part 1 counts one round, part 2 repeats rounds until
    one removes nothing and counts every roll removed. */
module Rolls {
  import opened Results
  import Text

  /** `GridElement`. */
  datatype Cell = Nothing | Roll

  /** `Position(row, column)`. */
  type Position = (nat, nat)

  type Cells = seq<seq<Cell>>

  datatype Error =
    /** `GridElement(item)` on a character other than `.` or `@` (ValueError). */
    | BadCell(c: char, row: nat, col: nat)
    /** `len(grid[0])` on an empty grid (IndexError). */
    | NoRows
    /** `self.grid[row][column]` past the end of a shorter row (IndexError). */
    | OffRow(row: nat, col: nat)

  // ---------------------------------------------------------------------
  // Parsing
  // ---------------------------------------------------------------------

  /** `GridElement(c)`: `None` when `c` is not a member of the enumeration. */
  function DecodeCell(c: char): (r: Option<Cell>)
    ensures r == Some(Roll) <==> c == '@'
    ensures r == Some(Nothing) <==> c == '.'
  {
    if c == '.' then Some(Nothing) else if c == '@' then Some(Roll) else None
  }

  /** Column `col` holds the first character of `line` that is not a cell. */
  predicate FirstBad(line: string, col: nat) {
    && col < |line| && DecodeCell(line[col]).None?
    && forall c :: 0 <= c < col ==> DecodeCell(line[c]).Some?
  }

  /** One line as a row of cells; the first bad character raises. */
  function DecodeRow(line: string, row: nat): (r: Result<seq<Cell>, Error>)
    ensures r.Ok? <==> forall c :: 0 <= c < |line| ==> DecodeCell(line[c]).Some?
    ensures r.Ok? ==> |r.value| == |line| && forall c :: 0 <= c < |line| ==> DecodeCell(line[c]) == Some(r.value[c])
    ensures r.Err? ==> r.error.BadCell? && r.error.row == row && FirstBad(line, r.error.col)
                       && r.error.c == line[r.error.col]
  {
    if line == [] then Ok([])
    else
      var init := line[..|line| - 1];
      var last := line[|line| - 1];
      assert forall c :: 0 <= c < |init| ==> init[c] == line[c];
      var cells :- DecodeRow(init, row);
      match DecodeCell(last)
      case None => Err(BadCell(last, row, |line| - 1))
      case Some(x) => Ok(cells + [x])
  }

  /** Every line as a row of cells, in order; the first bad line raises. */
  function Decode(lines: seq<string>): (r: Result<Cells, Error>)
    ensures r.Ok? <==> forall i :: 0 <= i < |lines| ==> DecodeRow(lines[i], i).Ok?
    ensures r.Ok? ==> |r.value| == |lines| && forall i :: 0 <= i < |lines| ==> DecodeRow(lines[i], i) == Ok(r.value[i])
    ensures r.Err? ==> && r.error.BadCell? && r.error.row < |lines|
                       && DecodeRow(lines[r.error.row], r.error.row) == Err(r.error)
                       && forall i :: 0 <= i < r.error.row ==> DecodeRow(lines[i], i).Ok?
  {
    if lines == [] then Ok([])
    else
      var init := lines[..|lines| - 1];
      assert forall i :: 0 <= i < |init| ==> init[i] == lines[i];
      var cells :- Decode(init);
      var row :- DecodeRow(lines[|lines| - 1], |lines| - 1);
      Ok(cells + [row])
  }

  lemma {:induction false} DecodeStopsAt(lines: seq<string>, i: nat)
    requires i < |lines| && Decode(lines[..i]).Ok? && DecodeRow(lines[i], i).Err?
    ensures Decode(lines) == Err(DecodeRow(lines[i], i).error)
    decreases |lines|
  {
    if |lines| > i + 1 {
      var init := lines[..|lines| - 1];
      assert init[..i] == lines[..i];
      DecodeStopsAt(init, i);
    } else {
      assert lines[..|lines| - 1] == lines[..i];
    }
  }

  /** What `Grid(lines)` holds, or the error it raises: the cells, then
      the width of the first row. */
  function GridOf(lines: seq<string>): Result<Cells, Error> {
    var cells :- Decode(lines);
    if cells == [] then Err(NoRows) else Ok(cells)
  }

  // ---------------------------------------------------------------------
  // Neighbourhoods
  // ---------------------------------------------------------------------

  function Dist(a: nat, b: nat): nat {
    if a <= b then b - a else a - b
  }

  /** `q` is one of the eight cells around `p`. */
  predicate Neighbours(p: Position, q: Position) {
    p != q && Dist(p.0, q.0) <= 1 && Dist(p.1, q.1) <= 1
  }

  /** The cell at offset `(i, j)` from `p`, when it lies inside the
      `rows` by `cols` box and is not `p` itself. */
  function Shifted(rows: nat, cols: nat, p: Position, i: int, j: int): (r: seq<Position>)
    ensures |r| <= (if i == 0 && j == 0 then 0 else 1)
    ensures forall q :: q in r <==> && q.0 as int == p.0 + i && q.1 as int == p.1 + j
                                    && q.0 < rows && q.1 < cols && !(i == 0 && j == 0)
  {
    if 0 <= p.0 + i < rows && 0 <= p.1 + j < cols && !(i == 0 && j == 0)
    then [(p.0 + i, p.1 + j)] else []
  }

  /** The kept positions of row offset `i`, column offsets `-1, 0, 1`. */
  function ShiftedRow(rows: nat, cols: nat, p: Position, i: int): (r: seq<Position>)
    ensures |r| <= (if i == 0 then 2 else 3)
    ensures forall q :: q in r <==> && q.0 as int == p.0 + i && q.0 < rows && q.1 < cols
                                    && Dist(p.1, q.1) <= 1 && (i != 0 || q.1 != p.1)
  {
    var r := Shifted(rows, cols, p, i, -1) + Shifted(rows, cols, p, i, 0) + Shifted(rows, cols, p, i, 1);
    forall q: Position | q.0 as int == p.0 + i && q.0 < rows && q.1 < cols && Dist(p.1, q.1) <= 1 && (i != 0 || q.1 != p.1)
      ensures q in r
    {
      assert q in Shifted(rows, cols, p, i, q.1 as int - p.1);
    }
    r
  }

  /** `_adjacent_positions`: the offsets `-1, 0, 1` for the row, then for
      the column, kept when inside the grid size and not both zero. */
  function AdjacentPositions(rows: nat, cols: nat, p: Position): (r: seq<Position>)
    ensures forall q :: q in r <==> q.0 < rows && q.1 < cols && Neighbours(p, q)
    ensures p !in r && |r| <= 8
  {
    var r := ShiftedRow(rows, cols, p, -1) + ShiftedRow(rows, cols, p, 0) + ShiftedRow(rows, cols, p, 1);
    forall q: Position | q.0 < rows && q.1 < cols && Neighbours(p, q) ensures q in r {
      if q.0 + 1 == p.0 {
        assert q in ShiftedRow(rows, cols, p, -1);
      } else if q.0 == p.0 {
        assert q in ShiftedRow(rows, cols, p, 0);
      } else {
        assert q in ShiftedRow(rows, cols, p, 1);
      }
    }
    r
  }

  /** The adjacency entry of a roll: its neighbours inside the box. */
  function Neighbourhood(rows: nat, cols: nat, p: Position): set<Position> {
    set i: nat, j: nat | i < rows && j < cols && Neighbours(p, (i, j)) :: (i, j)
  }

  lemma InNeighbourhood(rows: nat, cols: nat, p: Position, q: Position)
    ensures q in Neighbourhood(rows, cols, p) <==> q.0 < rows && q.1 < cols && Neighbours(p, q)
  {
    if q.0 < rows && q.1 < cols && Neighbours(p, q) {
      assert q == (q.0, q.1);
    }
  }

  /** `set(self._adjacent_positions(p))` is the neighbourhood of `p`. */
  lemma AdjacentSet(rows: nat, cols: nat, p: Position)
    ensures (set q | q in AdjacentPositions(rows, cols, p)) == Neighbourhood(rows, cols, p)
  {
  }

  // ---------------------------------------------------------------------
  // Rolls and rounds, on values
  // ---------------------------------------------------------------------

  /** `grid[q.row][q.column]` exists. */
  predicate InGrid(cells: Cells, q: Position) {
    q.0 < |cells| && q.1 < |cells[q.0]|
  }

  predicate IsRoll(cells: Cells, q: Position) {
    InGrid(cells, q) && cells[q.0][q.1] == Roll
  }

  /** The positions holding a roll. */
  function RollsIn(cells: Cells): (r: set<Position>)
    ensures forall q :: q in r <==> IsRoll(cells, q)
  {
    set i: nat, j: nat | i < |cells| && j < |cells[i]| && cells[i][j] == Roll :: (i, j)
  }

  /** `adjacency_matrix` for the rolls of `cells`. */
  function Adjacency(cells: Cells, rows: nat, cols: nat): map<Position, set<Position>> {
    map p | p in RollsIn(cells) :: Neighbourhood(rows, cols, p)
  }

  /** The rolls among the positions of `adjacent`. */
  function RollsNear(cells: Cells, adjacent: set<Position>): set<Position> {
    set q | q in adjacent && IsRoll(cells, q)
  }

  /** The positions of `among` with fewer than four rolls around them. */
  function LonelyAmong(cells: Cells, rows: nat, cols: nat, among: set<Position>): set<Position> {
    set p | p in among && |RollsNear(cells, Neighbourhood(rows, cols, p))| < 4
  }

  /** The rolls a round removes. */
  function Lonely(cells: Cells, rows: nat, cols: nat): (r: set<Position>)
    ensures r <= RollsIn(cells)
  {
    LonelyAmong(cells, rows, cols, RollsIn(cells))
  }

  /** Every neighbour of `p` can be read. */
  predicate Readable(cells: Cells, rows: nat, cols: nat, p: Position) {
    forall q :: q in Neighbourhood(rows, cols, p) ==> InGrid(cells, q)
  }

  /** Every neighbour of a roll of `among` can be read. */
  predicate FitsAmong(cells: Cells, rows: nat, cols: nat, among: set<Position>) {
    forall p :: p in among ==> Readable(cells, rows, cols, p)
  }

  /** A round reads every neighbour of every roll without an IndexError,
      which fails only when rows are shorter than the first one. */
  predicate Fits(cells: Cells, rows: nat, cols: nat) {
    FitsAmong(cells, rows, cols, RollsIn(cells))
  }

  /** The IndexErrors a round can raise; which one is raised depends on
      the iteration order of the adjacency table. */
  function Faults(cells: Cells, rows: nat, cols: nat): set<Error> {
    set p, q | p in RollsIn(cells) && q in Neighbourhood(rows, cols, p) && !InGrid(cells, q) :: OffRow(q.0, q.1)
  }

  /** `cells` with the positions of `gone` emptied. */
  function Cleared(cells: Cells, gone: set<Position>): (r: Cells)
    ensures |r| == |cells|
    ensures forall i :: 0 <= i < |r| ==> |r[i]| == |cells[i]|
    ensures forall i, j {:trigger r[i][j]} :: 0 <= i < |r| && 0 <= j < |r[i]| ==>
              r[i][j] == if (i, j) in gone then Nothing else cells[i][j]
  {
    seq(|cells|, i requires 0 <= i < |cells| =>
      seq(|cells[i]|, j requires 0 <= j < |cells[i]| => if (i, j) in gone then Nothing else cells[i][j]))
  }

  /** Emptying cells removes exactly the rolls emptied: no roll appears and
      no other cell changes. */
  lemma RollsCleared(cells: Cells, gone: set<Position>)
    ensures RollsIn(Cleared(cells, gone)) == RollsIn(cells) - gone
  {
  }

  /** A round that removes `k` rolls leaves exactly `k` fewer. */
  lemma RoundCount(cells: Cells, rows: nat, cols: nat)
    ensures |RollsIn(Cleared(cells, Lonely(cells, rows, cols)))|
            == |RollsIn(cells)| - |Lonely(cells, rows, cols)|
  {
    RollsCleared(cells, Lonely(cells, rows, cols));
  }

  lemma AdjacencyCleared(cells: Cells, rows: nat, cols: nat, gone: set<Position>)
    ensures Adjacency(Cleared(cells, gone), rows, cols) == Adjacency(cells, rows, cols) - gone
  {
    RollsCleared(cells, gone);
  }

  lemma ClearedNone(cells: Cells)
    ensures Cleared(cells, {}) == cells
  {
    var r := Cleared(cells, {});
    forall i | 0 <= i < |r| ensures r[i] == cells[i] {
      assert |r[i]| == |cells[i]|;
    }
  }

  lemma ClearedOne(cells: Cells, gone: set<Position>, p: Position)
    requires InGrid(cells, p)
    ensures Cleared(cells, gone + {p})
            == Cleared(cells, gone)[p.0 := Cleared(cells, gone)[p.0][p.1 := Nothing]]
  {
    var a := Cleared(cells, gone + {p});
    var c := Cleared(cells, gone);
    var b := c[p.0 := c[p.0][p.1 := Nothing]];
    forall i | 0 <= i < |a| ensures a[i] == b[i] {
      assert |a[i]| == |b[i]|;
      forall j | 0 <= j < |a[i]| ensures a[i][j] == b[i][j] {
        if i == p.0 && j == p.1 {
        } else {
          assert b[i][j] == c[i][j];
        }
      }
    }
  }

  /** Clearing keeps every neighbour that could be read readable. */
  lemma FitsCleared(cells: Cells, rows: nat, cols: nat, gone: set<Position>)
    requires Fits(cells, rows, cols)
    ensures Fits(Cleared(cells, gone), rows, cols)
  {
    var after := Cleared(cells, gone);
    RollsCleared(cells, gone);
    forall p, q | p in RollsIn(after) && q in Neighbourhood(rows, cols, p) ensures InGrid(after, q) {
      assert p in RollsIn(cells);
      assert InGrid(cells, q);
    }
  }

  /** Part 2 on values: the rolls removed by repeating rounds until one
      removes nothing. */
  function Removed(cells: Cells, rows: nat, cols: nat): nat
    decreases |RollsIn(cells)|
  {
    var gone := Lonely(cells, rows, cols);
    if gone == {} then 0
    else
      RoundCount(cells, rows, cols);
      |gone| + Removed(Cleared(cells, gone), rows, cols)
  }

  /** Part 2 is one round followed by part 2 on what it leaves; a round
      that removes nothing leaves the grid as it was. */
  lemma RemovedStep(cells: Cells, rows: nat, cols: nat)
    ensures Removed(cells, rows, cols)
            == |Lonely(cells, rows, cols)| + Removed(Cleared(cells, Lonely(cells, rows, cols)), rows, cols)
    ensures Lonely(cells, rows, cols) == {} ==> Removed(cells, rows, cols) == 0
  {
    if Lonely(cells, rows, cols) == {} {
      ClearedNone(cells);
    }
  }

  /** No more rolls are removed than there were. */
  lemma {:induction false} RemovedBound(cells: Cells, rows: nat, cols: nat)
    ensures Removed(cells, rows, cols) <= |RollsIn(cells)|
    decreases |RollsIn(cells)|
  {
    var gone := Lonely(cells, rows, cols);
    if gone != {} {
      RoundCount(cells, rows, cols);
      RemovedBound(Cleared(cells, gone), rows, cols);
    }
  }

  /** Removal stops at a grid where every remaining roll has at least four
      rolls around it. */
  ghost function Settled(cells: Cells, rows: nat, cols: nat): Cells
    decreases |RollsIn(cells)|
  {
    var gone := Lonely(cells, rows, cols);
    if gone == {} then cells
    else
      RoundCount(cells, rows, cols);
      Settled(Cleared(cells, gone), rows, cols)
  }

  lemma {:induction false} SettledStable(cells: Cells, rows: nat, cols: nat)
    ensures Lonely(Settled(cells, rows, cols), rows, cols) == {}
    ensures |RollsIn(Settled(cells, rows, cols))| + Removed(cells, rows, cols) == |RollsIn(cells)|
    decreases |RollsIn(cells)|
  {
    var gone := Lonely(cells, rows, cols);
    if gone != {} {
      RoundCount(cells, rows, cols);
      SettledStable(Cleared(cells, gone), rows, cols);
    }
  }

  lemma SelectNone(cells: Cells, rows: nat, cols: nat)
    ensures LonelyAmong(cells, rows, cols, {}) == {} && FitsAmong(cells, rows, cols, {})
  {
  }

  /** Reading one more roll whose neighbours all exist: it joins the
      selection exactly when fewer than four of them are rolls. */
  lemma SelectStep(cells: Cells, rows: nat, cols: nat, done: set<Position>, p: Position)
    requires FitsAmong(cells, rows, cols, done) && Readable(cells, rows, cols, p)
    ensures FitsAmong(cells, rows, cols, done + {p})
    ensures LonelyAmong(cells, rows, cols, done + {p})
            == LonelyAmong(cells, rows, cols, done)
               + (if |RollsNear(cells, Neighbourhood(rows, cols, p))| < 4 then {p} else {})
  {
  }

  /** A missing neighbour of a roll is one of the faults, and the round
      cannot complete. */
  lemma Fault(cells: Cells, rows: nat, cols: nat, p: Position, q: Position)
    requires p in RollsIn(cells) && q in Neighbourhood(rows, cols, p) && !InGrid(cells, q)
    ensures OffRow(q.0, q.1) in Faults(cells, rows, cols)
    ensures !Fits(cells, rows, cols)
  {
  }

  /** Emptying one more cell and deleting its entry. */
  lemma ClearStep(start: Cells, table: map<Position, set<Position>>, toRemove: set<Position>,
                  removing: set<Position>, p: Position, cells: Cells, now: map<Position, set<Position>>)
    requires p in removing && removing <= toRemove && InGrid(start, p)
    requires cells == Cleared(start, toRemove - removing) && now == table - (toRemove - removing)
    ensures cells[p.0 := cells[p.0][p.1 := Nothing]] == Cleared(start, toRemove - (removing - {p}))
    ensures now - {p} == table - (toRemove - (removing - {p}))
  {
    assert toRemove - (removing - {p}) == (toRemove - removing) + {p};
    ClearedOne(start, toRemove - removing, p);
  }

  /** The loop of `remove_rolls` that selects rolls, over the table
      `adjacency` of the grid `cells`. */
  method SelectRolls(cells: Cells, rows: nat, cols: nat, adjacency: map<Position, set<Position>>)
    returns (r: Result<set<Position>, Error>)
    requires adjacency == Adjacency(cells, rows, cols)
    ensures r.Ok? <==> Fits(cells, rows, cols)
    ensures r.Ok? ==> r.value == Lonely(cells, rows, cols)
    ensures r.Err? ==> r.error in Faults(cells, rows, cols)
  {
    var toRemove: set<Position> := {};
    var rest := adjacency.Keys;
    ghost var done: set<Position> := {};
    SelectNone(cells, rows, cols);
    while rest != {}
      invariant rest <= adjacency.Keys && done == adjacency.Keys - rest
      invariant toRemove == LonelyAmong(cells, rows, cols, done)
      invariant FitsAmong(cells, rows, cols, done)
      decreases |rest|
    {
      var p :| p in rest;
      var adjacent := adjacency[p];
      var adjacentRolls := CountRolls(cells, adjacent);
      if adjacentRolls.Err? {
        SelectFault(cells, rows, cols, adjacency, p, (adjacentRolls.error.row, adjacentRolls.error.col));
        return Err(adjacentRolls.error);
      }
      SelectNext(cells, rows, cols, adjacency, done, toRemove, p, adjacentRolls.value);
      if adjacentRolls.value < 4 {
        toRemove := toRemove + {p};
      }
      rest := rest - {p};
      done := done + {p};
    }
    SelectDone(cells, rows, cols, adjacency, done);
    return Ok(toRemove);
  }

  lemma SelectNext(cells: Cells, rows: nat, cols: nat, adjacency: map<Position, set<Position>>,
                   done: set<Position>, toRemove: set<Position>, p: Position, n: nat)
    requires adjacency == Adjacency(cells, rows, cols) && p in adjacency
    requires toRemove == LonelyAmong(cells, rows, cols, done) && FitsAmong(cells, rows, cols, done)
    requires forall q :: q in adjacency[p] ==> InGrid(cells, q)
    requires n == |RollsNear(cells, adjacency[p])|
    ensures FitsAmong(cells, rows, cols, done + {p})
    ensures (if n < 4 then toRemove + {p} else toRemove) == LonelyAmong(cells, rows, cols, done + {p})
  {
    assert adjacency[p] == Neighbourhood(rows, cols, p);
    SelectStep(cells, rows, cols, done, p);
  }

  lemma SelectFault(cells: Cells, rows: nat, cols: nat, adjacency: map<Position, set<Position>>,
                    p: Position, q: Position)
    requires adjacency == Adjacency(cells, rows, cols) && p in adjacency
    requires q in adjacency[p] && !InGrid(cells, q)
    ensures OffRow(q.0, q.1) in Faults(cells, rows, cols)
    ensures !Fits(cells, rows, cols)
  {
    Fault(cells, rows, cols, p, q);
  }

  lemma SelectDone(cells: Cells, rows: nat, cols: nat, adjacency: map<Position, set<Position>>,
                   done: set<Position>)
    requires adjacency == Adjacency(cells, rows, cols) && done == adjacency.Keys
    ensures done == RollsIn(cells)
  {
  }

  /** The rolls among `adjacent`, counted; reading a position past the
      end of its row raises. */
  method CountRolls(cells: Cells, adjacent: set<Position>) returns (r: Result<nat, Error>)
    ensures r.Ok? <==> forall q :: q in adjacent ==> InGrid(cells, q)
    ensures r.Ok? ==> r.value == |RollsNear(cells, adjacent)|
    ensures r.Err? ==> && r.error.OffRow? && (r.error.row, r.error.col) in adjacent
                       && !InGrid(cells, (r.error.row, r.error.col))
  {
    if q :| q in adjacent && !InGrid(cells, q) {
      return Err(OffRow(q.0, q.1));
    }
    var adjacentRolls := set q | q in adjacent && cells[q.0][q.1] == Roll;
    assert adjacentRolls == RollsNear(cells, adjacent);
    return Ok(|adjacentRolls|);
  }

  /** The second loop of `remove_rolls`, on the grid and table it is
      given: empty each selected cell and delete its entry. */
  method ClearCells(cells: Cells, adjacency: map<Position, set<Position>>, toRemove: set<Position>)
    returns (grid: Cells, table: map<Position, set<Position>>)
    requires forall p :: p in toRemove ==> InGrid(cells, p)
    ensures grid == Cleared(cells, toRemove)
    ensures table == adjacency - toRemove
  {
    grid, table := cells, adjacency;
    var removing := toRemove;
    ClearedNone(grid);
    assert toRemove - removing == {};
    while removing != {}
      invariant removing <= toRemove
      invariant grid == Cleared(cells, toRemove - removing)
      invariant table == adjacency - (toRemove - removing)
      decreases |removing|
    {
      var p :| p in removing;
      ClearStep(cells, adjacency, toRemove, removing, p, grid, table);
      grid := grid[p.0 := grid[p.0][p.1 := Nothing]];
      table := table - {p};
      removing := removing - {p};
    }
    assert toRemove - removing == toRemove;
  }

  // ---------------------------------------------------------------------
  // The grid object
  // ---------------------------------------------------------------------

  class Grid {
    /** `grid_size`. */
    var rows: nat
    var cols: nat
    /** `grid`. */
    var cells: Cells
    /** `adjacency_matrix`. */
    var adjacency: map<Position, set<Position>>

    /** The size is that of the first row, and the adjacency table has an
        entry, the neighbourhood, for exactly the positions holding a roll. */
    ghost predicate Valid()
      reads this
    {
      && rows == |cells| > 0 && cols == |cells[0]|
      && adjacency == Adjacency(cells, rows, cols)
    }

    constructor (cells: Cells)
      requires cells != []
      ensures this.cells == cells && rows == |cells| && cols == |cells[0]| && adjacency == map[]
    {
      this.cells := cells;
      rows := |cells|;
      cols := |cells[0]|;
      adjacency := map[];
    }

    /** `Grid.__init__`: the cells line by line, the size, then the
        adjacency table. */
    static method New(lines: seq<string>) returns (r: Result<Grid, Error>)
      ensures r.Ok? <==> GridOf(lines).Ok?
      ensures r.Ok? ==> fresh(r.value) && r.value.Valid() && r.value.cells == GridOf(lines).value
      ensures r.Err? ==> r.error == GridOf(lines).error
    {
      var cells: Cells := [];
      for i := 0 to |lines|
        invariant Decode(lines[..i]) == Ok(cells)
      {
        var row := DecodeRow(lines[i], i);
        if row.Err? {
          DecodeStopsAt(lines, i);
          return Err(row.error);
        }
        assert lines[..i + 1][..i] == lines[..i];
        cells := cells + [row.value];
      }
      assert lines[..|lines|] == lines;
      if cells == [] {
        return Err(NoRows);
      }
      var g := new Grid(cells);
      g.BuildAdjacency();
      return Ok(g);
    }

    /** `_build_adjacency_matrix`: an entry for every roll, row by row. */
    method BuildAdjacency()
      requires rows == |cells| > 0 && cols == |cells[0]| && adjacency == map[]
      modifies this
      ensures Valid() && cells == old(cells) && rows == old(rows) && cols == old(cols)
    {
      for i := 0 to |cells|
        invariant cells == old(cells) && rows == old(rows) && cols == old(cols)
        invariant adjacency == Built(cells, rows, cols, i, 0)
      {
        for j := 0 to |cells[i]|
          invariant cells == old(cells) && rows == old(rows) && cols == old(cols)
          invariant adjacency == Built(cells, rows, cols, i, j)
        {
          if cells[i][j] == Roll {
            BuiltRoll(cells, rows, cols, i, j);
            AdjacentSet(rows, cols, (i, j));
            adjacency := adjacency[(i, j) := set q | q in AdjacentPositions(rows, cols, (i, j))];
          } else {
            BuiltSkip(cells, rows, cols, i, j);
          }
        }
        BuiltRow(cells, rows, cols, i);
      }
      BuiltAll(cells, rows, cols);
    }

    /** The first loop of `remove_rolls`: every roll with fewer than four
        rolls around it, read off the grid as it stands. */
    method Select() returns (r: Result<set<Position>, Error>)
      requires Valid()
      ensures r.Ok? <==> Fits(cells, rows, cols)
      ensures r.Ok? ==> r.value == Lonely(cells, rows, cols)
      ensures r.Err? ==> r.error in Faults(cells, rows, cols)
    {
      r := SelectRolls(cells, rows, cols, adjacency);
    }

    /** `remove_rolls`: select, then empty the selected cells and drop
        their entries, so that every selection reads the grid as it was
        before the round. */
    method RemoveRolls() returns (r: Result<nat, Error>)
      requires Valid()
      modifies this
      ensures Valid() && rows == old(rows) && cols == old(cols)
      ensures r.Ok? <==> Fits(old(cells), rows, cols)
      ensures r.Ok? ==> && r.value == |Lonely(old(cells), rows, cols)|
                        && cells == Cleared(old(cells), Lonely(old(cells), rows, cols))
      ensures r.Err? ==> cells == old(cells) && r.error in Faults(old(cells), rows, cols)
    {
      var toRemove :- Select();
      ghost var before := cells;
      Clear(toRemove);
      AdjacencyCleared(before, rows, cols, toRemove);
      return Ok(|toRemove|);
    }

    /** The second loop of `remove_rolls`: empty each selected cell and
        delete its entry from the table. */
    method Clear(toRemove: set<Position>)
      requires forall p :: p in toRemove ==> InGrid(cells, p)
      modifies this
      ensures rows == old(rows) && cols == old(cols)
      ensures cells == Cleared(old(cells), toRemove)
      ensures adjacency == old(adjacency) - toRemove
    {
      cells, adjacency := ClearCells(cells, adjacency, toRemove);
    }
  }

  // ---------------------------------------------------------------------
  // Building the adjacency table
  // ---------------------------------------------------------------------

  /** The rolls before position `(i, j)` in row-major order. */
  function RollsBefore(cells: Cells, i: nat, j: nat): set<Position> {
    set p | p in RollsIn(cells) && (p.0 < i || (p.0 == i && p.1 < j))
  }

  /** The table once the rolls before `(i, j)` have their entry. */
  function Built(cells: Cells, rows: nat, cols: nat, i: nat, j: nat): map<Position, set<Position>> {
    map p | p in RollsBefore(cells, i, j) :: Neighbourhood(rows, cols, p)
  }

  lemma BuiltRoll(cells: Cells, rows: nat, cols: nat, i: nat, j: nat)
    requires i < |cells| && j < |cells[i]| && cells[i][j] == Roll
    ensures Built(cells, rows, cols, i, j + 1)
            == Built(cells, rows, cols, i, j)[(i, j) := Neighbourhood(rows, cols, (i, j))]
  {
    assert RollsBefore(cells, i, j + 1) == RollsBefore(cells, i, j) + {(i, j)};
  }

  lemma BuiltSkip(cells: Cells, rows: nat, cols: nat, i: nat, j: nat)
    requires i < |cells| && j < |cells[i]| && cells[i][j] != Roll
    ensures Built(cells, rows, cols, i, j + 1) == Built(cells, rows, cols, i, j)
  {
    assert RollsBefore(cells, i, j + 1) == RollsBefore(cells, i, j);
  }

  lemma BuiltRow(cells: Cells, rows: nat, cols: nat, i: nat)
    requires i < |cells|
    ensures Built(cells, rows, cols, i, |cells[i]|) == Built(cells, rows, cols, i + 1, 0)
  {
    assert RollsBefore(cells, i, |cells[i]|) == RollsBefore(cells, i + 1, 0);
  }

  lemma BuiltAll(cells: Cells, rows: nat, cols: nat)
    ensures Built(cells, rows, cols, |cells|, 0) == Adjacency(cells, rows, cols)
  {
    assert RollsBefore(cells, |cells|, 0) == RollsIn(cells);
  }

  // ---------------------------------------------------------------------
  // The two parts
  // ---------------------------------------------------------------------

  /** `part1`: the rolls one round removes, as text. */
  method Part1(lines: seq<string>) returns (r: Result<string, Error>)
    ensures GridOf(lines).Err? ==> r == Err(GridOf(lines).error)
    ensures GridOf(lines).Ok? ==>
              var cells := GridOf(lines).value;
              && (Fits(cells, |cells|, |cells[0]|) ==> r == Ok(Text.Show(|Lonely(cells, |cells|, |cells[0]|)|)))
              && (!Fits(cells, |cells|, |cells[0]|) ==> r.Err? && r.error in Faults(cells, |cells|, |cells[0]|))
  {
    var grid :- Grid.New(lines);
    var removed :- grid.RemoveRolls();
    return Ok(Text.Show(removed));
  }

  /** One pass of the loop of `part2`: `grid.remove_rolls()`, stated in
      terms of the rolls part 2 has still to remove. */
  method Round(grid: Grid) returns (r: Result<nat, Error>)
    requires grid.Valid()
    modifies grid
    ensures grid.Valid() && grid.rows == old(grid.rows) && grid.cols == old(grid.cols)
    ensures r.Ok? <==> Fits(old(grid.cells), grid.rows, grid.cols)
    ensures r.Err? ==> grid.cells == old(grid.cells) && r.error in Faults(old(grid.cells), grid.rows, grid.cols)
    ensures r.Ok? ==> && Fits(grid.cells, grid.rows, grid.cols)
                      && r.value + Removed(grid.cells, grid.rows, grid.cols) == Removed(old(grid.cells), grid.rows, grid.cols)
                      && (r.value == 0 ==> Removed(grid.cells, grid.rows, grid.cols) == 0)
                      && |RollsIn(grid.cells)| + r.value == |RollsIn(old(grid.cells))|
  {
    ghost var cells := grid.cells;
    r := grid.RemoveRolls();
    if r.Ok? {
      RoundCount(cells, grid.rows, grid.cols);
      RemovedStep(cells, grid.rows, grid.cols);
      FitsCleared(cells, grid.rows, grid.cols, Lonely(cells, grid.rows, grid.cols));
    }
  }

  /** `part2`: rounds until one removes nothing; the rolls removed in all,
      as text. */
  method Part2(lines: seq<string>) returns (r: Result<string, Error>)
    ensures GridOf(lines).Err? ==> r == Err(GridOf(lines).error)
    ensures GridOf(lines).Ok? ==>
              var cells := GridOf(lines).value;
              && (Fits(cells, |cells|, |cells[0]|) ==> r == Ok(Text.Show(Removed(cells, |cells|, |cells[0]|))))
              && (!Fits(cells, |cells|, |cells[0]|) ==> r.Err? && r.error in Faults(cells, |cells|, |cells[0]|))
  {
    var grid :- Grid.New(lines);
    ghost var start := grid.cells;
    var removedRolls := 0;
    var current: Option<nat> := None;
    while current != Some(0)
      invariant grid.Valid() && grid.rows == |start| && grid.cols == |start[0]|
      invariant current.None? ==> grid.cells == start && removedRolls == 0
      invariant current.Some? ==> Fits(start, grid.rows, grid.cols) && Fits(grid.cells, grid.rows, grid.cols)
      invariant current.Some? ==> removedRolls + Removed(grid.cells, grid.rows, grid.cols) == Removed(start, grid.rows, grid.cols)
      invariant current == Some(0) ==> Removed(grid.cells, grid.rows, grid.cols) == 0
      decreases |RollsIn(grid.cells)| + (if current == Some(0) then 0 else 1)
    {
      var round :- Round(grid);
      current := Some(round);
      removedRolls := removedRolls + round;
    }
    assert current == Some(0);
    assert Removed(grid.cells, grid.rows, grid.cols) == 0;
    assert removedRolls == Removed(start, grid.rows, grid.cols);
    assert start == GridOf(lines).value;
    return Ok(Text.Show(removedRolls));
  }
}
