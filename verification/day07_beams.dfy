/** Day 7: beams falling down a character grid from the `S` in the top
    row. A beam goes straight down through `.` and splits into its left and
    right neighbours at `^`; sides outside the top row's width are dropped.
    Part 1 counts the splits over a set of beam positions, part 2 counts
    timelines by carrying a multiplicity per position. */
module Beams {
  import opened Results
  import Text

  type Grid = seq<seq<char>>

  /** A beam position: (row, column). */
  type Beam = (nat, nat)

  datatype Error =
    /** `input_data[0]` on an empty grid (IndexError). */
    | NoRows
    /** `input_data[0].index("S")` finds no `S` (ValueError). */
    | NoStart
    /** `input_data[row][col]` past the end of a row (IndexError). */
    | OffRow(row: nat, col: nat)
    /** A beam meets neither `.` nor `^` (ValueError). */
    | Unexpected(c: char, row: nat, col: nat)

  // ---------------------------------------------------------------------
  // Parsing
  // ---------------------------------------------------------------------

  /** `parse_input`: every non-empty line, as its list of characters. */
  function Parse(input: string): (grid: Grid)
    ensures forall i :: 0 <= i < |grid| ==> grid[i] != [] && '\n' !in grid[i]
    ensures forall i :: 0 <= i < |grid| ==> grid[i] in Text.Split(input, "\n")
  {
    var lines := Text.Split(input, "\n");
    Text.SplitPiecesFree(input, "\n");
    forall k | 0 <= k < |lines| ensures '\n' !in lines[k] {
      Text.FreeOfChar(lines[k], '\n');
    }
    Text.NonEmpty(lines)
  }

  /** Parsing the rows joined by newlines gives the rows back. */
  lemma ParseJoin(rows: Grid)
    requires forall i :: 0 <= i < |rows| ==> rows[i] != [] && '\n' !in rows[i]
    ensures Parse(Text.Join(rows, "\n")) == rows
  {
    if rows == [] {
      assert Text.Split([], "\n") == [[]];
      assert Text.NonEmpty([[]]) == Text.NonEmpty([]);
    } else {
      Text.SplitJoin(rows, "\n");
      Text.NonEmptyKeeps(rows);
    }
  }

  // ---------------------------------------------------------------------
  // One beam, one row
  // ---------------------------------------------------------------------

  /** `input_data[0].index("S")`: the column of the first `S` in the top row. */
  function Start(grid: Grid): (r: Result<nat, Error>)
    ensures grid == [] <==> r == Err(NoRows)
    ensures r.Ok? ==> r.value < |grid[0]| && grid[0][r.value] == 'S' && 'S' !in grid[0][..r.value]
    ensures r == Err(NoStart) <==> grid != [] && 'S' !in grid[0]
  {
    if grid == [] then Err(NoRows)
    else
      match Text.IndexOf(grid[0], 'S')
      case None => Err(NoStart)
      case Some(col) => Ok(col)
  }

  /** What the beam at `b` does: read `input_data[row][col]` (an IndexError
      past the end of a row), go straight down through `.`, split at `^` into
      the sides that lie in `[0, width)`, raise a ValueError on anything else. */
  function Targets(grid: Grid, width: nat, b: Beam): (r: Result<set<Beam>, Error>)
    ensures r.Ok? ==> forall t :: t in r.value ==> t.0 == b.0 + 1
  {
    if b.0 >= |grid| || b.1 >= |grid[b.0]| then Err(OffRow(b.0, b.1))
    else
      var c := grid[b.0][b.1];
      if c == '.' then Ok({(b.0 + 1, b.1)})
      else if c == '^' then
        Ok((if b.1 >= 1 then {(b.0 + 1, b.1 - 1)} else {})
           + (if b.1 + 1 < width then {(b.0 + 1, b.1 + 1)} else {}))
      else Err(Unexpected(c, b.0, b.1))
  }

  /** The beam lands on a splitter. */
  predicate Splits(grid: Grid, b: Beam) {
    b.0 < |grid| && b.1 < |grid[b.0]| && grid[b.0][b.1] == '^'
  }

  /** The targets of a beam inside `[0, width)` stay inside, one column
      away at most, and none is lost: `.` keeps one beam, `^` keeps the
      sides that fit. */
  lemma TargetsShape(grid: Grid, width: nat, b: Beam)
    requires b.1 < width && Targets(grid, width, b).Ok?
    ensures forall t :: t in Targets(grid, width, b).value ==>
              t.1 < width && (t.1 == b.1 || t.1 + 1 == b.1 || t.1 == b.1 + 1)
    ensures !Splits(grid, b) ==> Targets(grid, width, b).value == {(b.0 + 1, b.1)}
    ensures Splits(grid, b) ==> forall t :: t in Targets(grid, width, b).value ==> t.1 != b.1
  {
  }

  // ---------------------------------------------------------------------
  // A whole row
  // ---------------------------------------------------------------------

  /** No beam of the row raises. */
  predicate Clean(grid: Grid, width: nat, beams: set<Beam>) {
    forall b {:trigger Targets(grid, width, b)} :: b in beams ==> Targets(grid, width, b).Ok?
  }

  /** The errors the beams of a row can raise; which one is raised depends
      on the iteration order of the set. */
  function Faults(grid: Grid, width: nat, beams: set<Beam>): set<Error> {
    set b | b in beams && Targets(grid, width, b).Err? :: Targets(grid, width, b).error
  }

  /** The beams of the next row: every target of every beam, coinciding
      beams merged. */
  function Next(grid: Grid, width: nat, beams: set<Beam>): set<Beam>
    requires Clean(grid, width, beams)
  {
    set b, t | b in beams && t in Targets(grid, width, b).value :: t
  }

  /** The beams of the row that land on a splitter. */
  function Splitters(grid: Grid, beams: set<Beam>): set<Beam> {
    set b | b in beams && Splits(grid, b)
  }

  lemma NextAdd(grid: Grid, width: nat, done: set<Beam>, b: Beam)
    requires Clean(grid, width, done) && Targets(grid, width, b).Ok?
    ensures Clean(grid, width, done + {b})
    ensures Next(grid, width, done + {b}) == Next(grid, width, done) + Targets(grid, width, b).value
  {
  }

  lemma SplittersAdd(grid: Grid, done: set<Beam>, b: Beam)
    requires b !in done
    ensures |Splitters(grid, done + {b})| == |Splitters(grid, done)| + (if Splits(grid, b) then 1 else 0)
  {
    if Splits(grid, b) {
      assert Splitters(grid, done + {b}) == Splitters(grid, done) + {b};
    } else {
      assert Splitters(grid, done + {b}) == Splitters(grid, done);
    }
  }

  // ---------------------------------------------------------------------
  // The sweep
  // ---------------------------------------------------------------------

  /** Where the sweep stands on entering row `k`. */
  datatype Sweep =
    /** The beams entering row `k` and the splits counted on rows `1 .. k-1`. */
    | Swept(beams: set<Beam>, splits: nat)
    /** A row whose beams raise; the sweep ends there. */
    | Stuck(beams: set<Beam>)

  /** Part 1 by rows: the first beam enters row 1 below the `S`. */
  function SweepTo(grid: Grid, width: nat, col: nat, k: nat): Sweep
    requires k >= 1
  {
    if k == 1 then Swept({(1, col)}, 0)
    else
      match SweepTo(grid, width, col, k - 1)
      case Stuck(beams) => Stuck(beams)
      case Swept(beams, splits) =>
        if Clean(grid, width, beams) then Swept(Next(grid, width, beams), splits + |Splitters(grid, beams)|)
        else Stuck(beams)
  }

  /** Every beam entering row `k` is in row `k` and inside `[0, width)`. */
  lemma {:induction false} SweepRows(grid: Grid, width: nat, col: nat, k: nat)
    requires k >= 1 && col < width && SweepTo(grid, width, col, k).Swept?
    ensures forall b :: b in SweepTo(grid, width, col, k).beams ==> b.0 == k && b.1 < width
  {
    if k > 1 {
      SweepRows(grid, width, col, k - 1);
      var beams := SweepTo(grid, width, col, k - 1).beams;
      forall t | t in Next(grid, width, beams) ensures t.0 == k && t.1 < width {
        var b :| b in beams && t in Targets(grid, width, b).value;
        TargetsShape(grid, width, b);
      }
    }
  }

  lemma {:induction false} StuckStays(grid: Grid, width: nat, col: nat, k: nat, m: nat)
    requires 1 <= k <= m && SweepTo(grid, width, col, k).Stuck?
    ensures SweepTo(grid, width, col, m) == SweepTo(grid, width, col, k)
    decreases m - k
  {
    if k < m {
      StuckStays(grid, width, col, k + 1, m);
    }
  }

  /** The body of `part1`'s inner loop for one beam: the beams it adds to
      the next row, and whether it met a splitter. */
  method SplitBeam(grid: Grid, width: nat, b: Beam) returns (r: Result<(set<Beam>, bool), Error>)
    ensures r.Ok? <==> Targets(grid, width, b).Ok?
    ensures r.Ok? ==> r.value.0 == Targets(grid, width, b).value && r.value.1 == Splits(grid, b)
    ensures r.Err? ==> r.error == Targets(grid, width, b).error
  {
    if b.0 >= |grid| || b.1 >= |grid[b.0]| {
      return Err(OffRow(b.0, b.1));
    }
    var cell := grid[b.0][b.1];
    var adds: set<Beam> := {};
    if cell == '.' {
      adds := {(b.0 + 1, b.1)};
    } else if cell == '^' {
      if b.1 >= 1 {
        adds := adds + {(b.0 + 1, b.1 - 1)};
      }
      if b.1 + 1 < width {
        adds := adds + {(b.0 + 1, b.1 + 1)};
      }
    } else {
      return Err(Unexpected(cell, b.0, b.1));
    }
    return Ok((adds, cell == '^'));
  }

  /** One row of `part1`'s loop: every beam of the row is looked at once,
      in the set's iteration order, collecting the next row's beams and
      counting the splitters met. */
  method SplitRow(grid: Grid, width: nat, beams: set<Beam>) returns (r: Result<(set<Beam>, nat), Error>)
    ensures Clean(grid, width, beams) ==> r == Ok((Next(grid, width, beams), |Splitters(grid, beams)|))
    ensures !Clean(grid, width, beams) ==> r.Err? && r.error in Faults(grid, width, beams)
  {
    var newBeams: set<Beam> := {};
    var splits := 0;
    var rest := beams;
    ghost var done: set<Beam> := {};
    while rest != {}
      invariant rest <= beams && done == beams - rest
      invariant Clean(grid, width, done)
      invariant newBeams == Next(grid, width, done)
      invariant splits == |Splitters(grid, done)|
      decreases |rest|
    {
      var b: Beam :| b in rest;
      var step := SplitBeam(grid, width, b);
      if step.Err? {
        FaultOf(grid, width, beams, b);
        return Err(step.error);
      }
      var (adds, split) := step.value;
      if split {
        splits := splits + 1;
      }
      newBeams := newBeams + adds;
      NextAdd(grid, width, done, b);
      SplittersAdd(grid, done, b);
      rest := rest - {b};
      done := done + {b};
    }
    assert done == beams;
    return Ok((newBeams, splits));
  }

  /** `part1`: the number of splits, as text. */
  method Part1(grid: Grid) returns (r: Result<string, Error>)
    ensures Start(grid).Err? ==> r == Err(Start(grid).error)
    ensures Start(grid).Ok? ==>
              match SweepTo(grid, |grid[0]|, Start(grid).value, |grid|)
              case Swept(_, splits) => r == Ok(Text.Show(splits))
              case Stuck(beams) => r.Err? && r.error in Faults(grid, |grid[0]|, beams)
  {
    var col := Start(grid);
    if col.Err? {
      return Err(col.error);
    }
    var start := col.value;
    var width := |grid[0]|;
    var beams: set<Beam> := {(1, start)};
    var splits := 0;
    for idx := 1 to |grid|
      invariant SweepTo(grid, width, start, idx) == Swept(beams, splits)
    {
      var row := SplitRow(grid, width, beams);
      if row.Err? {
        StuckOn(grid, width, start, idx);
        return Err(row.error);
      }
      beams := row.value.0;
      splits := splits + row.value.1;
    }
    return Ok(Text.Show(splits));
  }

  /** A row whose beams raise sticks the sweep there for good. */
  lemma {:induction false} StuckOn(grid: Grid, width: nat, col: nat, idx: nat)
    requires 1 <= idx < |grid| && SweepTo(grid, width, col, idx).Swept?
    requires !Clean(grid, width, SweepTo(grid, width, col, idx).beams)
    ensures SweepTo(grid, width, col, |grid|) == Stuck(SweepTo(grid, width, col, idx).beams)
  {
    StuckNext(grid, width, col, idx);
    StuckStays(grid, width, col, idx + 1, |grid|);
  }

  lemma FaultOf(grid: Grid, width: nat, beams: set<Beam>, b: Beam)
    requires b in beams && Targets(grid, width, b).Err?
    ensures !Clean(grid, width, beams)
    ensures Targets(grid, width, b).error in Faults(grid, width, beams)
  {
  }

  lemma StuckNext(grid: Grid, width: nat, col: nat, k: nat)
    requires k >= 1 && SweepTo(grid, width, col, k).Swept?
    requires !Clean(grid, width, SweepTo(grid, width, col, k).beams)
    ensures SweepTo(grid, width, col, k + 1) == Stuck(SweepTo(grid, width, col, k).beams)
  {
  }

  // ---------------------------------------------------------------------
  // Part 2: timelines
  // ---------------------------------------------------------------------

  /** The number of timelines at each beam position of a row. */
  type Counts = map<Beam, nat>

  /** The beam at `b` goes on to `t`, read off the cell of `b` alone:
      straight down from `.`, one column aside (within the width) from `^`. */
  predicate Feeds(grid: Grid, width: nat, b: Beam, t: Beam) {
    && b.0 < |grid| && b.1 < |grid[b.0]| && t.0 == b.0 + 1
    && ((grid[b.0][b.1] == '.' && t.1 == b.1)
        || (grid[b.0][b.1] == '^' && (t.1 + 1 == b.1 || (t.1 == b.1 + 1 && t.1 < width))))
  }

  /** `Feeds` picks out exactly the targets of a beam that does not raise. */
  lemma FeedsTargets(grid: Grid, width: nat, b: Beam, t: Beam)
    requires Targets(grid, width, b).Ok?
    ensures Feeds(grid, width, b, t) <==> t in Targets(grid, width, b).value
  {
  }

  /** The timelines the beam at `b` sends to `t`, counting only the beams
      of `done`. */
  function From(grid: Grid, width: nat, counts: Counts, done: set<Beam>, b: Beam, t: Beam): nat {
    if b in done && b in counts && Feeds(grid, width, b, t) then counts[b] else 0
  }

  /** The timelines arriving at `t` from the beams of `done`: only the
      position right above `t` and its two neighbours can send any. */
  function Pull(grid: Grid, width: nat, counts: Counts, done: set<Beam>, t: Beam): nat {
    if t.0 == 0 then 0
    else
      From(grid, width, counts, done, (t.0 - 1, t.1), t)
      + (if t.1 >= 1 then From(grid, width, counts, done, (t.0 - 1, t.1 - 1), t) else 0)
      + From(grid, width, counts, done, (t.0 - 1, t.1 + 1), t)
  }

  /** A beam that reaches `t` is one of the three positions `Pull` reads. */
  lemma Neighbour(grid: Grid, width: nat, b: Beam, t: Beam)
    requires Feeds(grid, width, b, t)
    ensures t.0 == b.0 + 1
    ensures b == (t.0 - 1, t.1) || (t.1 >= 1 && b == (t.0 - 1, t.1 - 1)) || b == (t.0 - 1, t.1 + 1)
  {
  }

  /** The next row of counts: every position the beams reach, with the
      timelines arriving there. */
  function Flow(grid: Grid, width: nat, counts: Counts): Counts
    requires Clean(grid, width, counts.Keys)
  {
    map t | t in Next(grid, width, counts.Keys) :: Pull(grid, width, counts, counts.Keys, t)
  }

  /** `m` holds the timelines the beams of `done` send to the next row. */
  ghost predicate Pulled(grid: Grid, width: nat, counts: Counts, done: set<Beam>, m: Counts) {
    && Clean(grid, width, done)
    && m.Keys == Next(grid, width, done)
    && forall t :: t in m ==> m[t] == Pull(grid, width, counts, done, t)
  }

  /** Nothing arrives where no beam of `done` goes. */
  lemma PullOutside(grid: Grid, width: nat, counts: Counts, done: set<Beam>, t: Beam)
    requires Clean(grid, width, done) && t !in Next(grid, width, done)
    ensures Pull(grid, width, counts, done, t) == 0
  {
    forall b | b in done ensures !Feeds(grid, width, b, t) {
      FeedsTargets(grid, width, b, t);
    }
  }

  /** Taking one more beam into account adds its timelines to its targets. */
  lemma PullAdd(grid: Grid, width: nat, counts: Counts, done: set<Beam>, b: Beam, t: Beam)
    requires b !in done && b in counts && Targets(grid, width, b).Ok?
    ensures Pull(grid, width, counts, done + {b}, t)
            == Pull(grid, width, counts, done, t) + (if t in Targets(grid, width, b).value then counts[b] else 0)
  {
    FeedsTargets(grid, width, b, t);
    if Feeds(grid, width, b, t) {
      Neighbour(grid, width, b, t);
    }
  }

  /** The counts `+=` gives: `cnt` more at every position of `ts`. */
  function Bump(m: Counts, ts: set<Beam>, cnt: nat): (r: Counts)
    ensures r.Keys == m.Keys + ts
    ensures forall t :: t in r ==> r[t] == Count(m, t) + (if t in ts then cnt else 0)
  {
    map t | t in m.Keys + ts :: Count(m, t) + (if t in ts then cnt else 0)
  }

  lemma BumpNone(m: Counts, cnt: nat)
    ensures Bump(m, {}, cnt) == m
  {
  }

  /** `+=` at one more position. */
  lemma BumpOne(m: Counts, ts: set<Beam>, cnt: nat, t: Beam)
    requires t !in ts
    ensures Bump(m, ts + {t}, cnt) == Bump(m, ts, cnt)[t := Count(Bump(m, ts, cnt), t) + cnt]
  {
  }

  lemma PulledAdd(grid: Grid, width: nat, counts: Counts, done: set<Beam>, m: Counts, b: Beam)
    requires Pulled(grid, width, counts, done, m)
    requires b !in done && b in counts && Targets(grid, width, b).Ok?
    ensures Pulled(grid, width, counts, done + {b}, Bump(m, Targets(grid, width, b).value, counts[b]))
  {
    var ts := Targets(grid, width, b).value;
    var m' := Bump(m, ts, counts[b]);
    NextAdd(grid, width, done, b);
    forall t | t in m' ensures m'[t] == Pull(grid, width, counts, done + {b}, t) {
      PullAdd(grid, width, counts, done, b, t);
      if t !in m {
        PullOutside(grid, width, counts, done, t);
      }
    }
  }

  lemma PulledFlow(grid: Grid, width: nat, counts: Counts, m: Counts)
    requires Pulled(grid, width, counts, counts.Keys, m)
    ensures Flow(grid, width, counts) == m
  {
  }

  /** The targets of a beam, spelled out the way `part2` adds them. */
  lemma TargetsCell(grid: Grid, width: nat, b: Beam)
    requires b.0 < |grid| && b.1 < |grid[b.0]|
    ensures grid[b.0][b.1] == '.' ==> Targets(grid, width, b) == Ok({} + {(b.0 + 1, b.1)})
    ensures grid[b.0][b.1] == '^' ==>
              Targets(grid, width, b)
              == Ok((if b.1 >= 1 then {} + {(b.0 + 1, b.1 - 1)} else {})
                    + (if b.1 + 1 < width then {(b.0 + 1, b.1 + 1)} else {}))
  {
    var empty: set<Beam> := {};
    assert empty + {(b.0 + 1, b.1)} == {(b.0 + 1, b.1)};
    assert empty + {(b.0 + 1, b.1 - 1)} == {(b.0 + 1, b.1 - 1)};
  }

  /** The body of `part2`'s inner loop for the beam at `b` with `cnt`
      timelines: `new_beams[t] += cnt` at every target. */
  method PassOn(grid: Grid, width: nat, newBeams: Counts, b: Beam, cnt: nat) returns (r: Result<Counts, Error>)
    ensures Targets(grid, width, b).Ok? ==> r == Ok(Bump(newBeams, Targets(grid, width, b).value, cnt))
    ensures Targets(grid, width, b).Err? ==> r == Err(Targets(grid, width, b).error)
  {
    if b.0 >= |grid| || b.1 >= |grid[b.0]| {
      return Err(OffRow(b.0, b.1));
    }
    var cell := grid[b.0][b.1];
    var m := newBeams;
    ghost var adds: set<Beam> := {};
    TargetsCell(grid, width, b);
    BumpNone(newBeams, cnt);
    if cell == '.' {
      var down: Beam := (b.0 + 1, b.1);
      BumpOne(newBeams, adds, cnt, down);
      m := m[down := Count(m, down) + cnt];
      adds := adds + {down};
    } else if cell == '^' {
      if b.1 >= 1 {
        var left: Beam := (b.0 + 1, b.1 - 1);
        BumpOne(newBeams, adds, cnt, left);
        m := m[left := Count(m, left) + cnt];
        adds := adds + {left};
      }
      if b.1 + 1 < width {
        var right: Beam := (b.0 + 1, b.1 + 1);
        BumpOne(newBeams, adds, cnt, right);
        m := m[right := Count(m, right) + cnt];
        adds := adds + {right};
      }
    } else {
      return Err(Unexpected(cell, b.0, b.1));
    }
    assert adds == Targets(grid, width, b).value;
    return Ok(m);
  }

  /** One row of `part2`'s loop: every beam passes its timelines on. */
  method CountRow(grid: Grid, width: nat, counts: Counts) returns (r: Result<Counts, Error>)
    ensures Clean(grid, width, counts.Keys) ==> r == Ok(Flow(grid, width, counts))
    ensures !Clean(grid, width, counts.Keys) ==> r.Err? && r.error in Faults(grid, width, counts.Keys)
  {
    var newBeams: Counts := map[];
    var rest := counts.Keys;
    ghost var done: set<Beam> := {};
    while rest != {}
      invariant rest <= counts.Keys && done == counts.Keys - rest
      invariant Pulled(grid, width, counts, done, newBeams)
      decreases |rest|
    {
      var b: Beam :| b in rest;
      var next := PassOn(grid, width, newBeams, b, counts[b]);
      if next.Err? {
        FaultOf(grid, width, counts.Keys, b);
        return Err(next.error);
      }
      PulledAdd(grid, width, counts, done, newBeams, b);
      newBeams := next.value;
      rest := rest - {b};
      done := done + {b};
    }
    PulledFlow(grid, width, counts, newBeams);
    return Ok(newBeams);
  }

  /** Where part 2 stands on entering row `k`. */
  datatype Timelines =
    /** The timelines at each beam position entering row `k`. */
    | Flowing(counts: Counts)
    /** A row whose beams raise; the count ends there. */
    | Blocked(beams: set<Beam>)

  /** Part 2 by rows: one timeline enters row 1 below the `S`. */
  function FlowTo(grid: Grid, width: nat, col: nat, k: nat): Timelines
    requires k >= 1
  {
    if k == 1 then Flowing(map[(1, col) := 1])
    else
      match FlowTo(grid, width, col, k - 1)
      case Blocked(beams) => Blocked(beams)
      case Flowing(counts) =>
        if Clean(grid, width, counts.Keys) then Flowing(Flow(grid, width, counts))
        else Blocked(counts.Keys)
  }

  /** Part 2 follows the beams of part 1: its positions are part 1's beams,
      and it gets stuck on the same row. */
  lemma {:induction false} FlowFollowsSweep(grid: Grid, width: nat, col: nat, k: nat)
    requires k >= 1
    ensures FlowTo(grid, width, col, k).Flowing? <==> SweepTo(grid, width, col, k).Swept?
    ensures FlowTo(grid, width, col, k).Flowing? ==>
              FlowTo(grid, width, col, k).counts.Keys == SweepTo(grid, width, col, k).beams
    ensures FlowTo(grid, width, col, k).Blocked? ==>
              FlowTo(grid, width, col, k).beams == SweepTo(grid, width, col, k).beams
  {
    if k > 1 {
      FlowFollowsSweep(grid, width, col, k - 1);
    }
  }

  /** Every position a beam reaches is reached by at least one timeline. */
  lemma {:induction false} FlowPositive(grid: Grid, width: nat, col: nat, k: nat)
    requires k >= 1 && FlowTo(grid, width, col, k).Flowing?
    ensures forall t :: t in FlowTo(grid, width, col, k).counts ==> FlowTo(grid, width, col, k).counts[t] >= 1
  {
    if k > 1 {
      FlowPositive(grid, width, col, k - 1);
      var counts := FlowTo(grid, width, col, k - 1).counts;
      forall t | t in Flow(grid, width, counts) ensures Flow(grid, width, counts)[t] >= 1 {
        var b :| b in counts.Keys && t in Targets(grid, width, b).value;
        FeedsTargets(grid, width, b, t);
        Neighbour(grid, width, b, t);
        assert From(grid, width, counts, counts.Keys, b, t) >= 1;
      }
    }
  }

  lemma BlockedNext(grid: Grid, width: nat, col: nat, k: nat, counts: Counts)
    requires k >= 1 && FlowTo(grid, width, col, k) == Flowing(counts)
    requires !Clean(grid, width, counts.Keys)
    ensures FlowTo(grid, width, col, k + 1) == Blocked(counts.Keys)
  {
  }

  /** Once blocked, the count stays blocked. */
  lemma {:induction false} BlockedStays(grid: Grid, width: nat, col: nat, k: nat, m: nat, beams: set<Beam>)
    requires 1 <= k <= m && FlowTo(grid, width, col, k) == Blocked(beams)
    ensures FlowTo(grid, width, col, m) == Blocked(beams)
    decreases m - k
  {
    if k < m {
      BlockedStays(grid, width, col, k + 1, m, beams);
    }
  }

  /** `sum(m.values())`. */
  ghost function SumValues(m: Counts): nat
    decreases |m.Keys|
  {
    if m == map[] then 0
    else
      var k :| k in m;
      assert (m - {k}).Keys < m.Keys;
      m[k] + SumValues(m - {k})
  }

  /** The sum does not depend on the order the values are taken in. */
  lemma {:induction false} SumValuesRemove(m: Counts, k: Beam)
    requires k in m
    ensures SumValues(m) == m[k] + SumValues(m - {k})
    decreases |m.Keys|
  {
    var x :| x in m && SumValues(m) == m[x] + SumValues(m - {x});
    if x != k {
      assert (m - {x}).Keys < m.Keys && (m - {k}).Keys < m.Keys;
      SumValuesRemove(m - {x}, k);
      SumValuesRemove(m - {k}, x);
      assert m - {x} - {k} == m - {k} - {x};
    }
  }

  /** With every count positive, there are at least as many timelines as
      positions. */
  lemma {:induction false} SumValuesAtLeast(m: Counts)
    requires forall t :: t in m ==> m[t] >= 1
    ensures SumValues(m) >= |m.Keys|
    decreases |m.Keys|
  {
    if m != map[] {
      var k :| k in m;
      SumValuesRemove(m, k);
      assert (m - {k}).Keys == m.Keys - {k};
      SumValuesAtLeast(m - {k});
    }
  }

  /** Part 2 counts at least as many timelines as part 1 has beams below
      the last row. */
  lemma TimelinesCoverBeams(grid: Grid, width: nat, col: nat, k: nat)
    requires k >= 1 && FlowTo(grid, width, col, k).Flowing?
    ensures SumValues(FlowTo(grid, width, col, k).counts) >= |SweepTo(grid, width, col, k).beams|
  {
    FlowFollowsSweep(grid, width, col, k);
    FlowPositive(grid, width, col, k);
    SumValuesAtLeast(FlowTo(grid, width, col, k).counts);
  }

  /** `part2`: the number of timelines, as text. */
  method Part2(grid: Grid) returns (r: Result<string, Error>)
    ensures Start(grid).Err? ==> r == Err(Start(grid).error)
    ensures Start(grid).Ok? ==>
              match FlowTo(grid, |grid[0]|, Start(grid).value, |grid|)
              case Flowing(counts) => r == Ok(Text.Show(SumValues(counts)))
              case Blocked(beams) => r.Err? && r.error in Faults(grid, |grid[0]|, beams)
  {
    var col := Start(grid);
    if col.Err? {
      return Err(col.error);
    }
    var start := col.value;
    var width := |grid[0]|;
    var counts: Counts := map[(1, start) := 1];
    for idx := 1 to |grid|
      invariant FlowTo(grid, width, start, idx) == Flowing(counts)
    {
      var row := CountRow(grid, width, counts);
      if row.Err? {
        BlockedNext(grid, width, start, idx, counts);
        BlockedStays(grid, width, start, idx + 1, |grid|, counts.Keys);
        return Err(row.error);
      }
      counts := row.value;
    }
    var total := 0;
    var rest := counts;
    while rest != map[]
      invariant total + SumValues(rest) == SumValues(counts)
      decreases |rest.Keys|
    {
      var k :| k in rest;
      SumValuesRemove(rest, k);
      assert (rest - {k}).Keys < rest.Keys;
      total := total + rest[k];
      rest := rest - {k};
    }
    return Ok(Text.Show(total));
  }
}
