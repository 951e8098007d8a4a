/** Day 11: a directed graph read from lines `src: d1 d2 ...`, and a
    breadth-first search over `(label, depth)` states that counts the walks
    from one label to another. */
module Paths {
  import opened Results
  import Text

  type Label = string

  /** A search state: the end label of a walk and its number of edges. */
  type State = (Label, nat)

  /** The successor lists, keyed by source label. */
  type Nodes = map<Label, seq<Label>>

  datatype Error =
    /** `line.split(": ")` did not give exactly two pieces (ValueError). */
    | MalformedLine(line: string)

  // ---------------------------------------------------------------------
  // Parsing
  // ---------------------------------------------------------------------

  /** `not line.strip()`. */
  predicate IsBlank(line: string) {
    Text.Strip(line) == []
  }

  /** One non-blank line: the source before `": "` and the destinations
      after it, split on single spaces. */
  function ParseLine(line: string): (r: Result<(Label, seq<Label>), Error>)
    ensures r.Ok? <==> |Text.Split(line, ": ")| == 2
  {
    var parts := Text.Split(line, ": ");
    if |parts| != 2 then Err(MalformedLine(line))
    else Ok((parts[0], Text.Split(parts[1], " ")))
  }

  /** A parsed line is the source, `": "` and the destinations joined by
      single spaces: parsing loses nothing. */
  lemma ParseLineJoin(line: string)
    requires ParseLine(line).Ok?
    ensures Text.Join([ParseLine(line).value.0, Text.Join(ParseLine(line).value.1, " ")], ": ") == line
  {
    var parts := Text.Split(line, ": ");
    Text.JoinSplit(line, ": ");
    Text.JoinSplit(parts[1], " ");
  }

  /** The successor table the constructor builds from `lines`: blank lines
      are skipped, the first malformed line is an error, and a source that
      appears again overwrites its earlier entry. */
  function NodesOf(lines: seq<string>): Result<Nodes, Error> {
    if lines == [] then Ok(map[])
    else
      var m :- NodesOf(lines[..|lines| - 1]);
      var line := lines[|lines| - 1];
      if IsBlank(line) then Ok(m)
      else
        var entry :- ParseLine(line);
        Ok(m[entry.0 := entry.1])
  }

  /** A line the constructor accepts: blank, or `src: d1 d2 ...`. */
  predicate WellFormed(line: string) {
    IsBlank(line) || ParseLine(line).Ok?
  }

  /** The table is built exactly when every line is well formed. */
  lemma {:induction false} NodesOfOk(lines: seq<string>)
    ensures NodesOf(lines).Ok? <==> forall j {:trigger WellFormed(lines[j])} :: 0 <= j < |lines| ==> WellFormed(lines[j])
  {
    if lines != [] {
      var init := lines[..|lines| - 1];
      NodesOfOk(init);
      assert NodesOf(lines).Ok? <==> NodesOf(init).Ok? && WellFormed(lines[|lines| - 1]);
      assert lines == init + [lines[|lines| - 1]];
      AllWellFormedSnoc(lines, init, lines[|lines| - 1]);
    }
  }

  lemma AllWellFormedSnoc(lines: seq<string>, init: seq<string>, last: string)
    requires lines == init + [last]
    ensures (forall j {:trigger WellFormed(lines[j])} :: 0 <= j < |lines| ==> WellFormed(lines[j]))
        <==> (forall j {:trigger WellFormed(init[j])} :: 0 <= j < |init| ==> WellFormed(init[j])) && WellFormed(last)
  {
    assert lines[|init|] == last;
    assert forall j :: 0 <= j < |init| ==> lines[j] == init[j];
  }

  /** The entry for `src` comes from the last non-blank line whose source is
      `src`: a later line with the same source overwrites an earlier one. */
  lemma {:induction false} NodesOfLastWins(lines: seq<string>, i: nat, src: Label, dests: seq<Label>)
    requires NodesOf(lines).Ok? && i < |lines| && !IsBlank(lines[i])
    requires ParseLine(lines[i]) == Ok((src, dests))
    requires forall j :: i < j < |lines| && !IsBlank(lines[j]) && ParseLine(lines[j]).Ok? ==>
               ParseLine(lines[j]).value.0 != src
    ensures src in NodesOf(lines).value && NodesOf(lines).value[src] == dests
  {
    var init := lines[..|lines| - 1];
    if i < |lines| - 1 {
      assert init[i] == lines[i];
      assert forall j :: i < j < |init| ==> init[j] == lines[j];
      NodesOfLastWins(init, i, src, dests);
    } else {
      assert init == lines[..i];
    }
  }

  /** No entry without a non-blank line that names its source. */
  lemma {:induction false} NodesOfKeys(lines: seq<string>, src: Label)
    requires NodesOf(lines).Ok? && src in NodesOf(lines).value
    ensures exists i :: 0 <= i < |lines| && !IsBlank(lines[i]) && ParseLine(lines[i]).Ok?
                        && ParseLine(lines[i]).value.0 == src
  {
    var init := lines[..|lines| - 1];
    var last := lines[|lines| - 1];
    if IsBlank(last) || ParseLine(last).value.0 != src {
      NodesOfKeys(init, src);
      var i :| 0 <= i < |init| && !IsBlank(init[i]) && ParseLine(init[i]).Ok? && ParseLine(init[i]).value.0 == src;
      assert lines[i] == init[i];
    } else {
      assert lines[|lines| - 1] == last;
    }
  }

  // ---------------------------------------------------------------------
  // Walks
  // ---------------------------------------------------------------------

  /** Where a walk may go next from `u`; a label with no entry (a sink such
      as `out`) has no successors. */
  function Successors(nodes: Nodes, u: Label): seq<Label> {
    if u in nodes then nodes[u] else []
  }

  /** The successors of every label of `ls`, one after the other. */
  function Step(nodes: Nodes, ls: seq<Label>): seq<Label> {
    if ls == [] then [] else Successors(nodes, ls[0]) + Step(nodes, ls[1..])
  }

  /** The end labels of the walks of exactly `d` edges from `start`, one
      entry per walk (a repeated destination is a second edge). */
  function Ends(nodes: Nodes, start: Label, d: nat): seq<Label> {
    if d == 0 then [start] else Step(nodes, Ends(nodes, start, d - 1))
  }

  /** The number of walks of exactly `d` edges from `start` to `v`. */
  function WalksOfLength(nodes: Nodes, start: Label, v: Label, d: nat): nat {
    multiset(Ends(nodes, start, d))[v]
  }

  /** The number of walks of fewer than `n` edges from `start` to `v`. */
  function WalksShorterThan(nodes: Nodes, start: Label, v: Label, n: nat): nat {
    if n == 0 then 0
    else WalksShorterThan(nodes, start, v, n - 1) + WalksOfLength(nodes, start, v, n - 1)
  }

  /** Every walk from `start` is shorter than some bound: no cycle can be
      reached from `start`. Without it the search never ends. */
  ghost predicate AllWalksBounded(nodes: Nodes, start: Label) {
    exists b: nat :: Ends(nodes, start, b) == []
  }

  lemma StepAppend(nodes: Nodes, xs: seq<Label>, ys: seq<Label>)
    ensures Step(nodes, xs + ys) == Step(nodes, xs) + Step(nodes, ys)
  {
    if xs == [] {
      assert xs + ys == ys;
    } else {
      assert (xs + ys)[0] == xs[0];
      assert (xs + ys)[1..] == xs[1..] + ys;
      StepAppend(nodes, xs[1..], ys);
    }
  }

  /** Once no walk has `d` edges, none is longer either. */
  lemma {:induction false} EndsStayEmpty(nodes: Nodes, start: Label, d: nat, e: nat)
    requires Ends(nodes, start, d) == [] && d <= e
    ensures Ends(nodes, start, e) == []
    decreases e - d
  {
    if d < e {
      assert Ends(nodes, start, d + 1) == Step(nodes, []);
      EndsStayEmpty(nodes, start, d + 1, e);
    }
  }

  /** Counting beyond the first empty depth adds nothing. */
  lemma {:induction false} WalksSettle(nodes: Nodes, start: Label, v: Label, n: nat, m: nat)
    requires Ends(nodes, start, n) == [] && n <= m
    ensures WalksShorterThan(nodes, start, v, m) == WalksShorterThan(nodes, start, v, n)
    decreases m
  {
    if n < m {
      WalksSettle(nodes, start, v, n, m - 1);
      EndsStayEmpty(nodes, start, n, m - 1);
    }
  }

  /** When the two labels coincide, the empty walk is counted. */
  lemma {:induction false} EmptyWalkCounted(nodes: Nodes, start: Label, n: nat)
    requires n >= 1
    ensures WalksShorterThan(nodes, start, start, n) >= 1
  {
    if n > 1 {
      EmptyWalkCounted(nodes, start, n - 1);
    } else {
      assert multiset(Ends(nodes, start, 0))[start] == 1;
    }
  }

  /** A walk reaching a label with no entry stops there: it contributes
      nothing to the next depth. */
  lemma SinkNotExpanded(nodes: Nodes, ls: seq<Label>, u: Label)
    requires u !in nodes
    ensures Step(nodes, [u] + ls) == Step(nodes, ls)
  {
    assert ([u] + ls)[1..] == ls;
  }

  /** A successor of a label in `ls` is in the step of `ls`. */
  lemma {:induction false} InStep(nodes: Nodes, ls: seq<Label>, u: Label, x: Label)
    requires u in ls && x in Successors(nodes, u)
    ensures x in Step(nodes, ls)
  {
    if ls[0] != u {
      InStep(nodes, ls[1..], u, x);
    }
  }

  /** Every label in a walk is the start or a destination of some entry. */
  function Labels(nodes: Nodes, start: Label): set<Label> {
    {start} + set u, x | u in nodes && x in nodes[u] :: x
  }

  lemma {:induction false} StepLabels(nodes: Nodes, start: Label, ls: seq<Label>)
    ensures forall x :: x in Step(nodes, ls) ==> x in Labels(nodes, start)
  {
    if ls != [] {
      StepLabels(nodes, start, ls[1..]);
    }
  }

  lemma EndsLabels(nodes: Nodes, start: Label, d: nat, x: Label)
    requires x in Ends(nodes, start, d)
    ensures x in Labels(nodes, start)
  {
    if d > 0 {
      StepLabels(nodes, start, Ends(nodes, start, d - 1));
    }
  }

  // ---------------------------------------------------------------------
  // What the search has accumulated
  // ---------------------------------------------------------------------

  // `paths_to[s]` of the `defaultdict(int)` is `Count(paths, s)`.

  /** The entries of `ls` whose label is in `xs`, in order. */
  function Among(ls: seq<Label>, xs: set<Label>): seq<Label> {
    if ls == [] then []
    else (if ls[0] in xs then [ls[0]] else []) + Among(ls[1..], xs)
  }

  /** Expanding one more label `u` adds, for every label, as many walks as
      there are walks to `u` times the edges from `u` to it. */
  lemma {:induction false} AmongAdd(nodes: Nodes, ls: seq<Label>, xs: set<Label>, u: Label, w: Label)
    requires u !in xs
    ensures multiset(Step(nodes, Among(ls, xs + {u})))[w]
         == multiset(Step(nodes, Among(ls, xs)))[w] + multiset(ls)[u] * multiset(Successors(nodes, u))[w]
  {
    if ls != [] {
      var a, rest := ls[0], ls[1..];
      var b := if a == u then 1 else 0;
      var s := multiset(Successors(nodes, u))[w];
      assert multiset(ls)[u] == multiset(rest)[u] + b by {
        assert ls == [a] + rest;
      }
      assert ls == [a] + rest;
      AmongAdd(nodes, rest, xs, u, w);
      AmongCons(nodes, a, rest, xs + {u}, w);
      AmongCons(nodes, a, rest, xs, w);
      assert (if a in xs + {u} then multiset(Successors(nodes, a))[w] else 0)
          == (if a in xs then multiset(Successors(nodes, a))[w] else 0) + b * s;
      AddUp(multiset(Step(nodes, Among(ls, xs + {u})))[w], multiset(Step(nodes, Among(ls, xs)))[w],
            multiset(Step(nodes, Among(rest, xs + {u})))[w], multiset(Step(nodes, Among(rest, xs)))[w],
            multiset(ls)[u], multiset(rest)[u], b, s);
    }
  }

  /** The bookkeeping step of `AmongAdd`: `m` walks of which `c` come later
      and `b` from the head. */
  lemma AddUp(x1: int, x0: int, r1: int, r0: int, m: nat, c: nat, b: nat, s: nat)
    requires r1 == r0 + c * s && m == c + b && x1 - r1 == x0 - r0 + b * s
    ensures x1 == x0 + m * s
  {
    MulAdd(c, b, s);
  }

  /** What the head of `[a] + rest` passes on, if it is among `xs`. */
  lemma AmongCons(nodes: Nodes, a: Label, rest: seq<Label>, xs: set<Label>, w: Label)
    ensures multiset(Step(nodes, Among([a] + rest, xs)))[w]
         == (if a in xs then multiset(Successors(nodes, a))[w] else 0) + multiset(Step(nodes, Among(rest, xs)))[w]
  {
    var head := if a in xs then [a] else [];
    assert ([a] + rest)[1..] == rest;
    assert Among([a] + rest, xs) == head + Among(rest, xs);
    StepAppend(nodes, head, Among(rest, xs));
    if a in xs {
      assert [a][1..] == [];
      assert Step(nodes, head) == Successors(nodes, a) + Step(nodes, []);
    }
  }

  lemma MulAdd(c: nat, b: nat, s: nat)
    ensures (c + b) * s == c * s + b * s
    ensures s * (c + b) == s * c + s * b
  {
  }

  lemma {:induction false} AmongAll(ls: seq<Label>, xs: set<Label>)
    requires forall x :: x in ls ==> x in xs
    ensures Among(ls, xs) == ls
  {
    if ls != [] {
      AmongAll(ls[1..], xs);
      assert ls == [ls[0]] + ls[1..];
    }
  }

  lemma {:induction false} AmongNone(ls: seq<Label>)
    ensures Among(ls, {}) == []
  {
    if ls != [] {
      AmongNone(ls[1..]);
    }
  }

  /** The labels explored at depth `d`. */
  ghost function ExploredAt(explored: set<State>, d: nat): set<Label> {
    set s | s in explored && s.1 == d :: s.0
  }

  /** What the explored states of depth `depth` have passed on: one entry
      per walk of `depth + 1` edges through one of them. */
  ghost function Passed(nodes: Nodes, start: Label, explored: set<State>, depth: nat): seq<Label> {
    Step(nodes, Among(Ends(nodes, start, depth), ExploredAt(explored, depth)))
  }

  /** The queue holds states of depth `depth`, then states of depth
      `depth + 1`, each the end of a real walk. */
  ghost predicate QueueShape(nodes: Nodes, start: Label, queue: seq<State>, depth: nat) {
    && (forall i :: 0 <= i < |queue| ==> queue[i].1 == depth || queue[i].1 == depth + 1)
    && (forall i, j :: 0 <= i < j < |queue| ==> queue[i].1 <= queue[j].1)
    && (forall i :: 0 <= i < |queue| ==> queue[i].0 in Ends(nodes, start, queue[i].1))
  }

  /** Explored states are ends of real walks, none deeper than `depth`, and
      every such state shallower than `depth` is explored. */
  ghost predicate ExploredShape(nodes: Nodes, start: Label, explored: set<State>, depth: nat) {
    && (forall s :: s in explored ==> s.1 <= depth && s.0 in Ends(nodes, start, s.1))
    && (forall s: State :: s.1 < depth && s.0 in Ends(nodes, start, s.1) ==> s in explored)
  }

  /** Nothing is lost: every walk end at `depth` is explored or queued, and
      every label with a count at `depth + 1` is queued. */
  ghost predicate Covered(nodes: Nodes, start: Label, paths: map<State, nat>,
                          explored: set<State>, queue: seq<State>, depth: nat)
  {
    && (forall u :: u in Ends(nodes, start, depth) ==> (u, depth) in explored || (u, depth) in queue)
    && (forall s: State :: s.1 == depth + 1 && Count(paths, s) > 0 ==> s in queue)
  }

  /** Counts up to `depth` are final, counts at `depth + 1` hold what the
      explored states of `depth` have passed on, nothing is deeper. */
  ghost predicate Counted(nodes: Nodes, start: Label, paths: map<State, nat>,
                          explored: set<State>, depth: nat)
  {
    && (forall s: State :: s.1 <= depth ==> Count(paths, s) == WalksOfLength(nodes, start, s.0, s.1))
    && (forall s: State :: s.1 == depth + 1 ==> Count(paths, s) == multiset(Passed(nodes, start, explored, depth))[s.0])
    && (forall s: State :: s.1 > depth + 1 ==> Count(paths, s) == 0)
  }

  /** The invariant of the search loop, with `depth` the depth being
      expanded (there are walks of that many edges). */
  ghost predicate Searching(nodes: Nodes, start: Label, paths: map<State, nat>,
                            explored: set<State>, queue: seq<State>, depth: nat)
  {
    && Ends(nodes, start, depth) != []
    && QueueShape(nodes, start, queue, depth)
    && ExploredShape(nodes, start, explored, depth)
    && Covered(nodes, start, paths, explored, queue, depth)
    && Counted(nodes, start, paths, explored, depth)
  }

  lemma SearchingInit(nodes: Nodes, start: Label)
    ensures Searching(nodes, start, map[(start, 0) := 1], {}, [(start, 0)], 0)
  {
    var paths := map[(start, 0) := 1];
    assert Ends(nodes, start, 0) == [start];
    assert ExploredAt({}, 0) == {};
    AmongNone(Ends(nodes, start, 0));
    assert Passed(nodes, start, {}, 0) == [];
  }

  /** Every walk end at `depth` is explored once the queue holds only
      deeper states; what they passed on is then every walk one edge
      longer. */
  lemma AllPassed(nodes: Nodes, start: Label, paths: map<State, nat>,
                  explored: set<State>, queue: seq<State>, depth: nat)
    requires Covered(nodes, start, paths, explored, queue, depth)
    requires forall i :: 0 <= i < |queue| ==> queue[i].1 == depth + 1
    ensures forall u :: u in Ends(nodes, start, depth) ==> (u, depth) in explored
    ensures Passed(nodes, start, explored, depth) == Ends(nodes, start, depth + 1)
  {
    var ends := Ends(nodes, start, depth);
    forall x | x in ends ensures x in ExploredAt(explored, depth) {
      assert (x, depth) !in queue;
      assert (x, depth) in explored;
    }
    AmongAll(ends, ExploredAt(explored, depth));
  }

  /** A queue whose front is one deeper than `depth` holds only deeper states. */
  lemma QueueDeeper(nodes: Nodes, start: Label, queue: seq<State>, depth: nat)
    requires QueueShape(nodes, start, queue, depth)
    requires queue != [] && queue[0].1 == depth + 1
    ensures forall i :: 0 <= i < |queue| ==> queue[i].1 == depth + 1
    ensures QueueShape(nodes, start, queue, depth + 1)
    ensures Ends(nodes, start, depth + 1) != []
  {
    forall i | 0 <= i < |queue| ensures queue[i].1 == depth + 1 {
      if i > 0 {
        assert queue[0].1 <= queue[i].1;
      }
    }
    assert queue[0].0 in Ends(nodes, start, depth + 1);
  }

  /** Once every walk end at `depth` is explored, the explored states
      cover every walk end shallower than `depth + 1`. */
  lemma ExploredDeeper(nodes: Nodes, start: Label, explored: set<State>, depth: nat)
    requires ExploredShape(nodes, start, explored, depth)
    requires forall u :: u in Ends(nodes, start, depth) ==> (u, depth) in explored
    ensures ExploredShape(nodes, start, explored, depth + 1)
  {
    forall s: State | s.1 < depth + 1 && s.0 in Ends(nodes, start, s.1) ensures s in explored {
      if s.1 == depth {
        assert (s.0, depth) in explored;
      }
    }
  }

  /** Once the counts at `depth + 1` are final, every walk end there is queued. */
  lemma CoveredDeeper(nodes: Nodes, start: Label, paths: map<State, nat>,
                      explored: set<State>, queue: seq<State>, depth: nat)
    requires Covered(nodes, start, paths, explored, queue, depth)
    requires Counted(nodes, start, paths, explored, depth)
    requires Passed(nodes, start, explored, depth) == Ends(nodes, start, depth + 1)
    ensures Covered(nodes, start, paths, explored, queue, depth + 1)
  {
    var next := Ends(nodes, start, depth + 1);
    forall u | u in next
      ensures (u, depth + 1) in explored || (u, depth + 1) in queue
    {
      var s: State := (u, depth + 1);
      assert multiset(next)[u] > 0;
      assert Count(paths, s) > 0;
    }
  }

  /** Counts at `depth + 1` are final once all of `depth` has passed its
      counts on; nothing at `depth + 1` is explored yet. */
  lemma CountedDeeper(nodes: Nodes, start: Label, paths: map<State, nat>,
                      explored: set<State>, depth: nat)
    requires ExploredShape(nodes, start, explored, depth)
    requires Counted(nodes, start, paths, explored, depth)
    requires Passed(nodes, start, explored, depth) == Ends(nodes, start, depth + 1)
    ensures Counted(nodes, start, paths, explored, depth + 1)
  {
    assert ExploredAt(explored, depth + 1) == {};
    AmongNone(Ends(nodes, start, depth + 1));
    assert Passed(nodes, start, explored, depth + 1) == [];
  }

  /** The front of the queue is one deeper: the current depth is done. */
  lemma SearchingNextDepth(nodes: Nodes, start: Label, paths: map<State, nat>,
                           explored: set<State>, queue: seq<State>, depth: nat)
    requires Searching(nodes, start, paths, explored, queue, depth)
    requires queue != [] && queue[0].1 == depth + 1
    ensures Searching(nodes, start, paths, explored, queue, depth + 1)
  {
    QueueDeeper(nodes, start, queue, depth);
    AllPassed(nodes, start, paths, explored, queue, depth);
    ExploredDeeper(nodes, start, explored, depth);
    CoveredDeeper(nodes, start, paths, explored, queue, depth);
    CountedDeeper(nodes, start, paths, explored, depth);
  }

  /** Once the front is not deeper than `depth`, it is at `depth`. */
  lemma FrontDepth(nodes: Nodes, start: Label, queue: seq<State>, depth: nat)
    requires QueueShape(nodes, start, queue, depth) && queue != [] && queue[0].1 != depth + 1
    ensures queue[0].1 == depth && queue[0].0 in Ends(nodes, start, depth)
  {
  }

  /** Dequeuing a state explored before changes nothing else. */
  lemma SearchingSkip(nodes: Nodes, start: Label, paths: map<State, nat>,
                      explored: set<State>, queue: seq<State>, depth: nat)
    requires Searching(nodes, start, paths, explored, queue, depth)
    requires queue != [] && queue[0].1 == depth && queue[0] in explored
    ensures Searching(nodes, start, paths, explored, queue[1..], depth)
  {
    forall s: State | s.1 == depth + 1 && Count(paths, s) > 0 ensures s in queue[1..] {
      assert s in queue;
    }
    forall u | u in Ends(nodes, start, depth)
      ensures (u, depth) in explored || (u, depth) in queue[1..]
    {
      assert (u, depth) in explored || (u, depth) in queue;
    }
  }

  /** The states a search from `start` can visit when no walk has `bound`
      edges: a finite set, which bounds the number of expansions. */
  ghost function Universe(nodes: Nodes, start: Label, bound: nat): set<State> {
    set u, d: nat | u in Labels(nodes, start) && d < bound :: (u, d)
  }

  /** Every real walk end lies in the universe. */
  lemma InUniverse(nodes: Nodes, start: Label, v: State, bound: nat)
    requires v.0 in Ends(nodes, start, v.1) && Ends(nodes, start, bound) == []
    ensures v in Universe(nodes, start, bound)
  {
    EndsLabels(nodes, start, v.1, v.0);
    if bound <= v.1 {
      EndsStayEmpty(nodes, start, bound, v.1);
    }
    assert (v.0, v.1) in Universe(nodes, start, bound);
  }

  lemma Shrinks(universe: set<State>, explored: set<State>, v: State)
    requires v in universe && v !in explored
    ensures |universe - (explored + {v})| < |universe - explored|
  {
    assert universe - explored == (universe - (explored + {v})) + {v};
  }

  /** Marking `v`, a walk end at `depth`, explored adds to what was passed
      on one entry per walk to `v` and edge out of it. */
  lemma PassedAdd(nodes: Nodes, start: Label, explored: set<State>, depth: nat, v: State, w: Label)
    requires v.1 == depth && v !in explored
    ensures multiset(Passed(nodes, start, explored + {v}, depth))[w]
         == multiset(Passed(nodes, start, explored, depth))[w]
            + WalksOfLength(nodes, start, v.0, depth) * multiset(Successors(nodes, v.0))[w]
  {
    assert ExploredAt(explored + {v}, depth) == ExploredAt(explored, depth) + {v.0};
    AmongAdd(nodes, Ends(nodes, start, depth), ExploredAt(explored, depth), v.0, w);
  }

  /** Dequeuing an unexplored label that has no entry: it is marked
      explored and passes nothing on. */
  lemma SearchingSink(nodes: Nodes, start: Label, paths: map<State, nat>,
                      explored: set<State>, queue: seq<State>, depth: nat)
    requires Searching(nodes, start, paths, explored, queue, depth)
    requires queue != [] && queue[0].1 == depth && queue[0] !in explored && queue[0].0 !in nodes
    ensures Searching(nodes, start, paths, explored + {queue[0]}, queue[1..], depth)
  {
    var v := queue[0];
    ExpandExplored(nodes, start, explored, v, depth);
    assert QueueShape(nodes, start, queue[1..], depth);
    forall s: State | s.1 == depth + 1
      ensures Count(paths, s) == multiset(Passed(nodes, start, explored + {v}, depth))[s.0]
    {
      PassedAdd(nodes, start, explored, depth, v, s.0);
    }
    forall s: State | s.1 == depth + 1 && Count(paths, s) > 0 ensures s in queue[1..] {
      assert s in queue;
    }
    forall u | u in Ends(nodes, start, depth)
      ensures (u, depth) in explored + {v} || (u, depth) in queue[1..]
    {
      assert (u, depth) in explored || (u, depth) in queue;
    }
  }

  /** The states `(x, d)` for the labels `x` of `dests`, in order, leaving
      out those already explored. */
  function Fresh(dests: seq<Label>, d: nat, explored: set<State>): (r: seq<State>)
    ensures forall j :: 0 <= j < |r| ==> r[j].1 == d && r[j].0 in dests && r[j] !in explored
  {
    if dests == [] then []
    else
      var init := dests[..|dests| - 1];
      var s: State := (dests[|dests| - 1], d);
      Fresh(init, d, explored) + (if s in explored then [] else [s])
  }

  /** With nothing explored at depth `d`, every label of `dests` is queued. */
  lemma {:induction false} FreshAll(dests: seq<Label>, d: nat, explored: set<State>)
    requires forall s :: s in explored ==> s.1 != d
    ensures forall x :: x in dests ==> (x, d) in Fresh(dests, d, explored)
  {
    if dests != [] {
      var init := dests[..|dests| - 1];
      FreshAll(init, d, explored);
      forall x | x in dests ensures (x, d) in Fresh(dests, d, explored) {
        if x != dests[|dests| - 1] {
          var k :| 0 <= k < |dests| && dests[k] == x;
          assert init[k] == x;
        }
      }
    }
  }

  /** `paths` is `before` with `walks` added, once per occurrence in
      `dests`, to each label of `dests` at depth `d`. */
  ghost predicate Added(before: map<State, nat>, paths: map<State, nat>, d: nat,
                        dests: seq<Label>, walks: nat)
  {
    && (forall s: State :: s.1 == d ==> Count(paths, s) == Count(before, s) + walks * multiset(dests)[s.0])
    && (forall s: State :: s.1 != d ==> Count(paths, s) == Count(before, s))
  }

  lemma AddedNone(paths: map<State, nat>, d: nat, walks: nat)
    ensures Added(paths, paths, d, [], walks)
  {
  }

  /** Adding the walks for one more successor `dests[i]`. */
  lemma AddedNext(before: map<State, nat>, paths: map<State, nat>, d: nat,
                  dests: seq<Label>, i: nat, walks: nat)
    requires i < |dests| && Added(before, paths, d, dests[..i], walks)
    ensures var w: State := (dests[i], d);
            Added(before, paths[w := Count(paths, w) + walks], d, dests[..i + 1], walks)
  {
    var x := dests[i];
    var w: State := (x, d);
    var after := paths[w := Count(paths, w) + walks];
    assert dests[..i + 1] == dests[..i] + [x];
    assert multiset(dests[..i + 1]) == multiset(dests[..i]) + multiset{x};
    MulAdd(multiset(dests[..i])[x], 1, walks);
    forall s: State | s.1 == d
      ensures Count(after, s) == Count(before, s) + walks * multiset(dests[..i + 1])[s.0]
    {
      if s != w {
        assert s.0 != x;
      }
    }
  }

  /** Queueing one more successor `dests[i]` unless it is explored. */
  lemma FreshNext(dests: seq<Label>, i: nat, d: nat, explored: set<State>)
    requires i < |dests|
    ensures var w: State := (dests[i], d);
            Fresh(dests[..i + 1], d, explored) == Fresh(dests[..i], d, explored) + (if w in explored then [] else [w])
  {
    assert dests[..i + 1][..i] == dests[..i];
  }

  /** One turn of the loop over the successors: both halves of its state
      move on to `dests[..i + 1]`. */
  lemma PassOnNext(before: map<State, nat>, paths: map<State, nat>, queue0: seq<State>, queue: seq<State>,
                   explored: set<State>, dests: seq<Label>, i: nat, d: nat, walks: nat)
    requires i < |dests| && Added(before, paths, d, dests[..i], walks)
    requires queue == queue0 + Fresh(dests[..i], d, explored)
    ensures var w: State := (dests[i], d);
            Added(before, paths[w := Count(paths, w) + walks], d, dests[..i + 1], walks)
    ensures var w: State := (dests[i], d);
            (if w in explored then queue else queue + [w]) == queue0 + Fresh(dests[..i + 1], d, explored)
  {
    AddedNext(before, paths, d, dests, i, walks);
    FreshNext(dests, i, d, explored);
  }

  /** The queue after an expansion: the rest of the current depth, then
      states one deeper, each a successor of a real walk end. */
  lemma ExpandQueue(nodes: Nodes, start: Label, queue0: seq<State>, pushed: seq<State>, depth: nat)
    requires QueueShape(nodes, start, queue0, depth)
    requires queue0 != [] && queue0[0].1 == depth
    requires forall j :: 0 <= j < |pushed| ==>
               pushed[j].1 == depth + 1 && pushed[j].0 in Successors(nodes, queue0[0].0)
    ensures QueueShape(nodes, start, queue0[1..] + pushed, depth)
  {
    var v := queue0[0];
    var queue := queue0[1..] + pushed;
    var n := |queue0| - 1;
    forall i | 0 <= i < |queue|
      ensures queue[i].1 == depth || queue[i].1 == depth + 1
      ensures queue[i].0 in Ends(nodes, start, queue[i].1)
    {
      if i < n {
        assert queue[i] == queue0[i + 1];
      } else {
        assert queue[i] == pushed[i - n];
        InStep(nodes, Ends(nodes, start, depth), v.0, queue[i].0);
      }
    }
    forall i, j | 0 <= i < j < |queue| ensures queue[i].1 <= queue[j].1 {
      if j < n {
        assert queue[i] == queue0[i + 1] && queue[j] == queue0[j + 1];
      } else if i < n {
        assert queue[i] == queue0[i + 1];
        assert queue[j] == pushed[j - n];
      } else {
        assert queue[i] == pushed[i - n] && queue[j] == pushed[j - n];
      }
    }
  }

  /** The counts after an expansion: the walks to `v` have been passed on
      to its successors. */
  lemma ExpandCounted(nodes: Nodes, start: Label, before: map<State, nat>, paths: map<State, nat>,
                      explored: set<State>, v: State, depth: nat)
    requires Counted(nodes, start, before, explored, depth)
    requires v.1 == depth && v !in explored && v.0 in nodes
    requires Added(before, paths, depth + 1, nodes[v.0], Count(before, v))
    ensures Counted(nodes, start, paths, explored + {v}, depth)
  {
    assert Count(before, v) == WalksOfLength(nodes, start, v.0, depth);
    forall s: State | s.1 == depth + 1
      ensures Count(paths, s) == multiset(Passed(nodes, start, explored + {v}, depth))[s.0]
    {
      PassedAdd(nodes, start, explored, depth, v, s.0);
    }
  }

  /** Nothing is lost by an expansion: the rest of the queue keeps what it
      had, and every successor with a new count is queued. */
  lemma ExpandCovered(nodes: Nodes, start: Label, before: map<State, nat>, paths: map<State, nat>,
                      explored: set<State>, queue0: seq<State>, pushed: seq<State>, depth: nat)
    requires Covered(nodes, start, before, explored, queue0, depth)
    requires queue0 != [] && queue0[0].1 == depth && queue0[0].0 in nodes
    requires Added(before, paths, depth + 1, nodes[queue0[0].0], Count(before, queue0[0]))
    requires forall x :: x in nodes[queue0[0].0] ==> (x, depth + 1) in pushed
    ensures Covered(nodes, start, paths, explored + {queue0[0]}, queue0[1..] + pushed, depth)
  {
    var v := queue0[0];
    var queue := queue0[1..] + pushed;
    forall s: State | s.1 == depth + 1 && Count(paths, s) > 0 ensures s in queue {
      if Count(before, s) > 0 {
        assert s in queue0 && s != v;
        assert s in queue0[1..];
      } else {
        assert multiset(nodes[v.0])[s.0] > 0;
        assert s.0 in nodes[v.0];
      }
    }
    forall u | u in Ends(nodes, start, depth)
      ensures (u, depth) in explored + {v} || (u, depth) in queue
    {
      if (u, depth) !in explored && (u, depth) != v {
        assert (u, depth) in queue0[1..];
      }
    }
  }

  /** Dequeuing an unexplored label with an entry and passing its count on
      to its successors keeps the invariant. */
  lemma SearchingExpand(nodes: Nodes, start: Label, before: map<State, nat>, paths: map<State, nat>,
                        explored: set<State>, queue0: seq<State>, queue: seq<State>, depth: nat)
    requires Searching(nodes, start, before, explored, queue0, depth)
    requires queue0 != [] && queue0[0].1 == depth && queue0[0] !in explored && queue0[0].0 in nodes
    requires Added(before, paths, depth + 1, nodes[queue0[0].0], Count(before, queue0[0]))
    requires queue == queue0[1..] + Fresh(nodes[queue0[0].0], depth + 1, explored + {queue0[0]})
    ensures Searching(nodes, start, paths, explored + {queue0[0]}, queue, depth)
  {
    var v := queue0[0];
    var dests := nodes[v.0];
    var pushed := Fresh(dests, depth + 1, explored + {v});
    assert v.0 in Ends(nodes, start, depth);
    ExpandExplored(nodes, start, explored, v, depth);
    FreshAll(dests, depth + 1, explored + {v});
    assert Successors(nodes, v.0) == dests;
    ExpandQueue(nodes, start, queue0, pushed, depth);
    ExpandCounted(nodes, start, before, paths, explored, v, depth);
    ExpandCovered(nodes, start, before, paths, explored, queue0, pushed, depth);
  }

  /** Marking a walk end at `depth` explored keeps the explored states in shape. */
  lemma ExpandExplored(nodes: Nodes, start: Label, explored: set<State>, v: State, depth: nat)
    requires ExploredShape(nodes, start, explored, depth)
    requires v.1 == depth && v.0 in Ends(nodes, start, depth)
    ensures ExploredShape(nodes, start, explored + {v}, depth)
    ensures forall s :: s in explored + {v} ==> s.1 != depth + 1
  {
  }

  /** An empty queue: every walk end at `depth` has passed its count on,
      no walk has `depth + 1` edges, and the table holds the number of
      walks of every length to every label. */
  lemma SearchingDone(nodes: Nodes, start: Label, paths: map<State, nat>,
                      explored: set<State>, depth: nat)
    requires Covered(nodes, start, paths, explored, [], depth)
    requires Counted(nodes, start, paths, explored, depth)
    ensures Ends(nodes, start, depth + 1) == []
    ensures forall s: State :: s.1 <= depth + 1 ==> Count(paths, s) == WalksOfLength(nodes, start, s.0, s.1)
  {
    AllPassed(nodes, start, paths, explored, [], depth);
    var next := Ends(nodes, start, depth + 1);
    forall u ensures multiset(next)[u] == 0 {
      var s: State := (u, depth + 1);
      assert Count(paths, s) == multiset(Passed(nodes, start, explored, depth))[u];
      assert s !in [];
    }
    assert multiset(next) == multiset{};
    assert |next| == |multiset(next)|;
  }

  /** The sum the search returns: the counts for `v` at every depth below `n`. */
  function Total(paths: map<State, nat>, v: Label, n: nat): nat {
    if n == 0 then 0 else Total(paths, v, n - 1) + Count(paths, (v, n - 1))
  }

  /** A table of walk counts sums to the number of walks. */
  lemma {:induction false} TotalWalks(nodes: Nodes, start: Label, v: Label, paths: map<State, nat>, n: nat)
    requires forall s: State :: s.1 < n ==> Count(paths, s) == WalksOfLength(nodes, start, s.0, s.1)
    ensures Total(paths, v, n) == WalksShorterThan(nodes, start, v, n)
  {
    if n > 0 {
      TotalWalks(nodes, start, v, paths, n - 1);
      var s: State := (v, n - 1);
      assert Count(paths, s) == WalksOfLength(nodes, start, v, n - 1);
    }
  }

  /** The number of walks, of any length, from `start` to `v`; the empty
      walk counts when the two coincide. */
  ghost function Walks(nodes: Nodes, start: Label, v: Label): nat
    requires AllWalksBounded(nodes, start)
  {
    var b: nat :| Ends(nodes, start, b) == [];
    WalksShorterThan(nodes, start, v, b)
  }

  /** Any depth with no walks gives the same count. */
  lemma WalksAt(nodes: Nodes, start: Label, v: Label, n: nat)
    requires Ends(nodes, start, n) == []
    ensures AllWalksBounded(nodes, start)
    ensures Walks(nodes, start, v) == WalksShorterThan(nodes, start, v, n)
  {
    var b: nat :| Ends(nodes, start, b) == [] && Walks(nodes, start, v) == WalksShorterThan(nodes, start, v, b);
    if b <= n {
      WalksSettle(nodes, start, v, b, n);
    } else {
      WalksSettle(nodes, start, v, n, b);
    }
  }

  /** One more line: skipped when blank, an error when malformed, an entry
      otherwise. */
  lemma NodesOfNext(lines: seq<string>, i: nat)
    requires i < |lines| && NodesOf(lines[..i]).Ok?
    ensures IsBlank(lines[i]) ==> NodesOf(lines[..i + 1]) == NodesOf(lines[..i])
    ensures !IsBlank(lines[i]) && ParseLine(lines[i]).Err? ==>
              NodesOf(lines[..i + 1]) == Err(ParseLine(lines[i]).error)
    ensures !IsBlank(lines[i]) && ParseLine(lines[i]).Ok? ==>
              var (src, dests) := ParseLine(lines[i]).value;
              NodesOf(lines[..i + 1]) == Ok(NodesOf(lines[..i]).value[src := dests])
  {
    assert lines[..i + 1][..i] == lines[..i];
    assert lines[..i + 1][i] == lines[i];
  }

  /** A malformed line stops the construction with its error. */
  lemma {:induction false} NodesOfStopsAt(lines: seq<string>, i: nat)
    requires i < |lines| && NodesOf(lines[..i]).Ok? && !IsBlank(lines[i]) && ParseLine(lines[i]).Err?
    ensures NodesOf(lines).Err? && NodesOf(lines).error == ParseLine(lines[i]).error
  {
    var init := lines[..|lines| - 1];
    if |lines| == i + 1 {
      assert init == lines[..i];
    } else {
      assert init[..i] == lines[..i] && init[i] == lines[i];
      NodesOfStopsAt(init, i);
    }
  }

  class Graph {
    var nodes: Nodes

    constructor ()
      ensures nodes == map[]
    {
      nodes := map[];
    }

    /** `Graph.__init__`: fills the table line by line. */
    static method Parse(lines: seq<string>) returns (r: Result<Graph, Error>)
      ensures r.Ok? <==> NodesOf(lines).Ok?
      ensures r.Ok? ==> fresh(r.value) && r.value.nodes == NodesOf(lines).value
      ensures r.Err? ==> r.error == NodesOf(lines).error
    {
      var g := new Graph();
      for i := 0 to |lines|
        invariant NodesOf(lines[..i]).Ok? && g.nodes == NodesOf(lines[..i]).value
        invariant fresh(g)
      {
        NodesOfNext(lines, i);
        var line := lines[i];
        if IsBlank(line) {
          continue;
        }
        var entry := ParseLine(line);
        if entry.Err? {
          NodesOfStopsAt(lines, i);
          return Err(entry.error);
        }
        g.nodes := g.nodes[entry.value.0 := entry.value.1];
      }
      assert lines[..|lines|] == lines;
      return Ok(g);
    }

    /** `Graph.find_all_paths`: breadth-first over `(label, depth)` states.
        The result is the number of walks, of every length, from `initial` to
        `final`. */
    method FindAllPaths(initial: Label, final: Label) returns (total: nat)
      requires AllWalksBounded(nodes, initial)
      ensures total == Walks(nodes, initial, final)
    {
      var paths: map<State, nat> := map[(initial, 0) := 1];
      var explored: set<State> := {};
      var queue: seq<State> := [(initial, 0)];
      var depth: nat := 0;  // the depth of the states being dequeued
      ghost var bound: nat :| Ends(nodes, initial, bound) == [];
      ghost var universe := Universe(nodes, initial, bound);
      SearchingInit(nodes, initial);

      while queue != []
        invariant Searching(nodes, initial, paths, explored, queue, depth)
        invariant explored <= universe
        decreases |universe - explored|, |queue|
      {
        if queue[0].1 == depth + 1 {
          SearchingNextDepth(nodes, initial, paths, explored, queue, depth);
          depth := depth + 1;
        }
        var v := queue[0];
        FrontDepth(nodes, initial, queue, depth);
        if v in explored {
          SearchingSkip(nodes, initial, paths, explored, queue, depth);
          queue := queue[1..];
          continue;
        }
        InUniverse(nodes, initial, v, bound);
        Shrinks(universe, explored, v);
        if v.0 !in nodes {
          SearchingSink(nodes, initial, paths, explored, queue, depth);
          queue := queue[1..];
          explored := explored + {v};
          continue;
        }
        paths, queue := Expand(initial, paths, explored, queue, depth);
        explored := explored + {v};
      }

      SearchingDone(nodes, initial, paths, explored, depth);
      total := Total(paths, final, depth + 2);
      TotalWalks(nodes, initial, final, paths, depth + 2);
      EndsStayEmpty(nodes, initial, depth + 1, depth + 2);
      WalksAt(nodes, initial, final, depth + 2);
    }

    /** Dequeues a state with successors, marks it explored and passes its
        walks on to its successors. */
    method Expand(initial: Label, paths: map<State, nat>, explored: set<State>,
                  queue: seq<State>, depth: nat)
      returns (paths': map<State, nat>, queue': seq<State>)
      requires Searching(nodes, initial, paths, explored, queue, depth)
      requires queue != [] && queue[0].1 == depth && queue[0] !in explored && queue[0].0 in nodes
      ensures Searching(nodes, initial, paths', explored + {queue[0]}, queue', depth)
    {
      var v := queue[0];
      paths', queue' := PassOn(paths, queue[1..], explored + {v}, nodes[v.0], depth + 1, Count(paths, v));
      SearchingExpand(nodes, initial, paths, paths', explored, queue, queue', depth);
    }

    /** The loop over the successors of a dequeued state: each successor
        `x` gets `walks` more walks at depth `d`, and is queued unless
        `(x, d)` is explored. */
    static method PassOn(paths: map<State, nat>, queue: seq<State>, explored: set<State>,
                         dests: seq<Label>, d: nat, walks: nat)
      returns (paths': map<State, nat>, queue': seq<State>)
      ensures Added(paths, paths', d, dests, walks)
      ensures queue' == queue + Fresh(dests, d, explored)
    {
      paths', queue' := paths, queue;
      AddedNone(paths, d, walks);
      for i := 0 to |dests|
        invariant Added(paths, paths', d, dests[..i], walks)
        invariant queue' == queue + Fresh(dests[..i], d, explored)
      {
        var w: State := (dests[i], d);
        PassOnNext(paths, paths', queue, queue', explored, dests, i, d, walks);
        paths' := paths'[w := Count(paths', w) + walks];
        if w !in explored {
          queue' := queue' + [w];
        }
      }
      assert dests[..|dests|] == dests;
    }
  }

  /** `parse_input`: the lines of the puzzle text. */
  function Lines(input: string): seq<string> {
    Text.Split(input, "\n")
  }

  /** `part1`: the number of walks from `you` to `out`, as text. */
  method Part1(input: string) returns (r: Result<string, Error>)
    requires NodesOf(Lines(input)).Ok? ==> AllWalksBounded(NodesOf(Lines(input)).value, "you")
    ensures r.Ok? <==> NodesOf(Lines(input)).Ok?
    ensures r.Err? ==> r.error == NodesOf(Lines(input)).error
    ensures r.Ok? ==> r.value == Text.Show(Walks(NodesOf(Lines(input)).value, "you", "out"))
  {
    var g :- Graph.Parse(Lines(input));
    var n := g.FindAllPaths("you", "out");
    return Ok(Text.Show(n));
  }

  /** `part2`: the walks from `svr` to `fft`, times those from `fft` to
      `dac`, times those from `dac` to `out`, as text. */
  method Part2(input: string) returns (r: Result<string, Error>)
    requires NodesOf(Lines(input)).Ok? ==>
               var nodes := NodesOf(Lines(input)).value;
               AllWalksBounded(nodes, "svr") && AllWalksBounded(nodes, "fft") && AllWalksBounded(nodes, "dac")
    ensures r.Ok? <==> NodesOf(Lines(input)).Ok?
    ensures r.Err? ==> r.error == NodesOf(Lines(input)).error
    ensures r.Ok? ==>
              var nodes := NodesOf(Lines(input)).value;
              r.value == Text.Show(Walks(nodes, "svr", "fft") * Walks(nodes, "fft", "dac") * Walks(nodes, "dac", "out"))
  {
    var g :- Graph.Parse(Lines(input));
    var a := g.FindAllPaths("svr", "fft");
    var b := g.FindAllPaths("fft", "dac");
    var c := g.FindAllPaths("dac", "out");
    return Ok(Text.Show(a as int * b * c));
  }
}
