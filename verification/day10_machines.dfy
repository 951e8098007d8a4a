/** Day 10: machines whose indicator lights are switched by buttons.
    A line `[.##.] (3) (1,3) (2) {3,5,4,7}` describes the goal pattern of
    the lights, the buttons (each the list of lights it acts on) and the
    joltage targets.  `TurnOn` is the level-by-level breadth-first search
    for the fewest button presses, and part 1 adds those counts up. */
module Machines {
  import opened Results
  import Text

  /** A state of the lights or counters: numpy's float vector, with the
      integral values it only ever holds. */
  type State = seq<int>

  /** The two modes of `turn_on`: lights toggle (addition modulo 2) and
      counters add. */
  datatype Mode = Light | Joltage

  datatype Machine = Machine(initial: State, lights: State, buttons: seq<State>, joltage: seq<int>)

  datatype Error =
    | BadLine(line: string)     // unpacking `split("] ")` or `split(" {")` (ValueError)
    | BadNumber(text: string)   // `int(...)` on a position or a joltage (ValueError)
    | BadIndex                  // `arr[positions]` out of range (IndexError)
    | ShapeMismatch             // comparing states with a joltage list of another length (ValueError)
    | Unreachable               // "Goal state not reachable" (ValueError)

  // ---------------------------------------------------------------------
  // Parsing a machine
  // ---------------------------------------------------------------------

  /** Every entry is 0 or 1. */
  predicate Binary(v: State) {
    forall i :: 0 <= i < |v| ==> v[i] == 0 || v[i] == 1
  }

  /** What every parsed machine satisfies: the initial state is all off,
      and the goal and every button are 0/1 vectors of the same length,
      each button acting on at least one light. */
  predicate WellFormed(m: Machine) {
    && |m.lights| == |m.initial|
    && (forall i :: 0 <= i < |m.initial| ==> m.initial[i] == 0)
    && Binary(m.lights)
    && |m.buttons| >= 1
    && forall k :: 0 <= k < |m.buttons| ==> Acts(m.buttons[k], |m.initial|)
  }

  /** `b` is a 0/1 vector of length `n` with at least one 1. */
  predicate Acts(b: State, n: nat) {
    |b| == n && Binary(b) && exists i :: 0 <= i < n && b[i] == 1
  }

  /** `list(map(int, parts))`: the first part `int` rejects is the error. */
  function Ints(parts: seq<string>): (r: Result<seq<int>, Error>)
    ensures r.Ok? ==>
              && |r.value| == |parts|
              && forall k :: 0 <= k < |parts| ==> Text.ParseInt(parts[k]) == Some(r.value[k])
    ensures r.Err? <==> exists k :: 0 <= k < |parts| && Text.ParseInt(parts[k]).None?
  {
    if parts == [] then Ok([])
    else
      match Text.ParseInt(parts[0])
      case None => Err(BadNumber(parts[0]))
      case Some(x) =>
        var rest :- Ints(parts[1..]);
        Ok([x] + rest)
  }

  /** numpy accepts index `p` into a vector of length `n`. */
  predicate InRange(p: int, n: nat) {
    -(n as int) <= p < n
  }

  /** numpy's reading of index `p` into a vector of length `n`: negative
      indices count from the end. */
  function Wrap(p: int, n: nat): (i: nat)
    requires InRange(p, n)
    ensures i < n && (i == p || i == p + n)
  {
    if p < 0 then p + n else p
  }

  /** `arr = zeros(n); arr[positions] = True`, once every position is in range. */
  function Mark(n: nat, positions: seq<int>): (b: State)
    requires forall k :: 0 <= k < |positions| ==> InRange(positions[k], n)
    ensures |b| == n && Binary(b)
    ensures forall k :: 0 <= k < |positions| ==> b[Wrap(positions[k], n)] == 1
    ensures forall i :: 0 <= i < n && b[i] == 1 ==> exists k :: 0 <= k < |positions| && Wrap(positions[k], n) == i
  {
    seq(n, i requires 0 <= i < n =>
      if exists k :: 0 <= k < |positions| && Wrap(positions[k], n) == i then 1 else 0)
  }

  /** One button `(1,3)` on `n` lights. */
  function ButtonOf(n: nat, raw: string): (r: Result<State, Error>)
    ensures r.Ok? ==> Acts(r.value, n)
  {
    var positions :- Ints(Text.Split(Text.StripChars(raw, {'(', ')'}), ","));
    if exists k :: 0 <= k < |positions| && !InRange(positions[k], n) then Err(BadIndex)
    else
      assert InRange(positions[0], n);
      Ok(Mark(n, positions))
  }

  /** The buttons of a line, in order, stopping at the first bad one:
      button `k` is what `ButtonOf` makes of the `k`-th raw button, and the
      error is that of the first raw button that fails. */
  function Buttons(n: nat, raws: seq<string>): (r: Result<seq<State>, Error>)
    ensures r.Ok? <==> forall k :: 0 <= k < |raws| ==> ButtonOf(n, raws[k]).Ok?
    ensures r.Ok? ==> |r.value| == |raws| && forall k :: 0 <= k < |raws| ==> ButtonOf(n, raws[k]) == Ok(r.value[k])
    ensures r.Ok? ==> forall k :: 0 <= k < |raws| ==> Acts(r.value[k], n)
    ensures r.Err? ==> exists k :: 0 <= k < |raws| && ButtonOf(n, raws[k]) == Err(r.error)
                                   && forall j :: 0 <= j < k ==> ButtonOf(n, raws[j]).Ok?
  {
    ParseEach(raws, ButtonParser(n))
  }

  /** `ButtonOf` on `n` lights, as the function the button loop applies. */
  function ButtonParser(n: nat): string -> Result<State, Error> {
    raw => ButtonOf(n, raw)
  }

  /** Once a prefix of the buttons fails, so do all of them, with the same error. */
  lemma ButtonsErr(n: nat, raws: seq<string>, i: nat)
    requires i <= |raws| && Buttons(n, raws[..i]).Err?
    ensures Buttons(n, raws) == Buttons(n, raws[..i])
  {
    ParseEachPrefixErr(raws, i, ButtonParser(n));
  }

  /** `1` where the bracketed pattern has `#`, `0` elsewhere. */
  function LightsOf(pattern: string): (v: State)
    ensures |v| == |pattern| && Binary(v)
  {
    seq(|pattern|, i requires 0 <= i < |pattern| => if pattern[i] == '#' then 1 else 0)
  }

  /** `Machine(line)`. */
  function MachineOf(line: string): (r: Result<Machine, Error>)
    ensures r.Ok? ==> WellFormed(r.value)
  {
    var halves := Text.Split(line, "] ");
    if |halves| != 2 then Err(BadLine(line))
    else
      var rest := Text.Split(halves[1], " {");
      if |rest| != 2 then Err(BadLine(line))
      else
        var pattern := Text.RemoveChar(halves[0], '[');
        var n := |pattern|;
        var buttons :- Buttons(n, Text.Split(Text.Strip(rest[0]), " "));
        var joltage :- Ints(Text.Split(Text.StripChars(rest[1], {'{', '}'}), ","));
        Ok(Machine(seq(n, i => 0), LightsOf(pattern), buttons, joltage))
  }

  /** What a parsed machine holds: light `i` of the goal is on exactly when
      the `i`-th character of the pattern (with `[` removed) is `#`, and
      button `k` is on at exactly the wrapped positions listed for it. */
  lemma MachineOfSpec(line: string)
    requires MachineOf(line).Ok?
    ensures var m := MachineOf(line).value;
            var halves := Text.Split(line, "] ");
            var pattern := Text.RemoveChar(halves[0], '[');
            && |halves| == 2 && |Text.Split(halves[1], " {")| == 2
            && |m.lights| == |pattern|
            && (forall i :: 0 <= i < |pattern| ==> (m.lights[i] == 1 <==> pattern[i] == '#'))
            && m.initial == seq(|pattern|, i => 0)
            && var rest := Text.Split(halves[1], " {");
               && Buttons(|pattern|, Text.Split(Text.Strip(rest[0]), " ")) == Ok(m.buttons)
               && Ints(Text.Split(Text.StripChars(rest[1], {'{', '}'}), ",")) == Ok(m.joltage)
  {
  }

  /** A button's vector is on at exactly its listed (wrapped) positions,
      and a position outside `-n <= p < n` is an `IndexError`. */
  lemma ButtonOfSpec(n: nat, raw: string)
    requires Ints(Text.Split(Text.StripChars(raw, {'(', ')'}), ",")).Ok?
    ensures var ps := Ints(Text.Split(Text.StripChars(raw, {'(', ')'}), ",")).value;
            && (ButtonOf(n, raw).Err? <==> exists k :: 0 <= k < |ps| && !InRange(ps[k], n))
            && (ButtonOf(n, raw).Ok? ==>
                 forall i :: 0 <= i < n ==>
                   (ButtonOf(n, raw).value[i] == 1 <==> exists k :: 0 <= k < |ps| && Wrap(ps[k], n) == i))
  {
  }

  /** The `for button in ...` loop of `Machine.__init__`. */
  method ParseButtons(n: nat, raws: seq<string>) returns (r: Result<seq<State>, Error>)
    ensures r == Buttons(n, raws)
  {
    var buttons: seq<State> := [];
    for i := 0 to |raws|
      invariant Buttons(n, raws[..i]) == Ok(buttons)
    {
      assert raws[..i + 1] == raws[..i] + [raws[i]];
      ParseEachSnoc(raws[..i], raws[i], ButtonParser(n));
      var b := ButtonOf(n, raws[i]);
      if b.Err? {
        ButtonsErr(n, raws, i + 1);
        return Err(b.error);
      }
      buttons := buttons + [b.value];
    }
    assert raws[..|raws|] == raws;
    return Ok(buttons);
  }

  /** `Machine.__init__`. */
  method ParseMachine(line: string) returns (r: Result<Machine, Error>)
    ensures r == MachineOf(line)
  {
    var halves := Text.Split(line, "] ");
    if |halves| != 2 {
      return Err(BadLine(line));
    }
    var rest := Text.Split(halves[1], " {");
    if |rest| != 2 {
      return Err(BadLine(line));
    }
    var pattern := Text.RemoveChar(halves[0], '[');
    var initial := seq(|pattern|, i => 0);
    var lights := LightsOf(pattern);
    var buttons :- ParseButtons(|initial|, Text.Split(Text.Strip(rest[0]), " "));
    var joltage :- Ints(Text.Split(Text.StripChars(rest[1], {'{', '}'}), ","));
    return Ok(Machine(initial, lights, buttons, joltage));
  }

  /** `parse_input`: `[Machine(line) for line in input.split("\n") if line]`,
      one well-formed machine per non-empty line, in order, or the error of
      the first line that fails. */
  function Machines(input: string): (r: Result<seq<Machine>, Error>)
    ensures r.Ok? <==> forall k :: 0 <= k < |Text.NonEmpty(Text.Split(input, "\n"))| ==>
                                     MachineOf(Text.NonEmpty(Text.Split(input, "\n"))[k]).Ok?
    ensures r.Ok? ==> && |r.value| == |Text.NonEmpty(Text.Split(input, "\n"))|
                      && forall k :: 0 <= k < |r.value| ==> MachineOf(Text.NonEmpty(Text.Split(input, "\n"))[k]) == Ok(r.value[k])
    ensures r.Ok? ==> forall k :: 0 <= k < |r.value| ==> WellFormed(r.value[k])
    ensures r.Err? ==> exists k :: && 0 <= k < |Text.NonEmpty(Text.Split(input, "\n"))|
                                   && MachineOf(Text.NonEmpty(Text.Split(input, "\n"))[k]) == Err(r.error)
                                   && forall j :: 0 <= j < k ==> MachineOf(Text.NonEmpty(Text.Split(input, "\n"))[j]).Ok?
  {
    var r := ParseEach(Text.NonEmpty(Text.Split(input, "\n")), MachineOf);
    assert r.Err? ==> exists k :: && 0 <= k < |Text.NonEmpty(Text.Split(input, "\n"))|
                                  && !MachineOf(Text.NonEmpty(Text.Split(input, "\n"))[k]).Ok?;
    r
  }

  // ---------------------------------------------------------------------
  // What presses reach
  // ---------------------------------------------------------------------

  /** Pressing button `b` in state `v`: `(v + b) % 2` for lights, `v + b`
      for joltage. */
  function Press(mode: Mode, v: State, b: State): (w: State)
    requires |v| == |b|
    ensures |w| == |v|
  {
    seq(|v|, i requires 0 <= i < |v| => if mode == Light then (v[i] + b[i]) % 2 else v[i] + b[i])
  }

  /** The states one press of one of the first `j` buttons leads to from `v`. */
  ghost function Presses(m: Machine, mode: Mode, v: State, j: nat): set<State>
    requires j <= |m.buttons|
  {
    set k | 0 <= k < j && |m.buttons[k]| == |v| :: Press(mode, v, m.buttons[k])
  }

  /** The states one press away from some state of `s`. */
  ghost function Next(m: Machine, mode: Mode, s: set<State>): set<State> {
    set v, k {:trigger Press(mode, v, m.buttons[k])} | v in s && 0 <= k < |m.buttons| && |m.buttons[k]| == |v| :: Press(mode, v, m.buttons[k])
  }

  /** The states exactly `n` presses lead to from the initial state. */
  ghost function Reach(m: Machine, mode: Mode, n: nat): set<State> {
    if n == 0 then {m.initial} else Next(m, mode, Reach(m, mode, n - 1))
  }

  /** One more press: the successors of the states one press fewer lead to. */
  lemma ReachNext(m: Machine, mode: Mode, n: nat)
    ensures Reach(m, mode, n + 1) == Next(m, mode, Reach(m, mode, n))
  {
  }

  /** The state `turn_on` aims at: the light pattern or the joltage list. */
  function Goal(m: Machine, mode: Mode): State {
    if mode == Light then m.lights else m.joltage
  }

  /** `n` is the fewest presses, at least one, that lead to the goal. */
  ghost predicate Fewest(m: Machine, mode: Mode, n: nat) {
    && n >= 1
    && Goal(m, mode) in Reach(m, mode, n)
    && NotBefore(m, mode, n - 1)
  }

  /** No number of presses from one to `depth` leads to the goal. */
  ghost predicate NotBefore(m: Machine, mode: Mode, depth: nat) {
    forall j :: 1 <= j <= depth ==> Goal(m, mode) !in Reach(m, mode, j)
  }

  /** No number of presses, from one up, leads to the goal. */
  ghost predicate NeverReached(m: Machine, mode: Mode) {
    forall j :: j >= 1 ==> Goal(m, mode) !in Reach(m, mode, j)
  }

  lemma NextMono(m: Machine, mode: Mode, a: set<State>, b: set<State>)
    requires a <= b
    ensures Next(m, mode, a) <= Next(m, mode, b)
  {
  }

  lemma NextUnion(m: Machine, mode: Mode, a: set<State>, b: set<State>)
    ensures Next(m, mode, a + b) == Next(m, mode, a) + Next(m, mode, b)
  {
  }

  /** The presses from one more state are the only new successors. */
  lemma NextAdd(m: Machine, mode: Mode, q: seq<State>, i: nat)
    requires i < |q|
    ensures Next(m, mode, Elems(q[..i + 1])) == Next(m, mode, Elems(q[..i])) + Presses(m, mode, q[i], |m.buttons|)
  {
    assert Elems(q[..i + 1]) == Elems(q[..i]) + {q[i]};
  }

  /** The presses from a state of `s` are successors of `s`. */
  lemma PressesInNext(m: Machine, mode: Mode, s: set<State>, v: State)
    requires v in s
    ensures Presses(m, mode, v, |m.buttons|) <= Next(m, mode, s)
  {
  }

  /** Every state reached has the machine's length; light states are 0/1. */
  lemma {:induction false} ReachShape(m: Machine, mode: Mode, n: nat)
    requires WellFormed(m)
    ensures forall u :: u in Reach(m, mode, n) ==> |u| == |m.initial| && (mode == Light ==> Binary(u))
  {
    if n > 0 {
      ReachShape(m, mode, n - 1);
    }
  }

  /** The elements of a list. */
  function Elems(s: seq<State>): set<State> {
    set x | x in s
  }

  /** No state occurs twice. */
  predicate Distinct(s: seq<State>) {
    forall i, j :: 0 <= i < j < |s| ==> s[i] != s[j]
  }

  // ---------------------------------------------------------------------
  // Light mode: each state is explored once, at the level it is first reached
  // ---------------------------------------------------------------------

  /** The states at most `d` light presses lead to. */
  ghost function Upto(m: Machine, d: nat): set<State> {
    if d == 0 then Reach(m, Light, 0) else Upto(m, d - 1) + Reach(m, Light, d)
  }

  /** The states first reached by `d` light presses: the level-`d` frontier. */
  ghost function New(m: Machine, d: nat): set<State> {
    if d == 0 then Reach(m, Light, 0) else Reach(m, Light, d) - Upto(m, d - 1)
  }

  lemma {:induction false} UptoHas(m: Machine, j: nat, d: nat)
    requires j <= d
    ensures Reach(m, Light, j) <= Upto(m, d)
    decreases d
  {
    if j < d {
      UptoHas(m, j, d - 1);
    }
  }

  /** A state is on the frontier of at most one level. */
  lemma NewDisjoint(m: Machine, d: nat, e: nat)
    requires d < e
    ensures New(m, d) !! New(m, e)
  {
    UptoHas(m, d, e - 1);
  }

  /** The successors of everything seen by level `d` are seen by level `d + 1`. */
  lemma {:induction false} NextUpto(m: Machine, d: nat)
    ensures Next(m, Light, Upto(m, d)) <= Upto(m, d + 1)
  {
    if d > 0 {
      NextUpto(m, d - 1);
      NextUnion(m, Light, Upto(m, d - 1), Reach(m, Light, d));
    }
  }

  /** What seen states reach: the successors of `Upto(d)` are those of
      `Upto(d - 1)` and of the frontier. */
  lemma UptoSplit(m: Machine, d: nat)
    ensures d > 0 ==> Upto(m, d) == Upto(m, d - 1) + New(m, d)
    ensures d > 0 ==> Next(m, Light, Upto(m, d)) == Next(m, Light, Upto(m, d - 1)) + Next(m, Light, New(m, d))
    ensures d == 0 ==> Upto(m, d) == New(m, d)
  {
    if d > 0 {
      NextUnion(m, Light, Upto(m, d - 1), New(m, d));
    }
  }

  /** Expanding the frontier of level `d` adds to the states seen by level
      `d` exactly those seen by level `d + 1`. */
  lemma LightLevel(m: Machine, d: nat)
    ensures Upto(m, d) + Next(m, Light, New(m, d)) == Upto(m, d + 1)
  {
    NextMono(m, Light, New(m, d), Reach(m, Light, d));
    assert Next(m, Light, New(m, d)) <= Reach(m, Light, d + 1);
    UptoHas(m, d, d);
    NextMono(m, Light, Reach(m, Light, d), Upto(m, d));
    assert Reach(m, Light, d + 1) <= Next(m, Light, Upto(m, d));
    SeenOrFrontier(m, d);
  }

  /** A successor of a seen state is seen already or a successor of the frontier. */
  lemma SeenOrFrontier(m: Machine, d: nat)
    ensures Next(m, Light, Upto(m, d)) <= Upto(m, d) + Next(m, Light, New(m, d))
  {
    UptoSplit(m, d);
    if d > 0 {
      NextUpto(m, d - 1);
      Widen(Next(m, Light, Upto(m, d - 1)), Next(m, Light, New(m, d)), Upto(m, d));
    }
  }

  lemma Widen(a: set<State>, b: set<State>, u: set<State>)
    requires a <= u
    ensures a + b <= u + b
  {
  }

  /** Expanding the frontier of level `d` and dropping what was seen gives
      the frontier of level `d + 1`. */
  lemma LightFrontier(m: Machine, d: nat)
    ensures Next(m, Light, New(m, d)) - Upto(m, d) == New(m, d + 1)
  {
    LightLevel(m, d);
    assert Upto(m, d + 1) == Upto(m, d) + Reach(m, Light, d + 1);
  }

  /** Every state `i + 1 <= d + 1` presses lead to is a successor of a state seen by level `d`. */
  lemma LightEarlier(m: Machine, d: nat, i: nat)
    requires i <= d
    ensures Reach(m, Light, i + 1) <= Next(m, Light, Upto(m, d))
  {
    UptoHas(m, i, d);
    NextMono(m, Light, Reach(m, Light, i), Upto(m, d));
    ReachNext(m, Light, i);
    Within(Reach(m, Light, i + 1), Next(m, Light, Reach(m, Light, i)), Next(m, Light, Upto(m, d)));
  }

  lemma Within(a: set<State>, b: set<State>, c: set<State>)
    requires a == b && b <= c
    ensures a <= c
  {
  }

  /** An empty frontier at level `e + 1` closes the search: no number of
      presses leads outside the states seen by level `e`. */
  lemma {:induction false} LightClosed(m: Machine, e: nat, j: nat)
    requires New(m, e + 1) == {}
    ensures Reach(m, Light, j) <= Upto(m, e)
  {
    if j <= e {
      UptoHas(m, j, e);
    } else {
      var i := j - 1;
      LightClosed(m, e, i);
      NextMono(m, Light, Reach(m, Light, i), Upto(m, e));
      NextUpto(m, e);
      UptoGrow(m, e);
      ReachNext(m, Light, i);
    }
  }

  /** With the frontier empty at level `e + 1` and no successor of a state
      seen by level `e` equal to the goal, no number of presses leads to the goal. */
  lemma LightNever(m: Machine, e: nat)
    requires New(m, e + 1) == {}
    requires m.lights !in Next(m, Light, Upto(m, e))
    ensures NeverReached(m, Light)
  {
    forall j | j >= 1
      ensures m.lights !in Reach(m, Light, j)
    {
      var i := j - 1;
      LightClosed(m, e, i);
      NextMono(m, Light, Reach(m, Light, i), Upto(m, e));
      ReachNext(m, Light, i);
    }
  }

  /** All 0/1 vectors of length `n`: the finite room the light search explores. */
  ghost function Cube(n: nat): set<State> {
    if n == 0 then {[]} else set v, c | v in Cube(n - 1) && c in {0, 1} :: v + [c]
  }

  lemma {:induction false} InCube(v: State)
    requires Binary(v)
    ensures v in Cube(|v|)
  {
    if |v| > 0 {
      var u := v[..|v| - 1];
      InCube(u);
      assert v == u + [v[|v| - 1]];
    }
  }

  lemma {:induction false} UptoCube(m: Machine, d: nat)
    requires WellFormed(m)
    ensures Upto(m, d) <= Cube(|m.initial|)
  {
    if d > 0 {
      UptoCube(m, d - 1);
    }
    ReachShape(m, Light, d);
    forall u | u in Reach(m, Light, d)
      ensures u in Cube(|m.initial|)
    {
      InCube(u);
    }
  }

  lemma {:induction false} SubsetCard(a: set<State>, b: set<State>)
    requires a <= b
    ensures |a| <= |b|
    decreases |a|
  {
    if a != {} {
      var x :| x in a;
      SubsetCard(a - {x}, b - {x});
    }
  }

  // ---------------------------------------------------------------------
  // Joltage mode: states above the targets are dropped, nothing is deduplicated
  // ---------------------------------------------------------------------

  /** `not (w > goal).any()` for a state of the goal's length. */
  predicate Below(w: State, goal: State) {
    |w| == |goal| && forall i :: 0 <= i < |w| ==> w[i] <= goal[i]
  }

  /** The states of `s` no counter of which exceeds its target. */
  ghost function Keep(s: set<State>, goal: State): set<State> {
    set w | w in s && Below(w, goal)
  }

  /** The joltage frontier of level `d`: the states `d` presses lead to
      when every press lands at or below the targets. */
  ghost function Pruned(m: Machine, d: nat): set<State> {
    if d == 0 then {m.initial} else Keep(Next(m, Joltage, Pruned(m, d - 1)), m.joltage)
  }

  lemma PrunedNext(m: Machine, d: nat)
    ensures Pruned(m, d + 1) == Keep(Next(m, Joltage, Pruned(m, d)), m.joltage)
  {
  }

  lemma {:induction false} PrunedInReach(m: Machine, d: nat)
    ensures Pruned(m, d) <= Reach(m, Joltage, d)
  {
    if d > 0 {
      PrunedInReach(m, d - 1);
      NextMono(m, Joltage, Pruned(m, d - 1), Reach(m, Joltage, d - 1));
    }
  }

  /** Dropping states above the targets loses no way to a state at or below
      them: counters only grow. */
  lemma {:induction false} ReachPruned(m: Machine, d: nat, u: State)
    requires WellFormed(m) && u in Reach(m, Joltage, d) && Below(u, m.joltage)
    ensures u in Pruned(m, d)
  {
    if d > 0 {
      var v, k :| v in Reach(m, Joltage, d - 1) && 0 <= k < |m.buttons| && |m.buttons[k]| == |v|
                  && u == Press(Joltage, v, m.buttons[k]);
      assert Binary(m.buttons[k]);
      assert Below(v, m.joltage);
      ReachPruned(m, d - 1, v);
      assert u in Next(m, Joltage, Pruned(m, d - 1));
    }
  }

  /** An empty frontier stays empty. */
  lemma {:induction false} PrunedEmpty(m: Machine, d: nat, j: nat)
    requires Pruned(m, d) == {} && d <= j
    ensures Pruned(m, j) == {}
    decreases j
  {
    if d < j {
      PrunedEmpty(m, d, j - 1);
    }
  }

  /** With the frontier empty at level `D` and the goal not met before, no
      number of presses leads to the joltage targets. */
  lemma JoltageNever(m: Machine, D: nat)
    requires WellFormed(m) && |m.joltage| == |m.initial| && Pruned(m, D) == {}
    requires forall j :: 1 <= j <= D ==> m.joltage !in Reach(m, Joltage, j)
    ensures NeverReached(m, Joltage)
  {
    forall j | j > D
      ensures m.joltage !in Reach(m, Joltage, j)
    {
      PrunedEmpty(m, D, j);
      if m.joltage in Reach(m, Joltage, j) {
        ReachPruned(m, j, m.joltage);
      }
    }
  }

  /** The counters' total. */
  function Sum(v: State): int {
    if v == [] then 0 else Sum(v[..|v| - 1]) + v[|v| - 1]
  }

  lemma {:induction false} SumPress(v: State, b: State)
    requires |v| == |b|
    ensures Sum(Press(Joltage, v, b)) == Sum(v) + Sum(b)
  {
    if v != [] {
      var n := |v| - 1;
      SumPress(v[..n], b[..n]);
      assert Press(Joltage, v, b)[..n] == Press(Joltage, v[..n], b[..n]);
    }
  }

  lemma {:induction false} SumBelow(w: State, goal: State)
    requires Below(w, goal)
    ensures Sum(w) <= Sum(goal)
  {
    if w != [] {
      SumBelow(w[..|w| - 1], goal[..|goal| - 1]);
    }
  }

  lemma {:induction false} SumNonNegative(b: State)
    requires Binary(b)
    ensures Sum(b) >= 0
  {
    if b != [] {
      SumNonNegative(b[..|b| - 1]);
    }
  }

  /** A button acting on some light adds at least one to the counters' total. */
  lemma {:induction false} SumActs(b: State, i: nat)
    requires Binary(b) && i < |b| && b[i] == 1
    ensures Sum(b) >= 1
  {
    var n := |b| - 1;
    if i < n {
      SumActs(b[..n], i);
    } else {
      SumNonNegative(b[..n]);
    }
  }

  lemma {:induction false} SumZero(v: State)
    requires forall i :: 0 <= i < |v| ==> v[i] == 0
    ensures Sum(v) == 0
  {
    if v != [] {
      SumZero(v[..|v| - 1]);
    }
  }

  /** Level `d` of the joltage search holds states whose counters total at
      least `d` and, past the start, stay at or below the targets: the
      search cannot go deeper than the targets' total. */
  lemma {:induction false} PrunedSum(m: Machine, d: nat, u: State)
    requires WellFormed(m) && u in Pruned(m, d)
    ensures |u| == |m.initial| && Sum(u) >= d
    ensures d >= 1 ==> Below(u, m.joltage)
  {
    if d == 0 {
      SumZero(m.initial);
    } else {
      var v, k :| v in Pruned(m, d - 1) && 0 <= k < |m.buttons| && |m.buttons[k]| == |v|
                  && u == Press(Joltage, v, m.buttons[k]);
      PrunedSum(m, d - 1, v);
      SumPress(v, m.buttons[k]);
      assert Acts(m.buttons[k], |m.initial|);
      var i :| 0 <= i < |m.initial| && m.buttons[k][i] == 1;
      SumActs(m.buttons[k], i);
    }
  }

  // ---------------------------------------------------------------------
  // The search
  // ---------------------------------------------------------------------

  lemma ElemsSnoc(s: seq<State>, x: State)
    ensures Elems(s + [x]) == Elems(s) + {x}
  {
  }

  /** Appending a state not yet present keeps a list free of repeats. */
  lemma DistinctSnoc(s: seq<State>, x: State)
    requires Distinct(s) && x !in Elems(s)
    ensures Distinct(s + [x])
  {
  }

  lemma PressesSnoc(m: Machine, mode: Mode, v: State, j: nat)
    requires j < |m.buttons| && |m.buttons[j]| == |v|
    ensures Presses(m, mode, v, j + 1) == Presses(m, mode, v, j) + {Press(mode, v, m.buttons[j])}
  {
  }

  /** Light bookkeeping: a pressed state already seen changes nothing. */
  lemma LightSkip(e0: set<State>, n0: set<State>, p: set<State>, e: set<State>, n: set<State>, w: State)
    requires e == e0 + p && n == n0 + (p - e0) && w in e
    ensures e == e0 + (p + {w}) && n == n0 + ((p + {w}) - e0)
  {
  }

  /** Light bookkeeping: a pressed state not seen yet is seen and queued. */
  lemma LightAdd(e0: set<State>, n0: set<State>, p: set<State>, e: set<State>, n: set<State>, w: State)
    requires e == e0 + p && n == n0 + (p - e0) && w !in e
    ensures e + {w} == e0 + (p + {w}) && n + {w} == n0 + ((p + {w}) - e0)
  {
  }

  /** Joltage bookkeeping: a pressed state is queued exactly when it is below the targets. */
  lemma JoltageStep(n0: set<State>, p: set<State>, n: set<State>, w: State, goal: State)
    requires n == n0 + Keep(p, goal)
    ensures Below(w, goal) ==> n + {w} == n0 + Keep(p + {w}, goal)
    ensures !Below(w, goal) ==> n == n0 + Keep(p + {w}, goal)
  {
  }

  /** `for b in self.buttons`: press every button in state `v`, stop at the
      goal, and otherwise append what is new (light mode) or not above the
      targets (joltage mode) to the next frontier.  `explored` grows in both
      modes, as the `vstack` does. */
  method PressAll(m: Machine, mode: Mode, goal: State, v: State, explored0: seq<State>, next0: seq<State>)
    returns (found: bool, explored: seq<State>, next: seq<State>)
    requires WellFormed(m) && |v| == |m.initial| && |goal| == |m.initial|
    requires mode == Light ==> Distinct(explored0) && Distinct(next0) && Elems(next0) <= Elems(explored0)
    ensures found <==> goal in Presses(m, mode, v, |m.buttons|)
    ensures !found && mode == Light ==>
              && Elems(explored) == Elems(explored0) + Presses(m, mode, v, |m.buttons|)
              && Elems(next) == Elems(next0) + (Presses(m, mode, v, |m.buttons|) - Elems(explored0))
              && Distinct(explored) && Distinct(next) && Elems(next) <= Elems(explored)
    ensures !found && mode == Joltage ==>
              Elems(next) == Elems(next0) + Keep(Presses(m, mode, v, |m.buttons|), goal)
  {
    explored, next := explored0, next0;
    for j := 0 to |m.buttons|
      invariant goal !in Presses(m, mode, v, j)
      invariant mode == Light ==>
                  && Elems(explored) == Elems(explored0) + Presses(m, mode, v, j)
                  && Elems(next) == Elems(next0) + (Presses(m, mode, v, j) - Elems(explored0))
                  && Distinct(explored) && Distinct(next) && Elems(next) <= Elems(explored)
      invariant mode == Joltage ==> Elems(next) == Elems(next0) + Keep(Presses(m, mode, v, j), goal)
    {
      assert Acts(m.buttons[j], |m.initial|);
      var w := Press(mode, v, m.buttons[j]);
      PressesSnoc(m, mode, v, j);
      ghost var p := Presses(m, mode, v, j);
      if w == goal {
        return true, explored, next;
      }
      if w in explored && mode == Light {
        LightSkip(Elems(explored0), Elems(next0), p, Elems(explored), Elems(next), w);
        continue;
      }
      if mode == Joltage {
        JoltageStep(Elems(next0), p, Elems(next), w, goal);
      }
      if (exists i :: 0 <= i < |w| && w[i] > goal[i]) && mode == Joltage {
        continue;
      }
      if mode == Light {
        LightAdd(Elems(explored0), Elems(next0), p, Elems(explored), Elems(next), w);
        DistinctSnoc(explored, w);
        DistinctSnoc(next, w);
      }
      ElemsSnoc(explored, w);
      ElemsSnoc(next, w);
      explored := explored + [w];
      next := next + [w];
    }
    found := false;
  }

  /** Light bookkeeping over a level: the successors of one more state join
      the seen states and, where new, the next frontier. */
  lemma LightLevelStep(e0: set<State>, d: set<State>, p: set<State>, e: set<State>, n: set<State>)
    requires e == (e0 + d) + p && n == (d - e0) + (p - (e0 + d))
    ensures e == e0 + (d + p) && n == (d + p) - e0
  {
  }

  /** Joltage bookkeeping over a level. */
  lemma JoltageLevelStep(d: set<State>, p: set<State>, n: set<State>, goal: State)
    requires n == Keep(d, goal) + Keep(p, goal)
    ensures n == Keep(d + p, goal)
  {
  }

  /** `for v in q`: expand one level of the search. */
  method Level(m: Machine, mode: Mode, goal: State, q: seq<State>, explored0: seq<State>)
    returns (found: bool, explored: seq<State>, next: seq<State>)
    requires WellFormed(m) && |goal| == |m.initial|
    requires forall i :: 0 <= i < |q| ==> |q[i]| == |m.initial|
    requires mode == Light ==> Distinct(explored0)
    ensures found <==> goal in Next(m, mode, Elems(q))
    ensures !found && mode == Light ==>
              && Elems(explored) == Elems(explored0) + Next(m, Light, Elems(q))
              && Elems(next) == Next(m, Light, Elems(q)) - Elems(explored0)
              && Distinct(explored) && Distinct(next)
    ensures !found && mode == Joltage ==> Elems(next) == Keep(Next(m, Joltage, Elems(q)), goal)
  {
    explored, next := explored0, [];
    assert Elems(q[..0]) == {};
    for i := 0 to |q|
      invariant goal !in Next(m, mode, Elems(q[..i]))
      invariant mode == Light ==>
                  && Elems(explored) == Elems(explored0) + Next(m, Light, Elems(q[..i]))
                  && Elems(next) == Next(m, Light, Elems(q[..i])) - Elems(explored0)
                  && Distinct(explored) && Distinct(next) && Elems(next) <= Elems(explored)
      invariant mode == Joltage ==> Elems(next) == Keep(Next(m, Joltage, Elems(q[..i])), goal)
    {
      NextAdd(m, mode, q, i);
      ghost var d := Next(m, mode, Elems(q[..i]));
      ghost var p := Presses(m, mode, q[i], |m.buttons|);
      found, explored, next := PressAll(m, mode, goal, q[i], explored, next);
      if found {
        PressesInNext(m, mode, Elems(q), q[i]);
        return;
      }
      if mode == Light {
        LightLevelStep(Elems(explored0), d, p, Elems(explored), Elems(next));
      } else {
        JoltageLevelStep(d, p, Elems(next), goal);
      }
    }
    assert q[..|q|] == q;
    found := false;
  }

  /** The joltage targets, once reached by `d` presses, are on the level-`d` frontier. */
  lemma TargetsPruned(m: Machine, d: nat)
    requires WellFormed(m) && |m.joltage| == |m.initial|
    ensures m.joltage in Reach(m, Joltage, d) ==> m.joltage in Pruned(m, d)
  {
    if m.joltage in Reach(m, Joltage, d) {
      ReachPruned(m, d, m.joltage);
    }
  }

  /** The light search at the start of level `depth`: `explored` lists each
      state seen so far once, `frontier` each state first reached now once,
      and every successor of a state seen before was compared with the goal. */
  ghost predicate LightSearch(m: Machine, explored: seq<State>, frontier: seq<State>, depth: nat) {
    && Elems(explored) == Upto(m, depth) && Elems(frontier) == New(m, depth)
    && Distinct(explored) && Distinct(frontier)
    && (depth >= 1 ==> m.lights !in Next(m, Light, Upto(m, depth - 1)))
  }

  /** A level of the light search that misses the goal sets up the next
      one; a non-empty frontier keeps the depth below the number of 0/1 vectors. */
  lemma LightSearchStep(m: Machine, depth: nat, explored0: seq<State>, q: seq<State>, explored: seq<State>, next: seq<State>)
    requires WellFormed(m) && LightSearch(m, explored0, q, depth) && NotBefore(m, Light, depth) && q != []
    requires m.lights !in Next(m, Light, Elems(q))
    requires Elems(explored) == Elems(explored0) + Next(m, Light, Elems(q))
    requires Elems(next) == Next(m, Light, Elems(q)) - Elems(explored0)
    requires Distinct(explored) && Distinct(next)
    ensures LightSearch(m, explored, next, depth + 1) && NotBefore(m, Light, depth + 1)
    ensures forall i :: 0 <= i < |next| ==> |next[i]| == |m.initial|
    ensures depth < |Cube(|m.initial|)|
  {
    LightSets(m, depth, Elems(explored0), Elems(q), Elems(explored), Elems(next));
    LightMissed(m, depth, Elems(q));
    LightEarlier(m, depth, depth);
    NotBeforeStep(m, Light, depth);
    LightShape(m, depth + 1, next);
    assert q[0] in Elems(q);
    LightDeep(m, depth);
  }

  /** What one level of the light search sees and queues. */
  lemma LightSets(m: Machine, depth: nat, seen0: set<State>, q: set<State>, seen: set<State>, next: set<State>)
    requires seen0 == Upto(m, depth) && q == New(m, depth)
    requires seen == seen0 + Next(m, Light, q) && next == Next(m, Light, q) - seen0
    ensures seen == Upto(m, depth + 1) && next == New(m, depth + 1)
  {
    LightLevel(m, depth);
    LightFrontier(m, depth);
  }

  /** The goal is no successor of anything seen by level `depth`. */
  lemma LightMissed(m: Machine, depth: nat, q: set<State>)
    requires q == New(m, depth) && m.lights !in Next(m, Light, q)
    requires depth >= 1 ==> m.lights !in Next(m, Light, Upto(m, depth - 1))
    ensures m.lights !in Next(m, Light, Upto(m, depth))
  {
    UptoSplit(m, depth);
  }

  /** The light frontier holds vectors as long as the initial one. */
  lemma LightShape(m: Machine, d: nat, next: seq<State>)
    requires WellFormed(m) && Elems(next) == New(m, d)
    ensures forall i :: 0 <= i < |next| ==> |next[i]| == |m.initial|
  {
    ReachShape(m, Light, d);
    forall i | 0 <= i < |next|
      ensures |next[i]| == |m.initial|
    {
      assert next[i] in Elems(next);
    }
  }

  /** Level `d + 1` adds its frontier, disjoint from what was seen, to the seen states. */
  lemma UptoGrow(m: Machine, d: nat)
    ensures Upto(m, d + 1) == Upto(m, d) + New(m, d + 1) && Upto(m, d) !! New(m, d + 1)
    ensures New(m, d + 1) == Reach(m, Light, d + 1) - Upto(m, d)
  {
  }

  /** An empty light frontier stays empty. */
  lemma EmptyStays(m: Machine, e: nat)
    ensures New(m, e) == {} ==> New(m, e + 1) == {}
  {
    if e > 0 && New(m, e) == {} {
      var c := e - 1;
      LightClosed(m, c, e + 1);
      UptoGrow(m, c);
      UptoGrow(m, e);
    }
  }

  /** By a level with a non-empty frontier, every level has added a state. */
  lemma {:induction false} UptoSize(m: Machine, d: nat)
    requires New(m, d) != {}
    ensures |Upto(m, d)| >= d + 1
  {
    if d > 0 {
      var e := d - 1;
      EmptyStays(m, e);
      UptoSize(m, e);
      UptoGrow(m, e);
      var x :| x in New(m, d);
      SubsetCard({x}, New(m, d));
    }
  }

  /** A level with a non-empty light frontier lies below the number of 0/1 vectors. */
  lemma LightDeep(m: Machine, d: nat)
    requires WellFormed(m) && New(m, d) != {}
    ensures d < |Cube(|m.initial|)|
  {
    UptoSize(m, d);
    UptoCube(m, d);
    SubsetCard(Upto(m, d), Cube(|m.initial|));
  }

  /** A level of the joltage search that misses the targets sets up the
      next one, and a non-empty frontier past the start keeps the depth
      within the targets' total. */
  lemma JoltageSearchStep(m: Machine, depth: nat, q: seq<State>, next: seq<State>)
    requires WellFormed(m) && |m.joltage| == |m.initial| && NotBefore(m, Joltage, depth)
    requires Elems(q) == Pruned(m, depth) && q != []
    requires m.joltage !in Next(m, Joltage, Elems(q))
    requires Elems(next) == Keep(Next(m, Joltage, Elems(q)), m.joltage)
    ensures Elems(next) == Pruned(m, depth + 1) && NotBefore(m, Joltage, depth + 1)
    ensures forall i :: 0 <= i < |next| ==> |next[i]| == |m.initial|
    ensures depth >= 1 ==> depth <= Sum(m.joltage)
  {
    JoltageFrontier(m, depth, q, next);
    NotBeforeStep(m, Joltage, depth);
    if depth >= 1 {
      JoltageDeep(m, depth, q);
    }
    forall i | 0 <= i < |next|
      ensures |next[i]| == |m.initial|
    {
      assert next[i] in Elems(next);
      PrunedSum(m, depth + 1, next[i]);
    }
  }

  /** Expanding the joltage frontier and keeping what stays at or below the
      targets gives the next frontier, which misses the targets if the
      expansion did. */
  lemma JoltageFrontier(m: Machine, depth: nat, q: seq<State>, next: seq<State>)
    requires WellFormed(m) && |m.joltage| == |m.initial|
    requires Elems(q) == Pruned(m, depth)
    requires m.joltage !in Next(m, Joltage, Elems(q))
    requires Elems(next) == Keep(Next(m, Joltage, Elems(q)), m.joltage)
    ensures Elems(next) == Pruned(m, depth + 1) && m.joltage !in Reach(m, Joltage, depth + 1)
  {
    PrunedNext(m, depth);
    TargetsPruned(m, depth + 1);
  }

  /** A non-empty joltage frontier past the start lies within the targets' total. */
  lemma JoltageDeep(m: Machine, depth: nat, q: seq<State>)
    requires WellFormed(m) && Elems(q) == Pruned(m, depth) && q != [] && depth >= 1
    ensures depth <= Sum(m.joltage)
  {
    assert q[0] in Elems(q);
    PrunedSum(m, depth, q[0]);
    SumBelow(q[0], m.joltage);
  }

  /** Missing the goal up to `depth` and at `depth + 1` is missing it up to `depth + 1`. */
  lemma NotBeforeStep(m: Machine, mode: Mode, depth: nat)
    requires NotBefore(m, mode, depth) && Goal(m, mode) !in Reach(m, mode, depth + 1)
    ensures NotBefore(m, mode, depth + 1)
  {
  }

  /** Meeting the goal while expanding level `depth` means `depth + 1` presses reach it. */
  lemma SearchHit(m: Machine, mode: Mode, depth: nat, q: seq<State>)
    requires mode == Light ==> Elems(q) == New(m, depth)
    requires mode == Joltage ==> Elems(q) == Pruned(m, depth)
    ensures Next(m, mode, Elems(q)) <= Reach(m, mode, depth + 1)
  {
    if mode == Light {
      NextMono(m, Light, New(m, depth), Reach(m, Light, depth));
    } else {
      PrunedInReach(m, depth);
      NextMono(m, Joltage, Pruned(m, depth), Reach(m, Joltage, depth));
    }
  }

  /** The state of the search at the start of level `depth`, in either mode. */
  ghost predicate Searching(m: Machine, mode: Mode, explored: seq<State>, frontier: seq<State>, depth: nat) {
    && (forall i :: 0 <= i < |frontier| ==> |frontier[i]| == |m.initial|)
    && NotBefore(m, mode, depth)
    && depth <= Depths(m, mode)
    && (mode == Light ==> LightSearch(m, explored, frontier, depth))
    && (mode == Joltage ==> Elems(frontier) == Pruned(m, depth))
  }

  /** A bound on the levels the search runs: the number of 0/1 vectors, or
      one more than the joltage targets' total. */
  ghost function Depths(m: Machine, mode: Mode): nat {
    if mode == Light then |Cube(|m.initial|)|
    else if Sum(m.joltage) > 0 then Sum(m.joltage) + 1 else 1
  }

  /** Reaching the goal at `depth + 1` presses and never before is the fewest. */
  lemma HitIsFewest(m: Machine, mode: Mode, depth: nat, q: seq<State>)
    requires NotBefore(m, mode, depth) && Goal(m, mode) in Next(m, mode, Elems(q))
    requires mode == Light ==> Elems(q) == New(m, depth)
    requires mode == Joltage ==> Elems(q) == Pruned(m, depth)
    ensures Fewest(m, mode, depth + 1)
  {
    SearchHit(m, mode, depth, q);
  }

  /** The search starts at level 0 with the initial state seen and queued. */
  lemma SearchStart(m: Machine, mode: Mode)
    requires WellFormed(m)
    ensures Searching(m, mode, [m.initial], [m.initial], 0)
  {
    assert Elems([m.initial]) == {m.initial};
  }

  /** A search whose frontier runs empty has shown the goal unreachable. */
  lemma SearchEnd(m: Machine, mode: Mode, explored: seq<State>, depth: nat)
    requires WellFormed(m) && |Goal(m, mode)| == |m.initial|
    requires Searching(m, mode, explored, [], depth)
    ensures NeverReached(m, mode)
  {
    assert Elems([]) == {};
    if mode == Light {
      assert m.initial in New(m, 0);
      var e := depth - 1;
      LightNever(m, e);
    } else {
      JoltageNever(m, depth);
    }
  }

  /** The body of `while curr_w`: expand the frontier of level `depth`,
      either meeting the goal or setting up level `depth + 1`. */
  method Advance(m: Machine, mode: Mode, goal: State, explored0: seq<State>, q: seq<State>, depth: nat)
    returns (found: bool, explored: seq<State>, next: seq<State>)
    requires WellFormed(m) && goal == Goal(m, mode) && |goal| == |m.initial|
    requires Searching(m, mode, explored0, q, depth) && q != []
    ensures found ==> Fewest(m, mode, depth + 1)
    ensures !found ==> Searching(m, mode, explored, next, depth + 1)
  {
    found, explored, next := Level(m, mode, goal, q, explored0);
    if found {
      HitIsFewest(m, mode, depth, q);
      return;
    }
    if mode == Light {
      LightSearchStep(m, depth, explored0, q, explored, next);
    } else {
      JoltageSearchStep(m, depth, q, next);
    }
  }

  /** The `while curr_w` loop of `turn_on`, from the initial state. */
  method Search(m: Machine, mode: Mode, goal: State) returns (r: Result<nat, Error>)
    requires WellFormed(m) && goal == Goal(m, mode) && |goal| == |m.initial|
    ensures r.Ok? ==> Fewest(m, mode, r.value)
    ensures r.Err? ==> r.error == Unreachable && NeverReached(m, mode)
  {
    var explored := [m.initial];
    var depth: nat := 0;
    var currW := [m.initial];
    SearchStart(m, mode);
    while currW != []
      invariant Searching(m, mode, explored, currW, depth)
      decreases Depths(m, mode) - depth
    {
      var found;
      found, explored, currW := Advance(m, mode, goal, explored, currW, depth);
      if found {
        return Ok(depth + 1);
      }
      depth := depth + 1;
    }
    SearchEnd(m, mode, explored, depth);
    return Err(Unreachable);
  }

  /** `turn_on`: the breadth-first search, level by level, for the fewest
      presses that lead from the initial state to the goal. */
  method TurnOn(m: Machine, mode: Mode) returns (r: Result<nat, Error>)
    requires WellFormed(m)
    ensures r.Ok? ==> Fewest(m, mode, r.value)
    ensures r.Err? ==>
              || (r.error == Unreachable && NeverReached(m, mode))
              || (r.error == ShapeMismatch && mode == Joltage && |m.joltage| != |m.initial|)
    ensures mode == Joltage && |m.joltage| != |m.initial| ==> r == Err(ShapeMismatch)
  {
    var goal := if mode == Light then m.lights else m.joltage;
    if |goal| != |m.initial| {
      return Err(ShapeMismatch);
    }
    r := Search(m, mode, goal);
  }

  /** The fewest presses are a single number. */
  lemma FewestUnique(m: Machine, mode: Mode, a: nat, b: nat)
    requires Fewest(m, mode, a) && Fewest(m, mode, b)
    ensures a == b
  {
  }

  // ---------------------------------------------------------------------
  // Part 1
  // ---------------------------------------------------------------------

  /** `parse_input`, one line at a time. */
  method ParseInput(input: string) returns (r: Result<seq<Machine>, Error>)
    ensures r == Machines(input)
  {
    var lines := Text.Split(input, "\n");
    var machines: seq<Machine> := [];
    for i := 0 to |lines|
      invariant ParseEach(Text.NonEmpty(lines[..i]), MachineOf) == Ok(machines)
    {
      assert lines[..i + 1] == lines[..i] + [lines[i]];
      if lines[i] == [] {
        assert ParseEach(Text.NonEmpty(lines[..i + 1]), MachineOf) == Ok(machines) by {
          Text.ParseNonEmptyStep(lines[..i], lines[i], MachineOf);
        }
      } else {
        var machine := ParseMachine(lines[i]);
        if machine.Err? {
          assert ParseEach(Text.NonEmpty(lines), MachineOf) == Err(machine.error) by {
            Text.ParseNonEmptyStep(lines[..i], lines[i], MachineOf);
            assert lines == lines[..i + 1] + lines[i + 1..];
            Text.ParseNonEmptyErr(lines[..i + 1], lines[i + 1..], MachineOf);
          }
          return Err(machine.error);
        }
        assert ParseEach(Text.NonEmpty(lines[..i + 1]), MachineOf) == Ok(machines + [machine.value]) by {
          Text.ParseNonEmptyStep(lines[..i], lines[i], MachineOf);
        }
        machines := machines + [machine.value];
      }
    }
    assert lines[..|lines|] == lines;
    return Ok(machines);
  }

  /** The sum of a list of counts. */
  function Total(ns: seq<nat>): nat {
    if ns == [] then 0 else Total(ns[..|ns| - 1]) + ns[|ns| - 1]
  }

  /** The `for machine in machines` loop of `part1`: the fewest light
      presses of every machine, added up; the ghost `presses` lists them. */
  method SumFewest(machines: seq<Machine>) returns (r: Result<nat, Error>, ghost presses: seq<nat>)
    requires forall k :: 0 <= k < |machines| ==> WellFormed(machines[k])
    ensures r.Ok? ==>
              && |presses| == |machines|
              && (forall k :: 0 <= k < |machines| ==> Fewest(machines[k], Light, presses[k]))
              && r.value == Total(presses)
    ensures r.Err? ==> r.error == Unreachable && exists k :: 0 <= k < |machines| && NeverReached(machines[k], Light)
  {
    presses := [];
    var solution: nat := 0;
    for i := 0 to |machines|
      invariant |presses| == i && solution == Total(presses)
      invariant forall k :: 0 <= k < i ==> Fewest(machines[k], Light, presses[k])
    {
      var minSteps := TurnOn(machines[i], Light);
      if minSteps.Err? {
        return Err(minSteps.error), presses;
      }
      assert (presses + [minSteps.value])[..i] == presses;
      solution := solution + minSteps.value;
      presses := presses + [minSteps.value];
    }
    return Ok(solution), presses;
  }

  /** `part1`. */
  method Part1(input: string) returns (r: Result<string, Error>, ghost presses: seq<nat>)
    ensures Machines(input).Err? ==> r == Err(Machines(input).error)
    ensures Machines(input).Ok? && r.Ok? ==>
              var ms := Machines(input).value;
              && |presses| == |ms|
              && (forall k :: 0 <= k < |ms| ==> Fewest(ms[k], Light, presses[k]))
              && r.value == Text.Show(Total(presses))
    ensures Machines(input).Ok? && r.Err? ==>
              var ms := Machines(input).value;
              r.error == Unreachable && exists k :: 0 <= k < |ms| && NeverReached(ms[k], Light)
  {
    presses := [];
    var machines := ParseInput(input);
    if machines.Err? {
      return Err(machines.error), presses;
    }
    var solution;
    solution, presses := SumFewest(machines.value);
    if solution.Err? {
      return Err(solution.error), presses;
    }
    return Ok(Text.Show(solution.value)), presses;
  }
}
