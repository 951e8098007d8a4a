/** Day 8: junction boxes in space are wired together, shortest pair
    first, into circuits. Each circuit is a set of boxes; an edge between
    two different circuits replaces them by their union (Kruskal's
    algorithm with a list of sets in place of a union-find). Part 1 looks
    at the first 1000 pairs and multiplies the sizes of the three largest
    circuits; part 2 goes on until one circuit is left and multiplies the
    x coordinates of the two boxes of the last connection. */
module Circuits {
  import opened Results
  import Text
  import Sorting

  /** A junction box. The solver tells boxes apart by object identity, so
      the model names each box by its index in the input. */
  datatype Point = Point(x: int, y: int, z: int)

  /** `Edge`: a pair of boxes by index, the earlier one first. */
  datatype Edge = Edge(p1: nat, p2: nat)

  /** A circuit: the indices of its boxes. */
  type Circuit = set<nat>

  datatype Error =
    /** `Point.__init__` on a line that is not three comma-separated
        integers (ValueError). */
    | BadPoint(line: string)
    /** `find_sets` finds the box in no circuit (ValueError). */
    | NotFound(p: nat)
    /** `reduce` over an empty list (TypeError). */
    | EmptyProduct
    /** `last_connection_product_x` read before any connection was made
        (UnboundLocalError). */
    | NoConnection

  // ---------------------------------------------------------------------
  // Parsing
  // ---------------------------------------------------------------------

  /** `Point(line)`: `map(int, line.split(","))` unpacked into three
      coordinates. */
  function ParsePoint(line: string): (r: Result<Point, Error>)
    ensures r.Err? ==> r.error == BadPoint(line)
  {
    var parts := Text.Split(line, ",");
    if |parts| != 3 then Err(BadPoint(line))
    else
      match (Text.ParseInt(parts[0]), Text.ParseInt(parts[1]), Text.ParseInt(parts[2]))
      case (Some(x), Some(y), Some(z)) => Ok(Point(x, y, z))
      case _ => Err(BadPoint(line))
  }

  /** A box written the way the input writes it. */
  function ShowPoint(p: Point): string {
    Text.Join([Text.Show(p.x), Text.Show(p.y), Text.Show(p.z)], ",")
  }

  lemma NoComma(n: int)
    ensures ',' !in Text.Show(n)
  {
  }

  /** Reading a box back from its text gives the same box. */
  lemma ParseShowPoint(p: Point)
    ensures ParsePoint(ShowPoint(p)) == Ok(p)
  {
    var parts := [Text.Show(p.x), Text.Show(p.y), Text.Show(p.z)];
    NoComma(p.x);
    NoComma(p.y);
    NoComma(p.z);
    Text.SplitJoin(parts, ",");
    Text.ParseShow(p.x);
    Text.ParseShow(p.y);
    Text.ParseShow(p.z);
  }

  /** `[Point(l) for l in input_data.strip().split("\n")]`. */
  function Points(input: string): Result<seq<Point>, Error> {
    ParseEach(Text.Split(Text.Strip(input), "\n"), ParsePoint)
  }

  // ---------------------------------------------------------------------
  // Edges
  // ---------------------------------------------------------------------

  /** The edge weight: the squared distance. The solver takes its square
      root; the root keeps the order of the weights. */
  function SqDist(p: Point, q: Point): nat {
    (p.x - q.x) * (p.x - q.x) + (p.y - q.y) * (p.y - q.y) + (p.z - q.z) * (p.z - q.z)
  }

  lemma SqDistSymmetric(p: Point, q: Point)
    ensures SqDist(p, q) == SqDist(q, p)
    ensures SqDist(p, q) == 0 <==> p == q
  {
    if SqDist(p, q) == 0 {
      Square(p.x - q.x);
      Square(p.y - q.y);
      Square(p.z - q.z);
    }
  }

  lemma Square(d: int)
    ensures d * d >= 0
    ensures d * d == 0 <==> d == 0
  {
    if d != 0 {
      if d > 0 {
        assert d * d >= d;
      } else {
        assert d * d == (-d) * (-d);
        assert (-d) * (-d) >= -d;
      }
    }
  }

  /** The weight of an edge between two of `points`. */
  function Weight(points: seq<Point>): Edge -> int {
    (e: Edge) => if e.p1 < |points| && e.p2 < |points| then SqDist(points[e.p1], points[e.p2]) else 0
  }

  /** Lexicographic order on index pairs, the order `combinations` yields. */
  predicate Before(e: Edge, f: Edge) {
    e.p1 < f.p1 || (e.p1 == f.p1 && e.p2 < f.p2)
  }

  /** The pairs `(i, j)` for `from <= j < n`. */
  function Row(i: nat, from: nat, n: nat): (r: seq<Edge>)
    ensures forall e :: e in r <==> e.p1 == i && from <= e.p2 < n
    ensures forall a, b :: 0 <= a < b < |r| ==> Before(r[a], r[b])
    decreases n - from
  {
    if from >= n then [] else [Edge(i, from)] + Row(i, from + 1, n)
  }

  /** The pairs `(i, j)` with `from <= i < j < n`, in lexicographic order. */
  function PairsFrom(from: nat, n: nat): (r: seq<Edge>)
    ensures forall e :: e in r <==> from <= e.p1 < e.p2 < n
    ensures forall a, b :: 0 <= a < b < |r| ==> Before(r[a], r[b])
    decreases n - from
  {
    if from >= n then []
    else
      var row := Row(from, from + 1, n);
      var rest := PairsFrom(from + 1, n);
      var r := row + rest;
      assert forall a, b :: 0 <= a < |row| <= b < |r| ==> Before(r[a], r[b]) by {
        forall a, b | 0 <= a < |row| <= b < |r| ensures Before(r[a], r[b]) {
          assert r[a] in row && r[b] == rest[b - |row|] && r[b] in rest;
        }
      }
      r
  }

  /** `combinations(points, 2)` on `n` boxes: every pair of boxes once, in
      lexicographic order of their indices. */
  function Pairs(n: nat): (r: seq<Edge>)
    ensures forall e :: e in r <==> e.p1 < e.p2 < n
    ensures forall a, b :: 0 <= a < b < |r| ==> Before(r[a], r[b])
  {
    PairsFrom(0, n)
  }

  /** The edges in the order the solver processes them: `sorted` by weight,
      which is stable. */
  function Edges(points: seq<Point>): (r: seq<Edge>)
    ensures multiset(r) == multiset(Pairs(|points|))
    ensures Sorting.SortedBy(r, Weight(points))
  {
    Sorting.SortBy(Pairs(|points|), Weight(points))
  }

  /** Every edge to process is a pair of boxes. */
  lemma EdgesArePairs(points: seq<Point>)
    ensures forall e :: e in Edges(points) <==> e.p1 < e.p2 < |points|
  {
    var r := Edges(points);
    forall e ensures e in r <==> e in Pairs(|points|) {
      assert e in r <==> e in multiset(r);
    }
  }

  /** No pair comes twice. */
  lemma EdgesDistinct(points: seq<Point>)
    ensures forall a, b :: 0 <= a < b < |Edges(points)| ==> Edges(points)[a] != Edges(points)[b]
  {
    var r := Edges(points);
    forall a, b | 0 <= a < b < |r| ensures r[a] != r[b] {
      if r[a] == r[b] {
        Twice(r, a, b);
        Once(Pairs(|points|), r[a]);
      }
    }
  }

  lemma Twice(r: seq<Edge>, a: nat, b: nat)
    requires a < b < |r| && r[a] == r[b]
    ensures multiset(r)[r[a]] >= 2
  {
    var e := r[a];
    assert r == r[..a] + [e] + r[a + 1..b] + [e] + r[b + 1..];
  }

  /** In a strictly ordered sequence each element occurs once. */
  lemma {:induction false} Once(s: seq<Edge>, e: Edge)
    requires forall a, b :: 0 <= a < b < |s| ==> Before(s[a], s[b])
    ensures multiset(s)[e] <= 1
  {
    if s != [] {
      Once(s[1..], e);
      assert s == [s[0]] + s[1..];
      if s[0] == e {
        assert e !in s[1..] by {
          forall k | 0 <= k < |s[1..]| ensures s[1..][k] != e {
            assert Before(s[0], s[k + 1]);
          }
        }
      }
    }
  }

  // ---------------------------------------------------------------------
  // Circuits
  // ---------------------------------------------------------------------

  /** `find_sets(p, sets)`: the index of the first circuit holding `p`. */
  function FindSet(p: nat, sets: seq<Circuit>): (r: Result<nat, Error>)
    ensures r.Ok? ==> r.value < |sets| && p in sets[r.value]
                      && forall k :: 0 <= k < r.value ==> p !in sets[k]
    ensures r.Err? ==> r.error == NotFound(p) && forall k :: 0 <= k < |sets| ==> p !in sets[k]
  {
    if sets == [] then Err(NotFound(p))
    else if p in sets[0] then Ok(0)
    else
      match FindSet(p, sets[1..])
      case Ok(i) =>
        assert forall k :: 1 <= k <= i ==> sets[k] == sets[1..][k - 1];
        Ok(i + 1)
      case Err(e) =>
        assert forall k :: 1 <= k < |sets| ==> sets[k] == sets[1..][k - 1];
        Err(e)
  }

  /** `p` and `q` are found in the same circuit. */
  predicate Together(c: seq<Circuit>, p: nat, q: nat) {
    FindSet(p, c).Ok? && FindSet(p, c) == FindSet(q, c)
  }

  ghost predicate Disjoint(c: seq<Circuit>) {
    forall a, b :: 0 <= a < b < |c| ==> c[a] !! c[b]
  }

  /** `c` splits the boxes `0 .. n-1` into non-empty, disjoint circuits. */
  ghost predicate Partition(c: seq<Circuit>, n: nat) {
    && (forall k :: 0 <= k < |c| ==> c[k] != {})
    && Disjoint(c)
    && (forall k, p :: 0 <= k < |c| && p in c[k] ==> p < n)
    && (forall p: nat :: p < n ==> FindSet(p, c).Ok?)
  }

  /** In disjoint circuits a box is found in the one circuit holding it. */
  lemma FindUnique(c: seq<Circuit>, p: nat, k: nat)
    requires Disjoint(c) && k < |c| && p in c[k]
    ensures FindSet(p, c) == Ok(k)
  {
  }

  /** `[set([p]) for p in points]`: one circuit per box. */
  function Start(n: nat): (r: seq<Circuit>)
    ensures |r| == n && forall k :: 0 <= k < n ==> r[k] == {k}
  {
    seq(n, k => {k})
  }

  lemma StartPartition(n: nat)
    ensures Partition(Start(n), n)
    ensures forall p: nat, q: nat :: p < n && q < n ==> (Together(Start(n), p, q) <==> p == q)
  {
    var c := Start(n);
    forall p: nat | p < n ensures FindSet(p, c) == Ok(p) {
      FindUnique(c, p, p);
    }
  }

  /** `del s[k]`. */
  function Delete(s: seq<Circuit>, k: nat): (r: seq<Circuit>)
    requires k < |s|
    ensures |r| == |s| - 1
    ensures forall m :: 0 <= m < |r| ==> r[m] == if m < k then s[m] else s[m + 1]
  {
    s[..k] + s[k + 1..]
  }

  /** The loop body's update of `circuits` on an edge joining circuits `i`
      and `j`: the later of the two is deleted first, then the earlier,
      and their union is appended. */
  function Merge(c: seq<Circuit>, i: nat, j: nat): seq<Circuit>
    requires i < |c| && j < |c| && i != j
  {
    var rest := if j < i then Delete(Delete(c, i), j) else Delete(Delete(c, j), i);
    rest + [c[i] + c[j]]
  }

  /** Where circuit `k`, other than `i` and `j`, lands after the merge. */
  function Rank(k: nat, i: nat, j: nat): nat
    requires i != j
  {
    k - (if i < k then 1 else 0) - (if j < k then 1 else 0)
  }

  /** The circuit that lands at `m`, the inverse of `Rank`. */
  function Unrank(m: nat, i: nat, j: nat): nat {
    var lo := if i < j then i else j;
    var hi := if i < j then j else i;
    if m < lo then m else if m + 1 < hi then m + 1 else m + 2
  }

  /** Deleting the later index, then the earlier one. */
  lemma DeleteTwo(c: seq<Circuit>, lo: nat, hi: nat)
    requires lo < hi < |c|
    ensures |Delete(Delete(c, hi), lo)| == |c| - 2
    ensures forall m :: 0 <= m < |c| - 2 ==>
              Delete(Delete(c, hi), lo)[m] == c[if m < lo then m else if m + 1 < hi then m + 1 else m + 2]
  {
  }

  /** The merge keeps every other circuit, in order, and puts the union last. */
  lemma MergeAt(c: seq<Circuit>, i: nat, j: nat)
    requires i < |c| && j < |c| && i != j
    ensures |Merge(c, i, j)| == |c| - 1
    ensures Merge(c, i, j)[|c| - 2] == c[i] + c[j]
    ensures forall m :: 0 <= m < |c| - 2 ==> Merge(c, i, j)[m] == c[Unrank(m, i, j)]
  {
    if j < i {
      DeleteTwo(c, j, i);
    } else {
      DeleteTwo(c, i, j);
    }
  }

  lemma RankUnrank(n: nat, i: nat, j: nat)
    requires i < n && j < n && i != j
    ensures forall m :: 0 <= m < n - 2 ==> var k := Unrank(m, i, j);
              k < n && k != i && k != j && Rank(k, i, j) == m
    ensures forall k :: 0 <= k < n && k != i && k != j ==> Rank(k, i, j) < n - 2 && Unrank(Rank(k, i, j), i, j) == k
  {
  }

  /** After a merge the circuits stay disjoint. */
  lemma MergeDisjoint(c: seq<Circuit>, i: nat, j: nat)
    requires Disjoint(c) && i < |c| && j < |c| && i != j
    ensures Disjoint(Merge(c, i, j))
  {
    var m := Merge(c, i, j);
    MergeAt(c, i, j);
    RankUnrank(|c|, i, j);
    forall a, b | 0 <= a < b < |m| ensures m[a] !! m[b] {
      var x := Unrank(a, i, j);
      if b == |c| - 2 {
        assert c[x] !! c[i] && c[x] !! c[j];
      } else {
        var y := Unrank(b, i, j);
        assert x < y;
        assert c[x] !! c[y];
      }
    }
  }

  /** Each box is found where its old circuit went: in the union if that
      was `i` or `j`. */
  lemma MergeFindAt(c: seq<Circuit>, i: nat, j: nat, p: nat, k: nat)
    requires Disjoint(c) && i < |c| && j < |c| && i != j
    requires k < |c| && p in c[k]
    ensures FindSet(p, Merge(c, i, j)) == Ok(if k == i || k == j then |c| - 2 else Rank(k, i, j))
  {
    if k == i || k == j {
      MergeFindUnion(c, i, j, p, k);
    } else {
      MergeFindRest(c, i, j, p, k);
    }
  }

  lemma MergeFindUnion(c: seq<Circuit>, i: nat, j: nat, p: nat, k: nat)
    requires Disjoint(c) && i < |c| && j < |c| && i != j
    requires (k == i || k == j) && p in c[k]
    ensures FindSet(p, Merge(c, i, j)) == Ok(|c| - 2)
  {
    MergeAt(c, i, j);
    MergeDisjoint(c, i, j);
    FindUnique(Merge(c, i, j), p, |c| - 2);
  }

  lemma MergeFindRest(c: seq<Circuit>, i: nat, j: nat, p: nat, k: nat)
    requires Disjoint(c) && i < |c| && j < |c| && i != j
    requires k < |c| && k != i && k != j && p in c[k]
    ensures FindSet(p, Merge(c, i, j)) == Ok(Rank(k, i, j))
  {
    var r := Rank(k, i, j);
    RankBack(|c|, i, j, k);
    MergeAt(c, i, j);
    MergeDisjoint(c, i, j);
    assert Merge(c, i, j)[r] == c[k];
    FindUnique(Merge(c, i, j), p, r);
  }

  lemma RankBack(n: nat, i: nat, j: nat, k: nat)
    requires i < n && j < n && i != j && k < n && k != i && k != j
    ensures Rank(k, i, j) < n - 2 && Unrank(Rank(k, i, j), i, j) == k
  {
  }

  /** After a merge two boxes are together if they were, or if both were
      in one of the two merged circuits. */
  lemma MergeTogether(c: seq<Circuit>, i: nat, j: nat, u: nat, v: nat)
    requires Disjoint(c) && i < |c| && j < |c| && i != j
    requires FindSet(u, c).Ok? && FindSet(v, c).Ok?
    ensures Together(Merge(c, i, j), u, v)
            <==> Together(c, u, v) || (FindSet(u, c).value in {i, j} && FindSet(v, c).value in {i, j})
  {
    var a := FindSet(u, c).value;
    var b := FindSet(v, c).value;
    MergeFindAt(c, i, j, u, a);
    MergeFindAt(c, i, j, v, b);
    RankUnrank(|c|, i, j);
    if a != i && a != j && b != i && b != j {
      assert Unrank(Rank(a, i, j), i, j) == a;
      assert Unrank(Rank(b, i, j), i, j) == b;
    }
  }

  /** A merge of two circuits of a partition is a partition with one
      circuit fewer. */
  lemma MergePartition(c: seq<Circuit>, n: nat, i: nat, j: nat)
    requires Partition(c, n) && i < |c| && j < |c| && i != j
    ensures Partition(Merge(c, i, j), n) && |Merge(c, i, j)| == |c| - 1
  {
    var m := Merge(c, i, j);
    MergeAt(c, i, j);
    MergeDisjoint(c, i, j);
    RankUnrank(|c|, i, j);
    forall k | 0 <= k < |m| ensures m[k] != {} {
      if k < |c| - 2 {
        assert m[k] == c[Unrank(k, i, j)];
      }
    }
    forall k, p | 0 <= k < |m| && p in m[k] ensures p < n {
      if k < |c| - 2 {
        assert p in c[Unrank(k, i, j)];
      }
    }
    forall p: nat | p < n ensures FindSet(p, m).Ok? {
      MergeFindAt(c, i, j, p, FindSet(p, c).value);
    }
  }

  // ---------------------------------------------------------------------
  // Connectivity
  // ---------------------------------------------------------------------

  /** An edge of `es` joins `a` and `b`, either way round. */
  predicate Joins(es: seq<Edge>, a: nat, b: nat) {
    Edge(a, b) in es || Edge(b, a) in es
  }

  /** `path` steps along edges of `es` only. */
  ghost predicate Walk(es: seq<Edge>, path: seq<nat>) {
    |path| >= 1 && forall k :: 0 <= k < |path| - 1 ==> Joins(es, path[k], path[k + 1])
  }

  /** The edges `es` connect `u` to `v`. */
  ghost predicate Linked(es: seq<Edge>, u: nat, v: nat) {
    exists path :: Walk(es, path) && path[0] == u && path[|path| - 1] == v
  }

  lemma LinkedSelf(es: seq<Edge>, u: nat)
    ensures Linked(es, u, u)
  {
    assert Walk(es, [u]);
  }

  /** More edges connect at least as much. */
  lemma LinkedGrow(es: seq<Edge>, e: Edge, u: nat, v: nat)
    requires Linked(es, u, v)
    ensures Linked(es + [e], u, v)
  {
    var path :| Walk(es, path) && path[0] == u && path[|path| - 1] == v;
    assert Walk(es + [e], path);
  }

  /** A walk to `a`, an edge from `a` to `b` and a walk from `b` make a walk. */
  lemma LinkedVia(es: seq<Edge>, u: nat, a: nat, b: nat, v: nat)
    requires Linked(es, u, a) && Joins(es, a, b) && Linked(es, b, v)
    ensures Linked(es, u, v)
  {
    var p :| Walk(es, p) && p[0] == u && p[|p| - 1] == a;
    var q :| Walk(es, q) && q[0] == b && q[|q| - 1] == v;
    var path := p + q;
    forall k | 0 <= k < |path| - 1 ensures Joins(es, path[k], path[k + 1]) {
      if k < |p| - 1 {
        assert path[k] == p[k] && path[k + 1] == p[k + 1];
      } else if k == |p| - 1 {
        assert path[k] == a && path[k + 1] == b;
      } else {
        assert path[k] == q[k - |p|] && path[k + 1] == q[k - |p| + 1];
      }
    }
    assert Walk(es, path);
  }

  /** When every edge of `es` lies inside a circuit, a walk never leaves
      the circuit it starts in. */
  lemma {:induction false} WalkTogether(c: seq<Circuit>, es: seq<Edge>, path: seq<nat>)
    requires forall e :: e in es ==> Together(c, e.p1, e.p2)
    requires Walk(es, path) && |path| >= 2
    ensures Together(c, path[0], path[|path| - 1])
    decreases |path|
  {
    var a, b := path[0], path[1];
    assert Joins(es, a, b);
    assert Together(c, a, b) by {
      if Edge(a, b) !in es {
        assert Edge(b, a) in es;
      }
    }
    if |path| > 2 {
      var rest := path[1..];
      assert Walk(es, rest) by {
        forall k | 0 <= k < |rest| - 1 ensures Joins(es, rest[k], rest[k + 1]) {
          assert rest[k] == path[k + 1] && rest[k + 1] == path[k + 2];
        }
      }
      WalkTogether(c, es, rest);
    }
  }

  /** Soundness gives the other half: linked boxes are together. */
  lemma LinkedTogether(c: seq<Circuit>, n: nat, es: seq<Edge>, u: nat, v: nat)
    requires Partition(c, n) && u < n
    requires forall e :: e in es ==> Together(c, e.p1, e.p2)
    requires Linked(es, u, v)
    ensures Together(c, u, v)
  {
    var path :| Walk(es, path) && path[0] == u && path[|path| - 1] == v;
    if |path| >= 2 {
      WalkTogether(c, es, path);
    }
  }

  // ---------------------------------------------------------------------
  // The merge loop
  // ---------------------------------------------------------------------

  /** What the merge loop keeps: the circuits, the edges accepted into
      `forest`, and the last accepted edge (part 2 reads its boxes'
      x coordinates). */
  datatype Kruskal = Kruskal(circuits: seq<Circuit>, forest: set<Edge>, last: Option<Edge>)

  /** Before any edge: one circuit per box. */
  function Initial(n: nat): Kruskal {
    Kruskal(Start(n), {}, None)
  }

  /** One turn of the loop on `e`: look both boxes up and, when they are in
      different circuits, accept the edge and merge the circuits. */
  function Step(s: Kruskal, e: Edge): Result<Kruskal, Error> {
    var i :- FindSet(e.p1, s.circuits);
    var j :- FindSet(e.p2, s.circuits);
    if i != j then Ok(Kruskal(Merge(s.circuits, i, j), s.forest + {e}, Some(e)))
    else Ok(s)
  }

  /** Part 1's loop: every edge of `es`, in order. */
  function Run(s: Kruskal, es: seq<Edge>): Result<Kruskal, Error> {
    if es == [] then Ok(s)
    else
      var t :- Run(s, es[..|es| - 1]);
      Step(t, es[|es| - 1])
  }

  /** Part 2's loop: the edges of `es` in order, leaving the loop before
      the first edge that finds a single circuit. */
  function RunUntilOne(s: Kruskal, es: seq<Edge>): Result<Kruskal, Error> {
    if es == [] then Ok(s)
    else
      var t :- RunUntilOne(s, es[..|es| - 1]);
      if |t.circuits| == 1 then Ok(t) else Step(t, es[|es| - 1])
  }

  /** The shape of a loop state over `n` boxes: the circuits are a
      partition, and every accepted edge removed one circuit. */
  ghost predicate Shape(n: nat, s: Kruskal) {
    && Partition(s.circuits, n)
    && |s.forest| + |s.circuits| == n
    && (s.last.Some? ==> s.last.value in s.forest)
    && (s.last.None? <==> s.forest == {})
  }

  /** The circuits of `s` are the connected components of the processed
      edges `es`: every processed edge lies inside a circuit, the boxes of
      a circuit are connected by processed edges, and the forest holds
      processed edges only. */
  ghost predicate Covers(es: seq<Edge>, s: Kruskal) {
    && (forall e :: e in es ==> Together(s.circuits, e.p1, e.p2))
    && (forall u: nat, v: nat :: Together(s.circuits, u, v) ==> Linked(es, u, v))
    && (forall e :: e in s.forest ==> e in es)
  }

  lemma InitialValid(n: nat)
    ensures Shape(n, Initial(n)) && Covers([], Initial(n))
  {
    StartPartition(n);
    forall u: nat, v: nat | Together(Start(n), u, v) ensures Linked([], u, v) {
      assert u == v;
      LinkedSelf([], u);
    }
  }

  /** An edge inside a circuit changes nothing. */
  lemma StepKeep(n: nat, es: seq<Edge>, s: Kruskal, e: Edge)
    requires Shape(n, s) && Covers(es, s) && Together(s.circuits, e.p1, e.p2)
    ensures Step(s, e) == Ok(s) && Covers(es + [e], s)
  {
    forall u: nat, v: nat | Together(s.circuits, u, v) ensures Linked(es + [e], u, v) {
      LinkedGrow(es, e, u, v);
    }
  }

  /** An edge between two circuits merges them: one circuit fewer, one
      more forest edge. */
  lemma StepMergeShape(n: nat, es: seq<Edge>, s: Kruskal, e: Edge)
    requires Shape(n, s) && Covers(es, s) && e.p1 < n && e.p2 < n
    requires !Together(s.circuits, e.p1, e.p2)
    ensures Step(s, e).Ok? && Shape(n, Step(s, e).value)
    ensures |Step(s, e).value.circuits| == |s.circuits| - 1 && Step(s, e).value.last == Some(e)
  {
    var i := FindSet(e.p1, s.circuits).value;
    var j := FindSet(e.p2, s.circuits).value;
    MergePartition(s.circuits, n, i, j);
    assert e !in s.forest;
  }

  lemma StepMergeCovers(n: nat, es: seq<Edge>, s: Kruskal, e: Edge)
    requires Shape(n, s) && Covers(es, s) && e.p1 < n && e.p2 < n
    requires !Together(s.circuits, e.p1, e.p2)
    ensures Step(s, e).Ok? && Covers(es + [e], Step(s, e).value)
  {
    var c := s.circuits;
    var i := FindSet(e.p1, c).value;
    var j := FindSet(e.p2, c).value;
    var m := Merge(c, i, j);
    MergePartition(c, n, i, j);
    var es' := es + [e];
    forall f | f in es' ensures Together(m, f.p1, f.p2) {
      MergeTogether(c, i, j, f.p1, f.p2);
    }
    forall u: nat, v: nat | Together(m, u, v) ensures Linked(es', u, v) {
      MergeTogether(c, i, j, u, v);
      if Together(c, u, v) {
        LinkedGrow(es, e, u, v);
      } else {
        assert Edge(e.p1, e.p2) in es';
        if FindSet(u, c).value == i {
          LinkedGrow(es, e, u, e.p1);
          LinkedGrow(es, e, e.p2, v);
          LinkedVia(es', u, e.p1, e.p2, v);
        } else {
          LinkedGrow(es, e, u, e.p2);
          LinkedGrow(es, e, e.p1, v);
          LinkedVia(es', u, e.p2, e.p1, v);
        }
      }
    }
  }

  /** One turn keeps the invariant and says what it did. */
  lemma StepValid(n: nat, es: seq<Edge>, s: Kruskal, e: Edge)
    requires Shape(n, s) && Covers(es, s) && e.p1 < n && e.p2 < n
    ensures Step(s, e).Ok? && Shape(n, Step(s, e).value) && Covers(es + [e], Step(s, e).value)
    ensures Together(s.circuits, e.p1, e.p2) ==> Step(s, e).value == s
    ensures !Together(s.circuits, e.p1, e.p2) ==>
              |Step(s, e).value.circuits| == |s.circuits| - 1 && Step(s, e).value.last == Some(e)
  {
    if Together(s.circuits, e.p1, e.p2) {
      StepKeep(n, es, s, e);
    } else {
      StepMergeShape(n, es, s, e);
      StepMergeCovers(n, es, s, e);
    }
  }

  // ---------------------------------------------------------------------
  // What the loop computes
  // ---------------------------------------------------------------------

  /** Every edge of `es` joins two of the `n` boxes. */
  ghost predicate InRange(n: nat, es: seq<Edge>) {
    forall e :: e in es ==> e.p1 < n && e.p2 < n
  }

  lemma InRangePrefix(n: nat, es: seq<Edge>, k: nat)
    requires InRange(n, es) && k <= |es|
    ensures InRange(n, es[..k])
  {
    forall e | e in es[..k] ensures e.p1 < n && e.p2 < n {
      var i :| 0 <= i < k && es[..k][i] == e;
      assert es[i] == e;
    }
  }

  /** The loop over edges that join boxes never fails, and keeps its
      invariant. */
  lemma {:induction false} RunValid(n: nat, es: seq<Edge>)
    requires InRange(n, es)
    ensures Run(Initial(n), es).Ok?
    ensures Shape(n, Run(Initial(n), es).value) && Covers(es, Run(Initial(n), es).value)
  {
    if es == [] {
      InitialValid(n);
    } else {
      var pre := es[..|es| - 1];
      var e := es[|es| - 1];
      assert es == pre + [e];
      InRangePrefix(n, es, |es| - 1);
      RunValid(n, pre);
      StepValid(n, pre, Run(Initial(n), pre).value, e);
    }
  }

  /** The circuits the loop builds are the connected components of the
      edges it has seen. */
  lemma Components(n: nat, es: seq<Edge>, u: nat, v: nat)
    requires InRange(n, es) && u < n
    ensures Run(Initial(n), es).Ok?
    ensures Together(Run(Initial(n), es).value.circuits, u, v) <==> Linked(es, u, v)
  {
    RunValid(n, es);
    var t := Run(Initial(n), es).value;
    if Linked(es, u, v) {
      LinkedTogether(t.circuits, n, es, u, v);
    }
  }

  /** One edge makes a connection on its own. */
  lemma LinkedEdge(es: seq<Edge>, a: nat, b: nat)
    requires Joins(es, a, b)
    ensures Linked(es, a, b)
  {
    LinkedSelf(es, a);
    LinkedSelf(es, b);
    LinkedVia(es, a, a, b, b);
  }

  /** With a single circuit, any two boxes are together. */
  lemma OneTogether(c: seq<Circuit>, n: nat, u: nat, v: nat)
    requires Partition(c, n) && |c| == 1 && u < n && v < n
    ensures Together(c, u, v)
  {
  }

  /** When box 0 is together with every box, `j` is the circuit of box 0. */
  lemma OnlyIndex(c: seq<Circuit>, n: nat, k: nat, j: nat)
    requires Partition(c, n) && FindSet(0, c) == Ok(k) && j < |c|
    requires forall v: nat :: v < n ==> Together(c, 0, v)
    ensures j == k
  {
    var v :| v in c[j];
    FindUnique(c, v, j);
    assert Together(c, 0, v);
  }

  /** When box 0 is together with every box, there is one circuit. */
  lemma AllTogether(c: seq<Circuit>, n: nat)
    requires Partition(c, n) && n >= 1
    requires forall v: nat :: v < n ==> Together(c, 0, v)
    ensures |c| == 1
  {
    var k := FindSet(0, c).value;
    OnlyIndex(c, n, k, 0);
    OnlyIndex(c, n, k, |c| - 1);
  }

  /** Once every pair of boxes has been seen, one circuit holds them all. */
  lemma AllPairsJoin(n: nat, es: seq<Edge>)
    requires n >= 1 && InRange(n, es)
    requires forall e: Edge :: e.p1 < e.p2 < n ==> e in es
    ensures Run(Initial(n), es).Ok? && |Run(Initial(n), es).value.circuits| == 1
  {
    RunValid(n, es);
    var c := Run(Initial(n), es).value.circuits;
    forall v: nat | v < n ensures Together(c, 0, v) {
      if v != 0 {
        assert Edge(0, v) in es;
        LinkedEdge(es, 0, v);
        Components(n, es, 0, v);
      }
    }
    AllTogether(c, n);
  }

  /** Stopping at a single circuit changes nothing: from then on every edge
      lies inside it. */
  lemma {:induction false} UntilOneIsRun(n: nat, es: seq<Edge>)
    requires InRange(n, es)
    ensures RunUntilOne(Initial(n), es) == Run(Initial(n), es)
  {
    if es != [] {
      var pre := es[..|es| - 1];
      var e := es[|es| - 1];
      InRangePrefix(n, es, |es| - 1);
      UntilOneIsRun(n, pre);
      RunValid(n, pre);
      var t := Run(Initial(n), pre).value;
      if |t.circuits| == 1 {
        assert e in es;
        OneTogether(t.circuits, n, e.p1, e.p2);
        StepKeep(n, pre, t, e);
      }
    }
  }

  /** After a single circuit is left, later edges are not looked at. */
  lemma {:induction false} UntilOneStays(s: Kruskal, es: seq<Edge>, i: nat)
    requires i <= |es| && RunUntilOne(s, es[..i]).Ok? && |RunUntilOne(s, es[..i]).value.circuits| == 1
    ensures RunUntilOne(s, es) == RunUntilOne(s, es[..i])
    decreases |es| - i
  {
    if i < |es| {
      var pre := es[..|es| - 1];
      assert pre[..i] == es[..i];
      UntilOneStays(s, pre, i);
    } else {
      assert es[..i] == es;
    }
  }

  /** `es[k]` is the last edge the loop over `es` accepted, ending in `t`:
      just before it there was one circuit more, and after it nothing
      changed. */
  ghost predicate LastAt(n: nat, es: seq<Edge>, k: int, t: Kruskal) {
    && 0 <= k < |es|
    && t.last == Some(es[k])
    && Run(Initial(n), es[..k]).Ok?
    && |Run(Initial(n), es[..k]).value.circuits| == |t.circuits| + 1
    && Run(Initial(n), es[..k + 1]) == Ok(t)
  }

  lemma LastAtGrow(n: nat, es: seq<Edge>, e: Edge, k: int, t: Kruskal)
    requires LastAt(n, es, k, t)
    ensures LastAt(n, es + [e], k, t)
  {
    var es' := es + [e];
    assert es'[..k] == es[..k] && es'[..k + 1] == es[..k + 1];
  }

  lemma LastAtEnd(n: nat, es: seq<Edge>, e: Edge, t: Kruskal)
    requires Run(Initial(n), es).Ok? && Run(Initial(n), es + [e]) == Ok(t)
    requires t.last == Some(e) && |Run(Initial(n), es).value.circuits| == |t.circuits| + 1
    ensures LastAt(n, es + [e], |es|, t)
  {
    var es' := es + [e];
    assert es'[..|es|] == es && es'[..|es| + 1] == es';
  }

  /** The last accepted edge is the one that brought the circuits down to
      their final number, and no later edge changed them. */
  lemma {:induction false} LastMerge(n: nat, es: seq<Edge>)
    requires InRange(n, es)
    ensures Run(Initial(n), es).Ok?
    ensures Run(Initial(n), es).value.last.Some? ==>
              exists k :: LastAt(n, es, k, Run(Initial(n), es).value)
  {
    RunValid(n, es);
    if es != [] {
      var pre := es[..|es| - 1];
      var e := es[|es| - 1];
      assert es == pre + [e];
      InRangePrefix(n, es, |es| - 1);
      RunValid(n, pre);
      var t := Run(Initial(n), pre).value;
      StepValid(n, pre, t, e);
      if Together(t.circuits, e.p1, e.p2) {
        LastMerge(n, pre);
        if t.last.Some? {
          var k :| LastAt(n, pre, k, t);
          LastAtGrow(n, pre, e, k, t);
        }
      } else {
        LastAtEnd(n, pre, e, Step(t, e).value);
      }
    }
  }

  // ---------------------------------------------------------------------
  // The answers
  // ---------------------------------------------------------------------

  /** `s[:k]`. */
  function Prefix<T>(s: seq<T>, k: nat): (r: seq<T>)
    ensures |r| == if k < |s| then k else |s|
    ensures forall i :: 0 <= i < |r| ==> r[i] == s[i]
  {
    if k < |s| then s[..k] else s
  }

  /** `sorted(circuits, key=lambda s: len(s), reverse=True)`: the same
      circuits, largest first. */
  function BySize(c: seq<Circuit>): (r: seq<Circuit>)
    ensures multiset(r) == multiset(c)
    ensures forall a, b :: 0 <= a < b < |r| ==> |r[a]| >= |r[b]|
  {
    var r := Sorting.SortBy(c, (s: Circuit) => -|s|);
    assert forall a, b :: 0 <= a < b < |r| ==> -|r[a]| <= -|r[b]|;
    r
  }

  /** `[len(s) for s in circuits]`. */
  function Sizes(c: seq<Circuit>): (r: seq<int>)
    ensures |r| == |c| && forall k :: 0 <= k < |c| ==> r[k] == |c[k]|
  {
    seq(|c|, k requires 0 <= k < |c| => |c[k]|)
  }

  /** The product of `xs`, first factor outermost; 1 for no factors. */
  function Prod(xs: seq<int>): int {
    if xs == [] then 1 else xs[0] * Prod(xs[1..])
  }

  /** `reduce(lambda x, y: x * y, xs)`: a left fold seeded with the first
      element, which raises on an empty list. */
  function Product(xs: seq<int>): (r: Result<int, Error>)
    ensures r.Ok? <==> xs != []
    ensures r.Err? ==> r.error == EmptyProduct
  {
    if xs == [] then Err(EmptyProduct)
    else if |xs| == 1 then Ok(xs[0])
    else
      var p :- Product(xs[..|xs| - 1]);
      Ok(p * xs[|xs| - 1])
  }

  lemma {:induction false} ProdSnoc(xs: seq<int>, x: int)
    ensures Prod(xs + [x]) == Prod(xs) * x
  {
    if xs != [] {
      assert (xs + [x])[1..] == xs[1..] + [x];
      ProdSnoc(xs[1..], x);
      assert xs[0] * (Prod(xs[1..]) * x) == (xs[0] * Prod(xs[1..])) * x;
    }
  }

  /** The fold from the left multiplies the same factors as the product. */
  lemma {:induction false} ProductIsProd(xs: seq<int>)
    requires xs != []
    ensures Product(xs) == Ok(Prod(xs))
  {
    if |xs| > 1 {
      var pre := xs[..|xs| - 1];
      ProductIsProd(pre);
      assert xs == pre + [xs[|xs| - 1]];
      ProdSnoc(pre, xs[|xs| - 1]);
    } else {
      assert xs[1..] == [];
    }
  }

  /** Part 1: the first 1000 edges, then the product of the sizes of the
      three largest circuits. */
  function Answer1(input: string): Result<int, Error> {
    var points :- Points(input);
    var t :- Run(Initial(|points|), Prefix(Edges(points), 1000));
    Product(Sizes(Prefix(BySize(t.circuits), 3)))
  }

  /** The boxes of a readable input: there is at least one. */
  lemma PointsNonEmpty(input: string)
    requires Points(input).Ok?
    ensures |Points(input).value| >= 1
  {
  }

  /** The edges join boxes. */
  lemma EdgesInRange(points: seq<Point>, k: nat)
    ensures InRange(|points|, Prefix(Edges(points), k))
  {
    EdgesArePairs(points);
    var es := Edges(points);
    forall e | e in Prefix(es, k) ensures e.p1 < |points| && e.p2 < |points| {
      var i :| 0 <= i < |Prefix(es, k)| && Prefix(es, k)[i] == e;
      assert es[i] == e;
    }
  }

  /** A partition of at least one box has at least one circuit. */
  lemma SomeCircuit(c: seq<Circuit>, n: nat)
    requires Partition(c, n) && n >= 1
    ensures |c| >= 1
  {
    assert FindSet(0, c).Ok?;
  }

  /** Part 1 fails only on unreadable input: with at least one box there is
      at least one circuit, so the product has a factor. */
  lemma Answer1Ok(input: string)
    ensures Answer1(input).Ok? <==> Points(input).Ok?
  {
    if Points(input).Ok? {
      var points := Points(input).value;
      var n := |points|;
      PointsNonEmpty(input);
      var es := Prefix(Edges(points), 1000);
      EdgesInRange(points, 1000);
      RunValid(n, es);
      SomeCircuit(Run(Initial(n), es).value.circuits, n);
    }
  }

  /** Part 2: all edges, stopping at one circuit; the product of the x
      coordinates of the boxes of the last accepted edge. */
  function Answer2(input: string): Result<int, Error> {
    var points :- Points(input);
    LastProduct(points)
  }

  /** Part 2 on the boxes read. */
  function LastProduct(points: seq<Point>): Result<int, Error> {
    var n := |points|;
    var es := Edges(points);
    EdgesInRange(points, |es|);
    assert Prefix(es, |es|) == es;
    UntilOneIsRun(n, es);
    RunValid(n, es);
    var t := RunUntilOne(Initial(n), es).value;
    match t.last
    case None => Err(NoConnection)
    case Some(e) =>
      assert e in es;
      Ok(points[e.p1].x * points[e.p2].x)
  }

  /** `Edges(points)[k]` is the edge that joined the last two circuits into
      one, and `x` is the product of its boxes' x coordinates. */
  ghost predicate Closing(points: seq<Point>, k: int, x: int) {
    var n := |points|;
    var es := Edges(points);
    && 0 <= k < |es|
    && es[k].p1 < n && es[k].p2 < n
    && Run(Initial(n), es[..k]).Ok? && |Run(Initial(n), es[..k]).value.circuits| == 2
    && Run(Initial(n), es[..k + 1]).Ok? && |Run(Initial(n), es[..k + 1]).value.circuits| == 1
    && x == points[es[k].p1].x * points[es[k].p2].x
  }

  /** Part 2 answers for two or more boxes, with the edge that made the
      circuits one; a single box never connects anything. */
  lemma Answer2Closing(input: string)
    requires Points(input).Ok?
    ensures |Points(input).value| == 1 ==> Answer2(input) == Err(NoConnection)
    ensures |Points(input).value| >= 2 ==>
              Answer2(input).Ok? && exists k :: Closing(Points(input).value, k, Answer2(input).value)
  {
    var points := Points(input).value;
    var n := |points|;
    var es := Edges(points);
    PointsNonEmpty(input);
    EdgesInRange(points, |es|);
    assert Prefix(es, |es|) == es;
    UntilOneIsRun(n, es);
    RunValid(n, es);
    var t := Run(Initial(n), es).value;
    SomeCircuit(t.circuits, n);
    if n >= 2 {
      EdgesArePairs(points);
      AllPairsJoin(n, es);
      assert t.forest != {};
      LastMerge(n, es);
      var k :| LastAt(n, es, k, t);
      assert es[k] in es;
      assert Closing(points, k, Answer2(input).value);
    }
  }

  // ---------------------------------------------------------------------
  // The solver's loops
  // ---------------------------------------------------------------------

  /** `find_sets`: a scan for the first circuit holding `p`. */
  method Find(p: nat, sets: seq<Circuit>) returns (r: Result<nat, Error>)
    ensures r == FindSet(p, sets)
  {
    for idx := 0 to |sets|
      invariant forall k :: 0 <= k < idx ==> p !in sets[k]
    {
      if p in sets[idx] {
        return Ok(idx);
      }
    }
    return Err(NotFound(p));
  }

  /** The body of both loops: look both boxes up and, when they are in
      different circuits, add the edge to the forest and replace the two
      circuits by their union, appended at the end. `accepted` tells
      whether it did. */
  method Connect(circuits: seq<Circuit>, forest: set<Edge>, ghost last: Option<Edge>, e: Edge)
    returns (r: Result<(seq<Circuit>, set<Edge>, bool), Error>)
    ensures r.Ok? <==> Step(Kruskal(circuits, forest, last), e).Ok?
    ensures r.Err? ==> r.error == Step(Kruskal(circuits, forest, last), e).error
    ensures r.Ok? ==> (r.value.2 <==> !Together(circuits, e.p1, e.p2))
    ensures r.Ok? ==> Step(Kruskal(circuits, forest, last), e).value
                      == Kruskal(r.value.0, r.value.1, if r.value.2 then Some(e) else last)
  {
    var idx1 :- Find(e.p1, circuits);
    var idx2 :- Find(e.p2, circuits);
    if idx1 == idx2 {
      return Ok((circuits, forest, false));
    }
    var merged := circuits[idx1] + circuits[idx2];
    var c := circuits;
    if idx2 < idx1 {
      c := Delete(c, idx1);
      c := Delete(c, idx2);
    } else {
      c := Delete(c, idx2);
      c := Delete(c, idx1);
    }
    c := c + [merged];
    return Ok((c, forest + {e}, true));
  }

  /** One turn of part 1's loop. */
  lemma RunNext(n: nat, es: seq<Edge>, i: nat, s: Kruskal)
    requires InRange(n, es) && i < |es|
    requires Run(Initial(n), es[..i]) == Ok(s)
    ensures Step(s, es[i]).Ok? && Run(Initial(n), es[..i + 1]) == Step(s, es[i])
  {
    assert es[..i + 1][..i] == es[..i];
    InRangePrefix(n, es, i);
    RunValid(n, es[..i]);
    assert es[i] in es;
    StepValid(n, es[..i], s, es[i]);
  }

  /** `Answer1` read off the final state of part 1's loop. */
  lemma Answer1Of(input: string, points: seq<Point>, t: Kruskal)
    requires Points(input) == Ok(points)
    requires Run(Initial(|points|), Prefix(Edges(points), 1000)) == Ok(t)
    ensures Answer1(input) == Product(Sizes(Prefix(BySize(t.circuits), 3)))
  {
  }

  /** `part1`: answers `Answer1`. */
  method Part1(input: string) returns (r: Result<string, Error>)
    ensures Answer1(input).Ok? ==> r == Ok(Text.Show(Answer1(input).value))
    ensures Answer1(input).Err? ==> r == Err(Answer1(input).error)
  {
    var points :- Points(input);
    var n := |points|;
    var es := Prefix(Edges(points), 1000);
    EdgesInRange(points, 1000);
    var circuits := Start(n);
    var forest: set<Edge> := {};
    ghost var last: Option<Edge> := None;
    for i := 0 to |es|
      invariant Run(Initial(n), es[..i]) == Ok(Kruskal(circuits, forest, last))
    {
      var e := es[i];
      RunNext(n, es, i, Kruskal(circuits, forest, last));
      var c := Connect(circuits, forest, last, e);
      circuits, forest := c.value.0, c.value.1;
      if c.value.2 {
        last := Some(e);
      }
    }
    assert es[..|es|] == es;
    Answer1Of(input, points, Kruskal(circuits, forest, last));
    var sorted := BySize(circuits);
    var result :- Product(Sizes(Prefix(sorted, 3)));
    return Ok(Text.Show(result));
  }

  /** One turn of part 2's loop that does not stop. */
  lemma UntilOneNext(n: nat, es: seq<Edge>, i: nat, s: Kruskal)
    requires InRange(n, es) && i < |es|
    requires RunUntilOne(Initial(n), es[..i]) == Ok(s) && |s.circuits| != 1
    ensures Step(s, es[i]).Ok? && RunUntilOne(Initial(n), es[..i + 1]) == Step(s, es[i])
    ensures es[i].p1 < n && es[i].p2 < n
  {
    assert es[..i + 1][..i] == es[..i];
    assert es[i] in es;
    InRangePrefix(n, es, i);
    UntilOneIsRun(n, es[..i]);
    RunValid(n, es[..i]);
    StepValid(n, es[..i], s, es[i]);
  }

  /** `Answer2` read off the final state of part 2's loop. */
  lemma Answer2Of(input: string, points: seq<Point>, t: Kruskal)
    requires Points(input) == Ok(points)
    requires RunUntilOne(Initial(|points|), Edges(points)) == Ok(t)
    ensures t.last.None? ==> Answer2(input) == Err(NoConnection)
    ensures t.last.Some? ==> (t.last.value.p1 < |points| && t.last.value.p2 < |points|
              && Answer2(input) == Ok(points[t.last.value.p1].x * points[t.last.value.p2].x))
  {
    var es := Edges(points);
    EdgesInRange(points, |es|);
    assert Prefix(es, |es|) == es;
    UntilOneIsRun(|points|, es);
    RunValid(|points|, es);
    if t.last.Some? {
      assert t.last.value in es;
    }
  }

  /** `part2`: answers `Answer2`. */
  method Part2(input: string) returns (r: Result<string, Error>)
    ensures Answer2(input).Ok? ==> r == Ok(Text.Show(Answer2(input).value))
    ensures Answer2(input).Err? ==> r == Err(Answer2(input).error)
  {
    var points :- Points(input);
    var n := |points|;
    var es := Edges(points);
    EdgesInRange(points, |es|);
    assert Prefix(es, |es|) == es;
    var circuits := Start(n);
    var forest: set<Edge> := {};
    ghost var last: Option<Edge> := None;
    var lastX: Option<int> := None;
    var i := 0;
    while i < |es|
      invariant i <= |es|
      invariant RunUntilOne(Initial(n), es[..i]) == Ok(Kruskal(circuits, forest, last))
      invariant last.None? ==> lastX == None
      invariant last.Some? ==> last.value.p1 < n && last.value.p2 < n
                               && lastX == Some(points[last.value.p1].x * points[last.value.p2].x)
    {
      if |circuits| == 1 {
        UntilOneStays(Initial(n), es, i);
        break;
      }
      var e := es[i];
      UntilOneNext(n, es, i, Kruskal(circuits, forest, last));
      var c := Connect(circuits, forest, last, e);
      circuits, forest := c.value.0, c.value.1;
      if c.value.2 {
        lastX := Some(points[e.p1].x * points[e.p2].x);
        last := Some(e);
      }
      i := i + 1;
    }
    if i == |es| {
      assert es[..i] == es;
    }
    Answer2Of(input, points, Kruskal(circuits, forest, last));
    if lastX == None {
      return Err(NoConnection);
    }
    return Ok(Text.Show(lastX.value));
  }
}
