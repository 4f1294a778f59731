/** Crossed wires on a grid (`src/day3.rs`). A wire starts at the origin and
    follows a path of steps, each a direction and a number of unit moves;
    its point list records every lattice point it visits, in order. Two
    wires cross wherever their point lists share a point.

    Coordinates are Rust `i32`s, modelled as unbounded integers. The steps
    are given as `(direction, size)` pairs: the regular expression that
    cuts them out of the text is not modelled. */
module Wires {
  import opened Results
  import Text

  datatype Vector = Vector(x: int, y: int)

  const Origin := Vector(0, 0)

  function Abs(n: int): nat {
    if n < 0 then -n else n
  }

  /** `Vector::cost`: the Manhattan distance from the origin. */
  function Cost(v: Vector): (c: nat)
    ensures c == 0 <==> v == Origin
    ensures c >= Abs(v.x) && c >= Abs(v.y)
  {
    Abs(v.x) + Abs(v.y)
  }

  /** `Vector::add`: componentwise sum. */
  function Add(a: Vector, b: Vector): (s: Vector)
    ensures s.x - a.x == b.x && s.y - a.y == b.y
  {
    Vector(a.x + b.x, a.y + b.y)
  }

  /** The origin is the identity of `Add`, and `Add` is associative. */
  lemma AddLaws(a: Vector, b: Vector, c: Vector)
    ensures Add(Origin, a) == a && Add(a, Origin) == a
    ensures Add(Add(a, b), c) == Add(a, Add(b, c))
  {
  }

  /** The cost is a norm: it obeys the triangle inequality under `Add`. */
  lemma CostTriangle(a: Vector, b: Vector)
    ensures Cost(Add(a, b)) <= Cost(a) + Cost(b)
  {
  }

  /** `b` is one unit move away from `a`. */
  predicate UnitApart(a: Vector, b: Vector) {
    Cost(Vector(b.x - a.x, b.y - a.y)) == 1
  }

  // ---------------------------------------------------------------------------
  // Wires and their points

  datatype Step = Step(dir: char, size: nat)

  /** A wire: its path and the points visited so far (the origin first). */
  datatype Wire = Wire(path: seq<Step>, points: seq<Vector>)

  /** `Wire::new`: a wire that has visited only the origin. */
  function NewWire(path: seq<Step>): (w: Wire)
    ensures w.path == path && w.points == [Origin]
  {
    Wire(path, [Origin])
  }

  /** The unit move of each direction letter; other letters are refused. */
  function Direction(c: char): (d: Option<Vector>)
    ensures d.Some? <==> c == 'U' || c == 'D' || c == 'R' || c == 'L'
    ensures d.Some? ==> Cost(d.value) == 1
  {
    match c
    case 'U' => Some(Vector(0, 1))
    case 'D' => Some(Vector(0, -1))
    case 'R' => Some(Vector(1, 0))
    case 'L' => Some(Vector(-1, 0))
    case _ => None
  }

  /** The point `k` moves of `dir` away from `start`. */
  function Along(start: Vector, dir: Vector, k: int): Vector {
    Vector(start.x + k * dir.x, start.y + k * dir.y)
  }

  lemma AlongShift(start: Vector, dir: Vector)
    ensures forall k :: Along(Add(start, dir), dir, k) == Along(start, dir, k + 1)
  {
    forall k ensures Along(Add(start, dir), dir, k) == Along(start, dir, k + 1) {
      assert (k + 1) * dir.x == k * dir.x + dir.x;
      assert (k + 1) * dir.y == k * dir.y + dir.y;
    }
  }

  /** `Wire::follow_path`: append `size` points, the `k`-th of them `k` moves
      of `dir` beyond the last point; the points already there are kept. */
  function FollowPath(points: seq<Vector>, dir: Vector, size: nat): (r: seq<Vector>)
    requires |points| > 0
    ensures |r| == |points| + size
    ensures r[..|points|] == points
    ensures forall j :: |points| - 1 <= j < |r| ==>
      r[j] == Along(points[|points| - 1], dir, j - (|points| - 1))
    decreases size
  {
    if size == 0 then points
    else
      var last := points[|points| - 1];
      var next := Add(last, dir);
      var r := FollowPath(points + [next], dir, size - 1);
      AlongShift(last, dir);
      assert r[..|points| + 1] == points + [next];
      assert r[|points| - 1] == last;
      r
  }

  /** Each appended point is the one before it plus `dir`. */
  lemma FollowPathSteps(points: seq<Vector>, dir: Vector, size: nat)
    requires |points| > 0
    ensures var r := FollowPath(points, dir, size);
            forall j :: |points| <= j < |r| ==> r[j] == Add(r[j - 1], dir)
  {
    var r := FollowPath(points, dir, size);
    var last := points[|points| - 1];
    forall j | |points| <= j < |r| ensures r[j] == Add(r[j - 1], dir) {
      var k := j - |points| + 1;
      assert r[j] == Along(last, dir, k);
      assert r[j - 1] == Along(last, dir, k - 1);
      assert k * dir.x == (k - 1) * dir.x + dir.x;
      assert k * dir.y == (k - 1) * dir.y + dir.y;
    }
  }

  function TotalSize(path: seq<Step>): nat {
    if |path| == 0 then 0 else path[0].size + TotalSize(path[1..])
  }

  /** `k` moves of `d`. */
  function Scale(d: Vector, k: int): Vector {
    Vector(k * d.x, k * d.y)
  }

  /** Where one step leads, relative to where it starts; an unknown
      direction leads nowhere. */
  function StepVector(s: Step): Vector {
    match Direction(s.dir)
    case None => Origin
    case Some(d) => Scale(d, s.size)
  }

  /** The number of moves made by the first `i` steps of `path`. */
  function MovesBefore(path: seq<Step>, i: nat): nat
    requires i <= |path|
  {
    if i == 0 then 0 else path[0].size + MovesBefore(path[1..], i - 1)
  }

  /** All the steps together make every move of the path. */
  lemma {:induction false} MovesBeforeAll(path: seq<Step>)
    ensures MovesBefore(path, |path|) == TotalSize(path)
  {
    if |path| > 0 {
      MovesBeforeAll(path[1..]);
    }
  }

  /** Where the first `i` steps of `path` lead, relative to where they start. */
  function Reach(path: seq<Step>, i: nat): Vector
    requires i <= |path|
  {
    if i == 0 then Origin else Add(StepVector(path[0]), Reach(path[1..], i - 1))
  }

  predicate ValidDirections(path: seq<Step>) {
    forall i :: 0 <= i < |path| ==> Direction(path[i].dir).Some?
  }

  datatype WireError = InvalidDirection(dir: char)

  /** The points visited by following every step of `path` in turn. A step
      with an unknown direction stops everything (the Rust code panics). */
  function Trace(points: seq<Vector>, path: seq<Step>): (r: Result<seq<Vector>, WireError>)
    requires |points| > 0
    ensures r.Ok? <==> ValidDirections(path)
    ensures r.Err? ==> exists i :: 0 <= i < |path| && path[i].dir == r.error.dir
                                   && Direction(path[i].dir).None?
    ensures r.Ok? ==>
      && |r.value| == |points| + TotalSize(path)
      && r.value[..|points|] == points
      && forall k :: |points| <= k < |r.value| ==> UnitApart(r.value[k - 1], r.value[k])
    decreases |path|
  {
    if |path| == 0 then Ok(points)
    else
      match Direction(path[0].dir)
      case None => Err(InvalidDirection(path[0].dir))
      case Some(dir) =>
        var next := FollowPath(points, dir, path[0].size);
        match Trace(next, path[1..])
        case Err(e) =>
          assert path[1..][0].dir == path[1].dir;
          Err(e)
        case Ok(r) =>
          ExtendKeepsUnitSteps(points, dir, path[0].size, r);
          Ok(r)
  }

  /** Points laid after `FollowPath` by unit moves keep every earlier point
      and are unit moves apart all the way from the end of `points`. */
  lemma ExtendKeepsUnitSteps(points: seq<Vector>, dir: Vector, size: nat, r: seq<Vector>)
    requires |points| > 0 && Cost(dir) == 1
    requires var next := FollowPath(points, dir, size);
      && |next| <= |r| && r[..|next|] == next
      && forall k :: |next| <= k < |r| ==> UnitApart(r[k - 1], r[k])
    ensures r[..|points|] == points
    ensures forall k :: |points| <= k < |r| ==> UnitApart(r[k - 1], r[k])
  {
    var next := FollowPath(points, dir, size);
    FollowPathSteps(points, dir, size);
    assert r[..|points|] == next[..|points|];
    forall k | |points| <= k < |next|
      ensures UnitApart(r[k - 1], r[k])
    {
      assert r[k - 1] == next[k - 1] && r[k] == next[k];
      assert next[k] == Add(next[k - 1], dir);
    }
  }

  /** `Wire::construct_points`: trace the wire's whole path. */
  function ConstructPoints(w: Wire): (r: Result<Wire, WireError>)
    requires |w.points| > 0
    ensures r.Ok? <==> ValidDirections(w.path)
    ensures r.Ok? ==>
      && r.value.path == w.path
      && |r.value.points| == |w.points| + TotalSize(w.path)
      && r.value.points[..|w.points|] == w.points
  {
    match Trace(w.points, w.path)
    case Err(e) => Err(e)
    case Ok(points) => Ok(Wire(w.path, points))
  }

  /** Tracing a path is following its first step and tracing the rest. */
  lemma TraceFirstStep(points: seq<Vector>, path: seq<Step>)
    requires |points| > 0 && |path| > 0 && Direction(path[0].dir).Some?
    ensures Trace(points, path)
         == Trace(FollowPath(points, Direction(path[0].dir).value, path[0].size), path[1..])
  {
  }

  /** The `k`-th point of a step's segment, seen from a longer list that
      keeps the segment as its prefix. */
  lemma SegmentStart(points: seq<Vector>, dir: Vector, size: nat, next: seq<Vector>, r: seq<Vector>, k: nat, at: nat)
    requires |points| > 0 && k <= size && at == |points| - 1 + k
    requires next == FollowPath(points, dir, size)
    requires |next| <= |r| && r[..|next|] == next
    ensures at < |r|
    ensures r[at] == Along(points[|points| - 1], dir, k)
  {
    assert r[at] == next[at];
  }

  /** After the first step, the `i`-th step starts at the same index and
      point whether counted from the start or from the end of the first step. */
  lemma SegmentShift(points: seq<Vector>, path: seq<Step>, dir: Vector, next: seq<Vector>, i: nat)
    requires |points| > 0 && 0 < i <= |path| && Direction(path[0].dir) == Some(dir)
    requires next == FollowPath(points, dir, path[0].size)
    ensures |next| - 1 + MovesBefore(path[1..], i - 1) == |points| - 1 + MovesBefore(path, i)
    ensures Add(next[|next| - 1], Reach(path[1..], i - 1)) == Add(points[|points| - 1], Reach(path, i))
  {
    var last := points[|points| - 1];
    assert next[|next| - 1] == Along(last, dir, path[0].size) == Add(last, StepVector(path[0]));
    AddLaws(last, StepVector(path[0]), Reach(path[1..], i - 1));
  }

  /** The tail of a path with known directions has known directions. */
  lemma ValidTail(path: seq<Step>)
    requires |path| > 0 && ValidDirections(path)
    ensures ValidDirections(path[1..])
  {
    forall j | 0 <= j < |path[1..]| ensures Direction(path[1..][j].dir).Some? {
      assert path[1..][j] == path[j + 1];
    }
  }

  /** Step `i` of the path moves along its own direction: its `k`-th point,
      at index `at` of the traced list, is `k` moves of its direction beyond
      where the earlier steps lead. */
  lemma {:induction false} TraceSegment(points: seq<Vector>, path: seq<Step>, i: nat, k: nat, at: nat)
    requires |points| > 0 && ValidDirections(path)
    requires i < |path| && k <= path[i].size
    requires at == |points| - 1 + MovesBefore(path, i) + k
    ensures Trace(points, path).Ok?
    ensures at < |Trace(points, path).value|
    ensures Trace(points, path).value[at]
         == Along(Add(points[|points| - 1], Reach(path, i)), Direction(path[i].dir).value, k)
    decreases i
  {
    if i == 0 {
      TraceFirstSegment(points, path, k, at);
    } else {
      var next := FirstStepEnd(points, path, i);
      assert path[1..][i - 1] == path[i];
      TraceSegment(next, path[1..], i - 1, k, at);
    }
  }

  /** Where the first step of the path leaves the traced list, in the terms
      the later steps are measured from. */
  lemma FirstStepEnd(points: seq<Vector>, path: seq<Step>, i: nat) returns (next: seq<Vector>)
    requires |points| > 0 && ValidDirections(path) && 0 < i <= |path|
    ensures |next| > 0 && ValidDirections(path[1..])
    ensures Trace(points, path) == Trace(next, path[1..])
    ensures |next| - 1 + MovesBefore(path[1..], i - 1) == |points| - 1 + MovesBefore(path, i)
    ensures Add(next[|next| - 1], Reach(path[1..], i - 1)) == Add(points[|points| - 1], Reach(path, i))
  {
    var dir := Direction(path[0].dir).value;
    next := FollowPath(points, dir, path[0].size);
    TraceFirstStep(points, path);
    ValidTail(path);
    SegmentShift(points, path, dir, next, i);
  }

  /** `TraceSegment` for the first step. */
  lemma {:induction false} TraceFirstSegment(points: seq<Vector>, path: seq<Step>, k: nat, at: nat)
    requires |points| > 0 && ValidDirections(path)
    requires 0 < |path| && k <= path[0].size
    requires at == |points| - 1 + MovesBefore(path, 0) + k
    ensures Trace(points, path).Ok?
    ensures at < |Trace(points, path).value|
    ensures Trace(points, path).value[at]
         == Along(Add(points[|points| - 1], Reach(path, 0)), Direction(path[0].dir).value, k)
  {
    var dir := Direction(path[0].dir).value;
    var next := FollowPath(points, dir, path[0].size);
    var last := points[|points| - 1];
    TraceFirstStep(points, path);
    ValidTail(path);
    SegmentStart(points, dir, path[0].size, next, Trace(next, path[1..]).value, k, at);
    AddLaws(last, last, last);
  }

  /** A wire built from a new wire: step `i` starts where the earlier steps
      lead from the origin, and its `k`-th point is `k` moves further on. */
  lemma {:induction false} ConstructedFollowsSteps(path: seq<Step>, i: nat, k: nat)
    requires ValidDirections(path)
    requires i < |path| && k <= path[i].size
    ensures ConstructPoints(NewWire(path)).Ok?
    ensures MovesBefore(path, i) + k < |ConstructPoints(NewWire(path)).value.points|
    ensures ConstructPoints(NewWire(path)).value.points[MovesBefore(path, i) + k]
         == Along(Reach(path, i), Direction(path[i].dir).value, k)
  {
    TraceSegment([Origin], path, i, k, MovesBefore(path, i) + k);
    var d := Reach(path, i);
    AddLaws(d, d, d);
  }

  /** A wire laid out from the origin along its whole path. */
  predicate Laid(w: Wire) {
    && |w.points| > 0
    && w.points[0] == Origin
    && forall k :: 0 < k < |w.points| ==> UnitApart(w.points[k - 1], w.points[k])
  }

  lemma ConstructedIsLaid(path: seq<Step>)
    requires ValidDirections(path)
    ensures ConstructPoints(NewWire(path)).Ok?
    ensures Laid(ConstructPoints(NewWire(path)).value)
  {
    var w := ConstructPoints(NewWire(path)).value;
    assert w.points[..1] == [Origin];
  }

  /** Each move changes the cost by at most one, so the `k`-th point of a
      laid wire is at most `k` from the origin. */
  lemma {:induction false} LaidCostBound(w: Wire, k: nat)
    requires Laid(w) && k < |w.points|
    ensures Cost(w.points[k]) <= k
  {
    if k > 0 {
      LaidCostBound(w, k - 1);
      var a, b := w.points[k - 1], w.points[k];
      CostTriangle(a, Vector(b.x - a.x, b.y - a.y));
      assert Add(a, Vector(b.x - a.x, b.y - a.y)) == b;
    }
  }

  // ---------------------------------------------------------------------------
  // Intersections

  /** `Wire::find_intersection_points`: the points both wires visit. */
  function Intersections(w1: Wire, w2: Wire): (s: set<Vector>)
    ensures forall p :: p in s <==> p in w1.points && p in w2.points
  {
    set p | p in w1.points && p in w2.points
  }

  /** Wires laid from the origin always meet there. */
  lemma OriginIntersects(w1: Wire, w2: Wire)
    requires Laid(w1) && Laid(w2)
    ensures Origin in Intersections(w1, w2)
  {
    assert w1.points[0] == Origin && w2.points[0] == Origin;
  }

  /** `Wire::length_to`: the index of the first occurrence of `point`, i.e.
      the number of moves the wire makes before it first reaches it. */
  function LengthTo(path: seq<Vector>, point: Vector): (n: nat)
    requires point in path
    ensures n < |path| && path[n] == point
    ensures forall k :: 0 <= k < n ==> path[k] != point
  {
    if path[0] == point then 0 else 1 + LengthTo(path[1..], point)
  }

  /** The smallest non-zero entry, if any (`filter(|c| *c != 0).min()`). */
  function MinNonZero(xs: seq<nat>): (m: Option<nat>)
    ensures m.None? <==> forall i :: 0 <= i < |xs| ==> xs[i] == 0
    ensures m.Some? ==>
      && m.value != 0 && m.value in xs
      && forall i :: 0 <= i < |xs| && xs[i] != 0 ==> m.value <= xs[i]
  {
    if |xs| == 0 then None
    else
      var rest := MinNonZero(xs[1..]);
      assert forall i :: 1 <= i < |xs| ==> xs[i] == xs[1..][i - 1];
      if xs[0] == 0 then rest
      else if rest.Some? && rest.value < xs[0] then rest
      else Some(xs[0])
  }

  /** The costs of the points of `pts` that `other` also visits. */
  function CommonCosts(pts: seq<Vector>, other: seq<Vector>): (cs: seq<nat>)
    ensures forall c :: c in cs <==> exists p :: p in pts && p in other && Cost(p) == c
  {
    if |pts| == 0 then []
    else
      var rest := CommonCosts(pts[1..], other);
      assert forall p :: p in pts <==> p == pts[0] || p in pts[1..];
      if pts[0] in other then [Cost(pts[0])] + rest else rest
  }

  /** `c` is the smallest non-zero cost among the points of `s`. */
  ghost predicate IsLowestCost(s: set<Vector>, c: nat) {
    && c != 0
    && (exists p :: p in s && Cost(p) == c)
    && forall p :: p in s && Cost(p) != 0 ==> c <= Cost(p)
  }

  /** `Wire::find_lowest_cost_intersection`: the intersection nearest the
      origin, other than the origin itself. `None` where the Rust code's
      `unwrap` panics: the wires meet nowhere but the origin. */
  function LowestCostIntersection(w1: Wire, w2: Wire): (r: Option<nat>)
    ensures r.None? <==> Intersections(w1, w2) <= {Origin}
    ensures r.Some? ==> IsLowestCost(Intersections(w1, w2), r.value)
  {
    LowestCostCorrect(w1, w2);
    MinNonZero(CommonCosts(w1.points, w2.points))
  }

  lemma LowestCostCorrect(w1: Wire, w2: Wire)
    ensures var m := MinNonZero(CommonCosts(w1.points, w2.points));
            && (m.None? <==> Intersections(w1, w2) <= {Origin})
            && (m.Some? ==> IsLowestCost(Intersections(w1, w2), m.value))
  {
    var cs := CommonCosts(w1.points, w2.points);
    var m := MinNonZero(cs);
    var s := Intersections(w1, w2);
    assert forall p :: p in s ==> Cost(p) in cs;
    if m.None? {
      forall p | p in s ensures p == Origin {
        assert Cost(p) in cs;
      }
    } else {
      assert m.value in cs;
    }
  }

  /** The combined number of moves both wires make to first reach `p`. */
  function CombinedLength(w1: Wire, w2: Wire, p: Vector): nat
    requires p in w1.points && p in w2.points
  {
    LengthTo(w1.points, p) + LengthTo(w2.points, p)
  }

  /** The combined lengths of the points of `pts` that both wires visit. */
  function CommonLengths(w1: Wire, w2: Wire, pts: seq<Vector>): (ls: seq<nat>)
    requires forall p :: p in pts ==> p in w1.points
    ensures forall l :: l in ls <==>
      exists p :: p in pts && p in w2.points && CombinedLength(w1, w2, p) == l
  {
    if |pts| == 0 then []
    else
      var rest := CommonLengths(w1, w2, pts[1..]);
      assert forall p :: p in pts <==> p == pts[0] || p in pts[1..];
      if pts[0] in w2.points then [CombinedLength(w1, w2, pts[0])] + rest else rest
  }

  /** `l` is the smallest non-zero combined length among the points of `s`. */
  ghost predicate IsLowestLength(w1: Wire, w2: Wire, s: set<Vector>, l: nat)
    requires s <= Intersections(w1, w2)
  {
    && l != 0
    && (exists p :: p in s && CombinedLength(w1, w2, p) == l)
    && forall p :: p in s && CombinedLength(w1, w2, p) != 0 ==> l <= CombinedLength(w1, w2, p)
  }

  /** `Wire::find_lowest_length_intersection`: the intersection the two
      wires reach with the fewest moves between them, ignoring a combined
      length of zero. `None` where the Rust code's `unwrap` panics. */
  function LowestLengthIntersection(w1: Wire, w2: Wire): (r: Option<nat>)
    ensures r.None? <==>
      forall p :: p in Intersections(w1, w2) ==> CombinedLength(w1, w2, p) == 0
    ensures r.Some? ==> IsLowestLength(w1, w2, Intersections(w1, w2), r.value)
  {
    var ls := CommonLengths(w1, w2, w1.points);
    var m := MinNonZero(ls);
    assert forall p :: p in Intersections(w1, w2) ==> CombinedLength(w1, w2, p) in ls;
    if m.None? then
      m
    else
      assert forall p :: p in Intersections(w1, w2) && CombinedLength(w1, w2, p) != 0 ==>
        m.value <= CombinedLength(w1, w2, p);
      m
  }

  /** A laid wire needs at least `Cost(p)` moves to reach `p`, so the two
      wires together need at least twice that. */
  lemma CombinedLengthAtLeastTwiceCost(w1: Wire, w2: Wire, p: Vector)
    requires Laid(w1) && Laid(w2) && p in w1.points && p in w2.points
    ensures CombinedLength(w1, w2, p) >= 2 * Cost(p)
  {
    LaidCostBound(w1, LengthTo(w1.points, p));
    LaidCostBound(w2, LengthTo(w2.points, p));
  }

  /** A crossing away from the origin gives a lowest cost. */
  lemma CrossingHasLowestCost(w1: Wire, w2: Wire, q: Vector)
    requires q in w1.points && q in w2.points && q != Origin
    ensures LowestCostIntersection(w1, w2).Some?
  {
    assert q in Intersections(w1, w2);
  }

  /** Hence, once the wires cross away from the origin at `q`, a lowest cost
      and a lowest combined length both exist, and the length is at least
      twice the cost. */
  lemma LengthAtLeastTwiceCost(w1: Wire, w2: Wire, q: Vector)
    requires Laid(w1) && Laid(w2)
    requires q in w1.points && q in w2.points && q != Origin
    ensures LowestCostIntersection(w1, w2).Some?
    ensures LowestLengthIntersection(w1, w2).Some?
    ensures LowestLengthIntersection(w1, w2).value >= 2 * LowestCostIntersection(w1, w2).value
  {
    CrossingHasLowestCost(w1, w2, q);
    var s := Intersections(w1, w2);
    var c := LowestCostIntersection(w1, w2).value;
    var q' :| q' in s && Cost(q') == c;
    CombinedLengthAtLeastTwiceCost(w1, w2, q');
    var m := LowestLengthIntersection(w1, w2);
    assert m.Some? by {
      assert CombinedLength(w1, w2, q') != 0;
    }
    var p :| p in s && CombinedLength(w1, w2, p) == m.value;
    CombinedLengthAtLeastTwiceCost(w1, w2, p);
    assert Cost(p) != 0;
  }

  // ---------------------------------------------------------------------------
  // Reading a path

  /** `parse_path`: trim the line, split it on commas and trim each piece. */
  function ParsePath(line: string): (steps: seq<string>)
    ensures |steps| == |Text.Split(Text.Trim(line), ',')|
    ensures forall i :: 0 <= i < |steps| ==> ',' !in steps[i] && Text.Trimmed(steps[i])
    ensures forall i :: 0 <= i < |steps| ==> steps[i] == Text.Trim(Text.Split(Text.Trim(line), ',')[i])
  {
    var pieces := Text.Split(Text.Trim(line), ',');
    var steps := TrimAll(pieces);
    assert forall i :: 0 <= i < |steps| ==> ',' !in steps[i] && Text.Trimmed(steps[i]) by {
      forall i | 0 <= i < |steps| ensures ',' !in steps[i] && Text.Trimmed(steps[i]) {
        assert steps[i] == Text.Trim(pieces[i]);
        assert ',' !in pieces[i];
      }
    }
    steps
  }

  function TrimAll(pieces: seq<string>): (r: seq<string>)
    ensures |r| == |pieces|
    ensures forall i :: 0 <= i < |r| ==> r[i] == Text.Trim(pieces[i])
  {
    if |pieces| == 0 then [] else [Text.Trim(pieces[0])] + TrimAll(pieces[1..])
  }

  /** On a line without white space, the pieces join back into the line. */
  lemma ParsePathJoin(line: string)
    requires forall i :: 0 <= i < |line| ==> !Text.IsWhitespace(line[i])
    ensures Text.Join(ParsePath(line), ',') == line
  {
    assert Text.Trim(line) == line;
    var pieces := Text.Split(line, ',');
    forall i | 0 <= i < |pieces|
      ensures Text.Trim(pieces[i]) == pieces[i]
    {
      var piece := pieces[i];
      if |piece| > 0 {
        Text.SplitPieceChars(line, ',', i, piece[0]);
        Text.SplitPieceChars(line, ',', i, piece[|piece| - 1]);
      }
    }
    assert ParsePath(line) == pieces;
  }
}
