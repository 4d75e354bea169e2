/**
 * The force-directed layout of `amas-app/src/workspace_layout/calculate_positions.rs`:
 * nodes start on a circle, then each iteration sums pairwise repulsion,
 * attraction along edges and a pull towards the centre and onto the circle,
 * moves every node by at most the current temperature, clamps it into the
 * canvas, and cools the temperature by 5%.
 *
 * `f64` is modelled by `real`; `sqrt`, `cos` and `sin` are the fields of a
 * `MathLib` value, constrained only by the laws in `Lawful`.
 */
module ForceLayout {
  import opened Graph

  datatype Position = Position(x: real, y: real)

  /** A displacement, the `(f64, f64)` pair the iteration accumulates per node. */
  datatype Vec = Vec(dx: real, dy: real)

  /** The floating-point functions the layout calls. */
  datatype MathLib = MathLib(sqrt: real -> real, cos: real -> real, sin: real -> real)

  /**
   * The laws the proofs rely on: `sqrt` is the non-negative square root (its
   * values at zero and on positive numbers are spelled out), and
   * `cos² + sin² = 1`.
   */
  ghost predicate Lawful(math: MathLib)
  {
    (forall v :: 0.0 <= v ==> 0.0 <= math.sqrt(v) && math.sqrt(v) * math.sqrt(v) == v)
    && (forall v :: 0.0 < v ==> 0.0 < math.sqrt(v))
    && math.sqrt(0.0) == 0.0
    && (forall a :: math.cos(a) * math.cos(a) + math.sin(a) * math.sin(a) == 1.0)
  }

  /** `std::f64::consts::TAU` */
  const Tau: real := 6.283185307179586

  const CoolingFactor: real := 0.95

  function Plus(a: Vec, b: Vec): Vec
  {
    Vec(a.dx + b.dx, a.dy + b.dy)
  }

  function Minus(a: Vec, b: Vec): Vec
  {
    Vec(a.dx - b.dx, a.dy - b.dy)
  }

  // ---------------------------------------------------------------------
  // Small facts of real arithmetic, stated on plain variables
  // ---------------------------------------------------------------------

  lemma SquareNonNeg(v: real)
    ensures 0.0 <= v * v
  {
  }

  lemma SquareLt(a: real, b: real)
    requires 0.0 <= a < b
    ensures a * a < b * b
  {
    var x, y, z := a * a, a * b, b * b;
    assert x <= y;
    assert y < z;
  }

  /** A non-negative number has one non-negative square root. */
  lemma RootUnique(s: real, r: real)
    requires 0.0 <= s && 0.0 <= r && s * s == r * r
    ensures s == r
  {
    if s < r {
      SquareLt(s, r);
    } else if r < s {
      SquareLt(r, s);
    }
  }

  lemma QuotientPos(a: real, w: real, h: real, n: real)
    requires a == w * h && 0.0 < w * h && 0.0 < n
    ensures 0.0 < a / n
  {
  }

  lemma ProductNonNeg(a: real, b: real)
    requires 0.0 <= a && 0.0 <= b
    ensures 0.0 <= a * b
  {
  }

  lemma ProductPos(a: real, b: real)
    requires 0.0 < a && 0.0 < b
    ensures 0.0 < a * b
  {
  }

  // ---------------------------------------------------------------------
  // Distances
  // ---------------------------------------------------------------------

  function SquaredDistance(p: Position, q: Position): real
  {
    (p.x - q.x) * (p.x - q.x) + (p.y - q.y) * (p.y - q.y)
  }

  /** `Position::distance` */
  function Distance(math: MathLib, p: Position, q: Position): real
  {
    math.sqrt(SquaredDistance(p, q))
  }

  /** A distance is the non-negative root of the squared distance. */
  lemma DistanceLaw(math: MathLib, p: Position, q: Position)
    requires Lawful(math)
    ensures 0.0 <= Distance(math, p, q)
    ensures Distance(math, p, q) * Distance(math, p, q) == SquaredDistance(p, q)
  {
    SquareNonNeg(p.x - q.x);
    SquareNonNeg(p.y - q.y);
  }

  /** A position is at distance zero from itself. */
  lemma DistanceSelf(math: MathLib, p: Position)
    requires Lawful(math)
    ensures Distance(math, p, p) == 0.0
  {
  }

  /** Distance does not depend on the order of its arguments (the repulsion and edge loops call it in opposite orders). */
  lemma DistanceSymmetric(math: MathLib, p: Position, q: Position)
    ensures Distance(math, p, q) == Distance(math, q, p)
  {
    assert SquaredDistance(p, q) == SquaredDistance(q, p);
  }

  // ---------------------------------------------------------------------
  // Forces
  // ---------------------------------------------------------------------

  /** `calculate_repulsive_force`: `k²/d`, or 1000 for coincident nodes. */
  function RepulsiveForce(k: real, d: real): real
  {
    if d == 0.0 then 1000.0 else (k * k) / d
  }

  /** `calculate_attractive_force`: `d²/k`. */
  function AttractiveForce(k: real, d: real): real
    requires k != 0.0
  {
    (d * d) / k
  }

  lemma QuotientTimes(k: real, d: real)
    requires d != 0.0
    ensures ((k * k) / d) * d == k * k
  {
  }

  lemma SquareQuotientPos(k: real, d: real)
    requires 0.0 < k && 0.0 < d
    ensures 0.0 < (k * k) / d
  {
    ProductPos(k, k);
    QuotientPos(k * k, k, k, d);
  }

  /** Above distance zero the repulsion is positive and inversely proportional to the distance. */
  lemma RepulsionLaw(k: real, d: real)
    requires 0.0 < k && 0.0 < d
    ensures RepulsiveForce(k, d) * d == k * k
    ensures 0.0 < RepulsiveForce(k, d)
  {
    QuotientTimes(k, d);
    SquareQuotientPos(k, d);
  }

  /** Above distance zero the attraction grows with the square of the distance. */
  lemma AttractionLaw(k: real, d: real)
    requires 0.0 < k
    ensures AttractiveForce(k, d) * k == d * d
  {
  }

  lemma CancelLt(a: real, b: real, c: real)
    requires 0.0 < c && a * c < b * c
    ensures a < b
  {
  }

  /** With `r·d = k²` and `a·k = d²`, `r` and `a` agree exactly when `d = k`. */
  lemma Balance(r: real, a: real, k: real, d: real)
    requires 0.0 < k && 0.0 < d && r * d == k * k && a * k == d * d
    ensures r == a <==> d == k
  {
    if d < k {
      SquareLt(d, k);
      CancelLt(a, d, k);
      CancelLt(d, r, d);
    } else if k < d {
      SquareLt(k, d);
      CancelLt(r, k, d);
      CancelLt(k, a, k);
    }
  }

  /** The two forces are equal exactly at the ideal distance `k`. */
  lemma ForcesBalance(k: real, d: real)
    requires 0.0 < k && 0.0 < d
    ensures RepulsiveForce(k, d) == AttractiveForce(k, d) <==> d == k
  {
    RepulsionLaw(k, d);
    AttractionLaw(k, d);
    Balance(RepulsiveForce(k, d), AttractiveForce(k, d), k, d);
  }

  // ---------------------------------------------------------------------
  // Displacements, as pure functions of the positions
  // ---------------------------------------------------------------------

  function Zeros(n: nat): (r: seq<Vec>)
    ensures |r| == n && forall i :: 0 <= i < n ==> r[i] == Vec(0.0, 0.0)
  {
    seq(n, i => Vec(0.0, 0.0))
  }

  /** The push of magnitude `force` along the unit vector from `to` towards `from`. */
  function Push(from: Position, to: Position, distance: real, force: real): Vec
    requires distance != 0.0
  {
    Vec((from.x - to.x) / distance * force, (from.y - to.y) / distance * force)
  }

  /** Equal and opposite: `f` is added at `v` and subtracted at `u`. */
  function PairPush(disp: seq<Vec>, v: nat, u: nat, f: Vec): (r: seq<Vec>)
    requires v < |disp| && u < |disp|
    ensures |r| == |disp|
  {
    var d := disp[v := Plus(disp[v], f)];
    d[u := Minus(d[u], f)]
  }

  /** The repulsion between nodes `i` and `j` (the inner step of the first double loop). */
  function RepulsionStep(math: MathLib, k: real, pos: seq<Position>, disp: seq<Vec>, i: nat, j: nat): (r: seq<Vec>)
    requires i < |pos| && j < |pos| && |disp| == |pos|
    ensures |r| == |disp|
  {
    var d := Distance(math, pos[i], pos[j]);
    if d > 0.0 then PairPush(disp, i, j, Push(pos[i], pos[j], d, RepulsiveForce(k, d)))
    else disp
  }

  /** Row `i` of the repulsion loop, for the partners `i + 1 .. j - 1`. */
  function RepulsionRow(math: MathLib, k: real, pos: seq<Position>, disp: seq<Vec>, i: nat, j: nat): (r: seq<Vec>)
    requires i < |pos| && j <= |pos| && |disp| == |pos|
    ensures |r| == |disp|
    decreases j
  {
    if j <= i + 1 then disp
    else RepulsionStep(math, k, pos, RepulsionRow(math, k, pos, disp, i, j - 1), i, j - 1)
  }

  /** Rows `0 .. i - 1` of the repulsion loop: every pair `i < j` once. */
  function Repulsion(math: MathLib, k: real, pos: seq<Position>, disp: seq<Vec>, i: nat): (r: seq<Vec>)
    requires i <= |pos| && |disp| == |pos|
    ensures |r| == |disp|
  {
    if i == 0 then disp
    else RepulsionRow(math, k, pos, Repulsion(math, k, pos, disp, i - 1), i - 1, |pos|)
  }

  /** The attraction along edge `e` (the body of the edge loop): `a` is pulled towards `b` and `b` towards `a`. */
  function AttractionStep(math: MathLib, k: real, pos: seq<Position>, disp: seq<Vec>, e: Edge): (r: seq<Vec>)
    requires k != 0.0 && e.a < |pos| && e.b < |pos| && |disp| == |pos|
    ensures |r| == |disp|
  {
    var d := Distance(math, pos[e.a], pos[e.b]);
    if d > 0.0 then PairPush(disp, e.a, e.b, Push(pos[e.b], pos[e.a], d, AttractiveForce(k, d)))
    else disp
  }

  /** The first `t` rounds of the edge loop, over the edges in index order. */
  function Attraction(math: MathLib, k: real, pos: seq<Position>, disp: seq<Vec>, edges: seq<Edge>, t: nat): (r: seq<Vec>)
    requires k != 0.0 && EdgesWithin(edges, |pos|) && t <= |edges| && |disp| == |pos|
    ensures |r| == |disp|
  {
    if t == 0 then disp
    else AttractionStep(math, k, pos, Attraction(math, k, pos, disp, edges, t - 1), edges[t - 1])
  }

  function Centre(width: real, height: real): Position
  {
    Position(width / 2.0, height / 2.0)
  }

  /** `width.min(height) / 2.5`: the radius of the initial circle, which the spring also aims for. */
  function IdealRadius(width: real, height: real): real
  {
    (if width <= height then width else height) / 2.5
  }

  /** Gravity of strength `k·0.02` towards the centre. */
  function Gravity(k: real, width: real, height: real, p: Position): Vec
  {
    var c := Centre(width, height);
    Vec((c.x - p.x) * (k * 0.02), (c.y - p.y) * (k * 0.02))
  }

  /** How far a node lies outside the ideal circle (negative inside it). */
  function Stretch(math: MathLib, width: real, height: real, p: Position): real
  {
    Distance(math, p, Centre(width, height)) - IdealRadius(width, height)
  }

  /** The circular spring of strength 0.01, away from the centre (it is subtracted). */
  function Spring(math: MathLib, width: real, height: real, p: Position): Vec
    requires Distance(math, p, Centre(width, height)) != 0.0
  {
    var c := Centre(width, height);
    var dist := Distance(math, p, c);
    Vec((p.x - c.x) / dist * Stretch(math, width, height, p) * 0.01,
        (p.y - c.y) / dist * Stretch(math, width, height, p) * 0.01)
  }

  /** The centring round for one node: gravity is added, then the spring is subtracted unless the node is at the centre. */
  function Centred(math: MathLib, k: real, width: real, height: real, p: Position, d: Vec): Vec
  {
    var pulled := Plus(d, Gravity(k, width, height, p));
    if Distance(math, p, Centre(width, height)) > 0.0 then Minus(pulled, Spring(math, width, height, p))
    else pulled
  }

  /** A node at the centre feels no centring force at all. */
  lemma CentringAtCentre(math: MathLib, k: real, width: real, height: real, d: Vec)
    requires Lawful(math)
    ensures Centred(math, k, width, height, Centre(width, height), d) == d
  {
  }

  /** A node on the ideal circle feels only gravity. */
  lemma CentringOnCircle(math: MathLib, k: real, width: real, height: real, p: Position, d: Vec)
    requires Lawful(math) && 0.0 < width && 0.0 < height
    requires SquaredDistance(p, Centre(width, height)) == IdealRadius(width, height) * IdealRadius(width, height)
    ensures Centred(math, k, width, height, p, d) == Plus(d, Gravity(k, width, height, p))
  {
    DistanceLaw(math, p, Centre(width, height));
    RootUnique(Distance(math, p, Centre(width, height)), IdealRadius(width, height));
    assert Stretch(math, width, height, p) == 0.0;
  }

  /** The displacements of one iteration: repulsion, then attraction, then centring. */
  function Displacements(math: MathLib, k: real, width: real, height: real, pos: seq<Position>, edges: seq<Edge>): (r: seq<Vec>)
    requires k != 0.0 && EdgesWithin(edges, |pos|)
    ensures |r| == |pos|
  {
    var forces := Attraction(math, k, pos, Repulsion(math, k, pos, Zeros(|pos|), |pos|), edges, |edges|);
    seq(|pos|, i requires 0 <= i < |pos| => Centred(math, k, width, height, pos[i], forces[i]))
  }

  // ---------------------------------------------------------------------
  // The pairwise forces cancel out
  // ---------------------------------------------------------------------

  /** The sum of all displacements. */
  function Total(disp: seq<Vec>): Vec
  {
    if disp == [] then Vec(0.0, 0.0) else Plus(Total(disp[..|disp| - 1]), disp[|disp| - 1])
  }

  lemma {:induction false} TotalAdd(disp: seq<Vec>, v: nat, f: Vec)
    requires v < |disp|
    ensures Total(disp[v := Plus(disp[v], f)]) == Plus(Total(disp), f)
    decreases |disp|
  {
    var init := disp[..|disp| - 1];
    var d := disp[v := Plus(disp[v], f)];
    assert d[..|d| - 1] == if v < |init| then init[v := Plus(init[v], f)] else init;
    if v < |init| {
      TotalAdd(init, v, f);
    }
  }

  lemma {:induction false} TotalSubtract(disp: seq<Vec>, u: nat, f: Vec)
    requires u < |disp|
    ensures Total(disp[u := Minus(disp[u], f)]) == Minus(Total(disp), f)
    decreases |disp|
  {
    var init := disp[..|disp| - 1];
    var d := disp[u := Minus(disp[u], f)];
    assert d[..|d| - 1] == if u < |init| then init[u := Minus(init[u], f)] else init;
    if u < |init| {
      TotalSubtract(init, u, f);
    }
  }

  /** An equal and opposite pair of pushes leaves the total unchanged. */
  lemma PairPushTotal(disp: seq<Vec>, v: nat, u: nat, f: Vec)
    requires v < |disp| && u < |disp|
    ensures Total(PairPush(disp, v, u, f)) == Total(disp)
  {
    TotalAdd(disp, v, f);
    TotalSubtract(disp[v := Plus(disp[v], f)], u, f);
  }

  lemma {:induction false} RepulsionRowTotal(math: MathLib, k: real, pos: seq<Position>, disp: seq<Vec>, i: nat, j: nat)
    requires i < |pos| && j <= |pos| && |disp| == |pos|
    ensures Total(RepulsionRow(math, k, pos, disp, i, j)) == Total(disp)
    decreases j
  {
    if j > i + 1 {
      var prev := RepulsionRow(math, k, pos, disp, i, j - 1);
      RepulsionRowTotal(math, k, pos, disp, i, j - 1);
      var d := Distance(math, pos[i], pos[j - 1]);
      if d > 0.0 {
        PairPushTotal(prev, i, j - 1, Push(pos[i], pos[j - 1], d, RepulsiveForce(k, d)));
      }
    }
  }

  /** Repulsion only moves displacement between nodes: the total is unchanged. */
  lemma {:induction false} RepulsionTotal(math: MathLib, k: real, pos: seq<Position>, disp: seq<Vec>, i: nat)
    requires i <= |pos| && |disp| == |pos|
    ensures Total(Repulsion(math, k, pos, disp, i)) == Total(disp)
  {
    if i > 0 {
      RepulsionTotal(math, k, pos, disp, i - 1);
      RepulsionRowTotal(math, k, pos, Repulsion(math, k, pos, disp, i - 1), i - 1, |pos|);
    }
  }

  /** Attraction only moves displacement between the two ends of each edge: the total is unchanged. */
  lemma {:induction false} AttractionTotal(math: MathLib, k: real, pos: seq<Position>, disp: seq<Vec>, edges: seq<Edge>, t: nat)
    requires k != 0.0 && EdgesWithin(edges, |pos|) && t <= |edges| && |disp| == |pos|
    ensures Total(Attraction(math, k, pos, disp, edges, t)) == Total(disp)
  {
    if t > 0 {
      var prev := Attraction(math, k, pos, disp, edges, t - 1);
      AttractionTotal(math, k, pos, disp, edges, t - 1);
      var e := edges[t - 1];
      var d := Distance(math, pos[e.a], pos[e.b]);
      if d > 0.0 {
        PairPushTotal(prev, e.a, e.b, Push(pos[e.b], pos[e.a], d, AttractiveForce(k, d)));
      }
    }
  }

  lemma {:induction false} TotalZeros(n: nat)
    ensures Total(Zeros(n)) == Vec(0.0, 0.0)
  {
    if n > 0 {
      assert Zeros(n)[..n - 1] == Zeros(n - 1);
      TotalZeros(n - 1);
    }
  }

  /** Repulsion and attraction together push the graph as a whole nowhere: their displacements sum to zero. */
  lemma PairwiseForcesCancel(math: MathLib, k: real, pos: seq<Position>, edges: seq<Edge>)
    requires k != 0.0 && EdgesWithin(edges, |pos|)
    ensures Total(Attraction(math, k, pos, Repulsion(math, k, pos, Zeros(|pos|), |pos|), edges, |edges|)) == Vec(0.0, 0.0)
  {
    TotalZeros(|pos|);
    RepulsionTotal(math, k, pos, Zeros(|pos|), |pos|);
    AttractionTotal(math, k, pos, Repulsion(math, k, pos, Zeros(|pos|), |pos|), edges, |edges|);
  }

  // ---------------------------------------------------------------------
  // Moving a node
  // ---------------------------------------------------------------------

  /** `f64::min` */
  function Min(a: real, b: real): real
  {
    if a <= b then a else b
  }

  /** `v.max(lo).min(hi)` */
  function Clamp(v: real, lo: real, hi: real): real
  {
    var m := if v >= lo then v else lo;
    if m <= hi then m else hi
  }

  predicate InCanvas(p: Position, width: real, height: real)
  {
    0.0 <= p.x <= width && 0.0 <= p.y <= height
  }

  predicate AllInCanvas(pos: seq<Position>, width: real, height: real)
  {
    forall i :: 0 <= i < |pos| ==> InCanvas(pos[i], width, height)
  }

  /** `displacement_length` */
  function Length(math: MathLib, d: Vec): real
  {
    math.sqrt(d.dx * d.dx + d.dy * d.dy)
  }

  /** The step a node takes: `min(|d|, temperature)` along the direction of `d`. */
  function Step(math: MathLib, d: Vec, temperature: real): Vec
    requires Length(math, d) > 0.0
  {
    var len := Length(math, d);
    var limited := Min(len, temperature);
    Vec(d.dx / len * limited, d.dy / len * limited)
  }

  /**
   * The final loop of `iterate` for one node: a node with a displacement
   * takes its step and is clamped into the canvas; a node without one is left
   * where it is.
   */
  function Move(math: MathLib, p: Position, d: Vec, temperature: real, width: real, height: real): Position
  {
    if Length(math, d) > 0.0 then
      var u := Step(math, d, temperature);
      Position(Clamp(p.x + u.dx, 0.0, width), Clamp(p.y + u.dy, 0.0, height))
    else p
  }

  /** A node with zero displacement stays exactly where it is. */
  lemma MoveZeroIsIdentity(math: MathLib, p: Position, temperature: real, width: real, height: real)
    requires Lawful(math)
    ensures Move(math, p, Vec(0.0, 0.0), temperature, width, height) == p
  {
  }

  /** A node in the canvas stays in the canvas. */
  lemma MoveStaysInCanvas(math: MathLib, p: Position, d: Vec, temperature: real, width: real, height: real)
    requires 0.0 <= width && 0.0 <= height && InCanvas(p, width, height)
    ensures InCanvas(Move(math, p, d, temperature, width, height), width, height)
  {
  }

  lemma LengthLaw(math: MathLib, d: Vec)
    requires Lawful(math)
    ensures 0.0 <= Length(math, d)
    ensures Length(math, d) * Length(math, d) == d.dx * d.dx + d.dy * d.dy
  {
    SquareNonNeg(d.dx);
    SquareNonNeg(d.dy);
  }

  /** A point strictly between `v` and `w`, or equal to `w`, is no further from `v` than `w` is. */
  lemma Closer(c: real, w: real, v: real)
    requires (v <= c <= w) || (w <= c <= v)
    ensures (c - v) * (c - v) <= (w - v) * (w - v)
  {
  }

  lemma StepCoordinate(ux: real, dx: real, len: real, step: real, s: real)
    requires len != 0.0 && ux == dx / len * step && s == step / len
    ensures ux == dx * s && s * len == step
  {
  }

  lemma StepSquare(ux: real, uy: real, dx: real, dy: real, s: real, len: real, step: real, l2: real)
    requires ux == dx * s && uy == dy * s && s * len == step
    requires l2 == dx * dx + dy * dy && len * len == l2
    ensures ux * ux + uy * uy == step * step
  {
  }

  lemma StepBound(ux: real, uy: real, step: real, t: real)
    requires ux * ux + uy * uy == step * step && 0.0 <= step <= t
    ensures ux * ux + uy * uy <= t * t
  {
  }

  lemma SumLe(ex: real, ey: real, ux: real, uy: real, t: real)
    requires ex * ex <= ux * ux && ey * ey <= uy * uy && ux * ux + uy * uy <= t * t
    ensures ex * ex + ey * ey <= t * t
  {
  }

  /** A step of length `step <= t` along `(dx, dy) / len` has squared length at most `t²`. */
  lemma StepWithin(dx: real, dy: real, len: real, step: real, t: real, ux: real, uy: real)
    requires 0.0 < len && len * len == dx * dx + dy * dy && 0.0 <= step <= t
    requires ux == dx / len * step && uy == dy / len * step
    ensures ux * ux + uy * uy <= t * t
  {
    ScaledStepLength(dx, dy, len, step, ux, uy);
    StepBound(ux, uy, step, t);
  }

  /**
   * Before clamping, a node moves exactly `min(|d|, temperature)`: its whole
   * displacement when that is shorter than the temperature, the temperature
   * otherwise.
   */
  lemma StepLength(math: MathLib, d: Vec, temperature: real)
    requires Lawful(math) && Length(math, d) > 0.0
    ensures var u := Step(math, d, temperature);
      u.dx * u.dx + u.dy * u.dy == Min(Length(math, d), temperature) * Min(Length(math, d), temperature)
  {
    LengthLaw(math, d);
    var len := Length(math, d);
    var u := Step(math, d, temperature);
    ScaledStepLength(d.dx, d.dy, len, Min(len, temperature), u.dx, u.dy);
  }

  /** `(ux, uy) = (dx, dy) / len · step` has length `step` when `len` is the length of `(dx, dy)`. */
  lemma ScaledStepLength(dx: real, dy: real, len: real, step: real, ux: real, uy: real)
    requires 0.0 < len && len * len == dx * dx + dy * dy
    requires ux == dx / len * step && uy == dy / len * step
    ensures ux * ux + uy * uy == step * step
  {
    var s := step / len;
    StepCoordinate(ux, dx, len, step, s);
    StepCoordinate(uy, dy, len, step, s);
    StepSquare(ux, uy, dx, dy, s, len, step, dx * dx + dy * dy);
  }

  /** Clamping a short step into the canvas keeps it short. */
  lemma ClampWithin(p: Position, ux: real, uy: real, t: real, width: real, height: real)
    requires InCanvas(p, width, height) && ux * ux + uy * uy <= t * t
    ensures SquaredDistance(p, Position(Clamp(p.x + ux, 0.0, width), Clamp(p.y + uy, 0.0, height))) <= t * t
  {
    var cx, cy := Clamp(p.x + ux, 0.0, width), Clamp(p.y + uy, 0.0, height);
    Closer(cx, p.x + ux, p.x);
    Closer(cy, p.y + uy, p.y);
    SumLe(cx - p.x, cy - p.y, ux, uy, t);
  }

  lemma StayWithin(p: Position, t: real)
    ensures SquaredDistance(p, p) <= t * t
  {
  }

  /** A node in the canvas moves by at most the temperature. */
  lemma MoveWithinTemperature(math: MathLib, p: Position, d: Vec, temperature: real, width: real, height: real)
    requires Lawful(math) && 0.0 <= temperature && InCanvas(p, width, height)
    ensures SquaredDistance(p, Move(math, p, d, temperature, width, height)) <= temperature * temperature
  {
    LengthLaw(math, d);
    if Length(math, d) > 0.0 {
      var u := Step(math, d, temperature);
      StepWithin(d.dx, d.dy, Length(math, d), Min(Length(math, d), temperature), temperature, u.dx, u.dy);
      ClampWithin(p, u.dx, u.dy, temperature, width, height);
    } else {
      StayWithin(p, temperature);
    }
  }

  /** `q` lies within distance `t` of `p`. */
  predicate Within(p: Position, q: Position, t: real)
  {
    SquaredDistance(p, q) <= t * t
  }

  /** The positions after the final loop of `iterate`. */
  function Moved(math: MathLib, pos: seq<Position>, disp: seq<Vec>, temperature: real, width: real, height: real): (r: seq<Position>)
    requires |disp| == |pos|
    ensures |r| == |pos|
  {
    seq(|pos|, i requires 0 <= i < |pos| => Move(math, pos[i], disp[i], temperature, width, height))
  }

  /** Every node of the canvas stays in it and moves by at most the temperature. */
  lemma MovedBounds(math: MathLib, pos: seq<Position>, disp: seq<Vec>, temperature: real, width: real, height: real)
    requires Lawful(math) && 0.0 <= temperature && 0.0 <= width && 0.0 <= height
    requires |disp| == |pos| && AllInCanvas(pos, width, height)
    ensures var r := Moved(math, pos, disp, temperature, width, height);
      AllInCanvas(r, width, height)
      && forall i :: 0 <= i < |r| ==> Within(pos[i], r[i], temperature)
  {
    var r := Moved(math, pos, disp, temperature, width, height);
    forall i | 0 <= i < |r|
      ensures InCanvas(r[i], width, height)
      ensures Within(pos[i], r[i], temperature)
    {
      MoveStaysInCanvas(math, pos[i], disp[i], temperature, width, height);
      MoveWithinTemperature(math, pos[i], disp[i], temperature, width, height);
    }
  }

  // ---------------------------------------------------------------------
  // The initial circle and the cooling schedule
  // ---------------------------------------------------------------------

  /** Node `i` of `n` starts at angle `i/n · τ`. */
  function Angle(i: nat, n: nat): real
    requires n > 0
  {
    (i as real / n as real) * Tau
  }

  /** The starting point of node `i` of `n`, on the circle about the canvas centre. */
  function InitialPosition(math: MathLib, i: nat, n: nat, width: real, height: real): Position
    requires n > 0
  {
    var c := Centre(width, height);
    var radius := IdealRadius(width, height);
    Position(c.x + radius * math.cos(Angle(i, n)), c.y + radius * math.sin(Angle(i, n)))
  }

  lemma ScaledUnit(a: real, b: real, s: real)
    requires a * a + b * b == 1.0
    ensures (s * a) * (s * a) + (s * b) * (s * b) == s * s
  {
  }

  /** Every initial position lies on the circle of radius `min(w, h)/2.5` about the centre. */
  lemma InitialPositionOnCircle(math: MathLib, i: nat, n: nat, width: real, height: real)
    requires Lawful(math) && n > 0
    ensures SquaredDistance(InitialPosition(math, i, n, width, height), Centre(width, height))
      == IdealRadius(width, height) * IdealRadius(width, height)
  {
    ScaledUnit(math.cos(Angle(i, n)), math.sin(Angle(i, n)), IdealRadius(width, height));
  }

  /** Cosine and sine lie in [-1, 1]. */
  lemma UnitBounds(c: real, s: real)
    requires c * c + s * s == 1.0
    ensures -1.0 <= c <= 1.0 && -1.0 <= s <= 1.0
  {
  }

  lemma ScaleWithin(a: real, r: real)
    requires -1.0 <= a <= 1.0 && 0.0 <= r
    ensures -r <= r * a <= r
  {
  }

  /** The initial circle fits the canvas: its radius is at most half of either side. */
  lemma IdealRadiusFits(width: real, height: real)
    requires 0.0 < width && 0.0 < height
    ensures 0.0 <= IdealRadius(width, height) <= width / 2.0
    ensures IdealRadius(width, height) <= height / 2.0
  {
  }

  /** Every initial position is inside the canvas. */
  lemma InitialPositionInCanvas(math: MathLib, i: nat, n: nat, width: real, height: real)
    requires Lawful(math) && n > 0 && 0.0 < width && 0.0 < height
    ensures InCanvas(InitialPosition(math, i, n, width, height), width, height)
  {
    var c, s := math.cos(Angle(i, n)), math.sin(Angle(i, n));
    var radius := IdealRadius(width, height);
    UnitBounds(c, s);
    IdealRadiusFits(width, height);
    ScaleWithin(c, radius);
    ScaleWithin(s, radius);
    var p := InitialPosition(math, i, n, width, height);
    assert p == Position(width / 2.0 + radius * c, height / 2.0 + radius * s);
    assert 0.0 <= p.x <= width;
    assert 0.0 <= p.y <= height;
  }

  function Pow(b: real, n: nat): real
  {
    if n == 0 then 1.0 else b * Pow(b, n - 1)
  }

  /** The temperature after `n` iterations from `t0`. */
  function Cooled(t0: real, n: nat): real
  {
    t0 * Pow(CoolingFactor, n)
  }

  /** No cooling has happened before the first iteration. */
  lemma CoolingStart(t0: real)
    ensures Cooled(t0, 0) == t0
  {
  }

  /** One more cooling step follows the schedule. */
  lemma CoolingStep(t0: real, t: real, n: nat)
    requires t == Cooled(t0, n)
    ensures t * CoolingFactor == Cooled(t0, n + 1)
  {
  }

  /** The cooling schedule strictly decreases and stays positive. */
  lemma {:induction false} CoolingDecreases(n: nat)
    ensures 0.0 < Pow(CoolingFactor, n + 1) < Pow(CoolingFactor, n) <= 1.0
  {
    if n > 0 {
      CoolingDecreases(n - 1);
    }
  }

  /** The temperature never goes negative. */
  lemma CooledNonNeg(t0: real, n: nat)
    requires 0.0 <= t0
    ensures 0.0 <= Cooled(t0, n)
  {
    CoolingDecreases(n);
    ProductNonNeg(t0, Pow(CoolingFactor, n));
  }

  // ---------------------------------------------------------------------
  // Whole runs
  // ---------------------------------------------------------------------

  /**
   * The positions after `n` iterations from `pos` at starting temperature
   * `t0`: each iteration moves every node by the displacements of the
   * positions before it, at that iteration's temperature.
   */
  function Laid(math: MathLib, k: real, width: real, height: real, pos: seq<Position>, edges: seq<Edge>, t0: real, n: nat): (r: seq<Position>)
    requires k != 0.0 && EdgesWithin(edges, |pos|)
    ensures |r| == |pos|
    decreases n
  {
    if n == 0 then pos
    else
      var prev := Laid(math, k, width, height, pos, edges, t0, n - 1);
      Moved(math, prev, Displacements(math, k, width, height, prev, edges), Cooled(t0, n - 1), width, height)
  }

  /**
   * A whole run keeps every node in the canvas, and iteration `n` moves each
   * node by at most the temperature it runs at.
   */
  lemma {:induction false} LaidInCanvas(math: MathLib, k: real, width: real, height: real, pos: seq<Position>, edges: seq<Edge>, t0: real, n: nat)
    requires Lawful(math) && k != 0.0 && EdgesWithin(edges, |pos|)
    requires 0.0 <= t0 && 0.0 <= width && 0.0 <= height && AllInCanvas(pos, width, height)
    ensures AllInCanvas(Laid(math, k, width, height, pos, edges, t0, n), width, height)
    ensures n > 0 ==> forall i :: 0 <= i < |pos| ==>
      Within(Laid(math, k, width, height, pos, edges, t0, n - 1)[i], Laid(math, k, width, height, pos, edges, t0, n)[i], Cooled(t0, n - 1))
    decreases n
  {
    if n > 0 {
      LaidInCanvas(math, k, width, height, pos, edges, t0, n - 1);
      LaidStepBounds(math, k, width, height, pos, edges, t0, n);
    }
  }

  /** Iteration `n` of a run, from positions in the canvas. */
  lemma LaidStepBounds(math: MathLib, k: real, width: real, height: real, pos: seq<Position>, edges: seq<Edge>, t0: real, n: nat)
    requires Lawful(math) && k != 0.0 && EdgesWithin(edges, |pos|) && n > 0
    requires 0.0 <= t0 && 0.0 <= width && 0.0 <= height
    requires AllInCanvas(Laid(math, k, width, height, pos, edges, t0, n - 1), width, height)
    ensures AllInCanvas(Laid(math, k, width, height, pos, edges, t0, n), width, height)
    ensures forall i :: 0 <= i < |pos| ==>
      Within(Laid(math, k, width, height, pos, edges, t0, n - 1)[i], Laid(math, k, width, height, pos, edges, t0, n)[i], Cooled(t0, n - 1))
  {
    var prev := Laid(math, k, width, height, pos, edges, t0, n - 1);
    var t := Cooled(t0, n - 1);
    CooledNonNeg(t0, n - 1);
    MovedBounds(math, prev, Displacements(math, k, width, height, prev, edges), t, width, height);
  }

  /** The `n` starting points on the circle. */
  function InitialPositions(math: MathLib, n: nat, width: real, height: real): (r: seq<Position>)
    requires n > 0
    ensures |r| == n
  {
    seq(n, i requires 0 <= i < n => InitialPosition(math, i, n, width, height))
  }

  lemma InitialPositionsInCanvas(math: MathLib, n: nat, width: real, height: real)
    requires Lawful(math) && n > 0 && 0.0 < width && 0.0 < height
    ensures AllInCanvas(InitialPositions(math, n, width, height), width, height)
  {
    forall i | 0 <= i < n
      ensures InCanvas(InitialPositions(math, n, width, height)[i], width, height)
    {
      InitialPositionInCanvas(math, i, n, width, height);
    }
  }

  /** The ideal edge length `k = sqrt(w·h/n)` of `n` nodes. */
  function IdealDistance(math: MathLib, n: nat, width: real, height: real): real
    requires n > 0
  {
    math.sqrt(width * height / n as real)
  }

  lemma IdealDistancePos(math: MathLib, n: nat, width: real, height: real)
    requires Lawful(math) && n > 0 && 0.0 < width && 0.0 < height
    ensures 0.0 < IdealDistance(math, n, width, height)
  {
    ProductPos(width, height);
    QuotientPos(width * height, width, height, n as real);
  }

  /**
   * The layout `calculate_positions` reads off: `n` nodes started on the
   * circle, `iterations` rounds from temperature `w/10`, every node ending in
   * the canvas.
   */
  function LaidOut(math: MathLib, n: nat, width: real, height: real, edges: seq<Edge>, iterations: nat): (r: seq<Position>)
    requires Lawful(math) && n > 0 && 0.0 < width && 0.0 < height && EdgesWithin(edges, n)
    ensures |r| == n
    ensures AllInCanvas(r, width, height)
  {
    IdealDistancePos(math, n, width, height);
    InitialPositionsInCanvas(math, n, width, height);
    LaidInCanvas(math, IdealDistance(math, n, width, height), width, height,
      InitialPositions(math, n, width, height), edges, width / 10.0, iterations);
    Laid(math, IdealDistance(math, n, width, height), width, height,
      InitialPositions(math, n, width, height), edges, width / 10.0, iterations)
  }

  // ---------------------------------------------------------------------
  // The imperative layout
  // ---------------------------------------------------------------------

  /** The first double loop of `iterate`: each pair `i < j` once, in row order. */
  method ApplyRepulsion(math: MathLib, k: real, pos: seq<Position>, disp: seq<Vec>) returns (r: seq<Vec>)
    requires |disp| == |pos|
    ensures r == Repulsion(math, k, pos, disp, |pos|)
    ensures Total(r) == Total(disp)
  {
    r := disp;
    for i := 0 to |pos|
      invariant r == Repulsion(math, k, pos, disp, i)
    {
      ghost var rowStart := r;
      for j := i + 1 to |pos|
        invariant r == RepulsionRow(math, k, pos, rowStart, i, j)
      {
        var distance := Distance(math, pos[i], pos[j]);
        if distance > 0.0 {
          var push := Push(pos[i], pos[j], distance, RepulsiveForce(k, distance));
          r := r[i := Plus(r[i], push)];
          r := r[j := Minus(r[j], push)];
        }
      }
    }
    RepulsionTotal(math, k, pos, disp, |pos|);
  }

  /** The edge loop of `iterate`. */
  method ApplyAttraction(math: MathLib, k: real, pos: seq<Position>, disp: seq<Vec>, edges: seq<Edge>) returns (r: seq<Vec>)
    requires k != 0.0 && EdgesWithin(edges, |pos|) && |disp| == |pos|
    ensures r == Attraction(math, k, pos, disp, edges, |edges|)
    ensures Total(r) == Total(disp)
  {
    r := disp;
    for t := 0 to |edges|
      invariant r == Attraction(math, k, pos, disp, edges, t)
    {
      var u, v := edges[t].a, edges[t].b;
      var distance := Distance(math, pos[u], pos[v]);
      if distance > 0.0 {
        var push := Push(pos[v], pos[u], distance, AttractiveForce(k, distance));
        r := r[u := Plus(r[u], push)];
        r := r[v := Minus(r[v], push)];
      }
    }
    AttractionTotal(math, k, pos, disp, edges, |edges|);
  }

  /** The centring loop of `iterate`: gravity, then the circular spring, node by node. */
  method ApplyCentring(math: MathLib, k: real, width: real, height: real, pos: seq<Position>, disp: seq<Vec>)
    returns (r: seq<Vec>)
    requires |disp| == |pos|
    ensures |r| == |pos|
    ensures forall i :: 0 <= i < |pos| ==> r[i] == Centred(math, k, width, height, pos[i], disp[i])
  {
    r := disp;
    for i := 0 to |pos|
      invariant |r| == |pos|
      invariant forall j :: 0 <= j < i ==> r[j] == Centred(math, k, width, height, pos[j], disp[j])
      invariant forall j :: i <= j < |pos| ==> r[j] == disp[j]
    {
      var d := Plus(r[i], Gravity(k, width, height, pos[i]));
      if Distance(math, pos[i], Centre(width, height)) > 0.0 {
        d := Minus(d, Spring(math, width, height, pos[i]));
      }
      r := r[i := d];
    }
  }

  /** The final loop of `iterate`: every node with a displacement takes its capped, clamped step. */
  method ApplyMoves(math: MathLib, pos: seq<Position>, disp: seq<Vec>, temperature: real, width: real, height: real)
    returns (r: seq<Position>)
    requires |disp| == |pos|
    ensures r == Moved(math, pos, disp, temperature, width, height)
  {
    r := pos;
    for i := 0 to |pos|
      invariant |r| == |pos|
      invariant forall j :: 0 <= j < i ==> r[j] == Move(math, pos[j], disp[j], temperature, width, height)
      invariant forall j :: i <= j < |pos| ==> r[j] == pos[j]
    {
      if Length(math, disp[i]) > 0.0 {
        var step := Step(math, disp[i], temperature);
        r := r[i := Position(Clamp(r[i].x + step.dx, 0.0, width), Clamp(r[i].y + step.dy, 0.0, height))];
      }
    }
  }

  /** The three force loops of `iterate`, from zero displacements. */
  method ComputeDisplacements(math: MathLib, k: real, width: real, height: real, pos: seq<Position>, edges: seq<Edge>)
    returns (r: seq<Vec>)
    requires k != 0.0 && EdgesWithin(edges, |pos|)
    ensures r == Displacements(math, k, width, height, pos, edges)
  {
    r := Zeros(|pos|);
    r := ApplyRepulsion(math, k, pos, r);
    r := ApplyAttraction(math, k, pos, r, edges);
    r := ApplyCentring(math, k, width, height, pos, r);
  }

  /** `ForceDirectedLayout`: one position per node, indexed by node. */
  class ForceDirectedLayout {
    var positions: seq<Position>
    const width: real
    const height: real
    const k: real
    var temperature: real
    const coolingFactor: real
    const math: MathLib

    /** The canvas is non-empty, `k` is positive, and every node is in the canvas. */
    ghost predicate Valid()
      reads this
    {
      Lawful(math) && 0.0 < width && 0.0 < height && 0.0 < k && 0.0 <= temperature
      && coolingFactor == CoolingFactor && AllInCanvas(positions, width, height)
    }

    /**
     * `ForceDirectedLayout::new` for a graph of `n > 0` nodes (the only caller
     * returns early on an empty graph): nodes on the circle, `k = sqrt(w·h/n)`,
     * temperature `w/10`.
     */
    constructor (n: nat, width: real, height: real, math: MathLib)
      requires n > 0 && 0.0 < width && 0.0 < height && Lawful(math)
      ensures |positions| == n
      ensures positions == InitialPositions(math, n, width, height)
      ensures this.width == width && this.height == height && this.math == math
      ensures k == IdealDistance(math, n, width, height)
      ensures temperature == width / 10.0
      ensures Valid()
    {
      var ps: seq<Position> := [];
      for i := 0 to n
        invariant |ps| == i
        invariant forall j :: 0 <= j < i ==> ps[j] == InitialPosition(math, j, n, width, height)
        invariant AllInCanvas(ps, width, height)
      {
        InitialPositionInCanvas(math, i, n, width, height);
        ps := ps + [InitialPosition(math, i, n, width, height)];
      }
      assert ps == InitialPositions(math, n, width, height);
      var area := width * height;
      QuotientPos(area, width, height, n as real);
      positions := ps;
      this.width := width;
      this.height := height;
      this.math := math;
      k := math.sqrt(area / n as real);
      temperature := width / 10.0;
      coolingFactor := 0.95;
    }

    /** `iterate`: every node takes its step, bounded by the temperature and clamped, then the layout cools. */
    method Iterate(edges: seq<Edge>)
      requires Valid() && EdgesWithin(edges, |positions|)
      modifies this
      ensures Valid()
      ensures positions == Moved(math, old(positions),
        Displacements(math, k, width, height, old(positions), edges), old(temperature), width, height)
      ensures forall i :: 0 <= i < |positions| ==> Within(old(positions)[i], positions[i], old(temperature))
      ensures temperature == old(temperature) * CoolingFactor
    {
      var t := temperature;
      var cooled := t * coolingFactor;
      assert cooled == t * CoolingFactor;
      ProductNonNeg(t, coolingFactor);
      var displacements := ComputeDisplacements(math, k, width, height, positions, edges);
      MovedBounds(math, positions, displacements, t, width, height);
      positions := ApplyMoves(math, positions, displacements, t, width, height);
      temperature := cooled;
    }

    /**
     * `run`: `iterations` steps; the positions are those of `Laid` and the
     * temperature follows the geometric cooling schedule.
     */
    method Run(edges: seq<Edge>, iterations: nat)
      requires Valid() && EdgesWithin(edges, |positions|)
      modifies this
      ensures Valid()
      ensures positions == Laid(math, k, width, height, old(positions), edges, old(temperature), iterations)
      ensures temperature == Cooled(old(temperature), iterations)
    {
      CoolingStart(temperature);
      for i := 0 to iterations
        invariant Valid()
        invariant positions == Laid(math, k, width, height, old(positions), edges, old(temperature), i)
        invariant temperature == Cooled(old(temperature), i)
      {
        ghost var before := temperature;
        Iterate(edges);
        CoolingStep(old(temperature), before, i);
      }
    }
  }

  lemma LaidOutUnfolds(math: MathLib, n: nat, width: real, height: real, edges: seq<Edge>, iterations: nat)
    requires Lawful(math) && n > 0 && 0.0 < width && 0.0 < height && EdgesWithin(edges, n)
    ensures 0.0 < IdealDistance(math, n, width, height)
    ensures LaidOut(math, n, width, height, edges, iterations)
      == Laid(math, IdealDistance(math, n, width, height), width, height,
           InitialPositions(math, n, width, height), edges, width / 10.0, iterations)
  {
    IdealDistancePos(math, n, width, height);
  }

  /**
   * The layout step of `calculate_positions`: a new layout for `n` nodes,
   * run for `iterations` rounds, read off node by node.
   */
  method LayOut(math: MathLib, n: nat, width: real, height: real, edges: seq<Edge>, iterations: nat)
    returns (positions: seq<Position>)
    requires Lawful(math) && n > 0 && 0.0 < width && 0.0 < height && EdgesWithin(edges, n)
    ensures positions == LaidOut(math, n, width, height, edges, iterations)
  {
    var layout := new ForceDirectedLayout(n, width, height, math);
    ghost var start, t0 := layout.positions, layout.temperature;
    LaidOutUnfolds(math, n, width, height, edges, iterations);
    assert layout.k == IdealDistance(math, n, width, height) && start == InitialPositions(math, n, width, height) && t0 == width / 10.0;
    ghost var laidOut := Laid(math, layout.k, width, height, start, edges, t0, iterations);
    assert laidOut == LaidOut(math, n, width, height, edges, iterations);
    layout.Run(edges, iterations);
    positions := layout.positions;
    assert positions == laidOut;
  }
}
