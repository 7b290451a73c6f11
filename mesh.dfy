/** The fractal mesh of the headless triangle demo.

    `buildVertex` takes a triangle, a current depth and a target depth. Below the target it splits
    the triangle at its edge midpoints, keeps the three corner triangles, drops the centre one and
    recurses into the corners; at the target it appends the triangle's three vertices to the shared
    vertex list. `setVertex` runs it on four seed triangles. Positions and colours are reals in place
    of 32-bit floats. Vertex count, order, colours and the shape of each corner triangle do not
    depend on rounding; midpoint equidistance and containment in the seed triangle hold for exact
    reals only. */
module Mesh {
  import opened Common

  /** A position or an RGB colour: the `float[3]` arrays of `Vertex`. */
  datatype Vec3 = Vec3(x: real, y: real, z: real)

  datatype Vertex = Vertex(position: Vec3, color: Vec3)

  /** Bytes of one `Vertex` in the vertex buffer: six 32-bit floats. */
  const VertexSize: nat := 24

  /** The component-wise midpoint `(a + b) / 2`. */
  function Mid(a: Vec3, b: Vec3): (m: Vec3)
    ensures m.x - a.x == b.x - m.x && m.y - a.y == b.y - m.y && m.z - a.z == b.z - m.z
  {
    Vec3((a.x + b.x) / 2.0, (a.y + b.y) / 2.0, (a.z + b.z) / 2.0)
  }

  lemma MidSymmetric(a: Vec3, b: Vec3)
    ensures Mid(a, b) == Mid(b, a)
  {
  }

  /** `nposition[j]`: the midpoint of the edge opposite corner `j`. */
  function OppositeMidpoint(t: seq<Vertex>, j: nat): (m: Vec3)
    requires |t| >= 3 && j < 3
    ensures var a, b := t[(j + 1) % 3].position, t[(j + 2) % 3].position;
      m.x - a.x == b.x - m.x && m.y - a.y == b.y - m.y && m.z - a.z == b.z - m.z
  {
    Mid(t[(j + 1) % 3].position, t[(j + 2) % 3].position)
  }

  /** The corner sub-triangle `i`, as one pass of the second loop leaves it in `ninput`: slot `i`
      keeps its position, the two other slots take the midpoints stored for them. */
  function Corner(t: seq<Vertex>, i: nat): (c: seq<Vertex>)
    requires |t| >= 3 && i < 3
    ensures |c| == |t|
    ensures c[i] == t[i]
  {
    var j, k := (i + 1) % 3, (i + 2) % 3;
    t[j := t[j].(position := OppositeMidpoint(t, j))][k := t[k].(position := OppositeMidpoint(t, k))]
  }

  /** Corner `i` keeps vertex `i` and halves the two edges that meet there; colours, and any
      element past the third, are those of `t`. */
  lemma CornerShape(t: seq<Vertex>, i: nat)
    requires |t| >= 3 && i < 3
    ensures var c := Corner(t, i);
      && c[3..] == t[3..]
      && (forall j :: 0 <= j < 3 ==> c[j].color == t[j].color)
      && c[i].position == t[i].position
      && c[(i + 1) % 3].position == Mid(t[i].position, t[(i + 2) % 3].position)
      && c[(i + 2) % 3].position == Mid(t[i].position, t[(i + 1) % 3].position)
  {
  }

  /** `ninput[m].position = p`, the three coordinates at once. */
  function Place(s: seq<Vertex>, m: nat, p: Vec3): (s': seq<Vertex>)
    requires m < |s|
    ensures |s'| == |s|
  {
    s[m := s[m].(position := p)]
  }

  /** One pass of the second loop of `buildVertex`: whatever an earlier pass left in the three
      slots, the three assignments of pass `i` turn a copy of `t` into `Corner(t, i)`. */
  lemma PlaceCorner(t: seq<Vertex>, s: seq<Vertex>, i: nat)
    requires |t| >= 3 && i < 3
    requires |s| == |t| && s[3..] == t[3..]
    requires forall j :: 0 <= j < 3 ==> s[j].color == t[j].color
    ensures var j, k := (i + 1) % 3, (i + 2) % 3;
      Place(Place(Place(s, i, t[i].position), j, OppositeMidpoint(t, j)), k, OppositeMidpoint(t, k))
        == Corner(t, i)
  {
    var j, k := (i + 1) % 3, (i + 2) % 3;
    var c := Place(Place(Place(s, i, t[i].position), j, OppositeMidpoint(t, j)), k, OppositeMidpoint(t, k));
    var e := Corner(t, i);
    forall m | 0 <= m < |c|
      ensures c[m] == e[m]
    {
      if m >= 3 {
        assert c[m] == s[3..][m - 3] && e[m] == e[3..][m - 3];
      } else {
        assert m == i || m == j || m == k;
      }
    }
  }

  function Pow3(n: nat): (p: nat)
    ensures p >= 1
  {
    if n == 0 then 1 else 3 * Pow3(n - 1)
  }

  // ---------------------------------------------------------------------------------------------
  // What buildVertex appends

  /** The vertices one call `buildVertex(vertices, t, cur, target)` appends, as a function of the
      number of levels left, `d = target - cur`: nothing when the call starts past the target, the
      first three vertices of `t` at the target, and below it the leaves of the three corners. */
  function Subdivide(t: seq<Vertex>, d: int): (out: seq<Vertex>)
    requires d >= 0 ==> |t| >= 3
    ensures |out| == if d < 0 then 0 else 3 * Pow3(d)
    decreases d, 4
  {
    if d < 0 then []
    else if d == 0 then t[..3]
    else CornerLeaves(t, d, 3)
  }

  /** The leaves of corners `0 .. n - 1`, in the order the second loop of `buildVertex` visits
      them: corner 0 first. */
  function CornerLeaves(t: seq<Vertex>, d: int, n: nat): (leaves: seq<Vertex>)
    requires |t| >= 3 && d > 0 && n <= 3
    ensures var p := 3 * Pow3(d - 1);
      |leaves| == (if n >= 1 then p else 0) + (if n >= 2 then p else 0) + (if n >= 3 then p else 0)
    decreases d, n
  {
    if n == 0 then [] else CornerLeaves(t, d, n - 1) + Subdivide(Corner(t, n - 1), d - 1)
  }

  /** Unfolded: the leaves of corner 0, then of corner 1, then of corner 2. */
  lemma SubdivideSplit(t: seq<Vertex>, d: int)
    requires |t| >= 3 && d > 0
    ensures Subdivide(t, d)
      == Subdivide(Corner(t, 0), d - 1) + Subdivide(Corner(t, 1), d - 1) + Subdivide(Corner(t, 2), d - 1)
  {
    var s0, s1, s2 := Subdivide(Corner(t, 0), d - 1), Subdivide(Corner(t, 1), d - 1), Subdivide(Corner(t, 2), d - 1);
    assert Subdivide(t, d) == CornerLeaves(t, d, 3);
    assert CornerLeaves(t, d, 3) == CornerLeaves(t, d, 2) + s2;
    assert CornerLeaves(t, d, 2) == CornerLeaves(t, d, 1) + s1;
    assert CornerLeaves(t, d, 1) == [] + s0;
    assert [] + s0 == s0;
  }

  /** Offset `k` of the output lies in the block of corner 0, 1 or 2, each `3 * 3^(d-1)` long. */
  lemma SubdivideIndex(t: seq<Vertex>, d: int, k: nat)
    requires |t| >= 3 && d > 0 && k < 3 * Pow3(d)
    ensures var p := 3 * Pow3(d - 1);
      Subdivide(t, d)[k]
        == if k < p then Subdivide(Corner(t, 0), d - 1)[k]
           else if k < 2 * p then Subdivide(Corner(t, 1), d - 1)[k - p]
           else Subdivide(Corner(t, 2), d - 1)[k - 2 * p]
  {
    SubdivideSplit(t, d);
  }

  // ---------------------------------------------------------------------------------------------
  // buildVertex

  /** The first loop of `buildVertex`: `nposition[j]` is the midpoint of the edge opposite corner
      `j`. */
  method OppositeMidpoints(input: seq<Vertex>) returns (nposition: array<Vec3>)
    requires |input| >= 3
    ensures fresh(nposition) && nposition.Length == 3
    ensures forall j :: 0 <= j < 3 ==> nposition[j] == OppositeMidpoint(input, j)
  {
    nposition := new Vec3[3];
    var i := 0;
    while i < 3
      invariant 0 <= i <= 3
      invariant forall j :: 0 <= j < i ==> nposition[j] == OppositeMidpoint(input, j)
    {
      nposition[i] := Mid(input[(i + 1) % 3].position, input[(i + 2) % 3].position);
      i := i + 1;
    }
  }

  /** The subdivision itself. The vector the source passes by reference comes in as `vertices` and
      goes out as `vertices'`; the by-value `input` is a value here as well. */
  method BuildVertex(vertices: seq<Vertex>, input: seq<Vertex>, cur: int, target: int)
    returns (vertices': seq<Vertex>)
    requires cur <= target ==> |input| >= 3
    ensures vertices' == vertices + Subdivide(input, target - cur)
    decreases target - cur
  {
    vertices' := vertices;
    if cur > target {
      return;
    }
    if cur == target {
      vertices' := PushTriangle(vertices, input);
    } else {
      var d := target - cur;
      var ninput := input;
      var nposition := OppositeMidpoints(input);
      var i := 0;
      while i < 3
        invariant 0 <= i <= 3
        invariant |ninput| == |input| && ninput[3..] == input[3..]
        invariant forall j :: 0 <= j < 3 ==> ninput[j].color == input[j].color
        invariant forall j :: 0 <= j < 3 ==> nposition[j] == OppositeMidpoint(input, j)
        invariant vertices' == vertices + CornerLeaves(input, d, i)
      {
        ninput := CutCorner(input, ninput, nposition, i);
        CornerShape(input, i);
        CornerLeavesStep(input, d, i, vertices);
        vertices' := BuildVertex(vertices', ninput, cur + 1, target);
        i := i + 1;
      }
    }
  }

  /** Pass `i` of the second loop of `buildVertex`, up to the recursive call: slot `i` takes back
      the position of input vertex `i`, the two other slots the midpoints stored for them. */
  method CutCorner(input: seq<Vertex>, ninput: seq<Vertex>, nposition: array<Vec3>, i: nat)
    returns (ninput': seq<Vertex>)
    requires |input| >= 3 && i < 3
    requires |ninput| == |input| && ninput[3..] == input[3..]
    requires forall j :: 0 <= j < 3 ==> ninput[j].color == input[j].color
    requires nposition.Length == 3
    requires forall j :: 0 <= j < 3 ==> nposition[j] == OppositeMidpoint(input, j)
    ensures ninput' == Corner(input, i)
  {
    var j, k := (i + 1) % 3, (i + 2) % 3;
    PlaceCorner(input, ninput, i);
    ninput' := Place(ninput, i, input[i].position);
    ninput' := Place(ninput', j, nposition[j]);
    ninput' := Place(ninput', k, nposition[k]);
  }

  /** The first branch of `buildVertex`: the three vertices of `input`, pushed in order. */
  method PushTriangle(vertices: seq<Vertex>, input: seq<Vertex>) returns (vertices': seq<Vertex>)
    requires |input| >= 3
    ensures vertices' == vertices + input[..3]
  {
    vertices' := vertices;
    var i := 0;
    while i < 3
      invariant 0 <= i <= 3
      invariant vertices' == vertices + input[..i]
    {
      vertices' := vertices' + [input[i]];
      i := i + 1;
    }
  }

  /** Appending the leaves of corner `i` after those of the corners before it. */
  lemma CornerLeavesStep(t: seq<Vertex>, d: int, i: nat, vertices: seq<Vertex>)
    requires |t| >= 3 && d > 0 && i < 3
    ensures vertices + CornerLeaves(t, d, i) + Subdivide(Corner(t, i), d - 1)
      == vertices + CornerLeaves(t, d, i + 1)
  {
    var a, b, c := vertices, CornerLeaves(t, d, i), Subdivide(Corner(t, i), d - 1);
    assert CornerLeaves(t, d, i + 1) == b + c;
    assert (a + b) + c == a + (b + c);
  }

  // ---------------------------------------------------------------------------------------------
  // Colours

  /** The vertex at offset `k` of a call's output carries the colour of input slot `k mod 3`:
      colours are carried along, never interpolated. */
  lemma {:induction false} SubdivideKeepsColors(t: seq<Vertex>, d: int)
    requires d >= 0 ==> |t| >= 3
    ensures var out := Subdivide(t, d);
      forall k :: 0 <= k < |out| ==> out[k].color == t[k % 3].color
    decreases d, 1
  {
    if d > 0 {
      CornerKeepsColors(t, 0, d);
      CornerKeepsColors(t, 1, d);
      CornerKeepsColors(t, 2, d);
      SubdivideSplit(t, d);
      ConcatKeepsColors(Subdivide(Corner(t, 0), d - 1), Subdivide(Corner(t, 1), d - 1),
                        Subdivide(Corner(t, 2), d - 1), t, Pow3(d - 1));
    }
  }

  /** The leaves of a corner carry the colours of the triangle the corner was cut from. */
  lemma {:induction false} CornerKeepsColors(t: seq<Vertex>, i: nat, d: int)
    requires |t| >= 3 && i < 3 && d > 0
    ensures var out := Subdivide(Corner(t, i), d - 1);
      forall k :: 0 <= k < |out| ==> out[k].color == t[k % 3].color
    decreases d, 0
  {
    SubdivideKeepsColors(Corner(t, i), d - 1);
    CornerShape(t, i);
  }

  /** Three blocks, each a multiple of 3 long, keep the colour pattern of slot `k mod 3`. */
  lemma ConcatKeepsColors(s0: seq<Vertex>, s1: seq<Vertex>, s2: seq<Vertex>, t: seq<Vertex>, p: nat)
    requires |t| >= 3 && |s0| == 3 * p && |s1| == 3 * p && |s2| == 3 * p
    requires forall k :: 0 <= k < 3 * p ==> s0[k].color == t[k % 3].color
    requires forall k :: 0 <= k < 3 * p ==> s1[k].color == t[k % 3].color
    requires forall k :: 0 <= k < 3 * p ==> s2[k].color == t[k % 3].color
    ensures forall k :: 0 <= k < 9 * p ==> (s0 + s1 + s2)[k].color == t[k % 3].color
  {
    forall k | 0 <= k < 9 * p
      ensures (s0 + s1 + s2)[k].color == t[k % 3].color
    {
      if 3 * p <= k < 6 * p {
        ModThreeShift(k - 3 * p, p);
      } else if 6 * p <= k {
        ModThreeShift(k - 6 * p, 2 * p);
      }
    }
  }

  /** Euclidean division is unique: `q` and `r` are the quotient and remainder of `q * m + r`. */
  lemma DivModUnique(n: int, m: int, q: int, r: int)
    requires m > 0 && 0 <= r < m && n == q * m + r
    ensures n / m == q && n % m == r
  {
    var q0, r0 := n / m, n % m;
    assert (q0 - q) * m == r - r0;
    if q0 > q {
      MulMonotone(1, q0 - q, m);
    } else if q0 < q {
      MulMonotone(1, q - q0, m);
    }
  }

  /** Adding a multiple of 3 does not change a remainder modulo 3. */
  lemma ModThreeShift(k: int, p: int)
    ensures (k + 3 * p) % 3 == k % 3
  {
    DivModUnique(k + 3 * p, 3, k / 3 + p, k % 3);
  }

  // ---------------------------------------------------------------------------------------------
  // Output order: depth first, corner 0 before corner 1 before corner 2

  /** Leaf triangle number `j` of a subdivision `d` levels deep: the leading base-3 digit of `j`
      picks the corner, the rest of `j` the leaf inside it. */
  function Leaf(t: seq<Vertex>, d: nat, j: nat): (leaf: seq<Vertex>)
    requires |t| >= 3 && j < Pow3(d)
    ensures |leaf| == |t|
    decreases d
  {
    if d == 0 then t
    else
      var p := Pow3(d - 1);
      if j < p then Leaf(Corner(t, 0), d - 1, j)
      else if j < 2 * p then Leaf(Corner(t, 1), d - 1, j - p)
      else Leaf(Corner(t, 2), d - 1, j - 2 * p)
  }

  /** Vertex `r` of triangle number `j` in a call's output is vertex `r` of leaf `j`: the output
      is the leaves in depth-first order, every leaf of corner 0 before every leaf of corner 1,
      before those of corner 2, at every level. */
  lemma {:induction false} SubdivideIsPreorder(t: seq<Vertex>, d: nat, j: nat, r: nat)
    requires |t| >= 3 && j < Pow3(d) && r < 3
    ensures 3 * j + r < |Subdivide(t, d)|
    ensures Subdivide(t, d)[3 * j + r] == Leaf(t, d, j)[r]
    decreases d
  {
    if d == 0 {
      assert Subdivide(t, 0) == t[..3] && Leaf(t, 0, 0) == t;
    } else {
      var p := Pow3(d - 1);
      assert Pow3(d) == 3 * p;
      var c: nat, jc: nat;
      if j < p {
        c, jc := 0, j;
      } else if j < 2 * p {
        c, jc := 1, j - p;
      } else {
        c, jc := 2, j - 2 * p;
      }
      SubdivideIsPreorder(Corner(t, c), d - 1, jc, r);
      PreorderStep(t, d, c, jc, j, r);
    }
  }

  /** One level of `SubdivideIsPreorder`: leaf `jc` of corner `c` is leaf `n` of the triangle, and
      both sit at the same place in the two outputs. */
  lemma PreorderStep(t: seq<Vertex>, d: nat, c: nat, jc: nat, n: nat, r: nat)
    requires |t| >= 3 && d > 0 && c < 3 && r < 3 && jc < Pow3(d - 1)
    requires n == jc + (if c == 0 then 0 else if c == 1 then Pow3(d - 1) else 2 * Pow3(d - 1))
    requires Subdivide(Corner(t, c), d - 1)[3 * jc + r] == Leaf(Corner(t, c), d - 1, jc)[r]
    ensures n < Pow3(d) && Subdivide(t, d)[3 * n + r] == Leaf(t, d, n)[r]
  {
    BlockOffset(t, d, c, jc, n, r);
    LeafStep(t, d, c, jc, n);
  }

  lemma BlockOffset(t: seq<Vertex>, d: nat, c: nat, jc: nat, n: nat, r: nat)
    requires |t| >= 3 && d > 0 && c < 3 && r < 3 && jc < Pow3(d - 1)
    requires n == jc + (if c == 0 then 0 else if c == 1 then Pow3(d - 1) else 2 * Pow3(d - 1))
    ensures n < Pow3(d) && Subdivide(t, d)[3 * n + r] == Subdivide(Corner(t, c), d - 1)[3 * jc + r]
  {
    var p := Pow3(d - 1);
    assert Pow3(d) == 3 * p;
    var k := 3 * n + r;
    SubdivideIndex(t, d, k);
    if c == 0 {
      assert k < 3 * p;
    } else if c == 1 {
      assert 3 * p <= k < 2 * (3 * p) && k - 3 * p == 3 * jc + r;
    } else {
      assert 2 * (3 * p) <= k && k - 2 * (3 * p) == 3 * jc + r;
    }
  }

  lemma LeafStep(t: seq<Vertex>, d: nat, c: nat, jc: nat, n: nat)
    requires |t| >= 3 && d > 0 && c < 3 && jc < Pow3(d - 1)
    requires n == jc + (if c == 0 then 0 else if c == 1 then Pow3(d - 1) else 2 * Pow3(d - 1))
    ensures n < Pow3(d) && Leaf(t, d, n) == Leaf(Corner(t, c), d - 1, jc)
  {
  }

  // ---------------------------------------------------------------------------------------------
  // The centre triangle is dropped

  /** The centre sub-triangle: the three edge midpoints, each in the slot of the opposite corner. */
  function CentrePositions(t: seq<Vertex>): seq<Vec3>
    requires |t| >= 3
  {
    [OppositeMidpoint(t, 0), OppositeMidpoint(t, 1), OppositeMidpoint(t, 2)]
  }

  function Positions(t: seq<Vertex>): seq<Vec3>
    requires |t| >= 3
  {
    [t[0].position, t[1].position, t[2].position]
  }

  /** No corner is the centre triangle: corner `i` is the centre only if vertex `i` already lies at
      the midpoint of the opposite edge, a triangle degenerated to a segment. */
  lemma CornerIsNotCentre(t: seq<Vertex>, i: nat)
    requires |t| >= 3 && i < 3
    requires t[i].position != OppositeMidpoint(t, i)
    ensures Positions(Corner(t, i)) != CentrePositions(t)
  {
    CornerShape(t, i);
    assert Positions(Corner(t, i))[i] == t[i].position;
  }

  // ---------------------------------------------------------------------------------------------
  // Containment: every output position lies in the convex hull of the seed triangle

  function Combination(u: real, v: real, w: real, a: Vec3, b: Vec3, c: Vec3): Vec3
  {
    Vec3(u * a.x + v * b.x + w * c.x, u * a.y + v * b.y + w * c.y, u * a.z + v * b.z + w * c.z)
  }

  /** `p` is a convex combination of the three corner positions of `s`. */
  ghost predicate InHull(p: Vec3, s: seq<Vertex>)
    requires |s| >= 3
  {
    exists u: real, v: real, w: real ::
      0.0 <= u && 0.0 <= v && 0.0 <= w && u + v + w == 1.0 &&
      p == Combination(u, v, w, s[0].position, s[1].position, s[2].position)
  }

  lemma CornersInHull(s: seq<Vertex>)
    requires |s| >= 3
    ensures forall i :: 0 <= i < 3 ==> InHull(s[i].position, s)
  {
    var a, b, c := s[0].position, s[1].position, s[2].position;
    assert a == Combination(1.0, 0.0, 0.0, a, b, c);
    assert b == Combination(0.0, 1.0, 0.0, a, b, c);
    assert c == Combination(0.0, 0.0, 1.0, a, b, c);
  }

  lemma MidInHull(p: Vec3, q: Vec3, s: seq<Vertex>)
    requires |s| >= 3 && InHull(p, s) && InHull(q, s)
    ensures InHull(Mid(p, q), s)
  {
    var a, b, c := s[0].position, s[1].position, s[2].position;
    var u1, v1, w1 :| 0.0 <= u1 && 0.0 <= v1 && 0.0 <= w1 && u1 + v1 + w1 == 1.0 &&
      p == Combination(u1, v1, w1, a, b, c);
    var u2, v2, w2 :| 0.0 <= u2 && 0.0 <= v2 && 0.0 <= w2 && u2 + v2 + w2 == 1.0 &&
      q == Combination(u2, v2, w2, a, b, c);
    MidCombination(u1, v1, w1, u2, v2, w2, a, b, c);
    var u, v, w := (u1 + u2) / 2.0, (v1 + v2) / 2.0, (w1 + w2) / 2.0;
    assert 0.0 <= u && 0.0 <= v && 0.0 <= w && u + v + w == 1.0;
  }

  lemma MidCombination(u1: real, v1: real, w1: real, u2: real, v2: real, w2: real, a: Vec3, b: Vec3, c: Vec3)
    ensures Mid(Combination(u1, v1, w1, a, b, c), Combination(u2, v2, w2, a, b, c))
      == Combination((u1 + u2) / 2.0, (v1 + v2) / 2.0, (w1 + w2) / 2.0, a, b, c)
  {
    MidScalar(u1, v1, w1, u2, v2, w2, a.x, b.x, c.x);
    MidScalar(u1, v1, w1, u2, v2, w2, a.y, b.y, c.y);
    MidScalar(u1, v1, w1, u2, v2, w2, a.z, b.z, c.z);
  }

  /** One coordinate of `MidInHull`: the midpoint of two combinations is the combination of the
      averaged weights. */
  lemma MidScalar(u1: real, v1: real, w1: real, u2: real, v2: real, w2: real, a: real, b: real, c: real)
    ensures ((u1 * a + v1 * b + w1 * c) + (u2 * a + v2 * b + w2 * c)) / 2.0
      == ((u1 + u2) / 2.0) * a + ((v1 + v2) / 2.0) * b + ((w1 + w2) / 2.0) * c
  {
  }

  /** Every corner of a triangle inside the hull of `s` is inside it too. */
  lemma CornerInHull(t: seq<Vertex>, i: nat, s: seq<Vertex>)
    requires |s| >= 3 && |t| >= 3 && i < 3
    requires forall m :: 0 <= m < 3 ==> InHull(t[m].position, s)
    ensures var c := Corner(t, i); forall m :: 0 <= m < 3 ==> InHull(c[m].position, s)
  {
    var c := Corner(t, i);
    CornerShape(t, i);
    MidInHull(t[i].position, t[(i + 2) % 3].position, s);
    MidInHull(t[i].position, t[(i + 1) % 3].position, s);
    forall m | 0 <= m < 3
      ensures InHull(c[m].position, s)
    {
      assert m == i || m == (i + 1) % 3 || m == (i + 2) % 3;
    }
  }

  lemma {:induction false} SubdivideStaysInHull(t: seq<Vertex>, d: int, s: seq<Vertex>)
    requires |s| >= 3
    requires d >= 0 ==> |t| >= 3 && forall i :: 0 <= i < 3 ==> InHull(t[i].position, s)
    ensures var out := Subdivide(t, d);
      forall k :: 0 <= k < |out| ==> InHull(out[k].position, s)
    decreases d
  {
    if d > 0 {
      forall i | 0 <= i < 3
        ensures var out := Subdivide(Corner(t, i), d - 1);
          forall k :: 0 <= k < |out| ==> InHull(out[k].position, s)
      {
        CornerInHull(t, i, s);
        SubdivideStaysInHull(Corner(t, i), d - 1, s);
      }
      SubdivideSplit(t, d);
    }
  }

  /** Geometric containment: every position a call appends lies in the triangle it started from. */
  lemma SubdivideInsideSeed(seed: seq<Vertex>, d: int)
    requires d >= 0 ==> |seed| >= 3
    ensures var out := Subdivide(seed, d);
      forall k :: 0 <= k < |out| ==> InHull(out[k].position, seed)
  {
    if d >= 0 {
      CornersInHull(seed);
      SubdivideStaysInHull(seed, d, seed);
    }
  }

  // ---------------------------------------------------------------------------------------------
  // setVertex: four seeds at depth 4

  /** `target` in `setVertex`: the subdivision depth of every seed. */
  const SeedDepth: nat := 4

  const Red: Vec3 := Vec3(1.0, 0.0, 0.0)
  const Green: Vec3 := Vec3(0.0, 1.0, 0.0)
  const Blue: Vec3 := Vec3(0.0, 0.0, 1.0)
  const White: Vec3 := Vec3(1.0, 1.0, 1.0)

  /** The four corner positions the seeds share. */
  const PX: Vec3 := Vec3(1.0, 0.0, 0.0)
  const PY: Vec3 := Vec3(0.0, 1.0, 0.0)
  const PZ: Vec3 := Vec3(0.0, 0.0, 1.0)
  const PW: Vec3 := Vec3(-0.5, 0.0, -0.5)

  /** `input1` .. `input4` of `setVertex`: a red, a green, a blue and a white triangle. */
  const Input1: seq<Vertex> := [Vertex(PX, Red), Vertex(PY, Red), Vertex(PZ, Red)]
  const Input2: seq<Vertex> := [Vertex(PX, Green), Vertex(PY, Green), Vertex(PW, Green)]
  const Input3: seq<Vertex> := [Vertex(PW, Blue), Vertex(PY, Blue), Vertex(PZ, Blue)]
  const Input4: seq<Vertex> := [Vertex(PX, White), Vertex(PW, White), Vertex(PZ, White)]

  /** `vertices.size() * sizeof(Vertex)`. */
  function BufferSize(n: nat): nat
  {
    n * VertexSize
  }

  /** The body of `setVertex` for any four seed triangles and depth: the leaves of each seed, seed
      after seed, appended to the vertex list, `4 * 3^target` triangles in all; then the size of
      the vertex buffer that holds them. */
  method BuildSeeds(vertices: seq<Vertex>, in1: seq<Vertex>, in2: seq<Vertex>, in3: seq<Vertex>,
                    in4: seq<Vertex>, target: nat)
    returns (vertices': seq<Vertex>, vertexBufferSize: nat, drawCount: nat)
    requires |in1| >= 3 && |in2| >= 3 && |in3| >= 3 && |in4| >= 3
    ensures vertices' == vertices + Subdivide(in1, target) + Subdivide(in2, target)
                                  + Subdivide(in3, target) + Subdivide(in4, target)
    ensures |vertices'| == |vertices| + 12 * Pow3(target)
    ensures vertexBufferSize == BufferSize(|vertices'|)
    ensures drawCount == |vertices'|
  {
    vertices' := BuildVertex(vertices, in1, 0, target);
    vertices' := BuildVertex(vertices', in2, 0, target);
    vertices' := BuildVertex(vertices', in3, 0, target);
    vertices' := BuildVertex(vertices', in4, 0, target);
    vertexBufferSize := BufferSize(|vertices'|);
    drawCount := |vertices'|;
  }

  /** `setVertex`: the four seeds at depth 4 give 4 * 81 triangles, 972 vertices. `drawCount` is
      the vertex count the frame's single draw call later passes: every vertex of the list. */
  method SetVertex(vertices: seq<Vertex>) returns (vertices': seq<Vertex>, vertexBufferSize: nat, drawCount: nat)
    ensures vertices' == vertices + Subdivide(Input1, SeedDepth) + Subdivide(Input2, SeedDepth)
                                  + Subdivide(Input3, SeedDepth) + Subdivide(Input4, SeedDepth)
    ensures |vertices'| == |vertices| + 972
    ensures vertexBufferSize == BufferSize(|vertices'|)
    ensures drawCount == |vertices'|
  {
    vertices', vertexBufferSize, drawCount := BuildSeeds(vertices, Input1, Input2, Input3, Input4, SeedDepth);
    SeedTriangles();
  }

  /** Four seeds at depth 4 leave 4 * 3^4 triangles of three vertices each. */
  lemma SeedTriangles()
    ensures 12 * Pow3(SeedDepth) == 972
  {
    assert Pow3(SeedDepth) == 81;
  }

  /** The worked example of depth 1 on the red seed `Input1`: nine red vertices; the first
      triangle keeps (1,0,0) and takes the midpoints towards (0,0,1) and (0,1,0). */
  lemma DepthOneExample(t: seq<Vertex>)
    requires |t| == 3 && t[0] == Vertex(PX, Red) && t[1] == Vertex(PY, Red) && t[2] == Vertex(PZ, Red)
    ensures var out := Subdivide(t, 1);
      && |out| == 9
      && out[0].position == Vec3(1.0, 0.0, 0.0)
      && out[1].position == Vec3(0.5, 0.0, 0.5)
      && out[2].position == Vec3(0.5, 0.5, 0.0)
      && forall k :: 0 <= k < 9 ==> out[k].color == Red
  {
    var out, c := Subdivide(t, 1), Corner(t, 0);
    FirstLeaf(t);
    CornerShape(t, 0);
    assert out[0] == c[0] && out[1] == c[1] && out[2] == c[2];
    assert c[0].position == PX;
    assert c[1].position == Mid(PX, PZ);
    assert c[2].position == Mid(PX, PY);
    SubdivideKeepsColors(t, 1);
  }

  /** The first three vertices a one-level subdivision appends are corner 0 of the triangle. */
  lemma FirstLeaf(t: seq<Vertex>)
    requires |t| >= 3
    ensures |Subdivide(t, 1)| == 9
    ensures Subdivide(t, 1)[..3] == Corner(t, 0)[..3]
  {
    var c := Corner(t, 0);
    SubdivideSplit(t, 1);
    assert Subdivide(c, 0) == c[..3];
  }
}
