/** `Quad`: four vertices and the index list that draws a run of quads as two
    triangles each. Vertex positions are kept as exact reals; the index list is
    16-bit, so building it traps once an index no longer fits. */
module Quad {
  import opened Wrappers

  /** Bytes per `Vertex`: a packed position (four floats), a packed colour (four
      floats) and a packed texture coordinate (two floats). */
  const VertexStride: nat := 40

  /** Bytes per `UInt16` index. */
  const IndexBytes: nat := 2

  /** The largest value a `UInt16` holds. */
  const MaxIndex: int := 65535

  /** The six indices of one quad: the triangles 0-1-2 and 2-3-0. */
  const Pattern: seq<nat> := [0, 1, 2, 2, 3, 0]

  datatype Color = Color(red: real, green: real, blue: real, alpha: real)

  /** A vertex: homogeneous position, colour and texture coordinate. */
  datatype Vertex = Vertex(x: real, y: real, z: real, w: real, color: Color, s: real, t: real)

  /** A quad and the byte size of its vertices. */
  datatype Quad = Quad(vertices: seq<Vertex>, size: nat)

  /** The byte size of one four-vertex quad (`Quad.size`). */
  const QuadSize: nat := 4 * VertexStride

  /** `Vertex(x:y:color:)`: `z`, `w`, `s` and `t` take their defaults 0, 1, 0, 0. */
  function FlatVertex(x: real, y: real, color: Color): (v: Vertex)
    ensures v.z == 0.0 && v.w == 1.0 && v.s == 0.0 && v.t == 0.0
    ensures v.x == x && v.y == y && v.color == color
  {
    Vertex(x, y, 0.0, 1.0, color, 0.0, 0.0)
  }

  /** `Quad(vertices:)`: the size counts every vertex at the vertex stride. */
  function MakeQuad(vertices: seq<Vertex>): (q: Quad)
    ensures q.vertices == vertices
    ensures q.size == |vertices| * VertexStride
    ensures |vertices| == 4 ==> q.size == QuadSize
  {
    Quad(vertices, |vertices| * VertexStride)
  }

  /** `q` is a flat rectangle `width` by `height` at the origin, its corners listed
      upper-left, lower-left, lower-right, upper-right, all in one colour. */
  ghost predicate IsRect(q: Quad, width: real, height: real, color: Color)
  {
    && |q.vertices| == 4
    && (q.vertices[0].x, q.vertices[0].y) == (0.0, height)
    && (q.vertices[1].x, q.vertices[1].y) == (0.0, 0.0)
    && (q.vertices[2].x, q.vertices[2].y) == (width, 0.0)
    && (q.vertices[3].x, q.vertices[3].y) == (width, height)
    && forall i :: 0 <= i < 4 ==> q.vertices[i].color == color && q.vertices[i].z == 0.0 && q.vertices[i].w == 1.0
  }

  /** `Quad.rect(width:height:color:)`. */
  function Rect(width: real, height: real, color: Color): (q: Quad)
    ensures IsRect(q, width, height, color)
    ensures q.size == QuadSize
  {
    var ll := FlatVertex(0.0, 0.0, color);
    var ul := FlatVertex(0.0, height, color);
    var ur := FlatVertex(width, height, color);
    var lr := FlatVertex(width, 0.0, color);
    MakeQuad([ul, ll, lr, ur])
  }

  datatype Size = Size(width: real, height: real)

  /** `Quad.rect(size:color:)`: the same rectangle as from its width and height. */
  function RectOfSize(size: Size, color: Color): (q: Quad)
    ensures IsRect(q, size.width, size.height, color)
    ensures q.size == QuadSize
  {
    Rect(size.width, size.height, color)
  }

  /** Twice the signed area of the triangle `a b c` of `q` (positive when anticlockwise). */
  function Winding(q: Quad, a: nat, b: nat, c: nat): real
    requires a < |q.vertices| && b < |q.vertices| && c < |q.vertices|
  {
    var va, vb, vc := q.vertices[a], q.vertices[b], q.vertices[c];
    (vb.x - va.x) * (vc.y - vb.y) - (vb.y - va.y) * (vc.x - vb.x)
  }

  /** The two triangles the index pattern cuts a rectangle quad into wind the same
      way, and together cover exactly the rectangle's area. */
  lemma RectTriangles(width: real, height: real, color: Color)
    ensures var q := Rect(width, height, color);
            && Winding(q, Pattern[0], Pattern[1], Pattern[2]) == width * height
            && Winding(q, Pattern[3], Pattern[4], Pattern[5]) == width * height
  {
  }

  /** The indices of quad `i`. */
  function QuadIndices(i: nat): (r: seq<int>)
    ensures |r| == |Pattern|
    ensures forall k :: 0 <= k < |Pattern| ==> r[k] == 4 * i + Pattern[k]
  {
    seq(|Pattern|, k requires 0 <= k < |Pattern| => 4 * i + Pattern[k])
  }

  /** The index list of `n` quads, before any narrowing to 16 bits. */
  function IndexList(n: nat): (r: seq<int>)
    ensures |r| == 6 * n
    ensures forall j :: 0 <= j < 6 * n ==> r[j] == 4 * (j / 6) + Pattern[j % 6]
    decreases n
  {
    if n == 0 then []
    else
      var prefix := IndexList(n - 1);
      var tail := QuadIndices(n - 1);
      assert forall j :: 6 * (n - 1) <= j < 6 * n ==> j / 6 == n - 1 && j % 6 == j - 6 * (n - 1);
      prefix + tail
  }

  datatype Trap = Overflow | NegativeCount

  /** `Quad.indices(_:)`: the 16-bit index list and its size in bytes. Swift traps
      on a negative repeat count and when `UInt16(i * 4) + k` leaves 16 bits. */
  function Indices(length: int): (r: Result<(seq<int>, nat), Trap>)
    ensures length < 0 <==> r == Failure(NegativeCount)
    ensures length >= 0 ==> (r.Failure? <==> length > 0 && 4 * (length - 1) + 3 > MaxIndex)
    ensures r.Success? ==>
              && r.value.0 == IndexList(length)
              && r.value.1 == |r.value.0| * IndexBytes
              && forall j :: 0 <= j < |r.value.0| ==> 0 <= r.value.0[j] <= MaxIndex
  {
    if length < 0 then Failure(NegativeCount)
    else if length > 0 && 4 * (length - 1) + 3 > MaxIndex then Failure(Overflow)
    else
      IndexListBounds(length);
      var data := IndexList(length);
      Success((data, |data| * IndexBytes))
  }

  /** Every index of `n` quads lies below `4 n`, and the largest one, on the last
      quad's fourth vertex, is `4 (n - 1) + 3`: so the narrowing traps exactly when
      some index does not fit in 16 bits. */
  lemma IndexListBounds(n: nat)
    ensures forall j :: 0 <= j < 6 * n ==> 0 <= IndexList(n)[j] < 4 * n
    ensures n > 0 ==> IndexList(n)[6 * (n - 1) + 4] == 4 * (n - 1) + 3
  {
    var r := IndexList(n);
    forall j | 0 <= j < 6 * n
      ensures 0 <= r[j] < 4 * n
    {
      assert j / 6 < n;
      assert Pattern[j % 6] <= 3;
    }
    if n > 0 {
      assert (6 * (n - 1) + 4) / 6 == n - 1;
    }
  }

  /** `Quad.indicesSize`: the byte size of one quad's indices. */
  function IndicesSize(): (r: nat)
    ensures r == |Pattern| * IndexBytes
  {
    12
  }

  /** The index list of `n` quads is `n` times the size of one quad's. */
  lemma IndicesSizeScales(n: nat)
    requires n == 0 || 4 * (n - 1) + 3 <= MaxIndex
    ensures Indices(n).Success? && Indices(n).value.1 == n * IndicesSize()
  {
  }

  /** Shifting by whole quads moves the quad number and keeps the corner. */
  lemma DivShift(k: nat, n: nat)
    ensures (k + 6 * n) / 6 == k / 6 + n && (k + 6 * n) % 6 == k % 6
  {
  }

  /** Index `j` of `n + m` quads, read off the first `n` quads or the last `m`. */
  lemma AppendedIndex(n: nat, m: nat, j: nat)
    requires j < 6 * (n + m)
    ensures IndexList(n + m)[j] == if j < 6 * n then IndexList(n)[j] else IndexList(m)[j - 6 * n] + 4 * n
  {
    var whole := IndexList(n + m);
    assert whole[j] == 4 * (j / 6) + Pattern[j % 6];
    if j >= 6 * n {
      var k := j - 6 * n;
      DivShift(k, n);
      assert j / 6 == k / 6 + n && j % 6 == k % 6;
      assert IndexList(m)[k] == 4 * (k / 6) + Pattern[k % 6];
    } else {
      assert IndexList(n)[j] == 4 * (j / 6) + Pattern[j % 6];
    }
  }

  /** The pattern is laid out quad after quad: `n + m` quads are `n` quads followed
      by `m` quads shifted up by `4 n`. */
  lemma {:induction false} IndexListAppend(n: nat, m: nat)
    ensures IndexList(n + m) == IndexList(n) + seq(6 * m, j requires 0 <= j < 6 * m => IndexList(m)[j] + 4 * n)
  {
    var tail := seq(6 * m, j requires 0 <= j < 6 * m => IndexList(m)[j] + 4 * n);
    var rhs := IndexList(n) + tail;
    forall j | 0 <= j < 6 * (n + m)
      ensures IndexList(n + m)[j] == rhs[j]
    {
      AppendedIndex(n, m, j);
    }
  }
}
