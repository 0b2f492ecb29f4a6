/** The grid arithmetic of the in-engine atlas builders: `factor`, which picks a
    near-square rows-by-columns split for the image count, and the row-major cursor
    that gives each image its cell. */
module AtlasGrid {

  // ---------------------------------------------------------------------------
  // factor

  /** `d` is one of the divisors `factor` collects for `n`: `2 <= d < n / 2`
      (the loop bound is `Int(Float(n) / 2.0)`, which is `n / 2` for counts) and `d`
      divides `n`. */
  predicate IsSplit(n: nat, d: nat)
  {
    2 <= d < n / 2 && n % d == 0
  }

  /** `factor` accepts `n` without rounding it up. */
  ghost predicate Factorable(n: nat)
  {
    exists d :: IsSplit(n, d)
  }

  /** `max(a, b) - min(a, b)`. */
  function Diff(a: int, b: int): nat
  {
    if a >= b then a - b else b - a
  }

  /** How far the split of `m` at `d` is from square. */
  function Spread(m: nat, d: nat): nat
    requires d > 0
  {
    Diff(d, m / d)
  }

  /** The split `factor` wants for `m`: as square as possible, and among equally square
      splits the one with the smallest first factor. */
  ghost predicate BestSplit(m: nat, d: nat)
  {
    && IsSplit(m, d)
    && (forall e :: IsSplit(m, e) ==> Spread(m, d) <= Spread(m, e))
    && (forall e :: IsSplit(m, e) && Spread(m, e) == Spread(m, d) ==> d <= e)
  }

  /** The divisors the loop collects from `d` on, in increasing order. */
  function Divisors(n: nat, d: nat): (r: seq<nat>)
    requires d >= 2
    ensures forall k :: k in r <==> d <= k && IsSplit(n, k)
    ensures forall i, j :: 0 <= i < j < |r| ==> r[i] < r[j]
    ensures forall i :: 0 <= i < |r| ==> d <= r[i]
    decreases n / 2 - d
  {
    if d >= n / 2 then []
    else (if n % d == 0 then [d] else []) + Divisors(n, d + 1)
  }

  /** `div.map { max - min }` */
  function Spreads(n: nat, div: seq<nat>): (r: seq<nat>)
    requires forall i :: 0 <= i < |div| ==> div[i] > 0
    ensures |r| == |div|
    ensures forall i :: 0 <= i < |div| ==> r[i] == Spread(n, div[i])
  {
    seq(|div|, i requires 0 <= i < |div| => Spread(n, div[i]))
  }

  /** The first position of the least value: what sorting `zip(mins, 0..<count)` as
      tuples and taking the first element's index yields. */
  function LeastIndex(s: seq<nat>): (r: nat)
    requires |s| >= 1
    ensures r < |s|
    ensures forall j :: 0 <= j < |s| ==> s[r] <= s[j]
    ensures forall j :: 0 <= j < r ==> s[j] > s[r]
  {
    if |s| == 1 then 0
    else
      var k := LeastIndex(s[..|s| - 1]);
      if s[|s| - 1] < s[k] then |s| - 1 else k
  }

  lemma DivExact(n: nat, d: nat)
    requires d > 0 && n % d == 0
    ensures d * (n / d) == n
  {
  }

  /** The loop finds a divisor exactly when the count has a split. */
  lemma DivisorsFindSplit(n: nat)
    ensures Factorable(n) <==> |Divisors(n, 2)| >= 1
  {
    if Factorable(n) {
      var e :| IsSplit(n, e);
      assert e in Divisors(n, 2);
    }
    if |Divisors(n, 2)| >= 1 {
      assert IsSplit(n, Divisors(n, 2)[0]);
    }
  }

  /** Every even count from 6 on has the split at 2. */
  lemma EvenCountsFactorable(n: nat)
    requires n >= 6 && n % 2 == 0
    ensures Factorable(n)
  {
    assert IsSplit(n, 2);
  }

  /** The count `factor` ends up splitting: the first count from `n` on that has a
      split. The recursion on `n + 1` stops at the next even count from 6 on. */
  function FactorCount(n: nat): (m: nat)
    ensures m >= n && Factorable(m)
    ensures forall k :: n <= k < m ==> !Factorable(k)
    decreases if n <= 6 then 6 - n else n % 2
  {
    DivisorsFindSplit(n);
    if n >= 6 && n % 2 == 0 then EvenCountsFactorable(n); n
    else if |Divisors(n, 2)| >= 1 then n
    else FactorCount(n + 1)
  }

  /** The element `LeastIndex` picks from the collected divisors is the best split. */
  lemma LeastIndexIsBest(n: nat, div: seq<nat>, k: nat)
    requires div == Divisors(n, 2) && 1 <= |div|
    requires k < |div|
    requires forall j :: 0 <= j < |div| ==> Spread(n, div[k]) <= Spread(n, div[j])
    requires forall j :: 0 <= j < k ==> Spread(n, div[j]) > Spread(n, div[k])
    ensures BestSplit(n, div[k])
  {
    forall e | IsSplit(n, e)
      ensures Spread(n, div[k]) <= Spread(n, e)
      ensures Spread(n, e) == Spread(n, div[k]) ==> div[k] <= e
    {
      assert e in div;
      var j :| 0 <= j < |div| && div[j] == e;
      if j < k {
        assert Spread(n, div[j]) > Spread(n, div[k]);
      } else if j > k {
        assert div[k] < div[j];
      }
    }
  }

  /** The partner of a collected divisor is at least 3, so every grid has at least two
      rows and three columns. */
  lemma SplitColumns(n: nat, d: nat)
    requires IsSplit(n, d)
    ensures n / d >= 3
  {
    DivExact(n, d);
    assert 2 * d < d * (n / d);
    MulLtCancel(2, n / d, d);
  }

  /** The pair `factor` returns once the count has divisors: the least spread, earliest
      index, or the only pair when there is one. */
  function Split(n: nat, div: seq<nat>): (r: (nat, nat))
    requires div == Divisors(n, 2) && |div| >= 1
    ensures BestSplit(n, r.0) && r.1 == n / r.0 && r.0 * r.1 == n
    ensures r.0 >= 2 && r.1 >= 3
  {
    var k := BestIndex(n, div);
    LeastIndexIsBest(n, div, k);
    DivExact(n, div[k]);
    SplitColumns(n, div[k]);
    (div[k], n / div[k])
  }

  /** The position `factor` takes its pair from. */
  function BestIndex(n: nat, div: seq<nat>): (k: nat)
    requires div == Divisors(n, 2) && |div| >= 1
    ensures k < |div|
    ensures forall j :: 0 <= j < |div| ==> Spread(n, div[k]) <= Spread(n, div[j])
    ensures forall j :: 0 <= j < k ==> Spread(n, div[j]) > Spread(n, div[k])
  {
    if |div| == 1 then 0
    else
      var sp := Spreads(n, div);
      var k := LeastIndex(sp);
      assert forall j :: 0 <= j < |div| ==> sp[j] == Spread(n, div[j]);
      k
  }

  /** `factor(n)`: `(rows, columns)` is the most nearly square split of the first count
      from `n` on that has a divisor in `[2, count / 2)`, ties going to fewer rows.
      Both copies of `factor` compute this. The older one sorts with the closure
      `{ $0.0 < $0.1 }`, whose single `$0` stands for the pair of arguments, so it
      compares two `(spread, position)` tuples lexicographically, as `sorted(by: <)`
      does in the newer one. */
  function Factor(n: nat): (r: (nat, nat))
    ensures var m := FactorCount(n);
            r.0 * r.1 == m && m >= n && BestSplit(m, r.0) && r.1 == m / r.0
    ensures r.0 >= 2 && r.1 >= 3
    decreases if n <= 6 then 6 - n else n % 2
  {
    var div := Divisors(n, 2);
    DivisorsFindSplit(n);
    if n >= 6 && n % 2 == 0 then EvenCountsFactorable(n); Split(n, div)
    else if |div| >= 1 then Split(n, div)
    else Factor(n + 1)
  }

  /** At most one split of a count is best, so `Factor`'s contract determines it. */
  lemma BestSplitUnique(m: nat, d1: nat, d2: nat)
    requires BestSplit(m, d1) && BestSplit(m, d2)
    ensures d1 == d2
  {
  }

  /** Small counts are rounded up to 6 and get two rows of three. */
  lemma FactorSmallCounts(n: nat)
    requires n <= 6
    ensures Factor(n) == (2, 3)
  {
    assert IsSplit(6, 2);
    assert forall k :: 0 <= k <= 5 ==> Divisors(k, 2) == [];
    assert Factorable(6);
    assert FactorCount(n) == 6;
    assert Divisors(6, 2) == [2];
    BestSplitUnique(6, Factor(n).0, 2);
  }

  /** Twelve images get three rows of four. */
  lemma FactorTwelve()
    ensures Factor(12) == (3, 4)
  {
    assert FactorCount(12) == 12 by {
      EvenCountsFactorable(12);
    }
    ThreeBestForTwelve();
    FactorIs(12, 3);
  }

  /** A count `factor` does not round up is split at its best split. */
  lemma FactorIs(n: nat, d: nat)
    requires FactorCount(n) == n && BestSplit(n, d)
    ensures Factor(n) == (d, n / d)
  {
    BestSplitUnique(n, Factor(n).0, d);
  }

  /** Of the splits of twelve (2, 3 and 4), 3 and 4 are equally square and 3 is the
      smaller. */
  lemma ThreeBestForTwelve()
    ensures BestSplit(12, 3)
  {
    forall e | IsSplit(12, e)
      ensures Spread(12, 3) <= Spread(12, e)
      ensures Spread(12, e) == Spread(12, 3) ==> 3 <= e
    {
      assert e == 2 || e == 3 || e == 4 by {
        assert 2 <= e < 6 && 12 % e == 0;
        assert 12 % 5 != 0;
      }
    }
  }

  // ---------------------------------------------------------------------------
  // The layout cursor

  /** An integer rectangle: origin and size. */
  datatype Rect = Rect(x: int, y: int, width: int, height: int)

  /** The cell of image `i` in a row-major grid of `columns` columns of `w` by `h` cells. */
  function Cell(i: nat, columns: nat, w: nat, h: nat): Rect
    requires columns > 0
  {
    Rect((i % columns) * w, (i / columns) * h, w, h)
  }

  /** Two rectangles share no interior point. */
  predicate Disjoint(a: Rect, b: Rect)
  {
    a.x + a.width <= b.x || b.x + b.width <= a.x || a.y + a.height <= b.y || b.y + b.height <= a.y
  }

  lemma MulLe(a: int, b: int, w: nat)
    requires a <= b
    ensures a * w <= b * w
  {
  }

  lemma MulLtCancel(q: int, r: int, c: nat)
    requires q * c < r * c
    ensures q < r
  {
    if q >= r {
      MulLe(r, q, c);
    }
  }

  lemma DivModUnique(q: int, m: int, c: int)
    requires c > 0 && 0 <= m < c
    ensures (q * c + m) / c == q && (q * c + m) % c == m
  {
    var x := q * c + m;
    var quot, rem := x / c, x % c;
    assert x == quot * c + rem;
    assert (q - quot) * c == rem - m;
    if q > quot {
      MulLe(1, q - quot, c);
    }
    if q < quot {
      MulLe(1, quot - q, c);
    }
  }

  /** One step of the cursor over square cells of side `w`: `x += w`, and a wrap to the
      next row once `x` reaches `columns * w`. */
  lemma CursorStep(i: nat, columns: nat, w: nat)
    requires columns > 0
    ensures var x := (i % columns) * w + w;
            var y := (i / columns) * w;
            var next := if x >= columns * w then (0, y + w) else (x, y);
            next == ((i + 1) % columns * w, (i + 1) / columns * w)
  {
    var q, m := i / columns, i % columns;
    assert i == q * columns + m;
    var x := m * w + w;
    if m + 1 < columns {
      DivModUnique(q, m + 1, columns);
      assert i + 1 == q * columns + (m + 1);
      assert (m + 1) * w == x;
      if w > 0 {
        MulLe(m + 2, columns, w);
        assert (m + 2) * w == x + w;
      } else {
        assert x == 0 && columns * w == 0;
      }
    } else {
      DivModUnique(q + 1, 0, columns);
      assert i + 1 == (q + 1) * columns + 0;
      assert (q + 1) * w == q * w + w;
      assert m == columns - 1;
      assert x == columns * w;
    }
  }

  /** The position of the last occurrence of `n`. */
  function LastIndex(names: seq<string>, n: string): (i: nat)
    requires n in names
    ensures i < |names| && names[i] == n
    ensures forall j :: i < j < |names| ==> names[j] != n
  {
    if names[|names| - 1] == n then |names| - 1 else LastIndex(names[..|names| - 1], n)
  }

  /** The frame table as a closed form: each name maps to the cell of its last
      occurrence. */
  function Frames(names: seq<string>, columns: nat, side: nat): (r: map<string, Rect>)
    requires columns > 0
    ensures r.Keys == set n | n in names
  {
    map n | n in names :: Cell(LastIndex(names, n), columns, side, side)
  }

  /** The frames the builders record: the cursor walks the names in order, each name is
      stored with the cell it was visited at, and a later duplicate overwrites an earlier
      one. The cells are square: the builders only get here once the first image's
      width equals its height. */
  method Layout(names: seq<string>, columns: nat, width: nat, height: nat) returns (data: map<string, Rect>)
    requires columns > 0 && width == height
    ensures data == Frames(names, columns, width)
  {
    var x := 0;
    var y := 0;
    data := map[];
    for i := 0 to |names|
      invariant x == (i % columns) * width && y == (i / columns) * height
      invariant data == Frames(names[..i], columns, width)
    {
      var prefix := names[..i + 1];
      assert prefix[..i] == names[..i];
      data := data[names[i] := Rect(x, y, width, height)];
      assert data == Frames(prefix, columns, width) by {
        forall n | n in prefix
          ensures n in data && data[n] == Cell(LastIndex(prefix, n), columns, width, width)
        {
          if n != names[i] {
            assert n in names[..i];
          }
        }
      }
      CursorStep(i, columns, width);
      x := x + width;
      if x >= columns * width {
        x := 0;
        y := y + height;
      }
    }
    assert names[..|names|] == names;
  }

  /** A grid with room for `count` cells (`rows * columns >= count`) holds every cell
      inside its `columns * w` by `rows * h` canvas. */
  lemma CellInCanvas(i: nat, rows: nat, columns: nat, w: nat, h: nat)
    requires columns > 0 && i < rows * columns
    ensures var c := Cell(i, columns, w, h);
            0 <= c.x && c.x + c.width <= columns * w && 0 <= c.y && c.y + c.height <= rows * h
  {
    ColumnFits(i % columns, columns, w);
    RowFits(i, rows, columns, h);
  }

  /** Column `m` of `columns` ends by `columns * w`. */
  lemma ColumnFits(m: nat, columns: nat, w: nat)
    requires m < columns
    ensures 0 <= m * w && m * w + w <= columns * w
  {
    MulLe(0, m, w);
    MulLe(m + 1, columns, w);
    assert (m + 1) * w == m * w + w;
  }

  /** The row of cell `i` ends by `rows * h` when the grid has room for it. */
  lemma RowFits(i: nat, rows: nat, columns: nat, h: nat)
    requires columns > 0 && i < rows * columns
    ensures 0 <= (i / columns) * h && (i / columns) * h + h <= rows * h
  {
    var q := i / columns;
    MulLe(0, q, h);
    assert q * columns <= i;
    MulLtCancel(q, rows, columns);
    MulLe(q + 1, rows, h);
    assert (q + 1) * h == q * h + h;
  }

  /** Distinct images get non-overlapping cells. */
  lemma CellsDisjoint(i: nat, j: nat, columns: nat, w: nat, h: nat)
    requires columns > 0 && w > 0 && h > 0 && i != j
    ensures Disjoint(Cell(i, columns, w, h), Cell(j, columns, w, h))
  {
    var qi, mi := i / columns, i % columns;
    var qj, mj := j / columns, j % columns;
    assert i == qi * columns + mi;
    assert j == qj * columns + mj;
    if mi < mj {
      MulLe(mi + 1, mj, w);
    } else if mj < mi {
      MulLe(mj + 1, mi, w);
    } else if qi < qj {
      MulLe(qi + 1, qj, h);
    } else if qj < qi {
      MulLe(qj + 1, qi, h);
    }
  }

  /** A rectangle lies inside a `width` by `height` canvas at the origin. */
  predicate Inside(r: Rect, width: int, height: int)
  {
    0 <= r.x && r.x + r.width <= width && 0 <= r.y && r.y + r.height <= height
  }

  /** With room for every name, every recorded frame lies in the canvas. */
  lemma FramesInCanvas(names: seq<string>, rows: nat, columns: nat, side: nat)
    requires columns > 0 && |names| <= rows * columns
    ensures forall n :: n in Frames(names, columns, side) ==>
              Inside(Frames(names, columns, side)[n], columns * side, rows * side)
  {
    forall n | n in Frames(names, columns, side)
      ensures Inside(Frames(names, columns, side)[n], columns * side, rows * side)
    {
      CellInCanvas(LastIndex(names, n), rows, columns, side, side);
    }
  }

  /** Frames of different names never overlap. */
  lemma FramesDisjoint(names: seq<string>, columns: nat, side: nat)
    requires columns > 0 && side > 0
    ensures forall a, b :: a in Frames(names, columns, side) && b in Frames(names, columns, side) && a != b ==>
              Disjoint(Frames(names, columns, side)[a], Frames(names, columns, side)[b])
  {
    forall a, b | a in Frames(names, columns, side) && b in Frames(names, columns, side) && a != b
      ensures Disjoint(Frames(names, columns, side)[a], Frames(names, columns, side)[b])
    {
      CellsDisjoint(LastIndex(names, a), LastIndex(names, b), columns, side, side);
    }
  }
}
