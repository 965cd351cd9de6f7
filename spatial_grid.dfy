/**
 * The uniform-grid spatial index: a map from a packed 64-bit cell key to the
 * list of points inserted in that cell, queried over the 3x3 block of cells
 * around a position. The two copies of this class in the repository
 * (`SpatialGrid` and `SpatialIndex`) are the same code; one class models both.
 */
module SpatialIndexing {
  import opened Geometry

  const Two32: int := 0x1_0000_0000
  const Two64: int := 0x1_0000_0000_0000_0000
  const MinLong: int := -0x8000_0000_0000_0000
  const MaxLong: int := 0x7FFF_FFFF_FFFF_FFFF

  /** A value of Kotlin's `Long`, held as its signed integer value. */
  predicate IsLong(v: int) { MinLong <= v <= MaxLong }

  /** `Long` arithmetic: the signed value congruent to `i` modulo 2^64. */
  function Wrap64(i: int): (r: int)
    ensures IsLong(r) && (r - i) % Two64 == 0
    ensures IsLong(i) ==> r == i
  {
    var u := i % Two64;
    if u > MaxLong then u - Two64 else u
  }

  /** `toLong()` of an integral float: values outside the `Long` range saturate. */
  function ToLong(i: int): (r: int)
    ensures IsLong(r) && (IsLong(i) ==> r == i)
  {
    if i < MinLong then MinLong else if i > MaxLong then MaxLong else i
  }

  /** `floor(v / cell).toLong()`: the index of the cell holding coordinate `v`. */
  function CellIndex(v: real, cell: real): int
    requires cell > 0.0
  {
    ToLong((v / cell).Floor)
  }

  /**
   * `(cx shl 32) xor (cy and 0xffffffffL)`. The shift is a multiplication by
   * 2^32 in `Long` arithmetic, the mask is the remainder modulo 2^32, and as
   * the two operands have no set bit in common the `xor` is their sum (see
   * `XorOfDisjointIsSum`).
   */
  function Pack(cx: int, cy: int): int
  {
    Wrap64(cx * Two32) + cy % Two32
  }

  /** In 64-bit words, the packing's `xor` adds the shifted and the masked operand. */
  lemma XorOfDisjointIsSum(cx: bv64, cy: bv64)
    ensures (cx << 32) ^ (cy & 0xFFFF_FFFF) == (cx << 32) + (cy & 0xFFFF_FFFF)
    ensures (cx << 32) & (cy & 0xFFFF_FFFF) == 0
  {
  }

  /**
   * In 64-bit words, the packed key carries `cy`'s low 32 bits in its low
   * half and `cx`'s low 32 bits in its high half.
   */
  lemma PackedWordFields(cx: bv64, cy: bv64)
    ensures ((cx << 32) ^ (cy & 0xFFFF_FFFF)) & 0xFFFF_FFFF == cy & 0xFFFF_FFFF
    ensures ((cx << 32) ^ (cy & 0xFFFF_FFFF)) >> 32 == cx & 0xFFFF_FFFF
  {
  }

  /**
   * The same two halves, read off the integer `Pack`: its remainder modulo
   * 2^32 is `cy`'s low half, and its quotient's remainder is `cx`'s.
   */
  lemma PackFields(cx: int, cy: int)
    ensures Pack(cx, cy) % Two32 == cy % Two32
    ensures (Pack(cx, cy) / Two32) % Two32 == cx % Two32
  {
    var w := Wrap64(cx * Two32);
    var k := (w - cx * Two32) / Two64;
    assert w == (cx + k * Two32) * Two32;
    var c := cy % Two32;
    DivModTwo32(Pack(cx, cy), cx + k * Two32, c);
    DivModTwo32(cx + k * Two32, cx / Two32 + k, cx % Two32);
  }

  /** `n == q * 2^32 + r` with `0 <= r < 2^32` determines the quotient and the remainder. */
  lemma DivModTwo32(n: int, q: int, r: int)
    requires 0 <= r < Two32 && n == q * Two32 + r
    ensures n / Two32 == q && n % Two32 == r
  {
  }

  /** `key(p.x, p.y)`: the bucket a point is inserted into. */
  function Key(p: Vec2, cell: real): int
    requires cell > 0.0
  {
    Pack(CellIndex(p.x, cell), CellIndex(p.y, cell))
  }

  /** A cell index in the range of Kotlin's 32-bit `Int`. */
  predicate Fits32(v: int)
  {
    -0x8000_0000 <= v < 0x8000_0000
  }

  /** Every key is a `Long`. */
  lemma PackIsLong(cx: int, cy: int)
    ensures IsLong(Pack(cx, cy))
  {
    var w := Wrap64(cx * Two32);
    assert w % Two32 == 0 by {
      ShiftedIsMultiple(cx, w);
    }
    assert w <= MaxLong - (Two32 - 1);
  }

  lemma ShiftedIsMultiple(cx: int, w: int)
    requires w == Wrap64(cx * Two32)
    ensures w % Two32 == 0
  {
    var u := (cx * Two32) % Two64;
    assert u % Two32 == 0;
  }

  /** Cell indices in the 32-bit range are packed without collision. */
  lemma PackInjective(cx1: int, cy1: int, cx2: int, cy2: int)
    requires Fits32(cx1) && Fits32(cy1) && Fits32(cx2) && Fits32(cy2)
    ensures Pack(cx1, cy1) == Pack(cx2, cy2) <==> cx1 == cx2 && cy1 == cy2
  {
    assert Wrap64(cx1 * Two32) == cx1 * Two32;
    assert Wrap64(cx2 * Two32) == cx2 * Two32;
    if Pack(cx1, cy1) == Pack(cx2, cy2) {
      var r1, r2 := cy1 % Two32, cy2 % Two32;
      assert (cx1 - cx2) * Two32 == r2 - r1;
      assert cx1 == cx2;
      assert cy1 == cy2 by {
        if cy1 < 0 { assert r1 == cy1 + Two32; } else { assert r1 == cy1; }
        if cy2 < 0 { assert r2 == cy2 + Two32; } else { assert r2 == cy2; }
      }
    }
  }

  /** The key `queryNear` computes for offset `(dx, dy)`: `((cx + dx) shl 32) xor ((cy + dy) and 0xffffffffL)`. */
  function NeighbourKey(cx: int, cy: int, dx: int, dy: int): int
  {
    Pack(Wrap64(cx + dx), Wrap64(cy + dy))
  }

  /** The nine keys in loop order: `dy` outer, `dx` inner, each from -1 to 1. */
  function NeighbourKeys(cx: int, cy: int): (ks: seq<int>)
    ensures |ks| == 9
  {
    seq(9, i requires 0 <= i < 9 => NeighbourKey(cx, cy, i % 3 - 1, i / 3 - 1))
  }

  /** `map[k] ?: emptyList()`. */
  function Bucket(b: map<int, seq<Vec2>>, k: int): seq<Vec2>
  {
    if k in b then b[k] else []
  }

  /** `map.getOrPut(k) { mutableListOf() }.add(p)`. */
  function Put(b: map<int, seq<Vec2>>, k: int, p: Vec2): (r: map<int, seq<Vec2>>)
    ensures k in r && Bucket(r, k) == Bucket(b, k) + [p]
    ensures forall k' :: k' != k ==> Bucket(r, k') == Bucket(b, k')
    ensures r.Keys == b.Keys + {k}
  {
    b[k := Bucket(b, k) + [p]]
  }

  /** Inserting each point of `ps` in order. */
  function PutAll(b: map<int, seq<Vec2>>, ps: seq<Vec2>, cell: real): map<int, seq<Vec2>>
    requires cell > 0.0
  {
    if |ps| == 0 then b else Put(PutAll(b, ps[..|ps| - 1], cell), Key(ps[|ps| - 1], cell), ps[|ps| - 1])
  }

  /** Every stored point sits in the bucket of its own key. */
  ghost predicate KeyedBy(b: map<int, seq<Vec2>>, cell: real)
  {
    cell > 0.0 && forall k, q :: k in b && q in b[k] ==> Key(q, cell) == k
  }

  /** The buckets of `ks`, concatenated in order. */
  function Gather(b: map<int, seq<Vec2>>, ks: seq<int>): seq<Vec2>
  {
    if |ks| == 0 then [] else Gather(b, ks[..|ks| - 1]) + Bucket(b, ks[|ks| - 1])
  }

  /** Everything stored in the 3x3 block of cells around `(cx, cy)`, in loop order. */
  function Neighbourhood(b: map<int, seq<Vec2>>, cx: int, cy: int): seq<Vec2>
  {
    Gather(b, NeighbourKeys(cx, cy))
  }

  /** The first `m` elements of `s`, or all of it when it is shorter. */
  function Prefix<T>(s: seq<T>, m: nat): (r: seq<T>)
    ensures |r| <= m && r <= s
    ensures |s| <= m ==> r == s
    ensures |s| > m ==> |r| == m
  {
    if |s| <= m then s else s[..m]
  }

  /** The neighbour key of offset `(dx, dy)` is at position `3 * (dy + 1) + (dx + 1)`. */
  lemma NeighbourKeyAt(cx: int, cy: int, dx: int, dy: int)
    requires -1 <= dx <= 1 && -1 <= dy <= 1
    ensures NeighbourKeys(cx, cy)[3 * (dy + 1) + (dx + 1)] == NeighbourKey(cx, cy, dx, dy)
  {
    var n := 3 * (dy + 1) + (dx + 1);
    assert n % 3 - 1 == dx && n / 3 - 1 == dy;
  }

  /** Gathering one more key appends that key's bucket. */
  lemma GatherStep(b: map<int, seq<Vec2>>, ks: seq<int>, n: nat)
    requires n < |ks|
    ensures Gather(b, ks[..n + 1]) == Gather(b, ks[..n]) + Bucket(b, ks[n])
  {
    assert ks[..n + 1][..n] == ks[..n];
  }

  /**
   * The loop over one bucket: append its points in order while fewer than
   * `m` have been collected. Collecting the prefix of `s` and then this
   * bucket gives the prefix of `s` followed by the bucket.
   */
  method AppendUpTo(out: seq<Vec2>, ghost s: seq<Vec2>, list: seq<Vec2>, m: nat) returns (r: seq<Vec2>)
    requires out == Prefix(s, m)
    ensures r == Prefix(s + list, m)
  {
    r := out;
    for j := 0 to |list|
      invariant r == Prefix(s + list[..j], m)
    {
      if |r| >= m {
        PrefixSaturated(s + list[..j], s + list, m);
        break;
      }
      PrefixStep(s + list[..j], list[j], m);
      assert list[..j + 1] == list[..j] + [list[j]];
      r := r + [list[j]];
    }
    assert list[..|list|] == list;
  }

  /** What the query has collected after visiting the first `n` keys of `ks`. */
  ghost function Visited(b: map<int, seq<Vec2>>, ks: seq<int>, n: nat, m: nat): seq<Vec2>
    requires n <= |ks|
  {
    Prefix(Gather(b, ks[..n]), m)
  }

  /**
   * One visit of the inner loop that finds room left: `map[k]?.let { ... }`
   * appends the bucket of `k`, the `n`-th key, up to `m` points in all.
   */
  method AppendBucket(b: map<int, seq<Vec2>>, out: seq<Vec2>, ghost ks: seq<int>, ghost n: nat, k: int, m: nat)
    returns (r: seq<Vec2>)
    requires n < |ks| && k == ks[n] && out == Visited(b, ks, n, m)
    ensures r == Visited(b, ks, n + 1, m)
  {
    GatherStep(b, ks, n);
    r := out;
    if k in b {
      r := AppendUpTo(out, Gather(b, ks[..n]), b[k], m);
    }
  }

  class SpatialGrid {
    const cell: real
    var buckets: map<int, seq<Vec2>>

    ghost predicate Valid()
      reads this
    {
      KeyedBy(buckets, cell)
    }

    /** A fresh grid: no buckets. */
    constructor (cell: real)
      requires cell > 0.0
      ensures this.cell == cell && buckets == map[]
      ensures Valid()
    {
      this.cell := cell;
      buckets := map[];
    }

    /** `clear()`. */
    method Clear()
      requires Valid()
      modifies this
      ensures buckets == map[]
      ensures Valid()
    {
      buckets := map[];
    }

    /** `insert(p)`: append `p` to the bucket of its key, leaving every other bucket as it was. */
    method Insert(p: Vec2)
      requires Valid()
      modifies this
      ensures buckets == Put(old(buckets), Key(p, cell), p)
      ensures Valid()
    {
      var k := Key(p, cell);
      var list := if k in buckets then buckets[k] else [];
      buckets := buckets[k := list + [p]];
    }

    /** `insertAll(points)`: `insert` on each point, in order. */
    method InsertAll(points: seq<Vec2>)
      requires Valid()
      modifies this
      ensures buckets == PutAll(old(buckets), points, cell)
      ensures Valid()
    {
      for i := 0 to |points|
        invariant buckets == PutAll(old(buckets), points[..i], cell)
        invariant Valid()
      {
        assert points[..i + 1][..i] == points[..i];
        Insert(points[i]);
      }
      assert points[..|points|] == points;
    }

    /**
     * `queryNear(p, maxResults)`: the points of the nine cells around `p`'s
     * cell, in loop order, stopping once `maxResults` are collected.
     */
    method QueryNear(p: Vec2, maxResults: int) returns (out: seq<Vec2>)
      requires Valid() && maxResults >= 0
      ensures out == Prefix(Neighbourhood(buckets, CellIndex(p.x, cell), CellIndex(p.y, cell)), maxResults)
    {
      var cx := CellIndex(p.x, cell);
      var cy := CellIndex(p.y, cell);
      var b := buckets;
      ghost var ks := NeighbourKeys(cx, cy);
      out := [];
      for dy := -1 to 2
        invariant out == Visited(b, ks, 3 * (dy + 1), maxResults)
      {
        for dx := -1 to 2
          invariant out == Visited(b, ks, 3 * (dy + 1) + (dx + 1), maxResults)
        {
          ghost var n := 3 * (dy + 1) + (dx + 1);
          if |out| >= maxResults {
            GatherSaturated(b, ks, n, 3 * (dy + 1) + 3, maxResults);
            break;
          }
          var k := NeighbourKey(cx, cy, dx, dy);
          NeighbourKeyAt(cx, cy, dx, dy);
          out := AppendBucket(b, out, ks, n, k, maxResults);
        }
      }
      assert ks[..9] == ks;
      assert out == Visited(b, ks, 9, maxResults);
    }
  }

  // ---------------------------------------------------------------------
  // What a query returns

  /** A query returns at most `maxResults` points, and all of the neighbourhood when it has no more. */
  lemma QueryBound(b: map<int, seq<Vec2>>, cx: int, cy: int, m: nat)
    ensures |Prefix(Neighbourhood(b, cx, cy), m)| <= m
    ensures |Neighbourhood(b, cx, cy)| <= m ==> Prefix(Neighbourhood(b, cx, cy), m) == Neighbourhood(b, cx, cy)
  {
  }

  /** A point of the gathered buckets comes from one of them. */
  lemma {:induction false} InGather(b: map<int, seq<Vec2>>, ks: seq<int>, q: Vec2)
    requires q in Gather(b, ks)
    ensures exists i :: 0 <= i < |ks| && q in Bucket(b, ks[i])
  {
    if |ks| > 0 {
      var last := ks[|ks| - 1];
      if q in Bucket(b, last) {
        assert q in Bucket(b, ks[|ks| - 1]);
      } else {
        InGather(b, ks[..|ks| - 1], q);
        var i :| 0 <= i < |ks| - 1 && q in Bucket(b, ks[..|ks| - 1][i]);
        assert ks[..|ks| - 1][i] == ks[i];
      }
    }
  }

  /** Conversely, every point of every gathered bucket is in the concatenation. */
  lemma {:induction false} GatherHas(b: map<int, seq<Vec2>>, ks: seq<int>, i: nat, q: Vec2)
    requires i < |ks| && q in Bucket(b, ks[i])
    ensures q in Gather(b, ks)
  {
    if i < |ks| - 1 {
      assert ks[..|ks| - 1][i] == ks[i];
      GatherHas(b, ks[..|ks| - 1], i, q);
    }
  }

  /**
   * Every point a query returns was stored under one of the nine keys around
   * the query's cell.
   */
  lemma QueryFromNeighbours(b: map<int, seq<Vec2>>, cell: real, cx: int, cy: int, m: nat, q: Vec2)
    requires KeyedBy(b, cell)
    requires q in Prefix(Neighbourhood(b, cx, cy), m)
    ensures exists dx, dy :: -1 <= dx <= 1 && -1 <= dy <= 1 && Key(q, cell) == NeighbourKey(cx, cy, dx, dy)
  {
    var ks := NeighbourKeys(cx, cy);
    InGather(b, ks, q);
    var i :| 0 <= i < 9 && q in Bucket(b, ks[i]);
    var dx, dy := i % 3 - 1, i / 3 - 1;
    NeighbourKeyAt(cx, cy, dx, dy);
    assert 3 * (dy + 1) + (dx + 1) == i;
  }

  /**
   * When the cell indices are in the 32-bit range, a returned point lies in
   * a cell at most one step from the query's cell on each axis: distant
   * points are never returned.
   */
  lemma QueryReturnsNearCells(b: map<int, seq<Vec2>>, cell: real, p: Vec2, m: nat, q: Vec2)
    requires KeyedBy(b, cell)
    requires var cx, cy := CellIndex(p.x, cell), CellIndex(p.y, cell);
      Fits32(cx - 1) && Fits32(cx + 1) && Fits32(cy - 1) && Fits32(cy + 1)
    requires Fits32(CellIndex(q.x, cell)) && Fits32(CellIndex(q.y, cell))
    requires q in Prefix(Neighbourhood(b, CellIndex(p.x, cell), CellIndex(p.y, cell)), m)
    ensures -1 <= CellIndex(q.x, cell) - CellIndex(p.x, cell) <= 1
    ensures -1 <= CellIndex(q.y, cell) - CellIndex(p.y, cell) <= 1
  {
    var cx, cy := CellIndex(p.x, cell), CellIndex(p.y, cell);
    QueryFromNeighbours(b, cell, cx, cy, m, q);
    var dx, dy :| -1 <= dx <= 1 && -1 <= dy <= 1 && Key(q, cell) == NeighbourKey(cx, cy, dx, dy);
    assert Wrap64(cx + dx) == cx + dx && Wrap64(cy + dy) == cy + dy;
    PackInjective(CellIndex(q.x, cell), CellIndex(q.y, cell), cx + dx, cy + dy);
  }

  /** A point's own key is the middle one of its query, so the query looks in its own bucket. */
  lemma OwnKeyIsQueried(p: Vec2, cell: real)
    requires cell > 0.0
    ensures NeighbourKeys(CellIndex(p.x, cell), CellIndex(p.y, cell))[4] == Key(p, cell)
  {
    assert Wrap64(CellIndex(p.x, cell)) == CellIndex(p.x, cell);
    assert Wrap64(CellIndex(p.y, cell)) == CellIndex(p.y, cell);
  }

  /**
   * A point just inserted is returned by a query from its own position when
   * the neighbourhood holds no more than `maxResults` points.
   */
  lemma InsertedIsFound(b: map<int, seq<Vec2>>, cell: real, p: Vec2, m: nat)
    requires cell > 0.0
    requires var b' := Put(b, Key(p, cell), p);
      |Neighbourhood(b', CellIndex(p.x, cell), CellIndex(p.y, cell))| <= m
    ensures p in Prefix(Neighbourhood(Put(b, Key(p, cell), p), CellIndex(p.x, cell), CellIndex(p.y, cell)), m)
  {
    var b' := Put(b, Key(p, cell), p);
    var ks := NeighbourKeys(CellIndex(p.x, cell), CellIndex(p.y, cell));
    OwnKeyIsQueried(p, cell);
    assert p in Bucket(b', ks[4]);
    GatherHas(b', ks, 4, p);
  }

  /** An empty grid (fresh or cleared) returns nothing from any query. */
  lemma {:induction false} EmptyGathersNothing(ks: seq<int>)
    ensures Gather(map[], ks) == []
  {
    if |ks| > 0 {
      EmptyGathersNothing(ks[..|ks| - 1]);
    }
  }

  lemma EmptyQueryIsEmpty(cx: int, cy: int, m: nat)
    ensures Prefix(Neighbourhood(map[], cx, cy), m) == []
  {
    EmptyGathersNothing(NeighbourKeys(cx, cy));
  }

  /** Inserting keeps every point in the bucket of its own key. */
  lemma {:induction false} PutAllKeyed(b: map<int, seq<Vec2>>, ps: seq<Vec2>, cell: real)
    requires KeyedBy(b, cell)
    ensures KeyedBy(PutAll(b, ps, cell), cell)
  {
    if |ps| > 0 {
      PutAllKeyed(b, ps[..|ps| - 1], cell);
    }
  }

  /** `insertAll(ps)` adds exactly the points of `ps`: bucket by bucket, the old list followed by the new points with that key. */
  lemma {:induction false} PutAllBuckets(b: map<int, seq<Vec2>>, ps: seq<Vec2>, cell: real, k: int)
    requires cell > 0.0
    ensures Bucket(PutAll(b, ps, cell), k) == Bucket(b, k) + KeyedPoints(ps, cell, k)
  {
    if |ps| > 0 {
      var init, last := ps[..|ps| - 1], ps[|ps| - 1];
      PutAllBuckets(b, init, cell, k);
      PutBucket(PutAll(b, init, cell), k, Key(last, cell), last);
    }
  }

  /** One insertion adds `p` to bucket `k` exactly when `p`'s key is `k`. */
  lemma PutBucket(b: map<int, seq<Vec2>>, k: int, key: int, p: Vec2)
    ensures Bucket(Put(b, key, p), k) == Bucket(b, k) + (if key == k then [p] else [])
  {
  }

  /** The points of `ps` whose key is `k`, in order. */
  function KeyedPoints(ps: seq<Vec2>, cell: real, k: int): seq<Vec2>
    requires cell > 0.0
  {
    if |ps| == 0 then []
    else KeyedPoints(ps[..|ps| - 1], cell, k) + (if Key(ps[|ps| - 1], cell) == k then [ps[|ps| - 1]] else [])
  }

  // ---------------------------------------------------------------------
  // Helpers for the query loop

  lemma PrefixSaturated<T>(s: seq<T>, t: seq<T>, m: nat)
    requires s <= t && |Prefix(s, m)| >= m
    ensures Prefix(t, m) == Prefix(s, m)
  {
  }

  lemma PrefixStep<T>(s: seq<T>, x: T, m: nat)
    requires |Prefix(s, m)| < m
    ensures Prefix(s + [x], m) == Prefix(s, m) + [x]
  {
  }

  /** Once `m` points are collected, visiting more keys changes nothing. */
  lemma GatherSaturated(b: map<int, seq<Vec2>>, ks: seq<int>, n: nat, j: nat, m: nat)
    requires n <= j <= |ks| && |Visited(b, ks, n, m)| >= m
    ensures Visited(b, ks, j, m) == Visited(b, ks, n, m)
  {
    GatherGrows(b, ks, n, j);
    PrefixSaturated(Gather(b, ks[..n]), Gather(b, ks[..j]), m);
  }

  lemma {:induction false} GatherGrows(b: map<int, seq<Vec2>>, ks: seq<int>, n: nat, j: nat)
    requires n <= j <= |ks|
    ensures Gather(b, ks[..n]) <= Gather(b, ks[..j])
    decreases j
  {
    if n < j {
      GatherGrows(b, ks, n, j - 1);
      assert ks[..j][..j - 1] == ks[..j - 1];
    }
  }
}
