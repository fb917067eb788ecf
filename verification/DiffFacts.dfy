// What the rectangles of Diff.Dirty mean.
module DiffFacts {
  import opened Bytes
  import opened Images
  import opened Diff

  ghost predicate Covered(rects: seq<Rect>, x: int, y: int) {
    exists k :: 0 <= k < |rects| && rects[k].Contains(x, y)
  }

  lemma CoveredConcat(a: seq<Rect>, b: seq<Rect>, x: int, y: int)
    ensures Covered(a + b, x, y) <==> Covered(a, x, y) || Covered(b, x, y)
  {
    if Covered(a, x, y) {
      var k :| 0 <= k < |a| && a[k].Contains(x, y);
      assert (a + b)[k] == a[k];
    }
    if Covered(b, x, y) {
      var k :| 0 <= k < |b| && b[k].Contains(x, y);
      assert (a + b)[|a| + k] == b[k];
    }
  }

  // The tile of the pixel (x, y) contains a differing byte.
  ghost predicate DirtyAt(prev: Frame, cur: Frame, x: int, y: int)
    requires SameSize(prev, cur) && 0 <= x < cur.width && 0 <= y < cur.height
  {
    TileDirty(prev, cur, 32 * (x / 32), 32 * (y / 32))
  }

  // b comes after a: in a lower tile row, or in the same one with a whole tile between.
  predicate Before(a: Rect, b: Rect) {
    a.y1 <= b.y0 || (a.y0 == b.y0 && a.y1 == b.y1 && a.x1 + TILE <= b.x0)
  }

  ghost predicate InOrder(rects: seq<Rect>) {
    forall k, l :: 0 <= k < l < |rects| ==> Before(rects[k], rects[l])
  }

  lemma {:induction false} RunEndFacts(d: seq<bool>, i: nat)
    requires i <= |d|
    ensures var e := RunEnd(d, i); (forall k :: i <= k < e ==> d[k]) && (e < |d| ==> !d[e])
    ensures i < |d| && d[i] ==> RunEnd(d, i) > i
    decreases |d| - i
  {
    if i < |d| && d[i] { RunEndFacts(d, i + 1); }
  }

  // Shape and order of the runs of one tile row.
  lemma {:induction false} RunsShape(d: seq<bool>, i: nat, w: int, y0: int, y1: int)
    requires 0 <= w && i <= |d| == Tiles(w) && y0 < y1
    ensures var R := Runs(d, i, w, y0, y1);
      && (forall k :: 0 <= k < |R| ==>
           && R[k].y0 == y0 && R[k].y1 == y1 && 32 * i <= R[k].x0 < R[k].x1 <= w
           && R[k].x0 % 32 == 0 && (R[k].x1 % 32 == 0 || R[k].x1 == w))
      && InOrder(R)
    decreases |d| - i
  {
    if i < |d| {
      if !d[i] {
        RunsShape(d, i + 1, w, y0, y1);
      } else {
        var e := RunEnd(d, i);
        RunEndFacts(d, i);
        RunsShape(d, e, w, y0, y1);
        var rest := Runs(d, e, w, y0, y1);
        if e < |d| {
          assert rest == Runs(d, e + 1, w, y0, y1);
          RunsShape(d, e + 1, w, y0, y1);
        }
      }
    }
  }

  // A pixel of the tile row is covered exactly when its tile is flagged.
  lemma {:induction false} RunsCover(d: seq<bool>, i: nat, w: int, y0: int, y1: int, x: int, y: int)
    requires 0 <= w && i <= |d| == Tiles(w) && 32 * i <= x < w && y0 <= y < y1
    ensures Covered(Runs(d, i, w, y0, y1), x, y) <==> d[x / 32]
    decreases |d| - i
  {
    RunsShape(d, i, w, y0, y1);
    if !d[i] {
      if x >= 32 * (i + 1) {
        RunsCover(d, i + 1, w, y0, y1, x, y);
      } else {
        RunsShape(d, i + 1, w, y0, y1);
      }
    } else {
      var e := RunEnd(d, i);
      RunEndFacts(d, i);
      var r := Rect(32 * i, y0, Min(32 * e, w), y1);
      CoveredConcat([r], Runs(d, e, w, y0, y1), x, y);
      if x < 32 * e {
        assert [r][0].Contains(x, y);
      } else {
        RunsCover(d, e, w, y0, y1, x, y);
      }
    }
  }

  lemma RowCover(prev: Frame, cur: Frame, ty: nat, x: int, y: int)
    requires SameSize(prev, cur) && ty % 32 == 0 && 0 <= x < cur.width && ty <= y < Min(ty + 32, cur.height)
    ensures Covered(RowRects(prev, cur, ty), x, y) <==> DirtyAt(prev, cur, x, y)
  {
    RunsCover(Flags(prev, cur, ty), 0, cur.width, ty, Min(ty + TILE, cur.height), x, y);
    assert y / 32 == ty / 32;
  }

  // r begins at tile corners and ends at them or at the edge of a w by h screen.
  predicate Aligned(r: Rect, w: int, h: int) {
    && r.x0 % 32 == 0 && (r.x1 % 32 == 0 || r.x1 == w)
    && r.y0 % 32 == 0 && r.y1 == Min(r.y0 + 32, h)
  }

  lemma {:induction false} RowsShape(prev: Frame, cur: Frame, ty: nat)
    requires SameSize(prev, cur) && ty % 32 == 0
    ensures var R := RowsFrom(prev, cur, ty);
      && (forall k :: 0 <= k < |R| ==> R[k].Inside(cur.width, cur.height) && ty <= R[k].y0)
      && (forall k :: 0 <= k < |R| ==> Aligned(R[k], cur.width, cur.height))
      && InOrder(R)
    decreases cur.height - ty
  {
    if ty < cur.height {
      RunsShape(Flags(prev, cur, ty), 0, cur.width, ty, Min(ty + TILE, cur.height));
      RowsShape(prev, cur, ty + TILE);
    }
  }

  lemma {:induction false} RowsCover(prev: Frame, cur: Frame, ty: nat, x: int, y: int)
    requires SameSize(prev, cur) && ty % 32 == 0 && 0 <= x < cur.width && ty <= y < cur.height
    ensures Covered(RowsFrom(prev, cur, ty), x, y) <==> DirtyAt(prev, cur, x, y)
    decreases cur.height - ty
  {
    var row, below := RowRects(prev, cur, ty), RowsFrom(prev, cur, ty + TILE);
    CoveredConcat(row, below, x, y);
    RowsShape(prev, cur, ty + TILE);
    RunsShape(Flags(prev, cur, ty), 0, cur.width, ty, Min(ty + TILE, cur.height));
    if y < ty + TILE {
      RowCover(prev, cur, ty, x, y);
    } else {
      RowsCover(prev, cur, ty + TILE, x, y);
    }
  }

  // For frames of one size the rectangles are nonempty, in bounds, tile-aligned, in row-then-column
  // order and disjoint, and they cover exactly the pixels of the tiles that changed.
  lemma DirtyExact(prev: Frame, cur: Frame)
    requires SameSize(prev, cur)
    ensures forall k :: 0 <= k < |Dirty(prev, cur)| ==>
      Dirty(prev, cur)[k].Inside(cur.width, cur.height) && Aligned(Dirty(prev, cur)[k], cur.width, cur.height)
    ensures InOrder(Dirty(prev, cur))
    ensures forall x, y :: 0 <= x < cur.width && 0 <= y < cur.height ==>
      (Covered(Dirty(prev, cur), x, y) <==> DirtyAt(prev, cur, x, y))
  {
    RowsShape(prev, cur, 0);
    forall x, y | 0 <= x < cur.width && 0 <= y < cur.height
      ensures Covered(Dirty(prev, cur), x, y) <==> DirtyAt(prev, cur, x, y)
    {
      RowsCover(prev, cur, 0, x, y);
    }
  }

  // The tiles at either end of a rectangle are clean: no run could be longer.
  lemma DirtyMaximal(prev: Frame, cur: Frame, k: nat)
    requires SameSize(prev, cur) && k < |Dirty(prev, cur)|
    ensures var r := Dirty(prev, cur)[k];
      && 0 <= r.x0 < r.x1 && 0 <= r.y0 < cur.height
      && (r.x1 < cur.width ==> r.x1 % 32 == 0 && !TileDirty(prev, cur, r.x1, r.y0))
      && (r.x0 > 0 ==> 32 <= r.x0 < cur.width && !TileDirty(prev, cur, r.x0 - 32, r.y0))
  {
    DirtyExact(prev, cur);
    RowsShape(prev, cur, 0);
    var R := Dirty(prev, cur);
    var r := R[k];
    if r.x1 < cur.width {
      Outside(R, k, r.x1);
      assert 32 * (r.x1 / 32) == r.x1 && 32 * (r.y0 / 32) == r.y0;
      assert !DirtyAt(prev, cur, r.x1, r.y0);
    }
    if r.x0 > 0 {
      Outside(R, k, r.x0 - 32);
      assert 32 * ((r.x0 - 32) / 32) == r.x0 - 32 && 32 * (r.y0 / 32) == r.y0;
      assert !DirtyAt(prev, cur, r.x0 - 32, r.y0);
    }
  }

  // Points just beside a rectangle are in none.
  lemma Outside(R: seq<Rect>, k: nat, x: int)
    requires k < |R| && InOrder(R) && R[k].y0 < R[k].y1 && R[k].x0 < R[k].x1
    requires x == R[k].x1 || x == R[k].x0 - 32
    ensures !Covered(R, x, R[k].y0)
  {
    forall l | 0 <= l < |R| ensures !R[l].Contains(x, R[k].y0) {
      if l < k {
        assert Before(R[l], R[k]);
      } else if l > k {
        assert Before(R[k], R[l]);
      }
    }
  }
}
