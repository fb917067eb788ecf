// How many rectangles and how many pixels one update carries.
module DiffSize {
  import opened Bytes
  import opened Images
  import opened Diff
  import opened Bits
  import opened DiffFacts

  // The most rectangles two frames of this size can produce.
  function MaxRects(w: nat, h: nat): nat {
    Tiles(h) * ((Tiles(w) + 1) / 2)
  }

  lemma {:induction false} RunsCount(d: seq<bool>, i: nat, w: int, y0: int, y1: int)
    requires i <= |d|
    ensures |Runs(d, i, w, y0, y1)| <= (|d| - i + 1) / 2
    decreases |d| - i
  {
    if i < |d| {
      if !d[i] {
        RunsCount(d, i + 1, w, y0, y1);
      } else {
        var e := RunEnd(d, i);
        RunEndFacts(d, i);
        if e < |d| {
          RunsCount(d, e + 1, w, y0, y1);
          assert Runs(d, e, w, y0, y1) == Runs(d, e + 1, w, y0, y1);
        }
      }
    }
  }

  lemma MoreRows(w: nat, h: nat)
    requires h > 0
    ensures MaxRects(w, h) == (Tiles(w) + 1) / 2 + if h > TILE then MaxRects(w, h - TILE) else 0
  {
    var per := (Tiles(w) + 1) / 2;
    if h > TILE {
      var t := Tiles(h - TILE);
      assert Tiles(h) == 1 + t;
      assert (1 + t) * per == per + t * per;
    } else {
      assert Tiles(h) == 1;
    }
  }

  lemma {:induction false} RowsCount(prev: Frame, cur: Frame, ty: nat)
    requires SameSize(prev, cur) && ty < cur.height
    ensures |RowsFrom(prev, cur, ty)| <= MaxRects(cur.width, cur.height - ty)
    decreases cur.height - ty
  {
    RunsCount(Flags(prev, cur, ty), 0, cur.width, ty, Min(ty + TILE, cur.height));
    MoreRows(cur.width, cur.height - ty);
    if ty + TILE < cur.height { RowsCount(prev, cur, ty + TILE); }
  }

  lemma CountBound(prev: Frame, cur: Frame)
    requires SameSize(prev, cur)
    ensures |Dirty(prev, cur)| <= MaxRects(cur.width, cur.height)
  {
    if cur.height > 0 { RowsCount(prev, cur, 0); }
  }

  // A frame whose even tile columns hold the given byte and the others zero.
  function Striped(w: nat, h: nat, v: Byte): (f: Frame)
    ensures f.width == w && f.height == h
    ensures forall x, y :: 0 <= x < w && 0 <= y < h ==> f.At(x, y) == Stripe(x, v)
  {
    var f := Image(0, 0, w, h, 4 * w, seq(4 * w * h, k requires 0 <= k < 4 * w * h => StripeByte(w, k, v)));
    assert w > 0 && h > 0 ==> (h - 1) * (4 * w) + 4 * w == 4 * w * h;
    StripedAt(w, h, v, f);
    f
  }

  function Stripe(x: int, v: Byte): RGBA {
    if x / 32 % 2 == 0 then RGBA(v, v, v, v) else RGBA(0, 0, 0, 0)
  }

  function StripeByte(w: nat, k: nat, v: Byte): Byte {
    if w > 0 && k % (4 * w) / 128 % 2 == 0 then v else 0
  }

  lemma StripeByteAt(w: nat, x: nat, y: nat, c: nat, v: Byte)
    requires x < w && c < 4
    ensures StripeByte(w, y * (4 * w) + 4 * x + c, v) == if x / 32 % 2 == 0 then v else 0
  {
    var p := 4 * w;
    Quotient(y * p + 4 * x + c, p, y, 4 * x + c);
    assert (4 * x + c) / 128 == x / 32;
  }

  lemma StripedAt(w: nat, h: nat, v: Byte, f: Frame)
    requires f.width == w && f.height == h && f.stride == 4 * w
    requires forall k: nat :: k < |f.pix| ==> f.pix[k] == StripeByte(w, k, v)
    ensures forall x, y :: 0 <= x < w && 0 <= y < h ==> f.At(x, y) == Stripe(x, v)
  {
    forall x: nat, y: nat | x < w && y < h ensures f.At(x, y) == Stripe(x, v) {
      f.OffsetInside(x, y);
      StripeByteAt(w, x, y, 0, v);
      StripeByteAt(w, x, y, 1, v);
      StripeByteAt(w, x, y, 2, v);
      StripeByteAt(w, x, y, 3, v);
    }
  }

  // Every other tile dirty gives as many runs as possible.
  lemma {:induction false} AlternatingCount(d: seq<bool>, i: nat, w: int, y0: int, y1: int)
    requires i <= |d| && i % 2 == 0 && forall k :: 0 <= k < |d| ==> d[k] == (k % 2 == 0)
    ensures |Runs(d, i, w, y0, y1)| == (|d| - i + 1) / 2
    decreases |d| - i
  {
    if i < |d| {
      RunEndIs(d, i, i + 1);
      if i + 1 < |d| {
        assert Runs(d, i + 1, w, y0, y1) == Runs(d, i + 2, w, y0, y1);
        AlternatingCount(d, i + 2, w, y0, y1);
      }
    }
  }

  // Whether a pixel differs between the two striped frames depends on its tile column alone.
  lemma StripeDiffers(w: nat, h: nat, k: nat, x: int, y: int)
    requires 32 * k <= x < 32 * k + 32 && x < w && 0 <= y < h
    ensures Striped(w, h, 0).At(x, y) != Striped(w, h, 255).At(x, y) <==> k % 2 == 0
  {
    assert x / 32 == k;
    assert Striped(w, h, 0).At(x, y) == Stripe(x, 0) && Striped(w, h, 255).At(x, y) == Stripe(x, 255);
  }

  lemma StripedTile(w: nat, h: nat, ty: nat, k: nat)
    requires ty < h && 32 * k < w
    ensures TileDirty(Striped(w, h, 0), Striped(w, h, 255), 32 * k, ty) == (k % 2 == 0)
  {
    var tw, th := Min(TILE, w - 32 * k), Min(TILE, h - ty);
    forall X, Y | 32 * k <= X < 32 * k + tw && ty <= Y < ty + th
      ensures Striped(w, h, 0).At(X, Y) != Striped(w, h, 255).At(X, Y) <==> k % 2 == 0
    {
      StripeDiffers(w, h, k, X, Y);
    }
    StripeDiffers(w, h, k, 32 * k, ty);
  }

  lemma StripedFlags(w: nat, h: nat, ty: nat, k: nat)
    requires ty < h && k < Tiles(w)
    ensures Flags(Striped(w, h, 0), Striped(w, h, 255), ty)[k] == (k % 2 == 0)
  {
    StripedTile(w, h, ty, k);
  }

  lemma StripedRow(w: nat, h: nat, ty: nat)
    requires ty < h
    ensures |RowRects(Striped(w, h, 0), Striped(w, h, 255), ty)| == (Tiles(w) + 1) / 2
  {
    var d := Flags(Striped(w, h, 0), Striped(w, h, 255), ty);
    forall k | 0 <= k < |d| ensures d[k] == (k % 2 == 0) { StripedFlags(w, h, ty, k); }
    AlternatingCount(d, 0, w, ty, Min(ty + TILE, h));
  }

  lemma {:induction false} StripedRows(w: nat, h: nat, ty: nat)
    requires ty < h
    ensures |RowsFrom(Striped(w, h, 0), Striped(w, h, 255), ty)| == MaxRects(w, h - ty)
    decreases h - ty
  {
    StripedRow(w, h, ty);
    MoreRows(w, h - ty);
    if ty + TILE < h { StripedRows(w, h, ty + TILE); }
  }

  // The two-byte rectangle count of an update is exact for every pair of frames of a size
  // if and only if the size allows at most 65535 rectangles.
  lemma CountFieldExact(w: nat, h: nat)
    ensures (forall prev: Frame, cur: Frame ::
              SameSize(prev, cur) && cur.width == w && cur.height == h ==>
                ReadU16(U16(|Dirty(prev, cur)|)) == |Dirty(prev, cur)|)
       <==> MaxRects(w, h) <= 0xFFFF
  {
    hide Dirty, MaxRects, U16, ReadU16;
    if MaxRects(w, h) <= 0xFFFF {
      forall prev: Frame, cur: Frame | SameSize(prev, cur) && cur.width == w && cur.height == h
        ensures ReadU16(U16(|Dirty(prev, cur)|)) == |Dirty(prev, cur)|
      {
        CountBound(prev, cur);
        CountShown(|Dirty(prev, cur)|);
      }
    } else {
      var prev, cur := BoundReached(w, h);
      CountShown(|Dirty(prev, cur)|);
    }
  }

  lemma CountShown(n: nat)
    ensures ReadU16(U16(n)) == n <==> n <= 0xFFFF
  {
  }

  lemma BoundReached(w: nat, h: nat) returns (prev: Frame, cur: Frame)
    ensures SameSize(prev, cur) && cur.width == w && cur.height == h && |Dirty(prev, cur)| == MaxRects(w, h)
  {
    if h > 0 { StripedRows(w, h, 0); }
    prev, cur := Striped(w, h, 0), Striped(w, h, 255);
  }

  // ---- Pixels carried ----

  function Area(rects: seq<Rect>): int {
    if rects == [] then 0 else rects[0].Dx() * rects[0].Dy() + Area(rects[1..])
  }

  ghost function Pixels(r: Rect): set<(int, int)> {
    set x, y | r.x0 <= x < r.x1 && r.y0 <= y < r.y1 :: (x, y)
  }

  lemma {:induction false} ColumnSize(r: Rect)
    requires r.x1 == r.x0 + 1 && r.y0 <= r.y1
    ensures |Pixels(r)| == r.Dy()
    decreases r.y1 - r.y0
  {
    if r.y0 < r.y1 {
      var up := r.(y1 := r.y1 - 1);
      ColumnSize(up);
      assert Pixels(r) == Pixels(up) + {(r.x0, r.y1 - 1)};
    } else {
      assert Pixels(r) == {};
    }
  }

  lemma {:induction false} RectSize(r: Rect)
    requires r.x0 <= r.x1 && r.y0 <= r.y1
    ensures |Pixels(r)| == r.Dx() * r.Dy()
    decreases r.x1 - r.x0
  {
    if r.x0 < r.x1 {
      var left, column := r.(x1 := r.x1 - 1), r.(x0 := r.x1 - 1);
      RectSize(left);
      ColumnSize(column);
      assert Pixels(r) == Pixels(left) + Pixels(column);
      DisjointSum(Pixels(left), Pixels(column));
      OneMore(left.Dx(), r.Dy());
    } else {
      assert Pixels(r) == {};
    }
  }

  lemma DisjointSum<T>(a: set<T>, b: set<T>)
    requires a !! b
    ensures |a + b| == |a| + |b|
  {
  }

  lemma Subset<T>(a: set<T>, b: set<T>)
    requires a <= b
    ensures |a| <= |b|
  {
    assert b == a + (b - a);
  }

  ghost function CoveredPixels(rects: seq<Rect>, w: nat, h: nat): set<(int, int)> {
    set x, y | 0 <= x < w && 0 <= y < h && Covered(rects, x, y) :: (x, y)
  }

  lemma CoveredHead(rects: seq<Rect>, x: int, y: int)
    requires rects != []
    ensures Covered(rects, x, y) <==> rects[0].Contains(x, y) || Covered(rects[1..], x, y)
  {
    assert rects == [rects[0]] + rects[1..];
    CoveredConcat([rects[0]], rects[1..], x, y);
    if rects[0].Contains(x, y) { assert [rects[0]][0].Contains(x, y); }
  }

  lemma CoveredSplit(rects: seq<Rect>, w: nat, h: nat)
    requires rects != [] && rects[0].Inside(w, h)
    ensures CoveredPixels(rects, w, h) == Pixels(rects[0]) + CoveredPixels(rects[1..], w, h)
  {
    forall x, y ensures Covered(rects, x, y) <==> rects[0].Contains(x, y) || Covered(rects[1..], x, y) {
      CoveredHead(rects, x, y);
    }
  }

  lemma HeadDisjoint(rects: seq<Rect>, w: nat, h: nat)
    requires rects != [] && InOrder(rects)
    ensures Pixels(rects[0]) !! CoveredPixels(rects[1..], w, h)
  {
    var rest := rects[1..];
    forall x, y | rects[0].Contains(x, y) ensures !Covered(rest, x, y) {
      forall l | 0 <= l < |rest| ensures !rest[l].Contains(x, y) {
        assert Before(rects[0], rects[l + 1]);
      }
    }
  }

  // Rectangles in order are disjoint, so their areas add up.
  lemma {:induction false} AreaIsCount(rects: seq<Rect>, w: nat, h: nat)
    requires InOrder(rects) && forall k :: 0 <= k < |rects| ==> rects[k].Inside(w, h)
    ensures Area(rects) == |CoveredPixels(rects, w, h)|
  {
    if rects == [] {
      assert CoveredPixels(rects, w, h) == {};
    } else {
      CoveredSplit(rects, w, h);
      HeadDisjoint(rects, w, h);
      DisjointSum(Pixels(rects[0]), CoveredPixels(rects[1..], w, h));
      RectSize(rects[0]);
      AreaIsCount(rects[1..], w, h);
    }
  }

  ghost function DirtyPixels(prev: Frame, cur: Frame): set<(int, int)>
    requires SameSize(prev, cur)
  {
    set x, y | 0 <= x < cur.width && 0 <= y < cur.height && DirtyAt(prev, cur, x, y) :: (x, y)
  }

  // Conservation: an incremental update carries the pixels of the dirty tiles, each once.
  lemma DirtyArea(prev: Frame, cur: Frame)
    requires SameSize(prev, cur)
    ensures Area(Dirty(prev, cur)) == |DirtyPixels(prev, cur)|
    ensures 0 <= Area(Dirty(prev, cur)) <= cur.width * cur.height
  {
    var w, h := cur.width, cur.height;
    DirtyExact(prev, cur);
    AreaIsCount(Dirty(prev, cur), w, h);
    assert DirtyPixels(prev, cur) == CoveredPixels(Dirty(prev, cur), w, h);
    AtMostAll(DirtyPixels(prev, cur), w, h);
  }

  lemma AtMostAll(s: set<(int, int)>, w: nat, h: nat)
    requires forall p :: p in s ==> 0 <= p.0 < w && 0 <= p.1 < h
    ensures |s| <= w * h
  {
    var whole := Rect(0, 0, w, h);
    RectSize(whole);
    assert s <= Pixels(whole);
    Subset(s, Pixels(whole));
  }
}
