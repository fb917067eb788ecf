// Change detection in 32 by 32 tiles, dirty tiles of a row coalesced.
module Diff {
  import opened Bytes
  import opened Images

  const TILE: nat := 32

  // Some pixel of the framebuffer-relative region differs in some byte.
  ghost predicate RegionDiffers(prev: Frame, cur: Frame, x: int, y: int, w: int, h: int)
    requires SameSize(prev, cur)
    requires 0 <= x && x + w <= cur.width && 0 <= y && y + h <= cur.height
  {
    exists X, Y :: x <= X < x + w && y <= Y < y + h && prev.At(X, Y) != cur.At(X, Y)
  }

  lemma QuadsEqual(p: seq<Byte>, c: seq<Byte>, w: nat)
    requires |p| == |c| == 4 * w
    requires forall i: nat :: i < w ==> Quad(p, i) == Quad(c, i)
    ensures p == c
  {
    forall k | 0 <= k < |p| ensures p[k] == c[k] {
      assert Quad(p, k / 4) == Quad(c, k / 4);
    }
  }

  // The bytes of w pixels of one scanline.
  lemma Scanline(img: Frame, x: int, y: int, w: nat) returns (s: seq<Byte>)
    requires 0 <= x && 0 < w && x + w <= img.width && 0 <= y < img.height
    ensures var o := img.PixOffset(img.minX + x, img.minY + y);
      0 <= o && o + w * 4 <= |img.pix| && s == img.pix[o..o + w * 4]
    ensures forall i: nat :: i < w ==> Quad(s, i) == img.At(x + i, y)
  {
    img.OffsetInside(x, y);
    img.OffsetInside(x + w - 1, y);
    var o := img.PixOffset(img.minX + x, img.minY + y);
    s := img.pix[o..o + w * 4];
    forall i: nat | i < w ensures Quad(s, i) == img.At(x + i, y) {
      img.OffsetInside(x + i, y);
    }
  }

  // Comparing one scanline of w pixels as raw bytes.
  lemma ScanlineEqual(prev: Frame, cur: Frame, x: int, y: int, w: nat)
    requires SameSize(prev, cur)
    requires 0 <= x && 0 < w && x + w <= cur.width && 0 <= y < cur.height
    ensures var po, co := prev.PixOffset(prev.minX + x, prev.minY + y), cur.PixOffset(cur.minX + x, cur.minY + y);
      && 0 <= po && po + w * 4 <= |prev.pix| && 0 <= co && co + w * 4 <= |cur.pix|
      && (prev.pix[po..po + w * 4] == cur.pix[co..co + w * 4]
          <==> forall X :: x <= X < x + w ==> prev.At(X, y) == cur.At(X, y))
  {
    var p := Scanline(prev, x, y, w);
    var c := Scanline(cur, x, y, w);
    if p == c {
      forall X | x <= X < x + w ensures prev.At(X, y) == cur.At(X, y) {
        assert Quad(p, X - x) == Quad(c, X - x);
      }
    } else if forall X :: x <= X < x + w ==> prev.At(X, y) == cur.At(X, y) {
      forall i: nat | i < w ensures Quad(p, i) == Quad(c, i) {
        assert prev.At(x + i, y) == cur.At(x + i, y);
      }
      QuadsEqual(p, c, w);
    }
  }

  method TileDiffers(prev: Frame, cur: Frame, x: int, y: int, w: int, h: int) returns (differs: bool)
    requires SameSize(prev, cur)
    requires 0 <= x && 0 < w && x + w <= cur.width && 0 <= y && 0 <= h && y + h <= cur.height
    ensures differs <==> RegionDiffers(prev, cur, x, y, w, h)
  {
    var j := 0;
    while j < h
      invariant 0 <= j <= h
      invariant forall X, Y :: x <= X < x + w && y <= Y < y + j ==> prev.At(X, Y) == cur.At(X, Y)
    {
      var po := prev.PixOffset(prev.minX + x, prev.minY + y + j);
      var co := cur.PixOffset(cur.minX + x, cur.minY + y + j);
      ScanlineEqual(prev, cur, x, y + j, w);
      if prev.pix[po..po + w * 4] != cur.pix[co..co + w * 4] {
        return true;
      }
      j := j + 1;
    }
    return false;
  }

  // The clipped tile whose corner is (tx, ty) contains a differing byte.
  ghost predicate TileDirty(prev: Frame, cur: Frame, tx: int, ty: int)
    requires SameSize(prev, cur) && 0 <= tx < cur.width && 0 <= ty < cur.height
  {
    RegionDiffers(prev, cur, tx, ty, Min(TILE, cur.width - tx), Min(TILE, cur.height - ty))
  }

  function Tiles(n: nat): nat {
    (n + 31) / 32
  }

  // Which tiles of the tile row at ty are dirty, from left to right.
  ghost function Flags(prev: Frame, cur: Frame, ty: int): (d: seq<bool>)
    requires SameSize(prev, cur) && 0 <= ty < cur.height
    ensures |d| == Tiles(cur.width)
  {
    seq(Tiles(cur.width), i requires 0 <= i < Tiles(cur.width) => TileDirty(prev, cur, 32 * i, ty))
  }

  // The first clean position at or after i.
  function RunEnd(d: seq<bool>, i: nat): (e: nat)
    requires i <= |d|
    ensures i <= e <= |d|
    decreases |d| - i
  {
    if i == |d| || !d[i] then i else RunEnd(d, i + 1)
  }

  lemma {:induction false} RunEndIs(d: seq<bool>, i: nat, j: nat)
    requires i <= j <= |d| && (forall k :: i <= k < j ==> d[k]) && (j < |d| ==> !d[j])
    ensures RunEnd(d, i) == j
    decreases |d| - i
  {
    if i < j { RunEndIs(d, i + 1, j); }
  }

  // One rectangle for each maximal run of dirty tiles from tile i on.
  function Runs(d: seq<bool>, i: nat, w: int, y0: int, y1: int): seq<Rect>
    requires i <= |d|
    decreases |d| - i
  {
    if i == |d| then []
    else if !d[i] then Runs(d, i + 1, w, y0, y1)
    else
      var e := RunEnd(d, i);
      [Rect(32 * i, y0, Min(32 * e, w), y1)] + Runs(d, e, w, y0, y1)
  }

  // The rectangles of the tile row at ty and of those below it.
  ghost function RowsFrom(prev: Frame, cur: Frame, ty: nat): seq<Rect>
    requires SameSize(prev, cur)
    decreases cur.height - ty
  {
    if ty >= cur.height then []
    else RowRects(prev, cur, ty) + RowsFrom(prev, cur, ty + TILE)
  }

  ghost function Dirty(prev: Frame, cur: Frame): seq<Rect> {
    if SameSize(prev, cur) then RowsFrom(prev, cur, 0) else [Rect(0, 0, cur.width, cur.height)]
  }

  // Runs up to a clean tile j, when the tiles from i to j are dirty.
  lemma RunCloses(d: seq<bool>, i: nat, j: nat, w: int, y0: int, y1: int)
    requires i < j <= |d| && (forall k :: i <= k < j ==> d[k]) && (j < |d| ==> !d[j])
    ensures Runs(d, i, w, y0, y1)
         == [Rect(32 * i, y0, Min(32 * j, w), y1)] + (if j < |d| then Runs(d, j + 1, w, y0, y1) else [])
  {
    RunEndIs(d, i, j);
  }

  lemma CleanTile(d: seq<bool>, i: nat, w: int, y0: int, y1: int)
    requires i < |d| && !d[i]
    ensures Runs(d, i, w, y0, y1) == Runs(d, i + 1, w, y0, y1)
  {
  }

  // Emitting the rectangle of the run from start to the clean tile j keeps the sum.
  lemma EmitRun(rects: seq<Rect>, d: seq<bool>, start: nat, j: nat, w: int, r: Rect)
    requires start < j <= |d| && (forall k :: start <= k < j ==> d[k]) && (j < |d| ==> !d[j])
    requires r.x0 == 32 * start && r.x1 == Min(32 * j, w)
    ensures rects + [r] + Runs(d, if j < |d| then j + 1 else j, w, r.y0, r.y1) == rects + Runs(d, start, w, r.y0, r.y1)
  {
    RunCloses(d, start, j, w, r.y0, r.y1);
    var tail := Runs(d, if j < |d| then j + 1 else j, w, r.y0, r.y1);
    assert rects + [r] + tail == rects + ([r] + tail);
  }

  ghost function RowRects(prev: Frame, cur: Frame, ty: nat): seq<Rect>
    requires SameSize(prev, cur) && ty < cur.height
  {
    Runs(Flags(prev, cur, ty), 0, cur.width, ty, Min(ty + TILE, cur.height))
  }

  // How far a scan of the flags d has come: the rectangles emitted and those of the tiles from
  // start on make up total, and a run from start to i is under way unless runStart is negative.
  ghost predicate Scanned(rects: seq<Rect>, d: seq<bool>, start: nat, i: nat, runStart: int,
                          w: int, y0: int, y1: int, total: seq<Rect>)
  {
    && start <= i <= |d|
    && (if runStart < 0 then start == i else runStart == 32 * start && start < i)
    && (forall k :: start <= k < i ==> d[k])
    && rects + Runs(d, start, w, y0, y1) == total
  }

  lemma ScanDirty(rects: seq<Rect>, d: seq<bool>, start: nat, i: nat, runStart: int,
                  w: int, y0: int, y1: int, total: seq<Rect>)
    requires Scanned(rects, d, start, i, runStart, w, y0, y1, total) && i < |d| && d[i]
    ensures Scanned(rects, d, start, i + 1, if runStart < 0 then 32 * i else runStart, w, y0, y1, total)
  {
  }

  lemma ScanClean(rects: seq<Rect>, d: seq<bool>, start: nat, i: nat, runStart: int,
                  w: int, y0: int, y1: int, total: seq<Rect>)
    requires Scanned(rects, d, start, i, runStart, w, y0, y1, total) && i < |d| && !d[i] && 32 * i < w
    ensures Scanned(if runStart < 0 then rects else rects + [Rect(runStart, y0, 32 * i, y1)],
                    d, i + 1, i + 1, -1, w, y0, y1, total)
  {
    if runStart < 0 {
      CleanTile(d, i, w, y0, y1);
    } else {
      EmitRun(rects, d, start, i, w, Rect(runStart, y0, 32 * i, y1));
    }
  }

  lemma ScanEnds(rects: seq<Rect>, d: seq<bool>, start: nat, runStart: int,
                 w: int, y0: int, y1: int, total: seq<Rect>)
    requires 0 <= w && |d| == Tiles(w) && Scanned(rects, d, start, |d|, runStart, w, y0, y1, total)
    ensures total == if runStart < 0 then rects else rects + [Rect(runStart, y0, w, y1)]
  {
    if runStart >= 0 { EmitRun(rects, d, start, |d|, w, Rect(runStart, y0, w, y1)); }
  }

  // The flush closure: ends the run under way, if any, at endX.
  method Flush(rects: seq<Rect>, runStart: int, ty: int, th: int, endX: int) returns (rects': seq<Rect>, runStart': int)
    ensures rects' == if runStart < 0 then rects else rects + [Rect(runStart, ty, endX, ty + th)]
    ensures runStart' == if runStart < 0 then runStart else -1
  {
    rects', runStart' := rects, runStart;
    if runStart >= 0 {
      rects' := rects + [Rect(runStart, ty, endX, ty + th)];
      runStart' := -1;
    }
  }

  // Whether tile i of the row, at tx, differs.
  method TileAt(prev: Frame, cur: Frame, tx: int, ty: int, th: int, ghost i: nat) returns (differs: bool)
    requires SameSize(prev, cur) && 0 <= ty < cur.height && th == Min(TILE, cur.height - ty)
    requires tx == 32 * i && tx < cur.width
    ensures differs == Flags(prev, cur, ty)[i]
  {
    var tw := Min(TILE, cur.width - tx);
    differs := TileDiffers(prev, cur, tx, ty, tw, th);
  }

  // One tile of the scan: a dirty one starts a run if none is under way, a clean one ends it.
  method Advance(rects: seq<Rect>, runStart: int, tx: int, ty: int, th: int, differs: bool,
                 ghost d: seq<bool>, ghost start: nat, ghost i: nat, ghost w: int, ghost total: seq<Rect>)
      returns (rects': seq<Rect>, runStart': int)
    requires -1 <= runStart && i < |d| && tx == 32 * i < w && differs == d[i]
    requires Scanned(rects, d, start, i, runStart, w, ty, ty + th, total)
    ensures -1 <= runStart'
    ensures Scanned(rects', d, if differs then start else i + 1, i + 1, runStart', w, ty, ty + th, total)
  {
    rects', runStart' := rects, runStart;
    if differs {
      ScanDirty(rects, d, start, i, runStart, w, ty, ty + th, total);
      if runStart < 0 {
        runStart' := tx;
      }
    } else {
      ScanClean(rects, d, start, i, runStart, w, ty, ty + th, total);
      rects', runStart' := Flush(rects, runStart, ty, th, tx);
    }
  }

  // The scan of one tile row.
  method AppendRow(above: seq<Rect>, prev: Frame, cur: Frame, ty: int) returns (rects: seq<Rect>)
    requires SameSize(prev, cur) && 0 <= ty < cur.height
    ensures rects == above + RowRects(prev, cur, ty)
  {
    hide TileDirty, Runs;
    rects := above;
    var w := cur.width;
    var th := Min(TILE, cur.height - ty);
    var runStart := -1;
    ghost var d := Flags(prev, cur, ty);
    ghost var total := above + Runs(d, 0, w, ty, ty + th);
    ghost var i, start: nat := 0, 0;  // the tile of tx and the first tile not yet accounted for
    var tx := 0;
    while tx < w
      invariant tx == 32 * i && -1 <= runStart
      invariant Scanned(rects, d, start, i, runStart, w, ty, ty + th, total)
    {
      var differs := TileAt(prev, cur, tx, ty, th, i);
      rects, runStart := Advance(rects, runStart, tx, ty, th, differs, d, start, i, w, total);
      start := if differs then start else i + 1;
      i := i + 1;
      tx := tx + TILE;
    }
    ScanEnds(rects, d, start, runStart, w, ty, ty + th, total);
    rects, runStart := Flush(rects, runStart, ty, th, w);
  }

  // The tile rows from ty on, one further.
  lemma NextRows(above: seq<Rect>, prev: Frame, cur: Frame, ty: nat)
    requires SameSize(prev, cur) && ty < cur.height
    ensures above + RowRects(prev, cur, ty) + RowsFrom(prev, cur, ty + TILE) == above + RowsFrom(prev, cur, ty)
  {
    assert RowsFrom(prev, cur, ty) == RowRects(prev, cur, ty) + RowsFrom(prev, cur, ty + TILE);
  }

  method DirtyRects(prev: Frame, cur: Frame) returns (rects: seq<Rect>)
    ensures rects == Dirty(prev, cur)
  {
    var w, h := cur.width, cur.height;
    if prev.width != w || prev.height != h {
      return [Rect(0, 0, w, h)];
    }
    rects := [];
    var ty := 0;
    while ty < h
      invariant 0 <= ty
      invariant rects + RowsFrom(prev, cur, ty) == Dirty(prev, cur)
    {
      NextRows(rects, prev, cur, ty);
      rects := AppendRow(rects, prev, cur, ty);
      ty := ty + TILE;
    }
  }
}
