// How long an update is on the wire.
module UpdateSize {
  import opened Bytes
  import opened Images
  import opened DiffSize
  import opened Pixel
  import opened Encoding
  import opened Server
  import V = Viewer

  lemma {:induction false} RectsLength(pf: PixelFormat, img: Frame, rects: seq<Rect>)
    requires AllWithin(rects, img.width, img.height)
    ensures |RectsBytes(pf, img, rects)| == 12 * |rects| + Area(rects) * pf.BytesPerPixel()
  {
    if rects != [] {
      var r := rects[0];
      assert r.Within(img.width, img.height);
      RectsLength(pf, img, rects[1..]);
      PayloadLength(pf, img, r);
      Distribute(r.Dx(), r.Dy(), Area(rects[1..]), pf.BytesPerPixel());
    }
  }

  lemma Distribute(a: int, b: int, c: int, d: int)
    ensures (a * b + c) * d == b * (a * d) + c * d
  {
  }

  // The pixels an update carries.
  ghost function CarriedPixels(prev: Option<Frame>, incremental: bool, shot: Frame): set<(int, int)> {
    set x, y | 0 <= x < shot.width && 0 <= y < shot.height && V.Carries(prev, incremental, shot, x, y) :: (x, y)
  }

  lemma WholeArea(r: Rect)
    ensures Area([r]) == r.Dx() * r.Dy()
  {
  }

  // The rectangles of an update carry each of its pixels once.
  lemma ChosenArea(prev: Option<Frame>, incremental: bool, shot: Frame)
    ensures Area(ChosenRects(prev, shot, incremental)) == |CarriedPixels(prev, incremental, shot)|
  {
    if incremental && prev.Some? && SameSize(prev.value, shot) {
      DirtyArea(prev.value, shot);
      assert CarriedPixels(prev, incremental, shot) == DirtyPixels(prev.value, shot);
    } else {
      var whole := Rect(0, 0, shot.width, shot.height);
      RectSize(whole);
      WholeArea(whole);
      assert CarriedPixels(prev, incremental, shot) == Pixels(whole);
    }
  }

  // An update is its 4-byte header, 12 bytes for each rectangle and the bytes of each carried pixel;
  // an incremental one never carries more pixels than a full one, also when the size has changed.
  lemma UpdateLength(pf: PixelFormat, prev: Option<Frame>, shot: Frame, incremental: bool)
    ensures var n := |CarriedPixels(prev, incremental, shot)|;
      && |UpdateFor(pf, prev, shot, incremental)|
         == 4 + 12 * |ChosenRects(prev, shot, incremental)| + n * pf.BytesPerPixel()
      && n <= |CarriedPixels(prev, false, shot)| == shot.width * shot.height
  {
    ChosenWithin(prev, shot, incremental);
    RectsLength(pf, shot, ChosenRects(prev, shot, incremental));
    ChosenArea(prev, incremental, shot);
    ChosenArea(prev, false, shot);
    WholeArea(Rect(0, 0, shot.width, shot.height));
    assert CarriedPixels(prev, incremental, shot) <= CarriedPixels(prev, false, shot);
    Subset(CarriedPixels(prev, incremental, shot), CarriedPixels(prev, false, shot));
  }
}
