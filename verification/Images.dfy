// RGBA images with an arbitrary origin and stride, and rectangles.
module Images {
  import opened Bytes

  datatype RGBA = RGBA(r: Byte, g: Byte, b: Byte, a: Byte)

  // Pixel i of a run of pixels.
  function Quad(s: seq<Byte>, i: nat): RGBA
    requires 4 * i + 4 <= |s|
  {
    RGBA(s[4 * i], s[4 * i + 1], s[4 * i + 2], s[4 * i + 3])
  }

  datatype Rect = Rect(x0: int, y0: int, x1: int, y1: int) {
    function Dx(): int { x1 - x0 }

    function Dy(): int { y1 - y0 }

    predicate Contains(x: int, y: int) {
      x0 <= x < x1 && y0 <= y < y1
    }

    // A nonempty rectangle inside a w by h framebuffer.
    predicate Inside(w: int, h: int) {
      0 <= x0 < x1 <= w && 0 <= y0 < y1 <= h
    }

    // A possibly empty rectangle inside a w by h framebuffer.
    predicate Within(w: int, h: int) {
      0 <= x0 <= x1 <= w && 0 <= y0 <= y1 <= h
    }
  }

  // Bounds are [minX, minX+width) by [minY, minY+height).
  datatype Image = Image(minX: int, minY: int, width: nat, height: nat, stride: nat, pix: seq<Byte>) {
    // Every pixel in bounds has its four bytes inside pix.
    predicate Valid() {
      width > 0 && height > 0 ==> (height - 1) * stride + 4 * width <= |pix|
    }

    // Byte offset of the pixel at the absolute coordinates (x, y).
    function PixOffset(x: int, y: int): int {
      (y - minY) * stride + (x - minX) * 4
    }

    // The pixel at the framebuffer-relative coordinates (x, y).
    function At(x: int, y: int): RGBA
      requires Valid() && 0 <= x < width && 0 <= y < height
    {
      OffsetInside(x, y);
      var o := PixOffset(minX + x, minY + y);
      RGBA(pix[o], pix[o + 1], pix[o + 2], pix[o + 3])
    }

    lemma OffsetInside(x: int, y: int)
      requires Valid() && 0 <= x < width && 0 <= y < height
      ensures PixOffset(minX + x, minY + y) == y * stride + 4 * x
      ensures 0 <= y * stride + 4 * x && y * stride + 4 * x + 4 <= |pix|
    {
      assert y * stride <= (height - 1) * stride;
    }
  }

  type Frame = i: Image | i.Valid() witness Image(0, 0, 0, 0, 0, [])

  predicate SameSize(a: Image, b: Image) {
    a.width == b.width && a.height == b.height
  }
}
