// The messages a viewer sends and how they are printed (section 7.5 of RFC 6143).
module Protocol {
  import opened Bytes
  import opened Pixel

  type Int32 = x: int | -0x8000_0000 <= x < 0x8000_0000

  datatype ClientMsg =
    | SetPixelFormat(pf: PixelFormat)
    | SetEncodings(encodings: seq<Int32>)
    | UpdateRequest(incremental: bool, x: Word16, y: Word16, width: Word16, height: Word16)
    | Pointer(x: Word16, y: Word16, buttons: Byte)
    | Key(keysym: Word32, down: bool)
    | ClientCutText(text: seq<Byte>)

  function Flag(b: bool): Byte {
    if b then 1 else 0
  }

  function PrintEncodings(encodings: seq<Int32>): (b: seq<Byte>)
    ensures |b| == 4 * |encodings|
  {
    if encodings == [] then [] else U32(encodings[0]) + PrintEncodings(encodings[1..])
  }

  function Print(m: ClientMsg): (b: seq<Byte>)
    ensures |b| > 0
  {
    match m
    case SetPixelFormat(pf) => [0, 0, 0, 0] + pf.Write()
    case SetEncodings(encodings) => [2, 0] + U16(|encodings|) + PrintEncodings(encodings)
    case UpdateRequest(incremental, x, y, w, h) => [3, Flag(incremental)] + U16(x) + U16(y) + U16(w) + U16(h)
    case Pointer(x, y, buttons) => [5, buttons] + U16(x) + U16(y)
    case Key(keysym, down) => [4, Flag(down), 0, 0] + U32(keysym)
    case ClientCutText(text) => [6, 0, 0, 0] + U32(|text|) + text
  }

  function PrintAll(ms: seq<ClientMsg>): seq<Byte> {
    if ms == [] then [] else Print(ms[0]) + PrintAll(ms[1..])
  }

  // Messages whose lists and texts fit their counts.
  predicate Printable(m: ClientMsg) {
    && (m.SetEncodings? ==> |m.encodings| <= 0xFFFF)
    && (m.ClientCutText? ==> |m.text| <= 0xFFFF_FFFF)
  }

  // v moved into [0, max); with an empty range the result is -1 or 0.
  function Clamp(v: int, max: int): int {
    if v < 0 then 0 else if v >= max then max - 1 else v
  }

  // In a nonempty range the result is the point of the range nearest to v.
  lemma ClampNearest(v: int, max: int, u: int)
    requires 0 <= u < max
    ensures 0 <= Clamp(v, max) < max
    ensures (if v < Clamp(v, max) then Clamp(v, max) - v else v - Clamp(v, max)) <= (if v < u then u - v else v - u)
  {
  }

  // In an empty range the result lies below it or on its start.
  lemma ClampEmpty(v: int)
    ensures Clamp(v, 0) == if v < 0 then 0 else -1
  {
  }

  // A pointer message of this repository's viewer, whose coordinates are moved into its screen first.
  function PointerTo(w: nat, h: nat, x: int, y: int, buttons: Byte): (m: ClientMsg)
    ensures 0 < w < 0x1_0000 && 0 < h < 0x1_0000 ==> m == Pointer(Clamp(x, w), Clamp(y, h), buttons)
  {
    Pointer(Clamp(x, w) % 0x1_0000, Clamp(y, h) % 0x1_0000, buttons)
  }
}
