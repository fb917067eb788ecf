// Bytes, big-endian words and the error values of the byte streams.
module Bytes {
  type Byte = b: int | 0 <= b < 256
  type Word16 = x: int | 0 <= x < 0x1_0000
  type Word32 = x: int | 0 <= x < 0x1_0000_0000

  datatype Option<+T> = None | Some(value: T)

  // EOF is a clean end before the first wanted byte, UnexpectedEOF an end after it.
  // Abort stands for an index outside a slice, which ends the program.
  datatype Error =
    | EOF
    | UnexpectedEOF
    | UnknownType(typ: Byte)
    | UnsupportedEncoding(enc: int)
    | UnsupportedSecurity(sel: int)
    | AuthFailed
    | Refused
    | CaptureFailed
    | Abort

  // Two bytes of an unsigned 16-bit conversion of x, high byte first.
  function U16(x: int): (r: seq<Byte>)
    ensures |r| == 2
    ensures ReadU16(r) == x % 0x1_0000
  {
    [x / 0x100 % 0x100, x % 0x100]
  }

  function U32(x: int): (r: seq<Byte>)
    ensures |r| == 4
    ensures ReadU32(r) == x % 0x1_0000_0000
  {
    SplitWord(x);
    U16(x / 0x1_0000) + U16(x)
  }

  lemma SplitWord(x: int)
    ensures 0x1_0000 * (x / 0x1_0000 % 0x1_0000) + x % 0x1_0000 == x % 0x1_0000_0000
  {
    var h, l := x / 0x1_0000, x % 0x1_0000;
    var q, m := h / 0x1_0000, h % 0x1_0000;
    assert x == 0x1_0000_0000 * q + (0x1_0000 * m + l);
  }

  function ReadU16(b: seq<Byte>): Word16
    requires |b| >= 2
  {
    0x100 * (b[0] as int) + b[1]
  }

  function ReadU32(b: seq<Byte>): Word32
    requires |b| >= 4
  {
    0x1_0000 * (ReadU16(b[..2]) as int) + ReadU16(b[2..])
  }

  // The two's complement reading of a word.
  function Signed32(x: Word32): int {
    if x >= 0x8000_0000 then x - 0x1_0000_0000 else x
  }

  // What an exact-length read reports when the stream holds too few bytes.
  function ShortRead(inp: seq<Byte>): (err: Error)
    ensures err == EOF <==> |inp| == 0
    ensures err == UnexpectedEOF <==> |inp| > 0
  {
    if inp == [] then EOF else UnexpectedEOF
  }

  function Min(a: int, b: int): int {
    if a <= b then a else b
  }

  // Reading a known prefix off a stream.
  lemma Prefix<T>(a: seq<T>, b: seq<T>)
    ensures |a + b| >= |a|
    ensures (a + b)[..|a|] == a
    ensures (a + b)[|a|..] == b
  {
  }

  lemma SliceTail<T>(a: seq<T>, b: seq<T>, m: nat, l: nat)
    requires m + l <= |b|
    ensures (a + b)[|a| + m..|a| + m + l] == b[m..m + l]
  {
  }

  lemma SliceHead<T>(a: seq<T>, b: seq<T>, m: nat, l: nat)
    requires m + l <= |a|
    ensures (a + b)[m..m + l] == a[m..m + l]
  {
  }

  lemma SliceOfSlice<T>(s: seq<T>, a: nat, l: nat, i: nat, n: nat)
    requires a + l <= |s| && i + n <= l
    ensures s[a..a + l][i..i + n] == s[a + i..a + i + n]
  {
    var t, u, v := s[a..a + l], s[a..a + l][i..i + n], s[a + i..a + i + n];
    forall k | 0 <= k < n ensures u[k] == v[k] {
      assert u[k] == t[i + k] == s[a + i + k];
    }
  }

  lemma Assoc<T>(a: seq<T>, b: seq<T>, c: seq<T>)
    ensures (a + b) + c == a + (b + c)
  {
  }

  lemma OneMore(n: int, a: int)
    ensures (n + 1) * a == a + n * a
  {
  }
}
