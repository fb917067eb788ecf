// VNC authentication: the bit-reversed DES key and the response to a challenge (section 7.2.2 of
// RFC 6143). DES itself is any function of a key and a block.
module Auth {
  import opened Bytes
  import opened Bits
  import Pixel

  type Block = b: seq<Byte> | |b| == 8 witness [0, 0, 0, 0, 0, 0, 0, 0]
  type Challenge = c: seq<Byte> | |c| == 16 witness [0, 0, 0, 0, 0, 0, 0, 0, 0, 0, 0, 0, 0, 0, 0, 0]
  type Cipher = (Block, Block) -> Block

  // r is b with its eight bits in the opposite order.
  ghost predicate Reverses(b: Byte, r: Byte) {
    forall i :: 0 <= i < 8 ==> (Bit(r, i) <==> Bit(b, 7 - i))
  }

  // The low n bits of b in the opposite order.
  function LowReversed(b: nat, n: nat): (r: nat)
    ensures r < Pow2(n)
  {
    if n == 0 then 0 else 2 * LowReversed(b, n - 1) + Shr(b, n - 1) % 2
  }

  lemma {:induction false} LowReversedBits(b: nat, n: nat, i: nat)
    requires i < n
    ensures Bit(LowReversed(b, n), i) <==> Bit(b, n - 1 - i)
    decreases n
  {
    if i == 0 {
      BitShr(b, n - 1, 0);
    } else {
      LowReversedBits(b, n - 1, i - 1);
    }
  }

  function Reversed(b: Byte): (r: Byte)
    ensures Reverses(b, r)
  {
    assert Pow2(8) == 256;
    assert forall i :: 0 <= i < 8 ==> (Bit(LowReversed(b, 8), i) <==> Bit(b, 7 - i)) by {
      forall i | 0 <= i < 8 ensures Bit(LowReversed(b, 8), i) <==> Bit(b, 7 - i) { LowReversedBits(b, 8, i); }
    }
    LowReversed(b, 8)
  }

  lemma ReverseTwice(b: Byte)
    ensures Reversed(Reversed(b)) == b
  {
    var r := Reversed(Reversed(b));
    assert Pow2(8) == 256;
    forall i: nat ensures Bit(r, i) <==> Bit(b, i) {
      if i >= 8 {
        BitsBelow(r, 8, i);
        BitsBelow(b, 8, i);
      }
    }
    SameBits(r, b);
  }

  lemma {:induction false} OrNothing(a: nat)
    ensures Or(a, 0) == a
  {
    if a > 0 { OrNothing(a / 2); }
  }

  lemma OrLow(r: nat, x: nat)
    requires x < 2
    ensures Or(r * 2, x) == r * 2 + x
  {
    OrNothing(r);
  }

  lemma LowBit(rest: nat)
    ensures And(rest, 1) == rest % 2
  {
    assert Pow2(1) == 2;
    MaskIsRemainder(rest, 1);
  }

  lemma Short(b: nat, n: nat)
    requires n <= 8
    ensures LowReversed(b, n) < 256
  {
    assert Pow2(8) == 256;
    Pow2Grows(n, 8);
  }

  lemma NextReversed(b: Byte, i: nat)
    requires i < 8
    ensures LowReversed(b, i + 1) == LowReversed(b, i) * 2 + Shr(b, i) % 2 < 256
  {
    Short(b, i + 1);
  }

  // One round of the loop: a shift left and the lowest bit of what is left of b.
  lemma ReverseStep(r: nat, rest: nat)
    requires r * 2 + rest % 2 < 256
    ensures Or(r * 2 % 0x100, And(rest, 1)) == r * 2 + rest % 2
  {
    LowBit(rest);
    assert r * 2 % 0x100 == r * 2;
    OrLow(r, rest % 2);
  }

  lemma ShiftStep(b: nat, i: nat)
    ensures Shr(b, i) / 2 == Shr(b, i + 1)
  {
    assert Pow2(1) == 2;
    Pixel.ShrMore(b, i, 1);
  }

  method ReverseBits(b: Byte) returns (r: Byte)
    ensures r == Reversed(b)
  {
    r := 0;
    var rest: nat := b;
    assert Shr(b, 0) == b;
    for i := 0 to 8
      invariant r == LowReversed(b, i) && rest == Shr(b, i)
    {
      NextReversed(b, i);
      ReverseStep(r, rest);
      ShiftStep(b, i);
      r := Or(r * 2 % 0x100, And(rest, 1));
      rest := rest / 2;
    }
  }

  // ---- The key ----

  // A password cut or filled up with zero bytes to eight.
  function Padded(password: seq<Byte>): (b: Block)
    ensures forall i :: 0 <= i < 8 ==> b[i] == if i < |password| then password[i] else 0
  {
    if |password| >= 8 then password[..8]
    else password + seq(8 - |password|, _ => 0)
  }

  function Key(password: seq<Byte>): (b: Block)
    ensures forall i :: 0 <= i < 8 ==> b[i] == Reversed(Padded(password)[i])
  {
    seq(8, i requires 0 <= i < 8 => Reversed(Padded(password)[i]))
  }

  // Two passwords give the same key if and only if they agree when cut or filled up to eight bytes.
  lemma SameKey(p: seq<Byte>, q: seq<Byte>)
    ensures Key(p) == Key(q) <==> Padded(p) == Padded(q)
  {
    if Key(p) == Key(q) {
      forall i | 0 <= i < 8 ensures Padded(p)[i] == Padded(q)[i] {
        assert Key(p)[i] == Key(q)[i];
        ReverseTwice(Padded(p)[i]);
        ReverseTwice(Padded(q)[i]);
      }
    }
  }

  function Response(des: Cipher, challenge: Challenge, password: seq<Byte>): (r: Challenge) {
    des(Key(password), challenge[..8]) + des(Key(password), challenge[8..])
  }

  // The two halves of the challenge, each encrypted under the password's key.
  predicate Answers(des: Cipher, challenge: Challenge, password: seq<Byte>, b: seq<Byte>) {
    && |b| == 16
    && b[..8] == des(Key(password), challenge[..8])
    && b[8..] == des(Key(password), challenge[8..])
  }

  lemma AnswersOnly(des: Cipher, challenge: Challenge, password: seq<Byte>, b: seq<Byte>)
    ensures Answers(des, challenge, password, b) <==> b == Response(des, challenge, password)
  {
    if Answers(des, challenge, password, b) { assert b == b[..8] + b[8..]; }
  }

  // The key is written into an array and reversed there byte by byte, and the response is filled in
  // block by block. A key of eight bytes is never refused.
  method VncAuthResponse(des: Cipher, challenge: Challenge, password: seq<Byte>) returns (out: seq<Byte>)
    ensures out == Response(des, challenge, password)
    ensures |out| == 16
    ensures out[..8] == des(Key(password), challenge[..8]) && out[8..] == des(Key(password), challenge[8..])
  {
    var key := new Byte[8](i requires 0 <= i < 8 => Padded(password)[i]);
    var i := 0;
    while i < 8
      invariant 0 <= i <= 8
      invariant forall k :: 0 <= k < 8 ==>
        key[k] == if k < i then Reversed(Padded(password)[k]) else Padded(password)[k]
    {
      var r := ReverseBits(key[i]);
      key[i] := r;
      i := i + 1;
    }
    assert key[..] == Key(password);
    out := des(key[..], challenge[..8]);
    out := out + des(key[..], challenge[8..]);
  }

  method CheckVncAuth(des: Cipher, challenge: Challenge, response: seq<Byte>, password: seq<Byte>) returns (ok: bool)
    ensures ok <==> Answers(des, challenge, password, response)
  {
    AnswersOnly(des, challenge, password, response);
    var expected := VncAuthResponse(des, challenge, password);
    if |response| != |expected| {
      return false;
    }
    ok := expected == response;
  }

  // A cipher that never turns one block into the same under two keys.
  ghost predicate TellsKeys(des: Cipher) {
    forall k: Block, j: Block, b: Block :: des(k, b) == des(j, b) ==> k == j
  }

  // Under such a cipher an answer to a challenge passes for another password if and only if the two
  // agree when cut or filled up to eight bytes.
  lemma PassesOnlySame(des: Cipher, challenge: Challenge, p: seq<Byte>, q: seq<Byte>, b: seq<Byte>)
    requires TellsKeys(des) && Answers(des, challenge, p, b)
    ensures Answers(des, challenge, q, b) <==> Padded(p) == Padded(q)
  {
    SameKey(p, q);
    if Answers(des, challenge, q, b) { assert des(Key(p), challenge[..8]) == des(Key(q), challenge[..8]); }
  }

  // What the client answers passes the host's check whenever the passwords agree on eight bytes.
  lemma SamePasswordPasses(des: Cipher, challenge: Challenge, p: seq<Byte>, q: seq<Byte>)
    requires Padded(p) == Padded(q)
    ensures Response(des, challenge, p) == Response(des, challenge, q)
  {
    SameKey(p, q);
  }
}
