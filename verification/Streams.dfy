// Reading a stream that may end too early.
module Streams {
  import opened Bytes

  // An exact-length read.
  method ReadFull(inp: seq<Byte>, n: nat) returns (err: Option<Error>, b: seq<Byte>, rest: seq<Byte>)
    ensures if |inp| < n then err == Some(ShortRead(inp)) && b == [] && rest == []
            else err == None && b == inp[..n] && rest == inp[n..]
  {
    if |inp| < n {
      return Some(ShortRead(inp)), [], [];
    }
    return None, inp[..n], inp[n..];
  }

  // Dropping n bytes, which reports EOF on any shortage.
  method DiscardBytes(inp: seq<Byte>, n: nat) returns (err: Option<Error>, rest: seq<Byte>)
    ensures if |inp| < n then err == Some(EOF) && rest == [] else err == None && rest == inp[n..]
  {
    if |inp| < n {
      return Some(EOF), [];
    }
    return None, inp[n..];
  }
}
