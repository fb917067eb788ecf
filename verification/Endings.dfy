// What each side of the handshake does with any stream whatever: how far it reads, what it writes and
// how it ends (sections 7.1 to 7.3 of RFC 6143).
module Endings {
  import opened Bytes
  import opened Pixel
  import opened Protocol
  import opened Handshake
  import Auth

  // ---- The constants, spelt out ----

  predicate Spells(b: seq<Byte>, text: string) {
    |b| == |text| && forall i :: 0 <= i < |b| ==> b[i] == text[i] as int
  }

  lemma Texts()
    ensures Spells(VERSION, "RFB 003.008\n") && Spells(REASON, "authentication failed")
  {
  }

  // ---- The host ----

  // What the host writes before the verdict.
  function Asked(h: HostConfig): seq<Byte> {
    if h.password == [] then VERSION + [1, 1] else VERSION + [1, 2] + h.challenge
  }

  function Granted(h: HostConfig): seq<Byte> {
    Asked(h) + [0, 0, 0, 0]
  }

  // ServerInit: the size, the default pixel format and the name.
  function Welcome(h: HostConfig): seq<Byte> {
    Granted(h) + U16(h.width) + U16(h.height) + [32, 24, 0, 1, 0, 255, 0, 255, 0, 255, 16, 8, 0, 0, 0, 0]
    + U32(|h.name|) + h.name
  }

  function Refusal(h: HostConfig): seq<Byte> {
    Asked(h) + [0, 0, 0, 1] + [0, 0, 0, 21] + REASON
  }

  function OpenHost(h: HostConfig, inp: seq<Byte>): HostTalk {
    if |inp| < 12 then HostTalk([], VERSION, Some(ShortRead(inp)))
    else if |inp| == 12 then HostTalk([], VERSION + [1, 1], Some(EOF))
    else if |inp| == 13 then HostTalk([], Granted(h), Some(EOF))
    else HostTalk(inp[14..], Welcome(h), None)
  }

  function GuardedHost(des: Auth.Cipher, h: HostConfig, inp: seq<Byte>): HostTalk {
    if |inp| < 12 then HostTalk([], VERSION, Some(ShortRead(inp)))
    else if |inp| == 12 then HostTalk([], VERSION + [1, 2], Some(EOF))
    else if inp[12] != 2 then HostTalk(inp[13..], VERSION + [1, 2], Some(UnsupportedSecurity(inp[12])))
    else if |inp| < 29 then HostTalk([], Asked(h), Some(ShortRead(inp[13..])))
    else if !Auth.Answers(des, h.challenge, h.password, inp[13..29]) then
      HostTalk(inp[29..], Refusal(h), Some(AuthFailed))
    else if |inp| == 29 then HostTalk([], Granted(h), Some(EOF))
    else HostTalk(inp[30..], Welcome(h), None)
  }

  lemma WelcomeIs(h: HostConfig)
    ensures Welcome(h) == Granted(h) + InitBytes(h)
  {
    var pf := [32, 24, 0, 1, 0, 255, 0, 255, 0, 255, 16, 8, 0, 0, 0, 0];
    assert U16(255) == [0, 255];
    assert DefaultFormat().Write() == pf;
  }

  lemma VerdictIs(ok: bool)
    ensures ResultBytes(ok) == if ok then [0, 0, 0, 0] else [0, 0, 0, 1] + [0, 0, 0, 21] + REASON
  {
    assert U32(0) == [0, 0, 0, 0] && U32(1) == [0, 0, 0, 1] && U32(21) == [0, 0, 0, 21];
  }

  lemma HostLast(des: Auth.Cipher, h: HostConfig, inp: seq<Byte>)
    ensures HostRuns(des, h, HearInit, inp, Granted(h))
         == if inp == [] then HostTalk([], Granted(h), Some(EOF)) else HostTalk(inp[1..], Welcome(h), None)
  {
    WelcomeIs(h);
    if inp != [] {
      hide InitBytes, Welcome, Granted;
      assert HostRuns(des, h, ServerInit, inp[1..], Granted(h)) == HostTalk(inp[1..], Welcome(h), None);
    }
  }

  lemma GrantedIs(h: HostConfig)
    ensures Granted(h) == Asked(h) + [0, 0, 0, 0]
    ensures Refusal(h) == Asked(h) + [0, 0, 0, 1] + [0, 0, 0, 21] + REASON
  {
  }

  lemma HostVerdict(des: Auth.Cipher, h: HostConfig, ok: bool, inp: seq<Byte>)
    ensures HostRuns(des, h, Result(ok), inp, Asked(h))
         == if !ok then HostTalk(inp, Refusal(h), Some(AuthFailed))
            else if inp == [] then HostTalk([], Granted(h), Some(EOF))
            else HostTalk(inp[1..], Welcome(h), None)
  {
    VerdictIs(ok);
    HostLast(des, h, inp);
    hide Asked, ResultBytes, InitBytes, Welcome, Granted;
    assert Asked(h) + [0, 0, 0, 0] == Granted(h) by { GrantedIs(h); }
    assert !ok ==> Asked(h) + ([0, 0, 0, 1] + [0, 0, 0, 21] + REASON) == Refusal(h);
  }

  lemma HostGreets(des: Auth.Cipher, h: HostConfig, inp: seq<Byte>)
    ensures HostRuns(des, h, HostVersion, inp, [])
         == if |inp| < 12 then HostTalk([], VERSION, Some(ShortRead(inp)))
            else HostRuns(des, h, HearChoice, inp[12..], VERSION + [1, if h.password != [] then 2 else 1])
  {
    assert [] + VERSION == VERSION;
    assert HostRuns(des, h, HostVersion, inp, []) == HostRuns(des, h, HostHearVersion, inp, VERSION);
    if |inp| >= 12 {
      assert HostRuns(des, h, HostHearVersion, inp, VERSION) == HostRuns(des, h, Offer, inp[12..], VERSION);
    }
  }

  lemma OpenHostRuns(des: Auth.Cipher, h: HostConfig, inp: seq<Byte>)
    requires h.password == []
    ensures HostRuns(des, h, HostVersion, inp, []) == OpenHost(h, inp)
  {
    HostGreets(des, h, inp);
    if |inp| >= 13 {
      HostVerdict(des, h, true, inp[13..]);
      hide InitBytes, Welcome, Granted, ResultBytes;
      assert inp[12..][1..] == inp[13..];
    }
  }

  lemma HostChallenges(des: Auth.Cipher, h: HostConfig, inp: seq<Byte>)
    requires h.password != []
    ensures HostRuns(des, h, SendChallenge, inp, VERSION + [1, 2])
         == if |inp| < 16 then HostTalk([], Asked(h), Some(ShortRead(inp)))
            else HostRuns(des, h, Result(Auth.Answers(des, h.challenge, h.password, inp[..16])), inp[16..], Asked(h))
  {
    if |inp| >= 16 { Auth.AnswersOnly(des, h.challenge, h.password, inp[..16]); }
    hide Auth.Answers, Auth.Response;
    assert HostRuns(des, h, SendChallenge, inp, VERSION + [1, 2]) == HostRuns(des, h, HearResponse, inp, Asked(h));
  }

  lemma GuardedHostRuns(des: Auth.Cipher, h: HostConfig, inp: seq<Byte>)
    requires h.password != []
    ensures HostRuns(des, h, HostVersion, inp, []) == GuardedHost(des, h, inp)
  {
    hide Auth.Answers, Welcome, Granted, Refusal, Asked, HostRuns;
    HostGreets(des, h, inp);
    if |inp| >= 12 { HostHears(des, h, inp[12..]); }
    if |inp| >= 13 {
      assert inp[12..][1..] == inp[13..];
      HostChallenges(des, h, inp[13..]);
      if |inp| >= 29 {
        assert inp[13..][..16] == inp[13..29] && inp[13..][16..] == inp[29..];
        HostVerdict(des, h, Auth.Answers(des, h.challenge, h.password, inp[13..29]), inp[29..]);
      }
    }
  }

  // The choice is read.
  lemma HostHears(des: Auth.Cipher, h: HostConfig, inp: seq<Byte>)
    requires h.password != []
    ensures HostRuns(des, h, HearChoice, inp, VERSION + [1, 2])
         == if inp == [] then HostTalk([], VERSION + [1, 2], Some(EOF))
            else if inp[0] != 2 then HostTalk(inp[1..], VERSION + [1, 2], Some(UnsupportedSecurity(inp[0])))
            else HostRuns(des, h, SendChallenge, inp[1..], VERSION + [1, 2])
  {
  }

  // On every stream a host with a password lets the peer in if and only if it chose VNC
  // authentication and answered with the two blocks of the challenge encrypted under the password;
  // any other choice ends it there, with nothing written but the version and the offer. A host
  // without one lets in whoever sends a version, a choice and ClientInit.
  lemma HostLetsIn(des: Auth.Cipher, h: HostConfig, inp: seq<Byte>)
    ensures var t := HostRuns(des, h, HostVersion, inp, []);
      if h.password == [] then
        && (t.err == None <==> |inp| >= 14)
        && (t.err == None ==> t.inp == inp[14..] && t.out == Welcome(h))
      else
        && (t.err == None <==>
            && |inp| >= 30 && inp[12] == 2
            && inp[13..21] == des(Auth.Key(h.password), h.challenge[..8])
            && inp[21..29] == des(Auth.Key(h.password), h.challenge[8..]))
        && (t.err == None ==> t.inp == inp[30..] && t.out == Welcome(h))
        && (|inp| >= 13 && inp[12] != 2 ==>
              t == HostTalk(inp[13..], VERSION + [1, 2], Some(UnsupportedSecurity(inp[12]))))
  {
    if h.password == [] {
      OpenHostRuns(des, h, inp);
    } else {
      GuardedHostRuns(des, h, inp);
      hide HostRuns, Welcome, Granted, Refusal, Asked;
      if |inp| >= 29 {
        assert inp[13..29][..8] == inp[13..21] && inp[13..29][8..] == inp[21..29];
      }
    }
  }

  // ---- The viewer ----

  // From the verdict on.
  function LastViewer(inp: seq<Byte>, out: seq<Byte>): ViewerTalk {
    if |inp| < 4 then ViewerTalk([], out, None, Some(ShortRead(inp)))
    else if inp[..4] != [0, 0, 0, 0] then ViewerTalk(AfterString(inp[4..]), out, None, Some(AuthFailed))
    else if |inp| < 8 then ViewerTalk([], out + [1], None, Some(ShortRead(inp[4..])))
    else
      var size := Some(Size(ReadU16(inp[4..6]), ReadU16(inp[6..8])));
      if |inp| < 24 then ViewerTalk([], out + [1], size, Some(ShortRead(inp[8..])))
      else ViewerTalk(AfterString(inp[24..]), out + [1] + Print(OWN_FORMAT) + Print(OWN_ENCODINGS), size, None)
  }

  function AnyViewer(des: Auth.Cipher, password: seq<Byte>, inp: seq<Byte>): ViewerTalk {
    if |inp| < 12 then ViewerTalk([], [], None, Some(ShortRead(inp)))
    else if |inp| == 12 then ViewerTalk([], VERSION, None, Some(EOF))
    else if inp[12] == 0 then ViewerTalk(AfterString(inp[13..]), VERSION, None, Some(Refused))
    else if |inp| - 13 < inp[12] then ViewerTalk([], VERSION, None, Some(ShortRead(inp[13..])))
    else
      var types, rest := inp[13..13 + inp[12]], inp[13 + inp[12]..];
      if 1 in types then LastViewer(rest, VERSION + [1])
      else if 2 !in types then ViewerTalk(rest, VERSION, None, Some(UnsupportedSecurity(0)))
      else if |rest| < 16 then ViewerTalk([], VERSION + [2], None, Some(ShortRead(rest)))
      else
        var key := Auth.Key(password);
        LastViewer(rest[16..], VERSION + [2] + (des(key, rest[..8]) + des(key, rest[8..16])))
  }

  lemma Zero(b: seq<Byte>)
    requires |b| == 4
    ensures ReadU32(b) == 0 <==> b == [0, 0, 0, 0]
  {
    assert ReadU32(b) == 0x1_0000 * (0x100 * (b[0] as int) + b[1]) + (0x100 * (b[2] as int) + b[3]);
  }

  lemma ViewerSized(des: Auth.Cipher, password: seq<Byte>, inp: seq<Byte>, out: seq<Byte>, size: Option<Size>)
    ensures ViewerRuns(des, password, HearFormat, inp, out, size)
         == if |inp| < 16 then ViewerTalk([], out, size, Some(ShortRead(inp)))
            else ViewerTalk(AfterString(inp[16..]), out + Print(OWN_FORMAT) + Print(OWN_ENCODINGS), size, None)
  {
    if |inp| >= 16 {
      NameRead(des, password, inp[16..], out, size);
      PreferencesRun(des, password, AfterString(inp[16..]), out, size);
    }
  }

  lemma ViewerInit(des: Auth.Cipher, password: seq<Byte>, inp: seq<Byte>, out: seq<Byte>)
    ensures ViewerRuns(des, password, ClientInit, inp, out, None)
         == if |inp| < 4 then ViewerTalk([], out + [1], None, Some(ShortRead(inp)))
            else ViewerRuns(des, password, HearFormat, inp[4..], out + [1],
                            Some(Size(ReadU16(inp[..2]), ReadU16(inp[2..4]))))
  {
    if |inp| >= 4 { assert inp[..4][..2] == inp[..2] && inp[..4][2..4] == inp[2..4]; }
  }

  lemma LastViewerRuns(des: Auth.Cipher, password: seq<Byte>, inp: seq<Byte>, out: seq<Byte>)
    ensures ViewerRuns(des, password, HearResult, inp, out, None) == LastViewer(inp, out)
  {
    if |inp| >= 4 {
      Zero(inp[..4]);
      var later := inp[4..];
      ReasonRead(des, password, later, out, None);
      ViewerInit(des, password, later, out);
      if |later| >= 4 {
        var size := Some(Size(ReadU16(later[..2]), ReadU16(later[2..4])));
        ViewerSized(des, password, later[4..], out + [1], size);
        assert later[..2] == inp[4..6] && later[2..4] == inp[6..8] && later[4..] == inp[8..];
        if |later| >= 20 { assert later[4..][16..] == inp[24..]; }
      }
      hide AfterString, Print, ReadU16;
    }
  }

  lemma ViewerGreets(des: Auth.Cipher, password: seq<Byte>, inp: seq<Byte>)
    ensures ViewerRuns(des, password, HearVersion, inp, [], None)
         == if |inp| < 12 then ViewerTalk([], [], None, Some(ShortRead(inp)))
            else ViewerRuns(des, password, HearCount, inp[12..], VERSION, None)
  {
    assert [] + VERSION == VERSION;
    if |inp| >= 12 {
      assert ViewerRuns(des, password, ViewerVersion, inp[12..], [], None)
          == ViewerRuns(des, password, HearCount, inp[12..], VERSION, None);
    }
  }

  lemma ViewerCounts(des: Auth.Cipher, password: seq<Byte>, inp: seq<Byte>)
    ensures ViewerRuns(des, password, HearCount, inp, VERSION, None)
         == if inp == [] then ViewerTalk([], VERSION, None, Some(EOF))
            else if inp[0] == 0 then ViewerTalk(AfterString(inp[1..]), VERSION, None, Some(Refused))
            else if |inp| - 1 < inp[0] then ViewerTalk([], VERSION, None, Some(ShortRead(inp[1..])))
            else ViewerRuns(des, password, Chosen(inp[1..1 + inp[0]]), inp[1 + inp[0]..], VERSION, None)
  {
    if inp != [] {
      var n, later := inp[0], inp[1..];
      assert ViewerRuns(des, password, HearCount, inp, VERSION, None)
          == ViewerRuns(des, password, if n == 0 then HearRefusalLength else HearTypes(n), later, VERSION, None);
      if n == 0 { RefusalRead(des, password, later, VERSION, None); } else { ViewerTypes(des, password, n, later); }
      hide ViewerRuns, AfterString, Chosen;
      if |later| >= n { assert later[..n] == inp[1..1 + n] && later[n..] == inp[1 + n..]; }
    }
  }

  lemma ViewerTypes(des: Auth.Cipher, password: seq<Byte>, n: nat, inp: seq<Byte>)
    ensures ViewerRuns(des, password, HearTypes(n), inp, VERSION, None)
         == if |inp| < n then ViewerTalk([], VERSION, None, Some(ShortRead(inp)))
            else ViewerRuns(des, password, Chosen(inp[..n]), inp[n..], VERSION, None)
  {
  }

  lemma ViewerChooses(des: Auth.Cipher, password: seq<Byte>, types: seq<Byte>, rest: seq<Byte>)
    ensures ViewerRuns(des, password, Chosen(types), rest, VERSION, None)
         == if 1 in types then LastViewer(rest, VERSION + [1])
            else if 2 !in types then ViewerTalk(rest, VERSION, None, Some(UnsupportedSecurity(0)))
            else if |rest| < 16 then ViewerTalk([], VERSION + [2], None, Some(ShortRead(rest)))
            else
              var key := Auth.Key(password);
              LastViewer(rest[16..], VERSION + [2] + (des(key, rest[..8]) + des(key, rest[8..16])))
  {
    if 1 in types {
      ChoiceRuns(des, password, 1, rest, VERSION, None);
      LastViewerRuns(des, password, rest, VERSION + [1]);
    } else if 2 in types {
      ChoiceRuns(des, password, 2, rest, VERSION, None);
      if |rest| >= 16 { ViewerAnswers(des, password, rest, VERSION + [2]); } else { ViewerWaits(des, password, rest); }
    }
    hide LastViewer, ViewerRuns, Auth.Key;
  }

  lemma ViewerWaits(des: Auth.Cipher, password: seq<Byte>, rest: seq<Byte>)
    requires |rest| < 16
    ensures ViewerRuns(des, password, HearChallenge, rest, VERSION + [2], None)
         == ViewerTalk([], VERSION + [2], None, Some(ShortRead(rest)))
  {
  }

  lemma ViewerAnswers(des: Auth.Cipher, password: seq<Byte>, inp: seq<Byte>, out: seq<Byte>)
    requires |inp| >= 16
    ensures var key := Auth.Key(password);
      ViewerRuns(des, password, HearChallenge, inp, out, None)
      == LastViewer(inp[16..], out + (des(key, inp[..8]) + des(key, inp[8..16])))
  {
    var b := Auth.Response(des, inp[..16], password);
    assert inp[..16][..8] == inp[..8] && inp[..16][8..] == inp[8..16];
    WriteRuns(des, password, Respond(inp[..16]), b, inp[16..], out, None);
    LastViewerRuns(des, password, inp[16..], out + b);
    hide LastViewer;
  }

  // On every stream the viewer reads, writes and ends as said above: no authentication is preferred,
  // a challenge is answered under the password, and a missing or cut-off name is no error.
  lemma ViewerEnds(des: Auth.Cipher, password: seq<Byte>, inp: seq<Byte>)
    ensures ViewerRuns(des, password, HearVersion, inp, [], None) == AnyViewer(des, password, inp)
  {
    hide ViewerRuns, LastViewer, AfterString, Chosen, Auth.Key;
    ViewerGreets(des, password, inp);
    if |inp| >= 12 { ViewerCounts(des, password, inp[12..]); }
    if |inp| > 12 && inp[12] != 0 && |inp| - 13 >= inp[12] {
      var types, rest := inp[13..13 + inp[12]], inp[13 + inp[12]..];
      ViewerChooses(des, password, types, rest);
      var n := inp[12];
      assert inp[12..][1..1 + n] == types && inp[12..][1 + n..] == rest;
    } else if |inp| > 12 {
      assert inp[12..][1..] == inp[13..];
    }
  }
}
