// Which message streams the host serves to the end.
module Survival {
  import opened Bytes
  import opened Images
  import opened Diff
  import opened DiffFacts
  import opened Parsing
  import opened Pixel
  import opened Protocol
  import opened Server
  import opened Sessions

  // An update of the capture carries no pixel: the screen is empty, or nothing changed.
  ghost predicate NothingToSend(prev: Option<Frame>, incremental: bool, shot: Frame) {
    || shot.width == 0 || shot.height == 0
    || (incremental && prev.Some? && SameSize(prev.value, shot) && SamePixels(prev.value, shot))
  }

  ghost predicate SamePixels(prev: Frame, cur: Frame)
    requires SameSize(prev, cur)
  {
    forall x, y :: 0 <= x < cur.width && 0 <= y < cur.height ==> prev.At(x, y) == cur.At(x, y)
  }

  lemma DirtyNone(prev: Frame, cur: Frame)
    requires SameSize(prev, cur)
    ensures Dirty(prev, cur) == [] <==> SamePixels(prev, cur)
  {
    DirtyExact(prev, cur);
    var rects := Dirty(prev, cur);
    if rects == [] {
      forall x, y | 0 <= x < cur.width && 0 <= y < cur.height ensures prev.At(x, y) == cur.At(x, y) {
        assert !Covered(rects, x, y) && !DirtyAt(prev, cur, x, y);
      }
    } else {
      assert rects[0].Contains(rects[0].x0, rects[0].y0);
      assert Covered(rects, rects[0].x0, rects[0].y0) && DirtyAt(prev, cur, rects[0].x0, rects[0].y0);
    }
  }

  // The encoder's four-byte buffer is overrun exactly by pixels of 40 bits or more, when there are any.
  lemma OverrunsWhen(pf: PixelFormat, prev: Option<Frame>, shot: Frame, incremental: bool)
    ensures Overruns(pf, ChosenRects(prev, shot, incremental))
       <==> pf.bitsPerPixel >= 40 && !NothingToSend(prev, incremental, shot)
  {
    var rects := ChosenRects(prev, shot, incremental);
    if incremental && prev.Some? && SameSize(prev.value, shot) {
      DirtyNone(prev.value, shot);
      DirtyExact(prev.value, shot);
      if rects != [] { assert rects[0].Inside(shot.width, shot.height); }
    } else {
      assert rects == [Rect(0, 0, shot.width, shot.height)];
      assert rects[0].Dx() == shot.width && rects[0].Dy() == shot.height;
    }
  }

  // ---- Whole streams ----

  // The format in force at message k, and the requests before it.
  function FormatAt(pf: PixelFormat, ms: seq<ClientMsg>, k: nat): PixelFormat
    requires k <= |ms|
    decreases k
  {
    if k == 0 then pf else FormatAt(if ms[0].SetPixelFormat? then ms[0].pf else pf, ms[1..], k - 1)
  }

  function RequestsAt(ms: seq<ClientMsg>, k: nat): nat
    requires k <= |ms|
    decreases k
  {
    if k == 0 then 0 else (if ms[0].UpdateRequest? then 1 else 0) + RequestsAt(ms[1..], k - 1)
  }

  // Message k is no request, or its capture succeeds and is sent in a format of fewer than 40 bits
  // or carries no pixel over the capture before it.
  ghost predicate AnswerableAt(screen: Capture, pf: PixelFormat, prev: Option<Frame>, shots: nat, ms: seq<ClientMsg>,
                               k: nat)
    requires k < |ms|
  {
    ms[k].UpdateRequest? ==>
      var n := RequestsAt(ms, k);
      var shot := Shot(screen, shots + n);
      var last := if n == 0 then prev else Shot(screen, shots + n - 1);
      && shot.Some?
      && (FormatAt(pf, ms, k).bitsPerPixel < 40 || NothingToSend(last, ms[k].incremental, shot.value))
  }

  ghost predicate Survives(screen: Capture, pf: PixelFormat, prev: Option<Frame>, shots: nat, ms: seq<ClientMsg>) {
    forall k :: 0 <= k < |ms| ==> AnswerableAt(screen, pf, prev, shots, ms, k)
  }

  // The same after the first message.
  lemma SurvivesHead(screen: Capture, pf: PixelFormat, prev: Option<Frame>, shots: nat, ms: seq<ClientMsg>)
    requires ms != []
    ensures var request := ms[0].UpdateRequest?;
      Survives(screen, pf, prev, shots, ms)
      <==> AnswerableAt(screen, pf, prev, shots, ms, 0)
           && Survives(screen, if ms[0].SetPixelFormat? then ms[0].pf else pf,
                       if request then Shot(screen, shots) else prev, if request then shots + 1 else shots, ms[1..])
  {
    var request := ms[0].UpdateRequest?;
    var pf' := if ms[0].SetPixelFormat? then ms[0].pf else pf;
    var prev', shots' := if request then Shot(screen, shots) else prev, if request then shots + 1 else shots;
    forall k | 0 <= k < |ms[1..]|
      ensures AnswerableAt(screen, pf, prev, shots, ms, k + 1) == AnswerableAt(screen, pf', prev', shots', ms[1..], k)
    {
      assert ms[k + 1] == ms[1..][k];
    }
    if Survives(screen, pf, prev, shots, ms) {
      forall k | 0 <= k < |ms[1..]| ensures AnswerableAt(screen, pf', prev', shots', ms[1..], k) {
        assert AnswerableAt(screen, pf, prev, shots, ms, k + 1);
      }
    }
    if AnswerableAt(screen, pf, prev, shots, ms, 0) && Survives(screen, pf', prev', shots', ms[1..]) {
      forall k | 0 <= k < |ms| ensures AnswerableAt(screen, pf, prev, shots, ms, k) {
        if k > 0 { assert AnswerableAt(screen, pf', prev', shots', ms[1..], k - 1); }
      }
    }
  }

  lemma EffectWhen(screen: Capture, s: State, ms: seq<ClientMsg>)
    requires ms != []
    ensures var r := Effect(screen, s, ms[0]);
      && (r.err == None <==> AnswerableAt(screen, s.pf, s.prev, s.shots, ms, 0))
      && (r.err == None || r.err == Some(CaptureFailed) || r.err == Some(Abort))
      && (r.err == None ==>
            && r.s.pf == (if ms[0].SetPixelFormat? then ms[0].pf else s.pf)
            && r.s.prev == (if ms[0].UpdateRequest? then Shot(screen, s.shots) else s.prev)
            && r.s.shots == (if ms[0].UpdateRequest? then s.shots + 1 else s.shots))
  {
    if ms[0].UpdateRequest? && Shot(screen, s.shots).Some? {
      OverrunsWhen(s.pf, s.prev, Shot(screen, s.shots).value, ms[0].incremental);
    }
  }

  lemma NothingLeft(screen: Capture, pf: PixelFormat, prev: Option<Frame>, shots: nat)
    ensures Survives(screen, pf, prev, shots, [])
  {
  }

  lemma {:induction false} EffectsWhen(screen: Capture, s: State, ms: seq<ClientMsg>)
    ensures var err := Effects(screen, s, ms).err;
      && (err == None <==> Survives(screen, s.pf, s.prev, s.shots, ms))
      && (err == None || err == Some(CaptureFailed) || err == Some(Abort))
    decreases |ms|
  {
    hide Effect, Survives, AnswerableAt;
    if ms == [] {
      NothingLeft(screen, s.pf, s.prev, s.shots);
    } else {
      var rest := s.(inp := Behind(s.inp));
      SurvivesHead(screen, s.pf, s.prev, s.shots, ms);
      EffectWhen(screen, rest, ms);
      if Effect(screen, rest, ms[0]).err == None { EffectsWhen(screen, Effect(screen, rest, ms[0]).s, ms[1..]); }
    }
  }

  // On any byte stream the host ends as the stream does if and only if every capture asked for
  // succeeds and each request finds a format of fewer than 40 bits in force or nothing to send;
  // otherwise it ends earlier, with the failed capture or the overrun.
  lemma HostSurvives(screen: Capture, stream: seq<Byte>)
    ensures var (host, p) := (Serve(screen, Start(stream)), Parse(stream));
      && (host.err == p.err <==> Survives(screen, DefaultFormat(), None, 0, p.ms))
      && (host.err == p.err ==> host.s.inp == p.rest)
      && (host.err == p.err || host.err == Some(CaptureFailed) || host.err == Some(Abort))
  {
    var s := Start(stream);
    StreamServed(screen, s);
    EffectsWhen(screen, s, Parse(stream).ms);
  }

  // A stream on which the host does overrun: a format of 40 bits and one request.
  lemma WideFormatOverruns(img: Frame, w: Word16, h: Word16)
    requires img.width > 0 && img.height > 0
    ensures var wide := DefaultFormat().(bitsPerPixel := 40);
      var ms := [Protocol.SetPixelFormat(wide), Protocol.UpdateRequest(false, 0, 0, w, h)];
      Serve([Some(img)], Start(PrintAll(ms))).err == Some(Abort)
  {
    var wide := DefaultFormat().(bitsPerPixel := 40);
    var ms := [Protocol.SetPixelFormat(wide), Protocol.UpdateRequest(false, 0, 0, w, h)];
    var s := Start(PrintAll(ms));
    StreamRoundTrip([Some(img)], s, ms);
    OverrunsWhen(wide, None, img, false);
    var s1 := s.(inp := Behind(s.inp), pf := wide);
    assert Effect([Some(img)], s.(inp := Behind(s.inp)), ms[0]) == Outcome(s1, None);
    assert Effect([Some(img)], s1.(inp := Behind(s1.inp)), ms[1..][0]).err == Some(Abort);
    assert Effects([Some(img)], s1, ms[1..]).err == Some(Abort);
  }
}
