/** The frame presenter of MainWindow: the streaming-texture cache of
    UpdateARGB, its reset in ClearD3D, and the geometry recomputed by Resize.
    SDL calls become entries of a call trace; whether SDL_CreateTexture and
    SDL_LockTexture succeed is an input. */
module Presenter {
  import opened Config
  import opened WindowState

  /** The SDL calls the presenter issues, in the order they are issued. */
  datatype Gfx =
    | DestroyTexture
    | CreateTexture(format: PixelFormat, width: int, height: int)
    | LockTexture
    | CopyPixels(bytes: int)
    | UnlockTexture
    | RenderClear
    | RenderCopy(dst: Rect)
    | OverlayRender
    | RenderPresent

  datatype Drawn = Drawn(window: Window, ok: bool, calls: seq<Gfx>)

  /** The position of a call in the presentation pipeline. */
  function Rank(g: Gfx): nat
  {
    match g
    case DestroyTexture => 0
    case CreateTexture(_, _, _) => 1
    case LockTexture => 2
    case CopyPixels(_) => 3
    case UnlockTexture => 4
    case RenderClear => 5
    case RenderCopy(_) => 6
    case OverlayRender => 7
    case RenderPresent => 8
  }

  /** Each call appears at most once and in pipeline order. */
  predicate InPipelineOrder(calls: seq<Gfx>)
  {
    forall i, j :: 0 <= i < j < |calls| ==> Rank(calls[i]) < Rank(calls[j])
  }

  /** Each call ranks strictly below the next one. */
  predicate StrictSteps(calls: seq<Gfx>)
  {
    forall i :: 0 <= i < |calls| - 1 ==> Rank(calls[i]) < Rank(calls[i + 1])
  }

  lemma {:induction false} StrictStepsInPipelineOrder(calls: seq<Gfx>)
    requires StrictSteps(calls)
    ensures InPipelineOrder(calls)
    decreases |calls|
  {
    if |calls| > 1 {
      var tail := calls[1..];
      assert StrictSteps(tail) by {
        forall i | 0 <= i < |tail| - 1
          ensures Rank(tail[i]) < Rank(tail[i + 1])
        {
          assert tail[i] == calls[i + 1] && tail[i + 1] == calls[i + 2];
        }
      }
      StrictStepsInPipelineOrder(tail);
      forall i, j | 0 <= i < j < |calls|
        ensures Rank(calls[i]) < Rank(calls[j])
      {
        if i > 0 {
          assert calls[i] == tail[i - 1] && calls[j] == tail[j - 1];
        } else if j > 1 {
          assert calls[1] == tail[0] && calls[j] == tail[j - 1];
        }
      }
    }
  }

  /** The cached texture cannot hold an ARGB8888 frame of this size. */
  predicate Mismatch(t: Texture, width: int, height: int)
  {
    t.format != FormatARGB8888 || t.width != width || t.height != height
  }

  /** All ranks of `calls` lie in lo..hi. */
  predicate RanksWithin(calls: seq<Gfx>, lo: nat, hi: nat)
  {
    forall c :: c in calls ==> lo <= Rank(c) <= hi
  }

  /** Two ordered traces whose rank ranges do not overlap stay ordered when
      joined. */
  lemma OrderedJoin(a: seq<Gfx>, b: seq<Gfx>, mid: nat)
    requires InPipelineOrder(a) && InPipelineOrder(b)
    requires RanksWithin(a, 0, mid) && RanksWithin(b, mid + 1, 8)
    ensures InPipelineOrder(a + b)
  {
    forall i, j | 0 <= i < j < |a + b|
      ensures Rank((a + b)[i]) < Rank((a + b)[j])
    {
      if j < |a| {
        assert (a + b)[i] == a[i] && (a + b)[j] == a[j];
      } else if i >= |a| {
        assert (a + b)[i] == b[i - |a|] && (a + b)[j] == b[j - |a|];
      } else {
        assert (a + b)[i] == a[i] && (a + b)[j] == b[j - |a|];
      }
    }
  }

  /** The texture setup of UpdateARGB: a mismatching texture is destroyed,
      and a missing one is created for the frame. The recorded format and
      size are set even when creation fails. */
  function SetUpTexture(t: Texture, width: int, height: int, createOk: bool): (r: (Texture, seq<Gfx>))
    ensures r.0.format == FormatARGB8888 && r.0.width == width && r.0.height == height
    ensures DestroyTexture in r.1 <==> t.present && Mismatch(t, width, height)
    ensures CreateTexture(FormatARGB8888, width, height) in r.1 <==> !t.present || Mismatch(t, width, height)
    ensures forall c :: c in r.1 && c.CreateTexture? ==> c == CreateTexture(FormatARGB8888, width, height)
    ensures t.present && !Mismatch(t, width, height) ==> r.0 == t
    ensures r.0.present <==> (t.present && !Mismatch(t, width, height)) || createOk
    ensures InPipelineOrder(r.1) && RanksWithin(r.1, 0, 1)
  {
    var destroy := Mismatch(t, width, height) && t.present;
    var kept := if destroy then t.(present := false) else t;
    var destroyCalls := if destroy then [DestroyTexture] else [];
    if kept.present then (kept, destroyCalls)
    else (Texture(FormatARGB8888, width, height, createOk),
          destroyCalls + [CreateTexture(FormatARGB8888, width, height)])
  }

  /** The byte size of a 32-bit-per-pixel frame with no row padding. */
  function FrameBytes(width: int, height: int): int
  {
    width * height * 4
  }

  /** The drawing half of a successful frame: clear, copy the video, draw
      the overlay when there is one, present. */
  function Render(dst: Rect, overlay: bool): (calls: seq<Gfx>)
    ensures RenderClear in calls && RenderCopy(dst) in calls && RenderPresent in calls
    ensures OverlayRender in calls <==> overlay
    ensures forall c :: c in calls ==> !c.CopyPixels?
    ensures RanksWithin(calls, 5, 8)
    ensures InPipelineOrder(calls)
  {
    var calls := [RenderClear, RenderCopy(dst)] + (if overlay then [OverlayRender] else []) + [RenderPresent];
    StrictStepsInPipelineOrder(calls);
    calls
  }

  function Compose(bytes: int, dst: Rect, overlay: bool): (calls: seq<Gfx>)
    ensures CopyPixels(bytes) in calls && UnlockTexture in calls
    ensures RenderClear in calls && RenderCopy(dst) in calls && RenderPresent in calls
    ensures OverlayRender in calls <==> overlay
    ensures forall c :: c in calls && c.CopyPixels? ==> c.bytes == bytes
    ensures RanksWithin(calls, 3, 8)
    ensures InPipelineOrder(calls)
  {
    var copy := [CopyPixels(bytes), UnlockTexture];
    StrictStepsInPipelineOrder(copy);
    var render := Render(dst, overlay);
    OrderedJoin(copy, render, 4);
    copy + render
  }

  /** A locked texture: the frame is copied and drawn. */
  function Locked(bytes: int, dst: Rect, overlay: bool): (calls: seq<Gfx>)
    ensures LockTexture in calls && CopyPixels(bytes) in calls && UnlockTexture in calls
    ensures RenderClear in calls && RenderCopy(dst) in calls && RenderPresent in calls
    ensures forall c :: c in calls && c.CopyPixels? ==> c.bytes == bytes
    ensures OverlayRender in calls <==> overlay
    ensures RanksWithin(calls, 2, 8)
    ensures InPipelineOrder(calls)
  {
    var rest := Compose(bytes, dst, overlay);
    OrderedJoin([LockTexture], rest, 2);
    [LockTexture] + rest
  }

  /** The part of UpdateARGB after the texture setup: with a texture, lock
      it; once locked, copy the frame and draw it. */
  function Draw(present: bool, lockOk: bool, bytes: int, dst: Rect, overlay: bool): (calls: seq<Gfx>)
    ensures !present ==> calls == []
    ensures present ==> LockTexture in calls
    ensures present && lockOk ==>
      CopyPixels(bytes) in calls && UnlockTexture in calls &&
      RenderClear in calls && RenderCopy(dst) in calls && RenderPresent in calls
    ensures !(present && lockOk) ==> RanksWithin(calls, 0, Rank(LockTexture))
    ensures forall c :: c in calls && c.CopyPixels? ==> c.bytes == bytes
    ensures OverlayRender in calls <==> present && lockOk && overlay
    ensures RanksWithin(calls, 2, 8)
    ensures InPipelineOrder(calls)
  {
    if !present then []
    else if !lockOk then [LockTexture]
    else Locked(bytes, dst, overlay)
  }

  /** Presents one ARGB8888 frame of `width` x `height` pixels. */
  function UpdateARGB(w: Window, width: u32, height: u32, createOk: bool, lockOk: bool): (r: Drawn)
    // only the texture changes, and nothing at all without a window
    ensures r.window == w.(texture := r.window.texture)
    ensures !w.isWindow ==> !r.ok && r.window == w && r.calls == []
    ensures InPipelineOrder(r.calls)
    // after setup the texture records the frame's format and size
    ensures w.isWindow ==>
      r.window.texture.format == FormatARGB8888 &&
      r.window.texture.width == width && r.window.texture.height == height
    // success needs a window, a texture and the lock
    ensures r.ok <==> w.isWindow && r.window.texture.present && lockOk
  {
    if !w.isWindow then Drawn(w, false, [])
    else
      var (t, setup) := SetUpTexture(w.texture, width, height, createOk);
      var draw := Draw(t.present, lockOk, FrameBytes(t.width, t.height), VideoRect(w.geometry), w.overlay);
      OrderedJoin(setup, draw, 1);
      Drawn(w.(texture := t), t.present && lockOk, setup + draw)
  }

  /** A failed frame stops at the lock: it copies and draws nothing. */
  lemma FrameFailureDrawsNothing(w: Window, width: u32, height: u32, createOk: bool, lockOk: bool)
    ensures var r := UpdateARGB(w, width, height, createOk, lockOk);
      !r.ok ==> RanksWithin(r.calls, 0, Rank(LockTexture))
  {
  }

  /** A successful frame locks, copies, unlocks, clears, renders the video
      into the video area and presents. */
  lemma FrameSuccessPresents(w: Window, width: u32, height: u32, createOk: bool, lockOk: bool)
    ensures var r := UpdateARGB(w, width, height, createOk, lockOk);
      r.ok ==>
        LockTexture in r.calls && CopyPixels(FrameBytes(width, height)) in r.calls &&
        UnlockTexture in r.calls && RenderClear in r.calls &&
        RenderCopy(VideoRect(w.geometry)) in r.calls && RenderPresent in r.calls
  {
  }

  /** Every copy moves one whole frame, and the overlay is drawn exactly on
      a successful frame of a window that has one. A lock that was taken is
      always released. */
  lemma FrameCopiesAndOverlay(w: Window, width: u32, height: u32, createOk: bool, lockOk: bool)
    ensures var r := UpdateARGB(w, width, height, createOk, lockOk);
      && (forall c :: c in r.calls && c.CopyPixels? ==> c.bytes == FrameBytes(width, height))
      && (OverlayRender in r.calls <==> r.ok && w.overlay)
      && (LockTexture in r.calls && lockOk ==> UnlockTexture in r.calls)
  {
  }

  /** What a frame draws: a failed call stops at the lock and copies and
      draws nothing; a successful one copies one whole frame, then unlocks,
      clears, renders the video into the video area, draws the overlay when
      there is one, and presents. A lock that was taken is always released. */
  lemma FramePipeline(w: Window, width: u32, height: u32, createOk: bool, lockOk: bool)
    ensures var r := UpdateARGB(w, width, height, createOk, lockOk);
      && (!r.ok ==> RanksWithin(r.calls, 0, Rank(LockTexture)))
      && (r.ok ==>
            LockTexture in r.calls && CopyPixels(FrameBytes(width, height)) in r.calls &&
            UnlockTexture in r.calls && RenderClear in r.calls &&
            RenderCopy(VideoRect(w.geometry)) in r.calls && RenderPresent in r.calls)
      && (forall c :: c in r.calls && c.CopyPixels? ==> c.bytes == FrameBytes(width, height))
      && (OverlayRender in r.calls <==> r.ok && w.overlay)
      && (LockTexture in r.calls && lockOk ==> UnlockTexture in r.calls)
  {
    FrameFailureDrawsNothing(w, width, height, createOk, lockOk);
    FrameSuccessPresents(w, width, height, createOk, lockOk);
    FrameCopiesAndOverlay(w, width, height, createOk, lockOk);
  }

  /** An existing texture is destroyed exactly when its format or size
      differs from the frame. */
  lemma CacheDestroys(w: Window, width: u32, height: u32, createOk: bool, lockOk: bool)
    requires w.isWindow
    ensures var r := UpdateARGB(w, width, height, createOk, lockOk);
      DestroyTexture in r.calls <==> w.texture.present && Mismatch(w.texture, width, height)
  {
  }

  /** A texture is created, for the frame's format and size, exactly when
      none is left to reuse. */
  lemma CacheCreates(w: Window, width: u32, height: u32, createOk: bool, lockOk: bool)
    requires w.isWindow
    ensures var r := UpdateARGB(w, width, height, createOk, lockOk);
      && (CreateTexture(FormatARGB8888, width, height) in r.calls <==>
            !w.texture.present || Mismatch(w.texture, width, height))
      && (forall c :: c in r.calls && c.CreateTexture? ==> c == CreateTexture(FormatARGB8888, width, height))
  {
  }

  /** A live texture of the right format and size is reused untouched; a
      texture exists afterwards when one was reused or creation succeeded. */
  lemma CacheReuses(w: Window, width: u32, height: u32, createOk: bool, lockOk: bool)
    requires w.isWindow
    ensures var r := UpdateARGB(w, width, height, createOk, lockOk);
      && (w.texture.present && !Mismatch(w.texture, width, height) ==> r.window.texture == w.texture)
      && (r.window.texture.present <==> (w.texture.present && !Mismatch(w.texture, width, height)) || createOk)
  {
  }

  /** The texture cache of UpdateARGB: an existing texture is destroyed
      exactly when its format or size differs from the frame; a texture is
      created exactly when none is left to reuse; otherwise the cached one is
      reused untouched. */
  lemma TextureCache(w: Window, width: u32, height: u32, createOk: bool, lockOk: bool)
    requires w.isWindow
    ensures var r := UpdateARGB(w, width, height, createOk, lockOk);
      && (DestroyTexture in r.calls <==> w.texture.present && Mismatch(w.texture, width, height))
      && (CreateTexture(FormatARGB8888, width, height) in r.calls <==>
            !w.texture.present || Mismatch(w.texture, width, height))
      && (forall c :: c in r.calls && c.CreateTexture? ==> c == CreateTexture(FormatARGB8888, width, height))
      && (w.texture.present && !Mismatch(w.texture, width, height) ==> r.window.texture == w.texture)
      && (r.window.texture.present <==> (w.texture.present && !Mismatch(w.texture, width, height)) || createOk)
  {
    CacheDestroys(w, width, height, createOk, lockOk);
    CacheCreates(w, width, height, createOk, lockOk);
    CacheReuses(w, width, height, createOk, lockOk);
  }

  /** The texture part of ClearD3D, plus the overlay it deletes. The recorded
      format and size are reset only when a texture handle exists. */
  function ClearD3D(w: Window): (r: Window)
    ensures r == w.(overlay := false, texture := r.texture)
    ensures !r.texture.present
    ensures w.texture.present ==> r.texture == NoTexture
    ensures !w.texture.present ==> r.texture == w.texture
  {
    var t := if w.texture.present then NoTexture else w.texture;
    w.(overlay := false, texture := t)
  }

  /** Tears the window down: ClearD3D, then the window is gone. */
  function Destroy(w: Window): (r: Window)
    ensures !r.isWindow
    ensures w.isWindow ==> !r.texture.present
    ensures r.geometry == w.geometry && r.avconfig == w.avconfig
    // ClearD3D deletes the overlay and resets an existing texture's record
    ensures w.isWindow ==> !r.overlay
    ensures w.isWindow && w.texture.present ==> r.texture == NoTexture
    ensures !w.isWindow ==> r == w
  {
    if w.isWindow then ClearD3D(w).(isWindow := false) else w
  }

  /** Handles a window resize to `width` x `height` (the size SDL reports).
      The geometry is recomputed, GPU resources are cleared, and InitD3D
      rebuilds the overlay; `rebuilt` says whether InitD3D found its render
      driver. Without a window nothing happens. */
  function Resize(w: Window, width: int, height: int, band: int, rebuilt: bool): (r: Window)
    ensures !w.isWindow ==> r == w
    ensures w.isWindow ==>
      r.isWindow && r.avconfig == w.avconfig && !r.texture.present &&
      r.overlay == rebuilt &&
      r.geometry.windowWidth == width && r.geometry.windowHeight == height &&
      r.geometry.videoHeight == height - band && r.geometry.videoWidth == width &&
      OverlayRect(r.geometry) == Rect(0, height - band, width, band)
    ensures w.isWindow ==> r.geometry == Layout(width, height, band)
  {
    if !w.isWindow then w
    else ClearD3D(w.(geometry := Layout(width, height, band))).(overlay := rebuilt)
  }

  /** After any teardown of the texture, the next frame recreates it and
      destroys nothing. */
  lemma ClearedTextureIsRecreated(w: Window, width: u32, height: u32, createOk: bool, lockOk: bool)
    requires w.isWindow
    ensures var r := UpdateARGB(ClearD3D(w), width, height, createOk, lockOk);
      DestroyTexture !in r.calls && CreateTexture(FormatARGB8888, width, height) in r.calls
  {
  }

  /** ClearD3D is idempotent. */
  lemma ClearD3DIdempotent(w: Window)
    ensures ClearD3D(ClearD3D(w)) == ClearD3D(w)
  {
  }

  /** The first frame after a resize is rendered into the new video area. */
  lemma FrameAfterResizeUsesNewLayout(w: Window, width: int, height: int, band: int, rebuilt: bool,
                                      fw: u32, fh: u32, createOk: bool, lockOk: bool)
    requires w.isWindow
    ensures var r := UpdateARGB(Resize(w, width, height, band, rebuilt), fw, fh, createOk, lockOk);
      CreateTexture(FormatARGB8888, fw, fh) in r.calls &&
      (r.ok ==> RenderCopy(Rect(0, 0, width, height - band)) in r.calls)
  {
    var v := Resize(w, width, height, band, rebuilt);
    CacheCreates(v, fw, fh, createOk, lockOk);
    FrameSuccessPresents(v, fw, fh, createOk, lockOk);
    assert VideoRect(v.geometry) == Rect(0, 0, width, height - band);
  }

  /** A destroyed window presents nothing. */
  lemma NoFrameAfterDestroy(w: Window, width: u32, height: u32, createOk: bool, lockOk: bool)
    ensures var r := UpdateARGB(Destroy(w), width, height, createOk, lockOk);
      !r.ok && r.calls == []
  {
  }

  /** In a trace in pipeline order, every texture creation precedes every
      pixel copy. */
  lemma CreateBeforeCopy(calls: seq<Gfx>)
    requires InPipelineOrder(calls)
    ensures forall i, j :: (0 <= i < |calls| && 0 <= j < |calls| &&
              calls[i].CreateTexture? && calls[j].CopyPixels?) ==> i < j
  {
  }

  /** A successful frame followed by a frame of another size: the second call
      destroys the texture and recreates it, and the recreation precedes any
      pixel copy. */
  lemma NewSizeRecreatesBeforeCopy(w: Window, w1: u32, h1: u32, w2: u32, h2: u32,
                                   createOk: bool, lockOk: bool)
    requires UpdateARGB(w, w1, h1, true, true).ok
    requires w1 != w2 || h1 != h2
    ensures var r := UpdateARGB(UpdateARGB(w, w1, h1, true, true).window, w2, h2, createOk, lockOk);
      && DestroyTexture in r.calls
      && CreateTexture(FormatARGB8888, w2, h2) in r.calls
      && (forall i, j :: (0 <= i < |r.calls| && 0 <= j < |r.calls| &&
            r.calls[i].CreateTexture? && r.calls[j].CopyPixels?) ==> i < j)
  {
    var first := UpdateARGB(w, w1, h1, true, true).window;
    assert first.isWindow && first.texture.present && Mismatch(first.texture, w2, h2);
    CacheDestroys(first, w2, h2, createOk, lockOk);
    CacheCreates(first, w2, h2, createOk, lockOk);
    CreateBeforeCopy(UpdateARGB(first, w2, h2, createOk, lockOk).calls);
  }

  /** One frame handed to UpdateARGB, with the outcomes of its SDL calls. */
  datatype FrameIn = FrameIn(width: u32, height: u32, createOk: bool, lockOk: bool)

  datatype Stream = Stream(window: Window, results: seq<bool>, calls: seq<Gfx>)

  /** Feeds frames to UpdateARGB one after another. */
  function Ingest(w: Window, frames: seq<FrameIn>): (r: Stream)
    ensures |r.results| == |frames|
    // each result is that frame's own UpdateARGB result
    ensures |frames| > 0 ==>
      r.results[0] == UpdateARGB(w, frames[0].width, frames[0].height, frames[0].createOk, frames[0].lockOk).ok
    // a frame is presented only in a window and only when its lock succeeds
    ensures forall i :: 0 <= i < |frames| && r.results[i] ==> w.isWindow && frames[i].lockOk
    ensures r.window == w.(texture := r.window.texture)
    ensures |frames| > 0 && w.isWindow ==>
      r.window.texture.width == frames[|frames| - 1].width &&
      r.window.texture.height == frames[|frames| - 1].height
    decreases |frames|
  {
    if |frames| == 0 then Stream(w, [], [])
    else
      var f := frames[0];
      var d := UpdateARGB(w, f.width, f.height, f.createOk, f.lockOk);
      var rest := Ingest(d.window, frames[1..]);
      Stream(rest.window, [d.ok] + rest.results, d.calls + rest.calls)
  }

  /** The number of texture creations in a trace. */
  function Creations(calls: seq<Gfx>): nat
  {
    if |calls| == 0 then 0
    else (if calls[0].CreateTexture? then 1 else 0) + Creations(calls[1..])
  }

  lemma {:induction false} CreationsAppend(a: seq<Gfx>, b: seq<Gfx>)
    ensures Creations(a + b) == Creations(a) + Creations(b)
    decreases |a|
  {
    if |a| == 0 {
      assert a + b == b;
    } else {
      assert (a + b)[1..] == a[1..] + b;
      CreationsAppend(a[1..], b);
    }
  }

  lemma {:induction false} NoCreations(calls: seq<Gfx>)
    requires forall c :: c in calls ==> !c.CreateTexture?
    ensures Creations(calls) == 0
    decreases |calls|
  {
    if |calls| > 0 {
      assert calls[0] in calls;
      NoCreations(calls[1..]);
    }
  }

  /** A trace in pipeline order creates at most one texture. */
  lemma {:induction false} OrderedCreatesAtMostOnce(calls: seq<Gfx>)
    requires InPipelineOrder(calls)
    ensures Creations(calls) <= 1
  {
    if |calls| > 0 {
      var tail := calls[1..];
      assert InPipelineOrder(tail) by {
        forall i, j | 0 <= i < j < |tail|
          ensures Rank(tail[i]) < Rank(tail[j])
        {
          assert tail[i] == calls[i + 1] && tail[j] == calls[j + 1];
        }
      }
      if calls[0].CreateTexture? {
        forall c | c in tail
          ensures !c.CreateTexture?
        {
          var k :| 0 <= k < |tail| && tail[k] == c;
          assert calls[k + 1] == c;
          assert Rank(calls[0]) < Rank(c);
        }
        NoCreations(tail);
      } else {
        OrderedCreatesAtMostOnce(tail);
      }
    }
  }

  /** Frames that keep the size of a live texture never recreate it. */
  lemma {:induction false} SteadySizeReusesTexture(w: Window, frames: seq<FrameIn>, width: u32, height: u32)
    requires w.isWindow && w.texture.present && !Mismatch(w.texture, width, height)
    requires forall i :: 0 <= i < |frames| ==> frames[i].width == width && frames[i].height == height
    ensures Creations(Ingest(w, frames).calls) == 0
    ensures Ingest(w, frames).window.texture == w.texture
    decreases |frames|
  {
    if |frames| > 0 {
      var f := frames[0];
      var d := UpdateARGB(w, f.width, f.height, f.createOk, f.lockOk);
      TextureCache(w, f.width, f.height, f.createOk, f.lockOk);
      NoCreations(d.calls);
      SteadySizeReusesTexture(d.window, frames[1..], width, height);
      CreationsAppend(d.calls, Ingest(d.window, frames[1..]).calls);
    }
  }

  /** A stream of same-size frames whose texture creation succeeds creates the
      texture at most once, however many frames it holds. */
  lemma {:induction false} SteadySizeCreatesAtMostOnce(w: Window, frames: seq<FrameIn>, width: u32, height: u32)
    requires w.isWindow
    requires forall i :: 0 <= i < |frames| ==>
      frames[i].width == width && frames[i].height == height && frames[i].createOk
    ensures Creations(Ingest(w, frames).calls) <= 1
  {
    if |frames| > 0 {
      var f := frames[0];
      var d := UpdateARGB(w, f.width, f.height, f.createOk, f.lockOk);
      TextureCache(w, f.width, f.height, f.createOk, f.lockOk);
      OrderedCreatesAtMostOnce(d.calls);
      SteadySizeReusesTexture(d.window, frames[1..], width, height);
      CreationsAppend(d.calls, Ingest(d.window, frames[1..]).calls);
    }
  }

  /** How many textures a stream of same-size frames creates when it starts
      without a usable texture: one for every frame up to and including the
      first whose creation succeeds, since a failed creation leaves no
      texture behind. */
  function CreatesUntilSuccess(frames: seq<FrameIn>): nat
  {
    if |frames| == 0 then 0
    else if frames[0].createOk then 1
    else 1 + CreatesUntilSuccess(frames[1..])
  }

  lemma {:induction false} CreationCounted(calls: seq<Gfx>, c: Gfx)
    requires c in calls && c.CreateTexture?
    ensures Creations(calls) >= 1
    decreases |calls|
  {
    if calls[0] != c {
      assert c in calls[1..];
      CreationCounted(calls[1..], c);
    }
  }

  /** A frame that must create a texture creates exactly one, and leaves a
      usable texture iff the creation succeeds. */
  lemma CreatesOnce(w: Window, f: FrameIn)
    requires w.isWindow && (!w.texture.present || Mismatch(w.texture, f.width, f.height))
    ensures var d := UpdateARGB(w, f.width, f.height, f.createOk, f.lockOk);
      && Creations(d.calls) == 1
      && d.window.isWindow
      && (d.window.texture.present <==> f.createOk)
      && !Mismatch(d.window.texture, f.width, f.height)
  {
    var d := UpdateARGB(w, f.width, f.height, f.createOk, f.lockOk);
    CacheCreates(w, f.width, f.height, f.createOk, f.lockOk);
    CacheReuses(w, f.width, f.height, f.createOk, f.lockOk);
    CreationCounted(d.calls, CreateTexture(FormatARGB8888, f.width, f.height));
    OrderedCreatesAtMostOnce(d.calls);
  }

  /** Same-size frames, whatever SDL answers: a usable texture is never
      recreated; otherwise every frame creates one until a creation
      succeeds, and none does after that. */
  lemma {:induction false} SteadySizeCreatesUntilSuccess(w: Window, frames: seq<FrameIn>, width: u32, height: u32)
    requires w.isWindow
    requires forall i :: 0 <= i < |frames| ==> frames[i].width == width && frames[i].height == height
    ensures Creations(Ingest(w, frames).calls) ==
      if w.texture.present && !Mismatch(w.texture, width, height) then 0 else CreatesUntilSuccess(frames)
    decreases |frames|
  {
    if w.texture.present && !Mismatch(w.texture, width, height) {
      SteadySizeReusesTexture(w, frames, width, height);
    } else if |frames| > 0 {
      var f := frames[0];
      var d := UpdateARGB(w, f.width, f.height, f.createOk, f.lockOk);
      CreatesOnce(w, f);
      if f.createOk {
        SteadySizeReusesTexture(d.window, frames[1..], width, height);
      } else {
        assert CreatesUntilSuccess(frames) == 1 + CreatesUntilSuccess(frames[1..]);
        SteadySizeCreatesUntilSuccess(d.window, frames[1..], width, height);
      }
      CreationsAppend(d.calls, Ingest(d.window, frames[1..]).calls);
    }
  }

  /** When every creation succeeds, a frame in a window is presented exactly
      when its lock succeeds. */
  lemma {:induction false} CreatedFramesPresentIffLocked(w: Window, frames: seq<FrameIn>)
    requires w.isWindow && forall i :: 0 <= i < |frames| ==> frames[i].createOk
    ensures forall i :: 0 <= i < |frames| ==> Ingest(w, frames).results[i] == frames[i].lockOk
    decreases |frames|
  {
    if |frames| > 0 {
      var f := frames[0];
      var d := UpdateARGB(w, f.width, f.height, f.createOk, f.lockOk);
      CacheReuses(w, f.width, f.height, f.createOk, f.lockOk);
      CreatedFramesPresentIffLocked(d.window, frames[1..]);
      var r := Ingest(w, frames);
      assert r.results == [d.ok] + Ingest(d.window, frames[1..]).results;
      forall i | 0 <= i < |frames|
        ensures r.results[i] == frames[i].lockOk
      {
        if i > 0 {
          assert r.results[i] == Ingest(d.window, frames[1..]).results[i - 1];
          assert frames[i] == frames[1..][i - 1];
        }
      }
    }
  }
}
