/** Concrete walkthroughs of the session controller and the frame presenter:
    three start requests that share, reuse and then change the encoder, and two
    frames of different sizes. */
module Scenarios {
  import opened Config
  import opened WindowState
  import ScreenLive
  import opened LiveSession
  import opened Presenter

  /** Every external call succeeds. */
  const AllSucceed: Outcomes := Outcomes(true, true)

  /** h264 at 30 fps and 5000 kbps. */
  const Settings30: EncoderSettings := EncoderSettings("h264", 30, 5000)

  /** The same, at 25 fps. */
  const Settings25: EncoderSettings := EncoderSettings("h264", 25, 5000)

  const ServerRequest: Request :=
    Request(RtspServerEvent, Settings30, ["127.0.0.1", "8554", "/live"], 8554)
  const RtmpRequest: Request :=
    Request(RtmpPusherEvent, Settings30, ["rtmp://127.0.0.1/live/01"], 0)
  const PusherRequest: Request :=
    Request(RtspPusherEvent, Settings25, ["rtsp://127.0.0.1/live/01"], 0)

  const Config30: AVConfig := AVConfig("h264", 5000000, 30)
  const Config25: AVConfig := AVConfig("h264", 5000000, 25)

  /** The software codec needs no fallback, so the candidates are exact. */
  lemma ScenarioCandidates(nvencSupported: bool)
    ensures Candidate(Settings30, nvencSupported) == Config30
    ensures Candidate(Settings25, nvencSupported) == Config25
  {
    assert Settings30.codec != NvencCodec by {
      assert |Settings30.codec| != |NvencCodec|;
    }
  }

  /** A set of targets that holds exactly `t` is {t}. */
  lemma OnlyLive(running: set<Target>, t: Target)
    requires forall u :: u in running <==> u == t
    ensures running == {t}
  {
  }

  /** First request on a fresh window: the encoder starts once with 5000000
      bps at 30 fps, and the RTSP server is the only live target. */
  lemma FirstRequestStartsServer(w: Window, nvencSupported: bool)
    requires w.overlay && w.avconfig == DefaultConfig
    ensures var r := LiveSession.StartLive(w, ScreenLive.Idle, ServerRequest, nvencSupported, AllSucceed);
      && r.ok
      && r.window == w.(avconfig := Config30)
      && multiset(r.calls)[StartEncoderCall(Config30)] == 1
      && r.service == ScreenLive.Service(Some(Config30), {RtspServer})
      && r.calls[|r.calls| - 1] == StartLiveCall(RtspServer, ServerConfig("127.0.0.1", 8554, "/live"))
  {
    ScenarioCandidates(nvencSupported);
    StartLiveLaunches(w, ScreenLive.Idle, ServerRequest, nvencSupported, AllSucceed);
    ChangedConfigResetsOnce(w, ScreenLive.Idle, ServerRequest, nvencSupported, AllSucceed);
    EncoderRestartSuccess(w, ScreenLive.Idle, ServerRequest, nvencSupported, AllSucceed);
    var r := LiveSession.StartLive(w, ScreenLive.Idle, ServerRequest, nvencSupported, AllSucceed);
    OnlyLive(r.service.running, RtspServer);
  }

  /** A second request with the same settings reuses the encoder: no reset
      call, and the RTMP pusher joins the RTSP server. */
  lemma SameSettingsAddRtmpPusher(w: Window, nvencSupported: bool)
    requires w.overlay && w.avconfig == Config30
    ensures var r := LiveSession.StartLive(w, ScreenLive.Service(Some(Config30), {RtspServer}), RtmpRequest,
                                           nvencSupported, AllSucceed);
      && r.ok
      && (forall c :: c in r.calls ==> !Resets(c))
      && r.window == w
      && r.service == ScreenLive.Service(Some(Config30), {RtspServer, RtmpPusher})
      && r.calls == [IsEncoderInitializedCall, StartLiveCall(RtmpPusher, RtmpPushConfig("rtmp://127.0.0.1/live/01"))]
  {
    ScenarioCandidates(nvencSupported);
    ReusedEncoder(w, ScreenLive.Service(Some(Config30), {RtspServer}), RtmpRequest, nvencSupported, AllSucceed);
  }

  /** A third request at another frame rate quiesces both live targets,
      restarts the encoder at 25 fps, and leaves the RTSP pusher as the only
      live target. */
  lemma NewFrameRateLeavesOnlyPusher(w: Window, nvencSupported: bool)
    requires w.overlay && w.avconfig == Config30
    ensures var r := LiveSession.StartLive(w, ScreenLive.Service(Some(Config30), {RtspServer, RtmpPusher}),
                                           PusherRequest, nvencSupported, AllSucceed);
      && r.ok
      && QuiescesAll(r.calls)
      && r.window == w.(avconfig := Config25)
      && r.service == ScreenLive.Service(Some(Config25), {RtspPusher})
      && r.calls[|r.calls| - 1] == StartLiveCall(RtspPusher, RtspPushConfig("rtsp://127.0.0.1/live/01"))
  {
    var svc := ScreenLive.Service(Some(Config30), {RtspServer, RtmpPusher});
    ScenarioCandidates(nvencSupported);
    StartLiveLaunches(w, svc, PusherRequest, nvencSupported, AllSucceed);
    ChangedConfigResetsOnce(w, svc, PusherRequest, nvencSupported, AllSucceed);
    EncoderRestartSuccess(w, svc, PusherRequest, nvencSupported, AllSucceed);
    OnlyLive(LiveSession.StartLive(w, svc, PusherRequest, nvencSupported, AllSucceed).service.running, RtspPusher);
  }

  /** A 1920x1080 frame then a 1280x720 frame, with every SDL call
      succeeding: both are presented, and the second destroys and recreates
      the texture at the new size. */
  lemma TwoFrameSizes(w: Window)
    requires w.isWindow
    ensures var f1 := UpdateARGB(w, 1920, 1080, true, true);
      var f2 := UpdateARGB(f1.window, 1280, 720, true, true);
      && f1.ok && f2.ok
      && DestroyTexture in f2.calls
      && CreateTexture(FormatARGB8888, 1280, 720) in f2.calls
      && f2.window.texture == Texture(FormatARGB8888, 1280, 720, true)
  {
    var f1 := UpdateARGB(w, 1920, 1080, true, true);
    CacheReuses(w, 1920, 1080, true, true);
    NewSizeRecreatesBeforeCopy(w, 1920, 1080, 1280, 720, true, true);
    CacheReuses(f1.window, 1280, 720, true, true);
  }
}
