/** The live-session controller of MainWindow: StartLive reconciles the
    requested encoder configuration with the active one (avconfig_) before it
    starts one distribution target, and StopLive stops one target. Calls to the
    ScreenLive service and to the overlay are recorded, in order, as a trace. */
module LiveSession {
  import opened Config
  import opened WindowState
  import ScreenLive

  /** The calls MainWindow issues to ScreenLive and to the overlay. */
  datatype Call =
    | StopLiveCall(target: Target)
    | SetLiveStateCall(target: Target, on: bool)
    | StopEncoderCall
    | StartEncoderCall(avconfig: AVConfig)
    | IsEncoderInitializedCall
    | StartLiveCall(target: Target, config: LiveConfig)

  /** What the external service answers: whether the encoder starts and
      whether the requested target starts. */
  datatype Outcomes = Outcomes(encoderStarts: bool, liveStarts: bool)

  /** A start request: the overlay's event code, the encoder settings and the
      live settings. `port` is the integer value of the second live setting,
      which is read only for the RTSP server. */
  datatype Request = Request(event: EventType, encoder: EncoderSettings, live: seq<string>, port: int)

  datatype Step = Step(window: Window, service: ScreenLive.Service, ok: bool, calls: seq<Call>)

  /** How many live settings StartLive reads for an event. */
  function FieldsRead(e: EventType): nat
  {
    match e
    case RtspServerEvent => 3
    case RtspPusherEvent => 1
    case RtmpPusherEvent => 1
    case OtherEvent => 0
  }

  /** The request carries every live setting StartLive reads for its event. */
  predicate WellFormed(req: Request)
  {
    |req.live| >= FieldsRead(req.event)
  }

  /** The per-target configuration StartLive fills in from the live settings. */
  function LiveConfigFor(t: Target, req: Request): (c: LiveConfig)
    requires |req.live| >= FieldsRead(EventOf(t))
    ensures c.ServerConfig? <==> t == RtspServer
    ensures c.RtspPushConfig? <==> t == RtspPusher
    ensures c.RtmpPushConfig? <==> t == RtmpPusher
    // address from the first setting, the integer port, suffix from the third
    ensures c.ServerConfig? ==> c.ip == req.live[0] && c.port == req.port && c.suffix == req.live[2]
    // either pusher takes its URL from the first setting
    ensures c.RtspPushConfig? ==> c.rtspUrl == req.live[0]
    ensures c.RtmpPushConfig? ==> c.rtmpUrl == req.live[0]
  {
    match t
    case RtspServer => ServerConfig(req.live[0], req.port, req.live[2])
    case RtspPusher => RtspPushConfig(req.live[0])
    case RtmpPusher => RtmpPushConfig(req.live[0])
  }

  /** The position of a call in StartLive's sequence. */
  function Phase(c: Call): nat
  {
    match c
    case StopLiveCall(_) => 0
    case SetLiveStateCall(_, _) => 1
    case StopEncoderCall => 2
    case StartEncoderCall(_) => 3
    case IsEncoderInitializedCall => 4
    case StartLiveCall(_, _) => 5
  }

  /** Calls never go back to an earlier phase. */
  predicate PhaseOrdered(calls: seq<Call>)
  {
    forall i, j :: 0 <= i < j < |calls| ==> Phase(calls[i]) <= Phase(calls[j])
  }

  /** Calls that belong to an encoder reset. */
  predicate Resets(c: Call)
  {
    c.StopLiveCall? || c.SetLiveStateCall? || c.StopEncoderCall? || c.StartEncoderCall?
  }

  /** `t` was stopped at the service and shown as not live on the overlay. */
  predicate Quiesced(calls: seq<Call>, t: Target)
  {
    StopLiveCall(t) in calls && SetLiveStateCall(t, false) in calls
  }

  /** Every target was quiesced, whichever were live. */
  predicate QuiescesAll(calls: seq<Call>)
  {
    Quiesced(calls, RtspServer) && Quiesced(calls, RtspPusher) && Quiesced(calls, RtmpPusher)
  }

  /** The overlay is never told that a target is live. */
  predicate ShowsNothingLive(calls: seq<Call>)
  {
    forall c :: c in calls && c.SetLiveStateCall? ==> !c.on
  }

  /** No target start was issued. */
  predicate StartsNoTarget(calls: seq<Call>)
  {
    forall c :: c in calls ==> !c.StartLiveCall?
  }

  /** Phase-ordered traces stay phase-ordered when joined, if every phase
      of the first is at most every phase of the second. */
  lemma OrderedConcat(a: seq<Call>, b: seq<Call>, mid: nat)
    requires PhaseOrdered(a) && PhaseOrdered(b)
    requires forall c :: c in a ==> Phase(c) <= mid
    requires forall c :: c in b ==> mid <= Phase(c)
    ensures PhaseOrdered(a + b)
  {
    forall i, j | 0 <= i < j < |a + b|
      ensures Phase((a + b)[i]) <= Phase((a + b)[j])
    {
      if j < |a| {
        assert (a + b)[i] == a[i] && (a + b)[j] == a[j];
      } else if i >= |a| {
        assert (a + b)[i] == b[i - |a|] && (a + b)[j] == b[j - |a|];
      } else {
        assert (a + b)[i] == a[i] && (a + b)[j] == b[j - |a|];
        assert a[i] in a && b[j - |a|] in b;
      }
    }
  }

  /** Stop every target at the service, whichever are live. */
  function StopAllCalls(): (calls: seq<Call>)
    ensures |calls| == 3
    ensures StopLiveCall(RtspServer) in calls && StopLiveCall(RtspPusher) in calls && StopLiveCall(RtmpPusher) in calls
    ensures forall c :: c in calls ==> c.StopLiveCall?
  {
    [StopLiveCall(RtspServer), StopLiveCall(RtspPusher), StopLiveCall(RtmpPusher)]
  }

  /** Show every target as not live on the overlay. */
  function ClearStateCalls(): (calls: seq<Call>)
    ensures SetLiveStateCall(RtspServer, false) in calls && SetLiveStateCall(RtspPusher, false) in calls
    ensures SetLiveStateCall(RtmpPusher, false) in calls
    ensures forall c :: c in calls ==> c.SetLiveStateCall?
    ensures |calls| == 3 && ShowsNothingLive(calls)
  {
    [SetLiveStateCall(RtspServer, false), SetLiveStateCall(RtspPusher, false), SetLiveStateCall(RtmpPusher, false)]
  }

  /** A trace whose calls all share one phase is phase-ordered. */
  lemma SamePhaseOrdered(calls: seq<Call>, p: nat)
    requires forall c :: c in calls ==> Phase(c) == p
    ensures PhaseOrdered(calls)
  {
    forall i, j | 0 <= i < j < |calls|
      ensures Phase(calls[i]) <= Phase(calls[j])
    {
      assert calls[i] in calls && calls[j] in calls;
    }
  }

  /** The first part of an encoder reset: stop every target at the service,
      whichever are live, then show each as not live on the overlay. */
  function QuiesceCalls(): (calls: seq<Call>)
    // the three stops and the three "not live" updates, and nothing else
    ensures QuiescesAll(calls) && |calls| == 6
    ensures ShowsNothingLive(calls)
    ensures forall c :: c in calls ==> Resets(c) && Phase(c) <= 1
    ensures PhaseOrdered(calls)
  {
    var stops := StopAllCalls();
    var clears := ClearStateCalls();
    SamePhaseOrdered(stops, 0);
    SamePhaseOrdered(clears, 1);
    OrderedConcat(stops, clears, 0);
    stops + clears
  }

  /** The second part of an encoder reset: stop the encoder, then start it
      with the candidate. */
  function RestartCalls(cand: AVConfig): (calls: seq<Call>)
    ensures multiset(calls)[StopEncoderCall] == 1 && multiset(calls)[StartEncoderCall(cand)] == 1
    ensures forall c :: c in calls ==> Resets(c) && 2 <= Phase(c)
    ensures forall c :: c in calls && c.StartEncoderCall? ==> c.avconfig == cand
    ensures PhaseOrdered(calls)
  {
    [StopEncoderCall, StartEncoderCall(cand)]
  }

  /** The encoder reset: quiesce every target, then stop the encoder and
      start it again with the candidate. */
  function ResetCalls(cand: AVConfig): (calls: seq<Call>)
    // the six quiesce calls, one encoder stop and one start, and nothing else
    ensures QuiescesAll(calls) && |calls| == 8
    ensures ShowsNothingLive(calls)
    ensures multiset(calls)[StopEncoderCall] == 1 && multiset(calls)[StartEncoderCall(cand)] == 1
    ensures forall c :: c in calls ==> Resets(c)
    ensures forall c :: c in calls && c.StartEncoderCall? ==> c.avconfig == cand
    ensures PhaseOrdered(calls)
  {
    var quiet := QuiesceCalls();
    var restart := RestartCalls(cand);
    assert StopEncoderCall !in quiet && StartEncoderCall(cand) !in quiet;
    assert multiset(quiet + restart) == multiset(quiet) + multiset(restart);
    OrderedConcat(quiet, restart, 1);
    quiet + restart
  }

  /** Stopping the three targets leaves none live. */
  lemma StoppingEveryTargetEmpties(svc: ScreenLive.Service)
    ensures ScreenLive.StopLive(ScreenLive.StopLive(ScreenLive.StopLive(svc, RtspServer), RtspPusher), RtmpPusher).running == {}
  {
    var stopped := ScreenLive.StopLive(ScreenLive.StopLive(ScreenLive.StopLive(svc, RtspServer), RtspPusher), RtmpPusher);
    forall t
      ensures t !in stopped.running
    {
      match t
      case RtspServer =>
      case RtspPusher =>
      case RtmpPusher =>
    }
  }

  /** The service after the reset's stop calls and its encoder stop. */
  function Quiesce(svc: ScreenLive.Service): (r: ScreenLive.Service)
    ensures r.running == {} && !ScreenLive.IsEncoderInitialized(r)
  {
    StoppingEveryTargetEmpties(svc);
    ScreenLive.StopEncoder(
      ScreenLive.StopLive(ScreenLive.StopLive(ScreenLive.StopLive(svc, RtspServer), RtspPusher), RtmpPusher))
  }

  /** At most one target start, and only as the last call. */
  predicate StartsLast(calls: seq<Call>)
  {
    forall i :: 0 <= i < |calls| - 1 ==> !calls[i].StartLiveCall?
  }

  /** A reset trace followed by a launch trace keeps the phase order, and the
      target start stays last. */
  lemma Join(a: seq<Call>, b: seq<Call>)
    requires PhaseOrdered(a) && PhaseOrdered(b) && StartsLast(b) && |b| > 0
    requires forall c :: c in a ==> Resets(c)
    requires forall c :: c in b ==> !Resets(c)
    ensures PhaseOrdered(a + b) && StartsLast(a + b)
  {
    forall i, j | 0 <= i < j < |a + b|
      ensures Phase((a + b)[i]) <= Phase((a + b)[j])
    {
      if j < |a| {
        assert (a + b)[i] == a[i] && (a + b)[j] == a[j];
      } else if i >= |a| {
        assert (a + b)[i] == b[i - |a|] && (a + b)[j] == b[j - |a|];
      } else {
        assert (a + b)[i] == a[i] && (a + b)[j] == b[j - |a|];
        assert a[i] in a && b[j - |a|] in b;
      }
    }
    forall i | 0 <= i < |a + b| - 1
      ensures !(a + b)[i].StartLiveCall?
    {
      if i < |a| {
        assert (a + b)[i] == a[i] && a[i] in a;
      } else {
        assert (a + b)[i] == b[i - |a|];
      }
    }
  }

  /** A trace of reset calls starts no target. */
  lemma ResetsOnly(calls: seq<Call>)
    requires forall c :: c in calls ==> Resets(c)
    ensures StartsNoTarget(calls) && StartsLast(calls)
  {
    forall i | 0 <= i < |calls| - 1
      ensures !calls[i].StartLiveCall?
    {
      assert calls[i] in calls;
    }
  }

  /** The part of StartLive after reconciliation: ask whether the encoder is
      initialised, then start the one target the event names. */
  function Launch(w: Window, svc: ScreenLive.Service, req: Request, liveStarts: bool): (r: Step)
    requires WellFormed(req)
    ensures r.window == w
    ensures |r.calls| > 0 && r.calls[0] == IsEncoderInitializedCall
    ensures PhaseOrdered(r.calls) && StartsLast(r.calls)
    ensures forall c :: c in r.calls ==> !Resets(c)
    ensures forall c :: c in r.calls && c.StartLiveCall? ==> Some(c.target) == TargetOf(req.event)
    ensures !ScreenLive.IsEncoderInitialized(svc) || TargetOf(req.event).None? ==>
      r.calls == [IsEncoderInitializedCall] && StartsNoTarget(r.calls)
    // the named target's start is issued, with the settings built for it
    ensures forall t :: ScreenLive.IsEncoderInitialized(svc) && TargetOf(req.event) == Some(t) ==>
      r.calls == [IsEncoderInitializedCall, StartLiveCall(t, LiveConfigFor(t, req))]
    ensures r.service.encoder == svc.encoder
    ensures r.ok <==> ScreenLive.IsEncoderInitialized(svc) && TargetOf(req.event).Some? && liveStarts
    ensures forall t :: Some(t) != TargetOf(req.event) ==> (t in r.service.running <==> t in svc.running)
    ensures forall t :: r.ok && TargetOf(req.event) == Some(t) ==> t in r.service.running
    ensures !r.ok ==> r.service == svc
  {
    if !ScreenLive.IsEncoderInitialized(svc) then Step(w, svc, false, [IsEncoderInitializedCall])
    else
      match TargetOf(req.event)
      case None => Step(w, svc, false, [IsEncoderInitializedCall])
      case Some(t) =>
        var lc := LiveConfigFor(t, req);
        var (svc', ok) := ScreenLive.StartLive(svc, t, lc, liveStarts);
        Step(w, svc', ok, [IsEncoderInitializedCall, StartLiveCall(t, lc)])
  }

  /** The reset branch of StartLive, taken when the candidate differs from
      avconfig_: quiesce every target, restart the encoder, adopt the
      candidate if the restart succeeds, then launch. */
  function Reconfigure(w: Window, svc: ScreenLive.Service, req: Request, cand: AVConfig, out: Outcomes): (r: Step)
    requires WellFormed(req)
    ensures r.window == if out.encoderStarts then w.(avconfig := cand) else w
    ensures forall c :: c in r.calls && c.StartEncoderCall? ==> c.avconfig == cand
    ensures r.service.encoder == if out.encoderStarts then Some(cand) else None
    ensures forall t :: t in r.service.running ==> r.ok && Some(t) == TargetOf(req.event)
    ensures r.ok <==> out.encoderStarts && TargetOf(req.event).Some? && out.liveStarts
    ensures forall t :: r.ok && TargetOf(req.event) == Some(t) ==> t in r.service.running
    ensures !out.encoderStarts ==> StartsNoTarget(r.calls)
  {
    var (svc', code) := ScreenLive.StartEncoder(Quiesce(svc), cand, out.encoderStarts);
    if code < 0 then
      ResetsOnly(ResetCalls(cand));
      Step(w, svc', false, ResetCalls(cand))
    else
      var l := Launch(w.(avconfig := cand), svc', req, out.liveStarts);
      l.(calls := ResetCalls(cand) + l.calls)
  }

  /** The reset branch keeps the phase order, with any target start last. */
  lemma ReconfigureOrder(w: Window, svc: ScreenLive.Service, req: Request, cand: AVConfig, out: Outcomes)
    requires WellFormed(req)
    ensures var r := Reconfigure(w, svc, req, cand, out);
      PhaseOrdered(r.calls) && StartsLast(r.calls)
  {
    var reset := ResetCalls(cand);
    if out.encoderStarts {
      var svc' := ScreenLive.StartEncoder(Quiesce(svc), cand, true).0;
      Join(reset, Launch(w.(avconfig := cand), svc', req, out.liveStarts).calls);
    } else {
      ResetsOnly(reset);
    }
  }

  /** The reset branch quiesces every target and stops and starts the
      encoder exactly once each. */
  lemma ReconfigureResetsOnce(w: Window, svc: ScreenLive.Service, req: Request, cand: AVConfig, out: Outcomes)
    requires WellFormed(req)
    ensures var r := Reconfigure(w, svc, req, cand, out);
      && QuiescesAll(r.calls) && ShowsNothingLive(r.calls)
      && multiset(r.calls)[StopEncoderCall] == 1 && multiset(r.calls)[StartEncoderCall(cand)] == 1
  {
    var reset := ResetCalls(cand);
    if out.encoderStarts {
      var svc' := ScreenLive.StartEncoder(Quiesce(svc), cand, true).0;
      var launch := Launch(w.(avconfig := cand), svc', req, out.liveStarts).calls;
      assert StopEncoderCall !in launch && StartEncoderCall(cand) !in launch;
      assert multiset(reset + launch) == multiset(reset) + multiset(launch);
    }
  }

  /** The exact trace of the reset branch: a failed restart issues the reset
      and nothing after it; a successful one is followed by the
      initialisation check and the named target's start with the settings
      built for it. */
  lemma ReconfigureCalls(w: Window, svc: ScreenLive.Service, req: Request, cand: AVConfig, out: Outcomes)
    requires WellFormed(req)
    ensures var r := Reconfigure(w, svc, req, cand, out);
      && (!out.encoderStarts ==> r.calls == ResetCalls(cand))
      && (out.encoderStarts && TargetOf(req.event).None? ==> r.calls == ResetCalls(cand) + [IsEncoderInitializedCall])
      && (forall t :: out.encoderStarts && TargetOf(req.event) == Some(t) ==>
            r.calls == ResetCalls(cand) + [IsEncoderInitializedCall, StartLiveCall(t, LiveConfigFor(t, req))])
  {
    if out.encoderStarts {
      var svc' := ScreenLive.StartEncoder(Quiesce(svc), cand, true).0;
      assert ScreenLive.IsEncoderInitialized(svc');
    }
  }

  /** The reset branch starts at most the target the event names. */
  lemma ReconfigureTargets(w: Window, svc: ScreenLive.Service, req: Request, cand: AVConfig, out: Outcomes)
    requires WellFormed(req)
    ensures var r := Reconfigure(w, svc, req, cand, out);
      forall c :: c in r.calls && c.StartLiveCall? ==> Some(c.target) == TargetOf(req.event)
  {
    ResetsOnly(ResetCalls(cand));
  }

  /** MainWindow::StartLive. The overlay must exist whenever the encoder is
      reset, because the reset notifies it unconditionally. */
  function StartLive(w: Window, svc: ScreenLive.Service, req: Request, nvencSupported: bool, out: Outcomes): (r: Step)
    requires WellFormed(req)
    requires w.overlay || Candidate(req.encoder, nvencSupported) == w.avconfig
    // only avconfig_ may change, and only to the candidate
    ensures r.window == w || r.window == w.(avconfig := Candidate(req.encoder, nvencSupported))
    // an unchanged candidate reuses the encoder: no reset call at all
    ensures Candidate(req.encoder, nvencSupported) == w.avconfig ==>
      r.window == w && forall c :: c in r.calls ==> !Resets(c)
    ensures forall c :: c in r.calls && c.StartEncoderCall? ==> c.avconfig == Candidate(req.encoder, nvencSupported)
    // the result is the target's own start result once the encoder is ready
    ensures r.ok <==>
      TargetOf(req.event).Some? && out.liveStarts &&
      (if Candidate(req.encoder, nvencSupported) != w.avconfig then out.encoderStarts
       else ScreenLive.IsEncoderInitialized(svc))
  {
    var cand := Candidate(req.encoder, nvencSupported);
    if w.avconfig != cand then Reconfigure(w, svc, req, cand, out)
    else Launch(w, svc, req, out.liveStarts)
  }

  /** The calls of StartLive keep the order of the source: target stops,
      overlay updates, encoder stop and start, the initialisation check, and
      at most one target start, issued last. */
  lemma StartLiveOrder(w: Window, svc: ScreenLive.Service, req: Request, nvencSupported: bool, out: Outcomes)
    requires WellFormed(req)
    requires w.overlay || Candidate(req.encoder, nvencSupported) == w.avconfig
    ensures var r := StartLive(w, svc, req, nvencSupported, out);
      PhaseOrdered(r.calls) && StartsLast(r.calls)
  {
    var cand := Candidate(req.encoder, nvencSupported);
    if w.avconfig != cand {
      ReconfigureOrder(w, svc, req, cand, out);
    }
  }

  /** StartLive only ever starts the target the event names. */
  lemma StartLiveTargets(w: Window, svc: ScreenLive.Service, req: Request, nvencSupported: bool, out: Outcomes)
    requires WellFormed(req)
    requires w.overlay || Candidate(req.encoder, nvencSupported) == w.avconfig
    ensures var r := StartLive(w, svc, req, nvencSupported, out);
      forall c :: c in r.calls && c.StartLiveCall? ==> Some(c.target) == TargetOf(req.event)
  {
    var cand := Candidate(req.encoder, nvencSupported);
    if w.avconfig != cand {
      ReconfigureTargets(w, svc, req, cand, out);
    }
  }

  /** Once the encoder is ready (restarted with a changed candidate, or
      already initialised for an unchanged one), StartLive ends with the
      initialisation check and the start of the named target with the
      settings built for it; a failed restart issues the reset alone. */
  lemma StartLiveLaunches(w: Window, svc: ScreenLive.Service, req: Request, nvencSupported: bool, out: Outcomes)
    requires WellFormed(req)
    requires w.overlay || Candidate(req.encoder, nvencSupported) == w.avconfig
    ensures var cand := Candidate(req.encoder, nvencSupported);
      var r := StartLive(w, svc, req, nvencSupported, out);
      && (forall t ::
            (TargetOf(req.event) == Some(t) &&
             if cand != w.avconfig then out.encoderStarts else ScreenLive.IsEncoderInitialized(svc)) ==>
            |r.calls| >= 2 &&
            r.calls[|r.calls| - 2..] == [IsEncoderInitializedCall, StartLiveCall(t, LiveConfigFor(t, req))])
      && (cand != w.avconfig && !out.encoderStarts ==> r.calls == ResetCalls(cand))
  {
    var cand := Candidate(req.encoder, nvencSupported);
    var r := StartLive(w, svc, req, nvencSupported, out);
    if cand != w.avconfig {
      ReconfigureCalls(w, svc, req, cand, out);
    }
    if cand != w.avconfig && out.encoderStarts {
      forall t | TargetOf(req.event) == Some(t)
        ensures r.calls[|r.calls| - 2..] == [IsEncoderInitializedCall, StartLiveCall(t, LiveConfigFor(t, req))]
      {
        var tail := [IsEncoderInitializedCall, StartLiveCall(t, LiveConfigFor(t, req))];
        assert r.calls == ResetCalls(cand) + tail;
        assert r.calls[|r.calls| - 2..] == tail;
      }
    }
  }

  /** A changed candidate quiesces every target, whichever were live, and
      restarts the encoder exactly once. */
  lemma ChangedConfigResetsOnce(w: Window, svc: ScreenLive.Service, req: Request, nvencSupported: bool, out: Outcomes)
    requires WellFormed(req) && w.overlay
    requires Candidate(req.encoder, nvencSupported) != w.avconfig
    ensures var r := StartLive(w, svc, req, nvencSupported, out);
      && QuiescesAll(r.calls) && ShowsNothingLive(r.calls)
      && multiset(r.calls)[StopEncoderCall] == 1
      && multiset(r.calls)[StartEncoderCall(Candidate(req.encoder, nvencSupported))] == 1
  {
    ReconfigureResetsOnce(w, svc, req, Candidate(req.encoder, nvencSupported), out);
  }

  /** A failed encoder restart: StartLive returns false, starts no target,
      keeps avconfig_, and leaves the encoder uninitialised. */
  lemma EncoderRestartFailure(w: Window, svc: ScreenLive.Service, req: Request, nvencSupported: bool, out: Outcomes)
    requires WellFormed(req) && w.overlay
    requires Candidate(req.encoder, nvencSupported) != w.avconfig && !out.encoderStarts
    ensures var r := StartLive(w, svc, req, nvencSupported, out);
      && !r.ok && r.window == w && StartsNoTarget(r.calls)
      && !ScreenLive.IsEncoderInitialized(r.service) && r.service.running == {}
  {
  }

  /** A successful encoder restart adopts the candidate as avconfig_ and as
      the running encoder configuration; afterwards at most the requested
      target is live, whichever targets were live before. */
  lemma EncoderRestartSuccess(w: Window, svc: ScreenLive.Service, req: Request, nvencSupported: bool, out: Outcomes)
    requires WellFormed(req) && w.overlay
    requires Candidate(req.encoder, nvencSupported) != w.avconfig && out.encoderStarts
    ensures var r := StartLive(w, svc, req, nvencSupported, out);
      && r.window.avconfig == Candidate(req.encoder, nvencSupported)
      && r.service.encoder == Some(Candidate(req.encoder, nvencSupported))
      && (forall t :: t in r.service.running <==> r.ok && Some(t) == TargetOf(req.event))
  {
  }

  /** When the candidate matches avconfig_, StartLive relies on the encoder
      being initialised already: if it is not, the request is refused with no
      target started; either way the other targets keep their state. */
  lemma ReusedEncoder(w: Window, svc: ScreenLive.Service, req: Request, nvencSupported: bool, out: Outcomes)
    requires WellFormed(req)
    requires Candidate(req.encoder, nvencSupported) == w.avconfig
    ensures var r := StartLive(w, svc, req, nvencSupported, out);
      && r.service.encoder == svc.encoder
      && (!ScreenLive.IsEncoderInitialized(svc) ==> !r.ok && StartsNoTarget(r.calls) && r.service == svc)
      && (forall t :: Some(t) != TargetOf(req.event) ==> (t in r.service.running <==> t in svc.running))
      && (forall t :: r.ok && TargetOf(req.event) == Some(t) ==> t in r.service.running)
  {
  }

  /** An event code that names no target is refused with no target started. */
  lemma UnknownEventStartsNothing(w: Window, svc: ScreenLive.Service, req: Request, nvencSupported: bool, out: Outcomes)
    requires WellFormed(req)
    requires w.overlay || Candidate(req.encoder, nvencSupported) == w.avconfig
    requires TargetOf(req.event).None?
    ensures var r := StartLive(w, svc, req, nvencSupported, out);
      !r.ok && StartsNoTarget(r.calls)
  {
    StartLiveTargets(w, svc, req, nvencSupported, out);
  }

  /** MainWindow::StopLive: stops the one target the event names, if any. */
  function StopLive(svc: ScreenLive.Service, e: EventType): (r: (ScreenLive.Service, seq<Call>))
    ensures r.0.encoder == svc.encoder
    ensures forall t :: Some(t) != TargetOf(e) ==> (t in r.0.running <==> t in svc.running)
    ensures forall t :: Some(t) == TargetOf(e) ==> t !in r.0.running && r.1 == [StopLiveCall(t)]
    ensures TargetOf(e).None? ==> r.0 == svc && r.1 == []
  {
    match TargetOf(e)
    case None => (svc, [])
    case Some(t) => (ScreenLive.StopLive(svc, t), [StopLiveCall(t)])
  }

  /** StopLive twice is StopLive once. */
  lemma StopLiveIdempotent(svc: ScreenLive.Service, e: EventType)
    ensures StopLive(StopLive(svc, e).0, e).0 == StopLive(svc, e).0
  {
  }

  /** The session invariant: an initialised encoder runs the active
      configuration, and no target is live without an initialised encoder. */
  predicate Coherent(w: Window, svc: ScreenLive.Service)
  {
    && (svc.encoder.Some? ==> svc.encoder.value == w.avconfig)
    && (svc.running != {} ==> svc.encoder.Some?)
  }

  /** A new window and an idle service start out coherent. */
  lemma InitiallyCoherent(band: int)
    ensures Coherent(NewWindow(band), ScreenLive.Idle)
  {
  }

  lemma StartLiveKeepsCoherent(w: Window, svc: ScreenLive.Service, req: Request, nvencSupported: bool, out: Outcomes)
    requires WellFormed(req)
    requires w.overlay || Candidate(req.encoder, nvencSupported) == w.avconfig
    ensures Coherent(w, svc) ==>
      Coherent(StartLive(w, svc, req, nvencSupported, out).window, StartLive(w, svc, req, nvencSupported, out).service)
  {
  }

  lemma StopLiveKeepsCoherent(w: Window, svc: ScreenLive.Service, e: EventType)
    requires Coherent(w, svc)
    ensures Coherent(w, StopLive(svc, e).0)
  {
    var r := StopLive(svc, e).0;
    if r.running != {} {
      var t :| t in r.running;
      assert t in svc.running;
    }
  }

  /** A failed encoder start stops the encoder but keeps avconfig_ at the
      previous configuration. A later request for that previous configuration
      therefore skips the reset, finds the encoder uninitialised and is
      refused, without any encoder or target start. */
  lemma FailedRestartRefusesPreviousConfig(w: Window, svc: ScreenLive.Service, req1: Request, req2: Request,
                                           nvencSupported: bool, out1: Outcomes, out2: Outcomes)
    requires WellFormed(req1) && WellFormed(req2) && w.overlay
    requires Candidate(req1.encoder, nvencSupported) != w.avconfig && !out1.encoderStarts
    requires Candidate(req2.encoder, nvencSupported) == w.avconfig
    ensures var r1 := StartLive(w, svc, req1, nvencSupported, out1);
      var r2 := StartLive(r1.window, r1.service, req2, nvencSupported, out2);
      && r1.window.avconfig == w.avconfig
      && !r2.ok
      && (forall c :: c in r2.calls ==> !Resets(c) && !c.StartLiveCall?)
  {
  }

  /** One start request together with the service's answers to it. */
  datatype Attempt = Attempt(req: Request, out: Outcomes)

  /** The outcome of a sequence of start requests. */
  datatype Session = Session(window: Window, service: ScreenLive.Service, results: seq<bool>, calls: seq<Call>)

  /** Every request of the sequence carries every live setting it needs. */
  predicate AllWellFormed(attempts: seq<Attempt>)
  {
    forall i :: 0 <= i < |attempts| ==> WellFormed(attempts[i].req)
  }

  /** StartLive applied to each request in turn. */
  function Run(w: Window, svc: ScreenLive.Service, attempts: seq<Attempt>, nvencSupported: bool): (r: Session)
    requires w.overlay && AllWellFormed(attempts)
    ensures |r.results| == |attempts|
    // each result is that request's own StartLive result
    ensures |attempts| > 0 ==>
      r.results[0] == StartLive(w, svc, attempts[0].req, nvencSupported, attempts[0].out).ok
    // a request succeeds only when it names a target and that target comes up
    ensures forall i :: 0 <= i < |attempts| && r.results[i] ==>
      TargetOf(attempts[i].req.event).Some? && attempts[i].out.liveStarts
    ensures r.window == w.(avconfig := r.window.avconfig)
    ensures Coherent(w, svc) ==> Coherent(r.window, r.service)
    decreases |attempts|
  {
    if |attempts| == 0 then Session(w, svc, [], [])
    else
      var a := attempts[0];
      var first := StartLive(w, svc, a.req, nvencSupported, a.out);
      var rest := Run(first.window, first.service, attempts[1..], nvencSupported);
      StartLiveKeepsCoherent(w, svc, a.req, nvencSupported, a.out);
      Session(rest.window, rest.service, [first.ok] + rest.results, first.calls + rest.calls)
  }

  /** Every request of the sequence is well formed and carries settings `e`. */
  predicate Uniform(attempts: seq<Attempt>, e: EncoderSettings)
  {
    forall i :: 0 <= i < |attempts| ==> WellFormed(attempts[i].req) && attempts[i].req.encoder == e
  }

  lemma UniformTail(attempts: seq<Attempt>, e: EncoderSettings)
    requires |attempts| > 0 && Uniform(attempts, e)
    ensures Uniform(attempts[1..], e) && AllWellFormed(attempts)
    ensures attempts[0].req.encoder == e && WellFormed(attempts[0].req)
  {
  }

  /** Once avconfig_ matches the requested settings, any number of further
      requests with those settings issues no reset call of any kind and leaves
      avconfig_ alone. */
  lemma {:induction false} SettledConfigNeverResets(w: Window, svc: ScreenLive.Service, attempts: seq<Attempt>,
                                                    nvencSupported: bool, e: EncoderSettings)
    requires w.overlay && Uniform(attempts, e)
    requires Candidate(e, nvencSupported) == w.avconfig
    ensures AllWellFormed(attempts)
    ensures forall c :: c in Run(w, svc, attempts, nvencSupported).calls ==> !Resets(c)
    ensures Run(w, svc, attempts, nvencSupported).window == w
    decreases |attempts|
  {
    if |attempts| > 0 {
      UniformTail(attempts, e);
      var a := attempts[0];
      var first := StartLive(w, svc, a.req, nvencSupported, a.out);
      SettledConfigNeverResets(first.window, first.service, attempts[1..], nvencSupported, e);
    }
  }

  /** The calls of a run are those of its first request followed by those
      of the rest. */
  lemma RunCalls(w: Window, svc: ScreenLive.Service, attempts: seq<Attempt>, nvencSupported: bool)
    requires w.overlay && AllWellFormed(attempts) && |attempts| > 0
    ensures var first := StartLive(w, svc, attempts[0].req, nvencSupported, attempts[0].out);
      Run(w, svc, attempts, nvencSupported).calls ==
        first.calls + Run(first.window, first.service, attempts[1..], nvencSupported).calls
  {
  }

  /** How many times a run of requests for a changed configuration restarts
      the encoder: once for every request up to and including the first
      whose encoder start succeeds, since a failed start keeps avconfig_. */
  function RestartsUntilSuccess(attempts: seq<Attempt>): nat
  {
    if |attempts| == 0 then 0
    else if attempts[0].out.encoderStarts then 1
    else 1 + RestartsUntilSuccess(attempts[1..])
  }

  /** The trace stops the encoder `n` times and starts it `n` times, every
      start with `cand`. */
  predicate RestartsWith(calls: seq<Call>, cand: AVConfig, n: nat)
  {
    && multiset(calls)[StartEncoderCall(cand)] == n
    && multiset(calls)[StopEncoderCall] == n
    && forall c :: c in calls && c.StartEncoderCall? ==> c.avconfig == cand
  }

  lemma RestartsAppend(a: seq<Call>, b: seq<Call>, cand: AVConfig, na: nat, nb: nat)
    requires RestartsWith(a, cand, na) && RestartsWith(b, cand, nb)
    ensures RestartsWith(a + b, cand, na + nb)
  {
    assert multiset(a + b) == multiset(a) + multiset(b);
  }

  /** One request for a changed configuration restarts the encoder once with
      the candidate; avconfig_ becomes the candidate iff the start succeeds. */
  lemma ChangedConfigStep(w: Window, svc: ScreenLive.Service, req: Request, nvencSupported: bool, out: Outcomes)
    requires WellFormed(req) && w.overlay
    requires Candidate(req.encoder, nvencSupported) != w.avconfig
    ensures var r := StartLive(w, svc, req, nvencSupported, out);
      && RestartsWith(r.calls, Candidate(req.encoder, nvencSupported), 1)
      && (out.encoderStarts ==> r.window == w.(avconfig := Candidate(req.encoder, nvencSupported)))
      && (!out.encoderStarts ==> r.window == w)
  {
    ChangedConfigResetsOnce(w, svc, req, nvencSupported, out);
  }

  /** A run whose settings already match avconfig_ never touches the encoder. */
  lemma SettledRestartsNothing(w: Window, svc: ScreenLive.Service, attempts: seq<Attempt>,
                               nvencSupported: bool, e: EncoderSettings)
    requires w.overlay && Uniform(attempts, e)
    requires Candidate(e, nvencSupported) == w.avconfig
    ensures AllWellFormed(attempts)
    ensures RestartsWith(Run(w, svc, attempts, nvencSupported).calls, Candidate(e, nvencSupported), 0)
  {
    SettledConfigNeverResets(w, svc, attempts, nvencSupported, e);
    var calls := Run(w, svc, attempts, nvencSupported).calls;
    assert StartEncoderCall(Candidate(e, nvencSupported)) !in calls && StopEncoderCall !in calls;
  }

  /** Requests for a changed configuration, all with the same settings: every
      request repeats the restart until one encoder start succeeds, and none
      restarts the encoder after that. */
  lemma {:induction false} RetryUntilSuccess(w: Window, svc: ScreenLive.Service, attempts: seq<Attempt>,
                                             nvencSupported: bool, e: EncoderSettings)
    requires w.overlay && Uniform(attempts, e)
    requires Candidate(e, nvencSupported) != w.avconfig
    ensures AllWellFormed(attempts)
    ensures RestartsWith(Run(w, svc, attempts, nvencSupported).calls, Candidate(e, nvencSupported),
                         RestartsUntilSuccess(attempts))
    decreases |attempts|, 1
  {
    if |attempts| > 0 {
      if attempts[0].out.encoderStarts {
        FirstRestartSucceeds(w, svc, attempts, nvencSupported, e);
      } else {
        FirstRestartFails(w, svc, attempts, nvencSupported, e);
      }
    }
  }

  /** The first request's encoder start succeeds: that restart is the only one. */
  lemma FirstRestartSucceeds(w: Window, svc: ScreenLive.Service, attempts: seq<Attempt>,
                             nvencSupported: bool, e: EncoderSettings)
    requires w.overlay && Uniform(attempts, e) && |attempts| > 0 && attempts[0].out.encoderStarts
    requires Candidate(e, nvencSupported) != w.avconfig
    ensures AllWellFormed(attempts)
    ensures RestartsWith(Run(w, svc, attempts, nvencSupported).calls, Candidate(e, nvencSupported), 1)
  {
    var cand := Candidate(e, nvencSupported);
    UniformTail(attempts, e);
    var a := attempts[0];
    var first := StartLive(w, svc, a.req, nvencSupported, a.out);
    ChangedConfigStep(w, svc, a.req, nvencSupported, a.out);
    RunCalls(w, svc, attempts, nvencSupported);
    var rest := Run(first.window, first.service, attempts[1..], nvencSupported).calls;
    SettledRestartsNothing(first.window, first.service, attempts[1..], nvencSupported, e);
    RestartsAppend(first.calls, rest, cand, 1, 0);
  }

  /** The first request's encoder start fails: avconfig_ is kept, so the rest
      of the run restarts the encoder as if the first request had not been. */
  lemma {:induction false} FirstRestartFails(w: Window, svc: ScreenLive.Service, attempts: seq<Attempt>,
                                             nvencSupported: bool, e: EncoderSettings)
    requires w.overlay && Uniform(attempts, e) && |attempts| > 0 && !attempts[0].out.encoderStarts
    requires Candidate(e, nvencSupported) != w.avconfig
    ensures AllWellFormed(attempts)
    ensures RestartsWith(Run(w, svc, attempts, nvencSupported).calls, Candidate(e, nvencSupported),
                         1 + RestartsUntilSuccess(attempts[1..]))
    decreases |attempts|, 0
  {
    var cand := Candidate(e, nvencSupported);
    UniformTail(attempts, e);
    var a := attempts[0];
    var first := StartLive(w, svc, a.req, nvencSupported, a.out);
    ChangedConfigStep(w, svc, a.req, nvencSupported, a.out);
    RunCalls(w, svc, attempts, nvencSupported);
    var rest := Run(first.window, first.service, attempts[1..], nvencSupported).calls;
    assert first.window == w;
    RetryUntilSuccess(first.window, first.service, attempts[1..], nvencSupported, e);
    RestartsAppend(first.calls, rest, cand, 1, RestartsUntilSuccess(attempts[1..]));
  }

  /** Requests that all carry the same encoder settings, whatever the service
      answers: when the candidate already equals avconfig_ the encoder is never
      touched; otherwise every request repeats the restart until one encoder
      start succeeds, and none restarts it after that. Every start uses the
      candidate. */
  lemma SameSettingsRestartUntilSuccess(w: Window, svc: ScreenLive.Service, attempts: seq<Attempt>,
                                        nvencSupported: bool, e: EncoderSettings)
    requires w.overlay && Uniform(attempts, e)
    ensures AllWellFormed(attempts)
    ensures var calls := Run(w, svc, attempts, nvencSupported).calls;
      RestartsWith(calls, Candidate(e, nvencSupported),
                   if Candidate(e, nvencSupported) == w.avconfig then 0 else RestartsUntilSuccess(attempts))
  {
    if Candidate(e, nvencSupported) == w.avconfig {
      SettledRestartsNothing(w, svc, attempts, nvencSupported, e);
    } else {
      RetryUntilSuccess(w, svc, attempts, nvencSupported, e);
    }
  }

  /** Requests that all carry the same encoder settings start the encoder at
      most once, always with the same candidate, provided every encoder start
      succeeds. */
  lemma SameSettingsStartEncoderAtMostOnce(w: Window, svc: ScreenLive.Service, attempts: seq<Attempt>,
                                           nvencSupported: bool, e: EncoderSettings)
    requires w.overlay && Uniform(attempts, e)
    requires forall i :: 0 <= i < |attempts| ==> attempts[i].out.encoderStarts
    ensures AllWellFormed(attempts)
    ensures var calls := Run(w, svc, attempts, nvencSupported).calls;
      && multiset(calls)[StartEncoderCall(Candidate(e, nvencSupported))] <= 1
      && multiset(calls)[StopEncoderCall] <= 1
      && forall c :: c in calls && c.StartEncoderCall? ==> c.avconfig == Candidate(e, nvencSupported)
  {
    SameSettingsRestartUntilSuccess(w, svc, attempts, nvencSupported, e);
    assert RestartsUntilSuccess(attempts) <= 1;
  }
}
