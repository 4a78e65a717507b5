/** The ScreenLive singleton as MainWindow observes it. The encoder and the
    RTSP/RTMP endpoints are external; their success or failure is an input
    (`ok`) rather than something computed here. */
module ScreenLive {
  import opened Config

  /** `encoder` is the configuration the encoder was started with, None while
      it is not initialised; `running` is the set of live targets. */
  datatype Service = Service(encoder: Option<AVConfig>, running: set<Target>)

  /** No encoder and no live target. */
  const Idle: Service := Service(None, {})

  predicate IsEncoderInitialized(s: Service)
  {
    s.encoder.Some?
  }

  /** Stopping a target that is not live is a no-op. */
  function StopLive(s: Service, t: Target): Service
  {
    s.(running := s.running - {t})
  }

  /** Stopping the encoder is idempotent. */
  function StopEncoder(s: Service): Service
  {
    s.(encoder := None)
  }

  /** Returns 0 and the initialised encoder when `ok`, -1 and the unchanged
      state otherwise. */
  function StartEncoder(s: Service, cfg: AVConfig, ok: bool): (Service, int)
  {
    if ok then (s.(encoder := Some(cfg)), 0) else (s, -1)
  }

  /** Returns whether the target came up; on failure nothing changes. */
  function StartLive(s: Service, t: Target, cfg: LiveConfig, ok: bool): (Service, bool)
  {
    if ok then (s.(running := s.running + {t}), true) else (s, false)
  }
}
