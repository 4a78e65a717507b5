/** Value types shared by the live-session controller and the frame presenter
    of MainWindow: the encoder configuration (AVConfig), the three distribution
    targets, the overlay's event codes and the per-target live configuration. */
module Config {

  datatype Option<T> = None | Some(value: T)

  /** 2^32: unsigned 32-bit arithmetic wraps modulo this value. */
  const Two32: int := 0x1_0000_0000

  type u32 = x: int | 0 <= x < 0x1_0000_0000
  type i32 = x: int | -0x8000_0000 <= x < 0x8000_0000

  /** Largest kbps value whose conversion to bps does not wrap around. */
  const MaxExactKbps: int := 4294967

  /** The hardware codec name and its software equivalent. */
  const NvencCodec: string := "h264_nvenc"
  const SoftwareCodec: string := "h264"

  /** The distribution endpoints of the ScreenLive service
      (SCREEN_LIVE_RTSP_SERVER, SCREEN_LIVE_RTSP_PUSHER, SCREEN_LIVE_RTMP_PUSHER). */
  datatype Target = RtspServer | RtspPusher | RtmpPusher

  /** The overlay's event codes EVENT_TYPE_RTSP_SERVER, EVENT_TYPE_RTSP_PUSHER and
      EVENT_TYPE_RTMP_PUSHER; every other integer code is OtherEvent. */
  datatype EventType = RtspServerEvent | RtspPusherEvent | RtmpPusherEvent | OtherEvent

  /** The event code that names target `t`. */
  function EventOf(t: Target): EventType
  {
    match t
    case RtspServer => RtspServerEvent
    case RtspPusher => RtspPusherEvent
    case RtmpPusher => RtmpPusherEvent
  }

  /** The target an event code selects, if any (the if/else-if chains of
      StartLive and StopLive). */
  function TargetOf(e: EventType): (r: Option<Target>)
    ensures forall t :: r == Some(t) <==> e == EventOf(t)
    ensures r.None? <==> e == OtherEvent
  {
    match e
    case RtspServerEvent => Some(RtspServer)
    case RtspPusherEvent => Some(RtspPusher)
    case RtmpPusherEvent => Some(RtmpPusher)
    case OtherEvent => None
  }

  /** The encoder configuration: codec name, bitrate in bits per second, frame rate.
      Equality is field-wise. */
  datatype AVConfig = AVConfig(codec: string, bitrateBps: u32, framerate: int)

  /** The configuration MainWindow's constructor installs as avconfig_. */
  const DefaultConfig: AVConfig := AVConfig("", 4000000, 25)

  /** The encoder settings of a start request, already converted to integers:
      [codec name, frame rate, bitrate in kbps]. */
  datatype EncoderSettings = EncoderSettings(codec: string, framerate: i32, bitrateKbps: i32)

  /** The per-target configuration handed to the service: address, port and
      path suffix for the RTSP server, a destination URL for either pusher. */
  datatype LiveConfig =
    | ServerConfig(ip: string, port: int, suffix: string)
    | RtspPushConfig(rtspUrl: string)
    | RtmpPushConfig(rtmpUrl: string)

  /** The candidate configuration StartLive builds from its settings. The kbps
      value is multiplied by the unsigned constant 1000U, so the product is an
      unsigned 32-bit value; a hardware codec the machine cannot run falls back
      to the software codec. */
  function Candidate(s: EncoderSettings, nvencSupported: bool): (c: AVConfig)
    ensures c.framerate == s.framerate
    ensures (c.bitrateBps - s.bitrateKbps * 1000) % Two32 == 0
    ensures 0 <= s.bitrateKbps <= MaxExactKbps ==> c.bitrateBps == s.bitrateKbps * 1000
    ensures c.codec == NvencCodec ==> nvencSupported
    ensures s.codec == NvencCodec && !nvencSupported ==> c.codec == SoftwareCodec
    ensures c.codec != s.codec ==> s.codec == NvencCodec && !nvencSupported
  {
    var codec := if s.codec == NvencCodec && !nvencSupported then SoftwareCodec else s.codec;
    AVConfig(codec, (s.bitrateKbps * 1000) % Two32, s.framerate)
  }

  /** Falling back to the software codec keeps the bitrate and frame rate of
      the request: the two candidates differ in the codec alone. */
  lemma FallbackKeepsRates(s: EncoderSettings)
    requires s.codec == NvencCodec
    ensures Candidate(s, false) == Candidate(s, true).(codec := SoftwareCodec)
    ensures Candidate(s, true).codec == NvencCodec
  {
  }

  /** Every request naming a codec differs from the constructor's default
      configuration, whose codec is empty: the first such request always
      reconfigures the encoder. */
  lemma DefaultDiffersFromNamedCodec(s: EncoderSettings, nvencSupported: bool)
    requires s.codec != ""
    ensures Candidate(s, nvencSupported) != DefaultConfig
  {
  }
}
