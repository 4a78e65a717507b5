# DesktopSharing MainWindow — a Dafny model

This project models the two small state machines inside `MainWindow` of
DesktopSharing, a screen-capture streamer for Windows.

The first is the **live-session controller**, `MainWindow::StartLive` and `MainWindow::StopLive`.
- StartLive turns a start request's encoder settings into a candidate `AVConfig`:
  - the bitrate is kbps × 1000U, which is unsigned 32-bit arithmetic;
  - `h264_nvenc` falls back to `h264` when the machine has no NVENC support.
- It compares the candidate with the active configuration `avconfig_`.
- When the two differ, StartLive resets the encoder:
  1. it stops all three distribution targets (RTSP server, RTSP pusher, RTMP pusher);
  2. it clears their live state on the overlay;
  3. it stops the encoder and starts it again with the candidate;
  4. it adopts the candidate only if that start succeeds.
- It then requires an initialised encoder, and starts the one target the event code names.
- StopLive stops the one target its event code names.

The ScreenLive singleton is an abstract record (`ScreenLive.Service`): the configuration the encoder runs, and the set of live targets. Whether the encoder or a target actually starts is an input (`Outcomes`). Every call MainWindow issues to the service and to the overlay is recorded, in order, in a trace (`LiveSession.Call`).

The second is the **frame presenter**: the streaming-texture cache of `MainWindow::UpdateARGB`, its reset in `ClearD3D`, `Destroy`, and the window geometry of the constructor and `Resize`.
- The texture state is (format, width, height, handle present).
- Whether `SDL_CreateTexture` and `SDL_LockTexture` succeed is an input.
- SDL calls are recorded in a trace (`Presenter.Gfx`) and ranked by their place in the pipeline:
  destroy, create, lock, copy, unlock, clear, render, overlay, present.

Modules:
- `Config`: value types, the event-to-target mapping and the candidate configuration.
- `ScreenLive`: the abstract external service.
- `WindowState`: the window record, geometry and constructor.
- `Presenter`: UpdateARGB, ClearD3D, Destroy, Resize, and streams of frames.
- `LiveSession`: StartLive, StopLive, the session invariant, and sequences of requests.
- `Scenarios`: concrete walkthroughs. Three start requests that start the encoder, reuse it, then change it; and two frames of different sizes.

After a failed encoder start (lines 238-242), `avconfig_` keeps its previous value while the encoder is down. This has two consequences:
- A later request for that previous value skips the reset and is refused (`LiveSession.FailedRestartRefusesPreviousConfig`).
- Each repeated request for the new value repeats the encoder stop and start, until one encoder start succeeds (`LiveSession.SameSettingsRestartUntilSuccess`); each such request also quiesces every target (`LiveSession.ChangedConfigResetsOnce`).

## Model

| member | source | states |
|---|---|---|
| Config.TargetOf | DesktopSharing/MainWindow.cpp:249-267 | an event code selects target t exactly when it is t's code; every other code selects no target |
| Config.Candidate | DesktopSharing/MainWindow.cpp:220-228 | the candidate keeps the frame rate; its bitrate is kbps × 1000 modulo 2^32, and exactly kbps × 1000 for 0..4294967 kbps; the codec changes only when h264_nvenc is requested without NVENC support, and then becomes h264; the NVENC codec is chosen only when supported |
| Config.FallbackKeepsRates | DesktopSharing/MainWindow.cpp:223-228 | the software fallback differs from the hardware candidate in the codec alone, with the same bitrate and frame rate |
| Config.DefaultDiffersFromNamedCodec | DesktopSharing/MainWindow.cpp:13-15 | the constructor's configuration has an empty codec, so the first request naming any codec always resets the encoder |
| WindowState.Layout | DesktopSharing/MainWindow.cpp:77-82 | the video fills the full window width from the top edge; the overlay band lies directly beneath it, is band pixels high, and ends at the bottom edge |
| WindowState.NewWindow | DesktopSharing/MainWindow.cpp:4-16 | a new MainWindow is 960x740 with the layout of that size: the video is 960 wide and band pixels shorter than the window, and the overlay band is band pixels high; avconfig_ is 4000000 bps, 25 fps, no codec; there is no window, no overlay and no texture, and the texture record is UNKNOWN/0/0 |
| Presenter.UpdateARGB | DesktopSharing/MainWindow.cpp:164-214 | only the texture changes; without a window: false, no call, no change; otherwise the texture records ARGB8888 and the frame size; success iff a window, a texture and the lock; the trace is in pipeline order |
| Presenter.FramePipeline | DesktopSharing/MainWindow.cpp:187-210 | a failed frame goes no further than the lock; a successful frame locks, copies width*height*4 bytes, unlocks, clears, renders into the video area and presents; the overlay is drawn iff the frame succeeds and an overlay exists; a taken lock is released |
| Presenter.FrameFailureDrawsNothing | DesktopSharing/MainWindow.cpp:191-195 | a failed frame issues no copy, unlock, clear, render, overlay or present call |
| Presenter.FrameSuccessPresents | DesktopSharing/MainWindow.cpp:197-208 | a successful frame issues lock, full-frame copy, unlock, clear, render into the video rectangle, and present |
| Presenter.FrameCopiesAndOverlay | DesktopSharing/MainWindow.cpp:197-207 | every copy moves exactly width*height*4 bytes; the overlay renders iff the frame succeeds with an overlay; a lock that succeeds is followed by an unlock |
| Presenter.TextureCache | DesktopSharing/MainWindow.cpp:170-185 | the texture is destroyed iff one exists and its format or size differs; created iff none is left; a matching one is reused untouched; a texture exists afterwards iff reused or creation succeeded |
| Presenter.CacheDestroys | DesktopSharing/MainWindow.cpp:170-176 | the destroy call is issued iff a texture exists whose format or size differs from the frame |
| Presenter.CacheCreates | DesktopSharing/MainWindow.cpp:178-185 | a texture is created iff none is left to reuse, and only for ARGB8888 at the frame size |
| Presenter.CacheReuses | DesktopSharing/MainWindow.cpp:170-185 | a live texture of the right format and size is kept as it was; a texture is present afterwards iff reused or created |
| Presenter.ClearD3D | DesktopSharing/MainWindow.cpp:133-153 | the overlay is gone; no texture remains; an existing texture's record is reset to UNKNOWN/0/0; with no texture the record is untouched; nothing else changes |
| Presenter.ClearD3DIdempotent | DesktopSharing/MainWindow.cpp:133-153 | clearing twice is clearing once |
| Presenter.Destroy | DesktopSharing/MainWindow.cpp:55-64 | afterwards there is no window; an existing window loses its overlay and its texture, and an existing texture's record is reset to UNKNOWN/0/0; geometry and avconfig_ are kept; without a window nothing changes |
| Presenter.Resize | DesktopSharing/MainWindow.cpp:71-87 | a live window gets exactly the layout of the new size, with the band at y = height - band; its texture is cleared; avconfig_ is kept; the overlay exists iff it was rebuilt; without a window nothing changes |
| Presenter.ClearedTextureIsRecreated | DesktopSharing/MainWindow.cpp:178-185 | the first frame after ClearD3D creates a texture and destroys none |
| Presenter.FrameAfterResizeUsesNewLayout | DesktopSharing/MainWindow.cpp:203-204 | the first frame after a resize creates a texture, whatever the creation outcome, and if it is presented it renders into the new video rectangle |
| Presenter.NoFrameAfterDestroy | DesktopSharing/MainWindow.cpp:166-168 | a destroyed window presents nothing and issues no call |
| Presenter.NewSizeRecreatesBeforeCopy | DesktopSharing/MainWindow.cpp:170-197 | after a successful frame, a frame of another size destroys and recreates the texture, and every creation precedes every pixel copy |
| Presenter.Ingest | DesktopSharing/MainWindow.cpp:164-214 | feeding frames one by one yields one result per frame, the first being that frame's own result; a frame is presented only in a window and only when its lock succeeds; only the texture changes, and it is left sized to the last frame |
| Presenter.CreatedFramesPresentIffLocked | DesktopSharing/MainWindow.cpp:170-213 | when every texture creation succeeds, each frame in a window is presented exactly when its lock succeeds |
| Presenter.OrderedCreatesAtMostOnce | DesktopSharing/MainWindow.cpp:178-185 | a trace in pipeline order, such as the one a single UpdateARGB call issues, creates at most one texture |
| Presenter.SteadySizeReusesTexture | DesktopSharing/MainWindow.cpp:170-176 | frames that keep a live texture's size never create a texture and leave it unchanged |
| Presenter.SteadySizeCreatesAtMostOnce | DesktopSharing/MainWindow.cpp:170-185 | a stream of same-size frames whose creation succeeds creates the texture at most once |
| Presenter.CreatesOnce | DesktopSharing/MainWindow.cpp:170-185 | a frame with no usable texture creates exactly one, and leaves a usable texture of the frame's size iff that creation succeeds |
| Presenter.SteadySizeCreatesUntilSuccess | DesktopSharing/MainWindow.cpp:170-185 | same-size frames with any SDL answers: a usable texture is never recreated; otherwise one texture is created per frame up to and including the first successful creation, and none after it |
| LiveSession.QuiesceCalls | DesktopSharing/MainWindow.cpp:232-237 | exactly six calls: a stop for each target, then a "not live" update for each, and no update ever shows a target as live |
| LiveSession.ResetCalls | DesktopSharing/MainWindow.cpp:231-239 | exactly eight calls, in phase order: the six quiesce calls, one encoder stop and one encoder start with the candidate; no update shows a target as live |
| LiveSession.Quiesce | DesktopSharing/MainWindow.cpp:232-238 | after the reset's stop calls no target is live and the encoder is not initialised, whatever was live before |
| LiveSession.LiveConfigFor | DesktopSharing/MainWindow.cpp:251-265 | the RTSP server gets address, port and suffix from the first, second and third live settings; either pusher gets its URL from the first setting |
| LiveSession.Launch | DesktopSharing/MainWindow.cpp:245-267 | without an initialised encoder or a known event code: the initialisation check is the only call, and the result is false; otherwise the check is followed by exactly one start call, for the named target with its per-target settings, and its result is returned; other targets and the encoder are untouched |
| LiveSession.Reconfigure | DesktopSharing/MainWindow.cpp:231-243 | avconfig_ and the encoder take the candidate iff the restart succeeds; after a failed restart no target starts and the encoder is down; afterwards at most the named target is live |
| LiveSession.ReconfigureCalls | DesktopSharing/MainWindow.cpp:231-265 | the exact trace of the reset branch: a failed encoder start issues the reset and nothing after it; a successful one is followed by the initialisation check and, when the event names a target, that target's start with the settings built for it |
| LiveSession.StartLive | DesktopSharing/MainWindow.cpp:216-268 | only avconfig_ may change, and only to the candidate; an unchanged candidate issues no reset call; any encoder start uses the candidate; the result is true iff the event names a target, its start succeeds and the encoder is ready |
| LiveSession.StartLiveLaunches | DesktopSharing/MainWindow.cpp:231-265 | once the encoder is ready (restarted with a changed candidate, or already initialised for an unchanged one) and the event names a target, the trace ends with the initialisation check and that target's start with its settings; a failed restart issues the reset alone |
| LiveSession.StartLiveOrder | DesktopSharing/MainWindow.cpp:231-267 | target stops, then overlay updates, then the encoder stop, then its start, then the check, then at most one target start, issued last |
| LiveSession.StartLiveTargets | DesktopSharing/MainWindow.cpp:249-267 | the only target ever started is the one the event code names |
| LiveSession.ChangedConfigResetsOnce | DesktopSharing/MainWindow.cpp:231-239 | a changed candidate stops all three targets and shows each as not live, whichever were live; no overlay update shows a target as live; the encoder is stopped and started exactly once each |
| LiveSession.EncoderRestartFailure | DesktopSharing/MainWindow.cpp:238-240 | a failed encoder start returns false, starts no target, keeps avconfig_, and leaves the encoder down and no target live |
| LiveSession.EncoderRestartSuccess | DesktopSharing/MainWindow.cpp:238-242 | a successful encoder start adopts the candidate as avconfig_ and as the running configuration; afterwards a target is live iff it is the named one and it started |
| LiveSession.ReusedEncoder | DesktopSharing/MainWindow.cpp:245-247 | with an unchanged candidate, an uninitialised encoder refuses the request with no target started and no state change; other targets keep their state |
| LiveSession.UnknownEventStartsNothing | DesktopSharing/MainWindow.cpp:249-267 | an event code naming no target returns false and starts no target |
| LiveSession.StopLive | DesktopSharing/MainWindow.cpp:270-280 | the named target stops with one stop call; the encoder and every other target are untouched; an unknown code changes nothing and issues no call |
| LiveSession.StopLiveIdempotent | DesktopSharing/MainWindow.cpp:270-280 | stopping twice is stopping once |
| LiveSession.InitiallyCoherent | DesktopSharing/MainWindow.cpp:4-16 | a new window with an idle service satisfies the session invariant |
| LiveSession.StartLiveKeepsCoherent | DesktopSharing/MainWindow.cpp:216-268 | StartLive preserves the invariant, whatever the service answers: a running encoder runs avconfig_, and no target is live without an encoder |
| LiveSession.StopLiveKeepsCoherent | DesktopSharing/MainWindow.cpp:270-280 | StopLive preserves the same invariant |
| LiveSession.FailedRestartRefusesPreviousConfig | DesktopSharing/MainWindow.cpp:238-247 | after a failed restart avconfig_ still holds the old configuration, and a request for it is refused with no reset and no target start |
| LiveSession.Run | DesktopSharing/MainWindow.cpp:216-268 | a sequence of requests yields one result per request, the first being that request's own StartLive result; a request succeeds only when its event names a target and that target's start succeeds; only avconfig_ changes, and the invariant is preserved |
| LiveSession.SettledConfigNeverResets | DesktopSharing/MainWindow.cpp:231-243 | once avconfig_ matches the settings, any number of requests with those settings issues no reset call and keeps avconfig_ |
| LiveSession.RetryUntilSuccess | DesktopSharing/MainWindow.cpp:231-242 | requests for a changed configuration, all with the same settings, stop and start the encoder once for every request up to and including the first whose encoder start succeeds, and never after it; every start uses the candidate |
| LiveSession.SameSettingsRestartUntilSuccess | DesktopSharing/MainWindow.cpp:231-242 | for requests with the same settings and any service answers: no encoder stop or start when the candidate already equals avconfig_; otherwise exactly the restarts described for RetryUntilSuccess |
| LiveSession.SameSettingsStartEncoderAtMostOnce | DesktopSharing/MainWindow.cpp:231-242 | when every encoder start succeeds, requests with the same settings stop and start the encoder at most once, always with that candidate |
| Scenarios.FirstRequestStartsServer | DesktopSharing/MainWindow.cpp:216-256 | RTSP server at h264/30 fps/5000 kbps on a fresh window: the encoder starts once at 5000000 bps, the last call starts the server at 127.0.0.1, port 8554, suffix /live, and the server is the only live target |
| Scenarios.SameSettingsAddRtmpPusher | DesktopSharing/MainWindow.cpp:231-265 | the RTMP pusher with the same settings: no reset call, exactly the initialisation check and the pusher's start with its URL, and the server and the pusher are both live |
| Scenarios.NewFrameRateLeavesOnlyPusher | DesktopSharing/MainWindow.cpp:231-260 | the RTSP pusher at 25 fps: every target is quiesced, the encoder runs at 25 fps, the last call starts the pusher with its URL, and the RTSP pusher is the only live target |
| Scenarios.TwoFrameSizes | DesktopSharing/MainWindow.cpp:170-210 | 1920x1080 then 1280x720: both frames are presented, and the second destroys and recreates the texture at 1280x720 |

## Left out

- `Create` and `InitD3D` (lines 23-53, 89-131) are not modelled. They select the render driver, create the renderer and construct the overlay through SDL and Direct3D. Their one effect the model needs, whether Resize rebuilt the overlay, is the `rebuilt` parameter of `Presenter.Resize`.
- Window handles, IME suppression and the minimum window size (lines 35-50) are foreign calls.
- `Porcess` (lines 155-162) and `Overlay::Render` are not modelled. The overlay is external; only the `SetLiveState` calls it receives are recorded, as trace entries.
- The renderer handle destroyed by ClearD3D (lines 149-152) is not modelled. The overlay it deletes is modelled as the flag `overlay` becoming false.
- The destructor is empty (lines 18-21).
- `atoi` parsing (lines 221-222, 254) is not modelled. The encoder settings arrive already converted to integers (`EncoderSettings`). The RTSP server's port arrives as the integer `port`.
- The indexing of `encoder_settings` is unchecked in the source. The model's `EncoderSettings` always holds all three values.
- LiveSession.SameSettingsStartEncoderAtMostOnce: holds only when every encoder start succeeds. After a failed start the reset repeats. `LiveSession.SameSettingsRestartUntilSuccess` states the count for any answers.
- `nvenc_info.is_supported()` is the input `nvencSupported`.
- The encoder itself, RTSP/RTMP transport and the NVENC capability probe are not modelled. Only their success or failure enters, as `Outcomes`.
- The pixel contents moved by `memcpy` are not modelled; only the byte count is.
- Presenter.UpdateARGB: the copy size `texture_width_ * texture_height_ * 4` is an unbounded integer in the model. The types of `texture_width_` and `texture_height_` are declared in MainWindow.h, which is not part of this model. So it is not known how the product overflows for very large frames: it might wrap as an unsigned value, or overflow as a signed one.
- `SDL_assert` after texture creation is treated as non-fatal, as in release builds. A failed creation leaves no texture, and the frame returns false.
- `std::call_once` and any concurrency between frame ingestion, resize and teardown are not modelled. Every operation is one atomic transition.
- MainWindow.h is not part of this model. So the numeric values of the `EVENT_TYPE_*` codes, `kOverlayHeight`, and the field types and `!=` of `AVConfig` are not known.
  - Event codes are an enumeration; `OtherEvent` stands for every other integer.
  - `kOverlayHeight` is the parameter `band`.
  - `AVConfig` equality is field-wise.
  - `bitrate_bps` is taken as a 32-bit unsigned value.
  - A new window has no window, overlay or texture handle, and its texture record is UNKNOWN/0/0. These come from member initialisers in MainWindow.h, not from lines 4-16; `WindowState.NewWindow` takes them as the evident initial state.
- LiveSession.StartLive: requires an overlay whenever the candidate differs from avconfig_. The reset dereferences `overlay_` unchecked (line 235), and `overlay_` is null after a failed overlay initialisation (lines 124-128) or a teardown. The same holds for the lemmas built on StartLive.
- LiveSession.Run: requires an overlay unconditionally, which is stronger than StartLive's requirement. So it does not cover a window without an overlay even when every request keeps avconfig_. The run lemmas `LiveSession.SettledConfigNeverResets`, `LiveSession.RetryUntilSuccess`, `LiveSession.SameSettingsRestartUntilSuccess` and `LiveSession.SameSettingsStartEncoderAtMostOnce` inherit this requirement.
- LiveSession.StartLive: requires `WellFormed`, so the live settings hold every value read for the event: three for the RTSP server, one for either pusher. The source indexes `live_settings` only after the encoder check (lines 253-263). So a short vector is harmless there when the request is refused earlier, and the model does not cover that case. The same holds for `LiveSession.Launch`, `LiveSession.Run` and the lemmas built on StartLive.
- Presenter.Resize: the null dereference at line 128, reached when `Overlay::Init` fails, is not reproduced. `rebuilt` covers only whether an overlay exists afterwards.
