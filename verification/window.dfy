/** The fields of MainWindow the model keeps: whether the SDL window and the
    overlay exist, the window/video/overlay geometry, the streaming texture
    and the active encoder configuration avconfig_. */
module WindowState {
  import opened Config

  /** The two pixel formats texture_format_ ever holds. */
  datatype PixelFormat = FormatUnknown | FormatARGB8888

  /** The cached texture: its recorded format and size, and whether the
      texture handle is non-null. */
  datatype Texture = Texture(format: PixelFormat, width: int, height: int, present: bool)

  /** The state ClearD3D leaves behind: UNKNOWN format, 0x0, no handle. */
  const NoTexture: Texture := Texture(FormatUnknown, 0, 0, false)

  datatype Rect = Rect(x: int, y: int, w: int, h: int)

  datatype Geometry = Geometry(
    windowWidth: int, windowHeight: int,
    videoWidth: int, videoHeight: int,
    overlayWidth: int, overlayHeight: int)

  /** The window size the constructor starts from. */
  const InitialWidth: int := 960
  const InitialHeight: int := 740

  /** The destination of the video frame: the top of the window. */
  function VideoRect(g: Geometry): Rect
  {
    Rect(0, 0, g.videoWidth, g.videoHeight)
  }

  /** The rectangle InitD3D gives the overlay. */
  function OverlayRect(g: Geometry): Rect
  {
    Rect(0, 0 + g.videoHeight, g.videoWidth, g.overlayHeight)
  }

  /** The geometry of a `width` x `height` window whose overlay band is
      `band` pixels high (kOverlayHeight): the video fills the full width
      above the band, and the overlay band sits directly beneath it, ending
      at the bottom edge of the window. */
  function Layout(width: int, height: int, band: int): (g: Geometry)
    ensures g.windowWidth == width && g.windowHeight == height
    ensures VideoRect(g).y == 0 && VideoRect(g).w == width
    ensures OverlayRect(g).y == VideoRect(g).y + VideoRect(g).h
    ensures OverlayRect(g).y + OverlayRect(g).h == height
    ensures OverlayRect(g).h == band && OverlayRect(g).w == width && g.overlayWidth == width
  {
    Geometry(width, height, width, height - band, width, band)
  }

  datatype Window = Window(
    isWindow: bool,
    overlay: bool,
    geometry: Geometry,
    texture: Texture,
    avconfig: AVConfig)

  /** MainWindow's constructor: no SDL window yet, the 960x740 layout and the
      default encoder configuration (4000 kbps, 25 fps, no codec). */
  function NewWindow(band: int): (w: Window)
    ensures !w.isWindow && !w.overlay && w.texture == NoTexture
    ensures w.geometry.windowWidth == InitialWidth && w.geometry.windowHeight == InitialHeight
    ensures w.geometry == Layout(InitialWidth, InitialHeight, band)
    ensures w.geometry.videoHeight == InitialHeight - band
    ensures w.geometry.videoWidth == InitialWidth
    ensures w.avconfig.bitrateBps == 4000000 && w.avconfig.framerate == 25
    ensures w.avconfig.codec == ""
  {
    Window(false, false, Layout(InitialWidth, InitialHeight, band), NoTexture, DefaultConfig)
  }
}
