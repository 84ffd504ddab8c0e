/** The request body a mockup is restored from: the authored container, the
    allowed print area, the background, an optional layout with its slots,
    and the three element lists. Numbers are exact reals; a TypeScript
    optional field is an `Option`. */
module Scene {

  import opened Wrappers
  import opened Geometry

  /** `TLayoutMode` */
  datatype LayoutMode = WithLayout | NoLayout | FrameLayout

  /** `TPrintAreaContainerWrapper` and `TAllowedPrintArea` share this shape;
      the border width is the CSS string the client sent. */
  datatype Area = Area(width: real, height: real, x: real, y: real, borderWidth: string)

  /** The common part of every element (`TElementVisualBaseState`). */
  datatype ElementBase = ElementBase(
    position: Point,
    scale: real,
    angle: real,
    zindex: real,
    width: Option<real>,
    height: Option<real>,
    clippath: Option<string>)

  /** A printed image or a sticker: an image reference plus an optional
      grayscale percentage. */
  datatype ImageState = ImageState(id: string, base: ElementBase, path: string, grayscale: Option<real>)

  /** The box a text element measured on the client, read by the compositor
      through its `offsetWidth`/`offsetHeight` fields. */
  datatype Measured = Measured(offsetWidth: real, offsetHeight: real)

  datatype TextState = TextState(
    id: string,
    base: ElementBase,
    textColor: string,
    content: string,
    fontFamily: string,
    fontWeight: real,
    fontSize: Option<real>,
    dimensionOnCollect: Option<Measured>)

  /** An element tagged with the list it came from. */
  datatype Element = PrintedImage(image: ImageState) | Sticker(image: ImageState) | Text(text: TextState) {
    function Base(): ElementBase {
      match this
      case PrintedImage(s) => s.base
      case Sticker(s) => s.base
      case Text(t) => t.base
    }

    function Zindex(): real {
      Base().zindex
    }
  }

  /** A value of a React-style CSS object: string, number or undefined. */
  datatype StyleValue = StyleString(s: string) | StyleNumber(n: real) | StyleUndefined

  /** A CSS object as its entries in enumeration order. */
  type StyleObject = seq<(string, StyleValue)>

  datatype PlacedImage = PlacedImage(id: string, url: string, isOriginalFrameImage: Option<bool>)

  datatype SlotConfig = SlotConfig(id: string, style: StyleObject, placedImage: Option<PlacedImage>)

  datatype Layout = Layout(id: string, layoutType: string, slotConfigs: seq<SlotConfig>, containerStyle: StyleObject)

  /** `TLayoutSlotForCanvas`: a slot rectangle in authored page space and
      the image placed in it. */
  datatype CanvasSlot = CanvasSlot(
    slotId: string,
    x: real, y: real, width: real, height: real,
    imageURL: string,
    isOriginalFrameImage: Option<bool>)

  /** An uploaded file as the upload middleware describes it. */
  datatype UploadedFile = UploadedFile(originalname: string, path: string)

  /** `TRestoreMockupBodySchema` */
  datatype MockupScene = MockupScene(
    devicePixelRatio: real,
    mockupId: string,
    wrapper: Area,
    printArea: Area,
    backgroundURL: string,
    layoutMode: LayoutMode,
    layout: Option<Layout>,
    canvasSlots: seq<CanvasSlot>,
    printedImages: Option<seq<ImageState>>,
    stickers: Option<seq<ImageState>>,
    texts: Option<seq<TextState>>)

  /** JavaScript `x || fallback` for a number that may be absent: absent and
      zero both fall back. */
  function OrNumber(x: Option<real>, fallback: real): real {
    if x.Some? && x.value != 0.0 then x.value else fallback
  }

  /** JavaScript `s || fallback` for a string: the empty string falls back. */
  function OrString(s: string, fallback: string): string {
    if s != "" then s else fallback
  }
}
