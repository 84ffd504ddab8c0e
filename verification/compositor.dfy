/** `paintMockupToCanvas` as a draw plan: the ordered list of draw commands
    the compositor issues against its canvas. The background is fatal when it
    cannot be loaded; a slot or an element that fails is skipped and the rest
    are still drawn. The image cache is threaded through the render and is
    proved transparent, so the plan is also stated without it. */
module Compositor {

  import opened Wrappers
  import opened Strings
  import opened Geometry
  import opened Scene
  import opened Images
  import opened ZOrder

  /** Why one slot or element was skipped. */
  datatype DrawError = ImageFailed(cause: ImageError) | MissingDimension

  /** The canvas calls around an element's draw: translate to the centre,
      then rotate and scale in this order. */
  datatype TransformOrder = RotateThenScale | ScaleThenRotate

  /** Where an element lands: its render-space centre (the pivot), its angle
      in degrees, its uniform scale, and the render-space box drawn centred on
      the pivot. */
  datatype Placement = Placement(center: Point, angle: real, scale: real, width: real, height: real,
                                 order: TransformOrder)

  datatype Font = Font(weight: real, sizePx: real, family: string)

  datatype DrawCommand =
    | DrawBackground(image: Bitmap, rect: Rect)
    | StrokeOutline(rect: Rect, lineWidth: real, dash: seq<real>, color: string)
    | DrawSlotImage(slotId: string, image: Bitmap, rect: Rect)
    | DrawElementImage(id: string, zindex: real, image: Bitmap, placement: Placement)
    | FillText(id: string, zindex: real, content: string, font: Font, color: string, placement: Placement)

  datatype Plan = Plan(viewport: Viewport, commands: seq<DrawCommand>)

  /** The print-area outline: a 1.5-wide dashed (5, 5) blue stroke. */
  const OutlineWidth: real := 1.5
  const OutlineDash: seq<real> := [5.0, 5.0]
  const OutlineColor: string := "#3b82f6"

  /** The slot inset, in authored pixels, applied on every side. */
  const SlotInset: real := 0.8

  /** `elementDefaultStyles.text.fontSize` */
  const DefaultFontSize: real := 33.0
  const DefaultFontWeight: real := 400.0
  const DefaultFontFamily: string := "Arial"
  const DefaultTextColor: string := "#000000"

  // ---------------------------------------------------------------------
  // Background and outline

  /** The pixel size of a canvas created for a requested size: node-canvas
      converts each dimension with the ECMAScript unsigned 32-bit conversion,
      truncating toward zero and wrapping modulo 2^32. */
  function CanvasSize(x: real): (n: nat)
    ensures n < 0x1_0000_0000
    ensures 0.0 <= x < 4294967296.0 ==> n as real <= x < n as real + 1.0
  {
    var t := if x >= 0.0 then x.Floor else -((-x).Floor);
    t % 0x1_0000_0000
  }

  /** The whole canvas `createCanvas(viewport.width, viewport.height)`
      allocates, in whole pixels. */
  function CanvasRect(v: Viewport): (r: Rect)
    ensures r.x == 0.0 && r.y == 0.0
    ensures r.width == CanvasSize(v.width) as real && r.height == CanvasSize(v.height) as real
  {
    Rect(0.0, 0.0, CanvasSize(v.width) as real, CanvasSize(v.height) as real)
  }

  /** The background is contain-fitted to the whole canvas, whose size is
      the viewport's truncated to whole pixels. */
  function BackgroundRect(image: Bitmap, v: Viewport): (r: Rect)
    ensures CanvasRect(v).width > 0.0 && CanvasRect(v).height > 0.0 ==> ContainFitted(CanvasRect(v), image, r)
  {
    ContainIn(CanvasRect(v), image)
  }

  /** The print area, moved into container coordinates and scaled. */
  function OutlineRect(printArea: Area, wrapper: Area, v: Viewport): (r: Rect)
    ensures r.x == (printArea.x - wrapper.x) * v.widthRatio
    ensures r.y == (printArea.y - wrapper.y) * v.heightRatio
    ensures r.x + r.width == (printArea.x - wrapper.x + printArea.width) * v.widthRatio
    ensures r.y + r.height == (printArea.y - wrapper.y + printArea.height) * v.heightRatio
  {
    Rect((printArea.x - wrapper.x) * v.widthRatio, (printArea.y - wrapper.y) * v.heightRatio,
         printArea.width * v.widthRatio, printArea.height * v.heightRatio)
  }

  // ---------------------------------------------------------------------
  // Slots

  /** `parseStyleValue`: a number is itself; undefined and the empty string
      are 0; `px` strings parse; `%` strings are that share of `baseValue`;
      other strings parse with NaN and 0 falling back to 0. `None` is NaN. */
  function ParseStyleValue(value: StyleValue, baseValue: real, parseFloat: string -> Option<real>)
    : (r: Option<real>)
    ensures value.StyleNumber? ==> r == Some(value.n)
    ensures value.StyleUndefined? || value == StyleString("") ==> r == Some(0.0)
    ensures value.StyleString? && value.s != "" && EndsWith(value.s, "px") ==> r == parseFloat(value.s)
    ensures value.StyleString? && value.s != "" && !EndsWith(value.s, "px") && EndsWith(value.s, "%") ==>
      (r.None? <==> parseFloat(value.s).None?) &&
      (r.Some? ==> r.value == parseFloat(value.s).value / 100.0 * baseValue)
    ensures value.StyleString? && value.s != "" && !EndsWith(value.s, "px") && !EndsWith(value.s, "%") ==>
      r.Some? && (parseFloat(value.s).Some? ==> r.value == parseFloat(value.s).value)
      && (parseFloat(value.s).None? ==> r.value == 0.0)
  {
    match value
    case StyleNumber(n) => Some(n)
    case StyleUndefined => Some(0.0)
    case StyleString(s) =>
      if s == "" then Some(0.0)
      else if EndsWith(s, "px") then parseFloat(s)
      else if EndsWith(s, "%") then
        (match parseFloat(s) case None => None case Some(x) => Some(x / 100.0 * baseValue))
      else
        (match parseFloat(s) case None => Some(0.0) case Some(x) => Some(x))
  }

  /** A pixel length written as `<number>px` reads back as that number when
      the parser reads the formatter's output back. */
  lemma PixelStringRoundTrip(x: real, baseValue: real, show: real -> string, parseFloat: string -> Option<real>)
    requires parseFloat(show(x) + "px") == Some(x)
    ensures ParseStyleValue(StyleString(show(x) + "px"), baseValue, parseFloat) == Some(x)
  {
    assert (show(x) + "px")[|show(x) + "px"| - 2..] == "px";
  }

  /** A percentage written as `<number>%` is that share of the base value. */
  lemma PercentStringRoundTrip(p: real, baseValue: real, show: real -> string, parseFloat: string -> Option<real>)
    requires parseFloat(show(p) + "%") == Some(p)
    ensures ParseStyleValue(StyleString(show(p) + "%"), baseValue, parseFloat) == Some(p / 100.0 * baseValue)
  {
    var s := show(p) + "%";
    assert s != "";
    assert s[|s| - 1..] == "%";
    assert s[|s| - 1] == '%';
    assert EndsWith(s, "%");
    assert !EndsWith(s, "px");
    var r := ParseStyleValue(StyleString(s), baseValue, parseFloat);
    assert r.None? <==> parseFloat(s).None?;
    assert r.value == p / 100.0 * baseValue;
  }

  /** A slot's rectangle: the authored slot moved into container coordinates,
      shrunk by the inset on every side, and scaled. */
  function SlotRect(slot: CanvasSlot, wrapper: Area, v: Viewport, env: Env): (r: Rect)
    ensures r.x == (slot.x - wrapper.x + SlotInset) * v.widthRatio
    ensures r.y == (slot.y - wrapper.y + SlotInset) * v.heightRatio
    ensures r.x + r.width == (slot.x - wrapper.x + slot.width - SlotInset) * v.widthRatio
    ensures r.y + r.height == (slot.y - wrapper.y + slot.height - SlotInset) * v.heightRatio
  {
    var w := ParseStyleValue(StyleNumber(slot.width - SlotInset * 2.0), wrapper.width, env.parseFloat).value;
    var h := ParseStyleValue(StyleNumber(slot.height - SlotInset * 2.0), wrapper.height, env.parseFloat).value;
    var left := ParseStyleValue(StyleNumber(slot.x - wrapper.x + SlotInset), wrapper.width, env.parseFloat).value;
    var top := ParseStyleValue(StyleNumber(slot.y - wrapper.y + SlotInset), wrapper.height, env.parseFloat).value;
    Rect(left * v.widthRatio, top * v.heightRatio, w * v.widthRatio, h * v.heightRatio)
  }

  /** A slot authored inside the print area, at least twice the inset wide
      and high, is drawn inside the dashed print-area outline. */
  lemma SlotInsideOutline(slot: CanvasSlot, printArea: Area, wrapper: Area, v: Viewport, env: Env)
    requires v.widthRatio > 0.0 && v.heightRatio > 0.0
    requires slot.width >= 2.0 * SlotInset && slot.height >= 2.0 * SlotInset
    requires printArea.x <= slot.x && slot.x + slot.width <= printArea.x + printArea.width
    requires printArea.y <= slot.y && slot.y + slot.height <= printArea.y + printArea.height
    ensures Within(SlotRect(slot, wrapper, v, env), OutlineRect(printArea, wrapper, v))
  {
    var r, o := SlotRect(slot, wrapper, v, env), OutlineRect(printArea, wrapper, v);
    MulMonotone(printArea.x - wrapper.x, slot.x - wrapper.x + SlotInset, v.widthRatio);
    MulMonotone(printArea.y - wrapper.y, slot.y - wrapper.y + SlotInset, v.heightRatio);
    MulMonotone(slot.x - wrapper.x + slot.width - SlotInset, printArea.x - wrapper.x + printArea.width, v.widthRatio);
    MulMonotone(slot.y - wrapper.y + slot.height - SlotInset, printArea.y - wrapper.y + printArea.height, v.heightRatio);
    MulMonotone(slot.x - wrapper.x + SlotInset, slot.x - wrapper.x + slot.width - SlotInset, v.widthRatio);
    MulMonotone(slot.y - wrapper.y + SlotInset, slot.y - wrapper.y + slot.height - SlotInset, v.heightRatio);
  }

  /** An original-frame image is contain-fitted into the slot rectangle;
      any other image is stretched onto it. */
  function SlotDrawRect(slot: CanvasSlot, image: Bitmap, rect: Rect): (r: Rect)
    ensures slot.isOriginalFrameImage != Some(true) ==> r == rect
    ensures slot.isOriginalFrameImage == Some(true) && rect.width > 0.0 && rect.height > 0.0 ==>
      ContainFitted(rect, image, r)
  {
    if slot.isOriginalFrameImage == Some(true) then ContainIn(rect, image) else rect
  }

  /** One slot without a cache. */
  function SlotFresh(slot: CanvasSlot, wrapper: Area, v: Viewport, env: Env): Result<DrawCommand, DrawError> {
    match Resolve(slot.imageURL, env)
    case Failure(e) => Failure(ImageFailed(e))
    case Success(image) =>
      Success(DrawSlotImage(slot.slotId, image, SlotDrawRect(slot, image, SlotRect(slot, wrapper, v, env))))
  }

  /** One slot of `drawLayoutSlots`, loading through the cache. */
  function DrawSlot(slot: CanvasSlot, wrapper: Area, v: Viewport, env: Env, cache: Cache)
    : (Result<DrawCommand, DrawError>, Cache)
  {
    var (loaded, cache') := LoadImage(slot.imageURL, cache, env);
    match loaded
    case Failure(e) => (Failure(ImageFailed(e)), cache')
    case Success(image) =>
      (Success(DrawSlotImage(slot.slotId, image, SlotDrawRect(slot, image, SlotRect(slot, wrapper, v, env)))), cache')
  }

  /** The slot loop: a failing slot is skipped. */
  function DrawSlots(slots: seq<CanvasSlot>, wrapper: Area, v: Viewport, env: Env, cache: Cache)
    : (seq<DrawCommand>, Cache)
  {
    if |slots| == 0 then ([], cache)
    else
      var (drawn, cache1) := DrawSlot(slots[0], wrapper, v, env, cache);
      var (rest, cache2) := DrawSlots(slots[1..], wrapper, v, env, cache1);
      (if drawn.Success? then [drawn.value] + rest else rest, cache2)
  }

  /** The slot layer without a cache: every slot that draws, in order. */
  function SlotCommands(slots: seq<CanvasSlot>, wrapper: Area, v: Viewport, env: Env): seq<DrawCommand> {
    Successes(Outcomes(slots, slot => SlotFresh(slot, wrapper, v, env)))
  }

  /** A failing slot is skipped: the other slots draw exactly as without it. */
  lemma FailingSlotIsSkipped(a: seq<CanvasSlot>, slot: CanvasSlot, b: seq<CanvasSlot>, wrapper: Area, v: Viewport, env: Env)
    requires SlotFresh(slot, wrapper, v, env).Failure?
    ensures SlotCommands(a + [slot] + b, wrapper, v, env) == SlotCommands(a + b, wrapper, v, env)
  {
    FailureIsSkipped(a, slot, b, x => SlotFresh(x, wrapper, v, env));
  }

  /** Slots are drawn only outside `no-layout`, with a layout whose slot
      configuration list is non-empty; the slots drawn are the canvas slots. */
  predicate SlotsEnabled(scene: MockupScene) {
    scene.layoutMode != NoLayout && scene.layout.Some? && |scene.layout.value.slotConfigs| > 0
  }

  // ---------------------------------------------------------------------
  // Elements

  /** Placement of a printed image or sticker: the box is the element's size
      or, when absent or zero, the image's natural size; the pivot is the
      box centre; a zero scale means 1. */
  function PlaceImage(base: ElementBase, image: Bitmap, v: Viewport): (p: Placement)
    ensures p.order == RotateThenScale
    ensures p.center.x - p.width / 2.0 == base.position.x * v.widthRatio
    ensures p.center.y - p.height / 2.0 == base.position.y * v.heightRatio
    ensures (base.width.None? || base.width.value == 0.0) ==> p.width == image.width * v.widthRatio
    ensures base.width.Some? && base.width.value != 0.0 ==> p.width == base.width.value * v.widthRatio
    ensures (base.height.None? || base.height.value == 0.0) ==> p.height == image.height * v.heightRatio
    ensures base.height.Some? && base.height.value != 0.0 ==> p.height == base.height.value * v.heightRatio
    ensures base.scale == 0.0 ==> p.scale == 1.0
    ensures base.scale != 0.0 ==> p.scale == base.scale
    ensures p.angle == base.angle
  {
    var width := OrNumber(base.width, image.width) * v.widthRatio;
    var height := OrNumber(base.height, image.height) * v.heightRatio;
    var scale := OrNumber(Some(base.scale), 1.0);
    var angle := OrNumber(Some(base.angle), 0.0);
    Placement(Point(base.position.x * v.widthRatio + width / 2.0, base.position.y * v.heightRatio + height / 2.0),
              angle, scale, width, height, RotateThenScale)
  }

  /** Text drawing: the measured box is required and anchors the pivot;
      weight, size, family and colour fall back to their defaults. */
  function DrawTextElement(t: TextState, v: Viewport): (r: Result<DrawCommand, DrawError>)
    ensures r.Failure? <==> t.dimensionOnCollect.None?
    ensures r.Success? ==> r.value.FillText? && r.value.id == t.id && r.value.zindex == t.base.zindex
    ensures r.Success? ==> var p := r.value.placement; var d := t.dimensionOnCollect.value;
      && p.order == ScaleThenRotate
      && p.width == d.offsetWidth * v.widthRatio && p.height == d.offsetHeight * v.heightRatio
      && p.center.x - p.width / 2.0 == t.base.position.x * v.widthRatio
      && p.center.y - p.height / 2.0 == t.base.position.y * v.heightRatio
      && (t.base.scale == 0.0 ==> p.scale == 1.0) && (t.base.scale != 0.0 ==> p.scale == t.base.scale)
      && p.angle == t.base.angle
    ensures r.Success? ==> r.value.content == t.content
    ensures r.Success? ==> r.value.font.sizePx == (if t.fontSize.Some? && t.fontSize.value != 0.0
                                                   then t.fontSize.value else DefaultFontSize) * v.heightRatio
    ensures r.Success? ==> r.value.font.weight == if t.fontWeight != 0.0 then t.fontWeight else DefaultFontWeight
    ensures r.Success? ==> r.value.font.family == if t.fontFamily != "" then t.fontFamily else DefaultFontFamily
    ensures r.Success? ==> r.value.color == if t.textColor != "" then t.textColor else DefaultTextColor
  {
    match t.dimensionOnCollect
    case None => Failure(MissingDimension)
    case Some(d) =>
      var font := Font(OrNumber(Some(t.fontWeight), DefaultFontWeight),
                       OrNumber(t.fontSize, DefaultFontSize) * v.heightRatio,
                       OrString(t.fontFamily, DefaultFontFamily));
      var width := d.offsetWidth * v.widthRatio;
      var height := d.offsetHeight * v.heightRatio;
      var center := Point(t.base.position.x * v.widthRatio + width / 2.0,
                          t.base.position.y * v.heightRatio + height / 2.0);
      var placement := Placement(center, OrNumber(Some(t.base.angle), 0.0), OrNumber(Some(t.base.scale), 1.0),
                                 width, height, ScaleThenRotate);
      Success(FillText(t.id, t.base.zindex, t.content, font, OrString(t.textColor, DefaultTextColor), placement))
  }

  /** A text is placed exactly as an image whose authored size is the
      text's measured box would be; only the transform order differs, and
      `TransformOrderIrrelevant` shows that it does not matter. */
  lemma TextPlacedLikeImage(t: TextState, image: Bitmap, v: Viewport)
    requires t.dimensionOnCollect.Some?
    requires t.dimensionOnCollect.value.offsetWidth != 0.0 && t.dimensionOnCollect.value.offsetHeight != 0.0
    ensures var d := t.dimensionOnCollect.value;
      DrawTextElement(t, v).value.placement
        == PlaceImage(t.base.(width := Some(d.offsetWidth), height := Some(d.offsetHeight)), image, v).(order := ScaleThenRotate)
  {
    var d := t.dimensionOnCollect.value;
    var p := DrawTextElement(t, v).value.placement;
    var q := PlaceImage(t.base.(width := Some(d.offsetWidth), height := Some(d.offsetHeight)), image, v);
    assert p.width == q.width && p.height == q.height;
    assert p.center == q.center;
    assert p.angle == q.angle && p.scale == q.scale;
  }

  /** One element without a cache. */
  function ElementFresh(e: Element, v: Viewport, env: Env): Result<DrawCommand, DrawError> {
    match e
    case Text(t) => DrawTextElement(t, v)
    case _ =>
      match Resolve(CanvasStoredURL(e.image.path, true, env), env)
      case Failure(err) => Failure(ImageFailed(err))
      case Success(image) =>
        Success(DrawElementImage(e.image.id, e.image.base.zindex, image, PlaceImage(e.image.base, image, v)))
  }

  /** One element of the draw loop, loading through the cache. Both image
      kinds resolve their reference through the sticker-aware stored URL. */
  function DrawElement(e: Element, v: Viewport, env: Env, cache: Cache): (Result<DrawCommand, DrawError>, Cache) {
    match e
    case Text(t) => (DrawTextElement(t, v), cache)
    case _ =>
      var (loaded, cache') := LoadImage(CanvasStoredURL(e.image.path, true, env), cache, env);
      match loaded
      case Failure(err) => (Failure(ImageFailed(err)), cache')
      case Success(image) =>
        (Success(DrawElementImage(e.image.id, e.image.base.zindex, image, PlaceImage(e.image.base, image, v))), cache')
  }

  /** The element loop: a failing element is skipped. */
  function DrawElements(es: seq<Element>, v: Viewport, env: Env, cache: Cache): (seq<DrawCommand>, Cache) {
    if |es| == 0 then ([], cache)
    else
      var (drawn, cache1) := DrawElement(es[0], v, env, cache);
      var (rest, cache2) := DrawElements(es[1..], v, env, cache1);
      (if drawn.Success? then [drawn.value] + rest else rest, cache2)
  }

  /** The element layer without a cache: every element that draws, in order. */
  function ElementCommands(es: seq<Element>, v: Viewport, env: Env): seq<DrawCommand> {
    Successes(Outcomes(es, e => ElementFresh(e, v, env)))
  }

  // ---------------------------------------------------------------------
  // Skipping what fails

  /** The outcome of drawing each item of a list, without a cache. */
  function Outcomes<T>(xs: seq<T>, draw: T -> Result<DrawCommand, DrawError>): (r: seq<Result<DrawCommand, DrawError>>)
    ensures |r| == |xs|
    ensures forall i :: 0 <= i < |xs| ==> r[i] == draw(xs[i])
  {
    seq(|xs|, i requires 0 <= i < |xs| => draw(xs[i]))
  }

  lemma OutcomesAppend<T>(a: seq<T>, b: seq<T>, draw: T -> Result<DrawCommand, DrawError>)
    ensures Outcomes(a + b, draw) == Outcomes(a, draw) + Outcomes(b, draw)
  {
    var l, r := Outcomes(a + b, draw), Outcomes(a, draw) + Outcomes(b, draw);
    forall i | 0 <= i < |l| ensures l[i] == r[i] {
      if i < |a| {
        assert (a + b)[i] == a[i];
      } else {
        assert (a + b)[i] == b[i - |a|];
      }
    }
  }

  lemma OutcomesTail<T>(xs: seq<T>, draw: T -> Result<DrawCommand, DrawError>)
    requires |xs| > 0
    ensures Outcomes(xs, draw) == [draw(xs[0])] + Outcomes(xs[1..], draw)
  {
    assert xs == [xs[0]] + xs[1..];
    OutcomesAppend([xs[0]], xs[1..], draw);
  }

  /** The drawn commands of a run of outcomes: failures are skipped. */
  function Successes(rs: seq<Result<DrawCommand, DrawError>>): (r: seq<DrawCommand>)
    ensures |r| <= |rs|
  {
    if |rs| == 0 then [] else (if rs[0].Success? then [rs[0].value] else []) + Successes(rs[1..])
  }

  lemma SuccessesCons(r: Result<DrawCommand, DrawError>, rs: seq<Result<DrawCommand, DrawError>>)
    ensures Successes([r] + rs) == (if r.Success? then [r.value] else []) + Successes(rs)
  {
    assert ([r] + rs)[1..] == rs;
  }

  lemma {:induction false} SuccessesAppend(a: seq<Result<DrawCommand, DrawError>>, b: seq<Result<DrawCommand, DrawError>>)
    ensures Successes(a + b) == Successes(a) + Successes(b)
  {
    if |a| == 0 {
      assert a + b == b;
    } else {
      var ab := a + b;
      assert ab[0] == a[0];
      assert ab[1..] == a[1..] + b;
      SuccessesAppend(a[1..], b);
      var head: seq<DrawCommand> := if a[0].Success? then [a[0].value] else [];
      assert Successes(ab) == head + Successes(a[1..] + b);
      assert Successes(a) == head + Successes(a[1..]);
    }
  }

  /** An item whose drawing fails leaves no trace in the commands. */
  lemma FailureIsSkipped<T>(a: seq<T>, x: T, b: seq<T>, draw: T -> Result<DrawCommand, DrawError>)
    requires draw(x).Failure?
    ensures Successes(Outcomes(a + [x] + b, draw)) == Successes(Outcomes(a + b, draw))
  {
    var oa, ox, ob := Outcomes(a, draw), Outcomes([x], draw), Outcomes(b, draw);
    OutcomesAppend(a + [x], b, draw);
    OutcomesAppend(a, [x], draw);
    OutcomesAppend(a, b, draw);
    SuccessesAppend(oa + ox, ob);
    SuccessesAppend(oa, ox);
    SuccessesAppend(oa, ob);
    assert Successes(ox) == [] by {
      assert ox[1..] == [];
    }
  }

  /** A command is drawn exactly when some outcome produced it. */
  lemma {:induction false} SuccessesMembers(rs: seq<Result<DrawCommand, DrawError>>)
    ensures forall c :: c in Successes(rs) <==> exists i :: 0 <= i < |rs| && rs[i] == Success(c)
  {
    if |rs| > 0 {
      SuccessesMembers(rs[1..]);
      forall c ensures c in Successes(rs) <==> exists i :: 0 <= i < |rs| && rs[i] == Success(c) {
        if c in Successes(rs[1..]) {
          var i :| 0 <= i < |rs[1..]| && rs[1..][i] == Success(c);
          assert rs[i + 1] == Success(c);
        }
        if i :| 0 <= i < |rs| && rs[i] == Success(c) {
          if i > 0 {
            assert rs[1..][i - 1] == Success(c);
          }
        }
      }
    }
  }

  /** The `zindex` an element command carries; other commands have none. */
  function CommandZ(c: DrawCommand): real {
    if c.DrawElementImage? || c.FillText? then c.zindex else 0.0
  }

  /** Commands in non-decreasing `zindex` order. */
  predicate InZOrder(cs: seq<DrawCommand>) {
    forall i, j :: 0 <= i < j < |cs| ==> CommandZ(cs[i]) <= CommandZ(cs[j])
  }

  /** Outcomes whose successes are in `zindex` order give commands in that
      order. */
  lemma {:induction false} SuccessesOrdered(rs: seq<Result<DrawCommand, DrawError>>)
    requires forall i, j :: 0 <= i < j < |rs| && rs[i].Success? && rs[j].Success? ==>
      CommandZ(rs[i].value) <= CommandZ(rs[j].value)
    ensures InZOrder(Successes(rs))
  {
    if |rs| > 0 {
      var rest := Successes(rs[1..]);
      forall i, j | 0 <= i < j < |rs[1..]| && rs[1..][i].Success? && rs[1..][j].Success?
        ensures CommandZ(rs[1..][i].value) <= CommandZ(rs[1..][j].value)
      {
        assert rs[1..][i] == rs[i + 1] && rs[1..][j] == rs[j + 1];
      }
      SuccessesOrdered(rs[1..]);
      if rs[0].Failure? {
        assert Successes(rs) == rest;
      } else {
        var z := CommandZ(rs[0].value);
        forall k | 0 <= k < |rs[1..]| && rs[1..][k].Success? ensures z <= CommandZ(rs[1..][k].value) {
          assert rs[1..][k] == rs[k + 1];
        }
        SuccessesBoundedBelow(z, rs[1..]);
        ConsInZOrder(rs[0].value, rest);
        assert Successes(rs) == [rs[0].value] + rest;
      }
    }
  }

  /** A lower bound on the `zindex` of every success bounds every command. */
  lemma SuccessesBoundedBelow(z: real, rs: seq<Result<DrawCommand, DrawError>>)
    requires forall k :: 0 <= k < |rs| && rs[k].Success? ==> z <= CommandZ(rs[k].value)
    ensures forall k :: 0 <= k < |Successes(rs)| ==> z <= CommandZ(Successes(rs)[k])
  {
    SuccessesMembers(rs);
    forall k | 0 <= k < |Successes(rs)| ensures z <= CommandZ(Successes(rs)[k]) {
      var c := Successes(rs)[k];
      assert c in Successes(rs);
      var m :| 0 <= m < |rs| && rs[m] == Success(c);
    }
  }

  /** A command no later in `zindex` than an ordered list may lead it. */
  lemma ConsInZOrder(c: DrawCommand, rest: seq<DrawCommand>)
    requires InZOrder(rest)
    requires forall k :: 0 <= k < |rest| ==> CommandZ(c) <= CommandZ(rest[k])
    ensures InZOrder([c] + rest)
  {
    var cs := [c] + rest;
    forall i, j | 0 <= i < j < |cs| ensures CommandZ(cs[i]) <= CommandZ(cs[j]) {
      assert cs[j] == rest[j - 1];
      if i > 0 {
        assert cs[i] == rest[i - 1];
      }
    }
  }

  // ---------------------------------------------------------------------
  // The render

  /** `paintMockupToCanvas` up to export. */
  function Paint(scene: MockupScene, env: Env): (r: Result<Plan, ImageError>)
    requires scene.wrapper.width > 0.0 && scene.wrapper.height > 0.0
    ensures r.Failure? <==> Resolve(scene.backgroundURL, env).Failure?
    ensures r.Success? ==> r.value.viewport == ViewportOf(scene.wrapper.width, scene.wrapper.height)
    ensures r.Success? ==> var v := r.value.viewport; var bg := Resolve(scene.backgroundURL, env).value;
      r.value.commands
        == [DrawBackground(bg, BackgroundRect(bg, v)),
            StrokeOutline(OutlineRect(scene.printArea, scene.wrapper, v), OutlineWidth, OutlineDash, OutlineColor)]
           + (if SlotsEnabled(scene) then SlotCommands(scene.canvasSlots, scene.wrapper, v, env) else [])
           + ElementCommands(SortByZindex(Merge(scene)), v, env)
  {
    var v := ViewportOf(scene.wrapper.width, scene.wrapper.height);
    var (loaded, cache1) := LoadImage(scene.backgroundURL, map[], env);
    match loaded
    case Failure(e) => Failure(e)
    case Success(bg) =>
      var outline := StrokeOutline(OutlineRect(scene.printArea, scene.wrapper, v), OutlineWidth, OutlineDash, OutlineColor);
      var (slots, cache2) :=
        if SlotsEnabled(scene) then DrawSlots(scene.canvasSlots, scene.wrapper, v, env, cache1) else ([], cache1);
      var (elements, _) := DrawElements(SortByZindex(Merge(scene)), v, env, cache2);
      PaintTransparent(scene, env, v, cache1, cache2);
      Success(Plan(v, [DrawBackground(bg, BackgroundRect(bg, v)), outline] + slots + elements))
  }

  lemma PaintTransparent(scene: MockupScene, env: Env, v: Viewport, cache1: Cache, cache2: Cache)
    requires LoadImage(scene.backgroundURL, map[], env).1 == cache1
    requires cache2 == (if SlotsEnabled(scene) then DrawSlots(scene.canvasSlots, scene.wrapper, v, env, cache1).1 else cache1)
    ensures SlotsEnabled(scene) ==>
      DrawSlots(scene.canvasSlots, scene.wrapper, v, env, cache1).0 == SlotCommands(scene.canvasSlots, scene.wrapper, v, env)
    ensures DrawElements(SortByZindex(Merge(scene)), v, env, cache2).0 == ElementCommands(SortByZindex(Merge(scene)), v, env)
  {
    LoadImageTransparent(scene.backgroundURL, map[], env);
    if SlotsEnabled(scene) {
      DrawSlotsTransparent(scene.canvasSlots, scene.wrapper, v, env, cache1);
    }
    DrawElementsTransparent(SortByZindex(Merge(scene)), v, env, cache2);
  }

  // ---------------------------------------------------------------------
  // The cache does not change what is drawn

  lemma {:induction false} DrawSlotsTransparent(slots: seq<CanvasSlot>, wrapper: Area, v: Viewport, env: Env, cache: Cache)
    requires Coherent(cache, env)
    ensures DrawSlots(slots, wrapper, v, env, cache).0 == SlotCommands(slots, wrapper, v, env)
    ensures Coherent(DrawSlots(slots, wrapper, v, env, cache).1, env)
  {
    if |slots| > 0 {
      var (drawn, cache1) := DrawSlot(slots[0], wrapper, v, env, cache);
      LoadImageTransparent(slots[0].imageURL, cache, env);
      DrawSlotsTransparent(slots[1..], wrapper, v, env, cache1);
      OutcomesTail(slots, slot => SlotFresh(slot, wrapper, v, env));
      SuccessesCons(drawn, Outcomes(slots[1..], slot => SlotFresh(slot, wrapper, v, env)));
    }
  }

  lemma DrawElementTransparent(e: Element, v: Viewport, env: Env, cache: Cache)
    requires Coherent(cache, env)
    ensures DrawElement(e, v, env, cache).0 == ElementFresh(e, v, env)
    ensures Coherent(DrawElement(e, v, env, cache).1, env)
  {
    if !e.Text? {
      LoadImageTransparent(CanvasStoredURL(e.image.path, true, env), cache, env);
    }
  }

  lemma {:induction false} DrawElementsTransparent(es: seq<Element>, v: Viewport, env: Env, cache: Cache)
    requires Coherent(cache, env)
    ensures DrawElements(es, v, env, cache).0 == ElementCommands(es, v, env)
    ensures Coherent(DrawElements(es, v, env, cache).1, env)
  {
    if |es| > 0 {
      var (drawn, cache1) := DrawElement(es[0], v, env, cache);
      DrawElementTransparent(es[0], v, env, cache);
      DrawElementsTransparent(es[1..], v, env, cache1);
      OutcomesTail(es, e => ElementFresh(e, v, env));
      SuccessesCons(drawn, Outcomes(es[1..], e => ElementFresh(e, v, env)));
    }
  }

  // ---------------------------------------------------------------------
  // The element layer

  /** An element that draws yields one image or text command carrying its
      own `zindex`. */
  lemma ElementFreshKeepsZindex(e: Element, v: Viewport, env: Env)
    requires ElementFresh(e, v, env).Success?
    ensures var c := ElementFresh(e, v, env).value; (c.DrawElementImage? || c.FillText?) && CommandZ(c) == e.Zindex()
  {
  }

  /** A failing element is skipped: the others draw exactly as without it. */
  lemma FailingElementIsSkipped(a: seq<Element>, e: Element, b: seq<Element>, v: Viewport, env: Env)
    requires ElementFresh(e, v, env).Failure?
    ensures ElementCommands(a + [e] + b, v, env) == ElementCommands(a + b, v, env)
  {
    FailureIsSkipped(a, e, b, x => ElementFresh(x, v, env));
  }

  /** Drawing a `zindex`-sorted list issues its commands in `zindex` order. */
  lemma ElementCommandsOrdered(es: seq<Element>, v: Viewport, env: Env)
    requires Sorted(es)
    ensures InZOrder(ElementCommands(es, v, env))
  {
    var outs := Outcomes(es, e => ElementFresh(e, v, env));
    forall i, j | 0 <= i < j < |outs| && outs[i].Success? && outs[j].Success?
      ensures CommandZ(outs[i].value) <= CommandZ(outs[j].value)
    {
      ElementFreshKeepsZindex(es[i], v, env);
      ElementFreshKeepsZindex(es[j], v, env);
    }
    SuccessesOrdered(outs);
  }

  /** Exactly the elements that draw are drawn: each one's command is in the
      layer, and each command of the layer is one element's. */
  lemma ElementCommandsComplete(es: seq<Element>, v: Viewport, env: Env)
    ensures forall i :: 0 <= i < |es| && ElementFresh(es[i], v, env).Success? ==>
      ElementFresh(es[i], v, env).value in ElementCommands(es, v, env)
    ensures forall c :: c in ElementCommands(es, v, env) ==>
      exists i :: 0 <= i < |es| && ElementFresh(es[i], v, env) == Success(c)
  {
    var outs := Outcomes(es, e => ElementFresh(e, v, env));
    SuccessesMembers(outs);
    forall c | c in ElementCommands(es, v, env)
      ensures exists i :: 0 <= i < |es| && ElementFresh(es[i], v, env) == Success(c)
    {
      var i :| 0 <= i < |outs| && outs[i] == Success(c);
      assert ElementFresh(es[i], v, env) == Success(c);
    }
  }

  /** The element layer of a scene: in `zindex` order, only image and text
      commands, and every printed image, sticker and text that draws. */
  lemma ElementLayerOfScene(scene: MockupScene, v: Viewport, env: Env)
    ensures var cs := ElementCommands(SortByZindex(Merge(scene)), v, env);
      && (forall c :: c in cs ==> c.DrawElementImage? || c.FillText?)
      && InZOrder(cs)
      && (forall e :: e in Merge(scene) && ElementFresh(e, v, env).Success? ==> ElementFresh(e, v, env).value in cs)
  {
    var sorted := SortByZindex(Merge(scene));
    var cs := ElementCommands(sorted, v, env);
    ElementCommandsOrdered(sorted, v, env);
    ElementCommandsComplete(sorted, v, env);
    forall c | c in cs ensures c.DrawElementImage? || c.FillText? {
      var i :| 0 <= i < |sorted| && ElementFresh(sorted[i], v, env) == Success(c);
      ElementFreshKeepsZindex(sorted[i], v, env);
    }
    forall e | e in Merge(scene) && ElementFresh(e, v, env).Success?
      ensures ElementFresh(e, v, env).value in cs
    {
      assert e in multiset(Merge(scene));
      assert e in multiset(sorted);
      var i :| 0 <= i < |sorted| && sorted[i] == e;
    }
  }

  // ---------------------------------------------------------------------
  // Element transforms

  /** The canvas transform an element is drawn under, for the cosine and
      sine of its angle; the box is then drawn centred on the origin. */
  function ElementMatrix(p: Placement, cos: real, sin: real): Affine {
    var toCenter := Translate(p.center.x, p.center.y);
    match p.order
    case RotateThenScale => Then(Then(toCenter, Rotate(cos, sin)), Scale(p.scale, p.scale))
    case ScaleThenRotate => Then(Then(toCenter, Scale(p.scale, p.scale)), Rotate(cos, sin))
  }

  /** Images rotate then scale and text scales then rotates; with a uniform
      scale both orders give the same transform. */
  lemma TransformOrderIrrelevant(p: Placement, cos: real, sin: real)
    ensures ElementMatrix(p.(order := RotateThenScale), cos, sin) == ElementMatrix(p.(order := ScaleThenRotate), cos, sin)
  {
    UniformScaleCommutesWithRotation(cos, sin, p.scale);
  }

  /** The element rotates and scales about the centre of its box. */
  lemma PivotIsCenter(p: Placement, cos: real, sin: real)
    ensures Apply(ElementMatrix(p, cos, sin), Point(0.0, 0.0)) == p.center
  {
  }

  /** Unrotated at scale 1, an image's drawn box starts at its authored
      position scaled into the render. */
  lemma UnrotatedImageAtPosition(base: ElementBase, image: Bitmap, v: Viewport)
    requires base.angle == 0.0 && (base.scale == 1.0 || base.scale == 0.0)
    ensures var p := PlaceImage(base, image, v);
      Apply(ElementMatrix(p, 1.0, 0.0), Point(-p.width / 2.0, -p.height / 2.0))
        == Point(base.position.x * v.widthRatio, base.position.y * v.heightRatio)
  {
  }
}
