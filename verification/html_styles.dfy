/** The inline styles and the print-area markup of the HTML generator:
    the element root, display and main-box styles, the print area's offset
    inside the container, and the layout slots it holds. Numbers are
    rendered by `show`, standing for JavaScript's number-to-string. */
module HtmlStyles {

  import opened Wrappers
  import opened Strings
  import opened Scene
  import opened Images
  import opened HtmlText
  import opened Compositor

  /** The first value of `key` in a style object. */
  function Lookup(style: StyleObject, key: string): Option<StyleValue> {
    if |style| == 0 then None
    else if style[0].0 == key then Some(style[0].1)
    else Lookup(style[1..], key)
  }

  lemma {:induction false} LookupAppend(a: StyleObject, b: StyleObject, key: string)
    ensures Lookup(a + b, key) == if Lookup(a, key).Some? then Lookup(a, key) else Lookup(b, key)
  {
    if |a| == 0 {
      assert a + b == b;
    } else {
      assert (a + b)[0] == a[0];
      assert (a + b)[1..] == a[1..] + b;
      LookupAppend(a[1..], b, key);
    }
  }

  function Px(x: real, show: real -> string): (r: string)
    ensures |r| >= 2
  {
    show(x) + "px"
  }

  // ---------------------------------------------------------------------
  // Element styles

  /** The CSS transform functions of an element: a scale other than 0 and 1,
      then a non-zero rotation. */
  function Transforms(scale: real, angle: real, show: real -> string): (r: seq<string>)
    ensures |r| == 0 <==> (scale == 0.0 || scale == 1.0) && angle == 0.0
    ensures scale != 0.0 && scale != 1.0 ==> r[0] == "scale(" + show(scale) + ")"
    ensures angle != 0.0 ==> r[|r| - 1] == "rotate(" + show(angle) + "deg)"
  {
    (if scale != 0.0 && scale != 1.0 then ["scale(" + show(scale) + ")"] else [])
    + (if angle != 0.0 then ["rotate(" + show(angle) + "deg)"] else [])
  }

  function Entry(present: bool, key: string, value: string): StyleObject {
    if present then [(key, StyleString(value))] else []
  }

  /** The style entries of an element's root box. */
  function RootStyleEntries(base: ElementBase, isText: bool, show: real -> string): (r: StyleObject)
    ensures |r| >= 2
    ensures r[0] == ("left", StyleString(Px(base.position.x, show)))
    ensures r[1] == ("top", StyleString(Px(base.position.y, show)))
  {
    var ts := Transforms(base.scale, base.angle, show);
    [("left", StyleString(Px(base.position.x, show))), ("top", StyleString(Px(base.position.y, show)))]
    + Entry(base.zindex != 0.0, "z-index", show(base.zindex))
    + Entry(base.width.Some? && base.width.value != 0.0, "width",
            if isText then "auto" else Px(base.width.GetOr(0.0), show))
    + Entry(base.height.Some? && base.height.value != 0.0, "height", Px(base.height.GetOr(0.0), show))
    + Entry(|ts| > 0, "transform", Join(ts, " "))
  }

  lemma AllTruthyAppend(a: StyleObject, b: StyleObject)
    requires AllTruthy(a) && AllTruthy(b)
    ensures AllTruthy(a + b)
  {
    forall i | 0 <= i < |a + b| ensures Truthy((a + b)[i].1) {
      if i < |a| {
        assert (a + b)[i] == a[i];
      } else {
        assert (a + b)[i] == b[i - |a|];
      }
    }
  }

  lemma LookupEntry(present: bool, key: string, value: string, k: string)
    ensures Lookup(Entry(present, key, value), k) == if present && key == k then Some(StyleString(value)) else None
  {
  }

  lemma LookupRootEntries(lt: StyleObject, z: StyleObject, w: StyleObject, h: StyleObject, t: StyleObject, k: string)
    requires |lt| == 2 && |lt[0].0| == 4 && |lt[1].0| == 3 && |k| > 4
    ensures Lookup(lt + z + w + h + t, k)
      == if Lookup(z, k).Some? then Lookup(z, k) else if Lookup(w, k).Some? then Lookup(w, k)
         else if Lookup(h, k).Some? then Lookup(h, k) else Lookup(t, k)
  {
    assert Lookup(lt, k).None? by {
      assert lt[0].0 != k && lt[1].0 != k;
      assert Lookup(lt[1..], k) == Lookup(lt[2..], k);
    }
    LookupAppend(lt + z + w + h, t, k);
    LookupAppend(lt + z + w, h, k);
    LookupAppend(lt + z, w, k);
    LookupAppend(lt, z, k);
  }

  /** Which properties the root box declares, and with which values: z-index
      only when non-zero, a width only when set (`auto` for text), a height
      only when set, a transform only when one is needed. */
  lemma RootStyleKeys(base: ElementBase, isText: bool, show: real -> string)
    ensures var r := RootStyleEntries(base, isText, show);
      && (Lookup(r, "z-index").Some? <==> base.zindex != 0.0)
      && (Lookup(r, "width").Some? <==> base.width.Some? && base.width.value != 0.0)
      && (Lookup(r, "width").Some? ==>
            Lookup(r, "width").value == StyleString(if isText then "auto" else Px(base.width.value, show)))
      && (Lookup(r, "height").Some? <==> base.height.Some? && base.height.value != 0.0)
      && (Lookup(r, "transform").Some? <==> (base.scale != 0.0 && base.scale != 1.0) || base.angle != 0.0)
  {
    var ts := Transforms(base.scale, base.angle, show);
    var lt: StyleObject := [("left", StyleString(Px(base.position.x, show))), ("top", StyleString(Px(base.position.y, show)))];
    var zp, wp, hp := base.zindex != 0.0, base.width.Some? && base.width.value != 0.0, base.height.Some? && base.height.value != 0.0;
    var wv := if isText then "auto" else Px(base.width.GetOr(0.0), show);
    var z := Entry(zp, "z-index", show(base.zindex));
    var w := Entry(wp, "width", wv);
    var h := Entry(hp, "height", Px(base.height.GetOr(0.0), show));
    var t := Entry(|ts| > 0, "transform", Join(ts, " "));
    assert RootStyleEntries(base, isText, show) == lt + z + w + h + t;
    LookupRootEntries(lt, z, w, h, t, "z-index");
    LookupRootEntries(lt, z, w, h, t, "width");
    LookupRootEntries(lt, z, w, h, t, "height");
    LookupRootEntries(lt, z, w, h, t, "transform");
    LookupEntry(zp, "z-index", show(base.zindex), "z-index");
    LookupEntry(wp, "width", wv, "z-index");
    LookupEntry(wp, "width", wv, "width");
    LookupEntry(hp, "height", Px(base.height.GetOr(0.0), show), "z-index");
    LookupEntry(hp, "height", Px(base.height.GetOr(0.0), show), "width");
    LookupEntry(hp, "height", Px(base.height.GetOr(0.0), show), "height");
    LookupEntry(zp, "z-index", show(base.zindex), "width");
    LookupEntry(zp, "z-index", show(base.zindex), "height");
    LookupEntry(wp, "width", wv, "height");
    LookupEntry(zp, "z-index", show(base.zindex), "transform");
    LookupEntry(wp, "width", wv, "transform");
    LookupEntry(hp, "height", Px(base.height.GetOr(0.0), show), "transform");
    LookupEntry(|ts| > 0, "transform", Join(ts, " "), "transform");
  }

  /** With a number formatter that never yields the empty string, as
      JavaScript's does not, every root entry is truthy and becomes a
      declaration. */
  lemma RootStyleDeclarations(base: ElementBase, isText: bool, show: real -> string)
    requires forall x :: show(x) != ""
    ensures |Declarations(RootStyleEntries(base, isText, show), show)| == |RootStyleEntries(base, isText, show)|
  {
    var ts := Transforms(base.scale, base.angle, show);
    if |ts| > 0 {
      assert ts[|ts| - 1] != "";
    }
    var lt: StyleObject := [("left", StyleString(Px(base.position.x, show))), ("top", StyleString(Px(base.position.y, show)))];
    var z := Entry(base.zindex != 0.0, "z-index", show(base.zindex));
    var w := Entry(base.width.Some? && base.width.value != 0.0, "width",
                   if isText then "auto" else Px(base.width.GetOr(0.0), show));
    var h := Entry(base.height.Some? && base.height.value != 0.0, "height", Px(base.height.GetOr(0.0), show));
    var t := Entry(|ts| > 0, "transform", Join(ts, " "));
    assert RootStyleEntries(base, isText, show) == lt + z + w + h + t;
    AllTruthyAppend(lt, z);
    AllTruthyAppend(lt + z, w);
    AllTruthyAppend(lt + z + w, h);
    AllTruthyAppend(lt + z + w + h, t);
    DeclarationsOfTruthy(lt + z + w + h + t, show);
  }

  /** One declaration when `present`, none otherwise. */
  function Optional(present: bool, declaration: string): seq<string> {
    if present then [declaration] else []
  }

  /** The declarations of an element's root box, written out directly: left
      and top always; z-index when non-zero; width when set (`auto` for
      text); height when set; a transform when the scale is neither 0 nor 1
      or the angle is non-zero. */
  function RootDeclarationList(base: ElementBase, isText: bool, show: real -> string): seq<string> {
    ["left: " + Px(base.position.x, show), "top: " + Px(base.position.y, show)]
    + Optional(base.zindex != 0.0, "z-index: " + show(base.zindex))
    + Optional(base.width.Some? && base.width.value != 0.0,
               "width: " + if isText then "auto" else Px(base.width.GetOr(0.0), show))
    + Optional(base.height.Some? && base.height.value != 0.0, "height: " + Px(base.height.GetOr(0.0), show))
    + Optional((base.scale != 0.0 && base.scale != 1.0) || base.angle != 0.0,
               "transform: " + Join(Transforms(base.scale, base.angle, show), " "))
  }

  /** `initRootElementBaseStyle`: the style string starts with the position,
      and, with JavaScript's number formatting (never empty), it is exactly
      the root-box declarations joined by `; `. */
  function RootElementBaseStyle(base: ElementBase, isText: bool, show: real -> string): (r: string)
    ensures StartsWith(r, ("left: " + Px(base.position.x, show)) + "; " + ("top: " + Px(base.position.y, show)))
    ensures (forall x :: show(x) != "") ==> r == Join(RootDeclarationList(base, isText, show), "; ")
  {
    RootStylePrefix(base, isText, show);
    RootStyleDeclarationList(base, isText, show);
    Join(Declarations(RootStyleEntries(base, isText, show), show), "; ")
  }

  /** A present entry with a non-empty value and a lower-case key becomes
      exactly `key: value`; an absent one becomes nothing. */
  lemma EntryDeclaration(present: bool, key: string, value: string, show: real -> string)
    requires present ==> value != ""
    requires forall i :: 0 <= i < |key| ==> !IsUpper(key[i])
    ensures Declarations(Entry(present, key, value), show) == Optional(present, key + ": " + value)
  {
    if present {
      var e: StyleObject := [(key, StyleString(value))];
      assert e[..0] == [];
      KebabIdentity(key);
      assert Declarations(e, show) == [] + [Declaration(key, StyleString(value), show)];
    }
  }

  lemma DeclarationsOfFive(a: StyleObject, b: StyleObject, c: StyleObject, d: StyleObject, e: StyleObject,
                           show: real -> string)
    ensures Declarations(a + b + c + d + e, show)
         == Declarations(a, show) + Declarations(b, show) + Declarations(c, show)
            + Declarations(d, show) + Declarations(e, show)
  {
    DeclarationsAppend(a + b + c + d, e, show);
    DeclarationsAppend(a + b + c, d, show);
    DeclarationsAppend(a + b, c, show);
    DeclarationsAppend(a, b, show);
  }

  /** The style-object serialisation of the root entries yields exactly the
      written-out declaration list. */
  lemma RootStyleDeclarationList(base: ElementBase, isText: bool, show: real -> string)
    ensures (forall x :: show(x) != "") ==>
      Declarations(RootStyleEntries(base, isText, show), show) == RootDeclarationList(base, isText, show)
  {
    if forall x :: show(x) != "" {
      RootStyleDeclarationListOf(base, isText, show);
    }
  }

  lemma RootStyleDeclarationListOf(base: ElementBase, isText: bool, show: real -> string)
    requires forall x :: show(x) != ""
    ensures Declarations(RootStyleEntries(base, isText, show), show) == RootDeclarationList(base, isText, show)
  {
    var zv, wv, hv := show(base.zindex), (if isText then "auto" else Px(base.width.GetOr(0.0), show)), Px(base.height.GetOr(0.0), show);
    var ts := Transforms(base.scale, base.angle, show);
    var tp := (base.scale != 0.0 && base.scale != 1.0) || base.angle != 0.0;
    var lt: StyleObject := [("left", StyleString(Px(base.position.x, show))), ("top", StyleString(Px(base.position.y, show)))];
    RootStyleEntriesUnfold(base, isText, show);
    RootDeclarationListUnfold(base, isText, show);
    PositionDeclarations(lt, base.position.x, base.position.y, show);
    assert tp ==> Join(ts, " ") != "" by {
      if tp {
        assert ts[|ts| - 1] != "";
      }
    }
    LiftRoot(RootStyleEntries(base, isText, show), RootDeclarationList(base, isText, show),
             lt, ["left: " + Px(base.position.x, show), "top: " + Px(base.position.y, show)],
             base.zindex != 0.0, zv, base.width.Some? && base.width.value != 0.0, wv,
             base.height.Some? && base.height.value != 0.0, hv, tp, Join(ts, " "), show);
  }

  /** The root entries as five consecutive groups: position, then each optional declaration. */
  lemma RootStyleEntriesUnfold(base: ElementBase, isText: bool, show: real -> string)
    ensures var zp, wp, hp := base.zindex != 0.0, base.width.Some? && base.width.value != 0.0, base.height.Some? && base.height.value != 0.0;
      var tp := (base.scale != 0.0 && base.scale != 1.0) || base.angle != 0.0;
      var zv, wv, hv := show(base.zindex), (if isText then "auto" else Px(base.width.GetOr(0.0), show)), Px(base.height.GetOr(0.0), show);
      var tv := Join(Transforms(base.scale, base.angle, show), " ");
      RootStyleEntries(base, isText, show)
      == [("left", StyleString(Px(base.position.x, show))), ("top", StyleString(Px(base.position.y, show)))]
         + Entry(zp, "z-index", zv) + Entry(wp, "width", wv) + Entry(hp, "height", hv) + Entry(tp, "transform", tv)
  {
  }

  /** The declaration list as five consecutive groups, matching the entries. */
  lemma RootDeclarationListUnfold(base: ElementBase, isText: bool, show: real -> string)
    ensures var zp, wp, hp := base.zindex != 0.0, base.width.Some? && base.width.value != 0.0, base.height.Some? && base.height.value != 0.0;
      var tp := (base.scale != 0.0 && base.scale != 1.0) || base.angle != 0.0;
      var zv, wv, hv := show(base.zindex), (if isText then "auto" else Px(base.width.GetOr(0.0), show)), Px(base.height.GetOr(0.0), show);
      var tv := Join(Transforms(base.scale, base.angle, show), " ");
      RootDeclarationList(base, isText, show)
      == ["left: " + Px(base.position.x, show), "top: " + Px(base.position.y, show)]
         + Optional(zp, "z-index: " + zv) + Optional(wp, "width: " + wv) + Optional(hp, "height: " + hv)
         + Optional(tp, "transform: " + tv)
  {
  }

  /** Serialising the position pair followed by the four optional entries
      gives the position declarations followed by each present `key: value`. */
  lemma LiftRoot(entries: StyleObject, declarations: seq<string>, lt: StyleObject, pos: seq<string>,
                 zp: bool, zv: string, wp: bool, wv: string, hp: bool, hv: string, tp: bool, tv: string,
                 show: real -> string)
    requires entries == lt + Entry(zp, "z-index", zv) + Entry(wp, "width", wv) + Entry(hp, "height", hv)
                        + Entry(tp, "transform", tv)
    requires declarations == pos + Optional(zp, "z-index: " + zv) + Optional(wp, "width: " + wv)
                             + Optional(hp, "height: " + hv) + Optional(tp, "transform: " + tv)
    requires Declarations(lt, show) == pos
    requires zv != "" && wv != "" && hv != "" && (tp ==> tv != "")
    ensures Declarations(entries, show) == declarations
  {
    var z, w, h, t := Entry(zp, "z-index", zv), Entry(wp, "width", wv), Entry(hp, "height", hv), Entry(tp, "transform", tv);
    var dz, dw, dh, dt := Optional(zp, "z-index: " + zv), Optional(wp, "width: " + wv),
                          Optional(hp, "height: " + hv), Optional(tp, "transform: " + tv);
    KeyedEntry(zp, "z-index", zv, "z-index: " + zv, show);
    KeyedEntry(wp, "width", wv, "width: " + wv, show);
    KeyedEntry(hp, "height", hv, "height: " + hv, show);
    KeyedEntry(tp, "transform", tv, "transform: " + tv, show);
    AssembleFive(lt, z, w, h, t, pos, dz, dw, dh, dt, show);
  }

  /** `EntryDeclaration` with the declaration text given in its written-out form. */
  lemma KeyedEntry(present: bool, key: string, value: string, declaration: string, show: real -> string)
    requires key in {"z-index", "width", "height", "transform"}
    requires present ==> value != ""
    requires declaration == key + ": " + value
    ensures Declarations(Entry(present, key, value), show) == Optional(present, declaration)
  {
    EntryDeclaration(present, key, value, show);
  }

  /** Declarations of five groups, given the declarations of each group. */
  lemma AssembleFive(a: StyleObject, b: StyleObject, c: StyleObject, d: StyleObject, e: StyleObject,
                     da: seq<string>, db: seq<string>, dc: seq<string>, dd: seq<string>, de: seq<string>,
                     show: real -> string)
    requires Declarations(a, show) == da && Declarations(b, show) == db && Declarations(c, show) == dc
    requires Declarations(d, show) == dd && Declarations(e, show) == de
    ensures Declarations(a + b + c + d + e, show) == da + db + dc + dd + de
  {
    DeclarationsOfFive(a, b, c, d, e, show);
  }

  lemma RootStylePrefix(base: ElementBase, isText: bool, show: real -> string)
    ensures StartsWith(Join(Declarations(RootStyleEntries(base, isText, show), show), "; "),
                       ("left: " + Px(base.position.x, show)) + "; " + ("top: " + Px(base.position.y, show)))
  {
    var ds := Declarations(RootStyleEntries(base, isText, show), show);
    RootStyleStartsWithPosition(base, isText, show);
    JoinStartsWith(ds, "left: " + Px(base.position.x, show), "top: " + Px(base.position.y, show), "; ");
  }

  lemma JoinStartsWith(ds: seq<string>, a: string, b: string, sep: string)
    requires |ds| >= 2 && ds[0] == a && ds[1] == b
    ensures StartsWith(Join(ds, sep), a + sep + b)
  {
    JoinPrefix(ds, sep);
  }

  /** Left and top are always the first two declarations. */
  lemma RootStyleStartsWithPosition(base: ElementBase, isText: bool, show: real -> string)
    ensures var ds := Declarations(RootStyleEntries(base, isText, show), show);
      |ds| >= 2 && ds[0] == "left: " + Px(base.position.x, show) && ds[1] == "top: " + Px(base.position.y, show)
  {
    var r := RootStyleEntries(base, isText, show);
    var lt, rest := r[..2], r[2..];
    assert r == lt + rest;
    DeclarationsAppend(lt, rest, show);
    PositionDeclarations(lt, base.position.x, base.position.y, show);
  }

  lemma PositionDeclarations(lt: StyleObject, x: real, y: real, show: real -> string)
    requires lt == [("left", StyleString(Px(x, show))), ("top", StyleString(Px(y, show)))]
    ensures Declarations(lt, show) == ["left: " + Px(x, show), "top: " + Px(y, show)]
  {
    DeclarationsOfTruthy(lt, show);
    KebabIdentity("left");
    KebabIdentity("top");
    assert "left" + ": " == "left: ";
    assert "top" + ": " == "top: ";
  }

  lemma {:induction false} JoinPrefix(parts: seq<string>, sep: string)
    requires |parts| >= 2
    ensures StartsWith(Join(parts, sep), parts[0] + sep + parts[1])
  {
    if |parts| > 2 {
      var init := parts[..|parts| - 1];
      JoinPrefix(init, sep);
      StartsWithAppend(Join(init, sep), parts[0] + sep + parts[1], sep + parts[|parts| - 1]);
    } else {
      assert parts[..1] == [parts[0]];
    }
  }

  lemma StartsWithAppend(s: string, prefix: string, tail: string)
    requires StartsWith(s, prefix)
    ensures StartsWith(s + tail, prefix)
  {
    assert (s + tail)[..|prefix|] == s[..|prefix|];
  }

  /** `initElementDisplayImageStyle`: a grayscale filter exactly for a
      positive grayscale percentage. */
  function DisplayImageStyle(grayscale: Option<real>, show: real -> string): (r: string)
    ensures r != "" <==> grayscale.Some? && grayscale.value > 0.0
    ensures r != "" ==> r == "filter: grayscale(" + show(grayscale.value) + "%)"
  {
    if grayscale.Some? && grayscale.value > 0.0 then "filter: grayscale(" + show(grayscale.value) + "%)" else ""
  }

  /** `initElementMainBoxStyle`: a clip path exactly for a non-empty one. */
  function MainBoxStyle(clippath: Option<string>, show: real -> string): (r: string)
    ensures r != "" <==> clippath.Some? && clippath.value != ""
    ensures r != "" ==> r == "clip-path: " + clippath.value
  {
    var style := if clippath.Some? then [("clip-path", StyleString(clippath.value))] else [];
    KebabIdentity("clip-path");
    Join(Declarations(style, show), "; ")
  }

  // ---------------------------------------------------------------------
  // Print area and layout

  /** `Math.round`: the nearest integer, halves rounding up. */
  function JsRound(x: real): (r: int)
    ensures r as real - 0.5 <= x < r as real + 0.5
  {
    (x + 0.5).Floor
  }

  /** The container's border in CSS pixels, rounded; `None` is NaN. */
  function ContainerBorder(borderWidth: Option<real>, devicePixelRatio: real): (r: Option<int>)
    requires devicePixelRatio > 0.0
    ensures r.Some? <==> borderWidth.Some?
    ensures r.Some? ==> r.value as real - 0.5 <= borderWidth.value / devicePixelRatio < r.value as real + 0.5
  {
    match borderWidth
    case None => None
    case Some(b) => Some(JsRound(b / devicePixelRatio))
  }

  /** The `toStoredURL` of the HTML generator. */
  function HtmlStoredURL(url: string, env: Env): (r: string)
    ensures r == CanvasStoredURL(url, false, env)
    ensures !StartsWith(url, "blob:") ==> r == url
  {
    if StartsWith(url, "blob:") then
      match FindUpload(env.files, BlobToken(url))
      case Some(file) => env.blobPathByDate(file.originalname)
      case None => url
    else url
  }

  datatype SlotImage = SlotImage(objectFit: string, src: string)
  datatype SlotMarkup = SlotMarkup(id: string, style: string, image: Option<SlotImage>)
  datatype LayoutMarkup = LayoutMarkup(layoutType: string, containerStyle: string, slots: seq<SlotMarkup>)
  datatype PrintAreaMarkup = PrintAreaMarkup(width: real, height: real, left: Option<real>, top: Option<real>,
                                             layout: Option<LayoutMarkup>)

  /** An original-frame image is contained in its slot, any other covers it. */
  function ObjectFit(placed: PlacedImage): (r: string)
    ensures r == "contain" <==> placed.isOriginalFrameImage == Some(true)
    ensures r == "contain" || r == "cover"
  {
    if placed.isOriginalFrameImage == Some(true) then "contain" else "cover"
  }

  function SlotView(slot: SlotConfig, env: Env, show: real -> string): (r: SlotMarkup)
    ensures r.id == slot.id && (r.image.Some? <==> slot.placedImage.Some?)
    ensures r.image.Some? ==> r.image.value.src == EscapeHtml(HtmlStoredURL(slot.placedImage.value.url, env))
    ensures r.image.Some? ==> r.image.value.objectFit == ObjectFit(slot.placedImage.value)
  {
    var image := match slot.placedImage
      case None => None
      case Some(p) => Some(SlotImage(ObjectFit(p), EscapeHtml(HtmlStoredURL(p.url, env))));
    SlotMarkup(slot.id, Join(Declarations(slot.style, show), "; "), image)
  }

  /** `generateLayoutHTML`: nothing for an empty slot list, otherwise one
      slot box per configured slot, in order. */
  function LayoutView(layout: Layout, env: Env, show: real -> string): (r: Option<LayoutMarkup>)
    ensures r.None? <==> |layout.slotConfigs| == 0
    ensures r.Some? ==> |r.value.slots| == |layout.slotConfigs|
    ensures r.Some? ==> forall i :: 0 <= i < |layout.slotConfigs| ==>
      r.value.slots[i] == SlotView(layout.slotConfigs[i], env, show)
  {
    if |layout.slotConfigs| == 0 then None
    else
      var slots := seq(|layout.slotConfigs|, i requires 0 <= i < |layout.slotConfigs| =>
                         SlotView(layout.slotConfigs[i], env, show));
      Some(LayoutMarkup(layout.layoutType, Join(Declarations(layout.containerStyle, show), "; "), slots))
  }

  /** `generateAllowedPrintArea`: the print area's size, its offset inside
      the container's content box, and the layout unless in `no-layout`. */
  function PrintAreaView(scene: MockupScene, border: Option<int>, env: Env, show: real -> string): (r: PrintAreaMarkup)
    ensures r.width == scene.printArea.width && r.height == scene.printArea.height
    ensures r.left.Some? <==> border.Some?
    ensures r.top.Some? <==> border.Some?
    ensures r.left.Some? ==> r.left.value + scene.wrapper.x + border.value as real == scene.printArea.x
    ensures r.top.Some? ==> r.top.value + scene.wrapper.y + border.value as real == scene.printArea.y
  {
    var left := match border case None => None case Some(b) => Some(scene.printArea.x - scene.wrapper.x - b as real);
    var top := match border case None => None case Some(b) => Some(scene.printArea.y - scene.wrapper.y - b as real);
    var layout := if scene.layoutMode != NoLayout && scene.layout.Some? then LayoutView(scene.layout.value, env, show) else None;
    PrintAreaMarkup(scene.printArea.width, scene.printArea.height, left, top, layout)
  }

  /** The print area as the page builds it: the container's border is
      parsed from the wrapper's `borderWidth`, divided by the device pixel
      ratio and rounded, then subtracted from the print area's offset. The
      offset is within half a pixel of the exact one, and is missing when
      the border width is not a number. */
  function PagePrintArea(scene: MockupScene, env: Env, show: real -> string): (r: PrintAreaMarkup)
    requires scene.devicePixelRatio > 0.0
    ensures r.width == scene.printArea.width && r.height == scene.printArea.height
    ensures r.left.Some? <==> env.parseFloat(scene.wrapper.borderWidth).Some?
    ensures r.top.Some? <==> env.parseFloat(scene.wrapper.borderWidth).Some?
    ensures r.left.Some? ==>
      var exact := scene.printArea.x - scene.wrapper.x - env.parseFloat(scene.wrapper.borderWidth).value / scene.devicePixelRatio;
      exact - 0.5 <= r.left.value < exact + 0.5
    ensures r.top.Some? ==>
      var exact := scene.printArea.y - scene.wrapper.y - env.parseFloat(scene.wrapper.borderWidth).value / scene.devicePixelRatio;
      exact - 0.5 <= r.top.value < exact + 0.5
    ensures r.layout.Some? <==> SlotsEnabled(scene)
  {
    SlotMarkupMatchesCanvas(scene, ContainerBorder(env.parseFloat(scene.wrapper.borderWidth), scene.devicePixelRatio), env, show);
    PrintAreaView(scene, ContainerBorder(env.parseFloat(scene.wrapper.borderWidth), scene.devicePixelRatio), env, show)
  }

  /** The HTML page lays out slots exactly when the canvas draws its slot
      layer. */
  lemma SlotMarkupMatchesCanvas(scene: MockupScene, border: Option<int>, env: Env, show: real -> string)
    ensures PrintAreaView(scene, border, env, show).layout.Some? <==> SlotsEnabled(scene)
  {
  }
}
