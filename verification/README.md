# Mockup compositor core, modelled in Dafny

The service restores a product mockup from an authored scene. A scene has a
product background, an allowed print area inside a container, an optional
slot layout, and three lists of elements (printed images, stickers, texts).
The service either paints the scene onto a canvas at eight times the authored
size or writes it out as an HTML page. This project models four parts of it:

- **The canvas compositor**, as a draw plan. `Compositor.Paint` returns the
  ordered commands the painter issues:
  - the contain-fitted background;
  - the dashed print-area outline;
  - one image per layout slot, inset by 0.8 px on every side;
  - one placement (centre, angle, scale, box) per element, in stable
    `zindex` order.

  A failing slot or element is skipped; only the background is fatal. Image
  references are classified as `blob:` upload, `http(s)://` download or local
  path, and checked by their four-byte signature. Unsupported formats are
  renamed to `_converted.png` and transcoded. Loaded images are cached per
  render under the original reference string. For an outside world that does
  not change during the render, the cache is proved not to change what is
  drawn.

  The canvas library sizes the canvas by converting each side to an unsigned
  32-bit integer. `Compositor.CanvasSize` models that conversion, and the
  background is fitted to the integer-sized canvas.

  Element image references that are not `blob:` URLs get a sticker-domain
  prefix. The configuration object defines no such domain, so as written the
  prefix is the text `undefined` (see "## Findings").
- **The HTML generator's string helpers**: entity escaping, camel-case to
  kebab-case property names, the style-object serialiser, the element root,
  image and main-box styles, the blob-URL mapping, and the print area's
  offset and slot markup.
- **The path helpers** `safePath` and `normalizePath`.
- **The storage-path registry**: save, get and remove per mockup id, and the
  `uploadDir/location/year/MM/DD/HH/mockupId` destination built by
  `createMockupStoragePath`.

JavaScript numbers are `real`, so geometry is exact. Cosine and sine stay
symbolic. Every effect of the outside world is a field of `Images.Env`: the
uploaded files, the file system, the HTTP client, the transcoder, the
decoder, `path.resolve`, the dated blob path, the sticker-domain prefix, the
clock stamp and `parseFloat`.

Modules, one per file:

| file | module |
|---|---|
| wrappers.dfy | `Wrappers` |
| strings.dfy | `Strings` |
| scene.dfy | `Scene` |
| paths.dfy | `Paths` |
| registry.dfy | `StoredFiles` |
| geometry.dfy | `Geometry` |
| images.dfy | `Images` |
| zorder.dfy | `ZOrder` |
| compositor.dfy | `Compositor` |
| html.dfy | `HtmlText` |
| html_styles.dfy | `HtmlStyles` |

Where the code and its written design disagree, the model follows the code:

- The outline is stroked on the print-area rectangle itself, with no inset
  by half the line width.
- The slot loop iterates `layoutSlotsForCanvas`, but the guard tests
  `layout.slotConfigs`.
- The text box is read from `offsetWidth`/`offsetHeight`.

## Model

| member | source | states |
|---|---|---|
| Paths.SafePath | src/utils/helpers.ts:14-20 | Fails exactly when `..` occurs somewhere in the input. Otherwise it keeps the length, turns each `\` into `/`, keeps every other character, and leaves no backslash. |
| Paths.NormalizePathClean | src/utils/helpers.ts:22-24 | The output holds no backslash and no two consecutive slashes. |
| Paths.NormalizePathIdentity | src/utils/helpers.ts:22-24 | A path free of backslashes and doubled slashes is returned unchanged. |
| Paths.NormalizePathIdempotent | src/utils/helpers.ts:22-24 | Normalising twice gives the same as normalising once. |
| Paths.NormalizePathKeepsContent | src/utils/helpers.ts:22-24 | Deleting every `/` and `\` from the input and from the output leaves equal strings. |
| StoredFiles.Get | src/configs/mockup-stored-files-manager.ts:44-47 | Returns the stored destination exactly when the id is registered, and null otherwise. |
| StoredFiles.Save | src/configs/mockup-stored-files-manager.ts:49-51 | Afterwards the id reads back the new destination, and every other id reads what it read before. |
| StoredFiles.Remove | src/configs/mockup-stored-files-manager.ts:53-55 | Afterwards the id reads null, and every other id reads what it read before. |
| StoredFiles.SaveOverwrites | src/configs/mockup-stored-files-manager.ts:49-51 | A second save for the same id replaces the first. |
| StoredFiles.LocationOf | src/configs/mockup-stored-files-manager.ts:15 | A non-empty string query value is the location, and a missing or empty one gives `unknown`. A non-string value (an array or an object) is kept, and has no string location. A string location is never empty. |
| StoredFiles.TwoDigits | src/configs/mockup-stored-files-manager.ts:21-23 | A date part below 100 becomes exactly two decimal digits that read back as the number. |
| StoredFiles.DateSegmentsLayout | src/configs/mockup-stored-files-manager.ts:19-24 | The date part is the year, then the 1-based month, the day and the hour, each as two digits, with `/` between them. |
| StoredFiles.Destination | src/configs/mockup-stored-files-manager.ts:36 | The destination is `uploadDir/location/`, then exactly the date segments, then `/mockupId`. |
| StoredFiles.ValidMockupId | src/configs/mockup-stored-files-manager.ts:29-32 | The id is accepted exactly when it is present, a string and non-empty. |
| StoredFiles.CreateMockupStoragePath | src/configs/mockup-stored-files-manager.ts:13-42 | Fails exactly for a missing, non-string or empty id, or for a non-string location. The id error comes first, and a valid id with a non-string location fails as `path.join` does. Otherwise it returns the destination for the query location, the date and the id, records it for that id, and leaves every other id as it was. |
| Geometry.ViewportOf | src/services/canvas-painter.service.ts:51-56 | Both axis ratios are exactly 8, and the viewport is 8 times the wrapper's width and height, so scaling is uniform. |
| Geometry.ContainIn | src/services/canvas-painter.service.ts:210-226 | The drawn rectangle is non-empty and inside the box. It fills the box on one axis, is centred on both axes, and has the image's aspect ratio. |
| Geometry.UniformScaleCommutesWithRotation | src/services/canvas-painter.service.ts:330-332 | A uniform scale composed with a rotation gives the same matrix in either order. |
| Compositor.CanvasSize | src/services/canvas-painter.service.ts:63 | A canvas side is the requested size truncated toward zero and wrapped modulo 2^32. A non-negative size below 2^32 becomes its integer part. |
| Compositor.BackgroundRect | src/services/canvas-painter.service.ts:205-228 | The background is contain-fitted to the whole canvas, whose sides are the truncated integer sizes the canvas was created with. |
| Compositor.OutlineRect | src/services/canvas-painter.service.ts:458-470 | The outline's edges are the print area's edges, moved into container coordinates and scaled by the axis ratios. |
| Compositor.ParseStyleValue | src/services/canvas-painter.service.ts:632-647 | A number is itself, and undefined or empty is 0. A `px` string is its parse. A `%` string is that share of the base value. Any other string is its parse, with NaN falling back to 0. |
| Compositor.PixelStringRoundTrip | src/services/canvas-painter.service.ts:632-647 | Branch selection: a string ending in `px` takes the `px` branch and yields the parser's value, so a parser that reads the formatter's output back gives the number. |
| Compositor.PercentStringRoundTrip | src/services/canvas-painter.service.ts:632-647 | Branch selection: a string ending in `%` never takes the `px` branch, and yields the parsed share of the base value. |
| Compositor.SlotRect | src/services/canvas-painter.service.ts:256-263 | The slot rectangle is the authored slot, moved into container coordinates, inset by 0.8 on every side, and scaled. |
| Compositor.SlotInsideOutline | src/services/canvas-painter.service.ts:256-263 | With positive ratios, a slot authored inside the print area, at least 1.6 wide and high, is drawn inside the dashed print-area outline. |
| Compositor.SlotDrawRect | src/services/canvas-painter.service.ts:269-290 | An original-frame image is contain-fitted into the slot rectangle. Any other image is drawn on the slot rectangle exactly (stretched). |
| Compositor.FailingSlotIsSkipped | src/services/canvas-painter.service.ts:250-294 | A slot whose image fails leaves no trace: the slot layer is the same as without it. |
| Compositor.DrawSlotsTransparent | src/services/canvas-painter.service.ts:254 | Drawing the slots through a coherent image cache gives the same commands as drawing them without it, and leaves the cache coherent. |
| Compositor.PlaceImage | src/services/canvas-painter.service.ts:320-328 | The box is the element's size, or the natural size when that is absent or 0, scaled. The centre minus half the box is the scaled position. A scale of 0 becomes 1, any other scale is kept, and the angle is kept. |
| Compositor.DrawTextElement | src/services/canvas-painter.service.ts:405-439 | Fails exactly when the measured dimension is missing. Otherwise the box is the measured size scaled and anchored at the scaled position, and the order is scale then rotate. A scale of 0 becomes 1, and the angle is kept. The content is the text's. The font size is `(fontSize or 33)` times the height ratio. The weight falls back to 400, the family to `Arial` and the colour to `#000000`. |
| Compositor.TextPlacedLikeImage | src/services/canvas-painter.service.ts:425-436 | A text with a measured box is placed exactly as an image with that authored size would be, apart from the transform order. |
| Compositor.DrawElementsTransparent | src/services/canvas-painter.service.ts:130-168 | Drawing the elements through a coherent image cache gives the same commands as drawing them without it, and leaves the cache coherent. |
| Compositor.FailingElementIsSkipped | src/services/canvas-painter.service.ts:130-168 | An element whose draw fails leaves no trace: the element layer is the same as without it. |
| Compositor.ElementCommandsOrdered | src/services/canvas-painter.service.ts:126-168 | Drawing a `zindex`-sorted list issues its commands in non-decreasing `zindex` order. |
| Compositor.ElementCommandsComplete | src/services/canvas-painter.service.ts:130-168 | Every element that draws has its command in the layer, and every command of the layer is some element's. |
| Compositor.ElementLayerOfScene | src/services/canvas-painter.service.ts:110-168 | The scene's element layer holds only image and text commands, in `zindex` order, and includes every printed image, sticker and text that draws. |
| Compositor.TransformOrderIrrelevant | src/services/canvas-painter.service.ts:434-436 | Text's translate, scale, rotate yields the same matrix as the images' translate, rotate, scale. |
| Compositor.PivotIsCenter | src/services/canvas-painter.service.ts:330 | The element's transform maps the origin to its centre, so it rotates and scales about the box centre. |
| Compositor.UnrotatedImageAtPosition | src/services/canvas-painter.service.ts:321-340 | Unrotated at scale 1 (or 0), an image's drawn box starts at its scaled authored position. |
| Compositor.Paint | src/services/canvas-painter.service.ts:51-168 | Fails exactly when the background cannot be resolved. Otherwise the viewport is the ×8 viewport, and the commands are the background, then the outline, then the slot layer (only when slots are enabled), then the element layer of the `zindex`-sorted merge. |
| ZOrder.Merge | src/services/canvas-painter.service.ts:110-125 | The merged list holds the printed images, then the stickers, then the texts, each tagged with its kind and in scene order, and nothing else. |
| ZOrder.SortByZindex | src/services/canvas-painter.service.ts:127 | The result is a permutation of the input, sorted by `zindex`. |
| ZOrder.SortIsStable | src/services/canvas-painter.service.ts:127 | For every `zindex`, the elements carrying it keep their input order. |
| ZOrder.DrawOrderOfTies | src/services/canvas-painter.service.ts:110-127 | Among elements with equal `zindex`, the sorted list draws printed images first, then stickers, then texts, each in scene order. |
| ZOrder.StableSortIsUnique | src/services/canvas-painter.service.ts:127 | Any sorted sequence that keeps every `zindex` class in input order equals the result. |
| Images.BlobToken | src/services/canvas-painter.service.ts:186 | The token is the last path segment of the URL without its first character, and holds no `/`. |
| Images.FindUpload | src/services/canvas-painter.service.ts:187 | Returns the first upload whose original name contains the token, and nothing exactly when none does. |
| Images.CanvasStoredURL | src/services/canvas-painter.service.ts:184-193 | A `blob:` URL with a matching upload becomes that upload's dated path, and one without a match is kept. A non-blob URL gets the sticker domain prefix when the sticker flag is set, and is kept otherwise. |
| Images.UndefinedDomainMakesElementsLocal | src/services/canvas-painter.service.ts:189-190 | With the prefix the code applies (`undefined`), every non-blob element reference becomes `undefined` plus the reference, and is looked up as a local path. |
| Images.ConfiguredDomainFetchesElements | src/services/canvas-painter.service.ts:189-190 | With an `http(s)` sticker domain, a non-blob element reference is a download of the domain plus the reference, and is located exactly when that download is accepted. |
| Images.Classify | src/services/canvas-painter.service.ts:520-542 | `blob:` means an upload, else `http://` or `https://` means a download, and anything else is a local path. |
| Images.AcceptDownload | src/services/canvas-painter.service.ts:569-590 | A download is accepted exactly when the request succeeded, the content type starts with `image/`, and the body has at least 4 bytes. |
| Images.Locate | src/services/canvas-painter.service.ts:519-547 | An unmatched blob fails, and a matched one reads the upload's path. A download succeeds exactly when it is accepted, and then reads the temporary file. A local path reads the resolved path. |
| Images.AcceptedDownloadHasFullSignature | src/services/canvas-painter.service.ts:587-592 | An accepted download always has the full four-byte signature that the format test reads. |
| Images.LocateMatchesSource | src/services/canvas-painter.service.ts:519-547 | Locating succeeds exactly when the reference has source bytes (the upload's file, the accepted body or the local file), and then yields them. |
| Images.ResolveFromSource | src/services/canvas-painter.service.ts:512-558 | A reference without source bytes fails before conversion. Bytes without a conversion signature resolve to the decoder's result on them. A converted reference resolves only to the decoding of the transcoder's output. |
| Images.NeedsConversionBySignature | src/services/canvas-painter.service.ts:604-617 | Conversion is needed exactly when the first four bytes are `52 49 46 46`, `00 00 00 1x`, `3c 3f 78 6d` or `3c 73 76 67`. |
| Images.DirectFormatsAreKept | src/services/canvas-painter.service.ts:613-617 | PNG, JPEG and GIF signatures never need conversion. |
| Images.ConvertedName | src/services/canvas-painter.service.ts:621 | The name is unchanged exactly when there is no dot followed by a non-dot tail. Otherwise the last dot and its tail become `_converted.png`. |
| Images.ConvertToSupported | src/services/canvas-painter.service.ts:601-627 | Supported bytes are used as they are. Unsupported ones are the transcoder's output. The conversion fails when the converted name equals the input name or the transcoder fails. |
| Images.LoadImage | src/services/canvas-painter.service.ts:512-558 | A cached reference returns the cached image and leaves the cache unchanged. Otherwise the reference is resolved, a success is cached under the original string, and a failure is not cached. |
| Images.LoadImageTransparent | src/services/canvas-painter.service.ts:512-558 | From a coherent cache, loading gives what uncached resolution gives, and the cache stays coherent. |
| Images.SecondLoadIsCacheHit | src/services/canvas-painter.service.ts:513-515 | After a successful load, loading the same reference again returns the same image and changes nothing. |
| HtmlText.EscapeHtml | src/services/html-generator.service.ts:548-557 | The output is at least as long as the input and contains no `<`, `>`, `"` or `'`. |
| HtmlText.EscapeAmpersands | src/services/html-generator.service.ts:548-557 | Every `&` in the output begins one of the five entities. |
| HtmlText.EscapeRoundTrip | src/services/html-generator.service.ts:548-557 | Decoding the five entities gives back the input. |
| HtmlText.EscapeIdentity | src/services/html-generator.service.ts:548-557 | Text without any of `& < > " '` is unchanged. |
| HtmlText.CamelToKebab | src/services/html-generator.service.ts:539-541 | The output has no ASCII capital, and its length is the input's plus the number of capitals. |
| HtmlText.KebabIdentity | src/services/html-generator.service.ts:539-541 | A name without capitals is unchanged. |
| HtmlText.KebabRoundTrip | src/services/html-generator.service.ts:539-541 | For a name without hyphens, converting `-x` back to `X` restores the name. |
| HtmlText.DeclarationsCount | src/services/html-generator.service.ts:524-529 | There is one declaration per truthy entry, so undefined, empty and 0 values are dropped. |
| HtmlText.DeclarationsOfTruthy | src/services/html-generator.service.ts:524-529 | When every entry is truthy, declaration `i` is `kebab(key_i): value_i`, in entry order. |
| HtmlText.StyleObjectToString | src/services/html-generator.service.ts:522-532 | The separator-on-non-empty loop produces the truthy entries' declarations joined by `; `, which is empty when no entry is truthy. |
| HtmlStyles.Transforms | src/services/html-generator.service.ts:405-408 | No transform exactly when the scale is 0 or 1 and the angle is 0. A scale comes first, and a rotation in degrees comes last. |
| HtmlStyles.RootStyleKeys | src/services/html-generator.service.ts:390-408 | `z-index` exactly when non-zero. `width` exactly when set, with `auto` for text. `height` exactly when set. `transform` exactly when a scale or a rotation is needed. |
| HtmlStyles.RootStyleDeclarations | src/services/html-generator.service.ts:410 | Every root-style entry becomes a declaration. |
| HtmlStyles.RootElementBaseStyle | src/services/html-generator.service.ts:390-413 | The style string starts with `left: Xpx; top: Ypx`. It is exactly the declarations `left`, `top`, then `z-index` when non-zero, `width` when set (`auto` for text), `height` when set, and `transform` when a scale or rotation is needed, joined by `; `. |
| HtmlStyles.RootStyleDeclarationList | src/services/html-generator.service.ts:390-410 | Serialising the root entries gives exactly that written-out declaration list. |
| HtmlStyles.DisplayImageStyle | src/services/html-generator.service.ts:415-421 | Non-empty exactly for a positive grayscale, and then it reads `filter: grayscale(N%)`. |
| HtmlStyles.MainBoxStyle | src/services/html-generator.service.ts:423-431 | Non-empty exactly for a non-empty clip path, and then it reads `clip-path: ` followed by the path. |
| HtmlStyles.JsRound | src/services/html-generator.service.ts:57-59 | The rounded value is within half a unit of its argument, with halves rounding up. |
| HtmlStyles.ContainerBorder | src/services/html-generator.service.ts:53-59 | The border is present exactly when the parsed width is a number, and then it is the width over the device pixel ratio, rounded. |
| HtmlStyles.HtmlStoredURL | src/services/html-generator.service.ts:161-168 | It equals the compositor's mapping without the sticker prefix, so non-blob URLs and unmatched blob URLs are returned unchanged. |
| HtmlStyles.ObjectFit | src/services/html-generator.service.ts:360 | `contain` exactly for an original-frame image, and `cover` otherwise. |
| HtmlStyles.SlotView | src/services/html-generator.service.ts:355-371 | A slot has an image exactly when it has a placed image, whose source is the escaped stored URL and whose fit is the object fit. |
| HtmlStyles.LayoutView | src/services/html-generator.service.ts:351-385 | No markup for an empty slot list. Otherwise there is one slot box per configured slot, in order. |
| HtmlStyles.PrintAreaView | src/services/html-generator.service.ts:321-346 | The size is the print area's. Left plus the wrapper's x plus the rounded border is the print area's x, and the same holds for top. |
| HtmlStyles.PagePrintArea | src/services/html-generator.service.ts:53-108 | The page's print area has the authored size. Its offset exists exactly when the border width parses, and is then within half a pixel of the exact offset minus the border over the pixel ratio. It lays out slots exactly when the canvas draws them. |
| HtmlStyles.SlotMarkupMatchesCanvas | src/services/html-generator.service.ts:343 | The page lays out slots exactly when the canvas draws its slot layer. |

## Findings

| source | as written | input that shows it | evidently intended | confidence | as-written member | corrected member |
|---|---|---|---|---|---|---|
| src/services/canvas-painter.service.ts:189-190 | The prefix is `domains.fetchStickerDomain`, but the `domains` object (src/configs/contants.ts:1-4) has only `serverDomain` and `publicAssetsEndpoint`. The template literal therefore inserts `undefined`. | A printed image or sticker with path `https://cdn.example/a.png` becomes `undefinedhttps://cdn.example/a.png`. That is classified as a local path, not a download. | A configured sticker domain. With an `http(s)` domain, the reference is downloaded from it. | high that the property is missing; not executed | Images.UndefinedDomainMakesElementsLocal | Images.ConfiguredDomainFetchesElements |

The rest of the model keeps the prefix as the field `Images.Env.stickerDomain`, so it describes the intended behaviour. The as-written behaviour is the case `stickerDomain == "undefined"`. Whether such a local file exists is left to the environment. When it does not, the element fails and is skipped.

## Left out

- Pixel output, the canvas API and the PNG export (`exportCanvas`, sharp encoding) are out of scope. The render ends at the draw plan.
- Decoding, transcoding, HTTP, `path.resolve`, the dated blob path (`generateFullBlobFilePathByDate`, which is not part of this model) and the sticker-domain prefix are not modelled. Each is an uninterpreted field of `Images.Env`.
- The temporary-file write and read-back of a download are collapsed: the downloaded bytes are used directly, under the temporary file's name.
- Trigonometry is not modelled: cosine and sine are parameters of the matrix lemmas, and angles stay in degrees.
- IEEE-754 arithmetic (NaN, infinities, rounding) is not modelled; numbers are exact reals. The one exception is the slot aspect comparison with a zero height, which follows IEEE division.
- Number-to-string conversion is a parameter `show`, standing for JavaScript's number formatting.
- JSON parsing of `main_data` is not modelled: the parsed `mockupId` field is an input, and a JSON syntax error is not modelled.
- `mkdir` and the clock are not modelled. The date parts are inputs.
- `generateCSS`, `generateScript`, the page templates and the text style of the HTML page are out of scope. They are text blobs and browser code.
- Style objects are entry lists in JavaScript insertion order. Integer-like keys, which JavaScript would enumerate first, are not modelled.
- Console logging is left out.
- Compositor.Paint: requires a positive wrapper width and height. The source divides by both and would otherwise produce infinities or NaN.
- Geometry.ViewportOf: requires a positive wrapper width and height, for the same reason.
- HtmlStyles.ContainerBorder: requires a positive device pixel ratio. A NaN border width is `None`.
- HtmlStyles.RootStyleDeclarations: requires a number formatter that never returns the empty string, as JavaScript's never does.
- HtmlStyles.RootElementBaseStyle: gives the exact declaration list only for a formatter that never returns the empty string. With other formatters only the prefix is promised.
- HtmlStyles.PagePrintArea: requires a positive device pixel ratio, as `ContainerBorder` does.
- Compositor.SlotInsideOutline: requires positive axis ratios and slots at least twice the inset wide and high. Smaller slots have an inverted rectangle.
- StoredFiles.Destination: joins the parts with `/` and does not model `path.join`'s normalisation of `.`, `..` or doubled separators inside the parts.
- StoredFiles.DateSegmentsLayout: requires month index, day and hour to lie in clock ranges.
- HtmlText.KebabRoundTrip: holds only for names without `-`. With a hyphen, the reverse mapping is ambiguous.
