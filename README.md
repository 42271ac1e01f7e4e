# Mobile app icon generator — verified model

This project models the logic of the `IconGenerator` React component of a
mobile-app icon generator. The user drops one image. The component then:

- renders it at every size of a fixed iOS size table, followed by an Android
  adaptive icon (1024 px) and a splash icon (200 px);
- reports progress as it goes;
- lets the user download each icon under a sanitised file name, or all of
  them together as `app-icons.zip`.

The model is split into these modules:

- `Numbers`: the decimal text of the sizes and scales that appear in icon
  names. `${83.5}` is "83.5", and sizes are kept in half points so that
  83.5 is exact.
- `Catalog`: the size table. It is walked row by row and, within a row,
  scale by scale. Each step gets a pixel size, `Math.round(size * scale)`,
  and a display name, `<name> <size>x<size>@<scale>x`.
- `Pipeline`: the icons a run keeps as a function of the renderer (an empty
  render is skipped), and the progress values reported after each table
  step.
- `FileNames`: `name.replace(/[^a-zA-Z0-9]/g, '-').toLowerCase()`.
- `DataUrl`: `dataURLtoBlob`. It covers `split(',')`, the regular expression
  `/:(.*?);/` (leftmost match, lazy group, `.` not matching line terminators),
  the `while (n--)` loop that fills a `Uint8Array` over a real array, and the
  `Blob` constructor's treatment of its `type` option (section 3.1 of the W3C
  File API: a type with a character outside U+0020-U+007E becomes "", any
  other is lower-cased in ASCII).
- `Archive`: the entries of the ZIP folder. Each icon is stored at
  `app-icons/<sanitised name>.png`, and a later entry at the same path
  replaces an earlier one.
- `IconGenerator`: the component as a class.
  - Its fields are the React state: source image, flags, progress, icon
    list, toasts shown, and downloads requested.
  - A `Canvas` object stands for the hidden canvas, whose width and height
    the resizer sets.
  - Each handler is a method that updates the state in the order the
    handler does.

The browser and library calls are parameters of the model:

- `render: nat -> string` stands for drawing the image on a canvas of that
  size and calling `toDataURL`. An empty result means no 2d context.
- `decodeOk: bool` says whether the source image loads.
- `atob: string -> Option<string>` is base64 decoding, where `None` means it
  throws.
- `packOk: bool` says whether `generateAsync` succeeds.
- `file: Option<string>` is the data URL the file reader produced.

`onDrop` only replaces the source image and shows a toast; the icons of an
earlier run stay until the next run replaces them.

## Model

| member | source | states |
|---|---|---|
| Numbers.ParseNatToString | src/components/IconGenerator.tsx:117 | the decimal text printed for a scale reads back as that scale |
| Numbers.NatToStringInjective | src/components/IconGenerator.tsx:117 | two scales print the same text exactly when they are equal |
| Numbers.NatToString | src/components/IconGenerator.tsx:117 | a printed number is non-empty, all digits, and has no leading zero unless it is 0 |
| Numbers.HalfText | src/components/IconGenerator.tsx:117 | a printed size consists of digits and '.', and contains '.' exactly when the size is fractional (83.5) |
| Numbers.HalfTextInjective | src/components/IconGenerator.tsx:117 | two sizes print the same text exactly when they are equal |
| Catalog.PixelSize | src/components/IconGenerator.tsx:116 | `Math.round(size * scale)` lies within one half of the exact product, and is at least 1 for a positive size and scale |
| Catalog.EntrySteps | src/components/IconGenerator.tsx:115-117 | a row yields one step per listed scale |
| Catalog.EntryStepsPrefix | src/components/IconGenerator.tsx:115-117 | the row's steps after scale j are those before it plus the step named and sized for scale j |
| Catalog.EntryStepsListed | src/components/IconGenerator.tsx:115-117 | unfolding lemma: a row with one to three scales yields exactly those steps, in listed order |
| Catalog.Steps | src/components/IconGenerator.tsx:112-115 | the nested loops make exactly `total` steps, where `total` is the `reduce` over the table |
| Catalog.TotalZero | src/components/IconGenerator.tsx:112 | the `reduce` gives 0 exactly when no row lists a scale |
| Catalog.IconNameParts | src/components/IconGenerator.tsx:117 | a step's name starts with the row's name and a space, and ends with '@', the scale's digits and 'x' |
| Catalog.IconNameScale | src/components/IconGenerator.tsx:117 | the digits between the final '@' and 'x' of a step's name read back as its scale |
| Catalog.StepsAppend | src/components/IconGenerator.tsx:114-115 | walking two tables one after the other gives the first table's steps followed by the second's |
| Catalog.StepsSnoc | src/components/IconGenerator.tsx:112-115 | one more row adds its steps at the end and its scale count to `total` |
| Catalog.StepsPositive | src/components/IconGenerator.tsx:116 | every pixel size of a table with positive sizes and scales is a positive integer |
| Catalog.IosSizesShape | src/components/IconGenerator.tsx:27-35 | every row of the table has a positive size and positive scales, and `total` is 15 |
| Catalog.NotificationRowListed | src/components/IconGenerator.tsx:28 | the notification row gives "Notification icon 20x20@1x/2x/3x" at 20, 40 and 60 px |
| Catalog.SettingsRowListed | src/components/IconGenerator.tsx:29 | the settings row gives "Settings icon 29x29@1x/2x/3x" at 29, 58 and 87 px |
| Catalog.SpotlightRowListed | src/components/IconGenerator.tsx:30 | the spotlight row gives "Spotlight icon 40x40@1x/2x/3x" at 40, 80 and 120 px |
| Catalog.AppRowListed | src/components/IconGenerator.tsx:31 | the app row gives "App icon 60x60@2x/3x" at 120 and 180 px |
| Catalog.IpadRowListed | src/components/IconGenerator.tsx:32 | the iPad row gives "iPad App icon 76x76@1x/2x" at 76 and 152 px |
| Catalog.IpadProRowListed | src/components/IconGenerator.tsx:33 | the iPad Pro row gives "iPad Pro App icon 83.5x83.5@2x" at 167 px |
| Catalog.AppStoreRowListed | src/components/IconGenerator.tsx:34 | the App Store row gives "App Store icon 1024x1024@1x" at 1024 px |
| Catalog.TableStepsRows | src/components/IconGenerator.tsx:114-115 | the table's steps are its seven rows' steps, row after row |
| Catalog.TableStepsListed | src/components/IconGenerator.tsx:27-35 | the 15 table steps, each with its name and pixel size, in table order |
| Catalog.RunStepsListed | src/components/IconGenerator.tsx:114-139 | a run's 17 render requests: the 15 table steps, then the 1024 px adaptive icon, then the 200 px splash icon |
| Pipeline.KeptSnoc | src/components/IconGenerator.tsx:119-122 | unfolding lemma: a step adds its icon at the end exactly when its render is non-empty, and otherwise adds nothing |
| Pipeline.Kept | src/components/IconGenerator.tsx:119-122 | there are never more icons than steps |
| Pipeline.KeptAppend | src/components/IconGenerator.tsx:119-139 | skipping empty renders distributes over consecutive parts of a run |
| Pipeline.KeptMember | src/components/IconGenerator.tsx:119-122 | an icon is in the list exactly when some step has its name and renders, non-empty, to its URL |
| Pipeline.KeptLength | src/components/IconGenerator.tsx:119-122 | there are at most as many icons as steps, and exactly as many exactly when no render is empty |
| Pipeline.KeptAll | src/components/IconGenerator.tsx:119-122 | when no render is empty, icon k has step k's name and that step's render |
| Pipeline.GeneratedShape | src/components/IconGenerator.tsx:114-141 | a run's icons are the table icons, then the adaptive icon, then the splash icon, each only if non-empty; there are at most 17, and exactly 17 exactly when no render is empty |
| Pipeline.Generated | src/components/IconGenerator.tsx:114-141 | a run keeps at most 17 icons |
| Pipeline.KeptOrder | src/components/IconGenerator.tsx:119-122 | icons i < j are, in full, the name and rendered URL of steps a < b: icons keep the order of the steps |
| Pipeline.KeptNames | src/components/IconGenerator.tsx:121 | each icon is, in full, one step's name with that step's rendered URL |
| Pipeline.ProgressAfter | src/components/IconGenerator.tsx:125 | the percentage is never negative, is at most 100 while `completed` is at most `total`, and is exactly 100 when they are equal |
| Pipeline.ProgressTrace | src/components/IconGenerator.tsx:124-125 | one reported value per completed step |
| Pipeline.ProgressIncreasing | src/components/IconGenerator.tsx:125 | more completed steps show a strictly larger percentage |
| Pipeline.ProgressTraceAt | src/components/IconGenerator.tsx:124-125 | the k-th reported value is `(k + 1) / total * 100` |
| Pipeline.ProgressBounds | src/components/IconGenerator.tsx:125 | after between 1 and `total` steps the percentage is in (0, 100], and it is 100 after all of them |
| Pipeline.ProgressTraceIncreasing | src/components/IconGenerator.tsx:111-127 | over a run the reported values strictly increase |
| Pipeline.ProgressTraceRange | src/components/IconGenerator.tsx:111-127 | over a run every reported value is in (0, 100], and the last one is exactly 100 |
| FileNames.SanitizeChar | src/components/IconGenerator.tsx:176 | a sanitised character is in [a-z0-9-], and it is '-' exactly when the input is not an ASCII letter or digit |
| FileNames.ReplaceNonAlnum | src/components/IconGenerator.tsx:176 | the global replace keeps the length, keeps letters and digits, and turns every other character into one '-' |
| FileNames.LowerCase | src/components/IconGenerator.tsx:176 | lower-casing keeps the length, and at each position a capital A-Z becomes its small letter while every other character is kept |
| FileNames.Sanitize | src/components/IconGenerator.tsx:176 | a sanitised name is exactly as long as the name |
| FileNames.SanitizeAt | src/components/IconGenerator.tsx:176 | sanitising keeps the length, with no merging of runs, and works character by character |
| FileNames.SanitizeAlphabet | src/components/IconGenerator.tsx:176 | every character of a sanitised name is in [a-z0-9-] |
| FileNames.SanitizeFixes | src/components/IconGenerator.tsx:207 | a name over [a-z0-9-] is left unchanged |
| FileNames.SanitizeIdempotent | src/components/IconGenerator.tsx:207 | sanitising twice is the same as sanitising once |
| FileNames.SanitizeConcat | src/components/IconGenerator.tsx:176 | sanitising distributes over concatenation |
| FileNames.SanitizeExampleWords | src/components/IconGenerator.tsx:356 | "iPad Pro" becomes "ipad-pro" |
| FileNames.SanitizeExampleSize | src/components/IconGenerator.tsx:356 | "83.5@2x" becomes "83-5-2x" |
| FileNames.SanitizeExampleName | src/components/IconGenerator.tsx:356 | the per-icon button saves "iPad Pro App icon 83.5x83.5@2x" as "ipad-pro-app-icon-83-5x83-5-2x" |
| FileNames.SanitizeNotInjective | src/components/IconGenerator.tsx:207 | different names can collide: "App icon" and "app-icon" sanitise alike |
| FileNames.SanitizedApart | src/components/IconGenerator.tsx:207 | names of different lengths, or with a position that sanitises differently, stay different |
| DataUrl.Split | src/components/IconGenerator.tsx:182 | `split(',')` gives at least one piece, and no piece contains ',' |
| DataUrl.JoinSplit | src/components/IconGenerator.tsx:182 | joining the pieces with ',' gives back the URL |
| DataUrl.SplitPiece | src/components/IconGenerator.tsx:182 | a comma-free prefix followed by ',' splits off as the first piece |
| DataUrl.SplitJoin | src/components/IconGenerator.tsx:182 | splitting comma-free pieces joined with ',' gives back the pieces |
| DataUrl.SplitLayout | src/components/IconGenerator.tsx:182 | there is one piece exactly when there is no ','; otherwise the first piece runs up to the first ',' and the second from there to the next ',' or the end |
| DataUrl.HeaderLayout | src/components/IconGenerator.tsx:182-183 | `arr[0]` is the URL up to its first ',', or all of it when it has none |
| DataUrl.PayloadLayout | src/components/IconGenerator.tsx:182-184 | `arr[1]` is the text after the first ',' up to the next one or the end; with no ',' it is the text "undefined" |
| DataUrl.LazyGroup | src/components/IconGenerator.tsx:183 | a captured group is followed by ';' and contains none |
| DataUrl.LazyGroupMeaning | src/components/IconGenerator.tsx:183 | the lazy group is the text before the first ';', with no line terminator in it; there is none when no ';' closes it |
| DataUrl.LazyGroupOf | src/components/IconGenerator.tsx:183 | text free of ';' and line terminators, followed by ';', is captured whole |
| DataUrl.FirstMatch | src/components/IconGenerator.tsx:183 | a match position found from `from` lies between `from` and the end of the header |
| DataUrl.FirstMatchMeaning | src/components/IconGenerator.tsx:183 | the position found matches, and no earlier position does |
| DataUrl.MimeMatch | src/components/IconGenerator.tsx:183 | a MIME type read from the header contains no ';' and is at least two characters shorter than the header |
| DataUrl.MimeMatchLeftmost | src/components/IconGenerator.tsx:183 | there is a match exactly when some ':' is followed by a closing ';'; the MIME type is the group of the leftmost such ':' |
| DataUrl.HeaderMime | src/components/IconGenerator.tsx:183 | a header `data:<m>;base64` gives the MIME type m |
| DataUrl.BytesRoundTrip | src/components/IconGenerator.tsx:184-190 | copying a binary string gives back the bytes it was made from |
| DataUrl.BinaryStringRoundTrip | src/components/IconGenerator.tsx:184-190 | a string of code units below 256 survives the trip through bytes |
| DataUrl.BlobType | src/components/IconGenerator.tsx:192 | the type a blob keeps is either "" or as long as the given type, and holds only printable ASCII with no capital letter |
| DataUrl.BlobTypeMeaning | src/components/IconGenerator.tsx:192 | a type with a character outside U+0020-U+007E is dropped; a printable one is lower-cased position by position |
| DataUrl.BlobTypeFixes | src/components/IconGenerator.tsx:192 | a printable type with no capital letter, such as "image/png", is kept as it is |
| DataUrl.BlobTypeIdempotent | src/components/IconGenerator.tsx:192 | normalising a type twice is normalising it once |
| DataUrl.BlobTypeCaseInsensitive | src/components/IconGenerator.tsx:192 | printable types that differ only in letter case give the same blob type |
| DataUrl.BlobOf | src/components/IconGenerator.tsx:181-193 | the conversion succeeds exactly when the header matches and the payload decodes, and then has one byte per decoded character |
| DataUrl.BlobOfMeaning | src/components/IconGenerator.tsx:181-193 | the conversion throws exactly when the header has no `:...;` match, or when the payload does not decode; otherwise the blob has the type the `Blob` constructor makes of the leftmost match's group, and the decoded bytes |
| DataUrl.CopyCodeUnits | src/components/IconGenerator.tsx:185-190 | the `while (n--)` loop leaves an array as long as the decoded string, with `u8arr[i]` equal to code unit i modulo 256 |
| DataUrl.DataUrlToBlob | src/components/IconGenerator.tsx:181-193 | `dataURLtoBlob` returns the blob, or the error, that the conversion specifies |
| DataUrl.CanvasBlob | src/components/IconGenerator.tsx:181-193 | a URL `data:<m>;base64,<payload>` as the canvas produces it, with m lower-case and free of ';' and ',', gives a blob of type m holding the decoded payload |
| Archive.EntryPath | src/components/IconGenerator.tsx:207-209 | an entry path is `app-icons/`, a file part over [a-z0-9-] as long as the name, and `.png` |
| Archive.EntryPathInjective | src/components/IconGenerator.tsx:207-209 | two icons share an entry path exactly when their names sanitise alike |
| Archive.ArchiveOf | src/components/IconGenerator.tsx:206-210 | a built folder has at most one entry per icon |
| Archive.AddIcons | src/components/IconGenerator.tsx:206-210 | the `forEach` builds exactly the entry map `ArchiveOf` gives, or stops with the first conversion error |
| Archive.ArchiveErrSticks | src/components/IconGenerator.tsx:206-210 | once one icon fails to convert, the whole archive step fails with that error |
| Archive.ArchiveOkSnoc | src/components/IconGenerator.tsx:206-210 | unfolding lemma: a built folder comes from a built folder of the earlier icons and a converted last icon |
| Archive.ArchiveOkConverts | src/components/IconGenerator.tsx:206-210 | when the folder is built, every icon's URL converted |
| Archive.ArchiveErrFails | src/components/IconGenerator.tsx:206-210 | when the folder is not built, some icon's URL did not convert |
| Archive.ArchiveSucceeds | src/components/IconGenerator.tsx:206-210 | the folder is filled exactly when every icon's URL converts |
| Archive.EntryPathsMember | src/components/IconGenerator.tsx:209 | a path belongs to the icons exactly when some icon has it |
| Archive.ArchiveKeys | src/components/IconGenerator.tsx:206-210 | the folder's entries are exactly the icons' paths |
| Archive.ArchiveLastWins | src/components/IconGenerator.tsx:209 | an icon whose path no later icon shares has its own blob at its path |
| Archive.EntryPathsCount | src/components/IconGenerator.tsx:207-209 | icons with distinct sanitised names have as many paths as icons |
| Archive.ArchiveCount | src/components/IconGenerator.tsx:206-210 | with distinct sanitised names there is one entry per icon |
| Archive.SignatureSeparates | src/components/IconGenerator.tsx:207 | names that differ in length, first character or scale digit sanitise differently |
| Archive.FirstSignatures | src/components/IconGenerator.tsx:27-31 | the lengths, first characters and scale digits of the first nine run names |
| Archive.LastSignatures | src/components/IconGenerator.tsx:114-139 | the lengths, first characters and scale digits of the last eight run names |
| Archive.RunNamesDistinct | src/components/IconGenerator.tsx:207 | the 17 names of a run sanitise to 17 different file names |
| Archive.GeneratedDistinct | src/components/IconGenerator.tsx:207 | whichever renders are empty, a run's icons have pairwise different sanitised names |
| Archive.GeneratedArchive | src/components/IconGenerator.tsx:202-210 | when every icon of a run converts, the archive has one entry per icon, and each icon's blob is at its own path |
| IconGenerator.RenderSizesSnoc | src/components/IconGenerator.tsx:80-81 | unfolding lemma: one more render sets the canvas to that step's size after the earlier ones |
| IconGenerator.GeneratedDownloadsDistinct | src/components/IconGenerator.tsx:174-179 | "Download All" after a run asks for one file per icon, under pairwise different file names |
| IconGenerator.Canvas.constructor | src/components/IconGenerator.tsx:368 | a fresh canvas is 300 by 150 and has not been resized |
| IconGenerator.IconGenerator.constructor | src/components/IconGenerator.tsx:38-44 | the component mounts idle, with no image, no icons, no toasts and no downloads |
| IconGenerator.IconGenerator.LoadImage | src/components/IconGenerator.tsx:46-62 | a dropped file's data URL becomes the source image and shows a toast; with no file nothing changes; earlier icons are kept |
| IconGenerator.IconGenerator.ResizeImage | src/components/IconGenerator.tsx:72-92 | without a canvas the result is empty; otherwise the canvas is set to size by size and the result is the render at that size |
| IconGenerator.IconGenerator.RenderStep | src/components/IconGenerator.tsx:116-125 | one step renders, keeps its icon when non-empty, counts itself and reports `completed / total * 100` |
| IconGenerator.IconGenerator.RenderRow | src/components/IconGenerator.tsx:115-126 | the inner loop renders one row's steps in scale order, with the matching progress values and canvas sizes |
| IconGenerator.IconGenerator.RenderTable | src/components/IconGenerator.tsx:110-127 | the nested loops keep the table's non-empty icons in order, report the 15 progress values, and set the canvas to each table size |
| IconGenerator.IconGenerator.RenderFixed | src/components/IconGenerator.tsx:129-139 | the adaptive icon and then the splash icon are rendered and kept when non-empty, leaving the canvas at 200 by 200 |
| IconGenerator.IconGenerator.RenderRun | src/components/IconGenerator.tsx:110-139 | a decoded image yields exactly the run's icons, the 15 progress values, and all 17 canvas sizes in order |
| IconGenerator.IconGenerator.GenerateIcons | src/components/IconGenerator.tsx:94-163 | without a non-empty image or a canvas nothing changes; otherwise the icons become the run's icons, or none when the image fails to load; progress goes 0, then (k/15)·100 after step k = 1 … 15, then back to 0; the matching toast is shown; the flag ends cleared |
| IconGenerator.IconGenerator.DownloadIcon | src/components/IconGenerator.tsx:165-172 | one download of the URL named `<filename>.png` is requested, and nothing else changes |
| IconGenerator.IconGenerator.DownloadOne | src/components/IconGenerator.tsx:356 | the per-icon button downloads that icon under its sanitised name |
| IconGenerator.IconGenerator.DownloadAllIcons | src/components/IconGenerator.tsx:174-179 | one download per icon, in list order, each under its sanitised name |
| IconGenerator.IconGenerator.DownloadAsZip | src/components/IconGenerator.tsx:195-238 | with no icons nothing changes; otherwise `app-icons.zip` with the specified entries is saved when every URL converts and packing succeeds, or a failure toast is shown; the busy flag ends cleared |

## Left out

- React itself is not modelled: hooks, re-rendering, JSX layout, Chakra UI components, the text and duration of the toasts, and `console.error`. A toast is recorded only by the event it reports.
- Intermediate UI states are not observable in the model. `isGenerating` and `isDownloading` are set and then cleared within one method, because the awaits run in sequence and are flattened.
- File intake is left out: `react-dropzone`, its accept filter, `maxFiles`, and `FileReader`. The data URL read from the first file is a parameter.
- Image decoding (`img.onload` / `onerror`) is the `decodeOk` parameter.
- Canvas pixel work is the `render` parameter: `getContext`, `clearRect`, `drawImage` and `toDataURL`.
- `atob` is a parameter. Base64 itself (section 4 of RFC 4648) is not re-specified.
- JSZip is not modelled beyond its effect. Compression, the folder entry itself, and the archive's bytes are absent. `zip.folder` is taken never to return null, and `generateAsync` success is the `packOk` parameter.
- Saving is recorded only as a requested download: `saveAs` and the anchor element that `downloadIcon` creates, clicks and removes are not modelled.
- Floating point is not modelled. Sizes are exact half points, `Math.round` is exact, and progress is an exact `real`, not an IEEE-754 double.
- Characters are Unicode scalar values, not UTF-16 code units. A character outside the Basic Multilingual Plane therefore becomes one '-' rather than two. Icon names are ASCII, so this does not affect them.
- FileNames.LowerChar: lower-cases only A-Z. This is enough for file names because it is applied after every non-alphanumeric character has become '-', so only ASCII letters remain to lower-case; for a blob's type, ASCII lowercase is all the `Blob` constructor applies.
- src/App.tsx is not part of this model. It only wraps the component in a UI provider.
