# Resize-Image in Dafny

A verified model of the logic inside the Resize-Image wizard: a React app with
four steps (upload, resize and edit, "background removal", save) that share
one reducer-driven session, together with its Tkinter desktop variant
`image_resizer.py`. Images and data URLs are opaque values that carry only
their size and, for encodings, their MIME type. The exception is the
background mask, which works on a concrete RGBA byte buffer.

One module per source file:

- `ImageContext` (`image_context.dfy`): the session record, `imageReducer` as
  the function `Reduce`, and a `Store` class whose `Dispatch` applies it and
  logs each action.
- `BackgroundRemover` (`background_remover.dfy`): the in-place threshold
  pass over an `array` of bytes, proved equal to the function `Masked`; the
  quality table; and a `Remover` class for the component's state. That class
  counts interval ticks for every live run, runs the pass on the tenth tick
  and gates "Continue".
- `ImageEditor` (`image_editor.dfy`): the aspect-ratio table and lock, the
  dimension-field validator built on `parseInt`, the presets, and an `Editor`
  class. Its handlers are followed by the React effects that the changed
  dependencies trigger.
- `SaveOptions` (`save_options.dfy`): export-source priority, the two format
  switches, file names, the ordered all-formats emission built by a loop, and
  the file-size estimate.
- `App` (`app.dfy`): step transitions, progress-indicator classes, and a
  `Wizard` class holding `currentStep`.
- `ImageUpload` (`image_upload.dfy`): the ordered drop checks and an
  `Uploader` class for the error state and the dispatch.
- `ImageResizer` (`image_resizer.dfy`): the `ImageResizerApp` fields and
  handlers, `os.path.basename`/`splitext`, the default save name and the
  JPEG branch.

Shared helpers:

- `Media`: `Option`, dimensions, image elements, and the `naturalWidth || width`
  fallback.
- `JsArray`: `Array.prototype.find` and `findIndex` over a predicate.
- `Rounding`: `Math.round` of an exact quotient, rounding half up.
- `Text`: prefix and suffix tests, and JavaScript's `parseInt` on the strings a
  number field yields.

Where the code is easy to misread, the model follows it as written:

- Changing the removal quality does not cancel the running interval, so
  several runs can be live at once (`Remover.runs`). The comment "Re-process
  with new quality" at src/components/BackgroundRemover.jsx:108 suggests
  otherwise, but the new run still uses the quality from before the change,
  because `simulateBackgroundRemoval` reads the value its closure captured
  before the state update.
- A preset button (src/components/ImageEditor.jsx:210-233) sets both
  dimensions, but the lock effect at src/components/ImageEditor.jsx:36-44
  then recomputes the height whenever the width changed and the lock is on.
- The ratio buttons (src/components/ImageEditor.jsx:81-91) recompute the
  height even when the "Maintain" checkbox is off.
- `downloadAllFormats` asks for the MIME type `image/gpif` for gif
  (src/components/SaveOptions.jsx:138), where `downloadImage` asks for
  `image/gif` (src/components/SaveOptions.jsx:74).
- With only the uploaded original in the session, the save step downloads
  nothing: the original is an image element, and `img.src` needs a URL
  (src/components/SaveOptions.jsx:93, 160).

## Model

| member | source | states |
|---|---|---|
| Media.NaturalDimensions | src/context/ImageContext.jsx:23-30 | each dimension is the natural one unless that is 0, and then the plain one |
| JsArray.Find | src/components/ImageEditor.jsx:38 | a found element is in the array and satisfies the predicate; nothing is found exactly when no element satisfies it; the result is the element at `FindIndex` |
| JsArray.FindIndex | src/App.jsx:48 | -1 exactly when no element satisfies the predicate; otherwise the first index whose element does |
| Rounding.RoundDiv | src/components/ImageEditor.jsx:40 | the result r is n/d rounded half up: d(2r-1) <= 2n < d(2r+1) |
| Rounding.RoundDivUnique | src/components/ImageEditor.jsx:40 | any h within half a unit of n/d is the rounded value |
| Text.ParseDecimal | src/components/ImageEditor.jsx:71 | `parseInt` of the decimal text of n gives n back |
| Text.ParseNegativeDecimal | src/components/ImageEditor.jsx:71 | `parseInt` of a minus sign and the decimal text of n gives -n |
| Text.ParseInt | src/components/ImageEditor.jsx:71 | text starting with a digit always parses to a non-negative number; a number is found only after at most one leading sign; a negative result needs a leading minus |
| ImageContext.Reduce | src/context/ImageContext.jsx:17-80 | RESET gives the initial state; every other action leaves all fields outside the ones it writes unchanged and sets its field to its payload |
| ImageContext.InitialState | src/context/ImageContext.jsx:5-15 | the initial state holds no image of any kind, nothing processing, no error, not removed, a target of 800x600 and the `free` ratio |
| ImageContext.UnknownIsIdentity | src/context/ImageContext.jsx:78-79 | an unknown action type returns the state unchanged |
| ImageContext.ResetForgetsState | src/context/ImageContext.jsx:5-15 | RESET gives the same initial state from any two states, with target 800x600 and ratio `free` |
| ImageContext.OriginalImageSetsDimensions | src/context/ImageContext.jsx:19-31 | a non-null original image sets both the image and target dimensions to its natural size, with the `||` fallback |
| ImageContext.NullOriginalImageDimensions | src/context/ImageContext.jsx:23-30 | a null original image gives image dimensions 0x0 and target 800x600 |
| ImageContext.OriginalImageKeepsDownstream | src/context/ImageContext.jsx:19-31 | a new original image leaves the edited image, the processed image and the removed flag as they were |
| ImageContext.ReduceIdempotent | src/context/ImageContext.jsx:17-80 | applying any action twice equals applying it once |
| ImageContext.WrittenFieldsIgnoreState | src/context/ImageContext.jsx:19-73 | the fields an action writes get the same values whatever state it is applied to |
| ImageContext.DisjointActionsCommute | src/context/ImageContext.jsx:33-73 | two actions that write disjoint fields give the same state in either order |
| ImageContext.Store.constructor | src/context/ImageContext.jsx:84 | the store starts at the initial state with an empty log |
| ImageContext.Store.Dispatch | src/context/ImageContext.jsx:84 | the new state is the reducer applied to the old one, and the action is appended to the log |
| BackgroundRemover.IsBackgroundIffSumAbove720 | src/components/BackgroundRemover.jsx:79-80 | the test holds exactly when r+g+b > 720, and the all-above-250 disjunct is subsumed by it |
| BackgroundRemover.IsBackground | src/components/BackgroundRemover.jsx:79-80 | a background pixel has every channel above 210, and any pixel with every channel above 240 is background |
| BackgroundRemover.Masked | src/components/BackgroundRemover.jsx:72-85 | the masked buffer has the same length as the input |
| BackgroundRemover.MaskedAt | src/components/BackgroundRemover.jsx:72-85 | R, G and B bytes are kept; an alpha byte becomes 0 exactly for a background pixel (or if it was 0) and is kept otherwise |
| BackgroundRemover.MaskedIdempotent | src/components/BackgroundRemover.jsx:72-85 | masking twice gives the same buffer as masking once |
| BackgroundRemover.MaskedAppend | src/components/BackgroundRemover.jsx:72-85 | masking a buffer equals masking its pixel-aligned pieces separately, so the order of pixels does not matter |
| BackgroundRemover.PixelLocal | src/components/BackgroundRemover.jsx:72-85 | each output byte depends only on the bytes of its own pixel |
| BackgroundRemover.ApplyMask | src/components/BackgroundRemover.jsx:72-85 | the in-place loop leaves exactly `Masked` of the original buffer |
| BackgroundRemover.TickPeriods | src/components/BackgroundRemover.jsx:13-17 | tick periods are 200, 400 and 600 ms, ten of which make the option's time |
| BackgroundRemover.TimeOf | src/components/BackgroundRemover.jsx:13-17 | the duration is the `time` of the table entry for that quality, which always exists |
| BackgroundRemover.TickPeriod | src/components/BackgroundRemover.jsx:32-45 | ten periods add up exactly to the quality's duration |
| BackgroundRemover.Remover.constructor | src/components/BackgroundRemover.jsx:6-24 | quality starts `high` with no result; a run at progress 0 starts only when there is an edited image |
| BackgroundRemover.Remover.Simulate | src/components/BackgroundRemover.jsx:26-46 | without an edited image nothing changes; otherwise processing is on, progress is 0 and a new run with the captured quality's period is added |
| BackgroundRemover.Remover.ProcessImage | src/components/BackgroundRemover.jsx:48-103 | with an edited image the pixels are masked, the PNG result is kept, SET_PROCESSED_IMAGE then SET_BACKGROUND_REMOVED true are dispatched, and progress is 100 |
| BackgroundRemover.Remover.Tick | src/components/BackgroundRemover.jsx:36-45 | a tick shows progress 10 per tick; the pass runs exactly on the tenth tick, which also removes that run; with an edited image that pass masks the pixels and leaves the store with the processed image set and the removed flag true |
| BackgroundRemover.Remover.ChangeQuality | src/components/BackgroundRemover.jsx:105-111 | the quality is recorded; a new run, with the old quality's period, starts only when a result already exists |
| BackgroundRemover.Remover.Continue | src/components/BackgroundRemover.jsx:113-117 | the wizard advances exactly when a result exists |
| ImageEditor.RatioTable | src/components/ImageEditor.jsx:17-24 | each fixed id finds its own ratio |
| ImageEditor.FoundAt | src/components/ImageEditor.jsx:38 | the lookup of an id gives the ratio of the table entry with that id |
| ImageEditor.RatioExactlyForFixedIds | src/components/ImageEditor.jsx:17-24 | an id has a ratio exactly when it is one of the five fixed ids |
| ImageEditor.RatioOf | src/components/ImageEditor.jsx:17-24 | a ratio is that of the table entry with the id; none means the id is `free` or is not in the table |
| ImageEditor.LockedHeight | src/components/ImageEditor.jsx:36-44 | a height is derived exactly for ids with a ratio, and it is width/ratio rounded half up |
| ImageEditor.LockedHeightExamples | src/components/ImageEditor.jsx:40 | 800 at 4:3 gives 600, 1920 at 16:9 gives 1080, 1000 at 1:1 gives 1000, and `free` gives none |
| ImageEditor.AcceptsPositiveDecimal | src/components/ImageEditor.jsx:70-72 | every positive whole number typed is accepted as is, with no upper bound |
| ImageEditor.RejectsNonPositive | src/components/ImageEditor.jsx:70-72 | zero, negative numbers and empty input are ignored |
| ImageEditor.TruncatesFraction | src/components/ImageEditor.jsx:71 | "640.9" is accepted as 640 |
| ImageEditor.AcceptedDimension | src/components/ImageEditor.jsx:70-72 | an accepted value is positive and is what `parseInt` read; input is ignored exactly when `parseInt` finds no number or a number that is not positive |
| ImageEditor.Preview | src/components/ImageEditor.jsx:46-63 | the preview is a JPEG of exactly the local dimensions |
| ImageEditor.Locked | src/components/ImageEditor.jsx:36-44 | the lock never changes the width; without the lock or a fixed ratio nothing changes; otherwise the height is the derived one |
| ImageEditor.StartDimensions | src/components/ImageEditor.jsx:12-34 | with an original image, the editor starts at the dimensions the store recorded for it as image and target size; without one, at the target dimensions |
| ImageEditor.PresetUnderLock | src/components/ImageEditor.jsx:210-233 | under the lock a preset keeps its width and gets the derived height |
| ImageEditor.Editor.constructor | src/components/ImageEditor.jsx:12-44 | the lock is on and the local dimensions are the original's natural size (or the target), with the lock applied |
| ImageEditor.Editor.Rerender | src/components/ImageEditor.jsx:36-44 | the lock effect runs only when the width, the ratio or the checkbox changed; the preview follows the dimensions |
| ImageEditor.Editor.ChangeDimension | src/components/ImageEditor.jsx:70-79 | ignored input changes nothing; a height replaces only the height; a new width replaces the width, then the lock applies |
| ImageEditor.Editor.ChangeAspectRatio | src/components/ImageEditor.jsx:81-91 | SET_ASPECT_RATIO is dispatched; a fixed ratio derives the height from the width, and `free` keeps the dimensions |
| ImageEditor.Editor.SetMaintain | src/components/ImageEditor.jsx:93-98 | unchecking dispatches `free` only; checking dispatches nothing and lets the lock apply |
| ImageEditor.Editor.ApplyPreset | src/components/ImageEditor.jsx:210-233 | a preset sets both dimensions, then the lock applies when the width changed |
| ImageEditor.Editor.Continue | src/components/ImageEditor.jsx:100-104 | SET_TARGET_DIMENSIONS then SET_EDITED_IMAGE are dispatched, in that order, and the wizard advances |
| SaveOptions.ImageToSave | src/components/SaveOptions.jsx:27-30 | the processed image, else the edited image, else the original; none only when all three are missing |
| SaveOptions.SkippedBackgroundExportsEdited | src/components/SaveOptions.jsx:27-30 | without a processed image, the edited image is exported |
| SaveOptions.SingleEncoding | src/components/SaveOptions.jsx:60-80 | a quality is passed exactly for jpg and webp; unlisted formats encode as PNG |
| SaveOptions.EncodingTable | src/components/SaveOptions.jsx:60-80 | png, jpg, webp and gif map to their MIME types; the all-formats switch differs only for gif |
| SaveOptions.QualityControlMatchesEncoding | src/components/SaveOptions.jsx:247 | for the listed formats, the quality slider shows exactly when the encoding takes a quality |
| SaveOptions.ShowsQualityControl | src/components/SaveOptions.jsx:247 | the slider is hidden exactly for png and gif, and is shown for every format whose encoding takes a quality |
| SaveOptions.AllFormatsEncoding | src/components/SaveOptions.jsx:124-144 | the all-formats switch passes the quality exactly as the single download does, agrees with it on every format but gif, and tags gif `image/gpif` |
| SaveOptions.Extension | src/components/SaveOptions.jsx:84 | an extension is found exactly for a listed format, and it is a dot followed by the format id |
| SaveOptions.DownloadImage | src/components/SaveOptions.jsx:32-98 | a download happens exactly when there is an image that is not the bare original and the format is listed; it is named fileName+extension and drawn at the target dimensions |
| SaveOptions.ProcessingLeftOn | src/components/SaveOptions.jsx:36-97 | `isProcessing` stays set exactly when there is an image but no download happens |
| SaveOptions.OriginalOnlyNeverDownloads | src/components/SaveOptions.jsx:27-34 | with only the original in the session nothing is downloaded and `isProcessing` stays set |
| SaveOptions.SliderQuality | src/components/SaveOptions.jsx:252-257 | the slider's quality is always within 10..100, and is the position itself inside that range |
| SaveOptions.DefaultDownload | src/components/SaveOptions.jsx:6-8 | the defaults download `processed-image.png` as PNG without quality |
| SaveOptions.DownloadAllFormats | src/components/SaveOptions.jsx:100-165 | nothing without an image or for a bare original; otherwise one emission per format, in table order; `isProcessing` stays set exactly when it was set and no emission clears it |
| SaveOptions.AllFormatsPlan | src/components/SaveOptions.jsx:120-157 | names are fileName-id.ext; delays increase; only the last emission clears processing; gif is tagged `image/gpif` |
| SaveOptions.EmissionAt | src/components/SaveOptions.jsx:120-156 | every table entry has an extension; the file is fileName-id plus that extension, its encoding is the all-formats one, and only the last entry clears processing |
| SaveOptions.FileSizeEstimate | src/components/SaveOptions.jsx:167-187 | Unknown exactly without an image; below 1 MiB the KB figure is the estimate/1024 rounded half up |
| SaveOptions.BytesPerPixel | src/components/SaveOptions.jsx:172-181 | between 1 and 4 bytes per pixel, and 4 for every format but jpg and gif |
| SaveOptions.ScaledEstimate | src/components/SaveOptions.jsx:171-183 | for non-negative sizes and quality, the estimate is non-negative and at most the 4-bytes-per-pixel one |
| SaveOptions.QualityScalesEveryFormat | src/components/SaveOptions.jsx:171-183 | a higher quality raises the estimate for every format |
| SaveOptions.EstimateExamples | src/components/SaveOptions.jsx:167-187 | a 400x300 png at quality 90 is 422 KB; 1000x1000 is in megabytes |
| App.IndexOfListed | src/App.jsx:12-17 | each step is found at its own position |
| App.NextAndBackAreNeighbours | src/App.jsx:21-28 | next moves one step forward and back one step back; save has no next and upload no back |
| App.BackUndoesNext | src/App.jsx:21-28 | back after next, and next after back, return to the step you started from |
| App.UnknownStepRendersUpload | src/App.jsx:29-30 | an unrecognised step renders like upload |
| App.Render | src/App.jsx:19-32 | every callback leads to a listed step; only the save screen has no `onNext` and only the upload screen no `onBack` |
| App.StepIndex | src/App.jsx:48 | an index within the step list whose step has that id, or -1 exactly when no step has it |
| App.StatusByPosition | src/App.jsx:43-51 | steps before the current one are completed, only the current one is current, and later ones are pending |
| App.UnknownStepAllPending | src/App.jsx:43-51 | with an unrecognised current step every step is pending |
| App.StatusOf | src/App.jsx:45-51 | a step is current exactly at the current step's index and completed exactly before it |
| App.ConnectorGreenIffCompleted | src/App.jsx:54-59 | a connector is green exactly when the step before it is completed |
| App.ConnectorGreen | src/App.jsx:54-59 | a green connector follows a step other than the current, listed one, and is green exactly when that step is completed |
| App.Wizard.constructor | src/App.jsx:10 | the wizard starts at `upload` |
| App.Wizard.Advance | src/App.jsx:21-30 | the step becomes the rendered component's next step, if it has one |
| App.Wizard.Retreat | src/App.jsx:24-28 | the step becomes the rendered component's previous step, if it has one |
| ImageUpload.CheckDrop | src/components/ImageUpload.jsx:12-26 | empty drops are ignored; a non-image type, then a size above 10 MiB, is rejected with its message; everything else is accepted |
| ImageUpload.OnlyFirstFileCounts | src/components/ImageUpload.jsx:14 | files after the first do not affect the outcome |
| ImageUpload.TypeCheckedBeforeSize | src/components/ImageUpload.jsx:17-26 | an oversized non-image gets the type error |
| ImageUpload.SizeLimitBoundary | src/components/ImageUpload.jsx:23 | exactly 10485760 bytes is accepted and one more is rejected |
| ImageUpload.Uploader.constructor | src/components/ImageUpload.jsx:7 | no error is shown at first |
| ImageUpload.Uploader.OnDrop | src/components/ImageUpload.jsx:9-38 | the error is cleared, then set by a rejection; a loaded image is dispatched as the original, sets both dimension records, and advances the wizard |
| ImageResizer.Basename | image_resizer.py:359 | the name contains no `/`, is a suffix of the path, and follows a `/` when shorter than the path |
| ImageResizer.SplitExtRoot | image_resizer.py:359 | the root is a prefix cut at the last dot, unless only dots precede that dot |
| ImageResizer.Lower | image_resizer.py:382 | each ASCII capital is lowered and every other character kept |
| ImageResizer.BasenameOfJoin | image_resizer.py:359 | the base name of dir/name is name |
| ImageResizer.StemOfPath | image_resizer.py:359 | the stem of dir/base.ext is base |
| ImageResizer.HiddenFileStem | image_resizer.py:359 | a name whose only dot leads it keeps its whole name |
| ImageResizer.Stem | image_resizer.py:359 | the stem contains no `/` and is a prefix of the base name, cut only at its last dot |
| ImageResizer.DefaultSaveName | image_resizer.py:357-365 | the name always ends in .png: stem_no_bg.png after a removal, stem_resized.png otherwise, processed_image.png without a path |
| ImageResizer.DefaultSaveNameOfPath | image_resizer.py:358-363 | for dir/base.ext the offered name is base_no_bg.png or base_resized.png |
| ImageResizer.JpegPathIgnoresCase | image_resizer.py:382 | `.JPG` and `.jpeg` endings take the JPEG branch, `.png` does not |
| ImageResizer.IsJpegPath | image_resizer.py:382 | a JPEG path has at least four characters and ends in `g` or `G` |
| ImageResizer.Resize | image_resizer.py:299 | the result has exactly the requested size and keeps the mode |
| ImageResizer.ResizesCompose | image_resizer.py:299-300 | after two resizes the size is the last one asked for and the mode is kept (pixel content is not modelled) |
| ImageResizer.SaveAs | image_resizer.py:380-391 | the JPEG branch is taken exactly for .jpg/.jpeg paths; it writes RGB at quality 95, with RGBA images on white; other paths save the image unchanged |
| ImageResizer.ImageResizerApp.constructor | image_resizer.py:15-19 | no images, no path, flag false |
| ImageResizer.ImageResizerApp.SelectImage | image_resizer.py:226-254 | a chosen path is recorded even if opening fails; a failed copy sets only the original; a failed display also sets the processed copy but keeps the old flag; a full load sets both images and clears the flag |
| ImageResizer.ImageResizerApp.ResizeImage | image_resizer.py:286-310 | no image, an unparsable number and a non-positive size each leave the image unchanged; otherwise the processed image is resized |
| ImageResizer.ImageResizerApp.RemoveBackground | image_resizer.py:312-336 | with an image and a result, the processed image is the result and the flag is set; otherwise nothing changes |
| ImageResizer.SaveOutcome | image_resizer.py:353-391 | nothing without an image; an option Tk does not know raises before the dialog; otherwise the default name is offered and a chosen path receives `SaveAs` of the processed image |
| ImageResizer.AsWrittenNeverSaves | image_resizer.py:368-377 | with `initialname`, no file is ever written; with an image the dialog call raises |
| ImageResizer.InitialFileSaves | image_resizer.py:368-391 | with `initialfile`, a chosen path receives the processed image and cancelling offers the default name; the JPEG branch is taken exactly for .jpg/.jpeg |
| ImageResizer.ImageResizerApp.SaveImage | image_resizer.py:353-391 | the handler as written: its outcome is `SaveOutcome` with `initialname`, and it never writes a file |
| ImageResizer.ImageResizerApp.SaveImageWithInitialFile | image_resizer.py:353-391 | the handler with `initialfile`: a file is written exactly when there is an image and a path is chosen |

## Left out

- Canvas drawing, `getImageData`/`putImageData`, `toDataURL` encoding, and Pillow's `resize`, `convert`, `paste` and `save`: these are library resampling and encoding. A resize is modelled only by its size and mode, and an encoding only by its MIME type and size.
- `rembg.remove`: a foreign model. Its result, or its failure, is a parameter of `ImageResizerApp.RemoveBackground`.
- `Image.open` and Python's `int()` parsing: their results are parameters.
- Timers and threads: `setInterval`, `setTimeout` delays, `threading.Thread` and `root.after`. Ticks are explicit calls of `Remover.Tick`, and the removal thread runs to completion inside one call.
- FileReader, react-dropzone's `accept` filter, DOM download links, `filedialog` and `messagebox`: I/O plumbing. Dialog answers are parameters, and error messages are outcome values.
- `Remover.Tick`: progress is modelled as `10 * ticks`, not as the floating-point `(ticks / 10) * 100`.
- `ImageEditor.LockedHeight`: the height is the exact rational width*q/p rounded half up, which idealises the floating-point division by `4/3` and the other fixed ratios.
- `SaveOptions.FileSizeEstimate`: the megabyte label with `toFixed(1)` is not modelled; that case keeps the scaled byte count.
- `Text.ParseInt` covers the strings a number field produces (an optional sign and leading digits). Leading whitespace, `0x` prefixes and the number range of `parseInt` are not modelled.
- `ImageResizer.Lower` lowers ASCII letters only. Python's `str.lower` also lowers other Unicode capitals.
- `ImageResizer.Basename` uses the POSIX separator `/` only.
- `display_image` scaling, the rounding of the pixel count shown in the editor, and all JSX markup and styling.
- `src/components/Header.jsx` and `streamlit_app.py` are not part of this model. They hold static UI, and a Streamlit wrapper with no logic of its own.
- `useImage`'s error when used outside the provider: every component here is given a `Store`.
- Image loading in `processImage`, `generatePreview` and the downloads: the canvas takes the edited image's recorded size, and failures to load a data URL (which leave the code waiting forever) are not modelled. The one load that cannot succeed, a bare original in the save step, is modelled. `ImageUpload.Uploader.OnDrop` models a load that never completes as no change.
- The `originalImage` effect in the editor runs when the component mounts. The original image only changes during the upload step, while the editor is not mounted, so `ImageEditor.Editor.constructor` covers it.
- ImageResizer.ImageResizerApp.SaveImageWithInitialFile: a failing `save` (for example an extension Pillow does not know) is not modelled, and neither is the `.png` that the save dialog appends to a name without an extension.
- ImageResizer.ResizesCompose: a `PilImage` carries only its size and mode. The pixels that LANCZOS resampling loses are not modelled, so two model images of equal size and mode may stand for different pictures.
- ImageResizer.ImageResizerApp.ResizeImage: an exception raised by Pillow's `resize` itself is not modelled.

## Findings

| source | as written | input that shows it | evidently intended | confidence | as-written member | corrected member |
|---|---|---|---|---|---|---|
| image_resizer.py:368-377 | `asksaveasfilename` is passed `initialname`; Tk's save dialog knows only `-initialfile`, so the call raises `TclError: bad option "-initialname"` outside the `try`, and no image is ever saved | any loaded image, then "Save" | pass the default name as `initialfile` | not executed | ImageResizer.AsWrittenNeverSaves | ImageResizer.InitialFileSaves |
