# Photobooth kiosk screens, modelled in Dafny

This project models the state logic of five screens of a walk-up photo
kiosk front-end:

- **Photoshoot** (`photoshoot.dfy`) is the capture screen. An 8-second countdown fires the camera. The shot list holds at most 8 photos, and any filled slot can be retaken. The "Reset All" and "Done" buttons are gated.
- **Choose** (`choose.dfy`) picks photos for a print frame. The frame name fixes the maximum selection. A click toggles a photo id in an ordered list, and the two-strip frame (`Stripx2`) adds every id twice.
- **Sticker** (`sticker.dfy`) is the overlay scene. It is an ordered list of icons (id, image, position, rotation, scale, size) with at most one selected. The operations are add, click-select, drag with clamping to the canvas, rotate by π/4, delete, and the "Print" gate.
- **Promo** (`promo.dfy`) is the promotion-code keypad. It keeps a digit buffer of at most 10 characters, has a backspace key, and sends a redeem request. Only an `"OK"` reply moves on.
- **Filters** (`filters.dfy`) is the colour-filter screen. It holds the filter catalogue, toggles the filter choice, blends each effect value by the intensity slider, and composes the CSS `filter` string.

`wrappers.dfy` (an `Option` type) and `seqs.dfy` (`NoDup`, and `Keep`, which models JavaScript's `filter`) are shared helpers.

Each React handler or effect is a pure function from one immutable screen state to the next. Camera frames, timer firings, fresh icon ids, canvas sizes, drop coordinates, HTTP replies and number formatting all come in as parameters. Photoshoot and Sticker also have an `Event` type and a `Run` function, and Promo has a `Key` type and a `Type` function, so their invariants are stated over any sequence of user actions. Choose and Filters state their invariants per handler call.

The model follows the code:

- photos are an array that grows by appending;
- the countdown is a number plus a boolean;
- rotation is never normalised;
- the drag clamp uses only the unrotated half-extent.

## Model

| member | source | states |
|---|---|---|
| Photoshoot.Tick | Photobooth/frontend/src/screens/Photoshoot/Photo.tsx:39-41 | While a capture runs with countdown > 0, one second takes exactly 1 off the countdown and changes nothing else; otherwise no timer runs and the state is unchanged |
| Photoshoot.Capture | Photobooth/frontend/src/screens/Photoshoot/Photo.tsx:47-82 | With a pending retake index, the frame replaces only that slot: the other slots and `currentPhoto` are unchanged and the retake index is cleared. Without one, exactly one shot is appended and `currentPhoto` goes up by 1. With no frame, the photos are untouched. In every case capturing stops and the countdown is 8 again |
| Photoshoot.Assign | Photobooth/frontend/src/screens/Photoshoot/Photo.tsx:66-70 | JavaScript index assignment: an index inside the array overwrites only that slot; an index past the end grows the array to index+1 with holes between |
| Photoshoot.Step | Photobooth/frontend/src/screens/Photoshoot/Photo.tsx:38-45 | The countdown effect does nothing when not capturing, ticks while the countdown is positive, and captures at 0 |
| Photoshoot.Retake | Photobooth/frontend/src/screens/Photoshoot/Photo.tsx:84-88 | Sets the retake index, starts capturing and resets the countdown to 8, with the photos unchanged; there is no guard against a capture in flight |
| Photoshoot.RetakeDuringCaptureReplaces | Photobooth/frontend/src/screens/Photoshoot/Photo.tsx:84-88 | A retake pressed during an appending countdown turns that capture into a replacement of the retaken slot: the list does not grow |
| Photoshoot.Start | Photobooth/frontend/src/screens/Photoshoot/Photo.tsx:90-94 | Starts capturing exactly when fewer than 8 photos exist and none is running; only the capturing flag can change |
| Photoshoot.PhotosEffect | Photobooth/frontend/src/screens/Photoshoot/Photo.tsx:96-100 | After the effect a capture is running exactly when one already was or the effect's rule fires: as written the rule is an empty list, under the corrected rule a list with room. Only the capturing flag can change |
| Photoshoot.Mounted | Photobooth/frontend/src/screens/Photoshoot/Photo.tsx:96-100 | On mount the empty list auto-starts a capture with the countdown at 8 |
| Photoshoot.ResetAll | Photobooth/frontend/src/screens/Photoshoot/Photo.tsx:176-182 | "Reset All" is enabled only with at least one photo and no capture running; it empties the list and changes nothing else |
| Photoshoot.Done | Photobooth/frontend/src/screens/Photoshoot/Photo.tsx:183-189 | "Done" is enabled exactly when at least 8 photos exist and no capture runs; it hands on the whole list |
| Photoshoot.RunPreservesInv | Photobooth/frontend/src/screens/Photoshoot/Photo.tsx:12-100 | Under any event sequence and either auto-start rule: the countdown stays in [0, 8]; the list never exceeds 8; a retake index is below 8; an appending capture runs only while there is room |
| Photoshoot.AsWrittenSessionStalls | Photobooth/frontend/src/screens/Photoshoot/Photo.tsx:90-100 | As written, every reachable state holds at most one photo, and "Done" is never enabled |
| Photoshoot.CorrectedSessionCompletes | Photobooth/frontend/src/screens/Photoshoot/Photo.tsx:90-100 | With auto-start while the list has room, eight uninterrupted countdowns store the eight frames in order and enable "Done" |
| Seqs.Keep | Photobooth/frontend/src/screens/Photoshoot/Choose.tsx:72 | The filtered list holds only elements that satisfy the test, all taken from the input. It keeps every element that passes and is shorter whenever one fails; when all pass it is the input |
| Seqs.KeepConcat | Photobooth/frontend/src/screens/Photoshoot/Choose.tsx:72 | Filtering distributes over concatenation, so the kept elements stay in their order |
| Seqs.RemoveAll | Photobooth/frontend/src/screens/Photoshoot/Choose.tsx:72 | The filtered list has no occurrence of the value, keeps exactly the other elements, and is shorter whenever the value was present; a list without the value is returned unchanged |
| Seqs.RemoveAllConcat | Photobooth/frontend/src/screens/Photoshoot/Choose.tsx:72 | Filtering distributes over concatenation, so the remaining ids keep their order |
| Seqs.RemoveAllNoDup | Photobooth/frontend/src/screens/Photoshoot/Choose.tsx:72 | Filtering never creates a duplicate |
| Choose.FrameSettles | Photobooth/frontend/src/screens/Photoshoot/Choose.tsx:29-59 | The first effect pass still sees no frame and leaves the maximum at 0. The second pass sets the frame's own maximum, or keeps 0 for an unknown frame |
| Choose.Click | Photobooth/frontend/src/screens/Photoshoot/Choose.tsx:61-74 | An unselected id with room is appended, twice on `Stripx2`, after the unchanged earlier entries. A selected id loses every occurrence while the other ids stay. An unselected id on a full list changes nothing. The frame and maximum never change |
| Choose.ClickTwiceRestores | Photobooth/frontend/src/screens/Photoshoot/Choose.tsx:61-74 | Clicking an unselected id while there is room, then clicking it again, restores the original selection |
| Choose.FullSelectionRefuses | Photobooth/frontend/src/screens/Photoshoot/Choose.tsx:65-72 | When Continue is enabled (length equals the maximum), clicking an unselected photo leaves the selection unchanged |
| Choose.ClickPreservesValid | Photobooth/frontend/src/screens/Photoshoot/Choose.tsx:65-72 | With the maximum fixed, every click keeps the length at or below the maximum. Ordinary frames stay duplicate-free; on `Stripx2` the list stays a sequence of equal pairs with distinct ids |
| Choose.PairedEven | Photobooth/frontend/src/screens/Photoshoot/Choose.tsx:66-67 | A `Stripx2` selection has even length |
| Choose.PairedTwice | Photobooth/frontend/src/screens/Photoshoot/Choose.tsx:66-67 | In a `Stripx2` selection every id occurs exactly 0 or 2 times |
| Choose.FrameEffectValid | Photobooth/frontend/src/screens/Photoshoot/Choose.tsx:29-59 | The selection is valid after both passes of the frame effect |
| Sticker.AddIcon | Photobooth/frontend/src/screens/Makeup/Sticker.tsx:102-117 | With a canvas, exactly one icon is appended after the unchanged earlier icons, and it is selected. It has the fresh id, sits at the canvas centre, and has rotation 0, scale 1 and size 100×100. Without a canvas nothing changes |
| Sticker.IconClick | Photobooth/frontend/src/screens/Makeup/Sticker.tsx:119-121 | The selection becomes null exactly when that icon was selected, otherwise that icon's id; the icons are unchanged |
| Sticker.ClickTwice | Photobooth/frontend/src/screens/Makeup/Sticker.tsx:119-121 | Two clicks restore a selection that was empty or on that icon; starting from another icon they leave the selection empty |
| Sticker.UpdateWhere | Photobooth/frontend/src/screens/Makeup/Sticker.tsx:124-126 | The mapped list has the same length, and element by element only icons with the matching id are transformed |
| Sticker.IconDrag | Photobooth/frontend/src/screens/Makeup/Sticker.tsx:123-127 | Only icons with the matching id change, and only their position; length, order, the other icons and the selection are unchanged |
| Sticker.IconRotate | Photobooth/frontend/src/screens/Makeup/Sticker.tsx:129-133 | Only icons with the matching id change, and only their rotation; length, order, the other icons and the selection are unchanged |
| Sticker.RotateButton | Photobooth/frontend/src/screens/Makeup/Sticker.tsx:264-272 | The rotate button adds exactly one π/4 step to the icon's rotation with no normalisation; icons with other ids are unchanged |
| Sticker.WithoutId | Photobooth/frontend/src/screens/Makeup/Sticker.tsx:136 | The filtered list keeps exactly the icons whose id differs; a list without that id is unchanged |
| Sticker.IconDelete | Photobooth/frontend/src/screens/Makeup/Sticker.tsx:135-138 | No icon with that id remains, every other icon survives, and the selection is always cleared |
| Sticker.WithoutIdConcat | Photobooth/frontend/src/screens/Makeup/Sticker.tsx:135-138 | Deletion distributes over concatenation, so the survivors keep their drawing order |
| Sticker.Clamp | Photobooth/frontend/src/screens/Makeup/Sticker.tsx:250-255 | The clamped coordinate never exceeds limit − half. It is at least half whenever half ≤ limit − half. A coordinate already inside the range is returned unchanged. A coordinate at or past the upper bound goes to limit − half, and one at or below the lower bound goes to half when the range is non-empty |
| Sticker.ClampIdempotent | Photobooth/frontend/src/screens/Makeup/Sticker.tsx:254-255 | Clamping twice is clamping once |
| Sticker.DragEnd | Photobooth/frontend/src/screens/Makeup/Sticker.tsx:245-258 | After a drop, the icon's position lies in [half-extent, canvas size − half-extent] on both axes whenever the icon fits. A drop point inside that range is stored as it is. Only the dragged icon's position changes, and icons with other ids are unchanged |
| Sticker.PrintPressed | Photobooth/frontend/src/screens/Makeup/Sticker.tsx:140-144 | With a truthy selection, a press only clears the selection and exports nothing; otherwise the scene is exported unchanged |
| Sticker.RunPreservesSelection | Photobooth/frontend/src/screens/Makeup/Sticker.tsx:102-144 | Under any sequence of add, click, drop, rotate, delete and print events, a non-null selection always names an icon present in the scene |
| Sticker.AddRotateDelete | Photobooth/frontend/src/screens/Makeup/Sticker.tsx:102-138 | Adding an icon and rotating it twice leaves one selected icon turned by π/2; deleting it then leaves an empty scene with no selection |
| Promo.DigitChar | Photobooth/frontend/src/screens/Payment/Promo.tsx:24 | A keypad number is appended as the one character '0'..'9' that denotes it |
| Promo.NumberClick | Photobooth/frontend/src/screens/Payment/Promo.tsx:22-26 | Below 10 characters the digit is appended after the unchanged code; at 10 or more the state is unchanged |
| Promo.Backspace | Photobooth/frontend/src/screens/Payment/Promo.tsx:28-30 | Drops exactly the last character; an empty code stays empty |
| Promo.DigitThenBackspace | Photobooth/frontend/src/screens/Payment/Promo.tsx:22-30 | A digit followed by backspace restores a code shorter than 10 |
| Promo.TypingKeepsCodeValid | Photobooth/frontend/src/screens/Payment/Promo.tsx:22-30 | Whatever keys are pressed, the code stays at most 10 characters long and made of digits only |
| Promo.BeginSubmit | Photobooth/frontend/src/screens/Payment/Promo.tsx:32-34 | The in-flight flag is set at the start of a submission, which disables "Redeem" |
| Promo.FinishSubmit | Photobooth/frontend/src/screens/Payment/Promo.tsx:32-47 | The in-flight flag is always cleared and the code is kept. Navigation (with the reply's order code) happens exactly when a reply arrived with status "OK" |
| Promo.RedeemRoundTrip | Photobooth/frontend/src/screens/Payment/Promo.tsx:32-47 | After any redeem attempt, "Redeem" is enabled again exactly when the code is non-empty. A reply with any other status does not navigate |
| Filters.AdjustEndpoints | Photobooth/frontend/src/screens/Makeup/Filter.tsx:100-104 | At intensity 100 the value is the effect's own, at 0 it is 1, and an effect value of 1 stays 1 at every intensity |
| Filters.AdjustBetween | Photobooth/frontend/src/screens/Makeup/Filter.tsx:100-104 | For intensity in [0, 100] the adjusted value lies between 1 and the effect value |
| Filters.AdjustMonotone | Photobooth/frontend/src/screens/Makeup/Filter.tsx:100-104 | A higher intensity moves the value further from 1, towards the effect value |
| Filters.SplitJoin | Photobooth/frontend/src/screens/Makeup/Filter.tsx:94 | Joining non-empty lists of space-free terms with single spaces is undone by splitting at spaces |
| Filters.StyleTerms | Photobooth/frontend/src/screens/Makeup/Filter.tsx:94 | A filter's style string has one `property(value unit)` term per effect, in effect order, separated by single spaces |
| Filters.CatalogueWellFormed | Photobooth/frontend/src/screens/Makeup/Filter.tsx:27-77 | Every catalogue filter has an effect, no property or unit contains a space, and the filter ids are distinct and non-empty |
| Filters.Find | Photobooth/frontend/src/screens/Makeup/Filter.tsx:92 | Returns the first catalogue filter with the requested id, and returns none exactly when no filter has that id |
| Filters.FilterClick | Photobooth/frontend/src/screens/Makeup/Filter.tsx:142 | Clicking the chosen filter clears the choice to ""; clicking another filter chooses it; the intensity and style are untouched |
| Filters.SetIntensity | Photobooth/frontend/src/screens/Makeup/Filter.tsx:158-163 | The slider sets an intensity in [0, 100] and nothing else |
| Filters.SlideRestyles | Photobooth/frontend/src/screens/Makeup/Filter.tsx:90-98 | Moving the slider with a known filter chosen keeps the choice and restyles that filter at the new intensity |
| Filters.StyleEffect | Photobooth/frontend/src/screens/Makeup/Filter.tsx:90-98 | The style is recomputed from the chosen catalogue filter and the intensity; with no choice, or an unknown id, the state is unchanged |
| Filters.StyleEffectTerms | Photobooth/frontend/src/screens/Makeup/Filter.tsx:90-98 | The recomputed style of a known filter splits back into its effect terms |
| Filters.DeselectKeepsStyle | Photobooth/frontend/src/screens/Makeup/Filter.tsx:90-98 | Choosing a filter and clicking it again clears the choice but keeps the style last computed |
| Filters.StyleValuesBetween | Photobooth/frontend/src/screens/Makeup/Filter.tsx:100-104 | With the slider in [0, 100], every adjusted value of the chosen filter lies between 1 and that effect's value |

## Left out

- Camera access and frame grabbing (`getUserMedia`, track stopping, `drawImage`, `toDataURL`, Photo.tsx:19-35 and 47-62) are left out. A frame is an opaque string parameter, and `None` stands for a missing video element, canvas or 2D context.
- Timer scheduling (`setTimeout`, `clearTimeout`) is left out. Each firing of the countdown effect is one explicit `Elapse` event.
- Photoshoot.Done: the `onComplete` callback is not declared in the component. The model returns the list it would hand on.
- `currentPhoto` is modelled but never read by the screen. "Reset All" does not reset it, and the model keeps that as written.
- Sticker canvas redrawing (Sticker.tsx:38-100) is left out. Icons are drawn in asynchronous image `onload` callbacks, so the drawing order is not determined by the code.
- Sticker export is left out: base64/Blob conversion, form data, and the parallel upload and print requests (Sticker.tsx:145-207) are network I/O. `PrintPressed` reports only whether the export path is taken.
- The display-scale multiplication of drop coordinates (`canvasScale`, Sticker.tsx:247-248) and random id generation (Sticker.tsx:107) are left out. The drop coordinate and the fresh id are inputs.
- The icon scale is never changed by any handler. It stays 1 and is kept only as a field.
- Promo: the redeem URL (device number, code and amount query) and the `sessionStorage` write of the order code are left out. The order code is returned instead.
- Filters.AdjustBetween: states the bound over reals. The `toFixed(2)` rounding of the displayed value and `parseFloat` of the catalogue strings are not modelled: values are reals and formatting is the parameter `fmt`.
- The payment screens Cash.tsx and QR.tsx are left out. They are HTTP create/poll loops.
- Home.tsx (storage clearing and language switch), footer.tsx (presentation) and vite.config.ts (build settings) are left out.
- Cross-screen `sessionStorage`/JSON plumbing, audio, animation and layout classes are left out. This includes Choose.tsx:76-81 and 105-158.

## Findings

| source | as written | input that shows it | evidently intended | confidence | as-written member | corrected member |
|---|---|---|---|---|---|---|
| Photobooth/frontend/src/screens/Photoshoot/Photo.tsx:96-100 | `startCapture` is called only from the effect on `photos`, and only when `photos.length === 0`; no button calls it | Mount, then nine countdown firings with a frame. One photo is stored and capturing stops. The next photos effect sees length 1, so no countdown ever starts again. Retakes only replace, and "Done" (length ≥ 8) stays disabled | Start the next countdown after each shot while fewer than 8 photos exist (`photos.length < 8`) | medium, not executed | Photoshoot.AsWrittenSessionStalls | Photoshoot.CorrectedSessionCompletes |
