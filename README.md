# Handwriting capture: a verified model

This project models the core of a small browser app. The app records pen or touch strokes on a
200×200 canvas and groups them into handwritten characters using an inactivity timeout. It
exports the finished characters as timestamped JSON records or as one PNG of thumbnails laid
out in a grid.

The model has three modules:

- `Capture` (capture.dfy): the page's mutable state as one class, `Capture.Session`. Its fields
  mirror the script's top-level variables (`isDrawing`, the timer, `finalSentenceData`,
  `strokesForCurrentChar`, `currentStrokeData`, `characterStartTime`), plus the thumbnail list and
  the text of the timeout input. Its methods are the event handlers: pointer-down, move and up,
  the timer firing, clear, the clear button, the arrow keys, and the two save buttons. The object
  invariant `Valid()` holds after every method. It says:
  - a stroke's `t`, `x` and `y` arrays have the same length;
  - `t` starts at 0 and never decreases;
  - every pending stroke has at least two points and ends no later than the next one starts;
  - `characterStartTime` is the first pending stroke's start time whenever a stroke is pending;
  - once the pointer is up with strokes pending, the timer was armed no earlier than the last
    of them ended;
  - the timer is never armed while drawing, and always armed while strokes are pending and the
    pointer is up;
  - there is exactly one thumbnail per character;
  - character `i` of the sentence has `characterIndex == i` and holds the strokes of thumbnail `i`,
    numbered 0..k-1, closed, in time order, and starting at the character's start time;
  - each character was finalized no later than the next one started.

  `Valid()` is split into `CaptureOK`, a predicate on the values of the capture fields, and
  `SentenceOK` on the sentence and the thumbnails. Each pointer handler proves its part of
  `CaptureOK` through one transition lemma.
- `GridLayout` (grid_layout.dfy): the arithmetic of the PNG export. The canvas is
  S·min(N, 10) wide and S·ceil(N/10) high, and cell i sits at ((i mod 10)·S, (i div 10)·S). The
  lemmas show that every cell is inside the canvas, that distinct cells do not overlap, and that
  the canvas is no larger than needed.
- `TimeoutText` (timeout_text.dfy): the timeout setting as text. It defines how `parseInt(text, 10)`
  reads it, how a number is written back into it, the `|| 1000` default, and the ArrowUp/ArrowDown
  rule.

Other modelling choices:

- Time is a `nat` in milliseconds. Every method that reads `performance.now()` takes the reading
  as a parameter `now`, and requires it to be no earlier than the ghost field `clock`, which holds
  the latest reading.
- Coordinates are integers.
- The timer is the flag `timerArmed` together with `armedAt` and `armedText`. `armedText` is
  the setting's text when the timer was armed, and the delay is `TimeoutDuration(armedText)`.
  Its expiry is the method `TimerFires(now)`, which may only be called once that delay has passed.
- The user typing into the timeout input is the method `EditTimeout`.

## Model

| member | source | states |
|---|---|---|
| `Capture.Session.constructor` | script.js:12-20 | The initial state: not drawing, no timer, empty sentence, no pending strokes, no stroke object, no character start time, no thumbnails; the invariant holds. |
| `Capture.Session.StartDrawing` | script.js:87-113 | Cancels any armed timer and sets drawing. Overwrites the stroke object with one seeded at t=[0] and exactly one x and one y. Sets `characterStartTime` to `now` only when no stroke is pending, otherwise keeps it. Nothing else changes. |
| `Capture.Session.Draw` | script.js:115-128 | Changes nothing when not drawing. Otherwise appends `now - startTime` to t and the point to x and y, so the arrays stay parallel and t stays non-decreasing and non-negative (through `Valid()`). |
| `Capture.Session.StopDrawing` | script.js:130-143 | Changes nothing when not drawing. Otherwise closes the stroke with endTime = now ≥ startTime. Appends it to the pending list only if it has more than one point. In both cases it arms the timer at `now` with the setting's current text, so the delay is `TimeoutDuration` of that text. |
| `Capture.Session.FinalizeCharacter` | script.js:145-200 | Changes nothing when no stroke is pending. Otherwise appends exactly one record: its index is the sentence's previous length, its start time is the (provably present) `characterStartTime`, it is finalized at `now`, and it holds the pending strokes numbered in order. Adds one thumbnail from those strokes, empties the pending list and nulls `characterStartTime`. |
| `Capture.Session.TimerFires` | script.js:142-146 | An armed timer fires once, no earlier than its delay after arming, and finalizes the character. With strokes pending, the finalize time is at least the delay after the last stroke ended; it appends the record and the thumbnail and the clock moves to `now`, and otherwise the sentence, thumbnails and clock stay. Afterwards no timer is armed. The stroke object, the drawing flag and the setting are untouched. An unarmed timer changes nothing. |
| `Capture.Session.ClearOutput` | script.js:202-212 | Empties the thumbnails, the sentence and the pending strokes, nulls the stroke object and `characterStartTime`, and cancels the timer; `isDrawing`, the setting and the clock are untouched. |
| `Capture.Session.ClearButton` | script.js:232-238 | Clears exactly when no thumbnail is shown or the user confirms, with the same new state as `ClearOutput`; otherwise nothing changes. |
| `Capture.Session.KeyDown` | script.js:252-265 | A key from the timeout input itself leaves the setting alone; any other keydown rewrites it by `AfterKey`. |
| `Capture.Session.SaveJson` | script.js:267-272 | "Nothing to save" exactly when the sentence is empty; otherwise the export is the whole sentence, one entry per character. |
| `Capture.Session.SavePng` | script.js:285-317 | "Nothing to save" exactly when there is no thumbnail. Otherwise the canvas has the grid width and height for N = number of thumbnails, S = 80, and there is one cell per thumbnail in order. Cell i is at `Cell(i, 80)`, lies inside the canvas and overlaps no other cell. |
| `Capture.Numbered` | script.js:156-163 | Each pending stroke becomes one record, in order, and record k has `strokeIndex` k. |
| `Capture.UnnumberedNumbered` | script.js:156-163 | Numbering loses no stroke data: dropping the indices gives back exactly the pending strokes. |
| `Capture.NumberedUnnumbered` | script.js:156-163 | Records indexed 0..k-1 are exactly the numbering of their strokes. |
| `Capture.StartKeepsCapture` | script.js:87-113 | Pointer-down keeps the capture invariant: the new stroke is open at `now`, no timer is armed, and a character starts at `now` exactly when nothing is pending. |
| `Capture.DrawKeepsCapture` | script.js:115-128 | A move sample at `now` keeps the open stroke's arrays parallel and its times non-decreasing, and keeps the pending strokes valid. |
| `Capture.StopKeepsCapture` | script.js:130-143 | Pointer-up keeps the capture invariant: the stroke closes at `now` no earlier than it started, joins the pending strokes only with more than one point, and the timer is armed. |
| `Capture.FinalizeKeepsCapture` | script.js:145-166 | With strokes pending, the character start time is present and no earlier than the previous finalize; the new record is a well-formed character at its index holding the pending strokes numbered in order; and nothing is pending afterwards. |
| `Capture.SentenceAt` | script.js:145-166 | For every character i of a valid sentence: its index is i, it holds thumbnail i's strokes numbered in order, dropping the numbers gives back exactly those strokes, and it was finalized no later than character i+1 started. |
| `Capture.SentenceAppend` | script.js:152-166 | Appending a well-formed character at the next index, started no earlier than the last finalize, together with its thumbnail keeps the sentence valid. |
| `Capture.PendingAppend` | script.js:137-139 | Appending a closed stroke that starts no earlier than the last pending one ended keeps the pending list well formed and in time order. |
| `Capture.AppendSampleKeepsOrder` | script.js:120-122 | A sample no earlier than the last keeps the stroke's times non-decreasing. |
| `Capture.DrawTwoPointStroke` | script.js:87-143 | Pointer-down, one move and pointer-up add one two-point stroke to the pending list and arm the timer at the pointer-up time. |
| `Capture.TwoStrokesOneCharacter` | script.js:130-166 | Two strokes within the timeout, then the timer: the sentence is exactly one character with index 0, start time 0 and finalize time 1530, holding both strokes in order as records 0 and 1 with all their times and points. |
| `Capture.TwoCharactersThenClear` | script.js:87-212 | Two strokes separated by a fired timer give two characters indexed 0 and 1 with one thumbnail each; after the clear button a new stroke can still start. |
| `Capture.TapLeavesNoCharacter` | script.js:137-146 | A tap without movement still arms the timer, but its firing produces no character. |
| `Capture.TapRestartsTimeout` | script.js:87-146 | A stroke ending at 20, a tap at 1000-1005 and a stroke at 1500-1530 give, when the timer fires at 2530, exactly one character holding both strokes, although the 20-1500 gap exceeds the 1000 ms delay. |
| `Capture.ClearEmptiesExports` | script.js:267-290 | After a character is finalized and the output cleared, both the JSON and the PNG export take the "nothing to save" path. |
| `GridLayout.Width` | script.js:298 | Canvas width: S·N below a full row, otherwise S·10. Its meaning is proved by `CellInside` (every cell fits) and `CanvasTight` (the last used column meets the right edge). |
| `GridLayout.Height` | script.js:299 | Canvas height: S·Rows(N). `CellInside` and `CanvasTight` prove every cell fits and the last cell meets the bottom edge. |
| `GridLayout.Cell` | script.js:310-316 | Origin of thumbnail i: column i mod 10, row i div 10, times S. `CellInside` and `CellsApart` prove each cell lies in the canvas and no two overlap. |
| `GridLayout.Rows` | script.js:297 | The row count is the ceiling of N/10: rows·10 ≥ N, (rows-1)·10 < N for N ≥ 1, and 0 rows exactly when N = 0. |
| `GridLayout.CellInside` | script.js:297-316 | For every i < N, the S×S cell of thumbnail i lies inside the width×height canvas. |
| `GridLayout.RowBelowRows` | script.js:297-316 | Thumbnail i of N sits in one of the ceil(N/10) rows. |
| `GridLayout.CellsApart` | script.js:311-316 | The cells of two distinct indices share no pixel. |
| `GridLayout.MulStep` | script.js:314-315 | Arithmetic helper for `CellInside` and `CellsApart`: the next column or row starts a full thumbnail side further on. |
| `GridLayout.CanvasTight` | script.js:297-299 | For N ≥ 1 the canvas is no larger than needed: the last used column touches the right edge and the last cell touches the bottom edge. |
| `GridLayout.TwentyThreeThumbnails` | script.js:292-316 | N = 23, S = 80 gives an 800×240 canvas, with thumbnails 0, 10 and 22 at (0,0), (0,80) and (160,160). |
| `TimeoutText.TrimStartDropsSpace` | script.js:141 | parseInt's leading white-space skip: the result is a suffix of the text, everything dropped is JavaScript white space, and the result does not begin with white space. |
| `TimeoutText.LeadingDigits` | script.js:141 | The digits parseInt reads are all decimal digits. |
| `TimeoutText.LeadingDigitsMaximal` | script.js:141 | They are the longest such prefix: a prefix of the text followed by a non-digit or the end. |
| `TimeoutText.ParseInt` | script.js:141 | `parseInt(text, 10)`: skip leading white space, take an optional sign and the longest run of digits, NaN when there is none. `TrimStartDropsSpace`, `LeadingDigitsMaximal`, `ParseIntSkipsSpace` and `ParseIntOfNumberToString` prove what it reads. |
| `TimeoutText.NumberToString` | script.js:256-262 | The text a number is written as: "NaN", or the decimal digits with a leading "-" for negatives. `ParseIntOfNumberToString` proves `ParseInt` reads it back. |
| `TimeoutText.AfterKey` | script.js:252-265 | The setting's text after a keydown: ArrowUp writes the value plus 50, ArrowDown writes the value minus 50 only above 100, other keys leave it. `ArrowUpAddsFifty`, `ArrowDownLowersAboveHundred` and `ArrowDownFloor` prove this on the parsed value. |
| `TimeoutText.NatToString` | script.js:256 | A number written into the input is a non-empty digit string without leading zeros. |
| `TimeoutText.DigitsValueOfNatToString` | script.js:256 | Writing a natural number in decimal and reading the digits back gives that number. |
| `TimeoutText.ParseIntOfNumberToString` | script.js:256-262 | parseInt of a value the handler wrote (a number, or NaN) gives that value back, even with trailing text that does not start with a digit. |
| `TimeoutText.ParseIntSkipsSpace` | script.js:141 | Leading white space never changes what parseInt reads. |
| `TimeoutText.TimeoutDuration` | script.js:141 | The armed duration is never 0: it is the parsed setting whenever that is a non-zero number, and the default 1000 when the setting parses to 0 or NaN. |
| `TimeoutText.DurationOfWrittenNumber` | script.js:141 | A non-zero number in the setting is the duration used; 0 or NaN give 1000. |
| `TimeoutText.ArrowUpAddsFifty` | script.js:254-257 | ArrowUp raises the parsed setting by exactly 50; NaN stays NaN. |
| `TimeoutText.ArrowDownLowersAboveHundred` | script.js:258-264 | ArrowDown lowers the parsed setting by 50 when it is above 100 and leaves it otherwise. |
| `TimeoutText.ArrowDownFloor` | script.js:258-264 | ArrowDown never raises the setting, lowers it exactly when it is above 100, and never takes a setting of 51 or more below 51. |

## Behaviour worth noting

- A discarded one-point stroke still arms the timer (script.js:137-142). With nothing pending
  that arm is a no-op: finalizing with nothing pending changes nothing (`TapLeavesNoCharacter`).
  With strokes pending, the tap's pointer-down cancels the timer (script.js:89) and its pointer-up
  re-arms it from the tap, so a tap restarts the timeout. Strokes that a long pause would have
  split can then become one character (`TapRestartsTimeout`).
- A second pointer-down while drawing silently overwrites the open stroke (script.js:99).
- The timer is cancelled on pointer-down (script.js:89), not when a stroke is completed. Every
  stroke starts with a pointer-down, so the character stays open while strokes keep arriving
  within the timeout.
- A timer left over from before a clear cannot finalize afterwards, because clear cancels it
  (script.js:211). `Valid()` shows that at most one timer is armed: `StopDrawing` only runs while
  drawing, and the timer is never armed then.
- Changing the setting while a timer is armed does not change that timer's delay. The setting is
  read only when the timer is armed (script.js:141). `KeyDown` and `EditTimeout` leave
  `armedText` alone.

## Left out

- Web Audio initialisation and the completion beep (script.js:28-52, 148), and the sound toggle
  button (script.js:240-250): fire-and-forget output with no effect on the captured data.
- Canvas rendering: guide lines, drawing style, live strokes, thumbnail polylines and their
  downsampling, `clearRect` and `drawImage` (script.js:54-76, 111-112, 126-127, 168-196, 307-308,
  316). A thumbnail is modelled by the strokes it is rendered from. The PNG export is modelled by
  its canvas size and the origin at which each thumbnail is drawn.
- `getCoordinates` (script.js:78-85): coordinates are inputs to the pointer methods.
- `setTimeout`/`clearTimeout` scheduling itself: replaced by the armed flag and `TimerFires`.
- `JSON.stringify`, Blob, object URLs, `toDataURL` and the anchor-click downloads with their
  timestamped file names (script.js:272-281, 320-323): the JSON export is the record sequence
  itself.
- The confirm dialog (script.js:233): it is the `confirmed` argument of `ClearButton`. The test
  `innerHTML !== ''` is modelled as "some thumbnail is shown". This assumes the sentence container
  starts empty in the page's HTML, which is not part of this model, so that it holds only the
  thumbnail canvases.
- Event-listener wiring (script.js:216-230) and the `preventDefault` calls (script.js:88, 117,
  132, 255 and 259): mouse and touch events (`mouseout` included) map to the same three
  pointer methods.
- Floating-point time and coordinates: both are integers here.
- Object identity: the script pushes the stroke object itself onto the pending list
  (script.js:138), and the model stores a copy of its value. No handler changes that object after
  pointer-up: a move is ignored while not drawing, and pointer-down and clear replace the object
  instead of changing it.
- `Capture.Session.FinalizeCharacter`: requires that no stroke is open. Its only caller is the
  timer, and `Valid()` shows the timer is never armed while a stroke is open.
- `Capture.Session.ClearOutput`: requires that no stroke is open. The script would throw on the
  next pointer-move after it cleared the stroke object mid-stroke.
- `Capture.Session.ClearButton`: requires that no stroke is open, for the same reason as
  `ClearOutput`, which it calls. The script's click handler also runs mid-stroke, for example on
  a tap while a touch stroke is open.
- `Capture.Session.TimerFires`: browsers wrap a delay of 2^31 ms or more to a signed 32-bit
  value and run negative delays at once; the model waits the full delay.
- `TimeoutText.ParseInt`: reads digits into an exact integer. It does not model the loss of
  precision beyond 2^53, and it folds JavaScript's -0 into 0, since -0 is just as falsy and prints
  as "0".
- `TimeoutText.NumberToString`: writes integers in plain decimal. It does not model the exponent
  notation JavaScript uses from 10^21 on.
