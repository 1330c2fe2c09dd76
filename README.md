# Speech alignment viewer: a Dafny model

This project models the core of a small browser viewer for speech-recognition
alignments. The viewer takes one WhisperX-style record per audio clip and turns
its word list into a timeline of alignment entries. It draws one coloured
segment per entry and highlights the entries under the playback position.
Clicking a segment seeks with a short run-up. Hovering a segment opens a dialog
that compares the target phonemes with the detected ones, word by word.

There is one Dafny module per core source file:

- `Alignments` (`audio_data_model.dfy`) models `models/AudioDataModel.js`. It
  classifies entries as pause, silence or word. It maps raw records with
  `createAlignment`: the boundary with its `-1` index sentinel, the
  all-or-nothing phoneme annotation and the filtered dictionary link. It also
  models the constructor's one-shot `shift`/`pop` trim.
- `DialogElement` (`alignment_dialog.dfy`) models
  `components/alignment-dialog/element.js`. It covers `split(" ")`, the
  column diff built by `setAlignmentContent` (a `for` loop that fails on a
  token-count mismatch) and the `show`/`hide`/`_hovered` flags changed by
  `showModal`, `closeModal` and `onHoverIntent`.
- `ItemElement` (`alignment_item.dfy`) models
  `components/alignment-item/element.js`. It covers the `getColor` precedence,
  the `playing` attribute with its border and the hover-intent controller. The
  controller is written twice. A class with the source's fields has one
  method per handler. The same transitions are also written as functions on
  values, so that properties of whole event sequences can be proved. Each
  method's `ensures` ties the object's new state to the function.
- `AudioElement` (`audio_data_element.dfy`) models
  `components/audio-data-element/element.js`. It covers one item per
  alignment entry, the click-to-seek policy with its pause, seek and play
  order, and the `timeupdate` loop that marks each item playing or not.
- `Wrappers` (`wrappers.dfy`) holds `Option` and `Result`.

Times are `real`. The code only compares and copies them. JavaScript truthiness
of a number is modelled as `!= 0.0`.

Timers are modelled as a queue of pending callbacks with fresh positive ids.
Both delays are 100 ms, so callbacks run in the order they were armed.
`clearTimeout` removes a callback by its id. The event `TimerElapses` (the
method `FireTimer`) runs the oldest pending callback. Wall-clock time is not
modelled.

## Model

| member | source | states |
|---|---|---|
| `Alignments.KindOf` | models/AudioDataModel.js:103-113 | Each entry is exactly one of pause (`"pau"`), silence (`"sil"`) and word. `isWord` holds iff the word is neither, so a pause is never a word. |
| `Alignments.IsPause` | models/AudioDataModel.js:103-105 | True exactly for the word `"pau"`, so a pause is never silence. |
| `Alignments.IsWord` | models/AudioDataModel.js:111-113 | A word is never a pause. An entry that is not a word is `"pau"` or `"sil"`. |
| `Alignments.KeepLinkChars` | models/AudioDataModel.js:154-157 | The link suffix holds only characters of `[a-zA-Z ]` and is no longer than the word. It equals the word when the word is already clean. |
| `Alignments.KeepLinkCharsAppend` | models/AudioDataModel.js:154-157 | Filtering works per character and keeps order: filtering a concatenation concatenates the filtered parts. |
| `Alignments.KeepLinkCharsCounts` | models/AudioDataModel.js:154-157 | Each letter or space is kept exactly as often as it occurs. Every other character is removed. |
| `Alignments.KeepLinkCharsIdempotent` | models/AudioDataModel.js:154-157 | Filtering an already filtered word changes nothing. |
| `Alignments.CreateAlignment` | models/AudioDataModel.js:120-167 | `word`, `prominence` (from `prominence_strength`), `score`, `start`, `end` and `strength` are copied. `idx` holds the token indices, with `-1` for each absent one. `phoneme` is present iff all five fields are, and then holds copies of them. `link` is the wordreference prefix followed by `KeepLinkChars` of the word, so the suffix is clean and equals the word when the word is clean. |
| `Alignments.CreateAlignmentKind` | models/AudioDataModel.js:159-166 | Whether an entry is a pause or a word depends on the raw word alone. |
| `Alignments.MapEntries` | models/AudioDataModel.js:85-87 | There is one entry per raw record, in order, each built by `createAlignment`. |
| `Alignments.TrimEdges` | models/AudioDataModel.js:88-96 | The length is the input length, minus 1 if the first entry is not a word, minus 1 if the last remaining entry is not a word. The result is the contiguous slice that starts after the dropped front entry. |
| `Alignments.TrimDropsOnlyEdgeNonWords` | models/AudioDataModel.js:88-96 | At most one entry goes from each end, and every dropped entry is a non-word. |
| `Alignments.TrimEndsAreWords` | models/AudioDataModel.js:88-96 | When neither end has two non-words in a row, a non-empty result begins and ends with a word. |
| `Alignments.TrimNotChained` | models/AudioDataModel.js:88-96 | Removal is never chained: `[pau, pau, w, sil, sil]` becomes `[pau, w, sil]`. |
| `Alignments.TrimKeepsWordEdged` | models/AudioDataModel.js:88-96 | A sequence that already begins and ends with words is unchanged. |
| `Alignments.TrimAsWritten` | models/AudioDataModel.js:88-96 | The trim as the code stands fails iff the input is a single non-word entry. Otherwise it equals `TrimEdges`. |
| `Alignments.SinglePauseThrows` | models/AudioDataModel.js:88-95 | For a clip whose only entry is a pause, the code as written throws, while the corrected trim gives the empty timeline. |
| `Alignments.AudioDataModel.constructor` | models/AudioDataModel.js:82-97 | `filename` and `text` are copied. `alignment` is the mapped records after the one-shot trim. |
| `Alignments.Normalize` | models/AudioDataModel.js:82-97 | The normalised clip has the trimmed length. Entry `i` is `createAlignment` of raw record `i` plus the number dropped at the front. |
| `DialogElement.Split` | components/alignment-dialog/element.js:116-117 | `split(" ")` yields at least one token, and no token contains a space. |
| `DialogElement.JoinSplit` | components/alignment-dialog/element.js:116-117 | Joining the tokens with single spaces gives the string back. |
| `DialogElement.SplitCount` | components/alignment-dialog/element.js:116-117 | There is one more token than there are spaces. |
| `DialogElement.SplitJoin` | components/alignment-dialog/element.js:116-117 | Splitting a join of space-free tokens gives the tokens back. |
| `DialogElement.BuildColumns` | components/alignment-dialog/element.js:116-143 | It fails iff the two token counts differ. Otherwise `DiffColumns` holds: one target span and one detected span per token index, in order, carrying the tokens. Both spans in a column have the width of the longer token. The detected span is marked `error` iff the tokens differ, and target spans never are. |
| `DialogElement.ShowModalStep` | components/alignment-dialog/element.js:77-85 | `show` is set afterwards iff it was set before or the entry has phoneme data. Nothing else changes. |
| `DialogElement.ShowModalIdempotent` | components/alignment-dialog/element.js:77-85 | Showing twice is the same as showing once. |
| `DialogElement.CloseModalStep` | components/alignment-dialog/element.js:87-94 | Afterwards `show` is cleared, `hide` is set and `_hovered` is false. The leave listeners stay attached. |
| `DialogElement.CloseModalIdempotent` | components/alignment-dialog/element.js:87-94 | Closing twice is the same as closing once, so several leave listeners act as one. |
| `DialogElement.HoverIntentStep` | components/alignment-dialog/element.js:99-104 | `_hovered` becomes true and one more `mouseleave` listener is attached. `show` and `hide` do not change. |
| `DialogElement.BodyLeaveStep` | components/alignment-dialog/element.js:101-103 | Leaving the content closes the dialog iff a leave listener is attached. Otherwise nothing changes. |
| `DialogElement.InitialFlags` | components/alignment-dialog/element.js:58-61 | A new dialog is shown iff the entry has phoneme data. It is not hidden, not hovered and has no listeners. |
| `DialogElement.AlignmentDialog.constructor` | components/alignment-dialog/element.js:40-64 | With phoneme data whose token counts match, the content holds the target row and the detected row (satisfying `DiffColumns`) and the link, the hover handler is set, and the dialog is shown at once. With mismatched counts the constructor throws out of `setAlignmentContent` before anything is appended or shown. Without phoneme data the content stays empty and the dialog is not shown. |
| `DialogElement.AlignmentDialog.SetAlignmentContent` | components/alignment-dialog/element.js:109-160 | On a token-count mismatch it throws and appends nothing. Otherwise it appends the target row and the detected row, which satisfy `DiffColumns`, then the link, and it sets the hover handler. The earlier content is kept. |
| `DialogElement.AlignmentDialog.ShowModal` | components/alignment-dialog/element.js:77-85 | The new flags are `ShowModalStep` of the old ones. |
| `DialogElement.AlignmentDialog.CloseModal` | components/alignment-dialog/element.js:87-94 | The new flags are `CloseModalStep` of the old ones. |
| `DialogElement.AlignmentDialog.OnHoverIntent` | components/alignment-dialog/element.js:99-104 | The new flags are `HoverIntentStep` of the old ones. |
| `DialogElement.AlignmentDialog.OnContentMouseOver` | components/alignment-dialog/element.js:157-159 | `mouseover` on the content runs `onHoverIntent` only once the handler has been set. |
| `DialogElement.AlignmentDialog.OnContentMouseLeave` | components/alignment-dialog/element.js:101-103 | Every attached listener runs `closeModal`. The result is `BodyLeaveStep` of the old flags. |
| `ItemElement.GetColor` | components/alignment-item/element.js:134-147 | First match wins. A pause gives `--blue-4` whatever its phoneme data. A non-pause with exactly one phoneme error gives `--yellow-4`, and with more than one gives `--red-4`. Otherwise silence gives `--blue-1` and a word gives `--green-4`. Each case is an iff. |
| `ItemElement.StyledColorNeverBlue1` | components/alignment-item/element.js:112-127 | `setStyleProperties` colours only pauses and words, so a styled segment is never `--blue-1`. |
| `ItemElement.Cancel` | components/alignment-item/element.js:175-177 | `clearTimeout` leaves exactly the pending callbacks with other ids, and never adds any. |
| `ItemElement.CancelAppend` | components/alignment-item/element.js:175-177 | Cancelling works on each part of the queue separately, so the survivors keep their firing order. |
| `ItemElement.CancelAbsent` | components/alignment-item/element.js:175-177 | Clearing an id that is not pending changes nothing. |
| `ItemElement.OpenStep` | components/alignment-item/element.js:171-181 | If creating the dialog throws, nothing changes. Otherwise the new queue is the old one with the `_hoverOutTimeout` callback cancelled (in order, per `Cancel`), followed by a new show callback whose id goes to `_hoverTimeout`. An existing dialog is kept. When none exists and the entry has phoneme data, a dialog is created, and it starts shown. Without phoneme data no dialog is created. |
| `ItemElement.CloseStep` | components/alignment-item/element.js:186-197 | Arms a hide callback and records its id. Nothing else changes. |
| `ItemElement.TimerStep` | components/alignment-item/element.js:178-196 | The oldest callback leaves the queue. A show callback runs `showModal` on the dialog if there is one, and otherwise does nothing. A hide callback closes the dialog and cancels `_hoverTimeout` when `_hoverTimeout` is set, a dialog exists and it is not hovered. Otherwise it changes nothing else. No other field changes. |
| `ItemElement.ContentStep` | components/alignment-dialog/element.js:99-103 | `mouseover` on the content applies `onHoverIntent` to the dialog when the entry has phoneme data. It sets `_hovered`, attaches one more leave listener and keeps `show` and `hide`. `mouseleave` runs the attached `closeModal` listeners. No timer field changes. |
| `ItemElement.Step` | components/alignment-item/element.js:67-71 | Events are dispatched to the listeners the constructor wires. Timer ids never go back. A dialog is never dropped. Leave and blur arm one hide callback. Content events leave the queue alone. |
| `ItemElement.Run` | components/alignment-item/element.js:67-71 | Events are handled one at a time, in order. Timer ids never go back over a whole sequence. |
| `ItemElement.RunAppend` | components/alignment-item/element.js:67-71 | Handling two event sequences one after the other equals handling their concatenation. |
| `ItemElement.StepKeepsInv` | components/alignment-item/element.js:171-197 | Every transition keeps the invariant. Timer ids are fresh. A dialog exists only for an entry whose phoneme data splits into equal token counts, and then `_hoverTimeout` is set. |
| `ItemElement.RunKeepsInv` | components/alignment-item/element.js:171-197 | The invariant holds after any sequence of events. |
| `ItemElement.NoDialogWithoutDiffableData` | components/alignment-item/element.js:172-174 | An entry without phoneme data, or with mismatched token counts, never gets a dialog. |
| `ItemElement.DialogKept` | components/alignment-item/element.js:172-174 | Once created, the dialog stays, so an item has at most one dialog. |
| `ItemElement.FocusIsHover` | components/alignment-item/element.js:67-71 | Focus and blur make the same transitions as mouseenter and mouseleave. |
| `ItemElement.HideClosesUnlessHovered` | components/alignment-item/element.js:187-196 | In a reachable state, a hide callback closes the dialog exactly when it is not hovered. The `_hoverTimeout` test never blocks. |
| `ItemElement.FirstHoverShowsAtOnce` | components/alignment-item/element.js:171-181 | The first mouseenter shows the dialog without waiting, because its constructor shows it. A leave followed by both callbacks closes it. |
| `ItemElement.QuickLeaveStillShows` | components/alignment-item/element.js:171-197 | Leaving does not cancel a pending show. Enter followed at once by leave still shows the dialog, and then closes it. |
| `ItemElement.HoverHoldKeepsDialog` | components/alignment-item/element.js:186-197 | Entering the dialog content before the hide callback runs keeps the dialog shown. Leaving the content then closes it. |
| `ItemElement.ReenterCancelsHide` | components/alignment-item/element.js:175-177 | Leaving and re-entering leaves only the new show callback behind. The hide callback is gone. |
| `ItemElement.LeaveBlurReenterCloses` | components/alignment-item/element.js:171-197 | Only the latest hide id is remembered. After a leave, a blur and a re-enter, the first hide callback still closes the dialog and cancels the new show. |
| `ItemElement.AlignmentItem.constructor` | components/alignment-item/element.js:56-72 | A new item has no dialog, no timers and no `playing` value. It has a colour iff it is a pause or a word. |
| `ItemElement.AlignmentItem.CreateDialogElement` | components/alignment-item/element.js:203-212 | The dialog is constructed. If its constructor threw (mismatched token counts), nothing is assigned. Otherwise the fresh dialog for the entry is assigned, with its initial flags and its invariant holding. |
| `ItemElement.AlignmentItem.HandleDialogOpen` | components/alignment-item/element.js:171-181 | The new state is `OpenStep` of the old one. It reports a throw. It never replaces an existing dialog. |
| `ItemElement.AlignmentItem.HandleDialogClose` | components/alignment-item/element.js:186-197 | The new state is `CloseStep` of the old one. |
| `ItemElement.AlignmentItem.FireTimer` | components/alignment-item/element.js:178-196 | The new state is `TimerStep` of the old one. The dialog keeps its diff content, its hover handler and its own invariant. |
| `ItemElement.AlignmentItem.AttributeChangedCallback` | components/alignment-item/element.js:79-99 | The callback runs with the attribute already holding the new value. An unchanged value is a no-op. For a new `playing` value, the attribute keeps that value, and the border becomes blue for `"true"` and transparent for anything else, including a removed or empty attribute. |
| `ItemElement.AlignmentItem.WritePlayingAttribute` | components/alignment-item/element.js:79-92 | Writing or removing the `playing` attribute stores the value. The border follows the new value when it differs from the previous one, and stays otherwise. |
| `ItemElement.AlignmentItem.SetPlaying` | components/alignment-item/element.js:98-100 | A non-empty value is stored. The border changes only when the value differs from the previous one. |
| `AudioElement.SeekTarget` | components/audio-data-element/element.js:58-71 | No seek happens when the clicked entry's start is 0. Otherwise the target is the end of entry `i-3` when `i > 3`, else the entry's own start. |
| `AudioElement.SeekTargetIsRunUp` | components/audio-data-element/element.js:64-71 | On an ordered timeline, the seek target is never later than the clicked entry's start. |
| `AudioElement.SeekExamples` | components/audio-data-element/element.js:64-71 | Clicking entry 5 of 10 seeks to the end of entry 2. Clicking entry 2 seeks to its own start. |
| `AudioElement.ClickControls` | components/audio-data-element/element.js:57-75 | A pause always comes first and a play always last. A seek sits between them iff there is a target. |
| `AudioElement.ZeroBoundNeverActive` | components/audio-data-element/element.js:87-92 | An entry whose start or end is 0 is never marked playing. |
| `AudioElement.AtMostOneActive` | components/audio-data-element/element.js:85-97 | With gaps between consecutive entries, no two entries are active at the same time. |
| `AudioElement.TouchingEntriesBothActive` | components/audio-data-element/element.js:85-97 | Exclusivity needs the gaps: two ordered entries that touch at `t` are both active at `t`. |
| `AudioElement.PlayingValue` | components/audio-data-element/element.js:87-96 | The value written is `"true"` iff the entry is active, and `"false"` otherwise. |
| `AudioElement.AudioDataElement.constructor` | components/audio-data-element/element.js:35-78 | There is one fresh item per alignment entry, in array order, each in its initial state. With only a URL there are no items. |
| `AudioElement.AudioDataElement.OnItemClick` | components/audio-data-element/element.js:57-75 | Appends the click's pause, optional seek and play. `currentTime` becomes the seek target when there is one. |
| `AudioElement.AudioDataElement.OnTimeUpdate` | components/audio-data-element/element.js:81-100 | Every item is evaluated on its own and gets `"true"` iff it is active at the current time, else `"false"`. The border follows each change. Each item's dialog and hover state (timers, timer ids) are untouched. |

## Behaviour worth knowing

The model follows the code, which behaves as follows:

- **Boundary check.** No error is raised for a boundary whose end precedes its
  start. The code performs no such check.
- **First hover.** The first hover shows the dialog at once rather than after
  the 100 ms show delay, because the dialog's constructor calls `showModal`
  (`FirstHoverShowsAtOnce`).
- **Leaving before the show.** Leaving before the show delay does not cancel
  the show callback (`QuickLeaveStillShows`).
- **Leave listeners.** Closing the dialog does not detach the content's leave
  listeners. `closeModal` removes a different function from a different
  element.
- **The `_hoverTimeout` gate.** The hide callback's test of `_hoverTimeout`
  never blocks a close once a dialog exists, because `_hoverTimeout` is never
  reset (`HideClosesUnlessHovered`).
- **Playing marks.** An entry starting or ending at time 0 is never marked
  playing. Entries that touch at a boundary are both marked playing at that
  instant.
- **Trim.** The trim guarantees word ends only when no end has two non-words
  in a row.
- **Open dialogs.** Nothing limits a clip to one open dialog. Each item opens
  and closes its own dialog, independently of the others.

## Findings

| source | as written | input that shows it | evidently intended | confidence | as-written member | corrected member |
|---|---|---|---|---|---|---|
| models/AudioDataModel.js:88-95 | After `shift`, the array may be empty. Then `isWord(this.alignment[-1])` reads `.word` of `undefined` and the constructor throws a TypeError. | A record whose `whisperx_alignment` is a single `{word: "pau", ...}` | Drop the lone pause and return an empty alignment | high (not executed) | `Alignments.TrimAsWritten` (with `Alignments.SinglePauseThrows`) | `Alignments.TrimEdges` (with `Alignments.TrimDropsOnlyEdgeNonWords`, `Alignments.TrimEndsAreWords`), used by `Alignments.AudioDataModel.constructor` |

## Left out

- **The recorder, list, data service and mock.**
  `components/audio-recorder/element.js`,
  `components/audio-data-list/element.js`, `api/DataService.js` and
  `mock/mock.js` are not part of this model. They cover microphone capture,
  `fetch`, promises and container appends.
- **Templates and attribute names.** The `template.js` files and the
  `props/*.js` attribute tables are not modelled. Only the `"playing"`
  attribute name is used.
- **Segment geometry.** `setStyleProperties` computes height and width with
  floating-point arithmetic and truncates them as strings. Only its choice of
  colour is modelled.
- **Word element.** `createWordElement` only builds display text.
- **DOM details.** The dialog's pixel position, the `target`/`onclick`
  settings of the link, `connectedCallback`'s null check and
  `attributeChangedCallback` of the dialog and the audio element are not
  modelled. They do not change state.
- **Event nesting.** The dialog is appended inside the segment's slot, so
  the browser fires no `mouseleave` on the slot when the pointer moves into
  the dialog, and fires `mouseenter` on it when the pointer enters the
  dialog from outside. The model takes slot events and dialog-content events
  as independent inputs, a superset of the sequences the browser delivers.
- **Wall-clock time.** Timer delays are not modelled. Pending callbacks run
  in the order they were armed, which is what two equal 100 ms delays
  guarantee.
- **Timer ids.** Timer ids are drawn from a per-item counter. The browser's
  counter is shared by the page. Only the uniqueness of ids matters here.
- **Playback.** The audio element's own time advance is outside the model.
  `OnTimeUpdate` reads `currentTime`, and only the requests and
  `currentTime` assignments of a click are recorded.
- **JSON `null`, NaN and fractional counts.** A JSON `null` in one of the
  phoneme fields counts as present in the code. The model's `Option` only
  distinguishes present from absent. NaN times are not modelled. Phoneme
  error counts are integers.
- **Token widths.** A span's width is the token length as a count of
  characters. JavaScript's `.length` counts UTF-16 code units, so a token
  with characters outside the Basic Multilingual Plane would get a wider
  span in the browser than in the model.
- **Live model object.** `AudioDataElement` receives the clip's data as a
  value. The code keeps a reference to the model object, which nothing
  mutates after construction.
- `ItemElement.AlignmentItem.FireTimer`: requires a pending callback,
  because the browser only runs callbacks that are pending.
