# Object-labelling page: state logic, modelled in Dafny

The page shows live detections from a pretrained vision model over the camera
feed. A click on a detection captures it, the user types a label, and the
labelled object is saved to browser local storage under a single key. This
project models the state logic of `static/app.js` that sits under the browser
glue, as one immutable record (`App.State`) and pure transitions:

- **save** (`App.Save`): trims the typed label, refuses an empty label or a
  missing capture, then upserts `{...capture, label}` into the working list
  (`LabelCollection.Upsert`: in place at the first record with the same
  `(class, label)` pair, appended otherwise), then writes storage;
- **delete** (`App.Delete`): splices out an in-range index, otherwise no-op;
- **derived index** (`LabelIndex.DeriveIndex`): the class -> label map folded
  from the persisted list, a later record overwriting an earlier one;
- **hit-test** (`HitTest.FirstHit`, `App.Click`): the first detection in list
  order whose closed box contains the click point;
- **start/stop and the detection loop** (`App.Start`, `App.Stop`,
  `App.AnimationFrame`, `App.CompleteFrame`): `detectFrame` is split at its
  `await`, so a detection call can be in flight while other events happen;
- **the event loop** (`App.Step`, `App.Run`) over all of these.

Storage is the field `stored: Option<seq<LabeledObject>>` (None while the key is
absent, which reads as the empty list). Whether a storage write succeeds is a
boolean input of save and delete. The detection model's answer for a frame is
an input too (`None` when it throws); so are the camera's and model loader's
success at start-up, the click coordinates and the typed text.

The label-data invariant `App.LabelInv` holds, from a start-up whose stored
list has no duplicate `(class, label)` pair, through every event, for the
event loop as the code has it (`App.RunAsWritten`) as well as for the
corrected one (`App.Run`): no `(class, label)` pair occurs twice in the
working or the persisted list, and once the listeners are attached the derived
index equals the one the PERSISTED list yields. The full invariant `App.Inv`
adds that a stopped session shows no boxes and a zero count; that part holds
only when `detectFrame` checks the flag again after the model call, as the
corrected `App.CompleteFrame` does (see Findings).

Where the code and the behaviour described for it differ, the model follows the code:

- The capture is never cleared, neither after a save nor when the dialog is
  dismissed (`App.Save` keeps `capture`; `DialogDismissed` only closes the dialog).
- The working list is changed before the storage write and is not restored
  when the write fails (`App.SaveFailureDiverges`, `App.DeleteFailureDiverges`).
  The derived index is rebuilt only from storage and only on success, so it
  keeps showing storage.
- An absent key, or a stored JSON value that is falsy (`null`, `false`, `0`,
  `""`), reads as the empty list; malformed stored JSON makes `JSON.parse`
  throw and is not handled (see Left out).
- After its `await`, `detectFrame` does not check the flag again (see Findings).
- The derived index shows, per class, the label of the class's LAST record in
  list order, not the label saved most recently: a re-save overwrites its
  record in place, so saving "A", then "B", then "A" again for a cup leaves
  "B" highlighted (`Scenarios.ResavedLabelNotShown`,
  `Scenarios.ResaveThroughHandler`).

## Model

| member | source | states |
|---|---|---|
| Text.Trim | static/app.js:270 | The trimmed label is a slice of the input with only whitespace before and after it, and it neither starts nor ends with whitespace |
| Text.TrimEmptyIff | static/app.js:270-271 | The trimmed label is empty exactly when the typed text is all whitespace, which is the case save rejects as an empty label |
| Text.TrimIdempotent | static/app.js:270 | Trimming an already trimmed label changes nothing |
| LabelCollection.FindPair | static/app.js:275-277 | The lookup answers the lowest index holding the same class and label, with no earlier record matching, and answers none exactly when no record has that pair |
| LabelCollection.Upsert | static/app.js:279-291 | With an existing pair: same length, the record at the first matching index becomes the new record, every other position unchanged; without one: exactly one record appended, the prefix unchanged |
| LabelCollection.RemoveAt | static/app.js:256 | Removing one element at the index: length drops by one, elements before it keep their positions, elements after it shift down by one, and the multiset loses exactly that element |
| LabelCollection.UpsertHasPair | static/app.js:279-291 | The saved record is in the list after a save |
| LabelCollection.UpsertPreservesNoDuplicates | static/app.js:275-291 | Saving keeps the at-most-one-record-per-(class, label) rule |
| LabelCollection.UpsertIdempotent | static/app.js:275-291 | Saving the same record twice leaves the list as one save does: the second save overwrites, it does not duplicate |
| LabelCollection.RemoveAtPreservesNoDuplicates | static/app.js:255-256 | Deleting keeps the at-most-one-record-per-(class, label) rule |
| LabelIndex.DeriveIndex | static/app.js:149-155 | The index has a key for exactly the classes that occur in the persisted list |
| LabelIndex.LastOfClass | static/app.js:151-154 | Reference for the fold: the answer is a record of the class with no later record of that class, and there is none exactly when no record has the class |
| LabelIndex.DeriveIndexIsLastLabel | static/app.js:151-154 | The fold agrees with the backward search for every class: the class is a key exactly when some record has it, and its entry is the label of the last record of that class |
| HitTest.FirstHit | static/app.js:380-383 | The selected detection is the lowest-indexed one whose closed box contains the point; none is selected exactly when no box contains it |
| Records.WithLabel | static/app.js:281-290 | The saved record keeps the capture's class, score and box and carries the trimmed label |
| Records.Contains | static/app.js:382 | A point is inside a box exactly when it lies within both closed intervals; edges and corners count, and a box with a negative width or height contains nothing |
| App.Load | static/app.js:22 | An absent storage key reads as the empty list, a present one as the list it holds |
| App.Init | static/app.js:392-399 | At start-up both the working list and storage are the given stored value (absent key: empty list); listeners are attached exactly when the camera came up, and then the index is derived from storage, otherwise it is empty; the model is loaded exactly when camera and model loading both succeed; nothing is detecting, drawn, captured, typed, shown in a dialog or banner, or in flight |
| App.Start | static/app.js:342-353 | Without a model nothing changes; with one the flag is raised and one detection call is left in flight, nothing else changing |
| App.Stop | static/app.js:356-363 | Whatever the prior state, the flag is down, the overlay is empty and the count is zero, and nothing else changes |
| App.AnimationFrame | static/app.js:99 | A queued frame that finds the flag down or no model only consumes itself; otherwise it starts one more detection call; nothing else changes |
| App.Annotate | static/app.js:108-120 | One drawn box per detection, in detection order |
| App.CompleteFrameAsWritten | static/app.js:101-145 | As written: a result becomes the current detections, is drawn against the index rebuilt from storage, counted, and the loop re-queued whatever the flag, nothing else changing; a failure stops the session; the label lists and capture are untouched |
| App.CompleteFrame | static/app.js:98-145 | Corrected: with the flag down the late result is discarded, otherwise as written; a blank stopped session stays blank |
| App.Click | static/app.js:372-388 | When not detecting, or when no box contains the point, nothing changes; otherwise the first containing detection becomes the capture and the dialog opens, nothing else changing |
| App.Save | static/app.js:269-306 | An all-whitespace label or no capture changes nothing at all; otherwise the working list is upserted with the capture relabelled with the trimmed text and the capture is kept; on a good write storage and index follow the list and the input is cleared and the dialog closed; on a failed write storage, index, input and dialog keep their old values and the save banner shows; detections, the detection loop and the listener and model flags never change |
| App.Delete | static/app.js:254-266 | An out-of-range index changes nothing; an in-range one removes that record from the working list; storage and index follow on a good write and keep their old values, with the delete banner shown, on a failed one; nothing else changes, the typed text and the dialog included |
| App.Step | static/app.js:365-388 | User events do nothing when start-up never attached the listeners; with them attached, start, stop, a canvas click, save and a confirmed delete run their handlers, typing sets only the input and dismissing the dialog only closes it; an outstanding frame callback runs the frame guard and an outstanding detection result the rechecking completion, while one with none outstanding does nothing; the banner timer only hides the banner |
| App.Run | static/app.js:365-388 | No events leave the state alone and one event is one step |
| App.RunConcat | static/app.js:365-388 | Running two event sequences in turn is running their concatenation |
| App.RunAsWrittenConcat | static/app.js:98-145 | Running two event sequences in turn through the as-written loop is running their concatenation |
| App.StepAsWritten | static/app.js:98-145 | The event loop as written differs from the corrected one only in a detection result, which is drawn whatever the flag |
| App.RunAsWritten | static/app.js:98-145 | No events leave the state alone and one event is one as-written step |
| App.InitEstablishesInv | static/app.js:22 | Starting from a duplicate-free store the session invariant holds |
| App.SavePreservesInv | static/app.js:275-294 | Save keeps the session invariant |
| App.DeletePreservesInv | static/app.js:255-259 | Delete keeps the session invariant |
| App.FramePreservesInv | static/app.js:98-145 | Finishing a detection call, with or without a result, keeps the session invariant |
| App.ControlPreservesInv | static/app.js:342-388 | Start, stop, a canvas click and a queued frame each keep the session invariant |
| App.StepPreservesInv | static/app.js:365-388 | Every event keeps the session invariant |
| App.RunPreservesInv | static/app.js:365-388 | Any sequence of events keeps the session invariant |
| App.StepAsWrittenPreservesLabelInv | static/app.js:98-145 | With the code as written every event still keeps both lists duplicate-free and the index equal to the one storage yields |
| App.SaveKeepsLabelInv | static/app.js:275-294 | Save, with either write outcome, keeps both lists duplicate-free and the index equal to the one storage yields |
| App.DeleteKeepsLabelInv | static/app.js:255-259 | Delete, in or out of range and with either write outcome, keeps the label-data invariant |
| App.FrameAsWrittenKeepsLabelInv | static/app.js:101-145 | Finishing a detection call without the flag recheck still keeps the label-data invariant |
| App.ControlKeepsLabelInv | static/app.js:342-388 | Start, stop, a canvas click and a queued frame each keep the label-data invariant |
| App.RunAsWrittenPreservesLabelInv | static/app.js:98-145 | The same for any sequence of events of the as-written loop |
| App.StepKeepsSynced | static/app.js:253-306 | Every event except a save or delete whose write would fail keeps the working list equal to storage |
| App.RunKeepsSynced | static/app.js:253-306 | A sequence of events with no save or delete whose write would fail keeps the working list equal to storage |
| App.StepAsWrittenKeepsSynced | static/app.js:98-145 | The same for one event of the loop as written: a late detection result touches neither copy |
| App.RunAsWrittenKeepsSynced | static/app.js:98-145 | The same for any sequence of events of the loop as written |
| App.SaveFailureDiverges | static/app.js:281-304 | A failed write of a new pair leaves the working list one record longer than storage while the index still equals the one storage yields |
| App.DeleteFailureDiverges | static/app.js:256-263 | A failed in-range delete leaves the working list one record shorter than storage while the index still equals the one storage yields |
| App.HighlightFollowsStorage | static/app.js:105-120 | A drawn box is highlighted exactly when the last persisted record of its class has a non-empty label, and it shows that label |
| App.StaleFrameAfterStop | static/app.js:98-140 | As written, start, stop, then a late detection result leaves a box drawn and a count of one with detection off |
| App.LateFrameDiscarded | static/app.js:98-140 | With the flag rechecked, the same late result leaves the overlay empty and the count zero |
| Scenarios.FirstListedWins | static/app.js:380-383 | A cup at score 0.42 listed before an overlapping bottle at 0.9 is the one a click in both selects |
| Scenarios.LabelIt | static/app.js:372-388 | Stop, start, a frame detecting one object and a click on its corner capture that object and open the dialog with the typed text |
| Scenarios.TrimMug | static/app.js:270 | The typed text "  My Mug " is saved as "My Mug" |
| Scenarios.FirstMugSave | static/app.js:269-300 | Saving a cup as "My Mug" into an empty store stores exactly that record and indexes cup as "My Mug" |
| Scenarios.SecondMugSave | static/app.js:275-284 | Saving another cup as "My Mug" overwrites the record: still one record, now with the second cup's fields |
| Scenarios.DeleteMug | static/app.js:254-260 | Deleting that only record empties storage and the index |
| Scenarios.ResavedLabelNotShown | static/app.js:149-155 | Upserting cup "A", then cup "B", then cup "A" again leaves the list as "A", "B" and the index showing "B" for cup |
| Scenarios.ResaveThroughHandler | static/app.js:269-300 | A successful save of cup "A" when "A" and then "B" are stored leaves storage unchanged and "B" as cup's saved label |
| Scenarios.MugLifecycle | static/app.js:254-306 | The full walk-through goes from an empty store to one record, stays at one record, and returns to an empty store |

## Findings

| source | as written | input that shows it | evidently intended | confidence | as-written member | corrected member |
|---|---|---|---|---|---|---|
| static/app.js:98-140 | `detectFrame` checks `isDetecting` only before `await model.detect`; after it resumes it draws the boxes, sets the count and queues the next frame without checking again | Start, then Stop while the first detection call is in flight, then that call returns one detection: the canvas shows the box and the counter shows 1 with detection off | stopping leaves an empty overlay and a zero count; a result that arrives after the stop is discarded | medium, not executed | App.CompleteFrameAsWritten (counterexample App.StaleFrameAfterStop) | App.CompleteFrame (App.LateFrameDiscarded, App.StepPreservesInv) |

`App.Step` uses the corrected `App.CompleteFrame`; `App.StepAsWritten` is the
same loop with `App.CompleteFrameAsWritten`, and keeps `App.LabelInv` but not
`App.Inv`. Even with the correction, a Stop
followed by Start while a call is in flight lets the late result through (the
flag is up again), after which two frame loops run side by side; the model
allows this (`pending` and `scheduled` are counts) but states no property
about it.

## Left out

- Camera acquisition, stream track stopping and the metadata/playing promise: browser device I/O; only the camera's success at start-up is an input of `App.Init`.
- Loading the detection model and running it: an external library; its success and each frame's detections (or failure) are inputs.
- Canvas drawing, text measuring, colours, the thumbnail image of a capture and the timing of `requestAnimationFrame`: rendering; the overlay is modelled as the list of drawn detections with their saved label.
- The score percentage text (`toFixed`): floating-point formatting.
- The list markup, the repeated `addEventListener` on each render, the confirmation dialog (only a confirmed delete is an event) and status texts: UI only.
- Button enablement: the page disables the start button while detecting and the stop button while not (static/app.js:349-350, 358-359), so it never delivers those clicks then; the model accepts every event in every state (a second start while detecting opens a second call in flight), which over-approximates the page, and every property is stated over all event sequences.
- JSON values in storage other than a list this code wrote: a falsy one reads as the empty list in the code, a truthy non-list one is not handled; the model's storage holds only an absent key or a list.
- The banner's 5-second timer: `BannerTimeout` hides the banner whenever it fires; one timer per failure and the delay are not modelled.
- JSON encoding and decoding: the stored value is the list itself; a malformed stored value, which makes `JSON.parse` throw, is not modelled.
- Conversion from the mouse position on the page to canvas coordinates: the click point is an input, and coordinates are reals (no NaN, no rounding).
- Object-key lookups that hit inherited properties (a class named like `constructor` or `__proto__`): the detector's class names do not collide with them, so the index is a plain map.
- The page-unload handler, which stops tracks and detection on leaving the page.
- App.Annotate: states only that boxes follow the detections; the highlight rule is stated by App.HighlightFollowsStorage.
