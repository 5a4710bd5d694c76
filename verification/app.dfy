/** The application state of the labelling page as one immutable record, and
    every handler that changes it as a pure transition. Browser effects that
    only paint (canvas strokes, list markup, status text) are not state here. */
module App {
  import opened Wrappers
  import opened Records
  import opened Text
  import opened LabelCollection
  import opened LabelIndex
  import opened HitTest

  /** Which storage write failed; it selects the banner's message. */
  datatype StorageFailure = SaveFailed | DeleteFailed

  /** One box drawn on the canvas: the detection, and the saved label that puts
      it in the highlighted style (None: the plain style, class name only). */
  datatype OverlayBox = OverlayBox(detection: Detection, savedLabel: Option<string>)

  datatype State = State(
    handlersInstalled: bool,             // start-up got past the camera, so listeners are attached
    modelLoaded: bool,                   // state.model is set
    isDetecting: bool,
    detections: seq<Detection>,          // state.currentDetections
    overlay: seq<OverlayBox>,            // the boxes currently drawn on the canvas
    count: nat,                          // the number shown in the results counter
    pending: nat,                        // detectFrame calls suspended at `await model.detect`
    scheduled: nat,                      // detectFrame callbacks queued by requestAnimationFrame
    labeled: seq<LabeledObject>,         // state.labeledObjects, the working copy
    capture: Option<Detection>,          // state.currentCapture
    savedLabels: map<string, string>,    // the derived class -> label index
    dialogOpen: bool,                    // the label dialog is shown
    input: string,                       // the text in the label input field
    banner: Option<StorageFailure>,      // the storage-error banner, when shown
    stored: Option<seq<LabeledObject>>)  // the storage key; None while it is absent

  /** Reading the storage key: an absent key reads as the empty list. Other
      stored JSON values are outside the model (the key only ever holds a list). */
  function Load(stored: Option<seq<LabeledObject>>): (saved: seq<LabeledObject>)
    ensures stored.None? ==> saved == []
    ensures stored.Some? ==> saved == stored.value
  {
    match stored
    case None => []
    case Some(list) => list
  }

  /** The working copy equals what storage holds. */
  ghost predicate Synced(w: State) {
    w.labeled == Load(w.stored)
  }

  /** The derived index is the one the persisted collection yields. */
  ghost predicate IndexCurrent(w: State) {
    w.savedLabels == DeriveIndex(Load(w.stored))
  }

  /** A stopped session shows no boxes and a zero count. */
  ghost predicate StoppedIsBlank(w: State) {
    !w.isDetecting ==> w.count == 0 && w.overlay == []
  }

  /** The label-data part of the session invariant: no duplicate pair in
      either copy, and the index mirrors storage once listeners run. */
  ghost predicate LabelInv(w: State) {
    && NoDuplicatePairs(w.labeled)
    && NoDuplicatePairs(Load(w.stored))
    && (w.handlersInstalled ==> IndexCurrent(w))
  }

  /** The session invariant, established at start-up and kept by every event
      of `Step`, whose detection loop rechecks the flag after the model call. */
  ghost predicate Inv(w: State) {
    LabelInv(w) && StoppedIsBlank(w)
  }

  // ---------------------------------------------------------------------------
  // Start-up

  /** Script load reads the working copy from storage; the page-loaded handler
      then opens the camera, loads the model (whose failure it absorbs), rebuilds
      the index and attaches the listeners. A camera failure skips all of that. */
  function Init(stored: Option<seq<LabeledObject>>, cameraOk: bool, modelOk: bool): (w: State)
    ensures w.stored == stored && w.labeled == Load(stored)
    ensures Synced(w)
    ensures w.handlersInstalled == cameraOk
    ensures cameraOk ==> IndexCurrent(w)
    ensures !cameraOk ==> w.savedLabels == map[]
    ensures w.modelLoaded <==> cameraOk && modelOk
    ensures !w.isDetecting && w.count == 0 && w.overlay == [] && w.detections == []
    ensures w.capture.None? && !w.dialogOpen && w.input == "" && w.banner.None?
    ensures w.pending == 0 && w.scheduled == 0
  {
    State(
      handlersInstalled := cameraOk,
      modelLoaded := cameraOk && modelOk,
      isDetecting := false,
      detections := [],
      overlay := [],
      count := 0,
      pending := 0,
      scheduled := 0,
      labeled := Load(stored),
      capture := None,
      savedLabels := if cameraOk then DeriveIndex(Load(stored)) else map[],
      dialogOpen := false,
      input := "",
      banner := None,
      stored := stored)
  }

  // ---------------------------------------------------------------------------
  // Detection loop

  /** The part of detectFrame before its `await`: the guard, then the call to
      the model is left in flight. */
  function BeginFrame(w: State): State {
    if !w.isDetecting || !w.modelLoaded then w
    else w.(pending := w.pending + 1)
  }

  /** startDetection: refuses without a model; otherwise raises the flag and
      runs detectFrame, which leaves one detection call in flight. */
  function Start(w: State): (r: State)
    ensures !w.modelLoaded ==> r == w
    ensures w.modelLoaded ==> r == w.(isDetecting := true, pending := w.pending + 1)
  {
    if !w.modelLoaded then w
    else BeginFrame(w.(isDetecting := true))
  }

  /** stopDetection: lowers the flag, clears the canvas and zeroes the count,
      whatever the prior state; nothing else changes. */
  function Stop(w: State): (r: State)
    ensures !r.isDetecting && r.count == 0 && r.overlay == []
    ensures r.(isDetecting := w.isDetecting, count := w.count, overlay := w.overlay) == w
  {
    w.(isDetecting := false, overlay := [], count := 0)
  }

  /** A queued animation-frame callback runs detectFrame. */
  function AnimationFrame(w: State): (r: State)
    requires w.scheduled > 0
    ensures !w.isDetecting || !w.modelLoaded ==> r == w.(scheduled := w.scheduled - 1)
    ensures w.isDetecting && w.modelLoaded ==>
      r == w.(scheduled := w.scheduled - 1, pending := w.pending + 1)
  {
    BeginFrame(w.(scheduled := w.scheduled - 1))
  }

  /** The boxes detectFrame draws: each detection, highlighted with its class's
      saved label when `savedLabels[class]` is a non-empty string. */
  function Annotate(ds: seq<Detection>, index: map<string, string>): (r: seq<OverlayBox>)
    ensures |r| == |ds|
    ensures forall i :: 0 <= i < |ds| ==> r[i].detection == ds[i]
  {
    seq(|ds|, i requires 0 <= i < |ds| =>
      var c := ds[i].cls;
      OverlayBox(ds[i], if c in index && index[c] != "" then Some(index[c]) else None))
  }

  /** The part of detectFrame after its `await`, as the code has it: a result
      is drawn and the loop re-queued WITHOUT looking at the flag again; a failed
      detection stops the session. */
  function CompleteFrameAsWritten(w: State, result: Option<seq<Detection>>): (r: State)
    requires w.pending > 0
    ensures r.pending == w.pending - 1
    ensures result.Some? ==>
      && r.isDetecting == w.isDetecting
      && r.detections == result.value
      && r.count == |result.value|
      && |r.overlay| == |result.value|
      && IndexCurrent(r)
      && r.scheduled == w.scheduled + 1
    ensures result.Some? ==>
      var index := DeriveIndex(Load(w.stored));
      r == w.(pending := w.pending - 1, detections := result.value, savedLabels := index,
              overlay := Annotate(result.value, index), count := |result.value|,
              scheduled := w.scheduled + 1)
    ensures result.None? ==> !r.isDetecting && r.count == 0 && r.overlay == []
    ensures result.None? ==> r == Stop(w.(pending := w.pending - 1))
    ensures r.labeled == w.labeled && r.stored == w.stored && r.capture == w.capture
  {
    var w1 := w.(pending := w.pending - 1);
    match result
    case None => Stop(w1)
    case Some(ds) =>
      var index := DeriveIndex(Load(w.stored));
      w1.(detections := ds, savedLabels := index, overlay := Annotate(ds, index),
          count := |ds|, scheduled := w1.scheduled + 1)
  }

  /** The part of detectFrame after its `await`, with the flag checked again
      before drawing: a result that arrives after a stop is discarded. */
  function CompleteFrame(w: State, result: Option<seq<Detection>>): (r: State)
    requires w.pending > 0
    ensures !w.isDetecting ==> r == w.(pending := w.pending - 1)
    ensures w.isDetecting ==> r == CompleteFrameAsWritten(w, result)
    ensures StoppedIsBlank(w) ==> StoppedIsBlank(r)
  {
    if !w.isDetecting then w.(pending := w.pending - 1)
    else CompleteFrameAsWritten(w, result)
  }

  // ---------------------------------------------------------------------------
  // Capture, save and delete

  /** The canvas click handler: while detecting, captures the first detection
      whose box contains the point and opens the label dialog. */
  function Click(w: State, px: real, py: real): (r: State)
    ensures !w.isDetecting ==> r == w
    ensures (forall j :: 0 <= j < |w.detections| ==> !Contains(w.detections[j].bbox, px, py)) ==> r == w
    ensures w.isDetecting && (exists j :: 0 <= j < |w.detections| && Contains(w.detections[j].bbox, px, py)) ==>
      exists k :: && 0 <= k < |w.detections|
                  && Contains(w.detections[k].bbox, px, py)
                  && (forall j :: 0 <= j < k ==> !Contains(w.detections[j].bbox, px, py))
                  && r == w.(capture := Some(w.detections[k]), dialogOpen := true)
  {
    if !w.isDetecting || |w.detections| == 0 then w
    else
      match FirstHit(w.detections, px, py)
      case None => w
      case Some(k) => w.(capture := Some(w.detections[k]), dialogOpen := true)
  }

  /** saveLabeledObject. The list is changed before storage is written, and a
      failed write neither undoes that change nor rebuilds the index. */
  function Save(w: State, writeOk: bool): (r: State)
    ensures AllWhitespace(w.input) || w.capture.None? ==> r == w
    ensures !AllWhitespace(w.input) && w.capture.Some? ==>
      var rec := WithLabel(w.capture.value, Trim(w.input));
      && r.labeled == Upsert(w.labeled, rec)
      && r.capture == w.capture
      && r.isDetecting == w.isDetecting && r.count == w.count && r.overlay == w.overlay
      && (writeOk ==> Synced(r) && IndexCurrent(r) && !r.dialogOpen && r.input == "" && r.banner == w.banner)
      && (!writeOk ==> && r.stored == w.stored && r.savedLabels == w.savedLabels
                       && r.banner == Some(SaveFailed) && r.dialogOpen == w.dialogOpen && r.input == w.input)
    ensures !AllWhitespace(w.input) && w.capture.Some? ==>
      var labeled := Upsert(w.labeled, WithLabel(w.capture.value, Trim(w.input)));
      && (writeOk ==> r == w.(labeled := labeled, stored := Some(labeled), savedLabels := DeriveIndex(labeled),
                              dialogOpen := false, input := ""))
      && (!writeOk ==> r == w.(labeled := labeled, banner := Some(SaveFailed)))
  {
    var labelText := Trim(w.input);
    TrimEmptyIff(w.input);
    if labelText == [] || w.capture.None? then w
    else
      var labeled := Upsert(w.labeled, WithLabel(w.capture.value, labelText));
      if writeOk then
        w.(labeled := labeled, stored := Some(labeled), savedLabels := DeriveIndex(labeled),
           dialogOpen := false, input := "")
      else
        w.(labeled := labeled, banner := Some(SaveFailed))
  }

  /** deleteLabel: removes the record at `index` when it is in range; any other
      index is a silent no-op. A failed write leaves the removal in the working
      copy only. */
  function Delete(w: State, index: int, writeOk: bool): (r: State)
    ensures !(0 <= index < |w.labeled|) ==> r == w
    ensures 0 <= index < |w.labeled| ==>
      && r.labeled == RemoveAt(w.labeled, index)
      && r.capture == w.capture && r.dialogOpen == w.dialogOpen
      && r.isDetecting == w.isDetecting && r.count == w.count && r.overlay == w.overlay
      && (writeOk ==> Synced(r) && IndexCurrent(r) && r.banner == w.banner)
      && (!writeOk ==> r.stored == w.stored && r.savedLabels == w.savedLabels && r.banner == Some(DeleteFailed))
    ensures 0 <= index < |w.labeled| ==>
      var labeled := RemoveAt(w.labeled, index);
      && (writeOk ==> r == w.(labeled := labeled, stored := Some(labeled), savedLabels := DeriveIndex(labeled)))
      && (!writeOk ==> r == w.(labeled := labeled, banner := Some(DeleteFailed)))
  {
    if !(0 <= index < |w.labeled|) then w
    else
      var labeled := RemoveAt(w.labeled, index);
      if writeOk then
        w.(labeled := labeled, stored := Some(labeled), savedLabels := DeriveIndex(labeled))
      else
        w.(labeled := labeled, banner := Some(DeleteFailed))
  }

  // ---------------------------------------------------------------------------
  // The event loop

  datatype Event =
    | StartClicked
    | StopClicked
    | CanvasClicked(px: real, py: real)
    | LabelTyped(text: string)                    // the user edits the label field
    | SaveClicked(writeOk: bool)                  // writeOk: the storage write succeeds
    | DeleteConfirmed(index: int, writeOk: bool)
    | DialogDismissed                             // the label dialog is closed without saving
    | AnimationFrameFired
    | DetectionSettled(result: Option<seq<Detection>>)  // None: the model threw
    | BannerTimeout

  /** An event raised through a listener the page attaches at start-up. */
  predicate IsUserEvent(e: Event) {
    !(e.AnimationFrameFired? || e.DetectionSettled? || e.BannerTimeout?)
  }

  /** A save or delete event whose storage write would fail, should the handler
      get as far as writing. */
  predicate FailedWrite(e: Event) {
    (e.SaveClicked? && !e.writeOk) || (e.DeleteConfirmed? && !e.writeOk)
  }

  /** One event of the page. User events have no effect when start-up failed
      before attaching listeners; callbacks fire only when one is outstanding. */
  function Step(w: State, e: Event): (r: State)
    ensures IsUserEvent(e) && !w.handlersInstalled ==> r == w
    ensures e.AnimationFrameFired? && w.scheduled == 0 ==> r == w
    ensures e.DetectionSettled? && w.pending == 0 ==> r == w
    ensures e.BannerTimeout? ==> r == w.(banner := None)
    ensures w.handlersInstalled && e.LabelTyped? ==> r == w.(input := e.text)
    ensures w.handlersInstalled && e.DialogDismissed? ==> r == w.(dialogOpen := false)
    ensures w.handlersInstalled && e.StartClicked? ==> r == Start(w)
    ensures w.handlersInstalled && e.StopClicked? ==> r == Stop(w)
    ensures w.handlersInstalled && e.CanvasClicked? ==> r == Click(w, e.px, e.py)
    ensures w.handlersInstalled && e.SaveClicked? ==> r == Save(w, e.writeOk)
    ensures w.handlersInstalled && e.DeleteConfirmed? ==> r == Delete(w, e.index, e.writeOk)
    ensures e.AnimationFrameFired? && w.scheduled > 0 ==> r == AnimationFrame(w)
    ensures e.DetectionSettled? && w.pending > 0 ==> r == CompleteFrame(w, e.result)
  {
    match e
    case AnimationFrameFired => if w.scheduled > 0 then AnimationFrame(w) else w
    case DetectionSettled(result) => if w.pending > 0 then CompleteFrame(w, result) else w
    case BannerTimeout => w.(banner := None)
    case StartClicked => if w.handlersInstalled then Start(w) else w
    case StopClicked => if w.handlersInstalled then Stop(w) else w
    case CanvasClicked(px, py) => if w.handlersInstalled then Click(w, px, py) else w
    case LabelTyped(text) => if w.handlersInstalled then w.(input := text) else w
    case SaveClicked(ok) => if w.handlersInstalled then Save(w, ok) else w
    case DeleteConfirmed(index, ok) => if w.handlersInstalled then Delete(w, index, ok) else w
    case DialogDismissed => if w.handlersInstalled then w.(dialogOpen := false) else w
  }

  function Run(w: State, events: seq<Event>): (r: State)
    ensures events == [] ==> r == w
    ensures |events| == 1 ==> r == Step(w, events[0])
    decreases |events|
  {
    if events == [] then w else Run(Step(w, events[0]), events[1..])
  }

  /** The event loop as the code has it: a detection result that arrives after
      a stop is still drawn. Every other event is handled as in `Step`. */
  function StepAsWritten(w: State, e: Event): (r: State)
    ensures !e.DetectionSettled? ==> r == Step(w, e)
    ensures e.DetectionSettled? && w.pending == 0 ==> r == w
    ensures e.DetectionSettled? && w.pending > 0 ==> r == CompleteFrameAsWritten(w, e.result)
  {
    match e
    case DetectionSettled(result) => if w.pending > 0 then CompleteFrameAsWritten(w, result) else w
    case _ => Step(w, e)
  }

  function RunAsWritten(w: State, events: seq<Event>): (r: State)
    ensures events == [] ==> r == w
    ensures |events| == 1 ==> r == StepAsWritten(w, events[0])
    decreases |events|
  {
    if events == [] then w else RunAsWritten(StepAsWritten(w, events[0]), events[1..])
  }

  // ---------------------------------------------------------------------------
  // Properties

  lemma InitEstablishesInv(stored: Option<seq<LabeledObject>>, cameraOk: bool, modelOk: bool)
    requires NoDuplicatePairs(Load(stored))
    ensures Inv(Init(stored, cameraOk, modelOk))
  {
  }

  lemma SavePreservesInv(w: State, writeOk: bool)
    requires Inv(w)
    ensures Inv(Save(w, writeOk))
  {
    if !AllWhitespace(w.input) && w.capture.Some? {
      UpsertPreservesNoDuplicates(w.labeled, WithLabel(w.capture.value, Trim(w.input)));
    }
  }

  lemma DeletePreservesInv(w: State, index: int, writeOk: bool)
    requires Inv(w)
    ensures Inv(Delete(w, index, writeOk))
  {
    if 0 <= index < |w.labeled| {
      RemoveAtPreservesNoDuplicates(w.labeled, index);
    }
  }

  lemma FramePreservesInv(w: State, result: Option<seq<Detection>>)
    requires Inv(w) && w.pending > 0
    ensures Inv(CompleteFrame(w, result))
  {
  }

  lemma ControlPreservesInv(w: State, px: real, py: real)
    requires Inv(w)
    ensures Inv(Start(w)) && Inv(Stop(w))
    ensures Inv(Click(w, px, py)) && (w.scheduled > 0 ==> Inv(AnimationFrame(w)))
  {
  }

  /** Every event keeps the invariant: no duplicate pair in either copy, the
      index mirrors storage, and a stopped session is blank. */
  lemma StepPreservesInv(w: State, e: Event)
    requires Inv(w)
    ensures Inv(Step(w, e))
  {
    match e
    case SaveClicked(ok) => SavePreservesInv(w, ok);
    case DeleteConfirmed(index, ok) => DeletePreservesInv(w, index, ok);
    case DetectionSettled(result) => if w.pending > 0 { FramePreservesInv(w, result); }
    case CanvasClicked(px, py) => ControlPreservesInv(w, px, py);
    case StartClicked => ControlPreservesInv(w, 0.0, 0.0);
    case StopClicked => ControlPreservesInv(w, 0.0, 0.0);
    case AnimationFrameFired => ControlPreservesInv(w, 0.0, 0.0);
    case _ =>
  }

  lemma {:induction false} RunPreservesInv(w: State, events: seq<Event>)
    requires Inv(w)
    ensures Inv(Run(w, events))
    decreases |events|
  {
    if events != [] {
      StepPreservesInv(w, events[0]);
      RunPreservesInv(Step(w, events[0]), events[1..]);
    }
  }

  /** Running two event sequences one after the other is running their concatenation. */
  lemma {:induction false} RunConcat(w: State, a: seq<Event>, b: seq<Event>)
    ensures Run(w, a + b) == Run(Run(w, a), b)
    decreases |a|
  {
    if a != [] {
      assert (a + b)[0] == a[0] && (a + b)[1..] == a[1..] + b;
      RunConcat(Step(w, a[0]), a[1..], b);
    } else {
      assert a + b == b;
    }
  }

  /** The same for the event loop as written. */
  lemma {:induction false} RunAsWrittenConcat(w: State, a: seq<Event>, b: seq<Event>)
    ensures RunAsWritten(w, a + b) == RunAsWritten(RunAsWritten(w, a), b)
    decreases |a|
  {
    if a != [] {
      assert (a + b)[0] == a[0] && (a + b)[1..] == a[1..] + b;
      RunAsWrittenConcat(StepAsWritten(w, a[0]), a[1..], b);
    } else {
      assert a + b == b;
    }
  }

  /** The label-data invariant holds for the event loop as written too; only
      the blank-after-stop part needs the late result to be discarded. */
  lemma StepAsWrittenPreservesLabelInv(w: State, e: Event)
    requires LabelInv(w)
    ensures LabelInv(StepAsWritten(w, e))
  {
    match e
    case SaveClicked(ok) => SaveKeepsLabelInv(w, ok);
    case DeleteConfirmed(index, ok) => DeleteKeepsLabelInv(w, index, ok);
    case DetectionSettled(result) => if w.pending > 0 { FrameAsWrittenKeepsLabelInv(w, result); }
    case CanvasClicked(px, py) => ControlKeepsLabelInv(w, px, py);
    case StartClicked => ControlKeepsLabelInv(w, 0.0, 0.0);
    case StopClicked => ControlKeepsLabelInv(w, 0.0, 0.0);
    case AnimationFrameFired => ControlKeepsLabelInv(w, 0.0, 0.0);
    case _ =>
  }

  lemma SaveKeepsLabelInv(w: State, writeOk: bool)
    requires LabelInv(w)
    ensures LabelInv(Save(w, writeOk))
  {
    if !AllWhitespace(w.input) && w.capture.Some? {
      UpsertPreservesNoDuplicates(w.labeled, WithLabel(w.capture.value, Trim(w.input)));
    }
  }

  lemma DeleteKeepsLabelInv(w: State, index: int, writeOk: bool)
    requires LabelInv(w)
    ensures LabelInv(Delete(w, index, writeOk))
  {
    if 0 <= index < |w.labeled| {
      RemoveAtPreservesNoDuplicates(w.labeled, index);
    }
  }

  lemma FrameAsWrittenKeepsLabelInv(w: State, result: Option<seq<Detection>>)
    requires LabelInv(w) && w.pending > 0
    ensures LabelInv(CompleteFrameAsWritten(w, result))
  {
  }

  lemma ControlKeepsLabelInv(w: State, px: real, py: real)
    requires LabelInv(w)
    ensures LabelInv(Start(w)) && LabelInv(Stop(w))
    ensures LabelInv(Click(w, px, py)) && (w.scheduled > 0 ==> LabelInv(AnimationFrame(w)))
  {
  }

  lemma {:induction false} RunAsWrittenPreservesLabelInv(w: State, events: seq<Event>)
    requires LabelInv(w)
    ensures LabelInv(RunAsWritten(w, events))
    decreases |events|
  {
    if events != [] {
      StepAsWrittenPreservesLabelInv(w, events[0]);
      RunAsWrittenPreservesLabelInv(StepAsWritten(w, events[0]), events[1..]);
    }
  }

  /** Working copy and storage stay equal through every event except one whose
      write would fail. */
  lemma StepKeepsSynced(w: State, e: Event)
    requires Synced(w)
    requires !FailedWrite(e)
    ensures Synced(Step(w, e))
  {
  }

  lemma {:induction false} RunKeepsSynced(w: State, events: seq<Event>)
    requires Synced(w)
    requires forall i :: 0 <= i < |events| ==> !FailedWrite(events[i])
    ensures Synced(Run(w, events))
    decreases |events|
  {
    if events != [] {
      StepKeepsSynced(w, events[0]);
      RunKeepsSynced(Step(w, events[0]), events[1..]);
    }
  }

  /** The same for the event loop as written: a late detection result touches
      neither copy. */
  lemma StepAsWrittenKeepsSynced(w: State, e: Event)
    requires Synced(w)
    requires !FailedWrite(e)
    ensures Synced(StepAsWritten(w, e))
  {
  }

  lemma {:induction false} RunAsWrittenKeepsSynced(w: State, events: seq<Event>)
    requires Synced(w)
    requires forall i :: 0 <= i < |events| ==> !FailedWrite(events[i])
    ensures Synced(RunAsWritten(w, events))
    decreases |events|
  {
    if events != [] {
      StepAsWrittenKeepsSynced(w, events[0]);
      RunAsWrittenKeepsSynced(StepAsWritten(w, events[0]), events[1..]);
    }
  }

  /** A failed write of a new pair leaves the working copy one record ahead of
      storage, and the index still reflects storage only. */
  lemma SaveFailureDiverges(w: State)
    requires Synced(w) && IndexCurrent(w)
    requires !AllWhitespace(w.input) && w.capture.Some?
    requires !HasPair(w.labeled, w.capture.value.cls, Trim(w.input))
    ensures var r := Save(w, false);
      && |r.labeled| == |Load(r.stored)| + 1
      && !Synced(r)
      && IndexCurrent(r)
  {
  }

  /** A failed in-range delete leaves the working copy one record behind storage. */
  lemma DeleteFailureDiverges(w: State, index: int)
    requires Synced(w) && IndexCurrent(w)
    requires 0 <= index < |w.labeled|
    ensures var r := Delete(w, index, false);
      && |r.labeled| + 1 == |Load(r.stored)|
      && !Synced(r)
      && IndexCurrent(r)
  {
  }

  /** A drawn box is highlighted exactly when the PERSISTED collection's last
      record of its class has a non-empty label, and it then shows that label. */
  lemma HighlightFollowsStorage(w: State, ds: seq<Detection>, i: nat)
    requires w.pending > 0 && w.isDetecting
    requires i < |ds|
    ensures var r := CompleteFrame(w, Some(ds));
      var saved := Load(w.stored);
      var last := LastOfClass(saved, ds[i].cls);
      && (r.overlay[i].savedLabel.Some? <==> last.Some? && saved[last.value].labelText != "")
      && (r.overlay[i].savedLabel.Some? ==> r.overlay[i].savedLabel.value == saved[last.value].labelText)
  {
    DeriveIndexIsLastLabel(Load(w.stored), ds[i].cls);
  }

  /** Finding: with the code as written, a detection that was in flight when
      Stop was pressed is drawn after the stop: the canvas shows a box and the
      counter shows 1 although detection is off. */
  lemma StaleFrameAfterStop(d: Detection)
    ensures var w := Stop(Start(Init(None, true, true)));
      && w.pending == 1
      && var r := CompleteFrameAsWritten(w, Some([d]));
      && !r.isDetecting && r.count == 1 && |r.overlay| == 1
      && !StoppedIsBlank(r)
  {
  }

  /** With the flag rechecked, the same late result is discarded. */
  lemma LateFrameDiscarded(d: Detection)
    ensures var w := Stop(Start(Init(None, true, true)));
      && w.pending == 1
      && var r := CompleteFrame(w, Some([d]));
      && !r.isDetecting && r.count == 0 && r.overlay == [] && r.pending == 0
  {
  }
}
