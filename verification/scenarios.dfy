/** Concrete walk-throughs of the page, stated as lemmas over the model. */
module Scenarios {
  import opened Wrappers
  import opened Records
  import opened HitTest
  import opened App
  import Text
  import LabelCollection
  import LabelIndex

  const CupBox := BBox(10.0, 10.0, 100.0, 80.0)
  const BottleBox := BBox(50.0, 20.0, 40.0, 120.0)

  /** A "cup" at score 0.42 listed before an overlapping "bottle" at 0.9: a click
      inside both selects the cup, regardless of confidence. */
  lemma FirstListedWins()
    ensures FirstHit([Detection("cup", 0.42, CupBox), Detection("bottle", 0.9, BottleBox)], 60.0, 50.0) == Some(0)
  {
  }

  /** The state after the user, with the model loaded, starts detection, gets a
      frame that detects only `d`, clicks the top-left corner of its box and types
      `text` into the label field. */
  function LabelIt(w: State, d: Detection, text: string): (r: State)
    requires w.modelLoaded && w.handlersInstalled
    requires d.bbox.width >= 0.0 && d.bbox.height >= 0.0
    ensures r.capture == Some(d) && r.input == text && r.dialogOpen
    ensures r.labeled == w.labeled && r.stored == w.stored
    ensures r.modelLoaded && r.handlersInstalled
  {
    var w1 := Step(w, StopClicked);
    var w2 := Step(w1, StartClicked);
    var w3 := Step(w2, DetectionSettled(Some([d])));
    assert w3.isDetecting && w3.detections == [d];
    var w4 := Step(w3, CanvasClicked(d.bbox.x, d.bbox.y));
    assert Contains(d.bbox, d.bbox.x, d.bbox.y);
    Step(w4, LabelTyped(text))
  }

  const Cup1 := Detection("cup", 0.8, CupBox)
  const Cup2 := Detection("cup", 0.7, BBox(200.0, 40.0, 60.0, 60.0))

  lemma LeadingOfMug()
    ensures Text.LeadingWhitespace("  My Mug ") == 2
    ensures Text.LeadingWhitespace("My Mug") == 0
  {
    assert "  My Mug "[1..] == " My Mug ";
    assert " My Mug "[1..] == "My Mug ";
  }

  lemma TrailingOfMug()
    ensures Text.TrailingWhitespace("  My Mug ") == 1
    ensures Text.TrailingWhitespace("My Mug") == 0
  {
    assert "  My Mug "[..8] == "  My Mug";
  }

  lemma TrimMug()
    ensures Text.Trim("  My Mug ") == "My Mug"
    ensures Text.Trim("My Mug") == "My Mug"
  {
    LeadingOfMug();
    TrailingOfMug();
    assert "  My Mug "[2..8] == "My Mug";
    assert "My Mug"[0..6] == "My Mug";
  }

  const Mug1 := LabeledObject("cup", 0.8, CupBox, "My Mug")
  const Mug2 := LabeledObject("cup", 0.7, Cup2.bbox, "My Mug")

  lemma MugUpserts()
    ensures LabelCollection.Upsert([], Mug1) == [Mug1]
    ensures LabelCollection.Upsert([Mug1], Mug2) == [Mug2]
  {
    assert LabelCollection.HasPair([Mug1], "cup", "My Mug") by {
      assert LabelCollection.SamePair([Mug1][0], "cup", "My Mug");
    }
    var r := LabelCollection.Upsert([Mug1], Mug2);
    assert |r| == 1 && r[0] == Mug2;
  }

  lemma MugIndexes()
    ensures LabelIndex.DeriveIndex([Mug1]) == map["cup" := "My Mug"]
    ensures LabelIndex.DeriveIndex([Mug2]) == map["cup" := "My Mug"]
  {
    assert [Mug1][..0] == [] && [Mug2][..0] == [];
  }

  /** First save: "  My Mug " is trimmed and stored as a new record. */
  lemma FirstMugSave(v1: State)
    requires v1.capture == Some(Cup1) && v1.input == "  My Mug "
    requires v1.labeled == []
    ensures var w1 := Save(v1, true);
      && w1.stored == Some([Mug1]) && w1.labeled == [Mug1]
      && w1.savedLabels == map["cup" := "My Mug"]
      && w1.modelLoaded == v1.modelLoaded && w1.handlersInstalled == v1.handlersInstalled
  {
    TrimMug();
    MugUpserts();
    MugIndexes();
    Text.TrimEmptyIff(v1.input);
    assert WithLabel(Cup1, "My Mug") == Mug1;
  }

  /** Second save of the same pair from another cup overwrites: still one record. */
  lemma SecondMugSave(v2: State)
    requires v2.capture == Some(Cup2) && v2.input == "My Mug"
    requires v2.labeled == [Mug1]
    ensures var w2 := Save(v2, true);
      && w2.stored == Some([Mug2]) && w2.labeled == [Mug2]
      && w2.savedLabels == map["cup" := "My Mug"]
  {
    TrimMug();
    MugUpserts();
    MugIndexes();
    Text.TrimEmptyIff(v2.input);
    assert WithLabel(Cup2, "My Mug") == Mug2;
  }

  /** Deleting the only record after confirmation empties storage and the index. */
  lemma DeleteMug(w2: State)
    requires w2.labeled == [Mug2]
    ensures var w3 := Delete(w2, 0, true);
      w3.stored == Some([]) && w3.savedLabels == map[]
  {
  }

  const LabelA := LabeledObject("cup", 0.8, CupBox, "A")
  const LabelB := LabeledObject("cup", 0.7, Cup2.bbox, "B")

  lemma AlternatingUpserts()
    ensures LabelCollection.Upsert([], LabelA) == [LabelA]
    ensures LabelCollection.Upsert([LabelA], LabelB) == [LabelA, LabelB]
    ensures LabelCollection.Upsert([LabelA, LabelB], LabelA) == [LabelA, LabelB]
  {
    assert !LabelCollection.HasPair([LabelA], "cup", "B");
    assert LabelCollection.SamePair([LabelA, LabelB][0], "cup", "A");
  }

  lemma AlternatingIndex()
    ensures LabelIndex.DeriveIndex([LabelA, LabelB]) == map["cup" := "B"]
  {
    assert [LabelA, LabelB][..1] == [LabelA];
    assert [LabelA][..0] == [];
  }

  lemma TrimA()
    ensures Text.Trim("A") == "A"
  {
    assert Text.LeadingWhitespace("A") == 0;
    assert Text.TrailingWhitespace("A") == 0;
    assert "A"[0..1] == "A";
  }

  /** Saving "A", then "B", then "A" again for the class "cup" leaves the index
      showing "B": re-saving an existing pair overwrites it in place, so the
      class's last record in list order is still the "B" one, not the one saved
      most recently. */
  lemma ResavedLabelNotShown()
    ensures
      var saved := LabelCollection.Upsert(LabelCollection.Upsert(LabelCollection.Upsert([], LabelA), LabelB), LabelA);
      && saved == [LabelA, LabelB]
      && LabelIndex.DeriveIndex(saved)["cup"] == "B"
  {
    AlternatingUpserts();
    AlternatingIndex();
  }

  /** The same through the save handler: a successful save of "A" for a cup,
      when "A" and then "B" were saved before, leaves "B" highlighted. */
  lemma ResaveThroughHandler(v: State)
    requires v.labeled == [LabelA, LabelB] && v.capture == Some(Cup1) && v.input == "A"
    ensures var w := Save(v, true);
      && w.stored == Some([LabelA, LabelB])
      && w.savedLabels["cup"] == "B"
  {
    AlternatingUpserts();
    AlternatingIndex();
    TrimA();
    Text.TrimEmptyIff(v.input);
    assert WithLabel(Cup1, "A") == LabelA;
  }

  /** The whole walk-through, from an empty store to an empty store. */
  lemma MugLifecycle()
    ensures
      var v1 := LabelIt(Init(None, true, true), Cup1, "  My Mug ");
      var w1 := Save(v1, true);
      var v2 := LabelIt(w1, Cup2, "My Mug");
      var w2 := Save(v2, true);
      var w3 := Delete(w2, 0, true);
      && w1.stored == Some([Mug1])
      && w2.stored == Some([Mug2])
      && w3.stored == Some([])
      && w3.savedLabels == map[]
  {
    var v1 := LabelIt(Init(None, true, true), Cup1, "  My Mug ");
    FirstMugSave(v1);
    var w1 := Save(v1, true);
    var v2 := LabelIt(w1, Cup2, "My Mug");
    SecondMugSave(v2);
    DeleteMug(Save(v2, true));
  }
}
