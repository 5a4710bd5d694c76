/** The derived class -> label index (`state.savedLabels`), rebuilt from the
    persisted collection by a left fold. */
module LabelIndex {
  import opened Wrappers
  import opened Records

  /** The fold over the persisted list, left to right, starting from an empty
      object and setting the entry of each record's class to its label: the index
      after folding `saved` is the index after folding all but its last record,
      updated with that last record. */
  function DeriveIndex(saved: seq<LabeledObject>): (index: map<string, string>)
    ensures index.Keys == set o | o in saved :: o.cls
  {
    if saved == [] then map[]
    else
      var init := saved[..|saved| - 1];
      var last := saved[|saved| - 1];
      assert saved == init + [last];
      DeriveIndex(init)[last.cls := last.labelText]
  }

  /** Record `i` is the last record of class `c` in `saved`. */
  ghost predicate IsLastOfClass(saved: seq<LabeledObject>, i: int, c: string) {
    && 0 <= i < |saved|
    && saved[i].cls == c
    && forall j :: i < j < |saved| ==> saved[j].cls != c
  }

  /** Searching backwards: the index of the last record of class `c`, if any. */
  function LastOfClass(saved: seq<LabeledObject>, c: string): (r: Option<nat>)
    ensures r.Some? ==> IsLastOfClass(saved, r.value, c)
    ensures r.None? <==> forall i :: 0 <= i < |saved| ==> saved[i].cls != c
  {
    if saved == [] then None
    else if saved[|saved| - 1].cls == c then Some(|saved| - 1)
    else
      var init := saved[..|saved| - 1];
      assert forall i :: 0 <= i < |init| ==> saved[i] == init[i];
      LastOfClass(init, c)
  }

  /** The fold agrees with the backward search: a class is in the index exactly
      when some record has it, and its entry is the label of the LAST such
      record, so a later record for the same class overwrites an earlier one. */
  lemma {:induction false} DeriveIndexIsLastLabel(saved: seq<LabeledObject>, c: string)
    ensures c in DeriveIndex(saved) <==> LastOfClass(saved, c).Some?
    ensures c in DeriveIndex(saved) ==>
      DeriveIndex(saved)[c] == saved[LastOfClass(saved, c).value].labelText
  {
    if saved != [] {
      var init := saved[..|saved| - 1];
      var last := saved[|saved| - 1];
      assert DeriveIndex(saved) == DeriveIndex(init)[last.cls := last.labelText];
      if last.cls != c {
        DeriveIndexIsLastLabel(init, c);
        assert LastOfClass(saved, c) == LastOfClass(init, c);
      }
    }
  }
}
