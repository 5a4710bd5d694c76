/** The working list of labelled objects and the two ways it changes: upsert on
    save and splice on delete. */
module LabelCollection {
  import opened Wrappers
  import opened Records
  import Search

  /** The record carries the given `(class, label)` pair. */
  predicate SamePair(o: LabeledObject, cls: string, labelText: string) {
    o.cls == cls && o.labelText == labelText
  }

  ghost predicate HasPair(xs: seq<LabeledObject>, cls: string, labelText: string) {
    exists j :: 0 <= j < |xs| && SamePair(xs[j], cls, labelText)
  }

  /** No `(class, label)` pair occurs twice. */
  ghost predicate NoDuplicatePairs(xs: seq<LabeledObject>) {
    forall i, j :: 0 <= i < j < |xs| ==> !SamePair(xs[j], xs[i].cls, xs[i].labelText)
  }

  /** The position of the first record with the given class and label, or None
      when no record has that pair. */
  function FindPair(xs: seq<LabeledObject>, cls: string, labelText: string): (r: Option<nat>)
    ensures r.Some? ==> r.value < |xs| && SamePair(xs[r.value], cls, labelText)
    ensures r.Some? ==> forall j :: 0 <= j < r.value ==> !SamePair(xs[j], cls, labelText)
    ensures r.None? <==> !HasPair(xs, cls, labelText)
  {
    Search.FirstIndex(xs, o => SamePair(o, cls, labelText))
  }

  /** The save step on the working list: replace the first record with the same
      `(class, label)` pair in place, or append when there is none. */
  function Upsert(xs: seq<LabeledObject>, rec: LabeledObject): (r: seq<LabeledObject>)
    ensures HasPair(xs, rec.cls, rec.labelText) ==>
      && |r| == |xs|
      && exists i :: && 0 <= i < |xs|
                     && SamePair(xs[i], rec.cls, rec.labelText)
                     && (forall j :: 0 <= j < i ==> !SamePair(xs[j], rec.cls, rec.labelText))
                     && r[i] == rec
                     && (forall j :: 0 <= j < |xs| && j != i ==> r[j] == xs[j])
    ensures !HasPair(xs, rec.cls, rec.labelText) ==>
      && |r| == |xs| + 1
      && r[..|xs|] == xs
      && r[|xs|] == rec
  {
    match FindPair(xs, rec.cls, rec.labelText)
    case Some(i) => xs[i := rec]
    case None => xs + [rec]
  }

  /** `splice(index, 1)` on an index the caller has bounds-checked. */
  function RemoveAt(xs: seq<LabeledObject>, index: nat): (r: seq<LabeledObject>)
    requires index < |xs|
    ensures |r| == |xs| - 1
    ensures forall j :: 0 <= j < index ==> r[j] == xs[j]
    ensures forall j :: index <= j < |r| ==> r[j] == xs[j + 1]
    ensures multiset(r) + multiset{xs[index]} == multiset(xs)
  {
    assert xs == xs[..index] + [xs[index]] + xs[index + 1..];
    xs[..index] + xs[index + 1..]
  }

  /** After an upsert the saved record is in the list. */
  lemma UpsertHasPair(xs: seq<LabeledObject>, rec: LabeledObject)
    ensures rec in Upsert(xs, rec)
  {
  }

  /** Upsert keeps a duplicate-free list duplicate-free, so the saved pair occurs exactly once. */
  lemma UpsertPreservesNoDuplicates(xs: seq<LabeledObject>, rec: LabeledObject)
    requires NoDuplicatePairs(xs)
    ensures NoDuplicatePairs(Upsert(xs, rec))
  {
  }

  /** Saving the same record twice has the effect of saving it once. */
  lemma UpsertIdempotent(xs: seq<LabeledObject>, rec: LabeledObject)
    ensures Upsert(Upsert(xs, rec), rec) == Upsert(xs, rec)
  {
  }

  /** Removing a record keeps a duplicate-free list duplicate-free. */
  lemma RemoveAtPreservesNoDuplicates(xs: seq<LabeledObject>, index: nat)
    requires index < |xs|
    requires NoDuplicatePairs(xs)
    ensures NoDuplicatePairs(RemoveAt(xs, index))
  {
  }
}
