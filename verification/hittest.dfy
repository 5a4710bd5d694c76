/** Which detection a click on the canvas selects. */
module HitTest {
  import opened Wrappers
  import opened Records
  import Search

  /** The detection a click selects, answered by its index: the first one in
      list order whose closed box contains the point, regardless of score or
      drawing order, or None when no box does. */
  function FirstHit(detections: seq<Detection>, px: real, py: real): (r: Option<nat>)
    ensures r.Some? ==> r.value < |detections| && Contains(detections[r.value].bbox, px, py)
    ensures r.Some? ==> forall j :: 0 <= j < r.value ==> !Contains(detections[j].bbox, px, py)
    ensures r.None? <==> forall j :: 0 <= j < |detections| ==> !Contains(detections[j].bbox, px, py)
  {
    Search.FirstIndex(detections, (d: Detection) => Contains(d.bbox, px, py))
  }
}
