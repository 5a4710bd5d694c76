/** The records the application handles: detections produced by the vision model
    and the labelled objects the user saves from them. */
module Records {

  /** A bounding box `[x, y, width, height]` in canvas pixels. */
  datatype BBox = BBox(x: real, y: real, width: real, height: real)

  /** One detection of a frame: `{class, score, bbox}`. */
  datatype Detection = Detection(cls: string, score: real, bbox: BBox)

  /** A saved record: the captured detection's fields plus the user's label. */
  datatype LabeledObject = LabeledObject(cls: string, score: real, bbox: BBox, labelText: string)

  /** The object literal `{...capture, label}`: every field of the capture, with
      `label` (here `labelText`) added. */
  function WithLabel(capture: Detection, labelText: string): (o: LabeledObject)
    ensures o.labelText == labelText
    ensures o.cls == capture.cls && o.score == capture.score && o.bbox == capture.bbox
  {
    LabeledObject(capture.cls, capture.score, capture.bbox, labelText)
  }

  /** The closed rectangle `[x, x + width] × [y, y + height]` contains the point:
      its edges and corners count as inside, and a box with a negative extent
      contains nothing. */
  function Contains(b: BBox, px: real, py: real): (inside: bool)
    ensures inside <==> (b.x <= px <= b.x + b.width) && (b.y <= py <= b.y + b.height)
    ensures inside ==> b.width >= 0.0 && b.height >= 0.0
    ensures b.width >= 0.0 && b.height >= 0.0 ==>
      ((px == b.x || px == b.x + b.width) && (py == b.y || py == b.y + b.height) ==> inside)
  {
    px >= b.x && px <= b.x + b.width && py >= b.y && py <= b.y + b.height
  }
}
