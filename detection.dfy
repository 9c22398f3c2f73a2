/** The detector's per-frame record (`yolo_result`, a JSON object) as the services read it, and
    the box-centre extraction both activity jobs share. A field that is `None` is a key the
    object does not have. */
module Detection {
  import opened Wrappers
  import opened Civil
  import Text

  /** One entry of `boxes`; `xyxy` holds the corner coordinates when the key is present. */
  datatype Box = Box(xyxy: Option<seq<real>>)

  /** One entry of a subject's keypoint list. */
  datatype Keypoint = Keypoint(name: Option<string>, xy: Option<seq<real>>, conf: Option<real>)

  /** `keypoints` holds one keypoint list per detected subject, the first one first. */
  datatype YoloResult = YoloResult(
    timestamp: Option<string>,
    boxes: Option<seq<Box>>,
    keypoints: Option<seq<seq<Keypoint>>>)

  /** A stored detection row: the `device` column and the `yolo_result` column. */
  datatype Frame = Frame(device: string, result: YoloResult)

  /** The order of `ORDER BY yolo_result->>'timestamp' DESC`: a record stamped `a` may be
      listed after one stamped `b`. A missing time stamp is NULL, which PostgreSQL lists first in
      descending order; time stamps are compared character by character. */
  predicate StampAtMost(a: Option<string>, b: Option<string>) {
    b.None? || (a.Some? && Text.StrLessEq(a.value, b.value))
  }

  /** `yolo_data.get("boxes", [])`. */
  function BoxesOf(r: YoloResult): seq<Box> { r.boxes.GetOr([]) }

  /** `not boxes`. */
  predicate NoBox(r: YoloResult) { BoxesOf(r) == [] }

  datatype Center = Center(x: real, y: real)

  /** `extract_center_from_yolo`: the time stamp and the midpoint of the first box, or nothing
      when there is no box, the first box has no `xyxy` or not four values (the KeyError or
      ValueError is caught), the time stamp is missing or empty, or it does not parse. */
  function ExtractCenter(r: YoloResult): (c: Option<(DateTime, Center)>)
    ensures c.Some? <==>
      (|BoxesOf(r)| > 0 && BoxesOf(r)[0].xyxy.Some? && |BoxesOf(r)[0].xyxy.value| == 4
       && r.timestamp.Some? && r.timestamp.value != [] && ParseStamp(r.timestamp.value).Some?)
    ensures c.Some? ==>
      var q := BoxesOf(r)[0].xyxy.value;
      c.value.0 == ParseStamp(r.timestamp.value).value && Valid(c.value.0)
      && c.value.1 == Center((q[0] + q[2]) / 2.0, (q[1] + q[3]) / 2.0)
  {
    var boxes := BoxesOf(r);
    if boxes == [] then None
    else
      match boxes[0].xyxy
      case None => None
      case Some(q) =>
        if |q| != 4 then None
        else
          var center := Center((q[0] + q[2]) / 2.0, (q[1] + q[3]) / 2.0);
          match r.timestamp
          case None => None
          case Some(ts) =>
            if ts == [] then None
            else
              match ParseStamp(ts)
              case None => None
              case Some(t) => Some((t, center))
  }

  /** A time stamp with its centre, as `center_data` holds them. */
  datatype Sample = Sample(at: DateTime, center: Center)

  predicate ValidSample(s: Sample) { Valid(s.at) }

  function SampleKey(s: Sample): int { if Valid(s.at) then Micros(s.at) else 0 }
}
