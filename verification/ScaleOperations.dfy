/**
 pkg/controller/scale_operation.go: whether a sync scales, and the cool-off that
 holds scale downs back. Times are integers on one clock; the clock reading is a
 parameter.
 */
module ScaleOperations {
  import opened Wrappers

  datatype ScaleOperation = ScaleUp | ScaleDown | ScaleNoop

  predicate CanScaleDown(lastScaleTime: Option<int>, scaleDownDelay: int, now: int) {
    match lastScaleTime
    case None => true
    case Some(t) => t + scaleDownDelay < now
  }

  function GetScaleOperation(desired: int, current: int, lastScaleTime: Option<int>, scaleDownDelay: int, now: int)
    : (op: ScaleOperation)
    ensures op == ScaleUp <==> desired > current
    ensures op == ScaleDown ==> desired < current
  {
    if desired > current then ScaleUp
    else if desired == current then ScaleNoop
    else if CanScaleDown(lastScaleTime, scaleDownDelay, now) then ScaleDown
    else ScaleNoop
  }
}
