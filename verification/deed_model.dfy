/** The deed record of src/Models/deed_model.py and the two values it
    derives from the clock.

    The model has one clock: `now` and `expiry` are seconds on the same
    (monotonic) time line. The source reads `datetime.now()` inside the
    properties; here `now` is a parameter. */
module Deeds {
  import opened Wrappers
  import opened Clock
  import opened Reals

  /** `DeedModel`: every field but `raw` is optional. `expiry` is the
      absolute time after which the deed is gone. */
  datatype DeedModel = DeedModel(
    depthM: Option<int>,
    sizeLabel: Option<string>,
    sizePoints: Option<int>,
    resource: Option<string>,
    expiry: Option<real>,
    planet: Option<string>,
    x: Option<int>,
    y: Option<int>,
    z: Option<int>,
    raw: string)

  /** `DeedModel(raw=raw)`: `raw` is required, every other field defaults
      to None. */
  function BareDeed(raw: string): (d: DeedModel)
    ensures d.raw == raw
    ensures d.depthM.None? && d.sizeLabel.None? && d.sizePoints.None? && d.resource.None?
    ensures d.expiry.None? && d.planet.None? && d.x.None? && d.y.None? && d.z.None?
  {
    DeedModel(None, None, None, None, None, None, None, None, None, raw)
  }

  /** `DeedModel.ttl_sec`: whole seconds left, never negative; None exactly
      when there is no expiry. */
  function TtlSec(d: DeedModel, now: real): (r: Option<nat>)
    ensures r.None? <==> d.expiry.None?
    ensures r.Some? ==> (r.value == 0 <==> d.expiry.value - now < 1.0)
    ensures r.Some? && r.value > 0 ==>
      r.value as real <= d.expiry.value - now < r.value as real + 1.0
  {
    match d.expiry
    case None => None
    case Some(e) =>
      var t := Trunc(e - now);
      Some(if t < 0 then 0 else t)
  }

  /** `deed.ttl_sec or 0`, the form every store compares. */
  function TtlOrZero(d: DeedModel, now: real): (r: nat)
    ensures d.expiry.None? ==> r == 0
    ensures d.expiry.Some? ==> r == TtlSec(d, now).value
  {
    TtlSec(d, now).GetOr(0)
  }

  /** A deed is still live while it has a whole second left
      (`(ttl_sec or 0) > 0`). */
  predicate Alive(d: DeedModel, now: real) {
    TtlOrZero(d, now) > 0
  }

  /** The remaining time never grows as the clock advances. */
  lemma TtlNonIncreasing(d: DeedModel, now1: real, now2: real)
    requires now1 <= now2
    requires d.expiry.Some?
    ensures TtlSec(d, now2).value <= TtlSec(d, now1).value
  {
    TruncMonotone(d.expiry.value - now2, d.expiry.value - now1);
  }

  /** An expiry in the past reads as zero seconds left. */
  lemma PastExpiryIsZero(d: DeedModel, now: real)
    requires d.expiry.Some? && d.expiry.value <= now
    ensures TtlSec(d, now) == Some(0)
  {
  }

  /** `DeedModel.time_left`: the remaining seconds as `HH:MM:SS`, present
      exactly when `ttl_sec` is. */
  function TimeLeft(d: DeedModel, now: real): (r: Option<string>)
    ensures r.None? <==> TtlSec(d, now).None?
    ensures r.Some? ==> ClockValue(r.value) == TtlSec(d, now) && TimeLeftShape(r.value)
  {
    match TtlSec(d, now)
    case None => None
    case Some(sec) => Some(FormatTimeLeft(sec))
  }
}
