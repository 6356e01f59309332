/** The numeric built-ins the source relies on: `int()` truncation, numpy's
    `argmin`, Python indexing and the float modulo used to normalise a bearing. */
module Numeric {
  import opened Wrappers

  function Abs(x: real): (r: real)
    ensures r >= 0.0 && (r == x || r == -x)
  {
    if x < 0.0 then -x else x
  }

  /** Python's `int(x)` for a float: the integer part, truncated toward zero. */
  function Trunc(x: real): (r: int)
    ensures 0.0 <= x ==> 0 <= r && r as real <= x < r as real + 1.0
    ensures x < 0.0 ==> r <= 0 && r as real - 1.0 < x <= r as real
  {
    if x >= 0.0 then x.Floor else -((-x).Floor)
  }

  /** numpy's `argmin`: the first index holding the smallest value. */
  function FirstArgMin(ds: seq<real>): (k: nat)
    requires |ds| > 0
    ensures k < |ds|
    ensures forall j :: 0 <= j < |ds| ==> ds[k] <= ds[j]
    ensures forall j :: 0 <= j < k ==> ds[k] < ds[j]
  {
    if |ds| == 1 then 0
    else
      var k := FirstArgMin(ds[1..]);
      if ds[0] <= ds[k + 1] then 0 else k + 1
  }

  /** `np.argmin(np.abs(xs - x))`: the first index of the value closest to `x`;
      `None` where numpy raises on an empty array. */
  function NearestIndex(xs: seq<real>, x: real): (r: Option<nat>)
    ensures r.None? <==> |xs| == 0
    ensures r.Some? ==> r.value < |xs|
    ensures r.Some? ==> forall j :: 0 <= j < |xs| ==> Abs(xs[r.value] - x) <= Abs(xs[j] - x)
    ensures r.Some? ==> forall j :: 0 <= j < r.value ==> Abs(xs[r.value] - x) < Abs(xs[j] - x)
  {
    if |xs| == 0 then None
    else
      var ds := seq(|xs|, i requires 0 <= i < |xs| => Abs(xs[i] - x));
      var k := FirstArgMin(ds);
      assert forall j :: 0 <= j < |xs| ==> ds[j] == Abs(xs[j] - x);
      Some(k)
  }

  /** Python's `s[i]`: a negative index counts from the end; `None` where
      Python raises IndexError. */
  function At<T>(s: seq<T>, i: int): (r: Option<T>)
    ensures r.Some? <==> -|s| <= i < |s|
    ensures 0 <= i < |s| ==> r == Some(s[i])
    ensures -|s| <= i < 0 ==> r == Some(s[|s| + i])
  {
    if 0 <= i < |s| then Some(s[i])
    else if -|s| <= i < 0 then Some(s[|s| + i])
    else None
  }

  /** Python's float `x % 360`, a floor modulo, computed exactly on reals. */
  function Mod360(x: real): real
  {
    x - 360.0 * (x / 360.0).Floor as real
  }

  /** `(deg + 360) % 360`: a bearing in [0, 360); an angle from atan2, which
      lies in (-180, 180], keeps its value when non-negative and gains a turn
      when negative. */
  function NormaliseBearing(deg: real): (r: real)
    ensures 0.0 <= r < 360.0
    ensures -180.0 < deg <= 180.0 ==> r == (if deg >= 0.0 then deg else deg + 360.0)
  {
    var y := deg + 360.0;
    var f := (y / 360.0).Floor;
    assert f as real <= y / 360.0 < f as real + 1.0;
    assert 360.0 * f as real <= y < 360.0 * f as real + 360.0;
    if -180.0 < deg <= 180.0 then
      if deg >= 0.0 then
        assert 1.0 <= y / 360.0 < 2.0;
        assert f == 1;
        Mod360(y)
      else
        assert 0.0 <= y / 360.0 < 1.0;
        assert f == 0;
        Mod360(y)
    else
      Mod360(y)
  }
}
