/** Instrument steering: from a segmented radar frame, the bearing from the
    instrument to the centre of the lake-breeze region and that centre's
    latitude and longitude. Connected-component labelling, the centre of
    mass and the arc tangent are given as inputs; the speckle filter is the
    steering copy in AreaFilter. */
module Steering {
  import opened Wrappers
  import opened Numeric
  import AreaFilter

  type Grid = AreaFilter.Grid

  /** The parts of a radar image the steering reads: the segmentation
      frames and the four coordinate axes. */
  datatype RadarImage = RadarImage(
    frames: seq<Grid>,
    gridLat: seq<real>,
    gridLon: seq<real>,
    gridX: seq<real>,
    gridY: seq<real>)

  /** The frames form a 3-D array, so they share one shape, and the label
      grid computed from the selected frame has that shape too. */
  predicate WellShaped(img: RadarImage, labels: Grid) {
    forall k :: 0 <= k < |img.frames| ==>
      AreaFilter.Rectangular(img.frames[k]) && AreaFilter.SameShape(labels, img.frames[k])
  }

  /** IndexError from an array lookup, ValueError from argmin of an empty
      axis, ValueError from converting a NaN centre (an all-zero mask) to int. */
  datatype SteeringError = IndexError | EmptyAxis | NanCentre

  datatype Aim = Aim(bearing: real, lat: real, lon: real)

  function Lift<T>(o: Option<T>, e: SteeringError): Result<T, SteeringError> {
    match o
    case Some(v) => Success(v)
    case None => Failure(e)
  }

  /** `radar_image[0]` when no index is given, `radar_image[index]`
      otherwise, with Python's negative indexing. */
  function SelectFrame(frames: seq<Grid>, index: Option<int>): (r: Result<Grid, SteeringError>)
    ensures index.None? ==> (r.Success? <==> |frames| > 0)
    ensures index.None? && r.Success? ==> r.value == frames[0]
    ensures index.Some? ==> (r.Success? <==> -|frames| <= index.value < |frames|)
    ensures index.Some? && r.Success? ==>
      r.value == frames[if index.value >= 0 then index.value else |frames| + index.value]
    ensures r.Failure? ==> r.error == IndexError
  {
    match index
    case None => Lift(At(frames, 0), IndexError)
    case Some(i) => Lift(At(frames, i), IndexError)
  }

  /** The selected frame after the steering speckle filter; a boolean index
      of the wrong shape raises IndexError. */
  function FilteredFrame(img: RadarImage, index: Option<int>, labels: Grid, numFeatures: nat): (r: Result<Grid, SteeringError>)
    requires WellShaped(img, labels)
    ensures r.Failure? ==> r.error == IndexError
    ensures SelectFrame(img.frames, index).Failure? ==> r.Failure?
    // With a frame selected, the result is the steering filter of that frame;
    // a shape mismatch in the filter is an IndexError.
    ensures SelectFrame(img.frames, index).Success? ==>
      var f := AreaFilter.SteeringFilter(SelectFrame(img.frames, index).value, labels, numFeatures);
      && (r.Success? <==> f.Success?)
      && (r.Success? ==> r.value == f.value)
  {
    var frame :- SelectFrame(img.frames, index);
    match AreaFilter.SteeringFilter(frame, labels, numFeatures)
    case Success(m) => Success(m)
    case Failure(_) => Failure(IndexError)
  }

  /** The last step of `azimuth_point`: from the centre `c` and the
      instrument's nearest indices `i` (latitude) and `j` (longitude), look up
      the centre and instrument cells, take the bearing between them and
      return the axis values at the truncated centre. The instrument's x cell
      is mirrored, `num_x - j`. */
  function AimAt(img: RadarImage, c: (real, real), i: nat, j: nat,
                 atan2Deg: (real, real) -> real): (r: Result<Aim, SteeringError>)
    ensures r.Success? ==> 0.0 <= r.value.bearing < 360.0
    ensures j == 0 ==> r == Failure(IndexError)
    ensures r.Success? <==>
      && At(img.gridX, Trunc(c.1)).Some? && At(img.gridY, Trunc(c.0)).Some?
      && At(img.gridX, |img.gridX| - j).Some? && At(img.gridY, i).Some?
      && At(img.gridLat, Trunc(c.0)).Some? && At(img.gridLon, Trunc(c.1)).Some?
    // The returned coordinates are the axis values at the truncated centre.
    ensures r.Success? ==>
      && At(img.gridLat, Trunc(c.0)) == Some(r.value.lat)
      && At(img.gridLon, Trunc(c.1)) == Some(r.value.lon)
    // The bearing is the arc tangent of the offset from the instrument cell
    // to the centre cell, turned into [0, 360).
    ensures r.Success? ==>
      var a := atan2Deg(At(img.gridX, Trunc(c.1)).value - At(img.gridX, |img.gridX| - j).value,
                        At(img.gridY, Trunc(c.0)).value - At(img.gridY, i).value);
      -180.0 < a <= 180.0 ==> r.value.bearing == (if a >= 0.0 then a else a + 360.0)
  {
    var centreX :- Lift(At(img.gridX, Trunc(c.1)), IndexError);
    var centreY :- Lift(At(img.gridY, Trunc(c.0)), IndexError);
    var instX :- Lift(At(img.gridX, |img.gridX| - j), IndexError);
    var instY :- Lift(At(img.gridY, i), IndexError);
    var bearing := NormaliseBearing(atan2Deg(centreX - instX, centreY - instY));
    var lat :- Lift(At(img.gridLat, Trunc(c.0)), IndexError);
    var lon :- Lift(At(img.gridLon, Trunc(c.1)), IndexError);
    Success(Aim(bearing, lat, lon))
  }

  /** `azimuth_point`. `labels`/`numFeatures` are the labelling of the
      selected frame, `centreOfMass` returns None where scipy yields NaN, and
      `atan2Deg(x, y)` is the angle of (y, x) in degrees. The argument
      `areaThreshold` is overwritten in the body and has no effect. */
  function AzimuthPoint(instLat: real, instLon: real, img: RadarImage, index: Option<int>,
                        areaThreshold: int, labels: Grid, numFeatures: nat,
                        centreOfMass: Grid -> Option<(real, real)>,
                        atan2Deg: (real, real) -> real): (r: Result<Aim, SteeringError>)
    requires WellShaped(img, labels)
    // Success needs a frame, two non-empty axes, a filtered mask with a
    // centre, and a successful final lookup from the nearest indices.
    ensures r.Success? <==>
      && SelectFrame(img.frames, index).Success?
      && NearestIndex(img.gridLat, instLat).Some?
      && NearestIndex(img.gridLon, instLon).Some?
      && FilteredFrame(img, index, labels, numFeatures).Success?
      && centreOfMass(FilteredFrame(img, index, labels, numFeatures).value).Some?
      && AimAt(img, centreOfMass(FilteredFrame(img, index, labels, numFeatures).value).value,
               NearestIndex(img.gridLat, instLat).value, NearestIndex(img.gridLon, instLon).value,
               atan2Deg).Success?
    ensures r.Success? ==>
      r == AimAt(img, centreOfMass(FilteredFrame(img, index, labels, numFeatures).value).value,
                 NearestIndex(img.gridLat, instLat).value, NearestIndex(img.gridLon, instLon).value,
                 atan2Deg)
  {
    var _ :- SelectFrame(img.frames, index);
    var latIndex :- Lift(NearestIndex(img.gridLat, instLat), EmptyAxis);
    var lonIndex :- Lift(NearestIndex(img.gridLon, instLon), EmptyAxis);
    var mask :- FilteredFrame(img, index, labels, numFeatures);
    var c :- Lift(centreOfMass(mask), NanCentre);
    AimAt(img, c, latIndex, lonIndex, atan2Deg)
  }

  /** Leaving the index out is the same as asking for frame 0. */
  lemma DefaultFrameIsFirst(instLat: real, instLon: real, img: RadarImage, areaThreshold: int,
                            labels: Grid, numFeatures: nat,
                            centreOfMass: Grid -> Option<(real, real)>,
                            atan2Deg: (real, real) -> real)
    requires WellShaped(img, labels)
    ensures AzimuthPoint(instLat, instLon, img, None, areaThreshold, labels, numFeatures, centreOfMass, atan2Deg)
         == AzimuthPoint(instLat, instLon, img, Some(0), areaThreshold, labels, numFeatures, centreOfMass, atan2Deg)
  {
  }

  /** The area threshold argument has no effect: the filter always uses 20. */
  lemma ThresholdIgnored(instLat: real, instLon: real, img: RadarImage, index: Option<int>,
                         t1: int, t2: int, labels: Grid, numFeatures: nat,
                         centreOfMass: Grid -> Option<(real, real)>,
                         atan2Deg: (real, real) -> real)
    requires WellShaped(img, labels)
    ensures AzimuthPoint(instLat, instLon, img, index, t1, labels, numFeatures, centreOfMass, atan2Deg)
         == AzimuthPoint(instLat, instLon, img, index, t2, labels, numFeatures, centreOfMass, atan2Deg)
  {
  }

  /** Whenever the instrument's nearest longitude is the first one, the call
      fails, whatever else the image holds. */
  lemma FirstLongitudeFails(instLat: real, instLon: real, img: RadarImage, index: Option<int>,
                            areaThreshold: int, labels: Grid, numFeatures: nat,
                            centreOfMass: Grid -> Option<(real, real)>,
                            atan2Deg: (real, real) -> real)
    requires WellShaped(img, labels)
    requires NearestIndex(img.gridLon, instLon) == Some(0)
    ensures AzimuthPoint(instLat, instLon, img, index, areaThreshold, labels, numFeatures, centreOfMass, atan2Deg).Failure?
  {
  }
}
