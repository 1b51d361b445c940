/** `Application::map`: affine re-mapping of [inMin, inMax] onto [outMin, outMax], used by
    `sphereLatlong` to turn the grid counters into the angles phi and theta. */
module Remap {
  import opened Options

  /** The double `PI` macro of the application header, as an exact real. */
  const PI: real := 3.14159265358979323846264338327950288419716939937510

  /** None stands for the division by zero (an infinity or NaN in floating point) when
      inMax == inMin. */
  function Map(value: real, inMin: real, inMax: real, outMin: real, outMax: real): (r: Option<real>)
    ensures r.None? <==> inMax == inMin
  {
    if inMax == inMin then None
    else Some((value - inMin) / (inMax - inMin) * (outMax - outMin) + outMin)
  }

  /** The ends of the input range go to the ends of the output range. */
  lemma MapEndpoints(inMin: real, inMax: real, outMin: real, outMax: real)
    requires inMax != inMin
    ensures Map(inMin, inMin, inMax, outMin, outMax) == Some(outMin)
    ensures Map(inMax, inMin, inMax, outMin, outMax) == Some(outMax)
  {
    var d := inMax - inMin;
    assert d / d == 1.0;
    assert Map(inMax, inMin, inMax, outMin, outMax).value == d / d * (outMax - outMin) + outMin;
    assert Map(inMax, inMin, inMax, outMin, outMax).value == outMax;
  }

  /** Mapping back with the ranges swapped returns the original value. */
  lemma MapRoundTrip(value: real, inMin: real, inMax: real, outMin: real, outMax: real)
    requires inMax != inMin && outMax != outMin
    ensures Map(Map(value, inMin, inMax, outMin, outMax).value, outMin, outMax, inMin, inMax) == Some(value)
  {
    var d1, d2 := inMax - inMin, outMax - outMin;
    var t := (value - inMin) / d1;
    var v := t * d2 + outMin;
    assert Map(value, inMin, inMax, outMin, outMax).value == v;
    assert (v - outMin) / d2 == t by {
      assert v - outMin == t * d2;
    }
    assert t * d1 == value - inMin;
    assert Map(v, outMin, outMax, inMin, inMax).value == t * d1 + inMin;
  }

  /** A value inside an increasing input range lands inside the output range. */
  lemma MapWithin(value: real, inMin: real, inMax: real, outMin: real, outMax: real)
    requires inMin < inMax && outMin <= outMax && inMin <= value <= inMax
    ensures outMin <= Map(value, inMin, inMax, outMin, outMax).value <= outMax
  {
    var d := inMax - inMin;
    var t := (value - inMin) / d;
    assert t * d == value - inMin;
    assert 0.0 <= t;
    assert t <= 1.0 by {
      if t > 1.0 {
        assert t * d > 1.0 * d;
      }
    }
    assert t * (outMax - outMin) <= 1.0 * (outMax - outMin);
  }

  /** For grid counters lon, lat in [0, s], `sphereLatlong` computes phi in [0, PI] and
      theta in [0, 2 PI]; counter 0 gives angle 0 and counter s the full angle. */
  lemma LatLongAngles(s: nat, lon: nat, lat: nat)
    requires s >= 1 && lon <= s && lat <= s
    ensures 0.0 <= Map(lon as real, 0.0, s as real, 0.0, PI).value <= PI
    ensures 0.0 <= Map(lat as real, 0.0, s as real, 0.0, 2.0 * PI).value <= 2.0 * PI
    ensures lon == 0 ==> Map(lon as real, 0.0, s as real, 0.0, PI) == Some(0.0)
    ensures lon == s ==> Map(lon as real, 0.0, s as real, 0.0, PI) == Some(PI)
    ensures lat == 0 ==> Map(lat as real, 0.0, s as real, 0.0, 2.0 * PI) == Some(0.0)
    ensures lat == s ==> Map(lat as real, 0.0, s as real, 0.0, 2.0 * PI) == Some(2.0 * PI)
  {
    MapWithin(lon as real, 0.0, s as real, 0.0, PI);
    MapWithin(lat as real, 0.0, s as real, 0.0, 2.0 * PI);
    MapEndpoints(0.0, s as real, 0.0, PI);
    MapEndpoints(0.0, s as real, 0.0, 2.0 * PI);
  }
}
