/**
 * The speed of light and the two conversions of pycoco/kcorr.py, `nu_to_lambda` and
 * `lambda_to_nu`, with wavelengths in angstrom and frequencies in hertz.
 */
module Units {

  /** The speed of light, 299 792 458 m/s, in angstrom per second. */
  const SpeedOfLight: real := 2.99792458e18

  /** `nu_to_lambda`: c / frequency, in angstrom. */
  function NuToLambda(freq: real): (wavelength: real)
    requires freq != 0.0
    ensures wavelength * freq == SpeedOfLight
    ensures freq > 0.0 ==> wavelength > 0.0
  {
    SpeedOfLight / freq
  }

  /** `lambda_to_nu`: c / wavelength, in hertz. */
  function LambdaToNu(wavelength: real): (freq: real)
    requires wavelength != 0.0
    ensures freq * wavelength == SpeedOfLight
    ensures wavelength > 0.0 ==> freq > 0.0
  {
    SpeedOfLight / wavelength
  }

  /** The two conversions undo each other. */
  lemma ConversionsInverse(x: real)
    requires x != 0.0
    ensures LambdaToNu(NuToLambda(x)) == x
    ensures NuToLambda(LambdaToNu(x)) == x
  {
    var w := NuToLambda(x);
    assert w != 0.0;
    var back := LambdaToNu(w);
    assert back * w == x * w;
    var f := LambdaToNu(x);
    assert f != 0.0;
    var back2 := NuToLambda(f);
    assert back2 * f == x * f;
  }

  /** A larger (positive) wavelength is a smaller frequency, and the other way round. */
  lemma ConversionAntitone(x: real, y: real)
    requires 0.0 < x < y
    ensures LambdaToNu(y) < LambdaToNu(x)
    ensures NuToLambda(y) < NuToLambda(x)
  {
    var fx, fy := LambdaToNu(x), LambdaToNu(y);
    assert fx - fy == SpeedOfLight * (y - x) / (x * y);
    assert SpeedOfLight * (y - x) > 0.0;
    assert x * y > 0.0;
  }
}
