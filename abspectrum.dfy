/**
 * `generate_AB_pseudospectrum` of pycoco/kcorr.py: the flat-in-f_nu AB reference
 * spectrum on 1000 frequencies from 2e15 Hz down to 2e13 Hz, returned either per unit
 * frequency or converted to wavelength (angstrom) and f_lambda.
 */
module ABSpectrum {
  import opened RealSeq
  import opened Units

  /** The AB zero-point flux density, erg s^-1 cm^-2 Hz^-1. */
  const FnuAB: real := 3.63078e-20

  const Samples: nat := 1000
  const LowFrequency: real := 2.0e13
  const HighFrequency: real := 2.0e15

  /** The spacing of `linspace(2e13, 2e15, num = 1000)`. */
  const FrequencyStep: real := (HighFrequency - LowFrequency) / (Samples - 1) as real

  /** `linspace(2e13, 2e15, num = 1000)[::-1]`: entry i is the (999 - i)-th grid point. */
  function Frequencies(): (r: seq<real>)
    ensures |r| == Samples
  {
    seq(Samples, i requires 0 <= i < Samples => LowFrequency + (Samples - 1 - i) as real * FrequencyStep)
  }

  datatype ABTable =
    | FrequencyTable(frequency: seq<real>, flux: seq<real>)     // columns "frequency", "flux"
    | WavelengthTable(wavelength: seq<real>, flux: seq<real>)   // columns "wavelength", "flux"

  /** `(c / freq).to("Angstrom")`. */
  function Wavelengths(): (r: seq<real>)
    ensures |r| == Samples
  {
    var freq := Frequencies();
    FrequenciesPositive();
    seq(Samples, i requires 0 <= i < Samples => NuToLambda(freq[i]))
  }

  /** `freq * f_nu_AB / wavelength`. */
  function FluxLambda(): (r: seq<real>)
    ensures |r| == Samples
  {
    var freq, wavelength := Frequencies(), Wavelengths();
    WavelengthsPositive();
    seq(Samples, i requires 0 <= i < Samples => freq[i] * FnuAB / wavelength[i])
  }

  /**
   * `generate_AB_pseudospectrum(fnu)`: 1000 rows, either the frequency grid with the
   * constant flux density FnuAB, or the wavelength table of the grid above.
   */
  function GenerateABPseudospectrum(fnu: bool): (t: ABTable)
    ensures fnu <==> t.FrequencyTable?
    ensures |t.flux| == Samples
    ensures fnu ==> t.frequency == Frequencies() && forall i :: 0 <= i < |t.flux| ==> t.flux[i] == FnuAB
    ensures !fnu ==> t == WavelengthTable(Wavelengths(), FluxLambda())
  {
    if fnu then FrequencyTable(Frequencies(), seq(Samples, i requires 0 <= i < Samples => FnuAB))
    else WavelengthTable(Wavelengths(), FluxLambda())
  }

  /** The grid runs from 2e15 Hz down to exactly 2e13 Hz, strictly decreasing and positive. */
  lemma FrequenciesPositive()
    ensures Frequencies()[0] == HighFrequency && Frequencies()[Samples - 1] == LowFrequency
    ensures StrictlyDecreasing(Frequencies()) && Positive(Frequencies())
  {
    var f := Frequencies();
    forall i, j | 0 <= i < j < Samples ensures f[i] > f[j] {
      assert f[i] - f[j] == (j - i) as real * FrequencyStep;
    }
  }

  /** Wavelength is c / frequency: positive, strictly increasing, from c / 2e15 to c / 2e13. */
  lemma WavelengthsPositive()
    ensures forall i :: 0 <= i < Samples ==> Wavelengths()[i] * Frequencies()[i] == SpeedOfLight
    ensures Wavelengths()[0] == NuToLambda(HighFrequency) && Wavelengths()[Samples - 1] == NuToLambda(LowFrequency)
    ensures StrictlyIncreasing(Wavelengths()) && Positive(Wavelengths())
  {
    var w, f := Wavelengths(), Frequencies();
    FrequenciesPositive();
    forall i, j | 0 <= i < j < Samples ensures w[i] < w[j] {
      ConversionAntitone(f[j], f[i]);
    }
  }

  /** Every f_lambda is positive and equals FnuAB c / lambda^2. */
  lemma FluxLambdaShape()
    ensures Positive(FluxLambda())
    ensures forall i :: 0 <= i < Samples ==> FluxLambda()[i] == FnuAB * SpeedOfLight / (Wavelengths()[i] * Wavelengths()[i])
  {
    FrequenciesPositive();
    WavelengthsPositive();
    FluxLambdaColumns(Frequencies(), Wavelengths(), FluxLambda());
  }

  lemma FluxLambdaColumns(f: seq<real>, w: seq<real>, fl: seq<real>)
    requires |f| == |w| == |fl|
    requires forall i :: 0 <= i < |f| ==> f[i] > 0.0 && w[i] > 0.0 && w[i] * f[i] == SpeedOfLight
    requires forall i :: 0 <= i < |f| ==> fl[i] == f[i] * FnuAB / w[i]
    ensures forall i :: 0 <= i < |f| ==> fl[i] > 0.0 && fl[i] == FnuAB * SpeedOfLight / (w[i] * w[i])
  {
    forall i | 0 <= i < |f| ensures fl[i] > 0.0 && fl[i] == FnuAB * SpeedOfLight / (w[i] * w[i]) {
      FluxLambdaAt(f[i], w[i]);
    }
  }

  /** f_lambda = nu f_nu / lambda = f_nu c / lambda^2 when lambda nu = c. */
  lemma FluxLambdaAt(nu: real, lambda: real)
    requires nu > 0.0 && lambda > 0.0 && lambda * nu == SpeedOfLight
    ensures nu * FnuAB / lambda > 0.0
    ensures nu * FnuAB / lambda == FnuAB * SpeedOfLight / (lambda * lambda)
  {
    var fl := nu * FnuAB / lambda;
    assert fl * lambda == nu * FnuAB;
    assert fl * (lambda * lambda) == (nu * FnuAB) * lambda;
    assert (nu * FnuAB) * lambda == FnuAB * (lambda * nu);
    assert lambda * lambda > 0.0;
  }
}
