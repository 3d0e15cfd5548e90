/**
  What the calibration macros hand to ROOT's fitter: the model formula, the fit
  range, the seed values and the parameter limits, and what comes back (the
  fitted parameters with their names and errors). The fit itself is performed by
  a function given as a parameter.
*/
module FitSetup {
  import opened Base

  /**
    `[0]*Gaus(x,[1],[2]) + [3]*x + [4]`, and the same with a second Gaussian
    `[5]*Gaus(x,[6],[7])` added.
  */
  datatype FitModel = GaussianLinear | DoubleGaussianLinear

  /** The number of free parameters of the model formula. */
  function NParams(m: FitModel): nat {
    match m
    case GaussianLinear => 5
    case DoubleGaussianLinear => 8
  }

  /** The names given to parameters 0 to 4 with `SetParName`. */
  const ParNames: seq<string> := ["Amplitude", "Mean", "Sigma", "Linear", "Constant"]

  /** Seed values for the linear background term: slope and constant. */
  const SeedSlope: real := -0.05
  const SeedConstant: real := 2.0

  /**
    `SetParameters(height, mean, sigma, slope, constant)`. The sigma seed is absent
    when the half-maximum scan found no bracket: the source then passes an
    uninitialised `x2 - x1`.
  */
  datatype Seed = Seed(height: real, mean: real, sigma: Option<real>, slope: real, constant: real)

  /** `SetParLimits(index, lo, hi)`. */
  datatype Limit = Limit(index: nat, lo: real, hi: real)

  /** One fit request; `names` are the parameter names set with `SetParName`, in order from 0. */
  datatype FitConfig = FitConfig(model: FitModel, rangeLo: real, rangeHi: real, names: seq<string>, seed: Seed,
                                 limits: seq<Limit>)

  /** `GetParameterName(i)`, `Parameter(i)` and `ParError(i)` of a fit result. */
  datatype FitParameter = FitParameter(name: string, value: real, error: real)
}
