/** The TF1 "gaus" refit loop `iterative_gaussian_fit`, the same code in plot_wr_mass.py and
    plot_wr_mass_withBW.py: one fit on the whole axis, then n_iter fits, each on a fresh TF1 built
    from `mean - 2*sigma` to `mean + 2*sigma` of the fit before it, with no clipping. */
module Tf1Gaussian {
  import opened Numerics
  import opened FitWindow
  import opened Binning

  /** Parameters 1 (mean) and 2 (sigma) of a fitted "gaus" TF1. A fit may return a negative sigma. */
  datatype GausParams = GausParams(mean: real, sigma: real)

  /** `hist.Fit(TF1("...", "gaus", lo, hi), "RQ0")` on a freshly built TF1: ROOT chooses the starting
      values itself, so the result depends only on the data and the range. */
  type GausFit = (HistStats, Window) -> GausParams

  /** The default `n_iter`. */
  const DefaultIterations: nat := 3

  /** The range of `TF1(name, formula, xmin, xmax)`: the constructor stores the two limits in
      increasing order, so a reversed pair is swapped (`TF1::SetRange` does not do this). */
  function Tf1Limits(xmin: real, xmax: real): (w: Window)
    ensures w.low <= w.high
    ensures (w.low == xmin && w.high == xmax) || (w.low == xmax && w.high == xmin)
    ensures xmin <= xmax ==> w == Window(xmin, xmax)
  {
    if xmin < xmax then Window(xmin, xmax) else Window(xmax, xmin)
  }

  /** The range of the next TF1, built from `mean - 2*sigma` and `mean + 2*sigma`: a negative
      fitted sigma gives reversed limits, which the constructor swaps back. */
  function RefitWindow(p: GausParams): (w: Window)
    ensures w.high - p.mean == p.mean - w.low
    ensures w.high - w.low == 4.0 * Abs(p.sigma)
    ensures w.Contains(p.mean)
    ensures w == Around(p.mean, 2.0, Abs(p.sigma))
  {
    Tf1Limits(p.mean - 2.0 * p.sigma, p.mean + 2.0 * p.sigma)
  }

  /** The parameters after the first fit and n refits. */
  function AfterRefits(data: HistStats, fit: GausFit, n: nat): GausParams
  {
    if n == 0 then fit(data, data.axis) else fit(data, RefitWindow(AfterRefits(data, fit, n - 1)))
  }

  /** `iterative_gaussian_fit(hist, n_iter)`: returns mean, sigma, sigma/mean (0 for a zero mean)
      and the ranges of all the TF1s in order; the last one is the returned `fit_func`'s. */
  method IterativeGaussianFit(data: HistStats, fit: GausFit, nIter: nat)
    returns (mean: real, sigma: real, resolution: real, ranges: seq<Window>)
    ensures |ranges| == nIter + 1
    ensures ranges[0] == data.axis
    ensures forall i :: 1 <= i <= nIter ==> ranges[i] == RefitWindow(AfterRefits(data, fit, i - 1))
    ensures GausParams(mean, sigma) == AfterRefits(data, fit, nIter)
    ensures fit(data, ranges[nIter]) == GausParams(mean, sigma)
    ensures mean != 0.0 ==> resolution * mean == sigma
    ensures mean == 0.0 ==> resolution == 0.0
  {
    ranges := [data.axis];
    var p := fit(data, data.axis);
    mean, sigma := p.mean, p.sigma;
    for k := 0 to nIter
      invariant |ranges| == k + 1
      invariant ranges[0] == data.axis
      invariant forall i :: 1 <= i <= k ==> ranges[i] == RefitWindow(AfterRefits(data, fit, i - 1))
      invariant GausParams(mean, sigma) == AfterRefits(data, fit, k)
      invariant fit(data, ranges[k]) == GausParams(mean, sigma)
    {
      var fitRange := RefitWindow(GausParams(mean, sigma));
      ranges := ranges + [fitRange];
      p := fit(data, fitRange);
      mean, sigma := p.mean, p.sigma;
    }
    resolution := Resolution(sigma, mean);
  }
}
