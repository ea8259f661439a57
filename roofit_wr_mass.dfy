/** rooFit_plot_Wrmass_BW.py: a Gaussian and a Breit-Wigner RooFit fit of the W_R mass peak,
    each narrowed by three full-range fits and one fit on the window they leave behind. */
module RooFitWrMass {
  import opened Outcomes
  import opened Numerics
  import opened FitWindow
  import opened Binning
  import opened Labels

  /** The range the scripts give the width parameter (sigma or width): [10, 1000] GeV. */
  const ScaleMin: real := 10.0
  const ScaleMax: real := 1000.0

  /** The two RooRealVar parameters of the peak: `mean` and the width (`sigma` or `width`). */
  datatype PeakParams = PeakParams(mean: real, scale: real)

  /** `pdf.fitTo(dh, ...)`: the minimiser, given the binned data, the current parameter values
      and the named range to restrict to (None: the whole axis), returns new values. */
  type FitTo = (HistStats, PeakParams, Option<Window>) -> PeakParams

  /** One `fitTo` call as the model records it: where the parameters started and which range it used. */
  datatype FitCall = FitCall(start: PeakParams, range: Option<Window>)

  /** A RooRealVar keeps its value inside its range: the mean inside the axis, the width in [10, 1000]. */
  predicate InBounds(axis: Axis, p: PeakParams)
  {
    axis.Contains(p.mean) && ScaleMin <= p.scale <= ScaleMax
  }

  /** The values the two RooRealVars hold after being set to p: each is clipped to its range. */
  function Bounded(axis: Axis, p: PeakParams): (b: PeakParams)
    ensures InBounds(axis, b)
    ensures InBounds(axis, p) ==> b == p
    ensures p.mean < axis.low ==> b.mean == axis.low
    ensures axis.high < p.mean ==> b.mean == axis.high
    ensures p.scale < ScaleMin ==> b.scale == ScaleMin
    ensures ScaleMax < p.scale ==> b.scale == ScaleMax
  {
    PeakParams(Clamp(p.mean, axis.low, axis.high), Clamp(p.scale, ScaleMin, ScaleMax))
  }

  /** `RooRealVar("mean", ..., h.GetMean(), xmin, xmax)` and `RooRealVar(..., h.GetRMS(), 10., 1000.)`. */
  function Start(data: HistStats): (p: PeakParams)
    ensures InBounds(data.axis, p)
    ensures InBounds(data.axis, PeakParams(data.mean, data.rms)) ==> p == PeakParams(data.mean, data.rms)
  {
    Bounded(data.axis, PeakParams(data.mean, data.rms))
  }

  /** `[max(xmin, m - k*s), min(xmax, m + k*s)]`, the "narrow" range set from the current values. */
  function NarrowWindow(axis: Axis, p: PeakParams, k: real): (w: Window)
    ensures w.Within(axis)
    ensures InBounds(axis, p) && k >= 0.0 ==> w.Contains(p.mean)
    ensures w.Within(Around(p.mean, k, p.scale))
  {
    assert InBounds(axis, p) && k >= 0.0 ==> k * p.scale >= 0.0 by {
      if InBounds(axis, p) && k >= 0.0 {
        MulRightMono(0.0, k, p.scale);
      }
    }
    ClippedAround(axis, p.mean, k, p.scale)
  }

  /** The parameter values after n fits on the whole axis, each starting where the previous one left off. */
  function AfterFullFits(data: HistStats, fit: FitTo, n: nat): (p: PeakParams)
    ensures InBounds(data.axis, p)
  {
    if n == 0 then Start(data) else Bounded(data.axis, fit(data, AfterFullFits(data, fit, n - 1), None))
  }

  /** The result of the whole narrowing: the fit restricted to the window left by the third full fit. */
  function NarrowedFit(data: HistStats, fit: FitTo, k: real): (p: PeakParams)
    ensures InBounds(data.axis, p)
  {
    var q := AfterFullFits(data, fit, 3);
    Bounded(data.axis, fit(data, q, Some(NarrowWindow(data.axis, q, k))))
  }

  /** The loop `for _ in range(3): fitTo(); low, high = ...; x.setRange("narrow", low, high)`
      followed by `fitTo(..., Range("narrow"))`. */
  method NarrowingFit(data: HistStats, k: real, fit: FitTo) returns (final: PeakParams, calls: seq<FitCall>)
    ensures |calls| == 4
    ensures forall i :: 0 <= i < 3 ==> calls[i] == FitCall(AfterFullFits(data, fit, i), None)
    ensures calls[3] == FitCall(AfterFullFits(data, fit, 3), Some(NarrowWindow(data.axis, AfterFullFits(data, fit, 3), k)))
    ensures final == NarrowedFit(data, fit, k)
    ensures calls[3].range.value.Within(data.axis)
    ensures k >= 0.0 ==> calls[3].range.value.Contains(calls[3].start.mean)
  {
    var axis := data.axis;
    var p := Start(data);
    var narrow: Option<Window> := None;
    calls := [];
    for i := 0 to 3
      invariant p == AfterFullFits(data, fit, i)
      invariant |calls| == i
      invariant forall j :: 0 <= j < i ==> calls[j] == FitCall(AfterFullFits(data, fit, j), None)
      invariant i == 0 ==> narrow.None?
      invariant i > 0 ==> narrow == Some(NarrowWindow(axis, p, k))
    {
      calls := calls + [FitCall(p, None)];
      p := Bounded(axis, fit(data, p, None));
      narrow := Some(NarrowWindow(axis, p, k));
    }
    calls := calls + [FitCall(p, narrow)];
    final := Bounded(axis, fit(data, p, narrow));
  }

  /** `iterative_gaussian_fit`: the narrowing with window half-width 1.5 sigma; returns (mean, sigma)
      and the name of the plot it saves. */
  method IterativeGaussianFit(data: HistStats, massStr: string, fit: FitTo)
    returns (mean: real, sigma: real, outname: string)
    ensures PeakParams(mean, sigma) == NarrowedFit(data, fit, 1.5)
    ensures outname == "wr_mass_gauss_WR" + massStr + ".png"
  {
    var final, _ := NarrowingFit(data, 1.5, fit);
    mean, sigma := final.mean, final.scale;
    outname := "wr_mass_gauss_WR" + massStr + ".png";
  }

  /** `iterative_breitwigner_fit`: the narrowing with window half-width 2 widths; returns (mean, width)
      and the name of the plot it saves. */
  method IterativeBreitWignerFit(data: HistStats, massStr: string, fit: FitTo)
    returns (mean: real, width: real, outname: string)
    ensures PeakParams(mean, width) == NarrowedFit(data, fit, 2.0)
    ensures outname == "wr_mass_bw_WR" + massStr + ".png"
  {
    var final, _ := NarrowingFit(data, 2.0, fit);
    mean, width := final.mean, final.scale;
    outname := "wr_mass_bw_WR" + massStr + ".png";
  }

  /** The directory and default histogram name `fit_and_plot` reads. */
  const Directory: string := "wr_ee_resolved_sr"
  const DefaultHistName: string := "mass_fourobject_wr_ee_resolved_sr"

  /** `fit_and_plot`: find the histogram, rebin it to about 100 GeV with `max(1, int(100/w))`,
      run both fits on the rebinned histogram and return (g_mean, g_sigma, bw_mean, bw_width). */
  method FitAndPlot(filename: string, file: RootFile, histname: string, gaussFit: FitTo, bwFit: FitTo)
    returns (r: Result<(real, real, real, real)>, saved: seq<string>)
    ensures (file.Unreadable? || file.lookup(Directory, histname).NoDirectory?) ==>
              r == Err(NullObjectAccess) && saved == []
    ensures file.Readable? && file.lookup(Directory, histname).NoHistogram? ==>
              r == Err(RuntimeError("Histogram " + histname + " not found in " + filename)) && saved == []
    ensures file.Readable? && file.lookup(Directory, histname).Found? ==>
              var h := file.lookup(Directory, histname).hist;
              var s := h.rebinned(RebinFactor(h.binWidth));
              var g, b := NarrowedFit(s, gaussFit, 1.5), NarrowedFit(s, bwFit, 2.0);
              && r == Ok((g.mean, g.scale, b.mean, b.scale))
              && saved == ["wr_mass_gauss_WR" + MassLabel(filename) + ".png",
                           "wr_mass_bw_WR" + MassLabel(filename) + ".png"]
  {
    var massStr := MassLabel(filename);
    if file.Unreadable? {
      return Err(NullObjectAccess), [];
    }
    var found := file.lookup(Directory, histname);
    if found.NoDirectory? {
      return Err(NullObjectAccess), [];
    }
    if found.NoHistogram? {
      return Err(RuntimeError("Histogram " + histname + " not found in " + filename)), [];
    }
    var h := found.hist;
    var factor := RebinFactor(h.binWidth);
    var s := h.rebinned(factor);
    var gMean, gSigma, gName := IterativeGaussianFit(s, massStr, gaussFit);
    var bwMean, bwWidth, bwName := IterativeBreitWignerFit(s, massStr, bwFit);
    r := Ok((gMean, gSigma, bwMean, bwWidth));
    saved := [gName, bwName];
  }
}
