/** plot_wr_mass_withBW.py: a TF1 Breit-Wigner (Shapes.BreitWigner) fitted three times, first on the
    whole axis and then twice on [mean - 2 width, mean + 2 width] of the previous fit. Its
    `iterative_gaussian_fit` is the one of plot_wr_mass.py (Tf1Gaussian.IterativeGaussianFit). */
module PlotWrMassWithBW {
  import opened Outcomes
  import opened FitWindow
  import opened Binning
  import opened Labels

  /** The TF1's parameters in the order of `SetParNames("Norm", "Mean", "Width")`. */
  datatype BWParams = BWParams(norm: real, mean: real, width: real)

  /** `h.Fit(bw, "SRQ0")`: the TF1 keeps its parameters between fits, so the minimiser starts from the
      current values; it returns the new values and the fit status (0 for success). */
  type BWFit = (HistStats, BWParams, Window) -> (BWParams, int)

  const Directory: string := "wr_ee_resolved_sr"

  /** `bw.SetParameters(h.GetMaximum(), h.GetMean(), h.GetRMS())`. */
  function InitialParams(s: HistStats): (p: BWParams)
    ensures p.norm == s.maximum && p.mean == s.mean && p.width == s.rms
  {
    BWParams(s.maximum, s.mean, s.rms)
  }

  /** `bw.SetRange(mean - 2*width, mean + 2*width)`: centred on the mean, not clipped to the axis,
      and inverted when the fitted width is negative. */
  function RefitRange(p: BWParams): (w: Window)
    ensures w.high - p.mean == p.mean - w.low
    ensures w.high - w.low == 4.0 * p.width
    ensures w.Contains(p.mean) <==> p.width >= 0.0
  {
    Around(p.mean, 2.0, p.width)
  }

  /** The outcome of `fit_and_plot`: the returned (mean, width), whether the "Fit failed" warning
      was printed, the three fit ranges in order, and the name of the saved plot. */
  datatype BWOutcome = BWOutcome(mean: real, width: real, warned: bool, ranges: seq<Window>, saved: string)

  /** `fit_and_plot`: find the histogram, rebin by `max(1, int(100/w))`, fit on the whole axis,
      warn when that first fit's status is not 0 and go on, then refit twice on the window of the
      fit before. Only the first status is looked at. */
  method FitAndPlot(filename: string, file: RootFile, histname: string, fit: BWFit) returns (r: Result<BWOutcome>)
    ensures (file.Unreadable? || file.lookup(Directory, histname).NoDirectory?) ==> r == Err(NullObjectAccess)
    ensures file.Readable? && file.lookup(Directory, histname).NoHistogram? ==>
              r == Err(RuntimeError("Histogram " + histname + " not found in " + filename))
    ensures file.Readable? && file.lookup(Directory, histname).Found? ==>
              var h := file.lookup(Directory, histname).hist;
              var s := h.rebinned(RebinFactor(h.binWidth));
              var first := fit(s, InitialParams(s), s.axis);
              var second := fit(s, first.0, RefitRange(first.0));
              var third := fit(s, second.0, RefitRange(second.0));
              r == Ok(BWOutcome(third.0.mean, third.0.width, first.1 != 0,
                                [s.axis, RefitRange(first.0), RefitRange(second.0)],
                                "wr_mass_bw_WR" + MassLabel(filename) + ".png"))
  {
    var massStr := MassLabel(filename);
    if file.Unreadable? {
      return Err(NullObjectAccess);
    }
    var found := file.lookup(Directory, histname);
    if found.NoDirectory? {
      return Err(NullObjectAccess);
    }
    if found.NoHistogram? {
      return Err(RuntimeError("Histogram " + histname + " not found in " + filename));
    }
    var h := found.hist;
    var s := h.rebinned(RebinFactor(h.binWidth));
    var par := InitialParams(s);
    var ranges: seq<Window> := [s.axis];
    var fitResult := fit(s, par, s.axis);
    par := fitResult.0;
    var warned := fitResult.1 != 0;
    var mean, width := par.mean, par.width;
    ranges := ranges + [Window(mean - 2.0 * width, mean + 2.0 * width)];
    par := fit(s, par, ranges[1]).0;
    mean, width := par.mean, par.width;
    ranges := ranges + [Window(mean - 2.0 * width, mean + 2.0 * width)];
    par := fit(s, par, ranges[2]).0;
    mean, width := par.mean, par.width;
    ghost var first := fit(s, InitialParams(s), s.axis);
    ghost var second := fit(s, first.0, RefitRange(first.0));
    ghost var third := fit(s, second.0, RefitRange(second.0));
    assert ranges == [s.axis, RefitRange(first.0), RefitRange(second.0)];
    r := Ok(BWOutcome(mean, width, warned, ranges, "wr_mass_bw_WR" + massStr + ".png"));
  }
}
