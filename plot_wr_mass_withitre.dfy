/** plot_wr_mass_withitre.py: overlay of normalised W_R mass histograms, each with a Breit-Wigner
    (Shapes.BreitWignerGamma) refined three times on a window of two widths around its peak,
    clipped to the axis. Rebinning and normalisation are unguarded here. */
module PlotWrMassWithItre {
  import opened Outcomes
  import opened Numerics
  import opened FitWindow
  import opened Binning
  import opened Labels
  import opened Overlay

  /** The TF1's parameters in the order of `SetParNames("Norm", "Gamma", "M")`. */
  datatype BWGammaParams = BWGammaParams(norm: real, gamma: real, m: real)

  /** `histo.Fit(fBW, "RQ0")` after `fBW.SetRange(...)`: the minimiser starts from the TF1's current
      parameters and fits within the given range. */
  type BWGammaFit = (HistStats, BWGammaParams, Window) -> BWGammaParams

  /** `fBW.SetParameters(histo.GetMaximum(), 50.0, histo.GetMean())`. */
  function InitialGuess(s: HistStats): (p: BWGammaParams)
    ensures p.norm == s.maximum && p.gamma == 50.0 && p.m == s.mean
  {
    BWGammaParams(s.maximum, 50.0, s.mean)
  }

  /** `[max(xmin, M - 2*Gamma), min(xmax, M + 2*Gamma)]` with M = par[2], Gamma = |par[1]|. */
  function RefineWindow(axis: Axis, p: BWGammaParams): (w: Window)
    ensures w.Within(axis)
    ensures axis.Contains(p.m) ==> w.Contains(p.m)
    ensures w.Within(Around(p.m, 2.0, Abs(p.gamma)))
  {
    ClippedAround(axis, p.m, 2.0, Abs(p.gamma))
  }

  /** The parameters after the full-range fit and n refinements. */
  function AfterRefinements(data: HistStats, fit: BWGammaFit, n: nat): BWGammaParams
  {
    if n == 0 then fit(data, InitialGuess(data), data.axis)
    else
      var q := AfterRefinements(data, fit, n - 1);
      fit(data, q, RefineWindow(data.axis, q))
  }

  /** The ranges of the first n + 1 fits: the whole axis, then the window of each fit before. */
  function FitRanges(data: HistStats, fit: BWGammaFit, n: nat): (rs: seq<Window>)
    ensures |rs| == n + 1
  {
    if n == 0 then [data.axis]
    else FitRanges(data, fit, n - 1) + [RefineWindow(data.axis, AfterRefinements(data, fit, n - 1))]
  }

  /** Fit 0 is on the whole axis, fit i on the window of fit i - 1, and every range lies on the axis. */
  lemma {:induction false} FitRangesAt(data: HistStats, fit: BWGammaFit, n: nat)
    ensures FitRanges(data, fit, n)[0] == data.axis
    ensures forall i :: 1 <= i <= n ==> FitRanges(data, fit, n)[i] == RefineWindow(data.axis, AfterRefinements(data, fit, i - 1))
    ensures forall i :: 0 <= i <= n ==> FitRanges(data, fit, n)[i].Within(data.axis)
  {
    if n > 0 {
      FitRangesAt(data, fit, n - 1);
    }
  }

  /** `fit_breit_wigner`: one fit on the whole axis, then three fits, each on the window of the
      parameters before it; returns the final parameters and the range of every fit. */
  method FitBreitWigner(data: HistStats, fit: BWGammaFit) returns (p: BWGammaParams, ranges: seq<Window>)
    ensures p == AfterRefinements(data, fit, 3)
    ensures |ranges| == 4 && ranges[0] == data.axis
    ensures forall i :: 1 <= i < 4 ==> ranges[i] == RefineWindow(data.axis, AfterRefinements(data, fit, i - 1))
    ensures forall i :: 0 <= i < 4 ==> ranges[i].Within(data.axis)
  {
    var xmin, xmax := data.axis.low, data.axis.high;
    p := InitialGuess(data);
    ranges := [data.axis];
    p := fit(data, p, data.axis);
    for k := 0 to 3
      invariant p == AfterRefinements(data, fit, k)
      invariant ranges == FitRanges(data, fit, k)
    {
      var mean, gamma := p.m, Abs(p.gamma);
      var low, high := Max(xmin, mean - 2.0 * gamma), Min(xmax, mean + 2.0 * gamma);
      ranges := ranges + [Window(low, high)];
      p := fit(data, p, Window(low, high));
    }
    FitRangesAt(data, fit, 3);
  }

  const HistPath: (string, string) := ("wr_ee_resolved_sr", "mass_fourobject_wr_ee_resolved_sr")

  /** The file the overlay is saved to. */
  const OutputName: string := "wr_mass_breitwigner_iterative.pdf"

  /** `[kRed, kBlue, kGreen+2, kMagenta, kOrange]`. */
  const Colors: seq<int> := [632, 600, 418, 616, 800]

  /** Whether `infile.Get("wr_ee_resolved_sr/mass_fourobject_wr_ee_resolved_sr")` finds the histogram. */
  predicate HasHistogram(file: RootFile)
  {
    file.Readable? && file.lookup(HistPath.0, HistPath.1).Found?
  }

  /** The histogram as drawn: rebinned by `int(100/w)`, then `Scale(1.0/Integral())` with no
      guard. When a bin is wider than 100 GeV the factor is 0, which `TH1::Rebin` rejects, leaving
      the histogram unmerged: the histogram a factor of 1 gives. */
  function Normalized(h: Hist): (r: Result<HistStats>)
    ensures h.binWidth <= TargetWidth ==> (r.Err? <==> h.rebinned(RebinFactorUnguarded(h.binWidth)).integral == 0.0)
    ensures TargetWidth < h.binWidth ==> (r.Err? <==> h.rebinned(1).integral == 0.0)
    ensures r.Err? ==> r.error == ZeroDivisionError
    ensures r.Ok? ==> r.value.integral == 1.0
  {
    NormalizedUnguarded(RebinnedBy(h, RebinFactorUnguarded(h.binWidth)))
  }

  /** One drawn histogram: its file index, the normalised histogram, colour, draw option, fitted
      parameters and the mass shown in the legend (None when the name has no `_WR<digits>_`). */
  datatype Drawn = Drawn(index: nat, hist: HistStats, colour: int, option: string,
                         fitted: BWGammaParams, wrMass: Option<nat>)

  /** What `main` draws for file i when its histogram is there and has a non-zero integral. */
  predicate IsDrawn(i: nat, filename: string, file: RootFile, fit: BWGammaFit, d: Drawn)
  {
    && HasHistogram(file)
    && Normalized(file.lookup(HistPath.0, HistPath.1).hist).Ok?
    && d.index == i
    && d.hist == Normalized(file.lookup(HistPath.0, HistPath.1).hist).value
    && d.colour == Colors[i % |Colors|]
    && d.option == (if i == 0 then "HIST" else "HIST SAME")
    && d.fitted == AfterRefinements(d.hist, fit, 3)
    && d.wrMass == ExtractWrMass(filename)
  }

  /** The files whose histogram `main` finds. */
  function Present(files: seq<string>, open: string -> RootFile): nat -> bool
  {
    (i: nat) => i < |files| && HasHistogram(open(files[i]))
  }

  /** Whether file i stops the script: it cannot be read, or its histogram has a zero integral. */
  predicate Stops(file: RootFile)
  {
    file.Unreadable? || (HasHistogram(file) && Normalized(file.lookup(HistPath.0, HistPath.1).hist).Err?)
  }

  /** None of the first n files stops the script. */
  predicate NoStopBefore(files: seq<string>, open: string -> RootFile, n: nat)
    requires n <= |files|
  {
    n == 0 || (NoStopBefore(files, open, n - 1) && !Stops(open(files[n - 1])))
  }

  lemma {:induction false} NoStopBeforeAll(files: seq<string>, open: string -> RootFile, n: nat)
    requires n <= |files| && NoStopBefore(files, open, n)
    ensures forall j :: 0 <= j < n ==> !Stops(open(files[j]))
  {
    if n > 0 {
      NoStopBeforeAll(files, open, n - 1);
    }
  }

  /** The histograms drawn once the loop has passed the first n files, none of which stopped it. */
  function DrawnAfter(files: seq<string>, open: string -> RootFile, fit: BWGammaFit, n: nat): seq<Drawn>
    requires n <= |files|
  {
    if n == 0 then []
    else
      var prev := DrawnAfter(files, open, fit, n - 1);
      var file := open(files[n - 1]);
      if HasHistogram(file) && Normalized(file.lookup(HistPath.0, HistPath.1).hist).Ok? then
        var hist := Normalized(file.lookup(HistPath.0, HistPath.1).hist).value;
        prev + [Drawn(n - 1, hist, Colors[(n - 1) % |Colors|], if n - 1 == 0 then "HIST" else "HIST SAME",
                      AfterRefinements(hist, fit, 3), ExtractWrMass(files[n - 1]))]
      else prev
  }

  /** Every drawn histogram is what its file calls for. */
  predicate AllDrawn(files: seq<string>, open: string -> RootFile, fit: BWGammaFit, drawn: seq<Drawn>)
  {
    forall k :: 0 <= k < |drawn| ==>
      && drawn[k].index < |files|
      && IsDrawn(drawn[k].index, files[drawn[k].index], open(files[drawn[k].index]), fit, drawn[k])
  }

  lemma AllDrawnAppend(files: seq<string>, open: string -> RootFile, fit: BWGammaFit, drawn: seq<Drawn>, d: Drawn)
    requires AllDrawn(files, open, fit, drawn)
    requires d.index < |files| && IsDrawn(d.index, files[d.index], open(files[d.index]), fit, d)
    ensures AllDrawn(files, open, fit, drawn + [d])
  {
    var ds := drawn + [d];
    forall k | 0 <= k < |ds|
      ensures ds[k].index < |files| && IsDrawn(ds[k].index, files[ds[k].index], open(files[ds[k].index]), fit, ds[k])
    {
      if k < |drawn| {
        assert ds[k] == drawn[k];
      }
    }
  }

  /** Exactly the files whose histogram is found are drawn, in file order, each as `main` draws it. */
  lemma DrawnAfterProperties(files: seq<string>, open: string -> RootFile, fit: BWGammaFit, n: nat)
    requires n <= |files| && NoStopBefore(files, open, n)
    ensures |DrawnAfter(files, open, fit, n)| == |KeptIndices(Present(files, open), n)|
    ensures forall k :: 0 <= k < |DrawnAfter(files, open, fit, n)| ==>
              DrawnAfter(files, open, fit, n)[k].index == KeptIndices(Present(files, open), n)[k]
    ensures AllDrawn(files, open, fit, DrawnAfter(files, open, fit, n))
  {
    DrawnAfterIndices(files, open, fit, n);
    DrawnAfterAllDrawn(files, open, fit, n);
  }

  lemma {:induction false} DrawnAfterIndices(files: seq<string>, open: string -> RootFile, fit: BWGammaFit, n: nat)
    requires n <= |files| && NoStopBefore(files, open, n)
    ensures |DrawnAfter(files, open, fit, n)| == |KeptIndices(Present(files, open), n)|
    ensures forall k :: 0 <= k < |DrawnAfter(files, open, fit, n)| ==>
              DrawnAfter(files, open, fit, n)[k].index == KeptIndices(Present(files, open), n)[k]
  {
    if n > 0 {
      DrawnAfterIndices(files, open, fit, n - 1);
      KeptIndicesNext(Present(files, open), n - 1);
    }
  }

  lemma {:induction false} DrawnAfterAllDrawn(files: seq<string>, open: string -> RootFile, fit: BWGammaFit, n: nat)
    requires n <= |files| && NoStopBefore(files, open, n)
    ensures AllDrawn(files, open, fit, DrawnAfter(files, open, fit, n))
  {
    if n > 0 {
      DrawnAfterAllDrawn(files, open, fit, n - 1);
      var prev := DrawnAfter(files, open, fit, n - 1);
      if HasHistogram(open(files[n - 1])) {
        var d := DrawnAfter(files, open, fit, n)[|prev|];
        assert DrawnAfter(files, open, fit, n) == prev + [d];
        AllDrawnAppend(files, open, fit, prev, d);
      }
    }
  }

  /** `main(files)`: files whose histogram is missing are skipped; an unreadable file
      (`infile.Get` on None) or a zero integral ends the script, and the index of that file is
      reported with the error. The draw option is keyed on the file index, not on what was drawn.
      The canvas is saved only when the loop ends. */
  method PlotAll(files: seq<string>, open: string -> RootFile, fit: BWGammaFit)
    returns (drawn: seq<Drawn>, saved: seq<string>, err: Option<(nat, PyError)>)
    ensures err.None? ==> && NoStopBefore(files, open, |files|) && drawn == DrawnAfter(files, open, fit, |files|)
                          && saved == [OutputName]
    ensures err.Some? ==>
              var (stop, e) := err.value;
              && stop < |files| && NoStopBefore(files, open, stop) && saved == []
              && drawn == DrawnAfter(files, open, fit, stop)
              && ((open(files[stop]).Unreadable? && e == NullObjectAccess) ||
                  (HasHistogram(open(files[stop])) && e == ZeroDivisionError &&
                   Normalized(open(files[stop]).lookup(HistPath.0, HistPath.1).hist).Err?))
  {
    drawn, saved, err := [], [], None;
    for i := 0 to |files|
      invariant NoStopBefore(files, open, i)
      invariant drawn == DrawnAfter(files, open, fit, i)
    {
      var wrMass := ExtractWrMass(files[i]);
      var infile := open(files[i]);
      if infile.Unreadable? {
        return drawn, [], Some((i, NullObjectAccess));
      }
      var found := infile.lookup(HistPath.0, HistPath.1);
      if !found.Found? {
        continue;
      }
      var hist := Normalized(found.hist);
      if hist.Err? {
        return drawn, [], Some((i, hist.error));
      }
      var colour := Colors[i % |Colors|];
      var option := if i == 0 then "HIST" else "HIST SAME";
      var fitted, _ := FitBreitWigner(hist.value, fit);
      drawn := drawn + [Drawn(i, hist.value, colour, option, fitted, wrMass)];
    }
    saved := [OutputName];
  }

  /** When the first file has no histogram, nothing is drawn with plain "HIST": every histogram is
      drawn "HIST SAME". */
  lemma {:induction false} MissingFirstMeansAllSame(files: seq<string>, open: string -> RootFile,
                                                    fit: BWGammaFit, drawn: seq<Drawn>)
    requires |files| > 0 && !HasHistogram(open(files[0]))
    requires AllDrawn(files, open, fit, drawn)
    ensures forall k :: 0 <= k < |drawn| ==> drawn[k].option == "HIST SAME"
  {
    forall k | 0 <= k < |drawn|
      ensures drawn[k].option == "HIST SAME"
    {
      assert drawn[k].index != 0;
    }
  }
}
