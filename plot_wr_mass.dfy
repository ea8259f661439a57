/** plot_wr_mass.py (lines 107-205): read one histogram per file, rebin it to about 100 GeV with
    `max(1, int(round(100/w)))`, normalise it when its integral is positive, track the largest
    maximum, then draw every histogram with a common maximum and an iterative Gaussian fit. */
module PlotWrMass {
  import opened Outcomes
  import opened Numerics
  import opened Binning
  import opened Labels
  import opened Tf1Gaussian

  /** `get_histogram`: open the file, fetch `histdir/histname`; every failure is a RuntimeError. */
  function GetHistogram(filename: string, file: RootFile, histdir: string, histname: string): (r: Result<Hist>)
    ensures r.Ok? <==> file.Readable? && file.lookup(histdir, histname).Found?
    ensures r.Ok? ==> r.value == file.lookup(histdir, histname).hist
    ensures file.Unreadable? ==> r == Err(RuntimeError("Could not open file " + filename))
    ensures file.Readable? && !file.lookup(histdir, histname).Found? ==>
              r == Err(RuntimeError("Histogram " + histdir + "/" + histname + " not found in " + filename))
  {
    if file.Unreadable? then Err(RuntimeError("Could not open file " + filename))
    else match file.lookup(histdir, histname)
      case Found(h) => Ok(h)
      case _ => Err(RuntimeError("Histogram " + histdir + "/" + histname + " not found in " + filename))
  }

  /** A histogram after `hist.Rebin(max(1, int(round(100/w))))` and the guarded unit-integral scaling. */
  function Prepared(h: Hist): (s: HistStats)
    ensures h.rebinned(RebinFactorRounded(h.binWidth)).integral > 0.0 ==> s.integral == 1.0
    ensures h.rebinned(RebinFactorRounded(h.binWidth)).integral <= 0.0 ==>
              s == h.rebinned(RebinFactorRounded(h.binWidth))
  {
    NormalizedIfPositive(h.rebinned(RebinFactorRounded(h.binWidth)))
  }

  /** The first loop of `main`: collect (filename, prepared histogram) pairs in file order and the
      running `max_val`, starting from 0. The first file that fails ends the script. */
  method CollectHistograms(files: seq<string>, open: string -> RootFile, histdir: string, histname: string)
    returns (hists: seq<(string, HistStats)>, maxVal: real, err: Option<PyError>)
    ensures |hists| <= |files|
    ensures forall j :: 0 <= j < |hists| ==>
              GetHistogram(files[j], open(files[j]), histdir, histname).Ok? &&
              hists[j] == (files[j], Prepared(GetHistogram(files[j], open(files[j]), histdir, histname).value))
    ensures err.None? ==> |hists| == |files|
    ensures err.Some? ==>
              && |hists| < |files|
              && GetHistogram(files[|hists|], open(files[|hists|]), histdir, histname) == Err(err.value)
    ensures maxVal >= 0.0
    ensures forall j :: 0 <= j < |hists| ==> hists[j].1.maximum <= maxVal
    ensures maxVal == 0.0 || exists j :: 0 <= j < |hists| && maxVal == hists[j].1.maximum
  {
    hists, maxVal, err := [], 0.0, None;
    for n := 0 to |files|
      invariant |hists| == n
      invariant forall j :: 0 <= j < n ==>
                  GetHistogram(files[j], open(files[j]), histdir, histname).Ok? &&
                  hists[j] == (files[j], Prepared(GetHistogram(files[j], open(files[j]), histdir, histname).value))
      invariant maxVal >= 0.0
      invariant forall j :: 0 <= j < n ==> hists[j].1.maximum <= maxVal
      invariant maxVal == 0.0 || exists j :: 0 <= j < n && maxVal == hists[j].1.maximum
    {
      var filename := files[n];
      var got := GetHistogram(filename, open(filename), histdir, histname);
      if got.Err? {
        return hists, maxVal, Some(got.error);
      }
      var h := got.value;
      var s := h.rebinned(RebinFactorRounded(h.binWidth));
      s := NormalizedIfPositive(s);
      maxVal := Max(maxVal, s.maximum);
      hists := hists + [(filename, s)];
    }
  }

  /** `[kRed, kBlue, kGreen+2, kMagenta, kOrange+7, kCyan+2]`. */
  const Colors: seq<int> := [632, 600, 418, 616, 807, 434]

  /** What the second loop does with histogram i: its line colour, the maximum it is drawn with,
      its Gaussian fit (mean, sigma, sigma/mean), the draw option and the mass in its legend. */
  datatype FitEntry = FitEntry(hist: HistStats, colour: int, maximum: real, mean: real, sigma: real,
                               resolution: real, option: string, wrMass: string)

  /** Entry i of the overlay for the collected pair `fh`: its own histogram, colour `colors[i % 6]`,
      maximum `max_val * 1.2`, the three-step Gaussian fit of it, "HIST E" only for i == 0, and the
      mass taken from its file name. */
  predicate IsEntry(i: nat, fh: (string, HistStats), maxVal: real, fit: GausFit, e: FitEntry)
  {
    && e.hist == fh.1
    && e.colour == Colors[i % |Colors|]
    && e.maximum == maxVal * 1.2
    && GausParams(e.mean, e.sigma) == AfterRefits(fh.1, fit, DefaultIterations)
    && e.resolution == Resolution(e.sigma, e.mean)
    && e.option == (if i == 0 then "HIST E" else "HIST E SAME")
    && e.wrMass == ExtractMassFromFilename(fh.0)
  }

  /** Entry j of `entries` is what histogram j calls for. */
  predicate AllEntries(hists: seq<(string, HistStats)>, maxVal: real, fit: GausFit, entries: seq<FitEntry>)
  {
    && |entries| <= |hists|
    && forall j :: 0 <= j < |entries| ==> IsEntry(j, hists[j], maxVal, fit, entries[j])
  }

  lemma AllEntriesAppend(hists: seq<(string, HistStats)>, maxVal: real, fit: GausFit, entries: seq<FitEntry>, e: FitEntry)
    requires AllEntries(hists, maxVal, fit, entries) && |entries| < |hists|
    requires IsEntry(|entries|, hists[|entries|], maxVal, fit, e)
    ensures AllEntries(hists, maxVal, fit, entries + [e])
  {
    var es := entries + [e];
    forall j | 0 <= j < |es|
      ensures IsEntry(j, hists[j], maxVal, fit, es[j])
    {
      if j < |entries| {
        assert es[j] == entries[j];
      }
    }
  }

  /** The second loop of `main`: draw every collected histogram, "HIST E" for the first and
      "HIST E SAME" after it, colour `colors[i % 6]`, maximum `max_val * 1.2`, each with a
      three-step iterative Gaussian fit. */
  method DrawOverlay(hists: seq<(string, HistStats)>, maxVal: real, fit: GausFit) returns (entries: seq<FitEntry>)
    ensures |entries| == |hists|
    ensures AllEntries(hists, maxVal, fit, entries)
  {
    entries := [];
    for i := 0 to |hists|
      invariant |entries| == i
      invariant AllEntries(hists, maxVal, fit, entries)
    {
      var (filename, hist) := hists[i];
      var colour := Colors[i % |Colors|];
      var mean, sigma, resolution, _ := IterativeGaussianFit(hist, fit, DefaultIterations);
      var opt := if i == 0 then "HIST E" else "HIST E SAME";
      var wrMass := ExtractMassFromFilename(filename);
      var e := FitEntry(hist, colour, maxVal * 1.2, mean, sigma, resolution, opt, wrMass);
      AllEntriesAppend(hists, maxVal, fit, entries, e);
      entries := entries + [e];
    }
  }

  /** `main`: both loops, then `c.SaveAs(args.output)`. A failed read stops the script before anything
      is drawn or saved. Otherwise every collected histogram is drawn as DrawOverlay says, under the
      common maximum 1.2 `max_val`, which is at least its own highest bin when that is not negative. */
  method PlotAll(files: seq<string>, open: string -> RootFile, histdir: string, histname: string, fit: GausFit,
                 output: string)
    returns (hists: seq<(string, HistStats)>, maxVal: real, entries: seq<FitEntry>, saved: seq<string>,
             err: Option<PyError>)
    ensures |hists| <= |files|
    ensures forall j :: 0 <= j < |hists| ==>
              GetHistogram(files[j], open(files[j]), histdir, histname).Ok? &&
              hists[j] == (files[j], Prepared(GetHistogram(files[j], open(files[j]), histdir, histname).value))
    ensures maxVal >= 0.0
    ensures forall j :: 0 <= j < |hists| ==> hists[j].1.maximum <= maxVal
    ensures maxVal == 0.0 || exists j :: 0 <= j < |hists| && maxVal == hists[j].1.maximum
    ensures err.Some? ==>
              && |hists| < |files| && entries == [] && saved == []
              && GetHistogram(files[|hists|], open(files[|hists|]), histdir, histname) == Err(err.value)
    ensures err.None? ==>
              && |hists| == |files| && |entries| == |files|
              && AllEntries(hists, maxVal, fit, entries)
              && saved == [output]
    ensures forall i :: 0 <= i < |entries| && entries[i].hist.maximum >= 0.0 ==>
              entries[i].hist.maximum <= entries[i].maximum
  {
    hists, maxVal, err := CollectHistograms(files, open, histdir, histname);
    if err.Some? {
      return hists, maxVal, [], [], err;
    }
    entries := DrawOverlay(hists, maxVal, fit);
    saved := [output];
  }
}
