/** CRvsSR_rooFit_plot.py: overlay of the signal-region, control-region and a reference signal
    histogram, all rebinned with the factor of the signal-region histogram. Its two iterative
    RooFit fits are line for line those of rooFit_plot_Wrmass_BW.py (RooFitWrMass.NarrowingFit). */
module CrVsSr {
  import opened Outcomes
  import opened Binning
  import opened Overlay

  /** The keyword arguments of `fit_and_plot` that select the control region. */
  datatype CrConfig = CrConfig(histname: string, histname1: string, crDir: string, opStr: string)

  /** The defaults: the Drell-Yan control region. */
  const DyConfig: CrConfig :=
    CrConfig("mass_fourobject_wr_ee_resolved_sr", "mass_fourobject_wr_ee_resolved_dy_cr",
             "wr_ee_resolved_dy_cr", "DyJets")

  /** The second file's arguments: the flavour (ttbar) control region. */
  const TTbarConfig: CrConfig :=
    CrConfig("mass_fourobject_wr_ee_resolved_sr", "mass_fourobject_wr_resolved_flavor_cr",
             "wr_resolved_flavor_cr", "TTbar")

  const SrDir: string := "wr_ee_resolved_sr"
  const SignalFile: string := "WRAnalyzer_signal_WR2400_N800.root"
  const SignalHist: string := "mass_fourobject_wr_ee_resolved_sr"

  /** What `fit_and_plot(filename, **cfg)` produces with `open` standing for `TFile.Open`:
      the saved canvas, or the exception that stops it. */
  function SrVsCr(filename: string, open: string -> RootFile, cfg: CrConfig): (r: Result<Plot>)
    ensures (r.Err? && r.error.RuntimeError?) <==>
              && Fetch(open(SignalFile), SrDir, SignalHist).Ok?
              && Fetch(open(filename), SrDir, cfg.histname) == Ok(None)
              && Fetch(open(filename), cfg.crDir, cfg.histname1).Ok?
    ensures r.Err? ==> r.error.RuntimeError? || r.error == NullObjectAccess
    ensures r.Ok? <==>
              && Fetch(open(SignalFile), SrDir, SignalHist).Ok?
              && Fetch(open(SignalFile), SrDir, SignalHist).value.Some?
              && Fetch(open(filename), SrDir, cfg.histname).Ok?
              && Fetch(open(filename), SrDir, cfg.histname).value.Some?
              && Fetch(open(filename), cfg.crDir, cfg.histname1).Ok?
              && Fetch(open(filename), cfg.crDir, cfg.histname1).value.Some?
    ensures r.Ok? ==>
              var sr := Fetch(open(filename), SrDir, cfg.histname).value.value;
              var cr := Fetch(open(filename), cfg.crDir, cfg.histname1).value.value;
              var sig := Fetch(open(SignalFile), SrDir, SignalHist).value.value;
              var f := RebinFactor(sr.binWidth);
              && r.value.header == cfg.opStr
              && r.value.outname == "SRvsCR_" + cfg.opStr + "_norm.png"
              && r.value.drawn == [Plotted("SR", sr.rebinned(f), "ep", KRed),
                                   Plotted("CR", cr.rebinned(f), "ep same", KBlue),
                                   Plotted("WR (2TeV)", sig.rebinned(f), "ep same", KViolet)]
  {
    var signal := Fetch(open(SignalFile), SrDir, SignalHist);
    if signal.Err? then Err(signal.error) else
    var sr := Fetch(open(filename), SrDir, cfg.histname);
    if sr.Err? then Err(sr.error) else
    var cr := Fetch(open(filename), cfg.crDir, cfg.histname1);
    if cr.Err? then Err(cr.error) else
    if sr.value.None? then
      Err(RuntimeError("Histograms " + cfg.histname + " and " + cfg.histname1 + " not found in " + filename))
    else if cr.value.None? || signal.value.None? then Err(NullObjectAccess)
    else
      var f := RebinFactor(sr.value.value.binWidth);
      Ok(Plot(cfg.opStr,
              [Plotted("SR", sr.value.value.rebinned(f), "ep", KRed),
               Plotted("CR", cr.value.value.rebinned(f), "ep same", KBlue),
               Plotted("WR (2TeV)", signal.value.value.rebinned(f), "ep same", KViolet)],
              "SRvsCR_" + cfg.opStr + "_norm.png"))
  }

  /** `fit_and_plot`, step by step: open both files, look the three histograms up, check only the
      signal-region one, rebin all three in place by its factor, draw and save. Returns 0. */
  method FitAndPlot(filename: string, open: string -> RootFile, cfg: CrConfig)
    returns (r: Result<int>, plot: Option<Plot>)
    ensures r.Ok? <==> plot.Some?
    ensures r.Ok? ==> r.value == 0 && SrVsCr(filename, open, cfg) == Ok(plot.value)
    ensures r.Err? ==> SrVsCr(filename, open, cfg) == Err(r.error)
  {
    plot := None;
    var f := open(filename);
    var fSignal := open(SignalFile);
    var hSignal := Fetch(fSignal, SrDir, SignalHist);
    if hSignal.Err? {
      return Err(hSignal.error), None;
    }
    var hSr := Fetch(f, SrDir, cfg.histname);
    if hSr.Err? {
      return Err(hSr.error), None;
    }
    var hCr := Fetch(f, cfg.crDir, cfg.histname1);
    if hCr.Err? {
      return Err(hCr.error), None;
    }
    if hSr.value.None? {
      return Err(RuntimeError("Histograms " + cfg.histname + " and " + cfg.histname1 + " not found in " + filename)), None;
    }
    var sr := hSr.value.value;
    var factor := RebinFactor(sr.binWidth);
    var srStats := sr.rebinned(factor);
    if hCr.value.None? {
      return Err(NullObjectAccess), None;
    }
    var crStats := hCr.value.value.rebinned(factor);
    if hSignal.value.None? {
      return Err(NullObjectAccess), None;
    }
    var signalStats := hSignal.value.value.rebinned(factor);
    var drawn := [Plotted("SR", srStats, "ep", KRed), Plotted("CR", crStats, "ep same", KBlue),
                  Plotted("WR (2TeV)", signalStats, "ep same", KViolet)];
    plot := Some(Plot(cfg.opStr, drawn, "SRvsCR_" + cfg.opStr + "_norm.png"));
    r := Ok(0);
  }

  /** The configuration `main` uses for the file at index i: the Drell-Yan region for the first
      file, the flavour region for the second, none after that. */
  function ConfigFor(i: nat): (c: Option<CrConfig>)
    ensures c.Some? <==> i < 2
  {
    if i == 0 then Some(DyConfig) else if i == 1 then Some(TTbarConfig) else None
  }

  /** `main(files)`: a counter `i` picks the configuration; files after the second are ignored and
      the first exception ends the run. */
  method RunFiles(files: seq<string>, open: string -> RootFile) returns (plots: seq<Plot>, err: Option<PyError>)
    ensures |plots| <= 2 && |plots| <= |files|
    ensures forall j :: 0 <= j < |plots| ==> SrVsCr(files[j], open, ConfigFor(j).value) == Ok(plots[j])
    ensures err.None? ==> |plots| == if |files| < 2 then |files| else 2
    ensures err.Some? ==> |plots| < |files| && |plots| < 2 &&
                          SrVsCr(files[|plots|], open, ConfigFor(|plots|).value) == Err(err.value)
  {
    plots, err := [], None;
    var i := -1;
    for n := 0 to |files|
      invariant i == n - 1
      invariant |plots| == if n < 2 then n else 2
      invariant forall j :: 0 <= j < |plots| ==> SrVsCr(files[j], open, ConfigFor(j).value) == Ok(plots[j])
    {
      i := i + 1;
      if i == 0 || i == 1 {
        var cfg := if i == 0 then DyConfig else TTbarConfig;
        var r, plot := FitAndPlot(files[n], open, cfg);
        if r.Err? {
          return plots, Some(r.error);
        }
        plots := plots + [plot.value];
      }
    }
  }
}
