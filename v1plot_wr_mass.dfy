/** v1plot_wr_mass.py: the uproot/numpy/scipy version of the mass overlay. Each file's histogram
    is rebinned by hand to about 100 GeV, normalised when its total is positive, and fitted with a
    Gaussian twice with `curve_fit`: once on every bin, then on the bins whose centre lies strictly
    within two sigma of the first fit. A RuntimeError from `curve_fit` only marks the curve
    "(fit failed)"; any other exception ends the script. */
module V1PlotWrMass {
  import opened Outcomes
  import opened Numerics
  import opened Binning
  import opened Labels
  import opened NumpyHist

  /** `h.values()` and `h.axes[0].edges()` of a one-dimensional histogram. */
  datatype Arrays = Arrays(values: seq<real>, edges: seq<real>)

  /** What uproot hands back for a 1D histogram: at least one bin and increasing edges. */
  type Histogram1D = h: Arrays | WellFormed(h.values, h.edges) witness Arrays([0.0], [0.0, 1.0])

  /** `uproot.open(filename)`: a missing file, or a file whose keys map to histograms. */
  datatype UprootFile = NotFound | Opened(get: string -> Option<Histogram1D>)

  /** The least-squares search behind `curve_fit(gauss, xdata, ydata, p0=...)` on the (x, y) points:
      the optimum, or the exception it raised (RuntimeError when it does not converge). */
  type CurveFit = (seq<(real, real)>, GaussParams) -> Result<GaussParams>

  /** `curve_fit` checks its input before searching: an empty `ydata` is a ValueError, and fewer
      points than the three parameters of `gauss` is a TypeError. */
  function CurveFitCall(fit: CurveFit, points: seq<(real, real)>, p0: GaussParams): (r: Result<GaussParams>)
    ensures r.Err? && |points| < 3 ==> r.error == (if |points| == 0 then ValueError else TypeError)
    ensures |points| < 3 ==> r.Err?
    ensures |points| >= 3 ==> r == fit(points, p0)
  {
    if |points| == 0 then Err(ValueError)
    else if |points| < 3 then Err(TypeError)
    else fit(points, p0)
  }

  const Colors: seq<string> := ["r", "b", "g", "m", "orange", "c"]

  /** `f[f"{histdir}/{histname}"]` inside `with uproot.open(filename)`. */
  function Read(file: UprootFile, key: string): (r: Result<Histogram1D>)
    ensures r.Err? <==> file.NotFound? || file.get(key).None?
    ensures file.NotFound? ==> r == Err(FileNotFound)
    ensures file.Opened? && file.get(key).None? ==> r == Err(KeyError)
    ensures r.Ok? ==> Some(r.value) == file.get(key)
  {
    if file.NotFound? then Err(FileNotFound)
    else match file.get(key)
      case None => Err(KeyError)
      case Some(h) => Ok(h)
  }

  /** `edges[1] - edges[0]`, positive for increasing edges. */
  function BinWidth(h: Histogram1D): (w: Width)
    ensures w == h.edges[1] - h.edges[0]
  {
    h.edges[1] - h.edges[0]
  }

  /** The arrays after the rebin by `max(1, int(round(100/bin_width)))` and the guarded
      normalisation. */
  function Prepared(h: Histogram1D): (b: Binned)
    ensures |b.centers| == |b.values| && |b.edges| == |b.values| + 1
    ensures b.edges == Rebin(h.values, h.edges, RebinFactorRounded(BinWidth(h))).edges
    ensures b.centers == Rebin(h.values, h.edges, RebinFactorRounded(BinWidth(h))).centers
    ensures Sum(Rebin(h.values, h.edges, RebinFactorRounded(BinWidth(h))).values) > 0.0 ==> Sum(b.values) == 1.0
  {
    var b := Rebin(h.values, h.edges, RebinFactorRounded(BinWidth(h)));
    var n := Normalize(b.values);
    assert Sum(b.values) > 0.0 ==> Sum(n) == 1.0 by {
      if Sum(b.values) > 0.0 {
        NormalizeSumsToOne(b.values);
      }
    }
    Binned(n, b.edges, b.centers)
  }

  /** The returned fit: mu and |sigma| of the second `curve_fit`, and sigma/mu (0 when mu is 0). */
  datatype Refit = Refit(mu: real, sigma: real, resolution: real)

  /** The lower and upper edge of the refit mask `mu - 2*sigma`, `mu + 2*sigma`. */
  function MaskOf(p: GaussParams): (w: (real, real))
    ensures w.0 <= p.mu <= w.1 && w.1 - p.mu == p.mu - w.0 == 2.0 * Abs(p.sigma)
  {
    (p.mu - 2.0 * Abs(p.sigma), p.mu + 2.0 * Abs(p.sigma))
  }

  /** A `curve_fit` result after `except RuntimeError`: caught failures become None. */
  function Caught(r: Result<GaussParams>): (c: Result<Option<GaussParams>>)
    ensures c.Err? <==> r.Err? && !r.error.RuntimeError?
    ensures r.Ok? ==> c == Ok(Some(r.value))
  {
    match r
    case Ok(p) => Ok(Some(p))
    case Err(e) => if e.RuntimeError? then Ok(None) else Err(e)
  }

  /** The `try` block: initial guess, fit on all points, refit on the masked points starting from
      the first optimum. Ok(None) is "(fit failed)"; an Err ends the script. */
  function FitOutcome(centers: seq<real>, values: seq<real>, fit: CurveFit): (r: Result<Option<Refit>>)
    requires |centers| == |values|
    ensures |values| == 0 ==> r == Err(ValueError)
    ensures 0 < |values| < 3 ==> r == Err(TypeError)
    ensures |values| >= 3 ==>
              var points := Zip(centers, values);
              var first := fit(points, InitialGuess(values, centers).value);
              var mask := if first.Ok? then MaskOf(first.value) else (0.0, 0.0);
              first.Ok? && |Inside(points, mask.0, mask.1)| < 3 ==>
                r == Err(if |Inside(points, mask.0, mask.1)| == 0 then ValueError else TypeError)
    ensures |values| >= 3 ==>
              var first := fit(Zip(centers, values), InitialGuess(values, centers).value);
              first.Err? ==> r == (if first.error.RuntimeError? then Ok(None) else Err(first.error))
    ensures |values| >= 3 ==>
              var points := Zip(centers, values);
              var first := fit(points, InitialGuess(values, centers).value);
              first.Ok? ==>
                var mask := MaskOf(first.value);
                var kept := Inside(points, mask.0, mask.1);
                var second := fit(kept, first.value);
                |kept| >= 3 ==>
                  && (second.Ok? ==> r == Ok(Some(Refit(second.value.mu, Abs(second.value.sigma),
                                                        Resolution(Abs(second.value.sigma), second.value.mu)))))
                  && (second.Err? ==> r == (if second.error.RuntimeError? then Ok(None) else Err(second.error)))
    ensures r.Err? ==> !r.error.RuntimeError?
    ensures r.Ok? && r.value.Some? ==> r.value.value.sigma >= 0.0
    ensures r.Ok? && r.value.Some? ==> r.value.value.resolution == Resolution(r.value.value.sigma, r.value.value.mu)
  {
    match InitialGuess(values, centers)
    case Err(e) => Err(e)
    case Ok(p0) =>
      var points := Zip(centers, values);
      match Caught(CurveFitCall(fit, points, p0))
      case Err(e) => Err(e)
      case Ok(None) => Ok(None)
      case Ok(Some(popt)) =>
        var (lo, hi) := MaskOf(popt);
        match Caught(CurveFitCall(fit, Inside(points, lo, hi), popt))
        case Err(e) => Err(e)
        case Ok(None) => Ok(None)
        case Ok(Some(q)) => Ok(Some(Refit(q.mu, Abs(q.sigma), Resolution(Abs(q.sigma), q.mu))))
  }

  /** One `plt.step` curve: the rebinned centres and values, its colour, the mass shown in the
      legend and the fit (None for "(fit failed)"). */
  datatype Curve = Curve(centers: seq<real>, values: seq<real>, colour: string, mass: string, fit: Option<Refit>)

  /** Everything the loop does for file i. */
  function FileCurve(i: nat, filename: string, file: UprootFile, key: string, fit: CurveFit): Result<Curve>
  {
    match Read(file, key)
    case Err(e) => Err(e)
    case Ok(h) =>
      var b := Prepared(h);
      match FitOutcome(b.centers, b.values, fit)
      case Err(e) => Err(e)
      case Ok(refit) => Ok(Curve(b.centers, b.values, Colors[i % |Colors|], ExtractMassFromFilename(filename), refit))
  }

  /** A curve is drawn only for a file that was read; it holds that file's prepared centres and
      values, one value per centre and at least one of them, and the outcome of the two fits on
      them (the legend's sigma/mu, or "(fit failed)" for None); the centres increase strictly, the
      values sum to 1 when the rebinned total is positive, and the colour and mass come from the
      index and the file name. A read failure is
      reported as it is, and no RuntimeError escapes. */
  lemma {:induction false} FileCurveProperties(i: nat, filename: string, file: UprootFile, key: string, fit: CurveFit)
    ensures Read(file, key).Err? ==> FileCurve(i, filename, file, key, fit) == Err(Read(file, key).error)
    ensures FileCurve(i, filename, file, key, fit).Err? ==> !FileCurve(i, filename, file, key, fit).error.RuntimeError?
    ensures var r := FileCurve(i, filename, file, key, fit);
            r.Ok? ==> && Read(file, key).Ok?
                      && r.value.colour == Colors[i % |Colors|]
                      && r.value.mass == ExtractMassFromFilename(filename)
                      && r.value.centers == Prepared(Read(file, key).value).centers
                      && r.value.values == Prepared(Read(file, key).value).values
                      && |r.value.centers| == |r.value.values| > 0
                      && r.value.fit == FitOutcome(r.value.centers, r.value.values, fit).value
                      && StrictlyIncreasing(r.value.centers)
                      && (var h := Read(file, key).value;
                          Sum(Rebin(h.values, h.edges, RebinFactorRounded(BinWidth(h))).values) > 0.0 ==>
                            Sum(r.value.values) == 1.0)
  {
    if Read(file, key).Ok? {
      PreparedOrdered(Read(file, key).value);
    }
  }

  /** The centres of a prepared histogram increase strictly. */
  lemma PreparedOrdered(h: Histogram1D)
    ensures StrictlyIncreasing(Prepared(h).centers)
  {
    var f := RebinFactorRounded(BinWidth(h));
    RebinKeepsOrder(h.values, h.edges, f);
    CentersIncreasing(Rebin(h.values, h.edges, f));
  }

  lemma CentersIncreasing(b: Binned)
    requires |b.centers| + 1 == |b.edges| && StrictlyIncreasing(b.edges)
    requires forall j :: 0 <= j < |b.centers| ==> b.edges[j] < b.centers[j] < b.edges[j + 1]
    ensures StrictlyIncreasing(b.centers)
  {
    forall j, k | 0 <= j < k < |b.centers|
      ensures b.centers[j] < b.centers[k]
    {
      assert b.edges[j + 1] <= b.edges[k];
    }
  }

  /** A histogram with fewer bins than the rebin factor is left with no bins, and `values.max()`
      ends the script with a ValueError. */
  lemma {:induction false} TooFewBinsCrash(i: nat, filename: string, file: UprootFile, key: string, fit: CurveFit)
    requires Read(file, key).Ok?
    requires |Read(file, key).value.values| < RebinFactorRounded(BinWidth(Read(file, key).value))
    ensures FileCurve(i, filename, file, key, fit) == Err(ValueError)
  {
    var h := Read(file, key).value;
    var f := RebinFactorRounded(BinWidth(h));
    assert |h.values| / f == 0;
    assert |Prepared(h).values| == 0;
  }

  /** The body of `main`'s loop for file i: read, rebin, normalise, fit; the first uncaught
      exception is returned. */
  method PlotFile(i: nat, filename: string, file: UprootFile, key: string, fit: CurveFit) returns (r: Result<Curve>)
    ensures r == FileCurve(i, filename, file, key, fit)
  {
    var read := Read(file, key);
    if read.Err? {
      return Err(read.error);
    }
    var h := read.value;
    var binned := Prepared(h);
    var values := binned.values;
    var outcome := FitOutcome(binned.centers, values, fit);
    if outcome.Err? {
      return Err(outcome.error);
    }
    var colour := Colors[i % |Colors|];
    r := Ok(Curve(binned.centers, values, colour, ExtractMassFromFilename(filename), outcome.value));
  }

  /** What the loop gives for each file, in order. */
  function FileCurves(files: seq<string>, open: string -> UprootFile, key: string, fit: CurveFit): (rs: seq<Result<Curve>>)
    ensures |rs| == |files|
    ensures forall k :: 0 <= k < |files| ==> rs[k] == FileCurve(k, files[k], open(files[k]), key, fit)
  {
    seq(|files|, k requires 0 <= k < |files| => FileCurve(k, files[k], open(files[k]), key, fit))
  }

  /** Curve k of `curves` is the one file k gives. */
  predicate AllCurves(files: seq<string>, open: string -> UprootFile, key: string, fit: CurveFit, curves: seq<Curve>)
  {
    OkPrefix(FileCurves(files, open, key, fit), curves)
  }

  /** `main`: one curve per file in order; the first uncaught exception ends the loop before the
      figure is saved to `args.output`. */
  method PlotAll(files: seq<string>, open: string -> UprootFile, histdir: string, histname: string, fit: CurveFit,
                 output: string)
    returns (curves: seq<Curve>, saved: seq<string>, err: Option<PyError>)
    ensures AllCurves(files, open, histdir + "/" + histname, fit, curves)
    ensures err.None? ==> |curves| == |files| && saved == [output]
    ensures err.Some? ==> && |curves| < |files| && saved == []
                          && FileCurve(|curves|, files[|curves|], open(files[|curves|]), histdir + "/" + histname, fit)
                             == Err(err.value)
  {
    curves, saved, err := [], [], None;
    var key := histdir + "/" + histname;
    ghost var rs := FileCurves(files, open, key, fit);
    for i := 0 to |files|
      invariant |curves| == i
      invariant OkPrefix(rs, curves)
    {
      var r := PlotFile(i, files[i], open(files[i]), key, fit);
      if r.Err? {
        return curves, [], Some(r.error);
      }
      OkPrefixAppend(rs, curves, r.value);
      curves := curves + [r.value];
    }
    saved := [output];
  }
}
