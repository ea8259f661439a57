# W_R mass and signal-kinematics plotting scripts, modelled in Dafny

The scripts read histograms of the four-object invariant mass m(eejj) from ROOT files produced by
the W_R analyzer. Each file is one signal or background sample. A script does four things:
- rebins the histogram to bins of about 100 GeV;
- may normalise it to unit integral;
- may fit the peak with a Gaussian or a Breit-Wigner shape, either with ROOT (TF1 or RooFit) or
  with numpy/scipy;
- overlays the samples on one canvas, with a colour, draw option and legend label per file.

This project models those eight scripts. It covers:
- every branch that decides what is read, skipped, drawn, fitted or saved;
- the exceptions that end a script, including those `curve_fit` raises on too few points;
- the three different rebin-factor rules;
- the iterative refits, with their windows;
- the regular expressions that turn file names into mass labels;
- the hand-written numpy rebin, normalisation, initial guess and refit mask of the uproot version.

ROOT, uproot and the optimisers are not modelled. Each one is an input:
- a file is a function from (directory, name) to "no directory", "no histogram" or a histogram;
- `TH1::Rebin` is the statistics ROOT reports for each factor of at least 1. A factor of 0 is rejected by ROOT and leaves the histogram unmerged, so the model reads it as factor 1;
- a minimiser is a function from data, start values and range to fitted values.

Modules:
- `Outcomes`: Option, Result, the Python exceptions the scripts raise or let escape, and the prefix of successful results a loop has kept.
- `Numerics`: `int()`, `round()`, clipping to a range and `sigma/mean`.
- `FitWindow`: fit ranges, clipped and unclipped.
- `Binning`: the histogram view, `f.Get(dir).Get(name)`, the three rebin factors and `Scale`.
- `Labels`: `re.search` on the `_WR(\d+)`, `_WR(\d+)_` and `_N(\d+)\.root` patterns, `int()` of the digits, `sanitize_filename`.
- `Shapes`: the two Breit-Wigner formulas.
- `Overlay`: drawn histograms, legends and the indices an overlay loop keeps.
- `NumpyHist`: the numpy steps of the uproot script.
- `Tf1Gaussian`: the shared TF1 "gaus" refit loop.
- One module per script: `RooFitWrMass`, `CrVsSr`, `PlotWrMass`, `PlotWrMassWithBW`, `PlotWrMassWithItre`, `V1PlotWrMass`, `SignalDiffKinem`, `V1SignalDiffKinem`.

Several functions run the same code in more than one script (their docstrings may differ), and each is modelled once:
- the two RooFit fits of CRvsSR_rooFit_plot.py are those of rooFit_plot_Wrmass_BW.py;
- `iterative_gaussian_fit` of plot_wr_mass_withBW.py is that of plot_wr_mass.py;
- `extract_mass_from_filename` is the same in v1plot_wr_mass.py and plot_wr_mass.py.

Where the code differs from what the scripts' own comments describe, the model
follows the code:
- **Unclipped refit windows.** The refit windows of plot_wr_mass.py and plot_wr_mass_withBW.py are not clipped to the axis. The Gaussian refit builds a new TF1 from `mean - 2*sigma` to `mean + 2*sigma`, and the TF1 constructor puts its limits in increasing order, so a negative sigma gives the same window as its absolute value. The Breit-Wigner refit of plot_wr_mass_withBW.py uses `SetRange`, which keeps the limits as given, so its window is inverted when a fit returns a negative width. Among the TF1 fits, only `fit_breit_wigner` clips its window to the axis and takes `abs` of the width: the one plot_wr_mass_withitre.py calls, and its uncalled copy in plot_wr_mass_withBW.py. The RooFit windows of rooFit_plot_Wrmass_BW.py are clipped as well.
- **One fit status checked.** plot_wr_mass_withBW.py looks only at the status of its first fit. The two refits are never checked.
- **Draw option by index.** plot_wr_mass_withitre.py chooses "HIST" by the file index, not by what was drawn first. When the first file has no histogram, every histogram is drawn "HIST SAME".
- **Unguarded rebin and scale.** plot_wr_mass_withitre.py rebins by `int(100/w)` with no lower bound of 1. It normalises without a guard, so a zero integral raises ZeroDivisionError. An unreadable file fails at `infile.Get`.
- **CRvsSR checks one histogram.** CRvsSR_rooFit_plot.py checks only the signal-region histogram. A missing control-region or reference-signal histogram fails at `Rebin` on a null object.
- **Dead check in v1_signal_diffkinem.py.** It rebins the histogram before its `if not h_orig` check. A directory without the histogram therefore ends the script instead of skipping the file.

## Model

| member | source | states |
|---|---|---|
| Numerics.Trunc | v1plot_wr_mass.py:46-47 | `int(x)` truncates toward zero: the result is within one of x, on the side of zero |
| Numerics.RoundHalfEven | plot_wr_mass.py:161-162 | `round(x)` is within one half of x and even on a tie |
| Numerics.RoundHalfEvenUnique | plot_wr_mass.py:161-162 | those two properties determine `round(x)` uniquely |
| Numerics.Clamp | rooFit_plot_Wrmass_BW.py:12-13 | a RooRealVar value lies in its range, is unchanged inside it and sits on the nearest bound outside it |
| Numerics.Resolution | plot_wr_mass.py:138 | `sigma/mean` times mean gives sigma back; the result is 0 for a zero mean |
| FitWindow.Around | plot_wr_mass_withBW.py:71-74 | `[c - k s, c + k s]` is centred on c, and it contains c and is non-empty exactly when k s >= 0 |
| FitWindow.ClippedAround | rooFit_plot_Wrmass_BW.py:17-21 | `[max(xmin, c - k s), min(xmax, c + k s)]` lies on the axis and inside the unclipped window, contains c when c is on the axis, and equals the unclipped window when that fits |
| Binning.Fetch | CRvsSR_rooFit_plot.py:104-113 | `f.Get(dir).Get(name)` raises on an unreadable file or a missing directory, yields None exactly for a missing histogram, and otherwise yields the histogram stored there |
| Binning.RebinFactor | rooFit_plot_Wrmass_BW.py:108-110 | `max(1, int(100/w))` is at least 1. For w <= 100 it is the largest factor whose merged width stays within 100 GeV; for w > 100 it is 1 |
| Binning.RebinFactorRounded | plot_wr_mass.py:161-163 | `max(1, int(round(100/w)))` is at least 1, equals `round(100/w)` whenever that is >= 1, and is 1 whenever `round(100/w)` is below 1. For w <= 200 the merged width is within half a bin of 100 GeV |
| Binning.RoundedFactorClose | plot_wr_mass.py:161-162 | for bins up to 200 GeV, the rounded factor merges to within half an original bin of 100 GeV |
| Binning.HalfBinError | plot_wr_mass.py:161-162 | a factor within one half of 100/w gives a merged width within half a bin of 100 GeV |
| Binning.RebinFactorUnguarded | plot_wr_mass_withitre.py:47 | `int(100/w)` is the largest factor within 100 GeV, and it is 0 exactly when a bin is wider than 100 GeV |
| Binning.RebinFactorAntitone | rooFit_plot_Wrmass_BW.py:108-110 | a wider original bin never gets a larger rebin factor |
| Binning.ProductsOrder | rooFit_plot_Wrmass_BW.py:108-110 | if b wide bins fit in 100 GeV and a narrower bins do not, then b < a |
| Binning.RebinFactorsCompared | rooFit_plot_Wrmass_BW.py:108-110 | for every width: up to 100 GeV `int(100/w)` equals `max(1, int(100/w))` and `max(1, int(round(100/w)))` is that factor or one more; above 100 GeV `int(100/w)` is 0 and both guarded rules give 1 |
| Binning.Scaled | plot_wr_mass.py:167-168 | `Scale(c)` multiplies the integral by c, keeps axis, width, mean and RMS, and keeps the minimum below the maximum |
| Binning.NormalizedIfPositive | v1_signal_diffkinem.py:52-53 | a positive integral becomes 1 and the maximum is divided by the old integral; otherwise the histogram is untouched |
| Binning.NormalizedUnguarded | plot_wr_mass_withitre.py:50 | `Scale(1.0/Integral())` raises ZeroDivisionError exactly for a zero integral, and otherwise leaves unit integral |
| Labels.DigitRunEnd | v1plot_wr_mass.py:20 | `\d+` reads the maximal run of digits from a position |
| Labels.FindFrom | v1plot_wr_mass.py:20 | the scanner finds the leftmost position from p where the pattern matches, and None when there is none |
| Labels.Search | v1plot_wr_mass.py:19-21 | `re.search(...).group(1)` is a non-empty digit string, and None exactly when no position matches |
| Labels.ScanMatchIsRegexMatch | rooFit_plot_Wrmass_BW.py:97-98 | the scanner matches at p exactly when the pattern `prefix(\d+)suffix` does, and its group is the longest the pattern allows |
| Labels.ScanIsLongestRegex | rooFit_plot_Wrmass_BW.py:97-98 | a scanner match is a pattern match with the greedy (longest) group |
| Labels.RegexIsScan | rooFit_plot_Wrmass_BW.py:97-98 | every pattern match is found by the scanner when the suffix cannot start with a digit |
| Labels.RegexRunBound | rooFit_plot_Wrmass_BW.py:97-98 | a pattern's digit group never runs past the maximal digit run |
| Labels.SearchIsLeftmostLongest | rooFit_plot_Wrmass_BW.py:97-98 | Search is `re.search`: None exactly when nothing matches, and otherwise the group at the leftmost match with the greedy group |
| Labels.SearchNone | rooFit_plot_Wrmass_BW.py:97-98 | when the scanner finds nothing, the pattern matches nowhere |
| Labels.SearchSome | rooFit_plot_Wrmass_BW.py:97-98 | when the scanner finds a position, its group is the leftmost, longest pattern match |
| Labels.OverlayLabels | v1_signal_diffkinem.py:19-22 | the W and N legend labels are the matched digits when the pattern occurs, and the whole file name when it does not |
| Labels.NatToString | v1_signal_diffkinem.py:89 | `str(n)` is a non-empty digit string with no leading zero |
| Labels.IntToString | v1_signal_diffkinem.py:89 | `str(i)` is digits, with a leading '-' for a negative i; IntToStringValue ties those digits to i |
| Labels.IntToStringValue | v1_signal_diffkinem.py:89 | reading back `str(i)` gives i: the whole text for i >= 0, the digits after the '-' giving -i for i < 0 |
| Labels.DigitsValueOfNatToString | plot_wr_mass_withitre.py:24-26 | reading back the decimal text of n gives n |
| Labels.ExtractMassFromFilenameSpec | plot_wr_mass.py:141-143 | `extract_mass_from_filename` gives the digits after `_WR`, and "unknown" exactly when `_WR(\d+)` does not occur |
| Labels.MassLabelSpec | rooFit_plot_Wrmass_BW.py:97-98 | `mass_str` gives the digits of the first `_WR(\d+)_`, and "Unknown" exactly when there is none |
| Labels.ExtractWrMassSpec | plot_wr_mass_withitre.py:24-26 | `extract_wr_mass` is None exactly when `_WR(\d+)_` does not occur, and otherwise the integer value of the `mass_str` digits |
| Labels.SanitizeFilename | v1_signal_diffkinem.py:5-6 | same length; every character is in `[a-zA-Z0-9_-]`; a character is kept exactly when it is allowed and otherwise becomes "_" |
| Labels.SanitizeIdempotent | v1_signal_diffkinem.py:5-6 | sanitising twice changes nothing more |
| Shapes.BreitWigner | plot_wr_mass_withBW.py:4-6 | the formula is undefined (division by zero) exactly at x = mean with width 0 |
| Shapes.BreitWignerPeak | plot_wr_mass_withBW.py:4-6 | the curve peaks at the mean with value norm |
| Shapes.BreitWignerSymmetric | plot_wr_mass_withBW.py:4-6 | the curve is symmetric about its mean |
| Shapes.BreitWignerHalfMaximum | plot_wr_mass_withBW.py:4-6 | at mean +- width/2 the curve is half of norm, so the FWHM is the width |
| Shapes.BreitWignerBounded | plot_wr_mass_withBW.py:4-6 | for norm >= 0 the curve lies in [0, norm] |
| Shapes.BreitWignerGamma | plot_wr_mass_withitre.py:4-6 | the formula is undefined exactly at x = M with Gamma 0 |
| Shapes.BreitWignerGammaPeak | plot_wr_mass_withitre.py:4-6 | this variant peaks at M with value 4 norm, not norm |
| Shapes.BreitWignerGammaSymmetric | plot_wr_mass_withitre.py:4-6 | the curve is symmetric about M |
| Shapes.BreitWignerGammaHalfMaximum | plot_wr_mass_withitre.py:4-6 | at M +- Gamma/2 the curve is 2 norm, half its peak |
| Shapes.BreitWignerGammaBounded | plot_wr_mass_withitre.py:4-6 | for norm >= 0 the curve lies in [0, 4 norm] |
| Overlay.KeptIndices | plot_wr_mass_withitre.py:43-45 | the indices an overlay keeps are below n, accepted by the skip test, and strictly increasing |
| Overlay.KeptIndicesNext | plot_wr_mass_withitre.py:43-45 | one more file adds its index exactly when it is accepted |
| Overlay.KeptIndicesComplete | plot_wr_mass_withitre.py:43-45 | every accepted index is kept |
| Overlay.KeptIndicesAll | plot_wr_mass_withitre.py:43-45 | when no file is skipped, every index is kept in order |
| NumpyHist.Trim | v1plot_wr_mass.py:48 | the slice keeps the first `len // f` whole groups of f values |
| NumpyHist.GroupSums | v1plot_wr_mass.py:49 | `reshape(-1, f).sum(axis=1)` yields one entry per group |
| NumpyHist.GroupSumsAt | v1plot_wr_mass.py:49 | group j sums entries j f up to (j+1) f |
| NumpyHist.GroupSumsTotal | v1plot_wr_mass.py:49 | the group sums add up to the total of the values they group |
| NumpyHist.EveryNth | v1plot_wr_mass.py:50 | `edges[::f]` keeps ceil(len/f) edges |
| NumpyHist.EveryNthAt | v1plot_wr_mass.py:50 | entry j of `edges[::f]` is edge j f |
| NumpyHist.Centers | v1plot_wr_mass.py:51 | there is one midpoint per bin |
| NumpyHist.Rebin | v1plot_wr_mass.py:46-51 | the rebinned values, edges and centres line up (n values, n+1 edges, n centres), with n = `len // f`, whether or not f divides the bin count |
| NumpyHist.RebinKeepsOrder | v1plot_wr_mass.py:50-51 | the kept edges increase strictly, and every centre lies strictly inside its bin |
| NumpyHist.RebinBin | v1plot_wr_mass.py:48-50 | new bin j holds the sum of old bins j f to (j+1) f, and its left edge is old edge j f |
| NumpyHist.RebinByOne | v1plot_wr_mass.py:46-51 | a factor of 1 leaves the values and edges as they are, with the plain bin centres |
| NumpyHist.RebinTotal | v1plot_wr_mass.py:48-49 | rebinning keeps the total of the trimmed values, and loses nothing when f divides the bin count |
| NumpyHist.Normalize | v1plot_wr_mass.py:54-55 | for a positive total every value is divided by it; otherwise the values are unchanged |
| NumpyHist.Divided | v1plot_wr_mass.py:55 | element-wise division keeps the length |
| NumpyHist.SumDivided | v1plot_wr_mass.py:55 | the divided values sum to the total divided by d |
| NumpyHist.NormalizeSumsToOne | v1plot_wr_mass.py:54-55 | a normalised histogram with a positive total sums to 1 |
| NumpyHist.ArgMax | v1plot_wr_mass.py:59 | `np.argmax` is the first index holding the largest value |
| NumpyHist.InitialGuess | v1plot_wr_mass.py:59 | `p0` raises ValueError exactly on an empty array. Otherwise it is (maximum, centre of the first maximum, 200) |
| NumpyHist.Inside | v1plot_wr_mass.py:64 | the mask keeps only points strictly inside (lo, hi) |
| NumpyHist.InsideComplete | v1plot_wr_mass.py:64 | every point strictly inside the window is kept |
| NumpyHist.InsideConcat | v1plot_wr_mass.py:64 | the mask works point by point, so kept points stay in order |
| NumpyHist.Zip | v1plot_wr_mass.py:60 | point j pairs centre j with value j |
| V1PlotWrMass.Read | v1plot_wr_mass.py:39-43 | reading fails with FileNotFound for a missing file and with KeyError for a missing key; otherwise it yields the stored histogram |
| V1PlotWrMass.BinWidth | v1plot_wr_mass.py:46 | the bin width is the difference of the first two edges, and it is positive |
| V1PlotWrMass.Prepared | v1plot_wr_mass.py:46-55 | edges and centres are those of the rebin by `max(1, int(round(100/w)))`, and the values sum to 1 when the rebinned total is positive |
| V1PlotWrMass.MaskOf | v1plot_wr_mass.py:64 | the mask window is centred on mu with half-width 2 abs(sigma) |
| V1PlotWrMass.CurveFitCall | v1plot_wr_mass.py:60-65 | `curve_fit` raises ValueError on no points and TypeError on fewer points than its three parameters; otherwise it is the optimiser's result |
| V1PlotWrMass.Caught | v1plot_wr_mass.py:78-81 | only a RuntimeError is caught and becomes "(fit failed)"; other exceptions pass through |
| V1PlotWrMass.FitOutcome | v1plot_wr_mass.py:58-81 | an empty array raises ValueError, one or two points raise TypeError. The first `curve_fit` gets every (centre, value) pair with p0 = (max, centre of the first max, 200). The refit gets exactly the pairs strictly inside mu ± 2·abs(sigma) of that optimum, with p0 = that optimum; fewer than three of them raise ValueError/TypeError. A RuntimeError from either fit gives None ("(fit failed)"), any other error passes through, and a successful refit reports its mu, abs(sigma) and sigma/mu (0 when mu is 0) |
| V1PlotWrMass.FileCurveProperties | v1plot_wr_mass.py:37-81 | a file's curve exists only when the read succeeds. It then holds that histogram's prepared centres and values, matching and non-empty, strictly increasing centres, unit sum for a positive total, the colour and mass label of its index and name, and the outcome of FitOutcome on those arrays (the legend's sigma/mu, or None for "(fit failed)"). A read error is reported unchanged |
| V1PlotWrMass.PreparedOrdered | v1plot_wr_mass.py:50-51 | the centres of a prepared histogram increase strictly |
| V1PlotWrMass.TooFewBinsCrash | v1plot_wr_mass.py:48-59 | a histogram with fewer bins than the factor rebins to nothing, and `values.max()` ends the script with ValueError |
| V1PlotWrMass.PlotFile | v1plot_wr_mass.py:38-81 | the loop body for file i yields that file's curve or its uncaught exception |
| V1PlotWrMass.PlotAll | v1plot_wr_mass.py:37-89 | `main` draws one curve per file in order; the first uncaught exception stops it, keeps the curves before it, names the file's error and saves nothing. Otherwise the figure is saved to the output path |
| Tf1Gaussian.Tf1Limits | plot_wr_mass.py:134 | the TF1 constructor's range is the two limits in increasing order |
| Tf1Gaussian.RefitWindow | plot_wr_mass.py:133-134 | the refit range is centred on the mean with length 4 abs(sigma), so it always contains the mean |
| Tf1Gaussian.IterativeGaussianFit | plot_wr_mass.py:124-139 | range 0 is the axis and range i is the window of fit i-1. The result is the last fit's mean and sigma, with sigma/mean (0 for mean 0) |
| PlotWrMass.GetHistogram | plot_wr_mass.py:113-122 | `get_histogram` fails with "Could not open file" or "Histogram ... not found" and otherwise yields the stored histogram |
| PlotWrMass.Prepared | plot_wr_mass.py:161-168 | after the rounded rebin, a positive integral is scaled to 1 and anything else is left alone |
| PlotWrMass.CollectHistograms | plot_wr_mass.py:156-171 | the prepared histograms come in file order and the first failing read stops the loop. `max_val` is >= 0, bounds every maximum, and is 0 or one of them |
| PlotWrMass.AllEntriesAppend | plot_wr_mass.py:181-199 | appending the entry histogram i calls for keeps the overlay correct |
| PlotWrMass.DrawOverlay | plot_wr_mass.py:181-199 | histogram i is drawn with colour i mod 6 and maximum 1.2 `max_val`, with its three-step Gaussian fit, "HIST E" only for i = 0, and its file's mass label |
| PlotWrMass.PlotAll | plot_wr_mass.py:145-202 | the histograms and `max_val` are those of CollectHistograms. A failed read names the file's error, draws and saves nothing. Otherwise every file is drawn as DrawOverlay describes (colour, draw option, fit, label, maximum 1.2 `max_val`, at least its own highest bin) and the canvas is saved to the output path |
| PlotWrMassWithBW.InitialParams | plot_wr_mass_withBW.py:61-62 | the start values are (maximum, mean, RMS) |
| PlotWrMassWithBW.RefitRange | plot_wr_mass_withBW.py:71 | the refit range is centred on the mean with length 4 width, and it contains the mean exactly when width >= 0 |
| PlotWrMassWithBW.FitAndPlot | plot_wr_mass_withBW.py:41-104 | a missing file or directory raises on a null object and a missing histogram raises RuntimeError. Otherwise there are three chained fits (axis, then twice the window of the previous fit); the warning depends only on the first status, and the plot is saved as `wr_mass_bw_WR<mass>.png` |
| PlotWrMassWithItre.InitialGuess | plot_wr_mass_withitre.py:12 | the start values are (maximum, 50, mean) |
| PlotWrMassWithItre.RefineWindow | plot_wr_mass_withitre.py:17-19 | the window lies on the axis and inside `[M - 2|Gamma|, M + 2|Gamma|]`, and it contains M when M is on the axis |
| PlotWrMassWithItre.FitRanges | plot_wr_mass_withitre.py:8-22 | n refinements use n + 1 ranges |
| PlotWrMassWithItre.FitRangesAt | plot_wr_mass_withitre.py:8-22 | range 0 is the axis, range i is the window of fit i-1, and every range lies on the axis |
| PlotWrMassWithItre.FitBreitWigner | plot_wr_mass_withitre.py:8-22 | `fit_breit_wigner` returns the parameters after three refinements, and its four ranges are the axis and the window of each previous fit, all on the axis |
| PlotWrMassWithItre.Normalized | plot_wr_mass_withitre.py:47-50 | after `Rebin(int(100/w))` (which leaves a histogram with bins wider than 100 GeV unmerged, as the factor is 0), an unguarded scale raises ZeroDivisionError exactly for a zero integral, and otherwise gives unit integral |
| PlotWrMassWithItre.NoStopBeforeAll | plot_wr_mass_withitre.py:38-50 | no file before the stopping point stops the script |
| PlotWrMassWithItre.AllDrawnAppend | plot_wr_mass_withitre.py:52-66 | appending what a file calls for keeps every drawn histogram correct |
| PlotWrMassWithItre.DrawnAfterProperties | plot_wr_mass_withitre.py:38-66 | exactly the files whose histogram is found are drawn, in file order. Each has its colour, "HIST" only for index 0, its fit and its mass |
| PlotWrMassWithItre.PlotAll | plot_wr_mass_withitre.py:38-71 | files without the histogram are skipped. An unreadable file or a zero integral stops the script, the index is reported, what was drawn before it is kept and nothing is saved. Otherwise the canvas is saved as `wr_mass_breitwigner_iterative.pdf` |
| PlotWrMassWithItre.MissingFirstMeansAllSame | plot_wr_mass_withitre.py:52-58 | when the first file has no histogram, every histogram is drawn "HIST SAME" |
| RooFitWrMass.Bounded | rooFit_plot_Wrmass_BW.py:12-13 | RooRealVar values stay in range: the mean on the axis, the width in [10, 1000], clipped to the bound they pass |
| RooFitWrMass.Start | rooFit_plot_Wrmass_BW.py:12-13 | start values are (mean, RMS), clipped into range |
| RooFitWrMass.NarrowWindow | rooFit_plot_Wrmass_BW.py:19-21 | the "narrow" range lies on the axis and inside `[m - k s, m + k s]`, and it contains the mean |
| RooFitWrMass.AfterFullFits | rooFit_plot_Wrmass_BW.py:17-21 | the parameters stay in range after any number of full-range fits |
| RooFitWrMass.NarrowedFit | rooFit_plot_Wrmass_BW.py:17-23 | the final narrowed fit stays in range |
| RooFitWrMass.NarrowingFit | rooFit_plot_Wrmass_BW.py:17-23 | there are three full-range fits, each starting where the last stopped, and then one fit on the window of the third; that window lies on the axis and contains the start mean |
| RooFitWrMass.IterativeGaussianFit | rooFit_plot_Wrmass_BW.py:8-49 | returns the narrowed fit with k = 1.5 and saves `wr_mass_gauss_WR<mass>.png` |
| RooFitWrMass.IterativeBreitWignerFit | rooFit_plot_Wrmass_BW.py:52-92 | returns the narrowed fit with k = 2 and saves `wr_mass_bw_WR<mass>.png` |
| RooFitWrMass.FitAndPlot | rooFit_plot_Wrmass_BW.py:95-125 | a missing file or directory raises on a null object and a missing histogram raises RuntimeError. Otherwise both fits run on the histogram rebinned by `max(1, int(100/w))` |
| CrVsSr.SrVsCr | CRvsSR_rooFit_plot.py:98-185 | a RuntimeError is raised exactly when the signal-region histogram is missing but every lookup succeeded. Otherwise the canvas draws SR, CR and signal (red, blue, violet; "ep" then "ep same"), all rebinned by the SR factor, under `op_str` |
| CrVsSr.FitAndPlot | CRvsSR_rooFit_plot.py:98-185 | the step-by-step `fit_and_plot` returns 0 with exactly the canvas of SrVsCr, or SrVsCr's exception |
| CrVsSr.ConfigFor | CRvsSR_rooFit_plot.py:188-195 | a configuration exists only for the first two files |
| CrVsSr.RunFiles | CRvsSR_rooFit_plot.py:188-195 | the first file uses the Drell-Yan region and the second the ttbar region; later files are ignored and the first exception stops the run |
| SignalDiffKinem.OpenedBeforeAll | signal_diffkinem_.py:22-23 | every file before the stopping point opened |
| SignalDiffKinem.AllEntriesAppend | signal_diffkinem_.py:33-53 | appending what a file calls for keeps every entry correct |
| SignalDiffKinem.DrawnAfterIndices | signal_diffkinem_.py:16-53 | exactly the files with the directory and the histogram are drawn, in file order |
| SignalDiffKinem.DrawnAfterEntries | signal_diffkinem_.py:16-53 | each entry is its file's histogram rebinned by `max(1, int(100/w))`, with colour i + 2, the legend the label rule gives its file name (`WLabel` in the script), and "ep" only when it is drawn first |
| SignalDiffKinem.DrawFiles | signal_diffkinem_.py:16-53 | the loop with its `first` flag draws what DrawnAfter describes, or reports the first file that does not open |
| SignalDiffKinem.OverlayHistograms | signal_diffkinem_.py:7-57 | the entries are those DrawnAfter gives with the W label as legend. The canvas is saved as `overlay_<op>_<hist>.png` with the drawn histograms, even when none were drawn, unless a file failed to open |
| SignalDiffKinem.OnlyFirstDrawnIsEp | signal_diffkinem_.py:47-51 | the first histogram drawn is the only one drawn "ep", whichever file it came from |
| V1SignalDiffKinem.NoCrashBeforeAll | v1_signal_diffkinem.py:36-45 | no file before the stopping point has a directory without the histogram |
| V1SignalDiffKinem.Prepared | v1_signal_diffkinem.py:38-53 | after the rebin by `max(1, int(100/w))`, a positive integral is scaled to 1 and anything else is left alone |
| V1SignalDiffKinem.AllEntriesAppend | v1_signal_diffkinem.py:52-63 | appending what a file calls for keeps every entry correct |
| V1SignalDiffKinem.DrawnAfterIndices | v1_signal_diffkinem.py:36-63 | exactly the files that open and have the directory and the histogram are drawn, in file order |
| V1SignalDiffKinem.DrawnAfterEntries | v1_signal_diffkinem.py:36-63 | each drawn entry is its file's prepared histogram, with colour i mod 4, the legend the rule gives its file name, and "HIST" only for the first |
| V1SignalDiffKinem.OutputBase | v1_signal_diffkinem.py:89 | the output is `plot_<index>` when an index is given, else `overlay_<hist>_diffWR` |
| V1SignalDiffKinem.DrawFiles | v1_signal_diffkinem.py:18-63 | for any legend rule: unreadable files and files without the directory are skipped, and exactly the complete files are drawn in order. Each has colour i mod 4, its legend, and "HIST" only when it is first. A directory without the histogram ends the loop at the file reported |
| V1SignalDiffKinem.OverlayHistograms | v1_signal_diffkinem.py:9-91 | as DrawFiles, with the `(W,N)=(...)` legend of `Legend`. The png and pdf are saved only when something was drawn and nothing crashed |

## Left out

- Rendering and I/O: canvases, legends' text sizes, axis titles, `SetLogy`, `SetRangeUser`, `plt.*`, `print`, and the contents of saved files. The model records only which file names are saved.
- The optimisers: `TH1::Fit`, `RooAbsPdf::fitTo` and `scipy.optimize.curve_fit` are inputs. The model fixes their arguments (start values and range) and what the script does with their result.
- ROOT and uproot internals: `TH1::Rebin`, `Scale`'s effect on bin contents, `Integral`, `GetMean`, `GetRMS`, `GetMaximum`, and uproot's decoding. Each histogram's statistics per rebin factor are an input.
- Floating point: all arithmetic is on exact reals. Rounding effects of `100/w` at exact ties are not modelled.
- The Gaussian `gauss` of v1plot_wr_mass.py and the `np.linspace` curve of the fitted shape are not modelled, because they need `exp`.
- `\d` matches only the ASCII digits 0-9. Python's `re` also accepts other Unicode decimal digits.
- f-string formatting of floats in legends and printed messages (`:.1f`).
- `fit_breit_wigner` of plot_wr_mass_withBW.py (lines 25-39) is never called by that script. It is the same code as lines 8-22 of plot_wr_mass_withitre.py, clipping included.
- The RooFit plotting of each fit (frames, `plotOn`, legend text). Only the returned values and output names are modelled.
- The `main` functions of rooFit_plot_Wrmass_BW.py and plot_wr_mass_withBW.py apply `fit_and_plot` to each file. The JSON-driven `main` of the two signal_diffkinem scripts reads a configuration file and calls `overlay_histograms`.
- The argparse handling of plot_wr_mass.py and v1plot_wr_mass.py: the input files, directory, histogram name and output path are parameters.
- `TH1::Rebin` with a factor larger than the number of bins is also rejected by ROOT. The model leaves that case to the input statistics.
- Commented-out code (plot_wr_mass.py lines 1-104, the commented blocks of rooFit_plot_Wrmass_BW.py) is not modelled.
- `tf.ls()`, `tf.Close()` and `Clone` in v1_signal_diffkinem.py have no effect on what is drawn.
- diffKinem_CRvsSR_rooFit_plot.py is not part of this model.
- CrVsSr.FitAndPlot: `mass_str` is computed but never used, so it is not modelled.
