/** The ROOT histogram as the scripts see it, the three rebin-factor rules and unit-integral scaling. */
module Binning {
  import opened Numerics
  import opened FitWindow
  import opened Outcomes

  /** A bin width; a ROOT axis has strictly increasing edges. */
  type Width = w: real | w > 0.0 witness 1.0

  /** The target merged bin width, 100 GeV, in every script. */
  const TargetWidth: real := 100.0

  /** What the scripts read back from a TH1: its axis, first-bin width, integral, extreme
      bin contents, mean and RMS. */
  datatype HistStats = HistStats(axis: Axis, binWidth: Width, integral: real,
                                 maximum: real, minimum: real, mean: real, rms: real)

  /** A histogram found in a file: the width of its first bin, and the statistics ROOT
      reports after `Rebin(f)` (TH1::Rebin is ROOT's own code, so this is an input). */
  datatype Hist = Hist(binWidth: Width, rebinned: nat -> HistStats)

  /** The statistics after `h.Rebin(f)` for any integer factor: `TH1::Rebin` rejects a factor
      below 1 and leaves the histogram unmerged, as a factor of 1 does. */
  function RebinnedBy(h: Hist, f: int): (s: HistStats)
    ensures f < 1 ==> s == h.rebinned(1)
    ensures f >= 1 ==> s == h.rebinned(f)
  {
    if f < 1 then h.rebinned(1) else h.rebinned(f)
  }

  /** What `dir.Get(name)` (or `file.Get("dir/name")`) yields. */
  datatype Lookup = NoDirectory | NoHistogram | Found(hist: Hist)

  /** A ROOT file: one that `TFile.Open` cannot read, or a readable one with its contents. */
  datatype RootFile = Unreadable | Readable(lookup: (string, string) -> Lookup)

  /** `f.Get(dir).Get(name)` in PyROOT: a method call on a null file or directory fails; a missing
      histogram comes back as a null object, which the scripts test with `if not h`. */
  function Fetch(file: RootFile, dir: string, name: string): (r: Result<Option<Hist>>)
    ensures r.Err? <==> file.Unreadable? || file.lookup(dir, name).NoDirectory?
    ensures r.Err? ==> r.error == NullObjectAccess
    ensures r == Ok(None) <==> file.Readable? && file.lookup(dir, name).NoHistogram?
    ensures r.Ok? && r.value.Some? ==> file.lookup(dir, name) == Found(r.value.value)
  {
    if file.Unreadable? then Err(NullObjectAccess)
    else match file.lookup(dir, name)
      case NoDirectory => Err(NullObjectAccess)
      case NoHistogram => Ok(None)
      case Found(h) => Ok(Some(h))
  }

  /** `max(1, int(100/w))`: the largest number of bins whose merged width stays within
      100 GeV, and 1 when a single bin is already wider. */
  function RebinFactor(w: Width): (f: int)
    ensures f >= 1
    ensures w <= TargetWidth ==> f as real * w <= TargetWidth < (f + 1) as real * w
    ensures TargetWidth < w ==> f == 1
  {
    var q := TargetWidth / w;
    assert q * w == TargetWidth;
    var t := Trunc(q);
    assert t as real * w <= TargetWidth < (t + 1) as real * w by {
      assert t as real <= q < t as real + 1.0;
      MulRightMono(t as real, q, w);
      MulRightStrict(q, t as real + 1.0, w);
    }
    Max(1.0, t as real).Floor
  }

  /** `max(1, int(round(100/w)))`: 100/w rounded half to even whenever that is at least 1. */
  function RebinFactorRounded(w: Width): (f: int)
    ensures f >= 1
    ensures RoundHalfEven(TargetWidth / w) >= 1 ==> f == RoundHalfEven(TargetWidth / w)
    ensures RoundHalfEven(TargetWidth / w) < 1 ==> f == 1
    ensures w <= 2.0 * TargetWidth ==> -0.5 * w <= TargetWidth - f as real * w <= 0.5 * w
  {
    var r := RoundHalfEven(TargetWidth / w);
    var f := if r >= 1 then r else 1;
    RoundedFactorClose(w, f);
    f
  }

  /** For bins up to 200 GeV wide, the rounded factor merges to within half a bin of 100 GeV. */
  lemma RoundedFactorClose(w: Width, f: int)
    requires f == (if RoundHalfEven(TargetWidth / w) >= 1 then RoundHalfEven(TargetWidth / w) else 1)
    ensures w <= 2.0 * TargetWidth ==> -0.5 * w <= TargetWidth - f as real * w <= 0.5 * w
  {
    if w <= 2.0 * TargetWidth {
      var q := TargetWidth / w;
      assert q * w == TargetWidth;
      DivLowerBound(w);
      var r := RoundHalfEven(q);
      assert -0.5 <= q - r as real <= 0.5;
      if r < 1 {
        assert r == 0 && q == 0.5;
      }
      HalfBinError(q, f as real, w);
    }
  }

  /** A factor within half of 100/w merges to within half a bin of 100 GeV. */
  lemma HalfBinError(q: real, g: real, w: Width)
    requires q * w == TargetWidth && -0.5 <= q - g <= 0.5
    ensures -0.5 * w <= TargetWidth - g * w <= 0.5 * w
  {
    var d := q - g;
    assert TargetWidth - g * w == d * w;
    MulRightMono(-0.5, d, w);
    MulRightMono(d, 0.5, w);
  }

  /** `int(100/w)` with no lower guard: 0 exactly when a bin is wider than 100 GeV. */
  function RebinFactorUnguarded(w: Width): (f: int)
    ensures f >= 0
    ensures f == 0 <==> TargetWidth < w
    ensures f as real * w <= TargetWidth < (f + 1) as real * w
  {
    var q := TargetWidth / w;
    assert q * w == TargetWidth;
    var t := Trunc(q);
    assert t as real * w <= TargetWidth < (t + 1) as real * w by {
      assert t as real <= q < t as real + 1.0;
      MulRightMono(t as real, q, w);
      MulRightStrict(q, t as real + 1.0, w);
    }
    t
  }

  /** A wider original bin never gets a larger merge factor. */
  lemma {:induction false} RebinFactorAntitone(w1: Width, w2: Width)
    requires w1 <= w2
    ensures RebinFactor(w2) <= RebinFactor(w1)
  {
    var f1, f2 := RebinFactor(w1), RebinFactor(w2);
    if f2 > 1 {
      assert w1 <= w2 <= TargetWidth;
      ProductsOrder((f1 + 1) as real, f2 as real, w1, w2);
    }
  }

  /** If b bins of width w2 fit in 100 GeV and a bins of the narrower width w1 do not, then b < a. */
  lemma ProductsOrder(a: real, b: real, w1: Width, w2: Width)
    requires w1 <= w2 && b >= 0.0 && b * w2 <= TargetWidth < a * w1
    ensures b < a
  {
    if a <= b {
      MulRightMono(a, b, w1);
      MulLeftMono(b, w1, w2, TargetWidth);
    }
  }

  /** How the three rules compare for every width: up to 100 GeV the guarded and unguarded
      truncations agree and rounding merges at most one bin more; above 100 GeV the unguarded
      truncation gives 0 and both guarded rules give 1. */
  lemma {:induction false} RebinFactorsCompared(w: Width)
    ensures w <= TargetWidth ==> RebinFactorUnguarded(w) == RebinFactor(w)
    ensures w <= TargetWidth ==> RebinFactor(w) <= RebinFactorRounded(w) <= RebinFactor(w) + 1
    ensures TargetWidth < w ==> RebinFactorUnguarded(w) == 0
    ensures TargetWidth < w ==> RebinFactor(w) == 1 && RebinFactorRounded(w) == 1
  {
    var q := TargetWidth / w;
    assert q * w == TargetWidth;
    var r := RoundHalfEven(q);
    if w <= TargetWidth {
      var f, u := RebinFactor(w), RebinFactorUnguarded(w);
      QuotientBracket(f, w);
      QuotientBracket(u, w);
      assert r >= 1;
    } else {
      if q >= 1.0 {
        MulRightMono(1.0, q, w);
      }
      assert r <= 1;
    }
  }

  /** A factor whose merged width brackets 100 GeV is the integer part of 100/w. */
  lemma QuotientBracket(f: int, w: Width)
    requires f as real * w <= TargetWidth < (f + 1) as real * w
    ensures f as real <= TargetWidth / w < (f + 1) as real
  {
    var q := TargetWidth / w;
    assert q * w == TargetWidth;
    if q < f as real {
      MulRightStrict(q, f as real, w);
    }
    if (f + 1) as real <= q {
      MulRightMono((f + 1) as real, q, w);
    }
  }

  lemma MulRightMono(a: real, b: real, c: real)
    requires a <= b && c >= 0.0
    ensures a * c <= b * c
  {
  }

  lemma MulRightStrict(a: real, b: real, c: real)
    requires a < b && c > 0.0
    ensures a * c < b * c
  {
  }

  lemma MulLeftMono(a: real, b: real, c: real, bound: real)
    requires a >= 0.0 && b <= c && a * c <= bound
    ensures a * b <= bound
  {
    assert a * b <= a * c;
  }

  lemma DivLowerBound(w: Width)
    requires w <= 2.0 * TargetWidth
    ensures TargetWidth / w >= 0.5
  {
  }

  /** `TH1::Scale(c)` for c != 0: contents and integral scale by c; for c < 0 the extreme
      bins swap roles; mean and RMS do not move. */
  function Scaled(s: HistStats, c: real): (t: HistStats)
    requires c != 0.0
    ensures t.axis == s.axis && t.binWidth == s.binWidth && t.mean == s.mean && t.rms == s.rms
    ensures t.integral == s.integral * c
    ensures s.minimum <= s.maximum ==> t.minimum <= t.maximum
  {
    if c > 0.0 then s.(integral := s.integral * c, maximum := s.maximum * c, minimum := s.minimum * c)
    else s.(integral := s.integral * c, maximum := s.minimum * c, minimum := s.maximum * c)
  }

  /** `if h.Integral() > 0: h.Scale(1.0 / h.Integral())`: unit integral after, untouched otherwise. */
  function NormalizedIfPositive(s: HistStats): (t: HistStats)
    ensures s.integral > 0.0 ==> t.integral == 1.0 && t.maximum * s.integral == s.maximum
    ensures s.integral <= 0.0 ==> t == s
  {
    if s.integral > 0.0 then Scaled(s, 1.0 / s.integral) else s
  }

  /** `h.Scale(1.0 / h.Integral())` with no guard: a zero integral divides by zero. */
  function NormalizedUnguarded(s: HistStats): (r: Result<HistStats>)
    ensures r.Err? <==> s.integral == 0.0
    ensures r.Err? ==> r.error == ZeroDivisionError
    ensures r.Ok? ==> r.value.integral == 1.0
  {
    if s.integral == 0.0 then Err(ZeroDivisionError) else Ok(Scaled(s, 1.0 / s.integral))
  }
}
