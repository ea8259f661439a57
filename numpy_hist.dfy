/** The numpy array steps of v1plot_wr_mass.py, over sequences of reals: the hand-written rebin
    (trim, group sums, every f-th edge, midpoints), unit-sum scaling, `argmax`, and the boolean
    mask that selects the points of the refit. */
module NumpyHist {
  import opened Outcomes

  /** `values.sum()`, summed from the front. */
  function Sum(s: seq<real>): real
  {
    if |s| == 0 then 0.0 else s[0] + Sum(s[1..])
  }

  lemma {:induction false} SumConcat(a: seq<real>, b: seq<real>)
    ensures Sum(a + b) == Sum(a) + Sum(b)
  {
    if |a| > 0 {
      assert (a + b)[0] == a[0];
      assert (a + b)[1..] == a[1..] + b;
      SumConcat(a[1..], b);
    } else {
      assert a + b == b;
    }
  }

  lemma MulSucc(a: nat, f: nat)
    ensures (a + 1) * f == a * f + f
  {
  }

  lemma MulMono(a: nat, b: nat, f: nat)
    requires a <= b
    ensures a * f <= b * f
  {
  }

  /** `values[: len(values) - len(values) % f]`: the trailing incomplete group is dropped, which
      leaves `len(values) // f` whole groups of f. */
  function Trim(values: seq<real>, f: nat): (t: seq<real>)
    requires f >= 1
    ensures |t| == (|values| / f) * f
    ensures t == values[..|t|]
  {
    values[..|values| - |values| % f]
  }

  /** `t.reshape(-1, f).sum(axis=1)` for t of q groups: the sum of each run of f consecutive
      entries. */
  function GroupSums(t: seq<real>, f: nat, q: nat): (g: seq<real>)
    requires f >= 1 && |t| == q * f
    ensures |g| == q
    decreases q
  {
    if q == 0 then []
    else
      MulSucc(q - 1, f);
      [Sum(t[..f])] + GroupSums(t[f..], f, q - 1)
  }

  /** Group j of the reshape is entries j*f up to (j+1)*f. */
  lemma {:induction false} GroupSumsAt(t: seq<real>, f: nat, q: nat, j: nat)
    requires f >= 1 && |t| == q * f && j < q
    ensures j * f + f <= |t|
    ensures GroupSums(t, f, q)[j] == Sum(t[j * f..j * f + f])
    decreases j
  {
    MulSucc(j, f);
    MulMono(j + 1, q, f);
    MulSucc(q - 1, f);
    if j > 0 {
      GroupSumsAt(t[f..], f, q - 1, j - 1);
      MulSucc(j - 1, f);
      assert t[f..][(j - 1) * f..(j - 1) * f + f] == t[j * f..j * f + f];
    }
  }

  /** The group sums add up to the same total as the values they group. */
  lemma {:induction false} GroupSumsTotal(t: seq<real>, f: nat, q: nat)
    requires f >= 1 && |t| == q * f
    ensures Sum(GroupSums(t, f, q)) == Sum(t)
    decreases q
  {
    if q > 0 {
      MulSucc(q - 1, f);
      GroupSumsTotal(t[f..], f, q - 1);
      assert t == t[..f] + t[f..];
      SumConcat(t[..f], t[f..]);
      var g := GroupSums(t, f, q);
      assert g[0] == Sum(t[..f]) && g[1..] == GroupSums(t[f..], f, q - 1);
    }
  }

  /** `edges[::f]`: the entries at indices 0, f, 2f, ..., of which there are
      ceil(len(edges) / f). */
  function EveryNth(edges: seq<real>, f: nat): (e: seq<real>)
    requires f >= 1 && |edges| >= 1
    ensures |e| == (|edges| - 1) / f + 1
  {
    seq((|edges| - 1) / f + 1,
        j requires 0 <= j < (|edges| - 1) / f + 1 =>
          MulMono(j, (|edges| - 1) / f, f);
          edges[j * f])
  }

  lemma EveryNthAt(edges: seq<real>, f: nat, j: nat)
    requires f >= 1 && |edges| >= 1 && j < |EveryNth(edges, f)|
    ensures j * f < |edges| && EveryNth(edges, f)[j] == edges[j * f]
  {
    MulMono(j, (|edges| - 1) / f, f);
  }

  /** `0.5 * (edges[1:] + edges[:-1])`: the midpoint of every bin. */
  function Centers(edges: seq<real>): (c: seq<real>)
    requires |edges| >= 1
    ensures |c| == |edges| - 1
  {
    seq(|edges| - 1, j requires 0 <= j < |edges| - 1 => 0.5 * (edges[j + 1] + edges[j]))
  }

  predicate StrictlyIncreasing(s: seq<real>)
  {
    forall j, k :: 0 <= j < k < |s| ==> s[j] < s[k]
  }

  /** A histogram as uproot gives it: at least one bin, one more edge than bins, edges strictly
      increasing. */
  predicate WellFormed(values: seq<real>, edges: seq<real>)
  {
    |values| >= 1 && |edges| == |values| + 1 && StrictlyIncreasing(edges)
  }

  /** The rebinned arrays (values, edges, centers) for factor f. */
  datatype Binned = Binned(values: seq<real>, edges: seq<real>, centers: seq<real>)

  /** The rebin of v1plot_wr_mass.py: `len(values) // f` group sums, and since the stride slice
      keeps `len(values) // f + 1` edges, the new edges and centres line up with the new values
      whether or not f divides the number of bins. */
  function Rebin(values: seq<real>, edges: seq<real>, f: nat): (b: Binned)
    requires f >= 1 && |edges| == |values| + 1
    ensures |b.values| == |values| / f
    ensures |b.edges| == |b.values| + 1
    ensures |b.centers| == |b.values|
  {
    var t := Trim(values, f);
    var e := EveryNth(edges, f);
    Binned(GroupSums(t, f, |values| / f), e, Centers(e))
  }

  /** The kept edges stay strictly increasing, and every centre lies strictly inside its new bin. */
  lemma {:induction false} RebinKeepsOrder(values: seq<real>, edges: seq<real>, f: nat)
    requires f >= 1 && WellFormed(values, edges)
    ensures StrictlyIncreasing(Rebin(values, edges, f).edges)
    ensures var b := Rebin(values, edges, f);
            forall j :: 0 <= j < |b.centers| ==> b.edges[j] < b.centers[j] < b.edges[j + 1]
  {
    var e := EveryNth(edges, f);
    forall j, k | 0 <= j < k < |e|
      ensures e[j] < e[k]
    {
      EveryNthAt(edges, f, j);
      EveryNthAt(edges, f, k);
      assert j * f < k * f;
    }
  }

  /** Bin j of the rebinned histogram holds the sum of old bins j*f up to (j+1)*f, and its left
      edge is old edge j*f. */
  lemma RebinBin(values: seq<real>, edges: seq<real>, f: nat, j: nat)
    requires f >= 1 && |edges| == |values| + 1 && j < |values| / f
    ensures j * f + f <= |values|
    ensures Rebin(values, edges, f).values[j] == Sum(values[j * f..j * f + f])
    ensures Rebin(values, edges, f).edges[j] == edges[j * f]
  {
    var t := Trim(values, f);
    GroupSumsAt(t, f, |values| / f, j);
    EveryNthAt(edges, f, j);
    PrefixSlice(values, |t|, j * f, j * f + f);
  }

  /** Groups of one are the values themselves. */
  lemma {:induction false} GroupSumsByOne(t: seq<real>)
    ensures GroupSums(t, 1, |t|) == t
    decreases |t|
  {
    if |t| > 0 {
      GroupSumsByOne(t[1..]);
      assert Sum(t[..1]) == t[0];
      assert t == [t[0]] + t[1..];
    }
  }

  /** A factor of 1, which the scripts use for bins already 100 GeV wide, leaves the values, the
      edges and the centres as they were. */
  lemma RebinByOne(values: seq<real>, edges: seq<real>)
    requires |edges| == |values| + 1
    ensures Rebin(values, edges, 1) == Binned(values, edges, Centers(edges))
  {
    assert Trim(values, 1) == values;
    GroupSumsByOne(values);
    var e := EveryNth(edges, 1);
    assert |e| == |edges|;
    forall j | 0 <= j < |e|
      ensures e[j] == edges[j]
    {
      EveryNthAt(edges, 1, j);
    }
    assert e == edges;
  }

  lemma PrefixSlice(s: seq<real>, n: nat, lo: nat, hi: nat)
    requires lo <= hi <= n <= |s|
    ensures s[..n][lo..hi] == s[lo..hi]
  {
  }

  /** The rebinned values add up to the total of the kept (trimmed) values; when f divides the
      number of bins nothing is lost. */
  lemma {:induction false} RebinTotal(values: seq<real>, edges: seq<real>, f: nat)
    requires f >= 1 && |edges| == |values| + 1
    ensures Sum(Rebin(values, edges, f).values) == Sum(Trim(values, f))
    ensures |values| % f == 0 ==> Sum(Rebin(values, edges, f).values) == Sum(values)
  {
    GroupSumsTotal(Trim(values, f), f, |values| / f);
    if |values| % f == 0 {
      assert Trim(values, f) == values;
    }
  }

  /** `values / values.sum()` when the sum is positive, the values unchanged otherwise. */
  function Normalize(values: seq<real>): (n: seq<real>)
    ensures |n| == |values|
    ensures Sum(values) > 0.0 ==> forall j :: 0 <= j < |n| ==> n[j] == values[j] / Sum(values)
    ensures Sum(values) <= 0.0 ==> n == values
  {
    if Sum(values) > 0.0 then Divided(values, Sum(values)) else values
  }

  function Divided(values: seq<real>, d: real): (n: seq<real>)
    requires d != 0.0
    ensures |n| == |values| && forall j :: 0 <= j < |n| ==> n[j] == values[j] / d
  {
    seq(|values|, j requires 0 <= j < |values| => values[j] / d)
  }

  lemma {:induction false} SumDivided(values: seq<real>, d: real)
    requires d != 0.0
    ensures Sum(Divided(values, d)) == Sum(values) / d
  {
    if |values| > 0 {
      assert Divided(values, d)[1..] == Divided(values[1..], d);
      SumDivided(values[1..], d);
    }
  }

  /** A normalised histogram with a positive total sums to 1. */
  lemma NormalizeSumsToOne(values: seq<real>)
    requires Sum(values) > 0.0
    ensures Sum(Normalize(values)) == 1.0
  {
    SumDivided(values, Sum(values));
    assert Sum(values) / Sum(values) == 1.0;
  }

  /** `np.argmax(values)`: the first index holding the largest value. */
  function ArgMax(values: seq<real>): (k: nat)
    requires |values| >= 1
    ensures k < |values|
    ensures forall j :: 0 <= j < |values| ==> values[j] <= values[k]
    ensures forall j :: 0 <= j < k ==> values[j] < values[k]
    decreases |values|
  {
    if |values| == 1 then 0
    else
      var k := ArgMax(values[..|values| - 1]);
      if values[|values| - 1] > values[k] then |values| - 1 else k
  }

  /** The three parameters (A, mu, sigma) of `gauss`. */
  datatype GaussParams = GaussParams(a: real, mu: real, sigma: real)

  /** `p0 = [values.max(), centers[np.argmax(values)], 200.]`; numpy's reductions raise ValueError
      on an empty array. */
  function InitialGuess(values: seq<real>, centers: seq<real>): (r: Result<GaussParams>)
    requires |centers| == |values|
    ensures r.Err? <==> |values| == 0
    ensures r.Err? ==> r.error == ValueError
    ensures r.Ok? ==> r.value.sigma == 200.0
    ensures r.Ok? ==> forall j :: 0 <= j < |values| ==> values[j] <= r.value.a
    ensures r.Ok? ==> exists k :: 0 <= k < |values| && r.value.a == values[k] && r.value.mu == centers[k]
                                 && forall j :: 0 <= j < k ==> values[j] < values[k]
  {
    if |values| == 0 then Err(ValueError)
    else
      var k := ArgMax(values);
      Ok(GaussParams(values[k], centers[k], 200.0))
  }

  /** `(centers > lo) & (centers < hi)` applied to (centers, values): the points strictly inside
      (lo, hi), in their original order. */
  function Inside(points: seq<(real, real)>, lo: real, hi: real): (r: seq<(real, real)>)
    ensures |r| <= |points|
    ensures forall p :: p in r ==> p in points && lo < p.0 < hi
    decreases |points|
  {
    if |points| == 0 then []
    else
      var rest := Inside(points[1..], lo, hi);
      if lo < points[0].0 < hi then [points[0]] + rest else rest
  }

  /** Every point strictly inside the window is kept. */
  lemma {:induction false} InsideComplete(points: seq<(real, real)>, lo: real, hi: real, p: (real, real))
    requires p in points && lo < p.0 < hi
    ensures p in Inside(points, lo, hi)
    decreases |points|
  {
    if points[0] != p {
      InsideComplete(points[1..], lo, hi, p);
    }
  }

  /** The mask works point by point: masking a concatenation is concatenating the masks, so the
      kept points keep their order. */
  lemma {:induction false} InsideConcat(a: seq<(real, real)>, b: seq<(real, real)>, lo: real, hi: real)
    ensures Inside(a + b, lo, hi) == Inside(a, lo, hi) + Inside(b, lo, hi)
    decreases |a|
  {
    if |a| > 0 {
      assert (a + b)[0] == a[0];
      assert (a + b)[1..] == a[1..] + b;
      InsideConcat(a[1..], b, lo, hi);
    } else {
      assert a + b == b;
    }
  }

  /** `zip(centers, values)`. */
  function Zip(xs: seq<real>, ys: seq<real>): (z: seq<(real, real)>)
    requires |xs| == |ys|
    ensures |z| == |xs| && forall j :: 0 <= j < |z| ==> z[j] == (xs[j], ys[j])
  {
    seq(|xs|, j requires 0 <= j < |xs| => (xs[j], ys[j]))
  }
}
