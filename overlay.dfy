/** What an overlay script puts on its canvas: the histograms it draws, in drawing order, and
    the legend entries that go with them. */
module Overlay {
  import opened Binning

  /** ROOT's EColor values the scripts use. */
  const KRed: int := 632
  const KBlue: int := 600
  const KViolet: int := 880

  /** One `h.Draw(option)` with the legend label added for h and its line colour. */
  datatype Plotted = Plotted(legend: string, hist: HistStats, option: string, colour: int)

  /** A saved canvas: the legend header, the drawn histograms in order, and the output file name. */
  datatype Plot = Plot(header: string, drawn: seq<Plotted>, outname: string)

  /** A drawn histogram together with the index of the file it came from. */
  datatype Entry = Entry(index: nat, shown: Plotted)

  function EntryIndices(es: seq<Entry>): (idx: seq<nat>)
    ensures |idx| == |es| && forall k :: 0 <= k < |es| ==> idx[k] == es[k].index
  {
    seq(|es|, k requires 0 <= k < |es| => es[k].index)
  }

  /** The drawn histograms of a list of entries, in order. */
  function ShownOf(es: seq<Entry>): (ps: seq<Plotted>)
    ensures |ps| == |es| && forall k :: 0 <= k < |es| ==> ps[k] == es[k].shown
  {
    seq(|es|, k requires 0 <= k < |es| => es[k].shown)
  }

  lemma EntryIndicesAppend(es: seq<Entry>, e: Entry)
    ensures EntryIndices(es + [e]) == EntryIndices(es) + [e.index]
  {
    assert forall k :: 0 <= k < |es| ==> (es + [e])[k] == es[k];
  }

  /** A file the signal overlays draw: it opens, and the directory and the histogram are there. */
  predicate Drawable(file: RootFile, dir: string, name: string)
  {
    file.Readable? && file.lookup(dir, name).Found?
  }

  /** Which file indices are drawable, as a filter for `KeptIndices`. */
  function Present(files: seq<string>, open: string -> RootFile, dir: string, name: string): nat -> bool
  {
    (i: nat) => i < |files| && Drawable(open(files[i]), dir, name)
  }

  /** The indices below n that `keep` accepts, in increasing order: the files an overlay loop that
      skips on a missing input actually draws. */
  function KeptIndices(keep: nat -> bool, n: nat): (idx: seq<nat>)
    ensures forall k :: 0 <= k < |idx| ==> idx[k] < n && keep(idx[k])
    ensures forall k, l :: 0 <= k < l < |idx| ==> idx[k] < idx[l]
    ensures |idx| <= n
  {
    if n == 0 then [] else KeptIndices(keep, n - 1) + (if keep(n - 1) then [n - 1] else [])
  }

  /** One more index: it is appended exactly when `keep` accepts it. */
  lemma KeptIndicesNext(keep: nat -> bool, n: nat)
    ensures !keep(n) ==> KeptIndices(keep, n + 1) == KeptIndices(keep, n)
    ensures keep(n) ==> KeptIndices(keep, n + 1) == KeptIndices(keep, n) + [n]
  {
  }

  /** Every accepted index below n is kept: nothing is dropped except what `keep` rejects. */
  lemma {:induction false} KeptIndicesComplete(keep: nat -> bool, n: nat, j: nat)
    requires j < n && keep(j)
    ensures j in KeptIndices(keep, n)
  {
    if j < n - 1 {
      KeptIndicesComplete(keep, n - 1, j);
    }
  }

  /** When every index is accepted, nothing is skipped. */
  lemma {:induction false} KeptIndicesAll(keep: nat -> bool, n: nat)
    requires forall j :: 0 <= j < n ==> keep(j)
    ensures KeptIndices(keep, n) == seq(n, j => j)
  {
    if n > 0 {
      KeptIndicesAll(keep, n - 1);
    }
  }
}
