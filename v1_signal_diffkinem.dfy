/** v1_signal_diffkinem.py `overlay_histograms`: one normalised histogram per file, drawn in file
    order with a "(W,N)=(...)" legend; files that cannot be opened or lack the directory are
    skipped, but a missing histogram is used (rebinned) before it is checked. */
module V1SignalDiffKinem {
  import opened Outcomes
  import opened Binning
  import opened Labels
  import opened Overlay

  /** `[kBlue, kRed, kGreen+2, kMagenta]`. */
  const Colors: seq<int> := [KBlue, KRed, 418, 616]

  /** `f"(W,N)=({mass_str},{Nmass_str})"`. */
  function Legend(filename: string): string
  {
    "(W,N)=(" + WLabel(filename) + "," + NLabel(filename) + ")"
  }

  /** A file whose directory is there but whose histogram is not: `h_orig.GetBinWidth(1)` is
      called on a null object before `if not h_orig` is reached. */
  predicate Crashes(file: RootFile, dir: string, name: string)
  {
    file.Readable? && file.lookup(dir, name).NoHistogram?
  }

  /** None of the first n files has the directory without the histogram. */
  predicate NoCrashBefore(files: seq<string>, open: string -> RootFile, dir: string, name: string, n: nat)
    requires n <= |files|
  {
    n == 0 || (NoCrashBefore(files, open, dir, name, n - 1) && !Crashes(open(files[n - 1]), dir, name))
  }

  lemma {:induction false} NoCrashBeforeAll(files: seq<string>, open: string -> RootFile, dir: string, name: string, n: nat)
    requires n <= |files| && NoCrashBefore(files, open, dir, name, n)
    ensures forall j :: 0 <= j < n ==> !Crashes(open(files[j]), dir, name)
  {
    if n > 0 {
      NoCrashBeforeAll(files, open, dir, name, n - 1);
    }
  }

  /** `h_orig.Rebin(max(1, int(100/w)))`, then `Scale(1/Integral())` only for a positive integral. */
  function Prepared(h: Hist): (s: HistStats)
    ensures h.rebinned(RebinFactor(h.binWidth)).integral > 0.0 ==> s.integral == 1.0
    ensures h.rebinned(RebinFactor(h.binWidth)).integral <= 0.0 ==> s == h.rebinned(RebinFactor(h.binWidth))
  {
    NormalizedIfPositive(h.rebinned(RebinFactor(h.binWidth)))
  }

  /** Entry k of the drawn list for file `e.index`: "HIST" only for the first one appended,
      colour by file index, legend from the file name by the rule `legend` (the script's rule is
      `Legend`; the loop's reasoning does not depend on it). */
  predicate IsEntry(legend: string -> string, k: nat, filename: string, file: RootFile, dir: string, name: string,
                    e: Entry)
  {
    && Drawable(file, dir, name)
    && e.shown == Plotted(legend(filename), Prepared(file.lookup(dir, name).hist),
                          if k == 0 then "HIST" else "HIST SAME", Colors[e.index % |Colors|])
  }

  /** Every entry drawn so far is the one its file and its position call for. */
  predicate AllEntries(legend: string -> string, files: seq<string>, open: string -> RootFile, dir: string, name: string,
                      drawn: seq<Entry>)
  {
    forall k :: 0 <= k < |drawn| ==>
      && drawn[k].index < |files|
      && IsEntry(legend, k, files[drawn[k].index], open(files[drawn[k].index]), dir, name, drawn[k])
  }

  lemma AllEntriesAppend(legend: string -> string, files: seq<string>, open: string -> RootFile, dir: string,
                         name: string, drawn: seq<Entry>, e: Entry)
    requires AllEntries(legend, files, open, dir, name, drawn)
    requires e.index < |files| && IsEntry(legend, |drawn|, files[e.index], open(files[e.index]), dir, name, e)
    ensures AllEntries(legend, files, open, dir, name, drawn + [e])
  {
    var d := drawn + [e];
    forall k | 0 <= k < |d|
      ensures d[k].index < |files| && IsEntry(legend, k, files[d[k].index], open(files[d[k].index]), dir, name, d[k])
    {
      if k < |drawn| {
        assert d[k] == drawn[k];
      }
    }
  }

  /** The entries drawn after the first n files, when none of them crashed: a file is drawn exactly
      when it opens and has the directory and the histogram. */
  function DrawnAfter(legend: string -> string, files: seq<string>, open: string -> RootFile, dir: string, name: string,
                      n: nat): seq<Entry>
    requires n <= |files|
  {
    if n == 0 then []
    else
      var prev := DrawnAfter(legend, files, open, dir, name, n - 1);
      var file := open(files[n - 1]);
      if Drawable(file, dir, name) then
        prev + [Entry(n - 1, Plotted(legend(files[n - 1]), Prepared(file.lookup(dir, name).hist),
                                     if |prev| == 0 then "HIST" else "HIST SAME", Colors[(n - 1) % |Colors|]))]
      else prev
  }

  /** Exactly the drawable files among the first n are drawn, in file order. */
  lemma {:induction false} DrawnAfterIndices(legend: string -> string, files: seq<string>, open: string -> RootFile, dir: string, name: string,
                                             n: nat)
    requires n <= |files|
    ensures EntryIndices(DrawnAfter(legend, files, open, dir, name, n)) == KeptIndices(Present(files, open, dir, name), n)
  {
    if n > 0 {
      DrawnAfterIndices(legend, files, open, dir, name, n - 1);
      var prev := DrawnAfter(legend, files, open, dir, name, n - 1);
      KeptIndicesNext(Present(files, open, dir, name), n - 1);
      if Drawable(open(files[n - 1]), dir, name) {
        var e := DrawnAfter(legend, files, open, dir, name, n)[|prev|];
        assert DrawnAfter(legend, files, open, dir, name, n) == prev + [e];
        EntryIndicesAppend(prev, e);
      }
    }
  }

  /** Each drawn entry is the one its file and its position call for: "HIST" only for the first,
      the colour of its file index and the legend of its file name. */
  lemma {:induction false} DrawnAfterEntries(legend: string -> string, files: seq<string>, open: string -> RootFile, dir: string, name: string,
                                             n: nat)
    requires n <= |files|
    ensures AllEntries(legend, files, open, dir, name, DrawnAfter(legend, files, open, dir, name, n))
  {
    if n > 0 {
      DrawnAfterEntries(legend, files, open, dir, name, n - 1);
      var prev := DrawnAfter(legend, files, open, dir, name, n - 1);
      if Drawable(open(files[n - 1]), dir, name) {
        var e := DrawnAfter(legend, files, open, dir, name, n)[|prev|];
        assert DrawnAfter(legend, files, open, dir, name, n) == prev + [e];
        AllEntriesAppend(legend, files, open, dir, name, prev, e);
      }
    }
  }

  /** `f"plot_{index}"` when an index is given, else `f"overlay_{histname}_diffWR"`. */
  function OutputBase(histname: string, index: Option<int>): (base: string)
    ensures index.None? ==> base == "overlay_" + histname + "_diffWR"
    ensures index.Some? ==> |base| > 5 && base[..5] == "plot_" && base[5..] == IntToString(index.value)
  {
    match index
    case None => "overlay_" + histname + "_diffWR"
    case Some(n) => "plot_" + IntToString(n)
  }

  /** The loop of `overlay_histograms`: the drawn entries in order, or the index of the file whose
      missing histogram ended the script. The legend rule is a parameter; the script's is `Legend`. */
  method DrawFiles(files: seq<string>, open: string -> RootFile, histname: string, hdirStr: string,
                   legend: string -> string)
    returns (drawn: seq<Entry>, err: Option<(nat, PyError)>)
    ensures AllEntries(legend, files, open, hdirStr, histname, drawn)
    ensures err.None? ==> && drawn == DrawnAfter(legend, files, open, hdirStr, histname, |files|)
                          && EntryIndices(drawn) == KeptIndices(Present(files, open, hdirStr, histname), |files|)
    ensures err.Some? ==> var (stop, e) := err.value;
                          && stop < |files|
                          && Crashes(open(files[stop]), hdirStr, histname) && e == NullObjectAccess
                          && (forall j :: 0 <= j < stop ==> !Crashes(open(files[j]), hdirStr, histname))
                          && drawn == DrawnAfter(legend, files, open, hdirStr, histname, stop)
                          && EntryIndices(drawn) == KeptIndices(Present(files, open, hdirStr, histname), stop)
  {
    drawn, err := [], None;
    for i := 0 to |files|
      invariant drawn == DrawnAfter(legend, files, open, hdirStr, histname, i)
      invariant NoCrashBefore(files, open, hdirStr, histname, i)
    {
      var f := files[i];
      var tf := open(f);
      if tf.Unreadable? {
        continue;
      }
      var hdir := tf.lookup(hdirStr, histname);
      if hdir.NoDirectory? {
        continue;
      }
      if hdir.NoHistogram? {
        NoCrashBeforeAll(files, open, hdirStr, histname, i);
        DrawnAfterIndices(legend, files, open, hdirStr, histname, i);
        DrawnAfterEntries(legend, files, open, hdirStr, histname, i);
        return drawn, Some((i, NullObjectAccess));
      }
      var h := Prepared(hdir.hist);
      var drawOpt := if |drawn| == 0 then "HIST" else "HIST SAME";
      var entry := Entry(i, Plotted(legend(f), h, drawOpt, Colors[i % |Colors|]));
      assert DrawnAfter(legend, files, open, hdirStr, histname, i + 1) == drawn + [entry];
      drawn := drawn + [entry];
    }
    DrawnAfterIndices(legend, files, open, hdirStr, histname, |files|);
    DrawnAfterEntries(legend, files, open, hdirStr, histname, |files|);
  }

  /** `overlay_histograms`: the loop, then the save, which is skipped when nothing was drawn; a
      missing histogram ends the script before the save. */
  method OverlayHistograms(files: seq<string>, open: string -> RootFile, histname: string, hdirStr: string,
                           index: Option<int>)
    returns (drawn: seq<Entry>, saved: seq<string>, err: Option<(nat, PyError)>)
    ensures AllEntries(Legend, files, open, hdirStr, histname, drawn)
    ensures err.None? ==> && EntryIndices(drawn) == KeptIndices(Present(files, open, hdirStr, histname), |files|)
                          && saved == (if |drawn| == 0 then []
                                       else [OutputBase(histname, index) + ".png", OutputBase(histname, index) + ".pdf"])
    ensures err.Some? ==> var (stop, e) := err.value;
                          && stop < |files|
                          && Crashes(open(files[stop]), hdirStr, histname) && e == NullObjectAccess
                          && (forall j :: 0 <= j < stop ==> !Crashes(open(files[j]), hdirStr, histname))
                          && EntryIndices(drawn) == KeptIndices(Present(files, open, hdirStr, histname), stop)
                          && saved == []
  {
    drawn, err := DrawFiles(files, open, histname, hdirStr, Legend);
    saved := [];
    if err.Some? || |drawn| == 0 {
      return;
    }
    var outname := OutputBase(histname, index);
    saved := [outname + ".png", outname + ".pdf"];
  }
}
