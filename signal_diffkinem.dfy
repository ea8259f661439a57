/** signal_diffkinem_.py `overlay_histograms`: one rebinned (not normalised) histogram per file,
    drawn "ep" the first time and "ep same" after, with the W mass as legend under the header
    `op_str`. A file without the directory or the histogram is skipped; a file that does not open
    ends the script at `f.Get`. */
module SignalDiffKinem {
  import opened Outcomes
  import opened Binning
  import opened Labels
  import opened Overlay

  /** Each of the first n files opens. */
  predicate OpenedBefore(files: seq<string>, open: string -> RootFile, n: nat)
    requires n <= |files|
  {
    n == 0 || (OpenedBefore(files, open, n - 1) && open(files[n - 1]).Readable?)
  }

  lemma {:induction false} OpenedBeforeAll(files: seq<string>, open: string -> RootFile, n: nat)
    requires n <= |files| && OpenedBefore(files, open, n)
    ensures forall j :: 0 <= j < n ==> open(files[j]).Readable?
  {
    if n > 0 {
      OpenedBeforeAll(files, open, n - 1);
    }
  }

  /** Entry k of the drawn list for file `e.index`: rebinned by `max(1, int(100/w))`, line colour
      `i + 2` by file index, "ep" only for the first one drawn, and the legend the rule `legend` gives
      the file name (the script's rule is `WLabel`, the W mass). */
  predicate IsEntry(legend: string -> string, k: nat, filename: string, file: RootFile, dir: string, name: string, e: Entry)
  {
    && Drawable(file, dir, name)
    && var h := file.lookup(dir, name).hist;
       e.shown == Plotted(legend(filename), h.rebinned(RebinFactor(h.binWidth)),
                          if k == 0 then "ep" else "ep same", e.index + 2)
  }

  /** `f"overlay_{op_str}_{histname}.png"`. */
  function OutputName(opStr: string, histname: string): string
  {
    "overlay_" + opStr + "_" + histname + ".png"
  }

  /** Every entry drawn so far is the one its file and its position call for. */
  predicate AllEntries(legend: string -> string, files: seq<string>, open: string -> RootFile, dir: string, name: string, drawn: seq<Entry>)
  {
    forall k :: 0 <= k < |drawn| ==>
      && drawn[k].index < |files|
      && IsEntry(legend, k, files[drawn[k].index], open(files[drawn[k].index]), dir, name, drawn[k])
  }

  lemma AllEntriesAppend(legend: string -> string, files: seq<string>, open: string -> RootFile, dir: string, name: string,
                         drawn: seq<Entry>, e: Entry)
    requires AllEntries(legend, files, open, dir, name, drawn)
    requires e.index < |files| && IsEntry(legend, |drawn|, files[e.index], open(files[e.index]), dir, name, e)
    ensures AllEntries(legend, files, open, dir, name, drawn + [e])
  {
    var d := drawn + [e];
    forall k | 0 <= k < |d|
      ensures d[k].index < |files| && IsEntry(legend, k, files[d[k].index], open(files[d[k].index]), dir, name, d[k])
    {
      if k < |drawn| {
        assert d[k] == drawn[k];
      }
    }
  }

  /** The entries drawn after the loop has passed the first n files (all of which opened):
      files without the directory or the histogram add nothing. */
  function DrawnAfter(legend: string -> string, files: seq<string>, open: string -> RootFile, dir: string, name: string, n: nat): seq<Entry>
    requires n <= |files|
  {
    if n == 0 then []
    else
      var prev := DrawnAfter(legend, files, open, dir, name, n - 1);
      var file := open(files[n - 1]);
      if Drawable(file, dir, name) then
        var h := file.lookup(dir, name).hist;
        prev + [Entry(n - 1, Plotted(legend(files[n - 1]), h.rebinned(RebinFactor(h.binWidth)),
                                     if |prev| == 0 then "ep" else "ep same", n + 1))]
      else prev
  }

  /** Exactly the files with the directory and the histogram are drawn, in file order. */
  lemma {:induction false} DrawnAfterIndices(legend: string -> string, files: seq<string>, open: string -> RootFile, dir: string, name: string, n: nat)
    requires n <= |files|
    ensures EntryIndices(DrawnAfter(legend, files, open, dir, name, n)) == KeptIndices(Present(files, open, dir, name), n)
  {
    if n > 0 {
      DrawnAfterIndices(legend, files, open, dir, name, n - 1);
      var prev := DrawnAfter(legend, files, open, dir, name, n - 1);
      KeptIndicesNext(Present(files, open, dir, name), n - 1);
      if Drawable(open(files[n - 1]), dir, name) {
        var e := DrawnAfter(legend, files, open, dir, name, n)[|prev|];
        assert DrawnAfter(legend, files, open, dir, name, n) == prev + [e];
        EntryIndicesAppend(prev, e);
      }
    }
  }

  /** Each drawn entry is its file's histogram rebinned, with colour `i + 2` and legend from the
      file name, drawn "ep" only when it is the first one drawn. */
  lemma {:induction false} DrawnAfterEntries(legend: string -> string, files: seq<string>, open: string -> RootFile, dir: string, name: string, n: nat)
    requires n <= |files|
    ensures AllEntries(legend, files, open, dir, name, DrawnAfter(legend, files, open, dir, name, n))
  {
    if n > 0 {
      DrawnAfterEntries(legend, files, open, dir, name, n - 1);
      var prev := DrawnAfter(legend, files, open, dir, name, n - 1);
      if Drawable(open(files[n - 1]), dir, name) {
        var e := DrawnAfter(legend, files, open, dir, name, n)[|prev|];
        assert DrawnAfter(legend, files, open, dir, name, n) == prev + [e];
        AllEntriesAppend(legend, files, open, dir, name, prev, e);
      }
    }
  }

  /** The loop of `overlay_histograms` with its `first` flag: the drawn entries in order, or the
      index of the file that could not be opened. */
  method DrawFiles(files: seq<string>, open: string -> RootFile, histname: string, hdirStr: string)
    returns (drawn: seq<Entry>, first: bool, err: Option<(nat, PyError)>)
    ensures first <==> |drawn| == 0
    ensures err.None? ==> drawn == DrawnAfter(WLabel, files, open, hdirStr, histname, |files|)
    ensures err.Some? ==> var (stop, e) := err.value;
                          && stop < |files|
                          && open(files[stop]).Unreadable? && e == NullObjectAccess
                          && (forall j :: 0 <= j < stop ==> open(files[j]).Readable?)
                          && drawn == DrawnAfter(WLabel, files, open, hdirStr, histname, stop)
  {
    drawn, first, err := [], true, None;
    for i := 0 to |files|
      invariant first <==> |drawn| == 0
      invariant drawn == DrawnAfter(WLabel, files, open, hdirStr, histname, i)
      invariant OpenedBefore(files, open, i)
    {
      var filename := files[i];
      var massStr := WLabel(filename);
      var f := open(filename);
      if f.Unreadable? {
        OpenedBeforeAll(files, open, i);
        return drawn, first, Some((i, NullObjectAccess));
      }
      var found := f.lookup(hdirStr, histname);
      if !found.Found? {
        continue;
      }
      var h := found.hist;
      var hSr := h.rebinned(RebinFactor(h.binWidth));
      var option;
      if first {
        option := "ep";
        first := false;
      } else {
        option := "ep same";
      }
      drawn := drawn + [Entry(i, Plotted(massStr, hSr, option, i + 2))];
    }
  }

  /** `overlay_histograms`: the loop, then the legend and the save under `op_str`, done even when
      nothing was drawn; a file that cannot be opened ends the script before the save. */
  method OverlayHistograms(files: seq<string>, open: string -> RootFile, histname: string, hdirStr: string,
                           opStr: string)
    returns (drawn: seq<Entry>, plot: Option<Plot>, err: Option<(nat, PyError)>)
    ensures err.None? ==> && drawn == DrawnAfter(WLabel, files, open, hdirStr, histname, |files|)
                          && plot == Some(Plot(opStr, ShownOf(drawn), OutputName(opStr, histname)))
    ensures err.Some? ==> var (stop, e) := err.value;
                          && stop < |files|
                          && open(files[stop]).Unreadable? && e == NullObjectAccess
                          && drawn == DrawnAfter(WLabel, files, open, hdirStr, histname, stop)
                          && plot.None?
  {
    var first;
    drawn, first, err := DrawFiles(files, open, histname, hdirStr);
    plot := None;
    if err.None? {
      plot := Some(Plot(opStr, ShownOf(drawn), OutputName(opStr, histname)));
    }
  }

  /** The first histogram drawn is the only one drawn "ep", whichever file it came from. */
  lemma {:induction false} OnlyFirstDrawnIsEp(legend: string -> string, files: seq<string>, open: string -> RootFile, dir: string, name: string,
                                              drawn: seq<Entry>)
    requires AllEntries(legend, files, open, dir, name, drawn)
    ensures forall k :: 0 <= k < |drawn| ==> (drawn[k].shown.option == "ep" <==> k == 0)
  {
    forall k | 0 <= k < |drawn|
      ensures drawn[k].shown.option == "ep" <==> k == 0
    {
      assert IsEntry(legend, k, files[drawn[k].index], open(files[drawn[k].index]), dir, name, drawn[k]);
      if k != 0 {
        assert drawn[k].shown.option == "ep same";
        assert "ep same" != "ep" by {
          assert |"ep same"| != |"ep"|;
        }
      }
    }
  }
}
