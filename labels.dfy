/** The scripts' string helpers: the `re.search` mass-label patterns as explicit scanners,
    decimal digits, and `sanitize_filename`. */
module Labels {
  import opened Outcomes

  predicate IsDigit(c: char) { '0' <= c <= '9' }

  predicate AllDigits(s: string) { forall k :: 0 <= k < |s| ==> IsDigit(s[k]) }

  /** The end of the maximal run of digits that starts at position i. */
  function DigitRunEnd(s: string, i: nat): (j: nat)
    requires i <= |s|
    ensures i <= j <= |s|
    ensures forall k :: i <= k < j ==> IsDigit(s[k])
    ensures j == |s| || !IsDigit(s[j])
    decreases |s| - i
  {
    if i < |s| && IsDigit(s[i]) then DigitRunEnd(s, i + 1) else i
  }

  /** The scanner's test for `prefix(\d+)suffix` at position p: the prefix, then the
      maximal digit run (non-empty), then the suffix right after it. */
  predicate ScanMatchAt(s: string, p: nat, prefix: string, suffix: string)
  {
    && p + |prefix| <= |s|
    && s[p..p + |prefix|] == prefix
    && var e := DigitRunEnd(s, p + |prefix|);
       e > p + |prefix| && e + |suffix| <= |s| && s[e..e + |suffix|] == suffix
  }

  /** Regular-expression semantics of `prefix(\d+)suffix`: it matches at p with the group
      ending at e. */
  ghost predicate RegexMatch(s: string, p: nat, prefix: string, suffix: string, e: nat)
  {
    && p + |prefix| < e
    && e + |suffix| <= |s|
    && s[p..p + |prefix|] == prefix
    && (forall k :: p + |prefix| <= k < e ==> IsDigit(s[k]))
    && s[e..e + |suffix|] == suffix
  }

  /** The leftmost position at or after p where the scanner matches. */
  function FindFrom(s: string, prefix: string, suffix: string, p: nat): (r: Option<nat>)
    ensures r.Some? ==> p <= r.value && ScanMatchAt(s, r.value, prefix, suffix)
    ensures r.Some? ==> forall q :: p <= q < r.value ==> !ScanMatchAt(s, q, prefix, suffix)
    ensures r.None? ==> forall q :: p <= q ==> !ScanMatchAt(s, q, prefix, suffix)
    decreases |s| + 1 - p
  {
    if p + |prefix| > |s| then None
    else if ScanMatchAt(s, p, prefix, suffix) then Some(p)
    else FindFrom(s, prefix, suffix, p + 1)
  }

  /** `m = re.search(r"<prefix>(\d+)<suffix>", s); m.group(1) if m else None`. */
  function Search(s: string, prefix: string, suffix: string): (g: Option<string>)
    ensures g.Some? ==> |g.value| > 0 && AllDigits(g.value)
    ensures g.None? <==> forall q :: !ScanMatchAt(s, q, prefix, suffix)
  {
    match FindFrom(s, prefix, suffix, 0)
    case None => None
    case Some(p) => Some(s[p + |prefix|..DigitRunEnd(s, p + |prefix|)])
  }

  /** When the suffix cannot continue a digit run, the scanner's test at p holds exactly
      when the pattern matches at p, and its group is the longest one the pattern allows. */
  lemma {:induction false} ScanMatchIsRegexMatch(s: string, p: nat, prefix: string, suffix: string)
    requires suffix == [] || !IsDigit(suffix[0])
    ensures ScanMatchAt(s, p, prefix, suffix) <==> exists e: nat :: RegexMatch(s, p, prefix, suffix, e)
    ensures ScanMatchAt(s, p, prefix, suffix) ==>
              RegexMatch(s, p, prefix, suffix, DigitRunEnd(s, p + |prefix|))
              && forall e: nat :: RegexMatch(s, p, prefix, suffix, e) ==> e <= DigitRunEnd(s, p + |prefix|)
  {
    if ScanMatchAt(s, p, prefix, suffix) {
      ScanIsLongestRegex(s, p, prefix, suffix);
    }
    if exists e: nat :: RegexMatch(s, p, prefix, suffix, e) {
      var e: nat :| RegexMatch(s, p, prefix, suffix, e);
      RegexIsScan(s, p, prefix, suffix, e);
    }
  }

  /** The scanner's match is a pattern match with the longest group. */
  lemma ScanIsLongestRegex(s: string, p: nat, prefix: string, suffix: string)
    requires ScanMatchAt(s, p, prefix, suffix)
    ensures RegexMatch(s, p, prefix, suffix, DigitRunEnd(s, p + |prefix|))
    ensures forall e: nat :: RegexMatch(s, p, prefix, suffix, e) ==> e <= DigitRunEnd(s, p + |prefix|)
  {
    var j := DigitRunEnd(s, p + |prefix|);
    assert RegexMatch(s, p, prefix, suffix, j);
    forall e | RegexMatch(s, p, prefix, suffix, e) ensures e <= j {
      RegexRunBound(s, p, prefix, suffix, e);
    }
  }

  /** A pattern match at p is found by the scanner at p when the suffix cannot continue the digits. */
  lemma RegexIsScan(s: string, p: nat, prefix: string, suffix: string, e: nat)
    requires suffix == [] || !IsDigit(suffix[0])
    requires RegexMatch(s, p, prefix, suffix, e)
    ensures ScanMatchAt(s, p, prefix, suffix)
  {
    RegexRunBound(s, p, prefix, suffix, e);
    var j := DigitRunEnd(s, p + |prefix|);
    if suffix != [] {
      assert s[e] == suffix[0];
      assert j == e;
    }
  }

  /** A pattern match's digit group never runs past the maximal digit run. */
  lemma RegexRunBound(s: string, p: nat, prefix: string, suffix: string, e: nat)
    requires RegexMatch(s, p, prefix, suffix, e)
    ensures e <= DigitRunEnd(s, p + |prefix|)
  {
  }

  /** Search is `re.search`: the group comes from the leftmost position where the pattern
      matches, and is the longest digit group the pattern allows there. */
  lemma {:induction false} SearchIsLeftmostLongest(s: string, prefix: string, suffix: string)
    requires suffix == [] || !IsDigit(suffix[0])
    ensures Search(s, prefix, suffix).None? <==> forall p: nat, e: nat :: !RegexMatch(s, p, prefix, suffix, e)
    ensures Search(s, prefix, suffix).Some? ==>
              exists p: nat, e: nat ::
                && RegexMatch(s, p, prefix, suffix, e)
                && Search(s, prefix, suffix).value == s[p + |prefix|..e]
                && (forall q: nat, e': nat :: q < p ==> !RegexMatch(s, q, prefix, suffix, e'))
                && (forall e': nat :: RegexMatch(s, p, prefix, suffix, e') ==> e' <= e)
  {
    if FindFrom(s, prefix, suffix, 0).None? {
      SearchNone(s, prefix, suffix);
    } else {
      SearchSome(s, prefix, suffix);
    }
  }

  lemma SearchNone(s: string, prefix: string, suffix: string)
    requires suffix == [] || !IsDigit(suffix[0])
    requires FindFrom(s, prefix, suffix, 0).None?
    ensures Search(s, prefix, suffix).None?
    ensures forall p: nat, e: nat :: !RegexMatch(s, p, prefix, suffix, e)
  {
    forall p: nat, e: nat ensures !RegexMatch(s, p, prefix, suffix, e) {
      if RegexMatch(s, p, prefix, suffix, e) {
        RegexIsScan(s, p, prefix, suffix, e);
      }
    }
  }

  lemma SearchSome(s: string, prefix: string, suffix: string)
    requires suffix == [] || !IsDigit(suffix[0])
    requires FindFrom(s, prefix, suffix, 0).Some?
    ensures Search(s, prefix, suffix).Some?
    ensures exists p: nat, e: nat ::
              && RegexMatch(s, p, prefix, suffix, e)
              && Search(s, prefix, suffix).value == s[p + |prefix|..e]
              && (forall q: nat, e': nat :: q < p ==> !RegexMatch(s, q, prefix, suffix, e'))
              && (forall e': nat :: RegexMatch(s, p, prefix, suffix, e') ==> e' <= e)
  {
    var p := FindFrom(s, prefix, suffix, 0).value;
    var e := DigitRunEnd(s, p + |prefix|);
    ScanIsLongestRegex(s, p, prefix, suffix);
    forall q: nat, e': nat | q < p ensures !RegexMatch(s, q, prefix, suffix, e') {
      if RegexMatch(s, q, prefix, suffix, e') {
        RegexIsScan(s, q, prefix, suffix, e');
      }
    }
    assert Search(s, prefix, suffix).value == s[p + |prefix|..e];
  }

  /** v1plot_wr_mass.py and plot_wr_mass.py `extract_mass_from_filename`: `_WR(\d+)`, else "unknown". */
  function ExtractMassFromFilename(filename: string): string
  {
    match Search(filename, "_WR", "")
    case Some(g) => g
    case None => "unknown"
  }

  /** The `mass_str` of the RooFit and TF1 fit scripts: `_WR(\d+)_`, else "Unknown". */
  function MassLabel(filename: string): string
  {
    match Search(filename, "_WR", "_")
    case Some(g) => g
    case None => "Unknown"
  }

  /** The W label of the overlay scripts: `_WR(\d+)_`, else the whole file name. */
  function WLabel(filename: string): string
  {
    match Search(filename, "_WR", "_")
    case Some(g) => g
    case None => filename
  }

  /** The N label of v1_signal_diffkinem.py: `_N(\d+)\.root`, else the whole file name. */
  function NLabel(filename: string): string
  {
    match Search(filename, "_N", ".root")
    case Some(g) => g
    case None => filename
  }

  /** Each overlay label is the matched digits when its pattern occurs and the file name
      itself when it does not. */
  lemma OverlayLabels(filename: string)
    ensures (exists q :: ScanMatchAt(filename, q, "_WR", "_")) ==> |WLabel(filename)| > 0 && AllDigits(WLabel(filename))
    ensures (forall q :: !ScanMatchAt(filename, q, "_WR", "_")) ==> WLabel(filename) == filename
    ensures (exists q :: ScanMatchAt(filename, q, "_N", ".root")) ==> |NLabel(filename)| > 0 && AllDigits(NLabel(filename))
    ensures (forall q :: !ScanMatchAt(filename, q, "_N", ".root")) ==> NLabel(filename) == filename
  {
  }

  /** The value of a string of decimal digits, as Python's `int()` reads it. */
  function DigitsValue(s: string): nat
    requires AllDigits(s)
  {
    if s == [] then 0
    else DigitsValue(s[..|s| - 1]) * 10 + (s[|s| - 1] as int - '0' as int)
  }

  /** `str(n)` for a natural number. */
  function NatToString(n: nat): (s: string)
    ensures |s| > 0 && AllDigits(s)
    ensures |s| > 1 ==> s[0] != '0'
  {
    if n < 10 then [('0' as int + n) as char]
    else NatToString(n / 10) + [('0' as int + n % 10) as char]
  }

  /** `str(i)` for an integer. */
  function IntToString(i: int): (s: string)
    ensures i >= 0 ==> AllDigits(s)
    ensures i < 0 ==> |s| > 1 && s[0] == '-' && AllDigits(s[1..])
  {
    if i >= 0 then NatToString(i) else "-" + NatToString(-i)
  }

  /** Reading back the decimal text of n gives n. */
  lemma {:induction false} DigitsValueOfNatToString(n: nat)
    ensures DigitsValue(NatToString(n)) == n
  {
    var s := NatToString(n);
    if n >= 10 {
      DigitsValueOfNatToString(n / 10);
      assert s[..|s| - 1] == NatToString(n / 10);
    }
  }

  /** Reading back `str(i)` gives i: the digits after an optional '-' are the value of |i|. */
  lemma IntToStringValue(i: int)
    ensures i >= 0 ==> DigitsValue(IntToString(i)) == i
    ensures i < 0 ==> DigitsValue(IntToString(i)[1..]) == -i
  {
    if i >= 0 {
      DigitsValueOfNatToString(i);
    } else {
      assert IntToString(i)[1..] == NatToString(-i);
      DigitsValueOfNatToString(-i);
    }
  }

  /** plot_wr_mass_withitre.py `extract_wr_mass`: `int` of the `_WR(\d+)_` group, else None. */
  function ExtractWrMass(filename: string): Option<nat>
  {
    match Search(filename, "_WR", "_")
    case Some(g) => Some(DigitsValue(g))
    case None => None
  }

  /** `extract_mass_from_filename`: the digits after the first `_WR` when `_WR(\d+)` occurs,
      and "unknown" exactly when it does not. */
  lemma ExtractMassFromFilenameSpec(filename: string)
    ensures var m := ExtractMassFromFilename(filename);
            && (m == "unknown" || (|m| > 0 && AllDigits(m)))
            && (m == "unknown" <==> forall q :: !ScanMatchAt(filename, q, "_WR", ""))
  {
    assert !IsDigit("unknown"[0]);
  }

  /** `mass_str`: the digits of the first `_WR(\d+)_`, and "Unknown" exactly when there is none. */
  lemma MassLabelSpec(filename: string)
    ensures var m := MassLabel(filename);
            && (m == "Unknown" || (|m| > 0 && AllDigits(m)))
            && (m == "Unknown" <==> forall q :: !ScanMatchAt(filename, q, "_WR", "_"))
  {
    assert !IsDigit("Unknown"[0]);
  }

  /** `extract_wr_mass`: None exactly when `_WR(\d+)_` does not occur, otherwise the integer
      value of the text `mass_str` shows. */
  lemma ExtractWrMassSpec(filename: string)
    ensures ExtractWrMass(filename).None? <==> forall q :: !ScanMatchAt(filename, q, "_WR", "_")
    ensures ExtractWrMass(filename).Some? ==>
              && MassLabel(filename) != "Unknown"
              && ExtractWrMass(filename).value == DigitsValue(MassLabel(filename))
  {
    MassLabelSpec(filename);
  }

  /** The characters `[a-zA-Z0-9_-]` that `sanitize_filename` keeps. */
  predicate FileNameChar(c: char)
  {
    ('a' <= c <= 'z') || ('A' <= c <= 'Z') || ('0' <= c <= '9') || c == '_' || c == '-'
  }

  /** v1_signal_diffkinem.py `sanitize_filename`: every character outside `[a-zA-Z0-9_-]`
      becomes "_". */
  function SanitizeFilename(s: string): (t: string)
    ensures |t| == |s|
    ensures forall k :: 0 <= k < |t| ==> FileNameChar(t[k])
    ensures forall k :: 0 <= k < |s| ==> (t[k] == s[k] <==> FileNameChar(s[k]))
    ensures forall k :: 0 <= k < |s| && t[k] != s[k] ==> t[k] == '_'
  {
    seq(|s|, k requires 0 <= k < |s| => if FileNameChar(s[k]) then s[k] else '_')
  }

  /** Sanitizing twice changes nothing more. */
  lemma SanitizeIdempotent(s: string)
    ensures SanitizeFilename(SanitizeFilename(s)) == SanitizeFilename(s)
  {
  }
}
