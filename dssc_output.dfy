/**
 * The screen DesignSync#dssc applies to the lines the `dssc` process
 * prints: tool log lines (`Logging...`), empty and whitespace-only lines,
 * and version banners are dropped; every other line is kept, stripped, in
 * the order printed. Reading the lines from the process is not part of this
 * model: they are given as a sequence.
 */
module DsscOutput {
  import opened Text

  /** The end of the run of digits starting at `p`. */
  function DigitsEnd(s: string, p: nat): (e: nat)
    requires p <= |s|
    ensures p <= e <= |s|
    ensures forall i :: p <= i < e ==> IsDigit(s[i])
    ensures e < |s| ==> !IsDigit(s[e])
    decreases |s| - p
  {
    if p < |s| && IsDigit(s[p]) then DigitsEnd(s, p + 1) else p
  }

  /** `\d+\.\d+-\d+` matches at `p`. A digit run can only be followed by its
      first non-digit, so each `\d+` is the whole run. */
  predicate DottedBuildAt(s: string, p: nat) {
    p <= |s| &&
    var j := DigitsEnd(s, p);
    p < j < |s| && s[j] == '.' &&
    var k := DigitsEnd(s, j + 1);
    j + 1 < k < |s| && s[k] == '-' && k + 1 < |s| && IsDigit(s[k + 1])
  }

  /** `\d.\d+` matches at `p`; the unescaped `.` is any character but a line
      feed, so `6R2` matches as well as `5.1`. */
  predicate DigitPairAt(s: string, p: nat) {
    p + 2 < |s| && IsDigit(s[p]) && s[p + 1] != '\n' && IsDigit(s[p + 2])
  }

  /** `line =~ /V(\d+\.\d+-\d+|\d.\d+)/` (line 258): a `V`, a digit and at
      least two more characters. */
  predicate HasVersionMarker(s: string): (b: bool)
    ensures b ==> exists i :: 0 <= i < |s| - 3 && s[i] == 'V' && IsDigit(s[i + 1])
  {
    exists i :: 0 <= i < |s| && s[i] == 'V' && (DottedBuildAt(s, i + 1) || DigitPairAt(s, i + 1))
  }

  /** The banners the comment at line 258 names are screened out. */
  lemma VersionBanners()
    ensures HasVersionMarker("V5.1-1205") && HasVersionMarker("V6R2010")
  {
    var s := "V5.1-1205";
    assert s[0] == 'V' && DigitPairAt(s, 1);
    var t := "V6R2010";
    assert t[0] == 'V' && DigitPairAt(t, 1);
  }

  /** A build number with a two-digit major version is caught only by the
      first alternative. */
  lemma TwoDigitMajorVersion()
    ensures HasVersionMarker("V12.3-4") && !DigitPairAt("V12.3-4", 1)
  {
    var s := "V12.3-4";
    assert DigitsEnd(s, 1) == 3;
    assert DigitsEnd(s, 4) == 5;
    assert s[0] == 'V' && DottedBuildAt(s, 1);
  }

  /** A `V` followed by anything but a digit is no banner. */
  lemma NotABanner()
    ensures !HasVersionMarker("Version 5")
  {
    var t := "Version 5";
    forall i | 0 <= i < |t| && t[i] == 'V' ensures !DottedBuildAt(t, i + 1) && !DigitPairAt(t, i + 1) {
      assert i == 0;
      assert DigitsEnd(t, 1) == 1;
    }
  }

  /** The lines the screen keeps (lines 257-259). */
  predicate Kept(line: string): (b: bool)
    ensures b ==> Strip(line) != ""
  {
    StripEmptyIffBlank(line);
    !(LineStartsWith(line, "Logging") || line == "" || HasVersionMarker(line) || IsBlank(line))
  }

  /** The kept lines, stripped, in order. */
  function Screened(raw: seq<string>): (r: seq<string>)
    ensures |r| <= |raw|
  {
    if raw == [] then []
    else Screened(raw[..|raw| - 1]) + (if Kept(raw[|raw| - 1]) then [Strip(raw[|raw| - 1])] else [])
  }

  /** The `while line = stdout_err.gets` loop of dssc (lines 254-262). */
  method Screen(raw: seq<string>) returns (output: seq<string>)
    ensures output == Screened(raw)
  {
    output := [];
    var k := 0;
    while k < |raw|
      invariant 0 <= k <= |raw|
      invariant output == Screened(raw[..k])
    {
      var line := raw[k];
      assert raw[..k + 1][..k] == raw[..k];
      assert Screened(raw[..k + 1]) == Screened(raw[..k]) + (if Kept(line) then [Strip(line)] else []);
      if Kept(line) {
        output := output + [Strip(line)];
      }
      k := k + 1;
    }
    assert raw[..|raw|] == raw;
  }

  /** Screening preserves order: screening two stretches of output one after
      the other is screening them together. */
  lemma {:induction false} ScreenedAppend(a: seq<string>, b: seq<string>)
    ensures Screened(a + b) == Screened(a) + Screened(b)
    decreases |b|
  {
    if b == [] {
      assert a + b == a;
    } else {
      var b' := b[..|b| - 1];
      assert (a + b)[..|a + b| - 1] == a + b';
      ScreenedAppend(a, b');
    }
  }

  /** Every line the screen passes on is non-empty and already stripped. */
  lemma {:induction false} ScreenedLinesAreStripped(raw: seq<string>)
    ensures forall i :: 0 <= i < |Screened(raw)| ==>
      Screened(raw)[i] != "" && Strip(Screened(raw)[i]) == Screened(raw)[i]
    decreases |raw|
  {
    if raw != [] {
      var last := raw[|raw| - 1];
      ScreenedLinesAreStripped(raw[..|raw| - 1]);
      if Kept(last) {
        StripEmptyIffBlank(last);
        StripIdempotent(last);
      }
    }
  }

  /** A line is passed on exactly when it is kept: the screen of one line. */
  lemma ScreenedSingle(line: string)
    ensures Screened([line]) == if Kept(line) then [Strip(line)] else []
  {
    assert [line][..0] == [];
  }

  /** Nothing is passed on exactly when no line is kept. */
  lemma {:induction false} ScreenedEmptyIffNoneKept(raw: seq<string>)
    ensures Screened(raw) == [] <==> forall i :: 0 <= i < |raw| ==> !Kept(raw[i])
    decreases |raw|
  {
    if raw != [] {
      var init := raw[..|raw| - 1];
      assert forall i :: 0 <= i < |init| ==> init[i] == raw[i];
      ScreenedEmptyIffNoneKept(init);
    }
  }

  /** Every kept line is passed on, stripped. */
  lemma {:induction false} ScreenedKeepsKept(raw: seq<string>)
    ensures forall i :: 0 <= i < |raw| && Kept(raw[i]) ==> Strip(raw[i]) in Screened(raw)
    decreases |raw|
  {
    if raw != [] {
      var init := raw[..|raw| - 1];
      assert forall i :: 0 <= i < |init| ==> init[i] == raw[i];
      ScreenedKeepsKept(init);
    }
  }
}
