/**
 * The parts of Ruby's String and Regexp behaviour that the constant loader
 * and the DesignSync driver rely on: String#strip, `=~` with `^` and `\s`,
 * String#split and Array#join with a separator, and String#sub with a
 * one-character pattern.
 */
module Text {
  import opened Wrappers

  /** The characters String#strip removes: NUL, tab, line feed, vertical tab,
      form feed, carriage return and space. */
  predicate IsStripSpace(c: char) {
    c == '\0' || c == '\t' || c == '\n' || c == '\U{B}' || c == '\U{C}' || c == '\r' || c == ' '
  }

  /** The characters `\s` matches in a Ruby regular expression. */
  predicate IsRegexSpace(c: char) {
    c == '\t' || c == '\n' || c == '\U{B}' || c == '\U{C}' || c == '\r' || c == ' '
  }

  /** `\d` */
  predicate IsDigit(c: char) {
    '0' <= c <= '9'
  }

  /** `s.strip.empty?` holds exactly of these strings (see StripEmptyIffBlank). */
  predicate IsBlank(s: string) {
    forall i :: 0 <= i < |s| ==> IsStripSpace(s[i])
  }

  /** Where String#lstrip cuts: the end of the whitespace run starting at `i`. */
  function BlankEnd(s: string, i: nat): (e: nat)
    requires i <= |s|
    ensures i <= e <= |s|
    ensures forall j :: i <= j < e ==> IsStripSpace(s[j])
    ensures e < |s| ==> !IsStripSpace(s[e])
    decreases |s| - i
  {
    if i < |s| && IsStripSpace(s[i]) then BlankEnd(s, i + 1) else i
  }

  /** Where String#rstrip cuts `s[..hi]`, not going below `lo`: the start of
      the whitespace run ending at `hi`. */
  function BlankStart(s: string, lo: nat, hi: nat): (b: nat)
    requires lo <= hi <= |s|
    ensures lo <= b <= hi
    ensures forall j :: b <= j < hi ==> IsStripSpace(s[j])
    ensures b > lo ==> !IsStripSpace(s[b - 1])
    decreases hi
  {
    if hi > lo && IsStripSpace(s[hi - 1]) then BlankStart(s, lo, hi - 1) else hi
  }

  /** Where String#strip's result starts in `s`. */
  function StripStart(s: string): nat
    ensures StripStart(s) <= |s|
  {
    BlankEnd(s, 0)
  }

  /** String#strip: `s` without the whitespace at either end. What is cut is
      all whitespace, and what is left neither starts nor ends with it. */
  function Strip(s: string): (r: string)
    ensures StripStart(s) + |r| <= |s| && r == s[StripStart(s)..StripStart(s) + |r|]
    ensures forall j :: 0 <= j < StripStart(s) ==> IsStripSpace(s[j])
    ensures forall j :: StripStart(s) + |r| <= j < |s| ==> IsStripSpace(s[j])
    ensures r != [] ==> !IsStripSpace(r[0]) && !IsStripSpace(r[|r| - 1])
  {
    var a := BlankEnd(s, 0);
    s[a..BlankStart(s, a, |s|)]
  }

  lemma StripEmptyIffBlank(s: string)
    ensures Strip(s) == "" <==> IsBlank(s)
  {
    var a := StripStart(s);
    if Strip(s) != "" {
      assert s[a] == Strip(s)[0];
    }
  }

  lemma StripIdempotent(s: string)
    ensures Strip(Strip(s)) == Strip(s)
  {
    var r := Strip(s);
    if r != [] {
      assert BlankEnd(r, 0) == 0;
      assert BlankStart(r, 0, |r|) == |r|;
      assert r[0..|r|] == r;
    }
  }

  /** `s.start_with?(p)` */
  predicate StartsWith(s: string, p: string) {
    |p| <= |s| && s[..|p|] == p
  }

  /** `p` occurs in `s` at index `i`. */
  predicate IsSubstringAt(s: string, p: string, i: int) {
    0 <= i && i + |p| <= |s| && s[i..i + |p|] == p
  }

  /** `s =~ /p/` for a pattern without metacharacters. */
  predicate Contains(s: string, p: string) {
    exists i :: 0 <= i <= |s| && IsSubstringAt(s, p, i)
  }

  /** `^` matches at index `i`: the start of the string or just after a line feed. */
  predicate AtLineStart(s: string, i: int) {
    i == 0 || (0 < i <= |s| && s[i - 1] == '\n')
  }

  /** `s =~ /^p/` for a pattern without metacharacters. */
  predicate LineStartsWith(s: string, p: string) {
    exists i :: 0 <= i <= |s| && AtLineStart(s, i) && IsSubstringAt(s, p, i)
  }

  /** The leftmost index from `from` on where `/^p/` matches. */
  function FirstLineStartMatch(s: string, p: string, from: nat): (r: Option<nat>)
    ensures r.Some? ==> from <= r.value <= |s| && AtLineStart(s, r.value) && IsSubstringAt(s, p, r.value)
    ensures forall j :: from <= j <= |s| && (r.None? || j < r.value) ==> !(AtLineStart(s, j) && IsSubstringAt(s, p, j))
    decreases |s| - from
  {
    if from > |s| then None
    else if AtLineStart(s, from) && IsSubstringAt(s, p, from) then Some(from)
    else FirstLineStartMatch(s, p, from + 1)
  }

  /** `s.sub(/^p/, '')`: the first line-start occurrence of `p` is cut out. */
  function RemoveAtLineStart(s: string, p: string): (r: string)
    ensures StartsWith(s, p) ==> r == s[|p|..]
    ensures !LineStartsWith(s, p) ==> r == s
    ensures |r| <= |s|
  {
    match FirstLineStartMatch(s, p, 0)
    case None => s
    case Some(i) =>
      assert StartsWith(s, p) ==> AtLineStart(s, 0) && IsSubstringAt(s, p, 0);
      s[..i] + s[i + |p|..]
  }

  /** The first index of `c` in `s`. */
  function IndexOf(s: string, c: char): (r: Option<nat>)
    ensures r.Some? ==> r.value < |s| && s[r.value] == c && c !in s[..r.value]
    ensures r.None? <==> c !in s
  {
    if |s| == 0 then None
    else if s[0] == c then Some(0)
    else match IndexOf(s[1..], c)
      case None => None
      case Some(k) => assert s[1..][..k] == s[1..k + 1]; Some(k + 1)
  }

  /** `s.sub(x, y)` for one-character strings `x` and `y`: the first `x`
      becomes `y` and nothing else changes. */
  function ReplaceFirst(s: string, x: char, y: char): (r: string)
    ensures |r| == |s|
    ensures x !in s ==> r == s
    ensures x in s ==> var k := IndexOf(s, x).value;
      r[k] == y && forall j :: 0 <= j < |s| && j != k ==> r[j] == s[j]
  {
    match IndexOf(s, x)
    case None => s
    case Some(k) => s[k := y]
  }

  /** Array#join(sep) (File.join when `sep` is "/"). */
  function Join(xs: seq<string>, sep: string): string {
    if |xs| == 0 then ""
    else if |xs| == 1 then xs[0]
    else xs[0] + sep + Join(xs[1..], sep)
  }

  lemma {:induction false} JoinAppend(xs: seq<string>, ys: seq<string>, sep: string)
    requires xs != [] && ys != []
    ensures Join(xs + ys, sep) == Join(xs, sep) + sep + Join(ys, sep)
  {
    if |xs| == 1 {
      assert (xs + ys)[1..] == ys;
    } else {
      assert (xs + ys)[1..] == xs[1..] + ys;
      JoinAppend(xs[1..], ys, sep);
    }
  }

  /** The first index from `from` on where `sep` occurs in `s`. */
  function Find(s: string, sep: string, from: nat): (r: Option<nat>)
    ensures r.Some? ==> from <= r.value && IsSubstringAt(s, sep, r.value)
    ensures forall j :: from <= j && (r.None? || j < r.value) ==> !IsSubstringAt(s, sep, j)
    decreases |s| - from
  {
    if from + |sep| > |s| then None
    else if s[from..from + |sep|] == sep then Some(from)
    else Find(s, sep, from + 1)
  }

  /** String#split(sep) on a non-empty separator, keeping every field. Ruby
      additionally drops trailing empty fields; the names split here never
      have any. */
  function Split(s: string, sep: string): (r: seq<string>)
    requires |sep| > 0
    ensures |r| > 0
    decreases |s|
  {
    match Find(s, sep, 0)
    case None => [s]
    case Some(i) => [s[..i]] + Split(s[i + |sep|..], sep)
  }

  /** Splitting what was joined gives the parts back, provided no part holds
      the separator's first character. */
  lemma {:induction false} SplitJoin(xs: seq<string>, sep: string)
    requires |sep| > 0 && |xs| > 0
    requires forall k :: 0 <= k < |xs| ==> sep[0] !in xs[k]
    ensures Split(Join(xs, sep), sep) == xs
  {
    var s := Join(xs, sep);
    var x := xs[0];
    assert s[..|x|] == x;
    forall j | 0 <= j < |x| ensures !IsSubstringAt(s, sep, j) {
      assert s[j] == s[..|x|][j] == x[j];
      assert x[j] != sep[0];
    }
    if |xs| == 1 {
      forall j | |x| <= j ensures !IsSubstringAt(s, sep, j) {
      }
      assert Find(s, sep, 0).None?;
    } else {
      var rest := Join(xs[1..], sep);
      assert s == x + sep + rest;
      assert IsSubstringAt(s, sep, |x|) by {
        assert s[|x|..|x| + |sep|] == sep;
      }
      assert Find(s, sep, 0) == Some(|x|);
      assert s[..|x|] == x;
      assert s[|x| + |sep|..] == rest;
      SplitJoin(xs[1..], sep);
      assert [x] + xs[1..] == xs;
    }
  }

  /** No `\s` character in `t`. */
  predicate NoRegexSpace(t: string) {
    forall i :: 0 <= i < |t| ==> !IsRegexSpace(t[i])
  }

  /** Length of the run of non-`\s` characters at the front of `s`. */
  function WordLength(s: string): (n: nat)
    ensures n <= |s| && NoRegexSpace(s[..n])
    ensures n < |s| ==> IsRegexSpace(s[n])
    ensures |s| > 0 && !IsRegexSpace(s[0]) ==> n > 0
  {
    if |s| == 0 || IsRegexSpace(s[0]) then 0
    else
      var n := 1 + WordLength(s[1..]);
      assert forall i :: 1 <= i < n ==> s[..n][i] == s[1..][..n - 1][i - 1];
      n
  }

  /** The maximal `\S+` runs of `s`, in order. */
  function Tokens(s: string): (r: seq<string>)
    ensures forall k :: 0 <= k < |r| ==> r[k] != "" && NoRegexSpace(r[k])
    decreases |s|
  {
    if |s| == 0 then []
    else if IsRegexSpace(s[0]) then Tokens(s[1..])
    else
      var n := WordLength(s);
      [s[..n]] + Tokens(s[n..])
  }

  /** A word followed by whitespace (or nothing) is one run. */
  lemma {:induction false} WordLengthOfWord(w: string, rest: string)
    requires w != [] && NoRegexSpace(w) && (rest == [] || IsRegexSpace(rest[0]))
    ensures WordLength(w + rest) == |w|
    decreases |w|
  {
    var s := w + rest;
    assert s[0] == w[0];
    if |w| > 1 {
      assert s[1..] == w[1..] + rest;
      WordLengthOfWord(w[1..], rest);
    } else {
      assert s[1..] == rest;
    }
  }

  /** Tokenising words joined by single spaces gives the words back. */
  lemma {:induction false} TokensOfJoin(ws: seq<string>)
    requires forall k :: 0 <= k < |ws| ==> ws[k] != "" && NoRegexSpace(ws[k])
    ensures Tokens(Join(ws, " ")) == ws
  {
    if |ws| == 1 {
      var w := ws[0];
      WordLengthOfWord(w, "");
      assert w + "" == w;
      assert w[|w|..] == "";
    } else if |ws| > 1 {
      var w := ws[0];
      var rest := Join(ws[1..], " ");
      var s := w + " " + rest;
      assert s == w + (" " + rest);
      WordLengthOfWord(w, " " + rest);
      assert s[..|w|] == w;
      assert s[|w|..] == " " + rest;
      assert (" " + rest)[1..] == rest;
      TokensOfJoin(ws[1..]);
      assert [w] + ws[1..] == ws;
    }
  }

  /** A character in neither the pieces nor the separator is not in their join. */
  lemma {:induction false} CharNotInJoin(xs: seq<string>, sep: string, c: char)
    requires c !in sep && forall k :: 0 <= k < |xs| ==> c !in xs[k]
    ensures c !in Join(xs, sep)
  {
    if |xs| > 1 {
      CharNotInJoin(xs[1..], sep, c);
      var rest := Join(xs[1..], sep);
      assert forall i :: 0 <= i < |xs[0] + sep + rest| ==>
        (xs[0] + sep + rest)[i] in xs[0] || (xs[0] + sep + rest)[i] in sep || (xs[0] + sep + rest)[i] in rest;
    }
  }
}
