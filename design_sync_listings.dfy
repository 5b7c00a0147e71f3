/**
 * What DesignSync#changes, #local_modifications and #unmanaged make of the
 * (already screened) output of their `dssc` commands. The output is given
 * as a sequence of lines; running `dssc` is not part of this model.
 *
 * The regular expressions of `changes` (lines 117, 120 and 123) are read
 * over the whitespace-separated tokens of a line: `First only`, `Second
 * only` and `Different versions|states` are matched as two consecutive
 * tokens, preceded by as many tokens as the expression needs and followed by
 * the path token it captures.
 */
module DesignSyncListings {
  import opened Wrappers
  import opened Text
  import opened DesignSyncCommands

  datatype Change = Added | Removed | Changed

  /** What one line of `dssc compare` output contributes. */
  datatype LineClass = Ignored | Entry(change: Change, path: string)

  /** The result of `changes`: the objects hash. */
  datatype ChangeSet = ChangeSet(added: seq<string>, removed: seq<string>, changed: seq<string>, present: bool)

  /** Tokens `word` and one of `seconds` at `i`, with a token after them. */
  predicate PairAt(t: seq<string>, i: int, word: string, seconds: set<string>) {
    0 <= i && i + 2 < |t| && t[i] == word && t[i + 1] in seconds
  }

  /** Some pair starts at `from` or later. */
  predicate HasPair(t: seq<string>, from: nat, word: string, seconds: set<string>) {
    exists i :: from <= i < |t| && PairAt(t, i, word, seconds)
  }

  /** The leftmost pair starting at `from` or later: the unanchored regular
      expression matches at the leftmost place it can. */
  function FindPair(t: seq<string>, from: nat, word: string, seconds: set<string>): (r: Option<nat>)
    ensures r.Some? ==> from <= r.value && PairAt(t, r.value, word, seconds)
    ensures r.None? <==> !HasPair(t, from, word, seconds)
    ensures r.Some? ==> forall i :: from <= i < r.value ==> !PairAt(t, i, word, seconds)
    decreases |t| - from
  {
    if from + 2 >= |t| then None
    else if PairAt(t, from, word, seconds) then Some(from)
    else FindPair(t, from + 1, word, seconds)
  }

  /** The pair of line 117 (`First only`), which needs one token before it. */
  const FirstOnly := ("First", {"only"})
  /** The pair of line 120 (`Second only`), which needs one token before it. */
  const SecondOnly := ("Second", {"only"})
  /** The pair of line 123 (`Different versions` or `Different states`),
      which needs two tokens before it: the optional `(Locally Modified)`
      group adds two more, which only moves where the match starts. */
  const Different := ("Different", {"versions", "states"})

  /** Lines 117-125 on the tokens of a line: the first of the three
      expressions that matches decides the list, and the token after its
      pair is the path. */
  function ClassifyTokens(t: seq<string>): (r: LineClass)
    ensures r.Entry? ==> |t| > 3 && r.path in t[3..]
    ensures r.Entry? <==> (HasPair(t, 1, FirstOnly.0, FirstOnly.1) || HasPair(t, 1, SecondOnly.0, SecondOnly.1)
      || HasPair(t, 2, Different.0, Different.1))
  {
    match FindPair(t, 1, FirstOnly.0, FirstOnly.1)
    case Some(i) => Entry(Added, t[i + 2])
    case None =>
      match FindPair(t, 1, SecondOnly.0, SecondOnly.1)
      case Some(i) => Entry(Removed, t[i + 2])
      case None =>
        match FindPair(t, 2, Different.0, Different.1)
        case Some(i) => Entry(Changed, t[i + 2])
        case None => Ignored
  }

  /** Lines 115-125 for one line: nothing for a line mentioning `Unmanaged`,
      otherwise what its tokens say. */
  function Classify(line: string): (c: LineClass)
    ensures Contains(line, "Unmanaged") ==> c == Ignored
    ensures c.Entry? ==> c.path in Tokens(line) && c.path != "" && NoRegexSpace(c.path)
    ensures c.Entry? && c.change == Added <==>
      !Contains(line, "Unmanaged") && HasPair(Tokens(line), 1, FirstOnly.0, FirstOnly.1)
    ensures c.Entry? && c.change == Removed <==>
      !Contains(line, "Unmanaged") && !HasPair(Tokens(line), 1, FirstOnly.0, FirstOnly.1)
      && HasPair(Tokens(line), 1, SecondOnly.0, SecondOnly.1)
    ensures c.Entry? && c.change == Changed <==>
      !Contains(line, "Unmanaged") && !HasPair(Tokens(line), 1, FirstOnly.0, FirstOnly.1)
      && !HasPair(Tokens(line), 1, SecondOnly.0, SecondOnly.1)
      && HasPair(Tokens(line), 2, Different.0, Different.1)
    ensures c.Entry? && c.change == Added ==> var t := Tokens(line);
      FindPair(t, 1, FirstOnly.0, FirstOnly.1).Some? && c.path == t[FindPair(t, 1, FirstOnly.0, FirstOnly.1).value + 2]
    ensures c.Entry? && c.change == Removed ==> var t := Tokens(line);
      FindPair(t, 1, SecondOnly.0, SecondOnly.1).Some? && c.path == t[FindPair(t, 1, SecondOnly.0, SecondOnly.1).value + 2]
    ensures c.Entry? && c.change == Changed ==> var t := Tokens(line);
      FindPair(t, 2, Different.0, Different.1).Some? && c.path == t[FindPair(t, 2, Different.0, Different.1).value + 2]
  {
    if Contains(line, "Unmanaged") then Ignored else ClassifyTokens(Tokens(line))
  }

  /** A line without a `U` cannot mention `Unmanaged`. */
  lemma NoUnmanaged(line: string)
    requires 'U' !in line
    ensures !Contains(line, "Unmanaged")
  {
    forall i | 0 <= i <= |line| ensures !IsSubstringAt(line, "Unmanaged", i) {
      if i + 9 <= |line| {
        assert line[i..i + 9][0] == line[i];
      }
    }
  }

  /** A non-empty word without whitespace and without a `U`. */
  predicate PlainWord(w: string) {
    w != "" && NoRegexSpace(w) && 'U' !in w
  }

  /** A line of single-space separated words, none holding a `U` (so the
      line cannot mention `Unmanaged`), is classified by its words. */
  lemma ClassifyWords(words: seq<string>)
    requires forall k :: 0 <= k < |words| ==> PlainWord(words[k])
    ensures Classify(Join(words, " ")) == ClassifyTokens(words)
  {
    TokensOfJoin(words);
    CharNotInJoin(words, " ", 'U');
    NoUnmanaged(Join(words, " "));
  }

  /** The paths the lines contribute to one list, in output order. */
  function Collected(lines: seq<string>, change: Change): (r: seq<string>)
    ensures |r| <= |lines|
    ensures forall i :: 0 <= i < |r| ==> r[i] != "" && NoRegexSpace(r[i])
  {
    if lines == [] then []
    else
      var last := Classify(lines[|lines| - 1]);
      Collected(lines[..|lines| - 1], change) + (if last.Entry? && last.change == change then [last.path] else [])
  }

  /** Each path under `dir`. */
  function Under(dir: string, paths: seq<string>): (r: seq<string>)
    ensures |r| == |paths|
    ensures forall i :: 0 <= i < |paths| ==> r[i] == dir + "/" + paths[i] && StartsWith(r[i], dir + "/")
  {
    seq(|paths|, i requires 0 <= i < |paths| => dir + "/" + paths[i])
  }

  /** The words of the `changes` command before the directory. */
  function CompareWords(version: Option<string>, prefixTag: string -> string): (w: seq<string>)
    ensures |w| >= 5 && w[..5] == ["compare", "-rec", "-path", "-report", "silent"]
    ensures "-selector" in w <==> version.Some?
    ensures version.Some? ==> w[5..] == ["-selector", prefixTag(version.value)]
  {
    ["compare", "-rec", "-path", "-report", "silent"]
    + (match version
       case Some(v) => ["-selector", prefixTag(v)]
       case None => [])
  }

  /** `objects[...].map! { |i| "#{paths.first}/" + i }` (lines 129-131), in place. */
  method PrefixAll(dir: string, paths: seq<string>) returns (r: seq<string>)
    ensures r == Under(dir, paths)
  {
    r := paths;
    var k := 0;
    while k < |r|
      invariant 0 <= k <= |r| == |paths|
      invariant forall i :: 0 <= i < k ==> r[i] == dir + "/" + paths[i]
      invariant forall i :: k <= i < |r| ==> r[i] == paths[i]
    {
      r := r[k := dir + "/" + r[k]];
      k := k + 1;
    }
  }

  /** The fixed words of the `compare` command, joined. */
  lemma CompareBase(words: seq<string>)
    requires words == ["compare", "-rec", "-path", "-report", "silent"]
    ensures Join(words, " ") == "compare -rec -path -report silent"
  {
    JoinSnoc("compare", words[..1], " -rec", "-rec");
    assert words[..1] + ["-rec"] == words[..2];
    JoinSnoc("compare -rec", words[..2], " -path", "-path");
    assert words[..2] + ["-path"] == words[..3];
    JoinSnoc("compare -rec -path", words[..3], " -report", "-report");
    assert words[..3] + ["-report"] == words[..4];
    JoinSnoc("compare -rec -path -report", words[..4], " silent", "silent");
    assert words[..4] + ["silent"] == words;
  }

  /** Lines 94-98: the `compare` command for `dir`. */
  method CompareCommand(dir: string, version: Option<string>, prefixTag: string -> string)
    returns (command: string)
    ensures command == Join(CompareWords(version, prefixTag) + [dir], " ")
  {
    ghost var words := ["compare", "-rec", "-path", "-report", "silent"];
    var cmd := "compare -rec -path -report silent";
    CompareBase(words);
    if version.Some? {
      var tag := prefixTag(version.value);
      JoinSnoc2(cmd, words, " -selector ", "-selector", tag);
      cmd := cmd + " -selector " + tag;
      words := words + ["-selector", tag];
    }
    assert words == CompareWords(version, prefixTag);
    JoinSnoc(cmd, words, " " + dir, dir);
    command := cmd + " " + dir;
  }

  /** Lines 103-127: each line of output appended to the list it belongs to. */
  method Collect(output: seq<string>) returns (added: seq<string>, removed: seq<string>, changed: seq<string>)
    ensures added == Collected(output, Added)
    ensures removed == Collected(output, Removed)
    ensures changed == Collected(output, Changed)
  {
    added, removed, changed := [], [], [];
    var k := 0;
    while k < |output|
      invariant 0 <= k <= |output|
      invariant added == Collected(output[..k], Added)
      invariant removed == Collected(output[..k], Removed)
      invariant changed == Collected(output[..k], Changed)
    {
      assert output[..k + 1][..k] == output[..k];
      var c := Classify(output[k]);
      assert forall change :: (Collected(output[..k + 1], change) == Collected(output[..k], change)
        + (if c.Entry? && c.change == change then [c.path] else []));
      match c {
        case Entry(Added, p) => added := added + [p];
        case Entry(Removed, p) => removed := removed + [p];
        case Entry(Changed, p) => changed := changed + [p];
        case Ignored =>
      }
      k := k + 1;
    }
    assert output[..k] == output;
  }

  /** `changes` (lines 88-133): the command handed to dssc, and the objects
      hash built from the output it printed. */
  method Changes(dir: string, version: Option<string>, prefixTag: string -> string, output: seq<string>)
    returns (command: string, objects: ChangeSet)
    ensures command == Join(CompareWords(version, prefixTag) + [dir], " ")
    ensures objects.added == Under(dir, Collected(output, Added))
    ensures objects.removed == Under(dir, Collected(output, Removed))
    ensures objects.changed == Under(dir, Collected(output, Changed))
    ensures objects.present <==> objects.added != [] || objects.removed != [] || objects.changed != []
    ensures objects.present <==> exists i :: 0 <= i < |output| && Classify(output[i]).Entry?
  {
    command := CompareCommand(dir, version, prefixTag);
    var added, removed, changed := Collect(output);
    var present := added != [] || removed != [] || changed != [];
    CollectedEmptyIffNoEntry(output);
    added := PrefixAll(dir, added);
    removed := PrefixAll(dir, removed);
    changed := PrefixAll(dir, changed);
    objects := ChangeSet(added, removed, changed, present);
  }

  /** The lists of two stretches of output, one after the other, are the
      lists of both together: output order is preserved. */
  lemma {:induction false} CollectedAppend(a: seq<string>, b: seq<string>, change: Change)
    ensures Collected(a + b, change) == Collected(a, change) + Collected(b, change)
    decreases |b|
  {
    if b == [] {
      assert a + b == a;
    } else {
      var b' := b[..|b| - 1];
      assert (a + b)[..|a + b| - 1] == a + b';
      CollectedAppend(a, b', change);
    }
  }

  /** One line lands in the list its class names, and in no other. */
  lemma CollectedSingle(line: string, change: Change)
    ensures Collected([line], change) ==
      match Classify(line)
      case Entry(c, path) => if c == change then [path] else []
      case Ignored => []
  {
    assert [line][..0] == [];
  }

  /** All three lists are empty exactly when no line is an entry: `present`
      tells whether anything changed. */
  lemma {:induction false} CollectedEmptyIffNoEntry(lines: seq<string>)
    ensures (Collected(lines, Added) == [] && Collected(lines, Removed) == [] && Collected(lines, Changed) == [])
      <==> forall i :: 0 <= i < |lines| ==> !Classify(lines[i]).Entry?
    decreases |lines|
  {
    if lines != [] {
      var init := lines[..|lines| - 1];
      assert forall i :: 0 <= i < |init| ==> init[i] == lines[i];
      CollectedEmptyIffNoEntry(init);
    }
  }

  /** Each line contributes at most one path over the three lists. */
  lemma {:induction false} CollectedCount(lines: seq<string>)
    ensures |Collected(lines, Added)| + |Collected(lines, Removed)| + |Collected(lines, Changed)| <= |lines|
    decreases |lines|
  {
    if lines != [] {
      CollectedCount(lines[..|lines| - 1]);
    }
  }

  /* The example lines in the comment at lines 107-114, as their columns,
     which the examples below join with single spaces. */
  const AddedLine: seq<string> := ["1.12", "First", "only", "source_setup"]
  const RemovedLine: seq<string> := ["1.13", "Second", "only", "lib/history"]
  const ChangedVersionsLine: seq<string> := ["1.32", "1.31", "Different", "versions", "lib/origen/application.rb"]
  const ChangedStatesLine: seq<string> := ["1.7", "(Locally", "Modified)", "1.7", "Different", "states", "lib/origen/commands/rc.rb"]

  /** Every column of the example is a plain word. */
  lemma AddedWords()
    ensures forall k :: 0 <= k < |AddedLine| ==> PlainWord(AddedLine[k])
  {
    assert PlainWord("1.12");
    assert PlainWord("First");
    assert PlainWord("only");
    assert PlainWord("source_setup");
  }

  /** The example lines land where the comment says: a `First only` line is an added file. */
  lemma AddedExample()
    ensures Classify(Join(AddedLine, " ")) == Entry(Added, "source_setup")
  {
    assert ClassifyTokens(AddedLine) == Entry(Added, "source_setup") by {
      assert FindPair(AddedLine, 1, FirstOnly.0, FirstOnly.1) == Some(1);
    }
    AddedWords();
    ClassifyWords(AddedLine);
  }

  /** Every column of the example is a plain word. */
  lemma RemovedWords()
    ensures forall k :: 0 <= k < |RemovedLine| ==> PlainWord(RemovedLine[k])
  {
    assert PlainWord("1.13");
    assert PlainWord("Second");
    assert PlainWord("only");
    assert PlainWord("lib/history");
  }

  /** A `Second only` line is a removed file. */
  lemma RemovedExample()
    ensures Classify(Join(RemovedLine, " ")) == Entry(Removed, "lib/history")
  {
    assert ClassifyTokens(RemovedLine) == Entry(Removed, "lib/history") by {
      assert FindPair(RemovedLine, 1, FirstOnly.0, FirstOnly.1) == None;
      assert FindPair(RemovedLine, 1, SecondOnly.0, SecondOnly.1) == Some(1);
    }
    RemovedWords();
    ClassifyWords(RemovedLine);
  }

  /** Every column of the example is a plain word. */
  lemma ChangedVersionsWords()
    ensures forall k :: 0 <= k < |ChangedVersionsLine| ==> PlainWord(ChangedVersionsLine[k])
  {
    assert PlainWord("1.32");
    assert PlainWord("1.31");
    assert PlainWord("Different");
    assert PlainWord("versions");
    assert PlainWord("lib/origen/application.rb");
  }

  /** A `Different versions` line is a changed file. */
  lemma ChangedVersionsExample()
    ensures Classify(Join(ChangedVersionsLine, " ")) == Entry(Changed, "lib/origen/application.rb")
  {
    assert ClassifyTokens(ChangedVersionsLine) == Entry(Changed, "lib/origen/application.rb") by {
      assert FindPair(ChangedVersionsLine, 1, FirstOnly.0, FirstOnly.1) == None;
      assert FindPair(ChangedVersionsLine, 1, SecondOnly.0, SecondOnly.1) == None;
      assert FindPair(ChangedVersionsLine, 2, Different.0, Different.1) == Some(2);
    }
    ChangedVersionsWords();
    ClassifyWords(ChangedVersionsLine);
  }

  /** Every column of the example is a plain word. */
  lemma ChangedStatesWords()
    ensures forall k :: 0 <= k < |ChangedStatesLine| ==> PlainWord(ChangedStatesLine[k])
  {
    assert PlainWord("1.7");
    assert PlainWord("(Locally");
    assert PlainWord("Modified)");
    assert PlainWord("Different");
    assert PlainWord("states");
    assert PlainWord("lib/origen/commands/rc.rb");
  }

  /** A `Different states` line of a locally modified file is a changed file. */
  lemma ChangedStatesExample()
    ensures Classify(Join(ChangedStatesLine, " ")) == Entry(Changed, "lib/origen/commands/rc.rb")
  {
    assert ClassifyTokens(ChangedStatesLine) == Entry(Changed, "lib/origen/commands/rc.rb") by {
      assert FindPair(ChangedStatesLine, 1, FirstOnly.0, FirstOnly.1) == None;
      assert FindPair(ChangedStatesLine, 1, SecondOnly.0, SecondOnly.1) == None;
      assert FindPair(ChangedStatesLine, 2, Different.0, Different.1) == Some(4);
    }
    ChangedStatesWords();
    ClassifyWords(ChangedStatesLine);
  }

  /** `full_path_prefix` (lines 219-227), on Windows or not. */
  function FullPathPrefix(onWindows: bool): (p: string)
    ensures StartsWith(p, "file://")
    ensures onWindows <==> p == "file:///"
  {
    if onWindows then "file:///" else "file://"
  }

  /** The listing lines neither `reject` drops (lines 144-147 and 163-166):
      blank lines and the `Name`, `Directory` and `---` header lines. */
  predicate Listed(item: string): (b: bool)
    ensures b ==> Strip(item) != ""
  {
    StripEmptyIffBlank(item);
    !(IsBlank(item) || LineStartsWith(item, "Name") || LineStartsWith(item, "Directory") || LineStartsWith(item, "---"))
  }

  /** The listed lines, in order. */
  function Listing(items: seq<string>): (r: seq<string>)
    ensures |r| <= |items|
    ensures forall i :: 0 <= i < |r| ==> Listed(r[i])
  {
    if items == [] then []
    else Listing(items[..|items| - 1]) + (if Listed(items[|items| - 1]) then [items[|items| - 1]] else [])
  }

  /** `strip!`, then `sub!(/^#{full_path_prefix}/, '')`. */
  function ListedPath(prefix: string, item: string): (r: string)
    ensures |r| <= |Strip(item)|
  {
    RemoveAtLineStart(Strip(item), prefix)
  }

  /** The listed path is the stripped line without the prefix, or the whole
      stripped line when the prefix does not begin any of its lines. */
  lemma ListedPathDropsPrefix(prefix: string, item: string)
    ensures StartsWith(Strip(item), prefix) ==> ListedPath(prefix, item) == Strip(item)[|prefix|..]
    ensures !LineStartsWith(Strip(item), prefix) ==> ListedPath(prefix, item) == Strip(item)
  {
  }

  /** An `unmanaged` entry (lines 168-171): the listed path with its first
      `|` turned into `:`. */
  function UnmanagedEntry(prefix: string, item: string): (r: string)
    ensures |r| == |ListedPath(prefix, item)|
    ensures '|' !in ListedPath(prefix, item) ==> r == ListedPath(prefix, item)
  {
    ReplaceFirst(ListedPath(prefix, item), '|', ':')
  }

  /** The first `|` of the listed path, and nothing else, becomes `:`. */
  lemma UnmanagedEntrySubstitutes(prefix: string, item: string)
    ensures var p := ListedPath(prefix, item);
      var r := UnmanagedEntry(prefix, item);
      && |r| == |p|
      && ('|' !in p ==> r == p)
      && ('|' in p ==>
          var k := IndexOf(p, '|').value;
          r[k] == ':' && r[..k] == p[..k] && r[k + 1..] == p[k + 1..])
  {
    var p := ListedPath(prefix, item);
    var r := UnmanagedEntry(prefix, item);
    if '|' in p {
      var k := IndexOf(p, '|').value;
      assert r[..k] == p[..k];
      assert r[k + 1..] == p[k + 1..];
    }
  }

  /** A `local_modifications` entry as lines 149-152 compute it: the result of
      `file.sub('|', ':')` is discarded, so a `|` stays. */
  function LocalEntryAsWritten(dir: string, prefix: string, item: string): (r: string)
    ensures StartsWith(r, dir + "/") && r[|dir| + 1..] == ListedPath(prefix, item)
  {
    dir + "/" + ListedPath(prefix, item)
  }

  /** A `local_modifications` entry with the substitution kept. */
  function LocalEntry(dir: string, prefix: string, item: string): (r: string)
    ensures StartsWith(r, dir + "/") && |r| == |dir| + 1 + |ListedPath(prefix, item)|
  {
    dir + "/" + ReplaceFirst(ListedPath(prefix, item), '|', ':')
  }

  /** A corrected `local_modifications` entry is the `unmanaged` entry for
      the same line, under `dir`. */
  lemma LocalEntryIsUnmanagedUnderDir(dir: string, prefix: string, item: string)
    ensures var r := LocalEntry(dir, prefix, item);
      StartsWith(r, dir + "/") && r[|dir| + 1..] == UnmanagedEntry(prefix, item)
  {
    var r := LocalEntry(dir, prefix, item);
    assert r[..|dir| + 1] == dir + "/";
  }

  /** An as-written entry equals the corrected one exactly when the listed
      path holds no `|`: line 151 loses only the substitution. */
  lemma LocalEntryAsWrittenIffNoBar(dir: string, prefix: string, item: string)
    ensures LocalEntryAsWritten(dir, prefix, item) == LocalEntry(dir, prefix, item) <==> '|' !in ListedPath(prefix, item)
  {
    var p := ListedPath(prefix, item);
    if '|' in p {
      var k := IndexOf(p, '|').value;
      assert LocalEntryAsWritten(dir, prefix, item)[|dir| + 1 + k] == p[k] == '|';
      assert LocalEntry(dir, prefix, item)[|dir| + 1 + k] == ReplaceFirst(p, '|', ':')[k] == ':';
    }
  }

  /** `local_modifications` as written (lines 144-153): the entries of the
      listed lines with each `|` kept. */
  function LocalModificationsAsWritten(dir: string, onWindows: bool, output: seq<string>): (files: seq<string>)
    ensures |files| == |Listing(output)|
    ensures forall i :: 0 <= i < |files| ==> StartsWith(files[i], dir + "/")
  {
    seq(|Listing(output)|, i requires 0 <= i < |Listing(output)| => LocalEntryAsWritten(dir, FullPathPrefix(onWindows), Listing(output)[i]))
  }

  /** The list as written differs from the corrected list of
      LocalModifications at exactly the entries whose listed path holds a
      `|`. */
  lemma LocalModificationsAsWrittenDiffers(dir: string, onWindows: bool, output: seq<string>)
    ensures var written := LocalModificationsAsWritten(dir, onWindows, output);
      forall i :: 0 <= i < |written| ==>
        ((written[i] == LocalEntry(dir, FullPathPrefix(onWindows), Listing(output)[i]))
         == ('|' !in ListedPath(FullPathPrefix(onWindows), Listing(output)[i])))
  {
    var written := LocalModificationsAsWritten(dir, onWindows, output);
    forall i | 0 <= i < |written|
      ensures (written[i] == LocalEntry(dir, FullPathPrefix(onWindows), Listing(output)[i]))
        == ('|' !in ListedPath(FullPathPrefix(onWindows), Listing(output)[i]))
    {
      LocalEntryAsWrittenIffNoBar(dir, FullPathPrefix(onWindows), Listing(output)[i]);
    }
  }

  /** The stripped Windows listing line without its prefix. */
  lemma DriveLinePath(item: string)
    requires item == " file:///C|/work/a.rb"
    ensures ListedPath("file:///", item) == "C|/work/a.rb"
  {
    assert item[0] == ' ' && item[1] == 'f' && item[20] == 'b';
    assert BlankEnd(item, 1) == 1;
    assert BlankEnd(item, 0) == 1;
    assert BlankStart(item, 1, 21) == 21;
    var stripped := Strip(item);
    assert stripped == item[1..];
    assert StartsWith(stripped, "file:///");
    assert stripped[8..] == "C|/work/a.rb";
  }

  /** The first `|` of the drive path becomes `:`. */
  lemma DrivePathSubstituted(path: string)
    requires path == "C|/work/a.rb"
    ensures ReplaceFirst(path, '|', ':') == "C:/work/a.rb"
  {
    assert path[0] != '|' && path[1] == '|';
    assert IndexOf(path, '|') == Some(1);
  }

  /** Both drive paths under `ws`. */
  lemma DrivePathsUnderDir(dir: string, kept: string, substituted: string)
    requires dir == "ws" && kept == "C|/work/a.rb" && substituted == "C:/work/a.rb"
    ensures dir + "/" + kept == "ws/C|/work/a.rb" && dir + "/" + substituted == "ws/C:/work/a.rb"
  {
  }

  /** On Windows a listing line `file:///C|/work/a.rb` names `C:/work/a.rb`:
      `unmanaged` gives that path, while `local_modifications` as written
      keeps the `|`, unlike the corrected entry. */
  lemma DriveLetterEntries(dir: string, item: string)
    requires dir == "ws" && item == " file:///C|/work/a.rb"
    ensures UnmanagedEntry(FullPathPrefix(true), item) == "C:/work/a.rb"
    ensures LocalEntryAsWritten(dir, FullPathPrefix(true), item) == "ws/C|/work/a.rb"
    ensures LocalEntry(dir, FullPathPrefix(true), item) == "ws/C:/work/a.rb"
  {
    DriveLinePath(item);
    var path := ListedPath(FullPathPrefix(true), item);
    DrivePathSubstituted(path);
    DrivePathsUnderDir(dir, path, ReplaceFirst(path, '|', ':'));
  }

  /** `local_modifications` (lines 135-154), with the substitution of line 151
      kept: the command, and the entries of the listed lines under `dir`. */
  method LocalModifications(dir: string, onWindows: bool, output: seq<string>)
    returns (command: string, files: seq<string>)
    ensures command == "ls -rec -managed -path -report N -modified -format text " + dir
    ensures |files| == |Listing(output)|
    ensures forall i :: 0 <= i < |files| ==> files[i] == LocalEntry(dir, FullPathPrefix(onWindows), Listing(output)[i])
  {
    command := "ls -rec -managed -path -report N -modified -format text";
    command := command + " " + dir;
    files := Listing(output);
    ghost var listed := files;
    var k := 0;
    while k < |files|
      invariant 0 <= k <= |files| == |listed|
      invariant forall i :: 0 <= i < k ==> files[i] == LocalEntry(dir, FullPathPrefix(onWindows), listed[i])
      invariant forall i :: k <= i < |files| ==> files[i] == listed[i]
    {
      var file := files[k];
      file := Strip(file);
      file := RemoveAtLineStart(file, FullPathPrefix(onWindows));
      file := ReplaceFirst(file, '|', ':');
      file := dir + "/" + file;
      files := files[k := file];
      k := k + 1;
    }
  }

  /** `unmanaged` (lines 156-172): the command, and the entries of the listed
      lines. */
  method Unmanaged(dir: string, onWindows: bool, output: seq<string>)
    returns (command: string, files: seq<string>)
    ensures command == "ls -rec -unmanaged -fullpath -report N -modified -format text " + dir
    ensures |files| == |Listing(output)|
    ensures forall i :: 0 <= i < |files| ==> files[i] == UnmanagedEntry(FullPathPrefix(onWindows), Listing(output)[i])
  {
    command := "ls -rec -unmanaged -fullpath -report N -modified -format text";
    command := command + " " + dir;
    files := Listing(output);
    ghost var listed := files;
    var k := 0;
    while k < |files|
      invariant 0 <= k <= |files| == |listed|
      invariant forall i :: 0 <= i < k ==> files[i] == UnmanagedEntry(FullPathPrefix(onWindows), listed[i])
      invariant forall i :: k <= i < |files| ==> files[i] == listed[i]
    {
      var file := files[k];
      file := Strip(file);
      file := RemoveAtLineStart(file, FullPathPrefix(onWindows));
      files := files[k := ReplaceFirst(file, '|', ':')];
      k := k + 1;
    }
  }

  /** Filtering preserves order: the listing of two stretches of output, one
      after the other, is the listing of both together. */
  lemma {:induction false} ListingAppend(a: seq<string>, b: seq<string>)
    ensures Listing(a + b) == Listing(a) + Listing(b)
    decreases |b|
  {
    if b == [] {
      assert a + b == a;
    } else {
      var b' := b[..|b| - 1];
      assert (a + b)[..|a + b| - 1] == a + b';
      ListingAppend(a, b');
    }
  }

  /** No blank or header line survives the listing. */
  lemma {:induction false} ListingOnlyListed(items: seq<string>)
    ensures forall i :: 0 <= i < |Listing(items)| ==> Listed(Listing(items)[i]) && Listing(items)[i] in items
    decreases |items|
  {
    if items != [] {
      var init := items[..|items| - 1];
      ListingOnlyListed(init);
      assert forall x :: x in init ==> x in items;
    }
  }

  /** Every line `reject` keeps is listed. */
  lemma {:induction false} ListingKeepsListed(items: seq<string>)
    ensures forall i :: 0 <= i < |items| && Listed(items[i]) ==> items[i] in Listing(items)
    decreases |items|
  {
    if items != [] {
      var init := items[..|items| - 1];
      assert forall i :: 0 <= i < |init| ==> init[i] == items[i];
      ListingKeepsListed(init);
    }
  }
}
