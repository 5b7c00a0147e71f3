/**
 * The `dssc` command lines DesignSync#checkout and DesignSync#checkin build
 * by appending option after option to `cmd`. Each command is described by
 * the words it consists of; the methods build the string step by step, as
 * the driver does, and are proved to produce those words joined by spaces,
 * followed by a space and the space-joined paths.
 *
 * `clean_path` and `prefix_tag` are defined outside this file: the paths
 * are given already cleaned, and `prefixTag` is a parameter.
 */
module DesignSyncCommands {
  import opened Wrappers
  import opened Text

  /** The words of a checkout command before the paths: `pop -rec -get -uni`,
      then `-force` when forced, then `-version <tag>` when a version is
      given, or `-merge` when neither a version nor force is. */
  function CheckoutWords(force: bool, version: Option<string>, prefixTag: string -> string): (w: seq<string>)
    ensures 5 <= |w| <= 7 && w[..4] == ["pop", "-rec", "-get", "-uni"]
    ensures w[4] == "-force" <==> force
    ensures "-version" in w <==> version.Some?
    ensures version.Some? ==> w[|w| - 2..] == ["-version", prefixTag(version.value)]
    ensures version.None? ==> (w[|w| - 1] == "-merge" <==> !force)
    ensures (version.None? && !force) <==> (w[|w| - 1] == "-merge" && w[|w| - 2] != "-version")
  {
    ["pop", "-rec", "-get", "-uni"]
    + (if force then ["-force"] else [])
    + (match version
       case Some(v) => ["-version", prefixTag(v)]
       case None => if force then [] else ["-merge"])
  }

  /** The quoted, stripped comment, or `None` when no comment or only a blank
      one is given (lines 75-80). */
  function CommentWord(comment: Option<string>): (c: string)
    ensures c == "None" <==> comment.None? || IsBlank(comment.value)
    ensures c != "None" ==> c == "\"" + Strip(comment.value) + "\"" && Strip(comment.value) != ""
    ensures c == "None" || c[0] == '"'
  {
    StripEmptyIffBlank(if comment.Some? then comment.value else "");
    if comment.Some? && Strip(comment.value) != "" then
      var c := "\"" + Strip(comment.value) + "\"";
      assert c[0] != "None"[0];
      c
    else "None"
  }

  /** The words of a checkin command before the paths: `ci -rec -keep`, then
      `-skip` when forced, `-new` when forced or checking in unmanaged files,
      and the comment. */
  function CheckinWords(force: bool, unmanaged: bool, comment: Option<string>): (w: seq<string>)
    ensures 5 <= |w| <= 7 && w[..3] == ["ci", "-rec", "-keep"]
    ensures w[|w| - 2..] == ["-com", CommentWord(comment)]
  {
    ["ci", "-rec", "-keep"]
    + (if force then ["-skip"] else [])
    + (if unmanaged || force then ["-new"] else [])
    + ["-com", CommentWord(comment)]
  }

  /** Each checkin option is present exactly when its condition holds, and
      the comment comes last. */
  lemma CheckinFlags(force: bool, unmanaged: bool, comment: Option<string>)
    ensures var w := CheckinWords(force, unmanaged, comment);
      && 5 <= |w| <= 7 && w[..3] == ["ci", "-rec", "-keep"]
      && ("-skip" in w <==> force)
      && ("-new" in w <==> unmanaged || force)
      && w[|w| - 2..] == ["-com", CommentWord(comment)]
  {
    var c := CommentWord(comment);
    assert c != "-skip" && c != "-new" by {
      assert c == "None" || c[0] == '"';
    }
  }

  /** No word holds a space, so splitting the command line at spaces gives
      the words back. */
  predicate SpaceFree(words: seq<string>) {
    forall k :: 0 <= k < |words| ==> ' ' !in words[k]
  }

  /** Appending ` w` to the joined words joins one more word. */
  lemma JoinSnoc(cmd: string, words: seq<string>, piece: string, w: string)
    requires words != [] && cmd == Join(words, " ") && piece == " " + w
    ensures cmd + piece == Join(words + [w], " ")
  {
    JoinAppend(words, [w], " ");
  }

  /** Appending ` a b` to the joined words joins two more words. */
  lemma JoinSnoc2(cmd: string, words: seq<string>, piece: string, a: string, b: string)
    requires words != [] && cmd == Join(words, " ") && piece == " " + a + " "
    ensures cmd + piece + b == Join(words + [a, b], " ")
  {
    JoinAppend(words, [a, b], " ");
    assert Join([a, b], " ") == a + " " + b by {
      assert [a, b][1..] == [b];
    }
  }

  /** `checkout` (lines 52-67): the command handed to dssc, and the joined
      paths it returns. */
  method Checkout(paths: seq<string>, force: bool, version: Option<string>, prefixTag: string -> string)
    returns (command: string, joined: string)
    ensures command == Join(CheckoutWords(force, version, prefixTag), " ") + " " + Join(paths, " ")
    ensures joined == Join(paths, " ")
  {
    ghost var words := ["pop", "-rec", "-get", "-uni"];
    var cmd := "pop";
    cmd := cmd + " -rec -get -uni";
    assert cmd == Join(words, " ");
    if force {
      JoinSnoc(cmd, words, " -force", "-force");
      cmd := cmd + " -force";
      words := words + ["-force"];
    }
    if version.Some? {
      var tag := prefixTag(version.value);
      JoinSnoc2(cmd, words, " -version ", "-version", tag);
      cmd := cmd + " -version " + tag;
      words := words + ["-version", tag];
    } else if !force {
      JoinSnoc(cmd, words, " -merge", "-merge");
      cmd := cmd + " -merge";
      words := words + ["-merge"];
    }
    assert words == CheckoutWords(force, version, prefixTag);
    joined := Join(paths, " ");
    command := cmd + " " + joined;
  }

  /** `checkin` (lines 69-86): the command handed to dssc, and the joined
      paths it returns. */
  method Checkin(paths: seq<string>, force: bool, unmanaged: bool, comment: Option<string>)
    returns (command: string, joined: string)
    ensures command == Join(CheckinWords(force, unmanaged, comment), " ") + " " + Join(paths, " ")
    ensures joined == Join(paths, " ")
  {
    ghost var words := ["ci", "-rec", "-keep"];
    var cmd := "ci";
    cmd := cmd + " -rec -keep";
    assert cmd == Join(words, " ");
    if force {
      JoinSnoc(cmd, words, " -skip", "-skip");
      cmd := cmd + " -skip";
      words := words + ["-skip"];
    }
    if unmanaged || force {
      JoinSnoc(cmd, words, " -new", "-new");
      cmd := cmd + " -new";
      words := words + ["-new"];
    }
    var quoted: string;
    if comment.Some? && Strip(comment.value) != "" {
      quoted := "\"" + Strip(comment.value) + "\"";
    } else {
      quoted := "None";
    }
    assert quoted == CommentWord(comment);
    assert words == ["ci", "-rec", "-keep"] + (if force then ["-skip"] else []) + (if unmanaged || force then ["-new"] else []);
    JoinSnoc2(cmd, words, " -com ", "-com", quoted);
    cmd := cmd + " -com " + quoted;
    words := words + ["-com", quoted];
    joined := Join(paths, " ");
    command := cmd + " " + joined;
  }

  /** When no word and no path holds a space, splitting the command line at
      spaces gives back the command's words followed by the paths. */
  lemma {:induction false} CommandSplits(words: seq<string>, paths: seq<string>)
    requires words != [] && paths != []
    requires SpaceFree(words) && SpaceFree(paths)
    ensures Split(Join(words, " ") + " " + Join(paths, " "), " ") == words + paths
  {
    JoinAppend(words, paths, " ");
    SplitJoin(words + paths, " ");
  }

  /** The checkout command line, split at spaces, is its words then the paths. */
  lemma CheckoutCommandSplits(paths: seq<string>, force: bool, version: Option<string>, prefixTag: string -> string)
    requires paths != [] && SpaceFree(paths)
    requires version.Some? ==> ' ' !in prefixTag(version.value)
    ensures Split(Join(CheckoutWords(force, version, prefixTag), " ") + " " + Join(paths, " "), " ")
      == CheckoutWords(force, version, prefixTag) + paths
  {
    var w := CheckoutWords(force, version, prefixTag);
    forall k | 0 <= k < |w| ensures ' ' !in w[k] {
      if k == |w| - 1 && version.Some? {
        assert w[k] == w[|w| - 2..][1];
      }
    }
    CommandSplits(w, paths);
  }

  /** The checkin command line, split at spaces, is its words then the paths,
      when the comment has no space in it. */
  lemma CheckinCommandSplits(paths: seq<string>, force: bool, unmanaged: bool, comment: Option<string>)
    requires paths != [] && SpaceFree(paths)
    requires comment.Some? ==> ' ' !in comment.value
    ensures Split(Join(CheckinWords(force, unmanaged, comment), " ") + " " + Join(paths, " "), " ")
      == CheckinWords(force, unmanaged, comment) + paths
  {
    var w := CheckinWords(force, unmanaged, comment);
    var c := CommentWord(comment);
    if c != "None" {
      var s := Strip(comment.value);
      var a := StripStart(comment.value);
      assert s == comment.value[a..a + |s|];
      assert ' ' !in s by {
        forall i | 0 <= i < |s| ensures s[i] != ' ' {
          assert s[i] == comment.value[a + i];
        }
      }
      assert c == "\"" + s + "\"";
      assert ' ' !in c by {
        forall i | 0 <= i < |c| ensures c[i] != ' ' {
          if 0 < i < |c| - 1 {
            assert c[i] == s[i - 1];
          }
        }
      }
    }
    forall k | 0 <= k < |w| ensures ' ' !in w[k] {
      if k == |w| - 1 {
        assert w[k] == w[|w| - 2..][1];
      }
    }
    CommandSplits(w, paths);
  }
}
