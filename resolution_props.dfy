/**
 * What the constant loader promises, proved of the functions in Resolution:
 * the early exits (no workspace, re-entrant call, unowned namespace), the
 * probe order over the six candidate files, the check after loading, and the
 * silence of the best-effort controller probe.
 */
module ResolutionProperties {
  import opened Wrappers
  import opened Text
  import opened Resolution

  /** Every segment of a constant path is free of ':'. */
  predicate PlainSegments(segs: seq<string>) {
    forall k :: 0 <= k < |segs| ==> ':' !in segs[k]
  }

  /** The six files const_missing may load for `names`, in the order it tries
      them: models, controllers and lib under the full segment list, then the
      same three without the leading namespace segment. */
  function Candidates(w: World, root: string, names: seq<string>): (r: seq<string>)
    requires |names| > 0
    ensures |r| == 6
  {
    var full := CandidatePath(w, names);
    var short := CandidatePath(w, names[1..]);
    [AppFile(root, Models, full), AppFile(root, Controllers, full), AppFile(root, Lib, full),
     AppFile(root, Models, short), AppFile(root, Controllers, short), AppFile(root, Lib, short)]
  }

  /** The directory the candidate at index `k` lies in. */
  function CandidateDir(k: nat): AppDir {
    if k % 3 == 0 then Models else if k % 3 == 1 then Controllers else Lib
  }

  /** The index of the first candidate, from `from` on, that exists. */
  function FirstExisting(files: set<string>, cands: seq<string>, from: nat): (r: Option<nat>)
    ensures r.Some? ==> from <= r.value < |cands| && cands[r.value] in files
    ensures forall j :: from <= j < |cands| && (r.None? || j < r.value) ==> cands[j] !in files
    decreases |cands| - from
  {
    if from >= |cands| then None
    else if cands[from] in files then Some(from)
    else FirstExisting(files, cands, from + 1)
  }

  /** The owner const_missing finds for `name` on `recv`, if any. */
  function Owner(w: World, recv: Receiver, name: string): Option<Component> {
    AppFromNamespace(w.registry, Split(Qualify(recv, name), "::")[0])
  }

  /** Line 36 and line 38 together: on a named module, the segments
      const_missing works on are the receiver's segments followed by the
      missing name. */
  lemma QualifiedNameSegments(segs: seq<string>, name: string)
    requires PlainSegments(segs) && ':' !in name
    ensures |segs| > 0 ==> Split(Qualify(NamedModule(Join(segs, "::")), name), "::") == segs + [name]
  {
    if |segs| > 0 {
      JoinAppend(segs, [name], "::");
      SplitJoin(segs + [name], "::");
    }
  }

  /** Lines 41 and 57: the candidate path ends in ".rb" and splits at "/" back
      into the underscored segments; with no segments it is just ".rb". */
  lemma CandidatePathSplits(w: World, names: seq<string>)
    ensures var p := CandidatePath(w, names); |p| >= 3 && p[|p| - 3..] == ".rb"
    ensures names == [] ==> CandidatePath(w, names) == ".rb"
    ensures var p := CandidatePath(w, names);
      names != [] && (forall k :: 0 <= k < |names| ==> '/' !in w.underscore(names[k])) ==>
        Split(p[..|p| - 3], "/") == Underscored(w, names)
  {
    var p := CandidatePath(w, names);
    var u := Underscored(w, names);
    assert p[..|p| - 3] == Join(u, "/");
    if names != [] && (forall k :: 0 <= k < |names| ==> '/' !in w.underscore(names[k])) {
      assert forall k :: 0 <= k < |u| ==> u[k] == w.underscore(names[k]);
      SplitJoin(u, "/");
    }
  }

  /** Lines 35 and 74-75: outside an application workspace the reference
      fails at once, naming the constant as given (unqualified), and no file
      is touched. */
  lemma InactiveWorkspaceRaises(w: World, recv: Receiver, st: State, name: string, fuel: nat)
    requires !w.inAppWorkspace
    ensures ConstMissing(w, recv, st, name, fuel)
      == (Raised(NameError("uninitialized constant " + name, name)), st.(preLoadingController := false))
  {
  }

  /** Line 37: a nested reference to the constant being checked returns nil
      and changes nothing but the probe flag. */
  lemma GuardReturnsNil(w: World, recv: Receiver, st: State, name: string, fuel: nat)
    requires w.inAppWorkspace && recv.NamedModule? && st.checkingName == Some(Qualify(recv, name))
    ensures ConstMissing(w, recv, st, name, fuel) == (Returned(None), st.(preLoadingController := false))
  {
  }

  /** Lines 40 and 71-72: a namespace owned by neither the application nor a
      plugin raises with the qualified name, before any file is probed. */
  lemma UnownedNamespaceRaises(w: World, recv: Receiver, st: State, name: string, fuel: nat)
    requires w.inAppWorkspace && recv.NamedModule? && st.checkingName != Some(Qualify(recv, name))
    requires Owner(w, recv, name).None?
    ensures var q := Qualify(recv, name);
      ConstMissing(w, recv, st, name, fuel) == (Raised(NameError("uninitialized constant " + q, q)), st.(preLoadingController := false))
  {
  }

  /** Lines 41-70: const_missing acts on the first of the six candidates that
      exists, and only when none exists does it fall through to line 70,
      which returns nil during a controller probe and raises otherwise. */
  lemma ProbesFirstExistingCandidate(w: World, recv: Receiver, st: State, name: string, fuel: nat)
    requires w.inAppWorkspace && recv.NamedModule? && st.checkingName != Some(Qualify(recv, name))
    requires Owner(w, recv, name).Some?
    ensures var q := Qualify(recv, name);
      var cands := Candidates(w, Owner(w, recv, name).value.root, Split(q, "::"));
      ConstMissing(w, recv, st, name, fuel) ==
        match FirstExisting(w.files, cands, 0)
        case Some(k) =>
          var r := Load(w, recv, st, name, Hit(CandidateDir(k), cands[k]), fuel);
          (r.0, r.1.(preLoadingController := false))
        case None =>
          (if st.preLoadingController then Returned(None) else Raised(Uninitialized(q)), st.(preLoadingController := false))
  {
    var q := Qualify(recv, name);
    var names := Split(q, "::");
    var root := Owner(w, recv, name).value.root;
    var cands := Candidates(w, root, names);
    var full := CandidatePath(w, names);
    var short := CandidatePath(w, names[1..]);
    var fe := FirstExisting(w.files, cands, 0);
    assert cands[0] == AppFile(root, Models, full);
    assert cands[1] == AppFile(root, Controllers, full);
    assert cands[2] == AppFile(root, Lib, full);
    assert cands[3] == AppFile(root, Models, short);
    assert cands[4] == AppFile(root, Controllers, short);
    assert cands[5] == AppFile(root, Lib, short);
    if cands[0] in w.files {
      assert fe == Some(0);
    } else if cands[1] in w.files {
      assert fe == Some(1);
    } else if cands[2] in w.files {
      assert fe == Some(2);
    } else if cands[3] in w.files {
      assert fe == Some(3);
    } else if cands[4] in w.files {
      assert fe == Some(4);
    } else if cands[5] in w.files {
      assert fe == Some(5);
    } else {
      assert fe == None;
    }
  }

  /** Lines 82-91: after requiring the file, _require_file returns nil while a
      controller probe is running; otherwise it returns the constant if the
      file defined it and raises a NameError naming the file if not — the
      nested reference made while checking stops at the guard instead of
      searching again — and clears @_checking_name. */
  lemma RequireFileOutcome(w: World, recv: Receiver, st: State, name: string, file: string, fuel: nat)
    requires w.inAppWorkspace && recv.NamedModule?
    ensures var s1 := Require(w, st, file);
      var q := Qualify(recv, name);
      RequireFile(w, recv, st, name, file, fuel) ==
        if st.preLoadingController then (Returned(None), s1)
        else (if q in s1.defined then Returned(Some(q)) else Raised(ExpectedIn(q, file)), s1.(checkingName := None))
  {
    var s1 := Require(w, st, file);
    var q := Qualify(recv, name);
    if !st.preLoadingController && q !in s1.defined {
      var s2 := s1.(checkingName := Some(q));
      assert ConstMissingBody(w, recv, s2, name, fuel) == (Returned(None), s2);
      assert Eval(w, recv, s2, name, fuel) == (Returned(None), s2);
    }
  }

  /** Kernel#require runs a file once: requiring it again changes nothing. */
  lemma RequireIsIdempotent(w: World, st: State, file: string)
    ensures Require(w, Require(w, st, file), file) == Require(w, st, file)
  {
  }

  /** Lines 49-52 and 65-68: when the first existing candidate is a controller
      or lib file, exactly that file is required, and the constant it defines
      is returned — or a NameError naming the file when it defines none. */
  lemma FirstNonModelHitIsReturned(w: World, recv: Receiver, st: State, name: string, fuel: nat)
    requires w.inAppWorkspace && recv.NamedModule? && st.checkingName != Some(Qualify(recv, name)) && !st.preLoadingController
    requires Owner(w, recv, name).Some?
    requires var cands := Candidates(w, Owner(w, recv, name).value.root, Split(Qualify(recv, name), "::"));
      var fe := FirstExisting(w.files, cands, 0);
      fe.Some? && CandidateDir(fe.value) != Models
    ensures var q := Qualify(recv, name);
      var cands := Candidates(w, Owner(w, recv, name).value.root, Split(q, "::"));
      var f := cands[FirstExisting(w.files, cands, 0).value];
      var s1 := Require(w, st, f);
      ConstMissing(w, recv, st, name, fuel) ==
        (if q in s1.defined then Returned(Some(q)) else Raised(ExpectedIn(q, f)),
         s1.(checkingName := None, preLoadingController := false))
  {
    var q := Qualify(recv, name);
    var cands := Candidates(w, Owner(w, recv, name).value.root, Split(q, "::"));
    var k := FirstExisting(w.files, cands, 0).value;
    ProbesFirstExistingCandidate(w, recv, st, name, fuel);
    RequireFileOutcome(w, recv, st, name, cands[k], fuel);
  }

  /** Appending `Controller` adds no `::` separator. */
  lemma ControllerNameIsPlain(name: string)
    requires ':' !in name
    ensures ':' !in name + "Controller"
  {
    var ctrl := name + "Controller";
    assert forall i :: 0 <= i < |ctrl| ==> ctrl[i] == if i < |name| then name[i] else "Controller"[i - |name|];
  }

  /** Lines 46-47 with line 70: a controller probe on a module receiver never
      raises and returns nil, whatever files exist; it loads the first
      existing candidate for the controller, leaves @_checking_name unset and
      @pre_loading_controller cleared, and only adds to the defined constants
      and loaded files. */
  lemma {:induction false} ControllerProbeIsSilent(w: World, segs: seq<string>, st: State, name: string, fuel: nat)
    requires w.inAppWorkspace && st.preLoadingController && st.checkingName.None?
    requires |segs| > 0 && PlainSegments(segs) && ':' !in name
    requires AppFromNamespace(w.registry, segs[0]).Some?
    ensures var recv := NamedModule(Join(segs, "::"));
      var r := ConstMissing(w, recv, st, name, fuel);
      && r.0 == Returned(None)
      && r.1.checkingName.None? && !r.1.preLoadingController
      && st.loaded <= r.1.loaded && st.defined <= r.1.defined
    ensures var recv := NamedModule(Join(segs, "::"));
      var cands := Candidates(w, AppFromNamespace(w.registry, segs[0]).value.root, segs + [name]);
      var fe := FirstExisting(w.files, cands, 0);
      fe.Some? ==> cands[fe.value] in ConstMissing(w, recv, st, name, fuel).1.loaded
    decreases fuel, 1
  {
    var recv := NamedModule(Join(segs, "::"));
    var q := Qualify(recv, name);
    QualifiedNameSegments(segs, name);
    assert Split(q, "::")[0] == segs[0];
    ProbesFirstExistingCandidate(w, recv, st, name, fuel);
    var cands := Candidates(w, AppFromNamespace(w.registry, segs[0]).value.root, segs + [name]);
    match FirstExisting(w.files, cands, 0)
    case None =>
    case Some(k) =>
      SilentLoad(w, segs, st, name, Hit(CandidateDir(k), cands[k]), fuel);
  }

  /** One pass of the controller probe with an existing candidate: requiring
      it returns nil at once, and the nested probe after a model is silent
      in turn. */
  lemma {:induction false} SilentLoad(w: World, segs: seq<string>, st: State, name: string, hit: Hit, fuel: nat)
    requires w.inAppWorkspace && st.preLoadingController && st.checkingName.None?
    requires |segs| > 0 && PlainSegments(segs) && ':' !in name
    requires AppFromNamespace(w.registry, segs[0]).Some?
    ensures var r := Load(w, NamedModule(Join(segs, "::")), st, name, hit, fuel);
      && r.0 == Returned(None) && r.1.checkingName.None?
      && Require(w, st, hit.file).loaded <= r.1.loaded && st.defined <= r.1.defined
    decreases fuel, 0
  {
    var recv := NamedModule(Join(segs, "::"));
    var s1 := Require(w, st, hit.file);
    assert RequireFile(w, recv, st, name, hit.file, fuel) == (Returned(None), s1);
    if hit.dir == Models && fuel > 0 {
      var ctrl := name + "Controller";
      if Qualify(recv, ctrl) !in s1.defined {
        ControllerNameIsPlain(name);
        ControllerProbeIsSilent(w, segs, s1, ctrl, fuel - 1);
      } else {
        assert Eval(w, recv, s1, ctrl, fuel - 1) == (Returned(Some(Qualify(recv, ctrl))), s1);
      }
    }
  }

  /** Lines 43-48 (and 59-64) for a model file: the constant it defines is
      returned, or the NameError naming the file; the controller probe that
      follows neither raises nor undoes anything. */
  lemma ModelLoadOutcome(w: World, segs: seq<string>, st: State, name: string, file: string, fuel: nat)
    requires w.inAppWorkspace && !st.preLoadingController && st.checkingName.None?
    requires |segs| > 0 && PlainSegments(segs) && ':' !in name
    requires AppFromNamespace(w.registry, segs[0]).Some?
    ensures var recv := NamedModule(Join(segs, "::"));
      var q := Qualify(recv, name);
      var s1 := Require(w, st, file);
      var r := Load(w, recv, st, name, Hit(Models, file), fuel);
      && r.0 == (if q in s1.defined then Returned(Some(q)) else Raised(ExpectedIn(q, file)))
      && s1.loaded <= r.1.loaded && s1.defined <= r.1.defined && r.1.checkingName.None?
  {
    var recv := NamedModule(Join(segs, "::"));
    var q := Qualify(recv, name);
    var s1 := Require(w, st, file);
    RequireFileOutcome(w, recv, st, name, file, fuel);
    if q in s1.defined && fuel > 0 {
      ModelProbe(w, segs, st, name, file, fuel);
    }
  }

  /** The controller probe after a model file that defined its constant: it
      does not raise and leaves @_checking_name unset, and when the
      controller is still undefined the first of its existing candidates is
      loaded. */
  lemma ModelProbe(w: World, segs: seq<string>, st: State, name: string, file: string, fuel: nat)
    requires w.inAppWorkspace && !st.preLoadingController && st.checkingName.None?
    requires |segs| > 0 && PlainSegments(segs) && ':' !in name && fuel > 0
    requires AppFromNamespace(w.registry, segs[0]).Some?
    requires Qualify(NamedModule(Join(segs, "::")), name) in Require(w, st, file).defined
    ensures var recv := NamedModule(Join(segs, "::"));
      var s := Require(w, st, file).(checkingName := None, preLoadingController := true);
      var probe := Eval(w, recv, s, name + "Controller", fuel - 1);
      probe.0.Returned? && probe.1.checkingName.None?
    ensures var recv := NamedModule(Join(segs, "::"));
      var q := Qualify(recv, name);
      var s := Require(w, st, file).(checkingName := None, preLoadingController := true);
      var ccands := Candidates(w, AppFromNamespace(w.registry, segs[0]).value.root, segs + [name + "Controller"]);
      var cfe := FirstExisting(w.files, ccands, 0);
      q + "Controller" !in s.defined && cfe.Some? ==>
        ccands[cfe.value] in Eval(w, recv, s, name + "Controller", fuel - 1).1.loaded
  {
    var recv := NamedModule(Join(segs, "::"));
    var q := Qualify(recv, name);
    var s := Require(w, st, file).(checkingName := None, preLoadingController := true);
    var ctrl := name + "Controller";
    assert Qualify(recv, ctrl) == q + "Controller";
    if q + "Controller" !in s.defined {
      ControllerNameIsPlain(name);
      ControllerProbeIsSilent(w, segs, s, ctrl, fuel - 1);
    } else {
      assert Eval(w, recv, s, ctrl, fuel - 1) == (Returned(Some(q + "Controller")), s);
    }
  }

  /** After a model file that defined its constant, when the controller is
      still undefined, the first of its existing candidates is loaded too. */
  lemma ModelLoadsController(w: World, segs: seq<string>, st: State, name: string, file: string, fuel: nat)
    requires w.inAppWorkspace && !st.preLoadingController && st.checkingName.None?
    requires |segs| > 0 && PlainSegments(segs) && ':' !in name
    requires AppFromNamespace(w.registry, segs[0]).Some?
    ensures var recv := NamedModule(Join(segs, "::"));
      var q := Qualify(recv, name);
      var s1 := Require(w, st, file);
      var ccands := Candidates(w, AppFromNamespace(w.registry, segs[0]).value.root, segs + [name + "Controller"]);
      var cfe := FirstExisting(w.files, ccands, 0);
      q in s1.defined && fuel > 0 && q + "Controller" !in s1.defined && cfe.Some? ==>
        ccands[cfe.value] in Load(w, recv, st, name, Hit(Models, file), fuel).1.loaded
  {
    var recv := NamedModule(Join(segs, "::"));
    var q := Qualify(recv, name);
    if q in Require(w, st, file).defined && fuel > 0 {
      RequireFileOutcome(w, recv, st, name, file, fuel);
      ModelProbe(w, segs, st, name, file, fuel);
    }
  }

  /** Lines 42-48 and 58-64 end to end: when the first existing candidate is a
      model file, const_missing returns the constant that file defines (or
      the NameError naming the file) with the probe flag cleared, and the
      controller probe changes neither outcome. */
  lemma ModelHitReturnsModel(w: World, segs: seq<string>, st: State, name: string, fuel: nat)
    requires w.inAppWorkspace && !st.preLoadingController && st.checkingName.None?
    requires |segs| > 0 && PlainSegments(segs) && ':' !in name
    requires AppFromNamespace(w.registry, segs[0]).Some?
    requires var cands := Candidates(w, AppFromNamespace(w.registry, segs[0]).value.root, segs + [name]);
      var fe := FirstExisting(w.files, cands, 0);
      fe.Some? && CandidateDir(fe.value) == Models
    ensures var recv := NamedModule(Join(segs, "::"));
      var q := Qualify(recv, name);
      var cands := Candidates(w, AppFromNamespace(w.registry, segs[0]).value.root, segs + [name]);
      var f := cands[FirstExisting(w.files, cands, 0).value];
      var s1 := Require(w, st, f);
      var r := ConstMissing(w, recv, st, name, fuel);
      && r.0 == (if q in s1.defined then Returned(Some(q)) else Raised(ExpectedIn(q, f)))
      && s1.loaded <= r.1.loaded && s1.defined <= r.1.defined
      && r.1.checkingName.None? && !r.1.preLoadingController
  {
    var recv := NamedModule(Join(segs, "::"));
    QualifiedNameSegments(segs, name);
    ProbesFirstExistingCandidate(w, recv, st, name, fuel);
    var cands := Candidates(w, AppFromNamespace(w.registry, segs[0]).value.root, segs + [name]);
    var f := cands[FirstExisting(w.files, cands, 0).value];
    ModelLoadOutcome(w, segs, st, name, f, fuel);
  }

  /** Lines 35-38 on Object: Ruby passes the missing name as a Symbol, which
      line 36 leaves unconverted on Object; the guard of line 37 compares it
      with a String or nil and fails, and `split` on line 38 raises a
      NoMethodError. No file is probed or loaded, and nothing but the probe
      flag changes. */
  lemma ObjectReceiverRaises(w: World, st: State, name: string, fuel: nat)
    requires w.inAppWorkspace
    ensures ConstMissing(w, ObjectClass, st, name, fuel)
      == (Raised(NoMethodError("split", name)), st.(preLoadingController := false))
  {
  }
}
