/**
 * The lazy constant loader of Origen (ModuleConstMissing#const_missing and
 * its helpers) as functions on values. A failed constant reference on a
 * receiver module is qualified with the receiver's name, mapped to the
 * application or plugin owning its first segment, and resolved by loading
 * the first existing file among app/models, app/controllers and app/lib,
 * first under the full segment list and then without the namespace segment.
 *
 * The interpreter state the loader reads and changes is a State value: the
 * set of defined constants (by qualified name), the set of required files,
 * and the receiver's two instance variables @_checking_name and
 * @pre_loading_controller. The filesystem, the registry, the workspace flag,
 * what each file defines when required and String#underscore form a World,
 * which nothing changes.
 *
 * The best-effort controller probe can recurse (a model file for
 * `XController` triggers a probe for `XControllerController`, and so on
 * while such model files exist); `fuel` bounds that chain.
 */
module Resolution {
  import opened Wrappers
  import opened Text

  /** An application or plugin: the namespace it owns and its root directory. */
  datatype Component = Component(namespace: string, root: string)

  /** Origen.app and the plugins it lists, in order. */
  datatype Registry = Registry(app: Component, plugins: seq<Component>)

  /** What const_missing observes but never changes. `files` are the paths for
      which File.exist? holds; `defines` maps a file to the constants (by
      qualified name) that requiring it defines; `underscore` is
      String#underscore, whose definition is not part of this model. */
  datatype World = World(
    inAppWorkspace: bool,
    registry: Registry,
    files: set<string>,
    defines: map<string, set<string>>,
    underscore: string -> string)

  /** The module const_missing is called on: Object itself, or a module with
      the given name (`Acme::Widgets`). */
  datatype Receiver = ObjectClass | NamedModule(name: string)

  /** The exceptions const_missing raises: the NameError of an unresolved
      constant, or the NoMethodError of calling `selector` on the Symbol
      `receiver` (Ruby hands const_missing a Symbol, which only a named
      module turns into a String). */
  datatype Error = NameError(message: string, name: string) | NoMethodError(selector: string, receiver: string)

  /** What const_missing does: return a constant (by qualified name) or nil,
      or raise. */
  datatype Outcome = Returned(value: Option<string>) | Raised(error: Error)

  /** The interpreter state the loader reads and changes. */
  datatype State = State(
    defined: set<string>,
    loaded: set<string>,
    checkingName: Option<string>,
    preLoadingController: bool)

  datatype AppDir = Models | Controllers | Lib

  /** An existing candidate file and the directory it was found in. */
  datatype Hit = Hit(dir: AppDir, file: string)

  function DirName(d: AppDir): string {
    match d
    case Models => "models"
    case Controllers => "controllers"
    case Lib => "lib"
  }

  /** `"#{self}::#{name}" unless self == Object` (line 36): the name under
      the receiver's namespace. */
  function Qualify(recv: Receiver, name: string): (q: string)
    ensures |q| >= |name| && q[|q| - |name|..] == name
    ensures recv.NamedModule? ==> StartsWith(q, recv.name + "::")
  {
    match recv
    case ObjectClass => name
    case NamedModule(m) => m + "::" + name
  }

  /** The NameError of _raise_uninitialized_constant_error without a message. */
  function Uninitialized(name: string): (e: Error)
    ensures e.NameError? && e.name == name
    ensures StartsWith(e.message, "uninitialized constant ")
    ensures |e.message| >= |name| && e.message[|e.message| - |name|..] == name
  {
    NameError("uninitialized constant " + name, name)
  }

  /** The NameError raised when a required file did not define its constant. */
  function ExpectedIn(name: string, file: string): (e: Error)
    ensures e.NameError? && e.name == name
    ensures StartsWith(e.message, Uninitialized(name).message + " (expected it to be defined in: ")
    ensures |e.message| > |file| && e.message[|e.message| - |file| - 1..] == file + ")"
  {
    NameError("uninitialized constant " + name + " (expected it to be defined in: " + file + ")", name)
  }

  /** The first plugin, in order, that owns `namespace`. */
  function FirstPlugin(plugins: seq<Component>, namespace: string): (r: Option<Component>)
    ensures r.None? <==> forall i :: 0 <= i < |plugins| ==> plugins[i].namespace != namespace
    ensures r.Some? ==> r.value.namespace == namespace && exists i :: (
      0 <= i < |plugins| && plugins[i] == r.value && forall j :: 0 <= j < i ==> plugins[j].namespace != namespace)
  {
    if |plugins| == 0 then None
    else if plugins[0].namespace == namespace then Some(plugins[0])
    else
      var r := FirstPlugin(plugins[1..], namespace);
      if r.Some? then
        var i :| 0 <= i < |plugins[1..]| && plugins[1..][i] == r.value && r.value.namespace == namespace
          && forall j :: 0 <= j < i ==> plugins[1..][j].namespace != namespace;
        assert plugins[i + 1] == r.value;
        r
      else r
  }

  /** _get_app_from_namespace (lines 94-104): the application if it owns the
      namespace, otherwise the first plugin that does, otherwise nil. */
  function AppFromNamespace(reg: Registry, namespace: string): (r: Option<Component>)
    ensures r.None? <==> (reg.app.namespace != namespace
      && forall i :: 0 <= i < |reg.plugins| ==> reg.plugins[i].namespace != namespace)
    ensures r.Some? ==> r.value.namespace == namespace
    ensures reg.app.namespace == namespace ==> r == Some(reg.app)
    ensures r.Some? && r.value != reg.app ==> exists i :: (0 <= i < |reg.plugins| && reg.plugins[i] == r.value
      && forall j :: 0 <= j < i ==> reg.plugins[j].namespace != namespace)
  {
    if reg.app.namespace == namespace then Some(reg.app) else FirstPlugin(reg.plugins, namespace)
  }

  /** `names.map(&:underscore)` */
  function Underscored(w: World, names: seq<string>): (r: seq<string>)
    ensures |r| == |names|
  {
    seq(|names|, i requires 0 <= i < |names| => w.underscore(names[i]))
  }

  /** `File.join(*names.map(&:underscore)) + '.rb'` (lines 41 and 57): a Ruby
      file name. An empty segment list gives just ".rb". */
  function CandidatePath(w: World, names: seq<string>): (p: string)
    ensures |p| >= 3 && p[|p| - 3..] == ".rb"
  {
    Join(Underscored(w, names), "/") + ".rb"
  }

  /** `File.join(app.root, 'app', dir, path)`, for a root without a trailing
      separator. */
  function AppFile(root: string, d: AppDir, path: string): string {
    root + "/app/" + DirName(d) + "/" + path
  }

  /** A candidate file lies under `<root>/app/` and ends with `/<path>`; the
      three directories give three different files. */
  lemma AppFileShape(root: string, d: AppDir, path: string)
    ensures var f := AppFile(root, d, path);
      StartsWith(f, root + "/app/") && |f| > |root| + 5 + |path| && f[|f| - |path| - 1..] == "/" + path
    ensures forall e: AppDir :: e != d ==> AppFile(root, e, path) != AppFile(root, d, path)
  {
    // The three directory names differ in length, and so do the files.
    forall e: AppDir | e != d ensures AppFile(root, e, path) != AppFile(root, d, path) {
      assert |DirName(e)| != |DirName(d)|;
    }
  }

  /** The `if File.exist? ... elsif ... elsif` chain of one pass: models, then
      controllers, then lib. A hit is an existing file of its directory, and
      every directory before it in that order has no such file. */
  function Probe(w: World, root: string, path: string): (r: Option<Hit>)
    ensures r.Some? ==> r.value.file == AppFile(root, r.value.dir, path) && r.value.file in w.files
    ensures r.None? <==> forall d: AppDir :: AppFile(root, d, path) !in w.files
    ensures r.Some? && r.value.dir != Models ==> AppFile(root, Models, path) !in w.files
    ensures r.Some? && r.value.dir == Lib ==> AppFile(root, Controllers, path) !in w.files
  {
    if AppFile(root, Models, path) in w.files then Some(Hit(Models, AppFile(root, Models, path)))
    else if AppFile(root, Controllers, path) in w.files then Some(Hit(Controllers, AppFile(root, Controllers, path)))
    else if AppFile(root, Lib, path) in w.files then Some(Hit(Lib, AppFile(root, Lib, path)))
    else None
  }

  /** The constants requiring `file` defines. */
  function Defines(w: World, file: string): set<string> {
    if file in w.defines then w.defines[file] else {}
  }

  /** Kernel#require: a file is executed only the first time it is required;
      afterwards it counts as required and what it defines is defined. */
  function Require(w: World, st: State, file: string): (r: State)
    ensures file in r.loaded && st.loaded <= r.loaded && st.defined <= r.defined
    ensures file !in st.loaded ==> Defines(w, file) <= r.defined
    ensures file in st.loaded ==> r == st
    ensures r.checkingName == st.checkingName && r.preLoadingController == st.preLoadingController
  {
    if file in st.loaded then st
    else st.(loaded := st.loaded + {file}, defined := st.defined + Defines(w, file))
  }

  /** `eval(name)` on the receiver: the constant if it is defined, otherwise
      the receiver's const_missing. */
  function Eval(w: World, recv: Receiver, st: State, name: string, fuel: nat): (r: (Outcome, State))
    ensures st.defined <= r.1.defined && st.loaded <= r.1.loaded
    ensures r.0.Returned? && r.0.value.Some? ==> r.0.value.value == Qualify(recv, name) && r.0.value.value in r.1.defined
    decreases fuel, if st.checkingName == Some(Qualify(recv, name)) then 3 else 11
  {
    var q := Qualify(recv, name);
    if q in st.defined then (Returned(Some(q)), st) else ConstMissing(w, recv, st, name, fuel)
  }

  /** ModuleConstMissing#const_missing (lines 34-79): the body, then the
      `ensure` clause, which clears @pre_loading_controller on every exit. */
  function ConstMissing(w: World, recv: Receiver, st: State, name: string, fuel: nat): (r: (Outcome, State))
    ensures st.defined <= r.1.defined && st.loaded <= r.1.loaded
    ensures r.0.Returned? && r.0.value.Some? ==> r.0.value.value == Qualify(recv, name) && r.0.value.value in r.1.defined
    ensures !r.1.preLoadingController
    decreases fuel, if st.checkingName == Some(Qualify(recv, name)) then 2 else 10
  {
    var body := ConstMissingBody(w, recv, st, name, fuel);
    (body.0, body.1.(preLoadingController := false))
  }

  /** The body of const_missing, lines 35-76. */
  function ConstMissingBody(w: World, recv: Receiver, st: State, name: string, fuel: nat): (r: (Outcome, State))
    ensures st.defined <= r.1.defined && st.loaded <= r.1.loaded
    ensures r.0.Returned? && r.0.value.Some? ==> r.0.value.value == Qualify(recv, name) && r.0.value.value in r.1.defined
    decreases fuel, if st.checkingName == Some(Qualify(recv, name)) then 1 else 9
  {
    if !w.inAppWorkspace then (Raised(Uninitialized(name)), st)
    else if recv.ObjectClass? then
      // On Object the name stays a Symbol: the guard compares it with a
      // String or nil and fails, and Symbol has no `split`.
      (Raised(NoMethodError("split", name)), st)
    else
      var q := Qualify(recv, name);
      if st.checkingName == Some(q) then (Returned(None), st)
      else
        var names := Split(q, "::");
        match AppFromNamespace(w.registry, names[0])
        case None => (Raised(Uninitialized(q)), st)
        case Some(app) =>
          match Probe(w, app.root, CandidatePath(w, names))
          case Some(hit) => Load(w, recv, st, name, hit, fuel)
          case None =>
            match Probe(w, app.root, CandidatePath(w, names[1..]))
            case Some(hit) => Load(w, recv, st, name, hit, fuel)
            case None =>
              if st.preLoadingController then (Returned(None), st)
              else (Raised(Uninitialized(q)), st)
  }

  /** What one pass does with an existing candidate (lines 43-52 and 59-68):
      require it; after a model, set @pre_loading_controller and evaluate
      `<name>Controller`, letting only a raised error replace the model. At
      fuel 0 the controller probe is not made. */
  function Load(w: World, recv: Receiver, st: State, name: string, hit: Hit, fuel: nat): (r: (Outcome, State))
    ensures st.defined <= r.1.defined && st.loaded <= r.1.loaded
    ensures r.0.Returned? && r.0.value.Some? ==> r.0.value.value == Qualify(recv, name) && r.0.value.value in r.1.defined
    ensures hit.file in r.1.loaded
    decreases fuel, 5
  {
    var model := RequireFile(w, recv, st, name, hit.file, fuel);
    if hit.dir != Models || model.0.Raised? then model
    else
      var s := model.1.(preLoadingController := true);
      if fuel == 0 then (model.0, s)
      else
        var probe := Eval(w, recv, s, name + "Controller", fuel - 1);
        if probe.0.Raised? then probe else (model.0, probe.1)
  }

  /** _require_file (lines 82-91): require the file; unless probing for a
      controller, evaluate the constant with @_checking_name set to it, so
      that a file which did not define it ends in a NameError naming the file
      instead of another search. */
  function RequireFile(w: World, recv: Receiver, st: State, name: string, file: string, fuel: nat): (r: (Outcome, State))
    ensures st.defined <= r.1.defined && st.loaded <= r.1.loaded
    ensures r.0.Returned? && r.0.value.Some? ==> r.0.value.value == Qualify(recv, name) && r.0.value.value in r.1.defined
    ensures file in r.1.loaded
    ensures r.0 == Returned(None) ==> st.preLoadingController
    decreases fuel, 4
  {
    var s1 := Require(w, st, file);
    if s1.preLoadingController then (Returned(None), s1)
    else
      var q := Qualify(recv, name);
      var lookup := Eval(w, recv, s1.(checkingName := Some(q)), name, fuel);
      if lookup.0.Raised? then lookup
      else
        var s2 := lookup.1.(checkingName := None);
        if lookup.0.value.Some? then (lookup.0, s2) else (Raised(ExpectedIn(q, file)), s2)
  }
}
