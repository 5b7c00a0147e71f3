/**
 * ModuleConstMissing's instance methods as they run: on a module object
 * whose instance variables @_checking_name and @pre_loading_controller the
 * methods set and reset, over the interpreter's defined constants and
 * required files. Each method is proved to do exactly what the function of
 * the same name in Resolution describes, so the properties proved there
 * hold of these methods.
 */
module ConstLoader {
  import opened Wrappers
  import opened Text
  import opened Resolution

  class HookedModule {
    /** What the methods observe but never change. */
    const world: World
    /** This module: Object or a named module. */
    const receiver: Receiver

    /** The constants defined so far, by qualified name. */
    var defined: set<string>
    /** The files required so far ($LOADED_FEATURES). */
    var loaded: set<string>
    /** @_checking_name */
    var checkingName: Option<string>
    /** @pre_loading_controller */
    var preLoadingController: bool

    function Snapshot(): State
      reads this
    {
      State(defined, loaded, checkingName, preLoadingController)
    }

    /** A module with both instance variables unset. */
    constructor (world: World, receiver: Receiver, defined: set<string>, loaded: set<string>)
      ensures this.world == world && this.receiver == receiver
      ensures Snapshot() == State(defined, loaded, None, false)
    {
      this.world := world;
      this.receiver := receiver;
      this.defined := defined;
      this.loaded := loaded;
      checkingName := None;
      preLoadingController := false;
    }

    /** const_missing (lines 34-79): the body, then the `ensure` clause. */
    method ConstMissing(name: string, fuel: nat) returns (r: Outcome)
      modifies this
      decreases fuel, if checkingName == Some(Qualify(receiver, name)) then 2 else 10
      ensures (r, Snapshot()) == Resolution.ConstMissing(world, receiver, old(Snapshot()), name, fuel)
      ensures !preLoadingController
    {
      r := ConstMissingBody(name, fuel);
      preLoadingController := false;
    }

    /** Lines 35-76. */
    method ConstMissingBody(name: string, fuel: nat) returns (r: Outcome)
      modifies this
      decreases fuel, if checkingName == Some(Qualify(receiver, name)) then 1 else 9
      ensures (r, Snapshot()) == Resolution.ConstMissingBody(world, receiver, old(Snapshot()), name, fuel)
    {
      if !world.inAppWorkspace {
        return Raised(Uninitialized(name));
      }
      if receiver.ObjectClass? {
        // The name is still a Symbol here, and Symbol has no `split`.
        return Raised(NoMethodError("split", name));
      }
      var q := Qualify(receiver, name);
      if checkingName == Some(q) {
        return Returned(None);
      }
      var names := Split(q, "::");
      var app := AppFromNamespace(world.registry, names[0]);
      if app.None? {
        return Raised(Uninitialized(q));
      }
      var hit := Probe(world, app.value.root, CandidatePath(world, names));
      if hit.Some? {
        r := Load(name, hit.value, fuel);
        return;
      }
      // Try again without the top-level namespace directory
      names := names[1..];
      hit := Probe(world, app.value.root, CandidatePath(world, names));
      if hit.Some? {
        r := Load(name, hit.value, fuel);
        return;
      }
      if preLoadingController {
        return Returned(None);
      }
      return Raised(Uninitialized(q));
    }

    /** Lines 43-52 and 59-68 once a candidate exists. */
    method Load(name: string, hit: Hit, fuel: nat) returns (r: Outcome)
      modifies this
      decreases fuel, 5
      ensures (r, Snapshot()) == Resolution.Load(world, receiver, old(Snapshot()), name, hit, fuel)
    {
      r := RequireFile(name, hit.file, fuel);
      if hit.dir != Models || r.Raised? {
        return;
      }
      preLoadingController := true;
      if fuel > 0 {
        var probe := Eval(name + "Controller", fuel - 1);
        if probe.Raised? {
          r := probe;
        }
      }
    }

    /** _require_file (lines 82-91). */
    method RequireFile(name: string, file: string, fuel: nat) returns (r: Outcome)
      modifies this
      decreases fuel, 4
      ensures (r, Snapshot()) == Resolution.RequireFile(world, receiver, old(Snapshot()), name, file, fuel)
    {
      Require(file);
      if preLoadingController {
        return Returned(None);
      }
      checkingName := Some(Qualify(receiver, name));
      var c := Eval(name, fuel);
      if c.Raised? {
        return c;
      }
      checkingName := None;
      if c.value.Some? {
        return c;
      }
      return Raised(ExpectedIn(Qualify(receiver, name), file));
    }

    /** `eval` of the constant `name` on this module. */
    method Eval(name: string, fuel: nat) returns (r: Outcome)
      modifies this
      decreases fuel, if checkingName == Some(Qualify(receiver, name)) then 3 else 11
      ensures (r, Snapshot()) == Resolution.Eval(world, receiver, old(Snapshot()), name, fuel)
    {
      var q := Qualify(receiver, name);
      if q in defined {
        return Returned(Some(q));
      }
      r := ConstMissing(name, fuel);
    }

    /** Kernel#require */
    method Require(file: string)
      modifies this
      ensures Snapshot() == Resolution.Require(world, old(Snapshot()), file)
    {
      if file !in loaded {
        loaded := loaded + {file};
        defined := defined + Defines(world, file);
      }
    }
  }
}
