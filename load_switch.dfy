/**
 * The switch that installs and removes the loader: including
 * ModuleConstMissing into Module (enable_origen_load_extensions!) runs its
 * append_features, which saves Module's own const_missing in @_const_missing
 * and removes it, so that lookups reach the loader; exclude_from
 * (disable_origen_load_extensions!) defines the saved method on Module again
 * and clears the slot. The module stays among Module's ancestors — Ruby has
 * no way to take it out — but Module's own method now comes first.
 */
module LoadSwitch {
  import opened Wrappers

  /** A const_missing implementation: Module's built-in one, or the loader's. */
  datatype Impl = Builtin | Loader

  /** The module the loader is installed into (Module). */
  class Base {
    /** The const_missing defined on the base itself, if any. */
    var own: Option<Impl>
    /** @_const_missing: the method saved when the loader was installed. */
    var saved: Option<Impl>
    /** Whether ModuleConstMissing is among the base's ancestors. */
    var includesLoader: bool

    /** A method is saved exactly while the base has none of its own, and only
        once the loader has been included. */
    ghost predicate Valid()
      reads this
    {
      (saved.None? <==> own.Some?) && (saved.Some? ==> includesLoader)
    }

    /** The const_missing a failed lookup reaches: the base's own method
        first, then the included loader's. */
    function Active(): Option<Impl>
      reads this
    {
      if own.Some? then own else if includesLoader then Some(Loader) else None
    }

    /** Module before the loader is installed. */
    constructor ()
      ensures Valid() && saved.None? && !includesLoader
      ensures Active() == Some(Builtin)
    {
      own := Some(Builtin);
      saved := None;
      includesLoader := false;
    }

    /** append_features (lines 8-16): a no-op while a method is saved;
        otherwise save the active const_missing, remove the base's own, and
        include the loader. Either way the loader is then active. */
    method AppendFeatures()
      requires Valid()
      modifies this
      ensures Valid()
      ensures Active() == Some(Loader)
      ensures old(saved).Some? ==> own == old(own) && saved == old(saved) && includesLoader == old(includesLoader)
      ensures old(saved).None? ==> saved == old(Active()) && own.None? && includesLoader
    {
      if saved.Some? {
        return;
      }
      saved := Active();
      own := None;
      includesLoader := true;
    }

    /** exclude_from (lines 18-23): define the saved method on the base again
        and clear the slot, which makes the saved method the active one. With
        nothing saved, define_method is handed nil and raises a TypeError,
        and nothing changes. */
    method ExcludeFrom() returns (raised: bool)
      requires Valid()
      modifies this
      ensures Valid()
      ensures raised <==> old(saved).None?
      ensures raised ==> own == old(own) && saved == old(saved) && includesLoader == old(includesLoader)
      ensures !raised ==> own == old(saved) && saved.None? && includesLoader == old(includesLoader)
      ensures !raised ==> Active() == old(saved)
    {
      if saved.None? {
        return true;
      }
      own := saved;
      saved := None;
      raised := false;
    }
  }

  /** Enabling twice and then disabling once leaves Module with the
      const_missing it started with and nothing saved. */
  method EnableTwiceDisableOnce(b: Base)
    requires b.Valid() && b.saved.None?
    modifies b
    ensures b.Valid() && b.saved.None?
    ensures b.Active() == old(b.Active())
  {
    b.AppendFeatures();
    b.AppendFeatures();
    var raised := b.ExcludeFrom();
    assert !raised;
  }
}
