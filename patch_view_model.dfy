/** The view model of one patch in the session: the patch, whether it was
    applied in the ROM as loaded, and whether the user wants it applied on
    the next save. */
module PatchViewModels {
  import VariableWidthFontPatch

  /** What a save does with a patch. */
  datatype SaveAction = ApplyPatch | RevertPatch | Untouched

  /** The save loop's choice: apply what is enabled, revert what was enabled
      at load and no longer is, leave the rest alone. */
  function ActionFor(isEnabled: bool, wasEnabled: bool): (a: SaveAction)
    ensures a == ApplyPatch <==> isEnabled
    ensures a == RevertPatch <==> !isEnabled && wasEnabled
  {
    if isEnabled then ApplyPatch
    else if wasEnabled then RevertPatch
    else Untouched
  }

  /** A patch the user did not toggle is re-applied when it was enabled at
      load and neither applied nor reverted otherwise. */
  lemma UntoggledAction(wasEnabled: bool)
    ensures ActionFor(wasEnabled, wasEnabled) == if wasEnabled then ApplyPatch else Untouched
  {
  }

  class PatchViewModel {
    const patch: VariableWidthFontPatch.Patch
    const wasEnabled: bool
    var isEnabled: bool

    /** A new view model starts with the patch enabled exactly when it was
        enabled in the loaded ROM. */
    constructor (patch: VariableWidthFontPatch.Patch, wasEnabled: bool)
      ensures this.patch == patch && this.wasEnabled == wasEnabled && isEnabled == wasEnabled
    {
      this.patch := patch;
      this.wasEnabled := wasEnabled;
      isEnabled := wasEnabled;
    }

    /** The IsEnabled setter: the only state a view model changes. */
    method SetEnabled(v: bool)
      modifies this`isEnabled
      ensures isEnabled == v
    {
      isEnabled := v;
    }
  }
}
