/** `components/theme/ThemeActions.tsx`: whether the configuration differs
    from the defaults, which enables the reset button, and what the reset
    dialog lists. */
module ThemeActions {
  import opened Wrappers
  import opened ThemeTypes
  import opened ThemeContext

  /** `hasCustomizations`: any mode but `system`, any preset value but
      `"default"` (an absent one included), a custom colour map even if
      empty, or at least one custom preset. */
  predicate HasCustomizations(c: ThemeConfig) {
    c.mode != System || c.preset != Some("default") || c.customLight.Some? || c.customDark.Some?
    || (c.customPresets.Some? && |c.customPresets.value| > 0)
  }

  /** The reset button's `disabled` property. */
  predicate ResetDisabled(c: ThemeConfig) {
    !HasCustomizations(c)
  }

  /** The items of the reset dialog's list. */
  datatype ResetItem = ModeItem | PresetItem | ColorsItem | PresetsItem

  /** The dialog's list, in the order it is written. */
  function DialogItems(c: ThemeConfig): (r: seq<ResetItem>)
    ensures ModeItem in r <==> c.mode != System
    ensures PresetItem in r <==> c.preset != Some("default")
    ensures ColorsItem in r <==> c.customLight.Some? || c.customDark.Some?
    ensures PresetsItem in r <==> c.customPresets.Some? && |c.customPresets.value| > 0
    ensures forall i, j :: 0 <= i < j < |r| ==> r[i] != r[j]
  {
    (if c.mode != System then [ModeItem] else [])
    + (if c.preset != Some("default") then [PresetItem] else [])
    + (if c.customLight.Some? || c.customDark.Some? then [ColorsItem] else [])
    + (if c.customPresets.Some? && |c.customPresets.value| > 0 then [PresetsItem] else [])
  }

  /** The dialog lists something exactly when the reset button is enabled. */
  lemma DialogMatchesButton(c: ThemeConfig)
    ensures DialogItems(c) == [] <==> ResetDisabled(c)
  {
    if !ResetDisabled(c) {
      if c.mode != System { assert ModeItem in DialogItems(c); }
      else if c.preset != Some("default") { assert PresetItem in DialogItems(c); }
      else if c.customLight.Some? || c.customDark.Some? { assert ColorsItem in DialogItems(c); }
      else { assert PresetsItem in DialogItems(c); }
    }
  }

  /** After `resetToDefaults` there is nothing left to reset. */
  lemma ResetClears()
    ensures !HasCustomizations(ResetToDefaults())
    ensures DialogItems(ResetToDefaults()) == []
  {
  }

  /** Without customisations the colours in use are the defaults and the
      preset list is the built-in one. */
  lemma UncustomizedIsDefault(c: ThemeConfig, mode: Scheme, k: ColorKey)
    requires !HasCustomizations(c)
    ensures GetActiveColors(ThemePresets, c, mode)(k) == if mode == Light then DefaultLight(k) else DefaultDark(k)
    ensures AllPresets(ThemePresets, c) == ThemePresets
  {
    DefaultSelected(c, mode, k);
    assert CustomPresets(c) == [];
  }

  /** Every change the theme settings make by hand enables the reset button. */
  lemma ChangesEnableReset(c: ThemeConfig, mode: Scheme, colors: Colors, draft: PresetDraft, id: string)
    ensures HasCustomizations(UpdateThemeMode(c, mode))
    ensures HasCustomizations(UpdateCustomColors(c, mode, colors))
    ensures HasCustomizations(CreateCustomPreset(c, draft, id))
    ensures id != "default" ==> HasCustomizations(UpdatePreset(c, id))
  {
  }
}
