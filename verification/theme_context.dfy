/** The configuration transforms of `lib/services/themeContext.tsx`. Each
    React callback becomes a function from the current `ThemeConfig` to the
    next; saving the result, `localStorage` and the media query are the
    caller's business and enter as parameters. The functions that consult
    the built-in presets take them as `builtIn`, which is `THEME_PRESETS`
    (`ThemeTypes.ThemePresets`) in the application; the lemmas that depend
    on its contents say so by passing `ThemePresets`. */
module ThemeContext {
  import opened Wrappers
  import opened ThemeTypes
  import ThemeLib
  import ThemeUtils

  /** The two modes a palette is chosen for: `"light" | "dark"`. */
  type Scheme = m: ThemeMode | m != System witness Light

  /** `{ mode: "system", preset: "default" }` */
  const InitialConfig: ThemeConfig := ThemeConfig(System, None, None, Some("default"), None)

  /** `loadInitialTheme()`: `hasWindow` says whether `window` exists,
      `stored` is the `app.theme` item (`None` when missing or when reading
      throws), and `parse` stands for `JSON.parse` (`None` when it throws). */
  function LoadInitialTheme(hasWindow: bool, stored: Option<string>, parse: string -> Option<ThemeConfig>): (r: ThemeConfig)
    ensures hasWindow && stored.Some? && stored.value != "" && parse(stored.value).Some? ==> r == parse(stored.value).value
    ensures !(hasWindow && stored.Some? && stored.value != "" && parse(stored.value).Some?) ==> r == InitialConfig
  {
    if !hasWindow then InitialConfig
    else if stored.Some? && stored.value != "" then
      match parse(stored.value)
      case Some(c) => c
      case None => InitialConfig
    else InitialConfig
  }

  /** The palette mode in use: light without a window, the system
      preference in `system` mode, otherwise the configured mode. */
  function ActiveMode(mode: ThemeMode, hasWindow: bool, prefersDark: bool): (r: Scheme)
    ensures r == Dark <==> hasWindow && (mode == Dark || (mode == System && prefersDark))
  {
    if !hasWindow then Light
    else if mode == System then (if prefersDark then Dark else Light)
    else if mode == Dark then Dark else Light
  }

  /** `updateThemeMode(mode)` */
  function UpdateThemeMode(c: ThemeConfig, mode: ThemeMode): (r: ThemeConfig)
    ensures r.mode == mode
    ensures r.preset == c.preset && r.customLight == c.customLight && r.customDark == c.customDark
    ensures r.customPresets == c.customPresets
  {
    c.(mode := mode)
  }

  /** `updatePreset(presetId)`: switching presets drops the custom colours. */
  function UpdatePreset(c: ThemeConfig, presetId: string): (r: ThemeConfig)
    ensures r.preset == Some(presetId) && r.customLight == None && r.customDark == None
    ensures r.mode == c.mode && r.customPresets == c.customPresets
  {
    c.(preset := Some(presetId), customLight := None, customDark := None)
  }

  /** The custom colours of a mode (`config.customLight` or `config.customDark`). */
  function Custom(c: ThemeConfig, mode: Scheme): Option<Colors> {
    if mode == Light then c.customLight else c.customDark
  }

  /** `{ ...stored, ...colors }`, where spreading `undefined` adds nothing. */
  function Merge(stored: Option<Colors>, colors: Colors): (r: Colors)
    ensures forall k :: k in r <==> k in colors || (stored.Some? && k in stored.value)
    ensures forall k :: k in colors ==> r[k] == colors[k]
    ensures forall k :: k !in colors && stored.Some? && k in stored.value ==> r[k] == stored.value[k]
  {
    if stored.None? then colors else stored.value + colors
  }

  /** `updateCustomColors(mode, colors)`: merges into that mode's map only. */
  function UpdateCustomColors(c: ThemeConfig, mode: Scheme, colors: Colors): (r: ThemeConfig)
    ensures Custom(r, mode) == Some(Merge(Custom(c, mode), colors))
    ensures Custom(r, if mode == Light then Dark else Light) == Custom(c, if mode == Light then Dark else Light)
    ensures r.mode == c.mode && r.preset == c.preset && r.customPresets == c.customPresets
  {
    if mode == Light then c.(customLight := Some(Merge(c.customLight, colors)))
    else c.(customDark := Some(Merge(c.customDark, colors)))
  }

  /** `resetToDefaults()` */
  function ResetToDefaults(): (r: ThemeConfig)
    ensures r.mode == System && r.preset == Some("default")
    ensures r.customLight.None? && r.customDark.None? && r.customPresets.None?
  {
    InitialConfig
  }

  /** `config.customPresets || []` */
  function CustomPresets(c: ThemeConfig): seq<ThemePreset> {
    if c.customPresets.Some? then c.customPresets.value else []
  }

  /** `getAllPresets()`: the built-in presets, then the custom ones. */
  function AllPresets(builtIn: seq<ThemePreset>, c: ThemeConfig): (r: seq<ThemePreset>)
    ensures |r| == |builtIn| + |CustomPresets(c)|
    ensures forall i :: 0 <= i < |builtIn| ==> r[i] == builtIn[i]
    ensures forall i :: 0 <= i < |CustomPresets(c)| ==> r[|builtIn| + i] == CustomPresets(c)[i]
  {
    builtIn + CustomPresets(c)
  }

  /** `ps.find(p => p.id === id)`: the first preset with the id. */
  function FindPreset(ps: seq<ThemePreset>, id: string): (r: Option<ThemePreset>)
    ensures r.Some? ==> r.value.id == id
    ensures r.None? <==> forall j :: 0 <= j < |ps| ==> ps[j].id != id
  {
    if |ps| == 0 then None
    else if ps[0].id == id then Some(ps[0])
    else FindPreset(ps[1..], id)
  }

  /** `config.preset || "default"`: an absent or empty preset is the default. */
  function SelectedId(c: ThemeConfig): string {
    if c.preset.Some? && c.preset.value != "" then c.preset.value else "default"
  }

  /** The preset `getActiveColors` starts from: the first with the selected
      id, or the first built-in preset when there is none. */
  function ActivePreset(builtIn: seq<ThemePreset>, c: ThemeConfig): ThemePreset
    requires |builtIn| > 0
  {
    FindPreset(builtIn + CustomPresets(c), SelectedId(c)).GetOr(builtIn[0])
  }

  function Base(p: ThemePreset, mode: Scheme): Palette {
    if mode == Light then p.light else p.dark
  }

  /** `getActiveColors(mode)`: the active preset's palette for the mode,
      overlaid with that mode's custom colours. */
  function GetActiveColors(builtIn: seq<ThemePreset>, c: ThemeConfig, mode: Scheme): (r: Palette)
    requires |builtIn| > 0
    ensures forall k :: Custom(c, mode).Some? && k in Custom(c, mode).value ==> r(k) == Custom(c, mode).value[k]
    ensures forall k :: !(Custom(c, mode).Some? && k in Custom(c, mode).value) ==> r(k) == Base(ActivePreset(builtIn, c), mode)(k)
  {
    var custom := Custom(c, mode);
    Spread(Base(ActivePreset(builtIn, c), mode), if custom.Some? then custom.value else map[])
  }

  /** The fields `createCustomPreset` is given (`Omit<ThemePreset, "id" | "isCustom">`). */
  datatype PresetDraft = PresetDraft(name: string, description: string, light: Palette, dark: Palette)

  /** `createCustomPreset(preset)`: `id` is the `generatePresetId()` result. */
  function CreateCustomPreset(c: ThemeConfig, draft: PresetDraft, id: string): (r: ThemeConfig)
    ensures r.customPresets.Some? && |r.customPresets.value| == |CustomPresets(c)| + 1
    ensures r.customPresets.value[..|CustomPresets(c)|] == CustomPresets(c)
    ensures var p := r.customPresets.value[|CustomPresets(c)|];
      p.id == id && p.isCustom == Some(true) && p.name == draft.name && p.description == draft.description
    ensures var p := r.customPresets.value[|CustomPresets(c)|];
      p.light == draft.light && p.dark == draft.dark
    ensures r.mode == c.mode && r.preset == c.preset && r.customLight == c.customLight && r.customDark == c.customDark
  {
    var p := ThemePreset(id, draft.name, draft.description, draft.light, draft.dark, Some(true));
    c.(customPresets := Some(CustomPresets(c) + [p]))
  }

  /** `Partial<Omit<ThemePreset, "id" | "isCustom">>`: `None` fields are absent. */
  datatype PresetUpdate = PresetUpdate(name: Option<string>, description: Option<string>,
                                       light: Option<Palette>, dark: Option<Palette>)

  /** `{ ...p, ...updates }` */
  function Apply(p: ThemePreset, u: PresetUpdate): (r: ThemePreset)
    ensures r.id == p.id && r.isCustom == p.isCustom
    ensures r.name == u.name.GetOr(p.name) && r.description == u.description.GetOr(p.description)
    ensures r.light == u.light.GetOr(p.light) && r.dark == u.dark.GetOr(p.dark)
  {
    p.(name := u.name.GetOr(p.name), description := u.description.GetOr(p.description),
       light := u.light.GetOr(p.light), dark := u.dark.GetOr(p.dark))
  }

  /** `customPresets.map(p => p.id === id ? { ...p, ...updates } : p)` */
  function ApplyWhere(ps: seq<ThemePreset>, id: string, u: PresetUpdate): (r: seq<ThemePreset>)
    ensures |r| == |ps|
    ensures forall i :: 0 <= i < |ps| ==> r[i] == if ps[i].id == id then Apply(ps[i], u) else ps[i]
  {
    if |ps| == 0 then [] else [if ps[0].id == id then Apply(ps[0], u) else ps[0]] + ApplyWhere(ps[1..], id, u)
  }

  /** `updateCustomPreset(id, updates)` */
  function UpdateCustomPreset(c: ThemeConfig, id: string, u: PresetUpdate): (r: ThemeConfig)
    ensures r.customPresets == Some(ApplyWhere(CustomPresets(c), id, u))
    ensures r.mode == c.mode && r.preset == c.preset && r.customLight == c.customLight && r.customDark == c.customDark
  {
    c.(customPresets := Some(ApplyWhere(CustomPresets(c), id, u)))
  }

  /** `customPresets.filter(p => p.id !== id)` */
  function WithoutId(ps: seq<ThemePreset>, id: string): (r: seq<ThemePreset>)
    ensures |r| <= |ps|
    ensures forall i :: 0 <= i < |r| ==> r[i].id != id
  {
    if |ps| == 0 then []
    else if ps[0].id == id then WithoutId(ps[1..], id)
    else [ps[0]] + WithoutId(ps[1..], id)
  }

  /** `deleteCustomPreset(id)`: the active preset falls back to `default`
      when it is the one deleted. */
  function DeleteCustomPreset(c: ThemeConfig, id: string): (r: ThemeConfig)
    ensures r.customPresets == Some(WithoutId(CustomPresets(c), id))
    ensures r.preset == if c.preset == Some(id) then Some("default") else c.preset
    ensures r.mode == c.mode && r.customLight == c.customLight && r.customDark == c.customDark
  {
    c.(customPresets := Some(WithoutId(CustomPresets(c), id)),
       preset := if c.preset == Some(id) then Some("default") else c.preset)
  }

  /** `saveCurrentAsPreset(name, description)`: a custom preset holding the
      colours in use for both modes. */
  function SaveCurrentAsPreset(builtIn: seq<ThemePreset>, c: ThemeConfig, name: string, description: string, id: string): ThemeConfig
    requires |builtIn| > 0
  {
    var draft := PresetDraft(name, description, GetActiveColors(builtIn, c, Light), GetActiveColors(builtIn, c, Dark));
    CreateCustomPreset(c, draft, id)
  }

  // ---- finding presets ----

  /** `find` over a concatenation looks in the second part only when the
      first has no match. */
  lemma {:induction false} FindAppend(a: seq<ThemePreset>, b: seq<ThemePreset>, id: string)
    ensures FindPreset(a + b, id) == if FindPreset(a, id).Some? then FindPreset(a, id) else FindPreset(b, id)
  {
    if |a| > 0 {
      assert (a + b)[0] == a[0];
      assert (a + b)[1..] == a[1..] + b;
      FindAppend(a[1..], b, id);
    } else {
      assert a + b == b;
    }
  }

  /** The preset at `i` is found when no earlier preset has its id. */
  lemma {:induction false} FindFirst(ps: seq<ThemePreset>, i: nat)
    requires i < |ps| && forall j :: 0 <= j < i ==> ps[j].id != ps[i].id
    ensures FindPreset(ps, ps[i].id) == Some(ps[i])
  {
    if i > 0 {
      assert ps[0].id != ps[i].id;
      assert ps[1..][i - 1] == ps[i];
      FindFirst(ps[1..], i - 1);
    }
  }

  /** Removing the presets with one id does not change what is found for
      another. */
  lemma {:induction false} FindWithout(ps: seq<ThemePreset>, id: string, other: string)
    requires other != id
    ensures FindPreset(WithoutId(ps, id), other) == FindPreset(ps, other)
  {
    if |ps| > 0 {
      FindWithout(ps[1..], id, other);
      if ps[0].id != id {
        assert ([ps[0]] + WithoutId(ps[1..], id))[1..] == WithoutId(ps[1..], id);
      }
    }
  }

  /** Updating the presets with one id does not change what is found for
      another, and the first preset with that id is found updated. */
  lemma {:induction false} FindApplied(ps: seq<ThemePreset>, id: string, u: PresetUpdate, other: string)
    ensures other != id ==> FindPreset(ApplyWhere(ps, id, u), other) == FindPreset(ps, other)
    ensures FindPreset(ps, id).Some? ==> FindPreset(ApplyWhere(ps, id, u), id) == Some(Apply(FindPreset(ps, id).value, u))
  {
    if |ps| > 0 {
      FindApplied(ps[1..], id, u, other);
      var head := if ps[0].id == id then Apply(ps[0], u) else ps[0];
      assert ApplyWhere(ps, id, u)[1..] == ApplyWhere(ps[1..], id, u);
      assert ApplyWhere(ps, id, u)[0] == head;
    }
  }

  // ---- properties of the active colours ----

  /** Whatever else the configuration holds, the selected id `default` picks
      the built-in default palettes: the built-in presets come first. */
  lemma DefaultSelected(c: ThemeConfig, mode: Scheme, k: ColorKey)
    requires SelectedId(c) == "default"
    ensures Base(ActivePreset(ThemePresets, c), mode)(k) == if mode == Light then DefaultLight(k) else DefaultDark(k)
  {
    PresetIds();
    FindAppend(ThemePresets, CustomPresets(c), "default");
    FindFirst(ThemePresets, 0);
  }

  /** Before anything is stored the colours are the defaults. */
  lemma InitialColors(mode: Scheme, k: ColorKey)
    ensures GetActiveColors(ThemePresets, InitialConfig, mode)(k) == if mode == Light then DefaultLight(k) else DefaultDark(k)
  {
    DefaultSelected(InitialConfig, mode, k);
  }

  /** Selecting a built-in preset shows exactly its palettes: the custom
      colours are dropped and no custom preset can shadow it. */
  lemma SelectBuiltIn(c: ThemeConfig, i: nat, mode: Scheme, k: ColorKey)
    requires i < |ThemePresets|
    ensures GetActiveColors(ThemePresets, UpdatePreset(c, ThemePresets[i].id), mode)(k) == Base(ThemePresets[i], mode)(k)
  {
    PresetIds();
    var r := UpdatePreset(c, ThemePresets[i].id);
    assert SelectedId(r) == ThemePresets[i].id;
    FindFirst(ThemePresets, i);
    FindAppend(ThemePresets, CustomPresets(r), ThemePresets[i].id);
  }

  /** Custom colours take effect in their own mode and nowhere else. */
  lemma CustomColorsApply(builtIn: seq<ThemePreset>, c: ThemeConfig, mode: Scheme, colors: Colors, other: Scheme, k: ColorKey)
    requires |builtIn| > 0
    ensures var r := UpdateCustomColors(c, mode, colors);
      GetActiveColors(builtIn, r, other)(k) ==
        if other == mode && k in colors then colors[k] else GetActiveColors(builtIn, c, other)(k)
  {
    var r := UpdateCustomColors(c, mode, colors);
    SamePresetChoice(builtIn, c, r);
    if other == mode {
      MergedColor(builtIn, c, r, mode, colors, k);
    } else {
      assert Custom(r, other) == Custom(c, other);
    }
  }

  /** Changing only the colours or the mode keeps the active preset. */
  lemma SamePresetChoice(builtIn: seq<ThemePreset>, c: ThemeConfig, r: ThemeConfig)
    requires |builtIn| > 0 && r.preset == c.preset && r.customPresets == c.customPresets
    ensures ActivePreset(builtIn, r) == ActivePreset(builtIn, c)
  {
    assert CustomPresets(r) == CustomPresets(c);
  }

  lemma MergedColor(builtIn: seq<ThemePreset>, c: ThemeConfig, r: ThemeConfig, mode: Scheme, colors: Colors, k: ColorKey)
    requires |builtIn| > 0 && ActivePreset(builtIn, r) == ActivePreset(builtIn, c)
    requires Custom(r, mode) == Some(Merge(Custom(c, mode), colors))
    ensures GetActiveColors(builtIn, r, mode)(k) == if k in colors then colors[k] else GetActiveColors(builtIn, c, mode)(k)
  {
    var base := Base(ActivePreset(builtIn, c), mode);
    ShownColor(builtIn, r, mode, k);
    ShownColor(builtIn, c, mode, k);
    MergedShown(Custom(c, mode), colors, base, k);
  }

  /** The colour a palette shows for `k` under optional overrides. */
  function Shown(custom: Option<Colors>, base: Palette, k: ColorKey): string {
    if custom.Some? && k in custom.value then custom.value[k] else base(k)
  }

  lemma ShownColor(builtIn: seq<ThemePreset>, c: ThemeConfig, mode: Scheme, k: ColorKey)
    requires |builtIn| > 0
    ensures GetActiveColors(builtIn, c, mode)(k) == Shown(Custom(c, mode), Base(ActivePreset(builtIn, c), mode), k)
  {
  }

  lemma MergedShown(stored: Option<Colors>, colors: Colors, base: Palette, k: ColorKey)
    ensures Shown(Some(Merge(stored, colors)), base, k) == if k in colors then colors[k] else Shown(stored, base, k)
  {
  }

  /** Every colour in use is valid when the custom presets and the custom
      colours of the mode are: the built-in ones are. */
  lemma ActiveColorsValid(c: ThemeConfig, mode: Scheme, k: ColorKey)
    requires forall i :: 0 <= i < |CustomPresets(c)| ==> PresetValid(CustomPresets(c)[i])
    requires Custom(c, mode).Some? ==> forall key :: key in Custom(c, mode).value ==> ThemeUtils.IsValidOklch(Custom(c, mode).value[key])
    ensures ThemeUtils.IsValidOklch(GetActiveColors(ThemePresets, c, mode)(k))
  {
    PresetColorsValid();
    ActivePresetValid(ThemePresets, c);
  }

  lemma ActivePresetValid(builtIn: seq<ThemePreset>, c: ThemeConfig)
    requires |builtIn| > 0
    requires forall i :: 0 <= i < |builtIn| ==> PresetValid(builtIn[i])
    requires forall i :: 0 <= i < |CustomPresets(c)| ==> PresetValid(CustomPresets(c)[i])
    ensures PresetValid(ActivePreset(builtIn, c))
  {
    FoundValid(AllPresets(builtIn, c), SelectedId(c));
  }

  lemma {:induction false} FoundValid(ps: seq<ThemePreset>, id: string)
    requires forall i :: 0 <= i < |ps| ==> PresetValid(ps[i])
    ensures FindPreset(ps, id).Some? ==> PresetValid(FindPreset(ps, id).value)
  {
    if |ps| > 0 && ps[0].id != id {
      FoundValid(ps[1..], id);
    }
  }

  /** Saving the current colours as a preset and then selecting it shows
      the same colours as before, when the id is new. */
  lemma SaveThenSelect(builtIn: seq<ThemePreset>, c: ThemeConfig, name: string, description: string, id: string,
                       mode: Scheme, k: ColorKey)
    requires |builtIn| > 0 && id != ""
    requires forall j :: 0 <= j < |AllPresets(builtIn, c)| ==> AllPresets(builtIn, c)[j].id != id
    ensures var saved := SaveCurrentAsPreset(builtIn, c, name, description, id);
      GetActiveColors(builtIn, UpdatePreset(saved, id), mode)(k) == GetActiveColors(builtIn, c, mode)(k)
  {
    var saved := SaveCurrentAsPreset(builtIn, c, name, description, id);
    var r := UpdatePreset(saved, id);
    var p := ThemePreset(id, name, description, GetActiveColors(builtIn, c, Light), GetActiveColors(builtIn, c, Dark), Some(true));
    assert CustomPresets(r) == CustomPresets(c) + [p];
    assert builtIn + CustomPresets(r) == AllPresets(builtIn, c) + [p];
    FindAppend(AllPresets(builtIn, c), [p], id);
    assert FindPreset([p], id) == Some(p);
    assert ActivePreset(builtIn, r) == p;
  }

  /** A generated id never collides with a built-in preset. */
  lemma GeneratedIdIsNew(now: nat, randomText: string)
    ensures forall i :: 0 <= i < |ThemePresets| ==> ThemePresets[i].id != ThemeLib.GeneratePresetId(now, randomText)
  {
    PresetIds();
    var id := ThemeLib.GeneratePresetId(now, randomText);
    assert id[0] == 'c';
  }

  /** Deleting the active preset shows the default palettes again. */
  lemma DeleteActive(c: ThemeConfig, mode: Scheme, k: ColorKey)
    requires c.preset.Some?
    ensures var r := DeleteCustomPreset(c, c.preset.value);
      Base(ActivePreset(ThemePresets, r), mode)(k) == if mode == Light then DefaultLight(k) else DefaultDark(k)
  {
    DefaultSelected(DeleteCustomPreset(c, c.preset.value), mode, k);
  }

  /** Deleting a preset that is not selected changes no colour in use. */
  lemma DeleteOther(builtIn: seq<ThemePreset>, c: ThemeConfig, id: string, mode: Scheme, k: ColorKey)
    requires |builtIn| > 0 && SelectedId(c) != id
    ensures GetActiveColors(builtIn, DeleteCustomPreset(c, id), mode)(k) == GetActiveColors(builtIn, c, mode)(k)
  {
    var r := DeleteCustomPreset(c, id);
    FindWithout(CustomPresets(c), id, SelectedId(c));
    SameFound(builtIn, c, r);
    SameShown(builtIn, c, r, mode, k);
  }

  /** Editing a preset that is not selected changes no colour in use. */
  lemma UpdateOtherPreset(builtIn: seq<ThemePreset>, c: ThemeConfig, id: string, u: PresetUpdate, mode: Scheme, k: ColorKey)
    requires |builtIn| > 0 && SelectedId(c) != id
    ensures GetActiveColors(builtIn, UpdateCustomPreset(c, id, u), mode)(k) == GetActiveColors(builtIn, c, mode)(k)
  {
    var r := UpdateCustomPreset(c, id, u);
    FindApplied(CustomPresets(c), id, u, SelectedId(c));
    SameFound(builtIn, c, r);
    SameShown(builtIn, c, r, mode, k);
  }

  /** The same selection found among the same-answering custom presets is
      the same active preset. */
  lemma SameFound(builtIn: seq<ThemePreset>, c: ThemeConfig, r: ThemeConfig)
    requires |builtIn| > 0 && SelectedId(r) == SelectedId(c)
    requires FindPreset(CustomPresets(r), SelectedId(c)) == FindPreset(CustomPresets(c), SelectedId(c))
    ensures ActivePreset(builtIn, r) == ActivePreset(builtIn, c)
  {
    FindAppend(builtIn, CustomPresets(c), SelectedId(c));
    FindAppend(builtIn, CustomPresets(r), SelectedId(c));
  }

  /** The same active preset and the same custom colours show the same
      colours. */
  lemma SameShown(builtIn: seq<ThemePreset>, c: ThemeConfig, r: ThemeConfig, mode: Scheme, k: ColorKey)
    requires |builtIn| > 0 && ActivePreset(builtIn, r) == ActivePreset(builtIn, c)
    requires Custom(r, mode) == Custom(c, mode)
    ensures GetActiveColors(builtIn, r, mode)(k) == GetActiveColors(builtIn, c, mode)(k)
  {
    ShownColor(builtIn, r, mode, k);
    ShownColor(builtIn, c, mode, k);
  }

  /** Editing the selected custom preset's palettes shows the new palettes
      when no built-in preset has its id. */
  lemma UpdateSelectedPreset(builtIn: seq<ThemePreset>, c: ThemeConfig, u: PresetUpdate)
    requires |builtIn| > 0
    requires forall i :: 0 <= i < |builtIn| ==> builtIn[i].id != SelectedId(c)
    requires FindPreset(CustomPresets(c), SelectedId(c)).Some?
    ensures var r := UpdateCustomPreset(c, SelectedId(c), u);
      ActivePreset(builtIn, r) == Apply(FindPreset(CustomPresets(c), SelectedId(c)).value, u)
  {
    var id := SelectedId(c);
    var r := UpdateCustomPreset(c, id, u);
    FindAppend(builtIn, CustomPresets(r), id);
    FindApplied(CustomPresets(c), id, u, id);
  }
}
