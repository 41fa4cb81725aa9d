/** The theme picker: a swatch in the current theme's colour, and a menu of
    the five themes in which the current one is checked and a click selects
    one. */
module ColorPicker {
  import opened Results
  import opened ThemeProvider

  datatype ThemeOption = ThemeOption(name: string, color: string)

  /** The `themes` table. */
  const Themes: seq<ThemeOption> := [
    ThemeOption("default", "hsl(222.2 47.4% 11.2%)"),
    ThemeOption("green", "hsl(142.1 76.2% 36.3%)"),
    ThemeOption("blue", "hsl(217.2 91.2% 59.8%)"),
    ThemeOption("orange", "hsl(24.6 95% 53.1%)"),
    ThemeOption("purple", "hsl(262.1 83.3% 57.8%)")
  ]

  /** `themes[0].color`, the swatch's fallback. */
  const FallbackColor: string := Themes[0].color

  /** The five names are pairwise distinct and every colour is non-empty. */
  lemma ThemesWellFormed()
    ensures forall i, j :: 0 <= i < j < |Themes| ==> Themes[i].name != Themes[j].name
    ensures forall i :: 0 <= i < |Themes| ==> Themes[i].color != ""
  {
  }

  /** `ts.find(t => t.name === name)`: the first entry with that name. */
  function Find(ts: seq<ThemeOption>, name: string): (r: Option<nat>)
    ensures r.Some? ==> r.value < |ts| && ts[r.value].name == name
    ensures r.Some? ==> forall j :: 0 <= j < r.value ==> ts[j].name != name
    ensures r.None? ==> forall j :: 0 <= j < |ts| ==> ts[j].name != name
  {
    if |ts| == 0 then None
    else if ts[0].name == name then Some(0)
    else
      match Find(ts[1..], name)
      case Some(i) => Some(i + 1)
      case None => None
  }

  /** The swatch colour: `themes.find(...)?.color || themes[0].color`. A known
      theme shows its own colour; an unknown one shows the first entry's. */
  function SwatchColor(theme: string): (c: string)
    ensures forall i :: 0 <= i < |Themes| && Themes[i].name == theme ==> c == Themes[i].color
    ensures (forall i :: 0 <= i < |Themes| ==> Themes[i].name != theme) ==> c == Themes[0].color
  {
    ThemesWellFormed();
    match Find(Themes, theme)
    case Some(i) => if Themes[i].color != "" then Themes[i].color else FallbackColor
    case None => FallbackColor
  }

  /** `theme === t.name`: whether a menu item shows the check mark. The
      checked item of the menu is the one whose colour the swatch shows. */
  predicate Checked(theme: string, item: ThemeOption)
    ensures Checked(theme, item) && item in Themes ==> SwatchColor(theme) == item.color
  {
    theme == item.name
  }

  /** At most one item is checked, and when none is, the swatch shows the
      colour of the first entry, "default". */
  lemma AtMostOneChecked(theme: string)
    ensures forall i, j ::
              (0 <= i < |Themes| && 0 <= j < |Themes| && Checked(theme, Themes[i]) && Checked(theme, Themes[j]))
              ==> i == j
    ensures (forall i :: 0 <= i < |Themes| ==> !Checked(theme, Themes[i])) ==>
              SwatchColor(theme) == SwatchColor(Themes[0].name)
  {
    ThemesWellFormed();
  }

  /** Clicking menu item `i`: `setTheme` with exactly that item's name, after
      which the item is the checked one, the swatch shows its colour and the
      choice is stored; the props and every other stored key are kept. */
  function Select(p: ProviderState, store: Store, i: nat): (r: (ProviderState, Store))
    requires i < |Themes|
    ensures r.0.theme == Themes[i].name
    ensures forall j :: 0 <= j < |Themes| ==> (Checked(r.0.theme, Themes[j]) <==> j == i)
    ensures SwatchColor(r.0.theme) == Themes[i].color
    ensures p.config.storageKey in r.1 && r.1[p.config.storageKey] == Themes[i].name
    ensures r.0.config == p.config
    ensures forall k :: k != p.config.storageKey ==>
              (k in r.1 <==> k in store) && (k in store ==> r.1[k] == store[k])
  {
    ThemesWellFormed();
    SetTheme(p, store, Themes[i].name)
  }
}
