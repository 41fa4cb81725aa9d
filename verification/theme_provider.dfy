/** The colour-theme provider: the current theme starts from the value
    stored under a key in the browser's local storage, falling back to a
    default, and `setTheme` writes the new theme to both the storage and the
    provider's state. Local storage is a map from keys to strings. */
module ThemeProvider {
  import opened Results

  /** The browser's local storage. */
  type Store = map<string, string>

  /** The provider's props. */
  datatype Config = Config(storageKey: string, defaultTheme: string)

  /** The props' defaults. */
  const DefaultConfig: Config := Config("resume-theme", "default")

  /** What the provider holds: its props and the current theme. */
  datatype ProviderState = ProviderState(config: Config, theme: string)

  /** `localStorage.getItem(key)`: null when the key is absent. */
  function GetItem(store: Store, key: string): (r: Option<string>)
    ensures r.Some? <==> key in store
    ensures r.Some? ==> r.value == store[key]
  {
    if key in store then Some(store[key]) else None
  }

  /** The lazy initial state. With no window (server rendering) or no usable
      stored value (absent, or the empty string, which is falsy) it is the
      default theme; otherwise the stored value. */
  function InitialTheme(config: Config, window: Option<Store>): (t: string)
    ensures window.None? ==> t == config.defaultTheme
    ensures window.Some? && config.storageKey in window.value && window.value[config.storageKey] != "" ==>
              t == window.value[config.storageKey]
    ensures window.Some? && (config.storageKey !in window.value || window.value[config.storageKey] == "") ==>
              t == config.defaultTheme
  {
    match window
    case None => config.defaultTheme
    case Some(store) =>
      match GetItem(store, config.storageKey)
      case Some(v) => if v != "" then v else config.defaultTheme
      case None => config.defaultTheme
  }

  /** Mounting a provider. */
  function Mount(config: Config, window: Option<Store>): (p: ProviderState)
    ensures p.config == config
    ensures p.theme == InitialTheme(config, window)
  {
    ProviderState(config, InitialTheme(config, window))
  }

  /** `setTheme(t)`: the storage maps the provider's key to `t`, no other key
      changes, and the current theme becomes `t`. */
  function SetTheme(p: ProviderState, store: Store, t: string): (r: (ProviderState, Store))
    ensures r.0.config == p.config && r.0.theme == t
    ensures p.config.storageKey in r.1 && r.1[p.config.storageKey] == t
    ensures forall k :: k != p.config.storageKey ==>
              (k in r.1 <==> k in store) && (k in store ==> r.1[k] == store[k])
  {
    (p.(theme := t), store[p.config.storageKey := t])
  }

  /** Persistence round trip: after `setTheme(t)` a provider mounted afresh on
      the same key starts at `t` exactly when `t` is not the empty string or
      is the default anyway; `setTheme("")` falls back to the default. */
  lemma PersistenceRoundTrip(p: ProviderState, store: Store, t: string)
    ensures Mount(p.config, Some(SetTheme(p, store, t).1)).theme == (if t != "" then t else p.config.defaultTheme)
    ensures Mount(p.config, Some(SetTheme(p, store, t).1)).theme == t <==> t != "" || t == p.config.defaultTheme
  {
  }

  /** With the default props and no stored theme, the provider starts at
      "default". */
  lemma DefaultStart(store: Store)
    requires DefaultConfig.storageKey !in store
    ensures Mount(DefaultConfig, Some(store)).theme == "default"
    ensures Mount(DefaultConfig, None).theme == "default"
  {
  }

  const MissingProvider: string := "useTheme must be used within a ThemeProvider"

  /** `useTheme()`: the nearest provider's theme state, or the error thrown
      when there is no enclosing provider. */
  function UseTheme(context: Option<ProviderState>): (r: Result<ProviderState, string>)
    ensures context.None? <==> r.Failure?
    ensures r.Failure? ==> r.error == MissingProvider
    ensures r.Success? ==> r.value == context.value
  {
    match context
    case None => Failure(MissingProvider)
    case Some(p) => Success(p)
  }
}
