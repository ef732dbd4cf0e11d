/**
  The `useTheme` hook (src/hooks/useTheme.ts): a theme string in React
  state, initialised from the root's `data-theme` attribute, a `toggle`, and
  an effect that writes the theme to the root and to localStorage whenever
  it changes. The state's type says "light" | "dark", but the initial value
  is the attribute cast without a check, so any string can occur.
 */
module UseTheme {
  import opened JsBuiltins
  import opened ThemeDom

  /** The initial state: the attribute when it is a non-empty string, else "dark". */
  function InitialTheme(attr: Option<string>): (t: string)
    ensures t != ""
    ensures Truthy(attr) ==> t == attr.value
    ensures !Truthy(attr) ==> t == "dark"
  {
    if Truthy(attr) then attr.value else "dark"
  }

  /** `toggle`: "dark" becomes "light", anything else becomes "dark". */
  function Toggle(t: string): (r: string)
    ensures r == "dark" || r == "light"
    ensures r == "light" <==> t == "dark"
  {
    if t == "dark" then "light" else "dark"
  }

  /** Toggling twice restores the theme exactly when it was one of the two themes. */
  lemma ToggleTwice(t: string)
    ensures Toggle(Toggle(t)) == t <==> (t == "dark" || t == "light")
  {
  }

  /** The page state the effect touches: the root and the stored theme. */
  datatype Page = Page(root: Root, stored: Option<string>)

  /**
    The effect: add or remove the `dark` class, set `data-theme` and persist.
    Afterwards the class is present iff the theme is "dark", the attribute is
    the theme, and the stored value is the theme unless storage refused it.
   */
  function SyncEffect(p: Page, theme: string, writable: bool): (q: Page)
    ensures q.root.darkClass <==> theme == "dark"
    ensures q.root.dataTheme == Some(theme)
    ensures writable ==> q.stored == Some(theme)
    ensures !writable ==> q.stored == p.stored
  {
    Page(ApplyTheme(theme), Persist(p.stored, theme, writable))
  }

  /** Running the effect again with the same theme changes nothing. */
  lemma SyncEffectIdempotent(p: Page, theme: string, writable: bool)
    ensures SyncEffect(SyncEffect(p, theme, writable), theme, writable) == SyncEffect(p, theme, writable)
  {
  }

  /** The hook: its theme state and the page. */
  datatype Hook = Hook(theme: string, page: Page)

  /** The page shows the hook's theme. */
  predicate Synced(h: Hook) {
    && Agrees(h.page.root)
    && h.page.root.dataTheme == Some(h.theme)
  }

  /** First render and the first run of the effect. */
  function Mount(p: Page, writable: bool): (h: Hook)
    ensures Synced(h)
    ensures Truthy(p.root.dataTheme) ==> h.page.root.dataTheme == p.root.dataTheme
    ensures !Truthy(p.root.dataTheme) ==> h.theme == "dark"
  {
    var t := InitialTheme(p.root.dataTheme);
    Hook(t, SyncEffect(p, t, writable))
  }

  /** A click on the toggle: the state changes and the effect runs for the new theme. */
  function ToggleStep(h: Hook, writable: bool): (h': Hook)
    ensures Synced(h')
    ensures h'.theme == "light" <==> h.theme == "dark"
    ensures writable ==> h'.page.stored == Some(h'.theme)
  {
    var t := Toggle(h.theme);
    Hook(t, SyncEffect(h.page, t, writable))
  }

  /** From a mounted hook, two toggles bring back the same root whenever the mounted theme is one of the two. */
  lemma ToggleStepTwice(p: Page, writable: bool)
    requires InitialTheme(p.root.dataTheme) == "dark" || InitialTheme(p.root.dataTheme) == "light"
    ensures ToggleStep(ToggleStep(Mount(p, writable), writable), writable).page.root == Mount(p, writable).page.root
  {
  }
}
