/**
  The parts of the page that carry the colour theme and that Nav.tsx,
  useTheme.ts and ContactForm.tsx all read or write: the `dark` class and
  the `data-theme` attribute of the root element, and the `theme` entry of
  localStorage.
 */
module ThemeDom {
  import opened JsBuiltins

  /** The root element's `dark` class and `data-theme` attribute (`None`: attribute absent). */
  datatype Root = Root(darkClass: bool, dataTheme: Option<string>)

  /** The dark class is present exactly when the attribute says "dark". */
  predicate Agrees(r: Root) {
    r.darkClass <==> r.dataTheme == Some("dark")
  }

  /**
    Setting the theme on the root: the `dark` class is toggled on exactly for
    "dark" and `data-theme` is set to the theme. The result always agrees.
   */
  function ApplyTheme(theme: string): (r: Root)
    ensures r.darkClass <==> theme == "dark"
    ensures r.dataTheme == Some(theme)
    ensures Agrees(r)
  {
    Root(theme == "dark", Some(theme))
  }

  /**
    `localStorage.setItem("theme", theme)` inside `try { … } catch {}`: when
    storage refuses the write (`writable` false) the old entry stays.
   */
  function Persist(stored: Option<string>, theme: string, writable: bool): (s: Option<string>)
    ensures writable ==> s == Some(theme)
    ensures !writable ==> s == stored
  {
    if writable then Some(theme) else stored
  }
}
