/**
  The navigation bar (src/components/Nav.tsx): which section is underlined
  (`current`), fed by the URL hash, a scroll-position fallback and the scroll
  spy; the dark/light toggle; the language toggle; and the mobile menu.
  Browser measurements (scroll offsets, element tops, the activation line)
  arrive as plain integers.
 */
module Nav {
  import opened JsBuiltins
  import opened ThemeDom
  import ScrollSpy
  import SearchParams

  /** The section ids, in page order (`SECTIONS.map(s => s.id)`). */
  const SectionIds: seq<string> := ["home", "about", "projects", "experience", "skills", "contact"]

  // ---------------------------------------------------------------------------
  // The URL hash

  /** `(window.location.hash || "").replace("#", "")`: the hash with its first `#` removed. */
  function HashId(hash: string): string {
    RemoveFirst(hash, '#')
  }

  /** The initial `current`: the hash's section when it names one, otherwise "home". */
  function InitialCurrent(hash: string): (r: string)
    ensures r in SectionIds
    ensures HashId(hash) in SectionIds ==> r == HashId(hash)
    ensures HashId(hash) !in SectionIds ==> r == "home"
  {
    var id := HashId(hash);
    if id in SectionIds then id else "home"
  }

  /** `onHash`: a hash naming a section selects it; any other hash leaves `current` alone. */
  function OnHash(current: string, hash: string): (r: string)
    ensures HashId(hash) in SectionIds ==> r == HashId(hash)
    ensures HashId(hash) !in SectionIds ==> r == current
  {
    var id := HashId(hash);
    if id in SectionIds then id else current
  }

  /** A menu link `#id` selects section `id`, both on load and on a hash change. */
  lemma LinkHashSelects(id: string, current: string)
    requires id in SectionIds
    ensures InitialCurrent("#" + id) == id
    ensures OnHash(current, "#" + id) == id
  {
    var h := "#" + id;
    assert h[0] == '#';
    assert IndexOf(h, '#') == 0;
    assert h[1..] == id;
    assert HashId(h) == h[..0] + h[1..];
    assert HashId(h) == id;
  }

  // ---------------------------------------------------------------------------
  // The scroll fallback

  /** A resolved section element and its top in page coordinates. */
  datatype Placed = Placed(id: string, top: int)

  /** The first `k` sections lie at or above the line and section `k`, if any, lies below it. */
  predicate LeadingRun(els: seq<Placed>, line: int, k: int) {
    && 0 <= k <= |els|
    && (forall j :: 0 <= j < k ==> els[j].top <= line)
    && (k == |els| || els[k].top > line)
  }

  /** Only one run length fits. */
  lemma LeadingRunUnique(els: seq<Placed>, line: int, k1: int, k2: int)
    requires LeadingRun(els, line, k1) && LeadingRun(els, line, k2)
    ensures k1 == k2
  {
    if k1 < |els| {
      var t1 := els[k1].top;
      assert k1 < k2 ==> t1 <= line;
    }
    if k2 < |els| {
      var t2 := els[k2].top;
      assert k2 < k1 ==> t2 <= line;
    }
  }

  /** How many sections the scan passes before it stops. */
  function LeadingCount(els: seq<Placed>, line: int): (k: nat)
    ensures LeadingRun(els, line, k)
  {
    if |els| == 0 || els[0].top > line then 0 else 1 + LeadingCount(els[1..], line)
  }

  /**
    `chooseByScroll`: the last section of the leading run at or above the
    activation line; "home" (`ids[0]`) when the run is empty (or, as `!best`
    also reads it, when that section's id is empty). With sections from the
    page the choice is always a section id.
   */
  function ChooseByScroll(els: seq<Placed>, line: int): (best: string)
    ensures forall k :: LeadingRun(els, line, k) ==>
      best == (if k > 0 && els[k - 1].id != "" then els[k - 1].id else SectionIds[0])
    ensures (forall p :: p in els ==> p.id in SectionIds) ==> best in SectionIds
  {
    var k := LeadingCount(els, line);
    forall k' | LeadingRun(els, line, k')
      ensures k' == k
    {
      LeadingRunUnique(els, line, k, k');
    }
    if k > 0 && els[k - 1].id != "" then els[k - 1].id else SectionIds[0]
  }

  /** The `for … of` loop of `chooseByScroll` with its `break`, as the source writes it. */
  method ScanByScroll(els: seq<Placed>, line: int) returns (best: string)
    ensures best == ChooseByScroll(els, line)
  {
    var found: Option<string> := None;
    var i := 0;
    while i < |els|
      invariant 0 <= i <= |els|
      invariant forall j :: 0 <= j < i ==> els[j].top <= line
      invariant found == (if i == 0 then None else Some(els[i - 1].id))
    {
      if els[i].top <= line {
        found := Some(els[i].id);
        i := i + 1;
      } else {
        break;
      }
    }
    assert LeadingRun(els, line, i);
    if found.None? || found.value == "" {
      best := SectionIds[0];
    } else {
      best := found.value;
    }
  }

  /** The ids of the placed sections are the resolved section ids, so they are known sections. */
  lemma ResolvedArePlaced(els: seq<Placed>, present: set<string>)
    requires |els| == |ScrollSpy.ResolveElements(SectionIds, present)|
    requires forall j :: 0 <= j < |els| ==> els[j].id == ScrollSpy.ResolveElements(SectionIds, present)[j]
    ensures forall p :: p in els ==> p.id in SectionIds
  {
  }

  // ---------------------------------------------------------------------------
  // The spy and the selection as a whole

  /** The options Nav passes to the scroll spy. */
  const NavSpyInit: ScrollSpy.PartialInit :=
    ScrollSpy.PartialInit(Some("-10% 0px -85% 0px"), Some(ScrollSpy.Many([0.0, 0.25, 0.5, 0.75, 1.0])))

  /**
    Nav supplies both options, so the spy uses them as given: the observed band
    runs from 10% below the top to 15% above the bottom of the viewport, with
    the five thresholds.
   */
  lemma NavSpyOptions()
    ensures ScrollSpy.DeriveOptions(ScrollSpy.Init(NavSpyInit))
      == ScrollSpy.SpyOptions("-10% 0px -85% 0px", ScrollSpy.Many([0.0, 0.25, 0.5, 0.75, 1.0]))
    ensures ScrollSpy.DeriveOptions(ScrollSpy.Init(NavSpyInit)).rootMargin != ScrollSpy.DefaultRootMargin
  {
    assert "-10% 0px -85% 0px"[1] != ScrollSpy.DefaultRootMargin[1];
  }

  /** `if (activeId) setCurrent(activeId)`: a null or empty id never overwrites `current`. */
  function SyncFromObserver(current: string, active: Option<string>): (r: string)
    ensures Truthy(active) ==> r == active.value
    ensures !Truthy(active) ==> r == current
  {
    if Truthy(active) then active.value else current
  }

  /** What can change `current`. */
  datatype SelectionEvent =
    | HashChanged(hash: string)
    | Scrolled(els: seq<Placed>, line: int)
    | ActiveIdChanged(active: Option<string>)

  function Select(current: string, ev: SelectionEvent): string {
    match ev
    case HashChanged(h) => OnHash(current, h)
    case Scrolled(els, line) => ChooseByScroll(els, line)
    case ActiveIdChanged(a) => SyncFromObserver(current, a)
  }

  function SelectAll(current: string, evs: seq<SelectionEvent>): string
    decreases |evs|
  {
    if |evs| == 0 then current else SelectAll(Select(current, evs[0]), evs[1..])
  }

  /** Events as the page produces them: measured sections and spy results are known sections. */
  predicate FromPage(ev: SelectionEvent) {
    match ev
    case HashChanged(_) => true
    case Scrolled(els, _) => forall p :: p in els ==> p.id in SectionIds
    case ActiveIdChanged(a) => a.Some? ==> a.value in SectionIds
  }

  /** A valid scroll spy over the section ids only ever reports a known section. */
  lemma SpyReportsFromPage(s: ScrollSpy.Spy)
    requires ScrollSpy.Valid(s, SectionIds)
    ensures FromPage(ActiveIdChanged(s.active))
  {
  }

  /** Whatever the page does, the underlined section is always one of the sections. */
  lemma {:induction false} SelectionStaysKnown(current: string, evs: seq<SelectionEvent>)
    requires current in SectionIds
    requires forall ev :: ev in evs ==> FromPage(ev)
    ensures SelectAll(current, evs) in SectionIds
    decreases |evs|
  {
    if |evs| > 0 {
      assert evs[0] in evs;
      assert forall ev :: ev in evs[1..] ==> ev in evs;
      SelectionStaysKnown(Select(current, evs[0]), evs[1..]);
    }
  }

  // ---------------------------------------------------------------------------
  // The theme toggle

  /** The root, the stored theme, and the `isDark` state that picks the button's icon. */
  datatype NavTheme = NavTheme(root: Root, stored: Option<string>, isDark: bool)

  /** The root counts as dark when it carries the class or the attribute says "dark". */
  predicate RootIsDark(r: Root) {
    r.darkClass || r.dataTheme == Some("dark")
  }

  /** The first render: `isDark` read from the root. */
  function InitialNavTheme(root: Root, stored: Option<string>): (t: NavTheme)
    ensures t.root == root && t.stored == stored
    ensures t.isDark <==> RootIsDark(root)
  {
    NavTheme(root, stored, RootIsDark(root))
  }

  /** The icon, the class and the attribute all tell the same theme. */
  predicate ThemeSynced(t: NavTheme) {
    Agrees(t.root) && (t.isDark <==> t.root.darkClass)
  }

  /**
    The bootstrap effect: a stored "dark" or "light" is applied to the root and
    to `isDark`; any other stored value (or none) changes nothing.
   */
  function Bootstrap(t: NavTheme): (t': NavTheme)
    ensures t.stored == Some("dark") || t.stored == Some("light") ==>
      t'.root == ApplyTheme(t.stored.value) && t'.stored == t.stored && ThemeSynced(t')
    ensures !(t.stored == Some("dark") || t.stored == Some("light")) ==> t' == t
  {
    if t.stored == Some("dark") || t.stored == Some("light") then
      NavTheme(ApplyTheme(t.stored.value), t.stored, t.stored.value == "dark")
    else t
  }

  /**
    `toggleTheme`: the new theme is "light" exactly when the root is dark by
    attribute or by class. Afterwards the class, the attribute and `isDark`
    agree, and the stored theme is the new one unless storage refused it.
   */
  function ToggleTheme(t: NavTheme, writable: bool): (t': NavTheme)
    ensures t'.root.dataTheme == Some("light") <==> RootIsDark(t.root)
    ensures t'.root.dataTheme == Some("dark") <==> !RootIsDark(t.root)
    ensures ThemeSynced(t')
    ensures writable ==> t'.stored == t'.root.dataTheme
    ensures !writable ==> t'.stored == t.stored
  {
    var next := if RootIsDark(t.root) then "light" else "dark";
    NavTheme(ApplyTheme(next), Persist(t.stored, next, writable), next == "dark")
  }

  /** From a synced state showing one of the two themes, two toggles restore root and icon. */
  lemma ToggleThemeTwice(t: NavTheme, writable: bool)
    requires ThemeSynced(t)
    requires t.root.dataTheme == Some("dark") || t.root.dataTheme == Some("light")
    ensures ToggleTheme(ToggleTheme(t, writable), writable).root == t.root
    ensures ToggleTheme(ToggleTheme(t, writable), writable).isDark == t.isDark
  {
  }

  // ---------------------------------------------------------------------------
  // The language toggle

  /** What the i18n instance reports: `resolvedLanguage` and `language`. */
  datatype I18n = I18n(resolvedLanguage: Option<string>, language: Option<string>)

  /** `(i18n.resolvedLanguage || i18n.language || "en").toLowerCase()` */
  function CurrentLanguage(i: I18n): (r: string)
    ensures forall k :: 0 <= k < |r| ==> !IsAsciiUpper(r[k])
    ensures Truthy(i.resolvedLanguage) ==> r == ToLowerCase(i.resolvedLanguage.value)
    ensures !Truthy(i.resolvedLanguage) && Truthy(i.language) ==> r == ToLowerCase(i.language.value)
    ensures !Truthy(i.resolvedLanguage) && !Truthy(i.language) ==> r == "en"
  {
    assert ToLowerCase("en") == "en" by {
      assert ToLowerCase("en") == LowerChar('e') + LowerChar('n') + ToLowerCase([]);
    }
    ToLowerCase(
      if Truthy(i.resolvedLanguage) then i.resolvedLanguage.value
      else if Truthy(i.language) then i.language.value
      else "en")
  }

  /** The language the button switches to: "en" exactly when the current language starts with "de". */
  function TargetLang(i: I18n): (r: string)
    ensures r == "en" || r == "de"
    ensures r == "en" <==> StartsWith(CurrentLanguage(i), "de")
  {
    if StartsWith(CurrentLanguage(i), "de") then "en" else "de"
  }

  /** The button's label: the target language in capitals. */
  function TargetLabel(i: I18n): (r: string)
    ensures r == "EN" <==> TargetLang(i) == "en"
    ensures r == "DE" <==> TargetLang(i) == "de"
  {
    AsciiUpper(TargetLang(i))
  }

  /**
    `toggleLang`: the i18n instance switches to the target (both targets are
    languages it has resources for, so it resolves to them) and the `lng`
    parameter of the URL is set to the target.
   */
  function ToggleLang(i: I18n, query: SearchParams.Query): (r: (I18n, SearchParams.Query))
    ensures r.0 == I18n(Some(TargetLang(i)), Some(TargetLang(i)))
    ensures SearchParams.GetParam(r.1, "lng") == Some(TargetLang(i))
    ensures SearchParams.Count(r.1, "lng") == 1
    ensures SearchParams.Others(r.1, "lng") == SearchParams.Others(query, "lng")
  {
    var next := TargetLang(i);
    (I18n(Some(next), Some(next)), SearchParams.SetParam(query, "lng", next))
  }

  /** After a toggle the button offers the other language. */
  lemma ToggleLangFlips(i: I18n, query: SearchParams.Query)
    ensures TargetLang(ToggleLang(i, query).0) != TargetLang(i)
  {
    var next := TargetLang(i);
    ToLowerCaseOfFixed(next);
    var toggled := ToggleLang(i, query).0;
    assert toggled == I18n(Some(next), Some(next));
    assert CurrentLanguage(toggled) == next;
    assert next[..2] == next;
  }

  // ---------------------------------------------------------------------------
  // The mobile menu

  datatype MenuEvent =
    | BurgerClick           // the burger button: closes when open, opens when closed
    | KeyDown(key: string)  // a key press; the listener exists only while the menu is open
    | OverlayClick          // a click on the overlay outside the panel
    | PanelClick            // a click inside the panel, which stops propagation
    | LinkClick             // a click on a menu link

  function MenuStep(open: bool, ev: MenuEvent): (open': bool)
    ensures ev.BurgerClick? ==> open' == !open
    ensures ev.KeyDown? ==> (open' <==> open && ev.key != "Escape")
    ensures ev.OverlayClick? || ev.LinkClick? ==> !open'
    ensures ev.PanelClick? ==> open' == open
  {
    match ev
    case BurgerClick => !open
    case KeyDown(key) => if open && key == "Escape" then false else open
    case OverlayClick => false
    case PanelClick => open
    case LinkClick => false
  }

  /** No event but the burger opens the menu. */
  lemma OnlyBurgerOpens(open: bool, ev: MenuEvent)
    requires !open && MenuStep(open, ev)
    ensures ev.BurgerClick?
  {
  }
}
