/**
  One entry of the experience timeline (src/components/ExperienceItem.tsx):
  a heading id derived from role, company and period; on small screens only
  the first `maxBulletsMobile` bullet points are listed, with a button to
  show the rest. The viewport width reaches the component through a media
  query whose answer is an input here.

  As written, the button is shown only while some bullet is hidden, and a
  click on it lists every bullet -- so the button disappears at once and its
  "Show less" caption can never appear. `HasHiddenAsWritten` models that
  code; `HasHiddenIntended` decides on the collapsed list instead, which keeps
  the button so that it can fold the list again.
 */
module ExperienceItem {
  import opened JsBuiltins
  import opened Slug

  /** The props; `None` stands for a prop that is not given. */
  datatype Props = Props(role: string, company: string, period: string,
                         bullets: Option<seq<string>>, companyUrl: Option<string>,
                         location: Option<string>, maxBulletsMobile: Option<int>)

  /** `bullets` with its default `[]`. */
  function Bullets(p: Props): (b: seq<string>)
    ensures p.bullets.None? ==> b == []
    ensures p.bullets.Some? ==> b == p.bullets.value
  {
    if p.bullets.Some? then p.bullets.value else []
  }

  /** `maxBulletsMobile` with its default 1. */
  function MaxMobile(p: Props): (m: int)
    ensures p.maxBulletsMobile.None? ==> m == 1
    ensures p.maxBulletsMobile.Some? ==> m == p.maxBulletsMobile.value
  {
    if p.maxBulletsMobile.Some? then p.maxBulletsMobile.value else 1
  }

  /** The heading's id, which also labels the article. */
  function TitleId(role: string, company: string, period: string): (id: string)
    ensures |id| >= 4 && id[..4] == "exp-" && IsSlug(id[4..])
  {
    var id := "exp-" + Slugify(role + "-" + company + "-" + period);
    assert id[4..] == Slugify(role + "-" + company + "-" + period);
    id
  }

  /** The dashes between the three parts survive, so the id is built from the three parts' own slugs. */
  lemma TitleIdParts(role: string, company: string, period: string)
    ensures TitleId(role, company, period) == "exp-" + Slugify(role) + "-" + Slugify(company) + "-" + Slugify(period)
  {
    var a, b, c := Slugify(role), Slugify(company), Slugify(period);
    SlugifyDashJoin(role, company);
    SlugifyDashJoin(role + "-" + company, period);
    var x := a + "-" + b;
    ConcatAssoc("exp-", x + "-", c);
    ConcatAssoc("exp-", x, "-");
    ConcatAssoc("exp-", a + "-", b);
    ConcatAssoc("exp-", a, "-");
  }

  // ---------------------------------------------------------------------------
  // Collapsing on small screens

  /** The component's state; it starts as a collapsed small-screen entry. */
  datatype Ui = Ui(isMobile: bool, expanded: bool)

  const Initial: Ui := Ui(true, false)

  /** The media query `(min-width: 768px)` answered: small screen exactly when it does not match. */
  function OnMediaChange(u: Ui, matches: bool): (v: Ui)
    ensures v.isMobile == !matches && v.expanded == u.expanded
  {
    u.(isMobile := !matches)
  }

  /** The bullets listed: on a small screen and collapsed, `bullets.slice(0, maxBulletsMobile)`; otherwise all. */
  function VisibleBullets(p: Props, u: Ui): (v: seq<string>)
    ensures v <= Bullets(p)
    ensures !u.isMobile || u.expanded ==> v == Bullets(p)
    ensures u.isMobile && !u.expanded && 0 <= MaxMobile(p) ==>
      |v| == (if MaxMobile(p) < |Bullets(p)| then MaxMobile(p) else |Bullets(p)|)
    ensures u.isMobile && !u.expanded && MaxMobile(p) < 0 ==>
      |v| == (if |Bullets(p)| + MaxMobile(p) < 0 then 0 else |Bullets(p)| + MaxMobile(p))
  {
    SliceHead(Bullets(p), MaxMobile(p));
    if u.isMobile && !u.expanded then Slice(Bullets(p), 0, MaxMobile(p)) else Bullets(p)
  }

  /** The button under the list: its `aria-expanded` and its caption. */
  datatype MoreButton = MoreButton(ariaExpanded: bool, caption: string)

  /** What the entry shows below its header: the list (when there are bullets) and the button (when `hasHidden`). */
  datatype View = View(list: Option<seq<string>>, button: Option<MoreButton>)

  /**
    The rendering, given the rule that decides whether the button is shown.
    The caption is "Show less" when expanded and otherwise names how many
    bullets are not listed.
   */
  function Render(p: Props, u: Ui, hasHidden: bool): (w: View)
    ensures w.list.Some? <==> |Bullets(p)| > 0
    ensures w.list.Some? ==> w.list.value == VisibleBullets(p, u)
    ensures w.button.Some? <==> |Bullets(p)| > 0 && hasHidden
    ensures w.button.Some? ==> w.button.value.ariaExpanded == u.expanded
    ensures w.button.Some? && u.expanded ==> w.button.value.caption == "Show less"
    ensures w.button.Some? && !u.expanded ==>
      w.button.value.caption == "Show " + IntToString(|Bullets(p)| - |VisibleBullets(p, u)|) + " more"
  {
    var b := Bullets(p);
    var v := VisibleBullets(p, u);
    if |b| == 0 then View(None, None)
    else if !hasHidden then View(Some(v), None)
    else if u.expanded then View(Some(v), Some(MoreButton(true, "Show less")))
    else View(Some(v), Some(MoreButton(false, "Show " + IntToString(|b| - |v|) + " more")))
  }

  /** A click on the button flips `expanded`. */
  function Click(u: Ui): (v: Ui)
    ensures v.expanded != u.expanded && v.isMobile == u.isMobile
  {
    u.(expanded := !u.expanded)
  }

  // ---------------------------------------------------------------------------
  // As written

  /**
    `hasHidden` as written: on a small screen, fewer bullets listed than there
    are. Since an unfolded entry lists every bullet, the rule can only hold
    while the list is folded.
   */
  function HasHiddenAsWritten(p: Props, u: Ui): (h: bool)
    ensures h ==> u.isMobile && !u.expanded
    ensures h <==> u.isMobile && !u.expanded && |Slice(Bullets(p), 0, MaxMobile(p))| < |Bullets(p)|
  {
    u.isMobile && |Bullets(p)| > |VisibleBullets(p, u)|
  }

  function RenderAsWritten(p: Props, u: Ui): View {
    Render(p, u, HasHiddenAsWritten(p, u))
  }

  /** As written the button only ever appears collapsed: "Show less" is never rendered, in any state. */
  lemma ShowLessUnreachable(p: Props, u: Ui)
    ensures RenderAsWritten(p, u).button.Some? ==> !u.expanded
    ensures RenderAsWritten(p, u).button.Some? ==> RenderAsWritten(p, u).button.value.caption != "Show less"
  {
    var w := RenderAsWritten(p, u);
    if w.button.Some? {
      assert !u.expanded;
      var n := |Bullets(p)| - |VisibleBullets(p, u)|;
      assert w.button.value.caption == "Show " + IntToString(n) + " more";
      assert w.button.value.caption[..5] == "Show ";
      assert "Show less"[..5] == "Show ";
      assert w.button.value.caption[5] == IntToString(n)[0];
      assert n > 0;
      assert IntToString(n)[0] != 'l' by {
        DigitsOfPositive(n);
      }
    }
  }

  /** The decimal form of a positive count starts with a digit. */
  lemma DigitsOfPositive(n: int)
    requires n > 0
    ensures '0' <= IntToString(n)[0] <= '9'
  {
  }

  /** And once it is clicked the button is gone, so the list cannot be folded again. */
  lemma ClickRemovesButton(p: Props, u: Ui)
    requires RenderAsWritten(p, u).button.Some?
    ensures RenderAsWritten(p, Click(u)).button.None?
    ensures RenderAsWritten(p, Click(u)).list == Some(Bullets(p))
  {
  }

  /** Two bullets with the default limit, on a small screen: the button is there ("Show 1 more") until clicked. */
  lemma TwoBulletsExample()
    ensures var p := Props("r", "c", "y", Some(["a", "b"]), None, None, None);
      && RenderAsWritten(p, Initial).button.Some?
      && RenderAsWritten(p, Click(Initial)).button.None?
  {
    var p := Props("r", "c", "y", Some(["a", "b"]), None, None, None);
    assert VisibleBullets(p, Initial) == ["a"];
  }

  // ---------------------------------------------------------------------------
  // As intended

  /** The intended rule: on a small screen, the collapsed list would leave some bullet out. */
  predicate HasHiddenIntended(p: Props, u: Ui) {
    u.isMobile && |Bullets(p)| > |Slice(Bullets(p), 0, MaxMobile(p))|
  }

  function RenderIntended(p: Props, u: Ui): View {
    Render(p, u, HasHiddenIntended(p, u))
  }

  /**
    With the intended rule the button folds and unfolds: collapsed it offers
    the hidden bullets by count; one click lists them all and offers "Show
    less"; a second click brings back exactly the collapsed view.
   */
  lemma IntendedToggleRoundTrip(p: Props, u: Ui)
    requires RenderIntended(p, u).button.Some? && !u.expanded
    ensures var n := |Bullets(p)| - |VisibleBullets(p, u)|;
      n > 0 && RenderIntended(p, u).button.value == MoreButton(false, "Show " + IntToString(n) + " more")
    ensures RenderIntended(p, Click(u)) == View(Some(Bullets(p)), Some(MoreButton(true, "Show less")))
    ensures RenderIntended(p, Click(Click(u))) == RenderIntended(p, u)
  {
    assert Click(Click(u)) == u;
  }

  /** The two rules agree wherever the list is collapsed; they differ only once it is unfolded. */
  lemma RulesAgreeWhenCollapsed(p: Props, u: Ui)
    requires !u.expanded
    ensures HasHiddenAsWritten(p, u) <==> HasHiddenIntended(p, u)
    ensures RenderAsWritten(p, u) == RenderIntended(p, u)
  {
  }

  // ---------------------------------------------------------------------------
  // Reachable states

  datatype Event = MediaChange(matches: bool) | ButtonClick

  /** One event under a rendering rule; a click does something only while the button is on screen. */
  function Step(p: Props, u: Ui, e: Event, intended: bool): (v: Ui)
    ensures v.isMobile == (if e.MediaChange? then !e.matches else u.isMobile)
  {
    match e
    case MediaChange(m) => OnMediaChange(u, m)
    case ButtonClick =>
      var w := if intended then RenderIntended(p, u) else RenderAsWritten(p, u);
      if w.button.Some? then Click(u) else u
  }

  function Run(p: Props, u: Ui, evs: seq<Event>, intended: bool): Ui
    decreases |evs|
  {
    if |evs| == 0 then u else Run(p, Step(p, u, evs[0], intended), evs[1..], intended)
  }

  /** As written, an unfolded entry stays unfolded whatever happens next. */
  lemma {:induction false} ExpandedIsAbsorbing(p: Props, u: Ui, evs: seq<Event>)
    requires u.expanded
    ensures Run(p, u, evs, false).expanded
    decreases |evs|
  {
    if |evs| > 0 {
      ShowLessUnreachable(p, u);
      ExpandedIsAbsorbing(p, Step(p, u, evs[0], false), evs[1..]);
    }
  }

  /** With the intended rule, an unfolded entry on a small screen with hidden bullets can be folded again. */
  lemma IntendedCanCollapse(p: Props, u: Ui)
    requires u.expanded && |Bullets(p)| > 0 && HasHiddenIntended(p, u)
    ensures !Run(p, u, [ButtonClick], true).expanded
  {
    assert Run(p, u, [ButtonClick], true) == Run(p, Step(p, u, ButtonClick, true), [], true);
  }
}
