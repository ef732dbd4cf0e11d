/**
  The project card (src/components/ProjectCard.tsx): a "live" or
  "work in progress" status, the live-demo and repository actions (each a
  link or a disabled button with a reason), the heading id derived from the
  title, and the technology badges, of which at most a fixed number are shown
  and the rest are folded into a "+n more" badge.
 */
module ProjectCard {
  import opened JsBuiltins
  import opened Slug

  /** The card's props; `None` stands for a prop that is not given. */
  datatype Props = Props(title: string, desc: string, stack: seq<string>,
                         live: Option<string>, repo: Option<string>, status: Option<string>)

  /** The `status` prop with its default "live" filled in. */
  function StatusOf(p: Props): (s: string)
    ensures p.status.None? ==> s == "live"
    ensures p.status.Some? ==> s == p.status.value
  {
    if p.status.Some? then p.status.value else "live"
  }

  predicate IsWip(p: Props) {
    StatusOf(p) == "wip"
  }

  /** Why a disabled action is disabled: the card is a work in progress, or the link is missing. */
  function DisabledReason(p: Props): (r: string)
    ensures r == "Work in progress" <==> IsWip(p)
    ensures r == "Not available" <==> !IsWip(p)
  {
    if IsWip(p) then "Work in progress" else "Not available"
  }

  /** An action button: a link to open in a new tab, or a disabled button saying why. */
  datatype Action = Link(href: string) | Disabled(caption: string, reason: string)

  /** The "Live" action: a link only when a live URL is given and the card is not a work in progress. */
  function LiveAction(p: Props): (a: Action)
    ensures a.Link? <==> Truthy(p.live) && !IsWip(p)
    ensures a.Link? ==> a.href == p.live.value
    ensures a.Disabled? ==> a.caption == "Live" && a.reason == DisabledReason(p)
  {
    if Truthy(p.live) && !IsWip(p) then Link(p.live.value) else Disabled("Live", DisabledReason(p))
  }

  /** The "GitHub" action: a link exactly when a repository URL is given; the status does not matter. */
  function RepoAction(p: Props): (a: Action)
    ensures a.Link? <==> Truthy(p.repo)
    ensures a.Link? ==> a.href == p.repo.value
    ensures a.Disabled? ==> a.caption == "GitHub" && a.reason == DisabledReason(p)
  {
    if Truthy(p.repo) then Link(p.repo.value) else Disabled("GitHub", DisabledReason(p))
  }

  /**
    Marking a card as a work in progress disables its live link, says so as
    the reason, and leaves its repository link as it was.
   */
  lemma WipDisablesOnlyLive(p: Props)
    ensures var w := p.(status := Some("wip"));
      && LiveAction(w) == Disabled("Live", "Work in progress")
      && RepoAction(w).Link? == RepoAction(p).Link?
      && (RepoAction(p).Link? ==> RepoAction(w) == RepoAction(p))
  {
  }

  /** The status badge: its accessible label and its visible text. */
  function StatusBadge(isWip: bool): (b: (string, string))
    ensures isWip ==> b == ("Status: Work in progress", "In Progress")
    ensures !isWip ==> b == ("Status: Live", "Live")
  {
    if isWip then ("Status: Work in progress", "In Progress") else ("Status: Live", "Live")
  }

  /** The badge and the Live action agree: a card showing "In Progress" never offers a live link. */
  lemma StatusBadgeMatchesLive(p: Props)
    ensures StatusBadge(IsWip(p)).1 == "In Progress" <==> IsWip(p)
    ensures StatusBadge(IsWip(p)).1 == "In Progress" ==> LiveAction(p) == Disabled("Live", "Work in progress")
  {
  }

  /** The heading's id, which also labels the card. */
  function TitleId(title: string): (id: string)
    ensures |id| >= 8 && id[..8] == "project-" && IsSlug(id[8..])
    ensures id[8..] == Slugify(title)
  {
    var id := "project-" + Slugify(title);
    assert id[8..] == Slugify(title);
    id
  }

  /**
    Two cards get the same heading id exactly when their titles have the same
    slug, and the part after "project-" is itself a title with that id.
   */
  lemma TitleIdReadsBack(a: string, b: string)
    ensures TitleId(a) == TitleId(b) <==> Slugify(a) == Slugify(b)
    ensures TitleId(TitleId(a)[8..]) == TitleId(a)
  {
    var ia, ib := TitleId(a), TitleId(b);
    if ia == ib {
      assert ia[8..] == ib[8..];
    }
    SlugifyIdempotent(a);
    assert "project-" + ia[8..] == ia;
  }

  /**
    The id of a disabled button's hidden reason, which the button names as its
    description; `suffix` stands for the five random base-36 characters.
   */
  function DisabledReasonId(caption: string, suffix: string): (id: string)
    ensures |id| == 17 + |Slugify(caption)| + |suffix|
    ensures id[..16] == "disabled-reason-" && IsSlug(id[16..16 + |Slugify(caption)|])
    ensures id[16 + |Slugify(caption)|] == '-' && id[17 + |Slugify(caption)|..] == suffix
    ensures id[16..16 + |Slugify(caption)|] == Slugify(caption)
  {
    var id := "disabled-reason-" + Slugify(caption) + "-" + suffix;
    assert id[16..16 + |Slugify(caption)|] == Slugify(caption);
    id
  }

  // ---------------------------------------------------------------------------
  // Technology badges

  /** How many badges a card shows before folding the rest. */
  const MaxVisibleBadges: int := 8

  /** The "+n more" badge: its text and the hidden items' names as its title. */
  datatype MoreBadge = MoreBadge(text: string, title: string, ariaLabel: string)

  datatype Badges = Badges(visible: seq<string>, more: Option<MoreBadge>)

  /**
    `TechBadges`: the first `maxVisible` items as badges (with the index rules
    of `slice`, so a negative limit counts from the end), and, when items
    remain, one more badge counting them and listing them.
   */
  function TechBadges(items: seq<string>, maxVisible: int): (b: Badges)
    ensures b.visible <= items
    ensures 0 <= maxVisible ==> |b.visible| == (if maxVisible < |items| then maxVisible else |items|)
    ensures maxVisible < 0 ==> |b.visible| == (if |items| + maxVisible < 0 then 0 else |items| + maxVisible)
    ensures b.more.Some? <==> |b.visible| < |items|
    ensures b.more.Some? ==>
      var hidden := items[|b.visible|..];
      && b.more.value.text == "+" + IntToString(|hidden|) + " more"
      && b.more.value.title == Join(hidden, ", ")
      && b.more.value.ariaLabel == "More: " + Join(hidden, ", ")
  {
    var visible := Slice(items, 0, maxVisible);
    var hidden := SliceFrom(items, maxVisible);
    SliceSplit(items, maxVisible);
    SliceHead(items, maxVisible);
    assert hidden == items[|visible|..];
    if |hidden| > 0 then
      Badges(visible, Some(MoreBadge("+" + IntToString(|hidden|) + " more", Join(hidden, ", "), "More: " + Join(hidden, ", "))))
    else
      Badges(visible, None)
  }

  /** No item is lost: the shown badges followed by the items the "+n more" badge counts are the whole stack. */
  lemma TechBadgesCoverAll(items: seq<string>, maxVisible: int)
    ensures var b := TechBadges(items, maxVisible);
      var hiddenCount := if b.more.Some? then |items| - |b.visible| else 0;
      b.visible + items[|b.visible|..] == items && |b.visible| + hiddenCount == |items|
  {
    PrefixThenRest(TechBadges(items, maxVisible).visible, items);
  }

  /** The count printed on the "+n more" badge reads back as the number of hidden items. */
  lemma MoreCountReadsBack(items: seq<string>, maxVisible: int)
    requires TechBadges(items, maxVisible).more.Some?
    ensures var b := TechBadges(items, maxVisible);
      DecimalValue(b.more.value.text[1..|b.more.value.text| - 5]) == Some(|items| - |b.visible|)
  {
    var b := TechBadges(items, maxVisible);
    var digits := IntToString(|items| - |b.visible|);
    assert b.more.value.text[1..|b.more.value.text| - 5] == digits;
    IntToStringRoundTrip(|items| - |b.visible|);
  }

  /** On a card: at most eight badges, and a stack of eight or fewer shows in full. */
  lemma CardBadges(p: Props)
    ensures |TechBadges(p.stack, MaxVisibleBadges).visible| <= 8
    ensures |p.stack| <= 8 <==> TechBadges(p.stack, MaxVisibleBadges) == Badges(p.stack, None)
  {
  }
}
