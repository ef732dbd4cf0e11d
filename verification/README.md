# Portfolio site decision rules, in Dafny

This project models the decision rules of a React portfolio site (a
single-page app with sections for home, about, projects, experience, skills
and contact). These are the parts of its components and hooks that decide
something, written as pure functions and small state transitions, with their
properties proved:

- **Navigation** (`Nav.tsx`). It picks the section whose menu entry is
  underlined. The sources are the URL hash, a scroll fallback that scans
  section tops against an activation line, and the scroll-spy hook.
- **Scroll spy** (`useScrollSpy.ts`). It derives observer options from an
  optional pixel offset or a partial options object. It keeps a
  map from visible elements to their ratios, in insertion order, and picks the
  element with the highest ratio; ties go to the earliest entry.
- **Theme** (`Nav.tsx`, `useTheme.ts`). The dark/light toggles. The root's
  `dark` class, its `data-theme` attribute and the stored theme agree.
- **Language** (`Nav.tsx`). The DE/EN toggle and the `lng` query parameter.
- **Mobile menu** (`Nav.tsx`). Open/close by the burger, Escape, the overlay
  and the links.
- **Contact form** (`ContactForm.tsx`). The submission state machine
  idle → loading → ok/err, with a honeypot field, a required anti-spam token
  and the outcome of the POST as an input. The submission is split at its
  `await`, so widget events while the request is in flight are covered.
  Also the widget's token callbacks,
  the widget theme and the submit button.
- **Project card** (`ProjectCard.tsx`). The live/work-in-progress status, when
  the Live and GitHub actions are enabled, the disabled reason, and the
  technology badges with their "+N more" overflow.
- **Experience item** (`ExperienceItem.tsx`). On small screens it collapses
  the bullet list to `maxBulletsMobile` entries behind a "Show N more" button.
- **`slugify`**, written identically in three components, and the heading ids
  built from it (`project-…`, `exp-…`, `skills-…`).

The JavaScript semantics the rules depend on are written out in
`js_builtins.dfy`:

- truthiness of optional strings
- `Array.prototype.slice` with negative and out-of-range indices
- decimal formatting of integers in template literals
- `toLowerCase`
- the regular-expression class `\s`
- `replace` with a string pattern, which replaces only the first match

The insertion order of a JavaScript `Map` is in `insertion_map.dfy`.
`URLSearchParams.set`, as the URL Standard defines it, is in
`search_params.dfy`.

Browser state enters as plain inputs:

- section tops and the activation line as integers
- intersection ratios as reals, used only for comparison
- attribute and storage values as optional strings
- whether storage accepts a write as a boolean
- the media-query answer as a boolean
- the `fetch` outcome as a response status or a thrown error

Source paths below are relative to the repository root.

## Model

| member | source | states |
|---|---|---|
| `JsBuiltins.RemoveFirst` | src/components/Nav.tsx:32 | `replace("#", "")` removes only the first `#`: without one the text is unchanged, otherwise exactly that one character is gone |
| `JsBuiltins.Slice` | src/components/ProjectCard.tsx:145 | `slice(start, end)` never grows the list, equals the plain sub-list for in-range indices, and is empty when a non-negative `end` does not exceed `start` |
| `JsBuiltins.SliceFrom` | src/components/ProjectCard.tsx:146 | `slice(start)` is a suffix: from `start` for an in-range start, and the last `-start` items (or all) for a negative one |
| `JsBuiltins.SliceSplit` | src/components/ProjectCard.tsx:145-146 | for any split point, including negative ones, `slice(0, k)` followed by `slice(k)` gives back the whole list |
| `JsBuiltins.SliceHead` | src/components/ExperienceItem.tsx:38 | `slice(0, k)` is a prefix of length `min(k, n)` for `k >= 0` and `max(n + k, 0)` for negative `k` |
| `JsBuiltins.IntToString` | src/hooks/useScrollSpy.ts:25 | the decimal text of an integer starts with `-` exactly for negative numbers, is otherwise made of digits, and has no leading zero (a lone `0` for zero) |
| `JsBuiltins.Join` | src/components/ProjectCard.tsx:166-167 | `join(sep)` of no parts is empty; otherwise the text opens with the first part and closes with the last |
| `JsBuiltins.JoinAppend` | src/components/ProjectCard.tsx:166-167 | joining one more part appends the separator and that part, so joining from the back agrees with joining from the front |
| `JsBuiltins.LowerChar` | src/components/Nav.tsx:173 | one character lower-cased: an ASCII capital becomes its small letter, a character lower-casing keeps stays as it is, white space stays white space, and the output holds no character lower-casing would change again |
| `JsBuiltins.ToLowerCase` | src/components/Nav.tsx:173 | lower-casing never shortens the text and leaves no capital ASCII letter; on ASCII text it keeps the length, turns each capital into its small letter and keeps every other character in place |
| `JsBuiltins.ToLowerCaseOfFixed` | src/components/Nav.tsx:173 | text with no character that lower-casing changes is its own lower case |
| `JsBuiltins.ToLowerCaseIdempotent` | src/components/Nav.tsx:173 | lower-casing twice equals lower-casing once |
| `JsBuiltins.IntToStringRoundTrip` | src/hooks/useScrollSpy.ts:25 | reading the decimal text of any integer back gives that integer |
| `JsBuiltins.ToLowerCaseConcat` | src/components/SkillsGrid.tsx:43 | the modelled lower-casing (ASCII, U+0130, U+212A, others kept) works piecewise on any cut of the text |
| `Slug.DropSpaceRun` | src/components/SkillsGrid.tsx:44 | skipping a white-space run leaves a suffix that is empty or starts with a non-space, and everything skipped is white space |
| `Slug.CollapseSpaces` | src/components/SkillsGrid.tsx:44 | after replacing runs of `\s` no white space is left |
| `Slug.SpaceRunBecomesDash` | src/components/SkillsGrid.tsx:44 | a maximal white-space run between two texts becomes exactly one `-` between their results |
| `Slug.CollapseSpacesConcat` | src/components/SkillsGrid.tsx:44 | run replacement works piecewise on any cut that does not split a run |
| `Slug.KeepSlugChars` | src/components/SkillsGrid.tsx:45 | the filter leaves only `[a-z0-9-]` and never lengthens the text |
| `Slug.KeepSlugCharsContents` | src/components/SkillsGrid.tsx:45 | each `[a-z0-9-]` character survives as often as it occurred, and every other character is removed |
| `Slug.KeepSlugCharsOfSlug` | src/components/SkillsGrid.tsx:45 | the filter removes nothing from a text made only of `[a-z0-9-]` |
| `Slug.Slugify` | src/components/SkillsGrid.tsx:41-46 | the slug contains only `a-z`, `0-9` and `-` |
| `Slug.SlugOfSlug` | src/components/ProjectCard.tsx:223-228 | a text made only of `[a-z0-9-]` is its own slug |
| `Slug.SlugifyIdempotent` | src/components/ProjectCard.tsx:223-228 | slugifying twice gives the same as slugifying once |
| `Slug.SlugifyConcat` | src/components/ExperienceItem.tsx:144-149 | slugify works piecewise on any cut that does not split a white-space run |
| `Slug.SlugifyDashJoin` | src/components/ExperienceItem.tsx:144-149 | a dash between two texts survives slugify, so the slug of `a-b` is slug(a) + "-" + slug(b) |
| `Slug.SlugifyAsciiUpper` | src/components/SkillsGrid.tsx:43 | an upper-case ASCII letter is kept, as its lower-case letter |
| `Slug.SlugifyDropsOther` | src/components/SkillsGrid.tsx:45 | a character that is neither white space nor in `[a-z0-9-]` once lower-cased disappears |
| `InsertionMap.GetIffKey` | src/hooks/useScrollSpy.ts:52 | a key has a value exactly when it is among the map's keys |
| `InsertionMap.Set` | src/hooks/useScrollSpy.ts:57 | `Map.set`: the key gets the value, and other keys keep theirs. An existing key keeps its place; a new key goes last. Distinct keys stay distinct |
| `InsertionMap.Delete` | src/hooks/useScrollSpy.ts:58 | `Map.delete`: the key is gone, the other keys keep their values and their iteration order, distinct keys stay distinct |
| `InsertionMap.GetAtIndex` | src/hooks/useScrollSpy.ts:61 | with distinct keys, the value stored at a position is what a lookup of that position's key returns |
| `ScrollSpy.DeriveOptions` | src/hooks/useScrollSpy.ts:20-31 | no argument gives the default margin and five thresholds. An offset `n` gives the margin `"{-n}px 0px -55% 0px"`. An options object overrides the margin only when it is truthy and the threshold only when it is given |
| `ScrollSpy.OffsetMarginReadsBack` | src/hooks/useScrollSpy.ts:25 | the margin derived from an offset `n` starts with the decimal text of `-n`, which reads back as `-n` |
| `ScrollSpy.DefaultsAreStable` | src/hooks/useScrollSpy.ts:21-29 | offset 0 and an options object with an empty margin and no threshold both give the defaults |
| `ScrollSpy.ResolveElements` | src/hooks/useScrollSpy.ts:34-38 | the observed elements are exactly the non-empty ids that are present on the page |
| `ScrollSpy.ResolveElementsConcat` | src/hooks/useScrollSpy.ts:35-37 | resolving works id by id, keeping their order |
| `ScrollSpy.Mount` | src/hooks/useScrollSpy.ts:40-44 | with no resolved elements the active id becomes null; otherwise it is kept and the visible map starts empty |
| `ScrollSpy.ApplyEntry` | src/hooks/useScrollSpy.ts:55-58 | an entry with ratio > 0 (a missing ratio counts as 0) stores it, in place if its target is present and appended otherwise; one with ratio <= 0 removes its target and keeps the others in order. Other targets are untouched |
| `ScrollSpy.ApplyEntries` | src/hooks/useScrollSpy.ts:55-59 | processing a batch keeps the map's keys distinct |
| `ScrollSpy.LastEntryFor` | src/hooks/useScrollSpy.ts:55 | the entry found for a target is the batch's last entry for it: it sits at a position after which no entry names the target; with none, no entry names it |
| `ScrollSpy.ApplyEntriesGet` | src/hooks/useScrollSpy.ts:55-59 | after a batch, a target's value is decided by its last entry in the batch, or is unchanged if the batch does not name it |
| `ScrollSpy.ApplyEntriesKeys` | src/hooks/useScrollSpy.ts:55-59 | every key after a batch was in the map before or is named by the batch |
| `ScrollSpy.TopIndex` | src/hooks/useScrollSpy.ts:61-63 | the stable descending sort's first element: the highest ratio, and the earliest-inserted among equals |
| `ScrollSpy.TopIsUnique` | src/hooks/useScrollSpy.ts:61-63 | only one position satisfies that rule |
| `ScrollSpy.IdOrNull` | src/hooks/useScrollSpy.ts:64 | `topEl.id \|\| null`: null exactly for the empty id |
| `ScrollSpy.OnIntersect` | src/hooks/useScrollSpy.ts:54-66 | a batch updates the map. An empty map leaves the active id as it was; otherwise the active id is the top element's id (or null) |
| `ScrollSpy.MountValid` | src/hooks/useScrollSpy.ts:34-52 | after mounting, the map is empty, only the given ids are observed, and the active id is null or one of them |
| `ScrollSpy.OnIntersectValid` | src/hooks/useScrollSpy.ts:54-70 | as long as entries are about observed elements, the map's keys are observed, distinct ids, and the active id is one of them or null |
| `ThemeDom.ApplyTheme` | src/components/Nav.tsx:162-163 | after setting a theme on the root, the `dark` class is present iff the theme is "dark", `data-theme` is the theme, and the two agree |
| `ThemeDom.Persist` | src/hooks/useTheme.ts:16 | a storage write that succeeds stores the theme; a refused one leaves the old value |
| `UseTheme.InitialTheme` | src/hooks/useTheme.ts:6-9 | the initial theme is the `data-theme` attribute when non-empty, else "dark" |
| `UseTheme.Toggle` | src/hooks/useTheme.ts:19 | the toggle yields "dark" or "light", and "light" exactly when the theme was "dark" |
| `UseTheme.ToggleTwice` | src/hooks/useTheme.ts:19 | toggling twice restores the theme exactly when it was "dark" or "light" |
| `UseTheme.SyncEffect` | src/hooks/useTheme.ts:11-17 | after the effect, the class is present iff the theme is "dark" and `data-theme` is the theme. The stored value is the theme unless storage refused it |
| `UseTheme.SyncEffectIdempotent` | src/hooks/useTheme.ts:11-17 | running the effect twice with the same theme is the same as once |
| `UseTheme.Mount` | src/hooks/useTheme.ts:6-17 | after mounting, the page shows the hook's theme: the attribute is kept when non-empty, else "dark" |
| `UseTheme.ToggleStep` | src/hooks/useTheme.ts:19 | after a toggle and its effect, the page agrees with the new theme, and it is "light" iff it was "dark" |
| `UseTheme.ToggleStepTwice` | src/hooks/useTheme.ts:11-19 | from a mounted "dark" or "light" page, two toggles restore the root |
| `Nav.InitialCurrent` | src/components/Nav.tsx:31-34 | the initial section is the hash without its first `#` when that is a known section, else "home"; always a known section |
| `Nav.OnHash` | src/components/Nav.tsx:66-69 | a hash naming a known section selects it; any other hash leaves the selection unchanged |
| `Nav.LinkHashSelects` | src/components/Nav.tsx:239 | the hash `#id` of every menu link selects that section, both initially and on change |
| `Nav.LeadingCount` | src/components/Nav.tsx:94-99 | the scan passes exactly the sections before the first one below the line |
| `Nav.LeadingRunUnique` | src/components/Nav.tsx:94-99 | that leading run has only one possible length |
| `Nav.ChooseByScroll` | src/components/Nav.tsx:87-102 | the result is the last section of the leading run at or above the line, or `ids[0]` when the run is empty. With page sections it is always a known section |
| `Nav.ScanByScroll` | src/components/Nav.tsx:94-100 | the loop with `break` computes the same as `ChooseByScroll` |
| `Nav.ResolvedArePlaced` | src/components/Nav.tsx:83-85 | the elements found for the section ids carry only section ids |
| `Nav.NavSpyOptions` | src/components/Nav.tsx:44-53 | the options Nav passes reach the spy unchanged: rootMargin "-10% 0px -85% 0px" (not the hook's default) and thresholds 0, 0.25, 0.5, 0.75, 1 |
| `Nav.SyncFromObserver` | src/components/Nav.tsx:56-58 | a non-empty spy result replaces the selection; null leaves it unchanged |
| `Nav.SpyReportsFromPage` | src/components/Nav.tsx:53 | a valid scroll spy over the section ids only reports section ids |
| `Nav.SelectionStaysKnown` | src/components/Nav.tsx:31-102 | through any sequence of hash changes, scrolls and spy reports from the page, the selection stays a known section |
| `Nav.InitialNavTheme` | src/components/Nav.tsx:126-130 | `isDark` starts true iff the root has the dark class or `data-theme` is "dark" |
| `Nav.Bootstrap` | src/components/Nav.tsx:135-147 | a stored "dark" or "light" is applied to the root and to `isDark`; any other stored value changes nothing |
| `Nav.ToggleTheme` | src/components/Nav.tsx:154-170 | the next theme is "light" iff the root is dark by attribute or by class. Afterwards class, attribute and `isDark` agree, and the stored theme is the new one unless storage refused |
| `Nav.ToggleThemeTwice` | src/components/Nav.tsx:154-170 | on a consistent root with theme "dark" or "light", toggling twice restores the root and `isDark` |
| `Nav.TargetLang` | src/components/Nav.tsx:173-175 | the target is "en" exactly when the lower-cased current language (defaulting to "en") starts with "de", else "de" |
| `Nav.CurrentLanguage` | src/components/Nav.tsx:173 | the current language is the lower-cased `resolvedLanguage` if truthy, else the lower-cased `language` if truthy, else "en"; it holds no capital ASCII letter |
| `Nav.TargetLabel` | src/components/Nav.tsx:176 | the label is the target upper-cased: "EN" or "DE" |
| `Nav.ToggleLang` | src/components/Nav.tsx:178-185 | switches the language to the target and leaves exactly one `lng` parameter with the target. Other parameters keep their order |
| `Nav.ToggleLangFlips` | src/components/Nav.tsx:173-185 | after toggling, the next target is the other language |
| `SearchParams.SetParam` | src/components/Nav.tsx:183 | `searchParams.set`: exactly one pair with the name, carrying the value; other pairs unchanged and in order. A new name is appended at the end; an existing one keeps the place of its first pair, everything before it untouched and later pairs with the name removed |
| `SearchParams.ReplaceFirstPlace` | src/components/Nav.tsx:183 | replacing an existing name puts the new pair exactly at the first pair's position, after the untouched pairs before it |
| `SearchParams.SetParamIdempotent` | src/components/Nav.tsx:183 | setting the same parameter twice is the same as once |
| `Nav.MenuStep` | src/components/Nav.tsx:188-203 | the burger flips the menu, and Escape closes an open menu. An overlay or link click closes it; a click inside the panel changes nothing |
| `Nav.OnlyBurgerOpens` | src/components/Nav.tsx:286-344 | no event but the burger opens a closed menu |
| `ContactForm.Start` | src/components/ContactForm.tsx:69-99 | up to the `await`: a filled honeypot gives "ok" and a reset, with nothing sent, before the token is checked. Without a token: "err", nothing sent. Otherwise the fields plus the token are POSTed and the form stays "loading" |
| `ContactForm.Finish` | src/components/ContactForm.tsx:101-115 | after the `await`, on the form as it is then: 2xx gives "ok", a reset, a cleared token and a widget reset when there is a widget id; anything else gives "err" and keeps the rest |
| `ContactForm.Submit` | src/components/ContactForm.tsx:69-116 | a submission with no widget event in flight passes through "loading" and ends in "ok" or "err": honeypot "ok" with nothing sent; no token "err" with nothing sent; otherwise the POST, then 2xx "ok" with reset, cleared token and widget reset, anything else "err" with the token kept |
| `ContactForm.WidgetDuringRequest` | src/components/ContactForm.tsx:95-115 | a widget event during the request does not change what was sent; "ok" clears the token whatever the widget did, "err" keeps the token the widget left |
| `ContactForm.FormData` | src/components/ContactForm.tsx:74 | the form data holds `company`, `name`, `email`, `message` and `_gotcha` in document order, and looking up each name gives that field's value |
| `ContactForm.NoRequestWithoutToken` | src/components/ContactForm.tsx:84-99 | a request is sent exactly when the honeypot is empty and a token exists, and it carries the form fields followed by the token |
| `ContactForm.HoneypotNeverSends` | src/components/ContactForm.tsx:77-81 | a filled honeypot never reaches the backend and reports "ok" |
| `ContactForm.TokenUsedOnce` | src/components/ContactForm.tsx:101-105 | a sent submission ends in "ok" only for a 2xx response, and then the token is gone |
| `ContactForm.OnWidget` | src/components/ContactForm.tsx:49-51 | a solved challenge sets the token; an error or expiry clears it |
| `ContactForm.WidgetThenSubmit` | src/components/ContactForm.tsx:84-90 | with an empty honeypot, after an error, an expiry or an empty solved token the next submission sends nothing and reports "err"; after a solved token the request ends with that token |
| `ContactForm.WidgetTheme` | src/components/ContactForm.tsx:38-39 | the widget is dark exactly when `data-theme` is "dark", otherwise light |
| `ContactForm.WidgetFollowsAgreeingRoot` | src/components/ContactForm.tsx:38-39 | on a root whose class and attribute agree, the widget is dark iff the root has the dark class |
| `ContactForm.Button` | src/components/ContactForm.tsx:193-200 | the button is disabled, busy and reads "Sending…" exactly while loading; otherwise "Send" |
| `ContactForm.StatusMessage` | src/components/ContactForm.tsx:202-211 | a status message is shown exactly after "ok" or "err" |
| `ContactForm.ButtonAfterSubmit` | src/components/ContactForm.tsx:71-116 | during a submission the button is disabled; once it ends the button is enabled and a status message shows |
| `ProjectCard.StatusOf` | src/components/ProjectCard.tsx:22 | the status defaults to "live" |
| `ProjectCard.DisabledReason` | src/components/ProjectCard.tsx:31 | the reason is "Work in progress" iff the card is WIP, else "Not available" |
| `ProjectCard.LiveAction` | src/components/ProjectCard.tsx:27-78 | the Live action is a link iff a non-empty live URL is given and the card is not WIP; otherwise it is a disabled "Live" button with the reason |
| `ProjectCard.RepoAction` | src/components/ProjectCard.tsx:28-97 | the GitHub action is a link iff a non-empty repository URL is given, whatever the status |
| `ProjectCard.WipDisablesOnlyLive` | src/components/ProjectCard.tsx:24-31 | marking a card WIP disables Live with "Work in progress" and leaves an enabled repository link as it was |
| `ProjectCard.StatusBadge` | src/components/ProjectCard.tsx:105-134 | the badge reads "Live" or "In Progress" with the matching label |
| `ProjectCard.StatusBadgeMatchesLive` | src/components/ProjectCard.tsx:24-49 | the badge reads "In Progress" exactly for a work-in-progress card, and such a card's Live action is disabled with "Work in progress" |
| `ProjectCard.TitleId` | src/components/ProjectCard.tsx:30 | the title id is "project-" followed by the slug of the title |
| `ProjectCard.TitleIdReadsBack` | src/components/ProjectCard.tsx:30 | two cards share a title id exactly when their titles share a slug, and the id's slug part is a title with the same id |
| `ProjectCard.DisabledReasonId` | src/components/ProjectCard.tsx:177-179 | a disabled button's reason id is "disabled-reason-", the slug of its caption, "-", then the random suffix |
| `ProjectCard.TechBadges` | src/components/ProjectCard.tsx:136-174 | the visible badges are a prefix of the stack: for a non-negative `maxVisible` its first `min(maxVisible, n)` items, while a negative one hides the last `-maxVisible` items (as `slice` does). The "+N more" badge appears iff items remain, with N the number hidden, and lists them as its title |
| `ProjectCard.TechBadgesCoverAll` | src/components/ProjectCard.tsx:145-146 | visible followed by hidden is the whole stack, and the counts add up |
| `ProjectCard.MoreCountReadsBack` | src/components/ProjectCard.tsx:169 | the number printed in "+N more" reads back as the number of hidden items |
| `ProjectCard.CardBadges` | src/components/ProjectCard.tsx:57 | a card shows at most 8 badges, and a stack of at most 8 shows in full with no overflow badge |
| `ExperienceItem.Bullets` | src/components/ExperienceItem.tsx:18 | bullets default to none |
| `ExperienceItem.MaxMobile` | src/components/ExperienceItem.tsx:21 | `maxBulletsMobile` defaults to 1 |
| `ExperienceItem.TitleId` | src/components/ExperienceItem.tsx:23 | the title id is "exp-" followed by a slug |
| `ExperienceItem.TitleIdParts` | src/components/ExperienceItem.tsx:23 | the title id is "exp-" + slug(role) + "-" + slug(company) + "-" + slug(period) |
| `ExperienceItem.OnMediaChange` | src/components/ExperienceItem.tsx:29-35 | small screen exactly when `(min-width: 768px)` does not match; `expanded` untouched |
| `ExperienceItem.VisibleBullets` | src/components/ExperienceItem.tsx:37-38 | collapsed on a small screen: a prefix of the bullets, the first `min(maxBulletsMobile, n)` for a non-negative limit and all but the last `-maxBulletsMobile` (or none) for a negative one, as `slice` does; otherwise all of them |
| `ExperienceItem.HasHiddenAsWritten` | src/components/ExperienceItem.tsx:37-39 | `hasHidden` as written holds only on a small screen with the list folded, exactly when the folded list leaves a bullet out |
| `ExperienceItem.Render` | src/components/ExperienceItem.tsx:88-118 | the list appears iff there are bullets. The button appears iff there are bullets and the rule says some are hidden. It reads "Show less" when expanded and "Show N more" otherwise, with N the number not listed |
| `ExperienceItem.Click` | src/components/ExperienceItem.tsx:105 | a click flips `expanded` |
| `ExperienceItem.ShowLessUnreachable` | src/components/ExperienceItem.tsx:37-112 | as written, the button only ever appears collapsed, so "Show less" is never rendered |
| `ExperienceItem.ClickRemovesButton` | src/components/ExperienceItem.tsx:101-105 | as written, clicking the button makes it disappear and lists every bullet |
| `ExperienceItem.TwoBulletsExample` | src/components/ExperienceItem.tsx:37-39 | two bullets with the defaults on a small screen: the button shows, and disappears after one click |
| `ExperienceItem.IntendedToggleRoundTrip` | src/components/ExperienceItem.tsx:101-112 | with the corrected rule, collapsed reads "Show N more" with N > 0. One click lists all and reads "Show less"; a second click restores the collapsed view |
| `ExperienceItem.RulesAgreeWhenCollapsed` | src/components/ExperienceItem.tsx:37-39 | while collapsed the written and corrected rules render the same |
| `ExperienceItem.ExpandedIsAbsorbing` | src/components/ExperienceItem.tsx:26-39 | as written, once expanded an entry stays expanded through any clicks and media changes |
| `ExperienceItem.IntendedCanCollapse` | src/components/ExperienceItem.tsx:105-112 | with the corrected rule an expanded entry with hidden bullets collapses on a click |
| `SkillsGrid.HeadingId` | src/components/SkillsGrid.tsx:20 | the heading id is "skills-" followed by the slug of the name |
| `SkillsGrid.RenderCategory` | src/components/SkillsGrid.tsx:14-24 | a section is labelled by its own heading's id, and shows the name and items |
| `SkillsGrid.RenderGrid` | src/components/SkillsGrid.tsx:13-36 | one section per category, in order |
| `SkillsGrid.RenderGridConcat` | src/components/SkillsGrid.tsx:13 | rendering works category by category |
| `SkillsGrid.HeadingIdInjectiveOnSlug` | src/components/SkillsGrid.tsx:17-20 | two categories share a heading id exactly when their names' slugs are equal |

## Left out

- Browser machinery is left out. That covers the IntersectionObserver and MutationObserver lifecycles, adding and removing event listeners, `requestAnimationFrame` throttling of the scroll fallback, the body-overflow lock, and the synthetic scroll event after the menu closes. Their results are inputs.
- Geometry is left out: `getBoundingClientRect`, `scrollY` and `innerHeight * 0.3`. Section tops and the activation line are taken as integers.
- Intersection ratios and thresholds are reals, not IEEE doubles. A threshold given as a number or a list is kept as given.
- `ScrollSpy.DeriveOptions`: a numeric offset is an integer. Fractional, NaN and infinite offsets, and integers whose JavaScript decimal form uses exponent notation (at least 1e21), are not modelled. `null` behaves like no argument.
- React's render scheduling and the `prev === next ? prev : next` updates are left out. They avoid re-renders but do not change the value, so the model just assigns.
- URL serialisation and `history.replaceState` are left out. Only the query's name/value list is modelled.
- i18next is foreign code. `changeLanguage(next)` is taken to set both the resolved and the current language to `next`.
- The network is left out: the `fetch` outcome is an input. Focusing the widget's iframe after a missing token is left out.
- The Cloudflare Turnstile script is left out: rendering, re-rendering on theme changes, and the widget id it returns. The widget id is an input; its token callbacks are events.
- `ButtonDisabled`'s random id suffix comes from `Math.random`, so it is a parameter.
- `toLowerCase` is modelled exactly for ASCII and for U+0130 and U+212A. Every other non-ASCII character is left as it is. Its true lower case is non-ASCII and not white space, so this cannot change a slug or the "de" prefix test.
- `ProjectCard.TechBadges`: `maxVisible` is a JavaScript number, modelled as an integer. `slice` truncates a fractional limit, reads NaN as 0 and clamps infinities; those inputs are not modelled.
- `ExperienceItem.VisibleBullets`: `maxBulletsMobile` is a JavaScript number, modelled as an integer, with the same `slice` conversions left out as for `maxVisible`.
- `JsBuiltins.ToLowerCaseConcat` holds for the modelled lower-casing only. Real `toLowerCase` is context-sensitive for Greek capital sigma (final form at the end of a word), so piecewise lower-casing can differ there; the difference stays non-ASCII and cannot change a slug.
- `ContactForm.FormData`: the widget container sits inside the form, and the anti-spam widget by default adds its own hidden `cf-turnstile-response` input there. The form data is modelled without that input, so a request carries the token once, as the explicit `append` adds it, rather than possibly twice.
- Markup, Tailwind classes, icons, the accessible texts not named above, the `aria-controls` target, and React keys are left out.
- `CV.js`, `i18n.ts` and the presentation-only components are not part of this model.

## Findings

| source | as written | input that shows it | evidently intended | confidence | as-written member | corrected member |
|---|---|---|---|---|---|---|
| src/components/ExperienceItem.tsx:37-39 | `hasHidden` compares the bullets with the bullets currently listed. Once expanded, all are listed, so the button vanishes and its "Show less" caption can never render | two bullets, default `maxBulletsMobile` 1, small screen: "Show 1 more" is shown, and after one click there is no button and the list cannot be collapsed again | decide `hasHidden` on the collapsed list, `bullets.length > bullets.slice(0, maxBulletsMobile).length` on a small screen, so the button stays and toggles between "Show N more" and "Show less" | high (proved; not executed) | `ExperienceItem.ShowLessUnreachable` | `ExperienceItem.IntendedToggleRoundTrip` |
