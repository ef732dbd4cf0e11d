/**
  `slugify`, written out identically in ProjectCard.tsx, ExperienceItem.tsx
  and SkillsGrid.tsx: lower-case the text, replace every run of white space
  by one `-`, then drop every character outside `[a-z0-9-]`. The three
  stages are modelled separately so that each can be described on its own.
 */
module Slug {
  import opened JsBuiltins

  predicate IsSlugChar(c: char) {
    'a' <= c <= 'z' || '0' <= c <= '9' || c == '-'
  }

  /** Only characters of the class `[a-z0-9-]`. */
  predicate IsSlug(s: string) {
    forall i :: 0 <= i < |s| ==> IsSlugChar(s[i])
  }

  predicate NoSpace(s: string) {
    forall i :: 0 <= i < |s| ==> !IsRegexSpace(s[i])
  }

  predicate AllSpace(s: string) {
    forall i :: 0 <= i < |s| ==> IsRegexSpace(s[i])
  }

  /** `a + b` does not glue two white-space runs into one. */
  predicate Joinable(a: string, b: string) {
    a == [] || b == [] || !(IsRegexSpace(a[|a| - 1]) && IsRegexSpace(b[0]))
  }

  // ---------------------------------------------------------------------------
  // The three stages

  /** What is left after the white-space run at the front of `s`. */
  function DropSpaceRun(s: string): (r: string)
    ensures |r| <= |s| && r == s[|s| - |r|..]
    ensures r == [] || !IsRegexSpace(r[0])
    ensures r == [] ==> AllSpace(s)
    ensures AllSpace(s[..|s| - |r|])
  {
    if |s| > 0 && IsRegexSpace(s[0]) then
      var r := DropSpaceRun(s[1..]);
      assert s[..|s| - |r|] == [s[0]] + s[1..][..|s| - 1 - |r|];
      r
    else s
  }

  /** `s.replace(/\s+/g, "-")`: each maximal white-space run becomes one `-`. */
  function CollapseSpaces(s: string): (r: string)
    ensures NoSpace(r)
    decreases |s|
  {
    if |s| == 0 then ""
    else if IsRegexSpace(s[0]) then "-" + CollapseSpaces(DropSpaceRun(s))
    else [s[0]] + CollapseSpaces(s[1..])
  }

  /** `s.replace(/[^a-z0-9-]/g, "")` */
  function KeepSlugChars(s: string): (r: string)
    ensures IsSlug(r)
    ensures |r| <= |s|
  {
    if |s| == 0 then "" else (if IsSlugChar(s[0]) then [s[0]] else []) + KeepSlugChars(s[1..])
  }

  /** `slugify(s)`; the result is always made of `[a-z0-9-]` only. */
  function Slugify(s: string): (r: string)
    ensures IsSlug(r)
  {
    KeepSlugChars(CollapseSpaces(ToLowerCase(s)))
  }

  // ---------------------------------------------------------------------------
  // The filter keeps exactly the slug characters, in order

  /** Every slug character survives the filter as often as it occurs; every other character is gone. */
  lemma {:induction false} KeepSlugCharsContents(s: string)
    ensures forall c :: multiset(KeepSlugChars(s))[c] == if IsSlugChar(c) then multiset(s)[c] else 0
  {
    if |s| > 0 {
      KeepSlugCharsContents(s[1..]);
      assert s == [s[0]] + s[1..];
      assert multiset(s) == multiset([s[0]]) + multiset(s[1..]);
    }
  }

  /** The filter works character by character, so it keeps the order of what it keeps. */
  lemma {:induction false} KeepSlugCharsConcat(a: string, b: string)
    ensures KeepSlugChars(a + b) == KeepSlugChars(a) + KeepSlugChars(b)
    decreases |a|
  {
    if |a| == 0 {
      ConcatEmpty(a, b);
    } else {
      ConcatHead(a, b);
      KeepSlugCharsConcat(a[1..], b);
    }
  }

  /** Nothing but characters outside `[a-z0-9-]` is removed. */
  lemma {:induction false} KeepSlugCharsOfSlug(s: string)
    requires IsSlug(s)
    ensures KeepSlugChars(s) == s
  {
    if |s| > 0 {
      KeepSlugCharsOfSlug(s[1..]);
    }
  }

  // ---------------------------------------------------------------------------
  // White-space runs

  lemma {:induction false} DropSpaceRunAllSpace(a: string, b: string)
    requires AllSpace(a)
    ensures DropSpaceRun(a + b) == DropSpaceRun(b)
    decreases |a|
  {
    if |a| == 0 {
      ConcatEmpty(a, b);
    } else {
      ConcatHead(a, b);
      DropSpaceRunAllSpace(a[1..], b);
    }
  }

  lemma {:induction false} DropSpaceRunConcat(a: string, b: string)
    requires !AllSpace(a)
    ensures DropSpaceRun(a + b) == DropSpaceRun(a) + b
    decreases |a|
  {
    assert |a| > 0;
    if IsRegexSpace(a[0]) {
      ConcatHead(a, b);
      DropSpaceRunConcat(a[1..], b);
    }
  }

  lemma {:induction false} CollapseSpacesOfNoSpace(s: string)
    requires NoSpace(s)
    ensures CollapseSpaces(s) == s
  {
    if |s| > 0 {
      CollapseSpacesOfNoSpace(s[1..]);
    }
  }

  /** A non-empty run of white space on its own becomes a single `-`. */
  lemma CollapseSpaceRun(run: string)
    requires 0 < |run| && AllSpace(run)
    ensures CollapseSpaces(run) == "-"
  {
    DropSpaceRunAllSpace(run, []);
    assert run + [] == run;
  }

  /** A text that starts with white space collapses to `-` and the collapse of what follows its leading run. */
  lemma CollapseLeadingRun(s: string)
    requires 0 < |s| && IsRegexSpace(s[0])
    ensures CollapseSpaces(s) == "-" + CollapseSpaces(DropSpaceRun(s))
  {
  }

  /** Replacing runs works piecewise as long as the cut does not split a run. */
  lemma {:induction false} CollapseSpacesConcat(a: string, b: string)
    requires Joinable(a, b)
    ensures CollapseSpaces(a + b) == CollapseSpaces(a) + CollapseSpaces(b)
    decreases |a|
  {
    if |a| == 0 {
      ConcatEmpty(a, b);
    } else if |b| == 0 {
      ConcatEmpty(a, b);
    } else if !IsRegexSpace(a[0]) {
      assert Joinable(a[1..], b);
      CollapseSpacesConcat(a[1..], b);
      CollapseSpacesAfterChar(a[0], a[1..], b);
      ConcatHead(a, b);
    } else if AllSpace(a) {
      CollapseSpacesAfterRun(a, b);
    } else {
      var d := DropSpaceRun(a);
      CollapseSpacesAfterMixed(a, b);
      CollapseSpacesConcat(d, b);
      ConcatAssoc("-", CollapseSpaces(d), CollapseSpaces(b));
    }
  }

  /** The step of `CollapseSpacesConcat` for a text that starts with a non-space character. */
  lemma CollapseSpacesAfterChar(c: char, rest: string, b: string)
    requires !IsRegexSpace(c)
    requires CollapseSpaces(rest + b) == CollapseSpaces(rest) + CollapseSpaces(b)
    ensures CollapseSpaces([c] + (rest + b)) == CollapseSpaces([c] + rest) + CollapseSpaces(b)
  {
    CollapseSpacesCons(c, rest + b);
    CollapseSpacesCons(c, rest);
    ConcatAssoc([c], CollapseSpaces(rest), CollapseSpaces(b));
  }

  /** A non-space character in front passes through unchanged. */
  lemma CollapseSpacesCons(c: char, s: string)
    requires !IsRegexSpace(c)
    ensures CollapseSpaces([c] + s) == [c] + CollapseSpaces(s)
  {
    assert ([c] + s)[1..] == s;
  }

  lemma CollapseSpacesAfterRun(a: string, b: string)
    requires 0 < |a| && AllSpace(a) && 0 < |b| && !IsRegexSpace(b[0])
    ensures CollapseSpaces(a + b) == CollapseSpaces(a) + CollapseSpaces(b)
  {
    assert (a + b)[0] == a[0];
    CollapseLeadingRun(a + b);
    DropSpaceRunAllSpace(a, b);
    CollapseSpaceRun(a);
  }

  /** The step of `CollapseSpacesConcat` for a text with a leading run and more after it. */
  lemma CollapseSpacesAfterMixed(a: string, b: string)
    requires 0 < |a| && IsRegexSpace(a[0]) && !AllSpace(a)
    ensures |DropSpaceRun(a)| < |a|
    ensures DropSpaceRun(a) != [] && DropSpaceRun(a)[|DropSpaceRun(a)| - 1] == a[|a| - 1]
    ensures CollapseSpaces(a + b) == "-" + CollapseSpaces(DropSpaceRun(a) + b)
    ensures CollapseSpaces(a) == "-" + CollapseSpaces(DropSpaceRun(a))
  {
    assert (a + b)[0] == a[0];
    CollapseLeadingRun(a + b);
    CollapseLeadingRun(a);
    DropSpaceRunConcat(a, b);
  }

  /**
    A maximal white-space run between two pieces of text turns into exactly
    one `-` between the two pieces' own results.
   */
  lemma SpaceRunBecomesDash(a: string, run: string, b: string)
    requires 0 < |run| && AllSpace(run)
    requires a == [] || !IsRegexSpace(a[|a| - 1])
    requires b == [] || !IsRegexSpace(b[0])
    ensures CollapseSpaces(a + run + b) == CollapseSpaces(a) + "-" + CollapseSpaces(b)
  {
    CollapseSpacesConcat(a, run);
    CollapseSpacesConcat(a + run, b);
    CollapseSpaceRun(run);
  }

  // ---------------------------------------------------------------------------
  // Lower-casing and the whole function

  lemma {:induction false} ToLowerCaseOfSlug(s: string)
    requires IsSlug(s)
    ensures ToLowerCase(s) == s
  {
    if |s| > 0 {
      ToLowerCaseOfSlug(s[1..]);
    }
  }

  /** Lower-casing keeps white space at the ends of a text white space, and everything else not white space. */
  lemma LowerEnds(a: string)
    requires |a| > 0
    ensures |ToLowerCase(a)| > 0
    ensures IsRegexSpace(ToLowerCase(a)[0]) <==> IsRegexSpace(a[0])
    ensures IsRegexSpace(ToLowerCase(a)[|ToLowerCase(a)| - 1]) <==> IsRegexSpace(a[|a| - 1])
  {
    var n := |a|;
    assert a == a[..n - 1] + [a[n - 1]];
    ToLowerCaseConcat(a[..n - 1], [a[n - 1]]);
    assert ToLowerCase([a[n - 1]]) == LowerChar(a[n - 1]) + ToLowerCase([]);
  }

  /** Applying `slugify` twice gives the same as applying it once. */
  lemma SlugifyIdempotent(s: string)
    ensures Slugify(Slugify(s)) == Slugify(s)
  {
    SlugOfSlug(Slugify(s));
  }

  /** A text already made of slug characters is its own slug. */
  lemma SlugOfSlug(s: string)
    requires IsSlug(s)
    ensures Slugify(s) == s
  {
    ToLowerCaseOfSlug(s);
    CollapseSpacesOfNoSpace(s);
    KeepSlugCharsOfSlug(s);
  }

  /** `slugify` works piecewise on any cut that does not split a white-space run. */
  lemma SlugifyConcat(a: string, b: string)
    requires Joinable(a, b)
    ensures Slugify(a + b) == Slugify(a) + Slugify(b)
  {
    ToLowerCaseConcat(a, b);
    if |a| > 0 && |b| > 0 {
      LowerEnds(a);
      LowerEnds(b);
    }
    CollapseSpacesConcat(ToLowerCase(a), ToLowerCase(b));
    KeepSlugCharsConcat(CollapseSpaces(ToLowerCase(a)), CollapseSpaces(ToLowerCase(b)));
  }

  /** A dash between two strings survives, so the slug of a dash-joined pair joins the two slugs. */
  lemma SlugifyDashJoin(a: string, b: string)
    ensures Slugify(a + "-" + b) == Slugify(a) + "-" + Slugify(b)
  {
    var dash := "-";
    assert IsSlug(dash);
    SlugOfSlug(dash);
    SlugifyConcat(a, dash);
    assert (a + dash)[|a + dash| - 1] == '-';
    SlugifyConcat(a + dash, b);
  }

  /** An upper-case ASCII letter is kept, as its lower-case letter. */
  lemma SlugifyAsciiUpper(c: char)
    requires IsAsciiUpper(c)
    ensures Slugify([c]) == [(c as int + 32) as char]
  {
    assert ToLowerCase([c]) == LowerChar(c) + ToLowerCase([]);
    CollapseSpacesOfNoSpace(LowerChar(c));
    KeepSlugCharsOfSlug(LowerChar(c));
  }

  /** A character that is neither white space nor a slug character once lower-cased is dropped. */
  lemma SlugifyDropsOther(c: char)
    requires !IsRegexSpace(c)
    requires forall i :: 0 <= i < |LowerChar(c)| ==> !IsSlugChar(LowerChar(c)[i])
    ensures Slugify([c]) == ""
  {
    assert ToLowerCase([c]) == LowerChar(c) + ToLowerCase([]);
    CollapseSpacesOfNoSpace(LowerChar(c));
    KeepSlugCharsContents(LowerChar(c));
  }
}
