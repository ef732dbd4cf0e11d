/**
  The skills grid (src/components/SkillsGrid.tsx): one section per skill
  category, labelled by its heading, whose id is derived from the category's
  name; the items are listed in order.
 */
module SkillsGrid {
  import opened Slug

  datatype Category = Category(name: string, items: seq<string>)

  /** One rendered section: the id it is labelled by, its heading's id and text, and its items. */
  datatype Section = Section(labelledBy: string, headingId: string, heading: string, items: seq<string>)

  /** The heading id of a category: "skills-" followed by the slug of its name. */
  function HeadingId(name: string): (id: string)
    ensures |id| >= 7 && id[..7] == "skills-" && IsSlug(id[7..])
    ensures id[7..] == Slugify(name)
  {
    var id := "skills-" + Slugify(name);
    assert id[7..] == Slugify(name);
    id
  }

  /** A section is labelled by its own heading and shows the category's name and items. */
  function RenderCategory(c: Category): (s: Section)
    ensures s.labelledBy == s.headingId
    ensures s.headingId == HeadingId(c.name)
    ensures s.heading == c.name && s.items == c.items
  {
    var id := HeadingId(c.name);
    Section(id, id, c.name, c.items)
  }

  /** The grid: one section per category, in order. */
  function RenderGrid(cs: seq<Category>): (ss: seq<Section>)
    ensures |ss| == |cs|
    ensures forall i :: 0 <= i < |cs| ==> ss[i] == RenderCategory(cs[i])
  {
    if |cs| == 0 then [] else [RenderCategory(cs[0])] + RenderGrid(cs[1..])
  }

  /** Rendering a list of categories works category by category, so grids can be split and joined. */
  lemma {:induction false} RenderGridConcat(a: seq<Category>, b: seq<Category>)
    ensures RenderGrid(a + b) == RenderGrid(a) + RenderGrid(b)
  {
    if |a| == 0 {
      assert a + b == b;
    } else {
      assert (a + b)[1..] == a[1..] + b;
      RenderGridConcat(a[1..], b);
    }
  }

  /**
    Two categories get the same heading id exactly when their names have the
    same slug -- for instance names that differ only in letter case.
   */
  lemma HeadingIdInjectiveOnSlug(a: string, b: string)
    ensures HeadingId(a) == HeadingId(b) <==> Slugify(a) == Slugify(b)
  {
    var ia := HeadingId(a);
    var ib := HeadingId(b);
    if ia == ib {
      assert ia[7..] == ib[7..];
    }
  }
}
