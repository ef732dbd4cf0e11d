/**
  The `useScrollSpy` hook (src/hooks/useScrollSpy.ts): deriving the
  IntersectionObserver options from the hook's optional second argument,
  resolving section ids to elements, and the observer callback's bookkeeping
  of which sections are visible and which of them is the active one.

  An element is identified by its id: the hook obtains its elements with
  `document.getElementById`, which yields one element per id. Intersection
  ratios are reals and are only compared.
 */
module ScrollSpy {
  import opened JsBuiltins
  import InsertionMap

  // ---------------------------------------------------------------------------
  // Options

  /** A `threshold` value: one number or a list of numbers. */
  datatype Threshold = One(t: real) | Many(ts: seq<real>)

  const DefaultThreshold: seq<real> := [0.0, 0.25, 0.5, 0.75, 1.0]
  const DefaultRootMargin: string := "0px 0px -55% 0px"
  /** What follows the top margin when the hook is given a pixel offset. */
  const OffsetMarginTail: string := "px 0px -55% 0px"

  /** The fields of a `Partial<IntersectionObserverInit>` that the hook reads. */
  datatype PartialInit = PartialInit(rootMargin: Option<string>, threshold: Option<Threshold>)

  /** The hook's second argument: absent, a pixel offset, or an options object. */
  datatype Second = Absent | Offset(px: int) | Init(init: PartialInit)

  datatype SpyOptions = SpyOptions(rootMargin: string, threshold: Threshold)

  /**
    The memoised `opts`. Without an argument both fields are the defaults; an
    offset `n` moves the top margin to `-n` pixels; an options object
    overrides exactly the fields it supplies, a `rootMargin` only when it is
    a non-empty string.
   */
  function DeriveOptions(second: Second): (o: SpyOptions)
    ensures second.Absent? ==> o == SpyOptions(DefaultRootMargin, Many(DefaultThreshold))
    ensures second.Offset? ==> o.rootMargin == IntToString(-second.px) + OffsetMarginTail
    ensures !second.Init? ==> o.threshold == Many(DefaultThreshold)
    ensures second.Init? && Truthy(second.init.rootMargin) ==> o.rootMargin == second.init.rootMargin.value
    ensures second.Init? && !Truthy(second.init.rootMargin) ==> o.rootMargin == DefaultRootMargin
    ensures second.Init? && second.init.threshold.Some? ==> o.threshold == second.init.threshold.value
    ensures second.Init? && second.init.threshold.None? ==> o.threshold == Many(DefaultThreshold)
  {
    match second
    case Absent => SpyOptions(DefaultRootMargin, Many(DefaultThreshold))
    case Offset(n) => SpyOptions(IntToString(-n) + OffsetMarginTail, Many(DefaultThreshold))
    case Init(init) =>
      SpyOptions(
        if Truthy(init.rootMargin) then init.rootMargin.value else DefaultRootMargin,
        if init.threshold.Some? then init.threshold.value else Many(DefaultThreshold))
  }

  /** The top margin written for an offset `n` reads back as `-n` pixels. */
  lemma OffsetMarginReadsBack(n: int)
    ensures exists top :: DeriveOptions(Offset(n)).rootMargin == top + OffsetMarginTail
                          && DecimalValue(top) == Some(-n)
  {
    IntToStringRoundTrip(-n);
    assert DeriveOptions(Offset(n)).rootMargin == IntToString(-n) + OffsetMarginTail;
  }

  /** An offset of zero, and an options object that supplies nothing usable, both give the defaults. */
  lemma DefaultsAreStable(empty: Option<string>)
    requires !Truthy(empty)
    ensures DeriveOptions(Offset(0)) == DeriveOptions(Absent)
    ensures DeriveOptions(Init(PartialInit(empty, None))) == DeriveOptions(Absent)
  {
    assert IntToString(-0) == [DigitChar(0)] == "0";
    assert "0" + OffsetMarginTail == DefaultRootMargin;
  }

  // ---------------------------------------------------------------------------
  // Elements

  /**
    `ids.map(id => document.getElementById(id)).filter(Boolean)`, where
    `present` holds the ids the document has an element for; no element has
    the empty id.
   */
  function ResolveElements(ids: seq<string>, present: set<string>): (els: seq<string>)
    ensures |els| <= |ids|
    ensures forall e :: e in els ==> e in ids && e in present && e != ""
    ensures forall id :: id in ids && id in present && id != "" ==> id in els
  {
    if |ids| == 0 then []
    else
      (if ids[0] in present && ids[0] != "" then [ids[0]] else [])
      + ResolveElements(ids[1..], present)
  }

  /** Resolution keeps the order of the ids. */
  lemma {:induction false} ResolveElementsConcat(a: seq<string>, b: seq<string>, present: set<string>)
    ensures ResolveElements(a + b, present) == ResolveElements(a, present) + ResolveElements(b, present)
  {
    if |a| == 0 {
      assert a + b == b;
    } else {
      assert (a + b)[0] == a[0];
      assert (a + b)[1..] == a[1..] + b;
      ResolveElementsConcat(a[1..], b, present);
    }
  }

  // ---------------------------------------------------------------------------
  // The observer callback

  /** One IntersectionObserverEntry: its target's id and its `intersectionRatio`, possibly missing. */
  datatype Entry = Entry(target: string, ratio: Option<real>)

  /** `entry.intersectionRatio ?? 0` */
  function Ratio(e: Entry): real {
    if e.ratio.Some? then e.ratio.value else 0.0
  }

  /** The `visibleMap`: element id to its latest positive ratio, in insertion order. */
  type Visible = InsertionMap.Entries<real>

  /** One step of the callback's loop: a positive ratio is stored, any other removes the element. */
  function ApplyEntry(m: Visible, e: Entry): (r: Visible)
    ensures Ratio(e) > 0.0 ==> InsertionMap.Get(r, e.target) == Some(Ratio(e))
    ensures Ratio(e) <= 0.0 ==> InsertionMap.Get(r, e.target) == None
    ensures forall k :: k != e.target ==> InsertionMap.Get(r, k) == InsertionMap.Get(m, k)
    ensures Ratio(e) > 0.0 && InsertionMap.Get(m, e.target).Some? ==> InsertionMap.Keys(r) == InsertionMap.Keys(m)
    ensures Ratio(e) > 0.0 && InsertionMap.Get(m, e.target).None? ==> InsertionMap.Keys(r) == InsertionMap.Keys(m) + [e.target]
    ensures Ratio(e) <= 0.0 ==> InsertionMap.Keys(r) == InsertionMap.Without(InsertionMap.Keys(m), e.target)
    ensures InsertionMap.KeysDistinct(m) ==> InsertionMap.KeysDistinct(r)
  {
    if Ratio(e) > 0.0 then InsertionMap.Set(m, e.target, Ratio(e))
    else InsertionMap.Delete(m, e.target)
  }

  /** The whole `for (const entry of entries)` loop. */
  function ApplyEntries(m: Visible, es: seq<Entry>): (r: Visible)
    ensures InsertionMap.KeysDistinct(m) ==> InsertionMap.KeysDistinct(r)
  {
    if |es| == 0 then m else ApplyEntry(ApplyEntries(m, es[..|es| - 1]), es[|es| - 1])
  }

  /** The last entry of the batch that concerns element `k`. */
  function LastEntryFor(es: seq<Entry>, k: string): (r: Option<Entry>)
    ensures r.Some? ==> r.value in es && r.value.target == k
    ensures r.None? ==> forall e :: e in es ==> e.target != k
    ensures r.Some? ==> exists i :: 0 <= i < |es| && es[i] == r.value && forall j :: i < j < |es| ==> es[j].target != k
  {
    if |es| == 0 then None
    else if es[|es| - 1].target == k then Some(es[|es| - 1])
    else
      var r := LastEntryFor(es[..|es| - 1], k);
      assert forall e :: e in es ==> e in es[..|es| - 1] || e == es[|es| - 1];
      r
  }

  /**
    After a batch, an element's entry in the map is decided by the batch's
    last entry for it (its ratio if positive, removed otherwise); elements the
    batch does not mention keep what they had.
   */
  lemma {:induction false} ApplyEntriesGet(m: Visible, es: seq<Entry>, k: string)
    ensures InsertionMap.Get(ApplyEntries(m, es), k) ==
      match LastEntryFor(es, k)
      case None => InsertionMap.Get(m, k)
      case Some(e) => if Ratio(e) > 0.0 then Some(Ratio(e)) else None
  {
    if |es| > 0 && es[|es| - 1].target != k {
      ApplyEntriesGet(m, es[..|es| - 1], k);
    }
  }

  /** Index `i` holds a maximal ratio, and every earlier entry's ratio is strictly smaller. */
  predicate IsTop(m: Visible, i: int) {
    && 0 <= i < |m|
    && (forall j :: 0 <= j < |m| ==> m[j].1 <= m[i].1)
    && (forall j :: 0 <= j < i ==> m[j].1 < m[i].1)
  }

  /**
    The first element of `[...visibleMap.entries()].sort((a, b) => b[1] - a[1])`:
    the sort is stable, so it is the earliest-inserted entry among those with
    the highest ratio.
   */
  function TopIndex(m: Visible): (i: nat)
    requires |m| > 0
    ensures IsTop(m, i)
    decreases |m|
  {
    if |m| == 1 then 0
    else
      var j := TopIndex(m[..|m| - 1]);
      if m[|m| - 1].1 > m[j].1 then |m| - 1 else j
  }

  /** There is only one top index, so the choice does not depend on how it is found. */
  lemma TopIsUnique(m: Visible, i: int, j: int)
    requires IsTop(m, i) && IsTop(m, j)
    ensures i == j
  {
    var ri, rj := m[i].1, m[j].1;
    assert i < j ==> ri < rj;
    assert j < i ==> rj < ri;
  }

  /** `topEl.id || null` */
  function IdOrNull(id: string): (r: Option<string>)
    ensures r.Some? <==> id != ""
    ensures r.Some? ==> r.value == id
  {
    if id == "" then None else Some(id)
  }

  /** The hook's state: the observed elements (none: no observer), the visible map, and `activeId`. */
  datatype Spy = Spy(observed: seq<string>, visible: Visible, active: Option<string>)

  /**
    The effect that (re)creates the observer. With no elements it sets the
    active id to null and observes nothing; otherwise it starts from an empty
    visible map and leaves the active id as it was.
   */
  function Mount(active: Option<string>, els: seq<string>): (s: Spy)
    ensures s.observed == els && s.visible == []
    ensures |els| == 0 ==> s.active == None
    ensures |els| > 0 ==> s.active == active
  {
    if |els| == 0 then Spy([], [], None) else Spy(els, [], active)
  }

  /**
    The observer callback for one batch of entries. The map is updated entry by
    entry; if it is then non-empty, the active id becomes the id of its top
    entry (null for an empty id), and if it is empty the active id is kept.
    Setting an id equal to the current one is no change, which the value
    equality of the model already expresses.
   */
  function OnIntersect(s: Spy, es: seq<Entry>): (r: Spy)
    ensures r.observed == s.observed
    ensures r.visible == ApplyEntries(s.visible, es)
    ensures |r.visible| == 0 ==> r.active == s.active
    ensures |r.visible| > 0 ==> exists i :: IsTop(r.visible, i) && r.active == IdOrNull(r.visible[i].0)
  {
    var m := ApplyEntries(s.visible, es);
    if |m| > 0 then
      var i := TopIndex(m);
      Spy(s.observed, m, IdOrNull(m[i].0))
    else
      Spy(s.observed, m, s.active)
  }

  /**
    What the hook keeps true: the visible map has distinct keys, only observed
    elements are in it, only known ids are observed, and the active id is null
    or a known id.
   */
  predicate Valid(s: Spy, ids: seq<string>) {
    && InsertionMap.KeysDistinct(s.visible)
    && (forall k :: k in InsertionMap.Keys(s.visible) ==> k in s.observed)
    && (forall e :: e in s.observed ==> e in ids)
    && (s.active.Some? ==> s.active.value in ids)
  }

  /** Mounting on the resolved elements of `ids` gives a valid state. */
  lemma MountValid(ids: seq<string>, present: set<string>, active: Option<string>)
    requires active.Some? ==> active.value in ids
    ensures Valid(Mount(active, ResolveElements(ids, present)), ids)
  {
  }

  lemma {:induction false} ApplyEntriesKeys(m: Visible, es: seq<Entry>, k: string)
    requires k in InsertionMap.Keys(ApplyEntries(m, es))
    ensures k in InsertionMap.Keys(m) || exists e :: e in es && e.target == k
  {
    InsertionMap.GetIffKey(ApplyEntries(m, es), k);
    InsertionMap.GetIffKey(m, k);
    ApplyEntriesGet(m, es, k);
  }

  /**
    A batch that reports only observed elements keeps the state valid; in
    particular the active id is always null or one of the known ids.
   */
  lemma OnIntersectValid(s: Spy, es: seq<Entry>, ids: seq<string>)
    requires Valid(s, ids)
    requires forall e :: e in es ==> e.target in s.observed
    ensures Valid(OnIntersect(s, es), ids)
  {
    var r := OnIntersect(s, es);
    forall k | k in InsertionMap.Keys(r.visible)
      ensures k in s.observed
    {
      ApplyEntriesKeys(s.visible, es, k);
    }
    if |r.visible| > 0 {
      var i :| IsTop(r.visible, i) && r.active == IdOrNull(r.visible[i].0);
      assert r.visible[i].0 == InsertionMap.Keys(r.visible)[i];
    }
  }
}
