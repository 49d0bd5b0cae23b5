/**
 * The page's fixed list of sections and the geometry the browser reports for
 * them, with the DOM abstracted away: every `document.getElementById` call of
 * the page becomes a lookup in a `Layout`, a sequence of entries
 * `(id, box)` where `box == None` means that no element has that id.
 */
module Sections {
  import opened Wrappers

  /** The seven anchor ids, in declaration (and page) order. */
  const SectionIds: seq<string> :=
    ["about", "education", "skills", "projects", "certifications", "activities", "contact"]

  /** The section the navigation bar highlights before the first scroll. */
  const InitialSection: string := "about"

  /** Pixels added to the scroll offset before the scan (the fixed navigation bar). */
  const ScrollOffset: int := 100

  /** What an element reports: `offsetTop` and `offsetHeight`, in whole pixels. */
  datatype Box = Box(top: int, height: int)

  /** One lookup: the id asked for and the element's box, if an element was found. */
  datatype Entry = Entry(id: string, box: Option<Box>)

  type Layout = seq<Entry>

  /** A layout obtained by looking up every section id, in declaration order. */
  predicate IsPageLayout(layout: Layout)
  {
    |layout| == |SectionIds| &&
    forall i :: 0 <= i < |layout| ==> layout[i].id == SectionIds[i]
  }

  /** The element exists and its half-open extent `[top, top + height)` holds `pos`. */
  predicate Contains(e: Entry, pos: int)
  {
    match e.box
    case Some(b) => b.top <= pos < b.top + b.height
    case None => false
  }

  /**
   * Index of the first entry, in layout order, whose element exists and contains
   * `pos`; entries without an element are passed over and the scan goes on.
   */
  function FirstMatch(layout: Layout, pos: int): (r: Option<nat>)
    ensures r.Some? ==> r.value < |layout| && Contains(layout[r.value], pos)
    ensures r.Some? ==> forall j :: 0 <= j < r.value ==> !Contains(layout[j], pos)
    ensures r.None? ==> forall j :: 0 <= j < |layout| ==> !Contains(layout[j], pos)
    decreases |layout|
  {
    if |layout| == 0 then None
    else if Contains(layout[0], pos) then Some(0)
    else
      match FirstMatch(layout[1..], pos)
      case Some(k) => Some(k + 1)
      case None => None
  }

  /** The id of the first matching section, if any. */
  function MatchedId(layout: Layout, pos: int): (r: Option<string>)
    ensures r.None? <==> forall j :: 0 <= j < |layout| ==> !Contains(layout[j], pos)
    ensures r.Some? ==> exists k :: 0 <= k < |layout| && Contains(layout[k], pos) && layout[k].id == r.value &&
                                    forall j :: 0 <= j < k ==> !Contains(layout[j], pos)
  {
    match FirstMatch(layout, pos)
    case Some(k) => Some(layout[k].id)
    case None => None
  }

  /**
   * The active section after a scroll to `scrollY`: the first section whose
   * extent contains `scrollY + ScrollOffset`, or `current` when none does.
   */
  function ActiveAfterScroll(current: string, layout: Layout, scrollY: int): (r: string)
    ensures (forall j :: 0 <= j < |layout| ==> !Contains(layout[j], scrollY + ScrollOffset)) ==> r == current
    ensures r != current ==> exists k :: 0 <= k < |layout| && Contains(layout[k], scrollY + ScrollOffset) &&
                                         r == layout[k].id
  {
    match MatchedId(layout, scrollY + ScrollOffset)
    case Some(id) => id
    case None => current
  }

  /** The first match is the one, and only, answer of the scan. */
  lemma FirstMatchIsFirst(layout: Layout, pos: int, k: nat)
    requires k < |layout| && Contains(layout[k], pos)
    requires forall j :: 0 <= j < k ==> !Contains(layout[j], pos)
    ensures FirstMatch(layout, pos) == Some(k)
  {
  }

  /** A scroll selects the first section, in order, whose extent contains the reference point. */
  lemma ScrollSelectsFirstMatch(current: string, layout: Layout, scrollY: int, k: nat)
    requires k < |layout| && Contains(layout[k], scrollY + ScrollOffset)
    requires forall j :: 0 <= j < k ==> !Contains(layout[j], scrollY + ScrollOffset)
    ensures ActiveAfterScroll(current, layout, scrollY) == layout[k].id
  {
    FirstMatchIsFirst(layout, scrollY + ScrollOffset, k);
  }

  /** In particular, a page where no section element exists never changes the active section. */
  lemma ScrollOnEmptyPageKeepsActive(current: string, layout: Layout, scrollY: int)
    requires forall j :: 0 <= j < |layout| ==> layout[j].box.None?
    ensures ActiveAfterScroll(current, layout, scrollY) == current
  {
  }

  /** A scroll over a page layout yields one of the seven ids, or keeps the old value. */
  lemma ScrollResultIsSection(current: string, layout: Layout, scrollY: int)
    requires IsPageLayout(layout)
    ensures ActiveAfterScroll(current, layout, scrollY) in SectionIds
         || ActiveAfterScroll(current, layout, scrollY) == current
  {
  }

  /** The entries whose element was found, in layout order. */
  function PresentEntries(layout: Layout): (r: Layout)
    ensures |r| <= |layout|
    ensures forall e :: e in r <==> e in layout && e.box.Some?
    decreases |layout|
  {
    if |layout| == 0 then []
    else if layout[0].box.Some? then [layout[0]] + PresentEntries(layout[1..])
    else PresentEntries(layout[1..])
  }

  /** The filter keeps layout order: filtering a concatenation concatenates the filtered parts. */
  lemma {:induction false} PresentEntriesKeepsOrder(a: Layout, b: Layout)
    ensures PresentEntries(a + b) == PresentEntries(a) + PresentEntries(b)
    decreases |a|
  {
    if |a| == 0 {
      assert a + b == b;
    } else {
      assert (a + b)[0] == a[0] && (a + b)[1..] == a[1..] + b;
      PresentEntriesKeepsOrder(a[1..], b);
    }
  }

  /**
   * Missing sections are skipped: scanning the full layout picks the same
   * section as scanning only the sections whose element exists.
   */
  lemma {:induction false} MissingSectionsAreSkipped(layout: Layout, pos: int)
    ensures MatchedId(layout, pos) == MatchedId(PresentEntries(layout), pos)
    decreases |layout|
  {
    if |layout| > 0 {
      var rest := layout[1..];
      MissingSectionsAreSkipped(rest, pos);
      if layout[0].box.Some? {
        var p := [layout[0]] + PresentEntries(rest);
        assert p[0] == layout[0] && p[1..] == PresentEntries(rest);
      }
    }
  }

  /**
   * `document.getElementById`: the element recorded for the first entry with
   * that id, or `None` when the id is absent or no element was found.
   */
  function GetElementById(layout: Layout, id: string): (r: Option<Box>)
    ensures r.Some? ==> exists k :: 0 <= k < |layout| && layout[k].id == id && layout[k].box == r
    ensures (forall k :: 0 <= k < |layout| ==> layout[k].id != id) ==> r.None?
    decreases |layout|
  {
    if |layout| == 0 then None
    else if layout[0].id == id then layout[0].box
    else GetElementById(layout[1..], id)
  }

  /** The lookup answers with the first entry carrying the id. */
  lemma {:induction false} GetElementByIdFirst(layout: Layout, id: string, k: nat)
    requires k < |layout| && layout[k].id == id
    requires forall j :: 0 <= j < k ==> layout[j].id != id
    ensures GetElementById(layout, id) == layout[k].box
    decreases k
  {
    if k > 0 {
      GetElementByIdFirst(layout[1..], id, k - 1);
    }
  }

  /** The seven ids are pairwise distinct (no two have the same length). */
  lemma SectionIdsDistinct()
    ensures forall i, j :: 0 <= i < j < |SectionIds| ==> SectionIds[i] != SectionIds[j]
  {
    var lengths := [5, 9, 6, 8, 14, 10, 7];
    assert forall i :: 0 <= i < |SectionIds| ==> |SectionIds[i]| == lengths[i];
  }

  /** On a page layout, looking up the i-th section id returns the i-th entry's element. */
  lemma GetElementByIdOnPage(layout: Layout, i: nat)
    requires IsPageLayout(layout) && i < |layout|
    ensures GetElementById(layout, SectionIds[i]) == layout[i].box
  {
    SectionIdsDistinct();
    GetElementByIdFirst(layout, SectionIds[i], i);
  }

  /** The navigation link for `itemId` is drawn highlighted. */
  predicate IsActiveLink(activeSection: string, itemId: string)
  {
    activeSection == itemId
  }

  /** While the active section is one of the seven ids, exactly one link is highlighted. */
  lemma ExactlyOneActiveLink(activeSection: string)
    requires activeSection in SectionIds
    ensures exists i :: 0 <= i < |SectionIds| && IsActiveLink(activeSection, SectionIds[i])
    ensures forall i, j ::
              0 <= i < |SectionIds| && 0 <= j < |SectionIds| &&
              IsActiveLink(activeSection, SectionIds[i]) && IsActiveLink(activeSection, SectionIds[j])
              ==> i == j
  {
    SectionIdsDistinct();
  }
}
