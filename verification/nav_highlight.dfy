/**
 * Highlighting the navigation link of the section being read
 * (updateActiveNavLink, script.js:71-92). Offsets are whole pixels. A
 * section's window starts 100 pixels above its top (room for the fixed
 * navigation bar) and is as tall as the section.
 */
module NavHighlight {
  import opened Wrappers

  /** A `section[id]` element: its id and its layout box. */
  datatype Section = Section(id: string, offsetTop: int, offsetHeight: int)

  const NavbarAllowance: int := 100

  /** The scroll offset `y` lies in the section's window. */
  predicate InWindow(s: Section, y: int) {
    s.offsetTop - NavbarAllowance <= y < s.offsetTop - NavbarAllowance + s.offsetHeight
  }

  /** The last section, in document order, whose window holds `y`. */
  function LastInWindow(sections: seq<Section>, y: int): (r: Option<nat>)
    ensures r.Some? ==> r.value < |sections| && InWindow(sections[r.value], y)
    ensures r.Some? ==> forall j :: r.value < j < |sections| ==> !InWindow(sections[j], y)
    ensures r.None? ==> forall j :: 0 <= j < |sections| ==> !InWindow(sections[j], y)
  {
    if sections == [] then None
    else if InWindow(sections[|sections| - 1], y) then Some(|sections| - 1)
    else LastInWindow(sections[..|sections| - 1], y)
  }

  /** The id the handler settles on: that of the last section whose window
      holds `y`, or the empty string when there is none. */
  function CurrentSectionId(sections: seq<Section>, y: int): string {
    match LastInWindow(sections, y)
    case None => ""
    case Some(i) => sections[i].id
  }

  /** The handler's first loop: every section whose window holds `y`
      overwrites `currentSection`, so the last one wins. */
  method FindCurrentSection(sections: seq<Section>, y: int) returns (current: string)
    ensures current == CurrentSectionId(sections, y)
  {
    current := "";
    for i := 0 to |sections|
      invariant current == CurrentSectionId(sections[..i], y)
    {
      assert sections[..i + 1][..i] == sections[..i];
      var s := sections[i];
      if y >= s.offsetTop - NavbarAllowance && y < s.offsetTop - NavbarAllowance + s.offsetHeight {
        current := s.id;
      }
    }
    assert sections[..|sections|] == sections;
  }

  /** A link is active when its href is `#` followed by the current id. */
  predicate LinkActive(href: Option<string>, current: string) {
    href == Some("#" + current)
  }

  /** updateActiveNavLink: find the current section, then for each link
      remove `active` and add it back exactly when the link points there. */
  method UpdateActiveNavLink(sections: seq<Section>, y: int, hrefs: seq<Option<string>>,
      active: array<bool>)
    requires active.Length == |hrefs|
    modifies active
    ensures forall k :: 0 <= k < active.Length ==>
      active[k] == LinkActive(hrefs[k], CurrentSectionId(sections, y))
  {
    var current := FindCurrentSection(sections, y);
    for k := 0 to active.Length
      invariant forall j :: 0 <= j < k ==> active[j] == LinkActive(hrefs[j], current)
    {
      active[k] := false;
      if hrefs[k] == Some("#" + current) {
        active[k] := true;
      }
    }
  }

  /** The current id belongs to the last section whose window holds `y`. */
  lemma CurrentIsLastInWindow(sections: seq<Section>, y: int, i: nat)
    requires i < |sections| && InWindow(sections[i], y)
    requires forall j :: i < j < |sections| ==> !InWindow(sections[j], y)
    ensures CurrentSectionId(sections, y) == sections[i].id
  {
    var r := LastInWindow(sections, y);
    assert r.Some?;
    assert r.value == i;
  }

  /** Links with distinct hrefs: at most one of them is active. */
  lemma AtMostOneLinkActive(hrefs: seq<Option<string>>, current: string)
    requires forall a, b :: 0 <= a < b < |hrefs| ==> hrefs[a] != hrefs[b]
    ensures forall i, j ::
      (0 <= i < |hrefs| && 0 <= j < |hrefs| && LinkActive(hrefs[i], current) && LinkActive(hrefs[j], current))
      ==> i == j
  {
  }

  /** With no window holding `y` the current id is empty, so the only links
      made active are those whose href is the bare `#`. */
  lemma NoWindowActivatesBareHash(sections: seq<Section>, y: int, href: Option<string>)
    requires forall j :: 0 <= j < |sections| ==> !InWindow(sections[j], y)
    ensures CurrentSectionId(sections, y) == ""
    ensures LinkActive(href, CurrentSectionId(sections, y)) <==> href == Some("#")
  {
    assert LastInWindow(sections, y).None?;
    assert "#" + "" == "#";
  }

  /** Sections laid out one below the other without overlap. */
  predicate Stacked(sections: seq<Section>) {
    (forall i :: 0 <= i < |sections| ==> sections[i].offsetHeight >= 0)
    && forall i :: 0 <= i < |sections| - 1 ==>
      sections[i + 1].offsetTop >= sections[i].offsetTop + sections[i].offsetHeight
  }

  /** On a stacked layout a later section starts below the end of an
      earlier one. */
  lemma {:induction false} StackedOrder(sections: seq<Section>, i: nat, j: nat)
    requires Stacked(sections) && i < j < |sections|
    ensures sections[j].offsetTop >= sections[i].offsetTop + sections[i].offsetHeight
    decreases j - i
  {
    if j > i + 1 {
      StackedOrder(sections, i + 1, j);
      assert sections[i + 1].offsetTop >= sections[i].offsetTop + sections[i].offsetHeight;
    }
  }

  /** On a stacked layout at most one window holds `y`, so "the last one"
      is simply "the one". */
  lemma StackedHasOneWindow(sections: seq<Section>, y: int, i: nat, j: nat)
    requires Stacked(sections) && i < |sections| && j < |sections|
    requires InWindow(sections[i], y) && InWindow(sections[j], y)
    ensures i == j
  {
    if i < j { StackedOrder(sections, i, j); }
    if j < i { StackedOrder(sections, j, i); }
  }
}
