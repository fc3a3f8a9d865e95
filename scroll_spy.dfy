/**
 * Active navigation link on scroll: the current section is the last one, in
 * document order, that the window has scrolled to within 90 pixels of its
 * top; every navigation link loses `active`, and those whose `href` includes
 * the current section's id get it back.
 */
module ScrollSpy {
  import opened Dom

  /** How far above a section's top the window may be and still count as in that section. */
  const OFFSET := 90

  /** A `section` element: its `offsetTop`, `clientHeight` and `id`. */
  datatype Section = Section(top: int, height: int, id: string)

  /** The window has scrolled far enough for `s` to count. */
  predicate Reached(s: Section, scrollY: int)
  {
    scrollY >= s.top - OFFSET
  }

  /** The id of the last reached section, or the empty string when none is reached. */
  function Current(sections: seq<Section>, scrollY: int): (r: string)
    ensures r == "" || exists k :: 0 <= k < |sections| && Reached(sections[k], scrollY) && sections[k].id == r
    decreases |sections|
  {
    if |sections| == 0 then ""
    else if Reached(sections[|sections| - 1], scrollY) then sections[|sections| - 1].id
    else Current(sections[..|sections| - 1], scrollY)
  }

  /** If section `j` is reached and no later one is, the current id is section `j`'s. */
  lemma {:induction false} CurrentIsLastReached(sections: seq<Section>, scrollY: int, j: int)
    requires 0 <= j < |sections| && Reached(sections[j], scrollY)
    requires forall k :: j < k < |sections| ==> !Reached(sections[k], scrollY)
    ensures Current(sections, scrollY) == sections[j].id
    decreases |sections|
  {
    if j < |sections| - 1 {
      CurrentIsLastReached(sections[..|sections| - 1], scrollY, j);
    }
  }

  /** If no section is reached, the current id is the empty string. */
  lemma {:induction false} CurrentNoneReached(sections: seq<Section>, scrollY: int)
    requires forall k :: 0 <= k < |sections| ==> !Reached(sections[k], scrollY)
    ensures Current(sections, scrollY) == ""
    decreases |sections|
  {
    if |sections| > 0 {
      CurrentNoneReached(sections[..|sections| - 1], scrollY);
    }
  }

  /** Section heights play no part: sections that agree on tops and ids give the same current id. */
  lemma {:induction false} HeightIrrelevant(a: seq<Section>, b: seq<Section>, scrollY: int)
    requires |a| == |b|
    requires forall k :: 0 <= k < |a| ==> a[k].top == b[k].top && a[k].id == b[k].id
    ensures Current(a, scrollY) == Current(b, scrollY)
    decreases |a|
  {
    if |a| > 0 {
      HeightIrrelevant(a[..|a| - 1], b[..|b| - 1], scrollY);
    }
  }

  /** Sections at 0, 500 and 1000 scrolled to 600: the one at 500 is current, not the one at 1000. */
  lemma MiddleSection()
    ensures Current([Section(0, 500, "home"), Section(500, 500, "about"), Section(1000, 500, "work")], 600)
            == "about"
  {
  }

  /** The first loop of `highlightNavLink`: later reached sections overwrite earlier ones. */
  method SelectCurrent(sections: seq<Section>, scrollY: int) returns (current: string)
    ensures current == Current(sections, scrollY)
  {
    current := "";
    for k := 0 to |sections|
      invariant current == Current(sections[..k], scrollY)
    {
      var section := sections[k];
      if scrollY >= section.top - OFFSET {
        current := section.id;
      }
      assert sections[..k + 1][..k] == sections[..k];
    }
    assert sections[..|sections|] == sections;
  }

  /** A link's class list after the second loop: cleared, then marked if its `href` includes `current`. */
  function Mark(classes: set<string>, href: string, current: string): (r: set<string>)
    ensures ACTIVE in r <==> Includes(href, current)
    ensures r - {ACTIVE} == classes - {ACTIVE}
  {
    var cleared := classes - {ACTIVE};
    if Includes(href, current) then cleared + {ACTIVE} else cleared
  }

  /** When no section is reached every link is marked, since every `href` includes the empty string. */
  lemma NoneReachedMarksAll(sections: seq<Section>, scrollY: int, classes: set<string>, href: string)
    requires forall k :: 0 <= k < |sections| ==> !Reached(sections[k], scrollY)
    ensures ACTIVE in Mark(classes, href, Current(sections, scrollY))
  {
    CurrentNoneReached(sections, scrollY);
    IncludesEmpty(href);
  }

  /**
   * `highlightNavLink`: `hrefs[k]` is the `href` of link `k` and
   * `linkClasses[k]` its class list.
   */
  method HighlightNavLink(sections: seq<Section>, scrollY: int, hrefs: seq<string>, linkClasses: array<set<string>>)
    requires |hrefs| == linkClasses.Length
    modifies linkClasses
    ensures forall k :: 0 <= k < linkClasses.Length ==>
              linkClasses[k] == Mark(old(linkClasses[k]), hrefs[k], Current(sections, scrollY))
    ensures forall k :: 0 <= k < linkClasses.Length ==>
              (ACTIVE in linkClasses[k] <==> Includes(hrefs[k], Current(sections, scrollY)))
  {
    var current := SelectCurrent(sections, scrollY);
    for k := 0 to linkClasses.Length
      invariant forall j :: 0 <= j < k ==> linkClasses[j] == Mark(old(linkClasses[j]), hrefs[j], current)
      invariant forall j :: k <= j < linkClasses.Length ==> linkClasses[j] == old(linkClasses[j])
    {
      linkClasses[k] := linkClasses[k] - {ACTIVE};
      if Includes(hrefs[k], current) {
        linkClasses[k] := linkClasses[k] + {ACTIVE};
      }
    }
  }
}
