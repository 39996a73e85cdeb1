/** Active navigation link (script.js lines 520-541): on every scroll the
    link whose `href` names the current section is marked `active`. */
module ActiveNav {
  import opened Common

  /** A `section[id]`: its id attribute and its `offsetTop`. */
  datatype Section = Section(id: string, top: int)

  /** How far above a section's top it already counts as current. */
  const Lead: int := 200

  predicate Reached(s: Section, pageYOffset: real)
  {
    pageYOffset >= (s.top - Lead) as real
  }

  /** Index of the last section, in document order, that the offset has
      reached, or -1 when there is none. The contract determines it uniquely. */
  function LastReached(sections: seq<Section>, pageYOffset: real): (r: int)
    ensures -1 <= r < |sections|
    ensures r >= 0 ==> Reached(sections[r], pageYOffset)
    ensures forall j :: r < j < |sections| ==> !Reached(sections[j], pageYOffset)
  {
    if sections == [] then -1
    else if Reached(sections[|sections| - 1], pageYOffset) then |sections| - 1
    else LastReached(sections[..|sections| - 1], pageYOffset)
  }

  /** The id the handler settles on, `''` when no section is reached. */
  function CurrentId(sections: seq<Section>, pageYOffset: real): (r: string)
    ensures (forall i :: 0 <= i < |sections| ==> !Reached(sections[i], pageYOffset)) ==> r == ""
    ensures r != "" ==>
      exists i :: 0 <= i < |sections| && Reached(sections[i], pageYOffset) && sections[i].id == r &&
        (forall j :: i < j < |sections| ==> !Reached(sections[j], pageYOffset))
    ensures forall i ::
      (0 <= i < |sections| && Reached(sections[i], pageYOffset) &&
       (forall j :: i < j < |sections| ==> !Reached(sections[j], pageYOffset)))
      ==> r == sections[i].id
  {
    var r := LastReached(sections, pageYOffset);
    if r < 0 then "" else sections[r].id
  }

  /** Scrolling down never moves the choice to an earlier section. */
  lemma LastReachedMonotone(sections: seq<Section>, y1: real, y2: real)
    requires y1 <= y2
    ensures LastReached(sections, y1) <= LastReached(sections, y2)
  {
  }

  /** The first loop of `setActiveNav`: every reached section overwrites `current`. */
  method Current(sections: seq<Section>, pageYOffset: real) returns (current: string)
    ensures current == CurrentId(sections, pageYOffset)
  {
    current := "";
    for i := 0 to |sections|
      invariant current == CurrentId(sections[..i], pageYOffset)
    {
      assert sections[..i + 1][..i] == sections[..i];
      if Reached(sections[i], pageYOffset) {
        current := sections[i].id;
      }
    }
    assert sections[..|sections|] == sections;
  }

  /** A `.nav-link`: its `href` attribute (absent possible) and whether it has `active`. */
  class Link {
    const href: Option<string>
    var active: bool

    constructor (href: Option<string>, active: bool)
      ensures this.href == href && this.active == active
    {
      this.href := href;
      this.active := active;
    }
  }

  predicate Names(href: Option<string>, current: string)
  {
    href == Some("#" + current)
  }

  /** The second loop: clear `active` on every link, then put it back on the
      ones whose `href` is `#current`. */
  method MarkLinks(links: seq<Link>, current: string)
    modifies set l | l in links
    ensures forall i :: 0 <= i < |links| ==> (links[i].active <==> Names(links[i].href, current))
  {
    for i := 0 to |links|
      invariant forall j :: 0 <= j < i ==> (links[j].active <==> Names(links[j].href, current))
    {
      links[i].active := false;
      if Names(links[i].href, current) {
        links[i].active := true;
      }
    }
  }

  /** `setActiveNav` as a whole. */
  method SetActiveNav(sections: seq<Section>, links: seq<Link>, pageYOffset: real)
    modifies set l | l in links
    ensures forall i :: 0 <= i < |links| ==>
      (links[i].active <==> Names(links[i].href, CurrentId(sections, pageYOffset)))
  {
    var current := Current(sections, pageYOffset);
    MarkLinks(links, current);
  }
}
