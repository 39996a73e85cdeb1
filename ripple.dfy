/** The button ripple (script.js lines 357-378): a click builds a `ripple`
    span centred on the click point, removes the button's first existing
    `ripple` element, if any, and appends the new one. Nothing removes it later. */
module Ripple {
  import opened Common
  import opened Dom

  const RippleClass: string := "ripple"

  predicate IsRipple(n: Node)
  {
    RippleClass in n.classes
  }

  /** The button's `clientWidth`, `clientHeight`, `offsetLeft`, `offsetTop`. */
  datatype Metrics = Metrics(clientWidth: real, clientHeight: real, offsetLeft: real, offsetTop: real)

  /** Size and position of the new circle: as wide as the button's larger
      side, its centre on the click point (in the button's offset frame). */
  function CircleBox(m: Metrics, clientX: real, clientY: real): (b: Box)
    ensures b.width == b.height
    ensures b.width >= m.clientWidth && b.width >= m.clientHeight
    ensures b.width == m.clientWidth || b.width == m.clientHeight
    ensures b.left + b.width / 2.0 == clientX - m.offsetLeft
    ensures b.top + b.height / 2.0 == clientY - m.offsetTop
  {
    var diameter := if m.clientWidth >= m.clientHeight then m.clientWidth else m.clientHeight;
    var radius := diameter / 2.0;
    Box(diameter, diameter, clientX - m.offsetLeft - radius, clientY - m.offsetTop - radius)
  }

  /** Number of `ripple` children. */
  function Ripples(children: seq<Node>): nat
  {
    if children == [] then 0
    else (if IsRipple(children[0]) then 1 else 0) + Ripples(children[1..])
  }

  /** The children that are not ripples, in order. */
  function Others(children: seq<Node>): seq<Node>
  {
    if children == [] then []
    else (if IsRipple(children[0]) then [] else [children[0]]) + Others(children[1..])
  }

  /** Index of the first ripple child, |children| when there is none. */
  function FirstRipple(children: seq<Node>): (i: nat)
    ensures i <= |children|
    ensures i < |children| ==> IsRipple(children[i])
    ensures forall j :: 0 <= j < i ==> !IsRipple(children[j])
  {
    if children == [] || IsRipple(children[0]) then 0 else 1 + FirstRipple(children[1..])
  }

  /** `getElementsByClassName('ripple')[0]?.remove()`: drop the first ripple, if any. */
  function RemoveFirstRipple(children: seq<Node>): (r: seq<Node>)
    ensures FirstRipple(children) == |children| ==> r == children
    ensures FirstRipple(children) < |children| ==>
      r == children[..FirstRipple(children)] + children[FirstRipple(children) + 1..]
  {
    if children == [] then []
    else if IsRipple(children[0]) then children[1..]
    else [children[0]] + RemoveFirstRipple(children[1..])
  }

  lemma {:induction false} RipplesAppend(a: seq<Node>, b: seq<Node>)
    ensures Ripples(a + b) == Ripples(a) + Ripples(b)
    ensures Others(a + b) == Others(a) + Others(b)
  {
    if a == [] {
      assert a + b == b;
    } else {
      assert (a + b)[1..] == a[1..] + b;
      RipplesAppend(a[1..], b);
    }
  }

  /** Removing the first ripple takes exactly one ripple away when there is
      one, and leaves every other child where it was. */
  lemma {:induction false} RemoveFirstRippleEffect(children: seq<Node>)
    ensures Ripples(RemoveFirstRipple(children)) == Max(Ripples(children) - 1, 0)
    ensures Others(RemoveFirstRipple(children)) == Others(children)
  {
    if children != [] && !IsRipple(children[0]) {
      RemoveFirstRippleEffect(children[1..]);
      RipplesAppend([children[0]], RemoveFirstRipple(children[1..]));
      assert [children[0]][1..] == [];
    }
  }

  /** One click on a `.btn`: the children after `createRipple`. */
  function AfterRipple(children: seq<Node>, m: Metrics, clientX: real, clientY: real): (r: seq<Node>)
    ensures Ripples(r) == Max(Ripples(children), 1)
    ensures Ripples(children) <= 1 ==> Ripples(r) == 1
    ensures Others(r) == Others(children)
    ensures |r| > 0 && IsRipple(r[|r| - 1]) && r[|r| - 1].box == Some(CircleBox(m, clientX, clientY))
  {
    var circle := Node("span", {RippleClass}, Some(CircleBox(m, clientX, clientY)));
    RemoveFirstRippleEffect(children);
    RipplesAppend(RemoveFirstRipple(children), [circle]);
    assert [circle][1..] == [];
    RemoveFirstRipple(children) + [circle]
  }

  /** `createRipple` on a button element. */
  method CreateRipple(button: Element, m: Metrics, clientX: real, clientY: real)
    modifies button
    ensures button.children == AfterRipple(old(button.children), m, clientX, clientY)
  {
    var circle := Node("span", {RippleClass}, Some(CircleBox(m, clientX, clientY)));
    var kept := RemoveFirstRipple(button.children);
    button.children := kept + [circle];
  }

  /** The children after a series of clicks at the given points: at least
      one click leaves max(ripples before, 1) ripples, so a button that starts
      with at most one ripple never holds more than one, and the other
      children never change. */
  function Clicked(children: seq<Node>, clicks: seq<(real, real)>, m: Metrics): (r: seq<Node>)
    ensures Ripples(r) == if clicks == [] then Ripples(children) else Max(Ripples(children), 1)
    ensures Ripples(children) <= 1 ==> Ripples(r) <= 1
    ensures Others(r) == Others(children)
    decreases |clicks|
  {
    if clicks == [] then children
    else Clicked(AfterRipple(children, m, clicks[0].0, clicks[0].1), clicks[1..], m)
  }
}
