/** The hero typing effect (script.js lines 231-248): the text element is
    cleared, then each timer tick appends the next character of the name and
    schedules the following tick, until the whole name is shown. */
module Typewriter {
  import opened Common

  const Name: string := "Fabrizio Funes"

  class Typing {
    /** `typingElement.textContent` */
    var text: string
    /** index of the next character to reveal */
    var i: nat

    ghost predicate Valid()
      reads this
    {
      i <= |Name| && text == Name[..i]
    }

    /** `typeWriter()`: `i = 0` and the element is emptied. */
    constructor ()
      ensures Valid() && i == 0 && text == ""
    {
      text := "";
      i := 0;
    }

    /** One call of the inner `type()`; `scheduled` says whether it set the
        next timeout. */
    method Type() returns (scheduled: bool)
      requires Valid()
      modifies this
      ensures Valid()
      ensures scheduled <==> old(i) < |Name|
      ensures i == Min(old(i) + 1, |Name|)
      ensures scheduled ==> text == old(text) + [Name[old(i)]]
      ensures !scheduled ==> text == old(text)
    {
      scheduled := false;
      if i < |Name| {
        text := text + [Name[i]];
        i := i + 1;
        scheduled := true;
      }
    }
  }

  /** The text shown after the first `ticks` timer callbacks have run (the
      chain stops by itself once the name is complete), or None when there is
      no `#typingText` element and nothing is done. */
  method TypeFor(hasElement: bool, ticks: nat) returns (shown: Option<string>)
    ensures !hasElement ==> shown == None
    ensures hasElement ==> shown == Some(Name[..Min(ticks, |Name|)])
    ensures shown.Some? ==> shown.value <= Name
  {
    if !hasElement {
      return None;
    }
    var typing := new Typing();
    var scheduled := true;  // the initial setTimeout(type, 1000)
    var n := 0;
    while n < ticks && scheduled
      invariant typing.Valid()
      invariant n <= ticks
      invariant typing.i == Min(n, |Name|)
      invariant scheduled ==> n <= |Name|
      invariant !scheduled ==> n == |Name| + 1
      decreases ticks - n
    {
      scheduled := typing.Type();
      n := n + 1;
    }
    shown := Some(typing.text);
  }

  /** Later ticks only extend what earlier ticks showed, and nothing grows
      beyond the full name. */
  lemma TypedPrefixes(k1: nat, k2: nat)
    requires k1 <= k2
    ensures Name[..Min(k1, |Name|)] <= Name[..Min(k2, |Name|)]
    ensures k2 >= |Name| ==> Name[..Min(k2, |Name|)] == Name
  {
  }
}
