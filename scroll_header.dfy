/** The navbar scroll handler (script.js lines 56-66): the header carries
    `scrolled` exactly when the page is scrolled past a fixed threshold. */
module ScrollHeader {

  const Threshold: real := 100.0

  /** Whether the handler leaves `scrolled` on the navbar for this offset. */
  function Scrolled(pageYOffset: real): (r: bool)
    ensures r <==> pageYOffset > Threshold
  {
    pageYOffset > Threshold
  }

  /** Scrolling further down never removes the class; at the threshold itself
      it is still off. */
  lemma ScrolledMonotone(y1: real, y2: real)
    requires y1 <= y2
    ensures Scrolled(y1) ==> Scrolled(y2)
    ensures !Scrolled(Threshold)
  {
  }
}
