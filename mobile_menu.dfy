/** The mobile menu (script.js lines 26-48): the `active` class on the
    navigation list and on the menu button, driven by three click listeners. */
module MobileMenu {

  /** Where a click lands, as far as the three listeners can tell. */
  datatype Target =
    | MenuButton   // the menu button or a node inside it
    | NavLink      // one of the `.nav-link` anchors (inside the navigation list)
    | InsideMenu   // any other node inside the navigation list
    | Elsewhere    // outside both the list and the button

  predicate Outside(t: Target)
  {
    t == Elsewhere
  }

  class Menu {
    /** The navigation list carries `active` */
    var menuActive: bool
    /** The menu button carries `active` */
    var buttonActive: bool

    constructor (menuActive: bool, buttonActive: bool)
      ensures this.menuActive == menuActive && this.buttonActive == buttonActive
    {
      this.menuActive := menuActive;
      this.buttonActive := buttonActive;
    }

    /** Button listener: `classList.toggle('active')` on both elements. */
    method ButtonClicked()
      modifies this
      ensures menuActive == !old(menuActive) && buttonActive == !old(buttonActive)
    {
      menuActive := !menuActive;
      buttonActive := !buttonActive;
    }

    /** Nav-link listener: `classList.remove('active')` on both elements. */
    method LinkClicked()
      modifies this
      ensures !menuActive && !buttonActive
    {
      menuActive := false;
      buttonActive := false;
    }

    /** Document listener: closes the menu only for a click outside both. */
    method DocumentClicked(t: Target)
      modifies this
      ensures Outside(t) ==> !menuActive && !buttonActive
      ensures !Outside(t) ==> menuActive == old(menuActive) && buttonActive == old(buttonActive)
    {
      if Outside(t) {
        menuActive := false;
        buttonActive := false;
      }
    }

    /** One click as the browser dispatches it: the listener on the target
        (button or link) runs first, then the event bubbles to the document. */
    method Click(t: Target)
      modifies this
      ensures t == MenuButton ==> menuActive == !old(menuActive) && buttonActive == !old(buttonActive)
      ensures t == NavLink || t == Elsewhere ==> !menuActive && !buttonActive
      ensures t == InsideMenu ==> menuActive == old(menuActive) && buttonActive == old(buttonActive)
      ensures old(menuActive) == old(buttonActive) ==> menuActive == buttonActive
    {
      match t {
        case MenuButton => ButtonClicked();
        case NavLink => LinkClicked();
        case _ =>
      }
      DocumentClicked(t);
    }
  }
}
