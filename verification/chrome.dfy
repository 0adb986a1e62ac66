/**
 * The page chrome: the mobile menu (toggleMobileMenu and closeMobileMenu,
 * script.js:44-54) and the scroll effects (initializeScrollEffects,
 * script.js:95-125). Each class the handlers add or remove is a boolean
 * field of `Page`.
 */
module Chrome {

  /** The navigation bar turns opaque once the page is scrolled past this. */
  const ScrolledThreshold: real := 50.0
  /** The back-to-top button appears once the page is scrolled past this. */
  const BackToTopThreshold: real := 300.0

  predicate NavbarScrolledAt(y: real) { y > ScrolledThreshold }
  predicate BackToTopVisibleAt(y: real) { y > BackToTopThreshold }

  class Page {
    /** `active` on the hamburger and on the menu, `menu-open` on the body. */
    var hamburgerActive: bool
    var menuActive: bool
    var bodyMenuOpen: bool
    /** `scrolled` on the navigation bar, `visible` on the back-to-top button. */
    var navbarScrolled: bool
    var backToTopVisible: bool
    /** An animation frame has been requested and has not yet run. */
    var ticking: bool

    /** The three menu classes move together, and the button is only shown
        over a scrolled navigation bar. */
    predicate Valid()
      reads this
    {
      hamburgerActive == menuActive == bodyMenuOpen
      && (backToTopVisible ==> navbarScrolled)
    }

    /** The page as loaded: menu closed, nothing scrolled, no frame pending. */
    constructor ()
      ensures Valid()
      ensures !hamburgerActive && !menuActive && !bodyMenuOpen
      ensures !navbarScrolled && !backToTopVisible && !ticking
    {
      hamburgerActive, menuActive, bodyMenuOpen := false, false, false;
      navbarScrolled, backToTopVisible, ticking := false, false, false;
    }

    /** The hamburger click flips each of the three classes. */
    method ToggleMobileMenu()
      requires Valid()
      modifies this`hamburgerActive, this`menuActive, this`bodyMenuOpen
      ensures Valid()
      ensures hamburgerActive == !old(hamburgerActive)
      ensures menuActive == !old(menuActive)
      ensures bodyMenuOpen == !old(bodyMenuOpen)
    {
      hamburgerActive := !hamburgerActive;
      menuActive := !menuActive;
      bodyMenuOpen := !bodyMenuOpen;
    }

    /** A click on a navigation link removes the three classes, whatever
        their state. */
    method CloseMobileMenu()
      requires Valid()
      modifies this`hamburgerActive, this`menuActive, this`bodyMenuOpen
      ensures Valid()
      ensures !hamburgerActive && !menuActive && !bodyMenuOpen
    {
      hamburgerActive := false;
      menuActive := false;
      bodyMenuOpen := false;
    }

    /** requestTick, on every scroll event: asks for an animation frame
        unless one is already pending. Reports whether it asked. */
    method RequestTick() returns (requested: bool)
      requires Valid()
      modifies this`ticking
      ensures Valid()
      ensures requested == !old(ticking)
      ensures ticking
    {
      requested := !ticking;
      if !ticking {
        ticking := true;
      }
    }

    /** updateScrollEffects, run by the animation frame at scroll offset
        `y` (`pageYOffset`, which may be fractional): each class follows
        its threshold, and a new frame may be requested again. */
    method UpdateScrollEffects(y: real)
      requires Valid()
      modifies this`navbarScrolled, this`backToTopVisible, this`ticking
      ensures Valid()
      ensures navbarScrolled == NavbarScrolledAt(y)
      ensures backToTopVisible == BackToTopVisibleAt(y)
      ensures !ticking
    {
      if y > ScrolledThreshold {
        navbarScrolled := true;
      } else {
        navbarScrolled := false;
      }
      if y > BackToTopThreshold {
        backToTopVisible := true;
      } else {
        backToTopVisible := false;
      }
      ticking := false;
    }
  }
}
