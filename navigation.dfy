/**
 * The mobile navigation toggle: the button's `aria-expanded` attribute and
 * the nav list's inline `display` mode, flipped together on each click.
 */
module Navigation {

  /** The two DOM values the click handler reads and writes. */
  datatype NavView = NavView(ariaExpanded: string, display: string)

  /** The handler reads the menu as expanded only when the attribute is
      exactly "true"; anything else, a missing attribute included, counts as
      collapsed. */
  predicate IsExpanded(v: NavView) {
    v.ariaExpanded == "true"
  }

  /** The attribute and the display mode agree. */
  predicate Consistent(v: NavView) {
    || (v.ariaExpanded == "true" && v.display == "flex")
    || (v.ariaExpanded == "false" && v.display == "none")
  }

  /** One click: `aria-expanded` becomes `String(!expanded)` and the list
      is shown as "flex" when expanding and hidden ("none") when
      collapsing. */
  function Toggle(v: NavView): (w: NavView)
    ensures IsExpanded(w) <==> !IsExpanded(v)
    ensures Consistent(w)
    ensures w.ariaExpanded == "true" || w.ariaExpanded == "false"
  {
    var expanded := IsExpanded(v);
    NavView(if !expanded then "true" else "false", if expanded then "none" else "flex")
  }

  /** Two clicks from a consistent view restore both values. */
  lemma ToggleTwice(v: NavView)
    requires Consistent(v)
    ensures Toggle(Toggle(v)) == v
  {
  }

  /** From any view at all, the first click makes the view consistent, so
      every later pair of clicks is a round trip. */
  lemma ToggleThrice(v: NavView)
    ensures Toggle(Toggle(Toggle(v))) == Toggle(v)
  {
    ToggleTwice(Toggle(v));
  }

  /** The button and the nav list of one page. */
  class NavMenu {
    var ariaExpanded: string
    var display: string

    function View(): NavView
      reads this
    {
      NavView(ariaExpanded, display)
    }

    constructor (ariaExpanded: string, display: string)
      ensures View() == NavView(ariaExpanded, display)
    {
      this.ariaExpanded := ariaExpanded;
      this.display := display;
    }

    /** The click handler registered by `setupMenuToggle`. */
    method Click()
      modifies this
      ensures View() == Toggle(old(View()))
    {
      var expanded := ariaExpanded == "true";
      ariaExpanded := if !expanded then "true" else "false";
      display := if expanded then "none" else "flex";
    }
  }
}
