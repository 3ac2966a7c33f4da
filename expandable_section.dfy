/**
 * The collapsible box of the word-detail view: a header with a count badge, always-visible
 * preview content, and, when extra content is supplied, a button that shows or hides it.
 */
module Expandable {
  import opened Wrappers
  import opened Text

  const DefaultExpandLabel: string := "See all forms"
  const DefaultCollapseLabel: string := "See fewer forms"

  class ExpandableSection {
    const title: string
    const count: int
    /** `expandedChildren !== undefined`. */
    const hasMore: bool
    const expandLabel: string
    const collapseLabel: string
    var isExpanded: bool

    /** Mounting the component: optional props take their defaults, `isExpanded` starts at `defaultExpanded`. */
    constructor (title: string, count: int, hasExpandedChildren: bool,
                 expandLabel: Option<string>, collapseLabel: Option<string>, defaultExpanded: Option<bool>)
      ensures this.title == title && this.count == count
      ensures hasMore == hasExpandedChildren
      ensures this.expandLabel == expandLabel.GetOr(DefaultExpandLabel)
      ensures this.collapseLabel == collapseLabel.GetOr(DefaultCollapseLabel)
      ensures isExpanded == defaultExpanded.GetOr(false)
    {
      this.title := title;
      this.count := count;
      hasMore := hasExpandedChildren;
      this.expandLabel := expandLabel.GetOr(DefaultExpandLabel);
      this.collapseLabel := collapseLabel.GetOr(DefaultCollapseLabel);
      isExpanded := defaultExpanded.GetOr(false);
    }

    /** The expanded content is rendered only when there is some and the box is open. */
    function ShowsExpandedContent(): (shown: bool)
      reads this
      ensures shown ==> hasMore && isExpanded
      ensures !shown ==> !hasMore || !isExpanded
    {
      hasMore && isExpanded
    }

    /** The toggle button's label, or `None` when no button is rendered. */
    function ToggleLabel(): (caption: Option<string>)
      reads this
      ensures caption.Some? <==> hasMore
      ensures caption.Some? ==> caption.value == (if isExpanded then collapseLabel else expandLabel)
    {
      if hasMore then Some(if isExpanded then collapseLabel else expandLabel) else None
    }

    /** The badge text: the count, then "form" for exactly one and "forms" otherwise. */
    function CountBadge(): (badge: string)
      reads this
      ensures count == 1 ==> badge == "1 form"
      ensures count != 1 ==> badge == IntToString(count) + " forms"
    {
      IntToString(count) + " " + CountNoun(count)
    }

    /** A click on the toggle button, which exists only when there is expanded content. */
    method Toggle()
      requires hasMore
      modifies this
      ensures isExpanded == !old(isExpanded)
    {
      isExpanded := !isExpanded;
    }

    /** Two clicks restore the state and the label. */
    method ToggleTwice()
      requires hasMore
      modifies this
      ensures isExpanded == old(isExpanded)
      ensures ToggleLabel() == old(ToggleLabel())
    {
      Toggle();
      Toggle();
    }
  }

  /** `count === 1 ? 'form' : 'forms'`. */
  function CountNoun(count: int): (noun: string)
    ensures noun == "form" <==> count == 1
    ensures noun == "forms" <==> count != 1
  {
    if count == 1 then "form" else "forms"
  }
}
