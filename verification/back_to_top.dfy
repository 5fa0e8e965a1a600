/** The back-to-top control (`#backToTop`): visibility threshold and click target. */
module BackToTop {

  /** The control's style.display: '' before the first scroll event, then 'block' or 'none'. */
  datatype Display = Unset | Block | Hidden

  /** The control is shown once the page has scrolled more than this many pixels. */
  const ShowThreshold: int := 300

  /** The scroll offset a click on the control scrolls to. */
  const TopOfPage: int := 0

  /** What the scroll listener sets style.display to at `scrollY`. */
  function DisplayFor(scrollY: int): (d: Display)
    ensures d != Unset
    ensures d == Block <==> scrollY > ShowThreshold
    ensures d == Hidden <==> scrollY <= ShowThreshold
  {
    if scrollY > ShowThreshold then Block else Hidden
  }

  /** The click listener: scroll to the top of the page, whatever the current offset. */
  method OnClick(scrollY: int) returns (scrollTo: int)
    ensures scrollTo == TopOfPage
  {
    scrollTo := 0;
  }
}
