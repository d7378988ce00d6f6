/**
 * The two small click/key decisions of the script: in-page anchor links
 * (`a[href^="#"]`) scroll smoothly to their target, and social icons treat
 * Enter and Space as a click.
 */
module Navigation {

  datatype Option<T> = None | Some(value: T)

  /** What a click on an in-page anchor does: whether the browser's default
      jump is suppressed, and which element id (if any) is scrolled into view. */
  datatype AnchorAction = AnchorAction(preventDefault: bool, scrollTo: Option<string>)

  /** The click listener of an anchor whose `href` starts with '#', on a page
      whose element ids are `ids`. A bare "#" is left to the browser; any other
      reference is intercepted and scrolls to the element it names, if there
      is one. */
  function AnchorClick(href: string, ids: set<string>): (a: AnchorAction)
    requires |href| >= 1 && href[0] == '#'
    ensures a.preventDefault <==> href != "#"
    ensures a.scrollTo.Some? <==> href != "#" && href[1..] in ids
    ensures a.scrollTo.Some? ==> a.scrollTo.value == href[1..] && a.scrollTo.value in ids
  {
    if href == "#" then AnchorAction(false, None)
    else
      var target := href[1..];
      AnchorAction(true, if target in ids then Some(target) else None)
  }

  /** A reference to a missing element suppresses the jump and does nothing
      else, without an error. */
  lemma MissingTargetIsSilent(ids: set<string>)
    requires "missing-id" !in ids
    ensures AnchorClick("#missing-id", ids) == AnchorAction(true, None)
  {
    assert "#missing-id"[1..] == "missing-id";
  }

  /** A click scrolls only to an element that exists and is named by the link. */
  lemma ScrollTargetExists(href: string, ids: set<string>, id: string)
    requires |href| >= 1 && href[0] == '#'
    requires AnchorClick(href, ids).scrollTo == Some(id)
    ensures id in ids && href == "#" + id
  {
    assert href == [href[0]] + href[1..];
  }

  /** What a key press on a social icon does. */
  datatype IconKeyAction = IconKeyAction(preventDefault: bool, click: bool)

  /** The `keydown` listener of a social icon: Enter and Space (whose `key`
      is " ") trigger a click and suppress the default action (page scroll on
      Space); any other key is left alone. */
  function IconKeyDown(key: string): (a: IconKeyAction)
    ensures a.preventDefault == a.click
    ensures a.click <==> key == "Enter" || key == " "
  {
    if key == "Enter" || key == " " then IconKeyAction(true, true) else IconKeyAction(false, false)
  }

  /** Keys named like Space but not equal to " " are not activations. */
  lemma SpaceIsTheBlankKey()
    ensures !IconKeyDown("Space").click && !IconKeyDown("Spacebar").click
    ensures IconKeyDown(" ").click && IconKeyDown("Enter").click
  {
  }
}
