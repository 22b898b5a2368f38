/**
 * The browser seen as data: locators, element snapshots, the driver that
 * maps a locator to the elements it matches, and the faults that Selenium
 * raises. Nothing here is live: an element is the value its properties had
 * when it was looked up.
 */
module Web {

  /** A reference that may be null. */
  datatype Option<+T> = None | Some(value: T)

  /** The exceptions the modelled code can raise or let escape. */
  datatype Fault =
    | NoSuchElement               // FindElement matched nothing
    | ProbeFault                  // the driver itself failed during a lookup
    | UnexpectedTagName           // a SelectElement was built over a non-<select> element
    | NullReference               // a member was called on null
    | ArgumentNull                // a null collection was passed to a LINQ extension such as `ToList`
    | ArgumentOutOfRange          // an index past the end of a collection
    | ActionFault                 // a click or attribute read raised by the driver
    | ElementNotBound(selector: Option<Locator>)  // the wrapper's "does not bind" exception

  datatype Result<+T> = Ok(value: T) | Err(fault: Fault)

  /** Success of an operation that returns nothing. */
  datatype Outcome = Pass | Fail(fault: Fault)

  /** A Selenium `By`: how to find elements; equal when mechanism and criteria are. */
  datatype Locator = By(mechanism: string, criteria: string)

  function XPath(expression: string): Locator {
    By("xpath", expression)
  }

  /**
   * A snapshot of a DOM element. `isSelect` says whether a SelectElement can
   * be built over it (it is a <select>); `options` are its options' texts in
   * order and `selectedOption` the text of its selected option, if any.
   * `children` gives the elements that a relative XPath finds under it; an
   * XPath that is not a key finds nothing.
   */
  datatype Element = Element(
    text: string,
    enabled: bool,
    displayed: bool,
    isSelect: bool,
    options: seq<string>,
    selectedOption: Option<string>,
    attributes: map<string, string>,
    innerHtml: string,
    children: map<string, seq<Element>>)

  /** `element.FindElements(By.XPath(path))`: never null, possibly empty. */
  function Children(element: Element, path: string): seq<Element> {
    if path in element.children then element.children[path] else []
  }

  /** `element.GetAttribute(name)`: null when the attribute is absent. */
  function GetAttribute(element: Element, name: string): Option<string> {
    if name == "innerHTML" then Some(element.innerHtml)
    else if name in element.attributes then Some(element.attributes[name])
    else None
  }

  /**
   * The page as the driver sees it: the elements each locator matches, in
   * document order, and whether every lookup currently faults (a dead
   * session, a stale frame).
   */
  datatype Driver = Driver(dom: map<Locator, seq<Element>>, probeFaults: bool) {

    function Matches(locator: Locator): seq<Element> {
      if locator in dom then dom[locator] else []
    }

    /** `webDriver.FindElements(by)`: an empty collection when nothing matches. */
    function FindElements(locator: Locator): Result<seq<Element>> {
      if probeFaults then Err(ProbeFault) else Ok(Matches(locator))
    }

    /** `webDriver.FindElement(by)`: the first match, or NoSuchElement. */
    function FindElement(locator: Locator): Result<Element> {
      if probeFaults then Err(ProbeFault)
      else if |Matches(locator)| == 0 then Err(NoSuchElement)
      else Ok(Matches(locator)[0])
    }
  }

  /** A side effect performed on an element, recorded in the wrapper's trace. */
  datatype Action =
    | Clicked(element: Element)
    | Cleared(element: Element)
    | KeysSent(element: Element, keys: string)
    | SelectedText(element: Element, optionText: string)
    | SelectedIndex(element: Element, index: int)
    | ScrolledIntoView(element: Element)
}
