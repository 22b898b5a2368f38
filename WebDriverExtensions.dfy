/**
 * The probe helpers over the driver. A null driver or locator is `None`.
 * The timeout arguments are taken but never used: every lookup is a single
 * immediate FindElements.
 */
module WebDriverExtensions {
  import opened Web

  /** The lookup timeout, in seconds, that the library's callers pass (ignored by the probes). */
  const LOOKUP_TIMEOUT := 5

  /** Whether `locator` currently matches at least one element and the driver is healthy. */
  predicate Present(webDriver: Option<Driver>, locator: Option<Locator>) {
    webDriver.Some? && locator.Some? && !webDriver.value.probeFaults &&
    |webDriver.value.Matches(locator.value)| > 0
  }

  /**
   * `webDriver.Exists(by, timeout)`: true iff FindElements returns a
   * non-empty collection; a probe fault reads as false and never escapes.
   */
  function Exists(webDriver: Option<Driver>, locator: Option<Locator>, timeout: int): (r: bool)
    ensures r <==> Present(webDriver, locator)
    ensures webDriver.None? || locator.None? ==> !r
  {
    if webDriver.None? || locator.None? then false
    else match webDriver.value.FindElements(locator.value)
      case Err(_) => false
      case Ok(collection) => |collection| > 0
  }

  /** `webDriver.Exists(by)`: the same test, but a probe fault escapes. */
  function ExistsOrFault(webDriver: Option<Driver>, locator: Option<Locator>): (r: Result<bool>)
    ensures r.Err? <==> webDriver.Some? && locator.Some? && webDriver.value.probeFaults
    ensures r.Ok? ==> (r.value <==> Present(webDriver, locator))
  {
    if webDriver.None? || locator.None? then Ok(false)
    else match webDriver.value.FindElements(locator.value)
      case Err(f) => Err(f)
      case Ok(collection) => Ok(|collection| > 0)
  }

  /** `webDriver.TryFindElement(by, timeout)`: the first match, or null instead of a fault. */
  function TryFindElement(webDriver: Option<Driver>, locator: Option<Locator>, timeout: int): (r: Option<Element>)
    ensures r.Some? <==> Present(webDriver, locator)
    ensures r.Some? ==> r.value == webDriver.value.Matches(locator.value)[0]
  {
    if webDriver.None? || locator.None? then None
    else if !Exists(webDriver, locator, timeout) then None
    else match webDriver.value.FindElement(locator.value)
      case Ok(element) => Some(element)
      case Err(_) => assert false; None
  }

  /** `webDriver.TryFindElements(by, timeout)`: every match, or null (never an empty collection). */
  function TryFindElements(webDriver: Option<Driver>, locator: Option<Locator>, timeout: int): (r: Option<seq<Element>>)
    ensures r.Some? <==> Present(webDriver, locator)
    ensures r.Some? ==> r.value == webDriver.value.Matches(locator.value) && |r.value| > 0
  {
    if webDriver.None? || locator.None? then None
    else if !Exists(webDriver, locator, timeout) then None
    else match webDriver.value.FindElements(locator.value)
      case Ok(elements) => Some(elements)
      case Err(_) => assert false; None
  }

  /** The two `Exists` overloads agree whenever the driver does not fault. */
  lemma ExistsOverloadsAgree(webDriver: Option<Driver>, locator: Option<Locator>, timeout: int)
    ensures ExistsOrFault(webDriver, locator).Ok? ==>
      ExistsOrFault(webDriver, locator).value == Exists(webDriver, locator, timeout)
    ensures ExistsOrFault(webDriver, locator).Err? ==> !Exists(webDriver, locator, timeout)
  {
  }

  /** No result depends on the timeout. */
  lemma TimeoutIgnored(webDriver: Option<Driver>, locator: Option<Locator>, t1: int, t2: int)
    ensures Exists(webDriver, locator, t1) == Exists(webDriver, locator, t2)
    ensures TryFindElement(webDriver, locator, t1) == TryFindElement(webDriver, locator, t2)
    ensures TryFindElements(webDriver, locator, t1) == TryFindElements(webDriver, locator, t2)
  {
  }

  /** The single element found is the head of the collection found. */
  lemma FindAgreesWithFindAll(webDriver: Option<Driver>, locator: Option<Locator>, timeout: int)
    ensures TryFindElement(webDriver, locator, timeout).Some? <==> TryFindElements(webDriver, locator, timeout).Some?
    ensures TryFindElement(webDriver, locator, timeout).Some? ==>
      TryFindElement(webDriver, locator, timeout).value == TryFindElements(webDriver, locator, timeout).value[0]
  {
  }
}
