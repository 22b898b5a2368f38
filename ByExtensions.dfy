/** `By.GetValue`: read the value a locator's element currently shows. */
module ByExtensions {
  import opened Web
  import WebDriverExtensions
  import WebElementExtensions

  /**
   * `by.GetValue(webdriver)`: null for a null locator or driver or when
   * nothing is found; otherwise the found element's effective value
   * (selected option text for a selectable control, else its text).
   */
  function GetValue(locator: Option<Locator>, webDriver: Option<Driver>): (r: Option<string>)
    ensures !WebDriverExtensions.Present(webDriver, locator) ==> r.None?
    ensures WebDriverExtensions.Present(webDriver, locator) ==>
      var element := webDriver.value.Matches(locator.value)[0];
      (element.isSelect ==> r == element.selectedOption) &&
      (!element.isSelect ==> r == Some(element.text))
  {
    if locator.Some? && webDriver.Some? then
      var element := WebDriverExtensions.TryFindElement(webDriver, locator, WebDriverExtensions.LOOKUP_TIMEOUT);
      if element.Some? then
        if WebElementExtensions.IsSelectable(element) then WebElementExtensions.GetSelectedOptionText(element)
        else Some(element.value.text)
      else None
    else None
  }

  /** GetValue reads a found element by the selected-option-else-text convention. */
  lemma GetValueIsEffectiveValue(locator: Option<Locator>, webDriver: Option<Driver>)
    ensures GetValue(locator, webDriver) ==
      match WebDriverExtensions.TryFindElement(webDriver, locator, WebDriverExtensions.LOOKUP_TIMEOUT)
      case None => None
      case Some(element) => WebElementExtensions.EffectiveValue(element)
  {
  }
}
