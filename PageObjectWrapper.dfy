/**
 * The fluent wrapper of a page object: `SelectElement` binds an element and
 * remembers its selector; every other operation acts on the bound element
 * only when one is bound and the page's validator, if any, does not list
 * the last selector among its exemptions. The side effects on elements are
 * recorded in a ghost trace, so that "suppressed means untouched" can be
 * stated. Each operation returns the wrapper itself with its output value.
 */
module PageObjectWrapper {
  import opened Web
  import Ext = WebElementExtensions
  import WebDriverExtensions
  import PageObjectValidation

  class Wrapper {
    /** `PageBase.GetDefaultValidator()`: null unless the page supplies one. */
    const validator: PageObjectValidation.Validator?
    /** `SelectedElement`. */
    var selected: Option<Element>
    /** `LastSelector`. */
    var lastSelector: Option<Locator>
    /** The element actions performed so far, oldest first. */
    ghost var actions: seq<Action>

    constructor (validator: PageObjectValidation.Validator?)
      ensures this.validator == validator
      ensures selected == None && lastSelector == None && actions == []
    {
      this.validator := validator;
      selected, lastSelector := None, None;
      actions := [];
    }

    /** The validator lists the last selector among the fields not to touch. */
    predicate Exempted()
      reads this, validator
    {
      validator != null && lastSelector.Some? && lastSelector.value in validator.exceptionFields
    }

    /** The guard of every operation but ClearElement. */
    predicate Acts()
      reads this, validator
    {
      selected.Some? && !Exempted()
    }

    /**
     * `SelectElement(selector, throwExceptionIfNotFound)`: binds the first
     * element the selector finds, or nothing. When nothing is found and
     * the caller asked for it, the "does not bind" fault escapes before the
     * selector is remembered.
     */
    method SelectElement(webDriver: Option<Driver>, selector: Option<Locator>, throwExceptionIfNotFound: bool)
      returns (self: Wrapper, fault: Option<Fault>)
      modifies this`selected, this`lastSelector
      ensures self == this
      ensures selected.Some? <==> WebDriverExtensions.Present(webDriver, selector)
      ensures selected.Some? ==> selected.value == webDriver.value.Matches(selector.value)[0]
      ensures fault.Some? <==> selected.None? && throwExceptionIfNotFound
      ensures fault.Some? ==> fault.value == ElementNotBound(selector) && lastSelector == old(lastSelector)
      ensures fault.None? ==> lastSelector == selector
    {
      selected := None;
      var element := WebDriverExtensions.TryFindElement(webDriver, selector, WebDriverExtensions.LOOKUP_TIMEOUT);
      if element.Some? {
        selected := element;
      } else if throwExceptionIfNotFound {
        return this, Some(ElementNotBound(selector));
      }
      lastSelector := selector;
      return this, None;
    }

    /** `SelectByText(textToSelect)`: selects the option when the guard passes and the element is a select. */
    method SelectByText(textToSelect: string) returns (self: Wrapper)
      modifies this`actions
      ensures self == this
      ensures !Acts() ==> actions == old(actions)
      ensures Acts() ==> actions == old(actions) + Ext.SelectByText(selected, textToSelect)
    {
      if selected.None? {
        return this;
      }
      if validator == null || !Exempted() {
        actions := actions + Ext.SelectByText(selected, textToSelect);
      }
      return this;
    }

    /** `SelectByIndex(index)`. */
    method SelectByIndex(index: int) returns (self: Wrapper)
      modifies this`actions
      ensures self == this
      ensures !Acts() ==> actions == old(actions)
      ensures Acts() ==> actions == old(actions) + Ext.SelectByIndex(selected, index)
    {
      if selected.None? {
        return this;
      }
      if validator == null || !Exempted() {
        actions := actions + Ext.SelectByIndex(selected, index);
      }
      return this;
    }

    /** `IsEnabled(out result)`: false unless the guard passes and the element is enabled. */
    method IsEnabled() returns (self: Wrapper, result: bool)
      ensures self == this
      ensures result <==> Acts() && selected.value.enabled
    {
      result := false;
      if selected.None? {
        return this, result;
      }
      if validator == null || !Exempted() {
        result := Ext.IsEnabled(selected);
      }
      return this, result;
    }

    /** `GetSelectedOptionText(out result)`: "" when suppressed, otherwise the extension's (possibly null) text. */
    method GetSelectedOptionText() returns (self: Wrapper, result: Option<string>)
      ensures self == this
      ensures !Acts() ==> result == Some("")
      ensures Acts() && selected.value.isSelect ==> result == selected.value.selectedOption
      ensures Acts() && !selected.value.isSelect ==> result == None
    {
      result := Some("");
      if selected.None? {
        return this, result;
      }
      if validator == null || !Exempted() {
        result := Ext.GetSelectedOptionText(selected);
      }
      return this, result;
    }

    /** `GetSelectOptionsCount(out result)`: null when suppressed or not a select. */
    method GetSelectOptionsCount() returns (self: Wrapper, result: Option<int>)
      ensures self == this
      ensures result.Some? <==> Acts() && selected.value.isSelect
      ensures result.Some? ==> result.value == |selected.value.options|
    {
      result := None;
      if selected.None? {
        return this, result;
      }
      if validator == null || !Exempted() {
        result := Ext.GetSelectOptionsCount(selected);
      }
      return this, result;
    }

    /**
     * `GetSelectOptions(out result)`: null when suppressed; otherwise the
     * options' texts, and building the SelectElement over anything but a
     * <select> faults.
     */
    method GetSelectOptions() returns (self: Wrapper, result: Result<Option<seq<string>>>)
      ensures self == this
      ensures !Acts() ==> result == Ok(None)
      ensures Acts() && selected.value.isSelect ==> result == Ok(Some(selected.value.options))
      ensures Acts() && !selected.value.isSelect ==> result == Err(UnexpectedTagName)
    {
      result := Ok(None);
      if selected.None? {
        return this, result;
      }
      if validator == null || !Exempted() {
        match Ext.SelectOptions(selected.value) {
          case Ok(options) => result := Ok(Some(options));
          case Err(f) => result := Err(f);
        }
      }
      return this, result;
    }

    /** `Click()`. */
    method Click() returns (self: Wrapper)
      modifies this`actions
      ensures self == this
      ensures !Acts() ==> actions == old(actions)
      ensures Acts() ==> actions == old(actions) + [Clicked(selected.value)]
    {
      if selected.None? {
        return this;
      }
      if validator == null || !Exempted() {
        actions := actions + [Clicked(selected.value)];
      }
      return this;
    }

    /** `IsSelectable(out isSelectable)`. */
    method IsSelectable() returns (self: Wrapper, isSelectable: bool)
      ensures self == this
      ensures isSelectable <==> Acts() && selected.value.isSelect
    {
      isSelectable := false;
      if selected.None? {
        return this, isSelectable;
      }
      if validator == null || !Exempted() {
        isSelectable := Ext.IsSelectable(selected);
      }
      return this, isSelectable;
    }

    /** `GetText(out text)`: "" when suppressed, otherwise the element's text. */
    method GetText() returns (self: Wrapper, text: string)
      ensures self == this
      ensures !Acts() ==> text == ""
      ensures Acts() ==> text == selected.value.text
    {
      text := "";
      if selected.None? {
        return this, text;
      }
      if validator == null || !Exempted() {
        text := selected.value.text;
      }
      return this, text;
    }

    /** `ClearElement()`: clears whenever an element is bound, exempted or not. */
    method ClearElement() returns (self: Wrapper)
      modifies this`actions
      ensures self == this
      ensures selected.None? ==> actions == old(actions)
      ensures selected.Some? ==> actions == old(actions) + [Cleared(selected.value)]
    {
      if selected.None? {
        return this;
      }
      actions := actions + [Cleared(selected.value)];
      return this;
    }

    /** `SetText(newText, clearElement)`: clears first only on request, and only once the guard passes. */
    method SetText(newText: string, clearElement: bool) returns (self: Wrapper)
      modifies this`actions
      ensures self == this
      ensures !Acts() ==> actions == old(actions)
      ensures Acts() ==> (actions == old(actions) +
        (if clearElement then [Cleared(selected.value)] else []) + [KeysSent(selected.value, newText)])
    {
      if selected.None? {
        return this;
      }
      if validator == null || !Exempted() {
        if clearElement {
          var _ := ClearElement();
        }
        actions := actions + [KeysSent(selected.value, newText)];
      }
      return this;
    }

    /** `ScrollIntoView()`: scrolls through the page's driver; nothing without one. */
    method ScrollIntoView(webDriver: Option<Driver>) returns (self: Wrapper)
      modifies this`actions
      ensures self == this
      ensures !Acts() || webDriver.None? ==> actions == old(actions)
      ensures Acts() && webDriver.Some? ==> actions == old(actions) + [ScrolledIntoView(selected.value)]
    {
      if selected.None? {
        return this;
      }
      if validator == null || !Exempted() {
        if webDriver.Some? {
          actions := actions + [ScrolledIntoView(selected.value)];
        }
      }
      return this;
    }

    /**
     * `TryGetAttribute(attributeName, out attributeValue, tryCount, delay,
     * throwException)`: null when suppressed; otherwise the extension's
     * retry loop, whose last-attempt fault may escape.
     */
    method TryGetAttribute(attributeName: string, tryCount: int, throwException: bool, outcomes: seq<bool>)
      returns (self: Wrapper, attributeValue: Result<Option<string>>)
      ensures self == this
      ensures !Acts() ==> attributeValue == Ok(None)
      ensures Acts() ==> (attributeValue ==
        if Ext.RetryRaises(true, tryCount, throwException, outcomes) then Err(ActionFault)
        else Ok(Ext.AttributeResult(selected, attributeName, tryCount, outcomes)))
    {
      attributeValue := Ok(None);
      if selected.None? {
        return this, attributeValue;
      }
      if validator == null || !Exempted() {
        var attempts;
        attributeValue, attempts := Ext.TryGetAttribute(selected, attributeName, tryCount, throwException, outcomes);
      }
      return this, attributeValue;
    }

    /** `IsDisplayed(out result)`. */
    method IsDisplayed() returns (self: Wrapper, result: bool)
      ensures self == this
      ensures result <==> Acts() && selected.value.displayed
    {
      result := false;
      if selected.None? {
        return this, result;
      }
      if validator == null || !Exempted() {
        result := Ext.IsDisplayed(selected);
      }
      return this, result;
    }
  }

  /**
   * A chain of guarded operations on an exempted field leaves the trace as
   * it was, whatever the operations' arguments.
   */
  method ExemptedFieldUntouched(w: Wrapper, text: string, index: int)
    requires w.Exempted()
    modifies w`actions
    ensures w.actions == old(w.actions)
  {
    var _ := w.Click();
    var _ := w.SetText(text, true);
    var _ := w.SelectByText(text);
    var _ := w.SelectByIndex(index);
  }

  /** Without a validator, an operation on a bound element always acts on it. */
  method NoValidatorActs(w: Wrapper) returns (text: string)
    requires w.validator == null && w.selected.Some?
    modifies w`actions
    ensures text == w.selected.value.text
    ensures w.actions == old(w.actions) + [Clicked(w.selected.value)]
  {
    var _ := w.Click();
    var _, t := w.GetText();
    text := t;
  }
}
