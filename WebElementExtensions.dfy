/**
 * Null-safe element predicates, the selectable-control helpers and the two
 * bounded retry loops (`TryClick`, `TryGetAttribute`). A null element is
 * `None`. Whether each attempt of a retried action faults comes from an
 * oracle: attempt `i` (counted from 0) succeeds iff `outcomes[i]` is true,
 * and an attempt past the end of the oracle faults. Delays between
 * attempts are not modelled.
 */
module WebElementExtensions {
  import opened Web

  /** `element.IsEnabled()`. */
  function IsEnabled(element: Option<Element>): (r: bool)
    ensures r ==> element.Some?
    ensures element.Some? ==> r == element.value.enabled
  {
    if element.None? then false else element.value.enabled
  }

  /** `element.IsDisplayed()`. */
  function IsDisplayed(element: Option<Element>): (r: bool)
    ensures r ==> element.Some?
    ensures element.Some? ==> r == element.value.displayed
  {
    if element.None? then false else element.value.displayed
  }

  /**
   * `element.IsSelectable(throwException)`: building a SelectElement over a
   * non-<select> element faults; the fault escapes only when asked to.
   */
  function IsSelectableOrFault(element: Option<Element>, throwException: bool): (r: Result<bool>)
    ensures r.Err? <==> throwException && element.Some? && !element.value.isSelect
    ensures r.Ok? ==> (r.value <==> element.Some? && element.value.isSelect)
  {
    if element.None? then Ok(false)
    else if element.value.isSelect then Ok(true)
    else if throwException then Err(UnexpectedTagName)
    else Ok(false)
  }

  /** `element.IsSelectable()` with its default, non-throwing, setting. */
  function IsSelectable(element: Option<Element>): (r: bool)
    ensures r <==> element.Some? && element.value.isSelect
  {
    match IsSelectableOrFault(element, false)
    case Ok(b) => b
    case Err(_) => assert false; false
  }

  /** `element.GetSelectOptionsCount()`: null unless the element is selectable. */
  function GetSelectOptionsCount(element: Option<Element>): (r: Option<int>)
    ensures r.Some? <==> IsSelectable(element)
    ensures r.Some? ==> r.value == |element.value.options|
  {
    if !IsSelectable(element) then None else Some(|element.value.options|)
  }

  /** `element.GetSelectOptionsAsEnumerable()`: the option texts, or null. */
  function GetSelectOptionsAsEnumerable(element: Option<Element>): (r: Option<seq<string>>)
    ensures r.Some? <==> IsSelectable(element)
    ensures r.Some? ==> r.value == element.value.options
  {
    if !IsSelectable(element) then None else Some(element.value.options)
  }

  /** `element.AsSelectable().Options`, which faults on a non-<select> element. */
  function SelectOptions(element: Element): (r: Result<seq<string>>)
    ensures r.Ok? <==> element.isSelect
    ensures r.Ok? ==> r.value == element.options
  {
    if element.isSelect then Ok(element.options) else Err(UnexpectedTagName)
  }

  /** `element.GetSelectedOptionText()`: null unless selectable with a selected option. */
  function GetSelectedOptionText(element: Option<Element>): (r: Option<string>)
    ensures r.Some? ==> IsSelectable(element) && element.value.selectedOption == r
    ensures IsSelectable(element) ==> r == element.value.selectedOption
  {
    if !IsSelectable(element) then None
    else if element.value.selectedOption.None? then None
    else element.value.selectedOption
  }

  /**
   * `element.SelectByText(text)` and `element.SelectByIndex(index)`: the
   * action they perform, none on a non-selectable element.
   */
  function SelectByText(element: Option<Element>, text: string): (effect: seq<Action>)
    ensures |effect| <= 1
    ensures effect == [] <==> !IsSelectable(element)
    ensures effect != [] ==> effect[0] == SelectedText(element.value, text)
  {
    if !IsSelectable(element) then [] else [SelectedText(element.value, text)]
  }

  function SelectByIndex(element: Option<Element>, index: int): (effect: seq<Action>)
    ensures |effect| <= 1
    ensures effect == [] <==> !IsSelectable(element)
    ensures effect != [] ==> effect[0] == SelectedIndex(element.value, index)
  {
    if !IsSelectable(element) then [] else [SelectedIndex(element.value, index)]
  }

  /**
   * The selected-option-else-text convention: the value a selectable
   * control shows is its selected option's text (null when none is
   * selected), any other element's value is its text.
   */
  function EffectiveValue(element: Element): (r: Option<string>)
    ensures element.isSelect ==> r == element.selectedOption
    ensures !element.isSelect ==> r == Some(element.text)
  {
    if IsSelectable(Some(element)) then GetSelectedOptionText(Some(element)) else Some(element.text)
  }

  // ---------------------------------------------------------------------
  // Retry loops

  predicate AttemptSucceeds(outcomes: seq<bool>, i: nat) {
    i < |outcomes| && outcomes[i]
  }

  /** The loop runs while `count <= tryCount`: `tryCount + 1` attempts, none if negative. */
  function MaxAttempts(tryCount: int): (n: nat)
    ensures tryCount >= 0 ==> n == tryCount + 1
    ensures tryCount < 0 ==> n == 0
  {
    if tryCount < 0 then 0 else tryCount + 1
  }

  /** The index of the first successful attempt, `|outcomes|` when none succeeds. */
  function FirstSuccess(outcomes: seq<bool>): (k: nat)
    ensures k <= |outcomes|
    ensures forall i :: 0 <= i < k ==> !outcomes[i]
    ensures k < |outcomes| ==> outcomes[k]
  {
    if |outcomes| == 0 then 0
    else if outcomes[0] then 0
    else 1 + FirstSuccess(outcomes[1..])
  }

  /** Some attempt among the first `n` succeeds. */
  predicate SucceedsWithin(outcomes: seq<bool>, n: int) {
    FirstSuccess(outcomes) < |outcomes| && FirstSuccess(outcomes) < n
  }

  /** The attempts a retry loop makes on a present element: up to and including the first success. */
  function RetryAttempts(present: bool, tryCount: int, outcomes: seq<bool>): nat {
    if !present then 0
    else if SucceedsWithin(outcomes, MaxAttempts(tryCount)) then FirstSuccess(outcomes) + 1
    else MaxAttempts(tryCount)
  }

  /** Whether the loop ends by re-raising: every allowed attempt failed and throwing was asked for. */
  predicate RetryRaises(present: bool, tryCount: int, throwException: bool, outcomes: seq<bool>) {
    present && throwException && tryCount >= 0 && !SucceedsWithin(outcomes, MaxAttempts(tryCount))
  }

  /** `SucceedsWithin` says what its name says. */
  lemma SucceedsWithinMeans(outcomes: seq<bool>, n: int)
    ensures SucceedsWithin(outcomes, n) <==> exists i :: 0 <= i < n && AttemptSucceeds(outcomes, i)
  {
    if SucceedsWithin(outcomes, n) {
      assert AttemptSucceeds(outcomes, FirstSuccess(outcomes));
    }
  }

  /** If the first `k <= tryCount` attempts fail and the next succeeds, exactly k + 1 attempts are made and nothing escapes. */
  lemma RetryAfterFailures(tryCount: int, throwException: bool, outcomes: seq<bool>, k: nat)
    requires k <= tryCount
    requires forall i :: 0 <= i < k ==> !AttemptSucceeds(outcomes, i)
    requires AttemptSucceeds(outcomes, k)
    ensures RetryAttempts(true, tryCount, outcomes) == k + 1
    ensures !RetryRaises(true, tryCount, throwException, outcomes)
  {
    FirstSuccessIs(outcomes, k);
  }

  /** If every allowed attempt fails, all `tryCount + 1` are made, and the fault escapes iff asked to. */
  lemma RetryAllFail(tryCount: int, throwException: bool, outcomes: seq<bool>)
    requires forall i :: 0 <= i < MaxAttempts(tryCount) ==> !AttemptSucceeds(outcomes, i)
    ensures RetryAttempts(true, tryCount, outcomes) == MaxAttempts(tryCount)
    ensures RetryRaises(true, tryCount, throwException, outcomes) <==> throwException && tryCount >= 0
  {
    SucceedsWithinMeans(outcomes, MaxAttempts(tryCount));
  }

  /** No attempt is made on a null element, at most tryCount + 1 otherwise, and a raise happens only after the last one. */
  lemma RetryBounds(present: bool, tryCount: int, throwException: bool, outcomes: seq<bool>)
    ensures RetryAttempts(present, tryCount, outcomes) <= MaxAttempts(tryCount)
    ensures !present ==> RetryAttempts(present, tryCount, outcomes) == 0
    ensures RetryRaises(present, tryCount, throwException, outcomes) ==>
      RetryAttempts(present, tryCount, outcomes) == MaxAttempts(tryCount) &&
      forall i :: 0 <= i < MaxAttempts(tryCount) ==> !AttemptSucceeds(outcomes, i)
  {
    SucceedsWithinMeans(outcomes, MaxAttempts(tryCount));
  }

  lemma {:induction false} FirstSuccessIs(outcomes: seq<bool>, k: nat)
    requires forall i :: 0 <= i < k ==> !AttemptSucceeds(outcomes, i)
    requires AttemptSucceeds(outcomes, k)
    ensures FirstSuccess(outcomes) == k
  {
    if k > 0 {
      assert !AttemptSucceeds(outcomes, 0);
      forall i | 0 <= i < k - 1 ensures !AttemptSucceeds(outcomes[1..], i) {
        assert !AttemptSucceeds(outcomes, i + 1);
      }
      FirstSuccessIs(outcomes[1..], k - 1);
    }
  }

  /**
   * `element.TryClick(tryCount, delay, throwException)`: clicks until a click
   * succeeds, at most `tryCount + 1` times; a fault on the attempt with
   * `count >= tryCount` is re-raised when `throwException` is set. Returns
   * how many click attempts were made.
   */
  method TryClick(element: Option<Element>, tryCount: int, throwException: bool, outcomes: seq<bool>)
    returns (outcome: Outcome, attempts: nat)
    ensures attempts == RetryAttempts(element.Some?, tryCount, outcomes)
    ensures outcome.Fail? <==> RetryRaises(element.Some?, tryCount, throwException, outcomes)
    ensures outcome.Fail? ==> outcome.fault == ActionFault
  {
    outcome, attempts := Pass, 0;
    if element.None? {
      return;
    }
    var doClick := true;
    var clickCount := 0;
    while doClick && clickCount <= tryCount
      invariant 0 <= clickCount <= MaxAttempts(tryCount)
      invariant doClick ==> forall i :: 0 <= i < clickCount ==> !AttemptSucceeds(outcomes, i)
      invariant !doClick ==> 0 < clickCount <= MaxAttempts(tryCount) && AttemptSucceeds(outcomes, clickCount - 1)
      invariant !doClick ==> FirstSuccess(outcomes) == clickCount - 1
      invariant doClick && throwException && tryCount >= 0 ==> clickCount <= tryCount
      decreases doClick, tryCount - clickCount
    {
      if AttemptSucceeds(outcomes, clickCount) {
        FirstSuccessIs(outcomes, clickCount);
        doClick := false;
      } else if clickCount >= tryCount && throwException {
        // the finally block still counts this attempt before the fault escapes
        SucceedsWithinMeans(outcomes, MaxAttempts(tryCount));
        outcome, attempts := Fail(ActionFault), clickCount + 1;
        return;
      }
      clickCount := clickCount + 1;
    }
    SucceedsWithinMeans(outcomes, MaxAttempts(tryCount));
    attempts := clickCount;
  }

  /** The value `TryGetAttribute` returns when nothing escapes. */
  function AttributeResult(element: Option<Element>, attributeName: string, tryCount: int, outcomes: seq<bool>): Option<string> {
    if element.None? then Some("")
    else if SucceedsWithin(outcomes, MaxAttempts(tryCount)) then GetAttribute(element.value, attributeName)
    else Some("")
  }

  /**
   * `element.TryGetAttribute(name, tryCount, delay, throwException)`: the
   * same loop as TryClick around `GetAttribute`; "" for a null element and
   * after exhausting the attempts, otherwise the (possibly null) value read
   * by the first successful attempt.
   */
  method TryGetAttribute(element: Option<Element>, attributeName: string, tryCount: int, throwException: bool, outcomes: seq<bool>)
    returns (result: Result<Option<string>>, attempts: nat)
    ensures attempts == RetryAttempts(element.Some?, tryCount, outcomes)
    ensures result.Err? <==> RetryRaises(element.Some?, tryCount, throwException, outcomes)
    ensures result.Err? ==> result.fault == ActionFault
    ensures result.Ok? ==> result.value == AttributeResult(element, attributeName, tryCount, outcomes)
  {
    attempts := 0;
    if element.None? {
      return Ok(Some("")), 0;
    }
    var value: Option<string> := Some("");
    var count := 0;
    while count <= tryCount
      invariant 0 <= count <= MaxAttempts(tryCount)
      invariant forall i :: 0 <= i < count ==> !AttemptSucceeds(outcomes, i)
      invariant value == Some("")
      invariant throwException && tryCount >= 0 ==> count <= tryCount
      decreases tryCount - count
    {
      if AttemptSucceeds(outcomes, count) {
        FirstSuccessIs(outcomes, count);
        value := GetAttribute(element.value, attributeName);
        count := count + 1;
        break;
      } else if count >= tryCount && throwException {
        SucceedsWithinMeans(outcomes, MaxAttempts(tryCount));
        return Err(ActionFault), count + 1;
      }
      count := count + 1;
    }
    SucceedsWithinMeans(outcomes, MaxAttempts(tryCount));
    return Ok(value), count;
  }
}
