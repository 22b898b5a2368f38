/**
 * The validator of a page object: its exemption list, the expected-value
 * records and the errors they produce, the error report, and the memoised
 * table snapshots. The label lookup done by reflection over the page's
 * `Description` attributes is an explicit list of (label, locator) pairs.
 */
module PageObjectValidation {
  import opened Web
  import opened DataSets
  import Text
  import WebElementExtensions
  import TableExtraction
  import WebDriverExtensions

  /** A page object property carrying a `Description` label and holding a locator. */
  datatype FieldLabel = FieldLabel(description: string, locator: Locator)

  /** An expected value registered for a field; `selector` may be null. */
  datatype ValidationRecord = ValidationRecord(elementName: string, elementValue: string, selector: Option<Locator>)

  datatype ValidationError = ValidationError(code: int, message: string)

  const MISSING_SELECTOR_CODE := 99
  const MISMATCH_CODE := 1

  /** `Environment.NewLine`, which `AppendLine` writes (Windows). */
  const NEW_LINE := "\r\n"

  /** The first labelled property whose description equals `label`, if any. */
  function LocatorByLabel(labels: seq<FieldLabel>, fieldLabel: string): (r: Option<Locator>)
    ensures r.None? <==> forall i :: 0 <= i < |labels| ==> labels[i].description != fieldLabel
    ensures r.Some? ==> exists i :: (0 <= i < |labels| && labels[i].description == fieldLabel && labels[i].locator == r.value &&
      forall k :: 0 <= k < i ==> labels[k].description != fieldLabel)
  {
    if |labels| == 0 then None
    else if labels[0].description == fieldLabel then Some(labels[0].locator)
    else
      var r := LocatorByLabel(labels[1..], fieldLabel);
      assert forall k :: 1 <= k < |labels| ==> labels[k] == labels[1..][k - 1];
      r
  }

  /** The message of a code-99 error names the field. */
  function MissingSelectorMessage(elementName: string): (m: string)
    ensures Text.Contains(m, elementName)
  {
    Text.ContainsInConcat("The element ", elementName, " does not have a selector.");
    "The element " + elementName + " does not have a selector."
  }

  /** The message of a code-1 error names the field, the expected value and the current value. */
  function MismatchMessage(elementName: string, expected: string, current: string): (m: string)
    ensures Text.Contains(m, elementName)
    ensures Text.Contains(m, expected)
    ensures Text.Contains(m, current)
  {
    var m := "The element " + elementName + " is not valid. Expected value: " + expected + " / Current value: " + current;
    Text.ContainsInConcat("The element ", elementName,
      " is not valid. Expected value: " + expected + " / Current value: " + current);
    assert m == "The element " + elementName + (" is not valid. Expected value: " + expected + " / Current value: " + current);
    Text.ContainsInConcat("The element " + elementName + " is not valid. Expected value: ", expected, " / Current value: " + current);
    assert m == ("The element " + elementName + " is not valid. Expected value: ") + expected + (" / Current value: " + current);
    Text.ContainsInConcat("The element " + elementName + " is not valid. Expected value: " + expected + " / Current value: ", current, "");
    assert m == ("The element " + elementName + " is not valid. Expected value: " + expected + " / Current value: ") + current + "";
    m
  }

  /** What checking one record does. */
  datatype RecordCheck = Passed | Recorded(error: ValidationError) | Faulted(fault: Fault)

  /**
   * One record of `ValidateByValidationData`: a missing selector gives a
   * code-99 error; otherwise the element (FindElement, which faults when
   * nothing matches) is read by the selected-option-else-text convention
   * and a difference gives a code-1 error. A selectable element without a
   * selected option reads as null, and comparing null faults.
   */
  function CheckRecord(item: ValidationRecord, driver: Driver): (r: RecordCheck)
    ensures item.selector.None? ==> r == Recorded(ValidationError(MISSING_SELECTOR_CODE, MissingSelectorMessage(item.elementName)))
    ensures item.selector.Some? && driver.FindElement(item.selector.value).Err? ==>
      r == Faulted(driver.FindElement(item.selector.value).fault)
    ensures item.selector.Some? && driver.FindElement(item.selector.value).Ok? ==>
      var current := WebElementExtensions.EffectiveValue(driver.FindElement(item.selector.value).value);
      (current.None? ==> r == Faulted(NullReference)) &&
      (current == Some(item.elementValue) ==> r == Passed) &&
      (current.Some? && current.value != item.elementValue ==>
        r == Recorded(ValidationError(MISMATCH_CODE, MismatchMessage(item.elementName, item.elementValue, current.value))))
  {
    if item.selector.None? then
      Recorded(ValidationError(MISSING_SELECTOR_CODE, MissingSelectorMessage(item.elementName)))
    else
      match driver.FindElement(item.selector.value)
      case Err(f) => Faulted(f)
      case Ok(element) =>
        var currentValue := WebElementExtensions.EffectiveValue(element);
        if currentValue.None? then Faulted(NullReference)
        else if currentValue.value == item.elementValue then Passed
        else Recorded(ValidationError(MISMATCH_CODE, MismatchMessage(item.elementName, item.elementValue, currentValue.value)))
  }

  /** The outcome of a validation pass over some records: the errors appended and the fault that stopped it. */
  datatype PassResult = PassResult(errors: seq<ValidationError>, fault: Option<Fault>)

  /** The records checked in order; the first fault stops the pass, keeping the errors found before it. */
  function CheckAll(records: seq<ValidationRecord>, driver: Driver): (r: PassResult)
    ensures |r.errors| <= |records|
    decreases |records|
  {
    if |records| == 0 then PassResult([], None)
    else
      var before := CheckAll(records[..|records| - 1], driver);
      if before.fault.Some? then before
      else
        match CheckRecord(records[|records| - 1], driver)
        case Passed => before
        case Recorded(e) => PassResult(before.errors + [e], None)
        case Faulted(f) => PassResult(before.errors, Some(f))
  }

  /** Once a prefix of the records faults, the records after it are not checked. */
  lemma {:induction false} CheckAllStops(records: seq<ValidationRecord>, n: nat, driver: Driver)
    requires n <= |records|
    requires CheckAll(records[..n], driver).fault.Some?
    ensures CheckAll(records, driver) == CheckAll(records[..n], driver)
    decreases |records| - n
  {
    if n < |records| {
      assert records[..n + 1][..n] == records[..n];
      CheckAllStops(records, n + 1, driver);
    } else {
      assert records[..n] == records;
    }
  }

  /** A pass only ever appends errors of code 99 or 1. */
  lemma {:induction false} CheckAllCodes(records: seq<ValidationRecord>, driver: Driver)
    ensures forall e :: e in CheckAll(records, driver).errors ==> e.code in {MISSING_SELECTOR_CODE, MISMATCH_CODE}
  {
    if |records| > 0 {
      CheckAllCodes(records[..|records| - 1], driver);
    }
  }

  /** When every record has a selector and its element shows the expected value, nothing is appended and nothing faults. */
  lemma {:induction false} CheckAllPassing(records: seq<ValidationRecord>, driver: Driver)
    requires forall i :: 0 <= i < |records| ==>
      records[i].selector.Some? && driver.FindElement(records[i].selector.value).Ok? &&
      WebElementExtensions.EffectiveValue(driver.FindElement(records[i].selector.value).value) == Some(records[i].elementValue)
    ensures CheckAll(records, driver) == PassResult([], None)
  {
    if |records| > 0 {
      CheckAllPassing(records[..|records| - 1], driver);
    }
  }

  /** Without faults, every record without a selector contributes its code-99 error. */
  lemma {:induction false} CheckAllReportsMissingSelectors(records: seq<ValidationRecord>, driver: Driver, i: nat)
    requires i < |records| && records[i].selector.None?
    requires CheckAll(records, driver).fault.None?
    ensures ValidationError(MISSING_SELECTOR_CODE, MissingSelectorMessage(records[i].elementName)) in CheckAll(records, driver).errors
  {
    var n := |records| - 1;
    if CheckAll(records[..n], driver).fault.None? && i < n {
      assert records[..n][i] == records[i];
      CheckAllReportsMissingSelectors(records[..n], driver, i);
    }
  }

  /** Without faults, every record whose element shows another value contributes its code-1 error naming both values. */
  lemma {:induction false} CheckAllReportsMismatches(records: seq<ValidationRecord>, driver: Driver, i: nat)
    requires i < |records| && records[i].selector.Some? && driver.FindElement(records[i].selector.value).Ok?
    requires var current := WebElementExtensions.EffectiveValue(driver.FindElement(records[i].selector.value).value);
      current.Some? && current.value != records[i].elementValue
    requires CheckAll(records, driver).fault.None?
    ensures var current := WebElementExtensions.EffectiveValue(driver.FindElement(records[i].selector.value).value);
      ValidationError(MISMATCH_CODE, MismatchMessage(records[i].elementName, records[i].elementValue, current.value))
        in CheckAll(records, driver).errors
  {
    var n := |records| - 1;
    if CheckAll(records[..n], driver).fault.None? && i < n {
      assert records[..n][i] == records[i];
      CheckAllReportsMismatches(records[..n], driver, i);
    }
  }

  /** One record whose element shows another value than expected gives exactly one code-1 error naming both values. */
  lemma SingleMismatch(item: ValidationRecord, driver: Driver)
    requires item.selector.Some? && driver.FindElement(item.selector.value).Ok?
    requires var element := driver.FindElement(item.selector.value).value;
      !element.isSelect && element.text != item.elementValue
    ensures |CheckAll([item], driver).errors| == 1 && CheckAll([item], driver).fault.None?
    ensures CheckAll([item], driver).errors[0].code == MISMATCH_CODE
    ensures Text.Contains(CheckAll([item], driver).errors[0].message, item.elementValue)
    ensures Text.Contains(CheckAll([item], driver).errors[0].message, driver.FindElement(item.selector.value).value.text)
  {
    var element := driver.FindElement(item.selector.value).value;
    assert [item][..0] == [];
  }

  /** One line of the report: the code and the message, ended by the line break. */
  function ErrorLine(error: ValidationError): string {
    Framed("Error Code: ", Text.IntToString(error.code), ". Details: ", error.message, NEW_LINE)
  }

  /** A report line shows the error's code and its message. */
  lemma ErrorLineMentions(error: ValidationError)
    ensures Text.Contains(ErrorLine(error), Text.IntToString(error.code))
    ensures Text.Contains(ErrorLine(error), error.message)
  {
    var code := Text.IntToString(error.code);
    var line := ErrorLine(error);
    assert line == "Error Code: " + code + (". Details: " + error.message + NEW_LINE);
    Text.ContainsInConcat("Error Code: ", code, ". Details: " + error.message + NEW_LINE);
    Text.ContainsInConcat("Error Code: " + code + ". Details: ", error.message, NEW_LINE);
  }

  /** `p + s + d + m + n`, as one string. */
  function Framed(p: string, s: string, d: string, m: string, n: string): string {
    p + s + d + m + n
  }

  /**
   * A text framed by fixed pieces gives back its two variable parts when
   * the first one holds no '.' and the separator after it starts with one.
   */
  lemma FramedInjective(p: string, s1: string, s2: string, d: string, m1: string, m2: string, n: string)
    requires '.' !in s1 && '.' !in s2 && |d| > 0 && d[0] == '.'
    requires Framed(p, s1, d, m1, n) == Framed(p, s2, d, m2, n)
    ensures s1 == s2 && m1 == m2
  {
    var line := Framed(p, s1, d, m1, n);
    FirstDotAfter(p, s1, d + m1 + n);
    FirstDotAfter(p, s2, d + m2 + n);
    assert line == p + s1 + (d + m1 + n) && line == p + s2 + (d + m2 + n);
    assert |s1| == |s2|;
    assert s1 == line[|p|..|p| + |s1|] == s2;
    assert m1 == line[|p| + |s1| + |d|..|line| - |n|] == m2;
  }

  /** In `p + s + rest`, the first '.' at or after `|p|` is where `rest` starts, when `s` has none and `rest` starts with one. */
  lemma FirstDotAfter(p: string, s: string, rest: string)
    requires '.' !in s && |rest| > 0 && rest[0] == '.'
    ensures forall i :: |p| <= i < |p| + |s| ==> (p + s + rest)[i] != '.'
    ensures (p + s + rest)[|p| + |s|] == '.'
  {
    forall i | |p| <= i < |p| + |s| ensures (p + s + rest)[i] != '.' {
      assert (p + s + rest)[i] == s[i - |p|];
    }
  }

  /** Different errors have different report lines, so the report identifies every error. */
  lemma ErrorLineInjective(a: ValidationError, b: ValidationError)
    requires ErrorLine(a) == ErrorLine(b)
    ensures a == b
  {
    FramedInjective("Error Code: ", Text.IntToString(a.code), Text.IntToString(b.code), ". Details: ", a.message, b.message, NEW_LINE);
    if a.code != b.code {
      Text.IntToStringInjective(a.code, b.code);
    }
  }

  /** The lines of the report, one per error, in insertion order. */
  function Lines(errors: seq<ValidationError>): (lines: seq<string>)
    ensures |lines| == |errors|
  {
    seq(|errors|, i requires 0 <= i < |errors| => ErrorLine(errors[i]))
  }

  lemma LinesAppend(a: seq<ValidationError>, b: seq<ValidationError>)
    ensures Lines(a + b) == Lines(a) + Lines(b)
  {
    forall i | 0 <= i < |a| + |b| ensures Lines(a + b)[i] == (Lines(a) + Lines(b))[i] {
      if i < |a| {
        assert (a + b)[i] == a[i];
      } else {
        assert (a + b)[i] == b[i - |a|];
      }
    }
  }

  /** The text a `StringBuilder` holds after appending `lines` in order. */
  function Joined(lines: seq<string>): string {
    if |lines| == 0 then "" else lines[0] + Joined(lines[1..])
  }

  lemma {:induction false} JoinedAppend(a: seq<string>, b: seq<string>)
    ensures Joined(a + b) == Joined(a) + Joined(b)
  {
    if |a| == 0 {
      assert a + b == b;
    } else {
      assert (a + b)[1..] == a[1..] + b;
      JoinedAppend(a[1..], b);
    }
  }

  /** The report: each error's line, in insertion order; empty exactly when there is no error. */
  function Report(errors: seq<ValidationError>): (report: string)
    ensures report == "" <==> |errors| == 0
  {
    Joined(Lines(errors))
  }

  /** The report of more errors extends the report of the earlier ones. */
  lemma ReportAppend(a: seq<ValidationError>, b: seq<ValidationError>)
    ensures Report(a + b) == Report(a) + Report(b)
  {
    LinesAppend(a, b);
    JoinedAppend(Lines(a), Lines(b));
  }

  /** The report of a single error is its line. */
  lemma ReportSingle(e: ValidationError)
    ensures Report([e]) == ErrorLine(e)
  {
    var lines := Lines([e]);
    assert lines == [ErrorLine(e)];
    assert lines[1..] == [];
    assert Joined(lines) == ErrorLine(e) + "";
  }

  /** Validation only appends errors, so a later report starts with every earlier one. */
  lemma ReportGrows(earlier: seq<ValidationError>, added: seq<ValidationError>)
    ensures Report(earlier) <= Report(earlier + added)
  {
    ReportAppend(earlier, added);
  }

  /** Every error has its line in the report, with its code and message. */
  lemma ReportMentions(errors: seq<ValidationError>, i: nat)
    requires i < |errors|
    ensures Text.Contains(Report(errors), ErrorLine(errors[i]))
    ensures Text.Contains(Report(errors), errors[i].message)
  {
    assert errors == errors[..i] + [errors[i]] + errors[i + 1..];
    ReportAppend(errors[..i] + [errors[i]], errors[i + 1..]);
    ReportAppend(errors[..i], [errors[i]]);
    ReportSingle(errors[i]);
    Text.ContainsInConcat(Report(errors[..i]), ErrorLine(errors[i]), Report(errors[i + 1..]));
    ErrorLineMentions(errors[i]);
    Text.ContainsTransitive(Report(errors), ErrorLine(errors[i]), errors[i].message);
  }

  class Validator {
    /** The fields the wrapper must not touch. */
    var exceptionFields: seq<Locator>
    var validationData: seq<ValidationRecord>
    var validationErrors: seq<ValidationError>
    /** The memoised snapshots; `None` until first built. */
    var detailTables: Option<DataSet>
    var relatedTables: Option<DataSet>
    /** The page's labelled properties, in declaration order. */
    const labels: seq<FieldLabel>

    constructor (labels: seq<FieldLabel>)
      ensures this.labels == labels
      ensures exceptionFields == [] && validationData == [] && validationErrors == []
      ensures detailTables == None && relatedTables == None
    {
      this.labels := labels;
      exceptionFields, validationData, validationErrors := [], [], [];
      detailTables, relatedTables := None, None;
    }

    /** `HasErrors`: some error was recorded, that is, the report is not empty. */
    function HasErrors(): (r: bool)
      reads this
      ensures r <==> Report(validationErrors) != ""
    {
      |validationErrors| > 0
    }

    /** `SetExceptionField(selector)`: appends. */
    method SetExceptionField(selector: Locator)
      modifies this`exceptionFields
      ensures exceptionFields == old(exceptionFields) + [selector]
    {
      exceptionFields := exceptionFields + [selector];
    }

    /** `SetExceptionField(fieldLabel)`: appends the labelled field's locator, if the label exists. */
    method SetExceptionFieldByLabel(fieldLabel: string)
      modifies this`exceptionFields
      ensures exceptionFields == old(exceptionFields) +
        match LocatorByLabel(labels, fieldLabel) case Some(l) => [l] case None => []
    {
      var property := LocatorByLabel(labels, fieldLabel);
      if property.Some? {
        exceptionFields := exceptionFields + [property.value];
      }
    }

    /** `ExistsElementByFieldLabel(fieldLabel, out result)`. */
    method ExistsElementByFieldLabel(fieldLabel: string) returns (result: bool)
      ensures result <==> exists i :: 0 <= i < |labels| && labels[i].description == fieldLabel
    {
      result := LocatorByLabel(labels, fieldLabel).Some?;
    }

    /** `ClearExceptionFields()`: empties the exemption list and nothing else. */
    method ClearExceptionFields()
      modifies this`exceptionFields
      ensures exceptionFields == []
    {
      exceptionFields := [];
    }

    /** `Dispose()`: the end of a `using` scope clears the exemptions only; errors stay. */
    method Dispose()
      modifies this`exceptionFields
      ensures exceptionFields == []
    {
      ClearExceptionFields();
    }

    /** `SetValidationData(elementName, expectedValue, selector)`: appends a record. */
    method SetValidationData(elementName: string, expectedValue: string, selector: Option<Locator>)
      modifies this`validationData
      ensures validationData == old(validationData) + [ValidationRecord(elementName, expectedValue, selector)]
    {
      validationData := validationData + [ValidationRecord(elementName, expectedValue, selector)];
    }

    /**
     * `ValidateByValidationData()`: checks the records in order, appending
     * their errors; clears the records when the pass completes. A fault
     * escapes with the errors found so far appended and the records kept.
     */
    method ValidateByValidationData(driver: Driver) returns (outcome: Outcome)
      modifies this`validationErrors, this`validationData
      ensures var pass := CheckAll(old(validationData), driver);
        validationErrors == old(validationErrors) + pass.errors &&
        (pass.fault.None? ==> outcome == Pass && validationData == []) &&
        (pass.fault.Some? ==> outcome == Fail(pass.fault.value) && validationData == old(validationData))
    {
      var records := validationData;
      var i := 0;
      while i < |records|
        invariant 0 <= i <= |records|
        invariant CheckAll(records[..i], driver).fault.None?
        invariant validationErrors == old(validationErrors) + CheckAll(records[..i], driver).errors
        invariant validationData == records
      {
        assert records[..i + 1][..i] == records[..i];
        var item := records[i];
        match CheckRecord(item, driver) {
          case Passed =>
          case Recorded(e) =>
            validationErrors := validationErrors + [e];
          case Faulted(f) =>
            CheckAllStops(records, i + 1, driver);
            return Fail(f);
        }
        i := i + 1;
      }
      assert records[..i] == records;
      validationData := [];
      return Pass;
    }

    /**
     * `GetErrors()`: null without errors, otherwise each error as
     * "Error Code: {code}. Details: {message}" and a line break, in order.
     */
    method GetErrors() returns (report: Option<string>)
      ensures report.None? <==> !HasErrors()
      ensures report.Some? ==> report.value == Report(validationErrors)
    {
      if !HasErrors() {
        return None;
      }
      var sb := "";
      ghost var lines := Lines(validationErrors);
      var i := 0;
      while i < |validationErrors|
        invariant 0 <= i <= |validationErrors|
        invariant sb == Joined(lines[..i])
      {
        var line := ErrorLine(validationErrors[i]);
        assert lines[..i + 1] == lines[..i] + [line];
        JoinedAppend(lines[..i], [line]);
        assert Joined([line]) == line + Joined([]);
        sb := sb + line;
        i := i + 1;
      }
      assert lines[..i] == lines;
      return Some(sb);
    }

    /**
     * `GetDetailTables(rowTypeLoad)`: the first call builds the snapshot,
     * adding each table that yields a DataTable under its position's name
     * (an empty set is memoised before building, so a fault leaves it
     * memoised empty); every later call returns the memo whatever the page
     * and the load type.
     */
    method GetDetailTables(driver: Driver, load: TableExtraction.RowTypeLoad) returns (r: Result<DataSet>)
      modifies this`detailTables
      ensures old(detailTables).Some? ==> detailTables == old(detailTables) && r == Ok(detailTables.value)
      ensures old(detailTables).None? ==>
        var extraction := TableExtraction.DetailTablesOf(driver, load);
        detailTables == Some(extraction.tables) &&
        r == if extraction.fault.Some? then Err(extraction.fault.value) else Ok(extraction.tables)
    {
      if detailTables.Some? {
        return Ok(detailTables.value);
      }
      detailTables := Some([]);
      var tables := WebDriverExtensions.TryFindElements(Some(driver), Some(TableExtraction.DETAIL_TABLES), WebDriverExtensions.LOOKUP_TIMEOUT);
      if tables.None? {
        return Ok([]);
      }
      var headers := WebDriverExtensions.TryFindElements(Some(driver), Some(TableExtraction.DETAIL_TABLES_HEADERS), WebDriverExtensions.LOOKUP_TIMEOUT);
      var tableNames := TableExtraction.GetTableNames(|tables.value|, headers);
      if tableNames.Err? {
        return Err(tableNames.fault);
      }
      var elements, names := tables.value, tableNames.value;
      var index := 0;
      while index < |elements|
        invariant 0 <= index <= |elements|
        invariant detailTables == Some(TableExtraction.Collect(TableExtraction.Detail, elements[..index], names[..index], load))
      {
        var dt := TableExtraction.CreateTable(TableExtraction.Detail, elements[index], names[index], load);
        TableExtraction.CollectOneMore(TableExtraction.Detail, elements, names, load, index);
        if dt.Some? {
          detailTables := Some(detailTables.value + [dt.value]);
        } else {
          assert detailTables.value + [] == detailTables.value;
        }
        index := index + 1;
      }
      assert elements[..index] == elements && names[..index] == names;
      return Ok(detailTables.value);
    }

    /**
     * `GetRelatedLists(rowTypeLoad)`: memoised like GetDetailTables; table i
     * is named by title i without spaces, and a table without a title stops
     * the build with an index fault, the tables built before it memoised.
     */
    method GetRelatedLists(driver: Driver, load: TableExtraction.RowTypeLoad) returns (r: Result<DataSet>)
      modifies this`relatedTables
      ensures old(relatedTables).Some? ==> relatedTables == old(relatedTables) && r == Ok(relatedTables.value)
      ensures old(relatedTables).None? ==>
        var extraction := TableExtraction.RelatedListsOf(driver, load);
        relatedTables == Some(extraction.tables) &&
        r == if extraction.fault.Some? then Err(extraction.fault.value) else Ok(extraction.tables)
    {
      if relatedTables.Some? {
        return Ok(relatedTables.value);
      }
      relatedTables := Some([]);
      var tableElements := driver.FindElements(TableExtraction.RELATED_LIST_BODY_TABLES);
      var titleElements := driver.FindElements(TableExtraction.RELATED_LIST_HEADER_TITLES);
      if tableElements.Err? {
        return Err(tableElements.fault);
      }
      // A driver that answers one lookup answers the other.
      r := AddRelatedLists(tableElements.value, titleElements.value, load);
    }

    /**
     * The `ForEach` of GetRelatedLists: adds table i under title i's name
     * without spaces; a table without a title raises the index fault.
     */
    method AddRelatedLists(elements: seq<Element>, titles: seq<Element>, load: TableExtraction.RowTypeLoad) returns (r: Result<DataSet>)
      requires relatedTables == Some([])
      modifies this`relatedTables
      ensures |elements| <= |titles| ==>
        relatedTables == Some(TableExtraction.Collect(TableExtraction.RelatedList, elements, TableExtraction.RelatedListNames(titles)[..|elements|], load)) &&
        r == Ok(relatedTables.value)
      ensures |elements| > |titles| ==>
        relatedTables == Some(TableExtraction.Collect(TableExtraction.RelatedList, elements[..|titles|], TableExtraction.RelatedListNames(titles), load)) &&
        r == Err(ArgumentOutOfRange)
    {
      ghost var names := TableExtraction.RelatedListNames(titles);
      var index := 0;
      while index < |elements|
        invariant 0 <= index <= |elements| && index <= |titles|
        invariant relatedTables == Some(TableExtraction.Collect(TableExtraction.RelatedList, elements[..index], names[..index], load))
      {
        if index >= |titles| {
          assert elements[..index] == elements[..|titles|] && names[..index] == names;
          return Err(ArgumentOutOfRange);
        }
        var dt := TableExtraction.CreateTable(TableExtraction.RelatedList, elements[index], Text.RemoveSpaces(titles[index].text), load);
        TableExtraction.CollectOneMore(TableExtraction.RelatedList, elements, names, load, index);
        if dt.Some? {
          relatedTables := Some(relatedTables.value + [dt.value]);
        } else {
          assert relatedTables.value + [] == relatedTables.value;
        }
        index := index + 1;
      }
      assert elements[..index] == elements;
      return Ok(relatedTables.value);
    }
  }
}
