# Page object wrapper — a verified model

This project models the sequential core of a Selenium page-object helper
library written in C#. The browser is a value here:

- a `Driver` maps each locator (`By`) to the elements it matches, in
  document order;
- an `Element` is a snapshot of what Selenium would report: its text,
  whether it is enabled, displayed or a `<select>`, its options, its
  selected option, its attributes, its inner HTML, and its children
  reachable by a relative XPath;
- a driver that faults on every lookup is a flag.

On top of that abstraction the model covers five parts of the library:

- **Table extraction and the section namer.** Detail tables and related
  lists become DataSets, named and shaped as the library names and shapes
  them, and memoised on the validator.
- **The validator.** This covers the exemption list, the expected-value
  records, the validation pass that turns them into numbered errors, and
  the error report.
- **The fluent wrapper.** It binds an element by a locator and then acts
  on it only when no validator exempts the last locator. A ghost trace
  records every click, clear, key entry, selection and scroll, so
  "suppressed means untouched" is a checked statement.
- **The element helpers.** These are the null-safe predicates and the two
  bounded retry loops, which take a sequence of per-attempt outcomes as
  an oracle: attempt *i* succeeds iff `outcomes[i]` is true.
- **The driver probes, the row search, and `By.GetValue`.**

Null references are `Option` values. A C# exception that escapes is an
`Err`, a `Fail` or a returned fault, named by `Fault`.

Modules:

| file | module | models |
|---|---|---|
| `Web.dfy` | `Web` | locators, elements, the driver, faults, the action trace |
| `Text.dfy` | `Text` | `Trim`, `Replace(" ", "")`, ordinal `IndexOf`, integer formatting |
| `WebElementExtensions.dfy` | `WebElementExtensions` | element predicates, select helpers, `TryClick`, `TryGetAttribute` |
| `WebDriverExtensions.dfy` | `WebDriverExtensions` | `Exists` (both overloads), `TryFindElement`, `TryFindElements` |
| `ByExtensions.dfy` | `ByExtensions` | `By.GetValue` |
| `DataSets.dfy` | `DataSets` | DataSet, DataTable, rows of nullable cells |
| `DataTableExtensions.dfy` | `DataTableExtensions` | `FindByText`, `ContainsText` |
| `TableExtraction.dfy` | `TableExtraction` | table names, columns, rows, table building, whole extractions |
| `PageObjectValidation.dfy` | `PageObjectValidation` | the validator class: exemptions, validation, report, memoised extractions |
| `PageObjectWrapper.dfy` | `PageObjectWrapper` | the wrapper class and its guarded operations |

Where the code and its design notes differ, the model follows the code:

- The error report ends every line, the last one included, with the line
  break that `StringBuilder.AppendLine` writes. The report is not a
  newline-joined list.
- With no header collection at all, the first two naming policies still
  apply when they match: no tables (D = 0) or a single table (D = 1).
  They then pass the missing collection to `ToList`, which rejects a null
  source, and `GetTableNames` returns `ArgumentNull`.
- A validation pass that faults keeps its records. A lookup that finds
  nothing faults, and so does a `<select>` without a selected option,
  whose null current value is then compared. Only a completed pass clears
  the records. The errors found before the fault are kept.

## Model

| member | source | states |
|---|---|---|
| WebElementExtensions.IsEnabled | Extensions/WebElementExtensions.cs:13-19 | false for a null element, otherwise the element's enabled flag |
| WebElementExtensions.IsDisplayed | Extensions/WebElementExtensions.cs:21-27 | false for a null element, otherwise the element's displayed flag |
| WebElementExtensions.IsSelectableOrFault | Extensions/WebElementExtensions.cs:33-55 | building a SelectElement over a non-select faults only when `throwException` is set; otherwise the answer is "non-null and a select" |
| WebElementExtensions.IsSelectable | Extensions/WebElementExtensions.cs:33-55 | true iff the element is non-null and a select (the construction fault is swallowed) |
| WebElementExtensions.GetSelectOptionsCount | Extensions/WebElementExtensions.cs:72-78 | null iff not selectable; otherwise the number of options |
| WebElementExtensions.GetSelectOptionsAsEnumerable | Extensions/WebElementExtensions.cs:80-87 | null iff not selectable; otherwise the option texts in order |
| WebElementExtensions.SelectOptions | Extensions/WebElementExtensions.cs:60-66 | `AsSelectable().Options`: the option texts of a select, an UnexpectedTagName fault for anything else |
| WebElementExtensions.GetSelectedOptionText | Extensions/WebElementExtensions.cs:113-133 | null unless selectable; for a select, exactly its selected option's text or null when none is selected |
| WebElementExtensions.SelectByText | Extensions/WebElementExtensions.cs:93-99 | no action on a non-selectable element; otherwise exactly one selection of that text on that element |
| WebElementExtensions.SelectByIndex | Extensions/WebElementExtensions.cs:101-107 | no action on a non-selectable element; otherwise exactly one selection of that index on that element |
| WebElementExtensions.EffectiveValue | PageObjectValidationBase.cs:321-322 | the selected option's text (possibly null) for a select, otherwise the text |
| WebElementExtensions.MaxAttempts | Extensions/WebElementExtensions.cs:156-158 | the loop `while (… count <= tryCount)` allows tryCount + 1 attempts, none when tryCount is negative |
| WebElementExtensions.FirstSuccess | Extensions/WebElementExtensions.cs:158-175 | the index of the first successful attempt: every earlier one fails |
| WebElementExtensions.SucceedsWithinMeans | Extensions/WebElementExtensions.cs:158-175 | an attempt succeeds within n tries iff some attempt below n succeeds |
| WebElementExtensions.RetryAfterFailures | Extensions/WebElementExtensions.cs:158-175 | when exactly k ≤ tryCount attempts fail before a success, k + 1 attempts are made and nothing is raised |
| WebElementExtensions.RetryAllFail | Extensions/WebElementExtensions.cs:165-168 | when every attempt fails, all tryCount + 1 attempts are made and the fault escapes iff `throwException` is set and tryCount ≥ 0 |
| WebElementExtensions.RetryBounds | Extensions/WebElementExtensions.cs:150-175 | a null element gets no attempt; never more than tryCount + 1 attempts; a raised fault means every allowed attempt failed |
| WebElementExtensions.FirstSuccessIs | Extensions/WebElementExtensions.cs:158-175 | a success preceded only by failures is the first success |
| WebElementExtensions.TryClick | Extensions/WebElementExtensions.cs:150-176 | the loop makes exactly the attempts the retry rule gives and stops after the first success; it fails with the click fault iff the retry rule raises |
| WebElementExtensions.TryGetAttribute | Extensions/WebElementExtensions.cs:178-208 | the same attempt count and raise rule as TryClick; "" for a null element and after exhausted attempts; otherwise the (possibly null) value read by the first success |
| WebDriverExtensions.Exists | Extensions/WebDriverExtensions.cs:17-32 | true iff driver and locator are non-null and FindElements returns a non-empty collection; a probe fault reads as false |
| WebDriverExtensions.ExistsOrFault | Extensions/WebDriverExtensions.cs:40-47 | the timeout-less overload: false for null inputs; a probe fault escapes; otherwise the same test |
| WebDriverExtensions.TryFindElement | Extensions/WebDriverExtensions.cs:56-65 | null iff nothing is present (null inputs, no match, probe fault); otherwise the first match |
| WebDriverExtensions.TryFindElements | Extensions/WebDriverExtensions.cs:67-76 | null rather than an empty collection; otherwise the whole non-empty match list |
| WebDriverExtensions.ExistsOverloadsAgree | Extensions/WebDriverExtensions.cs:17-47 | the two `Exists` overloads agree unless the driver faults, and then the swallowing one says false |
| WebDriverExtensions.TimeoutIgnored | Extensions/WebDriverExtensions.cs:22-26 | `Exists`, `TryFindElement` and `TryFindElements` give the same result for every timeout |
| WebDriverExtensions.FindAgreesWithFindAll | Extensions/WebDriverExtensions.cs:56-76 | TryFindElement finds something iff TryFindElements does, and it is that list's head |
| ByExtensions.GetValue | Extensions/ByExtensions.cs:12-27 | null for null inputs or no element; the selected option's text for a select; otherwise the element's text |
| ByExtensions.GetValueIsEffectiveValue | Extensions/ByExtensions.cs:16-22 | GetValue is the found element's effective value, the convention the table rows and the validation pass use |
| DataTableExtensions.CellMatchMeaning | Extensions/DataTableExtensions.cs:22-27 | null and empty cells never match; with `indexOf` a match is a substring occurrence, without it exact equality |
| DataTableExtensions.FindByText | Extensions/DataTableExtensions.cs:12-33 | null iff the table is null or no row has a matching cell (an empty table included); otherwise the first matching row in row order |
| DataTableExtensions.ContainsText | Extensions/DataTableExtensions.cs:35-38 | true iff some row of the (non-null) table matches, i.e. iff FindByText is non-null |
| Text.Trim | PageObjectValidationBase.cs:211 | the input is the result with only white space added at either end, and the result neither starts nor ends with white space |
| Text.TrimExtremes | PageObjectValidationBase.cs:211 | trimming empties exactly a blank text, and leaves a text without white space unchanged |
| Text.RemoveSpaces | PageObjectValidationBase.cs:211 | no space is left, and a one-character text is kept unless it is a space |
| Text.RemoveSpacesCounts | PageObjectValidationBase.cs:211 | every character but the space is kept exactly as often as it occurs |
| Text.RemoveSpacesAppend | PageObjectValidationBase.cs:211 | removing spaces from a concatenation removes them from each part, so the kept characters stay in order |
| Text.RemoveSpacesKeepsEnds | PageObjectValidationBase.cs:211 | removing spaces keeps a first and a last character that are not spaces |
| Text.RemoveSpacesIdle | PageObjectValidationBase.cs:211 | a text without spaces is left unchanged |
| Text.NatToString | PageObjectValidationBase.cs:222 | decimal digits with no leading zero |
| Text.ParseNatToString | PageObjectValidationBase.cs:222 | the digits read back as the number |
| Text.NatToStringInjective | PageObjectValidationBase.cs:220-223 | different numbers render differently |
| Text.IntToString | PageObjectValidationBase.cs:512 | an error code renders as its decimal digits, with a minus sign when negative, and holds no '.' |
| Text.IntToStringInjective | PageObjectValidationBase.cs:512 | different error codes render differently |
| TableExtraction.SectionName | PageObjectValidationBase.cs:211 | a header text trimmed, then without spaces: every character of the trimmed text but the spaces, each as often; no white space at either end; empty exactly for a blank header; a header without white space is its own name |
| TableExtraction.HeaderNames | PageObjectValidationBase.cs:211 | one name per header, in order, each the header's section name |
| TableExtraction.GenericNames | PageObjectValidationBase.cs:218-224 | exactly D names |
| TableExtraction.GetTableNames | PageObjectValidationBase.cs:201-227 | faults (`ToList` on a null source) iff there is no header collection and D ≤ 1; otherwise exactly D names |
| TableExtraction.TableNamesOneToOne | PageObjectValidationBase.cs:209-211 | with H = D, table i is named after header i |
| TableExtraction.TableNamesWithMainTable | PageObjectValidationBase.cs:213-217 | with H = D − 1, "MainTable" followed by the H header names in order |
| TableExtraction.TableNamesGeneric | PageObjectValidationBase.cs:218-224 | with any other H, exactly "Table1".."TableD", all different |
| TableExtraction.PositionalColumns | PageObjectValidationBase.cs:401-406 | exactly "col1".."colN" |
| TableExtraction.PositionalColumnsDistinct | PageObjectValidationBase.cs:401-406 | positional column names never clash |
| TableExtraction.GetColumns | PageObjectValidationBase.cs:389-410 | null iff there is no row or the first row has no cell; otherwise "col1".."colN" for the N cells of the first row |
| TableExtraction.GetRelatedListTableColumns | PageObjectValidationBase.cs:412-418 | one column per non-action header cell, named by its text |
| TableExtraction.GetRows | PageObjectValidationBase.cs:370-376 | the table's "tbody/tr" rows in order, none when the path finds nothing |
| TableExtraction.GetRelatedListRows | PageObjectValidationBase.cs:378-384 | the table's data rows in order, none when the path finds nothing |
| TableExtraction.GetRowData | PageObjectValidationBase.cs:311-337 | one value per `td` cell of the row, in order, each read by the load rule |
| TableExtraction.GetRelatedListRowData | PageObjectValidationBase.cs:339-365 | one value per non-action cell of the row, in order, each read by the load rule |
| TableExtraction.CellValue | PageObjectValidationBase.cs:319-330 | element-text loading reads the effective value; inner-HTML loading the inner markup; the remaining load type "" |
| TableExtraction.ReadCells | PageObjectValidationBase.cs:316-331 | one value per cell, in order |
| TableExtraction.TruncateRow | PageObjectValidationBase.cs:253-260 | a prefix of the row, no longer than the column count, cut only when longer |
| TableExtraction.TableOf | PageObjectValidationBase.cs:239-267 | no table iff no column; otherwise every row kept in order, each a prefix no longer than the column count and unchanged when it fits (never padded) |
| TableExtraction.DetailTable | PageObjectValidationBase.cs:232-268 | a detail table is dropped iff its columns cannot be inferred |
| TableExtraction.RelatedListTable | PageObjectValidationBase.cs:270-306 | a related list is dropped iff it has no header cell |
| TableExtraction.LoadRows | PageObjectValidationBase.cs:245-265 | adding rows one by one stores each row truncated to the column count |
| TableExtraction.CreateDataTable | PageObjectValidationBase.cs:232-268 | the row-by-row build yields exactly DetailTable |
| TableExtraction.CreateRelatedListDataTable | PageObjectValidationBase.cs:270-306 | the row-by-row build yields exactly RelatedListTable |
| TableExtraction.CreateTable | PageObjectValidationBase.cs:156-164 | builds by the family's rule |
| TableExtraction.Collect | PageObjectValidationBase.cs:153-164 | never more tables than elements |
| TableExtraction.CollectOneMore | PageObjectValidationBase.cs:156-164 | one more element extends the set by its table, if it yields one |
| TableExtraction.CollectFromPositions | PageObjectValidationBase.cs:153-164 | every kept table was built from some element under the name at that element's own position |
| TableExtraction.CollectKeepsEveryTable | PageObjectValidationBase.cs:153-164 | every element that yields a table has it kept, named after its original position (the index also advances past dropped tables) |
| TableExtraction.RelatedListNames | PageObjectValidationBase.cs:186 | title i's text without spaces (not trimmed), one per title |
| TableExtraction.DetailTablesOf | PageObjectValidationBase.cs:144-168 | nothing and no fault when no detail table is found; the naming fault (`ArgumentNull`, with nothing built) exactly when one table is found and no header; never more tables than found |
| TableExtraction.RelatedListsOf | PageObjectValidationBase.cs:170-196 | a faulting driver gives nothing and its fault; otherwise the index fault exactly when there are more tables than titles; never more tables than tables found or titles |
| PageObjectValidation.LocatorByLabel | PageObjectValidationBase.cs:431-436 | none iff no property has that label; otherwise the locator of the first property carrying it |
| PageObjectValidation.MissingSelectorMessage | PageObjectValidationBase.cs:482 | a code-99 message names the field |
| PageObjectValidation.MismatchMessage | PageObjectValidationBase.cs:491 | a code-1 message names the field, the expected value and the current value |
| PageObjectValidation.CheckRecord | PageObjectValidationBase.cs:478-498 | a missing selector gives the code-99 error; a failed lookup gives its fault; a null current value faults; an equal value passes; a different one gives the code-1 error naming the field, the expected and the current value |
| PageObjectValidation.CheckAll | PageObjectValidationBase.cs:476-502 | at most one error per record |
| PageObjectValidation.CheckAllStops | PageObjectValidationBase.cs:486 | once a fault escapes, the later records are not checked |
| PageObjectValidation.CheckAllCodes | PageObjectValidationBase.cs:480-498 | a pass only ever adds errors of code 99 or 1 |
| PageObjectValidation.CheckAllPassing | PageObjectValidationBase.cs:487-498 | when every record has a selector whose element is found and shows the expected value, nothing is added and nothing faults |
| PageObjectValidation.CheckAllReportsMissingSelectors | PageObjectValidationBase.cs:480-484 | every record without a selector contributes its code-99 error to a pass that completes |
| PageObjectValidation.CheckAllReportsMismatches | PageObjectValidationBase.cs:487-498 | every record whose found element shows another value contributes its code-1 error, naming that value, to a pass that completes |
| PageObjectValidation.SingleMismatch | PageObjectValidationBase.cs:494-497 | a non-select showing another text gives exactly one code-1 error naming both values |
| PageObjectValidation.ErrorLineMentions | PageObjectValidationBase.cs:512 | a report line shows the error's code and its message |
| PageObjectValidation.ErrorLineInjective | PageObjectValidationBase.cs:512 | different errors have different report lines |
| PageObjectValidation.Report | PageObjectValidationBase.cs:509-514 | the report is empty exactly when there is no error |
| PageObjectValidation.Lines | PageObjectValidationBase.cs:511-512 | one report line per error |
| PageObjectValidation.JoinedAppend | PageObjectValidationBase.cs:509-514 | appending more lines extends the built text |
| PageObjectValidation.ReportAppend | PageObjectValidationBase.cs:511-512 | the report of more errors is the earlier report followed by the new lines |
| PageObjectValidation.ReportSingle | PageObjectValidationBase.cs:512 | one error's report is "Error Code: {code}. Details: {message}" and a line break |
| PageObjectValidation.ReportGrows | PageObjectValidationBase.cs:504-515 | since errors are only appended, a later report starts with every earlier one |
| PageObjectValidation.ReportMentions | PageObjectValidationBase.cs:511-512 | every error's line, and so its message, occurs in the report |
| PageObjectValidation.Validator.constructor | PageObjectValidationBase.cs:106-112 | no exemptions, records or errors, and nothing memoised |
| PageObjectValidation.Validator.HasErrors | PageObjectValidationBase.cs:26-29 | true iff some error was recorded, that is, iff the report is not empty |
| PageObjectValidation.Validator.SetExceptionField | PageObjectValidationBase.cs:420-425 | appends the selector to the exemption list |
| PageObjectValidation.Validator.SetExceptionFieldByLabel | PageObjectValidationBase.cs:442-455 | appends the first labelled field's locator, or nothing for an unknown label |
| PageObjectValidation.Validator.ExistsElementByFieldLabel | PageObjectValidationBase.cs:427-440 | true iff some property carries the label |
| PageObjectValidation.Validator.ClearExceptionFields | PageObjectValidationBase.cs:457-461 | empties the exemption list and nothing else |
| PageObjectValidation.Validator.Dispose | PageObjectValidationBase.cs:517-520 | empties the exemption list only; errors and records stay |
| PageObjectValidation.Validator.SetValidationData | PageObjectValidationBase.cs:470-474 | appends one record |
| PageObjectValidation.Validator.ValidateByValidationData | PageObjectValidationBase.cs:476-502 | appends the pass's errors to the earlier ones (never removes any); a completed pass clears the records, a faulted one keeps them and returns the fault |
| PageObjectValidation.Validator.GetErrors | PageObjectValidationBase.cs:504-515 | null iff there are no errors (HasErrors is false); otherwise the report of all errors in insertion order |
| PageObjectValidation.Validator.GetDetailTables | PageObjectValidationBase.cs:144-168 | a memoised set is returned unchanged, whatever the page and load type; a first call memoises and returns the extraction, or memoises the empty set and returns the naming fault |
| PageObjectValidation.Validator.GetRelatedLists | PageObjectValidationBase.cs:170-196 | memoised in the same way; a first call memoises what was built before any fault and returns that fault |
| PageObjectValidation.Validator.AddRelatedLists | PageObjectValidationBase.cs:180-193 | table i takes title i's name; with too few titles, the tables before the first untitled one are memoised and the index fault escapes |
| PageObjectWrapper.Wrapper.constructor | PageObjectWrapper.cs:20-23 | nothing bound, no last selector, no action yet |
| PageObjectWrapper.Wrapper.SelectElement | PageObjectWrapper.cs:25-42 | binds the first match or nothing; faults iff nothing was found and the caller asked for it, leaving the last selector unchanged; otherwise remembers the selector |
| PageObjectWrapper.Wrapper.SelectByText | PageObjectWrapper.cs:44-60 | suppressed (nothing bound or exempted) means no action; otherwise the extension's selection |
| PageObjectWrapper.Wrapper.SelectByIndex | PageObjectWrapper.cs:62-78 | suppressed means no action; otherwise the extension's selection |
| PageObjectWrapper.Wrapper.IsEnabled | PageObjectWrapper.cs:80-97 | true iff the guard passes and the element is enabled |
| PageObjectWrapper.Wrapper.GetSelectedOptionText | PageObjectWrapper.cs:99-116 | "" when suppressed; otherwise the selected option's text of a select, null for anything else |
| PageObjectWrapper.Wrapper.GetSelectOptionsCount | PageObjectWrapper.cs:118-135 | non-null iff the guard passes and the element is a select, and then its option count |
| PageObjectWrapper.Wrapper.GetSelectOptions | PageObjectWrapper.cs:137-154 | null when suppressed; the option texts of a select; a fault for anything else |
| PageObjectWrapper.Wrapper.Click | PageObjectWrapper.cs:156-172 | suppressed means no action; otherwise exactly one click on the bound element |
| PageObjectWrapper.Wrapper.IsSelectable | PageObjectWrapper.cs:174-191 | true iff the guard passes and the element is a select |
| PageObjectWrapper.Wrapper.GetText | PageObjectWrapper.cs:193-210 | "" when suppressed; otherwise the element's text |
| PageObjectWrapper.Wrapper.ClearElement | PageObjectWrapper.cs:212-219 | clears whenever an element is bound, exempted or not |
| PageObjectWrapper.Wrapper.SetText | PageObjectWrapper.cs:221-243 | suppressed means no action; otherwise a clear first only on request, then the keys |
| PageObjectWrapper.Wrapper.ScrollIntoView | PageObjectWrapper.cs:245-261 | suppressed (or no driver) means no action; otherwise one scroll of the bound element |
| PageObjectWrapper.Wrapper.TryGetAttribute | PageObjectWrapper.cs:263-280 | null when suppressed; otherwise the extension's retry result, its fault included |
| PageObjectWrapper.Wrapper.IsDisplayed | PageObjectWrapper.cs:282-299 | true iff the guard passes and the element is displayed |
| PageObjectWrapper.ExemptedFieldUntouched | PageObjectWrapper.cs:44-78 | on an exempted field, a chain of click, set text (with clear), select by text and select by index leaves the trace unchanged |
| PageObjectWrapper.NoValidatorActs | PageObjectWrapper.cs:156-210 | without a validator, a bound element is clicked and its text is read |

## Left out

- Util/Utilities.cs (screenshots, bitmap stitching, file names): I/O only.
- MyWebUIMsTestBase.cs (driver start-up from configuration, the static driver behind locks): process lifecycle and concurrency.
- PageObjectValidationManager.cs (finding validator types by reflection): the validator is a constructor argument of the wrapper. It matches `GetDefaultValidator`, which returns null unless a page overrides it.
- The reflection over `Description` attributes is an explicit list of (label, locator) pairs, in declaration order.
- The generic `Func<T, By>` overloads of `SetExceptionField` and `SetValidationData` take the locator directly.
- `ValidateFields`, `FillRequiredFields` and `UsingExceptionFieldList` are left out. The first two are empty virtual hooks, and the third only returns the validator.
- `WaitUntil`, every `Thread.Sleep` delay, and the timeouts are left out. Time is not modelled: the retry loops count attempts, and the probes make a single immediate lookup.
- PageObjectWrapper.Wrapper.ScrollIntoView: the JavaScript call is recorded as one trace entry, and a driver that cannot run scripts is treated like one that can.
- Selenium internals are left out:
  - `SelectByText` or `SelectByIndex` with no such option does not fault in the model.
  - `Click`, `Clear` and `SendKeys` in the wrapper do not fault in the model.
  - Elements never go stale.
  - A `<select>` with no selected option reads as null, as the code's null test after `SelectedOption` assumes (Extensions/WebElementExtensions.cs:129). Selenium's `SelectedOption` raises `NoSuchElementException` there instead.
  - An action never changes the element snapshots; it is only recorded in the ghost trace.
- DataTable internals are left out:
  - duplicate column names (related-list headers) or duplicate table names in a DataSet raise an exception in .NET, which the model does not;
  - DataRow padding of short rows to the column count with `DBNull` is not modelled. Such a padded cell would never match in `FindByText`.
- DataTableExtensions.FindByText: `IndexOf` is compared ordinally. The culture-sensitive comparison of .NET is not modelled.
- The HtmlInnerText load type reads "" because its HTML parsing is commented out in the code.
- PageObjectValidation.NEW_LINE: `AppendLine` writes `Environment.NewLine`. This is fixed to "\r\n"; other platforms write "\n".
- Exemption entries and label locators are never null, and expected values are never null.
- DataSets are values. A memoised DataSet is returned as an equal value, not as the same shared object that callers could mutate.
- PageObjectValidation.Validator.GetRelatedLists: indexing the titles past their end is modelled as an explicit `ArgumentOutOfRange` error. That is what .NET raises there.
- PageObjectValidation.CheckAll: the ensures states only the bound on the number of errors. What each record contributes is stated by CheckRecord, and what a pass produces by CheckAllStops, CheckAllCodes, CheckAllPassing, CheckAllReportsMissingSelectors and CheckAllReportsMismatches.
- WebElementExtensions.TryClick: the attempt counter is an unbounded integer. In the code it is a C# `int`, so with `tryCount` equal to `int.MaxValue`, every attempt failing and no exception requested, `count++` wraps to `int.MinValue` and the loop never ends; the model stops after `tryCount + 1` attempts.
- WebElementExtensions.TryGetAttribute: the same unbounded counter, with the same difference at `tryCount` equal to `int.MaxValue`.
- The `null` guards on a row or a table in GetRows, GetRelatedListRows, GetRowData, GetRelatedListRowData and GetRelatedListTableColumns are not modelled: the elements handed to them come from `FindElements`, which never yields null.
