# Expiry tracker core, modelled in Dafny

The tracker is a browser page for perishable stock. Users add products with
a name, category, quantity and expiry date. The page lists them sorted by
expiry, marks each one as expired, soon to expire or fine, and narrows the
list with a search box and a status filter. An alert line summarises the
whole collection. Products can be deleted, edited (which deletes them and
refills the form), imported from a JSON file and exported to one.

This project models the logic inside `app.js` as pure functions over
immutable values:

- `Optional` (`optional.dfy`): `Option`, standing for JavaScript's
  `null`/`undefined`.
- `JsText` (`js_text.dfy`): `trim`, `trimStart`, `toLowerCase` and `includes`.
- `JsNumber` (`js_number.dfy`): `parseInt` without a radix, the form's
  `parseInt(v) || 1`, and the decimal spelling of an integer.
- `Expiry` (`expiry.dfy`): `daysUntil`, the expired/soon/ok classification
  with `ALERT_DAYS = 3`, the badge class and the status-filter test.
- `Escape` (`escape.dfy`): `escapeHtml`, with a decoder as its inverse.
- `Sorting` (`sorting.dfy`): the stable sort by expiry and
  order-preserving `filter`.
- `Inventory` (`inventory.dfy`): the product record and every change to the
  collection: submit, delete, edit, import and export.
- `View` (`view.dfy`): `render` as a function from (collection, now, dates,
  query, filter) to the list rows and the alert summary.

The clock and the date parser are parameters:

- `now` is an integer millisecond timestamp.
- `Dates.parse` stands for `new Date(expiry)`, which the sort uses.
- `Dates.endOfDay` stands for `new Date(expiry + 'T23:59:59')`, which
  `daysUntil` uses.
- Fresh identifiers (`Date.now()`, `Math.random()`) and today's date text
  are also passed in.

How the code behaves at the edges:

- During its expiry day a product shows 1 day left
  (`Expiry.ExpiryDayCountsOne`). For most of the next day it shows 0 and
  counts as soon, not expired (`Expiry.DayAfterExpiryCountsZero`).
- The alert line shows one message. When any product is soon to expire it
  reports the soon count; only otherwise does it report the expired count
  (`View.Summarize`).
- An import is refused as a whole when the payload is not an array, and
  also when one of its entries is `null`, because reading that entry's
  fields throws inside the `try` (`Inventory.Import`).

## Model

| member | source | states |
|---|---|---|
| `JsText.TrimStart` | app.js:153 | the result is a suffix of the input, everything dropped is white space, and it does not start with white space |
| `JsText.Trim` | app.js:151-152 | the result is a contiguous piece of the input; everything cut from either end is white space; the piece neither starts nor ends with white space |
| `JsText.TrimEmptyIffAllSpace` | app.js:156 | a trimmed field is empty exactly when the raw field is all white space |
| `JsText.TrimOfTrimmed` | app.js:151-152 | a value with no white space at either end is unchanged by trimming |
| `JsText.Lower` | app.js:55 | lowercasing keeps the length and maps each character on its own |
| `JsText.Includes` | app.js:68 | `includes` is true exactly when the needle occurs at some position of the text |
| `JsNumber.DigitRun` | app.js:153 | parseInt reads the longest prefix made of digits of the radix and stops at the first non-digit |
| `JsNumber.ParseInt` | app.js:153 | parseInt gives NaN exactly when no digit follows the white space, the sign and the hex prefix; the sign decides the sign of the result |
| `JsNumber.ParseIntIgnoresTrailing` | app.js:153 | parseInt reads an integer's decimal spelling back even when text follows ('12kg' reads as 12), provided that text does not start with a decimal digit and, after a zero, not with x or X ('0' followed by 'x1' reads as hexadecimal) |
| `JsNumber.ParseIntSkipsLeadingSpace` | app.js:153 | white space before the number does not change what parseInt reads |
| `JsNumber.ParseIntPlusSign` | app.js:153 | an explicit plus sign in front of text that starts with neither white space nor a sign does not change what parseInt reads (`parseInt('+ 5')` is NaN while `parseInt(' 5')` is 5, so the condition is needed) |
| `JsNumber.ParseIntLeadingZeros` | app.js:153 | leading zeros before a decimal spelling do not change its value ('007' reads as 7) |
| `JsNumber.ParseIntHex` | app.js:153 | after a `0x` or `0X` prefix parseInt reads hexadecimal digits up to the first non-hex character and gives their value |
| `JsNumber.QuantityOrOne` | app.js:153 | the submitted quantity is never 0: it is the parsed value, or 1 when parsing gives NaN or zero |
| `JsNumber.IntToDecimal` | app.js:193 | the form's quantity text is non-empty and starts with a minus sign exactly for negative quantities |
| `JsNumber.ParseIntOfDecimal` | app.js:193 | reading back the quantity written into the form gives the same integer |
| `Expiry.DaysUntil` | app.js:25-30 | the day count k is the integer ceiling of the milliseconds left divided by one day: (k-1)*86400000 < diff <= k*86400000 |
| `Expiry.DaysUntilUnique` | app.js:25-30 | those bounds determine the day count uniquely |
| `Expiry.DaysUntilAntitone` | app.js:25-30 | as now advances, the day count never increases |
| `Expiry.ExpiryDayCountsOne` | app.js:27-29 | during the 86399000 ms before 23:59:59 of the expiry day (the whole day unless it is a 25-hour daylight-saving day) the day count is 1, not 0 |
| `Expiry.DayAfterExpiryCountsZero` | app.js:27-29 | from 23:59:59 of the expiry day until one day later, the count is 0 and the product is "soon", not expired |
| `Expiry.Classify` | app.js:71-72 | the state is expired exactly when isExpired holds, soon exactly when isSoon holds, and ok exactly when neither holds |
| `Expiry.StatusNeverReverts` | app.js:70-72 | as time passes a product moves only forward: from ok to soon to expired |
| `Expiry.BadgeClass` | app.js:93-96 | the badge class is the name of the product's state |
| `Expiry.FilterSelectsState` | app.js:77-79 | the filters 'expired', 'soon' and 'ok' each keep exactly their own state; any other filter value keeps every item |
| `Escape.EscapeString` | app.js:132-134 | the output has no `<`, `>`, `"` or `'`; it is never shorter than the input; it has the same length exactly when the input has none of the five special characters |
| `Escape.EscapeHtml` | app.js:130-135 | null or undefined gives ''; otherwise the output is exactly the character-by-character replacement `EscapeString` of the input (`&` becomes `&amp;`, and so on), decoding it gives the input back, it holds no `<`, `>`, `"` or `'`, and it is at least as long as the input |
| `Escape.EscapeConcat` | app.js:132-134 | escaping a concatenation gives the concatenation of the escaped parts |
| `Escape.EscapePlain` | app.js:132-134 | text without special characters is copied unchanged |
| `Escape.UnescapeEscape` | app.js:132-134 | decoding the five references recovers the original text, so no information is lost |
| `Sorting.Filter` | app.js:114-118 | every element kept by `filter` satisfies the predicate, and the result is no longer than the input |
| `Sorting.FilterMultiplicity` | app.js:114-118 | each element satisfying the predicate survives as often as it occurs; nothing else survives |
| `Sorting.FilterConcat` | app.js:180 | filtering a concatenation filters each part, so the survivors keep their order |
| `Sorting.SortBy` | app.js:60-62 | the sorted copy is ordered by expiry key and is a permutation of the collection |
| `Sorting.SortStable` | app.js:60-62 | products with equal keys keep their collection order |
| `Sorting.SortSortedIdentity` | app.js:60-62 | sorting an already sorted sequence returns it unchanged |
| `Sorting.SortIdempotent` | app.js:60-62 | sorting twice gives the same result as sorting once |
| `Inventory.Submit` | app.js:149-163 | a blank name or an empty expiry is refused and the list is unchanged; otherwise exactly one record is appended at the end, holding the fresh id, the trimmed non-empty name, the trimmed category, a non-zero quantity and the expiry |
| `Inventory.Delete` | app.js:178-180 | no record with the id remains; every other record keeps its multiplicity; without a match the list is unchanged |
| `Inventory.DeleteConcat` | app.js:180 | deletion distributes over concatenation, so the survivors keep their original order |
| `Inventory.DeleteIdempotent` | app.js:180 | deleting the same id twice equals deleting it once |
| `Inventory.FindById` | app.js:187 | `find` returns the first record with the id, or nothing exactly when no record has that id |
| `Inventory.BeginEdit` | app.js:186-196 | with no match nothing happens; otherwise the form gets the first match's fields and every record with that id is removed, shortening the list |
| `Inventory.EditThenSave` | app.js:186-196 | for a record the form could have produced (trimmed non-empty name, trimmed category, non-zero quantity, non-empty expiry), editing it and saving the form unchanged puts the same record back at the end under the new id |
| `Inventory.Normalize` | app.js:236-242 | an imported record keeps its truthy fields; the defaults are a fresh id, 'Sin nombre', '', 1 and today; the name is never empty and the quantity never 0 |
| `Inventory.NormalizeAll` | app.js:236-242 | normalization maps entry i to its normalized record, in order |
| `Inventory.Import` | app.js:232-243 | a payload that is not an array, or that has a null entry, is refused and the list is unchanged; otherwise the normalized entries follow the untouched existing products |
| `Inventory.Export` | app.js:218 | the export holds every record, in order, with all five fields present |
| `Inventory.ExportImportRoundTrip` | app.js:217-243 | importing an export of records whose fields are all truthy appends exactly those records |
| `Inventory.NormalizeIdempotent` | app.js:236-242 | a normalized record that is exported and imported again comes back unchanged |
| `View.Rows` | app.js:67-79 | every row carries its product's day count and the state that count means |
| `View.RowsAreFilter` | app.js:67-79 | the loop emits exactly the products that pass the search and the status filter, in the order it visits them |
| `View.Render` | app.js:54-79 | the list is the sorted collection narrowed by search and filter; it is ordered by expiry; every row is accurate |
| `View.RenderShowsExactly` | app.js:54-79 | the list holds each matching product as often as it is in the collection, and nothing else |
| `View.RenderStable` | app.js:60-68 | listed products with equal expiry keep their collection order |
| `View.ShownMeaning` | app.js:55-79 | a product is listed exactly when the trimmed, lowercased query is empty or occurs in its lowercased name or category, and its state is the one the filter names, if the filter names one |
| `View.BlankSearchShowsAll` | app.js:55-68 | a blank query with an unrestricted filter lists the whole collection in sorted order |
| `View.Summarize` | app.js:114-126 | the alert reports soon products if there are any; otherwise expired products if there are any; otherwise it is empty. Any reported count is positive and at most the collection size |
| `View.SummaryCounts` | app.js:114-123 | the reported count is the number of soon (or expired) records in the whole collection |
| `View.AlertIgnoresSearchAndFilter` | app.js:113-126 | the alert depends on neither the query nor the filter |
| `View.EmptyCollection` | app.js:54-126 | an empty collection gives an empty list and no alert |

## Left out

- DOM construction, `innerHTML` templates, badge and alert texts, event listeners, `confirm`, `alert` and `flash`: these are presentation only. Each operation is modelled as it runs after the user confirms; a declined confirmation changes nothing.
- localStorage load, save and clear, and JSON text parsing and serialisation: these are I/O. Loaded records are taken to hold all five fields as strings and integers, so the `p.category || ''` fallback in the search never applies here. Clearing simply empties the collection.
- File reading, the Blob/URL download and the pretty-printing of the export: I/O. `Inventory.Export` models only the array that is written.
- The wall clock and id generation (`new Date()`, `Date.now()`, `Math.random()`): these are parameters. Uniqueness of identifiers is not modelled, and two quick submissions could in fact share a `Date.now()` id.
- Date parsing and time zones: a malformed date gives `NaN` timestamps in the program, which makes the sort comparator return `NaN` and shows the product as "ok". Here every timestamp is an integer. Local time zones are not modelled: on a 25-hour daylight-saving expiry day the first hour gives a count of 2, which `Expiry.ExpiryDayCountsOne` does not cover.
- A single `now` for each render: the program reads the clock afresh in every `daysUntil` call (app.js:26, 70, 115, 118), while `View.Render` evaluates every count at one `now`. A render that straddles a day boundary could in the program show a list and an alert that disagree; the model does not capture that.
- The 30-second `setInterval` re-render, the demo seeding with `addDaysISO`, and the unused `soonCount`/`expiredCount` counters: the first two are timer- and clock-driven, and the counters are never displayed.
- Expiry.DaysUntil: computes the exact integer ceiling. The program divides as a double, and that quotient can round across an integer only for day counts beyond about 6 × 10^7, far outside any real calendar date.
- JsText.Lower: maps only the ASCII letters A-Z. `toLowerCase` also maps the rest of Unicode.
- JsNumber.ParseInt: reads decimal digits exactly. JavaScript Numbers lose precision above 2^53, and `parseInt` may approximate very long decimal inputs. Its contract fixes NaN and the sign; the value itself is stated by lemmas only for the decimal spelling of an integer, leading white space, a plus sign, leading zeros and the hex prefix, and for other spellings it is given by the definition alone.
- Inventory.EditThenSave: covers only records the form could have produced. An imported record whose name or category carries white space at either end comes back trimmed (app.js:151). One with an all-blank name is refused on save after edit has already removed it (app.js:156, 196), so that record is lost. `Inventory.Submit` and `Inventory.BeginEdit` model both paths, but no lemma states the lost-record case.
- JsNumber.IntToDecimal: always writes plain decimal digits. JavaScript switches to exponent notation at 10^21.
- Inventory.Normalize: imported fields are typed text or integers. JSON booleans, objects and fractional numbers in these fields are not modelled. In the program, an imported numeric `id` never equals the string id that delete and edit compare against, so such a record could not be deleted; typed ids cannot express this. The same mechanism hits string ids: the row's button carries `p.id` in `data-id="${p.id}"` without escaping (app.js:103-104), so an imported id that contains `"` or a character reference such as `&amp;` comes back from `btn.dataset.id` changed, and delete (app.js:180) and edit (app.js:187) then find no match. The model passes the record's own id to `Inventory.Delete` and `Inventory.BeginEdit`, so it does not show this.
