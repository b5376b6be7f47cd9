# Lead filter of the Google Sheets CRM server

This project models the record filter of the CRM server in `main.py`.
`GET /crm/leads` reads every row of the sheet. Each optional query parameter
(`domain`, `platform`, `billingtype`, `type`, `cartrecoverymode`) becomes a
constraint on one fixed column (`Domain`, `Platform`, `BillingType`, `Type`,
`CartRecoveryMode`). The endpoint returns the rows that satisfy every
constraint, in sheet order.

A constraint is active when its value is truthy, that is neither `None` nor
`""`. A row satisfies an active constraint when the lower-cased value is a
substring of the lower-cased cell. A column the row lacks reads as `""`.

Modules, one file each:

- `Wrappers` (`wrappers.dfy`): `Option`, the model of an optional query parameter.
- `Text` (`text.dfy`): ASCII lower and upper casing, the substring predicate,
  and `Contains`, a position-by-position scan proved equal to it.
- `Subsequences` (`subsequences.dfy`): order-preserving selection.
- `RowFilter` (`row_filter.dfy`): rows, filters and the functional filter
  `FilterRows`. It also holds the two loops of `get_filtered_data`, proved
  equal to `FilterRows`: the inner loop with its early `break` is
  `RowMatches`, and the outer loop is `GetFilteredData`. The properties of
  the filter are lemmas in this module.
- `Leads` (`leads.dfy`): the filter map that `get_leads` builds, and the
  endpoint's result.

The sheet's rows are a parameter. A row is a `map<string, string>` and a
filter is a `map<string, Option<string>>`. Python iterates a dict in
insertion order. `RowMatches` instead visits the filter's keys in an
arbitrary order, and its contract holds for every order.

## Model

| member | source | states |
|---|---|---|
| `RowFilter.Active` | main.py:44 | a filter value is active exactly when it is neither `None` nor `""`, which is Python's truthiness of `value` |
| `RowFilter.Cell` | main.py:44 | reading a column gives its cell when the row has the column, and `""` otherwise, as `row.get(key, "")` does |
| `RowFilter.Satisfies` | main.py:44 | an inactive value accepts every row, and an active value rejects every row that lacks the column |
| `RowFilter.Matches` | main.py:43-46 | a filter with no active value accepts every row, and a row the filter accepts has every column that carries an active constraint |
| `RowFilter.FilterRows` | main.py:40-50 | every kept row is an input row that satisfies every active constraint; every input row that satisfies them all is kept; the result is never longer than the input |
| `RowFilter.GetFilteredData` | main.py:40-50 | the nested `for` loops, with the early `break`, return exactly the functional filter's result |
| `RowFilter.RowMatches` | main.py:42-46 | the inner loop leaves `match` true exactly when the row satisfies every active constraint, whatever order the entries are visited in and although it stops at the first failure |
| `RowFilter.FilterIsSubsequence` | main.py:40-48 | the result is a subsequence of the input: kept rows stay in their original relative order |
| `RowFilter.FilterCounts` | main.py:40-48 | a matching row occurs in the result exactly as often as in the input, and a failing row not at all, so nothing is duplicated or dropped |
| `RowFilter.FilterConcat` | main.py:41-48 | filtering a concatenation is the concatenation of the filtered parts, because each row is judged on its own |
| `RowFilter.FilterSnoc` | main.py:47-48 | one more input row adds that row to the end of the result exactly when it matches |
| `RowFilter.FilterPrefixStep` | main.py:41-48 | one more iteration of the outer loop extends the result for the prefix by the next row exactly when that row matches |
| `RowFilter.FilterAllMatching` | main.py:41-48 | when every input row matches, the result is the input |
| `RowFilter.FilterIdempotent` | main.py:41-48 | filtering the result again with the same filter returns it unchanged |
| `RowFilter.FilterInactiveIsIdentity` | main.py:44 | a filter whose values are all `None` or `""` returns the input unchanged and in order |
| `RowFilter.MissingColumnExcluded` | main.py:44 | with an active constraint on a column, every kept row has that column, because a missing cell reads as `""` |
| `RowFilter.FilterStronger` | main.py:43-46 | when every input row that passes a stronger filter also passes a weaker one, filtering by the stronger equals filtering by the weaker and then by the stronger |
| `RowFilter.MatchesWithConstraint` | main.py:43-46 | adding a constraint on a column the filter left inactive gives a filter that a row passes exactly when it passes the old filter and the new constraint |
| `RowFilter.AddConstraint` | main.py:43-46 | adding or activating one constraint gives the old result filtered by that constraint alone, which is a subsequence of the old result |
| `RowFilter.SameFilterOnRows` | main.py:41-48 | two filters that accept the same input rows give the same result |
| `RowFilter.FilterCommutes` | main.py:41-48 | applying two filters one after the other gives the same result in either order |
| `RowFilter.FilterCaseInsensitiveInValues` | main.py:44 | filters whose values differ only in letter case give the same result |
| `RowFilter.UpperCasedValue` | main.py:44 | upper-casing the value of any constraint leaves the result unchanged |
| `RowFilter.MatchesCaseInsensitiveInCells` | main.py:44 | rows whose cells differ only in letter case match the same filters |
| `RowFilter.FilterCaseInsensitiveInCells` | main.py:41-48 | filtering two row sequences that differ only in letter case gives results of equal length that agree row by row up to case |
| `Text.IsSubstring` | main.py:44 | a substring is never longer than the string it occurs in, and the empty string occurs in every string, as `"" in s` is true in Python |
| `Text.Contains` | main.py:44 | the scan reports `true` exactly when the value occurs as a contiguous slice of the cell, as the `in` test does |
| `Text.Lower` | main.py:44 | lower-casing keeps the length and maps each character to its ASCII lower-case form |
| `Text.LowerChar` | main.py:44 | lower-casing a character never yields an upper-case letter and leaves non-letters and lower-case letters alone. It maps each upper-case letter to the lower-case letter at the same alphabet position, which upper-cases back to the original |
| `Text.LowerIdempotent` | main.py:44 | lower-casing an already lower-cased string changes nothing |
| `Text.LowerOfUpper` | main.py:44 | a string and its upper-cased form have the same lower-cased form, so both sides of the test ignore case |
| `Leads.LeadFilters` | main.py:67-73 | the filter has exactly the keys `Domain`, `Platform`, `BillingType`, `Type` and `CartRecoveryMode`, each bound to its own query parameter |
| `Leads.LeadFiltersMeaning` | main.py:67-73 | a row passes the filter built by `get_leads` exactly when `domain` constrains `Domain`, `platform` constrains `Platform`, `billingtype` constrains `BillingType`, `type` constrains `Type` and `cartrecoverymode` constrains `CartRecoveryMode` |
| `Leads.GetLeads` | main.py:67-74 | the result is the filter's result for the map `get_leads` builds, in sheet order. A sheet row that passes the five column constraints occurs in it as often as in the sheet, and any other row not at all. With no truthy parameter, every row is returned |
| `Leads.LeadsMembership` | main.py:67-74 | a row is among the returned leads exactly when it is a sheet row that passes the five column constraints |
| `Leads.LeadsWithoutParameters` | main.py:67-74 | a request whose query parameters are all absent or empty returns the whole sheet in order |
| `Leads.DomainExample` | main.py:67-74 | of a "Tech" lead and a "Finance" lead, `domain=tech` keeps only the first |

## Left out

- The Google credentials check and client setup (main.py:12-24) are left out. They are external configuration and I/O.
- Opening the sheet and `get_all_records()` (main.py:37-38) are left out. The rows are a parameter instead.
- `add_lead` (main.py:85-92) is left out. It only forwards three fields to the sheet API's `append_row` and has no logic of its own.
- The FastAPI routes, `read_root`, `JSONResponse`, and the exception wrapping into `RuntimeError` and `HTTPException` (main.py:51-56, 75-77) are left out. They are transport and error plumbing around the filter.
- Text.Lower: models ASCII lower-casing only. Python's `str.lower()` also maps non-ASCII letters, which this model leaves unchanged.
- RowFilter.Cell: cells are strings. The `str()` conversion that Python applies to numeric cells from the sheet is not modelled.
- Python dict insertion order of the filter entries is not modelled. The filter is an unordered map, and `RowMatches` is proved correct for every visiting order.
