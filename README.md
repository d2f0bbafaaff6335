# Filtered form responses

A Dafny model of the filtering and pagination step of the fillout API proxy.
The proxy handles `GET /:formId/filteredResponses`. It fetches one page of
submissions for the form from the upstream forms API. Each submission is an
ordered list of questions `{id, value}`. The proxy keeps the submissions that
satisfy every filter `{id, condition, value}` in the `filters` query parameter,
and answers in one of two ways:

- 404 with the message "No matching submissions found." when nothing survives;
- otherwise the surviving submissions, their count (`totalResponses`) and
  `pageCount = ceil(totalResponses / perPage)`.

A filter looks up the first question of the submission whose id is the
filter's id. When there is no such question, the filter fails. The conditions
are `equals` (JavaScript `===`), `does_not_equal` (`!==`), `greater_than` and
`less_than`. The last two compare both values as parsed `Date`s. Any other
condition string fails.

The model is one module of functions, `ResponseFilter` (`filtered_responses.dfy`),
and one module of lemmas about it, `FilterProperties` (`filter_properties.dfy`).
The source builds this step only from `filter`, `every`, `find`, a `switch` and
`Math.ceil`, and mutates nothing, so the model is pure functions over sequences.

Modelling choices:

- `Value` is a JSON value: string, number (a `real`), boolean, `null`, or
  `Compound(text)` for any array or object. `text` is the string JavaScript
  converts it to: an array's elements joined with commas, or
  "[object Object]" for a plain object. `new Date` reads that string, so the
  date conditions see an array's contents. The question's value and the
  filter's value come from two separate JSON documents. So `===` on two arrays
  or objects is always false, because they are never the same reference.
  `StrictEquals` models exactly that.
- `new Date(v)` becomes an input function `parse: Value -> Option<int>`.
  `None` stands for "Invalid Date", whose numeric value is NaN. Any ordering
  comparison with NaN is false.
- The `filters` parameter arrives already parsed, as `Option<seq<Filter>>`.
  `None` means the parameter is absent or empty, and then the filter list is `[]`.
- `perPage` is a positive whole number.

## Model

| member | source | states |
|---|---|---|
| `ResponseFilter.ParseCondition` | server.js:25-30 | each of the four condition strings selects its own case, matched exactly; every other string selects the failing default |
| `ResponseFilter.StrictEquals` | server.js:26-27 | `===` holds exactly when the two values are equal primitives; two arrays or objects are never strictly equal |
| `ResponseFilter.Compare` | server.js:25-31 | each `case` of the `switch`: `equals` is `===`, `does_not_equal` is its negation, `greater_than` and `less_than` hold exactly when both values parse as dates and the question's date is strictly later or earlier, and any other condition is false |
| `ResponseFilter.FindQuestion` | server.js:22 | `find` returns nothing exactly when no question has the id; otherwise it returns the question at the first position carrying that id |
| `ResponseFilter.Holds` | server.js:22-31 | a filter holds of a submission exactly when some question carries its id and the condition holds of the first such question's value |
| `ResponseFilter.PassesAll` | server.js:21-32 | `every` holds exactly when each filter of the list holds of the submission |
| `ResponseFilter.Matching` | server.js:20-33 | the kept list is no longer than the input, and a submission is in it exactly when it is in the input and passes every filter |
| `ResponseFilter.PageCount` | server.js:42 | `ceil(total / perPage)`: the result is the ceiling (`IsCeiling`: `pages` pages of `perPage` hold `total` items and one page fewer would not), and it is 0 exactly when `total` is 0 |
| `ResponseFilter.NothingKeptIffNonePass` | server.js:20-35 | the filtered list is empty exactly when no submission of the page passes every filter |
| `ResponseFilter.FilteredResponses` | server.js:18-43 | with an absent `filters` parameter read as the empty filter list, the answer is 404 with the fixed message exactly when no submission passes; otherwise it is 200 with the filtered list, `totalResponses` equal to its length (between 1 and the upstream count) and a page count of at least 1 within the ceiling bounds |
| `FilterProperties.MatchingStep` | server.js:20-33 | `filter` keeps the first submission in front of the filtered rest exactly when it passes, and otherwise drops it |
| `FilterProperties.AnswerWhenSomethingKept` | server.js:35-43 | when something is kept, the answer is the kept list, its length and the ceiling page count |
| `FilterProperties.MatchingAtPositions` | server.js:20-33 | the filtered suffix from any position lists the input at the passing positions from there on |
| `FilterProperties.KeptAreExactlyPassingInOrder` | server.js:20-33 | the kept list is the input at strictly increasing positions, and those are exactly the positions whose submission passes every filter, so it is the ordered subsequence of passing submissions |
| `FilterProperties.MatchingDistributes` | server.js:20-33 | filtering a concatenation is the concatenation of the filtered parts: each submission is judged on its own |
| `FilterProperties.NoFiltersKeepsAll` | server.js:18-21 | with the empty filter list every submission is kept, unchanged and in order |
| `FilterProperties.AbsentFiltersAnswerEverything` | server.js:18-43 | without a `filters` parameter a non-empty upstream page is answered in full |
| `FilterProperties.MissingQuestionFails` | server.js:22-23 | a filter whose id no question carries fails, whatever its condition or value |
| `FilterProperties.MissingQuestionRejects` | server.js:21-23 | one such filter anywhere in the list rejects the submission |
| `FilterProperties.FirstQuestionDecides` | server.js:22-31 | a filter's outcome is the condition applied to the first question with its id |
| `FilterProperties.FindIgnoresSuffix` | server.js:22 | once a question with the id has appeared, appending further questions does not change what `find` returns |
| `FilterProperties.LaterDuplicatesIgnored` | server.js:22-23 | later questions repeating an id already present never change a filter on that id |
| `FilterProperties.EqualsComplement` | server.js:22-27 | for a present question `equals` and `does_not_equal` on the same id and value are negations of each other; for an absent one both fail |
| `FilterProperties.OrderingExclusive` | server.js:28-29 | `greater_than` and `less_than` with the same id and value never both hold |
| `FilterProperties.GreaterIsConverseOfLess` | server.js:28-29 | `greater_than(a, b)` holds exactly when `less_than(b, a)` does |
| `FilterProperties.InvalidDateFails` | server.js:28-29 | if either value is not a valid date, both ordering conditions are false |
| `FilterProperties.UnknownConditionFails` | server.js:30 | a condition other than the four named ones fails whatever the values |
| `FilterProperties.UnknownConditionMeansNotFound` | server.js:30-36 | a filter list holding an unknown condition keeps nothing, so the answer is the 404 "not found" |
| `FilterProperties.OnePageUpToPerPage` | server.js:42 | any count from 1 to `perPage` takes exactly one page |
| `FilterProperties.PageCountAtBoundaries` | server.js:42 | 1 and `perPage` results take one page, `perPage + 1` results take two |
| `FilterProperties.SinglePageWhenUpstreamHonoursPerPage` | server.js:13-42 | the upstream is asked for `perPage` submissions; if it sends no more than that, a successful answer always has `pageCount == 1` |
| `FilterProperties.SecondOfThreeMatches` | server.js:18-43 | three submissions where only the second answers q1 = "yes", filtered by `q1 equals "yes"` with ten per page, give exactly the second one, a total of 1 and one page |

## Left out

- HTTP routing, reading `req.params` and `req.query`, `res.status().json()` and `app.listen` (server.js:5-14, 59-61) are plumbing. The outcome carries the status code and the fields of the JSON body instead.
- The upstream GET with the bearer header from the environment (server.js:13-17) is network I/O. The fetched `responses` array is an input.
- `JSON.parse` of `filters` (server.js:18) is a foreign call. The model takes the parsed list. A malformed string throws and ends in the generic 500 answer, which is not modelled.
- Parsed filters that are not an array of `{id, condition, value}` objects are not modelled. The same goes for filter or question fields of other types. In JavaScript these throw, or compare `undefined`.
- The error branches (server.js:44-56) are not modelled. They relay the upstream status and message, or log and answer 500. Both only dispatch on the shape of the HTTP client's errors.
- JavaScript's `Date` string parsing is an input function. Its floating-point millisecond values are whole numbers, so `Option<int>` is exact.
- Submissions carry only their questions. The other fields the upstream sends are passed through untouched by the source, so they play no part here.
- `ResponseFilter.PageCount`: `perPage` is a positive whole number. A query string of zero, a negative number, a fraction or a non-number makes JavaScript's division give `Infinity`, a page count of zero or below, a fraction or `NaN`, and those are not modelled. The division is exact here. In JavaScript it is floating-point division followed by `Math.ceil`, which agrees for any realistic count.
- Numbers are modelled as exact reals. JSON cannot produce NaN, so `===` on numbers is plain equality.
