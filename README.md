# Demographic summary and intake wizard, modelled in Dafny

This project models the two pieces of behaviour in the front end of the skin-analysis
web application that are more than markup.

- **The demographic summary page** (`src/app/summary/page.tsx`), module `Summary` in
  `summary.dfy`. The analysis service returns three maps, race, age and gender, each
  from a label to a probability. The page:
  - turns each map into table rows: labels from a fixed canonical list come first, in list order, and unknown labels follow in map order;
  - shows each probability as a whole percent;
  - preselects the most probable label of every category, first entry winning ties;
  - lets the user override that selection per category;
  - derives the active row, the headline label, the three summary labels and the stroke offset of the radial indicator from the above.

  Before any of this, `fetchDemographics` decides between the cached estimate, an
  error and a request to the service. It is modelled as a method of the class
  `SummaryPage`, whose fields are the page's state: `data`, `loading`, `error`,
  `activeGroup` and `selectedKeys`. The derived values are functions of those fields.
- **The intake wizard** (`src/app/testing/page.tsx`), module `Intake` in `intake.dfy`.
  The user types a name and presses Enter, then types a city and presses Enter. The
  pair is posted to the service while a waiting screen stays up for at least 2500 ms.
  It is modelled as the class `IntakeWizard` with the page's fields `value`, `step`,
  `name`, `phase` and `isSubmitting`, and the invariant `Valid()` relating them.
  `submitToApi` suspends at its first `await`. It is therefore split into
  `SubmitToApi`, the part before the request is sent, and `CompleteSubmission`, the
  part after the request settles. `CompleteSubmission` takes the outcome of the
  request and the elapsed milliseconds as parameters.

`js_string.dfy` (module `JsString`) holds the JavaScript string built-ins the pages rely
on:
- `trim`, with the ECMAScript white-space and line-terminator set;
- `split(" ")` and `join(" ")`, which are proved inverse to each other;
- `toUpperCase`, for ASCII letters.

`wrappers.dfy` holds `Option` and `Result`.

A `Record<string, number>` is a sequence of key/probability pairs in `Object.entries`
order (`Summary.Group`); distinct keys are the predicate `WellFormed`. Probabilities
are reals and `Math.round` is rounding half up. The two local-storage values, the
decoded cached estimate and the service's responses are parameters.

Three behaviours of the code are easy to miss, and the model keeps them:
- A rejected `fetch` in `submitToApi` goes straight to the `catch` block. So the
  2500 ms floor holds only when a response arrives, not when the request fails
  outright. `CompleteSubmission` returns a wait of 0 for `NetworkError`.
- The default selection chain is written with `||` and `? :` on strings. So an empty
  best key is skipped and the first row is shown; that is the row of the key `""`
  only when that row comes first (`EmptyBestKeyFallsBackToFirstRow`).
- Clicking a row whose key is `""` stores `""`, which the chain treats as no
  selection. That click resets the category to the row it shows by default
  (`ClickEmptyKeyShowsDefault`). `ClickSelectsRow` therefore requires a non-empty key.

## Model

| member | source | states |
|---|---|---|
| Summary.Lookup | src/app/summary/page.tsx:179 | `group[key]` is defined exactly for the map's keys and then is the probability stored with that key |
| Summary.ToPercent | src/app/summary/page.tsx:43-46 | an undefined value gives 0; otherwise the result is `Math.round(value*100)` (`Round`): the whole number nearest to `value*100`, halves rounding up (0 gives 0) |
| Summary.ToPercentRange | src/app/summary/page.tsx:43-46 | a probability in [0, 1] gives a percent in [0, 100]; 0.5 gives 50 and 1 gives 100 |
| Summary.ExamplePercents | src/app/summary/page.tsx:43-46 | 0.62, 0.81 and 0.9 give 62, 81 and 90 |
| Summary.FormatLabelIsCapitalizeWordStarts | src/app/summary/page.tsx:48-53 | split on " ", capitalise each word, join with " " equals one left-to-right pass that upper-cases the first character and every character after a space |
| Summary.FormatLabelAt | src/app/summary/page.tsx:48-53 | the label has the key's length; a character at the start or after a space is upper-cased, every other character is unchanged |
| Summary.FormatLabel | src/app/summary/page.tsx:48-53 | `split(" ")`, `Capitalize` on each word (`charAt(0).toUpperCase() + slice(1)`), `join(" ")`: the label's words are the key's words, each capitalised, so the word count is unchanged and empty words stay empty |
| Summary.FormatLabelIdempotent | src/app/summary/page.tsx:48-53 | formatting a formatted label changes nothing |
| Summary.FormatSingleWord | src/app/summary/page.tsx:48-53 | a single word comes back with only its first character upper-cased |
| Summary.ReduceBest | src/app/summary/page.tsx:59-61 | the `reduce` that keeps the current entry only when strictly greater ends on an entry at least as large as every other and strictly larger than every earlier one |
| Summary.GetBestKey | src/app/summary/page.tsx:55-62 | a missing or empty map gives ""; otherwise the key of the earliest entry holding the largest probability |
| Summary.BestIsUnique | src/app/summary/page.tsx:55-62 | there is only one earliest largest entry, so the best key is determined by the map |
| Summary.BestOfTwo | src/app/summary/page.tsx:59-61 | of two entries the second wins only when strictly larger; a tie goes to the first |
| Summary.LabelFor | src/app/summary/page.tsx:176-206 | a row's text has the key's length: the key itself for age, `formatLabel(key)` for race and gender |
| Summary.BuildRows | src/app/summary/page.tsx:169-209 | no map gives no rows; every row's key is a key of the map, its text is the key for age and the formatted key otherwise, and its percent is `toPercent` of the key's probability |
| Summary.FilterKeepsOrder | src/app/summary/page.tsx:171-174 | `filter` over a list of distinct keys keeps them distinct and in their original relative order |
| Summary.DisplayOrderIsRankedPermutation | src/app/summary/page.tsx:171-175 | `DisplayOrder` (`[...ordered, ...others]`): the full order holds every canonical or map key exactly once, and canonical keys come first in canonical order, then unknown keys in map order |
| Summary.RowsAreDisplayOrdered | src/app/summary/page.tsx:169-209 | the rows of a map are a permutation of its keys with one row per entry, ordered canonical-list-first and then by map order, each with `toPercent` of that entry's probability |
| Summary.CanonicalOrderDistinct | src/app/summary/page.tsx:19-41 | the three canonical display orders list each label once |
| Summary.RowsFor | src/app/summary/page.tsx:211-219 | the table of the active category: no rows before data or for a missing map, otherwise rows of that map's keys with their labels and percents |
| Summary.BestKeyFor | src/app/summary/page.tsx:221-223 | "" without data or for a missing or empty map, otherwise the key of the earliest largest entry |
| Summary.FindRow | src/app/summary/page.tsx:238 | `rows.find` by key succeeds exactly when some row has the key, and returns the first such row |
| Summary.ActiveSelectedKey | src/app/summary/page.tsx:225-235 | a non-empty stored selection wins (`StoredSelection`, "" when the category has none); otherwise a non-empty best key; otherwise the first row's key or ""; the result is always the selection, the best key, a row key or "" |
| Summary.ActiveRow | src/app/summary/page.tsx:237-238 | there is an active row exactly when the category has rows; it is one of them; it is the row of the active key whenever that key has a row, and the first row otherwise |
| Summary.SelectedPercent | src/app/summary/page.tsx:240 | 0 without rows, otherwise the percent of the active row |
| Summary.DashOffset | src/app/summary/page.tsx:241-243 | a non-positive percent gives the full circumference; otherwise circumference minus offset is proportional to the percent; 0..100 stays within [0, C] and 100 gives 0 |
| Summary.DashOffsetDecreasing | src/app/summary/page.tsx:241-243 | a larger percent never gives a larger offset |
| Summary.MainLabel | src/app/summary/page.tsx:245-254 | "-" without an active row; else the formatted key for race, the key and " y.o." for age, the formatted key in capitals for gender |
| Summary.UpperAllFormatLabel | src/app/summary/page.tsx:252 | upper-casing a formatted label equals upper-casing the raw key |
| Summary.SummaryLabel | src/app/summary/page.tsx:256-281 | a non-empty selection of a present category is shown (formatted for race and gender); otherwise a non-empty best key is shown the same way; otherwise "Loading..." while loading and "-" after |
| Summary.SummaryCaption | src/app/summary/page.tsx:317-344 | race and age buttons show the summary label; the gender button shows it in capitals: a usable selection, else the best key, as its raw key in capitals, else "LOADING..." while loading and "-" after |
| Summary.BestKeys | src/app/summary/page.tsx:89-93 | the stored selections after a load are the best key of each of the three categories |
| Summary.DefaultSelectionShowsBest | src/app/summary/page.tsx:221-240 | with no other stored selection, a well-formed category with a non-empty best key shows the best key's row, whose percent is that of the earliest largest probability |
| Summary.EmptyBestKeyFallsBackToFirstRow | src/app/summary/page.tsx:225-238 | with no stored selection and best key "", the first row is shown |
| Summary.ClickSelectsRow | src/app/summary/page.tsx:283-288 | after clicking a row with a non-empty key, that row is the active row and its percent is the one shown |
| Summary.ClickEmptyKeyShowsDefault | src/app/summary/page.tsx:225-238 | after clicking a row whose key is "", the category shows the row it shows with no selection stored |
| Summary.ClickKeepsOtherGroups | src/app/summary/page.tsx:283-288 | a click in one category leaves the active row, headline and summary label of every other category unchanged |
| Summary.DefaultOfTwo | src/app/summary/page.tsx:221-240 | a two-entry category whose first entry is strictly larger opens on the first entry's row |
| Summary.ExampleRaceDefault | src/app/summary/page.tsx:169-240 | race {white: 0.62, black: 0.38} opens on the row ("white", "White", 62) |
| Summary.ExampleAgeDefault | src/app/summary/page.tsx:183-240 | age {"20-29": 0.81, "30-39": 0.19} opens on the row ("20-29", "20-29", 81) |
| Summary.ExampleGenderDefault | src/app/summary/page.tsx:197-240 | gender {female: 0.9, male: 0.1} opens on the row ("female", "Female", 90) |
| Summary.DecideFetch | src/app/summary/page.tsx:85-99 | a captured image that is `Truthy` (present and non-empty) is always sent; without one a non-empty cache is used; with neither nothing is requested |
| Summary.ErrorMessage | src/app/summary/page.tsx:129-134 | an `Error` shows its own message, any other thrown value "Something went wrong" |
| Summary.ResponseOutcome | src/app/summary/page.tsx:114-134 | the estimate is delivered exactly when the response is ok and its body decodes, and it is the decoded body; a rejected fetch or an undecodable body shows the thrown value's message; a non-ok response gives "Failed to fetch demographics" |
| Summary.SummaryPage.constructor | src/app/summary/page.tsx:66-72 | no data, loading, no error, race tab, no selections |
| Summary.SummaryPage.FetchDemographics | src/app/summary/page.tsx:74-141 | loading ends in every case; cache: data and best-key selections from the cached estimate, no request; no image and no cache: error "No captured image found."; image: the image is sent, and an ok decodable response sets data and best-key selections and is written to the cache, anything else sets the thrown message (or "Something went wrong") and keeps data and selections |
| Summary.SummaryPage.SetActiveGroup | src/app/summary/page.tsx:310 | switching tabs changes only the active category |
| Summary.SummaryPage.HandleRowClick | src/app/summary/page.tsx:283-288 | the clicked key becomes the selection of its category; every other category's selection and all other state are unchanged |
| JsString.Trim | src/app/testing/page.tsx:101-109 | the result is the input with its leading and trailing white space removed: a slice of the input, white space on both sides of it, no white space at its ends, and empty exactly when the input is all white space |
| JsString.TrimIdempotent | src/app/testing/page.tsx:105 | trimming a trimmed string changes nothing |
| JsString.ToUpperCase | src/app/summary/page.tsx:51 | a-z map to A-Z and every other character is unchanged; the result is never a lower-case ASCII letter |
| JsString.UpperAll | src/app/summary/page.tsx:252 | `toUpperCase()` on a string keeps its length and upper-cases every character |
| JsString.ToUpperCaseFacts | src/app/summary/page.tsx:252 | upper-casing is idempotent and maps only the space to a space |
| JsString.SplitOnSpace | src/app/summary/page.tsx:50 | `split(" ")` gives at least one piece, and no piece contains a space |
| JsString.SplitJoin | src/app/summary/page.tsx:50-52 | joining the pieces of `split(" ")` with " " (`JoinWithSpace`) gives back the string |
| JsString.JoinSplit | src/app/summary/page.tsx:50-52 | splitting the `join(" ")` (`JoinWithSpace`) of space-free words gives back the words |
| Intake.ExtraWait | src/app/testing/page.tsx:77-81 | the extra wait is the least non-negative wait bringing the total to at least 2500 ms |
| Intake.TotalWaitIsMaxOfElapsedAndFloor | src/app/testing/page.tsx:77-81 | the total time waited is max(elapsed, 2500): latency past the floor is kept, not clipped |
| Intake.PhaseAfter | src/app/testing/page.tsx:83-94 | a settled request never leaves the wizard loading, and it succeeds exactly on an ok response with a decodable body |
| Intake.AcceptsEnter | src/app/testing/page.tsx:101-102 | Enter is accepted exactly when nothing is in flight, the input phase shows and the input holds a character that is not white space |
| Intake.IntakeWizard.constructor | src/app/testing/page.tsx:17-21 | empty input, step 1, no name, input phase, nothing in flight, and the invariant holds |
| Intake.IntakeWizard.Type | src/app/testing/page.tsx:200-229 | typing is possible only in the input phase with nothing in flight; it replaces the input and changes nothing else |
| Intake.IntakeWizard.HandleKeyDown | src/app/testing/page.tsx:100-113 | a key that is not Enter, a blank trimmed input, a submission in flight or a non-input phase change nothing; an accepted step-1 Enter stores the trimmed name, clears the input and moves to step 2 with no request; an accepted step-2 Enter clears the input and submits the stored name with the trimmed city; the invariant is kept |
| Intake.IntakeWizard.SubmitToApi | src/app/testing/page.tsx:57-75 | the submission is marked in flight, the waiting screen shows, `{name, location}` is sent, and nothing else changes |
| Intake.IntakeWizard.CompleteSubmission | src/app/testing/page.tsx:77-98 | the submission is no longer in flight; the phase is success exactly on an ok decodable response and input otherwise, with step and input unchanged; a response is held back for the extra wait and a rejected fetch is not |
| Intake.RunWizard | src/app/testing/page.tsx:100-113 | name, Enter, city, Enter, response: the request carries both trimmed inputs, the outcome decides the phase, and a response is shown no earlier than 2500 ms after the request |
| Intake.FailedSubmissionReturnsToCityPrompt | src/app/testing/page.tsx:83-96 | a city Enter whose submission fails sends the request and returns to the city prompt at step 2, with the input still empty, the name kept and nothing in flight |
| Intake.SuccessIsTerminal | src/app/testing/page.tsx:101 | once the success screen shows, no key press changes the phase, input, step or name, and none sends a request |

## Left out

- Network calls, `response.json()`, `JSON.parse`/`JSON.stringify` and `window.localStorage` are not modelled as operations. Their results are parameters: storage values as optional strings, decoded bodies as `Result` values, request outcomes as datatypes.
- Writing the estimate to local storage is reported as the `written` result of `FetchDemographics`; a failing storage write is not modelled.
- A response body without a `data` field is not modelled: the decoded body is either an estimate or a thrown value.
- Summary.ToPercent: works on reals, not IEEE doubles, so rounding error in `value * 100` is not modelled. NaN is left out because a decoded JSON body cannot hold it.
- Summary.DashOffset: the circumference `2 * Math.PI * 49.15` is a positive parameter, and the arithmetic is exact real arithmetic.
- JsString.ToUpperCase: upper-cases ASCII a-z only; the locale-independent Unicode mapping of other letters (including ones that grow in length, such as "ß") is not modelled.
- Summary.DefaultSelectionShowsBest: requires a non-empty best key, because the `||` chain in the source skips an empty one (see `EmptyBestKeyFallsBackToFirstRow`).
- Summary.ClickSelectsRow: requires a non-empty key, because a stored "" is skipped by the fallback chain.
- The table header text ("Race", "Age", "Sex"), all other JSX, CSS and SVG markup, and the tab and row markup are presentation only.
- The body-style and resize-listener effect, the input focus effect and the GSAP rotation animations are DOM side effects.
- Navigation (`router.push`) and the camera, capture, select, result and landing pages contain no logic of this core.
- React's batching and re-rendering are not modelled. Each handler sees the state as its own earlier statements left it. Two Enter presses landing before a re-render, which would both see the old `isSubmitting`, are not modelled.
- The `console` logging in `submitToApi` is output only.
- `Date.now()` and `setTimeout` are replaced by the elapsed milliseconds as a parameter and the extra wait as a result.
