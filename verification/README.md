# Match tracker: verified model of the polling and view-state core

The match tracker is a single React component that polls a match feed every
three seconds and renders a filterable list of matches, each with a
"show details" toggle. Almost all of it is markup. This project models the
small, pure core inside it and proves properties of that core:

- **Match filter** (`Filter`): the filter value selects a stable subsequence of the
  stored matches. `"live"` keeps status `"Ongoing"`. `"finished"` keeps status
  `"Finished"`. Every other value, `"all"` included, keeps everything.
- **Details toggle** (`Details`): one optional slot holding the expanded title.
  Clicking the expanded title collapses it. Clicking any other title expands that one instead.
- **Poll-result reducer** (`Store`): one poll outcome folds into
  `(matches, error, loading)`. The outcome is a fetched list, a non-OK status, or a
  thrown exception with its message. The `finally` block always ends loading, and
  the error slot is never reset to `null`.
- **Sessions** (`Session`): the state after any sequence of polls and clicks.
- **View selection** (`View`): the render guards in priority order. Loading comes
  first, then a truthy error, then the filtered rows.

Modules: `Wrappers` (Option), `Seqs` (stable selections and subsequences),
`Matches` (the match record and status values), then the five above.

Four behaviours of the code that are easy to miss; the model follows the code:

- A successful poll does not clear an earlier error. Once a poll has failed with a
  non-empty message, the error screen stays up through later successful polls, until
  an exception with an empty message arrives (`View.ErrorScreenPersists`).
- The error guard is JavaScript truthiness. An exception whose message is the empty
  string is stored as `""`, which is falsy, so the list comes back. The error slot
  still holds a string, not `null` (`View.EmptyMessageHidesError`).
- The filter is an open string compared against `"live"` and `"finished"`, not a
  closed enumeration. Unknown values show everything.
- Rows are identified by title only. With two matches sharing the expanded title,
  both rows open (`Details.DuplicateTitlesExpandTwice`). So the single-expansion
  property is proved under the assumption that titles are distinct.

## Model

| member | source | states |
|---|---|---|
| Filter.Visible | src/App.js:29-33 | the visible list is never longer than the stored list, and a match is in it iff it is stored and the filter keeps it |
| Filter.FilterMatches | src/App.js:29-33 | a front-to-back walk that appends each kept match computes exactly the visible list |
| Filter.VisibleAppend | src/App.js:29-33 | filtering a concatenation is the concatenation of the filtered parts |
| Filter.VisibleSelectsKeptPositions | src/App.js:29-33 | the visible list is spelled by strictly increasing positions of the stored list, and those positions are exactly the kept ones |
| Filter.VisibleIsSubsequence | src/App.js:29-33 | the visible list is an order-preserving subsequence of the stored list |
| Filter.OtherFiltersShowAll | src/App.js:29-33 | any filter value other than "live" and "finished" (so "all") shows the stored list unchanged |
| Filter.VisibleIdempotent | src/App.js:29-33 | filtering twice with one value is the same as filtering once |
| Filter.LiveAndFinishedAreDisjoint | src/App.js:30-31 | "live" and "finished" share no match, together show at most the whole list, and a match with another status (such as "Scheduled") appears under neither |
| Details.Toggle | src/App.js:24-26 | the slot becomes empty iff it held the clicked title; otherwise it holds the clicked title |
| Details.ToggleTwice | src/App.js:24-26 | two clicks on one title collapse again from the collapsed state, keep that title expanded if it was, and leave the slot empty from another expanded title |
| Details.ToggleOtherReplaces | src/App.js:24-26 | clicking A then a different B leaves B expanded, and only rows titled B open |
| Details.AtMostOneExpanded | src/App.js:85-93 | over rows with distinct titles at most one row opens, and exactly one iff the expanded title belongs to a row |
| Details.DuplicateTitlesExpandTwice | src/App.js:85-93 | two rows sharing the expanded title both open |
| Store.Init | src/App.js:6-10 | at mount there are no matches and no error, loading is on, nothing is expanded, and the filter shows every list whole |
| Store.ApplyOutcome | src/App.js:36-48 | after any poll loading is off; a fetched list replaces the matches and keeps the error; a failure keeps the matches and sets the error to the fixed or thrown message; a present error stays present; filter and expansion are untouched |
| Store.ApplyOutcomeIdempotent | src/App.js:36-48 | applying the same poll result twice equals applying it once |
| Store.ApplyOutcomeForgets | src/App.js:36-48 | two states that agree on what a poll keeps end equal after that poll |
| Session.Step | src/App.js:24-48 | a poll changes only the store slots; a filter click sets only the filter; a details click changes only the expanded slot, by the toggle |
| Session.RunAppend | src/App.js:24-48 | running two event sequences back to back equals running their concatenation |
| Session.RunMatches | src/App.js:43 | after any events the matches are the list of the last successful poll, or the starting list if none succeeded |
| Session.RunLoading | src/App.js:36-48 | loading is on after a sequence of events iff it was on at the start and no poll has completed |
| Session.RunError | src/App.js:44-45 | an error is present iff one was present at the start or some poll failed; nothing resets it |
| Session.RunErrorValue | src/App.js:39-45 | the stored error is the message of the last failed poll (the fixed text for a non-OK status, the thrown message otherwise), or the starting error if no poll failed |
| View.Rows | src/App.js:75-93 | one row per visible match, in order, open iff its title is the expanded title |
| View.Render | src/App.js:59-75 | loading shows iff loading is on; otherwise the error shows iff it is truthy; otherwise the filtered rows show |
| View.ErrorScreenPersists | src/App.js:59-60 | once the error screen is up, no click and no poll brings the list back, successful polls included, unless an exception's message is empty |
| View.FailureShowsMessage | src/App.js:39-45 | after a non-OK status the screen is the fixed message; after an exception with a non-empty message the screen is that message |
| View.EmptyMessageHidesError | src/App.js:44-60 | from any state, an exception with an empty message stores the non-null but falsy error `""` and the screen is the filtered rows, so the list returns over an earlier error |
| View.LoadingUntilFirstPoll | src/App.js:59 | from mount, the loading line shows iff no poll has completed yet |
| View.ErrorScreenAfterPolls | src/App.js:39-60 | from mount, the error shows iff some poll failed and the last failed poll's message is not empty, and what shows is that message |
| View.VisibleKeepsDistinctTitles | src/App.js:29-33 | filtering keeps titles distinct when they were distinct |
| View.SingleOpenRow | src/App.js:85-93 | with distinct stored titles a rendered list has at most one open row |
| View.EmptyFeedShowsEmptyList | src/App.js:43-75 | from mount, a fetched empty list shows an empty list and no error |
| View.OngoingMatchUnderFilters | src/App.js:29-33 | from mount, after a fetched list holding one ongoing match, it shows under "live" (collapsed) and nothing shows under "finished" |

## Left out

- The network request, `response.json()` and the endpoint URL (lines 38-42) are not modelled. They appear only as the three-way `Outcome` a poll ends in.
- A body whose `data` object lacks `matches` is not modelled. The code stores `undefined` as the list, and the next render fails on it. `Outcome` only has a fetched list or an exception.
- `setInterval`, `clearInterval` and the `useEffect` lifecycle (lines 35-57) are not modelled; they are timer plumbing. Overlapping in-flight polls are concurrency. A session is modelled as polls that complete one at a time, in completion order.
- `AnimatedNumber` (lines 13-21) is left out. It is floating-point easing inside a third-party animation library, and it always starts from 0, not from the previously displayed value.
- The JSX markup, labels, date formatting, team places and player lists (lines 62-120) are presentation. Only the row order and each row's open/closed flag are modelled.
- `Match` carries only `title` and `status`. Teams, scores and time feed only the presentation.
- The filter buttons (lines 68-70) appear only as `SelectFilter` events. Those events may carry any string, which covers the buttons' three values.
