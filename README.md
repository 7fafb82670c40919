# Movie guess game: the match and scoring state machine

The game shows twenty movie titles and twenty still frames. The player pairs a title with its
frame by clicking one of each, or by dragging a title onto a frame. A correct pair earns points
that grow with the streak of consecutive correct pairs. A wrong pair costs the streak and two
points, but the score never drops below zero. The game is complete when all twenty pairs are
matched. Everything lives in one `gameState` record in `script.js`: `userName`, `score`,
`streak`, `selectedMovie`, `selectedFrame` and the `matchedPairs` list.

This project models that record and the handlers that change it. Page rendering is left out.

- `Catalog` (catalog.dfy): the twenty movies, the catalog ids 1..20, and the counting argument. A
  repeat-free list of catalog ids has the catalog's length exactly when it holds every id.
- `Text` (text.dfy): `String.prototype.trim` as used by `submitName`, with the ECMAScript
  whitespace and line-terminator characters written out.
- `Scoring` (scoring.dfy): the points tier chosen by the increased streak.
- `Session` (session.dfy): the record as a value (`Snapshot`), one function per handler, the
  invariant `Inv`, and the player's gestures (`Action`, `Step`, `Run`).
- `SessionFacts` (session_facts.dfy): the invariant is kept by every gesture and over whole games.
  The lemmas also cover when evaluation happens, completion, and growth of the matched list.
- `Game` (game.dfy): class `GameState`, whose fields are those of `gameState`, and one method per
  handler. The methods update the fields in place like the source does. Each method is proved
  to leave the object in the state the matching `Session` function gives; the selection and
  drag handlers are tied to `Session.Step` on the corresponding gesture.

Selections are `Option<nat>`. `tryMatch` tests them by truthiness, and catalog ids start at 1,
so "unset" and "set to an id" never get confused. `matchedPairs` is a list that the game appends
to, in match order.

Nothing in the code stops a player from selecting an already-matched id. Titles of matched
movies are simply not listed (script.js:155) and are removed when matched (script.js:273-274).
`SelectMovie` and `HandleDragStart` therefore require an unmatched catalog id, which is all the
page can pass. Matched frames keep their click listener for the rest of the game, because
listeners are left off only when the frames are drawn (script.js:136-141). So the frame-side
handlers accept any catalog id. `SessionFacts.MatchedFrameIsWrong` shows the result: clicking
such a frame while a title is pending is always a wrong match. From these preconditions the
invariant derives that the matched list never holds a repeat.

A few behaviours of the code are easy to miss, and the model keeps them:

- Selecting an id that is already matched is not ignored: no handler checks for it.
- The matched ids form a list, not a set.
- Starting a drag sets the title without trying a match (script.js:215-221). So a title and a
  frame can both be pending with nothing evaluated (`SessionFacts.DragLeavesPairPending`). The
  next drop or click then evaluates the pair.
- Both the correct and the incorrect handler clear both selections (script.js:278-279 and
  303-304).

`resetSelection` (script.js:198-210) is defined but no code in script.js calls it. It is
modelled all the same, as `Session.ResetSelection` and `Game.GameState.ResetSelection`.

The two restart buttons (script.js:357-372 and 410-426) reset the record the same way. Both are
modelled by `Game.GameState.Restart` and by the `Restart` action.

## Model

| member | source | states |
|---|---|---|
| Catalog.CatalogShape | script.js:4-25 | the catalog has 20 movies, the i-th with id i + 1, so the catalog ids are exactly 1..20 |
| Catalog.CoversCatalog | script.js:286 | a repeat-free list of catalog ids is at most the catalog's length, and has that length exactly when it contains every catalog id |
| Text.TrimStart | script.js:77 | the result is the suffix of the input after its leading whitespace, and it does not start with whitespace |
| Text.TrimEnd | script.js:77 | the result is the prefix of the input before its trailing whitespace, and it does not end with whitespace |
| Text.Trim | script.js:77 | the trimmed name neither starts nor ends with whitespace |
| Text.TrimIsSlice | script.js:77 | the trimmed name is the slice of the input between its leading and trailing whitespace |
| Text.TrimEmptyIff | script.js:77-78 | trimming gives the empty string exactly when the input is whitespace only, the case the name guard rejects |
| Text.TrimIdempotent | script.js:77 | trimming a trimmed name changes nothing |
| Scoring.Points | script.js:263-265 | a correct match earns an odd number of points between 5 and 9 |
| Scoring.PointsByBlocks | script.js:261-265 | points are 5 plus 2 for each full block of five in the streak, counting at most two blocks: 5 below 5, 7 from 5 to 9, 9 from 10 |
| Scoring.PointsMonotone | script.js:263-265 | a longer streak never earns fewer points |
| Session.Initial | script.js:30-37 | the starting record, also the one both restart handlers install (script.js:360-367, 415-422), satisfies the invariant |
| Session.CheckMatch | script.js:254-258 | the matched list grows by one entry exactly when the ids are equal; otherwise it is unchanged and the streak is 0; either way both selections are cleared and the name kept |
| Session.TryMatch | script.js:248-252 | with a side unset nothing changes; with both set both are cleared and the pending title is appended exactly when it equals the frame; `SessionFacts.TryMatchEffect` adds the announcement and the invariant |
| Session.Step | script.js:174-243 | a drag start only sets the title; a click or drop keeps the name and either keeps the matched list or appends the id of that gesture; a name entry leaves score, streak and matches alone; a restart (script.js:357-372) installs the starting record |
| Session.CorrectMatch | script.js:260-279 | the streak rises by 1, the score rises by exactly the points for the new streak, the id is appended once with earlier entries unchanged, both selections are cleared, the name is kept |
| Session.IncorrectMatch | script.js:292-304 | the streak becomes 0, the score becomes max(0, score - 2), the matched list and the name are unchanged, both selections are cleared |
| Session.CheckFeedback | script.js:254-258 | the outcome is correct exactly when the two ids are equal; a correct one carries the id and the tier's points, a wrong one the frame id |
| Session.ResetSelection | script.js:198-200 | the title selection is cleared unless kept with 'movie', the frame selection unless kept with 'frame', and nothing else changes |
| Session.SubmitName | script.js:75-80 | whitespace-only input leaves the record unchanged; otherwise only the name changes, to the trimmed non-empty input |
| SessionFacts.CorrectMatchKeepsInv | script.js:260-279 | a correct match of the pending unmatched title keeps the invariant: score and streak bounds, no repeats, only catalog ids |
| SessionFacts.IncorrectMatchKeepsInv | script.js:292-304 | a wrong match keeps the invariant, in particular the score stays at least 0 |
| SessionFacts.TryMatchEffect | script.js:248-257 | a match is evaluated exactly when both sides are selected, and then both selections are cleared and the outcome is correct exactly when the ids are equal; otherwise nothing changes and nothing is announced |
| SessionFacts.StepKeepsInv | script.js:174-243 | every click, drag start, drop, name entry and restart the page offers keeps the invariant |
| SessionFacts.RunKeepsInv | script.js:30-37 | the invariant holds after any sequence of offered gestures from a record that satisfies it |
| SessionFacts.ReachableRecord | script.js:30-37 | from the starting record, the score and streak are never negative, and the matched list has no repeats, holds only catalog ids and is at most 20 long |
| SessionFacts.CompletionIffLastPair | script.js:286-289 | the completion branch runs on exactly the evaluation after which every catalog id is matched and before which some was not |
| SessionFacts.NothingAfterCompletion | script.js:150-168 | once all ids are matched, no single gesture except a restart can produce a correct match or change the matched list |
| SessionFacts.NoCorrectMatchAfterCompletion | script.js:286-289 | from a record where every id is matched, any sequence of offered gestures without a restart announces only wrong matches, so the completion modal does not open again |
| SessionFacts.MatchedOnlyGrows | script.js:268 | without a restart, the matched list only grows, and its earlier entries stay in place |
| SessionFacts.MatchedFrameIsWrong | script.js:136-141 | a frame matched earlier still takes clicks, and with a title pending such a click is a wrong match that resets the streak |
| SessionFacts.DragLeavesPairPending | script.js:215-221 | after clicking a frame and starting a drag of its title, both sides are pending and nothing has been evaluated |
| SessionFacts.SampleGame | script.js:174-196 | a correct pair, a wrong pair and another correct pair give score 8, streak 1 and matched list [1, 2] |
| Game.GameState.constructor | script.js:30-37 | the object starts with no name, score 0, streak 0, nothing selected and nothing matched |
| Game.GameState.SubmitName | script.js:75-80 | the object takes the state `Session.SubmitName` gives, so whitespace-only input changes nothing |
| Game.GameState.SelectMovie | script.js:174-184 | sets the pending title, then tries a match, and keeps the invariant |
| Game.GameState.SelectFrame | script.js:186-196 | sets the pending frame, then tries a match, and keeps the invariant |
| Game.GameState.HandleDragStart | script.js:215-221 | the object takes the state of the `DragTitle` step: only the pending title is set, no match is tried and nothing is announced |
| Game.GameState.HandleDropOnFrame | script.js:238-243 | sets the pending frame to the frame dropped on, then tries a match |
| Game.GameState.ResetSelection | script.js:198-210 | the object takes the state `Session.ResetSelection` gives, and the invariant is kept |
| Game.GameState.TryMatch | script.js:248-252 | returns an outcome exactly when both sides were selected, and then both are cleared |
| Game.GameState.CheckMatch | script.js:254-258 | runs the correct-match handler exactly when the ids are equal, the incorrect one otherwise |
| Game.GameState.HandleCorrectMatch | script.js:260-290 | applies `Session.CorrectMatch` in place, returns the points added to the score, and reports completion exactly when the matched list reaches the catalog's length |
| Game.GameState.HandleIncorrectMatch | script.js:292-310 | applies `Session.IncorrectMatch` in place and keeps the invariant |
| Game.GameState.Restart | script.js:357-372 | the object goes back to the starting record |

## Left out

- Page rendering is not modelled. This covers drawing the frames and titles, the CSS classes,
  the modals, the feedback banner text and the streak badge (script.js:57-73, 100-169,
  315-333, 348-356, 406-408). It is view code; the model only returns the outcome that the
  banner and the completion modal show.
- The random order of frames and titles (script.js:104, 154) is not modelled. It only affects
  the display.
- Timers (script.js:301, 319) are not modelled. They only remove CSS classes later.
- `updateProgress` (script.js:335-343) is not modelled. It computes a display percentage with
  floating-point division.
- Saving to and loading from `localStorage` is not modelled: `saveGameState`, `loadGameState`,
  and the removal on restart (script.js:358, 378-386, 413). It uses browser storage and JSON. A
  loaded record is not checked by the source, so the invariant is stated only for records
  reached from the starting one.
- The start-up choice between the name dialog and the game (script.js:42-52) is not modelled.
  It depends on the loaded record.
- Drag event plumbing is not modelled: `dataTransfer`, the drag-over and drag-leave classes,
  and auto-scrolling (script.js:218-236, 391-403). Only the state changes of a drag start and a
  drop are modelled.
- The placeholder hue arithmetic (script.js:123) is not modelled. It is cosmetic.
- The whitespace that trim removes includes the Unicode space separators (category Zs). The
  model fixes today's list of them and does not follow later Unicode versions.
