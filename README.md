# Secret Santa: a Dafny model of the organiser component

This project models the logic of the one React component of the Secret
Santa web app, `SecretSantaApp`. The UI markup is not modelled. The model
covers:

- how the organiser edits the participant list;
- how `generateMatches` validates its inputs and draws receivers until
  nobody is their own Secret Santa;
- the records that `generateMatches` writes to `localStorage`;
- how a participant's code and the organiser's group id are read back.

Files and modules:

- `text.dfy` (`Text`): JavaScript's `String.prototype.trim` over the
  ECMAScript white-space and line-terminator code points, and blankness.
- `participants.dfy` (`Participants`): `addParticipant`,
  `removeParticipant` and `updateParticipant` as pure functions on the
  list. Also the `filter(p => p.trim() !== '')` of valid participants, and
  the two checks at the top of `generateMatches`.
- `matcher.dfy` (`Matcher`): the no-fixed-point test and the
  `while (!isValid)` loop. The loop runs over a supplied sequence of
  shuffles, each a rearrangement of the valid participants.
- `store.dfy` (`Store`): the `localStorage` layout. It has one
  `"match:" + code` record per giver and one `"group:" + groupId` summary.
  The module also holds the sequence of writes one creation performs, the
  two lookups, and the round-trip lemmas that connect them.
- `app.dfy` (`App`): the class `SecretSanta`. Its fields are the component
  state (`participants`, `groupName`, `isCreated`, `groupId`, `viewCode`,
  `myMatch`) and `storage`, a map standing for `localStorage`. Its methods
  are the event handlers. `GenerateMatches` is proved to end in exactly one
  of these ways:
  - a validation failure that changes nothing;
  - no acceptable draw with nothing written;
  - the exact new store contents, built from the first accepted draw.

Randomness is passed in as parameters:

- the results of `sort(() => Math.random() - 0.5)` (the `draws`);
- the group id and one code per valid participant;
- the `new Date().toISOString()` timestamp (`created`, an opaque string).

Two facts about the code are worth stating on their own:

- **Names are stored as typed.** `trim()` only decides which entries are
  kept (App.js:36). Givers, receivers and the summary's names are the
  untrimmed entries (App.js:66-67, 73), as `ValidParticipantsCount` shows.
- **Validation counts non-blank entries, not distinct names.** So
  `["A", "A"]` passes validation, yet no draw can ever be accepted for it
  (`DuplicatePairPassesButNeverDraws`).

## Model

| member | source | states |
|---|---|---|
| Text.TrimStart | secret-santa/src/App.js:36 | the leading part of trim: the result is no longer than the input and does not start with a white-space code point |
| Text.TrimEnd | secret-santa/src/App.js:36 | the trailing part of trim: the result is no longer than the input, does not end with white space, and starts where the input does |
| Text.Trim | secret-santa/src/App.js:43 | `trim()` yields a string no longer than its input that neither starts nor ends with white space |
| Text.TrimStartDrops | secret-santa/src/App.js:36 | what the leading trim removes is a blank prefix, and what it keeps is the rest of the input |
| Text.TrimEndDrops | secret-santa/src/App.js:36 | what the trailing trim removes is a blank suffix, and what it keeps is the start of the input |
| Text.TrimSlice | secret-santa/src/App.js:100 | `trim()` returns a contiguous slice of its input, and the text on both sides of that slice is blank |
| Text.TrimEmptyIffBlank | secret-santa/src/App.js:43 | `s.trim()` is empty exactly when every code point of `s` is white space, so `!s.trim()` is a blankness test |
| Text.TrimOfTrimmed | secret-santa/src/App.js:100 | trim leaves a string unchanged when it does not start or end with white space |
| Participants.AddParticipant | secret-santa/src/App.js:15-17 | the list gets one more entry, `""`, at the end, and every earlier entry is unchanged |
| Participants.WithoutIndex | secret-santa/src/App.js:21 | `filter((_, i) => i !== index)` deletes exactly entry `index` when it is in range; otherwise it returns the list unchanged |
| Participants.RemoveParticipant | secret-santa/src/App.js:19-23 | with more than one entry and an in-range index, the entry is removed and the others shift down in order; otherwise the list is unchanged; a non-empty list stays non-empty |
| Participants.UpdateParticipant | secret-santa/src/App.js:25-29 | same length, `value` at `index`, every other entry unchanged |
| Participants.RemoveUndoesAdd | secret-santa/src/App.js:15-23 | removing the entry just added gives back the original list |
| Participants.UpdateUndoesUpdate | secret-santa/src/App.js:25-29 | writing back the previous value restores the list |
| Participants.AddKeepsValidParticipants | secret-santa/src/App.js:15-36 | an added empty entry never changes the list that `generateMatches` draws from |
| Participants.ValidParticipants | secret-santa/src/App.js:36 | the filtered list is no longer than the input and holds no blank entry |
| Participants.Kept | secret-santa/src/App.js:36 | the filter test `p.trim() !== ''` keeps `p` unchanged exactly when `p` is not blank |
| Participants.ValidParticipantsAppend | secret-santa/src/App.js:36 | filtering splits over concatenation, so entries keep their relative order |
| Participants.ValidParticipantsSingle | secret-santa/src/App.js:36 | a single entry survives exactly when it is not blank, and it is kept as typed (not trimmed) |
| Participants.ValidParticipantsCount | secret-santa/src/App.js:36 | each non-blank string occurs in the result as often as in the input; blank strings do not occur |
| Participants.ValidParticipantsOfNonBlank | secret-santa/src/App.js:36 | a list with no blank entry passes through the filter unchanged |
| Participants.Validate | secret-santa/src/App.js:36-46 | fewer than two valid entries is reported first; then a blank group name; otherwise the valid list and the trimmed, non-empty group name go on |
| Matcher.DrawReceivers | secret-santa/src/App.js:51-58 | the loop stops at the first draw with no fixed point; that draw is a rearrangement of the givers with no giver opposite an equal name; if it does not stop, every supplied draw had a fixed point |
| Matcher.AcceptedAtUnique | secret-santa/src/App.js:55-58 | at most one draw counts as the first accepted one |
| Matcher.SomeDrawAccepted | secret-santa/src/App.js:55-58 | if any supplied draw has no fixed point, the loop accepts one at or before it |
| Matcher.NoFixedPoint | secret-santa/src/App.js:57 | the `every` test: no giver sits opposite an equal name, and a position past the end of the receivers never matches |
| Matcher.RotationIsDerangement | secret-santa/src/App.js:55-58 | with at least two pairwise different names an acceptable draw exists; the witness is the proof helper `Rotate`, which moves the first name to the end |
| Matcher.NoDerangementWithMajority | secret-santa/src/App.js:57 | when one name fills more than half of the givers, every rearrangement puts it opposite itself, so no draw is ever accepted |
| Store.MatchKeyInjective | secret-santa/src/App.js:72 | different codes address different match keys |
| Store.GroupKeyIsNotMatchKey | secret-santa/src/App.js:72-76 | the summary key never equals a match key, whatever the group id and the code |
| Store.Batch.Entries | secret-santa/src/App.js:73 | the summary's list has one `(giver, code)` per giver, in giver order, and no receiver |
| Store.Batch.RecordAt | secret-santa/src/App.js:65-70 | giver i's record: giver, receiver, the trimmed group name and the group id |
| Store.Batch.Summary | secret-santa/src/App.js:76-80 | the summary: the trimmed name, the (giver, code) list from Entries, and the opaque timestamp |
| Store.MatchKey | secret-santa/src/App.js:72 | the key template `match:${code}` |
| Store.GroupKey | secret-santa/src/App.js:76 | the key template `group:${newGroupId}` |
| Store.Writes | secret-santa/src/App.js:63-74 | the for loop's `setItem` calls in order: after n iterations, each of the first n codes has been set to its giver's record, a later write replacing an earlier one |
| Store.AfterCreate | secret-santa/src/App.js:60-80 | the whole batch: all the match writes, then the summary under the group key |
| Store.WritesKeys | secret-santa/src/App.js:63-74 | the loop's writes add exactly the match keys of the codes used |
| Store.WritesElsewhere | secret-santa/src/App.js:63-74 | a key that no write addresses keeps its presence and its value |
| Store.WritesAt | secret-santa/src/App.js:63-74 | the key of code `i` holds giver `i`'s record `{giver, receiver, groupName, groupId}`, unless a later giver got the same code |
| Store.AfterCreateContents | secret-santa/src/App.js:60-80 | with distinct codes, each code's key holds its giver's record, the group key holds the summary, the key set grows by exactly those keys, and nothing else changes |
| Store.CollidingCodeKeepsLaterRecord | secret-santa/src/App.js:63-74 | with a repeated code, the later giver's record replaces the earlier one's |
| Store.LookupCode | secret-santa/src/App.js:92-112 | a blank code is refused before any lookup; otherwise the record under `"match:" + code.trim()` is found exactly when that key is present |
| Store.LookupGroup | secret-santa/src/App.js:134-144 | an empty group id gives null without a lookup; otherwise the summary under `"group:" + groupId`, or null when that key is absent |
| Store.IsRandomId | secret-santa/src/App.js:31-33 | the shape of `Math.random().toString(36).substring(2, 10)`: at most eight characters, each a base-36 digit |
| Store.RandomIdIsTrimmed | secret-santa/src/App.js:31-33 | a non-empty id of base-36 digits is not blank and is its own trim, so a code typed exactly finds its key |
| Store.CreateThenLookupCode | secret-santa/src/App.js:60-102 | after creation with distinct codes, looking up giver `i`'s code reveals giver `i`'s record, and the summary pairs that code with that giver |
| Store.CreateThenLookupGroup | secret-santa/src/App.js:76-139 | after creation, loading the new non-empty group id returns the summary with one entry per giver |
| Store.UnissuedCodeNotFound | secret-santa/src/App.js:100-104 | a code not issued by this creation, and absent before it, is still reported invalid |
| App.SecretSanta.constructor | secret-santa/src/App.js:5-11 | the initial state, over whatever the store already holds: the list is `[""]` and the other fields are empty |
| App.SecretSanta.AddParticipant | secret-santa/src/App.js:15-17 | the list field becomes `AddParticipant` of its old value, and nothing else changes |
| App.SecretSanta.RemoveParticipant | secret-santa/src/App.js:19-23 | the list field becomes `RemoveParticipant` of its old value; it stays non-empty |
| App.SecretSanta.UpdateParticipant | secret-santa/src/App.js:25-29 | the list field becomes `UpdateParticipant` of its old value |
| App.SecretSanta.SetGroupName | secret-santa/src/App.js:306 | the group-name input sets only `groupName` |
| App.SecretSanta.SetViewCode | secret-santa/src/App.js:365 | the code input sets only `viewCode` |
| App.SecretSanta.GenerateMatches | secret-santa/src/App.js:35-90 | the two validation failures, exactly as characterised, change neither the store nor `groupId` nor `isCreated`; otherwise the first accepted draw is a derangement of the valid participants, the store becomes exactly the old store plus the records and summary, and `groupId` and `isCreated` are set |
| App.SecretSanta.StoreBatch | secret-santa/src/App.js:60-80 | the for loop and the summary write leave the store as `AfterCreate` of the old store |
| App.SecretSanta.ViewMyMatch | secret-santa/src/App.js:92-112 | the outcome is the lookup of the current code; `myMatch` becomes the found record, and is left as it was when the code is blank or unknown |
| App.SecretSanta.DismissMatch | secret-santa/src/App.js:166 | the Back button clears `myMatch` |
| App.SecretSanta.LoadGroup | secret-santa/src/App.js:134-144 | null for an empty `groupId` or an absent key, otherwise the stored summary |
| App.SecretSanta.Reset | secret-santa/src/App.js:124-132 | every edited field goes back to its initial value; the store is untouched |
| App.DuplicatePairPassesButNeverDraws | secret-santa/src/App.js:36-58 | two copies of one non-blank name pass validation, yet no rearrangement of them is ever accepted |

## Left out

- The JSX, icons and CSS, the `viewMode` tabs, the `loading` flag and `copiedIndex` are UI state and markup, so they are not modelled.
- `copyToClipboard` is not modelled: it is an asynchronous browser clipboard call with a `setTimeout`.
- `alert` and `console.error` become outcome values (`TooFewParticipants`, `BlankGroupName`, `MissingCode`, `InvalidCode`) instead of dialogs.
- `generateRandomId` calls `Math.random` and float-to-base-36 formatting, so ids and codes are parameters. `IsRandomId` states only the shape of its output. When `Math.random()` returns 0 the id is the empty string; a code of `""` can then never be looked up, because a blank code is refused (`LookupCode`). A group id of `""` still sets `isCreated`, but `loadGroup` then returns null without a lookup (App.js:135, `LookupGroup`), which is why `CreateThenLookupGroup` requires a non-empty id; the organiser's screen then stays on its loading message (App.js:177-187).
- The shuffle is random and its comparator is biased. Draws are parameters, and the model assumes only that each is a rearrangement of the valid participants.
- GenerateMatches: does not model the loop's probabilistic termination. If none of the supplied draws is acceptable, the outcome is `NoDrawAccepted` with nothing written; the real loop would keep drawing.
- JSON `stringify`/`parse` is left out: the store holds Dafny values directly, so a round trip through JSON is the identity here. Values that other code put in `localStorage` under the same keys are not modelled.
- The `try/catch` around storage is left out: a failing `localStorage.setItem` (quota, private mode) and the partial writes it would leave are host failures, not logic.
- Text.Trim: strings are sequences of Unicode scalar values, not UTF-16 code units, so lone surrogates are not modelled.
- UpdateParticipant: requires an index inside the list. In JavaScript a larger index would grow the array with holes; the UI only passes indices of rendered entries.
- React batches `setState` calls and re-renders between events. The model applies each update immediately, which matches the order in which one handler reads and writes the fields it touches.
- Distinct codes are not a precondition of GenerateMatches. Its store contract is the write sequence as the loop performs it. The lemmas that need distinctness require it, and CollidingCodeKeepsLaterRecord describes what a repeated code does.
