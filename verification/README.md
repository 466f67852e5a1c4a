# Random province selector: a verified model of its state transitions

The province selector is a single-page tool with three collections. The
catalog holds named provinces. The randomized list is a shuffled copy of the
catalog, and each of its entries has a "completed" checkbox. The saved lists
are named, timestamped snapshots of randomized lists. Every user action is
handled by one function of the component in `src/App.tsx`. The function reads
the current collections, builds whole replacement arrays with `trim`,
`toLowerCase`, `some`, `filter`, `map` and spread, and hands them to React's
state setters.

This project models those actions as pure Dafny functions from one `State`
(the three collections) to the next, and proves what they promise.

- `text.dfy` (module `Text`) covers JavaScript's `trim`, which strips the
  ECMAScript whitespace and line-terminator code points. It also covers
  `toLowerCase`, restricted to ASCII letters.
- `lists.dfy` (module `Lists`) covers `filter` and `map` on sequences and the
  "is a subsequence of" relation. It also holds the shuffle: a sequence of
  random draws picks the element placed next. Two lemmas prove that the
  shuffle only reorders, and that every order can come out of it.
- `app.dfy` (module `App`) holds the data model and the nine operations: the eight handlers and the inline delete of a saved list.
- `properties.dfy` (module `Properties`) proves properties that span one or
  two calls.
- `session.dfy` (module `Session`) covers any sequence of user intents
  starting from the empty state. It proves an invariant kept by every
  intent: catalog names stay unique up to case.

Values the component takes from the browser are parameters:
- the ids that `Date.now().toString()` yields;
- the timestamp from `new Date().toISOString()`;
- the text typed into the input field;
- the answer to `prompt`, as `Option<string>`, where `None` means cancelled;
- the answer to `confirm`, as `bool`;
- the outcome of `Math.random()` in the shuffle, as a sequence of draws.

Ids are not assumed to be unique. Removing, toggling and deleting act on
every entry that carries the id, exactly as the `filter` and `map` calls do.
The optional `completed` field is a `bool`, and an absent field reads as
`false`. This matches `!province.completed` (src/App.tsx:162) and
`province.completed || false` (src/App.tsx:353).

Three facts about the code shape the model:
- Toggling is a plain `map` over the list (src/App.tsx:160-164), so toggling
  an id that no entry carries changes nothing.
- The shuffle is `sort` with a comparator that returns a random sign
  (src/App.tsx:149). The model states that the result is some permutation of
  the catalog and that every permutation can occur, and nothing about how
  likely each one is.
- Ids come from the clock (src/App.tsx:109 and src/App.tsx:192), so two entries can share
  one. Removing by such an id removes both, as the `filter` does.

## Model

| member | source | states |
|---|---|---|
| Text.SkipForward | src/App.tsx:92 | The forward scan of `trim` stops at the first non-whitespace position at or after its start, or at the end; everything it skipped is whitespace. |
| Text.SkipBackward | src/App.tsx:92 | The backward scan of `trim` stops, not below its lower bound, right after a non-whitespace character or at the bound; everything it skipped is whitespace. |
| Text.IsWhitespace | src/App.tsx:92 | The code points `trim` strips: space, tab, line feed and carriage return are among them, no visible ASCII character is, and lower-casing leaves every one of them unchanged. |
| Text.Trim | src/App.tsx:92 | `trim` returns the infix of its input that starts where the forward scan stops. Only whitespace lies on either side of it, and neither of its ends is whitespace. It is empty exactly when the input is all whitespace. |
| Text.TrimOfTrimmed | src/App.tsx:189 | A string with no whitespace at either end is its own trim. |
| Text.TrimIdempotent | src/App.tsx:193 | Trimming twice is trimming once. |
| Text.LowerChar | src/App.tsx:101 | The result is never an ASCII capital. Only ASCII capitals change, each moved to its small letter. |
| Text.ToLower | src/App.tsx:101 | The ASCII-only lower-casing keeps the length and maps each character in place through `LowerChar`. |
| Text.SameName | src/App.tsx:101 | Two names compare equal after lower-casing exactly when they have the same length and their characters agree position by position once lower-cased. |
| Lists.Filter | src/App.tsx:122 | `filter` keeps exactly the accepted elements: everything kept is accepted and was in the input, and each accepted value occurs in the result exactly as many times as in the input; rejected values do not occur at all. |
| Lists.Map | src/App.tsx:160-164 | `map` keeps the length and puts the image of each element at the same position. |
| Lists.FilterIsSubsequence | src/App.tsx:122-124 | `filter` keeps the relative order of the elements it keeps. |
| Lists.FilterKeepsAll | src/App.tsx:122-124 | Filtering with a test every element passes returns the input unchanged. |
| Lists.SubsequenceMembers | src/App.tsx:122-124 | Every element of a subsequence occurs in the original. |
| Lists.MapOfPermutation | src/App.tsx:149-154 | Mapping two permutations of each other gives two permutations of each other. |
| Lists.Shuffle | src/App.tsx:149 | One outcome of the random-comparator sort, chosen by the draws. Its contract gives the length; its meaning is stated by `Lists.ShuffleIsPermutation` and `Lists.ShuffleReachesEveryPermutation`. |
| Lists.ShuffleIsPermutation | src/App.tsx:149 | Whatever the random draws, the shuffle returns a permutation of its input. |
| Lists.ShuffleReachesEveryPermutation | src/App.tsx:149 | Every permutation of the input comes out of the shuffle for some draws. |
| App.Initial | src/App.tsx:10-14 | The component starts with all three collections empty. |
| App.NameTaken | src/App.tsx:100-102 | `some` is true exactly when some catalog name equals the given name ignoring case. |
| App.AddProvince | src/App.tsx:91-119 | Rejected as empty exactly when the input is all whitespace. Rejected as a duplicate exactly when it is not blank and its trimmed form equals a catalog name ignoring case. A rejection changes no state. On success, exactly one entry is appended after the unchanged catalog, carrying the given id, the trimmed name and no flag; the other collections stay. |
| App.WithoutId | src/App.tsx:122 | Filtering an id out leaves no entry with that id. Every other entry keeps its number of copies and its relative order, and nothing is added. |
| App.WithoutAbsentId | src/App.tsx:122 | Filtering out an id that no entry carries returns the list unchanged. |
| App.RemoveProvince | src/App.tsx:121-125 | Every entry with the id leaves both the catalog and the randomized list. In both, every other entry keeps its number of copies and its relative order, nothing is added, and the saved lists are untouched. |
| App.ClearAllProvinces | src/App.tsx:127-132 | The catalog and the randomized list become empty; the saved lists stay. |
| App.ResetCompleted | src/App.tsx:151-154 | `{ ...province, completed: false }` keeps the id and name and clears the flag. |
| App.Randomize | src/App.tsx:146-156 | An empty catalog changes nothing. Otherwise the randomized list has the catalog's length, every flag is false, and it holds the same multiset of entries as the catalog with flags cleared. The catalog and the saved lists stay. |
| App.Flip | src/App.tsx:162 | `{ ...province, completed: !province.completed }` keeps the id and name and negates the flag. |
| App.ToggleById | src/App.tsx:158-166 | Same length and order. Every id and name stays. A flag flips exactly where the id matches. |
| App.ToggleComplete | src/App.tsx:158-166 | Flips the flag of exactly the randomized entries with the id. The length, the order, every id, name and other flag, the catalog and the saved lists all stay. |
| App.ToggleCompleteSavedList | src/App.tsx:168-183 | Only the lists of saved lists whose id matches change, each by toggling the given province id. Every saved list keeps its id, name and timestamp, and so do the count and order of saved lists. The catalog and the live randomized list are unchanged. |
| App.SaveRandomList | src/App.tsx:185-201 | An empty randomized list, a cancelled prompt or a blank answer changes nothing. Otherwise one saved list is appended after the unchanged ones, with the given id, the trimmed answer, the current randomized list (flags included) and the given timestamp. |
| App.DeleteSavedList | src/App.tsx:412-418 | Every saved list with the id goes. Every other saved list keeps its number of copies and its relative order. The catalog and the randomized list are unchanged. |
| App.ClearAllSavedLists | src/App.tsx:134-144 | When confirmed, the saved lists become empty; when declined, nothing changes. The catalog and the randomized list stay either way. |
| Properties.AddKeepsNamesUnique | src/App.tsx:100-112 | From a catalog with no two names equal ignoring case, adding keeps it so. A name that was added is non-empty and trimmed. |
| Properties.SubsequenceKeepsNamesUnique | src/App.tsx:122 | Leaving catalog entries out, in order, cannot create two names equal ignoring case. |
| Properties.RemoveKeepsNamesUnique | src/App.tsx:121-125 | Removing by id keeps the catalog free of names equal ignoring case. |
| Properties.RemoveAbsentIsNoop | src/App.tsx:121-125 | Removing an id carried by no entry changes nothing. |
| Properties.DuplicateIgnoringCase | src/App.tsx:100-106 | With the catalog ["Alberta"], adding "alberta" is refused as a duplicate and the state stays as it was. |
| Properties.DeleteAbsentIsNoop | src/App.tsx:412-418 | Deleting a saved-list id carried by no saved list changes nothing. |
| Properties.ToggleTwice | src/App.tsx:160-164 | Toggling the same id twice restores every entry. |
| Properties.ToggleCommutes | src/App.tsx:160-164 | Toggles of two ids can be done in either order. |
| Properties.ToggleCompleteTwice | src/App.tsx:158-166 | `toggleComplete` twice on one id restores the state. |
| Properties.ToggleSavedTwice | src/App.tsx:168-183 | `toggleCompleteSavedList` twice on the same ids restores the state. |
| Properties.RandomizeReachesEveryOrder | src/App.tsx:146-155 | Every reordering of a non-empty catalog, with flags cleared, is a possible randomized list. |
| Properties.ToggleAfterRandomize | src/App.tsx:151-165 | Right after a randomize, toggling an id leaves exactly the entries with that id completed. |
| Properties.RandomizedEntryFromCatalog | src/App.tsx:149-154 | Each entry of a fresh randomized list is some catalog entry with its flag cleared. |
| Properties.RemoveThenRandomize | src/App.tsx:121-155 | After removing an id, a randomize never yields an entry with that id. |
| Session.InitialIsValid | src/App.tsx:10-14 | The starting state satisfies the state invariant. |
| Session.AddKeepsValid | src/App.tsx:91-119 | Adding keeps the invariant. |
| Session.RemoveKeepsValid | src/App.tsx:121-125 | Removing keeps the invariant, including that every randomized entry is still a catalog entry. |
| Session.RandomizeKeepsValid | src/App.tsx:146-156 | Randomizing keeps the invariant: each new randomized entry is a catalog entry. |
| Session.ToggleKeepsValid | src/App.tsx:158-166 | Toggling keeps the invariant. |
| Session.ToggleSavedKeepsValid | src/App.tsx:168-183 | Toggling inside saved lists keeps the invariant; no saved list becomes empty. |
| Session.SaveKeepsValid | src/App.tsx:185-201 | Saving keeps the invariant: the new saved list has a trimmed, non-empty name and a non-empty list. |
| Session.DeleteSavedKeepsValid | src/App.tsx:412-418 | Deleting a saved list keeps the invariant. |
| Session.StepKeepsValid | src/App.tsx:91-201 | Every user intent keeps the invariant. The invariant says: catalog names are unique ignoring case, trimmed, non-empty and unflagged. Every randomized entry is a catalog entry with its own flag. Every saved list has a trimmed non-empty name and a non-empty list. |
| Session.RunKeepsValid | src/App.tsx:91-201 | Any sequence of intents keeps the invariant. |
| Session.NamesAlwaysUnique | src/App.tsx:91-119 | Whatever the user does from the empty start, the catalog never holds two names equal ignoring case. |
| Session.LiveIntentsKeepSavedLists | src/App.tsx:121-166 | Adding, removing, clearing the catalog, randomizing and toggling the live list never change the saved lists. |
| Session.SavedListIsIsolated | src/App.tsx:185-198 | A list just saved keeps exactly the entries and flags the randomized list had, however the catalog and the live randomized list change afterwards. |

## Left out

- Loading from and saving to `localStorage`, with `JSON.parse` and `JSON.stringify` (src/App.tsx:21-89), is browser I/O and a parser outside this model. On a parse error the code clears the stored keys. It keeps any collection it had already set before the failing key. So the result is not "all three empty".
- The `isInitialLoad` flag that gates the save effects (src/App.tsx:18, 47, 54, 60) is part of that persistence. The session invariant therefore holds from the empty start only, not for data loaded from storage.
- The `Array.isArray` checks on loaded data are also part of loading.
- The error and success messages and their three-second `setTimeout` dismissal are user feedback, not state; `AddProvince` returns an outcome tag in their place. The same goes for clearing the input field after a successful add, and for `handleInputChange` and `handleKeyPress`.
- The rendering (src/App.tsx:219-503) is presentation only.
- `Math.random()`, `Date.now()`, `new Date().toISOString()`, `prompt` and `confirm` become parameters (see above). The distribution of the shuffle is not modelled: only that its result is some permutation and that every permutation can occur.
- Text.LowerChar, Text.ToLower: model ASCII case only, because JavaScript's full Unicode case mapping (e.g. "Ä" to "ä", or the dotted capital I) has no table here. Names that differ only in non-ASCII case are treated as different. The model's lower-casing also always keeps the length, while JavaScript's can lengthen a string: "\u0130".toLowerCase() has length 2.
- Object identity and aliasing: a saved list shares province objects with the live list it was copied from (`[...randomizedList]` is a shallow copy). The model uses values. This is sound because no operation mutates a province in place; every toggle builds a new object with spread.
