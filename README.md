# task-lottery-web, modelled in Dafny

This project models the core of a small raffle web app. Users keep a list of *tasks*
(something to draw winners for, such as "who buys lunch"). Each task has a title, an icon,
a colour, a category, a winners count and a member list. Users tick the members who take
part and draw winners at random. A draw result can be shared as a link that carries the
whole result in its query string. Tasks and one global member roster live in a document
store, which every client watches.

The model covers five parts of the app:

* **Winner draw** (`ResultPage.Draw`, `ResultPage.ResultView`). The comma-separated member
  list from the route is split and shuffled, and a prefix of length
  `Math.min(winnersCount, n)` is kept. The shuffle is a parameter: any rearrangement of the
  split list, given as multiset equality.
* **Share-link codec**. `ShareModal` builds the link's query (`t`, `w`, `c`, `i`, `cnt`)
  with `URLSearchParams` semantics and `application/x-www-form-urlencoded` serialisation.
  `ResultPage.DecodeShare` reads a parsed query back, with the page's fallbacks for empty
  fields.
* **Member selection** (`MembersPage`). A list of (name, checked) rows. The page can toggle
  one row or all rows, send add and delete requests as whole name lists, and start a draw.
* **Task and roster store** (`App`). An abstract store plus the app's observed state, and
  the four handlers that write to the store, each of which may fail. The listeners copy the
  store into the app's state and create the roster document when it is missing.
* **Task creation form** (`AddTaskPage`). The title falls back to a default, and a category
  added during the session never duplicates an existing one.

The JavaScript behaviour these parts rely on is written out in `JsString`, `JsNumber` and
`Url`: `trim`, `split`, `join`, string truthiness, `parseInt(s, 10)`, `Number#toString`,
`URLSearchParams` `get`/`set`/`toString`, and `decodeURIComponent`.

`Scenario` puts the pieces together. It creates a task while the roster is A, B, C, syncs
the member page, unchecks C, starts a draw and loads the result page. It proves that the
draw then has exactly one winner, A or B.

## Model

| member | source | states |
|---|---|---|
| JsString.TrimStart | src/pages/MembersPage.tsx:42-43 | the result is a suffix of the input, drops only leading whitespace and does not start with whitespace |
| JsString.TrimEnd | src/pages/MembersPage.tsx:42-43 | the result is a prefix of the input, drops only trailing whitespace and does not end with whitespace |
| JsString.Trim | src/pages/MembersPage.tsx:42-43 | the result is an infix of the input with only whitespace cut from both ends, and starts and ends with non-whitespace |
| JsString.TrimEmptyIffBlank | src/pages/MembersPage.tsx:42 | `s.trim()` is empty exactly when `s` is all whitespace, so the truthiness test rejects exactly the blank inputs |
| JsString.TrimIdempotent | pages/AddTaskPage.tsx:39-40 | trimming a trimmed name changes nothing |
| JsString.Split | pages/ResultPage.tsx:42 | `split` with a one-character separator yields at least one part, and no part contains the separator |
| JsString.JoinSplit | pages/ResultPage.tsx:50 | joining the parts of a split with the separator restores the string |
| JsString.SplitPrefix | pages/ResultPage.tsx:42 | splitting `a + t`, where `a` has no separator, glues `a` onto the first part of `t`'s split |
| JsString.SplitAtSeparator | src/components/ShareModal.tsx:33-34 | a separator after a separator-free `a` starts a new part |
| JsString.SplitJoin | src/components/ShareModal.tsx:21 | splitting a join gives back the list exactly when it is non-empty and no element holds the separator (both directions) |
| JsString.SplitJoinPieces | src/components/ShareModal.tsx:21 | the "if" half of that equivalence |
| JsNumber.DigitChar | src/components/ShareModal.tsx:24 | the digit character for a value below 10 is a digit with that value |
| JsNumber.NatToDecimal | src/components/ShareModal.tsx:24 | a decimal numeral is non-empty and all digits, and it starts with `0` only for zero (no leading zeros) |
| JsNumber.DecimalValueOfNumeral | src/components/ShareModal.tsx:24 | reading a numeral back gives the number |
| JsNumber.LeadingDigits | pages/ResultPage.tsx:31 | the longest all-digit prefix |
| JsNumber.ParseInt | pages/ResultPage.tsx:31 | `parseInt(s, 10)` is NaN exactly when no digit follows the leading whitespace and sign; a negative result comes from a `-` |
| JsNumber.ParseNumeral | pages/ResultPage.tsx:31 | `parseInt` of a numeral is its value |
| JsNumber.ParseNegativeNumeral | pages/ResultPage.tsx:31 | `parseInt` of `-` and a numeral is the negated value |
| JsNumber.ParseIntToString | src/components/ShareModal.tsx:24 | `parseInt(x.toString(), 10)` is `x` for every integer and for NaN |
| Url.Get | pages/ResultPage.tsx:27-31 | `get` finds a value exactly when the query has the name |
| Url.HasAppend | src/components/ShareModal.tsx:20-24 | a query with a pair appended has that pair's name besides its own |
| Url.NotHasAnywhere | src/components/ShareModal.tsx:20-24 | a query without a name has no pair with that name |
| Url.GetFirstMatch | pages/ResultPage.tsx:27-31 | `get` returns the value of the first pair with the name, whatever later pairs hold |
| Url.RemoveAll | src/components/ShareModal.tsx:20-24 | no pair with the removed name is left |
| Url.RemoveAllKeepsOthers | src/components/ShareModal.tsx:20-24 | removing one name leaves the other names' values |
| Url.Set | src/components/ShareModal.tsx:20-24 | after `set` the name reads back as the value, and a new name is appended at the end |
| Url.SetLeavesOnePair | src/components/ShareModal.tsx:20-24 | after `set` at most one pair has that name |
| Url.SetKeepsOthers | src/components/ShareModal.tsx:20-24 | `set` leaves the other names' values |
| Url.Utf8 | src/components/ShareModal.tsx:28 | one to four bytes per character; exactly the ASCII characters are one byte, namely themselves; a longer encoding has a lead byte of at least 0xC0 and continuation bytes in 0x80 to 0xBF |
| Url.Utf8RoundTrip | src/components/ShareModal.tsx:28 | decoding a character's UTF-8 bytes gives back its code point |
| Url.PercentByte | src/components/ShareModal.tsx:28 | an escape is three form-safe characters |
| Url.PercentBytes | src/components/ShareModal.tsx:28 | escapes use only form-safe characters |
| Url.EncodeChar | src/components/ShareModal.tsx:28 | an encoded character uses only form-safe characters |
| Url.FormEncode | src/components/ShareModal.tsx:28 | the form-urlencoded text uses only form-safe characters, so never `&` or `=` |
| Url.FormEncodeUnreserved | src/components/ShareModal.tsx:28 | text made of unreserved characters is encoded as itself |
| Url.FieldOfPlainName | src/components/ShareModal.tsx:28 | a pair with a plain name is written `name=encoded value` |
| Url.FieldSplits | src/components/ShareModal.tsx:28 | each field splits at `=` into exactly the encoded name and value |
| Url.FieldHasNoAmpersand | src/components/ShareModal.tsx:28 | no field contains `&` |
| Url.SerializeSplits | src/components/ShareModal.tsx:28 | the serialised query splits at `&` into exactly its fields |
| Url.HexValue | pages/ResultPage.tsx:36 | a hex digit's value is below 16 and is the position of the digit's upper-case form among the digits the encoder writes |
| Url.DecodeUriComponent | pages/ResultPage.tsx:36 | text without `%` decodes to itself, and decoding never lengthens |
| Url.DecodeUriComponentExamples | pages/ResultPage.tsx:36 | a lone `%` throws, and `%23FFF` decodes to `#FFF` |
| Types.FindTask | src/pages/MembersPage.tsx:14 | the lookup fails exactly when no task has the id, and a found task has the id and is in the list |
| Types.FindTaskFirst | pages/ResultPage.tsx:45 | the found task is the first with the id |
| ShareModal.ShareQuery | src/components/ShareModal.tsx:19-24 | the five `set` calls leave exactly the pairs `t`, `w`, `c`, `i`, `cnt` in that order, with the winners joined by commas and the count in decimal |
| ShareModal.ShareUrl | src/components/ShareModal.tsx:17-29 | the link starts with the base URL and `#/share?` |
| ShareModal.ShareUrlFields | src/components/ShareModal.tsx:28 | the link's query splits at `&` into exactly the five encoded fields |
| ShareModal.JoinCommaSpace | src/components/ShareModal.tsx:32 | joining with `, ` is joining the spaced names with `,` |
| ShareModal.WinnersTextLists | src/components/ShareModal.tsx:32 | comma-free winner names can be read back from the text as the spaced names |
| ShareModal.FullShareTextLines | src/components/ShareModal.tsx:33-34 | the share text has five lines: task, winners, an empty line, the label and the link |
| ShareModal.NoBreakInJoin | src/components/ShareModal.tsx:33 | joining line-free parts with a line-free separator gives one line |
| ResultPage.DecodeShare | pages/ResultPage.tsx:27-42 | share decoding fails (the page's URIError) exactly when the second `decodeURIComponent` of the colour does; otherwise the id is `share-id`, the category `Shared`, the members empty, the title and icon non-empty, and there is at least one winner entry |
| ResultPage.DefaultCountIsOne | pages/ResultPage.tsx:31 | the count fallback `'1'` parses to 1 |
| ResultPage.DefaultColorDecodes | pages/ResultPage.tsx:29-36 | the default colour survives the second decoding unchanged |
| ResultPage.DecodeFallbacks | pages/ResultPage.tsx:27-31 | missing or empty fields give `未知任務`, `#9A8C98`, `celebration`, count 1, and winners `[""]` |
| ResultPage.GetShareFields | src/components/ShareModal.tsx:20-24 | each of the five fields reads back from a query laid out as the share link's |
| ResultPage.DecodeShareQuery | pages/ResultPage.tsx:25-42 | decoding a share query gives back the count, the title, colour and icon after their fallbacks, and the comma-split of the joined winners, when the colour has no `%` |
| ResultPage.ShareRoundTrip | pages/ResultPage.tsx:25-42 | with non-empty title, colour and icon, no `%` in the colour, and at least one comma-free winner, the share link decodes to the same title, colour, icon, count and winners |
| ResultPage.SharedWinnersExact | pages/ResultPage.tsx:42 | the winners come back unchanged exactly when there is at least one and no name holds a comma; an empty list comes back as `[""]` |
| ResultPage.PercentColorChanges | pages/ResultPage.tsx:36 | a colour shared as `%23FFF` comes back as `#FFF` |
| ResultPage.DrawLength | pages/ResultPage.tsx:52 | `slice(0, Math.min(count, n))` keeps `min(count, n)` names for a non-negative count, counts back from the end for a negative one, and keeps none for NaN |
| ResultPage.Draw | pages/ResultPage.tsx:50-53 | the winners are a prefix of the shuffle of that length, and none occurs more often than in the split list |
| ResultPage.DrawWinners | pages/ResultPage.tsx:50-53 | with a count of at least 1 there are `min(count, n)` winners, at least one, each a listed member |
| ResultPage.ResultView.constructor | pages/ResultPage.tsx:19-20 | the page starts with no task, no winners and no crash |
| ResultPage.ResultView.Load | pages/ResultPage.tsx:24-56 | runs only while the app has not crashed; share mode shows the decoded result, and when the colour cannot be decoded the page crashes with task and winners untouched; normal mode shows the found task with a fresh draw; with an unknown id or no member list nothing changes, so the not-found view stays |
| ResultPage.ResultView.Redraw | pages/ResultPage.tsx:58-71 | runs only while the app has not crashed, and does not crash it; share mode navigates to `/` and keeps the winners; without a task or a member list nothing changes; otherwise a new draw with the task's count |
| MembersPage.Names | src/pages/MembersPage.tsx:43 | the rows' names, in order |
| MembersPage.AllChecked | src/pages/MembersPage.tsx:22 | one checked row per name, in order |
| MembersPage.WithAllFlags | src/pages/MembersPage.tsx:38 | the same rows with every flag set to the given value |
| MembersPage.CheckedNames | src/pages/MembersPage.tsx:58 | no more checked names than rows |
| MembersPage.CheckedNamesAreCheckedRows | src/pages/MembersPage.tsx:58 | a name is among the checked names exactly when some checked row carries it |
| MembersPage.CheckedNamesAppend | src/pages/MembersPage.tsx:58 | the checked names keep row order: a row added at the end adds its name at the end exactly when it is checked |
| MembersPage.CheckedCount | src/pages/MembersPage.tsx:73 | `checkedCount` is at most the number of rows |
| MembersPage.CheckedCountIsCheckedRows | src/pages/MembersPage.tsx:73 | `checkedCount` is the number of checked row positions |
| MembersPage.CheckedNamesListed | src/pages/MembersPage.tsx:58 | no checked name occurs more often than in the list |
| MembersPage.CountIsLengthIffAllChecked | src/pages/MembersPage.tsx:73 | the count equals the length exactly when every row is checked |
| MembersPage.CountIsZeroIffNoneChecked | src/pages/MembersPage.tsx:59-73 | the count is 0 exactly when no row is checked |
| MembersPage.CheckedNamesOfAllChecked | src/pages/MembersPage.tsx:58 | with every row checked, the checked names are all the names |
| MembersPage.SelectAllBoxIff | src/pages/MembersPage.tsx:134 | the "select all" box is checked exactly when the list is non-empty and every row is checked |
| MembersPage.SyncSelectsAll | src/pages/MembersPage.tsx:19-24 | after a sync the rows carry the task's names in order, all selected |
| MembersPage.WithAllFlagsKeepsNames | src/pages/MembersPage.tsx:36-39 | toggling all keeps the names |
| MembersPage.ToggleAllSelection | src/pages/MembersPage.tsx:36-39 | toggling all on selects every name, and off selects none |
| MembersPage.AddRequest | src/pages/MembersPage.tsx:41-47 | a request is sent exactly when the input is not blank and there is a task id; it holds the current names plus the trimmed input at the end |
| MembersPage.NamesExcept | src/pages/MembersPage.tsx:51 | the filter by position drops exactly the row at the index, or nothing for an index outside the list |
| MembersPage.DeleteRequest | src/pages/MembersPage.tsx:49-54 | with a task id, the names with exactly row `index` removed, the rest in order |
| MembersPage.StartDraw | src/pages/MembersPage.tsx:56-64 | ignored without a task or id; rejected exactly when no row is checked; otherwise navigation to `/result/<id>/<checked names joined by ','>` |
| MembersPage.CheckedNamesCommaFree | src/pages/MembersPage.tsx:58-63 | comma-free names give comma-free checked names |
| MembersPage.DrawRouteLists | src/pages/MembersPage.tsx:56-64 | with comma-free names and a checked row, the route's member list splits back into exactly the checked names |
| MembersPage.MembersView.constructor | src/pages/MembersPage.tsx:15-16 | no rows and an empty input |
| MembersPage.MembersView.Sync | src/pages/MembersPage.tsx:19-24 | a loaded task's names become the rows, all checked; without a task nothing changes |
| MembersPage.MembersView.Toggle | src/pages/MembersPage.tsx:30-34 | only row `index` flips; names, length and the other rows are unchanged |
| MembersPage.MembersView.ToggleAll | src/pages/MembersPage.tsx:36-39 | every flag becomes the given value |
| MembersPage.MembersView.EditNewMember | src/pages/MembersPage.tsx:110 | the input holds the typed text |
| MembersPage.MembersView.AddMember | src/pages/MembersPage.tsx:41-47 | sends the add request and clears the input only when a request was sent; rows are unchanged |
| App.ReplaceTask | App.tsx:88-103 | same length, and each document with the id is replaced |
| App.FindAfterReplace | App.tsx:88-103 | after the replacement the id finds the new task if it found one before, and other ids are unaffected |
| App.ReplaceKeepsUniqueIds | App.tsx:101-103 | ids stay distinct |
| App.RemoveTask | App.tsx:78 | only documents without the id remain, in their order (a subsequence of the store's list) |
| App.RemoveTaskConcat | App.tsx:78 | removing from a concatenation removes from each part, so no document moves relative to another |
| App.FindAfterRemove | App.tsx:78 | the id is gone, and other lookups are unchanged |
| App.RemoveKeepsUniqueIds | App.tsx:78 | ids stay distinct |
| App.RemoveKeepsCounts | App.tsx:78 | counts stay at least 1 |
| App.RemoveKeepsValid | App.tsx:78 | the store invariant is kept |
| App.AddTask | App.tsx:63-74 | a successful add creates the newest task in front of the unchanged list, with the given fields, count 1 and the observed roster as members; nothing else changes; a failed add changes nothing; the invariant is kept |
| App.DeleteTask | App.tsx:76-82 | the id is gone, every other task is unchanged and keeps its order, a failure changes nothing, and the invariant is kept |
| App.NextCount | App.tsx:89 | `Math.max(1, (count or 1) + delta)` is at least 1, and it is 1 or the shifted count |
| App.NextCountSteps | App.tsx:89 | a decrement at 1 stays at 1; the buttons otherwise move by one; a falsy count counts as 1 |
| App.UpdateWinners | App.tsx:84-94 | an id the app does not show is ignored; otherwise the stored task gets the next count computed from the shown count, other tasks are unchanged, the list keeps its length and order of ids, and the invariant is kept |
| App.ReplaceUpdates | App.tsx:88-90 | a replacement updates the id's lookup, leaves the others, and keeps the invariant |
| App.UpdateMembers | App.tsx:96-107 | the roster becomes the list, then the task's members do; if the first write fails nothing changes, and if the second fails the task keeps its old members; the list keeps its length and order of ids |
| App.OnTasksSnapshot | App.tsx:38-45 | the app's list becomes the store's list in its order, and loading ends |
| App.OnRosterSnapshot | App.tsx:48-55 | an existing roster is observed as its list, or `[]`; a missing one is created as `[]` |
| App.RosterBootstrap | App.tsx:48-55 | from a missing roster, the creation and the snapshot it triggers leave the app with `[]` |
| App.UpdateMembersObserved | App.tsx:63-107 | after a successful member update is observed, the roster and the task's members equal the list, and the next task starts with it |
| App.UpdateMembersIdempotent | App.tsx:96-107 | repeating a successful member update with the same list changes nothing |
| App.ReplaceTwice | App.tsx:101-103 | replacing twice with the same task is replacing once |
| App.AppShell.constructor | App.tsx:31-33 | the app starts loading, having observed nothing |
| App.AppShell.ReceiveTasks | App.tsx:38-45 | the state changes as `OnTasksSnapshot` says, and the invariant is kept |
| App.AppShell.ReceiveRoster | App.tsx:48-55 | the state changes as `OnRosterSnapshot` says, and the invariant is kept |
| App.AppShell.HandleAddTask | App.tsx:63-74 | the state changes as `AddTask` says, and the invariant is kept |
| App.AppShell.HandleDeleteTask | App.tsx:76-82 | the state changes as `DeleteTask` says, and the invariant is kept |
| App.AppShell.HandleUpdateWinners | App.tsx:84-94 | the state changes as `UpdateWinners` says, and the invariant is kept |
| App.AppShell.HandleUpdateMembers | App.tsx:96-107 | the state changes as `UpdateMembers` says, and the invariant is kept |
| AddTaskPage.SavedTitle | pages/AddTaskPage.tsx:30 | the saved title is never empty; it is the typed title exactly when that is non-empty, and `未命名任務` otherwise |
| AddTaskPage.WithCategory | pages/AddTaskPage.tsx:41-43 | the new name is present, the old list is a prefix, the list grows only for a new name, and it stays free of duplicates |
| AddTaskPage.BuiltInCategoriesDistinct | src/constants.ts:30-35 | the built-in categories are distinct |
| AddTaskPage.TaskForm.constructor | pages/AddTaskPage.tsx:12-20 | empty title, first colour and icon, built-in categories with the first selected, category input closed and empty |
| AddTaskPage.TaskForm.EditTitle | pages/AddTaskPage.tsx:70 | only the title changes |
| AddTaskPage.TaskForm.SelectColor | pages/AddTaskPage.tsx:86 | only the colour changes |
| AddTaskPage.TaskForm.SelectIcon | pages/AddTaskPage.tsx:102 | only the icon changes |
| AddTaskPage.TaskForm.SelectCategory | pages/AddTaskPage.tsx:119 | only the selected category changes, to a listed one |
| AddTaskPage.TaskForm.OpenCategoryInput | pages/AddTaskPage.tsx:141 | only the input opens |
| AddTaskPage.TaskForm.EditCategoryName | pages/AddTaskPage.tsx:131 | only the category input's text changes |
| AddTaskPage.TaskForm.Save | pages/AddTaskPage.tsx:28-36 | submits the form's fields with a non-empty title, and returns to `/` |
| AddTaskPage.TaskForm.AddCategory | pages/AddTaskPage.tsx:38-48 | a non-blank name is trimmed, added unless listed, and selected; a blank one changes neither; the input is cleared and closed; categories stay distinct and include the selection |
| Scenario.DrawFromSelection | src/pages/MembersPage.tsx:56-64 | a draw started from the member page picks `min(count, checked)` winners, each the name of a checked row |
| Scenario.SelectionWithoutC | src/pages/MembersPage.tsx:58-63 | rows A and B checked and C unchecked give the list `A,B` |
| Scenario.SyncedABC | src/pages/MembersPage.tsx:22 | syncing A, B, C checks all three |
| Scenario.UncheckedC | src/pages/MembersPage.tsx:30-34 | toggling the third synced row unchecks only C |
| Scenario.DrawOneOfAB | pages/ResultPage.tsx:50-53 | the route for that selection lists A and B, and a draw of one picks A or B |
| Scenario.UncheckOneAndDraw | App.tsx:63-70 | a task created with roster A, B, C, with C unchecked, draws exactly one winner, A or B |

## Left out

- The document store itself is abstract, and so are its listeners: snapshot delivery,
  latency compensation, `serverTimestamp` and the `createdAt` ordering of pending writes.
  The store keeps tasks newest first, and snapshots are steps the caller takes.
- Error logging in the handlers (`console.error`) is not modelled. Each write's success is
  a boolean parameter, and a failed write leaves the store unchanged.
- `App.AddTask`: the new document's id is a parameter and must be fresh. The store picks
  it in the app.
- `ResultPage.Draw`: `Math.random` and `sort` with a random comparator are not modelled.
  The shuffle is any rearrangement of the list, so the model says nothing about how
  uniform it is.
- `ResultPage.DecodeShare`: the query is the already parsed list of pairs. Parsing the
  link's text back into pairs, that is `URLSearchParams` parsing and hash routing, is not
  part of this model. The round trip is stated over the pairs. The serialised text is
  related to the pairs by `ShareModal.ShareUrlFields`.
- `ResultPage.ResultView.Load`: the URIError that `decodeURIComponent` throws on a bad
  colour escape (pages/ResultPage.tsx:33-36) is thrown inside the page's effect, and no
  error boundary catches it, so React unmounts the whole app. The model records this only
  as the `crashed` flag; what the browser shows afterwards is not modelled. Every other
  missing or empty share field falls back to a default (pages/ResultPage.tsx:27-31), so a
  bad colour escape is the one fatal case of a malformed share link.
- Numbers: integers are unbounded, and a JavaScript number is `Int(n)` or `NaN`. Lost
  precision above 2^53, exponent notation from 1e21 on in `toString`, and `-0` are not
  modelled.
- Strings are sequences of Unicode scalar values, not of UTF-16 code units. Lengths
  and indices therefore differ from JavaScript on characters outside the Basic
  Multilingual Plane, and lone surrogates cannot occur.
- `Url.DecodeUriComponent`: only escapes of single-byte (ASCII) characters are decoded.
  An escape of a byte of 0x80 or above is treated as malformed, so a colour that needs a
  multi-byte UTF-8 escape is wrongly reported as an error.
- The route parameters (`taskId`, `memberList`) are taken as given. The router's own
  percent-decoding of them is not modelled.
- `MembersPage.DrawRouteLists` and `Scenario.DrawFromSelection` assume the checked names
  reach the result page intact, and only exclude commas. Member names are free text
  (src/pages/MembersPage.tsx:41-47) and go into `/result/:taskId/:memberList` unencoded
  (src/pages/MembersPage.tsx:63). A checked name with `/` makes the path match no route,
  and one with `?` or `#` cuts the member list short. Neither case is modelled.
- `MembersPage.MembersView.Toggle`: the rows are values. The source copies the array but
  changes the shared row object in place, so the old array sees the flip as well. The
  model does not capture that aliasing.
- `MembersPage.MembersView.Toggle` needs `index < |members|`. The page only passes
  positions of rendered rows.
- The sync effect is modelled as a step the caller takes. React's dependency tracking
  on `task?.members` is not modelled.
- Browser side effects are not modelled: the clipboard, `navigator.share`,
  `window.open`, `alert`, and the share modal's open/close state. Styling and rendering
  are left out as well, except for the values the rendering reads (the checked count, the
  "select all" box, and the not-found view).
- `src/pages/TaskListPage.tsx` is context only. Its ±1 winners buttons appear only in
  `App.NextCountSteps`.
- `App.OnRosterSnapshot`: `list || []` is modelled for a present or missing list. A
  present but non-array `list` value is not modelled.
