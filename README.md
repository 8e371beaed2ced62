# Bookmark manager: live list, relative dates and the add-bookmark flow

A model of a small personal bookmark manager, a Next.js front end over Supabase.
Signed-in users add URL bookmarks and delete them. Each open list stays current
through a realtime change feed. The model covers the logic in three files:

- `BookmarkList`: the list component's session state and its realtime reducer;
- `BookmarkList.formatDate`: the relative-age label;
- the add-bookmark logic, in two variants: the client form's `handleSubmit`
  and the `addBookmark` server action.

Layout (one module per file):

| file | module | what |
|---|---|---|
| `bookmark_types.dfy` | `BookmarkTypes` | `Bookmark`, `NewBookmark`, `User` rows; `Option`; the URL-parser oracle type |
| `js_strings.dfy` | `JsStrings` | JavaScript `trim` (ECMAScript WhiteSpace and LineTerminator code points) and decimal rendering |
| `change_feed.dfy` | `ChangeFeed` | the INSERT / DELETE / UPDATE reducers as functions on `seq<Bookmark>`, with their lemmas |
| `bookmark_list.dfy` | `BookmarkListComponent` | class `BookmarkList`: `bookmarks`, `loading`, `deletingId`, `channel` and the handlers that update them |
| `relative_time.dfy` | `RelativeTime` | `formatDate`'s buckets, their labels, and a decoder for the labels |
| `bookmark_input.dfy` | `BookmarkInput` | the title fallback and the insert payload, used by both add-bookmark variants |
| `bookmark_form.dfy` | `BookmarkFormComponent` | class `BookmarkForm`: `url`, `title`, `loading`, `success`, `error` and `handleSubmit` |
| `server_actions.dfy` | `ServerActions` | `addBookmark` as a function returning what the call did |

Things the code relies on but that this model cannot see are parameters:

- the URL parser: `UrlParser = string -> Option<string>` gives `Some(hostname)` when `new URL(s)` succeeds and `None` when it throws;
- the current user: an `Option<User>`;
- backend outcomes: the query result; the error message of an insert or a delete, if any;
- the clock: `formatDate` takes `diffMs = now - created_at` directly;
- outgoing calls are recorded in return values: the row inserted, the channel removed, whether `revalidatePath('/')` ran.

`handleSubmit` and `handleDelete` each suspend at their awaits. Each is
modelled as one method per stretch of code between awaits (`BeginSubmit`,
`ResumeWithUser`, `ResumeWithInsert`; `BeginDelete`, `FinishDelete`), so
realtime events and typing can be interleaved between the stretches. A
composed method (`HandleSubmit`, `HandleDelete`) covers a run with nothing in between.

Where the code's behaviour may surprise, the model follows the code:

- An INSERT event is always prepended and never replaces an entry with the same id. A duplicate delivery therefore leaves two entries with that id (`InsertDuplicates`).
- A single `deletingId` is tracked, not one flag per id. Two overlapping deletes clear each other's flag (`OverlappingDeletesScenario`).
- `addBookmark` does not validate the URL. It throws only when the title is absent or blank and the URL does not parse, because `||` evaluates `new URL(url)` only in that case. With a non-blank title, an unparseable URL is stored (`UnparseableUrlIsStored`).
- On a failed query, `fetchBookmarks` still opens the realtime channel.

## Model

| member | source | states |
|---|---|---|
| `ChangeFeed.RemoveId` | components/BookmarkList.tsx:50-52 | every entry left by the delete filter was in the list and does not carry the deleted id; the list does not grow |
| `ChangeFeed.ReplaceId` | components/BookmarkList.tsx:54-57 | the update map keeps the list's length |
| `ChangeFeed.Reconcile` | components/BookmarkList.tsx:46-59 | the callback's new list: an INSERT puts the row in front of the unchanged old list, an UPDATE keeps the length, a DELETE only drops entries (every one left was there and does not carry the deleted id), and any other event leaves the list as it was |
| `ChangeFeed.InsertPrepends` | components/BookmarkList.tsx:47-48 | after an INSERT the new row is at index 0, the length grows by one, the old entries follow in their old order, and the multiset gains exactly that row |
| `ChangeFeed.InsertDuplicates` | components/BookmarkList.tsx:48 | an INSERT adds one entry with the row's id whether or not one is present; if the id was already present it now occurs at least twice |
| `ChangeFeed.RemoveExact` | components/BookmarkList.tsx:49-52 | after a DELETE, every bookmark with the deleted id occurs zero times and every other bookmark occurs as often as before |
| `ChangeFeed.RemoveKeepsOrder` | components/BookmarkList.tsx:50-52 | the entries a DELETE keeps form a subsequence of the old list, so their relative order is kept |
| `ChangeFeed.RemoveCount` | components/BookmarkList.tsx:50-52 | a DELETE shortens the list by exactly the number of entries with that id |
| `ChangeFeed.RemoveAbsent` | components/BookmarkList.tsx:49-52 | a DELETE for an id not in the list leaves the list unchanged |
| `ChangeFeed.DeleteIdempotent` | components/BookmarkList.tsx:49-52 | applying the same DELETE twice gives the same list as applying it once |
| `ChangeFeed.ReplacePointwise` | components/BookmarkList.tsx:53-57 | an UPDATE keeps the length, and at every position an entry with a matching id becomes the new row while every other entry is unchanged |
| `ChangeFeed.ReplaceKeepsIds` | components/BookmarkList.tsx:54-57 | an UPDATE never changes the id at any position |
| `ChangeFeed.UpdateAbsent` | components/BookmarkList.tsx:53-57 | an UPDATE for an id not in the list leaves the list unchanged |
| `ChangeFeed.OtherEventIgnored` | components/BookmarkList.tsx:47-59 | an event that is neither INSERT, DELETE nor UPDATE leaves the list unchanged |
| `BookmarkListComponent.BookmarkList.constructor` | components/BookmarkList.tsx:8-14 | a mounted list starts empty, loading, with no delete in flight and no channel |
| `BookmarkListComponent.BookmarkList.FetchBookmarks` | components/BookmarkList.tsx:16-45 | with no user: the list is emptied, no query is made and no channel is opened; with a user: the rows replace the list only if there is no error and there is data, otherwise the list is kept, and the owner-filtered channel is opened in both cases; `loading` ends false on every path |
| `BookmarkListComponent.BookmarkList.ApplyEvent` | components/BookmarkList.tsx:46-59 | the realtime callback replaces the list with the event folded into it and changes nothing else |
| `BookmarkListComponent.BookmarkList.IsDeleting` | components/BookmarkList.tsx:164-168 | a bookmark's delete button shows the spinner and is disabled exactly when its id is the one flagged; none is while no delete is in flight |
| `BookmarkListComponent.BookmarkList.BeginDelete` | components/BookmarkList.tsx:74-80 | the id is flagged as deleting before the delete is issued for that id; the list is untouched |
| `BookmarkListComponent.BookmarkList.FinishDelete` | components/BookmarkList.tsx:82-88 | the flag is cleared on success and on failure, an alert is raised exactly on failure, and the list is untouched |
| `BookmarkListComponent.BookmarkList.HandleDelete` | components/BookmarkList.tsx:74-89 | a whole delete targets the given id, ends with no id flagged, alerts exactly on failure and never edits the list |
| `BookmarkListComponent.BookmarkList.Teardown` | components/BookmarkList.tsx:67-71 | the cleanup removes the channel exactly when one was opened, and changes no field |
| `RelativeTime.Classify` | components/BookmarkList.tsx:94-102 | each bucket holds exactly its range of `diffMs`: under a minute (negative values included) is "just now"; minutes lie in 1..59, hours in 1..23 and days in 1..6, each the floor of `diffMs` over its unit; from seven days on it is the locale branch |
| `RelativeTime.Label` | components/BookmarkList.tsx:99-102 | only the locale branch has no text; the minutes, hours and days labels start with a digit and end in " ago" |
| `RelativeTime.FormatDate` | components/BookmarkList.tsx:91-102 | under a minute (negative differences included) the label is "Just now" and only then; up to an hour it is the floored minutes followed by "m ago", up to a day the floored hours and "h ago", up to a week the floored days and "d ago"; from seven days on no relative label is produced |
| `RelativeTime.LabelRoundTrip` | components/BookmarkList.tsx:99-102 | every rendered label other than the locale date reads back as the bucket and count it was made from |
| `RelativeTime.FormatDateDecodes` | components/BookmarkList.tsx:91-102 | `formatDate` gives "Just now" exactly for `diffMs` under a minute, falls through to the locale date exactly from seven days on, and otherwise renders the floored minutes, hours or days |
| `JsStrings.NatToDecimal` | components/BookmarkList.tsx:100-102 | the interpolated count is a non-empty string of decimal digits with no leading zero |
| `JsStrings.DecimalRoundTrip` | components/BookmarkList.tsx:100-102 | reading the interpolated count's digits gives back the count |
| `JsStrings.TrimStart` | components/BookmarkForm.tsx:44-45 | the leading part `trim` removes is all whitespace, and what remains is a suffix that is empty or starts with a non-whitespace character |
| `JsStrings.TrimEnd` | components/BookmarkForm.tsx:44-45 | the trailing part removed is all whitespace, and what remains is a prefix that is empty or ends with a non-whitespace character |
| `JsStrings.Trim` | components/BookmarkForm.tsx:44-45 | `trim` never lengthens its input, and its result is empty or neither starts nor ends with whitespace |
| `JsStrings.TrimSlice` | components/BookmarkForm.tsx:44-45 | `trim` keeps one contiguous slice, and whatever it cuts on either side is whitespace |
| `JsStrings.TrimEdges` | components/BookmarkForm.tsx:44-45 | what `trim` returns is empty or neither starts nor ends with whitespace |
| `JsStrings.TrimEmptyIff` | app/actions.ts:16 | the trimmed title is empty exactly when the title is all whitespace, which is when the host-name fallback is taken |
| `JsStrings.TrimIdempotent` | components/BookmarkForm.tsx:44 | trimming a trimmed title changes nothing |
| `BookmarkInput.ResolveTitle` | app/actions.ts:16 | the title is the trimmed title when one is given and is not blank, and the URL's host name otherwise; it fails exactly when the fallback is needed and the URL does not parse |
| `BookmarkInput.RowToInsert` | app/actions.ts:21-25 | the inserted row carries the user's id and the resolved title, and its URL is already trimmed and no longer than the one typed |
| `BookmarkInput.ResolvedTitleIsTrimmed` | components/BookmarkForm.tsx:44 | a title taken from the input is non-empty, has no surrounding whitespace, and is unchanged by a second trim |
| `BookmarkFormComponent.BookmarkForm.constructor` | components/BookmarkForm.tsx:7-11 | a new form has empty fields and messages, is not loading and shows no success |
| `BookmarkFormComponent.BookmarkForm.SetUrl` | components/BookmarkForm.tsx:78 | typing sets the URL field |
| `BookmarkFormComponent.BookmarkForm.SetTitle` | components/BookmarkForm.tsx:93 | typing sets the title field |
| `BookmarkFormComponent.BookmarkForm.SubmitDisabled` | components/BookmarkForm.tsx:109 | the submit button is disabled while a submission is in flight and while the URL field is empty, and is enabled only when neither holds |
| `BookmarkFormComponent.BookmarkForm.BeginSubmit` | components/BookmarkForm.tsx:14-28 | a submit first clears `error`, resets `success` and sets `loading`; an unparseable untrimmed URL then shows the invalid-URL message, clears `loading` and stops before the auth lookup; otherwise it waits for the user with the button disabled |
| `BookmarkFormComponent.BookmarkForm.ResumeWithUser` | components/BookmarkForm.tsx:30-46 | with no user it shows the logged-out message, clears `loading` and inserts nothing; with a user it issues one insert carrying the user's id, the resolved title and the trimmed URL, and changes no field |
| `BookmarkFormComponent.BookmarkForm.ResumeWithInsert` | components/BookmarkForm.tsx:48-64 | on success the fields are cleared and `success` is set; on failure the error's message is shown, or the generic message if it is empty, and the fields stay as typed; `loading` ends false, and the button is then disabled exactly when the URL field is empty |
| `BookmarkFormComponent.BookmarkForm.HandleSubmit` | components/BookmarkForm.tsx:14-65 | a whole submit looks up the user exactly when the URL parses and inserts exactly when there is also a user; it states the row inserted and, for each exit (invalid URL, logged out, insert failed, success), the final `error`, `success`, `url` and `title`; `loading` is false on every exit |
| `ServerActions.AddBookmark` | app/actions.ts:6-33 | with no user it returns the logged-out error with no insert and no revalidation; it throws exactly when the fallback is needed and the URL does not parse; otherwise it inserts one row with the user's id, the resolved title and the trimmed URL; an insert error is returned with its message unmodified and no revalidation; success revalidates and returns success |
| `ServerActions.UnparseableUrlIsStored` | app/actions.ts:12-25 | with a non-blank title the action never parses the URL, so an unparseable URL is inserted, trimmed |
| `ServerActions.BlankTitleFallsBackToHost` | app/actions.ts:16 | an absent title and a whitespace-only title give the same call, which stores the URL's host name |

## Left out

- Supabase calls (`auth.getUser`, the `bookmarks` select, insert and delete, `channel`/`subscribe`/`removeChannel`) are external network and auth I/O. Their results are parameters, and the calls made are recorded in return values.
- `new URL` and `hostname` come from the WHATWG URL parser, which is not part of this model. They are the `UrlParser` parameter.
- Parsing `created_at`, reading the clock, and the `toLocaleDateString` branch of `formatDate` (components/BookmarkList.tsx:92-94, 104-108) are left out. The difference is a parameter, and the locale branch is the value `None`. An unparseable date (a `NaN` difference in JavaScript) is not modelled.
- The async interleaving of the initial fetch with events and with the cleanup is left out. In particular, a cleanup that runs before `fetchBookmarks` has opened the channel finds no channel, and the channel opened afterwards is never removed. The split handler methods let callers interleave steps, but no lemma covers these races.
- The realtime callback is not tied to the channel being open. Delivering events only while subscribed is the backend's job.
- The three-second `setTimeout` that resets `success`, the `bookmark-added` window event, `alert` text and `console.error` are timers and browser side effects, and are left out.
- A rejected `auth.getUser()` inside `handleSubmit`'s `try` is left out; the user oracle always answers.
- JSX rendering, `app/page.tsx`, `app/layout.tsx`, `components/AuthButton.tsx` (OAuth and its display-name fallback) and `lib/supabase/client.ts` carry no logic this model covers.
- Strings are sequences of Unicode scalar values, not UTF-16 code units. Every character `trim` removes is a single code unit, so `trim` agrees.
