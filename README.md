# Bluesky auto-moderator: a Dafny model of its filter and block-list core

The auto-moderator drives a browser that shows a Bluesky feed. It hides every feed item whose
text contains one of a configured list of banwords. The banwords are lower-cased once. Each
item's text is lower-cased and tested by substring. A matching item is removed from the page.
The id of each item it has looked at, the first ten hex digits of the MD5 digest of its text,
is recorded so that the item is not examined again. The filter runs once when the session
starts. After that it runs again each time the page's vertical scroll offset differs from the
offset seen at the previous check. A companion tool resolves an account reference to a handle
and finds the signed-in account's lists by name.

The model has five modules:

- `Wrappers`: `Option`.
- `Strings`: the Python `str` operations the code relies on. These are `lower`, `in`,
  `startswith`, `split(sep)[-1]` and `lstrip`/`rstrip`/`strip` over a character set.
- `Filter`: `BlueskyFilter` (main.py).
  - Each rendered feed item is a `PostElement`. For every read the filter makes on the live
    element, the item records the outcome: a value, a stale-element exception (`Stale`) or any
    other exception (`Fault`).
  - One pass of `filter_posts` is the function `Pass` over a snapshot of the feed.
  - The class `BlueskyFilter` holds the lower-cased banwords and the processed ids. Its method
    `FilterPosts` updates the page in place and is proved equal to `Pass`.
- `Scroll`: `monitor_user_scroll` and the session `main` runs.
  - The endless polling loop becomes a finite sequence of checks (`Tick`). A check carries the
    feed items the renderer appended to the page since the previous check, the offset it reads
    (or that the read raised), and whether the lookup of the feed items raises if a pass runs.
  - `Monitor` and `Session` are the specification functions. The methods `MonitorUserScroll`
    and `RunSession` are proved against them.
- `Blocklist`: blocklist.py.
  - The handle `resolve_account_to_did` resolves.
  - The list lookups of `get_or_create_block_list` and `get_users_from_list`.
  - The network calls are parameters whose outcome is a value or an exception.

Four consequences of what the code does are worth stating, since a reader may expect otherwise:

- An exception that escapes a pass is re-raised (main.py:121-123). An exception from an offset
  read (main.py:127, 130) is not caught at all. Neither the monitor nor `main` catches either
  of them, since `main` catches only `KeyboardInterrupt` (main.py:188-191). So both end the
  session; the poller does not survive them. In the model a `raised` flag ends `Monitor`.
- A single feed item can end the session. A displayed item without a `postText` div makes the
  `[0]` of `_get_post_text` raise an `IndexError` (main.py:46). `_get_post_text` catches only
  `NoSuchElementException` and `StaleElementReferenceException` (main.py:47), and the loop
  only the latter (main.py:119). So the `IndexError` escapes the pass, which is the `Fault`
  outcome of `PostElement.text`. A missing profile or post link on an item about to be removed
  does the same: its helper catches the same two exceptions (main.py:34, 40), not the
  `IndexError` (main.py:33, 39, 114).
- `_contains_banword("")` is true as soon as an empty banword is configured. Empty text is
  never removed only because of the `post_text and` guard (main.py:113).
- `_get_post_id` never takes its `time_ns` fallback, because hashing cannot raise a
  stale-element exception. A stale text read is caught in `_get_post_text` and gives "". So
  every post whose text went stale gets the id of the empty text. The first of them marks
  that id, and later ones are skipped.

Rows marked "proof helper" unfold a definition by one step for the other proofs; they state no
property of their own.

## Model

| member | source | states |
|---|---|---|
| Strings.Lower | main.py:19 | `str.lower()` character by character: the same length, each character lowered, and no upper-case letter left |
| Strings.LowerIdempotent | main.py:86 | lowering an already lowered text changes nothing |
| Strings.StartsWith | blocklist.py:43 | definition (no contract): `s.startswith(p)` |
| Strings.Contains | main.py:88 | `pat in text` holds exactly when `pat` occurs at some offset of `text` |
| Strings.LastSegment | blocklist.py:44 | `split(sep)[-1]` is a suffix of the string with no separator in it, preceded by a separator unless it is the whole string |
| Strings.LastSegmentAfterSep | blocklist.py:44 | whatever precedes it, the text after a final separator is the last segment |
| Strings.LStrip | blocklist.py:46 | `lstrip(chars)` drops exactly the longest prefix made of `chars` |
| Strings.RStrip | blocklist.py:48 | `rstrip(chars)` drops exactly the longest suffix made of `chars` |
| Strings.Strip | blocklist.py:48 | `strip()` leaves neither end in the character set, and keeps only characters of the input |
| Strings.StripPadding | blocklist.py:48 | `strip` gives back any text padded on both sides with characters of the set, if neither of its ends is in the set |
| Filter.BlueskyFilter.constructor | main.py:17-20 | the filter stores each banword lower-cased, in order, and starts with no processed id |
| Filter.PostId | main.py:23-28 | a post id is the first ten characters of the MD5 hex digest of the text, or the whole digest when it is shorter |
| Filter.PostText | main.py:43-48 | the text of the postText div; a stale read gives ""; the `IndexError` of a missing div is the `Fault` outcome, excluded by the requires and raised by `Visit` |
| Filter.PostAuthor | main.py:30-35 | the author is the part of the profile href after its last '/': a suffix with no '/' in it, preceded by a '/' unless it is the whole href; a stale read gives ''; the `IndexError` of a missing 'View profile' link is the `Fault` outcome, excluded by the requires and raised by `Visit` |
| Filter.PostAuthorOfProfileLink | main.py:33 | a profile link whose href ends in '/' and a handle gives that handle |
| Filter.AnyOccurs | main.py:88 | `any(...)`: true exactly when some banword of the list occurs in the lowered text |
| Filter.ContainsBanword | main.py:85-88 | true exactly when some stored banword is a substring of the lower-cased text |
| Filter.MatchIgnoresCase | main.py:85-88 | lower-casing the text before the test changes nothing |
| Filter.MatchNeedsLowerBanword | main.py:19 | only a banword without upper-case letters can ever match, which is why the constructor lowers them |
| Filter.EmptyTextMatch | main.py:85-88 | the empty text matches exactly when an empty banword is stored |
| Filter.MatchUpperCaseText | main.py:85-88 | matching is case-insensitive: "trump" matches "TRUMP news today" |
| Filter.MatchInsideWord | main.py:85-88 | matching is by substring, not by word: "trump" matches "subtrumpet" |
| Filter.Flagged | main.py:113 | definition (no contract): the condition of the removal branch, a non-empty text that contains a banword |
| Filter.NotFlaggedWhenNoStart | main.py:113 | a text barely longer than the banword is not flagged when neither of its first two characters lowers to the banword's first one |
| Filter.FlaggedInMiddle | main.py:113 | a text with a part that lowers to a non-empty banword is flagged, wherever the part sits |
| Filter.Visit | main.py:103-120 | one iteration only ever adds ids and only ever removes its still-rendered item |
| Filter.Pass | main.py:96-123 | a pass keeps the snapshot's length, only ever adds ids, and changes an item only by removing it from the page |
| Filter.BlueskyFilter.FilterPosts | main.py:96-123 | when `find_elements` raises, the method raises and changes nothing; otherwise it leaves the processed ids and the page exactly as `Pass` over the items rendered at its start, and reports whether an exception escaped |
| Filter.BlueskyFilter.FilterPost | main.py:103-120 | one loop iteration changes only its own item, and leaves the ids, the item and the raise flag as `Visit` says |
| Filter.PassSnoc | main.py:102 | proof helper: a pass over one more item is the pass over the others followed by an iteration over it, unless an exception escaped before |
| Filter.PassIteration | main.py:102-123 | after one more iteration that does not raise, the state is the pass over one more item; after one that raises, it is the pass over the whole snapshot |
| Filter.PassRaisedRest | main.py:121-123 | once an exception has escaped, no later item of the snapshot is visited |
| Filter.PassPrefix | main.py:102 | the pass over a prefix of the snapshot is the start of the pass over all of it |
| Filter.PassVisits | main.py:102-120 | what a pass does at index k is the iteration over that item from the ids the earlier items left |
| Filter.RemovalAt | main.py:110-118 | a removed item was displayed and flagged, its removal went through, and its id was neither processed before nor left out afterwards |
| Filter.RemovedOnlyIfFlagged | main.py:104-118 | a pass changes an item only by removing it, and only when the item was displayed, its text was non-empty and had a banword, its id was new when the pass began, and the removal went through; that id is then processed |
| Filter.UnflaggedKept | main.py:113 | a post whose text contains no banword stays on the page |
| Filter.EmptyTextKept | main.py:113 | whatever the banwords, a post whose text reads as empty is never removed |
| Filter.HiddenKept | main.py:104-105 | a post that is not displayed is left as it is |
| Filter.ProcessedKept | main.py:110-111 | a post whose id was processed before the pass is left as it is |
| Filter.MarksOnlyEvaluated | main.py:107-118 | every id a pass adds comes from the text of a displayed item of the snapshot |
| Filter.MarksCleanReads | main.py:110-118 | after a pass that completes, the id of every displayed post read without a stale-element exception is processed, removed or not |
| Filter.FlaggedRemoved | main.py:110-118 | a completed pass removes every displayed, flagged post whose id is new, unless an earlier item gave the same id |
| Filter.DistinctRemovals | main.py:108-118 | two items removed in one pass have different ids, so different texts |
| Filter.SettledMonotone | main.py:110-111 | an item that an iteration leaves alone stays that way when more ids are processed |
| Filter.VisitSettles | main.py:110-118 | an iteration that does not raise leaves its item in a state a second iteration leaves alone |
| Filter.PassOverSettled | main.py:102-120 | a pass over items that iterations leave alone changes nothing |
| Filter.PassSettles | main.py:102-120 | a completed pass leaves every item in a state a further iteration leaves alone |
| Filter.PassIdempotent | main.py:96-123 | a second pass over what a completed pass left changes nothing and removes nothing |
| Filter.VisitShown | main.py:103-118 | proof helper: a displayed post with a new id and clean reads gets its id processed, and is removed exactly when its text is flagged |
| Filter.PassExtend | main.py:102-118 | proof helper: a pass with no exception so far goes on with an iteration over the next item |
| Filter.ThreePostPass | main.py:102-118 | over three displayed posts with distinct ids, where the first and third are flagged, a pass removes those two, keeps the second and processes all three ids |
| Filter.LowerMixedRubiales | main.py:19 | the configured banword "Luis Rubiales" is stored as "luis rubiales" |
| Filter.LowerCapsRubiales | main.py:86 | "LUIS RUBIALES" lowers to "luis rubiales" |
| Filter.RubialesFlagsBreaking | main.py:113 | "Breaking: Luis Rubiales resigns" is flagged by the stored banword |
| Filter.RubialesFlagsInterview | main.py:113 | "LUIS RUBIALES interview" is flagged by the stored banword |
| Filter.RubialesSparesWeather | main.py:113 | "Weather update" is not flagged |
| Filter.RubialesScenario | main.py:174-187 | with the banword "Luis Rubiales", the initial pass over the three posts removes the first and third, keeps "Weather update" and processes the three ids |
| Scroll.Step | main.py:130-138 | one check only ever adds ids; it lets the page grow and only removes some items; it starts one pass exactly when it reads an offset other than `last_scroll`; a failing offset read ends the session; and unless an exception escaped, `last_scroll` is the offset read |
| Scroll.Monitor | main.py:125-138 | the monitor only ever adds ids and passes, and a session an exception has ended stays as it was |
| Scroll.StillReading | main.py:130-136 | when every check that reads an offset reads the same one, the offset read last is that one |
| Scroll.NoChangesIffStill | main.py:133 | no offset change happens exactly when every check that reads an offset reads the first one |
| Scroll.MonitorSnoc | main.py:129-138 | proof helper: while no exception has ended the session, one more check is one more iteration |
| Scroll.MonitorRaisedRest | main.py:121-123 | once a pass or an offset read has raised, later checks change nothing |
| Scroll.MonitorCounts | main.py:133-136 | while no exception escapes, exactly one pass runs per offset change, and `last_scroll` ends as the offset read last |
| Scroll.MonitorPassesBound | main.py:133-136 | whether or not an exception ends it, at most one pass runs per offset change |
| Scroll.MonitorStill | main.py:133 | while every check reads the same offset, no pass runs and the page only grows by the loaded items |
| Scroll.OnlyRemovesThenGrow | main.py:115 | removing items, letting the page grow, then removing more is letting it grow and removing items |
| Scroll.MonitorLastStep | main.py:130-136 | proof helper: the last check of a session no exception has ended only lets the page grow and removes some items |
| Scroll.MonitorOnlyRemoves | main.py:115 | every item the page ever rendered stays in its place, and the monitor changes an item only by removing it |
| Scroll.SettledAfterScroll | main.py:133-136 | right after a check whose pass completed, a pass run at once would change nothing |
| Scroll.MonitorAtRest | main.py:133-136 | when nothing new is rendered, scrolling over settled items runs passes that change nothing: the ids and the page stay as they were whether or not an exception ends the session, and when none does only `last_scroll` and the pass count move |
| Scroll.StepRuns | main.py:133-136 | proof helper: a check that sees the offset move runs a pass over the grown page |
| Scroll.StepLookupFails | main.py:133-135 | proof helper: a check whose pass fails at `find_elements` ends the session after the page grew |
| Scroll.StepReadFails | main.py:130 | proof helper: a check whose offset read raises ends the session after the page grew |
| Scroll.StepIdles | main.py:133 | proof helper: a check that reads the same offset only lets the page grow |
| Scroll.MonitorOneMore | main.py:129-138 | proof helper: the monitor over one more check goes on from the monitor over the earlier ones |
| Scroll.MonitorDone | main.py:129-138 | proof helper: the monitor over a prefix of the checks is the whole monitor once every check is done or an exception has ended the session |
| Scroll.CheckScroll | main.py:130-138 | one iteration of the polling loop leaves the filter, the page, `last_scroll` and the pass count as `Step` says |
| Scroll.MonitorUserScroll | main.py:125-138 | when the first offset read raises, the method raises before any check and changes nothing; otherwise it leaves the ids, the page, the pass count and the raise flag exactly as `Monitor` from the offset read |
| Scroll.Session | main.py:186-189 | a session runs at least the initial pass, and one no exception ends keeps every item ever rendered in its place and changes one only by removing it |
| Scroll.SessionPasses | main.py:186-189 | a session no exception ends read a first offset and runs one pass more than the number of offset changes |
| Scroll.SessionStill | main.py:186-189 | when every check reads the first offset, the initial pass is the only one, and the page only grows |
| Scroll.SessionAtRest | main.py:186-189 | on a page where nothing new is rendered, the session ends with the ids and the page its initial pass left, whether or not an exception ends it |
| Scroll.RunSession | main.py:186-189 | the method builds a fresh filter with the lower-cased banwords, then leaves the ids, the page, the pass count and the raise flag exactly as `Session` |
| Blocklist.FirstNamed | blocklist.py:21-23 | the result is the first index whose list has the given name; it is None exactly when no list has that name |
| Blocklist.GetOrCreateBlockList | blocklist.py:18-40 | the method gives the uri of the first list called "block list"; when there is none, it sends a creation request for the account's repository, the collection `app.bsky.graph.list` and the record (name "block list", purpose `app.bsky.graph.defs#modlist`, description "Liste de blocage automatique"), and gives the uri the creation returns; a failing lookup creates nothing |
| Blocklist.Handles | blocklist.py:92 | the subject handle of each list item, in order |
| Blocklist.GetUsersFromList | blocklist.py:67-99 | the method gives the handles of the members of the first list with that name; it gives [] when a call raises, when no list has that name, or when that list's uri is empty |
| Blocklist.Unprefixed | blocklist.py:43-46 | the reference keeps only a suffix: for a url, the part after its last '/' (no '/' in it, a '/' before it unless it is all of the url); otherwise the part after its leading '@'s (only '@'s before it, and it does not start with '@') |
| Blocklist.HandleOf | blocklist.py:42-48 | the resolved handle has no whitespace at either end, and has no '/' when the reference starts with "http" |
| Blocklist.HandleOfProfileUrl | blocklist.py:43-44 | a profile url gives the handle after its last '/' |
| Blocklist.HandleOfMention | blocklist.py:45-48 | a mention loses all its leading '@'s, then the whitespace around it |
| Blocklist.UnprefixedPlain | blocklist.py:45-46 | proof helper: a reference that is no url and does not start with '@' is kept as it is before stripping |
| Blocklist.HandleOfSpacedMention | blocklist.py:45-48 | leading whitespace stops the '@' from being stripped: " @alice" resolves as "@alice" |

## Left out

- Selenium itself is not modelled: the browser, the XPath lookups, `login_to_bluesky`, the
  `time.sleep` calls and `driver.quit`. Each read a pass makes on an element is a fixed outcome
  field of `PostElement`. The driver calls of the session appear only through whether they
  raise: the `find_elements` of a pass (`lookupFails`) and each `pageYOffset` read (an `Option`).
- The `UnicodeEncodeError` that `bytes(post_text, "utf-8")` raises on a lone surrogate
  (main.py:26) is not modelled. Dafny strings hold Unicode scalar values only, so the model has
  no such text.
- Changes the renderer makes during a pass are not modelled, since concurrency is out of scope.
  Between checks the renderer only appends items (`Tick.loaded`); re-rendering or reordering of
  existing items is not modelled.
- Infinite polling is not modelled: `Monitor` runs over a finite sequence of checks. Stopping
  with `KeyboardInterrupt` is the end of that sequence.
- Printing is not modelled: the `print` calls, including the 25-character preview of a removed
  post. `_get_post_link` appears only through whether its lookup raises, since its value is only
  printed.
- MD5 is not modelled: the hex digest of the UTF-8 bytes is the parameter `md5Hex`.
- The `time.time_ns()` fallback of `_get_post_id` is left out, because hashing cannot raise a
  stale-element exception.
- Strings.Lower: lowers only ASCII and Latin-1 upper-case letters, not the rest of Unicode's
  case mapping.
- `_get_repost_and_like_count`, `_is_viral`, both `_is_in_blocking_list` definitions,
  `is_following_blocked_account` and raison_api.py are not part of this model. The filter's
  decision never depends on them.
- `BlueskyFilter.__init__` logs in to the ATProto client. The login is left out, and the
  constructor takes the page and the banwords.
- The `BANWORDS` list and the profile url of `main` are not modelled; `RunSession` takes the
  words as a parameter. `RubialesScenario` uses one of them.
- In blocklist.py, these are left out because they are plain network calls: `login`,
  `add_to_block_list`, the `resolve_handle` call that turns the handle into a DID, and the
  command-line `main`. `get_following_list`, which main.py imports (main.py:10) and calls
  (main.py:82, 91), is not part of this model. blocklist.py, as it stands, defines no
  `get_following_list`, so that import would fail before any filtering. This comes from reading
  the two files.
- The `createdAt` time stamp of the created list record is left out, because it comes from the
  clock.
- Pagination of `get_lists` and `get_list` is not modelled, because the code reads only the
  first page.
