# Atlas-Checker command core, modelled in Dafny

Atlas-Checker (`bilal.js`) is a Discord bot with two commands. Both read data through a second,
user-account session. `fullcheck <userID>` builds one card per guild in which the target user is a
member and shows the cards as pages behind Previous/Next buttons. `topma` ranks the guilds by how
many distinct non-bot members sit in their voice channels. It then draws the top ten as a
leaderboard image.

This project models the deterministic part of that handler. The clients' fetches are replaced by
an immutable snapshot of what they would return. The modules are:

- `Text`: ECMAScript string behaviour. This covers the `\s` white-space class, `trim`,
  `split(/\s+/)`, `join`, lower-casing and `${n}` for a count.
- `Command`: the bot/prefix filter, the argument vector, the allow-list gate and the command choice.
- `Lookup`: the fullcheck page loop with its role, flag, join-time and footer fields, and the empty
  result.
- `Pagination`: the delivered message as a class. It holds the page counter, the button row, the
  collector with its author/message filter, the deletion timer and the collector's time limit.
- `Voice`: the per-guild set of voice members, the qualifying guilds and the in-place stable sort
  by count. The sort is proved equal to a functional stable sort, and any stable sort is proved to
  give that same result. The module also keeps the first ten.
- `Leaderboard`: the layout plan. This is the canvas height and, for each row, its top edge, badge
  tier and label, truncated name, count text, icon or placeholder, and separator flag.
- `Bot`: one message in, the replies sent out.

The expiry of a delivered card works as follows in the code:

- Delivery arms the deletion timer (bilal.js:122) and then the collector, whose `time: 60000`
  limit is a second timer with the same delay (bilal.js:125). No click extends the collector's
  limit.
- Node.js runs the timer that is due first, and of two timers due at the same time the one armed
  first. So if no click is accepted, the deletion timer runs first, 60 seconds after delivery, and
  starts deleting the message. The collector's own time limit runs right after it, in the same
  pass of the timer loop. Its end handler clears the already-fired timer and starts an edit that
  races the deletion; a failure of that edit is swallowed (bilal.js:143). Either way the message
  ends up deleted.
- Each accepted click re-arms the deletion timer (bilal.js:111-122, 138). When the click handler
  finishes before the deadline, the re-armed timer is due after the collector's limit, so the
  collector ends first. Its end handler clears the timer and strips the buttons, and the card
  stays.
- `Pagination.Session.NextTimer` states this order. `Pagination.Session.FireDeleteTimer` and
  `Pagination.Session.EndCollector` each require that their timer runs next, and
  `Pagination.Unclicked` shows that a card nobody clicks is deleted 60 seconds after delivery.

## Model

| member | source | states |
|---|---|---|
| `Text.IsSpace` | bilal.js:53 | the ECMAScript white-space and line-terminator characters that `\s` and `trim` remove |
| `Text.Trim` | bilal.js:53 | the result is a slice of the input with only white space outside it on both sides, and neither of its ends is white space |
| `Text.TrimUnique` | bilal.js:53 | white space, then a string that neither starts nor ends with white space, then white space, trims to exactly that string |
| `Text.Split` | bilal.js:53 | (`SplitShape`) at least one field; no field holds white space; inner fields are non-empty; the first (last) field is empty iff the input is empty or starts (ends) with white space; which fields they are is fixed by `SplitRebuilds` and `SplitJoinRuns` |
| `Text.JoinRuns` | bilal.js:53 | (with `SplitJoinRuns` and `SplitRebuilds`) the fields with a separator between each two consecutive ones: the shape of any string that `split(/\s+/)` takes apart |
| `Text.SplitConsRun` | bilal.js:53 | a white-space-free word, a non-empty white-space run and a string that is empty or starts with a non-space character split into that word followed by the fields of the rest |
| `Text.SplitJoinRuns` | bilal.js:53 | white-space-free fields (only the first and last may be empty) separated by non-empty white-space runs split back into exactly those fields |
| `Text.SplitSeps` | bilal.js:53 | the white-space runs that `split(/\s+/)` removes, in order |
| `Text.SplitRebuilds` | bilal.js:53 | the removed separators are non-empty white-space runs, one fewer than the fields, and putting them back between the fields rebuilds the input |
| `Text.SplitTrimmedTokens` | bilal.js:53 | every field of a trimmed, non-empty string is non-empty |
| `Text.Lower` | bilal.js:54 | same length, each character lower-cased individually, no upper-case ASCII letter left, and no white space introduced |
| `Text.LowerIdempotent` | bilal.js:54 | lower-casing twice is the same as lower-casing once |
| `Text.Join` | bilal.js:79 | (with `JoinIsJoinRuns` and `JoinEmpty`) `Array.prototype.join`: the elements with the separator between each two consecutive ones |
| `Text.JoinIsJoinRuns` | bilal.js:79 | `join(sep)` is the run join with `sep` as every separator |
| `Text.JoinEmpty` | bilal.js:79 | a join with a non-empty separator is empty iff the list is empty or is one empty string |
| `Text.NatToString` | bilal.js:377 | a non-empty string of decimal digits with no leading zero |
| `Text.DecimalRoundTrip` | bilal.js:377 | reading the rendered digits back gives the number |
| `Text.NatToStringInjective` | bilal.js:90 | distinct numbers render as distinct strings |
| `Wrappers.OrElse` | bilal.js:86 | JavaScript's logical-or fallback on a nullable string: null or "" gives the fallback, any other string is kept |
| `Command.Args` | bilal.js:53 | at least one argument, none holding white space, all non-empty once there are two or more; the removed separators are white-space runs, and putting them back between the arguments rebuilds the trimmed text after the prefix |
| `Command.CommandWord` | bilal.js:54 | the first argument with each character lower-cased: same length, no white space, no upper-case ASCII letter |
| `Command.MissingSecondArg` | bilal.js:64 | `!args[1]`: there is no second argument or it is the empty string |
| `Command.RouteOf` | bilal.js:51-66 | ignored iff the author is a bot or the prefix is missing; permission denied iff otherwise the author is not on the allow-list (whatever the command); a dispatched command implies an allowed author; a fullcheck's id is a non-empty token |
| `Command.RouteOfWords` | bilal.js:53-66 | for prefix + white space + words separated by any non-empty white-space runs + white space, the route follows the lower-cased first word, and fullcheck takes the second word or falls back to the usage reply |
| `Command.TrimRuns` | bilal.js:53 | white space around words joined by white-space runs is trimmed off, leaving the join |
| `Command.RouteExample` | bilal.js:53-71 | `!fullcheck<TAB>123 ` with a trailing space runs fullcheck for `123` |
| `Lookup.YesNo` | bilal.js:80-82 | "Yes" iff the flag holds, "No" iff it does not |
| `Lookup.JoinedSeconds` | bilal.js:88 | the largest whole number of seconds not exceeding the millisecond timestamp (floor, also for negative values) |
| `Lookup.RoleText` | bilal.js:79 | "No roles" when the list is empty or one empty name, otherwise the names joined by ", " |
| `Lookup.Footer` | bilal.js:90 | "Page " followed by digits whose value is the page number, with no leading zero |
| `Lookup.MakePage` | bilal.js:79-91 | the card's title, guild name and id, user id, thumbnail or placeholder, nickname or "None", join time in whole seconds (floor), role text, Yes/No flags for owner, admin and booster, and the footer `Footer(n)` |
| `Lookup.SharedGuilds` | bilal.js:75-77 | no longer than the guild list, and only guilds whose member fetch succeeded |
| `Lookup.SharedGuildsAppend` | bilal.js:75 | filtering distributes over concatenation, so enumeration order is kept |
| `Lookup.SharedGuildsMembership` | bilal.js:76-77 | a guild is kept iff it is listed and its member fetch succeeded |
| `Lookup.SharedGuildsEmpty` | bilal.js:96-97 | no guild is kept iff every member fetch failed |
| `Lookup.BuildPages` | bilal.js:73-94 | one page per kept guild, in order; page i is that guild's card with number i+1, and its footer is `Footer(i+1)` |
| `Lookup.Fullcheck` | bilal.js:70-98 | user not found iff the user fetch failed; the "no shared servers" reply iff the user exists and every member fetch failed; otherwise at least one page, equal to the page loop's result |
| `Pagination.InitialRow` | bilal.js:101-104 | the first row (Previous disabled, Next disabled iff one page) equals the row rebuilt for page 0 |
| `Pagination.RowAt` | bilal.js:132-135 | the rebuilt row: Previous disabled iff on the first page, Next disabled iff on the last |
| `Pagination.Step` | bilal.js:129-130 | `page--` for Previous and `page++` for Next |
| `Pagination.StepInBounds` | bilal.js:129-135 | a click on an enabled button moves the page by exactly one and keeps it a valid index |
| `Pagination.SinglePageFrozen` | bilal.js:103 | with one page both buttons start disabled, so nothing can be clicked |
| `Pagination.Session.Deliver` | bilal.js:100-125 | page 0 shown with the initial row; the deletion timer and the collector end are both delivery + 60000, and the deletion timer was armed first |
| `Pagination.Session.Accepts` | bilal.js:124 | the collector's filter: the clicker is the command's author and the click is on this message |
| `Pagination.Session.NextTimer` | bilal.js:111-125 | of the two pending timers, the deletion timer runs next iff no accepted click re-armed it |
| `Pagination.Session.Click` | bilal.js:124-139 | accepted iff the collector runs, the author clicks this message and the button is enabled; then the page moves by one, shows `pages[page]` with the fresh row, and the timer is re-armed; anything else changes nothing; the invariant keeps the page in range |
| `Pagination.Session.EndCollector` | bilal.js:141-144 | runs first only after a click re-armed the timer; collecting stops, the timer is cleared, the buttons are stripped and the card stays |
| `Pagination.Session.FireDeleteTimer` | bilal.js:113-119 | runs first only if no click re-armed it, at delivery + 60000; the message is deleted and the collector stops |
| `Pagination.Unclicked` | bilal.js:111-125 | a card nobody clicks is deleted 60 seconds after delivery |
| `Voice.HumanIdsMeaning` | bilal.js:166-170 | an id is collected from a channel iff a non-bot occupant has it |
| `Voice.VoiceIdsMeaning` | bilal.js:161-171 | an id is in a guild's set iff a non-bot occupant of one of its GUILD_VOICE channels has it |
| `Voice.RepeatedOccupantsCountOnce` | bilal.js:168 | members already counted do not raise the count again |
| `Voice.HumanIds` | bilal.js:166-170 | (with `HumanIdsMeaning`) the distinct non-bot ids of a channel |
| `Voice.HumanIdsBound` | bilal.js:166-170 | a channel yields no more ids than it has occupants |
| `Voice.VoiceIds` | bilal.js:163-170 | (with `VoiceIdsMeaning`) the union of those ids over the guild's GUILD_VOICE channels |
| `Voice.EntryFor` | bilal.js:174-178 | the guild's name, its voice-member count, and its icon or the placeholder when the icon is missing or empty |
| `Voice.CountVoiceMembers` | bilal.js:161-171 | the nested loops build exactly the guild's voice-member set |
| `Voice.Qualifying` | bilal.js:173-179 | at most one entry per guild, and every entry's count is at least 1 |
| `Voice.QualifyingAppend` | bilal.js:160 | entries keep the guild enumeration order |
| `Voice.QualifyingSingle` | bilal.js:173-179 | a guild gets an entry iff its voice-member count is above 0, and the entry has that count and its icon or the placeholder |
| `Voice.CollectVoiceData` | bilal.js:158-180 | guildsData is exactly the qualifying entries |
| `Voice.Insert` | bilal.js:183 | inserting adds exactly one element |
| `Voice.SortDesc` | bilal.js:183 | the sort keeps the length |
| `Voice.InsertStep` | bilal.js:183 | one insertion pass leaves the prefix equal to inserting the next element into it |
| `Voice.SortByCount` | bilal.js:183 | the array afterwards equals the stable descending sort of its old contents |
| `Voice.SortDescSorted` | bilal.js:183 | the sort result's counts do not increase |
| `Voice.SortDescPermutation` | bilal.js:183 | the sort result is a permutation of its input |
| `Voice.SortDescStable` | bilal.js:183 | the entries with any given count keep their relative order (stability) |
| `Voice.SameClassesEqual` | bilal.js:183 | two count-ordered lists with the same entries of each count in the same order are equal |
| `Voice.SortDescUnique` | bilal.js:183 | every sorted list that keeps each count's order equals the modelled sort, so the result does not depend on which stable algorithm runs |
| `Voice.SortExample` | bilal.js:183 | counts 7, 7, 3, 9 come out as 9, 7, 7, 3, with the sevens in their original order |
| `Voice.Top10` | bilal.js:186 | a prefix of length min(10, n) |
| `Voice.TopTenAreHighest` | bilal.js:183-186 | the top ten of a sorted list are sorted, and no later entry has a higher count |
| `Voice.RankVoiceGuilds` | bilal.js:158-188 | the first ten of the stably sorted qualifying entries: at most ten, sorted by count, every count at least 1, and empty iff no guild qualifies |
| `Voice.RankedTopTen` | bilal.js:183-186 | the first ten of the sorted qualifying entries are sorted, each has a count of at least 1, there are at most ten, and there are none only when no guild qualifies |
| `Leaderboard.TierOf` | bilal.js:276-313 | rows 0, 1 and 2 get gold, silver and bronze, and a row gets the standard badge iff its index is 3 or more |
| `Leaderboard.CanvasHeight` | bilal.js:197 | header 180 + 100 per row + footer 50 |
| `Leaderboard.BadgeLabel` | bilal.js:320 | "#" followed by digits whose value is i+1, with no leading zero |
| `Leaderboard.DisplayName` | bilal.js:365-369 | names of up to 25 characters are kept; longer ones become 28 characters ending in "..."; the result never exceeds 28 and keeps the first 25 characters of the name |
| `Leaderboard.RowFrom` | bilal.js:261-390 | the row that iteration i draws at cursor y: top y, the tier and badge of i, truncated name, count in decimal, the icon iff it loads and the placeholder otherwise, and a separator iff a row follows |
| `Leaderboard.PlannedRow` | bilal.js:261-390 | the same row with its top at the closed form 180 + 100·i |
| `Leaderboard.PlanLayout` | bilal.js:258-392 | height is 180 + 100·n + 50; the loop's cursor starts at 180 and moves 100 per row, and row i is the planned row for entry i with top 180 + 100·i; rows are 100 apart and the last one ends at the footer; a separator follows row i iff i < n-1 |
| `Leaderboard.PlannedRowsStack` | bilal.js:197-390 | planned rows start at the header, sit 100 pixels apart, the last ends 50 pixels above the canvas bottom, and only the last has no separator |
| `Bot.HandleMessage` | bilal.js:51-190 | the replies for each route: nothing, the permission text, the usage text, "user not found", "not in any shared servers", or the first card with the initial row; for topma, the "generating" text followed by either "no servers found" or the image whose rows are the ranked top ten |
| `Bot.UsageText` | bilal.js:65 | the usage reply built from the prefix and the fullcheck command word |

## Left out

- Discord access: client construction, login, ready events and the process-level handlers
  (bilal.js:22-47) are not modelled. The user fetch, the member fetches and the guild and channel
  caches become fields of a snapshot. A failed fetch (`.catch(() => null)`) is a `None`.
- The top-level `try`/`catch` blocks and their generic error replies (bilal.js:146-148, 409-411)
  are not modelled. No modelled step can throw.
- Timers are not real time. Events arrive as method calls in the order the event loop would run
  them, with the clock value as a parameter. When the deletion timer and the collector's end fall
  on the same instant, the one armed first runs first; `Pagination.Session.NextTimer` states
  that order.
- Pagination.Session.Click: requires that no timer is overdue at the click's time. On the real
  event loop, a due timer fires before a later click is handled. The click's
  `await interaction.deferUpdate()` (bilal.js:128), its `await botMsg.edit(...)` (bilal.js:137) and
  the re-arm (bilal.js:138) are all treated as finishing when the click arrives. The model does
  not capture a deadline that passes while the handler waits. With no earlier click, the deletion
  timer and the collector's end then run first, and the card is deleted. With an earlier click,
  the end handler strips the buttons; the resumed edit then puts a fresh row back, and
  `resetTimeout()` arms a new deletion timer that deletes the card 60 seconds later.
- The model does not model two click handlers interleaving at `await interaction.deferUpdate()` or
  `await botMsg.edit(...)` (bilal.js:128, 137). It handles one click at a time.
- A failed deletion is logged (bilal.js:116-118) and a failed edit in the end handler is swallowed
  (bilal.js:143); neither is modelled. A failed edit after a click (bilal.js:137) rejects the
  click handler before `resetTimeout()` runs, so the page counter has moved but the old card stays
  and the timer is not re-armed. The model does not capture that case: every accepted click edits
  successfully.
- Canvas drawing (colours, gradients, shadows, arcs, fonts), the random starfield, PNG encoding and
  the attachment are not modelled. The layout plan records only what each row draws.
- `loadImage` is given as a function from URL to success. Success draws the icon and failure draws
  the placeholder circle.
- Embed timestamps (`setTimestamp`, `<t:…:F>` formatting), the thumbnail URL options, the bot
  avatar in the footer and the Unicode emoji field titles are not modelled. The card keeps the join
  time as whole seconds.
- Text.Lower: maps the ASCII letters only. `toLowerCase` also maps non-ASCII letters.
- Leaderboard.DisplayName: counts Dafny characters, where `.length` counts UTF-16 code units. A
  name with characters outside the Basic Multilingual Plane is measured differently. `substring`
  may also split a surrogate pair, which the model cannot show.
- Lookup.JoinedSeconds: takes the join time as an integer. A `null` timestamp gives `null / 1000`,
  which is 0, so the card shows `<t:0:F>`; an `undefined` one gives `NaN`. The model covers
  neither case.
