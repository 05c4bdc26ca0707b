# uptime-bot, modelled in Dafny

A Dafny model of the core of a Discord bot that measures how long each user
stays in voice channels. The bot keeps three pieces of in-memory state:

- `USERS_ACTIVE`, the open voice sessions;
- `USERS_UPTIME_CACHE`, per-user totals with a sliding six-hour expiry;
- `UPTIME_RANK_COUNTDOWN`, one global twelve-hour cooldown for the top-ten ranking.

Completed sessions go to a MongoDB `report` collection. The model turns each
handler into a pure transition function over immutable state. User ids are
abstract keys, timestamps are integer milliseconds, and the collection is a
list of events.

| file | module | what it models |
|---|---|---|
| `values.dfy` | `Values` | `undefined` fields (`Option`) and JavaScript numbers that can be NaN (`Number`); NaN-absorbing addition; the store's sort order, where NaN ranks below every number |
| `duration.dfy` | `Duration` | `timestampToObject`, over whole seconds and over real seconds as written |
| `events.dfy` | `Events` | the `report` collection; one user's spans; their `reduce` sum |
| `sessions.dfy` | `Sessions` | the connect and disconnect branches over `USERS_ACTIVE` |
| `uptime_cache.dfy` | `UptimeCache` | the read-through with sliding expiry; the bump when a session closes; the consistency invariant between cache and store |
| `leaderboard.dfy` | `Leaderboard` | the `$group`/`$sort`/`$limit` pipeline and its emoji labels; the cooldown gate |
| `bot.dfy` | `Bot` | the three handlers over the whole state; runs of whole sessions |

Behaviour of the code that a reader might not expect, kept as written:

- A second connect overwrites `begin`; the session restarts rather than being ignored.
- A disconnect only checks that the user has an entry. After an earlier
  disconnect the entry is `{}`. The event then gets an `undefined` begin and a
  NaN span, and the NaN spreads into any cache entry of that user.
- The cooldown starts at `0`, not at the current time. A request computes
  only when `countdown < now`, strictly, so a request at exactly `countdown`
  is blocked.
- A blocked request reports `now + (now - countdown)`, not `countdown` (see Findings).
- The cache bump on disconnect happens whether or not the event write
  succeeds. A failed write therefore leaves the cache out of step with the
  store (`Bot.FailedInsertDesyncs`). When the clock moved forward over the
  session, the cache is ahead of the store (`Bot.FailedInsertRunsAhead`).

Modelling choices:

- Store reads and writes become a list of events plus a success flag per call
  (`insertOk`, `readOk`, `buildOk`). `buildOk` covers both a failed aggregate
  and the username lookup throwing while the reply is built. Either way no
  cooldown is started.
- The uptime query keys the cache by the mentioned user's id. Sessions and
  cache bumps key by the user's discriminator. The model uses one key type
  for both, so it does not show that the two key spaces never meet. As
  written, the consequences are these:
  - `find({userid: taggedUser.id})` matches none of the events, which are
    stored under discriminators. A cache entry is only created by a query,
    under an id, so the bump on disconnect never reaches one. Every uptime
    answer is therefore 0.
  - The rank reply looks up `bot.users.get(discriminator)` (index.js:136).
    That yields `undefined` for any grouped row, so `user.username`
    (index.js:140) throws. A rank over a non-empty store therefore never
    succeeds and never starts the cooldown.
  - `Bot.OneHourOneMinuteOneSecond` and `Leaderboard.CooldownWindow` hold
    only with the two key spaces merged, as the model does.
- Totals are exact reals: `span / 1000` is exact, and NaN is a separate value.

## Model

| member | source | states |
|---|---|---|
| `Duration.Breakdown` | index.js:31-38 | a whole number of seconds splits into days, hours < 24, minutes < 60 and seconds < 60 that recompose exactly to it |
| `Duration.BreakdownOfRecompose` | index.js:31-38 | the split is the only one with every unit in range: recomposing a normal duration and splitting it again gives it back |
| `Duration.BreakdownSeconds` | index.js:31-38 | the as-written floors of quotients and JavaScript remainders of a non-negative real number of seconds give exactly the split of its floor |
| `Events.SumIsNaN` | index.js:96 | `Sum`, the `reduce` of spans from 0, is NaN exactly when some span is NaN |
| `Events.UserSpansAreTheUsers` | index.js:68-83 | every span that `UserSpans` (the `find` by user) returns is the span of one of that user's events |
| `Events.PositionsAreTheUsers` | index.js:68-75 | the positions listed for a user are increasing, are all that user's events, and include every one of them |
| `Events.UserSpansFindsEveryEvent` | index.js:68-83 | `find` is complete: `UserSpans` returns the spans of exactly the user's events, each once, in store order |
| `Events.TotalMillisAppend` | index.js:213 | inserting an event adds its span to its own user's total and leaves every other user's total unchanged |
| `Events.TotalMillisConcat` | index.js:96 | a user's summed span over two stores end to end is the sum of the two, NaN included |
| `Sessions.Connect` | index.js:191-196 | a connect sets the user's entry to `begin = now`, overwriting any prior entry, and leaves every other entry unchanged |
| `Sessions.SpanOf` | index.js:205 | the span is NaN exactly when `begin` is undefined, and otherwise `begin + span = now` |
| `Sessions.Disconnect` | index.js:199-223 | with no entry: no event and an unchanged map; with one: an event `{userid, begin, end = now, span}`, the key kept with an emptied entry, all other entries unchanged |
| `Sessions.ConnectThenDisconnect` | index.js:196-211 | a connect at t0 followed by a disconnect at t1 records exactly the event with begin t0, end t1 and span t1 - t0 |
| `Sessions.DuplicateConnectRestarts` | index.js:196 | after two connects the span counts from the second |
| `Sessions.SecondDisconnectIsNaN` | index.js:204-211 | a second disconnect without a connect writes an event with undefined begin and NaN span instead of doing nothing |
| `UptimeCache.Query` | index.js:88-99 | a hit happens iff the entry exists and `exp > now`; a hit returns the stored total without a store read; a miss reads the store and returns the summed spans / 1000; any answer leaves the entry at that total with `exp = now + 6 h`; a failed read leaves the cache unchanged |
| `UptimeCache.AddSpan` | index.js:225-228 | an existing entry, expired or not, gains `span / 1000` and gets `exp = now + 6 h`; no entry is ever created; other entries are unchanged |
| `UptimeCache.QueryAgreesWithStore` | index.js:88-99 | if every entry holds its user's stored total, every answer, hit or miss, is the stored total, and the cache stays that way |
| `UptimeCache.AddSpanKeepsConsistent` | index.js:225-228 | inserting a session's event and bumping the cache by its span keeps every entry equal to its user's stored total |
| `UptimeCache.RepeatedQueryIsStable` | index.js:88-91 | two reads less than 6 h apart with nothing in between return the same total, and the second does not read the store |
| `UptimeCache.QueryAfterAddSpan` | index.js:225-228 | a read right after a bump is a hit returning the previous total plus the bumped span in seconds |
| `UptimeCache.ExpiredQueryRefetches` | index.js:93-99 | once an entry's `exp <= now`, a read goes to the store and returns the stored total whatever the stale entry held |
| `UptimeCache.FreshQueryIgnoresStore` | index.js:88-91 | a hit's answer and new cache do not depend on the store or on whether reading it would succeed |
| `Leaderboard.Users` | index.js:115 | the group keys are exactly the users with events, each once |
| `Leaderboard.Group` | index.js:115 | one group per user, holding that user's summed span |
| `Leaderboard.Insert` | index.js:116 | inserting into a descending list keeps it descending, is one longer, holds exactly `r` and the old rows, and keeps users distinct |
| `Leaderboard.InsertPermutes` | index.js:116 | insertion adds exactly one copy of the row: the result's multiset is the old one plus that row |
| `Leaderboard.SortDesc` | index.js:116 | the sort returns the same rows in non-increasing order of total, with NaN last |
| `Leaderboard.SortDescPermutes` | index.js:116 | the sort is a permutation: every row keeps its multiplicity |
| `Leaderboard.AggregateIsTopBoard` | index.js:115-117 | `Aggregate`, the pipeline, returns at most 10 rows, one per user, each with that user's summed span, non-increasing; every user left out ranks no higher than every listed one and is left out only when 10 rows are listed |
| `Leaderboard.EmojisDistinct` | index.js:24 | the eleven emoji names are pairwise different |
| `Leaderboard.Labels` | index.js:135-140 | row `i` of a board of at most 10 rows gets `DISCORD_EMOJIS[i + 1]`, so the labels are `:one:` onwards and the index stays inside the 11 emojis; labels are pairwise distinct and none is `:zero:` |
| `Leaderboard.AggregateIsLabelled` | index.js:115-140 | every board the pipeline returns has at most 10 rows, and its rows are labelled `:one:` to the n-th emoji in order |
| `Leaderboard.Request` | index.js:110-171 | computes iff `countdown < now`; a success returns a top-ten board and sets `countdown = now + 12 h`; a failure or a block leaves it unchanged; a block reports `now + (now - countdown)` (`NextRequestTimeAsWritten`), which is never after `now` |
| `Leaderboard.FirstRequestComputes` | index.js:15 | the initial countdown of 0 lets the first request at a positive time compute |
| `Leaderboard.CooldownWindow` | index.js:112-164 | after a success at t0, a request at t1 >= t0 is blocked iff t1 <= t0 + 12 h, and a blocked one keeps the cooldown |
| `Leaderboard.RetryTimeAsWrittenIsPast` | index.js:171 | two hours into a twelve-hour cooldown the reported retry time is ten hours before `now`, while the cooldown's end is ten hours after it |
| `Leaderboard.NextRequestTime` | index.js:171 | the corrected retry time is not before `now`, a request at it is still blocked, and a request one millisecond later computes |
| `Bot.Init` | index.js:12-15 | start-up has no open sessions and an empty cache, which is consistent with any stored history, and countdown 0 |
| `Bot.VoiceStateUpdate` | index.js:184-231 | joining from no channel connects; leaving to no channel disconnects: it writes the event only if the insert succeeds and bumps the cache either way; a move between channels and a disconnect without an entry change nothing |
| `Bot.UptimeCommand` | index.js:85-107 | the answer is the cache read-through: a fresh entry's total, else the stored total, else a read failure when the read fails; the query changes only the cache, and a failed read changes nothing |
| `Bot.RankCommand` | index.js:109-174 | the outcome is the cooldown gate's: blocked iff `countdown >= now`, reporting `now + (now - countdown)`; a board iff the gate is open and the build succeeds, which is a top-ten board of the store and alone sets `countdown = now + 12 h`; otherwise the state is unchanged |
| `Bot.Display` | index.js:101 | a non-negative finite total is shown as a normal duration recomposing to its whole seconds; NaN and negative totals have no breakdown |
| `Bot.HandlersKeepConsistent` | index.js:184-231 | while event writes succeed, every handler keeps each cache entry equal to its user's stored total, so every uptime answer is the stored total |
| `Bot.FailedInsertDesyncs` | index.js:213-228 | a failed insert of a non-empty session still bumps the cache, leaving it out of step with the store |
| `Bot.FailedInsertRunsAhead` | index.js:213-228 | when the session ended after it began, a failed insert leaves the cached total strictly above the stored one |
| `Bot.SessionEventsAreTheSessions` | index.js:205-211 | the `k`-th event a run writes records the `k`-th session's begin, end and length |
| `Bot.RunSessionsAppends` | index.js:184-231 | complete connect/disconnect pairs with successful writes append exactly one event per session, in order, to the store |
| `Bot.SessionEventsTotal` | index.js:205-213 | the events of a user's complete sessions sum to exactly the sessions' summed (end - begin) |
| `Bot.SessionEventsAddElapsed` | index.js:205-213 | appending the events of complete sessions adds exactly the sum of their (end - begin) to the user's stored total |
| `Bot.RunSessionsAddsElapsed` | index.js:184-231 | complete connect/disconnect pairs add exactly the sum of (end - begin) to the user's stored total |
| `Bot.RunSessionsKeepsOthers` | index.js:184-231 | one user's connect/disconnect pairs leave every other user's stored total unchanged |
| `Bot.OneHourOneMinuteOneSecond` | index.js:96-103 | one session from 0 to 3 661 000 ms is shown as 0 days, 1 hour, 1 minute and 1 second |

## Left out

- The Discord client: login, event wiring, replies, mention parsing, the
  `help` and `!sacrifice` commands, and embed building with its random colour.
  These are transport and presentation.
- The MongoDB connection and the `find`, `aggregate` and `insertOne` calls as
  I/O. They become the event list and a success flag per call.
- The fire-and-forget insert and its logging. An insert is modelled as done,
  or not done, before the next handler runs. Asynchronous interleaving of
  handlers is not modelled.
- IEEE-754 rounding of `/ 1000` and of `Math.floor`, and infinities. Numbers
  are exact reals or NaN.
- The text of replies, including the formatted retry date and the "NaN days"
  a NaN total would print.
- `bot.users.get`. The username lookup is a foreign call; its failure is
  folded into `buildOk`.
- The separate id and discriminator key spaces. One abstract key type stands
  for both.
- Bot.Display: negative totals are not broken down. As written,
  `timestampToObject` splits a negative total into negative fields: -5
  gives -1 days, -1 hours, -1 minutes and -5 seconds. Such a total arises
  when the wall clock steps back during a session. The model shows only
  non-negative totals, the case the reply is designed for.
- Duration.BreakdownSeconds: requires a non-negative total, for the same
  reason.

## Findings

| source | as written | input that shows it | evidently intended | confidence | as-written member | corrected member |
|---|---|---|---|---|---|---|
| index.js:171 | a blocked rank request reports `now + (now - countdown)` as the time a new rank may be requested | countdown = 12 h, now = 2 h: the reply names -8 h, ten hours before now | the cooldown's end, `countdown`, after which a request computes | high; not executed | `Leaderboard.RetryTimeAsWrittenIsPast` | `Leaderboard.NextRequestTime` |

`Leaderboard.Request` keeps the as-written value, since that is what the bot
reports. The retry time appears only in the reply text, so no other part of
the model depends on it.
