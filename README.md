# Agent Doge reply bot: watermarks and replies

A model of the decision core of `bot.py`, an X (Twitter) bot that answers
its mentions and the posts of a few tracked accounts with text from a
language model. The model covers:

- which posts get a reply;
- in what order they are answered;
- how the stored "last processed id" values (the watermarks) move and when
  they are saved;
- when the mentions endpoint may be called;
- how long the bot sleeps after a too-many-requests error.

The platform and the language model are not called. Their answers are
parameters:

- a fetch either raised or returned a page, newest first;
- an author lookup raised, found nobody, or found a username;
- a reply attempt failed, or produced a text whose post did or did not go
  through.

Every call the bot makes after start-up is recorded in a trace of events
(the two start-up calls are not: the bot's own user from `get_me` is a
parameter of `Bot`'s constructor, and the answer of `get_users` is the
input of `ResolveUserIds`):

- the mentions and timeline fetches;
- the author lookups;
- the language-model calls;
- the posts;
- each `save_state`, with the state it writes.

Modules:

- `Platform` (platform.dfy): ids, posts, users, fetch and lookup results. It
  also states the platform's ordering promise (`PlatformPage`: newest first,
  newer than the watermark sent). The bot never compares ids itself, so this
  appears only as a precondition of the ordering lemmas.
- `Text` (text.dfy): Python's `strip`, `split()`, `" ".join` and
  `split(",")`, and the reply clean-up of `generate_reply`.
- `Roster` (roster.dfy): the parsing of the `TRACKED_ACCOUNTS` setting, and
  `resolve_user_ids`.
- `Backoff` (backoff.dfy): the mentions throttle, Python's `int()` on the
  reset header, and the wait after a too-many-requests error.
- `Watermarks` (watermarks.dfy): the state, `load_state`, and each polling
  operation as a function. Each function takes the state before, the
  outside answers, and gives the state after, the trace, and the escaping
  exception. It also defines independent descriptions of the expected
  outcome: the ids that should be answered (`MentionAnswers`,
  `PostAnswers`) and the states that should be saved (`MentionSaves`,
  `TrackedSaves`).
- `MentionFacts` (mention_facts.dfy) and `TrackedFacts`
  (tracked_facts.dfy): what those functions do, proved against the
  descriptions above.
- `Agent` (bot.dfy): `class Bot`. It holds the module-level `state` and
  `_last_mentions_check` as fields, plus the trace. Its methods are the
  source's loops. Each method is proved to end in exactly the state, trace
  and exception that the matching `Watermarks` function gives.

The model keeps these behaviours of the code as written:

- An exception from the author lookup in `handle_mentions` is outside the
  `try`. It ends the whole poll, and it skips the tracked accounts of that
  cycle.
- An exception from one tracked account's fetch ends the walk over all
  tracked accounts. The remaining accounts are not isolated from it.
- The watermark advances past a mention or post whose reply failed.

## Model

| member | source | states |
|---|---|---|
| Text.Strip | bot.py:174 | `strip()` leaves no whitespace at either end |
| Text.Words | bot.py:175 | `split()` gives pieces that are non-empty and hold no whitespace; `WordsSplitAtSpace`, `WordsSkipLeading` and `WordAlone` fix which pieces on every string |
| Text.WordsSplitAtSpace | bot.py:175 | any non-empty run of whitespace separates words: the words of `a + sp + b` are those of `a` followed by those of `b` |
| Text.JoinWords | bot.py:175 | `" ".join`; a definition, whose inverse `WordsOfJoin` states and whose normal form `CleanSpec` states |
| Text.Clean | bot.py:174-176 | the cleaning of a model answer; a definition without a contract of its own, whose meaning `CleanSpec` and `CleanIdempotent` state |
| Text.CleanSpec | bot.py:174-176 | the posted reply has exactly the words of the model's answer, single spaces between them, none at the ends; it is empty exactly when the answer has no words |
| Text.CleanIdempotent | bot.py:174-176 | cleaning an already cleaned reply changes nothing |
| Text.SplitOn | bot.py:16 | `split(",")` gives at least one piece, none holding a comma; `JoinOfSplit` and `SplitOfJoin` show it is undone by joining with commas |
| Text.JoinOfSplit | bot.py:16 | joining the pieces of `split(",")` with commas gives the setting back |
| Text.SplitOfJoin | bot.py:16 | splitting comma-joined comma-free pieces gives the pieces back |
| Roster.AccountsAsWritten | bot.py:14-18 | the list comprehension as written (blank test before the '@' is dropped); a definition, whose consequence `AtOnlyEntryBecomesEmpty` shows |
| Roster.LStripAt | bot.py:15 | `lstrip("@")` shortens the name and leaves no leading '@'; `LStripAtSuffix` shows what it drops is a prefix of '@' signs |
| Roster.AccountName | bot.py:15 | `x.strip().lstrip("@")`; a definition, whose shape `AccountNameShape` and `HandleName` state |
| Roster.LStripAtSuffix | bot.py:15 | what `lstrip("@")` drops is a prefix of the name made only of '@' |
| Roster.AccountNameShape | bot.py:15 | a cleaned entry is empty, or starts with no '@' and ends in no whitespace |
| Roster.TrackedAccountsAsWritten | bot.py:14-18 | `TRACKED_ACCOUNTS` as written, over the comma split of the setting; a definition, see `AtOnlyEntryBecomesEmpty` and `AccountsAgree` |
| Roster.AtOnlyEntryBecomesEmpty | bot.py:14-18 | as written, the setting "@" yields the account list `[""]` and "a,@" yields `["a", ""]` |
| Roster.Accounts | bot.py:14-18 | with the blank test on the cleaned name, every listed name is non-empty, has no leading '@' and no trailing whitespace |
| Roster.TrackedAccounts | bot.py:14-18 | the corrected `TRACKED_ACCOUNTS` over the comma split of the setting; a definition, whose round trip `TrackedAccountsRoundTrip` states |
| Roster.AccountsAgree | bot.py:14-18 | the corrected parsing agrees with the written one whenever no non-blank entry cleans to the empty name (as an entry of '@' signs alone does) |
| Roster.TrackedAccountsRoundTrip | bot.py:14-18 | listing usernames comma-separated gives exactly those usernames back |
| Roster.Lower | bot.py:195 | the lowercased name has the same length and no upper-case letter; each upper-case letter becomes its own lower-case letter and every other character is kept |
| Roster.Find | bot.py:195 | a lookup in the dict succeeds exactly for its keys |
| Roster.Put | bot.py:195 | a dict assignment sets that key, leaves the others alone, and appends a new key at the end |
| Roster.Resolved | bot.py:192-195 | the dict built by one assignment per returned user, in response order; a definition, whose properties `ResolvedKeysDistinct`, `ResolvedKeys` and `ResolvedLastWins` state |
| Roster.ResolvedKeysDistinct | bot.py:192-195 | the resolved dict has distinct, lower-case keys |
| Roster.ResolvedKeys | bot.py:193-195 | the dict has a key for exactly the lowercased usernames returned |
| Roster.ResolvedLastWins | bot.py:194-195 | of two usernames equal up to case, the later user's id is kept |
| Roster.ResolveUserIds | bot.py:184-196 | no usernames gives the empty dict without a lookup; a lookup that raises passes its exception on with no dict; no users gives the empty dict; otherwise the dict built by one assignment per returned user, in order |
| Backoff.MentionsDue | bot.py:362-365 | the throttle test: a poll goes through unless a check happened and less than `MENTIONS_MIN_DELAY` has passed since; a definition, used by `ThrottleGate` |
| Backoff.FetchesSpaced | bot.py:362-371 | over any run of polls, the first poll fetches, and two fetches are never less than `MENTIONS_MIN_DELAY` apart (nor is the first after an earlier check) |
| Backoff.ParseInt | bot.py:399 | `int()` on a string: padding of Python whitespace other than U+001C to U+001F, an optional sign, then at most 4300 digits with single underscores between them; a definition, whose behaviour `ParseIntOfString`, `PaddedInt`, `RejectedHeaderWait` and `SeparatorPaddedHeader` state |
| Backoff.ParseIntOfString | bot.py:399 | `int()` reads back any integer written in decimal with at most 4300 digits, and refuses a longer one |
| Backoff.PaddedInt | bot.py:399 | padding `int()` skips, on either side of a header, does not change what it reads |
| Backoff.SeparatorPaddedHeader | bot.py:396-407 | a header padded with U+001C is refused by `int()`, so the wait is 300 seconds |
| Backoff.RateLimitWait | bot.py:394-407 | the wait after a too-many-requests error is at least 60 seconds; which headers give which wait is stated by `WaitUntilReset`, `WaitWithoutReset`, `RejectedHeaderWait` and `SeparatorPaddedHeader` |
| Backoff.WaitUntilReset | bot.py:396-407 | with a reset header written in decimal with at most 4300 digits the wait is `max(reset - now, 60)`, so never before the reset; a longer one gives 300 seconds |
| Backoff.WaitWithoutReset | bot.py:394-407 | with no header, or a header `int()` rejects such as "soon", the wait is 300 seconds |
| Backoff.RejectedHeaderWait | bot.py:396-407 | a header holding any character other than a digit, an underscore, a sign or padding `int()` skips (U+001C to U+001F included) is rejected by `int()` and gives the 300-second wait |
| Backoff.SleepAfter | bot.py:388-416 | after a too-many-requests error the loop sleeps at least 60 seconds, after anything else exactly `POLL_INTERVAL` |
| Platform.Reverse | bot.py:249 | `[::-1]` (also at bot.py:331) keeps the length and puts element `i` at `len - 1 - i`; `ReversedPageAscends` turns the platform's newest-first page into oldest first |
| Watermarks.ReplyEvents | bot.py:266-274 | the calls of one reply attempt (also at bot.py:339-347); a definition, whose effect `ReplyViews` states |
| Watermarks.ReplyViews | bot.py:339-347 | one reply attempt makes exactly one model call, replies to the post exactly when the model answered, and saves nothing |
| Watermarks.LoadState | bot.py:24-31 | a missing or unreadable file gives no mentions watermark and no tracked watermarks; a readable one gives what it holds |
| Watermarks.BootstrapMentions | bot.py:199-225 | `bootstrap_mentions` as a function of the fetch; a definition, whose properties `BootstrapNeverReplies` and `ColdStartSkipsBacklog` state |
| Watermarks.HandleMention | bot.py:252-278 | one pass of the mentions loop; a definition, whose effect `MentionStep` states |
| Watermarks.HandleMentionList | bot.py:252-278 | the mentions loop, oldest first; a definition, whose effect the `MentionList*` lemmas state |
| Watermarks.HandleMentions | bot.py:229-278 | `handle_mentions`; a definition, whose effect `HandleMentionsFetchesOnce`, `HandleMentionsCompletes` and `MentionsInOrder` state |
| Watermarks.HandlePost | bot.py:333-351 | one pass of the loop over an account's posts; a definition, whose effect `PostStep` states |
| Watermarks.HandlePostList | bot.py:333-351 | the loop over an account's posts, oldest first; a definition, whose effect `PostListAdvances` and `PostListAnswers` state |
| Watermarks.HandleAccount | bot.py:294-351 | one pass of the loop over the roster; a definition, whose effect `AccountBootstrap`, `AccountPollAdvances`, `AccountPollAnswers`, `AccountPollFails` and `AccountFrame` state |
| Watermarks.HandleAccountList | bot.py:294-351 | the loop over the roster, in its order; a definition, whose effect the `AccountList*` lemmas state |
| Watermarks.HandleTrackedAccounts | bot.py:281-351 | `handle_tracked_accounts`; a definition, whose effect `AccountListFrame`, `AccountListAfterFailure`, `AccountListStopsAt` and `TrackedInOrder` state |
| Watermarks.PollMentionsThrottled | bot.py:357-371 | `poll_mentions_throttled`; a definition, whose effect `ThrottleGate` and `PolledAtFetchTimes` state |
| Watermarks.Cycle | bot.py:388-391 | the body of `main`'s loop up to the sleep; a definition, whose effect `CycleSeparation` states |
| MentionFacts.MentionStep | bot.py:256-278 | a mention not by the bot whose author lookup returns moves the watermark to it and saves once, replied to only if the model answered |
| MentionFacts.MentionListAdvances | bot.py:251-278 | without a raising lookup, the watermark is saved at every mention not by the bot, in order (failed replies included), and ends at the last one or stays put; tracked watermarks untouched |
| MentionFacts.MentionListAnswers | bot.py:251-275 | without a raising lookup, the model is asked once per mention not by the bot, and exactly the answered mentions are replied to, oldest first |
| MentionFacts.MentionListFails | bot.py:257-262 | the loop raises exactly when the author lookup of some mention not by the bot raises |
| MentionFacts.MentionListAfterFailure | bot.py:261 | once the loop has raised, later mentions are not handled |
| MentionFacts.MentionListStopsAt | bot.py:261 | a loop that raised after the first mentions ends with that run |
| MentionFacts.MentionListStops | bot.py:257-262 | when the first raising lookup is at mention k, the state is what the mentions before k left, the lookup is the last call, and its exception escapes |
| MentionFacts.MentionListFetches | bot.py:251-278 | the loop never calls the mentions endpoint |
| MentionFacts.HandleMentionsFetchesOnce | bot.py:229-278 | `handle_mentions` calls the mentions endpoint exactly once |
| MentionFacts.HandleMentionsCompletes | bot.py:229-278 | on a page without a raising lookup, the answered mentions of the reversed page are replied to in that order, the watermark is saved at each mention not by the bot and ends at the last (an empty page leaves the state unchanged) |
| MentionFacts.OwnMentionsIgnored | bot.py:256-258 | mentions written by the bot cause no call and change nothing |
| MentionFacts.OwnPageIgnored | bot.py:244-258 | a page with no mention by anyone else, an empty page included, leaves the state unchanged and makes only the fetch |
| MentionFacts.ReversedPageAscends | bot.py:249 | the reversed page of the platform is in increasing id order, above the watermark |
| MentionFacts.OthersAscend | bot.py:249-258 | the handled mentions of an ascending list come in increasing id order, within its bounds |
| MentionFacts.AnswersAscend | bot.py:249-275 | likewise the answered mentions |
| MentionFacts.MentionsInOrder | bot.py:249-278 | given the platform's ordering, replies go out in increasing id order and only to mentions newer than the watermark; saved watermarks increase; the watermark never moves back |
| MentionFacts.BootstrapNeverReplies | bot.py:199-225 | `bootstrap_mentions` never replies nor asks the model; with a watermark set it does nothing; otherwise it seeds the watermark from the newest mention and saves once, or saves nothing on an empty page or an exception |
| MentionFacts.ColdStartSkipsBacklog | bot.py:199-278 | after a cold-start bootstrap, the next poll replies only to mentions newer than every mention that existed at bootstrap |
| MentionFacts.PolledAtFetchTimes | bot.py:357-371 | over any sequence of clock readings, repeated throttled polls call the mentions endpoint exactly at the times `FetchTimes` picks, so `FetchesSpaced` holds of the bot's own calls |
| MentionFacts.ThrottleGate | bot.py:357-371 | too soon after the last check nothing happens and the check time is kept; otherwise the check time becomes now and the mentions endpoint is called once; the first poll always goes through |
| TrackedFacts.PostStep | bot.py:339-351 | one post of a polled account saves once, and is replied to only if the model answered |
| TrackedFacts.PostListAdvances | bot.py:333-351 | the account's watermark is saved at each post in turn (failed replies included) and ends at the last; nothing else moves |
| TrackedFacts.PostListAnswers | bot.py:333-347 | the model is asked once per post, and exactly the answered posts are replied to, in list order |
| TrackedFacts.AccountBootstrap | bot.py:299-316 | an account without a watermark gets no reply and no model call; its watermark becomes its latest post and is saved, or stays absent when it has none |
| TrackedFacts.AccountPollAdvances | bot.py:318-351 | a polled account's watermark is saved at each new post, oldest first, and ends at the newest post of the page |
| TrackedFacts.AccountPollFails | bot.py:318-325 | when a polled account's timeline fetch raises, the exception escapes, the state is unchanged, and nothing is generated, replied to or saved |
| TrackedFacts.AccountPollAnswers | bot.py:318-347 | a polled account's answered posts are replied to oldest first |
| TrackedFacts.AccountFrame | bot.py:295-351 | handling one account changes no other account's entry nor the mentions watermark, and calls no mentions endpoint |
| TrackedFacts.AccountListFrame | bot.py:291-351 | `handle_tracked_accounts` changes the entries of listed accounts only |
| TrackedFacts.AccountListAfterFailure | bot.py:301-325 | once a fetch has raised, later accounts are not handled |
| TrackedFacts.AccountListStopsAt | bot.py:301-325 | a walk that raised after the first accounts ends with that run |
| TrackedFacts.PostAnswersAscend | bot.py:331-347 | the answered posts of an ascending list come in increasing id order, within its bounds |
| TrackedFacts.TrackedInOrder | bot.py:318-351 | given the platform's ordering, a polled account's posts are answered in increasing id order, only newer than its watermark, and the watermark does not move back |
| TrackedFacts.CycleSeparation | bot.py:388-391 | one pass of the loop calls the mentions endpoint exactly when the throttle allows; the tracked accounts run only if the mentions poll did not raise, and keep its mentions watermark |
| TrackedFacts.TrackedBootstrapWalkthrough | bot.py:299-316 | on a first run, an account (user 7) whose latest post is 100 gets watermark 100 and no reply |
| TrackedFacts.TrackedPollWalkthrough | bot.py:318-351 | whatever its name, the post text and the answer, an account at watermark 100 whose new post 101 is answered gets exactly that reply and watermark 101 |
| Agent.Bot.constructor | bot.py:42 | the bot starts from the loaded state, with no mentions check yet |
| Agent.Bot.SaveState | bot.py:34-39 | records a save of the current state |
| Agent.Bot.Reply | bot.py:266-274 | asks the model, then posts the cleaned answer if there is one |
| Agent.Bot.BootstrapMentions | bot.py:199-225 | ends in exactly the state, calls and exception of `Watermarks.BootstrapMentions` |
| Agent.Bot.HandleMention | bot.py:252-278 | one pass of the mentions loop: ends as `Watermarks.HandleMention` |
| Agent.Bot.HandleMentions | bot.py:229-278 | ends as `Watermarks.HandleMentions` |
| Agent.Bot.HandlePosts | bot.py:333-351 | the inner loop over one account's posts: ends as `Watermarks.HandlePostList` |
| Agent.Bot.HandleAccount | bot.py:294-351 | one pass of the outer loop: ends as `Watermarks.HandleAccount` |
| Agent.Bot.HandleTrackedAccounts | bot.py:281-351 | ends as `Watermarks.HandleTrackedAccounts` |
| Agent.Bot.PollMentionsThrottled | bot.py:357-371 | ends as `Watermarks.PollMentionsThrottled`, check time included |
| Agent.Bot.Cycle | bot.py:388-416 | ends as `Watermarks.Cycle` and returns the sleep `Backoff.SleepAfter` gives |

## Left out

- The tweepy and OpenAI clients (`client.*`, `openai_client`), and the prompt text of `generate_reply`: their answers are parameters.
- `get_bot_user` (bot.py:179-181): its answer is a parameter of `Bot`'s constructor; an exception from `get_me` is not modelled.
- Reading and writing `state.json`: `save_state` is a trace event carrying the state written, and `load_state` is its outcome (no file, unreadable, or a state).
- A state file that parses as JSON but lacks a key or holds `""` or `null` as a watermark: the model's state always has both keys and numeric watermarks.
- `time.time()`, `time.sleep`, and the endless `while True` loop: clock readings are integer parameters, and one pass of the loop is modelled (`Cycle`). The start of `main` is `Bot`'s constructor, `ResolveUserIds` and `BootstrapMentions`.
- `print` logging.
- Backoff.MentionsDue: compares integer clock readings where the source compares `time.time()` floats.
- Roster.Lower: only ASCII letters are lowercased. Python's `str.lower()` also maps other scripts.
- Backoff.ParseInt: only ASCII digits are accepted. Python's `int()` also takes other Unicode decimal digits.
- Backoff.ParseInt: the digit cap is fixed at 4300, Python's default since 3.11. The interpreter setting that changes it (`PYTHONINTMAXSTRDIGITS`, `sys.set_int_max_str_digits`) is not modelled, and neither are older interpreters, which have no cap.
- MentionFacts.HandleMentionsCompletes: stated for pages where no author lookup raises. The raising case is covered by `MentionListFails` and `MentionListStops`.
- MentionFacts.MentionsInOrder: stated for pages where no author lookup raises. A raised run stops after a prefix, as `MentionListStops` shows.
- The exception types are only "too many requests" or "other". Tweepy's other classes are all handled alike by the source.

## Findings

| source | as written | input that shows it | evidently intended | confidence | as-written member | corrected member |
|---|---|---|---|---|---|---|
| bot.py:14-18 | the blank test `if x.strip()` runs before `lstrip("@")`, so an entry of only '@' survives and becomes the empty username | `TRACKED_ACCOUNTS="a,@"` gives `["a", ""]` | drop entries whose cleaned name is empty | not executed | Roster.AtOnlyEntryBecomesEmpty | Roster.Accounts |
