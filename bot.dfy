/** The bot itself: the module-level `state` dict and
    `_last_mentions_check` of the source become fields of `Bot`, and every
    call it makes to the platform, the language model or `save_state` is
    appended to `trace`. The answers of those calls are parameters. Each
    method is proved to do exactly what the function of the same name in
    `Watermarks` describes; the properties of those functions are proved in
    `MentionFacts` and `TrackedFacts`. */
module Agent {
  import opened Platform
  import opened Text
  import opened Roster
  import opened Backoff
  import opened Watermarks
  import opened MentionFacts
  import opened TrackedFacts

  class Bot {
    /** The bot's own user id, from `get_bot_user`. */
    const botUserId: Id
    /** `MENTIONS_MIN_DELAY` and `POLL_INTERVAL`, in whole seconds. */
    const mentionsMinDelay: int
    const pollInterval: int

    /** The persisted watermarks. */
    var state: State
    /** `_last_mentions_check`: 0 until the first mentions check. */
    var lastMentionsCheck: int
    /** The calls made so far, in order. */
    var trace: seq<Event>

    /** Start-up: the state is what `load_state` finds, no mentions check
        has happened, no call has been made. */
    constructor(botUserId: Id, mentionsMinDelay: int, pollInterval: int, stored: StoredState)
      ensures this.botUserId == botUserId
      ensures this.mentionsMinDelay == mentionsMinDelay && this.pollInterval == pollInterval
      ensures state == LoadState(stored) && lastMentionsCheck == 0 && trace == []
    {
      this.botUserId := botUserId;
      this.mentionsMinDelay := mentionsMinDelay;
      this.pollInterval := pollInterval;
      state := LoadState(stored);
      lastMentionsCheck := 0;
      trace := [];
    }

    /** `save_state(state)`. */
    method SaveState()
      modifies this
      ensures trace == old(trace) + [Save(state)]
      ensures state == old(state) && lastMentionsCheck == old(lastMentionsCheck)
    {
      trace := trace + [Save(state)];
    }

    /** The guarded reply: `generate_reply` (whose answer is cleaned), then
        `create_tweet` as a reply to `t`; an exception from either is
        swallowed. */
    method Reply(context: Context, author: string, t: Tweet, outcome: ReplyOutcome)
      modifies this
      ensures trace == old(trace) + ReplyEvents(context, author, t, outcome)
      ensures state == old(state) && lastMentionsCheck == old(lastMentionsCheck)
    {
      trace := trace + [Generate(context, author, t.text)];
      if outcome.Generated? {
        var text := Clean(outcome.raw);
        trace := trace + [Post(t.id, text, outcome.posted)];
      }
    }

    /** `bootstrap_mentions`. */
    method BootstrapMentions(fetch: Fetch) returns (failure: Option<Failure>)
      modifies this
      ensures var b := Watermarks.BootstrapMentions(old(state), fetch);
        state == b.state && trace == old(trace) + b.events && failure == b.failure
      ensures lastMentionsCheck == old(lastMentionsCheck)
    {
      failure := None;
      if state.mentionsSinceId.Some? {
        return;
      }
      trace := trace + [FetchMentions(None, MentionsBootstrapSize)];
      if fetch.Raised? {
        return Some(fetch.error);
      }
      if fetch.items == [] {
        return;
      }
      var latest := fetch.items[0];
      state := state.(mentionsSinceId := Some(latest.id));
      SaveState();
    }

    /** The body of `handle_mentions`' loop for one mention: skip the bot's
        own; otherwise look up the author (an exception escapes), attempt the
        reply, and move and save the watermark. `prev` is the run so far,
        whose calls follow `base` in the trace. */
    method HandleMention(tweet: Tweet, o: MentionOracle, ghost base: seq<Event>, ghost prev: Run)
      returns (failure: Option<Failure>)
      requires prev.failure.None? && state == prev.state && trace == base + prev.events
      modifies this
      ensures var r := Watermarks.HandleMention(prev, botUserId, tweet, o);
        state == r.state && trace == base + r.events && failure == r.failure
      ensures lastMentionsCheck == old(lastMentionsCheck)
    {
      if tweet.authorId == botUserId {
        return None;
      }
      trace := trace + [LookupUser(tweet.authorId)];
      if o.lookup.LookupRaised? {
        return Some(o.lookup.error);
      }
      var author := if o.lookup.Found? then o.lookup.username else "user";
      Reply(Mention, author, tweet, o.reply);
      state := state.(mentionsSinceId := Some(tweet.id));
      SaveState();
      failure := None;
    }

    /** `handle_mentions`, with `oracles` answering for the mentions in the
        order they are handled (oldest first). */
    method HandleMentions(fetch: Fetch, oracles: seq<MentionOracle>) returns (failure: Option<Failure>)
      requires fetch.Page? ==> |oracles| == |fetch.items|
      modifies this
      ensures var r := Watermarks.HandleMentions(old(state), botUserId, fetch, oracles);
        state == r.state && trace == old(trace) + r.events && failure == r.failure
      ensures lastMentionsCheck == old(lastMentionsCheck)
    {
      ghost var start := Run(state, [FetchMentions(state.mentionsSinceId, MentionsPageSize)], None);
      trace := trace + [FetchMentions(state.mentionsSinceId, MentionsPageSize)];
      if fetch.Raised? {
        return Some(fetch.error);
      }
      if fetch.items == [] {
        return None;
      }
      var mentions := Reverse(fetch.items);
      for i := 0 to |mentions|
        invariant var r := HandleMentionList(start, botUserId, mentions[..i], oracles[..i]);
          r.failure.None? && state == r.state && trace == old(trace) + r.events
        invariant lastMentionsCheck == old(lastMentionsCheck)
      {
        ghost var prev := HandleMentionList(start, botUserId, mentions[..i], oracles[..i]);
        assert mentions[..i + 1][..i] == mentions[..i] && oracles[..i + 1][..i] == oracles[..i];
        failure := HandleMention(mentions[i], oracles[i], old(trace), prev);
        if failure.Some? {
          MentionListStopsAt(start, botUserId, mentions, oracles, i + 1);
          return;
        }
      }
      assert mentions[..|mentions|] == mentions && oracles[..|oracles|] == oracles;
      failure := None;
    }

    /** The inner loop of `handle_tracked_accounts`: reply to each of
        `tweets` (oldest first), moving the account's watermark and saving
        after each. `asked` is the run so far, whose calls follow `base` in
        the trace. */
    method HandlePosts(account: Entry, tweets: seq<Tweet>, outcomes: seq<ReplyOutcome>,
                       ghost base: seq<Event>, ghost asked: Run)
      requires |outcomes| == |tweets| && state == asked.state && trace == base + asked.events
      modifies this
      ensures var r := HandlePostList(asked, account, tweets, outcomes);
        state == r.state && trace == base + r.events
      ensures lastMentionsCheck == old(lastMentionsCheck)
    {
      for k := 0 to |tweets|
        invariant var r := HandlePostList(asked, account, tweets[..k], outcomes[..k]);
          state == r.state && trace == base + r.events
        invariant lastMentionsCheck == old(lastMentionsCheck)
      {
        assert tweets[..k + 1][..k] == tweets[..k] && outcomes[..k + 1][..k] == outcomes[..k];
        var tweet := tweets[k];
        Reply(Tracked, account.username, tweet, outcomes[k]);
        state := state.(trackedSinceIds := state.trackedSinceIds[account.userId := tweet.id]);
        SaveState();
      }
      assert tweets[..|tweets|] == tweets && outcomes[..|outcomes|] == outcomes;
    }

    /** The body of `handle_tracked_accounts`' outer loop for one account:
        bootstrap it when it has no watermark yet, otherwise fetch its new
        posts and answer them oldest first. An exception from either fetch
        escapes. `prev` is the run so far, whose calls follow `base` in the
        trace. */
    method HandleAccount(account: Entry, o: AccountOracle, ghost base: seq<Event>, ghost prev: Run)
      returns (failure: Option<Failure>)
      requires Fits(o) && prev.failure.None? && state == prev.state && trace == base + prev.events
      modifies this
      ensures var r := Watermarks.HandleAccount(prev, account, o);
        state == r.state && trace == base + r.events && failure == r.failure
      ensures lastMentionsCheck == old(lastMentionsCheck)
    {
      var uid := account.userId;
      if uid !in state.trackedSinceIds {
        trace := trace + [FetchTweets(uid, None, TrackedBootstrapSize)];
        if o.fetch.Raised? {
          return Some(o.fetch.error);
        }
        if o.fetch.items != [] {
          var latest := o.fetch.items[0];
          state := state.(trackedSinceIds := state.trackedSinceIds[uid := latest.id]);
          SaveState();
        }
        return None;
      }
      var since := state.trackedSinceIds[uid];
      trace := trace + [FetchTweets(uid, Some(since), TrackedPageSize)];
      if o.fetch.Raised? {
        return Some(o.fetch.error);
      }
      if o.fetch.items != [] {
        var tweets := Reverse(o.fetch.items);
        ghost var asked := prev.(events := prev.events + [FetchTweets(uid, Some(since), TrackedPageSize)]);
        assert Watermarks.HandleAccount(prev, account, o) == HandlePostList(asked, account, tweets, o.replies);
        HandlePosts(account, tweets, o.replies, base, asked);
        PostListAdvances(asked, account, tweets, o.replies);
      }
      failure := None;
    }

    /** `handle_tracked_accounts` over the resolved roster, in its order,
        with `oracles[j]` answering for `roster[j]`. */
    method HandleTrackedAccounts(roster: seq<Entry>, oracles: seq<AccountOracle>) returns (failure: Option<Failure>)
      requires |oracles| == |roster| && AllFit(oracles)
      modifies this
      ensures var r := Watermarks.HandleTrackedAccounts(old(state), roster, oracles);
        state == r.state && trace == old(trace) + r.events && failure == r.failure
      ensures lastMentionsCheck == old(lastMentionsCheck)
    {
      ghost var start := Run(state, [], None);
      for j := 0 to |roster|
        invariant AllFit(oracles[..j])
        invariant var r := HandleAccountList(start, roster[..j], oracles[..j]);
          r.failure.None? && state == r.state && trace == old(trace) + r.events
        invariant lastMentionsCheck == old(lastMentionsCheck)
      {
        assert roster[..j + 1][..j] == roster[..j] && oracles[..j + 1][..j] == oracles[..j];
        assert AllFit(oracles[..j + 1]) by {
          assert forall i :: 0 <= i < j + 1 ==> oracles[..j + 1][i] == oracles[i];
        }
        ghost var prev := HandleAccountList(start, roster[..j], oracles[..j]);
        failure := HandleAccount(roster[j], oracles[j], old(trace), prev);
        if failure.Some? {
          AccountListStopsAt(start, roster, oracles, j + 1);
          return;
        }
      }
      assert roster[..|roster|] == roster && oracles[..|oracles|] == oracles;
      failure := None;
    }

    /** `poll_mentions_throttled` at time `now`. */
    method PollMentionsThrottled(now: int, fetch: Fetch, oracles: seq<MentionOracle>) returns (failure: Option<Failure>)
      requires fetch.Page? ==> |oracles| == |fetch.items|
      modifies this
      ensures var p := Watermarks.PollMentionsThrottled(old(state), old(lastMentionsCheck), now,
                                                        mentionsMinDelay, botUserId, fetch, oracles);
        && state == p.run.state && trace == old(trace) + p.run.events && failure == p.run.failure
        && lastMentionsCheck == p.lastCheck
    {
      var elapsed := now - lastMentionsCheck;
      if lastMentionsCheck != 0 && elapsed < mentionsMinDelay {
        return None;
      }
      lastMentionsCheck := now;
      failure := HandleMentions(fetch, oracles);
    }

    /** One pass of `main`'s loop: the throttled mentions poll, then the
        tracked accounts unless the poll raised; the result is how long the
        loop then sleeps (the rate-limit wait, computed at `resetNow`, after a
        too-many-requests error, the poll interval otherwise). */
    method Cycle(now: int, resetNow: int, fetch: Fetch, mentionOracles: seq<MentionOracle>,
                 roster: seq<Entry>, accountOracles: seq<AccountOracle>) returns (sleepFor: int)
      requires fetch.Page? ==> |mentionOracles| == |fetch.items|
      requires |accountOracles| == |roster| && AllFit(accountOracles)
      modifies this
      ensures var c := Watermarks.Cycle(old(state), old(lastMentionsCheck), now, mentionsMinDelay, botUserId,
                                        fetch, mentionOracles, roster, accountOracles);
        && state == c.run.state && trace == old(trace) + c.run.events && lastMentionsCheck == c.lastCheck
        && sleepFor == SleepAfter(c.run.failure, resetNow, pollInterval)
    {
      var failure := PollMentionsThrottled(now, fetch, mentionOracles);
      if failure.None? {
        failure := HandleTrackedAccounts(roster, accountOracles);
      }
      sleepFor := SleepAfter(failure, resetNow, pollInterval);
    }
  }
}
