/** The watermark state and what each polling operation of the bot does to
    it, as functions: `bootstrap_mentions`, `handle_mentions`,
    `handle_tracked_accounts`, `poll_mentions_throttled` and one pass of the
    main loop. Each takes the state before the call and the answers of the
    platform and the language model, and gives the state after it, the calls
    the bot made (its trace) and the exception that escaped, if any. The
    methods of `Agent.Bot` are proved to do exactly this. */
module Watermarks {
  import opened Platform
  import opened Text
  import opened Roster
  import opened Backoff

  /** `max_results` of the four fetches. */
  const MentionsPageSize := 50
  const MentionsBootstrapSize := 5
  const TrackedPageSize := 5
  const TrackedBootstrapSize := 1

  /** The persisted state: the mentions watermark (`None` until set) and one
      watermark per tracked account, keyed by the account's id. */
  datatype State = State(mentionsSinceId: Option<Id>, trackedSinceIds: map<Id, Id>)

  /** What `load_state` finds on disk. */
  datatype StoredState = NoFile | Unreadable | Stored(state: State)

  /** The state of a first run: no watermark at all. */
  function DefaultState(): State
  {
    State(None, map[])
  }

  /** `load_state`: the stored state, or the default one when the file is
      missing or cannot be read. */
  function LoadState(file: StoredState): (s: State)
    ensures file.Stored? ==> s == file.state
    ensures !file.Stored? ==> s.mentionsSinceId.None? && s.trackedSinceIds == map[]
  {
    if file.Stored? then file.state else DefaultState()
  }

  /** One call the bot makes to the outside world. `Save` is `save_state`
      with the state it writes (a failed write is swallowed, so the call is
      all that matters). `Post` is `create_tweet`, with whether it went
      through. */
  datatype Event =
    | FetchMentions(sinceId: Option<Id>, maxResults: nat)
    | FetchTweets(userId: Id, sinceId: Option<Id>, maxResults: nat)
    | LookupUser(userId: Id)
    | Generate(context: Context, author: string, post: string)
    | Post(inReplyTo: Id, text: string, delivered: bool)
    | Save(state: State)

  /** The outcome of (part of) one operation: the state now, the calls made
      so far, and the exception that ended it early, if one did. */
  datatype Run = Run(state: State, events: seq<Event>, failure: Option<Failure>)

  /** What the outside world answers while one mention is handled: the
      author lookup, then the reply attempt. */
  datatype MentionOracle = MentionOracle(lookup: Lookup, reply: ReplyOutcome)

  /** What the outside world answers while one tracked account is handled:
      the timeline fetch, then one reply attempt per fetched post, oldest
      first. */
  datatype AccountOracle = AccountOracle(fetch: Fetch, replies: seq<ReplyOutcome>)

  /** An account oracle has one reply outcome per fetched post. The shape
      is the same whether or not the account has a watermark yet, so a
      bootstrapped account's oracle carries outcomes too; they are never
      consulted, since bootstrapping replies to nothing. */
  predicate Fits(o: AccountOracle)
  {
    o.fetch.Page? ==> |o.replies| == |o.fetch.items|
  }

  predicate AllFit(oracles: seq<AccountOracle>)
  {
    forall i :: 0 <= i < |oracles| ==> Fits(oracles[i])
  }

  /** The calls of one reply attempt: ask the model; when it answered, post
      the cleaned text as a reply to `t`. Any exception in between is
      swallowed by the caller. */
  function ReplyEvents(context: Context, author: string, t: Tweet, outcome: ReplyOutcome): seq<Event>
  {
    [Generate(context, author, t.text)]
    + (if outcome.Generated? then [Post(t.id, Clean(outcome.raw), outcome.posted)] else [])
  }

  // ---------- bootstrap_mentions ----------

  /** `bootstrap_mentions`: with a watermark already set, nothing at all;
      otherwise fetch the latest mentions and, if there is one, take the
      newest as the watermark and save, without replying. */
  function BootstrapMentions(s: State, fetch: Fetch): Run
  {
    if s.mentionsSinceId.Some? then Run(s, [], None)
    else
      var asked := [FetchMentions(None, MentionsBootstrapSize)];
      match fetch
      case Raised(e) => Run(s, asked, Some(e))
      case Page(items) =>
        if items == [] then Run(s, asked, None)
        else
          var s' := s.(mentionsSinceId := Some(items[0].id));
          Run(s', asked + [Save(s')], None)
  }

  // ---------- handle_mentions ----------

  /** One pass of the loop body of `handle_mentions`. A mention by the bot
      itself is skipped outright. Otherwise the author is looked up (an
      exception there escapes), a reply is attempted (its failure is
      swallowed), and the watermark moves to this mention and is saved. */
  function HandleMention(r: Run, bot: Id, t: Tweet, o: MentionOracle): Run
  {
    if r.failure.Some? || t.authorId == bot then r
    else
      var looked := r.events + [LookupUser(t.authorId)];
      if o.lookup.LookupRaised? then Run(r.state, looked, Some(o.lookup.error))
      else
        var author := if o.lookup.Found? then o.lookup.username else "user";
        var s' := r.state.(mentionsSinceId := Some(t.id));
        Run(s', looked + ReplyEvents(Mention, author, t, o.reply) + [Save(s')], None)
  }

  /** The loop of `handle_mentions` over `items` (oldest first), with
      `oracles[k]` answering for `items[k]`. */
  function HandleMentionList(r: Run, bot: Id, items: seq<Tweet>, oracles: seq<MentionOracle>): Run
    requires |oracles| == |items|
  {
    if items == [] then r
    else
      var n := |items| - 1;
      HandleMention(HandleMentionList(r, bot, items[..n], oracles[..n]), bot, items[n], oracles[n])
  }

  /** `handle_mentions`: fetch up to 50 mentions newer than the watermark
      (no lower bound when it is unset), then handle them oldest first.
      `oracles` answer in that processing order. */
  function HandleMentions(s: State, bot: Id, fetch: Fetch, oracles: seq<MentionOracle>): Run
    requires fetch.Page? ==> |oracles| == |fetch.items|
  {
    var asked := Run(s, [FetchMentions(s.mentionsSinceId, MentionsPageSize)], None);
    match fetch
    case Raised(e) => asked.(failure := Some(e))
    case Page(items) =>
      if items == [] then asked
      else HandleMentionList(asked, bot, Reverse(items), oracles)
  }

  // ---------- handle_tracked_accounts ----------

  /** One pass of the inner loop of `handle_tracked_accounts`: attempt a
      reply (failure swallowed), then move this account's watermark to the
      post and save. */
  function HandlePost(r: Run, account: Entry, t: Tweet, outcome: ReplyOutcome): Run
  {
    var s' := r.state.(trackedSinceIds := r.state.trackedSinceIds[account.userId := t.id]);
    Run(s', r.events + ReplyEvents(Tracked, account.username, t, outcome) + [Save(s')], r.failure)
  }

  /** The inner loop over one account's new posts, oldest first. */
  function HandlePostList(r: Run, account: Entry, posts: seq<Tweet>, outcomes: seq<ReplyOutcome>): Run
    requires |outcomes| == |posts|
  {
    if posts == [] then r
    else
      var n := |posts| - 1;
      HandlePost(HandlePostList(r, account, posts[..n], outcomes[..n]), account, posts[n], outcomes[n])
  }

  /** One pass of the outer loop of `handle_tracked_accounts`. An account
      without a watermark is bootstrapped: its latest post becomes the
      watermark, with no reply. Otherwise up to 5 newer posts are fetched
      and answered oldest first. An exception from either fetch escapes. */
  function HandleAccount(r: Run, account: Entry, o: AccountOracle): Run
    requires Fits(o)
  {
    if r.failure.Some? then r
    else
      var uid := account.userId;
      if uid !in r.state.trackedSinceIds then
        var asked := r.(events := r.events + [FetchTweets(uid, None, TrackedBootstrapSize)]);
        match o.fetch
        case Raised(e) => asked.(failure := Some(e))
        case Page(items) =>
          if items == [] then asked
          else
            var s' := r.state.(trackedSinceIds := r.state.trackedSinceIds[uid := items[0].id]);
            asked.(state := s', events := asked.events + [Save(s')])
      else
        var since := r.state.trackedSinceIds[uid];
        var asked := r.(events := r.events + [FetchTweets(uid, Some(since), TrackedPageSize)]);
        match o.fetch
        case Raised(e) => asked.(failure := Some(e))
        case Page(items) =>
          if items == [] then asked
          else HandlePostList(asked, account, Reverse(items), o.replies)
  }

  /** The outer loop over the roster, in its order. */
  function HandleAccountList(r: Run, roster: seq<Entry>, oracles: seq<AccountOracle>): Run
    requires |oracles| == |roster| && AllFit(oracles)
  {
    if roster == [] then r
    else
      var n := |roster| - 1;
      HandleAccount(HandleAccountList(r, roster[..n], oracles[..n]), roster[n], oracles[n])
  }

  /** `handle_tracked_accounts`. */
  function HandleTrackedAccounts(s: State, roster: seq<Entry>, oracles: seq<AccountOracle>): Run
    requires |oracles| == |roster| && AllFit(oracles)
  {
    HandleAccountList(Run(s, [], None), roster, oracles)
  }

  // ---------- poll_mentions_throttled and the main loop ----------

  /** A run together with the time of the last mentions check. */
  datatype Poll = Poll(run: Run, lastCheck: int)

  /** `poll_mentions_throttled` at time `now`. */
  function PollMentionsThrottled(s: State, last: int, now: int, minDelay: int, bot: Id,
                                 fetch: Fetch, oracles: seq<MentionOracle>): Poll
    requires fetch.Page? ==> |oracles| == |fetch.items|
  {
    if MentionsDue(last, now, minDelay) then Poll(HandleMentions(s, bot, fetch, oracles), now)
    else Poll(Run(s, [], None), last)
  }

  /** The body of `main`'s loop up to the sleep: the throttled mentions poll,
      then, unless it raised, the tracked accounts. */
  function Cycle(s: State, last: int, now: int, minDelay: int, bot: Id,
                 fetch: Fetch, mentionOracles: seq<MentionOracle>,
                 roster: seq<Entry>, accountOracles: seq<AccountOracle>): Poll
    requires fetch.Page? ==> |mentionOracles| == |fetch.items|
    requires |accountOracles| == |roster| && AllFit(accountOracles)
  {
    var p := PollMentionsThrottled(s, last, now, minDelay, bot, fetch, mentionOracles);
    if p.run.failure.Some? then p
    else
      var t := HandleTrackedAccounts(p.run.state, roster, accountOracles);
      Poll(Run(t.state, p.run.events + t.events, t.failure), p.lastCheck)
  }

  // ---------- views of a trace ----------

  /** The posts replied to (every `create_tweet` call), in call order. */
  function Replies(events: seq<Event>): seq<Id>
  {
    if events == [] then []
    else
      var n := |events| - 1;
      Replies(events[..n]) + (if events[n].Post? then [events[n].inReplyTo] else [])
  }

  /** The states written by `save_state`, in call order. */
  function Saves(events: seq<Event>): seq<State>
  {
    if events == [] then []
    else
      var n := |events| - 1;
      Saves(events[..n]) + (if events[n].Save? then [events[n].state] else [])
  }

  /** The number of calls to the mentions endpoint. */
  function MentionFetches(events: seq<Event>): nat
  {
    if events == [] then 0
    else
      var n := |events| - 1;
      MentionFetches(events[..n]) + (if events[n].FetchMentions? then 1 else 0)
  }

  /** The number of language-model calls. */
  function Generations(events: seq<Event>): nat
  {
    if events == [] then 0
    else
      var n := |events| - 1;
      Generations(events[..n]) + (if events[n].Generate? then 1 else 0)
  }

  // ---------- what the operations should do, stated independently ----------

  /** The ids of the mentions not written by the bot, in order. */
  function Others(items: seq<Tweet>, bot: Id): seq<Id>
  {
    if items == [] then []
    else
      var n := |items| - 1;
      Others(items[..n], bot) + (if items[n].authorId != bot then [items[n].id] else [])
  }

  /** The ids of the mentions not written by the bot whose reply the model
      produced, in order. */
  function MentionAnswers(items: seq<Tweet>, oracles: seq<MentionOracle>, bot: Id): seq<Id>
    requires |oracles| == |items|
  {
    if items == [] then []
    else
      var n := |items| - 1;
      MentionAnswers(items[..n], oracles[..n], bot)
      + (if items[n].authorId != bot && oracles[n].reply.Generated? then [items[n].id] else [])
  }

  /** The ids of the posts whose reply the model produced, in order. */
  function PostAnswers(posts: seq<Tweet>, outcomes: seq<ReplyOutcome>): seq<Id>
    requires |outcomes| == |posts|
  {
    if posts == [] then []
    else
      var n := |posts| - 1;
      PostAnswers(posts[..n], outcomes[..n]) + (if outcomes[n].Generated? then [posts[n].id] else [])
  }

  /** The ids of the posts, in order. */
  function Ids(posts: seq<Tweet>): seq<Id>
  {
    if posts == [] then []
    else
      var n := |posts| - 1;
      Ids(posts[..n]) + [posts[n].id]
  }

  /** Whether the author lookup of every mention not by the bot returns
      (with a user or without). */
  predicate LookupsReturn(items: seq<Tweet>, oracles: seq<MentionOracle>, bot: Id)
    requires |oracles| == |items|
  {
    forall k :: 0 <= k < |items| && items[k].authorId != bot ==> !oracles[k].lookup.LookupRaised?
  }

  /** The states a run of `handle_mentions` saves: the state it started
      from, with the mentions watermark at each of `ids` in turn. */
  function MentionSaves(s: State, ids: seq<Id>): (saves: seq<State>)
    ensures |saves| == |ids|
    ensures forall k :: 0 <= k < |ids| ==> saves[k] == s.(mentionsSinceId := Some(ids[k]))
  {
    if ids == [] then []
    else
      var n := |ids| - 1;
      MentionSaves(s, ids[..n]) + [s.(mentionsSinceId := Some(ids[n]))]
  }

  /** The states the replies to one account save: the state it started
      from, with that account's watermark at each of `ids` in turn. */
  function TrackedSaves(s: State, uid: Id, ids: seq<Id>): (saves: seq<State>)
    ensures |saves| == |ids|
    ensures forall k :: 0 <= k < |ids| ==>
      saves[k] == s.(trackedSinceIds := s.trackedSinceIds[uid := ids[k]])
  {
    if ids == [] then []
    else
      var n := |ids| - 1;
      TrackedSaves(s, uid, ids[..n]) + [s.(trackedSinceIds := s.trackedSinceIds[uid := ids[n]])]
  }

  // ---------- the views distribute over concatenation ----------

  lemma {:induction false} ViewsAppend(a: seq<Event>, b: seq<Event>)
    ensures Replies(a + b) == Replies(a) + Replies(b)
    ensures Saves(a + b) == Saves(a) + Saves(b)
    ensures MentionFetches(a + b) == MentionFetches(a) + MentionFetches(b)
    ensures Generations(a + b) == Generations(a) + Generations(b)
  {
    if b == [] {
      assert a + b == a;
      assert Replies(a) + [] == Replies(a) && Saves(a) + [] == Saves(a);
    } else {
      var n := |b| - 1;
      var x := b[n];
      ViewsAppend(a, b[..n]);
      assert a + b == (a + b[..n]) + [x];
      ViewsPush(a + b[..n], x);
      assert b == b[..n] + [x];
      ViewsPush(b[..n], x);
      AppendAssoc(Replies(a), Replies(b[..n]), if x.Post? then [x.inReplyTo] else []);
      AppendAssoc(Saves(a), Saves(b[..n]), if x.Save? then [x.state] else []);
    }
  }

  /** Appending one event extends each view by what that event shows. */
  lemma ViewsPush(a: seq<Event>, x: Event)
    ensures Replies(a + [x]) == Replies(a) + (if x.Post? then [x.inReplyTo] else [])
    ensures Saves(a + [x]) == Saves(a) + (if x.Save? then [x.state] else [])
    ensures MentionFetches(a + [x]) == MentionFetches(a) + (if x.FetchMentions? then 1 else 0)
    ensures Generations(a + [x]) == Generations(a) + (if x.Generate? then 1 else 0)
  {
    assert (a + [x])[..|a|] == a;
  }

  /** The calls of one reply attempt: one model call, at most one post, no
      save, no mentions fetch. */
  lemma ReplyViews(context: Context, author: string, t: Tweet, outcome: ReplyOutcome)
    ensures var e := ReplyEvents(context, author, t, outcome);
      && Replies(e) == (if outcome.Generated? then [t.id] else [])
      && Saves(e) == [] && MentionFetches(e) == 0 && Generations(e) == 1
  {
    var g := Generate(context, author, t.text);
    ViewsPush([], g);
    assert [] + [g] == [g];
    if outcome.Generated? {
      ViewsPush([g], Post(t.id, Clean(outcome.raw), outcome.posted));
    } else {
      assert [g] + [] == [g];
    }
  }
}
