/** What `handle_tracked_accounts` and one pass of the main loop do: each
    account is bootstrapped without a reply or polled and answered oldest
    first, and only that account's watermark moves. */
module TrackedFacts {
  import opened Platform
  import opened Text
  import opened Roster
  import opened Backoff
  import opened Watermarks
  import opened MentionFacts

  /** One post of a polled account: the state the post leads to is saved,
      whether or not the reply went out. */
  lemma {:induction false} PostStep(r: Run, account: Entry, t: Tweet, outcome: ReplyOutcome)
    ensures var r' := HandlePost(r, account, t, outcome);
      && Replies(r'.events) == Replies(r.events) + (if outcome.Generated? then [t.id] else [])
      && Saves(r'.events) == Saves(r.events) + [r'.state]
      && MentionFetches(r'.events) == MentionFetches(r.events)
      && Generations(r'.events) == Generations(r.events) + 1
  {
    var s' := r.state.(trackedSinceIds := r.state.trackedSinceIds[account.userId := t.id]);
    HandledPost(r, account, t, outcome);
    ReplySaveViews(r.events, ReplyEvents(Tracked, account.username, t, outcome), s');
    ReplyViews(Tracked, account.username, t, outcome);
    assert Saves(r.events) + [] == Saves(r.events);
    assert Replies(r.events) + [] == Replies(r.events);
  }

  /** The calls after one handled post, spelled out. */
  lemma HandledPost(r: Run, account: Entry, t: Tweet, outcome: ReplyOutcome)
    ensures HandlePost(r, account, t, outcome).events == r.events
      + ReplyEvents(Tracked, account.username, t, outcome)
      + [Save(r.state.(trackedSinceIds := r.state.trackedSinceIds[account.userId := t.id]))]
  {
  }

  /** The views of some calls `b`, then a save. */
  lemma ReplySaveViews(a: seq<Event>, b: seq<Event>, s: State)
    ensures var e := a + b + [Save(s)];
      && Replies(e) == Replies(a) + Replies(b)
      && Saves(e) == Saves(a) + Saves(b) + [s]
      && MentionFetches(e) == MentionFetches(a) + MentionFetches(b)
      && Generations(e) == Generations(a) + Generations(b)
  {
    ViewsAppend(a, b);
    ViewsPush(a + b, Save(s));
  }

  /** The inner loop moves the account's watermark to each post in turn,
      saving after each (a failed reply included), and ends at the last
      post; the other watermarks stay as they were. */
  lemma {:induction false} PostListAdvances(r: Run, account: Entry, posts: seq<Tweet>, outcomes: seq<ReplyOutcome>)
    requires |outcomes| == |posts|
    ensures var r' := HandlePostList(r, account, posts, outcomes);
      var uid := account.userId;
      && r'.failure == r.failure
      && r'.state.mentionsSinceId == r.state.mentionsSinceId
      && r'.state.trackedSinceIds == (if posts == [] then r.state.trackedSinceIds
                                      else r.state.trackedSinceIds[uid := posts[|posts| - 1].id])
      && Saves(r'.events) == Saves(r.events) + TrackedSaves(r.state, uid, Ids(posts))
      && MentionFetches(r'.events) == MentionFetches(r.events)
  {
    if posts != [] {
      var n := |posts| - 1;
      var uid := account.userId;
      PostListAdvances(r, account, posts[..n], outcomes[..n]);
      var prev := HandlePostList(r, account, posts[..n], outcomes[..n]);
      assert HandlePostList(r, account, posts, outcomes) == HandlePost(prev, account, posts[n], outcomes[n]);
      PostStep(prev, account, posts[n], outcomes[n]);
      var ids := Ids(posts);
      assert ids == Ids(posts[..n]) + [posts[n].id];
      assert ids[..|ids| - 1] == Ids(posts[..n]);
      var moved := r.state.(trackedSinceIds := r.state.trackedSinceIds[uid := posts[n].id]);
      assert prev.state.(trackedSinceIds := prev.state.trackedSinceIds[uid := posts[n].id]) == moved;
      var earlier := TrackedSaves(r.state, uid, Ids(posts[..n]));
      assert TrackedSaves(r.state, uid, ids) == earlier + [moved];
      AppendAssoc(Saves(r.events), earlier, [moved]);
    } else {
      assert Saves(r.events) + TrackedSaves(r.state, account.userId, Ids(posts)) == Saves(r.events);
    }
  }

  /** The inner loop asks the model once per post and replies, in list
      order, to exactly the posts whose reply the model produced. */
  lemma {:induction false} PostListAnswers(r: Run, account: Entry, posts: seq<Tweet>, outcomes: seq<ReplyOutcome>)
    requires |outcomes| == |posts|
    ensures var r' := HandlePostList(r, account, posts, outcomes);
      && Replies(r'.events) == Replies(r.events) + PostAnswers(posts, outcomes)
      && Generations(r'.events) == Generations(r.events) + |posts|
  {
    if posts != [] {
      var n := |posts| - 1;
      PostListAnswers(r, account, posts[..n], outcomes[..n]);
      PostStep(HandlePostList(r, account, posts[..n], outcomes[..n]), account, posts[n], outcomes[n]);
    }
  }

  /** An account seen for the first time is bootstrapped: its latest post
      (if any) becomes its watermark and is saved, and no reply is made nor
      asked for. */
  lemma AccountBootstrap(r: Run, account: Entry, o: AccountOracle)
    requires Fits(o) && r.failure.None? && account.userId !in r.state.trackedSinceIds
    ensures var r' := HandleAccount(r, account, o);
      var uid := account.userId;
      && Replies(r'.events) == Replies(r.events)
      && Generations(r'.events) == Generations(r.events)
      && r'.state.mentionsSinceId == r.state.mentionsSinceId
      && (o.fetch.Page? && o.fetch.items != [] ==>
            r'.failure.None?
            && r'.state.trackedSinceIds == r.state.trackedSinceIds[uid := o.fetch.items[0].id]
            && Saves(r'.events) == Saves(r.events) + [r'.state])
      && (o.fetch.Page? && o.fetch.items == [] ==>
            r'.failure.None? && r'.state == r.state && Saves(r'.events) == Saves(r.events))
      && (o.fetch.Raised? ==> r'.failure == Some(o.fetch.error) && r'.state == r.state)
  {
    var uid := account.userId;
    var f := FetchTweets(uid, None, TrackedBootstrapSize);
    var asked := r.(events := r.events + [f]);
    ViewsPush(r.events, f);
    match o.fetch
    case Raised(e) =>
      assert HandleAccount(r, account, o) == asked.(failure := Some(e));
    case Page(items) =>
      if items == [] {
        assert HandleAccount(r, account, o) == asked;
      } else {
        var s' := r.state.(trackedSinceIds := r.state.trackedSinceIds[uid := items[0].id]);
        assert HandleAccount(r, account, o) == Run(s', r.events + [f] + [Save(s')], None);
        ViewsPush(r.events + [f], Save(s'));
      }
  }

  /** An account with a watermark is polled: its watermark is saved at
      each new post, oldest first, and ends at the newest post of the page;
      nothing else in the state moves. */
  lemma AccountPollAdvances(r: Run, account: Entry, o: AccountOracle)
    requires Fits(o) && r.failure.None? && account.userId in r.state.trackedSinceIds && o.fetch.Page?
    ensures var r' := HandleAccount(r, account, o);
      var uid := account.userId;
      var items := o.fetch.items;
      && r'.failure.None?
      && r'.state.mentionsSinceId == r.state.mentionsSinceId
      && r'.state.trackedSinceIds == (if items == [] then r.state.trackedSinceIds
                                      else r.state.trackedSinceIds[uid := items[0].id])
      && Saves(r'.events) == Saves(r.events) + TrackedSaves(r.state, uid, Ids(Reverse(items)))
  {
    var f := FetchTweets(account.userId, Some(r.state.trackedSinceIds[account.userId]), TrackedPageSize);
    ViewsPush(r.events, f);
    var asked := r.(events := r.events + [f]);
    var items := o.fetch.items;
    if items != [] {
      assert HandleAccount(r, account, o) == HandlePostList(asked, account, Reverse(items), o.replies);
      PostListAdvances(asked, account, Reverse(items), o.replies);
    } else {
      assert HandleAccount(r, account, o) == asked;
    }
  }

  /** An account with a watermark whose timeline fetch raises: the error
      escapes with the state untouched, and the one call made was that
      fetch, so nothing is generated, replied to or saved. */
  lemma AccountPollFails(r: Run, account: Entry, o: AccountOracle)
    requires Fits(o) && r.failure.None? && account.userId in r.state.trackedSinceIds && o.fetch.Raised?
    ensures var r' := HandleAccount(r, account, o);
      var uid := account.userId;
      && r'.failure == Some(o.fetch.error)
      && r'.state == r.state
      && r'.events == r.events + [FetchTweets(uid, Some(r.state.trackedSinceIds[uid]), TrackedPageSize)]
      && Replies(r'.events) == Replies(r.events)
      && Saves(r'.events) == Saves(r.events)
      && Generations(r'.events) == Generations(r.events)
  {
    ViewsPush(r.events, FetchTweets(account.userId, Some(r.state.trackedSinceIds[account.userId]), TrackedPageSize));
  }

  /** An account with a watermark is polled: the model is asked once per
      new post, and the posts it answered are replied to oldest first (the
      reverse of the page). */
  lemma AccountPollAnswers(r: Run, account: Entry, o: AccountOracle)
    requires Fits(o) && r.failure.None? && account.userId in r.state.trackedSinceIds && o.fetch.Page?
    ensures var r' := HandleAccount(r, account, o);
      && Replies(r'.events) == Replies(r.events) + PostAnswers(Reverse(o.fetch.items), o.replies)
      && Generations(r'.events) == Generations(r.events) + |o.fetch.items|
  {
    var f := FetchTweets(account.userId, Some(r.state.trackedSinceIds[account.userId]), TrackedPageSize);
    ViewsPush(r.events, f);
    var asked := r.(events := r.events + [f]);
    var items := o.fetch.items;
    if items != [] {
      assert HandleAccount(r, account, o) == HandlePostList(asked, account, Reverse(items), o.replies);
      PostListAnswers(asked, account, Reverse(items), o.replies);
    } else {
      assert HandleAccount(r, account, o) == asked;
    }
  }

  /** Handling one account touches only that account's watermark: the
      mentions watermark and every other account's entry (present or
      absent) are unchanged, a watermark once set stays set, and the
      mentions endpoint is not called. */
  lemma AccountFrame(r: Run, account: Entry, o: AccountOracle)
    requires Fits(o)
    ensures var r' := HandleAccount(r, account, o);
      && r'.state.mentionsSinceId == r.state.mentionsSinceId
      && (forall key :: key != account.userId ==>
            (key in r'.state.trackedSinceIds <==> key in r.state.trackedSinceIds)
            && (key in r.state.trackedSinceIds ==> r'.state.trackedSinceIds[key] == r.state.trackedSinceIds[key]))
      && (account.userId in r.state.trackedSinceIds ==> account.userId in r'.state.trackedSinceIds)
      && MentionFetches(r'.events) == MentionFetches(r.events)
  {
    if r.failure.None? {
      var uid := account.userId;
      if uid !in r.state.trackedSinceIds {
        var f := FetchTweets(uid, None, TrackedBootstrapSize);
        ViewsPush(r.events, f);
        if o.fetch.Page? && o.fetch.items != [] {
          var r' := HandleAccount(r, account, o);
          ViewsPush(r.events + [f], Save(r'.state));
        }
      } else {
        var f := FetchTweets(uid, Some(r.state.trackedSinceIds[uid]), TrackedPageSize);
        ViewsPush(r.events, f);
        if o.fetch.Page? && o.fetch.items != [] {
          PostListAdvances(r.(events := r.events + [f]), account, Reverse(o.fetch.items), o.replies);
        }
      }
    }
  }

  /** Whether no account of the roster has this id. */
  predicate Unlisted(roster: seq<Entry>, key: Id)
  {
    forall i :: 0 <= i < |roster| ==> roster[i].userId != key
  }

  /** `handle_tracked_accounts` changes no watermark but those of the
      roster's accounts: the mentions watermark and every unlisted account's
      entry are unchanged, and the mentions endpoint is not called. */
  lemma {:induction false} AccountListFrame(r: Run, roster: seq<Entry>, oracles: seq<AccountOracle>)
    requires |oracles| == |roster| && AllFit(oracles)
    ensures var r' := HandleAccountList(r, roster, oracles);
      && r'.state.mentionsSinceId == r.state.mentionsSinceId
      && (forall key :: Unlisted(roster, key) ==>
            (key in r'.state.trackedSinceIds <==> key in r.state.trackedSinceIds)
            && (key in r.state.trackedSinceIds ==> r'.state.trackedSinceIds[key] == r.state.trackedSinceIds[key]))
      && MentionFetches(r'.events) == MentionFetches(r.events)
  {
    if roster != [] {
      var n := |roster| - 1;
      assert AllFit(oracles[..n]) by {
        assert forall i :: 0 <= i < n ==> oracles[..n][i] == oracles[i];
      }
      AccountListFrame(r, roster[..n], oracles[..n]);
      AccountFrame(HandleAccountList(r, roster[..n], oracles[..n]), roster[n], oracles[n]);
      assert forall i :: 0 <= i < n ==> roster[..n][i] == roster[i];
    }
  }

  /** Once an account's fetch has raised, the remaining accounts are not
      looked at. */
  lemma {:induction false} AccountListAfterFailure(r: Run, roster: seq<Entry>, oracles: seq<AccountOracle>)
    requires |oracles| == |roster| && AllFit(oracles) && r.failure.Some?
    ensures HandleAccountList(r, roster, oracles) == r
  {
    if roster != [] {
      var n := |roster| - 1;
      assert AllFit(oracles[..n]) by {
        assert forall i :: 0 <= i < n ==> oracles[..n][i] == oracles[i];
      }
      AccountListAfterFailure(r, roster[..n], oracles[..n]);
    }
  }

  /** A roster walk that raised after the first `j` accounts ends there. */
  lemma {:induction false} AccountListStopsAt(r: Run, roster: seq<Entry>, oracles: seq<AccountOracle>, j: nat)
    requires |oracles| == |roster| && AllFit(oracles) && j <= |roster|
    requires AllFit(oracles[..j])
    requires HandleAccountList(r, roster[..j], oracles[..j]).failure.Some?
    ensures HandleAccountList(r, roster, oracles) == HandleAccountList(r, roster[..j], oracles[..j])
    decreases |roster| - j
  {
    if j == |roster| {
      assert roster[..j] == roster && oracles[..j] == oracles;
    } else {
      var n := |roster| - 1;
      assert AllFit(oracles[..n]) by {
        assert forall i :: 0 <= i < n ==> oracles[..n][i] == oracles[i];
      }
      assert roster[..n][..j] == roster[..j] && oracles[..n][..j] == oracles[..j];
      AccountListStopsAt(r, roster[..n], oracles[..n], j);
    }
  }

  // ---------- order, given the platform's ordering ----------

  /** The posts answered, in list order, come in increasing id order,
      between the first and the last id of the list. */
  lemma {:induction false} PostAnswersAscend(posts: seq<Tweet>, outcomes: seq<ReplyOutcome>)
    requires |outcomes| == |posts| && Ascending(posts)
    ensures var a := PostAnswers(posts, outcomes);
      && |a| <= |posts| && Increasing(a)
      && forall k :: 0 <= k < |a| ==> posts[0].id <= a[k] <= posts[|posts| - 1].id
  {
    if posts != [] {
      var n := |posts| - 1;
      var front := posts[..n];
      assert Ascending(front) by {
        assert forall k :: 0 <= k < n ==> front[k] == posts[k];
      }
      PostAnswersAscend(front, outcomes[..n]);
      var prev := PostAnswers(front, outcomes[..n]);
      if n > 0 {
        assert front[0] == posts[0] && front[n - 1] == posts[n - 1];
        assert posts[0].id < posts[n].id && posts[n - 1].id < posts[n].id;
      }
      assert forall k :: 0 <= k < |prev| ==> posts[0].id <= prev[k] < posts[n].id;
      if outcomes[n].Generated? {
        IncreasingPush(prev, posts[n].id);
        assert PostAnswers(posts, outcomes) == prev + [posts[n].id];
      } else {
        assert PostAnswers(posts, outcomes) == prev + [] == prev;
      }
    }
  }

  /** Given the platform's ordering, a polled account's posts are answered
      in increasing id order, only those newer than its watermark, and the
      watermark moves forward to the newest. */
  lemma TrackedInOrder(r: Run, account: Entry, o: AccountOracle)
    requires Fits(o) && r.failure.None? && account.userId in r.state.trackedSinceIds && o.fetch.Page?
    requires PlatformPage(o.fetch.items, Some(r.state.trackedSinceIds[account.userId]))
    ensures var r' := HandleAccount(r, account, o);
      var since := r.state.trackedSinceIds[account.userId];
      var answered := PostAnswers(Reverse(o.fetch.items), o.replies);
      && Replies(r'.events) == Replies(r.events) + answered
      && Increasing(answered)
      && (forall k :: 0 <= k < |answered| ==> answered[k] > since)
      && r'.state.trackedSinceIds[account.userId] >= since
  {
    var items := o.fetch.items;
    AccountPollAnswers(r, account, o);
    AccountPollAdvances(r, account, o);
    ReversedPageAscends(items, Some(r.state.trackedSinceIds[account.userId]));
    PostAnswersAscend(Reverse(items), o.replies);
  }

  // ---------- one pass of the main loop ----------

  /** One pass of the main loop: the mentions endpoint is called exactly
      when the throttle lets it; the tracked accounts run only when the
      mentions poll did not raise, and they leave the mentions watermark
      where the poll put it. */
  lemma CycleSeparation(s: State, last: int, now: int, minDelay: int, bot: Id,
                        fetch: Fetch, mentionOracles: seq<MentionOracle>,
                        roster: seq<Entry>, accountOracles: seq<AccountOracle>)
    requires fetch.Page? ==> |mentionOracles| == |fetch.items|
    requires |accountOracles| == |roster| && AllFit(accountOracles)
    ensures var c := Cycle(s, last, now, minDelay, bot, fetch, mentionOracles, roster, accountOracles);
      var p := PollMentionsThrottled(s, last, now, minDelay, bot, fetch, mentionOracles);
      && MentionFetches(c.run.events) == (if MentionsDue(last, now, minDelay) then 1 else 0)
      && c.lastCheck == p.lastCheck
      && c.run.state.mentionsSinceId == p.run.state.mentionsSinceId
      && (p.run.failure.Some? ==> c == p)
  {
    ThrottleGate(s, last, now, minDelay, bot, fetch, mentionOracles);
    var p := PollMentionsThrottled(s, last, now, minDelay, bot, fetch, mentionOracles);
    if p.run.failure.None? {
      var t := HandleTrackedAccounts(p.run.state, roster, accountOracles);
      AccountListFrame(Run(p.run.state, [], None), roster, accountOracles);
      assert MentionFetches([]) == 0;
      ViewsAppend(p.run.events, t.events);
    }
  }

  /** A roster of one account is that account's handling. */
  lemma SingleAccount(s: State, account: Entry, o: AccountOracle)
    requires Fits(o)
    ensures HandleTrackedAccounts(s, [account], [o]) == HandleAccount(Run(s, [], None), account, o)
  {
    var r := Run(s, [], None);
    assert [account][..0] == [] && [o][..0] == [];
    assert AllFit([o][..0]);
    assert HandleAccountList(r, [account][..0], [o][..0]) == r;
  }

  /** The walk-through of a tracked account (user 7), first cycle: its
      latest post 100 is stored without a reply. */
  lemma TrackedBootstrapWalkthrough()
    ensures var first := HandleTrackedAccounts(DefaultState(), [Entry("alice", 7)],
                           [AccountOracle(Page([Tweet(100, 7, "gm")]), [GenerateFailed])]);
      && first.failure.None? && Replies(first.events) == []
      && first.state == State(None, map[7 := 100])
  {
    var o1 := AccountOracle(Page([Tweet(100, 7, "gm")]), [GenerateFailed]);
    SingleAccount(DefaultState(), Entry("alice", 7), o1);
    AccountBootstrap(Run(DefaultState(), [], None), Entry("alice", 7), o1);
    assert Replies([]) == [];
  }

  /** Second cycle: its new post 101 is answered and becomes the
      watermark, whatever the account's name, the post's text and the
      model's answer. */
  lemma TrackedPollWalkthrough(name: string, text: string, answer: string)
    ensures var second := HandleTrackedAccounts(State(None, map[7 := 100]), [Entry(name, 7)],
                            [AccountOracle(Page([Tweet(101, 7, text)]), [Generated(answer, true)])]);
      && second.failure.None? && Replies(second.events) == [101]
      && second.state == State(None, map[7 := 101])
  {
    var s1 := State(None, map[7 := 100]);
    var ts := [Tweet(101, 7, text)];
    var replies := [Generated(answer, true)];
    var o2 := AccountOracle(Page(ts), replies);
    SingleAccount(s1, Entry(name, 7), o2);
    AccountPollAnswers(Run(s1, [], None), Entry(name, 7), o2);
    AccountPollAdvances(Run(s1, [], None), Entry(name, 7), o2);
    assert Replies([]) == [];
    assert Reverse(ts) == ts;
    assert ts[..0] == [] && replies[..0] == [];
    assert PostAnswers(ts, replies) == [101];
    assert map[7 := 100][7 := 101] == map[7 := 101];
  }

}
