/** What `bootstrap_mentions`, `handle_mentions` and
    `poll_mentions_throttled` do, stated against independent descriptions
    of the expected outcome: which mentions are answered and in what order,
    where the watermark ends, what is saved, and when the mentions endpoint
    is called. */
module MentionFacts {
  import opened Platform
  import opened Text
  import opened Backoff
  import opened Watermarks

  /** One mention not by the bot whose author lookup returned: the
      watermark moves to it and is saved, whether or not the reply went
      out. */
  lemma MentionStep(r: Run, bot: Id, t: Tweet, o: MentionOracle)
    requires r.failure.None? && t.authorId != bot && !o.lookup.LookupRaised?
    ensures var r' := HandleMention(r, bot, t, o);
      && r'.failure.None?
      && r'.state == r.state.(mentionsSinceId := Some(t.id))
      && Replies(r'.events) == Replies(r.events) + (if o.reply.Generated? then [t.id] else [])
      && Saves(r'.events) == Saves(r.events) + [r'.state]
      && MentionFetches(r'.events) == MentionFetches(r.events)
      && Generations(r'.events) == Generations(r.events) + 1
  {
    var author := if o.lookup.Found? then o.lookup.username else "user";
    HandledMention(r, bot, t, o);
    LookupReplySaveViews(r.events, t.authorId, ReplyEvents(Mention, author, t, o.reply),
      r.state.(mentionsSinceId := Some(t.id)));
    ReplyViews(Mention, author, t, o.reply);
    assert Saves(r.events) + [] == Saves(r.events);
    assert Replies(r.events) + [] == Replies(r.events);
  }

  /** The run after one handled mention, spelled out. */
  lemma HandledMention(r: Run, bot: Id, t: Tweet, o: MentionOracle)
    requires r.failure.None? && t.authorId != bot && !o.lookup.LookupRaised?
    ensures HandleMention(r, bot, t, o) == Run(r.state.(mentionsSinceId := Some(t.id)),
      r.events + [LookupUser(t.authorId)]
      + ReplyEvents(Mention, if o.lookup.Found? then o.lookup.username else "user", t, o.reply)
      + [Save(r.state.(mentionsSinceId := Some(t.id)))], None)
  {
  }

  /** The views of a lookup, some calls `b`, then a save. */
  lemma LookupReplySaveViews(a: seq<Event>, uid: Id, b: seq<Event>, s: State)
    ensures var e := a + [LookupUser(uid)] + b + [Save(s)];
      && Replies(e) == Replies(a) + Replies(b)
      && Saves(e) == Saves(a) + Saves(b) + [s]
      && MentionFetches(e) == MentionFetches(a) + MentionFetches(b)
      && Generations(e) == Generations(a) + Generations(b)
  {
    var looked := a + [LookupUser(uid)];
    ViewsPush(a, LookupUser(uid));
    ViewsAppend(looked, b);
    ViewsPush(looked + b, Save(s));
  }

  /** When no author lookup raises, `handle_mentions`' loop moves the
      watermark to each mention not by the bot in turn, saving after each (a
      failed reply included), and ends at the last one; nothing else in the
      state changes. */
  lemma {:induction false} MentionListAdvances(r: Run, bot: Id, items: seq<Tweet>, oracles: seq<MentionOracle>)
    requires |oracles| == |items| && r.failure.None?
    requires LookupsReturn(items, oracles, bot)
    ensures var r' := HandleMentionList(r, bot, items, oracles);
      var o := Others(items, bot);
      && r'.failure.None?
      && r'.state.trackedSinceIds == r.state.trackedSinceIds
      && r'.state.mentionsSinceId == (if o == [] then r.state.mentionsSinceId else Some(o[|o| - 1]))
      && Saves(r'.events) == Saves(r.events) + MentionSaves(r.state, o)
  {
    if items != [] {
      var n := |items| - 1;
      var pre := items[..n];
      assert forall k :: 0 <= k < n ==> pre[k] == items[k] && oracles[..n][k] == oracles[k];
      assert LookupsReturn(pre, oracles[..n], bot);
      MentionListAdvances(r, bot, pre, oracles[..n]);
      var prev := HandleMentionList(r, bot, pre, oracles[..n]);
      assert HandleMentionList(r, bot, items, oracles) == HandleMention(prev, bot, items[n], oracles[n]);
      var o := Others(items, bot);
      if items[n].authorId == bot {
        assert HandleMention(prev, bot, items[n], oracles[n]) == prev;
        assert o == Others(pre, bot) + [] == Others(pre, bot);
      } else {
        MentionStep(prev, bot, items[n], oracles[n]);
        var moved := r.state.(mentionsSinceId := Some(items[n].id));
        var earlier := MentionSaves(r.state, Others(pre, bot));
        assert o == Others(pre, bot) + [items[n].id];
        assert o[..|o| - 1] == Others(pre, bot);
        assert prev.state.(mentionsSinceId := Some(items[n].id)) == moved;
        calc {
          Saves(HandleMention(prev, bot, items[n], oracles[n]).events);
          Saves(prev.events) + [moved];
          (Saves(r.events) + earlier) + [moved];
          { AppendAssoc(Saves(r.events), earlier, [moved]); }
          Saves(r.events) + (earlier + [moved]);
          Saves(r.events) + MentionSaves(r.state, o);
        }
      }
    }
  }

  /** When no author lookup raises, `handle_mentions`' loop asks the model
      once per mention not by the bot and replies, in list order, to exactly
      those whose reply the model produced. */
  lemma {:induction false} MentionListAnswers(r: Run, bot: Id, items: seq<Tweet>, oracles: seq<MentionOracle>)
    requires |oracles| == |items| && r.failure.None?
    requires LookupsReturn(items, oracles, bot)
    ensures var r' := HandleMentionList(r, bot, items, oracles);
      && r'.failure.None?
      && Replies(r'.events) == Replies(r.events) + MentionAnswers(items, oracles, bot)
      && Generations(r'.events) == Generations(r.events) + |Others(items, bot)|
  {
    if items != [] {
      var n := |items| - 1;
      var pre := items[..n];
      assert forall k :: 0 <= k < n ==> pre[k] == items[k] && oracles[..n][k] == oracles[k];
      assert LookupsReturn(pre, oracles[..n], bot);
      MentionListAnswers(r, bot, pre, oracles[..n]);
      var prev := HandleMentionList(r, bot, pre, oracles[..n]);
      assert HandleMentionList(r, bot, items, oracles) == HandleMention(prev, bot, items[n], oracles[n]);
      var earlier := MentionAnswers(pre, oracles[..n], bot);
      if items[n].authorId == bot {
        assert HandleMention(prev, bot, items[n], oracles[n]) == prev;
        assert MentionAnswers(items, oracles, bot) == earlier + [] == earlier;
        assert Others(items, bot) == Others(pre, bot) + [] == Others(pre, bot);
      } else {
        MentionStep(prev, bot, items[n], oracles[n]);
        var now: seq<Id> := if oracles[n].reply.Generated? then [items[n].id] else [];
        assert MentionAnswers(items, oracles, bot) == earlier + now;
        assert |Others(items, bot)| == |Others(pre, bot)| + 1;
        AppendAssoc(Replies(r.events), earlier, now);
      }
    }
  }

  /** The loop of `handle_mentions` raises exactly when the author lookup of
      some mention not by the bot raises. */
  lemma {:induction false} MentionListFails(r: Run, bot: Id, items: seq<Tweet>, oracles: seq<MentionOracle>)
    requires |oracles| == |items| && r.failure.None?
    ensures HandleMentionList(r, bot, items, oracles).failure.None? <==> LookupsReturn(items, oracles, bot)
  {
    if items != [] {
      var n := |items| - 1;
      var pre := items[..n];
      assert forall k :: 0 <= k < n ==> pre[k] == items[k] && oracles[..n][k] == oracles[k];
      MentionListFails(r, bot, pre, oracles[..n]);
      assert LookupsReturn(items, oracles, bot) <==>
        LookupsReturn(pre, oracles[..n], bot) && (items[n].authorId != bot ==> !oracles[n].lookup.LookupRaised?);
    }
  }

  /** Once the loop has raised, the remaining mentions are not looked at. */
  lemma {:induction false} MentionListAfterFailure(r: Run, bot: Id, items: seq<Tweet>, oracles: seq<MentionOracle>)
    requires |oracles| == |items| && r.failure.Some?
    ensures HandleMentionList(r, bot, items, oracles) == r
  {
    if items != [] {
      MentionListAfterFailure(r, bot, items[..|items| - 1], oracles[..|oracles| - 1]);
    }
  }

  /** A loop that raised after the first `j` mentions ends there. */
  lemma {:induction false} MentionListStopsAt(r: Run, bot: Id, items: seq<Tweet>, oracles: seq<MentionOracle>, j: nat)
    requires |oracles| == |items| && j <= |items|
    requires HandleMentionList(r, bot, items[..j], oracles[..j]).failure.Some?
    ensures HandleMentionList(r, bot, items, oracles) == HandleMentionList(r, bot, items[..j], oracles[..j])
    decreases |items| - j
  {
    if j == |items| {
      assert items[..j] == items && oracles[..j] == oracles;
    } else {
      var n := |items| - 1;
      assert items[..n][..j] == items[..j] && oracles[..n][..j] == oracles[..j];
      MentionListStopsAt(r, bot, items[..n], oracles[..n], j);
    }
  }

  /** When the author lookup of mention `k` raises and none before it did,
      the loop ends right there: the state is what the earlier mentions left,
      the lookup is the last call made, and its exception escapes. */
  lemma MentionListStops(r: Run, bot: Id, items: seq<Tweet>, oracles: seq<MentionOracle>, k: nat)
    requires |oracles| == |items| && r.failure.None? && k < |items|
    requires items[k].authorId != bot && oracles[k].lookup.LookupRaised?
    requires forall j :: 0 <= j < k && items[j].authorId != bot ==> !oracles[j].lookup.LookupRaised?
    ensures var p := HandleMentionList(r, bot, items[..k], oracles[..k]);
      var r' := HandleMentionList(r, bot, items, oracles);
      && p.failure.None?
      && r'.state == p.state
      && r'.events == p.events + [LookupUser(items[k].authorId)]
      && r'.failure == Some(oracles[k].lookup.error)
  {
    assert LookupsReturn(items[..k], oracles[..k], bot) by {
      assert forall j :: 0 <= j < k ==> items[..k][j] == items[j] && oracles[..k][j] == oracles[j];
    }
    MentionListFails(r, bot, items[..k], oracles[..k]);
    assert items[..k + 1][..k] == items[..k] && oracles[..k + 1][..k] == oracles[..k];
    MentionListStopsAt(r, bot, items, oracles, k + 1);
  }

  /** The loop calls the mentions endpoint no more. */
  lemma {:induction false} MentionListFetches(r: Run, bot: Id, items: seq<Tweet>, oracles: seq<MentionOracle>)
    requires |oracles| == |items|
    ensures MentionFetches(HandleMentionList(r, bot, items, oracles).events) == MentionFetches(r.events)
  {
    if items != [] {
      var n := |items| - 1;
      var prev := HandleMentionList(r, bot, items[..n], oracles[..n]);
      MentionListFetches(r, bot, items[..n], oracles[..n]);
      var t := items[n];
      var o := oracles[n];
      if prev.failure.None? && t.authorId != bot {
        if o.lookup.LookupRaised? {
          ViewsPush(prev.events, LookupUser(t.authorId));
        } else {
          MentionStep(prev, bot, t, o);
        }
      }
    }
  }

  /** `handle_mentions` calls the mentions endpoint exactly once, whatever
      happens afterwards. */
  lemma HandleMentionsFetchesOnce(s: State, bot: Id, fetch: Fetch, oracles: seq<MentionOracle>)
    requires fetch.Page? ==> |oracles| == |fetch.items|
    ensures MentionFetches(HandleMentions(s, bot, fetch, oracles).events) == 1
  {
    var e := FetchMentions(s.mentionsSinceId, MentionsPageSize);
    ViewsPush([], e);
    assert [] + [e] == [e];
    if fetch.Page? && fetch.items != [] {
      MentionListFetches(Run(s, [e], None), bot, Reverse(fetch.items), oracles);
    }
  }

  /** `handle_mentions` on a page where no author lookup raises: the
      mentions not by the bot are handled oldest first (the reverse of the
      page); the ones the model answered are replied to in that order; the
      watermark is saved at each of them and ends at the last, or stays put
      when there is none (an empty page, or only the bot's own posts); the
      tracked watermarks are untouched. */
  lemma HandleMentionsCompletes(s: State, bot: Id, items: seq<Tweet>, oracles: seq<MentionOracle>)
    requires |oracles| == |items| && LookupsReturn(Reverse(items), oracles, bot)
    ensures var r := HandleMentions(s, bot, Page(items), oracles);
      var o := Others(Reverse(items), bot);
      && r.failure.None?
      && r.state.trackedSinceIds == s.trackedSinceIds
      && r.state.mentionsSinceId == (if o == [] then s.mentionsSinceId else Some(o[|o| - 1]))
      && Replies(r.events) == MentionAnswers(Reverse(items), oracles, bot)
      && Saves(r.events) == MentionSaves(s, o)
      && Generations(r.events) == |o|
  {
    var e := FetchMentions(s.mentionsSinceId, MentionsPageSize);
    var asked := Run(s, [e], None);
    ViewsPush([], e);
    assert [] + [e] == [e];
    assert Replies([e]) == [] && Saves([e]) == [] && Generations([e]) == 0;
    var mentions := Reverse(items);
    if items != [] {
      var answers := MentionAnswers(mentions, oracles, bot);
      var o := Others(mentions, bot);
      var r := HandleMentionList(asked, bot, mentions, oracles);
      assert HandleMentions(s, bot, Page(items), oracles) == r;
      MentionListAdvances(asked, bot, mentions, oracles);
      assert Saves(r.events) == [] + MentionSaves(s, o) == MentionSaves(s, o);
      MentionListAnswers(asked, bot, mentions, oracles);
      assert Replies(r.events) == [] + answers == answers;
      assert Generations(r.events) == |o|;
    } else {
      assert HandleMentions(s, bot, Page(items), oracles) == asked;
      assert mentions == [];
    }
  }

  /** The bot never answers itself: on a page whose every mention is by the
      bot (an empty page in particular) nothing but the fetch happens and the
      state is unchanged. */
  lemma {:induction false} OwnMentionsIgnored(r: Run, bot: Id, items: seq<Tweet>, oracles: seq<MentionOracle>)
    requires |oracles| == |items|
    requires forall i :: 0 <= i < |items| ==> items[i].authorId == bot
    ensures HandleMentionList(r, bot, items, oracles) == r
  {
    if items != [] {
      var n := |items| - 1;
      assert forall i :: 0 <= i < n ==> items[..n][i] == items[i];
      OwnMentionsIgnored(r, bot, items[..n], oracles[..n]);
    }
  }

  lemma OwnPageIgnored(s: State, bot: Id, items: seq<Tweet>, oracles: seq<MentionOracle>)
    requires |oracles| == |items|
    requires forall i :: 0 <= i < |items| ==> items[i].authorId == bot
    ensures HandleMentions(s, bot, Page(items), oracles)
      == Run(s, [FetchMentions(s.mentionsSinceId, MentionsPageSize)], None)
  {
    if items != [] {
      OwnMentionsIgnored(Run(s, [FetchMentions(s.mentionsSinceId, MentionsPageSize)], None),
                         bot, Reverse(items), oracles);
    }
  }

  // ---------- order, given the platform's ordering ----------

  predicate Ascending(items: seq<Tweet>)
  {
    forall i, j :: 0 <= i < j < |items| ==> items[i].id < items[j].id
  }

  /** The mentions not by the bot, in list order, come in increasing id
      order, between the first and the last id of the list. */
  lemma {:induction false} OthersAscend(items: seq<Tweet>, bot: Id)
    requires Ascending(items)
    ensures var o := Others(items, bot);
      && |o| <= |items| && Increasing(o)
      && forall k :: 0 <= k < |o| ==> items[0].id <= o[k] <= items[|items| - 1].id
  {
    if items != [] {
      var n := |items| - 1;
      var front := items[..n];
      assert Ascending(front) by {
        assert forall k :: 0 <= k < n ==> front[k] == items[k];
      }
      OthersAscend(front, bot);
      var prev := Others(front, bot);
      if n > 0 {
        assert front[0] == items[0] && front[n - 1] == items[n - 1];
        assert items[0].id < items[n].id && items[n - 1].id < items[n].id;
      }
      assert forall k :: 0 <= k < |prev| ==> items[0].id <= prev[k] < items[n].id;
      if items[n].authorId != bot {
        IncreasingPush(prev, items[n].id);
        assert Others(items, bot) == prev + [items[n].id];
      } else {
        assert Others(items, bot) == prev + [] == prev;
      }
    }
  }

  /** Likewise the mentions actually answered. */
  lemma {:induction false} AnswersAscend(items: seq<Tweet>, oracles: seq<MentionOracle>, bot: Id)
    requires |oracles| == |items| && Ascending(items)
    ensures var a := MentionAnswers(items, oracles, bot);
      && |a| <= |items| && Increasing(a)
      && forall k :: 0 <= k < |a| ==> items[0].id <= a[k] <= items[|items| - 1].id
  {
    if items != [] {
      var n := |items| - 1;
      var front := items[..n];
      assert Ascending(front) by {
        assert forall k :: 0 <= k < n ==> front[k] == items[k];
      }
      AnswersAscend(front, oracles[..n], bot);
      var prev := MentionAnswers(front, oracles[..n], bot);
      if n > 0 {
        assert front[0] == items[0] && front[n - 1] == items[n - 1];
        assert items[0].id < items[n].id && items[n - 1].id < items[n].id;
      }
      assert forall k :: 0 <= k < |prev| ==> items[0].id <= prev[k] < items[n].id;
      if items[n].authorId != bot && oracles[n].reply.Generated? {
        IncreasingPush(prev, items[n].id);
        assert MentionAnswers(items, oracles, bot) == prev + [items[n].id];
      } else {
        assert MentionAnswers(items, oracles, bot) == prev + [] == prev;
      }
    }
  }

  /** A page as the platform sends it, reversed, is in increasing id order
      and above the watermark. */
  lemma ReversedPageAscends(items: seq<Tweet>, since: Option<Id>)
    requires PlatformPage(items, since)
    ensures Ascending(Reverse(items))
    ensures since.Some? ==> forall i :: 0 <= i < |items| ==> Reverse(items)[i].id > since.value
  {
    var r := Reverse(items);
    forall i, j | 0 <= i < j < |r|
      ensures r[i].id < r[j].id
    {
      assert r[i] == items[|items| - 1 - i] && r[j] == items[|items| - 1 - j];
    }
  }

  /** Given the platform's ordering, a completed `handle_mentions` replies in
      increasing id order, only to mentions newer than the watermark it
      started from; the watermarks it saves increase, and the watermark never
      moves backwards. */
  lemma MentionsInOrder(s: State, bot: Id, items: seq<Tweet>, oracles: seq<MentionOracle>)
    requires |oracles| == |items| && PlatformPage(items, s.mentionsSinceId)
    requires LookupsReturn(Reverse(items), oracles, bot)
    ensures var r := HandleMentions(s, bot, Page(items), oracles);
      var replies := Replies(r.events);
      var saves := Saves(r.events);
      && Increasing(replies)
      && (s.mentionsSinceId.Some? ==> forall k :: 0 <= k < |replies| ==> replies[k] > s.mentionsSinceId.value)
      && (forall i, j :: 0 <= i < j < |saves| ==>
            saves[i].mentionsSinceId.Some? && saves[j].mentionsSinceId.Some?
            && saves[i].mentionsSinceId.value < saves[j].mentionsSinceId.value)
      && (s.mentionsSinceId.Some? ==>
            r.state.mentionsSinceId.Some? && r.state.mentionsSinceId.value >= s.mentionsSinceId.value)
  {
    var rev := Reverse(items);
    HandleMentionsCompletes(s, bot, items, oracles);
    ReversedPageAscends(items, s.mentionsSinceId);
    OthersAscend(rev, bot);
    AnswersAscend(rev, oracles, bot);
  }

  // ---------- bootstrap_mentions ----------

  /** `bootstrap_mentions` never replies nor asks the model. With a
      watermark already set it does nothing at all; otherwise, on a page with
      posts the watermark becomes the newest one and is saved once, and on an
      empty page or an exception nothing is saved. */
  lemma BootstrapNeverReplies(s: State, fetch: Fetch)
    ensures var b := BootstrapMentions(s, fetch);
      && Replies(b.events) == [] && Generations(b.events) == 0
      && (s.mentionsSinceId.Some? ==> b.state == s && b.events == [] && b.failure.None?)
      && (s.mentionsSinceId.None? && fetch.Page? && fetch.items != [] ==>
            b.state == s.(mentionsSinceId := Some(fetch.items[0].id)) && Saves(b.events) == [b.state])
      && (s.mentionsSinceId.None? && !(fetch.Page? && fetch.items != []) ==>
            b.state == s && Saves(b.events) == [])
  {
    var e := FetchMentions(None, MentionsBootstrapSize);
    ViewsPush([], e);
    assert [] + [e] == [e];
    if s.mentionsSinceId.None? && fetch.Page? && fetch.items != [] {
      var s' := s.(mentionsSinceId := Some(fetch.items[0].id));
      ViewsPush([e], Save(s'));
    }
  }

  /** The seeded watermark is the largest id of the bootstrap page. */
  lemma BootstrapSeedsNewest(s: State, backlog: seq<Tweet>)
    requires s.mentionsSinceId.None? && backlog != [] && PlatformPage(backlog, None)
    ensures var b := BootstrapMentions(s, Page(backlog));
      b.state.mentionsSinceId.Some?
      && forall i :: 0 <= i < |backlog| ==> backlog[i].id <= b.state.mentionsSinceId.value
  {
  }

  /** No reply to the backlog on a cold start: after the first run's
      bootstrap, the next mentions poll (on a page the platform filtered by
      the seeded watermark) answers only mentions newer than every mention
      the bootstrap saw. */
  lemma ColdStartSkipsBacklog(backlog: seq<Tweet>, bot: Id, items: seq<Tweet>, oracles: seq<MentionOracle>)
    requires backlog != [] && PlatformPage(backlog, None)
    requires var b := BootstrapMentions(LoadState(NoFile), Page(backlog));
      PlatformPage(items, b.state.mentionsSinceId)
    requires |oracles| == |items| && LookupsReturn(Reverse(items), oracles, bot)
    ensures var b := BootstrapMentions(LoadState(NoFile), Page(backlog));
      var replies := Replies(b.events) + Replies(HandleMentions(b.state, bot, Page(items), oracles).events);
      forall k, i :: 0 <= k < |replies| && 0 <= i < |backlog| ==> replies[k] > backlog[i].id
  {
    var b := BootstrapMentions(LoadState(NoFile), Page(backlog));
    BootstrapNeverReplies(LoadState(NoFile), Page(backlog));
    BootstrapSeedsNewest(LoadState(NoFile), backlog);
    MentionsInOrder(b.state, bot, items, oracles);
    assert [] + Replies(HandleMentions(b.state, bot, Page(items), oracles).events)
      == Replies(HandleMentions(b.state, bot, Page(items), oracles).events);
  }

  // ---------- poll_mentions_throttled ----------

  /** The throttle: when the last check is too recent nothing happens and
      the check time is kept; otherwise the check time becomes `now` and the
      mentions endpoint is called exactly once. The first poll (`last == 0`)
      always goes through. */
  lemma ThrottleGate(s: State, last: int, now: int, minDelay: int, bot: Id,
                     fetch: Fetch, oracles: seq<MentionOracle>)
    requires fetch.Page? ==> |oracles| == |fetch.items|
    ensures var p := PollMentionsThrottled(s, last, now, minDelay, bot, fetch, oracles);
      && (last != 0 && now - last < minDelay ==>
            p.run == Run(s, [], None) && p.lastCheck == last)
      && (!(last != 0 && now - last < minDelay) ==>
            p.lastCheck == now && MentionFetches(p.run.events) == 1)
      && (last == 0 ==> MentionFetches(p.run.events) == 1)
  {
    if MentionsDue(last, now, minDelay) {
      HandleMentionsFetchesOnce(s, bot, fetch, oracles);
    }
  }

  /** One pass of `main`'s loop as the throttled poll sees it: the clock
      reading, what the mentions endpoint would return, and the oracles for
      the mentions it would return. */
  datatype Tick = Tick(now: int, fetch: Fetch, oracles: seq<MentionOracle>)

  predicate TickFits(t: Tick)
  {
    t.fetch.Page? ==> |t.oracles| == |t.fetch.items|
  }

  function Clock(ticks: seq<Tick>): (nows: seq<int>)
    ensures |nows| == |ticks| && forall i :: 0 <= i < |ticks| ==> nows[i] == ticks[i].now
  {
    seq(|ticks|, i requires 0 <= i < |ticks| => ticks[i].now)
  }

  /** The clock readings at which the mentions endpoint is called when the
      throttled poll runs once per tick, each poll starting from the state and
      the check time the previous one left. */
  function PolledTimes(s: State, last: int, minDelay: int, bot: Id, ticks: seq<Tick>): seq<int>
    requires forall i :: 0 <= i < |ticks| ==> TickFits(ticks[i])
    decreases |ticks|
  {
    if ticks == [] then []
    else
      var t := ticks[0];
      assert TickFits(t);
      var p := PollMentionsThrottled(s, last, t.now, minDelay, bot, t.fetch, t.oracles);
      (if MentionFetches(p.run.events) == 1 then [t.now] else [])
        + PolledTimes(p.run.state, p.lastCheck, minDelay, bot, ticks[1..])
  }

  /** Repeated throttled polls call the mentions endpoint exactly at the
      times `FetchTimes` picks from the clock readings, so the spacing
      proved by `FetchesSpaced` holds of the bot's own calls. */
  lemma {:induction false} PolledAtFetchTimes(s: State, last: int, minDelay: int, bot: Id,
                                              ticks: seq<Tick>)
    requires forall i :: 0 <= i < |ticks| ==> TickFits(ticks[i])
    decreases |ticks|
    ensures PolledTimes(s, last, minDelay, bot, ticks) == FetchTimes(last, Clock(ticks), minDelay)
  {
    if ticks != [] {
      var t := ticks[0];
      ThrottleGate(s, last, t.now, minDelay, bot, t.fetch, t.oracles);
      var p := PollMentionsThrottled(s, last, t.now, minDelay, bot, t.fetch, t.oracles);
      PolledAtFetchTimes(p.run.state, p.lastCheck, minDelay, bot, ticks[1..]);
      assert Clock(ticks)[1..] == Clock(ticks[1..]);
    }
  }
}
