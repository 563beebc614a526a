/** What the bot sees of its collaborators: the social platform (fetches,
    user lookups, posting) and the language model. Their calls are not
    modelled; their results arrive as values of the types below. */
module Platform {

  /** Post and user identifiers. The platform hands out numeric ids; the bot
      stores them as `str(id)`, which is injective, so the model keeps the
      number itself. */
  type Id = nat

  datatype Option<T> = None | Some(value: T)

  /** An exception escaping a platform call: the distinguished
      too-many-requests error (carrying the raw `x-rate-limit-reset` header,
      if the response had one) or any other error. */
  datatype Failure = RateLimited(resetHeader: Option<string>) | OtherError

  /** One post as returned by a fetch. */
  datatype Tweet = Tweet(id: Id, authorId: Id, text: string)

  /** A user as returned by the batch username lookup. */
  datatype User = User(username: string, id: Id)

  /** The result of the batch username lookup: the call raised, or it
      returned, with `resp.data` absent (`None`) or a list of users. */
  datatype UsersLookup = UsersRaised(error: Failure) | Users(data: Option<seq<User>>)

  /** The result of a timeline or mentions fetch: the call raised, or it
      returned a page, newest first (`resp.data` being absent is the empty
      page). */
  datatype Fetch = Raised(error: Failure) | Page(items: seq<Tweet>)

  /** The result of looking up a mention's author: the call raised, it
      returned no user, or it returned one with this username. */
  datatype Lookup = LookupRaised(error: Failure) | NoUser | Found(username: string)

  /** Which prompt the reply is generated with. */
  datatype Context = Mention | Tracked

  /** What happened when the bot tried to answer one post: the language-model
      call failed, or it produced `raw` and posting the cleaned reply
      succeeded (`posted`) or raised. */
  datatype ReplyOutcome = GenerateFailed | Generated(raw: string, posted: bool)

  /** The sequence in reverse order: the bot turns the platform's
      newest-first pages into oldest-first work lists. */
  function Reverse<T>(s: seq<T>): (r: seq<T>)
    ensures |r| == |s|
    ensures forall i :: 0 <= i < |s| ==> r[i] == s[|s| - 1 - i]
  {
    if s == [] then [] else Reverse(s[1..]) + [s[0]]
  }

  /** Regrouping a concatenation; stated once so that proofs about traces
      need not rediscover it. */
  lemma AppendAssoc<T>(a: seq<T>, b: seq<T>, c: seq<T>)
    ensures (a + b) + c == a + (b + c)
  {
  }

  /** Strictly increasing ids: the order in which the platform hands out ids. */
  predicate Increasing(ids: seq<Id>)
  {
    forall i, j :: 0 <= i < j < |ids| ==> ids[i] < ids[j]
  }
  /** An increasing sequence stays increasing when a larger id is appended. */
  lemma IncreasingPush(ids: seq<Id>, x: Id)
    requires Increasing(ids) && forall k :: 0 <= k < |ids| ==> ids[k] < x
    ensures Increasing(ids + [x])
  {
  }


  /** A page as the platform promises it: newest first (strictly decreasing
      ids) and, when a watermark was sent, only posts newer than it. */
  predicate PlatformPage(items: seq<Tweet>, since: Option<Id>)
  {
    && (forall i, j :: 0 <= i < j < |items| ==> items[i].id > items[j].id)
    && (since.Some? ==> forall i :: 0 <= i < |items| ==> items[i].id > since.value)
  }
}
