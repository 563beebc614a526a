/** The tracked-account roster: parsing the comma-separated
    `TRACKED_ACCOUNTS` setting, and `resolve_user_ids`, which turns the
    platform's batch user lookup into the ordered username-to-id dict the
    tracked-account poller walks. */
module Roster {
  import opened Platform
  import opened Text

  // ---------- TRACKED_ACCOUNTS ----------

  /** `s.lstrip("@")`: drops every leading '@'. */
  function LStripAt(s: string): (r: string)
    ensures |r| <= |s|
    ensures r == [] || r[0] != '@'
  {
    if s != [] && s[0] == '@' then LStripAt(s[1..]) else s
  }

  /** What `lstrip("@")` drops is a prefix made only of '@'. */
  lemma {:induction false} LStripAtSuffix(s: string)
    ensures s == s[..|s| - |LStripAt(s)|] + LStripAt(s)
    ensures forall i :: 0 <= i < |s| - |LStripAt(s)| ==> s[i] == '@'
  {
    if s != [] && s[0] == '@' {
      var t := s[1..];
      LStripAtSuffix(t);
      assert LStripAt(s) == LStripAt(t);
      var k := |s| - |LStripAt(s)|;
      assert s[..k] == [s[0]] + t[..k - 1];
      forall i | 0 <= i < k
        ensures s[i] == '@'
      {
        if i > 0 {
          assert s[i] == t[i - 1];
        }
      }
    }
  }

  /** One entry of the setting once cleaned: `x.strip().lstrip("@")`. */
  function AccountName(piece: string): string
  {
    LStripAt(Strip(piece))
  }

  /** The comprehension as written:
      `[x.strip().lstrip("@") for x in pieces if x.strip()]`.
      The blank test runs before the '@' is removed. */
  function AccountsAsWritten(pieces: seq<string>): seq<string>
  {
    if pieces == [] then []
    else (if Strip(pieces[0]) != "" then [AccountName(pieces[0])] else [])
         + AccountsAsWritten(pieces[1..])
  }

  /** `TRACKED_ACCOUNTS` as the source computes it from the environment value. */
  function TrackedAccountsAsWritten(env: string): seq<string>
  {
    AccountsAsWritten(SplitOn(env, ','))
  }

  /** The blank test runs too early: an entry made only of '@' survives it
      and becomes the empty username. */
  lemma AtOnlyEntryBecomesEmpty()
    ensures TrackedAccountsAsWritten("@") == [""]
    ensures TrackedAccountsAsWritten("a,@") == ["a", ""]
  {
    assert SplitOn("", ',') == [""];
    assert "@"[0] == '@' && "@"[1..] == "" && ['@'] + "" == "@";
    assert SplitOn("@", ',') == ["@"];
    assert ",@"[1..] == "@";
    assert SplitOn(",@", ',') == ["", "@"];
    assert "a,@"[1..] == ",@" && "a,@"[0] == 'a' && ['a'] + "" == "a";
    assert SplitOn("a,@", ',') == ["a", "@"];
    assert Strip("@") == "@" && Strip("a") == "a";
    assert LStripAt("@") == "" && LStripAt("a") == "a";
    assert AccountsAsWritten(["@"]) == [""];
  }

  /** A usable account name: non-empty, no leading '@', no trailing
      whitespace. */
  predicate IsAccountName(name: string)
  {
    name != "" && name[0] != '@' && !IsSpace(name[|name| - 1])
  }

  /** A cleaned name never starts with '@' nor ends in whitespace. */
  lemma AccountNameShape(piece: string)
    ensures AccountName(piece) == "" || IsAccountName(AccountName(piece))
  {
    var s := Strip(piece);
    var name := LStripAt(s);
    LStripAtSuffix(s);
    if name != "" {
      assert name[|name| - 1] == s[|s| - 1];
    }
  }

  /** The evidently intended comprehension: keep an entry only when its
      cleaned name is non-empty. */
  function Accounts(pieces: seq<string>): (names: seq<string>)
    ensures forall i :: 0 <= i < |names| ==> IsAccountName(names[i])
  {
    if pieces == [] then []
    else
      var name := AccountName(pieces[0]);
      AccountNameShape(pieces[0]);
      (if name != "" then [name] else []) + Accounts(pieces[1..])
  }

  /** `TRACKED_ACCOUNTS` with the blank test applied to the cleaned name. */
  function TrackedAccounts(env: string): seq<string>
  {
    Accounts(SplitOn(env, ','))
  }

  /** The correction only drops what the source turns into the empty name:
      wherever no entry consists of '@' alone, both agree. */
  lemma {:induction false} AccountsAgree(pieces: seq<string>)
    requires forall i :: 0 <= i < |pieces| && Strip(pieces[i]) != "" ==> AccountName(pieces[i]) != ""
    ensures Accounts(pieces) == AccountsAsWritten(pieces)
  {
    if pieces != [] {
      assert Strip(pieces[0]) == "" ==> AccountName(pieces[0]) == "";
      AccountsAgree(pieces[1..]);
    }
  }

  /** A username as the setting lists it: non-empty, no comma, no leading
      '@', no whitespace at either end. */
  predicate IsHandle(h: string)
  {
    h != "" && h[0] != '@' && ',' !in h && !IsSpace(h[0]) && !IsSpace(h[|h| - 1])
  }

  lemma StripHandle(h: string)
    requires IsHandle(h)
    ensures Strip(h) == h
  {
    assert LStrip(h) == h;
    assert RStrip(h) == h;
  }

  lemma StripAtHandle(h: string)
    requires IsHandle(h)
    ensures Strip("@" + h) == "@" + h
  {
    var a := "@" + h;
    assert LStrip(a) == a;
    assert a[|a| - 1] == h[|h| - 1];
    assert RStrip(a) == a;
  }

  /** A handle is its own cleaned name, with or without a leading '@'. */
  lemma HandleName(h: string)
    requires IsHandle(h)
    ensures AccountName(h) == h
    ensures AccountName("@" + h) == h
  {
    StripHandle(h);
    StripAtHandle(h);
    assert ("@" + h)[1..] == h;
  }

  lemma {:induction false} AccountsOfHandles(hs: seq<string>)
    requires forall i :: 0 <= i < |hs| ==> IsHandle(hs[i])
    ensures Accounts(hs) == hs
  {
    if hs != [] {
      HandleName(hs[0]);
      AccountsOfHandles(hs[1..]);
    }
  }

  /** Listing handles comma-separated gives exactly those handles back. */
  lemma TrackedAccountsRoundTrip(hs: seq<string>)
    requires forall i :: 0 <= i < |hs| ==> IsHandle(hs[i])
    ensures TrackedAccounts(JoinOn(hs, ',')) == hs
  {
    if hs == [] {
      assert SplitOn("", ',') == [""];
      assert Strip("") == "";
    } else {
      SplitOfJoin(hs, ',');
      AccountsOfHandles(hs);
    }
  }

  // ---------- resolve_user_ids ----------

  /** One entry of the dict `resolve_user_ids` returns. */
  datatype Entry = Entry(username: string, userId: Id)

  /** ASCII `str.lower()` on one character. */
  function LowerChar(c: char): char
  {
    if 'A' <= c <= 'Z' then (c as int + 32) as char else c
  }

  predicate NoUpper(s: string)
  {
    forall i :: 0 <= i < |s| ==> !('A' <= s[i] <= 'Z')
  }

  /** `s.lower()` on ASCII letters. */
  function Lower(s: string): (r: string)
    ensures |r| == |s| && NoUpper(r)
    ensures forall i :: 0 <= i < |s| && !('A' <= s[i] <= 'Z') ==> r[i] == s[i]
    ensures forall i :: 0 <= i < |s| && 'A' <= s[i] <= 'Z' ==> r[i] as int == s[i] as int + 32
  {
    seq(|s|, i requires 0 <= i < |s| => LowerChar(s[i]))
  }

  /** The keys of the dict, in insertion order. */
  function Names(d: seq<Entry>): seq<string>
  {
    if d == [] then [] else [d[0].username] + Names(d[1..])
  }

  predicate Distinct(names: seq<string>)
  {
    forall i, j :: 0 <= i < j < |names| ==> names[i] != names[j]
  }

  /** `d.get(name)`. */
  function Find(d: seq<Entry>, name: string): (r: Option<Id>)
    ensures r.Some? <==> name in Names(d)
  {
    if d == [] then None
    else if d[0].username == name then Some(d[0].userId)
    else Find(d[1..], name)
  }

  /** `d[name] = id` on an insertion-ordered dict: an existing key keeps its
      place and takes the new value; a new key goes at the end. */
  function Put(d: seq<Entry>, name: string, id: Id): (r: seq<Entry>)
    ensures Find(r, name) == Some(id)
    ensures forall n :: n != name ==> Find(r, n) == Find(d, n)
    ensures Names(r) == if name in Names(d) then Names(d) else Names(d) + [name]
  {
    if d == [] then [Entry(name, id)]
    else if d[0].username == name then [Entry(name, id)] + d[1..]
    else [d[0]] + Put(d[1..], name, id)
  }

  /** The dict `resolve_user_ids` builds from the users the platform
      returned, one assignment per user in order. */
  function Resolved(users: seq<User>): seq<Entry>
  {
    if users == [] then []
    else
      var n := |users| - 1;
      Put(Resolved(users[..n]), Lower(users[n].username), users[n].id)
  }

  /** No later user in the response has the same lowercased username. */
  predicate LastWith(users: seq<User>, i: nat)
    requires i < |users|
  {
    forall j :: i < j < |users| ==> Lower(users[j].username) != Lower(users[i].username)
  }

  /** The keys of the resolved roster are distinct and lowercase. */
  lemma {:induction false} ResolvedKeysDistinct(users: seq<User>)
    ensures Distinct(Names(Resolved(users)))
    ensures forall i :: 0 <= i < |Names(Resolved(users))| ==> NoUpper(Names(Resolved(users))[i])
  {
    if users != [] {
      var n := |users| - 1;
      var before := Names(Resolved(users[..n]));
      ResolvedKeysDistinct(users[..n]);
      var name := Lower(users[n].username);
      assert Names(Resolved(users)) == if name in before then before else before + [name];
      if name !in before {
        assert forall i :: 0 <= i < |before| ==> before[i] != name;
      }
    }
  }

  /** The lowercased usernames the platform returned, in response order. */
  function LoweredNames(users: seq<User>): seq<string>
  {
    if users == [] then []
    else
      var n := |users| - 1;
      LoweredNames(users[..n]) + [Lower(users[n].username)]
  }

  /** The resolved roster has a key for exactly the lowercased usernames the
      platform returned. */
  lemma {:induction false} ResolvedKeys(users: seq<User>, name: string)
    ensures name in Names(Resolved(users)) <==> name in LoweredNames(users)
  {
    if users != [] {
      var n := |users| - 1;
      var prev := users[..n];
      ResolvedKeys(prev, name);
      var last := Lower(users[n].username);
      assert Names(Resolved(users)) == Names(Put(Resolved(prev), last, users[n].id));
    }
  }

  /** When two returned usernames differ only in case, the later user's id
      is the one kept. */
  lemma {:induction false} ResolvedLastWins(users: seq<User>, i: nat)
    requires i < |users| && LastWith(users, i)
    ensures Find(Resolved(users), Lower(users[i].username)) == Some(users[i].id)
  {
    var n := |users| - 1;
    var prev := users[..n];
    var name := Lower(users[i].username);
    assert Resolved(users) == Put(Resolved(prev), Lower(users[n].username), users[n].id);
    if i < n {
      assert prev[i] == users[i];
      assert LastWith(prev, i) by {
        assert forall j :: i < j < |prev| ==> prev[j] == users[j];
      }
      ResolvedLastWins(prev, i);
      assert Lower(users[n].username) != name;
      assert Find(Resolved(users), name) == Find(Resolved(prev), name);
    }
  }

  /** `resolve_user_ids`: no lookup when there are no usernames; a lookup
      that raises passes its exception on (out of `main`, ending the bot)
      with no dict; otherwise the lowercased username of every user in the
      response maps to its id, assigned in response order. */
  method ResolveUserIds(usernames: seq<string>, response: UsersLookup)
    returns (mapping: seq<Entry>, failure: Option<Failure>)
    ensures usernames == [] ==> mapping == [] && failure.None?
    ensures usernames != [] && response.UsersRaised? ==>
      mapping == [] && failure == Some(response.error)
    ensures usernames != [] && response.Users? ==>
      failure.None? && mapping == (if response.data.Some? then Resolved(response.data.value) else [])
  {
    mapping, failure := [], None;
    if usernames == [] {
      return;
    }
    match response
    case UsersRaised(e) =>
      failure := Some(e);
    case Users(data) =>
      if data.Some? {
        var users := data.value;
        for i := 0 to |users|
          invariant mapping == Resolved(users[..i])
        {
          assert users[..i + 1][..i] == users[..i];
          mapping := Put(mapping, Lower(users[i].username), users[i].id);
        }
        assert users[..|users|] == users;
      }
  }
}
