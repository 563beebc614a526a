/** The two waits of the main loop: the self-imposed gate that lets the
    mentions endpoint be called at most once per `MENTIONS_MIN_DELAY`
    seconds, and the sleep after a too-many-requests error, computed from the
    `x-rate-limit-reset` header. */
module Backoff {
  import opened Platform
  import opened Text

  /** Shortest sleep after a too-many-requests error whose header parsed. */
  const ResetFloor := 60
  /** Sleep after a too-many-requests error without a usable header. */
  const ResetFallback := 300

  // ---------- the mentions throttle ----------

  /** The gate in `poll_mentions_throttled`: `last == 0` means no check has
      happened yet. */
  predicate MentionsDue(last: int, now: int, minDelay: int)
  {
    !(last != 0 && now - last < minDelay)
  }

  /** The times at which the mentions endpoint is actually called when the
      throttled poll runs at each of `times` in turn, starting from the last
      check `last`. */
  function FetchTimes(last: int, times: seq<int>, minDelay: int): seq<int>
    decreases |times|
  {
    if times == [] then []
    else if MentionsDue(last, times[0], minDelay) then [times[0]] + FetchTimes(times[0], times[1..], minDelay)
    else FetchTimes(last, times[1..], minDelay)
  }

  /** The first poll always fetches; after that, two fetches are never less
      than `minDelay` apart, and the first fetch after a check at `last` is
      at least `minDelay` after it. (A clock reading of exactly 0 would be
      taken for "never checked", hence the requirement.) */
  lemma {:induction false} FetchesSpaced(last: int, times: seq<int>, minDelay: int)
    requires forall i :: 0 <= i < |times| ==> times[i] != 0
    decreases |times|
    ensures var f := FetchTimes(last, times, minDelay);
      && (last == 0 && times != [] ==> f != [] && f[0] == times[0])
      && (last != 0 && f != [] ==> f[0] - last >= minDelay)
      && (forall i :: 0 <= i < |f| - 1 ==> f[i + 1] - f[i] >= minDelay)
  {
    if times != [] {
      FetchesSpaced(if MentionsDue(last, times[0], minDelay) then times[0] else last, times[1..], minDelay);
    }
  }

  // ---------- Python's int() on the reset header ----------

  predicate IsDigit(c: char)
  {
    '0' <= c <= '9'
  }

  /** The digit part `int()` accepts: ASCII digits, single underscores
      allowed between two digits. */
  predicate DigitGroups(t: string)
  {
    && |t| > 0 && IsDigit(t[0]) && IsDigit(t[|t| - 1])
    && forall i :: 0 <= i < |t| ==> IsDigit(t[i]) || (t[i] == '_' && i + 1 < |t| && IsDigit(t[i + 1]))
  }

  /** The number the digits spell, underscores ignored. */
  function DigitsValue(t: string): nat
  {
    if t == [] then 0
    else
      var n := |t| - 1;
      if IsDigit(t[n]) then DigitsValue(t[..n]) * 10 + (t[n] as int - '0' as int)
      else DigitsValue(t[..n])
  }

  /** The padding `int()` skips: Python's whitespace except the four ASCII
      separators U+001C to U+001F, which `str.isspace` counts as whitespace
      but `int()` refuses. */
  predicate IntSpace(c: char)
  {
    IsSpace(c) && !(28 <= c as int <= 31)
  }

  /** Drops the leading padding `int()` skips. */
  function TrimLeft(s: string): (r: string)
    ensures |r| <= |s|
    ensures r == [] || !IntSpace(r[0])
  {
    if s != [] && IntSpace(s[0]) then TrimLeft(s[1..]) else s
  }

  /** Drops the trailing padding `int()` skips. */
  function TrimRight(s: string): (r: string)
    ensures |r| <= |s|
    ensures r == [] || !IntSpace(r[|r| - 1])
  {
    if s != [] && IntSpace(s[|s| - 1]) then TrimRight(s[..|s| - 1]) else s
  }

  function IntStrip(s: string): string
  {
    TrimRight(TrimLeft(s))
  }

  /** What `TrimLeft` drops is padding, and all it drops is a prefix. */
  lemma {:induction false} TrimLeftParts(s: string)
    ensures s == s[..|s| - |TrimLeft(s)|] + TrimLeft(s)
    ensures forall i :: 0 <= i < |s| - |TrimLeft(s)| ==> IntSpace(s[i])
  {
    if s != [] && IntSpace(s[0]) {
      var t := s[1..];
      TrimLeftParts(t);
      assert TrimLeft(s) == TrimLeft(t);
      var k := |s| - |TrimLeft(s)|;
      assert s[..k] == [s[0]] + t[..k - 1];
      forall i | 0 <= i < k
        ensures IntSpace(s[i])
      {
        if i > 0 {
          assert s[i] == t[i - 1];
        }
      }
    }
  }

  /** What `TrimRight` drops is padding, and all it drops is a suffix. */
  lemma {:induction false} TrimRightParts(s: string)
    ensures s == TrimRight(s) + s[|TrimRight(s)|..]
    ensures forall i :: |TrimRight(s)| <= i < |s| ==> IntSpace(s[i])
  {
    if s != [] && IntSpace(s[|s| - 1]) {
      var p := s[..|s| - 1];
      TrimRightParts(p);
      var r := TrimRight(s);
      assert s[|r|..] == p[|r|..] + [s[|s| - 1]];
      assert s == p + [s[|s| - 1]];
      assert forall i :: |r| <= i < |s| - 1 ==> s[i] == p[i];
    }
  }

  /** Python's default cap on the digits `int()` converts from a string
      (since 3.11): more digits raise ValueError. */
  const MaxStrDigits := 4300

  /** The number of digits in `t`, underscores not counted. */
  function DigitCount(t: string): nat
  {
    if t == [] then 0
    else
      var n := |t| - 1;
      DigitCount(t[..n]) + (if IsDigit(t[n]) then 1 else 0)
  }

  /** `int(s)`: padding, an optional sign, then digit groups of at most
      `MaxStrDigits` digits; anything else is a ValueError (`None`). */
  function ParseInt(s: string): Option<int>
  {
    var t := IntStrip(s);
    var signed := t != [] && (t[0] == '-' || t[0] == '+');
    var d := if signed then t[1..] else t;
    if !DigitGroups(d) || DigitCount(d) > MaxStrDigits then None
    else
      var v: int := DigitsValue(d);
      Some(if signed && t[0] == '-' then -v else v)
  }

  /** `str(n)` for a natural number. */
  function NatToString(n: nat): (s: string)
    ensures |s| > 0
    ensures forall i :: 0 <= i < |s| ==> IsDigit(s[i])
  {
    var d := ['0' + (n % 10) as char];
    if n < 10 then d else NatToString(n / 10) + d
  }

  /** `str(i)` for an integer. */
  function IntToString(i: int): string
  {
    if i < 0 then "-" + NatToString(-i) else NatToString(i)
  }

  lemma {:induction false} DigitsOfNat(n: nat)
    ensures DigitsValue(NatToString(n)) == n
    ensures DigitCount(NatToString(n)) == |NatToString(n)|
  {
    var s := NatToString(n);
    if n >= 10 {
      DigitsOfNat(n / 10);
      assert s[..|s| - 1] == NatToString(n / 10);
    }
  }

  /** A string without padding at either end is left as it is. */
  lemma IntStripUnpadded(s: string)
    requires s != [] && !IntSpace(s[0]) && !IntSpace(s[|s| - 1])
    ensures IntStrip(s) == s
  {
    assert TrimLeft(s) == s;
    assert TrimRight(s) == s;
  }

  /** `str(n)` is all digits, so `int()` reads it as it stands. */
  lemma NatStringShape(n: nat)
    ensures DigitGroups(NatToString(n))
    ensures IntStrip(NatToString(n)) == NatToString(n)
  {
    var s := NatToString(n);
    assert IsDigit(s[0]) && IsDigit(s[|s| - 1]);
    IntStripUnpadded(s);
  }

  /** The decimal digits of `|i|`, as `str(i)` writes them. */
  function Magnitude(i: int): string
  {
    NatToString(if i < 0 then -i else i)
  }

  /** `int(str(i)) == i` whenever `str(i)` has at most `MaxStrDigits`
      digits: the header the platform writes is read back exactly. Longer
      ones are refused. */
  lemma ParseIntOfString(i: int)
    ensures |Magnitude(i)| <= MaxStrDigits ==> ParseInt(IntToString(i)) == Some(i)
    ensures |Magnitude(i)| > MaxStrDigits ==> ParseInt(IntToString(i)) == None
  {
    var m: nat := if i < 0 then -i else i;
    var digits := NatToString(m);
    DigitsOfNat(m);
    NatStringShape(m);
    if i < 0 {
      var s := "-" + digits;
      assert s[0] == '-' && s[1..] == digits && s[|s| - 1] == digits[|digits| - 1];
      IntStripUnpadded(s);
    } else {
      assert digits[0] != '-' && digits[0] != '+';
    }
  }

  /** Padding `int()` skips may surround a header on either side without
      changing what `int()` makes of it. */
  lemma PaddedInt(pre: string, h: string, post: string)
    requires forall k :: 0 <= k < |pre| ==> IntSpace(pre[k])
    requires forall k :: 0 <= k < |post| ==> IntSpace(post[k])
    requires h != [] && !IntSpace(h[0]) && !IntSpace(h[|h| - 1])
    ensures ParseInt(pre + h + post) == ParseInt(h)
  {
    PaddingTrimmed(pre, h, post);
    IntStripUnpadded(h);
  }

  lemma PaddingTrimmed(pre: string, h: string, post: string)
    requires forall k :: 0 <= k < |pre| ==> IntSpace(pre[k])
    requires forall k :: 0 <= k < |post| ==> IntSpace(post[k])
    requires h != [] && !IntSpace(h[0]) && !IntSpace(h[|h| - 1])
    ensures IntStrip(pre + h + post) == h
  {
    assert (h + post)[0] == h[0];
    TrimLeftPadding(pre, h + post);
    assert pre + h + post == pre + (h + post);
    TrimRightPadding(h, post);
  }

  lemma {:induction false} TrimLeftPadding(pre: string, s: string)
    requires forall k :: 0 <= k < |pre| ==> IntSpace(pre[k])
    requires s != [] && !IntSpace(s[0])
    ensures TrimLeft(pre + s) == s
  {
    if pre == [] {
      assert pre + s == s;
    } else {
      assert (pre + s)[0] == pre[0];
      assert (pre + s)[1..] == pre[1..] + s;
      TrimLeftPadding(pre[1..], s);
    }
  }

  lemma {:induction false} TrimRightPadding(s: string, post: string)
    requires forall k :: 0 <= k < |post| ==> IntSpace(post[k])
    requires s != [] && !IntSpace(s[|s| - 1])
    ensures TrimRight(s + post) == s
    decreases |post|
  {
    if post == [] {
      assert s + post == s;
    } else {
      var n := |post| - 1;
      assert (s + post)[|s + post| - 1] == post[n];
      assert (s + post)[..|s + post| - 1] == s + post[..n];
      TrimRightPadding(s, post[..n]);
    }
  }

  // ---------- the 429 wait ----------

  /** The sleep after a too-many-requests error in `main`: until the reset
      epoch given by the header, but at least `ResetFloor` seconds; when the
      header is missing or `int()` rejects it, `ResetFallback` seconds. */
  function RateLimitWait(resetHeader: Option<string>, now: int): (wait: int)
    ensures wait >= ResetFloor
  {
    var reset := if resetHeader.Some? then ParseInt(resetHeader.value) else None;
    if reset.Some? then
      if reset.value - now > ResetFloor then reset.value - now else ResetFloor
    else ResetFallback
  }

  /** With a well-formed header the bot sleeps exactly until the reset time,
      unless that is under a minute away (or already past). */
  lemma WaitUntilReset(reset: int, now: int)
    ensures |Magnitude(reset)| <= MaxStrDigits ==>
      RateLimitWait(Some(IntToString(reset)), now) >= reset - now
    ensures |Magnitude(reset)| <= MaxStrDigits ==>
      RateLimitWait(Some(IntToString(reset)), now) ==
        if reset - now > ResetFloor then reset - now else ResetFloor
    ensures |Magnitude(reset)| > MaxStrDigits ==>
      RateLimitWait(Some(IntToString(reset)), now) == ResetFallback
  {
    ParseIntOfString(reset);
  }

  /** No header, or one `int()` rejects, gives the five-minute fallback. */
  lemma WaitWithoutReset(now: int)
    ensures RateLimitWait(None, now) == ResetFallback
    ensures RateLimitWait(Some("soon"), now) == ResetFallback
  {
    IntStripUnpadded("soon");
    assert !DigitGroups("soon");
  }

  /** A character `int()` never accepts: not a digit, not an underscore,
      not a sign, not padding it skips (so U+001C to U+001F are foreign). */
  predicate Foreign(c: char)
  {
    !IsDigit(c) && c != '_' && c != '+' && c != '-' && !IntSpace(c)
  }

  /** Trimming keeps every character that is not padding. */
  lemma StripKeeps(s: string, k: nat)
    requires k < |s| && !IntSpace(s[k])
    ensures exists j :: 0 <= j < |IntStrip(s)| && IntStrip(s)[j] == s[k]
  {
    TrimLeftParts(s);
    var l := TrimLeft(s);
    var cut := |s| - |l|;
    assert k >= cut;
    var i := k - cut;
    assert l[i] == s[k] by {
      assert s[cut..] == l;
    }
    TrimRightParts(l);
    var t := TrimRight(l);
    assert i < |t|;
    assert l[..|t|] == t;
    assert IntStrip(s) == t && t[i] == s[k];
  }

  /** One character other than a digit or an underscore spoils the digits. */
  lemma NotDigitGroups(t: string, j: nat)
    requires j < |t| && !IsDigit(t[j]) && t[j] != '_'
    ensures !DigitGroups(t)
  {
    // the quantifier in DigitGroups fires on t[i] together with t[i + 1]
    if j + 1 < |t| {
      assert IsDigit(t[j + 1]) || !IsDigit(t[j + 1]);
    }
  }

  /** Any header holding a character `int()` never accepts gives the
      five-minute fallback. */
  lemma RejectedHeaderWait(h: string, k: nat, now: int)
    requires k < |h| && Foreign(h[k])
    ensures ParseInt(h).None?
    ensures RateLimitWait(Some(h), now) == ResetFallback
  {
    StripKeeps(h, k);
    var t := IntStrip(h);
    var j :| 0 <= j < |t| && t[j] == h[k];
    if t != [] && (t[0] == '-' || t[0] == '+') {
      assert j >= 1 && t[1..][j - 1] == h[k];
      NotDigitGroups(t[1..], j - 1);
    } else {
      NotDigitGroups(t, j);
    }
  }

  /** A header padded with an ASCII separator such as U+001C is refused
      by `int()`, though `str.isspace` counts it as whitespace. */
  lemma SeparatorPaddedHeader(now: int)
    ensures ParseInt("\U{1C}100").None?
    ensures RateLimitWait(Some("\U{1C}100"), now) == ResetFallback
  {
    RejectedHeaderWait("\U{1C}100", 0, now);
  }

  /** What the main loop sleeps after one cycle: the rate-limit wait after a
      too-many-requests error, otherwise (success or any other error) the
      poll interval. */
  function SleepAfter(failure: Option<Failure>, resetNow: int, pollInterval: int): (sleep: int)
    ensures failure.Some? && failure.value.RateLimited? ==> sleep >= ResetFloor
    ensures !(failure.Some? && failure.value.RateLimited?) ==> sleep == pollInterval
  {
    if failure.Some? && failure.value.RateLimited? then RateLimitWait(failure.value.resetHeader, resetNow)
    else pollInterval
  }
}
